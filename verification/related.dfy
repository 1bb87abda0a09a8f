/** The constellation overlay: the selected sprite, the sprites of its parent components and the
    sprites of the characters it is a component of. Relationship keys that name no sprite on
    screen are dropped silently. */
module Related {
  import opened Wrappers
  import opened Sprites

  /** One entry of the relationship table: `parents` and `children` character lists. */
  datatype Links = Links(parents: seq<string>, children: seq<string>)

  /** The `for` loop over one character list: every listed character found in `index` adds the
      sprite it maps to; the others are skipped. */
  function AddPresent(acc: set<nat>, keys: seq<string>, index: map<string, nat>): (r: set<nat>)
    ensures forall i :: i in r <==> i in acc || exists k :: k in keys && k in index && index[k] == i
    decreases |keys|
  {
    if |keys| == 0 then acc
    else
      var acc' := if keys[0] in index then acc + {index[keys[0]]} else acc;
      var r := AddPresent(acc', keys[1..], index);
      assert forall k :: k in keys <==> k == keys[0] || k in keys[1..];
      r
  }

  /** `related_nodes` for the current selection (an index into `sprites`); `sprite_map` is the
      index of the last sprite of each character. */
  function RelatedNodes(selected: Option<nat>, sprites: seq<Sprite>, links: map<string, Links>): (r: set<nat>)
    requires selected.Some? ==> selected.value < |sprites|
    ensures selected.None? ==> r == {}
    ensures selected.Some? && sprites[selected.value].ch !in links ==> r == {}
    ensures selected.Some? && sprites[selected.value].ch in links ==>
              var l := links[sprites[selected.value].ch];
              var index := SpriteIndex(sprites);
              forall i :: i in r <==>
                || i == selected.value
                || (exists k :: k in l.parents && k in index && index[k] == i)
                || (exists k :: k in l.children && k in index && index[k] == i)
  {
    if selected.None? || sprites[selected.value].ch !in links then {}
    else
      var l := links[sprites[selected.value].ch];
      var index := SpriteIndex(sprites);
      AddPresent(AddPresent({selected.value}, l.parents, index), l.children, index)
  }

  /** Every related node is a sprite on screen, and the selection is in its own related set
      exactly when its character has a relationship entry. */
  lemma RelatedOnScreen(selected: Option<nat>, sprites: seq<Sprite>, links: map<string, Links>)
    requires selected.Some? ==> selected.value < |sprites|
    ensures forall i :: i in RelatedNodes(selected, sprites, links) ==> i < |sprites|
    ensures selected.Some? ==>
              (selected.value in RelatedNodes(selected, sprites, links) <==> sprites[selected.value].ch in links)
  {
    var r := RelatedNodes(selected, sprites, links);
    if selected.Some? && sprites[selected.value].ch in links {
      var l := links[sprites[selected.value].ch];
      var index := SpriteIndex(sprites);
      forall i | i in r ensures i < |sprites| {
        if i != selected.value {
          if exists k :: k in l.parents && k in index && index[k] == i {
            var k :| k in l.parents && k in index && index[k] == i;
          } else {
            var k :| k in l.children && k in index && index[k] == i;
          }
        }
      }
    }
  }

  /** The characters of the related sprites: the selected character together with every listed
      parent or child that has a sprite; a listed character without a sprite contributes nothing. */
  lemma RelatedChars(selected: nat, sprites: seq<Sprite>, links: map<string, Links>, c: string)
    requires selected < |sprites| && sprites[selected].ch in links
    ensures var l := links[sprites[selected].ch];
            var r := RelatedNodes(Some(selected), sprites, links);
            (exists i :: i in r && i < |sprites| && sprites[i].ch == c) <==>
              || c == sprites[selected].ch
              || ((c in l.parents || c in l.children) && exists j :: 0 <= j < |sprites| && sprites[j].ch == c)
  {
    RelatedCharsListed(selected, sprites, links, c);
    RelatedCharsShown(selected, sprites, links, c);
  }

  /** Every related sprite's character is the selected one or a listed one. */
  lemma RelatedCharsListed(selected: nat, sprites: seq<Sprite>, links: map<string, Links>, c: string)
    requires selected < |sprites| && sprites[selected].ch in links
    ensures var l := links[sprites[selected].ch];
            var r := RelatedNodes(Some(selected), sprites, links);
            (exists i :: i in r && i < |sprites| && sprites[i].ch == c) ==>
              || c == sprites[selected].ch
              || ((c in l.parents || c in l.children) && exists j :: 0 <= j < |sprites| && sprites[j].ch == c)
  {
    var l := links[sprites[selected].ch];
    var r := RelatedNodes(Some(selected), sprites, links);
    var index := SpriteIndex(sprites);
    if exists i :: i in r && i < |sprites| && sprites[i].ch == c {
      var i :| i in r && i < |sprites| && sprites[i].ch == c;
      if i != selected {
        var k :| (k in l.parents || k in l.children) && k in index && index[k] == i;
        assert sprites[index[k]].ch == k;
      }
    }
  }

  /** The selected character and every listed character that has a sprite are shown as related. */
  lemma RelatedCharsShown(selected: nat, sprites: seq<Sprite>, links: map<string, Links>, c: string)
    requires selected < |sprites| && sprites[selected].ch in links
    ensures var l := links[sprites[selected].ch];
            var r := RelatedNodes(Some(selected), sprites, links);
            (|| c == sprites[selected].ch
             || ((c in l.parents || c in l.children) && exists j :: 0 <= j < |sprites| && sprites[j].ch == c))
            ==> exists i :: i in r && i < |sprites| && sprites[i].ch == c
  {
    var l := links[sprites[selected].ch];
    var r := RelatedNodes(Some(selected), sprites, links);
    var index := SpriteIndex(sprites);
    if c == sprites[selected].ch {
      assert selected in r;
    } else if (c in l.parents || c in l.children) && exists j :: 0 <= j < |sprites| && sprites[j].ch == c {
      assert c in index;
      assert index[c] in r;
    }
  }
}
