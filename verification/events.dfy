/** The pygame events the application reacts to. */
module Events {
  import opened Geometry

  /** The keys the text field distinguishes; every other key is `OtherKey`. */
  datatype Key = Backspace | Return | Escape | OtherKey

  /** A pygame event, reduced to the fields the modelled code reads. Event types the application
      never looks at are `OtherEvent`. */
  datatype Event =
    | Quit
    | MouseMotion(pos: Point)
    | MouseDown(button: int, pos: Point)
    | MouseUp(button: int, pos: Point)
    | KeyDown(key: Key)
    | TextInput(text: string)
    | TextEditing(text: string, start: int, length: int)
    | OtherEvent

  /** The mouse events that count as user activity for the idle timer. */
  predicate IsMouse(e: Event) {
    e.MouseMotion? || e.MouseDown? || e.MouseUp?
  }
}
