// Keyboard input as the game code consumes it: the set of keys held this frame
// (pygame.key.get_pressed) and the queue of events polled this frame.
module Input {

  /** The keys the game reacts to; every other key is `OtherKey`. */
  datatype Key =
    | KeyUp | KeyDown | KeyLeft | KeyRight
    | KeyW | KeyA | KeyS | KeyD
    | KeyLShift | KeyRShift
    | KeySpace | KeyReturn | KeyKpEnter
    | OtherKey(code: int)

  /** A polled event: a key press, or any other kind of event (mouse, quit, ...). */
  datatype Event = KeyPress(key: Key) | OtherEvent
}
