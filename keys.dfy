/** The key codes the event loop dispatches on (crossterm's `KeyCode`);
    every code the client does not look at is `Other`. */
module Keys {
  datatype KeyCode =
    | Char(c: char)
    | Enter
    | Backspace
    | Esc
    | Left
    | Right
    | Up
    | Down
    | Other
}
