/** The five motion commands the steering loop can issue, and the
    one-character symbols they travel as on the wire. */
module Commands {

  import opened Wrappers

  datatype Command = Stop | Forward | Backward | Left | Right

  /** The wire symbol of a command: S, F, B, L or R. */
  function Symbol(c: Command): (ch: char)
    ensures ch in "SFBLR"
  {
    match c
    case Stop => 'S'
    case Forward => 'F'
    case Backward => 'B'
    case Left => 'L'
    case Right => 'R'
  }

  /** The command a symbol stands for, if any. */
  function CommandOf(ch: char): (r: Option<Command>)
    ensures r.Some? <==> ch in "SFBLR"
    ensures r.Some? ==> Symbol(r.value) == ch
  {
    match ch
    case 'S' => Some(Stop)
    case 'F' => Some(Forward)
    case 'B' => Some(Backward)
    case 'L' => Some(Left)
    case 'R' => Some(Right)
    case _ => None
  }

  /** Reading back a command's symbol gives the command: distinct commands
      have distinct symbols. */
  lemma SymbolRoundTrip(c: Command)
    ensures CommandOf(Symbol(c)) == Some(c)
  {
  }

  /** The command shown when the scene is mirrored left to right:
      turns swap, everything else stays. */
  function Opposite(c: Command): (r: Command)
    ensures r == Left <==> c == Right
    ensures r == Right <==> c == Left
    ensures r != Left && r != Right ==> r == c
  {
    match c
    case Left => Right
    case Right => Left
    case _ => c
  }
}
