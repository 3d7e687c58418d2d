/** The wire format between the steering loop and the rover controller: one
    message per transmitted command, the command's ASCII symbol followed by
    a line feed, on a plain byte stream with no other framing. */
module Wire {

  import opened Wrappers
  import opened Commands

  newtype byte = b: int | 0 <= b < 0x100

  const LineFeed: byte := 0x0A

  predicate IsAscii(s: string)
  {
    forall i :: 0 <= i < |s| ==> s[i] as int < 0x80
  }

  /** Python's str.encode() on an ASCII string: one byte per character, the
      byte being the character's code. */
  function Encode(s: string): (bs: seq<byte>)
    requires IsAscii(s)
    ensures |bs| == |s|
    ensures forall i :: 0 <= i < |s| ==> bs[i] as int == s[i] as int
  {
    seq(|s|, i requires 0 <= i < |s| => s[i] as int as byte)
  }

  /** The bytes sent for one command: its symbol, then a line feed. */
  function Message(c: Command): (m: seq<byte>)
    ensures |m| == 2 && m[1] == LineFeed
    ensures m[0] as int == Symbol(c) as int
    ensures ParseMessage(m) == Some(c)
  {
    var text := [Symbol(c)] + "\n";
    assert text[0] == Symbol(c) && text[1] == '\n';
    Encode(text)
  }

  /** What the receiving end reads from one two-byte message, if it is a
      well-formed one. */
  function ParseMessage(m: seq<byte>): (r: Option<Command>)
    ensures r.Some? ==> |m| == 2 && m[1] == LineFeed
  {
    if |m| == 2 && m[1] == LineFeed && m[0] < 0x80 then CommandOf(m[0] as int as char)
    else None
  }

  /** Only the message of a command parses as that command: the encoding is
      injective and the parser accepts nothing else. */
  lemma ParseMessageOnlyMessages(m: seq<byte>, c: Command)
    ensures ParseMessage(m) == Some(c) <==> m == Message(c)
  {
    if ParseMessage(m) == Some(c) {
      var msg := Message(c);
      assert m[0] as int == Symbol(c) as int == msg[0] as int;
      assert m == [m[0], m[1]];
      assert msg == [msg[0], msg[1]];
    }
  }

  /** The byte stream of a sequence of transmitted commands: their
      messages back to back, two bytes each. */
  function Frames(cmds: seq<Command>): (bs: seq<byte>)
    ensures |bs| == 2 * |cmds|
    decreases |cmds|
  {
    if |cmds| == 0 then [] else Message(cmds[0]) + Frames(cmds[1..])
  }

  /** Position by position, the stream holds each command's symbol at an
      even offset and a line feed right after it. */
  lemma {:induction false} FramesAt(cmds: seq<Command>, i: nat)
    requires i < |cmds|
    ensures Frames(cmds)[2 * i] as int == Symbol(cmds[i]) as int
    ensures Frames(cmds)[2 * i + 1] == LineFeed
    decreases |cmds|
  {
    if i > 0 {
      FramesAt(cmds[1..], i - 1);
      assert Frames(cmds)[2 * i] == Frames(cmds[1..])[2 * (i - 1)];
      assert Frames(cmds)[2 * i + 1] == Frames(cmds[1..])[2 * (i - 1) + 1];
    }
  }

  lemma {:induction false} FramesAppend(a: seq<Command>, b: seq<Command>)
    ensures Frames(a + b) == Frames(a) + Frames(b)
    decreases |a|
  {
    if |a| == 0 {
      assert a + b == b;
    } else {
      assert (a + b)[1..] == a[1..] + b;
      FramesAppend(a[1..], b);
    }
  }

  /** The receiving side: split a stream into two-byte messages and read
      each; None when some message is malformed or a message is cut off. */
  function ParseStream(bs: seq<byte>): (r: Option<seq<Command>>)
    ensures r.Some? ==> |bs| == 2 * |r.value|
    decreases |bs|
  {
    if |bs| == 0 then Some([])
    else if |bs| < 2 then None
    else
      match ParseMessage(bs[..2])
      case None => None
      case Some(c) =>
        match ParseStream(bs[2..])
        case None => None
        case Some(rest) => Some([c] + rest)
  }

  /** The controller recovers exactly the transmitted commands, in order,
      from the stream. */
  lemma {:induction false} ParseFrames(cmds: seq<Command>)
    ensures ParseStream(Frames(cmds)) == Some(cmds)
    decreases |cmds|
  {
    if |cmds| > 0 {
      var bs := Frames(cmds);
      assert bs[..2] == Message(cmds[0]);
      assert bs[2..] == Frames(cmds[1..]);
      ParseFrames(cmds[1..]);
      assert [cmds[0]] + cmds[1..] == cmds;
    }
  }

  /** The last message of a non-empty stream is that of the last command. */
  lemma {:induction false} FramesLast(cmds: seq<Command>)
    requires |cmds| > 0
    ensures Frames(cmds)[2 * |cmds| - 2..] == Message(cmds[|cmds| - 1])
    decreases |cmds|
  {
    var head, rest := Message(cmds[0]), Frames(cmds[1..]);
    assert Frames(cmds) == head + rest;
    if |cmds| == 1 {
      assert rest == [];
    } else {
      FramesLast(cmds[1..]);
      assert (head + rest)[2 * |cmds| - 2..] == rest[2 * |cmds| - 4..];
    }
  }
}
