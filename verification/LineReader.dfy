/**
 Newline-delimited messages: how the daemon writes them (internal/protocol/protocol.go) and how the Python
 client takes them off the socket again (clients/python/pupptyeer_client.py).
 */
module LineReader {
  import opened Bytes

  const NEWLINE: byte := 0x0a

  predicate OneLine(s: seq<byte>) {
    NEWLINE !in s
  }

  /** Lines with their ends, one after the other. */
  function Terminated(lines: seq<seq<byte>>): seq<byte> {
    if lines == [] then [] else lines[0] + [NEWLINE] + Terminated(lines[1..])
  }

  lemma TerminatedSplit(a: seq<seq<byte>>, b: seq<seq<byte>>)
    ensures Terminated(a + b) == Terminated(a) + Terminated(b)
  {
    if a == [] {
      assert a + b == b;
    } else {
      assert (a + b)[1..] == a[1..] + b;
      TerminatedSplit(a[1..], b);
      Associative(a[0] + [NEWLINE], Terminated(a[1..]), Terminated(b));
    }
  }

  /** The length of the line at the front, without its end. */
  function LineLength(s: seq<byte>): (n: nat)
    requires NEWLINE in s
    ensures n < |s| && s[n] == NEWLINE && OneLine(s[..n])
  {
    if s[0] == NEWLINE then 0
    else
      var n := LineLength(s[1..]);
      assert s[..n + 1] == [s[0]] + s[1..][..n];
      n + 1
  }

  /** The complete lines of a stream, and what follows the last of them. */
  function Lines(s: seq<byte>): seq<seq<byte>> {
    if NEWLINE in s then [s[..LineLength(s)]] + Lines(s[LineLength(s) + 1..]) else []
  }

  function Tail(s: seq<byte>): seq<byte> {
    if NEWLINE in s then Tail(s[LineLength(s) + 1..]) else s
  }

  predicate AllOneLine(lines: seq<seq<byte>>) {
    forall l :: l in lines ==> OneLine(l)
  }

  lemma FrontLine(s: seq<byte>)
    requires NEWLINE in s
    ensures s == (s[..LineLength(s)] + [NEWLINE]) + s[LineLength(s) + 1..]
  {
  }

  lemma {:induction false} LinesCover(s: seq<byte>)
    ensures s == Terminated(Lines(s)) + Tail(s)
    ensures AllOneLine(Lines(s)) && OneLine(Tail(s))
    decreases |s|
  {
    if NEWLINE in s {
      var n := LineLength(s);
      var rest := s[n + 1..];
      LinesCover(rest);
      FrontLine(s);
      Absorb(s, s[..n] + [NEWLINE], Terminated(Lines(rest)), Tail(rest));
      assert Lines(s)[1..] == Lines(rest);
    }
  }

  lemma {:induction false} LineAtFront(l: seq<byte>, rest: seq<byte>)
    requires OneLine(l)
    ensures var s := l + [NEWLINE] + rest;
            NEWLINE in s && LineLength(s) == |l| && s[..|l|] == l && s[|l| + 1..] == rest
  {
    var s := l + [NEWLINE] + rest;
    assert s[|l|] == NEWLINE;
    if l != [] {
      assert s[1..] == l[1..] + [NEWLINE] + rest;
      LineAtFront(l[1..], rest);
    }
  }

  /** A stream splits into lines and an unfinished rest in one way only. */
  lemma {:induction false} LinesAreUnique(lines: seq<seq<byte>>, tail: seq<byte>)
    requires AllOneLine(lines) && OneLine(tail)
    ensures Lines(Terminated(lines) + tail) == lines
    ensures Tail(Terminated(lines) + tail) == tail
  {
    if lines == [] {
      assert Terminated(lines) + tail == tail;
    } else {
      var l, rest := lines[0], Terminated(lines[1..]) + tail;
      assert l in lines;
      Associative(l + [NEWLINE], Terminated(lines[1..]), tail);
      LineAtFront(l, rest);
      LinesAreUnique(lines[1..], tail);
    }
  }

  /** However the stream is cut, the lines are the same, given that the unfinished one is kept. */
  lemma ChunkInvariance(a: seq<byte>, b: seq<byte>)
    ensures Lines(a + b) == Lines(a) + Lines(Tail(a) + b)
    ensures Tail(a + b) == Tail(Tail(a) + b)
  {
    var rest := Tail(a) + b;
    LinesCover(a);
    LinesCover(rest);
    Rejoin(a, b, Terminated(Lines(a)), Tail(a), Terminated(Lines(rest)), Tail(rest));
    TerminatedSplit(Lines(a), Lines(rest));
    LinesAreUnique(Lines(a) + Lines(rest), Tail(rest));
  }

  /** JSON, known only by this: printing gives non-empty text on one line, and parsing takes it back. */
  datatype Codec<!M> = Codec(write: M -> seq<byte>, parse: seq<byte> -> Option<M>)

  ghost predicate Faithful<M(!new)>(codec: Codec<M>) {
    forall m :: codec.write(m) != [] && OneLine(codec.write(m)) && codec.parse(codec.write(m)) == Some(m)
  }

  /** One message on the wire. */
  function Marshal<M>(codec: Codec<M>, m: M): seq<byte> {
    codec.write(m) + [NEWLINE]
  }

  function Wire<M>(codec: Codec<M>, ms: seq<M>): seq<byte> {
    if ms == [] then [] else Marshal(codec, ms[0]) + Wire(codec, ms[1..])
  }

  /** The messages in a list of lines: empty lines and lines that do not parse are passed over. */
  function Messages<M>(codec: Codec<M>, lines: seq<seq<byte>>): seq<M> {
    if lines == [] then []
    else
      (if lines[0] == [] then []
       else match codec.parse(lines[0]) case None => [] case Some(m) => [m])
      + Messages(codec, lines[1..])
  }

  lemma MessagesSplit<M>(codec: Codec<M>, a: seq<seq<byte>>, b: seq<seq<byte>>)
    ensures Messages(codec, a + b) == Messages(codec, a) + Messages(codec, b)
  {
    if a == [] {
      assert a + b == b;
    } else {
      assert (a + b)[1..] == a[1..] + b;
      MessagesSplit(codec, a[1..], b);
    }
  }

  /** A line that does not parse, or an empty one, changes nothing about the others; one that does is a message. */
  lemma LinesStandAlone<M>(codec: Codec<M>, before: seq<seq<byte>>, line: seq<byte>, behind: seq<seq<byte>>)
    ensures Messages(codec, before + [line] + behind)
         == Messages(codec, before)
            + (if line != [] && codec.parse(line).Some? then [codec.parse(line).value] else [])
            + Messages(codec, behind)
  {
    MessagesSplit(codec, before + [line], behind);
    MessagesSplit(codec, before, [line]);
    MessagesOfLine(codec, line, []);
    assert [line] + [] == [line];
  }

  function Printed<M>(codec: Codec<M>, ms: seq<M>): seq<seq<byte>> {
    if ms == [] then [] else [codec.write(ms[0])] + Printed(codec, ms[1..])
  }

  lemma {:induction false} WireIsTerminated<M(!new)>(codec: Codec<M>, ms: seq<M>)
    requires Faithful(codec)
    ensures Wire(codec, ms) == Terminated(Printed(codec, ms))
    ensures forall m :: Marshal(codec, m) == codec.write(m) + [0x0a]
    ensures AllOneLine(Printed(codec, ms))
    ensures Messages(codec, Printed(codec, ms)) == ms
  {
    if ms != [] {
      WireIsTerminated(codec, ms[1..]);
      assert Printed(codec, ms)[1..] == Printed(codec, ms[1..]);
      assert codec.parse(codec.write(ms[0])) == Some(ms[0]);
      assert ms == [ms[0]] + ms[1..];
    }
  }

  /** What is read from a stream of messages and an unfinished one are those messages; the unfinished one is kept. */
  lemma {:induction false} RoundTrip<M(!new)>(codec: Codec<M>, ms: seq<M>, unfinished: seq<byte>)
    requires Faithful(codec) && OneLine(unfinished)
    ensures Messages(codec, Lines(Wire(codec, ms) + unfinished)) == ms
    ensures Tail(Wire(codec, ms) + unfinished) == unfinished
  {
    WireIsTerminated(codec, ms);
    LinesAreUnique(Printed(codec, ms), unfinished);
  }

  /** The reading side of the client. */
  class Reader<M> {
    const codec: Codec<M>
    var buf: seq<byte>
    var routed: seq<M>  // the messages handed on, in order

    ghost var received: seq<byte>  // every byte taken off the socket

    ghost predicate Valid()
      reads this
    {
      && buf == Tail(received)
      && routed == Messages(codec, Lines(received))
    }

    constructor (codec: Codec<M>)
      ensures Valid() && this.codec == codec && received == []
    {
      this.codec := codec;
      buf, routed := [], [];
      received := [];
    }

    /** One turn of the read loop. */
    method OnChunk(chunk: seq<byte>)
      requires Valid()
      modifies this
      ensures Valid()
      ensures received == old(received) + chunk
    {
      hide Lines, Tail, Messages, LineLength;
      ChunkInvariance(received, chunk);
      MessagesSplit(codec, Lines(received), Lines(buf + chunk));
      received := received + chunk;
      buf := buf + chunk;
      ghost var all := Messages(codec, Lines(received));
      while NEWLINE in buf
        modifies `buf, `routed
        invariant Tail(buf) == Tail(received)
        invariant routed + Messages(codec, Lines(buf)) == all
        decreases |buf|
      {
        var n := LineLength(buf);
        var line := buf[..n];
        FirstLine(codec, buf, routed);
        buf := buf[n + 1..];
        if line == [] {
          continue;
        }
        match codec.parse(line)
        case None =>
        case Some(m) =>
          routed := routed + [m];
      }
      NoLine(codec, buf);
    }
  }

  lemma NoLine<M>(codec: Codec<M>, buf: seq<byte>)
    requires NEWLINE !in buf
    ensures Lines(buf) == [] && Tail(buf) == buf && Messages(codec, Lines(buf)) == []
  {
  }

  lemma FirstLine<M>(codec: Codec<M>, buf: seq<byte>, routed: seq<M>)
    requires NEWLINE in buf
    ensures var n := LineLength(buf);
            var line, rest := buf[..n], buf[n + 1..];
            && Tail(buf) == Tail(rest)
            && (line == [] || codec.parse(line).None? ==>
                  Messages(codec, Lines(buf)) == Messages(codec, Lines(rest)))
            && (line != [] && codec.parse(line).Some? ==>
                  routed + Messages(codec, Lines(buf))
                  == (routed + [codec.parse(line).value]) + Messages(codec, Lines(rest)))
  {
    var n := LineLength(buf);
    var line, rest := buf[..n], Lines(buf[n + 1..]);
    assert Lines(buf) == [line] + rest;
    MessagesOfLine(codec, line, rest);
    if line != [] && codec.parse(line).Some? {
      Associative(routed, [codec.parse(line).value], Messages(codec, rest));
    }
  }

  lemma MessagesOfLine<M>(codec: Codec<M>, line: seq<byte>, rest: seq<seq<byte>>)
    ensures Messages(codec, [line] + rest) ==
            if line != [] && codec.parse(line).Some? then [codec.parse(line).value] + Messages(codec, rest)
            else Messages(codec, rest)
  {
    assert ([line] + rest)[1..] == rest;
  }
}
