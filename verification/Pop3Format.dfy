/**
 The multi-line responses of POP3 (section 3 of RFC 1939): lines that begin with the termination octet
 are stuffed with another one, and a line with nothing but that octet ends the response.
 */
module Pop3Format {

  newtype Byte = b: int | 0 <= b < 256

  const CR: Byte := 13
  const LF: Byte := 10
  const DOT: Byte := 46

  /** `newline`: the next byte starts a line. `eat`: the last byte was a dot at the start of a line. */
  datatype Parsed =
    | More(data: seq<Byte>, newline: bool, eat: bool)
    | Done(data: seq<Byte>, used: nat)

  function Prepend(d: seq<Byte>, n: nat, p: Parsed): Parsed {
    match p
    case More(data, newline, eat) => More(d + data, newline, eat)
    case Done(data, used) => Done(d + data, n + used)
  }

  /** One byte that does not end the message. */
  function Step(b: Byte, newline: bool): Parsed {
    if b == LF then More([b], true, false)
    else if b == DOT && newline then More([], false, true)
    else More([b], false, false)
  }

  /**
   What a byte-by-byte receiver makes of the bytes `w`: the message data, and either the state it is
   left in or the number of bytes up to the CR that follows the terminating dot.
   */
  function Unstuff(w: seq<Byte>, newline: bool, eat: bool): Parsed {
    if w == [] then More([], newline, eat)
    else if w[0] == CR && eat then Done([], 1)
    else
      var s := Step(w[0], newline);
      Prepend(s.data, 1, Unstuff(w[1..], s.newline, s.eat))
  }

  /** A receiver may stop between any two bytes and go on from the state it was left in. */
  lemma {:induction false} UnstuffAppend(a: seq<Byte>, b: seq<Byte>, newline: bool, eat: bool)
    ensures Unstuff(a + b, newline, eat) ==
            match Unstuff(a, newline, eat)
            case More(d, nl, e) => Prepend(d, |a|, Unstuff(b, nl, e))
            case Done(d, used) => Done(d, used)
  {
    if a == [] {
      assert a + b == b;
      PrependNothing(Unstuff(b, newline, eat));
    } else if a[0] == CR && eat {
    } else {
      var s := Step(a[0], newline);
      assert (a + b)[1..] == a[1..] + b;
      UnstuffAppend(a[1..], b, s.newline, s.eat);
      match Unstuff(a[1..], s.newline, s.eat)
      case More(d, nl, e) =>
        PrependTwice(s.data, 1, d, |a| - 1, Unstuff(b, nl, e));
      case Done(d, used) =>
    }
  }

  lemma PrependNothing(p: Parsed)
    ensures Prepend([], 0, p) == p
  {
  }

  lemma PrependTwice(d: seq<Byte>, n: nat, e: seq<Byte>, m: nat, p: Parsed)
    ensures Prepend(d, n, Prepend(e, m, p)) == Prepend(d + e, n + m, p)
  {
    assert d + (e + p.data) == d + e + p.data;
  }

  lemma UnstuffNothing(newline: bool, eat: bool)
    ensures Unstuff([], newline, eat) == More([], newline, eat)
  {
  }

  lemma UnstuffEnd(w: seq<Byte>, newline: bool)
    requires w != [] && w[0] == CR
    ensures Unstuff(w, newline, true) == Done([], 1)
  {
  }

  /** The effect of one more byte. */
  lemma UnstuffOne(a: seq<Byte>, b: Byte, newline: bool, eat: bool)
    requires Unstuff(a, newline, eat).More?
    ensures var p := Unstuff(a, newline, eat);
            Unstuff(a + [b], newline, eat) ==
              if b == CR && p.eat then Done(p.data, |a| + 1)
              else More(p.data + Step(b, p.newline).data, Step(b, p.newline).newline, Step(b, p.newline).eat)
  {
    var p := Unstuff(a, newline, eat);
    UnstuffAppend(a, [b], newline, eat);
    assert p.data + [] == p.data;
    assert Unstuff([b], p.newline, p.eat) == if b == CR && p.eat then Done([], 1) else
        Prepend(Step(b, p.newline).data, 1, Unstuff([], Step(b, p.newline).newline, Step(b, p.newline).eat));
    assert Step(b, p.newline).data + [] == Step(b, p.newline).data;
  }

  /** The receiver is at the start of a line exactly after a line feed. */
  lemma {:induction false} NewlineIsLast(a: seq<Byte>, newline: bool, eat: bool)
    requires Unstuff(a, newline, eat).More?
    ensures Unstuff(a, newline, eat).newline == if a == [] then newline else a[|a| - 1] == LF
  {
    if a != [] {
      var n := |a| - 1;
      assert a[..n] + [a[n]] == a;
      UnstuffAppend(a[..n], [a[n]], newline, eat);
      UnstuffOne(a[..n], a[n], newline, eat);
    }
  }

  /** Every dot at the start of a line is doubled. */
  function Stuff(m: seq<Byte>, newline: bool): seq<Byte> {
    if m == [] then [] else
      (if m[0] == DOT && newline then [DOT, DOT] else [m[0]]) + Stuff(m[1..], m[0] == LF)
  }

  /** After a message of complete lines comes the termination line: a dot, a carriage return and a line feed. */
  function Wire(m: seq<Byte>): seq<Byte> {
    Stuff(m, true) + [46, 13, 10]
  }

  predicate CompleteLines(m: seq<Byte>) {
    m == [] || m[|m| - 1] == LF
  }

  /** One byte of the message, doubled or not, comes out as that byte. */
  lemma UnstuffFirst(b: Byte, newline: bool)
    ensures Unstuff(if b == DOT && newline then [DOT, DOT] else [b], newline, false) == More([b], b == LF, false)
  {
    UnstuffNothing(newline, false);
    UnstuffOne([], b, newline, false);
    assert [] + [b] == [b];
    if b == DOT && newline {
      UnstuffOne([DOT], DOT, newline, false);
      assert [DOT] + [DOT] == [DOT, DOT];
    }
  }

  lemma {:induction false} UnstuffStuff(m: seq<Byte>, newline: bool)
    ensures Unstuff(Stuff(m, newline), newline, false)
         == More(m, if m == [] then newline else m[|m| - 1] == LF, false)
  {
    if m != [] {
      var first := if m[0] == DOT && newline then [DOT, DOT] else [m[0]];
      UnstuffFirst(m[0], newline);
      UnstuffStuff(m[1..], m[0] == LF);
      assert Stuff(m, newline) == first + Stuff(m[1..], m[0] == LF);
      hide Unstuff, Stuff;
      UnstuffAppend(first, Stuff(m[1..], m[0] == LF), newline, false);
      assert [m[0]] + m[1..] == m;
    }
  }

  /**
   Receiving inverts sending exactly if the message consists of complete lines: the receiver then
   stops at the CR of the termination line and has the message, whatever comes next.
   */
  lemma RoundTrip(m: seq<Byte>, rest: seq<Byte>)
    ensures Unstuff(Wire(m) + rest, true, false) == Done(m, |Wire(m)| - 1) <==> CompleteLines(m)
  {
    var s := Stuff(m, true);
    var tail := [DOT, CR, LF] + rest;
    assert Wire(m) + rest == s + tail;
    UnstuffStuff(m, true);
    UnstuffAppend(s, tail, true, false);
    assert tail[0] == DOT && tail[1..] == [CR, LF] + rest;
    assert tail[1..][0] == CR && tail[1..][1..] == [LF] + rest;
    if CompleteLines(m) {
      assert Unstuff(tail[1..], false, true) == Done([], 1);
      assert Unstuff(tail, true, false) == Prepend([], 1, Done([], 1));
      assert m + ([] + []) == m;
    } else {
      var p := Unstuff(tail, false, false);
      assert p == Prepend([DOT], 1, Unstuff(tail[1..], false, false));
      assert |p.data| >= 1;
      assert |(m + p.data)| > |m|;
    }
  }

  /** A message given as lines without their line ends. */
  function Message(lines: seq<seq<Byte>>): seq<Byte> {
    if lines == [] then [] else lines[0] + [13, 10] + Message(lines[1..])
  }

  /** The same message on the wire, as the standard describes it: line by line. */
  function StuffedLines(lines: seq<seq<Byte>>): seq<Byte> {
    if lines == [] then [] else
      (if lines[0] != [] && lines[0][0] == 46 then [46] else []) + lines[0] + [13, 10] + StuffedLines(lines[1..])
  }

  lemma {:induction false} StuffLine(line: seq<Byte>, rest: seq<Byte>, newline: bool)
    requires LF !in line
    ensures Stuff(line + [CR, LF] + rest, newline)
         == (if newline && line != [] && line[0] == DOT then [DOT] else []) + line + [CR, LF] + Stuff(rest, true)
    decreases |line|
  {
    var m := line + [CR, LF] + rest;
    if line == [] {
      assert m[0] == CR && m[1..] == [LF] + rest;
      assert m[1..][0] == LF && m[1..][1..] == rest;
    } else {
      assert m[1..] == line[1..] + [CR, LF] + rest;
      StuffLine(line[1..], rest, false);
      assert line == [line[0]] + line[1..];
    }
  }

  /** For messages made of lines, stuffing byte by byte is the stuffing of the standard. */
  lemma {:induction false} StuffingIsByLine(lines: seq<seq<Byte>>)
    requires forall i :: 0 <= i < |lines| ==> LF !in lines[i]
    ensures Stuff(Message(lines), true) == StuffedLines(lines)
    ensures CompleteLines(Message(lines))
  {
    if lines != [] {
      StuffLine(lines[0], Message(lines[1..]), true);
      StuffingIsByLine(lines[1..]);
    }
  }
}
