/**
 The receive path of the POP3 slave: a socket that returns bytes in pieces of any size, the buffer for
 bytes read too far, and the pipelined download on top of them.
 */
module Pop3 {
  import opened Pop3Format

  const MAX_PACKET_LEN := 4096

  /** What fits of a status line when the response buffer is one packet less one byte. */
  const STATUS_LIMIT := MAX_PACKET_LEN - 2

  datatype Resp = Err | Ok | Cont | Invalid

  /** How the body of one message ended. */
  datatype Body = Complete | ConnectionLost

  /** The bytes up to and including the first line feed. */
  function Line(s: seq<Byte>): seq<Byte> {
    if s == [] then [] else if s[0] == LF then [LF] else [s[0]] + Line(s[1..])
  }

  lemma {:induction false} LineIs(s: seq<Byte>, n: nat)
    requires n < |s| && s[n] == LF && forall i :: 0 <= i < n ==> s[i] != LF
    ensures Line(s) == s[..n + 1]
  {
    if n > 0 {
      LineIs(s[1..], n - 1);
    }
  }

  /** Before the first line feed there is only the beginning of the line. */
  lemma {:induction false} LineBegins(s: seq<Byte>, n: nat)
    requires n <= |s| && LF in s && forall i :: 0 <= i < n ==> s[i] != LF
    ensures n < |Line(s)| <= |s|
  {
    if n > 0 {
      assert LF in s[1..];
      LineBegins(s[1..], n - 1);
    } else if s[0] != LF {
      assert LF in s[1..];
      LineBegins(s[1..], 0);
    }
  }

  /** `after` is what follows the first line of `before`. */
  ghost predicate LineThenRest(before: seq<Byte>, after: seq<Byte>) {
    before == Line(before) + after
  }

  predicate StartsWith(s: seq<Byte>, p: seq<Byte>) {
    |p| <= |s| && s[..|p|] == p
  }

  const OK_MARK: seq<Byte> := [43, 79, 75]
  const ERR_MARK: seq<Byte> := [45, 69, 82, 82]
  const CONT_MARK: seq<Byte> := [43, 32]

  function StatusOf(line: seq<Byte>): Resp {
    if StartsWith(line, OK_MARK) then Ok
    else if StartsWith(line, ERR_MARK) then Err
    else if StartsWith(line, CONT_MARK) then Cont
    else Invalid
  }

  /** The status indicators of a line: "+OK", "-ERR" or "+ "; without any of these the line is invalid. */
  ghost predicate Indicates(line: seq<Byte>, r: Resp) {
    && (r == Ok <==> |line| >= 3 && line[..3] == [43, 79, 75])
    && (r == Err <==> |line| >= 4 && line[..4] == [45, 69, 82, 82])
    && (r == Cont <==> |line| >= 2 && line[..2] == [43, 32])
  }

  lemma StatusIndicates(line: seq<Byte>)
    ensures Indicates(line, StatusOf(line))
  {
    assert |line| >= 3 ==> line[..3][0] == line[0] && line[..3][1] == line[1];
    assert |line| >= 4 ==> line[..4][0] == line[0];
    assert |line| >= 2 ==> line[..2][0] == line[0] && line[..2][1] == line[1];
  }

  lemma OkIndicated(reply: Reply, r: Resp)
    requires Indicates(reply.status, r)
    ensures r == Ok <==> reply.IsOk()
  {
  }

  /** A byte that is neither a line feed nor a dot. */
  const OTHER: Byte := 32

  /**
   How a chunk ends: with a line feed, with a dot at the start of a line, or otherwise. For a chunk of
   one byte the end of the previous chunk decides where the line started.
   */
  function EndingOf(chunk: seq<Byte>, ending: Byte): Byte
    requires chunk != []
  {
    var last := chunk[|chunk| - 1];
    if last == LF then LF
    else if last == DOT && (if |chunk| > 1 then chunk[|chunk| - 2] == LF else ending == LF) then DOT
    else OTHER
  }

  /** The end of the chunk tells the state of the receiver. */
  lemma EndingIsState(chunk: seq<Byte>, ending: Byte)
    requires chunk != [] && Unstuff(chunk, ending == LF, ending == DOT).More?
    ensures var p := Unstuff(chunk, ending == LF, ending == DOT);
            p.newline == (EndingOf(chunk, ending) == LF) && p.eat == (EndingOf(chunk, ending) == DOT)
  {
    var n := |chunk| - 1;
    assert chunk[..n] + [chunk[n]] == chunk;
    UnstuffAppend(chunk[..n], [chunk[n]], ending == LF, ending == DOT);
    UnstuffOne(chunk[..n], chunk[n], ending == LF, ending == DOT);
    NewlineIsLast(chunk[..n], ending == LF, ending == DOT);
  }

  function WithoutFirst(s: seq<Byte>): seq<Byte> {
    if s == [] then [] else s[1..]
  }

  /**
   What receiving a message from the bytes `all` must come to: the data, and as rest what follows the
   byte after the CR of the termination line; without a termination line the connection is lost.
   */
  ghost predicate Received(all: seq<Byte>, body: Body, out: seq<Byte>, rest: seq<Byte>) {
    match Unstuff(all, true, false)
    case Done(data, used) => body == Complete && out == data && used <= |all| && rest == WithoutFirst(all[used..])
    case More(data, _, _) => body == ConnectionLost && out == data && rest == []
  }

  lemma DoneIn(chunk: seq<Byte>, i: nat, newline: bool, eat: bool)
    requires i < |chunk| && Unstuff(chunk[..i], newline, eat).More?
    requires chunk[i] == CR && Unstuff(chunk[..i], newline, eat).eat
    ensures Unstuff(chunk, newline, eat) == Done(Unstuff(chunk[..i], newline, eat).data, i + 1)
  {
    SplitAt(chunk, i + 1);
    LastOf(chunk, i);
    hide Unstuff;
    UnstuffOne(chunk[..i], chunk[i], newline, eat);
    UnstuffAppend(chunk[..i + 1], chunk[i + 1..], newline, eat);
  }

  lemma SplitAt(s: seq<Byte>, n: nat)
    requires n <= |s|
    ensures s == s[..n] + s[n..]
  {
  }

  lemma LastOf(s: seq<Byte>, n: nat)
    requires n < |s|
    ensures s[..n + 1] == s[..n] + [s[n]]
  {
  }

  lemma TakeFrom(a: seq<Byte>, b: seq<Byte>, c: seq<Byte>, n: nat)
    requires n <= |b|
    ensures (a + b + c)[|a| + n..] == b[n..] + c
  {
  }

  /** The message ends within a chunk: what comes before and after the chunk falls into place. */
  lemma EndsInChunk(consumed: seq<Byte>, chunk: seq<Byte>, unread: seq<Byte>,
                    before: seq<Byte>, newline: bool, eat: bool, data: seq<Byte>, used: nat)
    requires Unstuff(consumed, true, false) == More(before, newline, eat)
    requires Unstuff(chunk, newline, eat) == Done(data, used) && used <= |chunk|
    ensures Unstuff(consumed + chunk + unread, true, false) == Done(before + data, |consumed| + used)
    ensures Received(consumed + chunk + unread, Complete, before + data, WithoutFirst(chunk[used..] + unread))
  {
    hide *;
    UnstuffInChunk(consumed, chunk, unread, before, newline, eat, data, used);
    ReceivedInChunk(consumed, chunk, unread, before + data, used);
  }

  lemma UnstuffInChunk(consumed: seq<Byte>, chunk: seq<Byte>, unread: seq<Byte>,
                       before: seq<Byte>, newline: bool, eat: bool, data: seq<Byte>, used: nat)
    requires Unstuff(consumed, true, false) == More(before, newline, eat)
    requires Unstuff(chunk, newline, eat) == Done(data, used)
    ensures Unstuff(consumed + chunk + unread, true, false) == Done(before + data, |consumed| + used)
  {
    hide Unstuff;
    UnstuffAppend(consumed, chunk + unread, true, false);
    UnstuffAppend(chunk, unread, newline, eat);
    Associative(consumed, chunk, unread);
  }

  lemma ReceivedInChunk(consumed: seq<Byte>, chunk: seq<Byte>, unread: seq<Byte>, data: seq<Byte>, used: nat)
    requires used <= |chunk|
    requires Unstuff(consumed + chunk + unread, true, false) == Done(data, |consumed| + used)
    ensures Received(consumed + chunk + unread, Complete, data, WithoutFirst(chunk[used..] + unread))
  {
    hide Unstuff, WithoutFirst;
    TakeFrom(consumed, chunk, unread, used);
  }

  /** The message ends with the two bytes at the front of a chunk. */
  lemma EndsAtFront(consumed: seq<Byte>, chunk: seq<Byte>, unread: seq<Byte>, before: seq<Byte>)
    requires Unstuff(consumed, true, false) == More(before, false, true)
    requires |chunk| > 1 && chunk[0] == CR && chunk[1] == LF
    ensures Unstuff(consumed + chunk + unread, true, false) == Done(before, |consumed| + 1)
    ensures Received(consumed + chunk + unread, Complete, before, chunk[2..] + unread)
  {
    UnstuffEnd(chunk, false);
    EndsInChunk(consumed, chunk, unread, before, false, true, [], 1);
    assert before + [] == before;
    assert WithoutFirst(chunk[1..] + unread) == chunk[2..] + unread;
  }

  lemma NeverEnds(all: seq<Byte>, data: seq<Byte>, newline: bool, eat: bool)
    requires Unstuff(all, true, false) == More(data, newline, eat)
    ensures Received(all, ConnectionLost, data, [])
  {
  }

  lemma Associative(a: seq<Byte>, b: seq<Byte>, c: seq<Byte>)
    ensures a + b + c == a + (b + c)
  {
  }

  /** What the server answers to one RETR or TOP: a status line, and after a positive one a message. */
  datatype Reply = Reply(status: seq<Byte>, message: seq<Byte>) {
    /** The status line begins with "+OK". */
    predicate IsOk() {
      |status| >= 3 && status[..3] == [43, 79, 75]
    }

    function Bytes(): seq<Byte> {
      status + if IsOk() then Wire(message) else []
    }

    /** One line within the limit, and a message of complete lines. */
    ghost predicate Proper() {
      && status != [] && status[|status| - 1] == LF && |status| <= STATUS_LIMIT
      && (forall i :: 0 <= i < |status| - 1 ==> status[i] != LF)
      && CompleteLines(message)
    }
  }

  function Stream(replies: seq<Reply>): seq<Byte> {
    if replies == [] then [] else replies[0].Bytes() + Stream(replies[1..])
  }

  function Messages(replies: seq<Reply>): seq<seq<Byte>> {
    seq(|replies|, i requires 0 <= i < |replies| => replies[i].message)
  }

  lemma {:induction false} StreamAppend(replies: seq<Reply>, r: Reply)
    ensures Stream(replies + [r]) == Stream(replies) + r.Bytes()
  {
    if replies == [] {
      assert Stream([r]) == r.Bytes() + Stream([]);
    } else {
      assert (replies + [r])[1..] == replies[1..] + [r];
      StreamAppend(replies[1..], r);
    }
  }

  lemma StreamHead(replies: seq<Reply>, k: nat, n: nat)
    requires k < n <= |replies|
    ensures Stream(replies[k..n]) == replies[k].Bytes() + Stream(replies[k + 1..n])
  {
    assert replies[k..n][0] == replies[k] && replies[k..n][1..] == replies[k + 1..n];
  }

  lemma StreamNext(replies: seq<Reply>, k: nat, n: nat)
    requires k <= n < |replies|
    ensures Stream(replies[k..n + 1]) == Stream(replies[k..n]) + replies[n].Bytes()
  {
    StreamAppend(replies[k..n], replies[n]);
    assert replies[k..n + 1] == replies[k..n] + [replies[n]];
  }

  lemma NothingLeft(replies: seq<Reply>)
    ensures forall n :: 0 <= n <= |replies| ==> Stream(replies[n..n]) == []
  {
  }

  /** The status line of a reply is found whatever follows it. */
  lemma StatusLine(r: Reply, rest: seq<Byte>)
    requires r.Proper()
    ensures LF in r.Bytes() + rest && Line(r.Bytes() + rest) == r.status
    ensures forall after :: LineThenRest(r.Bytes() + rest, after) ==>
            after == (if r.IsOk() then Wire(r.message) else []) + rest
  {
    var tail := (if r.IsOk() then Wire(r.message) else []) + rest;
    assert r.Bytes() + rest == r.status + tail;
    LineOf(r.status, tail);
    forall after | LineThenRest(r.status + tail, after)
      ensures after == tail
    {
      assert after == (r.status + after)[|r.status|..] == (r.status + tail)[|r.status|..] == tail;
    }
  }

  lemma LineOf(line: seq<Byte>, tail: seq<Byte>)
    requires line != [] && line[|line| - 1] == LF && forall i :: 0 <= i < |line| - 1 ==> line[i] != LF
    ensures LF in line + tail && Line(line + tail) == line
  {
    var n := |line| - 1;
    assert (line + tail)[n] == LF;
    LineIs(line + tail, n);
    assert (line + tail)[..n + 1] == line;
  }

  /** The message is received whole, and after it exactly its termination line is taken. */
  lemma MessageThenRest(m: seq<Byte>, rest: seq<Byte>)
    requires CompleteLines(m)
    ensures Unstuff(Wire(m) + rest, true, false).Done? && Unstuff(Wire(m) + rest, true, false).data == m
    ensures forall body, out, left :: Received(Wire(m) + rest, body, out, left) ==> body == Complete && left == rest
  {
    RoundTrip(m, rest);
    var n := |Wire(m)| - 1;
    assert (Wire(m) + rest)[n..] == [LF] + rest;
  }

  class POP3Protocol {
    /** No read ever fails. */
    const reliable: bool
    /** How many commands may be sent ahead of their replies. */
    const maxCommands: nat
    /** The commands that have been sent and whose status has not been read. */
    ghost var unanswered: nat
    /** What the server has sent and nobody has read yet. */
    var socket: seq<Byte>
    /** A read has failed. */
    var broken: bool
    var readBuffer: array<Byte>
    var readBufferLen: nat

    constructor (reliable: bool, maxCommands: nat)
      ensures Valid() && fresh(readBuffer) && socket == [] && Pending() == [] && !broken && unanswered == 0
      ensures this.reliable == reliable && this.maxCommands == maxCommands && readBuffer.Length == 4096
    {
      this.reliable, this.maxCommands, unanswered := reliable, maxCommands, 0;
      socket, broken := [], false;
      readBuffer := new Byte[MAX_PACKET_LEN];
      readBufferLen := 0;
    }

    ghost predicate Valid()
      reads this
    {
      && readBuffer.Length == MAX_PACKET_LEN && readBufferLen <= STATUS_LIMIT && (reliable ==> !broken)
      && unanswered <= maxCommands
    }

    /** Every byte that has arrived and has not been handed out. */
    ghost function Pending(): seq<Byte>
      reads this, readBuffer
      requires Valid()
    {
      readBuffer[..readBufferLen] + socket
    }

    /** One read from the socket: some of the waiting bytes, or nothing if there are none. */
    method Read(data: array<Byte>, offset: nat, len: nat) returns (n: nat)
      requires offset + len <= data.Length && len > 0 && (reliable ==> !broken)
      modifies this`socket, this`broken, data
      ensures reliable ==> !broken
      ensures n <= len && (n == 0 ==> broken || old(socket) == [])
      ensures data[offset..offset + n] + socket == old(socket)
      ensures data[..offset] == old(data[..offset])
      ensures broken ==> old(broken) || n == 0
      ensures n == 0 ==> socket == old(socket)
      ensures old(broken) ==> broken && n == 0
    {
      var fails := *;
      if broken || (fails && !reliable) || socket == [] {
        broken := broken || (fails && !reliable);
        return 0;
      }
      n :| 1 <= n <= len && n <= |socket|;
      forall i | 0 <= i < n {
        data[offset + i] := socket[i];
      }
      assert data[offset..offset + n] == socket[..n];
      socket := socket[n..];
    }

    /** Hands out the first `n` bytes of the buffer and moves the others to its front. */
    method HandOut(data: array<Byte>, n: nat)
      requires Valid() && n <= readBufferLen && n <= data.Length && data != readBuffer
      modifies this`readBufferLen, readBuffer, data
      ensures Valid() && readBufferLen == old(readBufferLen) - n
      ensures data[..n] + Pending() == old(Pending())
    {
      ghost var all := readBuffer[..readBufferLen];
      forall i | 0 <= i < n {
        data[i] := readBuffer[i];
      }
      readBufferLen := readBufferLen - n;
      forall i | 0 <= i < readBufferLen {
        readBuffer[i] := readBuffer[n + i];
      }
      assert data[..n] == all[..n] && readBuffer[..readBufferLen] == all[n..];
      assert data[..n] + (all[n..] + socket) == all + socket;
    }

    /** Bytes read too far earlier come first; the socket is asked only when there are none. */
    method MyRead(data: array<Byte>, len: nat) returns (n: nat)
      requires Valid() && 0 < len <= data.Length && data != readBuffer
      modifies this`socket, this`broken, this`readBufferLen, readBuffer, data
      ensures Valid() && n <= len && (n == 0 ==> broken || old(Pending()) == []) && (reliable ==> !broken)
      ensures data[..n] + Pending() == old(Pending())
      ensures broken ==> old(broken) || n == 0
      ensures old(broken) ==> broken
      ensures readBufferLen == if old(readBufferLen) <= len then 0 else old(readBufferLen) - len
    {
      if readBufferLen > 0 {
        var copyLen := if len < readBufferLen then len else readBufferLen;
        HandOut(data, copyLen);
        return copyLen;
      }
      n := Read(data, 0, len);
      assert data[0..n] == data[..n];
      assert readBuffer[..0] + socket == socket;
    }

    /**
     The bytes of one line, however many reads it takes to complete it. The line, with its line feed,
     must fit into `len` bytes.
     */
    method MyReadLine(data: array<Byte>, len: nat) returns (n: nat)
      requires Valid() && 0 < len <= STATUS_LIMIT && len < data.Length && data != readBuffer
      requires if broken then readBufferLen == 0
              else readBufferLen <= len && LF in Pending() && |Line(Pending())| <= len
      modifies this`socket, this`broken, this`readBufferLen, readBuffer, data
      ensures Valid() && readBufferLen <= len
      ensures broken ==> n == 0
      ensures old(broken) ==> broken
      ensures !broken ==> n == |Line(old(Pending()))| <= len && data[..n] == Line(old(Pending()))
      ensures data[n] == 0 && (broken ==> Pending() == old(Pending()))
      ensures !broken ==> LineThenRest(old(Pending()), Pending())
      ensures reliable ==> !broken
    {
      ghost var all := Pending();
      var copyLen := 0;
      while true
        invariant Valid() && copyLen <= readBufferLen <= len && broken == old(broken) && Pending() == all
        invariant broken ==> readBufferLen == 0
        invariant forall i :: 0 <= i < copyLen ==> all[i] != LF
        decreases |socket|
      {
        assert forall i :: 0 <= i < readBufferLen ==> all[i] == readBuffer[i];
        while copyLen < readBufferLen && readBuffer[copyLen] != LF
          invariant copyLen <= readBufferLen
          invariant forall i :: 0 <= i < copyLen ==> all[i] != LF
        {
          copyLen := copyLen + 1;
        }
        if !broken {
          LineBegins(all, copyLen);
        }
        if copyLen < readBufferLen || copyLen == len {
          LineIs(all, copyLen);
          copyLen := copyLen + 1;
          TakeLine(data, copyLen);
          SplitAt(all, copyLen);
          return copyLen;
        }
        var readLen := ReadMore(len);
        if readLen == 0 {
          data[0] := 0;
          return 0;
        }
      }
    }

    /** Reads on behind what the buffer holds. */
    method ReadMore(len: nat) returns (readLen: nat)
      requires Valid() && readBufferLen < len <= STATUS_LIMIT
      modifies this`socket, this`broken, this`readBufferLen, readBuffer
      ensures Valid() && readBufferLen == old(readBufferLen) + readLen <= len
      ensures readBuffer[..old(readBufferLen)] == old(readBuffer[..readBufferLen])
      ensures Pending() == old(Pending()) && (readLen > 0 ==> !broken && |socket| < |old(socket)|)
      ensures readLen == 0 ==> broken || old(socket) == []
      ensures old(broken) ==> broken && readLen == 0
    {
      ghost var got := readBuffer[..readBufferLen];
      readLen := Read(readBuffer, readBufferLen, len - readBufferLen);
      ghost var received := readBuffer[readBufferLen..readBufferLen + readLen];
      assert readBuffer[..readBufferLen + readLen] == got + received;
      assert got + received + socket == got + (received + socket);
      readBufferLen := readBufferLen + readLen;
    }

    /** Hands out a line of `n` bytes from the buffer, with a null byte behind it. */
    method TakeLine(data: array<Byte>, n: nat)
      requires Valid() && n <= readBufferLen && n < data.Length && data != readBuffer
      modifies this`readBufferLen, readBuffer, data
      ensures Valid() && readBufferLen == old(readBufferLen) - n
      ensures data[..n] == old(Pending())[..n] && data[n] == 0 && Pending() == old(Pending())[n..]
    {
      HandOut(data, n);
      ghost var line := data[..n];
      data[n] := 0;
      assert data[..n] == line;
    }

    /** The status of the next reply, to the first command that is unanswered. */
    method GetResponse() returns (r: Resp)
      requires Valid() && if broken then readBufferLen == 0 else LF in Pending() && |Line(Pending())| <= STATUS_LIMIT
      requires unanswered > 0
      modifies this`socket, this`broken, this`readBufferLen, this`unanswered, readBuffer
      ensures Valid() && unanswered == old(unanswered) - 1
      ensures broken ==> r == Invalid && Pending() == old(Pending())
      ensures old(broken) ==> broken
      ensures !broken ==> Indicates(Line(old(Pending())), r) && LineThenRest(old(Pending()), Pending())
      ensures reliable ==> !broken
    {
      var buf := new Byte[MAX_PACKET_LEN - 1];
      var n := MyReadLine(buf, STATUS_LIMIT);
      unanswered := unanswered - 1;
      var line := buf[..n];
      r := StatusOf(line);
      StatusIndicates(line);
    }

    /** Bytes read too far go back into the empty buffer. */
    method PutBack(buf: array<Byte>, from: nat, n: nat)
      requires Valid() && readBufferLen == 0 && from <= n <= buf.Length && n - from <= STATUS_LIMIT && buf != readBuffer
      modifies this`readBufferLen, readBuffer
      ensures Valid() && Pending() == buf[from..n] + socket
    {
      readBufferLen := n - from;
      forall i | 0 <= i < readBufferLen {
        readBuffer[i] := buf[from + i];
      }
      assert readBuffer[..readBufferLen] == buf[from..n];
    }

    /** Takes the byte after the CR at `i` as well and keeps what the chunk holds beyond it. */
    method DropLineFeed(buf: array<Byte>, i: nat, readlen: nat)
      requires Valid() && !broken && readBufferLen == 0
      requires i < readlen < MAX_PACKET_LEN == buf.Length && buf != readBuffer
      modifies this`socket, this`broken, this`readBufferLen, readBuffer, buf
      ensures Valid() && (broken ==> readBufferLen == 0) && (reliable ==> !broken)
      ensures !broken ==> Pending() == WithoutFirst(old(buf[..readlen])[i + 1..] + old(socket))
    {
      ghost var chunk := buf[..readlen];
      if i == readlen - 1 {
        var n := MyRead(buf, 1);
        assert chunk[i + 1..] + old(socket) == old(socket);
      } else if i < readlen - 2 {
        PutBack(buf, i + 2, readlen);
        assert WithoutFirst(chunk[i + 1..] + old(socket)) == chunk[i + 2..] + old(socket);
      } else {
        assert WithoutFirst(chunk[i + 1..] + old(socket)) == old(socket);
      }
    }

    /** The bytes of one chunk, copied without stuffing up to the end of the mail or of the chunk. */
    method UnstuffChunk(buf: array<Byte>, readlen: nat, newline0: bool, eat0: bool)
      returns (endOfMail: bool, piece: seq<Byte>, eat: bool)
      requires Valid() && !broken && readBufferLen == 0
      requires 0 < readlen < MAX_PACKET_LEN == buf.Length && buf != readBuffer
      modifies this`socket, this`broken, this`readBufferLen, readBuffer, buf
      ensures Valid()
      ensures match Unstuff(old(buf[..readlen]), newline0, eat0)
              case More(d, nl, e) =>
                && !endOfMail && piece == d && eat == e
                && !broken && readBufferLen == 0 && socket == old(socket)
              case Done(d, used) =>
                && endOfMail && piece == d && used <= readlen && (broken ==> readBufferLen == 0)
                && (!broken ==> Pending() == WithoutFirst(old(buf[..readlen])[used..] + old(socket)))
    {
      hide Unstuff, WithoutFirst;
      UnstuffNothing(newline0, eat0);
      var destbuf := new Byte[MAX_PACKET_LEN];
      var newline;
      endOfMail, newline, eat := false, newline0, eat0;
      ghost var chunk := buf[..readlen];
      var i, j := 0, 0;
      while i < readlen
        invariant 0 <= j <= i <= readlen && !endOfMail && buf[..readlen] == chunk
        invariant Valid() && !broken && readBufferLen == 0 && socket == old(socket)
        invariant Unstuff(chunk[..i], newline0, eat0) == More(destbuf[..j], newline, eat)
      {
        assert buf[i] == chunk[i];
        LastOf(chunk, i);
        UnstuffOne(chunk[..i], chunk[i], newline0, eat0);
        if buf[i] == CR && eat {
          endOfMail, piece := true, destbuf[..j];
          DoneIn(chunk, i, newline0, eat0);
          DropLineFeed(buf, i, readlen);
          return;
        } else if buf[i] == LF {
          newline, eat := true, false;
        } else if buf[i] == DOT && newline {
          newline, eat := false, true;
        } else {
          newline, eat := false, false;
        }
        if !eat {
          destbuf[j] := buf[i];
          j := j + 1;
        }
        i := i + 1;
      }
      assert chunk[..i] == chunk;
      piece := destbuf[..j];
    }

    /**
     The data of one message. Whatever pieces the bytes come in, the outcome is that of receiving them
     byte by byte: up to the CR of the termination line, and one more byte, the LF, is taken.
     */
    method ReceiveMessage() returns (body: Body, out: seq<Byte>)
      requires Valid() && !broken
      modifies this`socket, this`broken, this`readBufferLen, readBuffer
      ensures Valid() && (broken && body == Complete ==> readBufferLen == 0)
      ensures body == Complete ==>
              Unstuff(old(Pending()), true, false).Done? && Unstuff(old(Pending()), true, false).data == out
      ensures !broken ==> Received(old(Pending()), body, out, Pending())
      ensures reliable ==> !broken
    {
      hide Unstuff, Received, WithoutFirst, EndingOf;
      UnstuffNothing(true, false);
      var buf := new Byte[MAX_PACKET_LEN];
      out := [];
      var ending, eat := LF, false;
      ghost var all: seq<Byte>, consumed: seq<Byte> := Pending(), [];
      while true
        invariant Valid() && !broken
        invariant consumed + Pending() == all
        invariant Unstuff(consumed, true, false) == More(out, ending == LF, ending == DOT)
        invariant eat == (ending == DOT)
        decreases |Pending()|
      {
        ghost var before := Pending();
        var readlen := MyRead(buf, MAX_PACKET_LEN - 1);
        if readlen == 0 {
          assert !broken ==> consumed == all && Pending() == [];
          NeverEnds(consumed, out, ending == LF, ending == DOT);
          return ConnectionLost, out;
        }
        ghost var chunk, unread := buf[..readlen], socket;
        assert Pending() == unread;
        Associative(consumed, chunk, unread);
        if ending == DOT && readlen > 1 && buf[0] == CR && buf[1] == LF {
          EndsAtFront(consumed, chunk, unread, out);
          assert chunk[2..] == buf[2..readlen];
          PutBack(buf, 2, readlen);
          return Complete, out;
        }
        var endOfMail, piece;
        var next := EndingOf(buf[..readlen], ending);
        endOfMail, piece, eat := UnstuffChunk(buf, readlen, ending == LF, eat);
        if endOfMail {
          EndsInChunk(consumed, chunk, unread, out, ending == LF, ending == DOT, piece,
                      Unstuff(chunk, ending == LF, ending == DOT).used);
          return Complete, out + piece;
        }
        UnstuffAppend(consumed, chunk, true, false);
        EndingIsState(chunk, ending);
        out, ending, consumed := out + piece, next, consumed + chunk;
      }
    }

    /** A command is sent, which must not be one too many, and the server answers it when it gets to it. */
    method SendCommand(answer: seq<Byte>)
      requires Valid() && unanswered < maxCommands
      modifies this`socket, this`unanswered
      ensures Valid() && Pending() == old(Pending()) + answer && unanswered == old(unanswered) + 1
    {
      socket, unanswered := socket + answer, unanswered + 1;
      assert readBuffer[..readBufferLen] + old(socket) + answer == readBuffer[..readBufferLen] + socket;
    }

    /**
     The pipelined download: never more than `maxCommands` commands are unanswered, the k-th message delivered is the
     message of the k-th reply, and nothing of a reply is left over or lost. After a negative reply exactly the replies
     to the commands that are unanswered are still to come.
     */
    method Download(replies: seq<Reply>) returns (ok: bool, delivered: seq<seq<Byte>>)
      requires Valid() && !broken && Pending() == [] && unanswered == 0 < maxCommands
      requires forall i :: 0 <= i < |replies| ==> replies[i].Proper()
      modifies this`socket, this`broken, this`readBufferLen, this`unanswered, readBuffer
      ensures Valid()
      ensures delivered <= Messages(replies)
      ensures ok ==> delivered == Messages(replies) && unanswered == 0 && (!broken ==> Pending() == [])
      ensures !broken ==> (ok <==> forall i :: 0 <= i < |replies| ==> replies[i].IsOk())
      ensures !broken && !ok ==>
                && |delivered| + unanswered < |replies| && !replies[|delivered|].IsOk()
                && Pending() == Stream(replies[|delivered| + 1..|delivered| + 1 + unanswered])
      ensures reliable ==> !broken && (ok <==> forall i :: 0 <= i < |replies| ==> replies[i].IsOk())
    {
      hide Stream, Pending, Reply.Bytes, Reply.IsOk, Reply.Proper;
      NothingLeft(replies);
      var activeCommands, it := 0, 0;
      delivered := [];
      while it < |replies| || activeCommands > 0
        invariant Valid() && unanswered == activeCommands && (broken ==> readBufferLen == 0)
        invariant it == |delivered| + activeCommands <= |replies|
        invariant delivered <= Messages(replies)
        invariant forall i :: 0 <= i < |delivered| ==> replies[i].IsOk()
        invariant !broken ==> Pending() == Stream(replies[|delivered|..it])
        decreases |replies| - |delivered|
      {
        it, activeCommands := SendAhead(replies, it, activeCommands, |delivered|);
        StreamHead(replies, |delivered|, it);
        var received, out := TakeReply(replies[|delivered|], Stream(replies[|delivered| + 1..it]));
        if !received {
          return false, delivered;
        }
        activeCommands := activeCommands - 1;
        delivered := delivered + [out];
      }
      ok := true;
    }

    /** One reply: its status, and after a positive one its message. */
    method TakeReply(ghost reply: Reply, ghost rest: seq<Byte>) returns (ok: bool, out: seq<Byte>)
      requires Valid() && unanswered > 0 && reply.Proper() && (broken ==> readBufferLen == 0)
      requires !broken ==> Pending() == reply.Bytes() + rest
      modifies this`socket, this`broken, this`readBufferLen, this`unanswered, readBuffer
      ensures Valid() && unanswered == old(unanswered) - 1 && (ok && broken ==> readBufferLen == 0)
      ensures ok ==> reply.IsOk() && out == reply.message
      ensures !broken ==> (ok <==> reply.IsOk()) && Pending() == rest
      ensures old(broken) ==> broken
    {
      hide Unstuff, Received, LineThenRest, Line, Wire, CompleteLines, Pending, Indicates, Reply.IsOk;
      StatusLine(reply, rest);
      MessageThenRest(reply.message, rest);
      out := [];
      var r := GetResponse();
      if !broken {
        OkIndicated(reply, r);
      }
      if r != Ok {
        assert !broken ==> Pending() == [] + rest;
        return false, out;
      }
      assert Pending() == Wire(reply.message) + rest;
      var body;
      body, out := ReceiveMessage();
      ok := body == Complete;
    }

    /** Sends commands until as many are unanswered as may be or there are none left to send. */
    method SendAhead(replies: seq<Reply>, it0: nat, active0: nat, ghost k: nat) returns (it: nat, active: nat)
      requires Valid() && it0 == k + active0 <= |replies| && active0 == unanswered && maxCommands > 0
      requires it0 < |replies| || active0 > 0
      requires broken ==> readBufferLen == 0
      requires !broken ==> Pending() == Stream(replies[k..it0])
      modifies this`socket, this`unanswered
      ensures Valid() && it == k + active <= |replies| && 0 < active == unanswered
      ensures it == |replies| || active == maxCommands
      ensures !broken ==> Pending() == Stream(replies[k..it])
    {
      it, active := it0, active0;
      while active < maxCommands && it < |replies|
        invariant Valid() && it == k + active <= |replies| && active == unanswered
        invariant it < |replies| || active > 0
        invariant !broken ==> Pending() == Stream(replies[k..it])
      {
        StreamNext(replies, k, it);
        SendCommand(replies[it].Bytes());
        active, it := active + 1, it + 1;
      }
    }
  }
}
