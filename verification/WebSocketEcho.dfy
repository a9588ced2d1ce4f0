/**
 The echo server of websocket-echo.js. Bytes arrive in chunks of any size; what is sent
 back, up to and including the reply to the first close frame, is proved to depend on
 their concatenation alone.
 */
module WebSocketEcho {
  import opened Bits
  import opened Wrappers
  import opened WebSocketFrames

  const TEXT: Byte := 0x1
  const BINARY: Byte := 0x2
  const CLOSE: Byte := 0x8
  const PING: Byte := 0x9
  const PONG: Byte := 0xa

  /** What a connection has sent after some bytes, whether it was closed, and what is still unread. */
  datatype Echoed = Echoed(sent: seq<Byte>, closed: bool, left: seq<Byte>)
  {
    function After(earlier: seq<Byte>): Echoed {
      this.(sent := earlier + sent)
    }
  }

  /** The answer to a frame other than a close: pings are ponged, messages echoed, the rest ignored. */
  function Answer(f: Frame): seq<Byte>
    requires |f.payload| < MAX_LENGTH
  {
    if f.opcode == PING then Encode(Plain(PONG, f.payload))
    else if f.opcode == TEXT || f.opcode == BINARY then Encode(Plain(f.opcode, f.payload))
    else []
  }

  lemma {:induction false} PayloadFits(s: seq<Byte>)
    requires Parse(s).Complete?
    ensures |Parse(s).frame.payload| < MAX_LENGTH && |Parse(s).rest| < |s|
  {
    ParseIsSound(s);
    hide Parse, WireOf;
    assert |Encode(WireOf(s))| > 0;
    assert |Encode(WireOf(s)) + Parse(s).rest| == |s|;
  }

  function Replies(s: seq<Byte>): Echoed
    decreases |s|
  {
    match Parse(s)
    case Incomplete => Echoed([], false, s)
    case Complete(f, rest) =>
      PayloadFits(s);
      if f.opcode == CLOSE then Echoed(Encode(Plain(CLOSE, f.payload)), true, rest)
      else Replies(rest).After(Answer(f))
  }

  /** Bytes that arrive later are answered after, and independently of where the split was. */
  lemma {:induction false} RepliesAppend(s: seq<Byte>, more: seq<Byte>)
    ensures Replies(s + more) ==
      var e := Replies(s);
      if e.closed then e.(left := e.left + more) else Replies(e.left + more).After(e.sent)
    decreases |s|
  {
    if Parse(s).Complete? {
      PayloadFits(s);
      ParseExtends(s, more);
      var Complete(f, rest) := Parse(s);
      hide Parse, Answer, Encode;
      if f.opcode != CLOSE {
        RepliesAppend(rest, more);
        AfterTwice(Replies(Replies(rest).left + more), Answer(f), Replies(rest).sent);
      }
    } else {
      hide Parse, Answer, Encode;
      AfterNothing(Replies(s + more));
    }
  }

  lemma AfterTwice(e: Echoed, a: seq<Byte>, b: seq<Byte>)
    ensures e.After(b).After(a) == e.After(a + b)
  {
  }

  lemma AfterNothing(e: Echoed)
    ensures e.After([]) == e
  {
  }

  function Bytes(ws: seq<Wire>): seq<Byte>
    requires forall w <- ws :: w.Valid()
  {
    if ws == [] then [] else Encode(ws[0]) + Bytes(ws[1..])
  }

  /** The answers to a client's frames, up to the first close. */
  function Answers(ws: seq<Wire>): Echoed
    requires forall w <- ws :: w.Valid()
  {
    if ws == [] then Echoed([], false, [])
    else
      assert ws[0].Valid();
      var f := ws[0].Content();
      if f.opcode == CLOSE then Echoed(Encode(Plain(CLOSE, f.payload)), true, Bytes(ws[1..]))
      else Answers(ws[1..]).After(Answer(f))
  }

  /** A client that sends whole frames, masked and sized as it likes, gets an answer to each of them. */
  lemma {:induction false} EveryFrameIsAnswered(ws: seq<Wire>)
    requires forall w <- ws :: w.Valid()
    ensures Replies(Bytes(ws)) == Answers(ws)
  {
    if ws != [] {
      EveryFrameIsAnswered(ws[1..]);
      ParseUndoesEncode(ws[0], Bytes(ws[1..]));
      hide Parse, Encode, Answer;
    }
  }

  // ----- The server -----------------------------------------------------------

  /** The writing half of the connection; writes after its end are lost. */
  class Socket {
    var sent: seq<Byte>
    var ended: bool

    constructor ()
      ensures sent == [] && !ended
    {
      sent, ended := [], false;
    }

    method Write(bytes: seq<Byte>)
      modifies `sent
      ensures sent == if ended then old(sent) else old(sent) + bytes
    {
      if !ended {
        sent := sent + bytes;
      }
    }

    method End()
      modifies `ended
      ensures ended
    {
      ended := true;
    }
  }

  /** `writeUInt16BE` and `writeBigUInt64BE`. */
  method WriteBigEndian(header: array<Byte>, size: nat, n: nat)
    requires header.Length == 2 + size
    modifies header
    ensures header[..2] == old(header[..2]) && header[2..] == BigEndian(n, size)
  {
    var i, rest := size, n;
    assert BigEndian(n, size) + header[2 + size..] == BigEndian(n, size);
    while i > 0
      invariant 0 <= i <= size
      invariant header[..2] == old(header[..2])
      invariant BigEndian(n, size) == BigEndian(rest, i) + header[2 + i..]
    {
      header[1 + i] := rest % 256;
      rest, i := rest / 256, i - 1;
    }
  }

  /** The header of a final, unmasked frame. */
  method Header(opcode: Byte, length: nat) returns (header: array<Byte>)
    requires opcode < 16
    ensures fresh(header)
    ensures header[..] == [128 + opcode] + LengthField(FormOf(length), false, length)
  {
    if length < 126 {
      header := new Byte[2];
      header[1] := length;
    } else if length < 65536 {
      header := new Byte[4];
      header[1] := 126;
      WriteBigEndian(header, 2, length);
    } else {
      header := new Byte[10];
      header[1] := 127;
      WriteBigEndian(header, 8, length);
    }
    hide BitOr, BigEndian;
    OrHighBit(128, opcode);
    header[0] := BitOr(0x80, opcode);
    assert header[..] == [header[0]] + [header[1]] + header[2..];
    assert LengthField(FormOf(length), false, length) == [header[1]] + header[2..];
    hide LengthField, FormOf;
  }

  method WriteFrame(socket: Socket, opcode: Byte, payload: seq<Byte>)
    requires opcode < 16 && |payload| < MAX_LENGTH
    modifies socket
    ensures socket.ended == old(socket.ended)
    ensures socket.sent == if socket.ended then old(socket.sent) else old(socket.sent) + Encode(Plain(opcode, payload))
  {
    var header := Header(opcode, |payload|);
    hide LengthField;
    socket.Write(header[..] + payload);
  }

  /** The length field of a frame, or nothing when it has not arrived yet. */
  method ReadLength(buffer: seq<Byte>) returns (r: Option<(nat, nat)>)
    requires |buffer| >= 2
    ensures r == ParseLength(buffer)
  {
    var length := BitAnd(buffer[1], 0x7f);
    var offset := 2;
    AndLowSeven(buffer[1]);
    if length == 126 {
      if |buffer| < 4 {
        return None;
      }
      length := FromBigEndian(buffer[2..4]);
      offset := 4;
    } else if length == 127 {
      if |buffer| < 10 {
        return None;
      }
      length := FromBigEndian(buffer[2..10]);
      offset := 10;
    }
    return Some((offset, length));
  }

  method Unmask(payload: array<Byte>, mask: seq<Byte>)
    requires |mask| == 4
    modifies payload
    ensures payload[..] == Masked(old(payload[..]), mask)
  {
    var index := 0;
    while index < payload.Length
      invariant 0 <= index <= payload.Length
      invariant forall i | 0 <= i < index :: payload[i] == MaskByte(old(payload[i]), mask[i % 4])
      invariant forall i | index <= i < payload.Length :: payload[i] == old(payload[i])
    {
      payload[index] := MaskByte(payload[index], mask[index % 4]);
      index := index + 1;
    }
  }

  method TryReadFrame(buffer: seq<Byte>) returns (r: Read)
    ensures r == Parse(buffer)
  {
    if |buffer| < 2 {
      return Incomplete;
    }
    var opcode, masked := FirstTwo(buffer[0], buffer[1]);
    var at := ReadLength(buffer);
    hide ParseLength, ParseBody, HighBit;
    if at.None? {
      return Incomplete;
    }
    var (offset, length) := at.value;
    r := ReadBody(opcode, masked, length, buffer[offset..]);
    SameOpcode(buffer[0], opcode, masked, length, buffer[offset..]);
  }

  /** Only the low four bits of the first byte are read. */
  lemma SameOpcode(first: Byte, opcode: Byte, masked: bool, length: nat, body: seq<Byte>)
    requires opcode == first % 16
    ensures ParseBody(first, masked, length, body) == ParseBody(opcode, masked, length, body)
  {
  }

  method FirstTwo(first: Byte, second: Byte) returns (opcode: Byte, masked: bool)
    ensures opcode == first % 16 && masked == HighBit(second)
  {
    AndLowFour(first);
    AndHighBit(second);
    opcode := BitAnd(first, 0x0f);
    masked := BitAnd(second, 0x80) != 0;
  }

  method ReadBody(opcode: Byte, masked: bool, length: nat, body: seq<Byte>) returns (r: Read)
    requires opcode < 16
    ensures r == ParseBody(opcode, masked, length, body)
  {
    var maskSize := if masked then 4 else 0;
    if |body| < maskSize + length {
      return Incomplete;
    }
    var raw := body[maskSize..maskSize + length];
    var payload := new Byte[|raw|](i requires 0 <= i < |raw| => raw[i]);
    assert payload[..] == raw;
    if masked {
      Unmask(payload, body[..4]);
    }
    return Complete(Frame(opcode, payload[..]), body[maskSize + length..]);
  }

  class Echo {
    const socket: Socket
    var buffer: seq<Byte>
    ghost const preamble: seq<Byte>
    ghost var received: seq<Byte>

    /** What was sent is the answer to what was received, however it was cut up. */
    ghost predicate Valid()
      reads this, socket
    {
      var e := Replies(received);
      && socket.sent == preamble + e.sent
      && socket.ended == e.closed
      && (!e.closed ==> buffer == e.left)
    }

    constructor (socket: Socket)
      requires !socket.ended
      ensures Valid() && this.socket == socket && received == []
    {
      this.socket, buffer, preamble, received := socket, [], socket.sent, [];
    }

    /** Answers one frame; a close also ends the socket and the reading. */
    method Handle(frame: Frame) returns (stop: bool)
      requires |frame.payload| < MAX_LENGTH
      modifies socket
      ensures stop <==> frame.opcode == CLOSE
      ensures socket.ended == (old(socket.ended) || stop)
      ensures socket.sent ==
        if old(socket.ended) then old(socket.sent)
        else old(socket.sent) + if stop then Encode(Plain(CLOSE, frame.payload)) else Answer(frame)
    {
      hide Encode;
      if frame.opcode == CLOSE {
        WriteFrame(socket, CLOSE, frame.payload);
        socket.End();
        return true;
      }
      if frame.opcode == PING {
        WriteFrame(socket, PONG, frame.payload);
        return false;
      }
      if frame.opcode == TEXT || frame.opcode == BINARY {
        WriteFrame(socket, frame.opcode, frame.payload);
      }
      return false;
    }

    /** `e` is what is to be sent in all, of which `done` has been sent so far. */
    ghost predicate Owes(e: Echoed, done: seq<Byte>)
      reads this, socket
    {
      if socket.ended then e.closed && socket.sent == preamble + e.sent
      else socket.sent == preamble + done && e == Replies(buffer).After(done)
    }

    /** The loop of a "data" event: answers every whole frame in the buffer. */
    method Drain(ghost e: Echoed, ghost already: seq<Byte>)
      requires Owes(e, already)
      modifies `buffer, socket
      ensures socket.sent == preamble + e.sent && socket.ended == e.closed
      ensures !e.closed ==> buffer == e.left
    {
      ghost var done := already;
      hide Replies, Parse, Encode, Answer;
      while true
        invariant Owes(e, done)
        decreases |buffer|
      {
        var frame := TryReadFrame(buffer);
        RepliesStep(buffer, done);
        if frame.Incomplete? {
          return;
        }
        buffer := frame.rest;
        var stop := Handle(frame.frame);
        if stop {
          return;
        }
        assert preamble + done + Answer(frame.frame) == preamble + (done + Answer(frame.frame));
        done := done + Answer(frame.frame);
      }
    }

    /** One "data" event. */
    method OnData(chunk: seq<Byte>)
      requires Valid()
      modifies this, socket
      ensures Valid() && received == old(received) + chunk
    {
      RepliesAppend(received, chunk);
      ghost var done := Replies(received).sent;
      buffer := buffer + chunk;
      received := received + chunk;
      hide Replies;
      Drain(Replies(received), done);
    }
  }

  lemma {:induction false} RepliesStep(s: seq<Byte>, done: seq<Byte>)
    ensures match Parse(s)
      case Incomplete => Replies(s).After(done) == Echoed(done, false, s)
      case Complete(f, rest) =>
        |rest| < |s| && |f.payload| < MAX_LENGTH && Replies(s).After(done) ==
          if f.opcode == CLOSE then Echoed(done + Encode(Plain(CLOSE, f.payload)), true, rest)
          else Replies(rest).After(done + Answer(f))
  {
    if Parse(s).Complete? {
      PayloadFits(s);
      var Complete(f, rest) := Parse(s);
      hide Parse, Answer, Encode;
      if f.opcode != CLOSE {
        AfterTwice(Replies(rest), done, Answer(f));
      }
    }
  }
}
