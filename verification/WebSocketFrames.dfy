/**
 WebSocket frames, sections 5.2 and 5.3 of RFC 6455 (websocket-echo.js).

 A `Wire` is a frame as it can be written: any first byte, any of the three length
 forms that can hold the payload's length, masked or not. `Encode` writes it the way
 the RFC lays it out; `Parse` specifies the reader.
 */
module WebSocketFrames {
  import opened Bits
  import opened Wrappers

  const MAX_LENGTH := 0x1_0000_0000_0000_0000

  datatype Form = Short | Medium | Long

  datatype Frame = Frame(opcode: Byte, payload: seq<Byte>)

  datatype Wire = Wire(first: Byte, form: Form, mask: Option<seq<Byte>>, payload: seq<Byte>)
  {
    predicate Valid() {
      && (mask.Some? ==> |mask.value| == 4)
      && match form
         case Short => |payload| < 126
         case Medium => |payload| < 0x1_0000
         case Long => |payload| < MAX_LENGTH
    }

    function Content(): Frame {
      Frame(first % 16, payload)
    }
  }

  datatype Read = Incomplete | Complete(frame: Frame, rest: seq<Byte>)

  /** The low `size` bytes of `n`, most significant first. */
  function BigEndian(n: nat, size: nat): (s: seq<Byte>)
    ensures |s| == size
  {
    if size == 0 then [] else BigEndian(n / 256, size - 1) + [n % 256]
  }

  function FromBigEndian(s: seq<Byte>): nat {
    if s == [] then 0 else FromBigEndian(s[..|s| - 1]) * 256 + s[|s| - 1]
  }

  function MaskByte(b: Byte, key: Byte): Byte {
    XorFits(b, key, 8);
    assert Power(2, 8) == 256 by {
      assert Power(2, 4) == 16;
    }
    BitXor(b, key)
  }

  function Masked(payload: seq<Byte>, mask: seq<Byte>): (s: seq<Byte>)
    requires |mask| == 4
    ensures |s| == |payload|
  {
    seq(|payload|, i requires 0 <= i < |payload| => MaskByte(payload[i], mask[i % 4]))
  }

  /** The second byte: the mask bit, and a length or the announcement of a longer one. */
  function SecondByte(masked: bool, n: nat): Byte
    requires n < 128
  {
    (if masked then 128 else 0) + n
  }

  function LengthField(form: Form, masked: bool, length: nat): seq<Byte>
    requires form == Short ==> length < 126
  {
    match form
    case Short => [SecondByte(masked, length)]
    case Medium => [SecondByte(masked, 126)] + BigEndian(length, 2)
    case Long => [SecondByte(masked, 127)] + BigEndian(length, 8)
  }

  function Body(mask: Option<seq<Byte>>, payload: seq<Byte>): seq<Byte>
    requires mask.Some? ==> |mask.value| == 4
  {
    if mask.Some? then mask.value + Masked(payload, mask.value) else payload
  }

  function Encode(w: Wire): seq<Byte>
    requires w.Valid()
  {
    [w.first] + LengthField(w.form, w.mask.Some?, |w.payload|) + Body(w.mask, w.payload)
  }

  /** The shortest form a length fits in. */
  function FormOf(length: nat): Form {
    if length < 126 then Short else if length < 0x1_0000 then Medium else Long
  }

  /** A final, unmasked frame in the shortest form: what a server sends. */
  function Plain(opcode: Byte, payload: seq<Byte>): Wire
    requires opcode < 16
  {
    Wire(128 + opcode, FormOf(|payload|), None, payload)
  }

  // ----- Reading --------------------------------------------------------------

  function LowSeven(b: Byte): nat { b % 128 }

  predicate HighBit(b: Byte) { b >= 128 }

  /** Where the length field ends and the length it holds, once it has arrived. */
  function ParseLength(s: seq<Byte>): (r: Option<(nat, nat)>)
    ensures r.Some? ==> 2 <= r.value.0 <= |s|
  {
    if |s| < 2 then None
    else
      var short := LowSeven(s[1]);
      if short == 126 then if |s| < 4 then None else Some((4, FromBigEndian(s[2..4])))
      else if short == 127 then if |s| < 10 then None else Some((10, FromBigEndian(s[2..10])))
      else Some((2, short))
  }

  function Parse(s: seq<Byte>): Read {
    match ParseLength(s)
    case None => Incomplete
    case Some((at, length)) => ParseBody(s[0], HighBit(s[1]), length, s[at..])
  }

  function MaskSize(masked: bool): nat { if masked then 4 else 0 }

  /** What follows the length field: the mask, if there is one, and the payload. */
  function ParseBody(first: Byte, masked: bool, length: nat, s: seq<Byte>): Read {
    var from := MaskSize(masked);
    if |s| < from + length then Incomplete
    else
      var payload := s[from..from + length];
      Complete(Frame(first % 16, if masked then Masked(payload, s[..4]) else payload), s[from + length..])
  }

  // ----- Lemmas ---------------------------------------------------------------

  lemma {:induction false} BigEndianRoundTrip(n: nat, size: nat)
    requires n < Power(256, size)
    ensures FromBigEndian(BigEndian(n, size)) == n
  {
    if size > 0 {
      BigEndianRoundTrip(n / 256, size - 1);
      var s := BigEndian(n, size);
      assert s[..|s| - 1] == BigEndian(n / 256, size - 1);
    }
  }

  lemma {:induction false} FromBigEndianBounded(s: seq<Byte>)
    ensures FromBigEndian(s) < Power(256, |s|)
  {
    if s != [] {
      FromBigEndianBounded(s[..|s| - 1]);
    }
  }

  lemma SplitByte(high: nat, low: Byte, size: nat)
    ensures BigEndian(high * 256 + low, size + 1) == BigEndian(high, size) + [low]
  {
  }

  lemma {:induction false} FromBigEndianRoundTrip(s: seq<Byte>)
    ensures BigEndian(FromBigEndian(s), |s|) == s
  {
    if s != [] {
      var init, last := s[..|s| - 1], s[|s| - 1];
      FromBigEndianRoundTrip(init);
      SplitByte(FromBigEndian(init), last, |init|);
      assert s == init + [last];
    }
  }

  lemma {:induction false} UnmaskingUndoesMasking(payload: seq<Byte>, mask: seq<Byte>)
    requires |mask| == 4
    ensures Masked(Masked(payload, mask), mask) == payload
  {
    forall i | 0 <= i < |payload| ensures MaskByte(MaskByte(payload[i], mask[i % 4]), mask[i % 4]) == payload[i] {
      XorTwice(payload[i], mask[i % 4]);
    }
  }

  // ----- The reader inverts every encoding ------------------------------------

  function FieldSize(form: Form): nat {
    match form case Short => 1 case Medium => 3 case Long => 9
  }

  lemma {:induction false} Powers()
    ensures Power(256, 2) == 0x1_0000 && Power(256, 8) == MAX_LENGTH
  {
  }

  lemma FieldAt(first: Byte, second: Byte, field: seq<Byte>, tail: seq<Byte>)
    ensures ([first] + ([second] + field) + tail)[2..2 + |field|] == field
  {
  }

  lemma {:induction false} LongLengthParses(first: Byte, masked: bool, n: nat, size: nat, tail: seq<Byte>)
    requires (size == 2 || size == 8) && n < Power(256, size)
    ensures var s := [first] + ([SecondByte(masked, if size == 2 then 126 else 127)] + BigEndian(n, size)) + tail;
      |s| >= 2 && ParseLength(s) == Some((2 + size, n)) && HighBit(s[1]) == masked
  {
    var second := SecondByte(masked, if size == 2 then 126 else 127);
    BigEndianRoundTrip(n, size);
    FieldAt(first, second, BigEndian(n, size), tail);
    hide FromBigEndian, BigEndian;
  }

  lemma {:induction false} LengthParses(w: Wire, tail: seq<Byte>)
    requires w.Valid()
    ensures var s := [w.first] + LengthField(w.form, w.mask.Some?, |w.payload|) + tail;
      && ParseLength(s) == Some((1 + FieldSize(w.form), |w.payload|))
      && HighBit(s[1]) == w.mask.Some?
  {
    Powers();
    match w.form {
      case Short =>
      case Medium =>
        LongLengthParses(w.first, w.mask.Some?, |w.payload|, 2, tail);
        hide ParseLength, BigEndian;
      case Long =>
        LongLengthParses(w.first, w.mask.Some?, |w.payload|, 8, tail);
        hide ParseLength, BigEndian;
    }
  }

  lemma {:induction false} BodyParses(w: Wire, rest: seq<Byte>)
    requires w.Valid()
    ensures ParseBody(w.first, w.mask.Some?, |w.payload|, Body(w.mask, w.payload) + rest)
         == Complete(w.Content(), rest)
  {
    if w.mask.Some? {
      var s := Body(w.mask, w.payload) + rest;
      assert s[..4] == w.mask.value;
      assert s[4..4 + |w.payload|] == Masked(w.payload, w.mask.value);
      UnmaskingUndoesMasking(w.payload, w.mask.value);
    }
  }

  lemma FrameInThree(a: seq<Byte>, b: seq<Byte>, c: seq<Byte>, d: seq<Byte>)
    ensures a + b + c + d == a + b + (c + d)
    ensures (a + b + c + d)[|a| + |b|..] == c + d
  {
  }

  /** Whatever form and mask a frame was written with, reading it gives its content back and leaves the rest. */
  lemma {:induction false} ParseUndoesEncode(w: Wire, rest: seq<Byte>)
    requires w.Valid()
    ensures Parse(Encode(w) + rest) == Complete(w.Content(), rest)
  {
    var field := LengthField(w.form, w.mask.Some?, |w.payload|);
    var body := Body(w.mask, w.payload) + rest;
    var s := Encode(w) + rest;
    FrameInThree([w.first], field, Body(w.mask, w.payload), rest);
    LengthParses(w, body);
    BodyParses(w, rest);
    hide ParseLength, ParseBody, Body, LengthField, HighBit;
  }

  lemma SliceExtends(s: seq<Byte>, more: seq<Byte>, a: nat, b: nat)
    requires a <= b <= |s|
    ensures (s + more)[a..b] == s[a..b] && (s + more)[b..] == s[b..] + more
  {
  }

  lemma {:induction false} LengthExtends(s: seq<Byte>, more: seq<Byte>)
    requires ParseLength(s).Some?
    ensures ParseLength(s + more) == ParseLength(s)
  {
    hide LowSeven, FromBigEndian;
    if |s| >= 4 {
      SliceExtends(s, more, 2, 4);
    }
    if |s| >= 10 {
      SliceExtends(s, more, 2, 10);
    }
  }

  lemma {:induction false} BodyExtends(first: Byte, masked: bool, length: nat, s: seq<Byte>, more: seq<Byte>)
    requires ParseBody(first, masked, length, s).Complete?
    ensures var r := ParseBody(first, masked, length, s);
      ParseBody(first, masked, length, s + more) == Complete(r.frame, r.rest + more)
  {
    var from := MaskSize(masked);
    SliceExtends(s, more, 0, from);
    SliceExtends(s, more, from, from + length);
    hide Masked;
  }

  /** More bytes do not change a frame that is already complete. */
  lemma {:induction false} ParseExtends(s: seq<Byte>, more: seq<Byte>)
    requires Parse(s).Complete?
    ensures Parse(s + more) == Complete(Parse(s).frame, Parse(s).rest + more)
  {
    var (at, length) := ParseLength(s).value;
    LengthExtends(s, more);
    SliceExtends(s, more, 0, at);
    BodyExtends(s[0], HighBit(s[1]), length, s[at..], more);
    hide ParseLength, ParseBody;
  }

  /** Of a frame that has not fully arrived, nothing is read. */
  lemma {:induction false} StrictPrefixIsIncomplete(w: Wire, k: nat)
    requires w.Valid() && k < |Encode(w)|
    ensures Parse(Encode(w)[..k]) == Incomplete
  {
    var s := Encode(w);
    ParseUndoesEncode(w, []);
    assert s + [] == s == s[..k] + s[k..];
    if Parse(s[..k]).Complete? {
      ParseExtends(s[..k], s[k..]);
    }
    hide Parse, Encode;
  }

  function FormAt(at: nat): Form {
    if at == 2 then Short else if at == 4 then Medium else Long
  }

  /** The frame at the front of `s`, as it was written. */
  ghost function WireOf(s: seq<Byte>): Wire
    requires Parse(s).Complete?
  {
    var (at, length) := ParseLength(s).value;
    Wire(s[0], FormAt(at), if HighBit(s[1]) then Some(s[at..][..4]) else None, Parse(s).frame.payload)
  }

  lemma {:induction false} LengthFieldOf(s: seq<Byte>)
    requires ParseLength(s).Some?
    ensures var (at, length) := ParseLength(s).value;
      && (at == 2 ==> length < 126) && (at == 4 ==> length < 0x1_0000) && length < MAX_LENGTH
      && LengthField(FormAt(at), HighBit(s[1]), length) == s[1..at]
  {
    var (at, length) := ParseLength(s).value;
    Powers();
    hide FromBigEndian, BigEndian, Power;
    if at == 4 {
      FromBigEndianBounded(s[2..4]);
      FromBigEndianRoundTrip(s[2..4]);
    } else if at == 10 {
      FromBigEndianBounded(s[2..10]);
      FromBigEndianRoundTrip(s[2..10]);
    }
  }

  lemma {:induction false} BodyOf(first: Byte, masked: bool, length: nat, s: seq<Byte>)
    requires ParseBody(first, masked, length, s).Complete?
    ensures var r := ParseBody(first, masked, length, s);
      && |r.frame.payload| == length && r.frame.opcode == first % 16 && (masked ==> |s| >= 4)
      && Body(if masked then Some(s[..4]) else None, r.frame.payload) + r.rest == s
  {
    if masked {
      UnmaskingUndoesMasking(s[4..4 + length], s[..4]);
      hide Masked;
      InThree(s, 4, 4 + length);
    } else {
      InThree(s, 0, length);
    }
  }

  lemma InThree(s: seq<Byte>, a: nat, b: nat)
    requires a <= b <= |s|
    ensures s[..a] + s[a..b] + s[b..] == s && s[0..b] == s[..b]
  {
  }

  /** Every frame read was written as some wire: nothing is made up, nothing dropped. */
  lemma {:induction false} ParseIsSound(s: seq<Byte>)
    requires Parse(s).Complete?
    ensures WireOf(s).Valid() && WireOf(s).Content() == Parse(s).frame
    ensures Encode(WireOf(s)) + Parse(s).rest == s
  {
    var (at, length) := ParseLength(s).value;
    LengthFieldOf(s);
    BodyOf(s[0], HighBit(s[1]), length, s[at..]);
    hide ParseLength, LengthField, HighBit, Body, ParseBody, Masked;
    Rejoin(s, at, Body(WireOf(s).mask, WireOf(s).payload), Parse(s).rest);
  }

  lemma Rejoin(s: seq<Byte>, at: nat, body: seq<Byte>, rest: seq<Byte>)
    requires 1 <= at <= |s| && body + rest == s[at..]
    ensures [s[0]] + s[1..at] + body + rest == s
  {
  }
}
