/** The bytes of frames and of their answers, written out (sections 5.2 and 5.3 of RFC 6455). */
module WebSocketLaws {
  import opened Bits
  import opened Wrappers
  import opened WebSocketFrames
  import opened WebSocketEcho

  /** The i-th bit of a number, the lowest first. */
  function Bit(n: nat, i: nat): nat { if i == 0 then n % 2 else Bit(n / 2, i - 1) }

  /** A byte is masked bit by bit: a bit of the result is set when it is set in one of the two only. */
  lemma {:induction false} XorIsBitwise(a: nat, b: nat, i: nat)
    ensures Bit(BitXor(a, b), i) == 1 <==> Bit(a, i) != Bit(b, i)
    ensures Bit(a, i) < 2 && Bit(b, i) < 2
  {
    if i > 0 {
      XorIsBitwise(a / 2, b / 2, i - 1);
      XorHalves(a, b);
      hide BitXor;
    }
  }

  lemma {:induction false} XorHalves(a: nat, b: nat)
    ensures BitXor(a, b) / 2 == BitXor(a / 2, b / 2)
  {
  }

  /** The length of a frame without a mask: one byte, or 126 and two, or 127 and eight, most significant first. */
  function LengthBytes(n: nat): seq<Byte>
    requires n < MAX_LENGTH
  {
    if n < 126 then [n]
    else if n < 65_536 then [126, n / 256, n % 256]
    else
      [127, n / 0x100_0000_0000_0000, n / 0x1_0000_0000_0000 % 256, n / 0x100_0000_0000 % 256,
       n / 0x1_0000_0000 % 256, n / 0x100_0000 % 256, n / 0x1_0000 % 256, n / 256 % 256, n % 256]
  }

  /** What the server writes for a frame: its final bit and opcode, the length, the payload. */
  function Sent(opcode: Byte, payload: seq<Byte>): seq<Byte>
    requires opcode < 16 && |payload| < MAX_LENGTH
  {
    [0x80 + opcode] + LengthBytes(|payload|) + payload
  }

  /** The last three bytes of a number that `high` begins. */
  lemma {:induction false} ThreeMore(n: nat, n1: nat, n2: nat, n3: nat, high: seq<Byte>)
    requires n1 == n / 256 && n2 == n1 / 256 && n3 == n2 / 256 && BigEndian(n3, |high|) == high
    ensures BigEndian(n, |high| + 3) == high + [n2 % 256, n1 % 256, n % 256]
  {
    assert BigEndian(n2, |high| + 1) == high + [n2 % 256];
    assert BigEndian(n1, |high| + 2) == high + [n2 % 256, n1 % 256];
  }

  lemma {:induction false} EightBytes(n: nat)
    requires n < MAX_LENGTH
    ensures [127] + BigEndian(n, 8) ==
      [127, n / 0x100_0000_0000_0000, n / 0x1_0000_0000_0000 % 256, n / 0x100_0000_0000 % 256,
       n / 0x1_0000_0000 % 256, n / 0x100_0000 % 256, n / 0x1_0000 % 256, n / 256 % 256, n % 256]
  {
    hide BigEndian;
    var n1, n2, n3, n4 := n / 256, n / 0x1_0000, n / 0x100_0000, n / 0x1_0000_0000;
    var n5, n6, n7 := n / 0x100_0000_0000, n / 0x1_0000_0000_0000, n / 0x100_0000_0000_0000;
    TwoBytes(n6, n7);
    ThreeMore(n3, n4, n5, n6, [n7, n6 % 256]);
    ThreeMore(n, n1, n2, n3, [n7, n6 % 256, n5 % 256, n4 % 256, n3 % 256]);
  }

  lemma {:induction false} TwoBytes(n: nat, n1: nat)
    requires n1 == n / 256 < 256
    ensures BigEndian(n, 2) == [n1, n % 256]
  {
    assert BigEndian(n1, 1) == BigEndian(n1 / 256, 0) + [n1];
  }

  lemma {:induction false} LengthBytesAre(n: nat)
    requires n < MAX_LENGTH
    ensures LengthField(FormOf(n), false, n) == LengthBytes(n)
  {
    if n >= 0x1_0000 {
      EightBytes(n);
      hide BigEndian;
    } else if n >= 126 {
      TwoBytes(n, n / 256);
      hide BigEndian;
    }
  }

  lemma {:induction false} PlainBytesAre(opcode: Byte, payload: seq<Byte>)
    requires opcode < 16 && |payload| < MAX_LENGTH
    ensures Encode(Plain(opcode, payload)) == Sent(opcode, payload)
  {
    LengthBytesAre(|payload|);
    hide LengthField, LengthBytes;
  }

  /**
   A client's masked frame: the high bit of the length byte set, the mask, then each byte of
   the payload with its turn of the mask.
   */
  lemma {:induction false} MaskedBytesAre(w: Wire)
    requires w.Valid() && w.mask.Some?
    ensures var s, n := Encode(w), |w.payload|;
      var at := match w.form case Short => 2 case Medium => 4 case Long => 10;
      && |s| == at + 4 + n && s[0] == w.first
      && s[1] == 128 + (match w.form case Short => n case Medium => 126 case Long => 127)
      && s[at..at + 4] == w.mask.value
      && forall i | 0 <= i < n :: s[at + 4 + i] == BitXor(w.payload[i], w.mask.value[i % 4])
  {
    hide BigEndian, BitXor;
  }

  /**
   Pings are ponged and messages sent back, with the payload as it was; a close is answered
   and ends it; the rest is ignored.
   */
  lemma {:induction false} FrameIsAnswered(w: Wire, more: seq<Byte>)
    requires w.Valid()
    ensures var r, opcode := Replies(Encode(w) + more), w.first % 16;
      if opcode == 8 then r == Echoed(Sent(8, w.payload), true, more)
      else if opcode == 9 then r == Replies(more).After(Sent(10, w.payload))
      else if opcode == 1 || opcode == 2 then r == Replies(more).After(Sent(opcode, w.payload))
      else r == Replies(more)
  {
    ParseUndoesEncode(w, more);
    PlainBytesAre(8, w.payload);
    PlainBytesAre(10, w.payload);
    PlainBytesAre(1, w.payload);
    PlainBytesAre(2, w.payload);
    AfterNothing(Replies(more));
    hide Parse, Encode, Sent;
  }
}
