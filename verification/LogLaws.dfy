/** What the log reader's byte counts, lines and items are, written out (log-stream.ts). */
module LogLaws {
  import opened Bits
  import opened Sequences
  import opened LogLines
  import opened LogStreams

  /** A character in UTF-8 (section 3 of RFC 3629). */
  function EncodedChar(c: char): seq<Byte> {
    var n := c as int;
    if n < 0x80 then [n]
    else if n < 0x800 then [0xC0 + n / 0x40, 0x80 + n % 0x40]
    else if n < 0x1_0000 then [0xE0 + n / 0x1000, 0x80 + n / 0x40 % 0x40, 0x80 + n % 0x40]
    else
      assert n <= 0x10_FFFF;
      [0xF0 + n / 0x4_0000, 0x80 + n / 0x1000 % 0x40, 0x80 + n / 0x40 % 0x40, 0x80 + n % 0x40]
  }

  function Encoded(s: string): seq<Byte> {
    if s == "" then [] else EncodedChar(s[0]) + Encoded(s[1..])
  }

  /** The size of a text is the number of bytes it takes. */
  lemma {:induction false} Utf8IsTheEncodedLength(s: string)
    ensures Utf8(s) == |Encoded(s)|
  {
    if s != "" {
      Utf8IsTheEncodedLength(s[1..]);
      Utf8Append([s[0]], s[1..]);
      assert s == [s[0]] + s[1..];
      OneCharBytes(s[0]);
      hide EncodedChar, CharBytes;
    }
  }

  lemma {:induction false} OneCharBytes(c: char)
    ensures Utf8([c]) == |EncodedChar(c)|
  {
    assert [c][..0] == "";
  }

  /** What a chunk releases before its end is a line with its newline, or 64 KiB or more without one. */
  ghost predicate Whole(line: string) {
    EndsLine(line) || ('\n' !in line && |Encoded(line)| >= 65_536)
  }

  lemma {:induction false} LinesAreWhole(chunks: seq<string>)
    ensures forall line <- FeedAll(chunks).lines :: Whole(line)
  {
    if chunks != [] {
      var init := chunks[..|chunks| - 1];
      LinesAreWhole(init);
      ReleasedAreWhole(FeedAll(init).tail, chunks[|chunks| - 1]);
      hide Feed, Whole;
    }
  }

  lemma {:induction false} ReleasedAreWhole(buffer: string, text: string)
    ensures forall line <- Feed(buffer, text).lines :: Whole(line)
  {
    var c := Cut(buffer + text);
    CutLinesEnd(buffer + text);
    TailHasNoNewline(buffer + text);
    Utf8IsTheEncodedLength(c.tail);
    hide Cut, Utf8, Encoded, EndsLine;
    assert forall line <- c.lines :: Whole(line);
  }

  /** A chunk is handed over as it is, line by line, or line by line with its own metadata. */
  lemma {:induction false} ItemsAre(mode: Mode, buffer: string, text: string, meta: Meta)
    ensures mode == Raw ==> ItemsOf(mode, buffer, text, meta) == [Chunk(text, meta)]
    ensures mode != Raw ==>
      var items, lines := ItemsOf(mode, buffer, text, meta), Feed(buffer, text).lines;
      && |items| == |lines|
      && forall i | 0 <= i < |lines| ::
           items[i] == if mode == Entries then Entry(lines[i], meta) else Line(lines[i])
  {
    hide Feed;
  }

  /** So is the last line, if it is left without a newline. */
  lemma {:induction false} LastItemIs(mode: Mode, meta: Meta, buffer: string)
    ensures Labelled(mode, meta, Tail(buffer)) ==
      if buffer == "" then [] else [if mode == Entries then Entry(buffer, meta) else Line(buffer)]
  {
  }
}
