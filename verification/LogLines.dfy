/**
 The log line splitter (log-stream.ts). A data event carries text that is already
 decoded; its byte length is the length of that text in UTF-8. Events are dispatched one
 after another, each awaiting the last.
 */
module LogLines {
  import opened Sequences

  const MAX_LINE_BUFFER_BYTES := 64 * 1024

  function CharBytes(c: char): (n: nat)
    ensures n >= 1
  {
    if c < 128 as char then 1 else if c < 2048 as char then 2 else if c < 65536 as char then 3 else 4
  }

  /** The length of a text in UTF-8. */
  function Utf8(s: string): nat {
    if s == "" then 0 else Utf8(s[..|s| - 1]) + CharBytes(s[|s| - 1])
  }

  /** Whole lines, each with its newline, and what follows the last of them. */
  datatype Cuts = Cuts(lines: seq<string>, tail: string)

  function Cut(s: string): Cuts {
    if s == "" then Cuts([], "")
    else
      var c := Cut(s[..|s| - 1]);
      if s[|s| - 1] == '\n' then Cuts(c.lines + [c.tail + "\n"], "") else Cuts(c.lines, c.tail + [s[|s| - 1]])
  }

  /** The lines one chunk releases, and the buffer it leaves: a tail of 64 KiB or more does not wait. */
  function Feed(buffer: string, text: string): Cuts {
    var c := Cut(buffer + text);
    if Utf8(c.tail) >= MAX_LINE_BUFFER_BYTES then Cuts(c.lines + [c.tail], "") else c
  }

  function FeedAll(chunks: seq<string>): Cuts {
    if chunks == [] then Cuts([], "")
    else
      var before := FeedAll(chunks[..|chunks| - 1]);
      var now := Feed(before.tail, chunks[|chunks| - 1]);
      Cuts(before.lines + now.lines, now.tail)
  }

  /** Everything a reader gets, once the stream has completed and flushed. */
  function Delivered(chunks: seq<string>): seq<string> {
    Flushed(FeedAll(chunks))
  }

  function Flushed(c: Cuts): seq<string> {
    if c.tail == "" then c.lines else c.lines + [c.tail]
  }

  // ----- Cutting ----------------------------------------------------------------

  lemma {:induction false} Utf8Append(a: string, b: string)
    ensures Utf8(a + b) == Utf8(a) + Utf8(b)
  {
    if b == "" {
      assert a + b == a;
    } else {
      Utf8Append(a, b[..|b| - 1]);
      assert (a + b)[..|a + b| - 1] == a + b[..|b| - 1];
    }
  }

  /** Cutting can stop anywhere and go on from the tail. */
  lemma {:induction false} CutConcat(a: string, b: string)
    ensures var c := Cut(Cut(a).tail + b);
      Cut(a + b) == Cuts(Cut(a).lines + c.lines, c.tail)
  {
    var t := Cut(a).tail;
    if b == "" {
      TailHasNoNewline(a);
      CutOfTail(t);
      assert a + b == a && t + b == t;
    } else {
      var init := b[..|b| - 1];
      CutConcat(a, init);
      assert (a + b)[..|a + b| - 1] == a + init && (t + b)[..|t + b| - 1] == t + init;
    }
  }

  lemma {:induction false} TailHasNoNewline(s: string)
    ensures '\n' !in Cut(s).tail
  {
    if s != "" {
      TailHasNoNewline(s[..|s| - 1]);
    }
  }

  lemma {:induction false} CutOfTail(t: string)
    requires '\n' !in t
    ensures Cut(t) == Cuts([], t)
  {
    if t != "" {
      CutOfTail(t[..|t| - 1]);
    }
  }

  ghost predicate EndsLine(s: string) {
    s != "" && s[|s| - 1] == '\n' && '\n' !in s[..|s| - 1]
  }

  lemma {:induction false} CutLinesEnd(s: string)
    ensures forall l <- Cut(s).lines :: EndsLine(l)
  {
    if s != "" {
      var init := s[..|s| - 1];
      CutLinesEnd(init);
      TailHasNoNewline(init);
      var line := Cut(init).tail + "\n";
      assert line[..|line| - 1] == Cut(init).tail;
    }
  }

  lemma {:induction false} CutRestores(s: string)
    ensures Flatten(Cut(s).lines) + Cut(s).tail == s
  {
    if s != "" {
      var init, last := s[..|s| - 1], s[|s| - 1];
      var c := Cut(init);
      CutRestores(init);
      OneMoreChar(c, last, init);
      assert s == init + [last];
    }
  }

  lemma OneMoreChar(c: Cuts, last: char, init: string)
    requires Flatten(c.lines) + c.tail == init
    ensures Flatten(c.lines + [c.tail + [last]]) == init + [last]
    ensures Flatten(c.lines) + (c.tail + [last]) == init + [last]
  {
  }

  /** Over any run: what was emitted and what is kept make up the text, and what is kept is short and has no newline. */
  lemma {:induction false} NothingIsLost(chunks: seq<string>)
    ensures var c := FeedAll(chunks);
      && Flatten(c.lines) + c.tail == Flatten(chunks)
      && '\n' !in c.tail && Utf8(c.tail) < MAX_LINE_BUFFER_BYTES
  {
    if chunks != [] {
      var before, chunk := FeedAll(chunks[..|chunks| - 1]), chunks[|chunks| - 1];
      NothingIsLost(chunks[..|chunks| - 1]);
      FeedConserves(before.tail, chunk);
      var now := Feed(before.tail, chunk);
      FlattenAppend(before.lines, now.lines);
      Regroup(Flatten(before.lines), Flatten(now.lines), now.tail);
      Regroup(Flatten(before.lines), before.tail, chunk);
      hide Feed, Cut, Utf8;
    }
  }

  lemma {:induction false} FeedConserves(buffer: string, text: string)
    ensures var c := Feed(buffer, text);
      && Flatten(c.lines) + c.tail == buffer + text
      && '\n' !in c.tail && Utf8(c.tail) < MAX_LINE_BUFFER_BYTES
  {
    var c := Cut(buffer + text);
    CutRestores(buffer + text);
    TailHasNoNewline(buffer + text);
    FlattenAppend(c.lines, [c.tail]);
    FlattenOne(c.tail);
  }

  lemma {:induction false} DeliveredIsTheText(chunks: seq<string>)
    ensures Flatten(Delivered(chunks)) == Flatten(chunks)
  {
    NothingIsLost(chunks);
    var c := FeedAll(chunks);
    FlattenAppend(c.lines, [c.tail]);
    FlattenOne(c.tail);
  }

  function Terminated(parts: seq<string>): seq<string> {
    seq(|parts|, i requires 0 <= i < |parts| => parts[i] + "\n")
  }

  lemma {:induction false} SplitIsCut(s: string)
    ensures var parts := Split(s, '\n');
      Cut(s) == Cuts(Terminated(parts[..|parts| - 1]), parts[|parts| - 1])
  {
    if s != "" {
      var init := s[..|s| - 1];
      SplitIsCut(init);
      var parts := Split(init, '\n');
      var n := |parts| - 1;
      assert (parts + [""])[..n + 1] == parts;
      assert Terminated(parts) == Terminated(parts[..n]) + [parts[n] + "\n"];
      assert (parts[..n] + [parts[n] + [s[|s| - 1]]])[..n] == parts[..n];
    }
  }

  // ----- When chunking shows ------------------------------------------------------

  /** Before its last character, the text never has 64 KiB since the last newline. */
  ghost predicate ShortLines(text: string) {
    forall k | 0 <= k < |text| :: Utf8(Cut(text[..k]).tail) < MAX_LINE_BUFFER_BYTES
  }

  /** With short lines, feeding in chunks is feeding at once. */
  lemma {:induction false} ChunksDoNotMatter(chunks: seq<string>)
    requires ShortLines(Flatten(chunks))
    ensures FeedAll(chunks) == Feed("", Flatten(chunks))
  {
    if chunks != [] {
      var init, chunk := chunks[..|chunks| - 1], chunks[|chunks| - 1];
      var p, text := Flatten(init), Flatten(chunks);
      forall k | 0 <= k < |p| ensures Utf8(Cut(p[..k]).tail) < MAX_LINE_BUFFER_BYTES {
        assert p[..k] == text[..k];
      }
      ChunksDoNotMatter(init);
      OneMoreChunk(p, chunk);
    }
  }

  lemma {:induction false} OneMoreChunk(p: string, chunk: string)
    requires ShortLines(p + chunk)
    ensures var before, now := Feed("", p), Feed(Feed("", p).tail, chunk);
      Feed("", p + chunk) == Cuts(before.lines + now.lines, now.tail)
  {
    assert "" + p == p && "" + (p + chunk) == p + chunk;
    if chunk == "" {
      FeedConserves("", p);
      FeedNothing(Feed("", p).tail);
      assert p + chunk == p;
    } else {
      assert p == (p + chunk)[..|p|];
      CutConcat(p, chunk);
      RegroupCuts(Cut(p).lines, Cut(Cut(p).tail + chunk));
    }
  }

  lemma FeedNothing(buffer: string)
    requires '\n' !in buffer && Utf8(buffer) < MAX_LINE_BUFFER_BYTES
    ensures Feed(buffer, "") == Cuts([], buffer)
  {
    assert buffer + "" == buffer;
    CutOfTail(buffer);
  }

  lemma RegroupCuts(lines: seq<string>, c: Cuts)
    ensures lines + (c.lines + [c.tail]) == lines + c.lines + [c.tail]
  {
  }

  lemma {:induction false} TwoChunks(p: string, r: string)
    ensures FeedAll([p, r]) == var a := Feed("", p); var b := Feed(a.tail, r); Cuts(a.lines + b.lines, b.tail)
    ensures FeedAll([p]) == Feed("", p)
    ensures Flatten([p, r]) == p + r
  {
    assert [p, r][..1] == [p] && [p][..0] == [];
    assert FeedAll([]) == Cuts([], "");
    FlattenOne(p);
  }

  /** All at once, only the last piece delivered can lack a newline. */
  lemma {:induction false} WholePieces(text: string, i: nat)
    requires i < |Delivered([text])| - 1
    ensures EndsLine(Delivered([text])[i])
  {
    TwoChunks(text, "");
    CutLinesEnd("" + text);
  }

  /** Cut where 64 KiB had gathered, a line is delivered in two pieces. */
  lemma {:induction false} CutShows(p: string, r: string)
    requires Utf8(Cut(p).tail) >= MAX_LINE_BUFFER_BYTES && r != ""
    ensures Delivered([p, r]) != Delivered([p + r])
  {
    TwoChunks(p, r);
    TailHasNoNewline(p);
    assert "" + p == p;
    var a, b := Feed("", p), Feed("", r);
    FeedConserves("", r);
    var i := |Cut(p).lines|;
    assert b.lines != [] || b.tail != "" by {
      assert b.lines == [] ==> Flatten(b.lines) == "";
    }
    assert Delivered([p, r])[i] == Cut(p).tail && i < |Delivered([p, r])| - 1;
    if Delivered([p, r]) == Delivered([p + r]) {
      WholePieces(p + r, i);
    }
  }

  /** The exact condition: a reader can tell how the text was chunked just when some line gathers 64 KiB early. */
  lemma {:induction false} ChunkingIsInvisibleIffLinesAreShort(text: string)
    ensures ShortLines(text) <==>
      forall chunks :: Flatten(chunks) == text ==> Delivered(chunks) == Delivered([text])
  {
    TwoChunks(text, "");
    hide FeedAll, Feed, Flatten, Flushed, Cut, Utf8;
    if ShortLines(text) {
      forall chunks | Flatten(chunks) == text ensures Delivered(chunks) == Delivered([text]) {
        ChunksDoNotMatter(chunks);
      }
    } else {
      var k :| 0 <= k < |text| && Utf8(Cut(text[..k]).tail) >= MAX_LINE_BUFFER_BYTES;
      var p, r := text[..k], text[k..];
      assert text == p + r;
      TwoChunks(p, r);
      CutShows(p, r);
    }
  }
}
