/** The stream object of log-stream.ts: what readers have been handed, event by event. */
module LogStreams {
  import opened Wrappers
  import opened LogLines
  import opened Sequences

  datatype Mode = Raw | Lines | Entries

  datatype Meta = Meta(offset: Option<string>, sessionId: Option<string>, timestampMs: Option<int>)

  datatype Event = Data(text: string, meta: Meta) | Complete | Error(id: nat)

  datatype Item = Chunk(text: string, meta: Meta) | Line(text: string) | Entry(text: string, meta: Meta)

  /** The queue the readers take from. */
  datatype End = Open | Closed | Failed(id: nat)

  /** What `cancel` or `close` is doing: it awaits the stream's controls, and other events may come in between. */
  datatype Closing = NotClosing | Cancelling | ClosingDown

  function TextsOf(items: seq<Item>): seq<string> {
    seq(|items|, i requires 0 <= i < |items| => items[i].text)
  }

  function Labelled(mode: Mode, meta: Meta, lines: seq<string>): seq<Item> {
    seq(|lines|, i requires 0 <= i < |lines| => if mode == Entries then Entry(lines[i], meta) else Line(lines[i]))
  }

  /** The last line, when it has no newline. */
  function Tail(buffer: string): seq<string> { if buffer == "" then [] else [buffer] }

  /** What one chunk hands to the readers: itself, or the lines it completes, marked with its own metadata. */
  function ItemsOf(mode: Mode, buffer: string, text: string, meta: Meta): seq<Item> {
    if mode == Raw then [Chunk(text, meta)] else Labelled(mode, meta, Feed(buffer, text).lines)
  }

  lemma {:induction false} LabelledTexts(items: seq<Item>, mode: Mode, meta: Meta, lines: seq<string>)
    ensures TextsOf(items + Labelled(mode, meta, lines)) == TextsOf(items) + lines
  {
  }

  class LogStream {
    const mode: Mode
    var items: seq<Item>
    var end: End
    var buffer: string
    var bufferBytes: nat
    var bufferMeta: Meta
    var isClosed: bool
    var closing: Closing
    ghost var received: seq<string>
    ghost var flushed: bool

    /** The readers have been handed what the chunks received so far amount to. */
    ghost predicate Valid()
      reads this
    {
      && bufferBytes == Utf8(buffer)
      && (!isClosed ==> end == Open && closing == NotClosing)
      && (isClosed && end == Open ==> closing != NotClosing)
      && if mode == Raw then buffer == "" && TextsOf(items) == received
         else
           && TextsOf(items) == (if flushed then Delivered(received) else FeedAll(received).lines)
           && (!isClosed || closing == ClosingDown ==> !flushed && buffer == FeedAll(received).tail)
    }

    constructor (mode: Mode)
      ensures Valid() && this.mode == mode && received == [] && end == Open
    {
      this.mode, items, end, buffer, bufferBytes := mode, [], Open, "", 0;
      bufferMeta, isClosed, closing, received, flushed := Meta(None, None, None), false, NotClosing, [], false;
    }

    /** A queue that has ended takes no more. */
    method PushLine(line: string)
      modifies `items
      ensures items == if end == Open then old(items) + Labelled(mode, bufferMeta, [line]) else old(items)
    {
      if end != Open {
        return;
      }
      items := items + [if mode == Entries then Entry(line, bufferMeta) else Line(line)];
    }

    method PushLines(parts: seq<string>)
      requires end == Open
      modifies `items
      ensures items == old(items) + Labelled(mode, bufferMeta, Terminated(parts))
    {
      var i := 0;
      assert parts[..0] == [];
      while i < |parts|
        invariant 0 <= i <= |parts|
        invariant items == old(items) + Labelled(mode, bufferMeta, Terminated(parts[..i]))
      {
        PushLine(parts[i] + "\n");
        assert Terminated(parts[..i + 1]) == Terminated(parts[..i]) + [parts[i] + "\n"];
        i := i + 1;
      }
      assert parts[..|parts|] == parts;
    }

    method HandleLineData(text: string, meta: Meta)
      requires bufferBytes == Utf8(buffer) && end == Open
      modifies `items, `buffer, `bufferBytes, `bufferMeta
      ensures var c := Feed(old(buffer), text);
        && items == old(items) + Labelled(mode, meta, c.lines)
        && buffer == c.tail && bufferBytes == Utf8(buffer) && bufferMeta == meta
    {
      buffer := buffer + text;
      bufferBytes := bufferBytes + Utf8(text);
      bufferMeta := meta;
      Utf8Append(old(buffer), text);
      if '\n' !in buffer && bufferBytes < MAX_LINE_BUFFER_BYTES {
        CutOfTail(buffer);
        return;
      }
      hide Cut, Utf8;
      ReleaseLines(old(buffer), text);
    }

    /** Hands over the buffer's whole lines, and a long tail with them. */
    method ReleaseLines(ghost kept: string, ghost text: string)
      requires buffer == kept + text && end == Open
      modifies `items, `buffer, `bufferBytes
      ensures var c := Feed(kept, text);
        && items == old(items) + Labelled(mode, bufferMeta, c.lines)
        && buffer == c.tail && bufferBytes == Utf8(buffer)
    {
      var parts := Split(buffer, '\n');
      SplitIsCut(buffer);
      hide Cut, Split, Terminated;
      PushLines(parts[..|parts| - 1]);
      buffer := parts[|parts| - 1];
      bufferBytes := Utf8(buffer);
      if bufferBytes >= MAX_LINE_BUFFER_BYTES {
        PushLine(buffer);
        buffer, bufferBytes := "", 0;
      }
    }

    method FlushRemainder()
      modifies `items, `buffer, `bufferBytes
      ensures buffer == "" && (old(bufferBytes) == Utf8(old(buffer)) ==> bufferBytes == Utf8(buffer))
      ensures items == old(items) + if end == Open then Labelled(mode, bufferMeta, Tail(old(buffer))) else []
    {
      if buffer == "" {
        return;
      }
      PushLine(buffer);
      buffer, bufferBytes := "", 0;
    }

    /** How `complete` and `close` end: the last line is handed over, unless an error has ended the queue. */
    method Finish()
      requires Valid() && (!isClosed || closing == ClosingDown)
      modifies this
      ensures Valid() && isClosed && closing == NotClosing && received == old(received)
      ensures end == if old(end) == Open then Closed else old(end)
      ensures mode != Raw && old(end) == Open ==> TextsOf(items) == Delivered(received)
      ensures items == old(items) + if old(end) == Open then Labelled(mode, old(bufferMeta), Tail(old(buffer))) else []
    {
      LabelledTexts(items, mode, bufferMeta, Tail(buffer));
      hide FeedAll, Utf8;
      FlushRemainder();
      flushed := mode != Raw && end == Open;
      isClosed, closing := true, NotClosing;
      if end == Open {
        end := Closed;
      }
    }

    /** `close` up to the wait for its controls; whether it goes on after that. */
    method BeginClose() returns (waits: bool)
      requires Valid()
      modifies `isClosed, `closing
      ensures Valid() && isClosed && waits == !old(isClosed)
      ensures closing == if waits then ClosingDown else old(closing)
    {
      if isClosed {
        return false;
      }
      isClosed, closing := true, ClosingDown;
      return true;
    }

    /** `cancel` up to the wait for its controls: from here on what is in the buffer is lost. */
    method BeginCancel() returns (waits: bool)
      requires Valid()
      modifies `isClosed, `closing
      ensures Valid() && isClosed && waits == !old(isClosed)
      ensures closing == if waits then Cancelling else old(closing)
    {
      if isClosed {
        return false;
      }
      isClosed, closing := true, Cancelling;
      return true;
    }

    /** `cancel` after that wait: the queue ends, unless an error has ended it. */
    method EndCancel()
      requires Valid() && closing == Cancelling
      modifies `closing, `end
      ensures Valid() && closing == NotClosing
      ensures end == if old(end) == Open then Closed else old(end)
    {
      closing := NotClosing;
      if end == Open {
        end := Closed;
      }
    }

    method HandleData(text: string, meta: Meta)
      requires Valid() && !isClosed
      modifies this
      ensures Valid() && !isClosed && end == old(end) && received == old(received) + [text]
      ensures items == old(items) + ItemsOf(mode, old(buffer), text, meta)
      ensures mode != Raw ==> bufferMeta == meta
    {
      assert (received + [text])[..|received|] == received;
      received := received + [text];
      if mode == Raw {
        items := items + [Chunk(text, meta)];
        return;
      }
      LabelledTexts(items, mode, meta, Feed(buffer, text).lines);
      hide Feed, Utf8;
      HandleLineData(text, meta);
    }

    /**
     Nothing but an error gets through once the stream is closed, and an error then ends only
     a queue that is still waiting to be closed.
     */
    method Dispatch(event: Event)
      requires Valid()
      modifies this
      ensures Valid()
      ensures received ==
        if event.Data? && !old(isClosed) then old(received) + [event.text] else old(received)
      ensures isClosed <==> old(isClosed) || !event.Data?
      ensures closing == old(closing)
      ensures end == if old(end) != Open then old(end)
                     else if event.Error? then Failed(event.id)
                     else if event.Complete? && !old(isClosed) then Closed
                     else Open
      ensures mode != Raw && event.Complete? && !old(isClosed) ==> TextsOf(items) == Delivered(received)
      ensures items == old(items) +
        if old(isClosed) || event.Error? then []
        else if event.Data? then ItemsOf(mode, old(buffer), event.text, event.meta)
        else Labelled(mode, old(bufferMeta), Tail(old(buffer)))
      ensures event.Data? && !old(isClosed) && mode != Raw ==> bufferMeta == event.meta
    {
      if isClosed && !event.Error? {
        return;
      }
      match event {
        case Complete =>
          Finish();
        case Data(text, meta) =>
          HandleData(text, meta);
        case Error(id) =>
          isClosed := true;
          if end == Open {
            end := Failed(id);
          }
      }
    }
  }
}
