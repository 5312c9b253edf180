/**
  Server-sent events: the gateway's printer and the browser's incremental parser, which sees the
  text in chunks of any size.
 */
module SseStream {
  import opened Sequences
  import opened Text

  /** The characters JavaScript's trim removes. */
  predicate JsSpace(c: char) {
    || c in " \t\n\r\U{000B}\U{000C}\U{00A0}\U{1680}\U{2028}\U{2029}\U{202F}\U{205F}\U{3000}\U{FEFF}"
    || '\U{2000}' <= c <= '\U{200A}'
  }

  function JsTrim(s: string): string {
    Trim(s, JsSpace)
  }

  datatype Event = Event(name: string, payload: string)

  // ---------------------------------------------------------------- the printer

  function EventLine(name: string): string {
    "event: " + name + "\n"
  }

  function DataLine(payload: string): string {
    "data: " + payload + "\n\n"
  }

  function Printed(e: Event): string {
    EventLine(e.name) + DataLine(e.payload)
  }

  function PrintedAll(events: seq<Event>): string {
    if events == [] then "" else Printed(events[0]) + PrintedAll(events[1..])
  }

  /** A response that takes a bounded number of characters before the connection fails. */
  class Response {
    const flushes: bool
    var text: string
    var flushed: string
    var room: nat

    constructor (flushes: bool, room: nat)
      ensures this.flushes == flushes && text == flushed == "" && this.room == room
    {
      this.flushes, text, flushed, this.room := flushes, "", "", room;
    }

    /** A write that does not fit leaves as much of its text as does. */
    method Write(s: string) returns (ok: bool)
      modifies this`text, this`room
      ensures ok == (|s| <= old(room))
      ensures ok ==> text == old(text) + s && room == old(room) - |s|
      ensures !ok ==> text == old(text) + s[..old(room)] && room == 0
    {
      ok := |s| <= room;
      if ok {
        text, room := text + s, room - |s|;
      } else {
        text, room := text + s[..room], 0;
      }
    }

    method Flush()
      requires flushes
      modifies this`flushed
      ensures flushed == text
    {
      flushed := text;
    }
  }

  /** What two writes leave when the first fails, when the second does, and when neither does. */
  lemma TwoWrites(before: string, x: string, y: string, room: nat)
    ensures room < |x| ==> before + x[..room] == before + (x + y)[..room]
    ensures |x| <= room < |x| + |y| ==> (before + x) + y[..room - |x|] == before + (x + y)[..room]
    ensures (before + x) + y == before + (x + y)
  {
    if |x| <= room < |x| + |y| {
      assert (x + y)[..room] == x + y[..room - |x|];
    }
  }

  /** The event is printed whole and flushed, or printed as far as the connection takes it. */
  method WriteSse(w: Response, name: string, payload: string) returns (ok: bool)
    modifies w
    ensures var printed := Printed(Event(name, payload));
      && ok == (|printed| <= old(w.room))
      && w.text == old(w.text) + (if ok then printed else printed[..old(w.room)])
      && w.flushed == if ok && w.flushes then w.text else old(w.flushed)
  {
    var eventLine, dataLine := EventLine(name), DataLine(payload);
    TwoWrites(w.text, eventLine, dataLine, w.room);
    ok := w.Write(eventLine);
    if !ok {
      return;
    }
    ok := w.Write(dataLine);
    if ok && w.flushes {
      w.Flush();
    }
  }

  // ---------------------------------------------------------------- the parser

  /** Where the first blank line starts: the index of the first "\n\n", or -1. */
  function Boundary(s: string): (i: int)
    ensures -1 <= i && i + 2 <= |s| + 1 && (i >= 0 ==> i + 2 <= |s|)
  {
    if |s| < 2 then -1
    else if s[0] == '\n' && s[1] == '\n' then 0
    else
      var i := Boundary(s[1..]);
      if i < 0 then -1 else i + 1
  }

  function IndexOfLf(s: string): (i: int)
    ensures -1 <= i < |s|
  {
    if s == [] then -1
    else if s[0] == '\n' then 0
    else
      var i := IndexOfLf(s[1..]);
      if i < 0 then -1 else i + 1
  }

  /** Splitting at "\n" or "\r\n". */
  function Lines(s: string): seq<string>
    decreases |s|
  {
    var i := IndexOfLf(s);
    if i < 0 then [s] else [WithoutCr(s[..i])] + Lines(s[i + 1..])
  }

  datatype Fields = Fields(name: string, data: seq<string>)

  function TakeLine(f: Fields, line: string): Fields {
    if "event:" <= line then f.(name := JsTrim(line[6..]))
    else if "data:" <= line then f.(data := f.data + [JsTrim(line[5..])])
    else f
  }

  function TakeLines(f: Fields, lines: seq<string>): Fields
    decreases |lines|
  {
    if lines == [] then f else TakeLines(TakeLine(f, lines[0]), lines[1..])
  }

  /** What a subscriber listens for: a name, and the texts its JSON parser takes. */
  datatype Subscription = Subscription(name: string, parses: string -> bool)

  /** What one event delivers: its data lines joined, if it has any, its name fits and the text parses. */
  function Deliver(f: Fields, sub: Subscription): seq<string> {
    if f.name != sub.name || f.data == [] || !sub.parses(Join(f.data, "\n")) then [] else [Join(f.data, "\n")]
  }

  function Delivered(raw: string, sub: Subscription): seq<string> {
    Deliver(TakeLines(Fields("message", []), Lines(raw)), sub)
  }

  datatype Drained = Drained(delivered: seq<string>, buffer: string)

  /** All complete events of a buffer, and what is left. */
  function Drain(buffer: string, sub: Subscription): Drained
    decreases |buffer|
  {
    var i := Boundary(buffer);
    if i < 0 then Drained([], buffer)
    else
      var d := Drain(buffer[i + 2..], sub);
      Drained(Delivered(buffer[..i], sub) + d.delivered, d.buffer)
  }

  lemma LineTaken(f: Fields, lines: seq<string>, i: nat)
    requires i < |lines|
    ensures TakeLines(f, lines[i..]) == TakeLines(TakeLine(f, lines[i]), lines[i + 1..])
  {
    assert lines[i..][1..] == lines[i + 1..];
  }

  predicate EventLineAt(lines: seq<string>, i: nat) {
    i < |lines| && "event:" <= lines[i]
  }

  /** Line i names the event: no later line does. */
  predicate NamedAt(lines: seq<string>, i: nat) {
    EventLineAt(lines, i) && forall k :: i < k < |lines| ==> !EventLineAt(lines, k)
  }

  /** The trimmed texts of the data lines, in order. */
  function DataOf(lines: seq<string>): seq<string> {
    if lines == [] then []
    else (if "data:" <= lines[0] then [JsTrim(lines[0][5..])] else []) + DataOf(lines[1..])
  }

  lemma {:induction false} TakenData(f: Fields, lines: seq<string>)
    ensures TakeLines(f, lines).data == f.data + DataOf(lines)
    decreases |lines|
  {
    if lines == [] {
      assert f.data + [] == f.data;
    } else {
      TakenData(TakeLine(f, lines[0]), lines[1..]);
      NotBoth(lines[0]);
      if "data:" <= lines[0] {
        ConcatAssoc(f.data, [JsTrim(lines[0][5..])], DataOf(lines[1..]));
      } else {
        assert [] + DataOf(lines[1..]) == DataOf(lines[1..]);
      }
    }
  }

  lemma NotBoth(line: string)
    ensures !("event:" <= line && "data:" <= line)
  {
    assert "event:" <= line ==> line[0] == 'e';
    assert "data:" <= line ==> line[0] == 'd';
  }

  lemma EventLineLater(lines: seq<string>, rest: seq<string>, k: nat)
    requires lines != [] && rest == lines[1..]
    ensures EventLineAt(rest, k) <==> EventLineAt(lines, k + 1)
  {
  }

  lemma {:induction false} UnnamedTaken(f: Fields, lines: seq<string>)
    requires forall i: nat | i < |lines| :: !EventLineAt(lines, i)
    ensures TakeLines(f, lines).name == f.name
    decreases |lines|
  {
    if lines != [] {
      var rest := lines[1..];
      forall k: nat | k < |rest|
        ensures !EventLineAt(rest, k)
      {
        EventLineLater(lines, rest, k);
      }
      assert !EventLineAt(lines, 0);
      UnnamedTaken(TakeLine(f, lines[0]), rest);
    }
  }

  lemma {:induction false} NamedTaken(f: Fields, lines: seq<string>, i: nat)
    requires NamedAt(lines, i)
    ensures TakeLines(f, lines).name == JsTrim(lines[i][6..])
    decreases |lines|
  {
    var rest := lines[1..];
    forall k: nat | k < |rest|
      ensures EventLineAt(rest, k) <==> EventLineAt(lines, k + 1)
    {
      EventLineLater(lines, rest, k);
    }
    if i == 0 {
      UnnamedTaken(TakeLine(f, lines[0]), rest);
    } else {
      NamedTaken(TakeLine(f, lines[0]), rest, i - 1);
    }
  }

  /**
    What a raw event delivers: its data lines joined, when it has any, they parse, and its name is the
    subscribed one, that of its last event line or "message" when it has none.  Other lines say nothing.
   */
  lemma DeliveredMeaning(raw: string, sub: Subscription)
    ensures var lines := Lines(raw);
      var data := DataOf(lines);
      var out := if data != [] && sub.parses(Join(data, "\n")) then [Join(data, "\n")] else [];
      && ((forall i: nat | i < |lines| :: !EventLineAt(lines, i)) ==>
            Delivered(raw, sub) == if sub.name == "message" then out else [])
      && (forall i: nat | i < |lines| && NamedAt(lines, i) ::
            Delivered(raw, sub) == if sub.name == JsTrim(lines[i][6..]) then out else [])
  {
    var none: seq<string> := [];
    TakenData(Fields("message", none), Lines(raw));
    if forall i: nat | i < |Lines(raw)| :: !EventLineAt(Lines(raw), i) {
      UnnamedTaken(Fields("message", none), Lines(raw));
    }
    forall i: nat | i < |Lines(raw)| && NamedAt(Lines(raw), i)
      ensures TakeLines(Fields("message", none), Lines(raw)).name == JsTrim(Lines(raw)[i][6..])
    {
      NamedTaken(Fields("message", none), Lines(raw), i);
    }
    assert none + DataOf(Lines(raw)) == DataOf(Lines(raw));
  }

  method ParseEvent(rawEvent: string) returns (eventName: string, dataLines: seq<string>)
    ensures Fields(eventName, dataLines) == TakeLines(Fields("message", []), Lines(rawEvent))
  {
    var lines := Lines(rawEvent);
    eventName, dataLines := "message", [];
    assert lines[0..] == lines;
    for i := 0 to |lines|
      invariant TakeLines(Fields(eventName, dataLines), lines[i..]) == TakeLines(Fields("message", []), lines)
    {
      LineTaken(Fields(eventName, dataLines), lines, i);
      var line := lines[i];
      if "event:" <= line {
        eventName := JsTrim(line[6..]);
        continue;
      }
      if "data:" <= line {
        dataLines := dataLines + [JsTrim(line[5..])];
      }
    }
  }

  lemma DrainOne(buffer: string, sub: Subscription, i: nat, raw: string, rest: string)
    requires Boundary(buffer) == i && raw == buffer[..i] && rest == buffer[i + 2..]
    ensures Drain(buffer, sub) ==
      Drained(Delivered(raw, sub) + Drain(rest, sub).delivered, Drain(rest, sub).buffer)
  {
  }

  class Subscriber {
    const sub: Subscription
    var buffer: string
    var delivered: seq<string>

    constructor (sub: Subscription)
      ensures this.sub == sub && buffer == "" && delivered == []
    {
      this.sub := sub;
      buffer, delivered := "", [];
    }

    /** Delivers every event the chunk completes and keeps the unfinished rest. */
    method HandleChunk(chunk: string)
      modifies this
      ensures var d := Drain(old(buffer) + CrLfToLf(chunk), sub);
        delivered == old(delivered) + d.delivered && buffer == d.buffer
    {
      buffer := buffer + CrLfToLf(chunk);
      ghost var all := Drain(buffer, sub);
      while true
        invariant old(delivered) + all.delivered == delivered + Drain(buffer, sub).delivered
        invariant all.buffer == Drain(buffer, sub).buffer
        decreases |buffer|
      {
        var eventBoundary := Boundary(buffer);
        if eventBoundary == -1 {
          break;
        }
        var rawEvent, rest := buffer[..eventBoundary], buffer[eventBoundary + 2..];
        DrainOne(buffer, sub, eventBoundary, rawEvent, rest);
        ConcatAssoc(delivered, Delivered(rawEvent, sub), Drain(rest, sub).delivered);
        buffer := rest;
        var eventName, dataLines := ParseEvent(rawEvent);
        if eventName != sub.name || dataLines == [] {
          continue;
        }
        var data := Join(dataLines, "\n");
        if sub.parses(data) {
          delivered := delivered + [data];
        }
      }
    }
  }

  // ---------------------------------------------------------------- chunking does not matter

  lemma {:induction false} BoundaryStable(x: string, y: string)
    requires Boundary(x) >= 0
    ensures Boundary(x + y) == Boundary(x)
  {
    if !(x[0] == '\n' && x[1] == '\n') {
      BoundaryStable(x[1..], y);
      DropAppend(x, y, 1);
    }
  }

  lemma SplitAt(x: string, y: string, i: nat)
    requires i + 2 <= |x|
    ensures (x + y)[..i] == x[..i] && (x + y)[i + 2..] == x[i + 2..] + y
  {
  }

  /** Draining what arrived so far and then the rest is draining it all at once. */
  lemma {:induction false} DrainAppend(x: string, y: string, sub: Subscription)
    ensures var first := Drain(x, sub);
      var second := Drain(first.buffer + y, sub);
      Drain(x + y, sub) == Drained(first.delivered + second.delivered, second.buffer)
    decreases |x|
  {
    var i := Boundary(x);
    if i >= 0 {
      BoundaryStable(x, y);
      SplitAt(x, y, i);
      var raw, rest := x[..i], x[i + 2..];
      DrainAppend(rest, y, sub);
      DrainOne(x, sub, i, raw, rest);
      DrainOne(x + y, sub, i, raw, rest + y);
      var first := Drain(rest, sub);
      ConcatAssoc(Delivered(raw, sub), first.delivered, Drain(first.buffer + y, sub).delivered);
    }
  }

  /** What a subscriber has delivered, and holds, after the chunks. */
  function Fed(chunks: seq<string>, sub: Subscription): Drained {
    if chunks == [] then Drained([], "")
    else
      var before := Fed(chunks[..|chunks| - 1], sub);
      var d := Drain(before.buffer + CrLfToLf(chunks[|chunks| - 1]), sub);
      Drained(before.delivered + d.delivered, d.buffer)
  }

  /** No chunk ends between a CR and its LF. */
  predicate KeepsCrLf(chunks: seq<string>) {
    chunks != [] ==>
      var front, last := chunks[..|chunks| - 1], chunks[|chunks| - 1];
      !CutsCrLf(Concat(front), last) && KeepsCrLf(front)
  }

  /**
    However the text is cut, as long as no cut falls between a CR and its LF, the subscriber
    delivers and holds what draining the whole text at once would.
   */
  lemma {:induction false} ChunkingIrrelevant(chunks: seq<string>, sub: Subscription)
    requires KeepsCrLf(chunks)
    ensures Fed(chunks, sub) == Drain(CrLfToLf(Concat(chunks)), sub)
  {
    if chunks != [] {
      var front, last := chunks[..|chunks| - 1], chunks[|chunks| - 1];
      assert chunks == front + [last];
      ChunkingIrrelevant(front, sub);
      ConcatSnoc(front, last);
      CrLfAppend(Concat(front), last);
      DrainAppend(CrLfToLf(Concat(front)), CrLfToLf(last), sub);
    }
  }

  // ---------------------------------------------------------------- the parser undoes the printer

  predicate NoLf(s: string) {
    '\n' !in s
  }

  /** Names and payloads the format carries unchanged. */
  predicate Clean(s: string) {
    Trimmed(s, JsSpace) && '\n' !in s && '\r' !in s
  }

  predicate CleanEvent(e: Event) {
    Clean(e.name) && Clean(e.payload)
  }

  predicate Wanted(e: Event, sub: Subscription) {
    e.name == sub.name && sub.parses(e.payload)
  }

  /** The payloads of the events with the subscribed name that parse, in order. */
  function Payloads(events: seq<Event>, sub: Subscription): seq<string> {
    if events == [] then []
    else (if Wanted(events[0], sub) then [events[0].payload] else []) + Payloads(events[1..], sub)
  }

  lemma {:induction false} IndexOfLfAt(a: string, rest: string)
    requires NoLf(a)
    ensures IndexOfLf(a + ("\n" + rest)) == |a|
  {
    if a != [] {
      IndexOfLfAt(a[1..], rest);
      DropAppend(a, "\n" + rest, 1);
    } else {
      assert a + ("\n" + rest) == "\n" + rest;
    }
  }

  lemma {:induction false} IndexOfLfNone(a: string)
    requires NoLf(a)
    ensures IndexOfLf(a) == -1
  {
    if a != [] {
      IndexOfLfNone(a[1..]);
    }
  }

  lemma TwoLines(a: string, b: string, raw: string)
    requires NoLf(a) && NoLf(b) && '\r' !in a && raw == a + ("\n" + b)
    ensures Lines(raw) == [a, b]
  {
    IndexOfLfAt(a, b);
    IndexOfLfNone(b);
    assert raw[..|a|] == a && raw[|a| + 1..] == b;
  }

  lemma {:induction false} BoundarySkips(a: string, s: string)
    requires NoLf(a) && Boundary(s) >= 0
    ensures Boundary(a + s) == |a| + Boundary(s)
  {
    if a != [] {
      BoundarySkips(a[1..], s);
      DropAppend(a, s, 1);
    } else {
      assert a + s == s;
    }
  }

  lemma BoundaryHere(rest: string)
    ensures Boundary("\n\n" + rest) == 0
  {
  }

  lemma BoundaryAfterLf(next: string)
    requires Boundary(next) > 0 && next[0] != '\n'
    ensures Boundary("\n" + next) == 1 + Boundary(next)
  {
    assert ("\n" + next)[1..] == next;
  }

  lemma BoundaryOfTwo(a: string, b: string, rest: string)
    requires NoLf(a) && NoLf(b) && b != []
    ensures Boundary(a + ("\n" + (b + ("\n\n" + rest)))) == |a| + 1 + |b|
  {
    var last := b + ("\n\n" + rest);
    BoundaryHere(rest);
    BoundarySkips(b, "\n\n" + rest);
    assert last[0] == b[0];
    BoundaryAfterLf(last);
    BoundarySkips(a, "\n" + last);
  }

  lemma PaddedTrim(s: string)
    requires Trimmed(s, JsSpace)
    ensures JsTrim(" " + s) == s
  {
    TrimPads(" ", s, "", JsSpace);
    TrimKeepsTrimmed(s, JsSpace);
    assert " " + (s + "") == " " + s;
  }

  lemma EventLineTaken(f: Fields, name: string)
    requires Trimmed(name, JsSpace)
    ensures TakeLine(f, "event: " + name) == f.(name := name)
  {
    PaddedTrim(name);
    assert ("event: " + name)[6..] == " " + name;
  }

  lemma DataLineTaken(f: Fields, payload: string)
    requires Trimmed(payload, JsSpace)
    ensures TakeLine(f, "data: " + payload) == f.(data := f.data + [payload])
  {
    PaddedTrim(payload);
    var line := "data: " + payload;
    assert line[0] == 'd' && line[5..] == " " + payload;
  }

  lemma TakeOne(f: Fields, x: string)
    ensures TakeLines(f, [x]) == TakeLine(f, x)
  {
    assert [x][1..] == [];
  }

  lemma TakeTwo(f: Fields, x: string, y: string)
    ensures TakeLines(f, [x, y]) == TakeLine(TakeLine(f, x), y)
  {
    assert [x, y][1..] == [y];
    TakeOne(TakeLine(f, x), y);
  }

  lemma LinesTaken(e: Event)
    requires CleanEvent(e)
    ensures TakeLines(Fields("message", []), ["event: " + e.name, "data: " + e.payload]) == Fields(e.name, [e.payload])
  {
    var none: seq<string> := [];
    TakeTwo(Fields("message", none), "event: " + e.name, "data: " + e.payload);
    EventLineTaken(Fields("message", none), e.name);
    DataLineTaken(Fields(e.name, none), e.payload);
  }

  lemma PrintedShape(a: string, b: string, rest: string, raw: string, text: string)
    requires raw == a + ("\n" + b) && text == ((a + "\n") + (b + "\n\n")) + rest
    ensures text == a + ("\n" + (b + ("\n\n" + rest)))
    ensures |text| >= |raw| + 2 && text[..|raw|] == raw && text[|raw| + 2..] == rest
  {
  }

  lemma PrintedEventDrained(e: Event, rest: string, sub: Subscription)
    requires CleanEvent(e)
    ensures var d := Drain(rest, sub);
      Drain(Printed(e) + rest, sub) ==
        Drained((if Wanted(e, sub) then [e.payload] else []) + d.delivered, d.buffer)
  {
    var a, b := "event: " + e.name, "data: " + e.payload;
    var raw, text := a + ("\n" + b), Printed(e) + rest;
    PrintedLines(e);
    PrintedShape(a, b, rest, raw, text);
    BoundaryOfTwo(a, b, rest);
    PrintedEventDelivered(e, raw, sub);
    DrainOne(text, sub, |raw|, raw, rest);
  }

  lemma PrintedEventDelivered(e: Event, raw: string, sub: Subscription)
    requires CleanEvent(e) && raw == ("event: " + e.name) + ("\n" + ("data: " + e.payload))
    ensures Delivered(raw, sub) == if Wanted(e, sub) then [e.payload] else []
  {
    PrintedLines(e);
    TwoLines("event: " + e.name, "data: " + e.payload, raw);
    LinesTaken(e);
  }

  lemma PrintedLines(e: Event)
    ensures Printed(e) == (("event: " + e.name) + "\n") + (("data: " + e.payload) + "\n\n")
    ensures CleanEvent(e) ==>
      NoLf("event: " + e.name) && NoLf("data: " + e.payload) && '\r' !in "event: " + e.name && '\r' !in Printed(e)
  {
  }

  lemma {:induction false} PrintedDrained(events: seq<Event>, sub: Subscription)
    requires forall e <- events :: CleanEvent(e)
    ensures Drain(PrintedAll(events), sub) == Drained(Payloads(events, sub), "")
    ensures '\r' !in PrintedAll(events)
  {
    if events != [] {
      PrintedDrained(events[1..], sub);
      PrintedEventDrained(events[0], PrintedAll(events[1..]), sub);
      PrintedLines(events[0]);
    }
  }

  lemma {:induction false} NoCrNoCut(chunks: seq<string>)
    requires '\r' !in Concat(chunks)
    ensures KeepsCrLf(chunks)
  {
    if chunks != [] {
      var front, last := chunks[..|chunks| - 1], chunks[|chunks| - 1];
      assert chunks == front + [last];
      ConcatSnoc(front, last);
      NoCrNoCut(front);
    }
  }

  /**
    Round trip: for every list of events with clean names and payloads, and every way of cutting the
    printed text into chunks, the subscriber delivers exactly the payloads with its name, in order,
    and is left with an empty buffer.
   */
  lemma RoundTrip(events: seq<Event>, chunks: seq<string>, sub: Subscription)
    requires (forall e <- events :: CleanEvent(e)) && Concat(chunks) == PrintedAll(events)
    ensures Fed(chunks, sub) == Drained(Payloads(events, sub), "")
  {
    PrintedDrained(events, sub);
    NoCrNoCut(chunks);
    ChunkingIrrelevant(chunks, sub);
    CrLfKeepsLf(Concat(chunks));
  }

  /** At any point of the stream, what has been delivered is a prefix of what the events call for. */
  lemma DeliveredSoFar(events: seq<Event>, chunks: seq<string>, more: string, sub: Subscription)
    requires (forall e <- events :: CleanEvent(e)) && Concat(chunks) + more == PrintedAll(events)
    ensures Fed(chunks, sub).delivered <= Payloads(events, sub)
  {
    PrintedDrained(events, sub);
    assert forall i :: 0 <= i < |Concat(chunks)| ==> Concat(chunks)[i] == PrintedAll(events)[i];
    NoCrNoCut(chunks);
    ChunkingIrrelevant(chunks, sub);
    CrLfKeepsLf(Concat(chunks));
    DrainAppend(Concat(chunks), more, sub);
  }
}
