/**
  The event stream parser when a chunk ends between a CR and its LF: what it then delivers, and where
  such a cut can do no harm.
 */
module SseCuts {
  import opened Sequences
  import opened SseStream
  import opened Text

  // ---------------------------------------------------------------- the two ways of cutting

  /** Any chunks, then text with a CR LF in it, then any chunks. */
  function Uncut(chunks: seq<string>, z: string, y: string, more: seq<string>): seq<string> {
    (chunks + [z + ("\r\n" + y)]) + more
  }

  /** The same, with one more cut, between the CR and the LF. */
  function CutThere(chunks: seq<string>, z: string, y: string, more: seq<string>): seq<string> {
    (chunks + [z + "\r"]) + (["\n" + y] + more)
  }

  predicate SameDeliveries(chunks: seq<string>, z: string, y: string, more: seq<string>, sub: Subscription) {
    Fed(CutThere(chunks, z, y, more), sub).delivered == Fed(Uncut(chunks, z, y, more), sub).delivered
  }

  const NO_LINES := Fields("message", [])

  /** What the lines of a raw event say. */
  function Read(raw: string): Fields {
    TakeLines(NO_LINES, Lines(raw))
  }

  /** The chunks as the parser sees them. */
  function Normalized(chunks: seq<string>): string {
    if chunks == [] then ""
    else Normalized(chunks[..|chunks| - 1]) + CrLfToLf(chunks[|chunks| - 1])
  }

  // ---------------------------------------------------------------- blank lines and CR

  /** Text without a blank line, and not at a line start, only moves the next blank line along. */
  lemma {:induction false} BoundaryPast(b: string, s: string)
    requires Boundary(b) < 0 && !EndsInLf(b)
    ensures Boundary(b + s) == if Boundary(s) < 0 then -1 else |b| + Boundary(s)
  {
    if b == "" {
      assert b + s == s;
    } else {
      DropAppend(b, s, 1);
      if |b| >= 2 {
        assert (b + s)[1] == b[1];
      }
      BoundaryPast(b[1..], s);
    }
  }

  predicate EndsInLf(s: string) {
    s != "" && s[|s| - 1] == '\n'
  }

  lemma LastLf(s: string)
    requires EndsInLf(s)
    ensures s == s[..|s| - 1] + "\n"
  {
  }

  lemma {:induction false} BoundaryReached(d: string)
    ensures Boundary(d + "\n\n") >= 0
  {
    if d == "" {
      assert d + "\n\n" == "\n\n";
    } else {
      BoundaryReached(d[1..]);
      DropAppend(d, "\n\n", 1);
    }
  }

  /** A text without a blank line that ends in LF holds none and no LF at its end before that. */
  lemma BeforeLastLf(c: string)
    requires Boundary(c + "\n") < 0
    ensures Boundary(c) < 0 && !EndsInLf(c)
  {
    if Boundary(c) >= 0 {
      BoundaryStable(c, "\n");
    } else if EndsInLf(c) {
      var d := c[..|c| - 1];
      assert c + "\n" == d + "\n\n";
      BoundaryReached(d);
    }
  }

  lemma {:induction false} NothingLeftToDrain(buffer: string, sub: Subscription)
    ensures Boundary(Drain(buffer, sub).buffer) < 0
    decreases |buffer|
  {
    if Boundary(buffer) >= 0 {
      NothingLeftToDrain(buffer[Boundary(buffer) + 2..], sub);
    }
  }

  /** A CR that closes a line makes no difference to what the line says. */
  lemma TakeLineCr(f: Fields, line: string)
    ensures TakeLine(f, line + "\r") == TakeLine(f, line)
  {
    if "event:" <= line {
      PrefixCr("event:", line);
      TrimCr(line[6..]);
    } else if "data:" <= line {
      NoPrefixCr("event:", line);
      PrefixCr("data:", line);
      TrimCr(line[5..]);
    } else {
      NoPrefixCr("event:", line);
      NoPrefixCr("data:", line);
    }
  }

  lemma TrimCr(s: string)
    ensures JsTrim(s + "\r") == JsTrim(s)
  {
    TrimPads("", s, "\r", JsSpace);
    NothingBefore(s + "\r");
  }

  lemma PrefixCr(prefix: string, line: string)
    requires prefix <= line
    ensures prefix <= line + "\r" && (line + "\r")[|prefix|..] == line[|prefix|..] + "\r"
  {
    DropAppend(line, "\r", |prefix|);
  }

  lemma NoPrefixCr(prefix: string, line: string)
    requires !(prefix <= line) && prefix != "" && prefix[|prefix| - 1] != '\r'
    ensures !(prefix <= line + "\r")
  {
    var longer := line + "\r";
    if |prefix| <= |line| {
      assert longer[..|prefix|] == line[..|prefix|];
    } else if |prefix| == |longer| {
      assert longer[|prefix| - 1] == '\r';
    }
  }

  lemma TakeLineWithoutCr(f: Fields, line: string)
    ensures TakeLine(f, WithoutCr(line)) == TakeLine(f, line)
  {
    if WithoutCr(line) != line {
      TakeLineCr(f, WithoutCr(line));
      assert line == WithoutCr(line) + "\r";
    }
  }

  lemma {:induction false} IndexOfLfIn(s: string, m: string)
    requires IndexOfLf(s) >= 0
    ensures IndexOfLf(s + m) == IndexOfLf(s)
  {
    if s[0] != '\n' {
      IndexOfLfIn(s[1..], m);
      DropAppend(s, m, 1);
    }
  }

  lemma {:induction false} IndexOfLfMeaning(s: string)
    requires IndexOfLf(s) < 0
    ensures NoLf(s)
  {
    if s != "" {
      IndexOfLfMeaning(s[1..]);
    }
  }

  lemma LinesStep(s: string, m: string, i: nat)
    requires IndexOfLf(s) == i
    ensures Lines(s + m) == [WithoutCr(s[..i])] + Lines(s[i + 1..] + m)
  {
    IndexOfLfIn(s, m);
    DropAppend(s, m, i + 1);
    assert (s + m)[..i] == s[..i];
  }

  lemma TakeCons(f: Fields, line: string, rest: seq<string>)
    ensures TakeLines(f, [line] + rest) == TakeLines(TakeLine(f, line), rest)
  {
    assert ([line] + rest)[1..] == rest;
  }

  /** A CR before a line end says nothing. */
  lemma {:induction false} CrBeforeLineEnd(f: Fields, b: string, m: string)
    requires m == "" || m[0] == '\n'
    ensures TakeLines(f, Lines(b + m)) == TakeLines(f, Lines((b + "\r") + m))
    decreases |b|
  {
    var i := IndexOfLf(b);
    if i >= 0 {
      var first, rest := WithoutCr(b[..i]), b[i + 1..];
      IndexOfLfIn(b, "\r");
      LinesStep(b, m, i);
      LinesStep(b + "\r", m, i);
      DropAppend(b, "\r", i + 1);
      assert (b + "\r")[..i] == b[..i];
      TakeCons(f, first, Lines(rest + m));
      TakeCons(f, first, Lines((rest + "\r") + m));
      CrBeforeLineEnd(TakeLine(f, first), rest, m);
    } else {
      IndexOfLfMeaning(b);
      LastLineCr(f, b, m);
    }
  }

  lemma LastLineCr(f: Fields, b: string, m: string)
    requires NoLf(b) && (m == "" || m[0] == '\n')
    ensures TakeLines(f, Lines(b + m)) == TakeLines(f, Lines((b + "\r") + m))
  {
    if m == "" {
      assert b + m == b && (b + "\r") + m == b + "\r";
      IndexOfLfNone(b);
      IndexOfLfNone(b + "\r");
      TakeOne(f, b);
      TakeOne(f, b + "\r");
      TakeLineCr(f, b);
    } else {
      LineThen(b, m);
      LineThen(b + "\r", m);
      TakeCons(f, WithoutCr(b), Lines(m[1..]));
      TakeCons(f, b, Lines(m[1..]));
      TakeLineWithoutCr(f, b);
      assert WithoutCr(b + "\r") == b;
    }
  }

  lemma LineThen(a: string, m: string)
    requires NoLf(a) && m != "" && m[0] == '\n'
    ensures Lines(a + m) == [WithoutCr(a)] + Lines(m[1..])
  {
    assert m == "\n" + m[1..];
    IndexOfLfAt(a, m[1..]);
    assert (a + m)[..|a|] == a && (a + m)[|a| + 1..] == m[1..];
  }

  /** When the buffer before a cut is not at a line start, what comes after delivers the same with the CR left in. */
  lemma CrLeftIn(b: string, w: string, sub: Subscription)
    requires Boundary(b) < 0 && !EndsInLf(b)
    ensures Drain((b + "\r") + ("\n" + w), sub).delivered == Drain(b + ("\n" + w), sub).delivered
  {
    var after := "\n" + w;
    var j := Boundary(after);
    NoBlankWithCr(b);
    BoundaryPast(b, after);
    BoundaryPast(b + "\r", after);
    if j >= 0 {
      SplitAfter(b, after, j);
      SplitAfter(b + "\r", after, j);
      DrainOne(b + after, sub, |b| + j, b + after[..j], after[j + 2..]);
      DrainOne((b + "\r") + after, sub, |b| + 1 + j, (b + "\r") + after[..j], after[j + 2..]);
      CrBeforeLineEnd(Fields("message", []), b, after[..j]);
    }
  }

  lemma NoBlankWithCr(b: string)
    requires Boundary(b) < 0
    ensures Boundary(b + "\r") < 0
  {
    if EndsInLf(b) {
      var c := b[..|b| - 1];
      LastLf(b);
      BeforeLastLf(c);
      ConcatAssoc(c, "\n", "\r");
      CrAfterLf();
      BoundaryPast(c, "\n" + "\r");
    } else {
      BoundaryPast(b, "\r");
    }
  }

  lemma CrAfterLf()
    ensures Boundary("\n" + "\r") < 0
  {
    assert ("\n" + "\r")[1..] == "\r";
  }

  lemma SplitAfter(b: string, s: string, j: nat)
    requires j + 2 <= |s|
    ensures (b + s)[..|b| + j] == b + s[..j] && (b + s)[|b| + j + 2..] == s[j + 2..]
  {
  }

  /** A CR at the end completes nothing. */
  lemma DrainCr(x: string, sub: Subscription)
    ensures var d := Drain(x, sub);
      Boundary(d.buffer) < 0 && Drain(x + "\r", sub) == Drained(d.delivered, d.buffer + "\r")
  {
    DrainAppend(x, "\r", sub);
    NothingLeftToDrain(x, sub);
    NoBlankWithCr(Drain(x, sub).buffer);
  }

  lemma FedSnoc(chunks: seq<string>, last: string, sub: Subscription)
    ensures var before := Fed(chunks, sub);
      var d := Drain(before.buffer + CrLfToLf(last), sub);
      Fed(chunks + [last], sub) == Drained(before.delivered + d.delivered, d.buffer)
  {
    assert (chunks + [last])[..|chunks|] == chunks;
  }

  /** Feeding a chunk that ends in CR leaves the CR at the end of the buffer, and delivers no more than without it. */
  lemma FedCr(chunks: seq<string>, z: string, sub: Subscription)
    ensures var before := Fed(chunks + [z], sub);
      && Boundary(before.buffer) < 0
      && Fed(chunks + [z + "\r"], sub) == Drained(before.delivered, before.buffer + "\r")
  {
    var start := Fed(chunks, sub);
    FedSnoc(chunks, z, sub);
    FedSnoc(chunks, z + "\r", sub);
    NormalizedCr(z);
    ConcatAssoc(start.buffer, CrLfToLf(z), "\r");
    DrainCr(start.buffer + CrLfToLf(z), sub);
  }

  lemma NormalizedCr(z: string)
    ensures CrLfToLf(z + "\r") == CrLfToLf(z) + "\r"
  {
    CrLfAppend(z, "\r");
    assert CrLfToLf("\r") == "\r" + CrLfToLf("");
  }

  lemma CrLfThen(y: string)
    ensures CrLfToLf("\r\n" + y) == "\n" + CrLfToLf(y) && CrLfToLf("\n" + y) == "\n" + CrLfToLf(y)
  {
    assert ("\r\n" + y)[2..] == y && ("\n" + y)[1..] == y;
  }

  // ---------------------------------------------------------------- feeding

  lemma FedDrained(chunks: seq<string>, sub: Subscription)
    ensures Boundary(Fed(chunks, sub).buffer) < 0
  {
    if chunks != [] {
      var before := Fed(chunks[..|chunks| - 1], sub);
      NothingLeftToDrain(before.buffer + CrLfToLf(chunks[|chunks| - 1]), sub);
    }
  }

  /** Feeding more chunks is draining their text. */
  lemma {:induction false} FedMore(chunks: seq<string>, more: seq<string>, sub: Subscription)
    ensures var before := Fed(chunks, sub);
      var d := Drain(before.buffer + Normalized(more), sub);
      Fed(chunks + more, sub) == Drained(before.delivered + d.delivered, d.buffer)
  {
    var before := Fed(chunks, sub);
    if more == [] {
      FedDrained(chunks, sub);
      assert chunks + more == chunks && before.buffer + "" == before.buffer;
    } else {
      var front, last := more[..|more| - 1], more[|more| - 1];
      SplitLast(more);
      ConcatAssoc(chunks, front, [last]);
      FedMore(chunks, front, sub);
      FedSnoc(chunks + front, last, sub);
      var x, y := before.buffer + Normalized(front), CrLfToLf(last);
      DrainAppend(x, y, sub);
      ConcatAssoc(before.buffer, Normalized(front), y);
      ConcatAssoc(before.delivered, Drain(x, sub).delivered, Drain(Drain(x, sub).buffer + y, sub).delivered);
    }
  }

  lemma {:induction false} NormalizedCons(first: string, more: seq<string>)
    ensures Normalized([first] + more) == CrLfToLf(first) + Normalized(more)
  {
    if more == [] {
      assert [first] + more == [first] && [first][..0] == [];
    } else {
      var front, last := more[..|more| - 1], more[|more| - 1];
      TakeAppend([first], more);
      NormalizedCons(first, front);
      ConcatAssoc(CrLfToLf(first), Normalized(front), CrLfToLf(last));
    }
  }

  /** A cut that does not fall between a CR and its LF makes no difference. */
  lemma FedJoined(chunks: seq<string>, x: string, y: string, sub: Subscription)
    requires !CutsCrLf(x, y)
    ensures Fed(chunks + [x + y], sub) == Fed((chunks + [x]) + [y], sub)
  {
    var start := Fed(chunks, sub);
    FedSnoc(chunks, x + y, sub);
    FedSnoc(chunks, x, sub);
    FedSnoc(chunks + [x], y, sub);
    CrLfAppend(x, y);
    ConcatAssoc(start.buffer, CrLfToLf(x), CrLfToLf(y));
    var first := Drain(start.buffer + CrLfToLf(x), sub);
    DrainAppend(start.buffer + CrLfToLf(x), CrLfToLf(y), sub);
    ConcatAssoc(start.delivered, first.delivered, Drain(first.buffer + CrLfToLf(y), sub).delivered);
  }

  /** The text after the CR LF, as the parser sees it. */
  function After(y: string, more: seq<string>): string {
    CrLfToLf(y) + Normalized(more)
  }

  lemma NormalizedAfter(y: string, more: seq<string>)
    ensures Normalized(["\n" + y] + more) == "\n" + After(y, more)
    ensures Normalized(["\r\n" + y] + more) == "\n" + After(y, more)
  {
    CrLfThen(y);
    NormalizedCons("\n" + y, more);
    NormalizedCons("\r\n" + y, more);
    ConcatAssoc("\n", CrLfToLf(y), Normalized(more));
  }

  lemma FedUncut(chunks: seq<string>, z: string, y: string, more: seq<string>, sub: Subscription)
    ensures var before := Fed(chunks + [z], sub);
      Fed(Uncut(chunks, z, y, more), sub).delivered ==
        before.delivered + Drain(before.buffer + ("\n" + After(y, more)), sub).delivered
  {
    FedJoined(chunks, z, "\r\n" + y, sub);
    FedMore(chunks + [z + ("\r\n" + y)], more, sub);
    FedMore((chunks + [z]) + ["\r\n" + y], more, sub);
    ConcatAssoc(chunks + [z], ["\r\n" + y], more);
    FedMore(chunks + [z], ["\r\n" + y] + more, sub);
    NormalizedAfter(y, more);
  }

  lemma FedCut(chunks: seq<string>, z: string, y: string, more: seq<string>, sub: Subscription)
    ensures var before := Fed(chunks + [z], sub);
      Fed(CutThere(chunks, z, y, more), sub).delivered ==
        before.delivered + Drain((before.buffer + "\r") + ("\n" + After(y, more)), sub).delivered
  {
    FedCr(chunks, z, sub);
    FedMore(chunks + [z + "\r"], ["\n" + y] + more, sub);
    NormalizedAfter(y, more);
  }

  // ---------------------------------------------------------------- cuts that do no harm

  /**
    A cut between a CR and its LF makes no difference to any delivery, now or later, as long as the line
    they end is not blank: after any chunks, for any text around the cut and any chunks to come.
   */
  lemma CutOutsideBlankLine(chunks: seq<string>, z: string, y: string, more: seq<string>, sub: Subscription)
    requires !EndsInLf(Fed(chunks + [z], sub).buffer)
    ensures SameDeliveries(chunks, z, y, more, sub)
  {
    FedCr(chunks, z, sub);
    FedCut(chunks, z, y, more, sub);
    FedUncut(chunks, z, y, more, sub);
    CrLeftIn(Fed(chunks + [z], sub).buffer, After(y, more), sub);
  }

  // ---------------------------------------------------------------- cuts in a blank line

  lemma {:induction false} LinesThen(f: Fields, x: string, m: string)
    ensures TakeLines(f, Lines(x + ("\n" + m))) == TakeLines(TakeLines(f, Lines(x)), Lines(m))
    decreases |x|
  {
    var i := IndexOfLf(x);
    if i >= 0 {
      var first, rest := WithoutCr(x[..i]), x[i + 1..];
      LinesStep(x, "\n" + m, i);
      TakeCons(f, first, Lines(rest + ("\n" + m)));
      TakeCons(f, first, Lines(rest));
      LinesThen(TakeLine(f, first), rest, m);
    } else {
      IndexOfLfMeaning(x);
      LineThen(x, "\n" + m);
      TakeCons(f, WithoutCr(x), Lines(m));
      TakeLineWithoutCr(f, x);
      TakeOne(f, x);
    }
  }

  lemma BlankFirst(m: string)
    ensures Read("\n" + m) == Read(m)
  {
    LineThen("", "\n" + m);
    assert "" + ("\n" + m) == "\n" + m;
    TakeCons(NO_LINES, "", Lines(m));
  }

  /** An LF in front of a text delivers nothing. */
  lemma {:induction false} LeadingLf(w: string, sub: Subscription)
    ensures Drain("\n" + w, sub).delivered == Drain(w, sub).delivered
    decreases |w|
  {
    var s := "\n" + w;
    assert s[1..] == w;
    var j := Boundary(s);
    if j == 0 {
      assert w == "\n" + w[1..] && s[..0] == "" && s[2..] == w[1..];
      TakeOne(NO_LINES, "");
      DrainOne(s, sub, 0, "", w[1..]);
      LeadingLf(w[1..], sub);
    } else if j > 0 {
      assert s[..j] == "\n" + w[..j - 1] && s[j + 2..] == w[j + 1..];
      BlankFirst(w[..j - 1]);
      DrainOne(s, sub, j, "\n" + w[..j - 1], w[j + 1..]);
      DrainOne(w, sub, j - 1, w[..j - 1], w[j + 1..]);
    }
  }

  /** Without the cut, the blank line ends its event. */
  lemma BlankUncut(c: string, w: string, sub: Subscription)
    requires Boundary(c + "\n") < 0
    ensures Drain((c + "\n") + ("\n" + w), sub).delivered ==
      Deliver(Read(c), sub) + Drain("\n" + w, sub).delivered
  {
    var s := "\n\n" + w;
    BeforeLastLf(c);
    BoundaryHere(w);
    BoundaryPast(c, s);
    TwoLfs(c, w, s);
    DrainOne(c + s, sub, |c|, c, w);
    LeadingLf(w, sub);
  }

  lemma TwoLfs(c: string, w: string, s: string)
    requires s == "\n\n" + w
    ensures (c + "\n") + ("\n" + w) == c + s && (c + s)[..|c|] == c && (c + s)[|c| + 2..] == w
  {
    ConcatAssoc("\n", "\n", w);
    ConcatAssoc(c, "\n", "\n" + w);
    SplitAfter(c, s, 0);
  }

  /** What the raw event that follows says when it is read on top of the one before it. */
  function ReadOn(f: Fields, raw: string): Fields {
    TakeLines(f, Lines(raw))
  }

  /** With the cut, the event runs on to the next blank line. */
  lemma BlankCut(c: string, s: string, sub: Subscription)
    requires Boundary(c + "\n") < 0 && "\n" <= s
    ensures var j := Boundary(s);
      Drain(((c + "\n") + "\r") + s, sub).delivered ==
        if j < 0 then [] else Deliver(ReadOn(Read(c), s[..j]), sub) + Drain(s[j + 2..], sub).delivered
  {
    var b, j := c + "\n", Boundary(s);
    NoBlankWithCr(b);
    BoundaryPast(b + "\r", s);
    if j >= 0 {
      var m, rest := s[..j], s[j + 2..];
      SplitAfter(b + "\r", s, j);
      DrainOne((b + "\r") + s, sub, |b| + 1 + j, (b + "\r") + m, rest);
      CrBeforeLineEnd(NO_LINES, b, m);
      ConcatAssoc(c, "\n", m);
      LinesThen(NO_LINES, c, m);
    }
  }

  /** Everything delivered with and without a cut in the blank line after the raw event c. */
  lemma BlankLineDeliveries(chunks: seq<string>, z: string, c: string, y: string, more: seq<string>, sub: Subscription)
    requires Fed(chunks + [z], sub).buffer == c + "\n"
    ensures var before, s := Fed(chunks + [z], sub).delivered, "\n" + After(y, more);
      && Fed(Uncut(chunks, z, y, more), sub).delivered ==
        before + (Deliver(Read(c), sub) + Drain(s, sub).delivered)
      && Fed(CutThere(chunks, z, y, more), sub).delivered ==
        before + DeliveredOn(Read(c), s, sub)
  {
    FedDrained(chunks + [z], sub);
    FedUncut(chunks, z, y, more, sub);
    FedCut(chunks, z, y, more, sub);
    BlankUncut(c, After(y, more), sub);
    BlankCut(c, "\n" + After(y, more), sub);
  }

  /** What a text delivers when its first event is read on top of other fields. */
  function DeliveredOn(f: Fields, s: string, sub: Subscription): seq<string> {
    var j := Boundary(s);
    if j < 0 then [] else Deliver(ReadOn(f, s[..j]), sub) + Drain(s[j + 2..], sub).delivered
  }

  /** What an LF completes: the event before it, if it closes a blank line. */
  function CompletedByLf(b: string, sub: Subscription): seq<string> {
    if EndsInLf(b) then Deliver(Read(b[..|b| - 1]), sub) else []
  }

  /**
    As long as no blank line follows, such a cut holds a delivery back if and only if it is in the blank line
    that ends an event with something to deliver, and then exactly that.
   */
  lemma CutCrLfHoldsEventBackIff(chunks: seq<string>, z: string, y: string, more: seq<string>, sub: Subscription)
    requires Boundary("\n" + After(y, more)) < 0
    ensures var completed := CompletedByLf(Fed(chunks + [z], sub).buffer, sub);
      && Fed(Uncut(chunks, z, y, more), sub).delivered == Fed(CutThere(chunks, z, y, more), sub).delivered + completed
      && (SameDeliveries(chunks, z, y, more, sub) <==> completed == [])
  {
    var b := Fed(chunks + [z], sub).buffer;
    if EndsInLf(b) {
      LastLf(b);
      BlankHoldsBack(chunks, z, b[..|b| - 1], y, more, sub);
    } else {
      CutOutsideBlankLine(chunks, z, y, more, sub);
      NothingAfter(Fed(CutThere(chunks, z, y, more), sub).delivered);
    }
  }

  lemma BlankHoldsBack(chunks: seq<string>, z: string, c: string, y: string, more: seq<string>, sub: Subscription)
    requires Fed(chunks + [z], sub).buffer == c + "\n" && Boundary("\n" + After(y, more)) < 0
    ensures var cut, uncut := Fed(CutThere(chunks, z, y, more), sub), Fed(Uncut(chunks, z, y, more), sub);
      && uncut.delivered == cut.delivered + Deliver(Read(c), sub)
      && (cut.delivered == uncut.delivered <==> Deliver(Read(c), sub) == [])
  {
    BlankLineDeliveries(chunks, z, c, y, more, sub);
    NothingAfter(Fed(chunks + [z], sub).delivered);
    NothingAfter(Deliver(Read(c), sub));
  }

  // ---------------------------------------------------------------- where a cut can do no harm

  /** An event that would deliver nothing and adds nothing to the one it runs on into. */
  predicate SaysNothing(f: Fields, sub: Subscription) {
    f.data == [] && (f.name == sub.name <==> NO_LINES.name == sub.name)
  }

  /** Fields that say the same to the subscriber. */
  predicate Alike(f: Fields, g: Fields, sub: Subscription) {
    f.data == g.data && (f.name == sub.name <==> g.name == sub.name)
  }

  lemma {:induction false} TakeLinesAlike(f: Fields, g: Fields, lines: seq<string>, sub: Subscription)
    requires Alike(f, g, sub)
    ensures Alike(TakeLines(f, lines), TakeLines(g, lines), sub)
    decreases |lines|
  {
    if lines != [] {
      TakeLinesAlike(TakeLine(f, lines[0]), TakeLine(g, lines[0]), lines[1..], sub);
    }
  }

  lemma NothingRead(f: Fields, s: string, sub: Subscription)
    requires SaysNothing(f, sub)
    ensures DeliveredOn(f, s, sub) == Deliver(f, sub) + Drain(s, sub).delivered
  {
    if Boundary(s) >= 0 {
      TakeLinesAlike(f, NO_LINES, Lines(s[..Boundary(s)]), sub);
    }
  }

  /** Texts a field of an event can hold. */
  predicate FieldText(s: string) {
    Trimmed(s, JsSpace) && NoLf(s)
  }

  predicate FieldTexts(data: seq<string>) {
    forall d <- data :: FieldText(d)
  }

  predicate Readable(f: Fields) {
    FieldText(f.name) && FieldTexts(f.data)
  }

  /** The subscribed name can be read, and the data of some event parses. */
  ghost predicate CanDeliver(sub: Subscription) {
    FieldText(sub.name) && exists data :: data != [] && FieldTexts(data) && sub.parses(Join(data, "\n"))
  }

  lemma TrimNoLf(s: string)
    requires NoLf(s)
    ensures FieldText(JsTrim(s))
  {
    TrimIsTrimmed(s, JsSpace);
    TrimLeftMeaning(s, JsSpace);
    TrimRightMeaning(TrimLeft(s, JsSpace), JsSpace);
  }

  lemma TakeLineReadable(f: Fields, line: string)
    requires Readable(f) && NoLf(line)
    ensures Readable(TakeLine(f, line))
  {
    if "event:" <= line {
      TrimNoLf(line[6..]);
    } else if "data:" <= line {
      TrimNoLf(line[5..]);
    }
  }

  lemma {:induction false} IndexOfLfFirst(s: string)
    requires IndexOfLf(s) >= 0
    ensures NoLf(s[..IndexOfLf(s)])
  {
    if s[0] != '\n' {
      IndexOfLfFirst(s[1..]);
      assert s[..IndexOfLf(s)] == [s[0]] + s[1..][..IndexOfLf(s) - 1];
    }
  }

  lemma {:induction false} ReadOnReadable(f: Fields, raw: string)
    requires Readable(f)
    ensures Readable(ReadOn(f, raw))
    decreases |raw|
  {
    var i := IndexOfLf(raw);
    if i >= 0 {
      var first, rest := WithoutCr(raw[..i]), raw[i + 1..];
      IndexOfLfFirst(raw);
      TakeLineReadable(f, first);
      TakeCons(f, first, Lines(rest));
      ReadOnReadable(TakeLine(f, first), rest);
    } else {
      IndexOfLfMeaning(raw);
      TakeOne(f, raw);
      TakeLineReadable(f, raw);
    }
  }

  lemma ReadSilent(f: Fields, raw: string, sub: Subscription)
    requires Readable(f) && !CanDeliver(sub)
    ensures Readable(ReadOn(f, raw)) && Deliver(ReadOn(f, raw), sub) == []
  {
    ReadOnReadable(f, raw);
  }

  lemma NoLinesReadable()
    ensures Readable(NO_LINES)
  {
  }

  lemma {:induction false} DrainSilent(s: string, sub: Subscription)
    requires !CanDeliver(sub)
    ensures Drain(s, sub).delivered == []
    decreases |s|
  {
    var j := Boundary(s);
    if j >= 0 {
      var raw, rest := s[..j], s[j + 2..];
      DrainOne(s, sub, j, raw, rest);
      NoLinesReadable();
      ReadSilent(NO_LINES, raw, sub);
      DrainSilent(rest, sub);
    }
  }

  lemma NothingDelivered(c: string, s: string, sub: Subscription)
    requires !CanDeliver(sub)
    ensures DeliveredOn(Read(c), s, sub) == Deliver(Read(c), sub) + Drain(s, sub).delivered
  {
    var j := Boundary(s);
    NoLinesReadable();
    ReadSilent(NO_LINES, c, sub);
    DrainSilent(s, sub);
    if j >= 0 {
      ReadSilent(Read(c), s[..j], sub);
      DrainSilent(s[j + 2..], sub);
    }
  }

  // ---------------------------------------------------------------- where it can

  /** Lines that are read back as they are. */
  predicate Solid(line: string) {
    NoLf(line) && line != "" && line[|line| - 1] != '\r'
  }

  predicate AllSolid(lines: seq<string>) {
    forall l <- lines :: Solid(l)
  }

  lemma FirstSolid(lines: seq<string>)
    requires lines != [] && AllSolid(lines)
    ensures Solid(lines[0]) && AllSolid(lines[1..])
  {
    assert lines[0] in lines;
  }

  function Body(lines: seq<string>): string {
    if lines == [] then "" else "\n" + (lines[0] + Body(lines[1..]))
  }

  /** The lines, and the blank line that ends them. */
  function Block(lines: seq<string>): string
    requires lines != []
  {
    (lines[0] + Body(lines[1..])) + "\n\n"
  }

  lemma {:induction false} BodyRead(first: string, rest: seq<string>)
    requires NoLf(first) && AllSolid(rest) && WithoutCr(first) == first
    ensures Lines(first + Body(rest)) == [first] + rest
    decreases |rest|
  {
    if rest == [] {
      assert first + "" == first;
      IndexOfLfNone(first);
    } else {
      FirstSolid(rest);
      LineThen(first, Body(rest));
      assert Body(rest)[1..] == rest[0] + Body(rest[1..]);
      BodyRead(rest[0], rest[1..]);
      assert rest == [rest[0]] + rest[1..];
    }
  }

  lemma {:induction false} BodyEnds(lines: seq<string>)
    requires AllSolid(lines)
    ensures Boundary(Body(lines) + "\n\n") == |Body(lines)|
  {
    if lines == [] {
      assert "" + "\n\n" == "\n\n" + "";
      BoundaryHere("");
    } else {
      var first, rest := lines[0], Body(lines[1..]) + "\n\n";
      FirstSolid(lines);
      BodyEnds(lines[1..]);
      BoundarySkips(first, rest);
      BoundaryAfterLf(first + rest);
      BodyShape(first, Body(lines[1..]), rest);
    }
  }

  lemma {:induction false} NoLfUnchanged(s: string)
    requires NoLf(s)
    ensures CrLfToLf(s) == s
  {
    if s != "" {
      NoLfUnchanged(s[1..]);
      CrLfSingle(s[1..], s);
    }
  }

  lemma SolidThen(line: string, rest: string)
    requires Solid(line) && CrLfToLf(rest) == rest
    ensures CrLfToLf(line + rest) == line + rest
  {
    NoLfUnchanged(line);
    CrLfAppend(line, rest);
  }

  lemma {:induction false} BodyUnchanged(lines: seq<string>)
    requires AllSolid(lines)
    ensures CrLfToLf(Body(lines) + "\n\n") == Body(lines) + "\n\n"
  {
    if lines == [] {
      assert "" + "\n\n" == "\n\n";
      CrLfKeepsLf("\n\n");
    } else {
      var first, rest := lines[0], Body(lines[1..]) + "\n\n";
      FirstSolid(lines);
      BodyUnchanged(lines[1..]);
      SolidThen(first, rest);
      LfThen(first + rest);
      BodyShape(first, Body(lines[1..]), rest);
    }
  }

  lemma LfThen(s: string)
    requires CrLfToLf(s) == s
    ensures CrLfToLf("\n" + s) == "\n" + s
  {
    CrLfThen(s);
  }

  lemma BodyShape(first: string, body: string, rest: string)
    requires rest == body + "\n\n"
    ensures ("\n" + (first + body)) + "\n\n" == "\n" + (first + rest)
  {
  }

  /** A block after an LF is one event, whatever is read before it. */
  lemma BlockDelivered(f: Fields, lines: seq<string>, sub: Subscription)
    requires lines != [] && AllSolid(lines)
    ensures CrLfToLf(Block(lines)) == Block(lines)
    ensures DeliveredOn(f, "\n" + Block(lines), sub) == Deliver(TakeLines(f, lines), sub)
  {
    var first, rest, body := lines[0], Body(lines[1..]) + "\n\n", Body(lines);
    FirstSolid(lines);
    BlockShape(lines, first, Body(lines[1..]));
    BodyUnchanged(lines[1..]);
    SolidThen(first, rest);
    BodyEnds(lines);
    BodyRead("", lines);
    NothingBefore(body);
    TakeCons(f, "", lines);
    BlockEnds(body, f, sub);
  }

  lemma BlockShape(lines: seq<string>, first: string, body: string)
    requires lines != [] && first == lines[0] && body == Body(lines[1..])
    ensures Block(lines) == first + (body + "\n\n") && "\n" + Block(lines) == Body(lines) + "\n\n"
  {
    ConcatAssoc(first, body, "\n\n");
    ConcatAssoc("\n", first + body, "\n\n");
  }

  lemma BlockEnds(body: string, f: Fields, sub: Subscription)
    requires Boundary(body + "\n\n") == |body|
    ensures DeliveredOn(f, body + "\n\n", sub) == Deliver(ReadOn(f, body), sub)
  {
    var s := body + "\n\n";
    assert s[..|body|] == body && s[|body| + 2..] == "";
    assert Drain("", sub).delivered == [];
    NothingAfter(Deliver(ReadOn(f, body), sub));
  }

  function DataLines(data: seq<string>): seq<string> {
    if data == [] then [] else ["data: " + data[0]] + DataLines(data[1..])
  }

  lemma FieldLineSolid(before: string, text: string)
    requires FieldText(text) && NoLf(before) && before != "" && before[|before| - 1] == ' '
    ensures Solid(before + text)
  {
    if text == "" {
      assert before + text == before;
    }
  }

  lemma {:induction false} DataLinesSolid(data: seq<string>)
    requires FieldTexts(data)
    ensures AllSolid(DataLines(data))
  {
    if data != [] {
      assert data[0] in data;
      FieldLineSolid("data: ", data[0]);
      DataLinesSolid(data[1..]);
    }
  }

  lemma {:induction false} DataLinesTaken(f: Fields, data: seq<string>)
    requires FieldTexts(data)
    ensures TakeLines(f, DataLines(data)) == f.(data := f.data + data)
    decreases |data|
  {
    if data == [] {
      assert f.data + data == f.data;
    } else {
      assert data[0] in data && data == [data[0]] + data[1..];
      var first := "data: " + data[0];
      TakeCons(f, first, DataLines(data[1..]));
      DataLineTaken(f, data[0]);
      DataLinesTaken(TakeLine(f, first), data[1..]);
      ConcatAssoc(f.data, [data[0]], data[1..]);
    }
  }

  /** An event of the given name and data, as lines. */
  function EventLines(name: string, data: seq<string>): seq<string> {
    ["event: " + name] + DataLines(data)
  }

  lemma EventLinesTaken(f: Fields, name: string, data: seq<string>)
    requires FieldText(name) && FieldTexts(data)
    ensures AllSolid(EventLines(name, data))
    ensures TakeLines(f, EventLines(name, data)) == Fields(name, f.data + data)
  {
    FieldLineSolid("event: ", name);
    DataLinesSolid(data);
    TakeCons(f, "event: " + name, DataLines(data));
    EventLineTaken(f, name);
    DataLinesTaken(f.(name := name), data);
  }

  lemma {:induction false} JoinLonger(x: seq<string>, data: seq<string>)
    requires x != [] && data != []
    ensures |Join(x + data, "\n")| > |Join(data, "\n")|
  {
    DropAppend(x, data, 1);
    if |x| == 1 {
      assert x[1..] + data == data;
    } else {
      JoinLonger(x[1..], data);
    }
  }

  /** What one block after the cut delivers: read on top of the event before, and alone. */
  lemma BlockDeliveries(
    chunks: seq<string>, z: string, c: string, lines: seq<string>, on: Fields, alone: Fields, sub: Subscription)
    requires Fed(chunks + [z], sub).buffer == c + "\n" && lines != [] && AllSolid(lines)
    requires on == TakeLines(Read(c), lines) && alone == TakeLines(NO_LINES, lines)
    ensures var before := Fed(chunks + [z], sub).delivered;
      && Fed(Uncut(chunks, z, Block(lines), []), sub).delivered ==
        before + (Deliver(Read(c), sub) + Deliver(alone, sub))
      && Fed(CutThere(chunks, z, Block(lines), []), sub).delivered == before + Deliver(on, sub)
  {
    var y := Block(lines);
    BlockDelivered(Read(c), lines, sub);
    BlockAlone(lines, alone, sub);
    NothingAfter(y);
    BlankLineDeliveries(chunks, z, c, y, [], sub);
  }

  lemma BlockAlone(lines: seq<string>, alone: Fields, sub: Subscription)
    requires lines != [] && AllSolid(lines) && alone == TakeLines(NO_LINES, lines)
    ensures Drain("\n" + Block(lines), sub).delivered == Deliver(alone, sub)
  {
    BlockDelivered(NO_LINES, lines, sub);
    DrainIsDeliveredOn("\n" + Block(lines), sub);
  }

  lemma DrainIsDeliveredOn(s: string, sub: Subscription)
    ensures Drain(s, sub).delivered == DeliveredOn(NO_LINES, s, sub)
  {
  }

  lemma BlockDiffers(
    chunks: seq<string>, z: string, c: string, lines: seq<string>, on: Fields, alone: Fields, sub: Subscription)
    requires Fed(chunks + [z], sub).buffer == c + "\n" && lines != [] && AllSolid(lines)
    requires on == TakeLines(Read(c), lines) && alone == TakeLines(NO_LINES, lines)
    requires Deliver(on, sub) != Deliver(Read(c), sub) + Deliver(alone, sub)
    ensures !SameDeliveries(chunks, z, Block(lines), [], sub)
  {
    BlockDeliveries(chunks, z, c, lines, on, alone, sub);
    SameTail(Fed(chunks + [z], sub).delivered, Deliver(on, sub), Deliver(Read(c), sub) + Deliver(alone, sub));
  }

  lemma SameTail(x: seq<string>, a: seq<string>, b: seq<string>)
    ensures x + a == x + b <==> a == b
  {
    assert (x + a)[|x|..] == a && (x + b)[|x|..] == b;
  }

  lemma DataTold(x: seq<string>, data: seq<string>, sub: Subscription)
    requires x != [] && data != [] && sub.parses(Join(data, "\n"))
    ensures Deliver(Fields(sub.name, x + data), sub) != Deliver(Fields(sub.name, data), sub)
  {
    JoinLonger(x, data);
    var longer, text := Join(x + data, "\n"), Join(data, "\n");
    assert Deliver(Fields(sub.name, data), sub) == [text];
    assert [longer][0] != [text][0];
  }

  /** After an event with something to deliver, the end of the text shows the harm. */
  lemma HarmAtEnd(chunks: seq<string>, z: string, c: string, sub: Subscription)
    requires Fed(chunks + [z], sub).buffer == c + "\n" && Deliver(Read(c), sub) != []
    ensures !SameDeliveries(chunks, z, "", [], sub)
  {
    assert After("", []) == "" && "\n" + "" == "\n" && (c + "\n")[..|c|] == c;
    CutCrLfHoldsEventBackIff(chunks, z, "", [], sub);
  }

  /** After an event with data that delivers nothing, an event that should be delivered shows it. */
  lemma HarmByData(chunks: seq<string>, z: string, c: string, data: seq<string>, sub: Subscription)
    requires Fed(chunks + [z], sub).buffer == c + "\n" && Deliver(Read(c), sub) == [] && Read(c).data != []
    requires FieldText(sub.name) && data != [] && FieldTexts(data) && sub.parses(Join(data, "\n"))
    ensures !SameDeliveries(chunks, z, Block(EventLines(sub.name, data)), [], sub)
  {
    var x, lines := Read(c).data, EventLines(sub.name, data);
    EventLinesTaken(Read(c), sub.name, data);
    EventLinesTaken(NO_LINES, sub.name, data);
    assert NO_LINES.data + data == data;
    DataTold(x, data, sub);
    NothingBefore(Deliver(Fields(sub.name, data), sub));
    BlockDiffers(chunks, z, c, lines, Fields(sub.name, x + data), Fields(sub.name, data), sub);
  }

  /** After an event without data whose name tells the subscriber what no name would not, bare data shows it. */
  lemma HarmByName(chunks: seq<string>, z: string, c: string, data: seq<string>, sub: Subscription)
    requires Fed(chunks + [z], sub).buffer == c + "\n" && Read(c).data == []
    requires Read(c).name == sub.name <==> NO_LINES.name != sub.name
    requires data != [] && FieldTexts(data) && sub.parses(Join(data, "\n"))
    ensures !SameDeliveries(chunks, z, Block(DataLines(data)), [], sub)
  {
    DataLinesSolid(data);
    DataLinesTaken(Read(c), data);
    DataLinesTaken(NO_LINES, data);
    var none: seq<string> := [];
    assert none + data == data;
    BlockDiffers(chunks, z, c, DataLines(data), Fields(Read(c).name, data), Fields(NO_LINES.name, data), sub);
  }

  /** Where a subscriber stands when a chunk may safely end between a CR and its LF. */
  ghost predicate CutIsHarmless(buffer: string, sub: Subscription) {
    EndsInLf(buffer) && CanDeliver(sub) ==> SaysNothing(Read(buffer[..|buffer| - 1]), sub)
  }

  lemma HarmlessSame(chunks: seq<string>, z: string, y: string, more: seq<string>, sub: Subscription)
    requires CutIsHarmless(Fed(chunks + [z], sub).buffer, sub)
    ensures SameDeliveries(chunks, z, y, more, sub)
  {
    var b := Fed(chunks + [z], sub).buffer;
    if EndsInLf(b) {
      LastLf(b);
      BlankHarmless(chunks, z, b[..|b| - 1], y, more, sub);
    } else {
      CutOutsideBlankLine(chunks, z, y, more, sub);
    }
  }

  lemma BlankHarmless(chunks: seq<string>, z: string, c: string, y: string, more: seq<string>, sub: Subscription)
    requires Fed(chunks + [z], sub).buffer == c + "\n" && (CanDeliver(sub) ==> SaysNothing(Read(c), sub))
    ensures SameDeliveries(chunks, z, y, more, sub)
  {
    BlankLineDeliveries(chunks, z, c, y, more, sub);
    if CanDeliver(sub) {
      NothingRead(Read(c), "\n" + After(y, more), sub);
    } else {
      NothingDelivered(c, "\n" + After(y, more), sub);
    }
  }

  lemma SameHarmless(chunks: seq<string>, z: string, sub: Subscription)
    requires !CutIsHarmless(Fed(chunks + [z], sub).buffer, sub)
    ensures exists y :: !SameDeliveries(chunks, z, y, [], sub)
  {
    var b := Fed(chunks + [z], sub).buffer;
    var c := b[..|b| - 1];
    var data :| data != [] && FieldTexts(data) && sub.parses(Join(data, "\n"));
    LastLf(b);
    if Deliver(Read(c), sub) != [] {
      HarmAtEnd(chunks, z, c, sub);
    } else if Read(c).data != [] {
      HarmByData(chunks, z, c, data, sub);
    } else {
      HarmByName(chunks, z, c, data, sub);
    }
  }

  /**
    Exactly where a chunk may end between a CR and its LF: all deliveries, whatever text and chunks follow,
    are those without the cut if and only if the line they end is not blank, or the event before the blank
    line has no data and its name tells the subscriber what no name would, or the subscriber never delivers.
   */
  lemma CutCrLfHarmlessIff(chunks: seq<string>, z: string, sub: Subscription)
    ensures (forall y, more :: SameDeliveries(chunks, z, y, more, sub)) <==>
      CutIsHarmless(Fed(chunks + [z], sub).buffer, sub)
  {
    if CutIsHarmless(Fed(chunks + [z], sub).buffer, sub) {
      forall y, more ensures SameDeliveries(chunks, z, y, more, sub) {
        HarmlessSame(chunks, z, y, more, sub);
      }
    } else {
      SameHarmless(chunks, z, sub);
    }
  }

  // ---------------------------------------------------------------- two events run into one

  /** An event up to the LF of its last line. */
  function Unended(e: Event): string {
    ("event: " + e.name) + ("\n" + ("data: " + e.payload)) + "\n"
  }

  lemma UnendedFed(e: Event, sub: Subscription)
    requires CleanEvent(e)
    ensures Fed([Unended(e)], sub) == Drained([], Unended(e))
  {
    UnendedOpen("event: " + e.name, "data: " + e.payload, Unended(e));
    FedFirst(Unended(e), sub);
  }

  lemma FedFirst(text: string, sub: Subscription)
    requires '\r' !in text && Boundary(text) < 0
    ensures Fed([text], sub) == Drained([], text)
  {
    var none: seq<string> := [];
    assert [text][..0] == none && "" + text == text;
    CrLfKeepsLf(text);
  }

  lemma UnendedRead(e: Event, raw: string)
    requires CleanEvent(e) && raw == ("event: " + e.name) + ("\n" + ("data: " + e.payload))
    ensures Read(raw) == Fields(e.name, [e.payload])
  {
    TwoLines("event: " + e.name, "data: " + e.payload, raw);
    LinesTaken(e);
  }

  lemma UnendedOpen(a: string, b: string, text: string)
    requires NoLf(a) && NoLf(b) && b != "" && text == (a + ("\n" + b)) + "\n"
    ensures Boundary(text) < 0
  {
    BoundaryOfTwo(a, b, "");
    assert text + "\n" == a + ("\n" + (b + ("\n\n" + "")));
    if Boundary(text) >= 0 {
      BoundaryStable(text, "\n");
    }
  }

  lemma PrintedIsBlock(e: Event)
    ensures Printed(e) == Block(EventLines(e.name, [e.payload]))
  {
    var data := ["data: " + e.payload];
    assert DataLines([e.payload]) == data + [] == data;
    assert EventLines(e.name, [e.payload])[1..] == data;
    assert Body(data) == "\n" + (data[0] + "");
  }

  /**
    For any two events: with a cut in the blank line between them the subscriber sees one event, with the
    second name and both payloads; without the cut each event is delivered that is wanted.
   */
  lemma CutMergesEvents(a: Event, e: Event, sub: Subscription)
    requires CleanEvent(a) && CleanEvent(e)
    ensures Fed(CutThere([], Unended(a), Printed(e), []), sub).delivered ==
      Deliver(Fields(e.name, [a.payload, e.payload]), sub)
    ensures Fed(Uncut([], Unended(a), Printed(e), []), sub).delivered == Payloads([a, e], sub)
  {
    var z, lines := Unended(a), EventLines(e.name, [e.payload]);
    var c := ("event: " + a.name) + ("\n" + ("data: " + a.payload));
    var none: seq<string> := [];
    UnendedFed(a, sub);
    UnendedRead(a, c);
    NothingBefore([z]);
    PrintedIsBlock(e);
    EventLinesTaken(Read(c), e.name, [e.payload]);
    EventLinesTaken(NO_LINES, e.name, [e.payload]);
    assert [a.payload] + [e.payload] == [a.payload, e.payload] && none + [e.payload] == [e.payload];
    BlockDeliveries([], z, c, lines, Fields(e.name, [a.payload, e.payload]), Fields(e.name, [e.payload]), sub);
    BothPayloads(a, e, sub);
    NothingBefore(Payloads([a, e], sub));
    NothingBefore(Deliver(Fields(e.name, [a.payload, e.payload]), sub));
  }

  lemma BothPayloads(a: Event, e: Event, sub: Subscription)
    ensures Payloads([a, e], sub) ==
      Deliver(Fields(a.name, [a.payload]), sub) + Deliver(Fields(e.name, [e.payload]), sub)
  {
    assert [a, e][1..] == [e];
    OnePayload(a, sub);
    OnePayload(e, sub);
    LastPayload(e, sub);
  }

  lemma LastPayload(e: Event, sub: Subscription)
    ensures Payloads([e], sub) == if Wanted(e, sub) then [e.payload] else []
  {
    assert [e][1..] == [];
  }

  lemma OnePayload(e: Event, sub: Subscription)
    ensures Deliver(Fields(e.name, [e.payload]), sub) == if Wanted(e, sub) then [e.payload] else []
  {
  }

  /**
    A subscriber to events b, such as one whose parser takes numbers: the cut loses the second event for good,
    although the first was not even meant for it.
   */
  lemma CutLosesDelivery(cut: seq<string>, uncut: seq<string>, sub: Subscription)
    requires cut == ["event: a\ndata: 1\n\r", "\nevent: b\ndata: 2\n\n"]
    requires uncut == ["event: a\ndata: 1\n\r\nevent: b\ndata: 2\n\n"]
    requires sub.name == "b" && sub.parses("2") && !sub.parses("1\n2")
    ensures Fed(cut, sub).delivered == [] && Fed(uncut, sub).delivered == ["2"]
  {
    var a, e := Event("a", "1"), Event("b", "2");
    var z, y := "event: a\ndata: 1\n", "event: b\ndata: 2\n\n";
    FirstText(a, z);
    SecondText(e, y);
    LosingChunks(z, y, cut, uncut);
    LosingDeliveries(a, e, sub);
    CutMergesEvents(a, e, sub);
  }

  lemma LosingDeliveries(a: Event, e: Event, sub: Subscription)
    requires a == Event("a", "1") && e == Event("b", "2")
    requires sub.name == "b" && sub.parses("2") && !sub.parses("1\n2")
    ensures Deliver(Fields(e.name, [a.payload, e.payload]), sub) == [] && Payloads([a, e], sub) == ["2"]
  {
    assert ["1", "2"][1..] == ["2"] && "1" + "\n" + "2" == "1\n2";
    assert "a" != "b" && [a, e][1..] == [e];
    LastPayload(e, sub);
  }

  lemma FirstText(e: Event, text: string)
    requires e == Event("a", "1") && text == "event: a\ndata: 1\n"
    ensures CleanEvent(e) && Unended(e) == text
  {
    var first, last := "event: a", "\ndata: 1";
    assert "event: " + e.name == first && "\n" + ("data: " + e.payload) == last;
    assert first + last + "\n" == text;
  }

  lemma SecondText(e: Event, text: string)
    requires e == Event("b", "2") && text == "event: b\ndata: 2\n\n"
    ensures CleanEvent(e) && Printed(e) == text
  {
    var first, last := "event: b\n", "data: 2\n\n";
    assert EventLine(e.name) == first && DataLine(e.payload) == last;
    assert first + last == text;
  }

  lemma LosingChunks(z: string, y: string, cut: seq<string>, uncut: seq<string>)
    requires z == "event: a\ndata: 1\n" && y == "event: b\ndata: 2\n\n"
    requires cut == ["event: a\ndata: 1\n\r", "\nevent: b\ndata: 2\n\n"]
    requires uncut == ["event: a\ndata: 1\n\r\nevent: b\ndata: 2\n\n"]
    ensures CutThere([], z, y, []) == cut && Uncut([], z, y, []) == uncut
  {
    FirstChunk(z, cut[0]);
    assert "\n" + y == cut[1];
    WholeText(z, y, uncut[0]);
  }

  lemma FirstChunk(z: string, chunk: string)
    requires z == "event: a\ndata: 1\n" && chunk == "event: a\ndata: 1\n\r"
    ensures z + "\r" == chunk
  {
  }

  lemma WholeText(z: string, y: string, text: string)
    requires z == "event: a\ndata: 1\n" && y == "event: b\ndata: 2\n\n"
    requires text == "event: a\ndata: 1\n\r\nevent: b\ndata: 2\n\n"
    ensures z + ("\r\n" + y) == text
  {
    assert z + "\r\n" == "event: a\ndata: 1\n\r\n";
    assert text == "event: a\ndata: 1\n\r\n" + y;
  }
}
