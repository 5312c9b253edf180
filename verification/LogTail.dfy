/**
  Reading the last lines of a log file from its end, one chunk at a time, until enough line feeds
  were seen, against splitting the whole file.
 */
module LogTail {
  import opened Text
  import opened Sequences

  const CHUNK: nat := 4096
  const MAX_TAIL: nat := 5000

  predicate LineEnd(c: char) {
    c == '\r' || c == '\n'
  }

  function CountLf(s: string): (n: nat)
    ensures n <= |s|
  {
    if s == [] then 0 else (if s[0] == '\n' then 1 else 0) + CountLf(s[1..])
  }

  /** The lines of a text with one more character in front. */
  function Consed(c: char, lines: seq<string>): seq<string>
    requires lines != []
  {
    if c == '\n' then [""] + lines else [[c] + lines[0]] + lines[1..]
  }

  /** Splitting at every LF. */
  function SplitLf(s: string): (lines: seq<string>)
    ensures |lines| == CountLf(s) + 1
  {
    if s == [] then [""] else Consed(s[0], SplitLf(s[1..]))
  }

  function WithoutCrs(lines: seq<string>): seq<string> {
    seq(|lines|, i requires 0 <= i < |lines| => WithoutCr(lines[i]))
  }

  /** The lines of a text, without the line ends that close it. */
  function LogLines(data: string): seq<string> {
    var text := TrimRight(data, LineEnd);
    if text == "" then [] else WithoutCrs(SplitLf(text))
  }

  function LastOf<T>(s: seq<T>, n: nat): seq<T> {
    if |s| > n then s[|s| - n..] else s
  }

  // ---------------------------------------------------------------- the backward reader

  datatype Tail = Tail(lines: seq<string>, truncated: bool)

  /** Where reading back from pos stops: at more than tail line feeds, or at the start of the file. */
  function Stop(file: string, tail: nat, chunk: nat, pos: nat): (p: nat)
    requires chunk > 0 && pos <= |file|
    ensures p <= pos
    ensures p == 0 || CountLf(file[p..]) > tail
    decreases pos
  {
    if pos == 0 then 0
    else
      var p := if pos < chunk then 0 else pos - chunk;
      if CountLf(file[p..]) > tail then p else Stop(file, tail, chunk, p)
  }

  function ReadBack(file: string, tail: nat, chunk: nat): Tail
    requires chunk > 0
  {
    var data := file[Stop(file, tail, chunk, |file|)..];
    Tail(LastOf(LogLines(data), tail), CountLf(data) > tail || |LogLines(data)| > tail)
  }

  method SplitLogLines(data: string) returns (lines: seq<string>)
    ensures lines == LogLines(data)
  {
    var text := TrimRight(data, LineEnd);
    if text == "" {
      return [];
    }
    var rawLines := SplitLf(text);
    lines := [];
    for i := 0 to |rawLines|
      invariant lines == WithoutCrs(rawLines)[..i]
    {
      lines := lines + [WithoutCr(rawLines[i])];
    }
  }

  lemma {:induction false} CountAppend(x: string, y: string)
    ensures CountLf(x + y) == CountLf(x) + CountLf(y)
  {
    if x == [] {
      assert x + y == y;
    } else {
      CountAppend(x[1..], y);
      DropAppend(x, y, 1);
    }
  }

  lemma ChunkBefore(file: string, pos: nat, end: nat)
    requires pos <= end <= |file|
    ensures file[pos..end] + file[end..] == file[pos..]
    ensures CountLf(file[pos..]) == CountLf(file[pos..end]) + CountLf(file[end..])
  {
    assert file[pos..end] + file[end..] == file[pos..];
    CountAppend(file[pos..end], file[end..]);
  }

  lemma StopStep(file: string, tail: nat, chunk: nat, pos: nat, p: nat)
    requires 0 < pos <= |file| && chunk > 0 && p == (if pos < chunk then 0 else pos - chunk)
    ensures Stop(file, tail, chunk, pos) == if CountLf(file[p..]) > tail then p else Stop(file, tail, chunk, p)
  {
  }

  /** Reads chunks from the end until more than tail LFs were seen, or the whole file. */
  method ReadChunks(file: string, tail: nat) returns (data: string, truncated: bool)
    ensures data == file[Stop(file, tail, CHUNK, |file|)..] && truncated == (CountLf(data) > tail)
  {
    data, truncated := "", false;
    var pos: nat, newlines: nat := |file|, 0;
    while pos > 0
      invariant pos <= |file| && data == file[pos..] && newlines == CountLf(data)
      invariant !truncated && newlines <= tail
      invariant Stop(file, tail, CHUNK, |file|) == Stop(file, tail, CHUNK, pos)
    {
      var readSize := CHUNK;
      if pos < readSize {
        readSize := pos;
      }
      StopStep(file, tail, CHUNK, pos, pos - readSize);
      ChunkBefore(file, pos - readSize, pos);
      pos := pos - readSize;
      var chunk := file[pos..pos + readSize];
      data := chunk + data;
      newlines := newlines + CountLf(chunk);
      if newlines > tail {
        truncated := true;
        break;
      }
    }
  }

  method ReadLastLines(file: string, tail: nat) returns (lines: seq<string>, truncated: bool)
    ensures Tail(lines, truncated) == ReadBack(file, tail, CHUNK)
  {
    if |file| == 0 {
      assert file[0..] == "" && TrimRight("", LineEnd) == "";
      return [], false;
    }
    var data;
    data, truncated := ReadChunks(file, tail);
    lines := SplitLogLines(data);
    if |lines| > tail {
      lines := lines[|lines| - tail..];
      truncated := true;
    }
  }

  // ---------------------------------------------------------------- splitting

  /** The lines hold no LF and give the text back when joined by LFs. */
  lemma {:induction false} SplitMeaning(s: string)
    ensures Join(SplitLf(s), "\n") == s && forall line <- SplitLf(s) :: '\n' !in line
  {
    if s != [] {
      SplitMeaning(s[1..]);
      SplitStep(s[0], SplitLf(s[1..]), SplitLf(s));
    }
  }

  lemma SplitStep(c: char, rest: seq<string>, lines: seq<string>)
    requires rest != [] && lines == Consed(c, rest)
    ensures Join(lines, "\n") == [c] + Join(rest, "\n")
  {
    assert lines[1..] == if c == '\n' then rest else rest[1..];
    if c == '\n' {
      assert "" + "\n" + Join(rest, "\n") == ['\n'] + Join(rest, "\n");
    } else if |rest| > 1 {
      assert ([c] + rest[0]) + "\n" + Join(rest[1..], "\n") == [c] + (rest[0] + "\n" + Join(rest[1..], "\n"));
    }
  }

  predicate Plain(line: string) {
    forall i :: 0 <= i < |line| ==> !LineEnd(line[i])
  }

  /** Lines as a logger writes them, each closed by LF or CR LF. */
  function Written(lines: seq<string>, crs: seq<bool>): string
    requires |lines| == |crs|
  {
    if lines == [] then "" else lines[0] + (Ending(crs[0]) + Written(lines[1..], crs[1..]))
  }

  function Ending(cr: bool): string {
    if cr then "\r\n" else "\n"
  }

  lemma {:induction false} SplitFirst(line: string, rest: string)
    requires '\n' !in line
    ensures SplitLf(line + ("\n" + rest)) == [line] + SplitLf(rest)
  {
    if line == "" {
      assert line + ("\n" + rest) == "\n" + rest && ("\n" + rest)[1..] == rest;
    } else {
      SplitFirst(line[1..], rest);
      DropAppend(line, "\n" + rest, 1);
      assert [line[0]] + line[1..] == line;
      assert ([line[1..]] + SplitLf(rest))[1..] == SplitLf(rest);
    }
  }

  lemma {:induction false} SplitOne(line: string)
    requires '\n' !in line
    ensures SplitLf(line) == [line]
  {
    if line != "" {
      SplitOne(line[1..]);
      assert [line[0]] + line[1..] == line && [line[1..]][1..] == [];
    }
  }

  /** Written lines but for the last line end. */
  function Unclosed(lines: seq<string>, crs: seq<bool>): string
    requires |lines| == |crs| > 0
  {
    if |lines| == 1 then lines[0] else lines[0] + (Ending(crs[0]) + Unclosed(lines[1..], crs[1..]))
  }

  lemma {:induction false} WrittenClosed(lines: seq<string>, crs: seq<bool>)
    requires |lines| == |crs| > 0
    ensures Written(lines, crs) == Unclosed(lines, crs) + Ending(crs[|crs| - 1])
  {
    if |lines| == 1 {
      assert Written(lines, crs) == lines[0] + (Ending(crs[0]) + "") == lines[0] + Ending(crs[0]);
    } else {
      WrittenClosed(lines[1..], crs[1..]);
      var front, last := Unclosed(lines[1..], crs[1..]), Ending(crs[|crs| - 1]);
      ConcatAssoc(Ending(crs[0]), front, last);
      ConcatAssoc(lines[0], Ending(crs[0]) + front, last);
    }
  }

  lemma FirstLineRead(line: string, cr: bool, rest: string)
    requires Plain(line)
    ensures SplitLf(line + (Ending(cr) + rest)) == [if cr then line + "\r" else line] + SplitLf(rest)
    ensures WithoutCr(if cr then line + "\r" else line) == line
  {
    if cr {
      assert line + (Ending(cr) + rest) == (line + "\r") + ("\n" + rest);
      SplitFirst(line + "\r", rest);
    } else {
      SplitFirst(line, rest);
    }
  }

  lemma WithoutCrsCons(line: string, rest: seq<string>)
    ensures WithoutCrs([line] + rest) == [WithoutCr(line)] + WithoutCrs(rest)
  {
  }

  lemma FirstLineAdded(line: string, cr: bool, text: string, rest: seq<string>)
    requires Plain(line) && WithoutCrs(SplitLf(text)) == rest
    ensures WithoutCrs(SplitLf(line + (Ending(cr) + text))) == [line] + rest
  {
    FirstLineRead(line, cr, text);
    WithoutCrsCons(if cr then line + "\r" else line, SplitLf(text));
  }

  lemma {:induction false} UnclosedRead(lines: seq<string>, crs: seq<bool>)
    requires |lines| == |crs| > 0 && forall i :: 0 <= i < |lines| ==> Plain(lines[i])
    ensures WithoutCrs(SplitLf(Unclosed(lines, crs))) == lines
  {
    assert Plain(lines[0]);
    if |lines| == 1 {
      SplitOne(lines[0]);
      assert lines == [lines[0]];
    } else {
      UnclosedRead(lines[1..], crs[1..]);
      FirstLineAdded(lines[0], crs[0], Unclosed(lines[1..], crs[1..]), lines[1..]);
      assert lines == [lines[0]] + lines[1..];
    }
  }

  lemma {:induction false} UnclosedEnd(lines: seq<string>, crs: seq<bool>)
    requires |lines| == |crs| > 0 && lines[|lines| - 1] != ""
    ensures var text, last := Unclosed(lines, crs), lines[|lines| - 1];
      text != "" && text[|text| - 1] == last[|last| - 1]
  {
    if |lines| > 1 {
      UnclosedEnd(lines[1..], crs[1..]);
    }
  }

  lemma ClosedText(text: string, cr: bool)
    requires text != "" && !LineEnd(text[|text| - 1])
    ensures LogLines(text + Ending(cr)) == WithoutCrs(SplitLf(text))
  {
    TrimRightPads(text, Ending(cr), LineEnd);
  }

  /** Splitting undoes writing: for all lines without line ends in them, whichever way each is closed. */
  lemma LogLinesReadBack(lines: seq<string>, crs: seq<bool>)
    requires |lines| == |crs| && forall i :: 0 <= i < |lines| ==> Plain(lines[i])
    requires lines != [] ==> lines[|lines| - 1] != ""
    ensures LogLines(Written(lines, crs)) == lines
  {
    if lines != [] {
      WrittenClosed(lines, crs);
      UnclosedEnd(lines, crs);
      UnclosedRead(lines, crs);
      assert Plain(lines[|lines| - 1]);
      ClosedText(Unclosed(lines, crs), crs[|crs| - 1]);
    }
  }

  lemma LastUnder<T>(first: seq<T>, rest: seq<T>, n: nat)
    requires n <= |rest|
    ensures LastOf(first + rest, n) == LastOf(rest, n)
  {
  }

  lemma LastPastFirst<T>(lines: seq<T>, n: nat)
    requires n < |lines|
    ensures LastOf(lines, n) == LastOf(lines[1..], n)
  {
  }

  /** A character in front reaches only the first line. */
  lemma PrependKeepsLast(c: char, s: string, n: nat)
    requires n <= CountLf(s)
    ensures LastOf(SplitLf([c] + s), n) == LastOf(SplitLf(s), n) && n <= CountLf([c] + s)
  {
    var rest, all := SplitLf(s), [c] + s;
    assert all[1..] == s;
    if c == '\n' {
      LastUnder([""], rest, n);
    } else {
      LastUnder([[c] + rest[0]], rest[1..], n);
      LastPastFirst(rest, n);
    }
  }

  /** A suffix with n line feeds has the same last n lines as the whole. */
  lemma {:induction false} SuffixKeepsLast(before: string, s: string, n: nat)
    requires n <= CountLf(s)
    ensures LastOf(SplitLf(before + s), n) == LastOf(SplitLf(s), n) && n <= CountLf(before + s)
  {
    if before == [] {
      assert before + s == s;
    } else {
      SuffixKeepsLast(before[1..], s, n);
      PrependKeepsLast(before[0], before[1..] + s, n);
      assert before + s == [before[0]] + (before[1..] + s);
    }
  }

  lemma LastWithoutCrs(lines: seq<string>, n: nat)
    ensures LastOf(WithoutCrs(lines), n) == WithoutCrs(LastOf(lines, n))
  {
  }

  // ---------------------------------------------------------------- the closing line ends

  /** Line feeds among the CR and LF characters that close a text. */
  function TrailingLfs(s: string): nat {
    TrimRightMeaning(s, LineEnd);
    CountLf(s[|TrimRight(s, LineEnd)|..])
  }

  lemma CountParts(s: string)
    ensures CountLf(s) == CountLf(TrimRight(s, LineEnd)) + TrailingLfs(s)
  {
    TrimRightMeaning(s, LineEnd);
    var text := TrimRight(s, LineEnd);
    assert s == text + s[|text|..];
    CountAppend(text, s[|text|..]);
  }

  predicate AllLineEnds(s: string) {
    TrimRight(s, LineEnd) == ""
  }

  /** What precedes a text that is not all line ends does not change what closes it. */
  lemma {:induction false} TrimAfter(before: string, s: string)
    ensures TrimRight(before + s, LineEnd) ==
      if AllLineEnds(s) then TrimRight(before, LineEnd) else before + TrimRight(s, LineEnd)
  {
    if s == [] {
      assert before + s == before;
    } else {
      TakeAppend(before, s);
      if LineEnd(s[|s| - 1]) {
        TrimAfter(before, s[..|s| - 1]);
      }
    }
  }

  // ---------------------------------------------------------------- when the backward reader is right

  /** What splitting the whole file gives. */
  function Whole(file: string, tail: nat): Tail {
    Tail(LastOf(LogLines(file), tail), |LogLines(file)| > tail)
  }

  /** A suffix with more than one LF reaches into the text that the closing line ends follow. */
  lemma SuffixReachesText(before: string, data: string, tail: nat)
    requires tail >= 1 && CountLf(data) > tail && TrailingLfs(before + data) <= 1
    ensures TrimRight(before + data, LineEnd) == before + TrimRight(data, LineEnd)
    ensures CountLf(TrimRight(data, LineEnd)) >= tail
  {
    TrimAfter(before, data);
    CountAppend(before, data);
    CountParts(before + data);
    CountParts(before);
    CountParts(data);
    CountAppend(before, TrimRight(data, LineEnd));
  }

  lemma StoppedEarly(file: string, tail: nat, before: string, data: string)
    requires file == before + data && tail >= 1 && CountLf(data) > tail && TrailingLfs(file) <= 1
    ensures LastOf(LogLines(data), tail) == LastOf(LogLines(file), tail) && |LogLines(file)| > tail
  {
    var text := TrimRight(data, LineEnd);
    SuffixReachesText(before, data, tail);
    SuffixKeepsLast(before, text, tail);
    LastWithoutCrs(SplitLf(text), tail);
    LastWithoutCrs(SplitLf(before + text), tail);
  }

  /** Up to one LF in the closing line ends, the backward reader agrees with splitting the whole file. */
  lemma ReadBackIsWhole(file: string, tail: nat, chunk: nat)
    requires tail >= 1 && chunk > 0 && TrailingLfs(file) <= 1
    ensures ReadBack(file, tail, chunk) == Whole(file, tail)
  {
    var p := Stop(file, tail, chunk, |file|);
    var before, data := file[..p], file[p..];
    assert file == before + data;
    if CountLf(data) > tail {
      StoppedEarly(file, tail, before, data);
    } else {
      assert data == file;
    }
  }

  /** The flag is wrong exactly when the file has more LFs than asked for but not more lines. */
  lemma TruncatedFlag(file: string, tail: nat, chunk: nat)
    requires chunk > 0
    ensures ReadBack(file, tail, chunk).truncated <==> CountLf(file) > tail || |LogLines(file)| > tail
  {
    var p := Stop(file, tail, chunk, |file|);
    var before, data := file[..p], file[p..];
    assert file == before + data;
    CountAppend(before, data);
    if CountLf(data) <= tail {
      assert data == file;
    }
  }

  // ---------------------------------------------------------------- when one call is right

  /** What the text after the last LF starts a line with. */
  function LastLine(s: string): string {
    var lines := SplitLf(s);
    lines[|lines| - 1]
  }

  /**
    A cut between before and data takes nothing visible from the line it falls in: it is at a line
    start, or between the CR and the LF of an empty line.
   */
  predicate CutsNothing(before: string, data: string) {
    LastLine(before) == "" || (LastLine(before) == "\r" && data != "" && data[0] == '\n')
  }

  /** The flag of one call is right exactly when more LFs than asked for mean more lines than asked for. */
  predicate FlagRight(file: string, tail: nat) {
    CountLf(file) <= tail || |LogLines(file)| > tail
  }

  /**
    The lines of one call are right exactly when the reader went back to the start of the file, or saw
    enough LFs before the ones that close the file, or is one LF short and cut nothing off, or cut
    nothing off the only line there is.
   */
  predicate LinesRight(file: string, tail: nat, chunk: nat)
    requires chunk > 0
  {
    var p := Stop(file, tail, chunk, |file|);
    var before, data := file[..p], file[p..];
    || p == 0
    || (if AllLineEnds(data) then AllLineEnds(file)
        else
          var seen := CountLf(TrimRight(data, LineEnd));
          seen >= tail || ((seen == tail - 1 || CountLf(before) == 0) && CutsNothing(before, data)))
  }

  /** The lines of two texts joined: the last of one and the first of the other become one line. */
  function Joined(lx: seq<string>, ly: seq<string>): seq<string>
    requires lx != [] && ly != []
  {
    lx[..|lx| - 1] + [lx[|lx| - 1] + ly[0]] + ly[1..]
  }

  lemma {:induction false} SplitAppend(x: string, y: string)
    ensures SplitLf(x + y) == Joined(SplitLf(x), SplitLf(y))
  {
    if x == [] {
      assert x + y == y;
      JoinedNothing(SplitLf(y));
    } else {
      SplitAppend(x[1..], y);
      DropAppend(x, y, 1);
      JoinedConsed(x[0], SplitLf(x[1..]), SplitLf(y));
    }
  }

  lemma JoinedNothing(ly: seq<string>)
    requires ly != []
    ensures Joined([""], ly) == ly
  {
    assert "" + ly[0] == ly[0];
  }

  lemma JoinedConsed(c: char, lx: seq<string>, ly: seq<string>)
    requires lx != [] && ly != []
    ensures Joined(Consed(c, lx), ly) == Consed(c, Joined(lx, ly))
  {
    if c != '\n' && |lx| == 1 {
      ConcatAssoc([c], lx[0], ly[0]);
    }
  }

  lemma LastCompare<T>(front: seq<T>, whole: T, cut: T, rest: seq<T>, n: nat)
    requires |rest| + 1 <= n
    ensures LastOf([cut] + rest, n) == LastOf(front + [whole] + rest, n) <==>
      (|rest| + 1 == n || front == []) && whole == cut
  {
    var all, part := front + [whole] + rest, [cut] + rest;
    assert LastOf(part, n) == part;
    if |rest| + 1 == n || front == [] {
      assert LastOf(all, n) == [whole] + rest;
      assert ([whole] + rest)[0] == whole && part[0] == cut;
    } else {
      assert |LastOf(all, n)| > |part|;
    }
  }

  /** Dropping a head from a line shows unless the head is empty, or is the CR of a line that is empty after it. */
  lemma CutShows(head: string, line: string)
    ensures WithoutCr(head + line) == WithoutCr(line) <==> head == "" || (head == "\r" && line == "")
  {
    if head == "" {
      assert head + line == line;
    } else if line == "" {
      assert head + line == head;
    } else {
      assert WithoutCr(head + line) == head + WithoutCr(line);
    }
  }

  lemma WithoutCrsParts(front: seq<string>, line: string, rest: seq<string>)
    ensures WithoutCrs(front + [line] + rest) == WithoutCrs(front) + [WithoutCr(line)] + WithoutCrs(rest)
    ensures WithoutCrs([line] + rest) == [WithoutCr(line)] + WithoutCrs(rest)
  {
  }

  lemma FirstLineEmpty(s: string)
    ensures SplitLf(s)[0] == "" <==> s == "" || s[0] == '\n'
  {
  }

  lemma PartsRightIff(front: seq<string>, head: string, first: string, rest: seq<string>, tail: nat)
    requires |rest| + 1 <= tail
    ensures LastOf(WithoutCrs([first] + rest), tail) == LastOf(WithoutCrs(front + [head + first] + rest), tail) <==>
      (|rest| + 1 == tail || front == []) && (head == "" || (head == "\r" && first == ""))
  {
    WithoutCrsParts(front, head + first, rest);
    WithoutCrsParts(front, first, rest);
    LastCompare(WithoutCrs(front), WithoutCr(head + first), WithoutCr(first), WithoutCrs(rest), tail);
    CutShows(head, first);
  }

  lemma JoinedParts(lx: seq<string>, ly: seq<string>)
    requires lx != [] && ly != []
    ensures Joined(lx, ly) == lx[..|lx| - 1] + [lx[|lx| - 1] + ly[0]] + ly[1..] && ly == [ly[0]] + ly[1..]
  {
  }

  lemma JoinRightIff(lx: seq<string>, ly: seq<string>, all: seq<string>, tail: nat)
    requires lx != [] && ly != [] && |ly| <= tail && all == Joined(lx, ly)
    ensures LastOf(WithoutCrs(ly), tail) == LastOf(WithoutCrs(all), tail) <==>
      (|ly| == tail || |lx| == 1) && (lx[|lx| - 1] == "" || (lx[|lx| - 1] == "\r" && ly[0] == ""))
  {
    JoinedParts(lx, ly);
    PartsRightIff(lx[..|lx| - 1], lx[|lx| - 1], ly[0], ly[1..], tail);
  }

  /** With fewer LFs seen than asked for, the lines of a suffix are the last lines of the whole in two cases only. */
  lemma ShortTextRightIff(before: string, text: string, tail: nat)
    requires CountLf(text) < tail && text != ""
    ensures LastOf(WithoutCrs(SplitLf(text)), tail) == LastOf(WithoutCrs(SplitLf(before + text)), tail) <==>
      (CountLf(text) == tail - 1 || CountLf(before) == 0) && CutsNothing(before, text)
  {
    SplitAppend(before, text);
    JoinRightIff(SplitLf(before), SplitLf(text), SplitLf(before + text), tail);
    FirstLineEmpty(text);
  }

  lemma LinesOfText(s: string)
    ensures LogLines(s) == [] <==> AllLineEnds(s)
    ensures !AllLineEnds(s) ==> LogLines(s) == WithoutCrs(SplitLf(TrimRight(s, LineEnd)))
  {
  }

  lemma TrimKeepsHead(s: string)
    ensures var t := TrimRight(s, LineEnd); t != "" ==> s != "" && t[0] == s[0]
  {
    TrimRightMeaning(s, LineEnd);
  }

  lemma SuffixRightIff(file: string, before: string, data: string, tail: nat)
    requires file == before + data && tail >= 1
    ensures LastOf(LogLines(data), tail) == LastOf(LogLines(file), tail) <==>
      if AllLineEnds(data) then AllLineEnds(file)
      else
        var seen := CountLf(TrimRight(data, LineEnd));
        seen >= tail || ((seen == tail - 1 || CountLf(before) == 0) && CutsNothing(before, data))
  {
    LinesOfText(file);
    LinesOfText(data);
    if !AllLineEnds(data) {
      var text := TrimRight(data, LineEnd);
      TrimAfter(before, data);
      TrimKeepsHead(data);
      if CountLf(text) >= tail {
        SuffixKeepsLast(before, text, tail);
        LastWithoutCrs(SplitLf(text), tail);
        LastWithoutCrs(SplitLf(before + text), tail);
      } else {
        ShortTextRightIff(before, text, tail);
      }
    }
  }

  /**
    One call, exactly: the lines are those of the whole file if and only if LinesRight holds, and the
    flag is that of the whole file if and only if FlagRight holds, for every file, tail and chunk size.
   */
  lemma CallRightIff(file: string, tail: nat, chunk: nat)
    requires tail >= 1 && chunk > 0
    ensures ReadBack(file, tail, chunk).lines == Whole(file, tail).lines <==> LinesRight(file, tail, chunk)
    ensures ReadBack(file, tail, chunk).truncated == Whole(file, tail).truncated <==> FlagRight(file, tail)
  {
    var p := Stop(file, tail, chunk, |file|);
    var before, data := file[..p], file[p..];
    assert file == before + data;
    TruncatedFlag(file, tail, chunk);
    if p == 0 {
      assert data == file;
    } else {
      SuffixRightIff(file, before, data, tail);
    }
  }

  // ---------------------------------------------------------------- the calls there are

  datatype TailResult = InvalidTail | TailRead(tail: nat, lines: seq<string>, truncated: bool)

  /** A request below one is refused, and one above the limit is cut to it. */
  method ReadLogTail(file: string, requested: int) returns (result: TailResult)
    ensures result.InvalidTail? <==> requested <= 0
    ensures result.TailRead? ==> result.tail == if requested > 5000 then 5000 else requested
    ensures result.TailRead? ==> Tail(result.lines, result.truncated) == ReadBack(file, result.tail, CHUNK)
  {
    if requested <= 0 {
      return InvalidTail;
    }
    var tail := if requested > MAX_TAIL then MAX_TAIL else requested;
    var lines, truncated := ReadLastLines(file, tail);
    return TailRead(tail, lines, truncated);
  }

  lemma LineCount(s: string)
    ensures |LogLines(s)| <= CountLf(TrimRight(s, LineEnd)) + 1
  {
  }

  /**
    With two or more LFs closing a file of at most MAX_TAIL lines, asking for all its lines, or for one
    line of an empty text, gets the flag wrong.
   */
  lemma ClosingLfsMislead(file: string, tail: nat, chunk: nat)
    requires chunk > 0 && TrailingLfs(file) >= 2 && |LogLines(file)| <= MAX_TAIL
    requires tail == if LogLines(file) == [] then 1 else |LogLines(file)|
    ensures 1 <= tail <= MAX_TAIL && ReadBack(file, tail, chunk).truncated && !Whole(file, tail).truncated
  {
    CountParts(file);
    LineCount(file);
    TruncatedFlag(file, tail, chunk);
  }

  /**
    For every file and chunk size: every call there can be is right if and only if at most one LF
    closes the file, or it has more lines than can be asked for and no call cuts a line it returns.
   */
  lemma TailExactIff(file: string, chunk: nat)
    requires chunk > 0
    ensures (forall tail: nat | 1 <= tail <= MAX_TAIL :: ReadBack(file, tail, chunk) == Whole(file, tail))
        <==> TrailingLfs(file) <= 1
             || (|LogLines(file)| > MAX_TAIL
                 && forall tail: nat | 1 <= tail <= MAX_TAIL :: LinesRight(file, tail, chunk))
  {
    forall tail: nat | 1 <= tail <= MAX_TAIL
      ensures ReadBack(file, tail, chunk) == Whole(file, tail)
          <==> LinesRight(file, tail, chunk) && FlagRight(file, tail)
      ensures TrailingLfs(file) <= 1 ==> ReadBack(file, tail, chunk) == Whole(file, tail)
    {
      CallRightIff(file, tail, chunk);
      if TrailingLfs(file) <= 1 {
        ReadBackIsWhole(file, tail, chunk);
      }
    }
    if TrailingLfs(file) >= 2 && |LogLines(file)| <= MAX_TAIL {
      var tail := if LogLines(file) == [] then 1 else |LogLines(file)|;
      ClosingLfsMislead(file, tail, chunk);
      assert ReadBack(file, tail, chunk) != Whole(file, tail);
    }
  }

  lemma PlainLine(line: string)
    requires Plain(line)
    ensures CountLf(line) == 0 && SplitLf(line) == [line]
  {
    SplitOne(line);
  }

  lemma PlainEnding(line: string)
    requires Plain(line) && line != ""
    ensures TrimRight(line + "\n\n", LineEnd) == line && CountLf(line + "\n\n") == 2
    ensures LogLines(line + "\n\n") == [line]
  {
    PlainLine(line);
    TrimRightPads(line, "\n\n", LineEnd);
    CountAppend(line, "\n\n");
    assert CountLf("\n") == 1 && "\n\n"[1..] == "\n";
  }

  /**
    Asking for the one line of a file that ends in two LFs, when it is too long for one chunk: the
    reader stops inside the line, returns only its end, and claims there is more.
   */
  lemma LongLineCut(line: string, chunk: nat)
    requires Plain(line) && chunk >= 3 && |line| + 2 > chunk
    ensures Whole(line + "\n\n", 1) == Tail([line], false)
    ensures ReadBack(line + "\n\n", 1, chunk) == Tail([line[|line| - (chunk - 2)..]], true)
  {
    var file, end := line + "\n\n", line[|line| - (chunk - 2)..];
    PlainEnding(line);
    PlainEnding(end);
    assert file[|file| - chunk..] == end + "\n\n";
    assert Stop(file, 1, chunk, |file|) == |file| - chunk;
  }

  /** At the reader's own chunk size, such a line loses all but its last 4094 characters. */
  lemma LongLineLoses(line: string)
    requires Plain(line) && |line| >= 4095
    ensures ReadBack(line + "\n\n", 1, CHUNK).lines == [line[|line| - 4094..]]
  {
    LongLineCut(line, CHUNK);
  }
}
