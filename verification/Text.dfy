/**
  The string helpers of the Go and JavaScript libraries the components below call.
 */
module Text {
  import opened Sequences

  // ---------------------------------------------------------------- trimming

  function TrimLeft(s: string, cut: char -> bool): string {
    if s != [] && cut(s[0]) then TrimLeft(s[1..], cut) else s
  }

  function TrimRight(s: string, cut: char -> bool): string {
    if s != [] && cut(s[|s| - 1]) then TrimRight(s[..|s| - 1], cut) else s
  }

  function Trim(s: string, cut: char -> bool): string {
    TrimRight(TrimLeft(s, cut), cut)
  }

  predicate Trimmed(s: string, cut: char -> bool) {
    s != [] ==> !cut(s[0]) && !cut(s[|s| - 1])
  }

  predicate AllCut(s: string, cut: char -> bool) {
    forall i :: 0 <= i < |s| ==> cut(s[i])
  }

  /** Only a prefix of cut characters goes, and no cut character is left in front. */
  lemma {:induction false} TrimLeftMeaning(s: string, cut: char -> bool)
    ensures var t := TrimLeft(s, cut);
      && |t| <= |s| && t == s[|s| - |t|..] && AllCut(s[..|s| - |t|], cut) && (t != [] ==> !cut(t[0]))
  {
    if s != [] && cut(s[0]) {
      TrimLeftMeaning(s[1..], cut);
      var k := |s| - |TrimLeft(s, cut)|;
      assert s[..k] == [s[0]] + s[1..][..k - 1];
    }
  }

  lemma {:induction false} TrimRightMeaning(s: string, cut: char -> bool)
    ensures var t := TrimRight(s, cut);
      && |t| <= |s| && t == s[..|t|] && AllCut(s[|t|..], cut) && (t != [] ==> !cut(t[|t| - 1]))
  {
    if s != [] && cut(s[|s| - 1]) {
      TrimRightMeaning(s[..|s| - 1], cut);
      var t := TrimRight(s, cut);
      assert s[|t|..] == s[..|s| - 1][|t|..] + [s[|s| - 1]];
    }
  }

  lemma TrimIsTrimmed(s: string, cut: char -> bool)
    ensures Trimmed(Trim(s, cut), cut)
  {
    TrimLeftMeaning(s, cut);
    TrimRightMeaning(TrimLeft(s, cut), cut);
  }

  lemma TrimKeepsTrimmed(s: string, cut: char -> bool)
    requires Trimmed(s, cut)
    ensures Trim(s, cut) == s
  {
  }

  lemma {:induction false} TrimLeftPads(pad: string, s: string, cut: char -> bool)
    requires AllCut(pad, cut)
    ensures TrimLeft(pad + s, cut) == TrimLeft(s, cut)
  {
    if pad == [] {
      assert pad + s == s;
    } else {
      TrimLeftPads(pad[1..], s, cut);
      DropAppend(pad, s, 1);
    }
  }

  lemma {:induction false} TrimRightPads(s: string, pad: string, cut: char -> bool)
    requires AllCut(pad, cut)
    ensures TrimRight(s + pad, cut) == TrimRight(s, cut)
  {
    if pad == [] {
      assert s + pad == s;
    } else {
      TrimRightPads(s, pad[..|pad| - 1], cut);
      TakeAppend(s, pad);
    }
  }

  lemma {:induction false} TrimLeftBefore(s: string, pad: string, cut: char -> bool)
    requires AllCut(pad, cut)
    ensures TrimLeft(s + pad, cut) == if TrimLeft(s, cut) == [] then [] else TrimLeft(s, cut) + pad
  {
    if s == [] {
      TrimLeftPads(pad, [], cut);
      assert s + pad == pad + [] == pad;
    } else {
      DropAppend(s, pad, 1);
      if cut(s[0]) {
        TrimLeftBefore(s[1..], pad, cut);
      }
    }
  }

  /** Padding on either side makes no difference to what trimming leaves. */
  lemma TrimPads(before: string, s: string, after: string, cut: char -> bool)
    requires AllCut(before, cut) && AllCut(after, cut)
    ensures Trim(before + (s + after), cut) == Trim(s, cut)
  {
    TrimLeftPads(before, s + after, cut);
    TrimLeftBefore(s, after, cut);
    TrimRightPads(TrimLeft(s, cut), after, cut);
  }

  // ---------------------------------------------------------------- line ends

  /** Every "\r\n" becomes "\n", left to right. */
  function CrLfToLf(s: string): (t: string)
    ensures |t| <= |s|
  {
    if s == [] then []
    else if |s| >= 2 && s[0] == '\r' && s[1] == '\n' then ['\n'] + CrLfToLf(s[2..])
    else [s[0]] + CrLfToLf(s[1..])
  }

  predicate CutsCrLf(x: string, y: string) {
    x != [] && x[|x| - 1] == '\r' && y != [] && y[0] == '\n'
  }

  lemma CrLfPair(rest: string, s: string)
    requires |s| >= 2 && s[0] == '\r' && s[1] == '\n' && rest == s[2..]
    ensures CrLfToLf(s) == ['\n'] + CrLfToLf(rest)
  {
  }

  lemma CrLfSingle(rest: string, s: string)
    requires s != "" && rest == s[1..] && !(s[0] == '\r' && rest != "" && rest[0] == '\n')
    ensures CrLfToLf(s) == [s[0]] + CrLfToLf(rest)
  {
  }

  lemma {:induction false} CrLfAppend(x: string, y: string)
    requires !CutsCrLf(x, y)
    ensures CrLfToLf(x + y) == CrLfToLf(x) + CrLfToLf(y)
  {
    if x == [] {
      assert x + y == y;
    } else if |x| >= 2 && x[0] == '\r' && x[1] == '\n' {
      CrLfAppend(x[2..], y);
      DropAppend(x, y, 2);
      CrLfPair(x[2..], x);
      CrLfPair(x[2..] + y, x + y);
      ConsAppend('\n', CrLfToLf(x[2..]), CrLfToLf(y));
    } else {
      CrLfAppend(x[1..], y);
      DropAppend(x, y, 1);
      CrLfSingle(x[1..], x);
      CrLfSingle(x[1..] + y, x + y);
      ConsAppend(x[0], CrLfToLf(x[1..]), CrLfToLf(y));
    }
  }

  lemma {:induction false} CrLfKeepsLf(s: string)
    requires '\r' !in s
    ensures CrLfToLf(s) == s
  {
    if s != [] {
      CrLfKeepsLf(s[1..]);
    }
  }

  /** A line without the CR of a CR LF end. */
  function WithoutCr(line: string): string {
    if line != [] && line[|line| - 1] == '\r' then line[..|line| - 1] else line
  }

  // ---------------------------------------------------------------- lists of strings

  function Concat(parts: seq<string>): string {
    if parts == [] then "" else parts[0] + Concat(parts[1..])
  }

  lemma {:induction false} ConcatSnoc(parts: seq<string>, last: string)
    ensures Concat(parts + [last]) == Concat(parts) + last
  {
    if parts == [] {
      assert parts + [last] == [last] && Concat([last]) == last + "";
    } else {
      ConcatSnoc(parts[1..], last);
      assert (parts + [last])[1..] == parts[1..] + [last];
    }
  }

  function Join(parts: seq<string>, sep: string): string {
    if parts == [] then "" else if |parts| == 1 then parts[0] else parts[0] + sep + Join(parts[1..], sep)
  }
}
