/**
  The canonical form of a chat body, under which a message and the copy a SIP server forwards compare
  equal.
 */
module ChatBody {
  import opened Text
  import opened Sequences

  /** The characters Go's TrimSpace removes. */
  predicate GoSpace(c: char) {
    || c in " \t\n\r\U{000B}\U{000C}\U{0085}\U{00A0}\U{1680}\U{2028}\U{2029}\U{202F}\U{205F}\U{3000}"
    || '\U{2000}' <= c <= '\U{200A}'
  }

  function TrimSpace(s: string): string {
    Trim(s, GoSpace)
  }

  function CrToLf(s: string): (t: string)
    ensures |t| == |s| && '\r' !in t
  {
    if s == [] then [] else [if s[0] == '\r' then '\n' else s[0]] + CrToLf(s[1..])
  }

  /** The step-by-step canonical form. */
  function Normalize(body: string): string {
    var trimmed := TrimSpace(body);
    if '\r' in trimmed then TrimSpace(CrToLf(CrLfToLf(trimmed))) else trimmed
  }

  /** Every line end, CR LF or a bare CR, as LF. */
  function ToLf(s: string): (t: string)
    ensures '\r' !in t
  {
    CrToLf(CrLfToLf(s))
  }

  lemma {:induction false} CrToLfAppend(x: string, y: string)
    ensures CrToLf(x + y) == CrToLf(x) + CrToLf(y)
  {
    if x == [] {
      assert x + y == y;
    } else {
      CrToLfAppend(x[1..], y);
      DropAppend(x, y, 1);
      ConsAppend(if x[0] == '\r' then '\n' else x[0], CrToLf(x[1..]), CrToLf(y));
    }
  }

  lemma ToLfAppend(x: string, y: string)
    requires !CutsCrLf(x, y)
    ensures ToLf(x + y) == ToLf(x) + ToLf(y)
  {
    CrLfAppend(x, y);
    CrToLfAppend(CrLfToLf(x), CrLfToLf(y));
  }

  lemma {:induction false} CrToLfKeeps(s: string)
    requires '\r' !in s
    ensures CrToLf(s) == s
  {
    if s != [] {
      CrToLfKeeps(s[1..]);
    }
  }

  lemma ToLfKeeps(s: string)
    requires '\r' !in s
    ensures ToLf(s) == s
  {
    CrLfKeepsLf(s);
    CrToLfKeeps(s);
  }

  lemma {:induction false} SpacesStaySpaces(s: string)
    requires AllCut(s, GoSpace)
    ensures AllCut(CrLfToLf(s), GoSpace) && AllCut(CrToLf(s), GoSpace)
  {
    if s != [] {
      SpacesStaySpaces(s[1..]);
      if |s| >= 2 && s[0] == '\r' && s[1] == '\n' {
        SpacesStaySpaces(s[2..]);
      }
    }
  }

  lemma SpacesToLf(s: string)
    requires AllCut(s, GoSpace)
    ensures AllCut(ToLf(s), GoSpace)
  {
    SpacesStaySpaces(s);
    SpacesStaySpaces(CrLfToLf(s));
  }

  /** A text is its trimmed middle between two runs of spaces. */
  lemma TrimParts(s: string) returns (before: string, after: string)
    ensures s == before + (TrimSpace(s) + after)
    ensures AllCut(before, GoSpace) && AllCut(after, GoSpace) && Trimmed(TrimSpace(s), GoSpace)
  {
    TrimLeftMeaning(s, GoSpace);
    var rest := TrimLeft(s, GoSpace);
    TrimRightMeaning(rest, GoSpace);
    TrimIsTrimmed(s, GoSpace);
    var middle := TrimSpace(s);
    before, after := s[..|s| - |rest|], rest[|middle|..];
    assert rest == middle + after;
    assert s == before + rest;
  }

  lemma ToLfOfParts(before: string, middle: string, after: string)
    requires AllCut(before, GoSpace) && AllCut(after, GoSpace) && Trimmed(middle, GoSpace)
    ensures TrimSpace(ToLf(before + (middle + after))) == TrimSpace(ToLf(middle))
  {
    if middle == [] {
      var all := before + after;
      assert before + (middle + after) == all;
      assert AllCut(all, GoSpace);
      SpacesToLf(all);
      assert ToLf(all) == ToLf(all) + ([] + []);
      TrimPads(ToLf(all), [], [], GoSpace);
    } else {
      ToLfAppend(before, middle + after);
      ToLfAppend(middle, after);
      SpacesToLf(before);
      SpacesToLf(after);
      TrimPads(ToLf(before), ToLf(middle), ToLf(after), GoSpace);
    }
  }

  /** Trimming first, rewriting only when a CR is left, and trimming again is rewriting and trimming once. */
  lemma NormalizeIsTrimmedLf(body: string)
    ensures Normalize(body) == TrimSpace(ToLf(body))
  {
    var before, after := TrimParts(body);
    var middle := TrimSpace(body);
    ToLfOfParts(before, middle, after);
    if '\r' !in middle {
      ToLfKeeps(middle);
      TrimKeepsTrimmed(middle, GoSpace);
    }
  }

  lemma TrimKeepsOut(s: string, c: char)
    requires c !in s
    ensures c !in TrimSpace(s)
  {
    var before, after := TrimParts(s);
    var middle := TrimSpace(s);
    assert forall i :: 0 <= i < |middle| ==> middle[i] == s[|before| + i];
  }

  /** The canonical form is trimmed, has no CR, and is its own canonical form. */
  lemma NormalizeIdempotent(body: string)
    ensures var n := Normalize(body); Trimmed(n, GoSpace) && '\r' !in n && Normalize(n) == n
  {
    NormalizeIsTrimmedLf(body);
    TrimIsTrimmed(ToLf(body), GoSpace);
    TrimKeepsOut(ToLf(body), '\r');
    TrimKeepsTrimmed(Normalize(body), GoSpace);
  }

  /** Copies that differ only in surrounding space and in how lines end have one canonical form. */
  lemma CopiesAgree(body: string, copy: string, before: string, after: string)
    requires AllCut(before, GoSpace) && AllCut(after, GoSpace)
    requires ToLf(copy) == before + (ToLf(body) + after)
    ensures Normalize(copy) == Normalize(body)
  {
    NormalizeIsTrimmedLf(body);
    NormalizeIsTrimmedLf(copy);
    TrimPads(before, ToLf(body), after, GoSpace);
  }
}
