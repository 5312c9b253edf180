/**
  STAP-A aggregation packets (section 5.7.1 of RFC 6184): one indicator byte, then for each NAL
  unit a two-byte size and the unit.  The gateway walks them in four places, with four different
  loops, of which the one that looks for a slice is in FirstMb; each loop is tied to one reading of
  the payload, and that reading is shown to be the inverse of aggregation.
 */
module StapA {
  import opened Rtp
  import opened Sequences

  /** The size field keeps the low 16 bits of the length. */
  function Unit(nal: Bytes): Bytes {
    [|nal| / 256 % 256, |nal| % 256] + nal
  }

  function Aggregate(nals: seq<Bytes>): Bytes {
    if nals == [] then [] else Unit(nals[0]) + Aggregate(nals[1..])
  }

  predicate Aggregable(nals: seq<Bytes>) {
    forall i :: 0 <= i < |nals| ==> 0 < |nals[i]| < 0x1_0000
  }

  /** The NAL units read off the front of p, and whether they end exactly where p ends. */
  datatype Walk = Walk(nals: seq<Bytes>, complete: bool)

  function SizeAt(p: Bytes, offset: nat): nat
    requires offset + 2 <= |p|
  {
    var high: int, low: int := p[offset], p[offset + 1];
    256 * high + low
  }

  function WalkFrom(p: Bytes, offset: nat): Walk
    requires offset <= |p|
    decreases |p| - offset
  {
    if offset == |p| then Walk([], true)
    else if offset + 2 > |p| then Walk([], false)
    else
      var next := offset + 2 + SizeAt(p, offset);
      if next == offset + 2 || next > |p| then Walk([], false)
      else
        var rest := WalkFrom(p, next);
        Walk([p[offset + 2..next]] + rest.nals, rest.complete)
  }

  /** A whole unit lies at offset. */
  predicate UnitLies(p: Bytes, offset: nat) {
    offset + 2 <= |p| && 0 < SizeAt(p, offset) <= |p| - offset - 2
  }

  predicate HasType(nals: seq<Bytes>, t: byte) {
    exists nal :: nal in nals && nal != [] && NalType(nal[0]) == t
  }

  function OfType(nals: seq<Bytes>, t: byte): seq<Bytes> {
    if nals == [] then []
    else (if nals[0] != [] && NalType(nals[0][0]) == t then [nals[0]] else []) + OfType(nals[1..], t)
  }

  predicate IsSingleNalType(p: Bytes, t: byte) {
    |p| > 1 && NalType(p[0]) == t
  }

  /** The first unit of type t longer than its header, or the empty sequence. */
  function FirstCacheable(nals: seq<Bytes>, t: byte): Bytes {
    if nals == [] then []
    else if IsSingleNalType(nals[0], t) then nals[0]
    else FirstCacheable(nals[1..], t)
  }

  predicate WellFormed(payload: Bytes) {
    |payload| >= 4 && NalType(payload[0]) == STAP_A && WalkFrom(payload, 1).complete
  }

  function Units(payload: Bytes): seq<Bytes> {
    if payload == [] then [] else WalkFrom(payload, 1).nals
  }

  // ---------------------------------------------------------------- the walk inverts aggregation

  lemma SuffixAt(p: Bytes, offset: nat, u: Bytes, rest: Bytes)
    requires offset <= |p| && p[offset..] == u + rest
    ensures offset + |u| <= |p| && p[offset..offset + |u|] == u && p[offset + |u|..] == rest
  {
    assert |p| - offset == |u| + |rest|;
    forall i | 0 <= i < |u|
      ensures p[offset + i] == u[i]
    {
      assert p[offset + i] == p[offset..][i];
    }
    forall i | 0 <= i < |rest|
      ensures p[offset + |u| + i] == rest[i]
    {
      assert p[offset + |u| + i] == p[offset..][|u| + i];
    }
  }

  lemma UnitReadsBack(p: Bytes, offset: nat, nal: Bytes)
    requires 0 < |nal| < 0x1_0000 && offset + 2 + |nal| <= |p|
    requires p[offset..offset + 2 + |nal|] == Unit(nal)
    ensures SizeAt(p, offset) == |nal| && p[offset + 2..offset + 2 + |nal|] == nal
  {
    var u := p[offset..offset + 2 + |nal|];
    assert p[offset] == u[0] && p[offset + 1] == u[1];
    assert p[offset + 2..offset + 2 + |nal|] == u[2..];
  }

  lemma WalkOne(p: Bytes, offset: nat, nal: Bytes, next: nat)
    requires 0 < |nal| < 0x1_0000 && next == offset + 2 + |nal| <= |p| && p[offset..next] == Unit(nal)
    ensures WalkFrom(p, offset) == Walk([nal] + WalkFrom(p, next).nals, WalkFrom(p, next).complete)
  {
    UnitReadsBack(p, offset, nal);
  }

  lemma {:induction false} WalkAggregate(p: Bytes, offset: nat, nals: seq<Bytes>)
    requires Aggregable(nals)
    requires offset <= |p| && p[offset..] == Aggregate(nals)
    ensures WalkFrom(p, offset) == Walk(nals, true)
    decreases |nals|
  {
    if nals != [] {
      var nal, rest := nals[0], nals[1..];
      var next := offset + 2 + |nal|;
      SuffixAt(p, offset, Unit(nal), Aggregate(rest));
      WalkAggregate(p, next, rest);
      WalkOne(p, offset, nal, next);
      assert [nal] + rest == nals;
    }
  }

  lemma UnitAt(p: Bytes, offset: nat)
    requires offset + 2 <= |p| && offset + 2 + SizeAt(p, offset) <= |p|
    ensures var next := offset + 2 + SizeAt(p, offset);
      p[offset..] == Unit(p[offset + 2..next]) + p[next..]
  {
    var size := SizeAt(p, offset);
    assert size / 256 % 256 == p[offset] && size % 256 == p[offset + 1];
  }

  /** Whatever is walked is aggregable, and a complete walk accounts for every byte. */
  lemma {:induction false} WalkExact(p: Bytes, offset: nat)
    requires offset <= |p|
    ensures Aggregable(WalkFrom(p, offset).nals)
    ensures WalkFrom(p, offset).complete ==> Aggregate(WalkFrom(p, offset).nals) == p[offset..]
    decreases |p| - offset
  {
    if offset + 2 <= |p| && 0 < SizeAt(p, offset) <= |p| - offset - 2 {
      var next := offset + 2 + SizeAt(p, offset);
      WalkExact(p, next);
      UnitAt(p, offset);
      assert WalkFrom(p, offset).nals[1..] == WalkFrom(p, next).nals;
    }
  }

  /** A payload is a well formed STAP-A exactly when it is the aggregate of some NAL units. */
  lemma WellFormedIffAggregate(payload: Bytes)
    requires payload != [] && NalType(payload[0]) == STAP_A
    ensures WellFormed(payload) <==>
      exists nals :: nals != [] && Aggregable(nals) && payload[1..] == Aggregate(nals)
  {
    if WellFormed(payload) {
      WalkExact(payload, 1);
      assert Units(payload) != [];
    }
    if nals :| nals != [] && Aggregable(nals) && payload[1..] == Aggregate(nals) {
      WalkAggregate(payload, 1, nals);
      assert |payload[1..]| >= |Unit(nals[0])| >= 3;
    }
  }

  /** A malformed end costs nothing of what comes before it: the whole units in front are still read. */
  lemma {:induction false} WalkStopsAtJunk(p: Bytes, offset: nat, nals: seq<Bytes>, junk: Bytes)
    requires Aggregable(nals) && junk != [] && !UnitLies(junk, 0)
    requires offset <= |p| && p[offset..] == Aggregate(nals) + junk
    ensures WalkFrom(p, offset) == Walk(nals, false)
    decreases |nals|
  {
    if nals == [] {
      JunkAt(p, offset, junk);
    } else {
      var nal, rest := nals[0], nals[1..];
      var next := offset + 2 + |nal|;
      UnitThenJunk(p, offset, nal, Aggregate(rest), junk, next);
      WalkStopsAtJunk(p, next, rest, junk);
      WalkOne(p, offset, nal, next);
      assert [nal] + rest == nals;
    }
  }

  lemma UnitThenJunk(p: Bytes, offset: nat, nal: Bytes, rest: Bytes, junk: Bytes, next: nat)
    requires offset <= |p| && p[offset..] == (Unit(nal) + rest) + junk && next == offset + 2 + |nal|
    ensures next <= |p| && p[offset..next] == Unit(nal) && p[next..] == rest + junk
  {
    ConcatAssoc(Unit(nal), rest, junk);
    SuffixAt(p, offset, Unit(nal), rest + junk);
  }

  lemma JunkAt(p: Bytes, offset: nat, junk: Bytes)
    requires junk != [] && !UnitLies(junk, 0) && offset <= |p| && p[offset..] == [] + junk
    ensures WalkFrom(p, offset) == Walk([], false)
  {
    assert |p| - offset == |junk|;
    if |junk| >= 2 {
      assert p[offset] == p[offset..][0] && p[offset + 1] == p[offset..][1];
    }
  }

  // ---------------------------------------------------------------- one step of each walk

  lemma HasTypeCons(nal: Bytes, rest: seq<Bytes>)
    ensures forall t :: HasType([nal] + rest, t) <==> HasType(rest, t) || (nal != [] && NalType(nal[0]) == t)
  {
    forall t
      ensures HasType([nal] + rest, t) <==> HasType(rest, t) || (nal != [] && NalType(nal[0]) == t)
    {
      assert forall x :: x in [nal] + rest <==> x in rest || x == nal;
    }
  }

  lemma WalkStep(p: Bytes, offset: nat)
    requires UnitLies(p, offset)
    ensures var next := offset + 2 + SizeAt(p, offset);
      && WalkFrom(p, offset).nals == [p[offset + 2..next]] + WalkFrom(p, next).nals
      && WalkFrom(p, offset).complete == WalkFrom(p, next).complete
  {
  }

  /** A unit of type t is among those from offset on. */
  predicate TypeFrom(p: Bytes, offset: nat, t: byte)
    requires offset <= |p|
  {
    HasType(WalkFrom(p, offset).nals, t)
  }

  lemma HasTypeStep(p: Bytes, offset: nat, next: nat)
    requires UnitLies(p, offset) && next == offset + 2 + SizeAt(p, offset)
    ensures forall t :: TypeFrom(p, offset, t) <==> NalType(p[offset + 2]) == t || TypeFrom(p, next, t)
    ensures WalkFrom(p, offset).complete == WalkFrom(p, next).complete
  {
    WalkStep(p, offset);
    HasTypeCons(p[offset + 2..next], WalkFrom(p, next).nals);
  }

  lemma HasTypeEnd(p: Bytes)
    ensures WalkFrom(p, |p|).complete && forall t :: !TypeFrom(p, |p|, t)
  {
  }

  /** The units of type t from offset on. */
  function UnitsFrom(p: Bytes, offset: nat, t: byte): seq<Bytes>
    requires offset <= |p|
  {
    OfType(WalkFrom(p, offset).nals, t)
  }

  lemma OfTypeCons(nal: Bytes, rest: seq<Bytes>, t: byte)
    requires nal != []
    ensures OfType([nal] + rest, t) == (if NalType(nal[0]) == t then [nal] else []) + OfType(rest, t)
  {
    assert ([nal] + rest)[1..] == rest;
  }

  lemma OfTypeStep(p: Bytes, offset: nat, next: nat, unit: Bytes, t: byte, found: seq<Bytes>)
    requires UnitLies(p, offset) && next == offset + 2 + SizeAt(p, offset) && unit == p[offset + 2..next]
    ensures unit != []
    ensures found + UnitsFrom(p, offset, t) ==
      (if NalType(unit[0]) == t then found + [unit] else found) + UnitsFrom(p, next, t)
  {
    WalkStep(p, offset);
    OfTypeCons(unit, WalkFrom(p, next).nals, t);
    var rest := UnitsFrom(p, next, t);
    ConcatAssoc(found, [unit], rest);
    assert [] + rest == rest;
  }

  lemma OfTypeStop(p: Bytes, offset: nat, t: byte, found: seq<Bytes>)
    requires offset <= |p| && !UnitLies(p, offset)
    ensures found + UnitsFrom(p, offset, t) == found
  {
  }

  /** The first unit with a body of type t from offset on. */
  function CacheableFrom(p: Bytes, offset: nat, t: byte): Bytes
    requires offset <= |p|
  {
    FirstCacheable(WalkFrom(p, offset).nals, t)
  }

  lemma CacheableStop(p: Bytes, offset: nat, t: byte)
    requires offset <= |p| && !UnitLies(p, offset)
    ensures CacheableFrom(p, offset, t) == []
  {
  }

  lemma CacheableCons(nal: Bytes, rest: seq<Bytes>, t: byte)
    ensures FirstCacheable([nal] + rest, t) == if IsSingleNalType(nal, t) then nal else FirstCacheable(rest, t)
  {
    assert ([nal] + rest)[1..] == rest;
  }

  lemma CacheableStep(p: Bytes, offset: nat, next: nat, unit: Bytes, t: byte)
    requires UnitLies(p, offset) && next == offset + 2 + SizeAt(p, offset) && unit == p[offset + 2..next]
    ensures CacheableFrom(p, offset, t) == if IsSingleNalType(unit, t) then unit else CacheableFrom(p, next, t)
  {
    WalkStep(p, offset);
    CacheableCons(unit, WalkFrom(p, next).nals, t);
  }

  // ---------------------------------------------------------------- three of the loops

  method InspectStapA(payload: Bytes) returns (hasSPS: bool, hasPPS: bool, isIDR: bool, valid: bool)
    ensures valid <==> WellFormed(payload)
    ensures hasSPS <==> valid && HasType(Units(payload), 7)
    ensures hasPPS <==> valid && HasType(Units(payload), 8)
    ensures isIDR <==> valid && HasType(Units(payload), 5)
  {
    hasSPS, hasPPS, isIDR, valid := false, false, false, false;
    if |payload| < 4 || NalType(payload[0]) != STAP_A {
      return;
    }
    var offset := 1;
    while offset < |payload|
      invariant 1 <= offset <= |payload|
      invariant WalkFrom(payload, 1).complete == WalkFrom(payload, offset).complete
      invariant TypeFrom(payload, 1, 7) <==> hasSPS || TypeFrom(payload, offset, 7)
      invariant TypeFrom(payload, 1, 8) <==> hasPPS || TypeFrom(payload, offset, 8)
      invariant TypeFrom(payload, 1, 5) <==> isIDR || TypeFrom(payload, offset, 5)
    {
      if offset + 2 > |payload| {
        return false, false, false, false;
      }
      var size := SizeAt(payload, offset);
      var next := offset + 2 + size;
      if size == 0 || next > |payload| {
        return false, false, false, false;
      }
      HasTypeStep(payload, offset, next);
      var t := NalType(payload[offset + 2]);
      if t == 5 {
        isIDR := true;
      } else if t == 7 {
        hasSPS := true;
      } else if t == 8 {
        hasPPS := true;
      }
      offset := next;
    }
    HasTypeEnd(payload);
    valid := true;
  }

  /** The SPS units of one payload: itself, or the type 7 units of a STAP-A up to its first malformed one. */
  function SpsUnits(payload: Bytes): seq<Bytes> {
    if payload == [] then []
    else if NalType(payload[0]) == 7 then [payload]
    else if NalType(payload[0]) == STAP_A then OfType(Units(payload), 7)
    else []
  }

  method H264SpsUnits(payload: Bytes) returns (units: seq<Bytes>)
    ensures units == SpsUnits(payload)
  {
    if |payload| == 0 {
      return [];
    }
    var nalType := NalType(payload[0]);
    if nalType == 7 {
      return [payload];
    }
    if nalType != STAP_A || |payload| < 3 {
      return [];
    }
    units := [];
    var offset := 1;
    assert [] + UnitsFrom(payload, 1, 7) == UnitsFrom(payload, 1, 7);
    while offset + 2 <= |payload|
      invariant 1 <= offset <= |payload|
      invariant UnitsFrom(payload, 1, 7) == units + UnitsFrom(payload, offset, 7)
      decreases |payload| - offset
    {
      var size := SizeAt(payload, offset);
      if size <= 0 || offset + 2 + size > |payload| {
        break;
      }
      var next := offset + 2 + size;
      var unit := payload[offset + 2..next];
      OfTypeStep(payload, offset, next, unit, 7, units);
      offset := next;
      if |unit| > 0 && NalType(unit[0]) == 7 {
        units := units + [unit];
      }
    }
    OfTypeStop(payload, offset, 7, units);
  }

  /** The parameter-set cache's walk of a STAP-A. */
  method FindCacheable(payload: Bytes, nalType: byte) returns (nal: Bytes)
    requires payload != []
    ensures nal == FirstCacheable(Units(payload), nalType)
  {
    var offset := 1;
    assert CacheableFrom(payload, 1, nalType) == FirstCacheable(Units(payload), nalType);
    while offset + 2 <= |payload|
      invariant 1 <= offset <= |payload|
      invariant CacheableFrom(payload, 1, nalType) == CacheableFrom(payload, offset, nalType)
      decreases |payload| - offset
    {
      var size := SizeAt(payload, offset);
      var next := offset + 2 + size;
      if size == 0 || next > |payload| {
        CacheableStop(payload, offset, nalType);
        return [];
      }
      var candidate := payload[offset + 2..next];
      CacheableStep(payload, offset, next, candidate, nalType);
      offset := next;
      if IsSingleNalType(candidate, nalType) {
        return candidate;
      }
    }
    CacheableStop(payload, offset, nalType);
    return [];
  }

  // ---------------------------------------------------------------- the loops agree on every aggregate

  /** All readers of the aggregate of some NAL units see exactly those units. */
  lemma ReadersAgree(indicator: byte, nals: seq<Bytes>)
    requires NalType(indicator) == STAP_A && nals != [] && Aggregable(nals)
    ensures var payload := [indicator] + Aggregate(nals);
      && WellFormed(payload)
      && Units(payload) == nals
      && SpsUnits(payload) == OfType(nals, 7)
  {
    WalkAggregate([indicator] + Aggregate(nals), 1, nals);
    assert |Aggregate(nals)| >= |Unit(nals[0])| >= 3;
  }

  /** A packet that aggregates nothing is its own only unit. */
  lemma SingleSps(payload: Bytes)
    requires payload == [] || NalType(payload[0]) != STAP_A
    ensures SpsUnits(payload) == if payload != [] && NalType(payload[0]) == 7 then [payload] else []
  {
  }

  /** The readers of an aggregate with a malformed end still see the whole units before it. */
  lemma JunkIgnored(indicator: byte, nals: seq<Bytes>, junk: Bytes)
    requires NalType(indicator) == STAP_A && Aggregable(nals) && junk != [] && !UnitLies(junk, 0)
    ensures var payload := [indicator] + (Aggregate(nals) + junk);
      !WellFormed(payload) && Units(payload) == nals && SpsUnits(payload) == OfType(nals, 7)
  {
    WalkStopsAtJunk([indicator] + (Aggregate(nals) + junk), 1, nals, junk);
  }

  /** Filtering by type keeps exactly the units of that type: every one of them, and in order. */
  lemma {:induction false} OfTypeExact(nals: seq<Bytes>, t: byte)
    ensures forall nal :: nal in OfType(nals, t) <==> nal in nals && nal != [] && NalType(nal[0]) == t
    ensures OfType(nals, t) != [] <==> HasType(nals, t)
  {
    if nals != [] {
      OfTypeExact(nals[1..], t);
      assert forall nal :: nal in nals <==> nal == nals[0] || nal in nals[1..];
    }
  }

  /** The cache finds a unit of type t iff there is one with a body; a bare header byte is only flagged. */
  lemma {:induction false} CacheableIff(nals: seq<Bytes>, t: byte)
    ensures FirstCacheable(nals, t) != [] <==> exists nal :: nal in nals && |nal| >= 2 && NalType(nal[0]) == t
    ensures var found := FirstCacheable(nals, t);
      found != [] ==> found in nals && |found| >= 2 && NalType(found[0]) == t
  {
    if nals != [] {
      CacheableIff(nals[1..], t);
      assert forall nal :: nal in nals <==> nal == nals[0] || nal in nals[1..];
    }
  }

  /** Of several such units it is the first that is found. */
  lemma {:induction false} CacheableFirst(nals: seq<Bytes>, t: byte, i: nat)
    requires i < |nals| && IsSingleNalType(nals[i], t)
    requires forall k :: 0 <= k < i ==> !IsSingleNalType(nals[k], t)
    ensures FirstCacheable(nals, t) == nals[i]
  {
    if i > 0 {
      assert !IsSingleNalType(nals[0], t);
      CacheableFirst(nals[1..], t, i - 1);
    }
  }

  // ---------------------------------------------------------------- the two-unit builder

  const STAPA_INDICATOR: byte := 0x78

  lemma AggregateTwo(payload: Bytes, sps: Bytes, pps: Bytes)
    requires |payload| == 5 + |sps| + |pps|
    requires payload[0] == STAPA_INDICATOR
    requires payload[1..3 + |sps|] == Unit(sps) && payload[3 + |sps|..] == Unit(pps)
    ensures payload == [STAPA_INDICATOR] + Aggregate([sps, pps])
  {
    assert [sps, pps][1..] == [pps] && [pps][1..] == [];
    assert Aggregate([pps]) == Unit(pps) + [] == Unit(pps);
    assert Aggregate([sps, pps]) == Unit(sps) + Unit(pps);
    assert payload == payload[..1] + payload[1..3 + |sps|] + payload[3 + |sps|..];
  }

  /** Writes the size field and the unit at offset, and nothing else. */
  method WriteUnit(payload: array<byte>, offset: nat, nal: Bytes)
    requires offset + 2 + |nal| <= payload.Length
    modifies payload
    ensures payload[offset..offset + 2 + |nal|] == Unit(nal)
    ensures forall i :: 0 <= i < payload.Length && !(offset <= i < offset + 2 + |nal|) ==> payload[i] == old(payload[i])
  {
    payload[offset], payload[offset + 1] := |nal| / 256 % 256, |nal| % 256;
    forall i | 0 <= i < |nal| {
      payload[offset + 2 + i] := nal[i];
    }
  }

  method BuildStapAPayload(sps: Bytes, pps: Bytes) returns (payload: array?<byte>)
    ensures payload == null <==> sps == [] || pps == []
    ensures payload != null ==> fresh(payload) && payload[..] == [32 * 3 + 24] + Aggregate([sps, pps])
  {
    if |sps| == 0 || |pps| == 0 {
      return null;
    }
    var payloadSize := 1 + 2 + |sps| + 2 + |pps|;
    payload := new byte[payloadSize];
    var offset := 0;
    payload[offset] := STAPA_INDICATOR;
    offset := offset + 1;
    WriteUnit(payload, offset, sps);
    offset := offset + 2 + |sps|;
    WriteUnit(payload, offset, pps);
    assert payload[..][1..3 + |sps|] == payload[1..3 + |sps|];
    AggregateTwo(payload[..], sps, pps);
  }

  /** The builder's payload reads back as its two inputs iff both lengths fit the 16-bit size field. */
  lemma BuildReadsBackIff(sps: Bytes, pps: Bytes)
    requires sps != [] && pps != []
    ensures var payload := [32 * 3 + 24] + Aggregate([sps, pps]);
      WellFormed(payload) && Units(payload) == [sps, pps] <==> |sps| < 0x1_0000 && |pps| < 0x1_0000
  {
    var payload := [STAPA_INDICATOR] + Aggregate([sps, pps]);
    if |sps| < 0x1_0000 && |pps| < 0x1_0000 {
      ReadersAgree(STAPA_INDICATOR, [sps, pps]);
    } else {
      WalkExact(payload, 1);
      assert [sps, pps][0] == sps && [sps, pps][1] == pps;
    }
  }
}
