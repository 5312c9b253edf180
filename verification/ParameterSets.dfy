/**
  The parameter-set cache of the normalizer: the latest SPS and PPS seen in complete access units,
  including ones split over FU-A fragments.
 */
module ParameterSets {
  import opened Rtp
  import StapA
  import Mode0

  /** A reassembled parameter set is reinjected as one RTP payload, so it must stay this small. */
  const MAX_CACHED_FUA: nat := 1200

  const SPS: byte := 7
  const PPS: byte := 8

  // ---------------------------------------------------------------- reassembly of a fragmented set

  predicate OpensSet(payload: Bytes, t: byte) {
    && |payload| >= 3 && NalType(payload[0]) == FU_A
    && StartBit(payload[1]) && !EndBit(payload[1]) && NalType(payload[1]) == t
  }

  /** Fragment j of the run opened at 0: next in sequence, same indicator and type, no second start. */
  predicate ContinuesSet(ps: seq<Packet>, j: nat, t: byte)
    requires 0 < j < |ps| && ps[0].payload != []
  {
    var payload := ps[j].payload;
    && |payload| >= 3
    && ps[j].seqNo == NextSeq(ps[j - 1].seqNo)
    && NalType(payload[0]) == FU_A && RefBits(payload[0]) == RefBits(ps[0].payload[0])
    && !StartBit(payload[1]) && NalType(payload[1]) == t
  }

  /** The unit completed by fragments j and on, nal holding those before j; [] when it never completes. */
  function CollectSet(ps: seq<Packet>, j: nat, t: byte, nal: Bytes): Bytes
    requires 0 < j <= |ps| && ps[0].payload != []
    decreases |ps| - j
  {
    if j == |ps| || !ContinuesSet(ps, j, t) then []
    else
      var longer := nal + ps[j].payload[2..];
      if |longer| > MAX_CACHED_FUA then []
      else if EndBit(ps[j].payload[1]) then longer
      else CollectSet(ps, j + 1, t, longer)
  }

  function ReassembledSet(ps: seq<Packet>, t: byte): Bytes {
    if ps == [] || !OpensSet(ps[0].payload, t) then []
    else
      var nal := [Mode0.RebuiltHeader(ps[0].payload)] + ps[0].payload[2..];
      if |nal| > MAX_CACHED_FUA then [] else CollectSet(ps, 1, t, nal)
  }

  method ReassembleFuaParameterSet(ps: seq<Packet>, nalType: byte) returns (nal: Bytes)
    ensures nal == ReassembledSet(ps, nalType)
  {
    if |ps| == 0 || |ps[0].payload| < 3 {
      return [];
    }
    var first := ps[0].payload;
    if NalType(first[0]) != FU_A || !StartBit(first[1]) || EndBit(first[1]) || NalType(first[1]) != nalType {
      return [];
    }
    nal := [RefBits(first[0]) + nalType];
    nal := nal + first[2..];
    if |nal| > MAX_CACHED_FUA {
      return [];
    }
    var lastSeq := ps[0].seqNo;
    for j := 1 to |ps|
      invariant lastSeq == ps[j - 1].seqNo
      invariant ReassembledSet(ps, nalType) == CollectSet(ps, j, nalType, nal)
    {
      var payload := ps[j].payload;
      if |payload| < 3 || ps[j].seqNo != NextSeq(lastSeq) || NalType(payload[0]) != FU_A ||
         RefBits(payload[0]) != RefBits(first[0]) || StartBit(payload[1]) || NalType(payload[1]) != nalType {
        return [];
      }
      if |nal| + |payload| - 2 > MAX_CACHED_FUA {
        return [];
      }
      nal := nal + payload[2..];
      lastSeq := ps[j].seqNo;
      if EndBit(payload[1]) {
        return nal;
      }
    }
    return [];
  }

  predicate OneSource(ps: seq<Packet>) {
    forall i :: 0 <= i < |ps| ==> ps[i].ssrc == ps[0].ssrc && ps[i].timestamp == ps[0].timestamp
  }

  /** The first e packets are a complete run of two or more fragments, all of type t under one indicator. */
  predicate SetRun(ps: seq<Packet>, e: nat, t: byte) {
    && 2 <= e <= |ps| && Mode0.Closed(ps[..e])
    && forall k :: 0 <= k < e ==> SetFragment(ps, k, t)
  }

  predicate SetFragment(ps: seq<Packet>, k: nat, t: byte) {
    && k < |ps| && |ps[k].payload| >= 2 && ps[0].payload != []
    && RefBits(ps[k].payload[0]) == RefBits(ps[0].payload[0]) && NalType(ps[k].payload[1]) == t
  }

  /** The first e packets are such a run and nal is what they rebuild to. */
  predicate RunOf(ps: seq<Packet>, e: nat, t: byte, nal: Bytes) {
    SetRun(ps, e, t) && Mode0.Rebuilt(ps[..e]) == nal
  }

  lemma ExtendRun(ps: seq<Packet>, j: nat, t: byte)
    requires 0 < j < |ps| && OneSource(ps) && OpensSet(ps[0].payload, t)
    requires Mode0.Open(ps[..j]) && ContinuesSet(ps, j, t)
    ensures Mode0.FragmentRun(ps[..j + 1])
    ensures Mode0.Rebuilt(ps[..j + 1]) == Mode0.Rebuilt(ps[..j]) + ps[j].payload[2..]
  {
    var longer := ps[..j + 1];
    assert longer == ps[..j] + [ps[j]];
    assert forall k :: 0 <= k < j ==> longer[k] == ps[..j][k];
    assert Mode0.Follows(ps[j - 1], ps[j]);
    assert Mode0.FragmentRun(longer);
    Mode0.RebuiltSnoc(longer);
    assert longer[..j] == ps[..j];
  }

  /** What a successful reassembly consumed: a complete run, every fragment byte, in order. */
  lemma {:induction false} CollectedIsRun(ps: seq<Packet>, j: nat, t: byte, nal: Bytes)
    requires 0 < j <= |ps| && OneSource(ps) && OpensSet(ps[0].payload, t)
    requires Mode0.Open(ps[..j]) && nal == Mode0.Rebuilt(ps[..j])
    requires forall k :: 0 <= k < j ==> SetFragment(ps, k, t)
    requires CollectSet(ps, j, t, nal) != []
    ensures exists e: nat :: j < e <= |ps| && RunOf(ps, e, t, CollectSet(ps, j, t, nal))
    decreases |ps| - j
  {
    ExtendRun(ps, j, t);
    var longer := nal + ps[j].payload[2..];
    assert SetFragment(ps, j, t);
    if EndBit(ps[j].payload[1]) {
      assert RunOf(ps, j + 1, t, longer);
    } else {
      CollectedIsRun(ps, j + 1, t, longer);
    }
  }

  lemma {:induction false} CollectBounded(ps: seq<Packet>, j: nat, t: byte, nal: Bytes)
    requires 0 < j <= |ps| && ps[0].payload != []
    ensures |CollectSet(ps, j, t, nal)| <= MAX_CACHED_FUA
    decreases |ps| - j
  {
    if j < |ps| && ContinuesSet(ps, j, t) && !EndBit(ps[j].payload[1]) {
      CollectBounded(ps, j + 1, t, nal + ps[j].payload[2..]);
    }
  }

  lemma ReassembledIsRun(ps: seq<Packet>, t: byte)
    requires OneSource(ps) && ReassembledSet(ps, t) != []
    ensures exists e: nat :: 1 < e <= |ps| && RunOf(ps, e, t, ReassembledSet(ps, t))
  {
    assert ps[..1] == [ps[0]];
    Mode0.RebuiltOne(ps[..1]);
    CollectedIsRun(ps, 1, t, Mode0.Rebuilt(ps[..1]));
  }

  /**
    The two reassemblers agree: on one source, whatever the cache reassembles is what single-NAL
    mode forwards after the same packets, from any state it was in.
   */
  lemma ReassemblersAgree(ps: seq<Packet>, t: byte, s0: Mode0.State)
    requires OneSource(ps) && ReassembledSet(ps, t) != []
    ensures exists e: nat :: 1 < e <= |ps| && Mode0Forwards(s0, ps[..e], ReassembledSet(ps, t))
  {
    ReassembledIsRun(ps, t);
    var e: nat :| 1 < e <= |ps| && RunOf(ps, e, t, ReassembledSet(ps, t));
    CollectBounded(ps, 1, t, [Mode0.RebuiltHeader(ps[0].payload)] + ps[0].payload[2..]);
    Mode0.RunDeliveredIffWithinLimit(s0, ps[..e]);
    assert Mode0Forwards(s0, ps[..e], ReassembledSet(ps, t));
  }

  predicate Mode0Forwards(s0: Mode0.State, ps: seq<Packet>, nal: Bytes) {
    && ps != []
    && var d := Mode0.LastDecision(s0, ps); d.Reassembled? && d.packet.payload == nal
  }

  /** Fragment j of a run continues the set opened by fragment 0. */
  lemma RunContinues(ps: seq<Packet>, e: nat, j: nat, t: byte)
    requires SetRun(ps, e, t) && 0 < j < e
    ensures ps[0].payload != [] && ContinuesSet(ps, j, t)
    ensures EndBit(ps[j].payload[1]) <==> j == e - 1
  {
    var block := ps[..e];
    assert SetFragment(ps, j, t);
    assert Mode0.Follows(block[j - 1], block[j]);
    assert block[j] == ps[j] && block[j - 1] == ps[j - 1] && block[0] == ps[0];
  }

  lemma CollectNext(ps: seq<Packet>, j: nat, t: byte, nal: Bytes, longer: Bytes)
    requires 0 < j < |ps| && ps[0].payload != [] && ContinuesSet(ps, j, t)
    requires longer == nal + ps[j].payload[2..]
    ensures CollectSet(ps, j, t, nal) ==
      if |longer| > 1200 then []
      else if EndBit(ps[j].payload[1]) then longer
      else CollectSet(ps, j + 1, t, longer)
  {
  }

  lemma RebuiltPart(block: seq<Packet>, j: nat, nal: Bytes)
    requires Mode0.FragmentRun(block) && Mode0.Rebuilt(block) == nal && 0 < j < |block|
    ensures Mode0.Open(block[..j]) && Mode0.FragmentRun(block[..j + 1])
    ensures Mode0.Rebuilt(block[..j + 1]) == Mode0.Rebuilt(block[..j]) + block[j].payload[2..]
    ensures |Mode0.Rebuilt(block[..j + 1])| <= |nal|
  {
    Mode0.OpenPartShrinks(block, j);
    var part := block[..j + 1];
    Mode0.RebuiltSnoc(part);
    assert part[..j] == block[..j] && part[j] == block[j];
    if j + 1 < |block| {
      Mode0.PartsNoLonger(block, j + 1);
    } else {
      assert part == block;
    }
  }

  /** A unit as far as it can be cached: one of more than 1200 bytes cannot. */
  function Cacheable(nal: Bytes): Bytes {
    if |nal| <= 1200 then nal else []
  }

  /** The fragments of a run are collected to what they rebuild to, or not at all when that is too large. */
  lemma {:induction false} RunCollected(ps: seq<Packet>, e: nat, j: nat, t: byte, nal: Bytes)
    requires SetRun(ps, e, t) && 0 < j < e && Mode0.Rebuilt(ps[..e]) == nal && Mode0.FragmentRun(ps[..j])
    requires ps[0].payload != []
    ensures CollectSet(ps, j, t, Mode0.Rebuilt(ps[..j])) == Cacheable(nal)
    decreases e - j
  {
    var block := ps[..e];
    assert block[..j] == ps[..j] && block[..j + 1] == ps[..j + 1] && block[j] == ps[j];
    RunContinues(ps, e, j, t);
    RebuiltPart(block, j, nal);
    CollectNext(ps, j, t, Mode0.Rebuilt(ps[..j]), Mode0.Rebuilt(ps[..j + 1]));
    if j + 1 < e {
      RunCollected(ps, e, j + 1, t, nal);
    }
  }

  lemma RunReassembled(ps: seq<Packet>, e: nat, t: byte)
    requires SetRun(ps, e, t)
    ensures ReassembledSet(ps, t) == Cacheable(Mode0.Rebuilt(ps[..e]))
  {
    var block := ps[..e];
    assert SetFragment(ps, 0, t) && block[0] == ps[0];
    Mode0.OpenPrefix(block, 1);
    assert block[..1] == ps[..1] == [ps[0]];
    Mode0.RebuiltOne(ps[..1]);
    Mode0.PartsNoLonger(block, 1);
    RunCollected(ps, e, 1, t, Mode0.Rebuilt(block));
  }

  /**
    On one source, a set is reassembled if and only if the packets start with a complete run of its fragments
    under one indicator, and it is the unit they rebuild to, of at most 1200 bytes.
   */
  lemma ReassembledIff(ps: seq<Packet>, t: byte, nal: Bytes)
    requires OneSource(ps) && nal != []
    ensures ReassembledSet(ps, t) == nal <==> |nal| <= 1200 && exists e: nat :: e <= |ps| && RunOf(ps, e, t, nal)
  {
    if ReassembledSet(ps, t) == nal {
      ReassembledIsRun(ps, t);
      CollectBounded(ps, 1, t, [Mode0.RebuiltHeader(ps[0].payload)] + ps[0].payload[2..]);
    }
    if e: nat :| e <= |ps| && RunOf(ps, e, t, nal) {
      RunReassembled(ps, e, t);
    }
  }

  lemma FragmentsRun(ps: seq<Packet>, n: nat, nal: Bytes, parts: seq<Bytes>)
    requires 2 <= n <= |ps| && Mode0.Fragments(ps[..n], nal, parts)
    ensures RunOf(ps, n, NalType(nal[0]), nal)
  {
    var block := ps[..n];
    Mode0.FragmentsRebuild(block, nal, parts);
    forall k | 0 <= k < n
      ensures SetFragment(ps, k, NalType(nal[0]))
    {
      assert block[k] == ps[k] && block[0] == ps[0];
      Mode0.FragmentShape(block[k], nal, parts[k], k, n);
      Mode0.FragmentBits(nal[0], k, n);
    }
  }

  lemma FragmentedSetReassembled(ps: seq<Packet>, n: nat, nal: Bytes, parts: seq<Bytes>)
    requires 2 <= n <= |ps| && Mode0.Fragments(ps[..n], nal, parts)
    ensures ReassembledSet(ps, NalType(nal[0])) == Cacheable(nal)
  {
    FragmentsRun(ps, n, nal, parts);
    RunReassembled(ps, n, NalType(nal[0]));
  }

  // ---------------------------------------------------------------- the cache

  /** What one packet, with those after it, says about the set of type t. */
  datatype Find = Nothing | Found(nal: Bytes) | Unusable

  predicate SetType(t: byte) {
    t == SPS || t == PPS
  }

  function FindAt(packets: seq<Packet>, i: nat, t: byte): Find
    requires i < |packets|
  {
    var payload := packets[i].payload;
    if StapA.IsSingleNalType(payload, t) then Found(payload)
    else if payload == [] then Nothing
    else if NalType(payload[0]) == STAP_A then
      var nal := StapA.FirstCacheable(StapA.Units(payload), t);
      if nal == [] then Nothing else Found(nal)
    else if NalType(payload[0]) == FU_A && |payload| >= 2 && StartBit(payload[1]) && NalType(payload[1]) == t then
      var nal := ReassembledSet(packets[i..], t);
      if nal == [] then Unusable else Found(nal)
    else Nothing
  }

  /** The verdict after the first n packets: the latest find, spoiled for good by an unusable one. */
  function Newest(packets: seq<Packet>, t: byte, n: nat): Find
    requires n <= |packets|
  {
    if n == 0 then Nothing
    else
      var before := Newest(packets, t, n - 1);
      if before.Unusable? || FindAt(packets, n - 1, t).Nothing? then before else FindAt(packets, n - 1, t)
  }

  function Updated(current: Bytes, packets: seq<Packet>, t: byte): Bytes {
    match Newest(packets, t, |packets|)
    case Nothing => current
    case Found(nal) => nal
    case Unusable => []
  }

  lemma NewestNext(packets: seq<Packet>, t: byte, n: nat, before: Find, find: Find)
    requires n < |packets| && before == Newest(packets, t, n) && find == FindAt(packets, n, t)
    ensures Newest(packets, t, n + 1) == if before.Unusable? || find.Nothing? then before else find
  {
  }

  lemma {:induction false} UnusableStays(packets: seq<Packet>, t: byte, n: nat, m: nat)
    requires n <= m <= |packets| && Newest(packets, t, n).Unusable?
    ensures Newest(packets, t, m).Unusable?
  {
    if n < m {
      UnusableStays(packets, t, n, m - 1);
      NewestNext(packets, t, m - 1, Newest(packets, t, m - 1), FindAt(packets, m - 1, t));
    }
  }

  method CacheableNalFromPackets(packets: seq<Packet>, nalType: byte)
    returns (nal: Bytes, present: bool, cacheable: bool)
    requires SetType(nalType)
    ensures var f := Newest(packets, nalType, |packets|);
      && present == !f.Nothing? && cacheable == f.Found?
      && nal == if f.Found? then f.nal else []
  {
    nal, present, cacheable := [], false, false;
    for i := 0 to |packets|
      invariant var f := Newest(packets, nalType, i);
        && !f.Unusable? && present == cacheable == f.Found?
        && nal == if f.Found? then f.nal else []
    {
      NewestNext(packets, nalType, i, Newest(packets, nalType, i), FindAt(packets, i, nalType));
      var payload := packets[i].payload;
      if StapA.IsSingleNalType(payload, nalType) {
        nal, present, cacheable := payload, true, true;
        continue;
      }
      if |payload| > 0 && NalType(payload[0]) == STAP_A {
        var candidate := StapA.FindCacheable(payload, nalType);
        if candidate != [] {
          nal, present, cacheable := candidate, true, true;
        }
      }
      if |payload| >= 2 && NalType(payload[0]) == FU_A && StartBit(payload[1]) && NalType(payload[1]) == nalType {
        present := true;
        var reassembled := ReassembleFuaParameterSet(packets[i..], nalType);
        if |reassembled| == 0 {
          UnusableStays(packets, nalType, i + 1, |packets|);
          return [], true, false;
        }
        nal, cacheable := reassembled, true;
      }
    }
  }

  method UpdateCachedNal(current: Bytes, packets: seq<Packet>, nalType: byte) returns (cached: Bytes)
    requires SetType(nalType)
    ensures cached == Updated(current, packets, nalType)
  {
    var nal, present, cacheable := CacheableNalFromPackets(packets, nalType);
    if !present {
      return current;
    }
    if !cacheable {
      return [];
    }
    return nal;
  }

  predicate CachedOk(cached: Bytes, t: byte) {
    cached == [] || (|cached| >= 2 && NalType(cached[0]) == t)
  }

  /** Collecting further fragments keeps the rebuilt header. */
  lemma {:induction false} CollectedKeepsHead(ps: seq<Packet>, j: nat, t: byte, nal: Bytes)
    requires 0 < j <= |ps| && ps[0].payload != [] && |nal| > 1
    ensures var found := CollectSet(ps, j, t, nal); found == [] || (|found| > 1 && found[0] == nal[0])
    decreases |ps| - j
  {
    if j < |ps| && ContinuesSet(ps, j, t) {
      var longer := nal + ps[j].payload[2..];
      assert longer[0] == nal[0];
      CollectedKeepsHead(ps, j + 1, t, longer);
    }
  }

  /** Everything found is a unit of the right type with a body. */
  lemma FindIsSet(packets: seq<Packet>, i: nat, t: byte)
    requires i < |packets| && SetType(t) && FindAt(packets, i, t).Found?
    ensures StapA.IsSingleNalType(FindAt(packets, i, t).nal, t)
  {
    var payload := packets[i].payload;
    if payload != [] && NalType(payload[0]) == STAP_A {
      StapA.CacheableIff(StapA.Units(payload), t);
    } else if !StapA.IsSingleNalType(payload, t) {
      CollectedKeepsHead(packets[i..], 1, t, [Mode0.RebuiltHeader(payload)] + payload[2..]);
    }
  }

  lemma {:induction false} NewestUnusable(packets: seq<Packet>, t: byte, n: nat)
    requires n <= |packets|
    ensures Newest(packets, t, n).Unusable? <==> exists i :: 0 <= i < n && FindAt(packets, i, t).Unusable?
  {
    if n > 0 {
      NewestUnusable(packets, t, n - 1);
    }
  }

  lemma {:induction false} NewestNothing(packets: seq<Packet>, t: byte, n: nat)
    requires n <= |packets|
    ensures Newest(packets, t, n).Nothing? <==> forall i :: 0 <= i < n ==> FindAt(packets, i, t).Nothing?
  {
    if n > 0 {
      NewestNothing(packets, t, n - 1);
    }
  }

  /** Packet i is the last below n that says anything about the type. */
  predicate LastFind(packets: seq<Packet>, t: byte, n: nat, i: int)
    requires n <= |packets|
  {
    0 <= i < n && !FindAt(packets, i, t).Nothing? && forall j :: i < j < n ==> FindAt(packets, j, t).Nothing?
  }

  lemma {:induction false} NewestFound(packets: seq<Packet>, t: byte, n: nat) returns (i: int)
    requires n <= |packets| && Newest(packets, t, n).Found?
    ensures LastFind(packets, t, n, i) && FindAt(packets, i, t) == Newest(packets, t, n)
  {
    if FindAt(packets, n - 1, t).Nothing? {
      i := NewestFound(packets, t, n - 1);
    } else {
      i := n - 1;
    }
  }

  /** The verdict, stated without the recursion: the last find wins unless any find is unusable. */
  lemma NewestMeaning(packets: seq<Packet>, t: byte, n: nat)
    requires n <= |packets|
    ensures Newest(packets, t, n).Unusable? <==> exists i :: 0 <= i < n && FindAt(packets, i, t).Unusable?
    ensures Newest(packets, t, n).Nothing? <==> forall i :: 0 <= i < n ==> FindAt(packets, i, t).Nothing?
    ensures Newest(packets, t, n).Found? ==>
      exists i :: LastFind(packets, t, n, i) && FindAt(packets, i, t) == Newest(packets, t, n)
  {
    NewestUnusable(packets, t, n);
    NewestNothing(packets, t, n);
    if Newest(packets, t, n).Found? {
      var i := NewestFound(packets, t, n);
    }
  }

  lemma UpdatedIsSet(current: Bytes, packets: seq<Packet>, t: byte)
    requires SetType(t) && CachedOk(current, t)
    ensures CachedOk(Updated(current, packets, t), t)
  {
    var f := Newest(packets, t, |packets|);
    NewestMeaning(packets, t, |packets|);
    if f.Found? {
      var i :| 0 <= i < |packets| && FindAt(packets, i, t) == f;
      FindIsSet(packets, i, t);
    }
  }

  /** When only one packet says anything, that is the verdict. */
  lemma {:induction false} OneFind(packets: seq<Packet>, t: byte, i: nat, n: nat)
    requires i < |packets| && n <= |packets|
    requires forall j :: 0 <= j < |packets| && j != i ==> FindAt(packets, j, t).Nothing?
    ensures Newest(packets, t, n) == if i < n then FindAt(packets, i, t) else Nothing
  {
    if n > 0 {
      OneFind(packets, t, i, n - 1);
    }
  }

  /**
    What a packet says nothing about: it is no set of the type with a body, aggregates none, and does not start
    fragments of one.
   */
  lemma SilentIff(packets: seq<Packet>, i: nat, t: byte)
    requires i < |packets| && SetType(t)
    ensures var payload := packets[i].payload;
      FindAt(packets, i, t).Nothing? <==>
        || payload == []
        || (NalType(payload[0]) == t && |payload| < 2)
        || (NalType(payload[0]) == 24 &&
            forall nal :: nal in StapA.Units(payload) ==> !(|nal| >= 2 && NalType(nal[0]) == t))
        || (NalType(payload[0]) == 28 && !(|payload| >= 2 && StartBit(payload[1]) && NalType(payload[1]) == t))
        || NalType(payload[0]) !in {t, 24, 28}
  {
    StapA.CacheableIff(StapA.Units(packets[i].payload), t);
  }

  /** A set in a packet of its own, in an access unit that otherwise says nothing, is what the cache then holds. */
  lemma PlainSetCached(current: Bytes, packets: seq<Packet>, i: nat, t: byte)
    requires i < |packets| && SetType(t) && |packets[i].payload| >= 2 && NalType(packets[i].payload[0]) == t
    requires forall j :: 0 <= j < |packets| && j != i ==> FindAt(packets, j, t).Nothing?
    ensures Updated(current, packets, t) == packets[i].payload
  {
    OneFind(packets, t, i, |packets|);
  }

  /** So is the first of its type in an aggregate. */
  lemma AggregatedSetCached(current: Bytes, packets: seq<Packet>, i: nat, t: byte, indicator: byte,
                            nals: seq<Bytes>, k: nat)
    requires i < |packets| && SetType(t) && NalType(indicator) == 24 && StapA.Aggregable(nals)
    requires packets[i].payload == [indicator] + StapA.Aggregate(nals)
    requires k < |nals| && |nals[k]| >= 2 && NalType(nals[k][0]) == t
    requires forall m :: 0 <= m < k ==> !(|nals[m]| >= 2 && NalType(nals[m][0]) == t)
    requires forall j :: 0 <= j < |packets| && j != i ==> FindAt(packets, j, t).Nothing?
    ensures Updated(current, packets, t) == nals[k]
  {
    StapA.ReadersAgree(indicator, nals);
    StapA.CacheableFirst(nals, t, k);
    OneFind(packets, t, i, |packets|);
  }

  /** The first fragment speaks for the whole unit, the others say nothing. */
  lemma FragmentFinds(packets: seq<Packet>, i: nat, n: nat, nal: Bytes, parts: seq<Bytes>, j: nat)
    requires 2 <= n && i + n <= |packets| && Mode0.Fragments(packets[i..i + n], nal, parts) && i <= j < i + n
    requires SetType(NalType(nal[0]))
    ensures FindAt(packets, j, NalType(nal[0])) ==
      if j > i then Nothing else if |nal| <= 1200 then Found(nal) else Unusable
  {
    var ps, block := packets[i..], packets[i..i + n];
    assert ps[..n] == block && packets[j] == block[j - i];
    Mode0.FragmentShape(block[j - i], nal, parts[j - i], j - i, n);
    Mode0.FragmentBits(nal[0], j - i, n);
    if j == i {
      FragmentedSetReassembled(ps, n, nal, parts);
    }
  }

  /**
    Fragmenting a parameter set over two or more packets anywhere in an access unit that otherwise says
    nothing about that type leaves the cache holding exactly it, or nothing when it exceeds 1200 bytes.
   */
  lemma FragmentedSetCached(current: Bytes, packets: seq<Packet>, i: nat, n: nat, nal: Bytes, parts: seq<Bytes>)
    requires 2 <= n && i + n <= |packets| && Mode0.Fragments(packets[i..i + n], nal, parts)
    requires SetType(NalType(nal[0]))
    requires forall j :: 0 <= j < |packets| && !(i <= j < i + n) ==> FindAt(packets, j, NalType(nal[0])).Nothing?
    ensures Updated(current, packets, NalType(nal[0])) == Cacheable(nal)
  {
    forall j | 0 <= j < |packets| && j != i
      ensures FindAt(packets, j, NalType(nal[0])).Nothing?
    {
      if i <= j < i + n {
        FragmentFinds(packets, i, n, nal, parts, j);
      }
    }
    FragmentFinds(packets, i, n, nal, parts, i);
    OneFind(packets, NalType(nal[0]), i, |packets|);
  }
}
