/**
  What the normalizer looks for inside the packets of one H.264 access unit: that every payload is
  one it forwards and that FU-A units open and close inside the access unit, and which parameter
  sets and slices the packets carry.
 */
module AccessUnits {
  import opened Rtp
  import StapA

  // ---------------------------------------------------------------- payload checks

  /** The FU-A unit left open by the payloads seen so far. */
  datatype Fu = Shut | Opened(nalType: byte)

  datatype FuResult = Reject | Continue(fu: Fu)

  predicate PlainType(t: byte) {
    t == 1 || 5 <= t <= 12
  }

  function ObserveFragment(fu: Fu, payload: Bytes): FuResult
    requires |payload| >= 3
  {
    var h := payload[1];
    var t := NalType(h);
    if t == 0 || t >= 24 || (StartBit(h) && EndBit(h)) then Reject
    else if StartBit(h) then (if fu.Opened? then Reject else Continue(Opened(t)))
    else if fu != Opened(t) then Reject
    else Continue(if EndBit(h) then Shut else fu)
  }

  /** One payload, given the open unit before it. */
  function Observe(fu: Fu, payload: Bytes): FuResult {
    if payload == [] then Reject
    else if PlainType(NalType(payload[0])) then (if fu.Opened? then Reject else Continue(fu))
    else if NalType(payload[0]) == STAP_A then
      (if fu.Opened? || !StapA.WellFormed(payload) then Reject else Continue(fu))
    else if NalType(payload[0]) == FU_A && |payload| >= 3 then ObserveFragment(fu, payload)
    else Reject
  }

  /** All payloads in order. */
  function Scan(packets: seq<Packet>): FuResult {
    if packets == [] then Continue(Shut)
    else
      match Scan(packets[..|packets| - 1])
      case Reject => Reject
      case Continue(fu) => Observe(fu, packets[|packets| - 1].payload)
  }

  /** packets[s..=e] are the fragments of one unit: started at s, ended at e, one type, nothing else between. */
  predicate FuBlock(packets: seq<Packet>, s: nat, e: nat) {
    && s < e < |packets| && |packets[s].payload| >= 3
    && var t := NalType(packets[s].payload[1]);
       forall k :: s <= k <= e ==> FragmentOf(packets[k].payload, t, k == s, k == e)
  }

  predicate FragmentOf(payload: Bytes, t: byte, start: bool, end: bool) {
    && |payload| >= 3 && NalType(payload[0]) == FU_A && 0 < t < 24
    && NalType(payload[1]) == t && StartBit(payload[1]) == start && EndBit(payload[1]) == end
  }

  predicate OpenBlock(packets: seq<Packet>, s: nat, t: byte) {
    && s < |packets|
    && forall k :: s <= k < |packets| ==> FragmentOf(packets[k].payload, t, k == s, false)
  }

  /** Every packet below n is forwardable on its own, or a fragment inside some complete block below n. */
  predicate AllForwardable(packets: seq<Packet>, n: nat)
    requires n <= |packets|
  {
    forall i :: 0 <= i < n ==>
      packets[i].payload != [] &&
      var t := NalType(packets[i].payload[0]);
      || t == 1 || 5 <= t <= 12
      || (t == STAP_A && StapA.WellFormed(packets[i].payload))
      || (t == FU_A && InBlock(packets, i, n))
  }

  predicate InBlock(packets: seq<Packet>, i: nat, n: nat) {
    exists s: nat, e: nat :: s <= i <= e < n && FuBlock(packets, s, e)
  }

  lemma ForwardableSnoc(front: seq<Packet>, p: Packet, n: nat)
    requires n <= |front| && AllForwardable(front, n)
    ensures AllForwardable(front + [p], n)
  {
    var packets := front + [p];
    forall i | 0 <= i < n && InBlock(front, i, n)
      ensures InBlock(packets, i, n)
    {
      var s: nat, e: nat :| s <= i <= e < n && FuBlock(front, s, e);
      assert FuBlock(packets, s, e);
    }
  }

  /** One payload after complete blocks: it is complete itself, or opens a block. */
  lemma ScanAfterShut(front: seq<Packet>, p: Packet, packets: seq<Packet>, fu: Fu)
    requires packets == front + [p] && AllForwardable(front, |front|) && Observe(Shut, p.payload) == Continue(fu)
    ensures fu.Shut? ==> AllForwardable(packets, |packets|)
    ensures fu.Opened? ==> OpenBlock(packets, |front|, fu.nalType) && AllForwardable(packets, |front|)
  {
    ForwardableSnoc(front, p, |front|);
  }

  /** One payload after an open block: it goes on with it, or closes it. */
  lemma ScanAfterOpened(front: seq<Packet>, p: Packet, packets: seq<Packet>, s: nat, t: byte, fu: Fu)
    requires packets == front + [p] && OpenBlock(front, s, t) && AllForwardable(front, s)
    requires Observe(Opened(t), p.payload) == Continue(fu)
    ensures fu.Shut? ==> AllForwardable(packets, |packets|)
    ensures fu.Opened? ==> OpenBlock(packets, s, fu.nalType) && AllForwardable(packets, s)
  {
    ForwardableSnoc(front, p, s);
    if fu.Shut? {
      ClosedBlock(front, p, packets, s, t);
      BlockCloses(packets, s);
    } else {
      LongerBlock(front, p, packets, s, t);
    }
  }

  lemma ClosedBlock(front: seq<Packet>, p: Packet, packets: seq<Packet>, s: nat, t: byte)
    requires packets == front + [p] && OpenBlock(front, s, t) && FragmentOf(p.payload, t, false, true)
    ensures FuBlock(packets, s, |front|)
  {
    assert packets[s] == front[s] && packets[|front|] == p;
    forall k | s <= k <= |front|
      ensures FragmentOf(packets[k].payload, t, k == s, k == |front|)
    {
    }
  }

  lemma LongerBlock(front: seq<Packet>, p: Packet, packets: seq<Packet>, s: nat, t: byte)
    requires packets == front + [p] && OpenBlock(front, s, t) && FragmentOf(p.payload, t, false, false)
    ensures OpenBlock(packets, s, t)
  {
  }

  /** What an accepted scan means: complete blocks, and at most one open block at the end. */
  lemma {:induction false} ScanMeaning(packets: seq<Packet>)
    requires Scan(packets).Continue?
    ensures Scan(packets).fu.Shut? ==> AllForwardable(packets, |packets|)
    ensures Scan(packets).fu.Opened? ==>
      exists s: nat :: OpenBlock(packets, s, Scan(packets).fu.nalType) && AllForwardable(packets, s)
    decreases |packets|
  {
    if packets != [] {
      var front, p := packets[..|packets| - 1], packets[|packets| - 1];
      ScanMeaning(front);
      var before, after := Scan(front).fu, Scan(packets).fu;
      if before.Shut? {
        ScanAfterShut(front, p, packets, after);
      } else {
        var s: nat :| OpenBlock(front, s, before.nalType) && AllForwardable(front, s);
        ScanAfterOpened(front, p, packets, s, before.nalType, after);
      }
    }
  }

  lemma BlockCloses(packets: seq<Packet>, s: nat)
    requires packets != [] && FuBlock(packets, s, |packets| - 1) && AllForwardable(packets, s)
    ensures AllForwardable(packets, |packets|)
  {
    var n := |packets|;
    forall i | 0 <= i < n && NalType(packets[i].payload[0]) == FU_A
      ensures InBlock(packets, i, n)
    {
      if i < s {
        var a: nat, b: nat :| a <= i <= b < s && FuBlock(packets, a, b);
      }
    }
  }

  ghost predicate Straddles(packets: seq<Packet>, s: nat, e: nat, j: nat) {
    s < j <= e && FuBlock(packets, s, e)
  }

  /** No unit started before j goes on at j. */
  ghost predicate CleanCut(packets: seq<Packet>, j: nat) {
    forall s: nat, e: nat :: !Straddles(packets, s, e, j)
  }

  /** Scanning part of a forwardable sequence: open exactly when some block straddles the cut. */
  ghost predicate ScanAtCut(packets: seq<Packet>, j: nat)
    requires j <= |packets|
  {
    || (Scan(packets[..j]) == Continue(Shut) && CleanCut(packets, j))
    || (exists s: nat, e: nat :: Straddles(packets, s, e, j) &&
          Scan(packets[..j]) == Continue(Opened(NalType(packets[s].payload[1]))))
  }

  /** A fragment right after no open block starts the next one. */
  lemma CutBeforeBlock(packets: seq<Packet>, j: nat) returns (e: nat)
    requires j < |packets| && InBlock(packets, j, |packets|) && CleanCut(packets, j)
    ensures Straddles(packets, j, e, j + 1)
    ensures Observe(Shut, packets[j].payload) == Continue(Opened(NalType(packets[j].payload[1])))
  {
    var s: nat;
    s, e :| s <= j <= e < |packets| && FuBlock(packets, s, e);
    assert !Straddles(packets, s, e, j);
  }

  /** A packet that is no fragment, right after no open block, opens none. */
  lemma CutBeforePlain(packets: seq<Packet>, j: nat)
    requires j < |packets| && packets[j].payload != [] && NalType(packets[j].payload[0]) != FU_A
    requires CleanCut(packets, j)
    ensures CleanCut(packets, j + 1)
  {
    forall s: nat, e: nat {:trigger Straddles(packets, s, e, j + 1)}
      ensures !Straddles(packets, s, e, j + 1)
    {
      assert !Straddles(packets, s, e, j);
    }
  }

  /** Inside a block, the next fragment goes on with it, or ends it and leaves none open. */
  lemma CutInsideBlock(packets: seq<Packet>, s: nat, e: nat, j: nat)
    requires Straddles(packets, s, e, j)
    ensures var t := NalType(packets[s].payload[1]);
      Observe(Opened(t), packets[j].payload) == Continue(if j < e then Opened(t) else Shut)
    ensures j < e ==> Straddles(packets, s, e, j + 1)
    ensures j == e ==> CleanCut(packets, j + 1)
  {
    assert FragmentOf(packets[j].payload, NalType(packets[s].payload[1]), false, j == e);
  }

  lemma CutStep(packets: seq<Packet>, j: nat)
    requires j < |packets| && AllForwardable(packets, |packets|) && ScanAtCut(packets, j)
    ensures ScanAtCut(packets, j + 1)
  {
    assert packets[..j + 1][..j] == packets[..j];
    if s: nat, e: nat :| Straddles(packets, s, e, j) {
      CutInsideOpen(packets, j);
    } else {
      CutOutside(packets, j);
    }
  }

  lemma CutInsideOpen(packets: seq<Packet>, j: nat)
    requires j < |packets| && ScanAtCut(packets, j) && packets[..j + 1][..j] == packets[..j]
    requires exists s: nat, e: nat :: Straddles(packets, s, e, j)
    ensures ScanAtCut(packets, j + 1)
  {
    var s: nat, e: nat :| Straddles(packets, s, e, j) &&
      Scan(packets[..j]) == Continue(Opened(NalType(packets[s].payload[1])));
    CutInsideBlock(packets, s, e, j);
  }

  lemma CutOutside(packets: seq<Packet>, j: nat)
    requires j < |packets| && AllForwardable(packets, |packets|) && packets[..j + 1][..j] == packets[..j]
    requires Scan(packets[..j]) == Continue(Shut) && CleanCut(packets, j)
    ensures ScanAtCut(packets, j + 1)
  {
    if NalType(packets[j].payload[0]) == FU_A {
      var e := CutBeforeBlock(packets, j);
    } else {
      CutBeforePlain(packets, j);
    }
  }

  lemma {:induction false} ForwardablePrefix(packets: seq<Packet>, j: nat)
    requires j <= |packets| && AllForwardable(packets, |packets|)
    ensures ScanAtCut(packets, j)
  {
    if j > 0 {
      ForwardablePrefix(packets, j - 1);
      CutStep(packets, j - 1);
    }
  }

  /**
    The one-pass scan accepts with nothing left open exactly when every payload is forwardable and
    every FU-A unit is opened, continued with the same type and closed, with nothing interleaved.
   */
  lemma ScanAcceptsIffForwardable(packets: seq<Packet>)
    ensures Scan(packets) == Continue(Shut) <==> AllForwardable(packets, |packets|)
  {
    if Scan(packets) == Continue(Shut) {
      ScanMeaning(packets);
    }
    if AllForwardable(packets, |packets|) {
      ForwardablePrefix(packets, |packets|);
      assert packets[..|packets|] == packets;
    }
  }

  // ---------------------------------------------------------------- cutting off the head

  /** A block that starts at or after the cut is a block of what is left, and the other way round. */
  lemma BlockShift(packets: seq<Packet>, k: nat, s: nat, e: nat)
    requires k <= |packets|
    ensures FuBlock(packets[k..], s, e) <==> FuBlock(packets, k + s, k + e)
  {
    var rest := packets[k..];
    if FuBlock(rest, s, e) {
      forall i | k + s <= i <= k + e
        ensures FragmentOf(packets[i].payload, NalType(packets[k + s].payload[1]), i == k + s, i == k + e)
      {
        assert packets[i] == rest[i - k];
      }
    }
    if FuBlock(packets, k + s, k + e) {
      forall i | s <= i <= e
        ensures FragmentOf(rest[i].payload, NalType(rest[s].payload[1]), i == s, i == e)
      {
        assert rest[i] == packets[k + i];
      }
    }
  }

  lemma HeadOfBlock(packets: seq<Packet>)
    requires packets != [] && InBlock(packets, 0, |packets|)
    ensures |packets[0].payload| >= 3 && StartBit(packets[0].payload[1])
  {
    var b: nat :| 0 <= b < |packets| && FuBlock(packets, 0, b);
    assert FragmentOf(packets[0].payload, NalType(packets[0].payload[1]), true, false);
  }

  /** The packet at the cut continues a unit that started before it. */
  lemma StraddledContinues(packets: seq<Packet>, k: nat, s: nat, e: nat)
    requires k < |packets| && Straddles(packets, s, e, k)
    ensures var p := packets[k].payload; |p| >= 3 && NalType(p[0]) == FU_A && !StartBit(p[1])
  {
  }

  lemma InBlockShift(packets: seq<Packet>, k: nat, i: nat)
    requires k <= i < |packets| && InBlock(packets, i, |packets|)
    requires CleanCut(packets, k)
    ensures InBlock(packets[k..], i - k, |packets| - k)
  {
    var s: nat, e: nat :| s <= i <= e < |packets| && FuBlock(packets, s, e);
    assert !Straddles(packets, s, e, k);
    BlockShift(packets, k, s - k, e - k);
  }

  /** What is left of forwardable packets is forwardable exactly when the cut is not inside an FU-A unit. */
  lemma HeadCutForwardableIff(packets: seq<Packet>, k: nat)
    requires k < |packets| && AllForwardable(packets, |packets|)
    ensures AllForwardable(packets[k..], |packets| - k) <==> CleanCut(packets, k)
  {
    var rest := packets[k..];
    if s: nat, e: nat :| Straddles(packets, s, e, k) {
      StraddledContinues(packets, k, s, e);
      assert rest[0] == packets[k];
      if AllForwardable(rest, |rest|) {
        HeadOfBlock(rest);
        assert false;
      }
    } else {
      forall i | 0 <= i < |rest|
        ensures rest[i] == packets[k + i]
        ensures InBlock(packets, k + i, |packets|) ==> InBlock(rest, i, |rest|)
      {
        if InBlock(packets, k + i, |packets|) {
          InBlockShift(packets, k, k + i);
        }
      }
    }
  }

  // ---------------------------------------------------------------- what the packets carry

  /** The packet carries, or starts, a NAL unit of type t. */
  predicate Carries(p: Packet, t: byte) {
    p.payload != [] &&
    var first := NalType(p.payload[0]);
    || first == t
    || (first == STAP_A && StapA.WellFormed(p.payload) && StapA.HasType(StapA.Units(p.payload), t))
    || (first == FU_A && |p.payload| > 1 && StartBit(p.payload[1]) && NalType(p.payload[1]) == t)
  }

  predicate AnyCarries(packets: seq<Packet>, t: byte) {
    exists i :: 0 <= i < |packets| && Carries(packets[i], t)
  }

  /** A packet that is one NAL unit of type t, or aggregates one. */
  ghost predicate WholeIn(p: Packet, t: byte) {
    && p.payload != []
    && (|| NalType(p.payload[0]) == t
        || (NalType(p.payload[0]) == 24 && exists nals: seq<Bytes> :: Aggregates(p.payload, nals, t)))
  }

  predicate Aggregates(payload: Bytes, nals: seq<Bytes>, t: byte) {
    && payload != [] && StapA.Aggregable(nals) && payload[1..] == StapA.Aggregate(nals)
    && exists nal :: nal in nals && NalType(nal[0]) == t
  }

  /** A NAL unit of type t cut into the fragments from s to e. */
  predicate CutFrom(packets: seq<Packet>, s: nat, e: nat, t: byte) {
    FuBlock(packets, s, e) && NalType(packets[s].payload[1]) == t
  }

  lemma WholeCarried(p: Packet, t: byte)
    requires 0 < t < 24 && WholeIn(p, t)
    ensures Carries(p, t)
  {
    if NalType(p.payload[0]) == 24 {
      var nals: seq<Bytes> :| Aggregates(p.payload, nals, t);
      StapA.ReadersAgree(p.payload[0], nals);
      assert p.payload == [p.payload[0]] + StapA.Aggregate(nals);
    }
  }

  lemma CarriedWhole(p: Packet, t: byte)
    requires 0 < t < 24 && Carries(p, t) && NalType(p.payload[0]) != 28
    ensures WholeIn(p, t)
  {
    if NalType(p.payload[0]) == 24 {
      StapA.WalkExact(p.payload, 1);
      assert Aggregates(p.payload, StapA.Units(p.payload), t);
    }
  }

  /** In a forwardable access unit, the first fragment of a type starts a complete unit of that type. */
  lemma CarriedCut(packets: seq<Packet>, i: nat, t: byte) returns (e: nat)
    requires AllForwardable(packets, |packets|) && i < |packets|
    requires Carries(packets[i], t) && NalType(packets[i].payload[0]) == 28 && t < 24
    ensures CutFrom(packets, i, e, t)
  {
    assert InBlock(packets, i, |packets|);
    var s: nat;
    s, e :| s <= i <= e < |packets| && FuBlock(packets, s, e);
    assert FragmentOf(packets[i].payload, NalType(packets[s].payload[1]), i == s, i == e);
  }

  /**
    A complete access unit is found to carry a type exactly when it holds a whole NAL unit of that type: in a
    packet of its own, in an aggregate, or cut into fragments.
   */
  lemma CarriesIffHolds(packets: seq<Packet>, t: byte)
    requires AllForwardable(packets, |packets|) && 0 < t < 24
    ensures AnyCarries(packets, t) <==>
      || (exists i :: 0 <= i < |packets| && WholeIn(packets[i], t))
      || (exists s: nat, e: nat :: s < |packets| && CutFrom(packets, s, e, t))
  {
    if AnyCarries(packets, t) {
      var i :| 0 <= i < |packets| && Carries(packets[i], t);
      if NalType(packets[i].payload[0]) == 28 {
        var e := CarriedCut(packets, i, t);
      } else {
        CarriedWhole(packets[i], t);
      }
    }
    if i :| 0 <= i < |packets| && WholeIn(packets[i], t) {
      WholeCarried(packets[i], t);
    }
    if s: nat, e: nat :| s < |packets| && CutFrom(packets, s, e, t) {
      assert FragmentOf(packets[s].payload, t, true, false);
      assert Carries(packets[s], t);
    }
  }

  /** The check of each payload; the open unit is left alone when it fails. */
  method ObservePayload(payload: Bytes, fu: Fu) returns (ok: bool, open: Fu)
    ensures var r := Observe(fu, payload);
      ok == r.Continue? && open == if ok then r.fu else fu
  {
    ok, open := false, fu;
    if |payload| == 0 {
      return;
    }
    var first := NalType(payload[0]);
    if PlainType(first) {
      ok := fu.Shut?;
    } else if first == STAP_A {
      if fu.Shut? {
        var hasSPS, hasPPS, isIDR;
        hasSPS, hasPPS, isIDR, ok := StapA.InspectStapA(payload);
      }
    } else if first == FU_A {
      if |payload| < 3 {
        return;
      }
      var start, end, fragmentType := StartBit(payload[1]), EndBit(payload[1]), NalType(payload[1]);
      if fragmentType == 0 || fragmentType >= 24 || (start && end) {
        return;
      }
      if start {
        if fu.Opened? {
          return;
        }
        return true, Opened(fragmentType);
      }
      if fu != Opened(fragmentType) {
        return;
      }
      ok := true;
      if end {
        open := Shut;
      }
    }
  }

  method InspectAccessUnit(packets: seq<Packet>) returns (hasSPS: bool, hasPPS: bool, isIDR: bool)
    ensures hasSPS == AnyCarries(packets, 7) && hasPPS == AnyCarries(packets, 8) && isIDR == AnyCarries(packets, 5)
  {
    hasSPS, hasPPS, isIDR := false, false, false;
    for i := 0 to |packets|
      invariant hasSPS == exists j :: 0 <= j < i && Carries(packets[j], 7)
      invariant hasPPS == exists j :: 0 <= j < i && Carries(packets[j], 8)
      invariant isIDR == exists j :: 0 <= j < i && Carries(packets[j], 5)
    {
      var payload := packets[i].payload;
      if |payload| == 0 {
        continue;
      }
      var sps, pps, idr := false, false, false;
      var first := NalType(payload[0]);
      if first == STAP_A {
        var valid;
        sps, pps, idr, valid := StapA.InspectStapA(payload);
      } else {
        var t := if first == FU_A then
                   (if |payload| > 1 && StartBit(payload[1]) then NalType(payload[1]) else 0)
                 else first;
        sps, pps, idr := t == 7, t == 8, t == 5;
      }
      assert sps == Carries(packets[i], 7) && pps == Carries(packets[i], 8) && idr == Carries(packets[i], 5);
      hasSPS, hasPPS, isIDR := hasSPS || sps, hasPPS || pps, isIDR || idr;
    }
  }
}
