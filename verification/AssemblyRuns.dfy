/**
  What the normalizer emits over whole runs: which packets make up an emitted access unit, when a
  sent access unit is emitted, and what the assembly retains and counts.
 */
module AssemblyRuns {
  import opened Rtp
  import opened AccessUnits
  import opened Outbound
  import opened Normalizer
  import Injection
  import PS = ParameterSets

  function StateAfter(c: Config, es: seq<Event>): State {
    if es == [] then INIT
    else Do(c, StateAfter(c, es[..|es| - 1]), es[|es| - 1])
  }

  /** The state the last event of a run was applied to. */
  function StateBefore(c: Config, es: seq<Event>): State
    requires es != []
  {
    StateAfter(c, es[..|es| - 1])
  }

  /** The packets with a payload pushed since the source was last reset. */
  function Recent(es: seq<Event>): seq<Packet> {
    if es == [] then []
    else
      var front := Recent(es[..|es| - 1]);
      match es[|es| - 1]
      case Push(p, _) => if p.payload == [] then front else front + [p]
      case Drain => []
      case ResetSource => []
      case ResetForStreamSwitch(_, _) => []
      case _ => front
  }

  function Tail(ps: seq<Packet>, k: nat): seq<Packet>
    requires k <= |ps|
  {
    ps[|ps| - k..]
  }

  predicate OneTimestamp(ps: seq<Packet>, ts: u32) {
    forall i :: 0 <= i < |ps| ==> ps[i].timestamp == ts
  }

  predicate UnmarkedBeforeLast(ps: seq<Packet>) {
    forall i :: 0 <= i < |ps| - 1 ==> !ps[i].marker
  }

  /** One timestamp, consecutive sequence numbers, no marker before the last packet. */
  predicate Coherent(ps: seq<Packet>, ts: u32) {
    OneTimestamp(ps, ts) && Consecutive(ps) && UnmarkedBeforeLast(ps)
  }

  // ---------------------------------------------------------------- an emitted access unit is a block

  /** A usable open access unit is exactly the tail of the recent packets, checked so far. */
  predicate Tracks(a: Assembly, recent: seq<Packet>) {
    a.haveAU && !a.invalid ==>
      && a.packets != [] && |a.packets| <= |recent| && a.packets == Tail(recent, |a.packets|)
      && Coherent(a.packets, a.sourceTS)
      && a.haveLastSeq && a.lastSeq == a.packets[|a.packets| - 1].seqNo
      && Scan(a.packets) == Continue(a.fu)
  }

  predicate OpenTracks(a: Assembly, recent: seq<Packet>) {
    Tracks(a, recent) && (a.haveAU && !a.invalid ==> !a.packets[|a.packets| - 1].marker)
  }

  lemma TailSnoc(ps: seq<Packet>, p: Packet, k: nat)
    requires k <= |ps|
    ensures Tail(ps + [p], k + 1) == Tail(ps, k) + [p]
  {
  }

  lemma ScanSnoc(ps: seq<Packet>, p: Packet, fu: Fu)
    requires Scan(ps) == Continue(fu)
    ensures Scan(ps + [p]) == Observe(fu, p.payload)
  {
    assert (ps + [p])[..|ps|] == ps;
  }

  lemma CoherentSnoc(ps: seq<Packet>, p: Packet, ts: u32)
    requires ps != [] && Coherent(ps, ts) && !ps[|ps| - 1].marker
    requires p.timestamp == ts && p.seqNo == NextSeq(ps[|ps| - 1].seqNo)
    ensures Coherent(ps + [p], ts)
  {
  }

  lemma AbsorbTracks(c: Config, a: Assembly, recent: seq<Packet>, p: Packet, now: Time)
    requires OpenTracks(a, recent)
    ensures Tracks(Assembled(c, a, p, now), recent + [p])
  {
    var o, b := OpenFor(c, a, p, now), Assembled(c, a, p, now);
    if !b.invalid {
      TailSnoc(recent, p, |o.packets|);
      ScanSnoc(o.packets, p, o.fu);
      if o.packets != [] {
        CoherentSnoc(o.packets, p, o.sourceTS);
      }
    }
  }

  lemma PushTracks(c: Config, a: Assembly, recent: seq<Packet>, p: Packet, now: Time)
    requires OpenTracks(a, recent) && p.payload != []
    ensures OpenTracks(PushAssembly(c, a, p, now), recent + [p])
  {
    AbsorbTracks(c, a, recent, p, now);
    var b := Assembled(c, a, p, now);
    if !p.marker && !b.invalid {
      assert b.packets[|b.packets| - 1] == p;
    }
  }

  lemma ClearTracks(a: Assembly, recent: seq<Packet>)
    ensures OpenTracks(Clear(a), recent)
  {
  }

  /** Only a push with a payload, and the three resets, touch the assembly. */
  lemma EventOnAssembly(c: Config, s: State, e: Event)
    ensures Do(c, s, e).asm ==
      if e.Push? then PushAssembly(c, s.asm, e.packet, e.now)
      else if e.Drain? || e.ResetSource? || e.ResetForStreamSwitch? then Clear(s.asm)
      else s.asm
  {
  }

  lemma {:induction false} AssemblyTracks(c: Config, es: seq<Event>)
    ensures OpenTracks(StateAfter(c, es).asm, Recent(es))
    decreases |es|
  {
    if es != [] {
      var s, e := StateBefore(c, es), es[|es| - 1];
      AssemblyTracks(c, es[..|es| - 1]);
      EventOnAssembly(c, s, e);
      if e.Push? && e.packet.payload != [] {
        PushTracks(c, s.asm, Recent(es[..|es| - 1]), e.packet, e.now);
      } else {
        ClearTracks(s.asm, []);
      }
    }
  }

  /** A complete access unit: one timestamp, consecutive, marked on its last packet only, all forwardable. */
  predicate WellFormedUnit(raw: seq<Packet>) {
    && raw != []
    && OneTimestamp(raw, raw[0].timestamp)
    && Consecutive(raw)
    && Injection.MarkedLast(raw)
    && AllForwardable(raw, |raw|)
  }

  lemma CompletedIsBlock(c: Config, a: Assembly, recent: seq<Packet>, p: Packet, now: Time, b: Assembly)
    requires OpenTracks(a, recent) && Completes(c, a, p, now) && b == Assembled(c, a, p, now)
    ensures |b.packets| <= |recent + [p]| && b.packets == Tail(recent + [p], |b.packets|)
    ensures WellFormedUnit(b.packets) && b.sourceTS == b.packets[0].timestamp
  {
    AbsorbTracks(c, a, recent, p, now);
    AbsorbedLast(c, a, p, now);
    ScanAcceptsIffForwardable(b.packets);
  }

  lemma AbsorbedLast(c: Config, a: Assembly, p: Packet, now: Time)
    ensures var b := Assembled(c, a, p, now);
      b.haveAU && (!b.invalid ==> b.packets != [] && b.packets[|b.packets| - 1] == p)
  {
  }

  /**
    Whenever an access unit is emitted, the packets it was assembled from are the last ones pushed
    since the source was reset, without a gap, and they form a complete access unit.
   */
  lemma EmittedIsRecentBlock(c: Config, es: seq<Event>)
    requires es != [] && Emits(c, StateBefore(c, es), es[|es| - 1]).Some?
    ensures var e := es[|es| - 1];
      var raw := Assembled(c, StateBefore(c, es).asm, e.packet, e.now).packets;
      && |raw| <= |Recent(es)| && raw == Tail(Recent(es), |raw|)
      && WellFormedUnit(raw)
      && Emits(c, StateBefore(c, es), e).value.sourceTimestamp == raw[0].timestamp
  {
    AssemblyTracks(c, es[..|es| - 1]);
    var s, e := StateBefore(c, es), es[|es| - 1];
    CompletedIsBlock(c, s.asm, Recent(es[..|es| - 1]), e.packet, e.now, Assembled(c, s.asm, e.packet, e.now));
  }

  // ---------------------------------------------------------------- when a sent access unit is emitted

  /** The assembly after the first j of the packets, packet i arriving at times[i]. */
  function PushAll(c: Config, a: Assembly, raw: seq<Packet>, times: seq<Time>, j: nat): Assembly
    requires j <= |raw| == |times|
  {
    if j == 0 then a
    else PushAssembly(c, PushAll(c, a, raw, times, j - 1), raw[j - 1], times[j - 1])
  }

  function TotalSize(ps: seq<Packet>): nat {
    if ps == [] then 0 else TotalSize(ps[..|ps| - 1]) + MarshalSize(ps[|ps| - 1])
  }

  predicate WithinLimits(c: Config, ps: seq<Packet>) {
    |ps| <= c.maxPackets && TotalSize(ps) <= c.maxBytes
  }

  predicate Good(c: Config, ps: seq<Packet>) {
    Consecutive(ps) && Scan(ps).Continue? && WithinLimits(c, ps)
  }

  /** One frame on the wire: one timestamp, payloads everywhere, the marker on the last packet, all in time. */
  predicate Frame(c: Config, raw: seq<Packet>, times: seq<Time>) {
    && raw != [] && |raw| == |times|
    && OneTimestamp(raw, raw[0].timestamp)
    && (forall i :: 0 <= i < |raw| ==> raw[i].payload != [] && times[i] - times[0] <= c.maxAge)
    && Injection.MarkedLast(raw)
  }

  /** The assembly holds the first j packets of the frame, valid exactly as long as they are good. */
  predicate Holds(c: Config, a: Assembly, part: seq<Packet>, first: Time)
    requires part != []
  {
    && a.haveAU && a.sourceTS == part[0].timestamp && a.startedAt == first
    && a.haveLastSeq && a.lastSeq == part[|part| - 1].seqNo
    && a.bytes == TotalSize(part)
    && (!a.invalid <==> Good(c, part))
    && (!a.invalid ==> a.packets == part && Scan(part) == Continue(a.fu))
  }

  lemma GoodSnoc(c: Config, part: seq<Packet>, p: Packet)
    requires part != []
    ensures Good(c, part + [p]) <==>
      && Good(c, part)
      && p.seqNo == NextSeq(part[|part| - 1].seqNo)
      && Observe(Scan(part).fu, p.payload).Continue?
      && |part| < c.maxPackets && TotalSize(part) + MarshalSize(p) <= c.maxBytes
  {
    var longer := part + [p];
    assert longer[..|part|] == part;
    if Consecutive(longer) {
      forall i | 0 <= i < |part| - 1
        ensures part[i + 1].seqNo == NextSeq(part[i].seqNo)
      {
        assert longer[i + 1].seqNo == NextSeq(longer[i].seqNo);
      }
      assert longer[|part| - 1 + 1] == p;
    }
  }

  lemma HoldsNext(c: Config, a: Assembly, part: seq<Packet>, first: Time, p: Packet, now: Time)
    requires part != [] && Holds(c, a, part, first)
    requires p.timestamp == part[0].timestamp && now - first <= c.maxAge
    ensures Holds(c, Assembled(c, a, p, now), part + [p], first)
  {
    GoodSnoc(c, part, p);
    assert (part + [p])[..|part|] == part;
  }

  lemma GoodOne(c: Config, p: Packet)
    requires c.maxPackets > 0
    ensures TotalSize([p]) == MarshalSize(p)
    ensures Scan([p]) == Observe(Shut, p.payload)
    ensures Good(c, [p]) <==> Observe(Shut, p.payload).Continue? && MarshalSize(p) <= c.maxBytes
  {
    assert [p][..0] == [];
  }

  lemma HoldsFirst(c: Config, a: Assembly, p: Packet, now: Time)
    requires !a.haveAU || Stale(c, a, p, now)
    requires c.maxPackets > 0
    ensures Holds(c, Assembled(c, a, p, now), [p], now)
  {
    GoodOne(c, p);
    var b := Absorb(c, Start(a, p.timestamp, now), p);
    assert Assembled(c, a, p, now) == b;
    assert !b.invalid ==> b.packets == [p];
  }

  /** The assembly once packet j of the frame is absorbed, before its marker is looked at. */
  function HeldAt(c: Config, a: Assembly, raw: seq<Packet>, times: seq<Time>, j: nat): Assembly
    requires j < |raw| == |times|
  {
    Assembled(c, PushAll(c, a, raw, times, j), raw[j], times[j])
  }

  /** Until the marker, pushing a frame's packet just assembles it. */
  lemma PushAllOpen(c: Config, a: Assembly, raw: seq<Packet>, times: seq<Time>, j: nat)
    requires Frame(c, raw, times) && j < |raw| - 1
    ensures PushAll(c, a, raw, times, j + 1) == HeldAt(c, a, raw, times, j)
  {
    assert !raw[j].marker && raw[j].payload != [];
  }

  lemma FrameAt(c: Config, raw: seq<Packet>, times: seq<Time>, j: nat)
    requires Frame(c, raw, times) && j < |raw|
    ensures raw[j].timestamp == raw[0].timestamp && times[j] - times[0] <= c.maxAge
    ensures raw[..j + 1] == raw[..j] + [raw[j]] && (j > 0 ==> raw[..j][0] == raw[0])
  {
  }

  /** One more packet of the frame, whatever held the part before it. */
  lemma FrameNext(c: Config, held: Assembly, part: seq<Packet>, first: Time, p: Packet, now: Time, longer: seq<Packet>)
    requires part != [] && Holds(c, held, part, first) && longer == part + [p]
    requires p.timestamp == part[0].timestamp && now - first <= c.maxAge
    ensures Holds(c, Assembled(c, held, p, now), longer, first)
  {
    HoldsNext(c, held, part, first, p, now);
  }

  lemma {:induction false} FrameHeld(c: Config, a: Assembly, raw: seq<Packet>, times: seq<Time>, j: nat)
    requires Frame(c, raw, times) && j < |raw| && c.maxPackets > 0
    requires !a.haveAU || Stale(c, a, raw[0], times[0])
    ensures Holds(c, HeldAt(c, a, raw, times, j), raw[..j + 1], times[0])
  {
    FrameAt(c, raw, times, j);
    if j == 0 {
      HoldsFirst(c, a, raw[0], times[0]);
    } else {
      FrameHeld(c, a, raw, times, j - 1);
      PushAllOpen(c, a, raw, times, j - 1);
      FrameNext(c, PushAll(c, a, raw, times, j), raw[..j], times[0], raw[j], times[j], raw[..j + 1]);
    }
  }

  /**
    A frame that opens a fresh access unit is emitted by its marker packet, as exactly the packets
    sent, if and only if its sequence numbers are consecutive, every payload is forwardable with
    complete FU-A units, and it fits the configured packet and byte limits.
   */
  lemma FrameEmittedIff(c: Config, a: Assembly, raw: seq<Packet>, times: seq<Time>)
    requires Frame(c, raw, times) && c.maxPackets > 0
    requires !a.haveAU || Stale(c, a, raw[0], times[0])
    ensures var n := |raw|; var before := PushAll(c, a, raw, times, n - 1);
      && (Completes(c, before, raw[n - 1], times[n - 1]) <==>
            Consecutive(raw) && AllForwardable(raw, n) && WithinLimits(c, raw))
      && (Completes(c, before, raw[n - 1], times[n - 1]) ==>
            Assembled(c, before, raw[n - 1], times[n - 1]).packets == raw)
  {
    FrameHeld(c, a, raw, times, |raw| - 1);
    assert raw[..|raw|] == raw;
    ScanAcceptsIffForwardable(raw);
  }

  lemma {:induction false} TotalSizeDrop(ps: seq<Packet>, k: nat)
    requires k <= |ps|
    ensures TotalSize(ps[k..]) <= TotalSize(ps)
    decreases |ps|
  {
    if k < |ps| {
      TotalSizeDrop(ps[..|ps| - 1], k);
      assert ps[k..][..|ps| - k - 1] == ps[..|ps| - 1][k..];
    }
  }

  lemma FrameDrop(c: Config, raw: seq<Packet>, times: seq<Time>, k: nat)
    requires Frame(c, raw, times) && k < |raw|
    requires Consecutive(raw) && WithinLimits(c, raw)
    requires forall i :: k <= i < |raw| ==> times[i] - times[k] <= c.maxAge
    ensures Frame(c, raw[k..], times[k..]) && Consecutive(raw[k..]) && WithinLimits(c, raw[k..])
  {
    var rest, late := raw[k..], times[k..];
    forall i | 0 <= i < |rest|
      ensures rest[i] == raw[k + i] && late[i] == times[k + i]
      ensures i + 1 < |rest| ==> !rest[i].marker && rest[i + 1].seqNo == NextSeq(rest[i].seqNo)
    {
      if i + 1 < |rest| {
        assert raw[k + i + 1].seqNo == NextSeq(raw[k + i].seqNo);
      }
    }
    TotalSizeDrop(raw, k);
  }

  /**
    Loss at the head of an access unit goes unnoticed: when the first k packets of an emittable frame
    never arrive, what is left is emitted as if it were whole, if and only if no FU-A unit of the frame
    started before the cut and goes on after it.
   */
  lemma HeadLossEmittedIff(c: Config, a: Assembly, raw: seq<Packet>, times: seq<Time>, k: nat)
    requires Frame(c, raw, times) && c.maxPackets > 0 && 0 < k < |raw|
    requires Consecutive(raw) && AllForwardable(raw, |raw|) && WithinLimits(c, raw)
    requires !a.haveAU || Stale(c, a, raw[k], times[k])
    requires forall i :: k <= i < |raw| ==> times[i] - times[k] <= c.maxAge
    ensures var rest, late := raw[k..], times[k..];
      var n := |rest|;
      var before := PushAll(c, a, rest, late, n - 1);
      && (Completes(c, before, rest[n - 1], late[n - 1]) <==> CleanCut(raw, k))
      && (Completes(c, before, rest[n - 1], late[n - 1]) ==>
            Assembled(c, before, rest[n - 1], late[n - 1]).packets == rest)
  {
    FrameDrop(c, raw, times, k);
    HeadCutForwardableIff(raw, k);
    FrameEmittedIff(c, a, raw[k..], times[k..]);
  }

  /** An SPS, a PPS and an IDR slice, in one complete access unit. */
  predicate SetsThenSlice(sps: Packet, pps: Packet, idr: Packet) {
    && sps.payload == [0x67, 0x42] && pps.payload == [0x68, 0xce] && idr.payload == [0x65, 0x88]
    && !sps.marker && !pps.marker && idr.marker
    && sps.timestamp == pps.timestamp == idr.timestamp
    && pps.seqNo == NextSeq(sps.seqNo) && idr.seqNo == NextSeq(pps.seqNo)
  }

  /** Two plain packets of one frame, pushed while no access unit is open, come out as one. */
  lemma PairEmitted(c: Config, s: State, p: Packet, q: Packet, now: Time)
    requires !s.asm.haveAU && c.maxPackets >= 2 && c.maxAge >= 0 && MarshalSize(p) + MarshalSize(q) <= c.maxBytes
    requires p.payload != [] && PlainType(NalType(p.payload[0])) && q.payload != [] && PlainType(NalType(q.payload[0]))
    requires !p.marker && q.marker && q.timestamp == p.timestamp && q.seqNo == NextSeq(p.seqNo)
    ensures Emits(c, Do(c, s, Push(p, now)), Push(q, now)) ==
      Some(FinishUnit(FinishSets(s.sets, [p, q]), [p, q], p.timestamp))
  {
    var raw, times := [p, q], [now, now];
    assert raw[..1] == [p];
    GoodOne(c, p);
    FrameEmittedIff(c, s.asm, raw, times);
    var held := PushAll(c, s.asm, raw, times, 1);
    assert held == PushAssembly(c, PushAll(c, s.asm, raw, times, 0), p, now) == Do(c, s, Push(p, now)).asm;
    FrameHeld(c, s.asm, raw, times, 1);
    assert Assembled(c, held, q, now).sourceTS == p.timestamp;
  }

  lemma SetsThenSliceComplete(sps: Packet, pps: Packet, idr: Packet)
    requires SetsThenSlice(sps, pps, idr)
    ensures WellFormedUnit([sps, pps, idr])
  {
    assert NalType(0x67) == 7 && NalType(0x68) == 8 && NalType(0x65) == 5;
  }

  /** What the rest finishes as when no set was cached before: an IDR unit without an SPS. */
  lemma SetlessFinish(s: Sets, pps: Packet, idr: Packet, source: u32)
    requires pps.payload == [0x68, 0xce] && idr.payload == [0x65, 0x88] && s.sps == [] && s.pps == []
    ensures var u := FinishUnit(FinishSets(s, [pps, idr]), [pps, idr], source);
      u.packets == [pps, idr] && u.isIDR && !u.setsReady && !AnyCarries(u.packets, 7)
  {
    var raw := [pps, idr];
    assert NalType(0x68) == 8 && NalType(0x65) == 5;
    assert Carries(raw[1], 5) && Carries(raw[0], 8);
    PS.NewestMeaning(raw, 7, 2);
    assert PS.FindAt(raw, 0, 7).Nothing? && PS.FindAt(raw, 1, 7).Nothing?;
  }

  /**
    Such a loss: the frame is complete, its SPS never arrives, and a new normalizer still emits the
    rest as an IDR access unit, one that no decoder can start from.
   */
  lemma HeadLossExample(c: Config, sps: Packet, pps: Packet, idr: Packet, now: Time)
    requires SetsThenSlice(sps, pps, idr)
    requires c.maxPackets >= 2 && c.maxAge >= 0 && MarshalSize(pps) + MarshalSize(idr) <= c.maxBytes
    ensures WellFormedUnit([sps, pps, idr])
    ensures var last := Emits(c, StateAfter(c, [Push(pps, now)]), Push(idr, now));
      && last.Some? && last.value.packets == [pps, idr] && last.value.isIDR && !last.value.setsReady
      && !AnyCarries(last.value.packets, 7)
  {
    SetsThenSliceComplete(sps, pps, idr);
    assert [Push(pps, now)][..0] == [];
    PairEmitted(c, INIT, pps, idr, now);
    SetlessFinish(INIT.sets, pps, idr, pps.timestamp);
  }

  // ---------------------------------------------------------------- bounds and conservation

  predicate Bounded(c: Config, a: Assembly) {
    && |a.packets| <= c.maxPackets
    && TotalSize(a.packets) <= a.bytes
    && (a.packets != [] ==> a.bytes <= c.maxBytes)
  }

  lemma AbsorbBounded(c: Config, a: Assembly, p: Packet, now: Time)
    requires Bounded(c, a) && c.maxPackets > 0
    ensures Bounded(c, Assembled(c, a, p, now))
  {
    var o := OpenFor(c, a, p, now);
    assert (o.packets + [p])[..|o.packets|] == o.packets;
  }

  /** What is retained never exceeds the configured packets and bytes. */
  lemma {:induction false} RetentionBounded(c: Config, es: seq<Event>)
    requires c.maxPackets > 0 && c.maxBytes >= 0
    ensures var a := StateAfter(c, es).asm;
      Bounded(c, a) && |a.packets| <= c.maxPackets && TotalSize(a.packets) <= c.maxBytes
    decreases |es|
  {
    if es != [] {
      RetentionBounded(c, es[..|es| - 1]);
      var s, e := StateBefore(c, es), es[|es| - 1];
      if e.Push? {
        AbsorbBounded(c, s.asm, e.packet, e.now);
      }
    }
  }

  /** Access units opened, and completed, by a run. */
  function Started(c: Config, es: seq<Event>): nat {
    if es == [] then 0
    else
      var a, e := StateBefore(c, es).asm, es[|es| - 1];
      Started(c, es[..|es| - 1]) + One(Starts(c, a, e))
  }

  function Finished(c: Config, es: seq<Event>): nat {
    if es == [] then 0
    else Finished(c, es[..|es| - 1]) + One(Emits(c, StateBefore(c, es), es[|es| - 1]).Some?)
  }

  predicate Starts(c: Config, a: Assembly, e: Event) {
    e.Push? && e.packet.payload != [] && (!a.haveAU || Stale(c, a, e.packet, e.now))
  }

  function Ended(n: Counts): nat {
    n.droppedIncomplete + n.droppedOverflow
  }

  function One(b: bool): nat {
    if b then 1 else 0
  }

  lemma PushConserves(c: Config, s: State, e: Event)
    requires e.Push?
    ensures var s' := Do(c, s, e);
      One(s.asm.haveAU) + One(Starts(c, s.asm, e)) + Ended(s.counts)
        == One(s'.asm.haveAU) + One(Emits(c, s, e).Some?) + Ended(s'.counts)
  {
    if e.packet.payload != [] {
      assert Assembled(c, s.asm, e.packet, e.now).haveAU;
    }
  }

  lemma EventConserves(c: Config, s: State, e: Event, s': State)
    requires s' == Do(c, s, e)
    ensures One(s.asm.haveAU) + One(Starts(c, s.asm, e)) + Ended(s.counts)
      == One(s'.asm.haveAU) + One(Emits(c, s, e).Some?) + Ended(s'.counts)
  {
    if e.Push? {
      PushConserves(c, s, e);
    }
  }

  /** Every access unit started is finished, dropped as incomplete, dropped for overflow, or still open. */
  lemma {:induction false} AccessUnitsConserved(c: Config, es: seq<Event>)
    ensures var s := StateAfter(c, es);
      Started(c, es) == Finished(c, es) + s.counts.droppedIncomplete + s.counts.droppedOverflow + One(s.asm.haveAU)
    decreases |es|
  {
    if es != [] {
      AccessUnitsConserved(c, es[..|es| - 1]);
      EventConserves(c, StateBefore(c, es), es[|es| - 1], StateAfter(c, es));
    }
  }
}
