/**
  Whole runs of the normalizer: what injection guarantees about emitted access units, how a stream
  switch separates generations, and how little of the run the outbound line depends on.
 */
module NormalizerRuns {
  import opened Rtp
  import opened Sequences
  import opened AccessUnits
  import opened Outbound
  import opened OutboundRuns
  import opened Normalizer
  import opened AssemblyRuns
  import PS = ParameterSets
  import Injection

  // ---------------------------------------------------------------- parameter sets

  predicate SetsOk(s: Sets) {
    PS.CachedOk(s.sps, PS.SPS) && PS.CachedOk(s.pps, PS.PPS)
  }

  lemma FinishKeepsSets(s: Sets, raw: seq<Packet>)
    requires SetsOk(s)
    ensures SetsOk(FinishSets(s, raw))
  {
    PS.UpdatedIsSet(s.sps, raw, PS.SPS);
    PS.UpdatedIsSet(s.pps, raw, PS.PPS);
  }

  /** The caches only ever hold units of their own type with a body. */
  lemma {:induction false} CachesTyped(c: Config, es: seq<Event>)
    ensures SetsOk(StateAfter(c, es).sets)
    decreases |es|
  {
    if es != [] {
      CachesTyped(c, es[..|es| - 1]);
      var s, e := StateBefore(c, es), es[|es| - 1];
      if e.Push? && Completes(c, s.asm, e.packet, e.now) {
        FinishKeepsSets(s.sets, Assembled(c, s.asm, e.packet, e.now).packets);
      }
    }
  }

  /** The packets an emitting event assembled, before injection. */
  function RawOf(c: Config, s: State, e: Event): seq<Packet>
    requires Emits(c, s, e).Some?
  {
    Assembled(c, s.asm, e.packet, e.now).packets
  }

  /** The sets an emitting event finished with. */
  function SetsOf(c: Config, s: State, e: Event): Sets
    requires Emits(c, s, e).Some?
  {
    FinishSets(s.sets, RawOf(c, s, e))
  }

  /** Every emitted IDR access unit with both sets ready carries an SPS and a PPS. */
  lemma ReadyIdrCarriesSets(c: Config, es: seq<Event>)
    requires es != [] && Emits(c, StateBefore(c, es), es[|es| - 1]).Some?
    ensures var u := Emits(c, StateBefore(c, es), es[|es| - 1]).value;
      u.isIDR && u.setsReady ==> AnyCarries(u.packets, PS.SPS) && AnyCarries(u.packets, PS.PPS)
  {
    var s, e := StateBefore(c, es), es[|es| - 1];
    var raw, sets := RawOf(c, s, e), SetsOf(c, s, e);
    CachesTyped(c, es[..|es| - 1]);
    FinishKeepsSets(s.sets, raw);
    if sets.sps != [] && sets.pps != [] {
      Injection.InjectionCompletesSets(raw, sets.sps, sets.pps, Forced(sets, raw));
    }
  }

  /** A forced injection: owed after a switch, both sets cached, and the access unit lacks one. */
  predicate Forced(s: Sets, raw: seq<Packet>) {
    s.forceRemaining > 0 && s.sps != [] && s.pps != [] && !(AnyCarries(raw, PS.SPS) && AnyCarries(raw, PS.PPS))
  }

  /** Packets other than bare parameter sets reach the emitted access unit unchanged and in order. */
  lemma EmittedKeepsPackets(c: Config, es: seq<Event>)
    requires es != [] && Emits(c, StateBefore(c, es), es[|es| - 1]).Some?
    ensures var s, e := StateBefore(c, es), es[|es| - 1];
      var u := Emits(c, s, e).value;
      && Injection.Stripped(u.packets) == Injection.Stripped(RawOf(c, s, e))
      && (!u.injected ==> u.packets == RawOf(c, s, e))
  {
    var s, e := StateBefore(c, es), es[|es| - 1];
    var raw, sets := RawOf(c, s, e), SetsOf(c, s, e);
    CachesTyped(c, es[..|es| - 1]);
    FinishKeepsSets(s.sets, raw);
    Injection.InjectionKeepsOthers(raw, sets.sps, sets.pps, AnyCarries(raw, PS.SPS), AnyCarries(raw, PS.PPS),
                                   Forced(sets, raw));
  }

  lemma SliceIsNotBare(raw: seq<Packet>)
    requires AnyCarries(raw, 5)
    ensures Injection.Stripped(raw) != []
  {
    var i :| 0 <= i < |raw| && Carries(raw[i], 5);
    Injection.StrippedMembers(raw);
    assert raw[i] in raw && !Injection.BareSet(raw[i]);
  }

  lemma FinishedMarkerLostIff(sets: Sets, raw: seq<Packet>, source: u32)
    requires Injection.MarkedLast(raw)
    ensures var u := FinishUnit(sets, raw, source);
      var lost := u.isIDR && Forced(sets, raw) && Injection.BareSet(raw[|raw| - 1]);
      u.packets != [] && (if lost then Injection.Unmarked(u.packets) else Injection.MarkedLast(u.packets))
  {
    if AnyCarries(raw, 5) {
      SliceIsNotBare(raw);
      Injection.MarkerLostIff(raw, sets.sps, sets.pps, AnyCarries(raw, PS.SPS), AnyCarries(raw, PS.PPS),
                              Forced(sets, raw));
    }
  }

  /**
    An emitted access unit is marked on its last packet and no other, except when a forced injection meets
    an IDR access unit whose last packet is a bare parameter set: that packet goes, and the marker with it.
   */
  lemma EmittedMarkerLostIff(c: Config, es: seq<Event>)
    requires es != [] && Emits(c, StateBefore(c, es), es[|es| - 1]).Some?
    ensures var s, e := StateBefore(c, es), es[|es| - 1];
      var u, raw := Emits(c, s, e).value, RawOf(c, s, e);
      var lost := u.isIDR && Forced(SetsOf(c, s, e), raw) && Injection.BareSet(raw[|raw| - 1]);
      u.packets != [] && (if lost then Injection.Unmarked(u.packets) else Injection.MarkedLast(u.packets))
  {
    var s, e := StateBefore(c, es), es[|es| - 1];
    var raw, sets := RawOf(c, s, e), SetsOf(c, s, e);
    EmittedIsRecentBlock(c, es);
    FinishedMarkerLostIff(sets, raw, Assembled(c, s.asm, e.packet, e.now).sourceTS);
  }

  lemma SliceThenPps(idr: Packet, pps: Packet)
    requires idr.payload == [0x65, 0x88] && pps.payload == [0x68, 0xce]
    ensures var raw := [idr, pps];
      AnyCarries(raw, 5) && AnyCarries(raw, PS.PPS) && !AnyCarries(raw, PS.SPS)
  {
    var raw := [idr, pps];
    assert Carries(raw[0], 5) && Carries(raw[1], PS.PPS);
  }

  lemma SliceStays(idr: Packet, pps: Packet)
    requires !Injection.BareSet(idr) && Injection.BareSet(pps)
    ensures Injection.Stripped([idr, pps]) == [idr]
  {
    Injection.StrippedSnoc([], idr);
    Injection.StrippedSnoc([idr], pps);
    assert [idr, pps] == [idr] + [pps] && [idr] == [] + [idr];
  }

  lemma UnmarkedFinish(sets: Sets, idr: Packet, pps: Packet, source: u32)
    requires sets == Sets([0x67, 0x42], [0x68, 0xce], 1, 1)
    requires idr.payload == [0x65, 0x88] && !idr.marker
    requires pps.payload == [0x68, 0xce] && pps.marker
    ensures var u := FinishUnit(sets, [idr, pps], source);
      u.isIDR && u.injected && |u.packets| == 3 && forall i :: 0 <= i < 3 ==> !u.packets[i].marker
  {
    SliceThenPps(idr, pps);
    SliceStays(idr, pps);
    var both := Injection.Prefix(idr, sets.sps, sets.pps, true, true);
    assert both == [Injection.SetPacket(idr, sets.sps), Injection.SetPacket(idr, sets.pps)];
    assert FinishUnit(sets, [idr, pps], source).packets == both + [idr];
  }

  /** The slice says nothing about either set, and the PPS is cached again. */
  lemma SetsSurvive(sets: Sets, idr: Packet, pps: Packet)
    requires sets.pps == [0x68, 0xce] && idr.payload == [0x65, 0x88] && pps.payload == [0x68, 0xce]
    ensures FinishSets(sets, [idr, pps]) == sets
  {
    var raw := [idr, pps];
    PS.NewestMeaning(raw, PS.SPS, 2);
    PS.NewestMeaning(raw, PS.PPS, 2);
    assert PS.FindAt(raw, 0, PS.SPS).Nothing? && PS.FindAt(raw, 1, PS.SPS).Nothing?;
    assert PS.FindAt(raw, 0, PS.PPS).Nothing? && PS.FindAt(raw, 1, PS.PPS) == PS.Found(pps.payload);
  }

  function AfterSwitchAndSets(c: Config, reason: string): State {
    Do(c, Do(c, INIT, ResetForStreamSwitch(1, reason)), SetParameterSets([0x67, 0x42], [0x68, 0xce]))
  }

  /**
    A run that ends in such an access unit: after a switch the sets are seeded, and the first picture is
    an IDR slice followed by a marked PPS.  It comes out with three packets and no marker.
   */
  lemma MarkerLostExample(c: Config, reason: string, idr: Packet, pps: Packet, now: Time)
    requires c.maxPackets >= 2 && c.maxAge >= 0 && MarshalSize(idr) + MarshalSize(pps) <= c.maxBytes
    requires idr.payload == [0x65, 0x88] && !idr.marker
    requires pps.payload == [0x68, 0xce] && pps.marker
    requires pps.timestamp == idr.timestamp && pps.seqNo == NextSeq(idr.seqNo)
    ensures var last := Emits(c, Do(c, AfterSwitchAndSets(c, reason), Push(idr, now)), Push(pps, now));
      && last.Some? && last.value.isIDR && last.value.injected && |last.value.packets| == 3
      && forall i :: 0 <= i < 3 ==> !last.value.packets[i].marker
  {
    var s := AfterSwitchAndSets(c, reason);
    assert s.sets == Sets([0x67, 0x42], [0x68, 0xce], 1, 1) && !s.asm.haveAU;
    PairEmitted(c, s, idr, pps, now);
    SetsSurvive(s.sets, idr, pps);
    UnmarkedFinish(s.sets, idr, pps, idr.timestamp);
  }

  // ---------------------------------------------------------------- a switch separates generations

  /** The access units emitted by es from state s, in order. */
  function EmittedFrom(c: Config, s: State, es: seq<Event>): seq<Unit>
    decreases |es|
  {
    if es == [] then []
    else
      var out := Emits(c, s, es[0]);
      (if out.Some? then [out.value] else []) + EmittedFrom(c, Do(c, s, es[0]), es[1..])
  }

  /** Two states that agree on everything an emission can depend on. */
  predicate SameSource(s: State, t: State) {
    s.sets == t.sets && (s.asm == t.asm || (!s.asm.haveAU && !t.asm.haveAU))
  }

  lemma IdleAssembliesAgree(c: Config, a: Assembly, b: Assembly, p: Packet, now: Time)
    requires a == b || (!a.haveAU && !b.haveAU)
    ensures Assembled(c, a, p, now) == Assembled(c, b, p, now)
  {
  }

  lemma SameSourceStep(c: Config, s: State, t: State, e: Event)
    requires SameSource(s, t)
    ensures Emits(c, s, e) == Emits(c, t, e) && SameSource(Do(c, s, e), Do(c, t, e))
  {
    if e.Push? {
      IdleAssembliesAgree(c, s.asm, t.asm, e.packet, e.now);
    }
  }

  lemma {:induction false} SameSourceEmits(c: Config, s: State, t: State, es: seq<Event>)
    requires SameSource(s, t)
    ensures EmittedFrom(c, s, es) == EmittedFrom(c, t, es)
    decreases |es|
  {
    if es != [] {
      SameSourceStep(c, s, t, es[0]);
      SameSourceEmits(c, Do(c, s, es[0]), Do(c, t, es[0]), es[1..]);
    }
  }

  /**
    After a stream switch, what is emitted does not depend on anything that happened before it: the
    access units are those a new normalizer would emit after the same switch, so no packet and no
    injected parameter set can come from the earlier stream.
   */
  lemma SwitchForgetsThePast(c: Config, past: seq<Event>, generation: int, reason: string, es: seq<Event>)
    ensures var switch := ResetForStreamSwitch(generation, reason);
      EmittedFrom(c, Do(c, StateAfter(c, past), switch), es) == EmittedFrom(c, Do(c, INIT, switch), es)
  {
    var switch := ResetForStreamSwitch(generation, reason);
    SameSourceEmits(c, Do(c, StateAfter(c, past), switch), Do(c, INIT, switch), es);
  }

  /** Until the next switch, every emitted access unit carries the current generation. */
  lemma {:induction false} GenerationStable(c: Config, s: State, es: seq<Event>)
    requires forall i :: 0 <= i < |es| ==> !es[i].ResetForStreamSwitch?
    ensures forall u :: u in EmittedFrom(c, s, es) ==> u.generation == s.sets.generation
    decreases |es|
  {
    if es != [] {
      GenerationStable(c, Do(c, s, es[0]), es[1..]);
    }
  }

  // ---------------------------------------------------------------- the outbound line

  /** What an event means for the outbound line: most mean nothing. */
  function OpOf(e: Event): seq<Op> {
    match e
    case NumberAccessUnit(u, now) => [Number(u.packets, u.sourceTimestamp, now)]
    case RewriteForReplay(packets, now) => [Replay(packets, now)]
    case ResetForStreamSwitch(_, reason) => [Switch(reason)]
    case _ => []
  }

  function Ops(es: seq<Event>): seq<Op> {
    if es == [] then [] else Ops(es[..|es| - 1]) + OpOf(es[|es| - 1])
  }

  /** The packets an event puts on the wire. */
  function Wired(c: Config, s: State, e: Event): seq<Packet> {
    match e
    case NumberAccessUnit(u, now) => NumberPackets(s.line, c.reuseSameTimestamp, u.packets, u.sourceTimestamp, now)
    case RewriteForReplay(packets, now) => ReplayPackets(s.line, c.reuseSameTimestamp, packets, now)
    case _ => []
  }

  function Wire(c: Config, es: seq<Event>): seq<Packet> {
    if es == [] then [] else Wire(c, es[..|es| - 1]) + Wired(c, StateBefore(c, es), es[|es| - 1])
  }

  /** One event moves the line, and sends, exactly as its operation does; other events do neither. */
  lemma EventOnLine(c: Config, s: State, e: Event)
    ensures var reuse := c.reuseSameTimestamp;
      if OpOf(e) == [] then Do(c, s, e).line == s.line && Wired(c, s, e) == []
      else Do(c, s, e).line == After(s.line, reuse, OpOf(e)[0]) && Wired(c, s, e) == Emission(s.line, reuse, OpOf(e)[0])
  {
  }

  lemma RunSnoc(reuse: bool, ops: seq<Op>, op: Op)
    ensures LineAfter(reuse, ops + [op]) == After(LineAfter(reuse, ops), reuse, op)
    ensures Sent(reuse, ops + [op]) == Sent(reuse, ops) + Emission(LineAfter(reuse, ops), reuse, op)
  {
    assert (ops + [op])[..|ops|] == ops;
  }

  lemma OpsSnoc(es: seq<Event>, e: Event)
    ensures Ops(es + [e]) == Ops(es) + OpOf(e)
  {
    assert (es + [e])[..|es|] == es;
  }

  ghost predicate LineIsOps(c: Config, line: Line, wire: seq<Packet>, ops: seq<Op>) {
    line == LineAfter(c.reuseSameTimestamp, ops) && wire == Sent(c.reuseSameTimestamp, ops)
  }

  lemma LineSeesOneMore(c: Config, s: State, wire: seq<Packet>, ops: seq<Op>, e: Event)
    requires LineIsOps(c, s.line, wire, ops)
    ensures LineIsOps(c, Do(c, s, e).line, wire + Wired(c, s, e), ops + OpOf(e))
  {
    EventOnLine(c, s, e);
    if OpOf(e) == [] {
      assert ops + [] == ops && wire + [] == wire;
    } else {
      assert OpOf(e) == [OpOf(e)[0]];
      RunSnoc(c.reuseSameTimestamp, ops, OpOf(e)[0]);
    }
  }

  /** The line and everything sent on it are functions of the numbered access units, replays and switches alone. */
  lemma {:induction false} LineSeesOnlyOps(c: Config, es: seq<Event>)
    ensures LineIsOps(c, StateAfter(c, es).line, Wire(c, es), Ops(es))
    decreases |es|
  {
    if es != [] {
      var front := es[..|es| - 1];
      LineSeesOnlyOps(c, front);
      LineSeesOneMore(c, StateAfter(c, front), Wire(c, front), Ops(front), es[|es| - 1]);
    }
  }

  lemma OpsAppendOne(a: seq<Event>, front: seq<Event>, e: Event, b: seq<Event>)
    requires b == front + [e] && Ops(a + front) == Ops(a) + Ops(front)
    ensures Ops(a + b) == Ops(a) + Ops(b)
  {
    ConcatAssoc(a, front, [e]);
    OpsSnoc(a + front, e);
    OpsSnoc(front, e);
    ConcatAssoc(Ops(a), Ops(front), OpOf(e));
  }

  lemma OpsAppendNone(a: seq<Event>, b: seq<Event>)
    requires b == []
    ensures Ops(a + b) == Ops(a) + Ops(b)
  {
    assert a + b == a;
  }

  lemma {:induction false} OpsAppend(a: seq<Event>, b: seq<Event>)
    ensures Ops(a + b) == Ops(a) + Ops(b)
    decreases |b|
  {
    if b == [] {
      OpsAppendNone(a, b);
    } else {
      var front, e := b[..|b| - 1], b[|b| - 1];
      OpsAppend(a, front);
      SplitLast(b);
      OpsAppendOne(a, front, e, b);
    }
  }

  lemma SilentStretch(a: seq<Event>, silent: seq<Event>, b: seq<Event>)
    requires Ops(silent) == []
    ensures Ops(a + silent + b) == Ops(a + b)
  {
    OpsAppend(a + silent, b);
    OpsAppend(a, silent);
    OpsAppend(a, b);
  }

  /**
    Access units that are assembled but never numbered leave no trace on the wire: a stretch of the
    run without numbering, replay or switch can be cut out, and the line and every packet sent stay
    the same.
   */
  lemma RejectedAccessUnitsLeaveNoTrace(c: Config, a: seq<Event>, silent: seq<Event>, b: seq<Event>)
    requires Ops(silent) == []
    ensures Wire(c, a + silent + b) == Wire(c, a + b)
    ensures StateAfter(c, a + silent + b).line == StateAfter(c, a + b).line
  {
    SilentStretch(a, silent, b);
    LineSeesOnlyOps(c, a + silent + b);
    LineSeesOnlyOps(c, a + b);
  }

  /**
    Over any run of the normalizer the packets on the wire carry consecutive sequence numbers and
    timestamps that never go back.
   */
  lemma WireConsecutive(c: Config, es: seq<Event>)
    ensures Consecutive(Wire(c, es)) && StampsAdvance(Wire(c, es))
  {
    SentStampsAdvance(c.reuseSameTimestamp, Ops(es));
    LineSeesOnlyOps(c, es);
    SentConsecutive(c.reuseSameTimestamp, Ops(es));
  }
}
