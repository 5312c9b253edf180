/**
  What the normalizer holds and reports, told from the events alone: the cached sets, the injection owed
  after a switch, the generation, the counters, and what an emitted access unit looks like.
 */
module NormalizerHistory {
  import opened Rtp
  import opened Sequences
  import opened AccessUnits
  import opened Outbound
  import opened Normalizer
  import opened AssemblyRuns
  import opened NormalizerRuns
  import PS = ParameterSets
  import Injection
  import StapA

  lemma OneMore(c: Config, front: seq<Event>, e: Event, es: seq<Event>)
    requires es == front + [e]
    ensures StateAfter(c, es) == Do(c, StateAfter(c, front), e)
  {
    assert es[..|es| - 1] == front;
  }

  // ---------------------------------------------------------------- the cached sets

  function CacheOf(s: Sets, t: byte): Bytes {
    if t == PS.SPS then s.sps else s.pps
  }

  /** The set an event offers: found, unusable, or nothing said.  A switch makes everything before it unusable. */
  function Says(c: Config, s: State, e: Event, t: byte): PS.Find {
    match e
    case Push(p, now) =>
      if Emits(c, s, e).Some? then PS.Newest(RawOf(c, s, e), t, |RawOf(c, s, e)|) else PS.Nothing
    case SetParameterSets(sps, pps) =>
      var nal := if t == PS.SPS then sps else pps;
      if StapA.IsSingleNalType(nal, t) then PS.Found(nal) else PS.Nothing
    case ResetForStreamSwitch(_, _) => PS.Unusable
    case _ => PS.Nothing
  }

  function SaidAt(c: Config, es: seq<Event>, i: nat, t: byte): PS.Find
    requires i < |es|
  {
    Says(c, StateAfter(c, es[..i]), es[i], t)
  }

  /** Event i is the last that says anything about the set of type t. */
  predicate LastWord(c: Config, es: seq<Event>, i: nat, t: byte) {
    i < |es| && !SaidAt(c, es, i, t).Nothing? && forall k :: i < k < |es| ==> SaidAt(c, es, k, t).Nothing?
  }

  predicate NeverSaid(c: Config, es: seq<Event>, t: byte) {
    forall i :: 0 <= i < |es| ==> SaidAt(c, es, i, t).Nothing?
  }

  lemma EventOnCache(c: Config, s: State, e: Event, t: byte)
    requires PS.SetType(t)
    ensures var said := Says(c, s, e, t);
      CacheOf(Do(c, s, e).sets, t) == if said.Nothing? then CacheOf(s.sets, t) else Kept(said)
  {
  }

  lemma SaidSnoc(c: Config, front: seq<Event>, e: Event, es: seq<Event>, k: nat, t: byte)
    requires es == front + [e] && k <= |front|
    ensures SaidAt(c, es, k, t) == if k < |front| then SaidAt(c, front, k, t) else Says(c, StateAfter(c, front), e, t)
  {
    assert es[..k] == front[..k] && front[..|front|] == front;
  }

  lemma LastWordSnoc(c: Config, front: seq<Event>, e: Event, es: seq<Event>, i: nat, t: byte)
    requires es == front + [e] && LastWord(c, es, i, t) && i < |front|
    ensures Says(c, StateAfter(c, front), e, t).Nothing? && LastWord(c, front, i, t)
  {
    SaidSnoc(c, front, e, es, |front|, t);
    SaidSnoc(c, front, e, es, i, t);
    assert SaidAt(c, es, |front|, t).Nothing?;
    forall k | i < k < |front|
      ensures SaidAt(c, front, k, t).Nothing?
    {
      SaidSnoc(c, front, e, es, k, t);
      assert SaidAt(c, es, k, t).Nothing?;
    }
  }

  function Kept(said: PS.Find): Bytes {
    if said.Found? then said.nal else []
  }

  /**
    Over any run the cache of a type holds what the last event that says anything about it said: the latest
    set of the last access unit that carries one, or a seeded set, or nothing after a switch or a set that
    could not be reassembled.
   */
  lemma {:induction false} CacheIsLastWord(c: Config, es: seq<Event>, i: nat, t: byte)
    requires PS.SetType(t) && LastWord(c, es, i, t)
    ensures CacheOf(StateAfter(c, es).sets, t) == Kept(SaidAt(c, es, i, t))
    decreases |es|
  {
    var front, e := es[..|es| - 1], es[|es| - 1];
    SplitLast(es);
    OneMore(c, front, e, es);
    SaidSnoc(c, front, e, es, i, t);
    EventOnCache(c, StateAfter(c, front), e, t);
    if i < |front| {
      LastWordSnoc(c, front, e, es, i, t);
      CacheIsLastWord(c, front, i, t);
    }
  }

  lemma NeverSaidSnoc(c: Config, front: seq<Event>, e: Event, es: seq<Event>, t: byte)
    requires es == front + [e] && NeverSaid(c, es, t)
    ensures Says(c, StateAfter(c, front), e, t).Nothing? && NeverSaid(c, front, t)
  {
    SaidSnoc(c, front, e, es, |front|, t);
    assert SaidAt(c, es, |front|, t).Nothing?;
    forall k | 0 <= k < |front|
      ensures SaidAt(c, front, k, t).Nothing?
    {
      SaidSnoc(c, front, e, es, k, t);
      assert SaidAt(c, es, k, t).Nothing?;
    }
  }

  lemma {:induction false} CacheStartsEmpty(c: Config, es: seq<Event>, t: byte)
    requires PS.SetType(t) && NeverSaid(c, es, t)
    ensures CacheOf(StateAfter(c, es).sets, t) == []
    decreases |es|
  {
    if es != [] {
      var front, e := es[..|es| - 1], es[|es| - 1];
      SplitLast(es);
      OneMore(c, front, e, es);
      NeverSaidSnoc(c, front, e, es, t);
      EventOnCache(c, StateAfter(c, front), e, t);
      CacheStartsEmpty(c, front, t);
    }
  }

  // ---------------------------------------------------------------- the injection owed after a switch

  /** An event that puts an access unit with injected sets on the wire. */
  predicate Spends(e: Event) {
    e.NumberAccessUnit? && e.unit.packets != [] && e.unit.injected
  }

  /** A switch has happened, and no injected access unit was numbered since. */
  predicate Owed(es: seq<Event>) {
    exists i :: 0 <= i < |es| && es[i].ResetForStreamSwitch? && forall k :: i < k < |es| ==> !Spends(es[k])
  }

  lemma OwedSnoc(front: seq<Event>, e: Event, es: seq<Event>)
    requires es == front + [e]
    ensures Owed(es) <==> e.ResetForStreamSwitch? || (Owed(front) && !Spends(e))
  {
    assert es[|front|] == e && forall k :: 0 <= k < |front| ==> es[k] == front[k];
    if e.ResetForStreamSwitch? {
      assert es[|front|].ResetForStreamSwitch?;
    } else if Owed(front) && !Spends(e) {
      var i :| 0 <= i < |front| && front[i].ResetForStreamSwitch? && forall k :: i < k < |front| ==> !Spends(front[k]);
      assert es[i].ResetForStreamSwitch?;
    }
  }

  lemma EventOnBudget(c: Config, s: State, e: Event)
    ensures Do(c, s, e).sets.forceRemaining ==
      if e.ResetForStreamSwitch? then 1
      else if Spends(e) && s.sets.forceRemaining > 0 then s.sets.forceRemaining - 1
      else s.sets.forceRemaining
  {
  }

  /** Every switch owes one forced injection, paid by the first injected access unit put on the wire after it. */
  lemma {:induction false} ForcedOncePerSwitch(c: Config, es: seq<Event>)
    ensures StateAfter(c, es).sets.forceRemaining == if Owed(es) then 1 else 0
    decreases |es|
  {
    if es != [] {
      var front, e := es[..|es| - 1], es[|es| - 1];
      SplitLast(es);
      OneMore(c, front, e, es);
      ForcedOncePerSwitch(c, front);
      OwedSnoc(front, e, es);
      EventOnBudget(c, StateAfter(c, front), e);
    }
  }

  // ---------------------------------------------------------------- the generation

  predicate LastSwitch(es: seq<Event>, i: nat) {
    && i < |es| && es[i].ResetForStreamSwitch?
    && forall k :: i < k < |es| ==> !es[k].ResetForStreamSwitch?
  }

  lemma {:induction false} GenerationIsLastSwitch(c: Config, es: seq<Event>, i: nat)
    requires LastSwitch(es, i)
    ensures StateAfter(c, es).sets.generation == es[i].generation
    decreases |es|
  {
    var front, e := es[..|es| - 1], es[|es| - 1];
    SplitLast(es);
    OneMore(c, front, e, es);
    if i < |front| {
      GenerationIsLastSwitch(c, front, i);
    }
  }

  // ---------------------------------------------------------------- the counters

  /** The access units numbered, without empty ones. */
  function NumberedUnits(es: seq<Event>): seq<Unit> {
    if es == [] then []
    else
      var front, e := NumberedUnits(es[..|es| - 1]), es[|es| - 1];
      if e.NumberAccessUnit? && e.unit.packets != [] then front + [e.unit] else front
  }

  /** How many of them went out at the timestamp the line already had. */
  function SentTogether(c: Config, es: seq<Event>): nat {
    if es == [] then 0
    else
      var front, e := es[..|es| - 1], es[|es| - 1];
      var l, l' := StateAfter(c, front).line, StateAfter(c, es).line;
      SentTogether(c, front) +
        (if e.NumberAccessUnit? && e.unit.packets != [] && l.haveOutput && l'.outputTS == l.outputTS then 1 else 0)
  }

  lemma SplitIsStandstill(l: Line, reuse: bool, packets: seq<Packet>, source: u32, now: Time)
    requires packets != []
    ensures MapTimestamp(l, reuse, source, packets[0].seqNo, now).reused <==>
      l.haveOutput && NumberLine(l, reuse, packets, source, now).outputTS == l.outputTS
  {
    if l.haveOutput {
      NumberAdvances(l, reuse, packets, source, now);
      MapAdvances(l, reuse, source, packets[0].seqNo, now);
    }
  }

  lemma EventOnCounters(c: Config, s: State, e: Event, s': State)
    requires s' == Do(c, s, e)
    ensures var numbers := e.NumberAccessUnit? && e.unit.packets != [];
      && s'.counts.emitted == s.counts.emitted + One(numbers)
      && s'.counts.lastAUPackets == (if numbers then |e.unit.packets| else s.counts.lastAUPackets)
      && s'.counts.sameTSSplits == s.counts.sameTSSplits +
           One(numbers && s.line.haveOutput && s'.line.outputTS == s.line.outputTS)
  {
    if e.NumberAccessUnit? && e.unit.packets != [] {
      SplitIsStandstill(s.line, c.reuseSameTimestamp, e.unit.packets, e.unit.sourceTimestamp, e.now);
    }
  }

  /** The counters of numbering count the access units numbered, remember the last one's size, and count repeats. */
  lemma {:induction false} NumberingCounted(c: Config, es: seq<Event>)
    ensures var n, units := StateAfter(c, es).counts, NumberedUnits(es);
      && n.emitted == |units|
      && n.lastAUPackets == (if units == [] then 0 else |units[|units| - 1].packets|)
      && n.sameTSSplits == SentTogether(c, es)
    decreases |es|
  {
    if es != [] {
      var front, e := es[..|es| - 1], es[|es| - 1];
      NumberingCounted(c, front);
      EventOnCounters(c, StateAfter(c, front), e, StateAfter(c, es));
    }
  }

  // ---------------------------------------------------------------- an emitted access unit

  /**
    u is made of the packets raw and the cached sets: an IDR unit is one with a packet that carries an IDR
    slice; it is given the cached sets it lacks, or all of them when that is forced; and the rest is left as
    it was, except that a forced injection takes out the bare sets.
   */
  predicate MadeFrom(u: Unit, raw: seq<Packet>, sets: Sets, force: bool)
    requires raw != []
  {
    var wanted := Injection.Wanted(sets.sps, sets.pps, AnyCarries(raw, 7), AnyCarries(raw, 8), force);
    && (u.isIDR <==> exists i :: 0 <= i < |raw| && Carries(raw[i], 5))
    && (u.setsReady <==> sets.sps != [] && sets.pps != [])
    && u.generation == sets.generation
    && (u.injected <==> u.isIDR && wanted != [])
    && (!u.injected ==> u.packets == raw)
    && (u.injected ==>
          && |u.packets| >= |wanted|
          && (forall i :: 0 <= i < |wanted| ==> Injection.CarriesAs(u.packets[i], raw[0], wanted[i]))
          && u.packets[|wanted|..] ==
               if force && exists p :: p in raw && !Injection.BareSet(p) then Injection.Stripped(raw) else raw)
  }

  lemma FinishExact(sets: Sets, raw: seq<Packet>, source: u32)
    requires raw != []
    ensures MadeFrom(FinishUnit(sets, raw, source), raw, sets, Forced(sets, raw))
  {
    Injection.InjectedExact(raw, sets.sps, sets.pps, AnyCarries(raw, 7), AnyCarries(raw, 8), Forced(sets, raw));
  }

  lemma EmittingEvent(c: Config, s: State, e: Event)
    requires Emits(c, s, e).Some?
    ensures Do(c, s, e).sets == SetsOf(c, s, e) && !e.ResetForStreamSwitch? && !Spends(e)
    ensures SetsOf(c, s, e).forceRemaining == s.sets.forceRemaining
    ensures Emits(c, s, e).value ==
      FinishUnit(SetsOf(c, s, e), RawOf(c, s, e), Assembled(c, s.asm, e.packet, e.now).sourceTS)
  {
  }

  /** The injection a switch owes is forced when both sets are cached and the packets lack one of them. */
  predicate ForcedFor(owed: bool, u: Unit, raw: seq<Packet>) {
    owed && u.setsReady && !(AnyCarries(raw, 7) && AnyCarries(raw, 8))
  }

  lemma EmittedMade(c: Config, s: State, e: Event, owed: bool, u: Unit, raw: seq<Packet>, sets: Sets)
    requires Emits(c, s, e) == Some(u) && raw == RawOf(c, s, e) && raw != []
    requires sets == Do(c, s, e).sets && s.sets.forceRemaining == (if owed then 1 else 0)
    ensures MadeFrom(u, raw, sets, ForcedFor(owed, u, raw))
  {
    EmittingEvent(c, s, e);
    FinishExact(sets, raw, Assembled(c, s.asm, e.packet, e.now).sourceTS);
  }

  /** What an event emits is made from the packets it assembled and the sets cached once it is done. */
  lemma EmittedExact(c: Config, es: seq<Event>)
    requires es != [] && Emits(c, StateBefore(c, es), es[|es| - 1]).Some?
    ensures var s, e := StateBefore(c, es), es[|es| - 1];
      var u, raw := Emits(c, s, e).value, RawOf(c, s, e);
      && raw != [] && u.sourceTimestamp == raw[0].timestamp
      && MadeFrom(u, raw, StateAfter(c, es).sets, ForcedFor(Owed(es), u, raw))
  {
    var front, s, e := es[..|es| - 1], StateBefore(c, es), es[|es| - 1];
    EmittedIsRecentBlock(c, es);
    EmittingEvent(c, s, e);
    ForcedOncePerSwitch(c, front);
    SplitLast(es);
    OwedSnoc(front, e, es);
    EmittedMade(c, s, e, Owed(front), Emits(c, s, e).value, RawOf(c, s, e), StateAfter(c, es).sets);
  }
}
