/**
  What the presence protocol gives each client over whole runs: a trunk it can use, a REGISTER when it
  is the first, and a cleanup that ends sessions and unregisters only while nobody is bound.
 */
module PresenceRuns {
  import opened AgentPresence

  // ---------------------------------------------------------------- a finished handler finds its trunk registered

  /** The client is bound to the trunk it is resolved to, and its handler is not on the way to registering it. */
  predicate Attached(p: Pc) {
    p == Idle || p.Binding? || p.Unbinding? || p.RegUnlocking?
  }

  predicate IsUnregistering(p: Pc, t: TrunkId) {
    p.Cleaning? && p.target == t && p.phase == Unregistering
  }

  /** The trunk is registered, and no UNREGISTER for it is in flight. */
  ghost predicate Held(s: State, t: TrunkId) {
    t in s.registered && forall d :: d in s.pc ==> !IsUnregistering(s.pc[d], t)
  }

  ghost predicate AttachedHeld(s: State, c: ClientId) {
    c in s.pc && Attached(s.pc[c]) && s.table.ResolvedOf(c) > 0 ==> Held(s, s.table.ResolvedOf(c))
  }

  ghost predicate AllHeld(s: State) {
    forall c :: AttachedHeld(s, c)
  }

  /** A step that changes the table starts a cleanup at most. */
  lemma TableStepPhase(s: State, c: ClientId)
    requires Enabled(s, Advance(c)) && TableStep(s.pc[c])
    ensures var s' := Apply(s, Advance(c));
      && s'.registered == s.registered
      && (s'.pc[c].Cleaning? ==> s'.pc[c].phase == AwaitLock) && !s'.pc[c].Registering?
  {
    var t := if s.pc[c].Binding? then s.pc[c].trunk else 0;
    TableStepsHoldNothing(s, c, t, Bind(s.table, c, t), Unbind(s.table, c));
  }

  /** An UNREGISTER goes into flight only while nobody is bound. */
  lemma UnregisterStarts(s: State, a: Action, t: TrunkId)
    requires Enabled(s, a) && IsUnregistering(Apply(s, a).pc[a.c], t)
    ensures s.table.Members(t) == {}
  {
    if a.Advance? && TableStep(s.pc[a.c]) {
      TableStepPhase(s, a.c);
    }
  }

  lemma UnregisterTakesAway(s: State, a: Action, t: TrunkId)
    requires Enabled(s, a) && t in s.registered && t !in Apply(s, a).registered
    ensures a.c in s.pc && IsUnregistering(s.pc[a.c], t)
  {
    if a.Advance? && TableStep(s.pc[a.c]) {
      TableStepPhase(s, a.c);
    }
  }

  /** A trunk somebody stays bound to stays registered. */
  lemma HeldStays(s: State, a: Action, t: TrunkId)
    requires Enabled(s, a) && Held(s, t) && s.table.Members(t) != {}
    ensures Held(Apply(s, a), t)
  {
    var s' := Apply(s, a);
    if t !in s'.registered {
      UnregisterTakesAway(s, a, t);
    }
    forall d | d in s'.pc
      ensures !IsUnregistering(s'.pc[d], t)
    {
      if d == a.c && IsUnregistering(s'.pc[d], t) {
        UnregisterStarts(s, a, t);
      }
    }
  }

  /** The only ways to become attached to a trunk: find it registered under its lock, or register it. */
  lemma BecomesAttached(s: State, a: Action)
    requires ClientInv(s) && Enabled(s, a)
    requires var s' := Apply(s, a); Attached(s'.pc[a.c]) && s'.table.ResolvedOf(a.c) > 0
    requires !(a.c in s.pc && Attached(s.pc[a.c]))
    ensures a.c in s.pc && Holding(s.pc[a.c]) == s.table.ResolvedOf(a.c)
    ensures s.table.ResolvedOf(a.c) in Apply(s, a).registered && Apply(s, a).table == s.table
    ensures Apply(s, a).pc[a.c].RegUnlocking?
  {
    assert a.c in s.pc ==> BindingMatches(s.pc[a.c], s.table.ResolvedOf(a.c));
    assert a.c !in s.pc ==> s.table.ResolvedOf(a.c) == 0;
  }

  /** While a handler holds the lock of a trunk, no other can be unregistering it. */
  lemma LockKeepsOthersOut(s: State, c: ClientId, d: ClientId, t: TrunkId)
    requires LockInv(s) && c in s.pc && d in s.pc && c != d && Holding(s.pc[c]) == t > 0
    ensures !IsUnregistering(s.pc[d], t)
  {
    assert s.lock[t] == c;
  }

  lemma BecomesHeld(s: State, a: Action)
    requires Inv(s) && Enabled(s, a)
    requires var s' := Apply(s, a); Attached(s'.pc[a.c]) && s'.table.ResolvedOf(a.c) > 0
    requires !(a.c in s.pc && Attached(s.pc[a.c]))
    ensures Held(Apply(s, a), Apply(s, a).table.ResolvedOf(a.c))
  {
    var s' := Apply(s, a);
    BecomesAttached(s, a);
    var t := s.table.ResolvedOf(a.c);
    forall d | d in s'.pc
      ensures !IsUnregistering(s'.pc[d], t)
    {
      if d != a.c {
        LockKeepsOthersOut(s, a.c, d, t);
      }
    }
  }

  lemma AttachedStaysBound(s: State, a: Action)
    requires TableWf(s.table) && ClientInv(s) && Enabled(s, a) && a.c in s.pc && Attached(s.pc[a.c])
    requires var s' := Apply(s, a); Attached(s'.pc[a.c]) && s'.table.ResolvedOf(a.c) > 0
    ensures Apply(s, a).table == s.table
  {
    StepOnTable(s, a);
    if a.Advance? && TableStep(s.pc[a.c]) {
      StepKeepsOwnPc(s, a);
    }
  }

  lemma StepKeepsAttached(s: State, a: Action, c: ClientId)
    requires Inv(s) && AllHeld(s) && Enabled(s, a)
    ensures AttachedHeld(Apply(s, a), c)
  {
    var s' := Apply(s, a);
    if c in s'.pc && Attached(s'.pc[c]) && s'.table.ResolvedOf(c) > 0 {
      if c == a.c && !(c in s.pc && Attached(s.pc[c])) {
        BecomesHeld(s, a);
      } else {
        var t := s.table.ResolvedOf(c);
        StepOnTable(s, a);
        if c == a.c {
          AttachedStaysBound(s, a);
        }
        assert AttachedHeld(s, c) && c in s.table.Members(t);
        HeldStays(s, a, t);
      }
    }
  }

  lemma {:induction false} RunKeepsHeld(s: State, actions: seq<Action>, s': State)
    requires Inv(s) && AllHeld(s) && Runs(s, actions, s')
    ensures Inv(s') && AllHeld(s')
    decreases |actions|
  {
    if actions != [] {
      var next := Apply(s, actions[0]);
      StepKeepsInv(s, actions[0]);
      forall c
        ensures AttachedHeld(next, c)
      {
        StepKeepsAttached(s, actions[0], c);
      }
      RunKeepsHeld(next, actions[1..], s');
    }
  }

  lemma InitHeld()
    ensures Inv(INIT) && AllHeld(INIT)
  {
    InitInv();
  }

  /**
    In every interleaving, a client whose handler has finished and that is resolved to a trunk finds that
    trunk registered, and no UNREGISTER for it in flight, whatever the handlers of other clients are doing.
   */
  lemma FinishedFindsRegistered(actions: seq<Action>, s: State, c: ClientId)
    requires Runs(INIT, actions, s) && c in s.pc && s.pc[c] == Idle && s.table.ResolvedOf(c) > 0
    ensures s.table.ResolvedOf(c) in s.registered
    ensures forall d :: d in s.pc ==> !IsUnregistering(s.pc[d], s.table.ResolvedOf(c))
  {
    InitHeld();
    RunKeepsHeld(INIT, actions, s);
    assert AttachedHeld(s, c);
  }

  /** In every interleaving, an UNREGISTER that completes finds every client bound since still going to register. */
  lemma UnregisteredClientsRegister(actions: seq<Action>, s: State, a: Action, t: TrunkId, c: ClientId)
    requires Runs(INIT, actions, s) && Enabled(s, a)
    requires t in s.registered && t !in Apply(s, a).registered && c in s.table.Members(t)
    ensures c in s.pc && c != a.c && WillRegister(s.pc[c], t)
  {
    InitHeld();
    RunKeepsHeld(INIT, actions, s);
    UnregisterTakesAway(s, a, t);
    assert s.table.ResolvedOf(c) == t > 0;
    assert c in s.pc && BindingMatches(s.pc[c], t);
    assert AttachedHeld(s, c) && !Attached(s.pc[c]);
    assert BindingMatches(s.pc[a.c], s.table.ResolvedOf(a.c));
  }

  // ---------------------------------------------------------------- cleanup looks before every step that harms

  /** The phases that follow a refcount check: sessions listed, sessions ended, UNREGISTER sent. */
  predicate AfterCheck(phase: CleanupPhase) {
    phase == AfterSnapshot || phase == AfterHangup || phase == Unregistering
  }

  /** Sessions are listed and ended, and an UNREGISTER is sent, only right after seeing the trunk unused. */
  lemma HarmOnlyUnused(s: State, a: Action)
    requires Enabled(s, a)
    requires var p := Apply(s, a).pc[a.c]; p.Cleaning? && AfterCheck(p.phase)
    ensures s.table.Members(Apply(s, a).pc[a.c].target) == {}
  {
    if a.Advance? && TableStep(s.pc[a.c]) {
      TableStepPhase(s, a.c);
    }
  }

  /** Steps from a phase until the UNREGISTER has completed, when nobody binds meanwhile. */
  function ToUnregister(phase: CleanupPhase): nat {
    match phase
    case AwaitLock => 5
    case BeforeSnapshot => 4
    case AfterSnapshot => 3
    case AfterHangup => 2
    case Unregistering => 1
    case _ => 0
  }

  function Steps(c: ClientId, n: nat): seq<Action> {
    if n == 0 then [] else [Advance(c)] + Steps(c, n - 1)
  }

  lemma StepsRun(s: State, c: ClientId, n: nat, s': State)
    requires Enabled(s, Advance(c)) && Runs(Apply(s, Advance(c)), Steps(c, n), s')
    ensures Runs(s, Steps(c, n + 1), s')
  {
    RunsCons(s, Advance(c), Steps(c, n), s');
  }

  lemma UnusedStep(s: State, c: ClientId, t: TrunkId, phase: CleanupPhase, k: Continuation, s': State)
    requires c in s.pc && s.pc[c] == Cleaning(t, phase, k) && s.table.Members(t) == {} && ToUnregister(phase) > 0
    requires (phase == AwaitLock ==> t !in s.lock) && s' == Apply(s, Advance(c))
    ensures s'.table == s.table && c in s'.pc && s'.pc[c].Cleaning? && s'.pc[c].target == t && s'.pc[c].next == k
    ensures s'.pc[c].phase != AwaitLock && ToUnregister(s'.pc[c].phase) == ToUnregister(phase) - 1
    ensures ToUnregister(phase) == 1 ==> s'.pc[c].phase == Rechecking && s'.registered == s.registered - {t}
    ensures ToUnregister(phase) > 1 ==> s'.registered == s.registered
  {
  }

  /** A cleanup that finds the trunk unused, and its lock free, goes on to its UNREGISTER and touches no other trunk. */
  lemma {:induction false} UnusedIsUnregistered(
    s: State, c: ClientId, t: TrunkId, phase: CleanupPhase, k: Continuation)
    returns (s': State)
    requires c in s.pc && s.pc[c] == Cleaning(t, phase, k) && s.table.Members(t) == {}
    requires ToUnregister(phase) > 0 && (phase == AwaitLock ==> t !in s.lock)
    ensures Runs(s, Steps(c, ToUnregister(phase)), s')
    ensures s'.registered == s.registered - {t} && s'.table == s.table
    ensures c in s'.pc && s'.pc[c] == Cleaning(t, Rechecking, k)
    decreases ToUnregister(phase)
  {
    var next := Apply(s, Advance(c));
    UnusedStep(s, c, t, phase, k, next);
    if ToUnregister(phase) == 1 {
      s' := next;
      assert Runs(next, Steps(c, 0), s');
    } else {
      s' := UnusedIsUnregistered(next, c, t, next.pc[c].phase, k);
    }
    StepsRun(s, c, ToUnregister(phase) - 1, s');
  }

  /** A cleanup that finds the trunk in use before its UNREGISTER gives up, and only releases the lock. */
  lemma UsedIsLeftAlone(s: State, c: ClientId, t: TrunkId, phase: CleanupPhase, k: Continuation) returns (s': State)
    requires c in s.pc && s.pc[c] == Cleaning(t, phase, k) && s.table.Members(t) != {}
    requires phase == BeforeSnapshot || phase == AfterSnapshot || phase == AfterHangup
    ensures Runs(s, Steps(c, 2), s')
    ensures s'.registered == s.registered && s'.table == s.table && s'.lock == s.lock - {t}
    ensures c in s'.pc && s'.pc[c] == Resume(k)
  {
    var next := Apply(s, Advance(c));
    s' := Apply(next, Advance(c));
    assert Runs(s', Steps(c, 0), s');
    StepsRun(next, c, 0, s');
    StepsRun(s, c, 1, s');
  }

  lemma OtherStepStartsNoCleanup(s: State, a: Action)
    requires Enabled(s, a) && (a.Advance? ==> !TableStep(s.pc[a.c]))
    ensures var p := Apply(s, a).pc[a.c];
      !(p.Cleaning? && p.phase == AwaitLock) && Apply(s, a).table == s.table
  {
  }

  lemma TableStepStartsCleanup(s: State, c: ClientId, t: TrunkId)
    requires Enabled(s, Advance(c)) && TableStep(s.pc[c])
    ensures var p := Apply(s, Advance(c)).pc[c];
      p.Cleaning? && p.target == t && p.phase == AwaitLock <==>
        if s.pc[c].Binding? then
          var o := Bind(s.table, c, s.pc[c].trunk);
          o.oldTrunk == t && o.oldTrunk > 0 && o.oldRemaining == 0 && o.oldTrunk != s.pc[c].trunk
        else
          var o := Unbind(s.table, c);
          o.trunk == t && o.wasBound && o.trunk > 0 && o.remaining == 0
  {
  }

  /** A cleanup starts exactly when a step leaves its trunk without clients, and waits for its lock. */
  lemma CleanupStartsIff(s: State, a: Action, t: TrunkId)
    requires Inv(s) && Enabled(s, a)
    ensures var p := Apply(s, a).pc[a.c];
      p.Cleaning? && p.target == t && p.phase == AwaitLock <==>
        s.table.Members(t) != {} && Apply(s, a).table.Members(t) == {}
  {
    if a.Advance? && TableStep(s.pc[a.c]) {
      TableStepStartsCleanup(s, a.c, t);
      assert BindingMatches(s.pc[a.c], s.table.ResolvedOf(a.c));
      if s.pc[a.c].Binding? {
        BindMoves(s.table, a.c, s.pc[a.c].trunk);
      } else {
        UnbindRemoves(s.table, a.c);
        UnbindReports(s.table, a.c);
      }
    } else {
      OtherStepStartsNoCleanup(s, a);
    }
  }

  // ---------------------------------------------------------------- who sends a REGISTER

  /** The register handler still has to look at its trunk, with or without orders to register it anyway. */
  predicate Pending(p: Pc, t: TrunkId, need: bool) {
    match p
    case Cleaning(_, _, ThenRegister(u, n)) => u == t && n == need
    case RegAwaitLock(u, n) => u == t && n == need
    case RegOwnedCheck(u, n) => u == t && n == need
    case _ => false
  }

  /** The client that finds its trunk without clients is ordered to register it, and no other is. */
  lemma FirstIsOrdered(s: State, c: ClientId, t: TrunkId)
    requires Inv(s) && c in s.pc && s.pc[c] == Binding(t)
    ensures Pending(Apply(s, Advance(c)).pc[c], t, s.table.Members(t) == {})
  {
    assert BindingMatches(s.pc[c], s.table.ResolvedOf(c));
    BindMoves(s.table, c, t);
  }

  /** One step of a pending handler: the order stands until the trunk is looked at under its lock. */
  lemma PendingStep(s: State, a: Action, t: TrunkId, need: bool)
    requires Enabled(s, a) && a.c in s.pc && Pending(s.pc[a.c], t, need)
    ensures var p := Apply(s, a).pc[a.c];
      if !s.pc[a.c].RegOwnedCheck? then Pending(p, t, need)
      else p == (if need || t !in s.registered then Registering(t) else RegUnlocking(t))
  {
  }

  /** On the way through the actions the client's handler sends a REGISTER for t. */
  ghost predicate SendsRegister(s: State, actions: seq<Action>, c: ClientId, t: TrunkId)
    decreases |actions|
  {
    || (c in s.pc && s.pc[c] == Registering(t))
    || (actions != [] && Enabled(s, actions[0]) && SendsRegister(Apply(s, actions[0]), actions[1..], c, t))
  }

  lemma {:induction false} OrderedSends(s: State, actions: seq<Action>, s': State, c: ClientId, t: TrunkId)
    requires Runs(s, actions, s') && c in s.pc && Pending(s.pc[c], t, true)
    requires c in s'.pc && s'.pc[c] == Idle
    ensures SendsRegister(s, actions, c, t)
    decreases |actions|
  {
    var a := actions[0];
    var next := Apply(s, a);
    if a.c == c {
      PendingStep(s, a, t, true);
    }
    if next.pc[c] != Registering(t) {
      OrderedSends(next, actions[1..], s', c, t);
    }
  }

  /** In every interleaving, the first client of a trunk sends a REGISTER before its handler finishes. */
  lemma FirstClientRegisters(before: seq<Action>, s: State, actions: seq<Action>, s': State, c: ClientId, t: TrunkId)
    requires Runs(INIT, before, s) && c in s.pc && s.pc[c] == Binding(t) && s.table.Members(t) == {}
    requires actions != [] && actions[0] == Advance(c) && Runs(s, actions, s')
    requires c in s'.pc && s'.pc[c] == Idle
    ensures SendsRegister(s, actions, c, t)
  {
    InitInv();
    RunKeepsInv(INIT, before, s);
    FirstIsOrdered(s, c, t);
    OrderedSends(Apply(s, actions[0]), actions[1..], s', c, t);
  }

  lemma RegisterComesFrom(s: State, a: Action, t: TrunkId)
    requires Enabled(s, a)
    requires var p := Apply(s, a).pc[a.c]; p == Registering(t) || IsRepairing(p, t)
    ensures a.c in s.pc && (s.table.Members(t) != {} || (s.pc[a.c].RegOwnedCheck? && s.pc[a.c].trunk == t))
  {
    if a.Advance? && TableStep(s.pc[a.c]) {
      TableStepPhase(s, a.c);
    }
  }

  /** In every interleaving a REGISTER is sent, first or as a repair, only for a trunk somebody is bound to. */
  lemma RegisterOnlyUsed(actions: seq<Action>, s: State, a: Action, t: TrunkId)
    requires Runs(INIT, actions, s) && Enabled(s, a)
    requires var p := Apply(s, a).pc[a.c]; p == Registering(t) || IsRepairing(p, t)
    ensures s.table.Members(t) != {}
  {
    InitInv();
    RunKeepsInv(INIT, actions, s);
    RegisterComesFrom(s, a, t);
    assert BindingMatches(s.pc[a.c], s.table.ResolvedOf(a.c));
  }
}
