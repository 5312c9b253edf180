/**
  Agent presence: agent WebSocket clients bind to SIP trunks, and the gateway keeps a trunk
  registered at the SIP registrar exactly while some client is bound to it.

  The bindings live under the server mutex; SIP operations on one trunk are serialized by a lock
  per trunk.  Neither lock is held across a whole handler, so handlers of different clients
  interleave freely between the atomic steps modelled here.  The handlers of one client run in
  sequence (one read loop per socket, cleanup after it), hence one program counter per client.
 */
module AgentPresence {

  type ClientId = nat

  /** Trunk ids are positive; 0 is the source's "no trunk". */
  type TrunkId = nat

  // ---------------------------------------------------------------- bindings under the server mutex

  /** The two fields guarded by the server mutex: trunk -> bound clients, client -> resolved trunk. */
  datatype Bindings = Bindings(bound: map<TrunkId, set<ClientId>>, resolved: map<ClientId, TrunkId>)
  {
    function Members(t: TrunkId): set<ClientId> {
      if t in bound then bound[t] else {}
    }

    function ResolvedOf(c: ClientId): TrunkId {
      if c in resolved then resolved[c] else 0
    }

    /** A set that becomes empty leaves the map. */
    function WithMembers(t: TrunkId, members: set<ClientId>): Bindings {
      if members == {} then this.(bound := bound - {t}) else this.(bound := bound[t := members])
    }
  }

  function Leave(b: Bindings, c: ClientId, t: TrunkId): Bindings {
    if t in b.bound then b.WithMembers(t, b.bound[t] - {c}) else b
  }

  datatype BindOutcome = BindOutcome(after: Bindings, needRegister: bool, oldTrunk: TrunkId, oldRemaining: nat)

  function Bind(b: Bindings, c: ClientId, t: TrunkId): BindOutcome
  {
    var previous := b.ResolvedOf(c);
    var moves := previous > 0 && previous != t;
    var left := b.Members(previous) - {c};
    var b1 := if moves then Leave(b, c, previous) else b;
    var members := b1.Members(t);
    BindOutcome(
      Bindings(b1.bound[t := members + {c}], b1.resolved[c := t]),
      c !in members && |members| == 0,
      if moves then previous else 0,
      if moves then |left| else 0)
  }

  datatype UnbindOutcome = UnbindOutcome(after: Bindings, trunk: TrunkId, remaining: nat, wasBound: bool)

  function Unbind(b: Bindings, c: ClientId): UnbindOutcome
  {
    var t := b.ResolvedOf(c);
    var wasBound := t > 0 && c in b.Members(t);
    var left := b.Members(t) - {c};
    var b1 := if wasBound then Leave(b, c, t) else b;
    UnbindOutcome(b1.(resolved := b1.resolved[c := 0]), t, if wasBound then |left| else 0, wasBound)
  }

  /** The server's presence fields and the two helpers that update them under the server mutex. */
  class PresenceTable {
    var bound: map<TrunkId, set<ClientId>>
    var resolved: map<ClientId, TrunkId>

    ghost function View(): Bindings
      reads this
    {
      Bindings(bound, resolved)
    }

    constructor ()
      ensures View() == Bindings(map[], map[])
    {
      bound, resolved := map[], map[];
    }

    /** Takes a client out of a trunk's set, and the set out of the map when it becomes empty. */
    method Detach(c: ClientId, trunk: TrunkId) returns (remaining: nat)
      modifies this`bound
      ensures View() == Leave(old(View()), c, trunk)
      ensures remaining == |old(View()).Members(trunk) - {c}|
    {
      if trunk !in bound {
        return 0;
      }
      var left := bound[trunk] - {c};
      if left == {} {
        bound := bound - {trunk};
        remaining := 0;
      } else {
        bound := bound[trunk := left];
        remaining := |left|;
      }
    }

    method BindAgentClient(c: ClientId, trunk: TrunkId)
      returns (needRegister: bool, oldTrunk: TrunkId, oldRemaining: nat)
      modifies this
      ensures trunk == 0 ==> View() == old(View()) && !needRegister && oldTrunk == 0 && oldRemaining == 0
      ensures trunk > 0 ==>
        BindOutcome(View(), needRegister, oldTrunk, oldRemaining) == Bind(old(View()), c, trunk)
    {
      needRegister, oldTrunk, oldRemaining := false, 0, 0;
      if trunk == 0 {
        return;
      }
      var previous := if c in resolved then resolved[c] else 0;
      if previous > 0 && previous != trunk {
        oldTrunk := previous;
        oldRemaining := Detach(c, oldTrunk);
      }
      var members := if trunk in bound then bound[trunk] else {};
      needRegister := c !in members && |members| == 0;
      bound := bound[trunk := members + {c}];
      resolved := resolved[c := trunk];
    }

    method UnbindAgentClient(c: ClientId) returns (trunk: TrunkId, remaining: nat, wasBound: bool)
      modifies this
      ensures UnbindOutcome(View(), trunk, remaining, wasBound) == Unbind(old(View()), c)
    {
      trunk, remaining, wasBound := if c in resolved then resolved[c] else 0, 0, false;
      if trunk > 0 && trunk in bound && c in bound[trunk] {
        wasBound := true;
        remaining := Detach(c, trunk);
      }
      resolved := resolved[c := 0];
    }
  }

  // ---------------------------------------------------------------- handlers as program counters

  /** Where a handler stands inside the cleanup of one unused trunk; all but the first hold its lock. */
  datatype CleanupPhase =
    | AwaitLock
    | BeforeSnapshot     // first refcount check
    | AfterSnapshot      // refcount check after listing the trunk's sessions
    | AfterHangup        // refcount check after ending those sessions
    | Unregistering      // UNREGISTER in flight
    | Rechecking         // UNREGISTER done, last refcount check
    | Repairing          // compensating REGISTER in flight
    | Unlocking

  /** What follows the cleanup: the rest of the register handler, or the end of the connection. */
  datatype Continuation = ThenRegister(trunk: TrunkId, need: bool) | ThenGone

  datatype Pc =
    | Idle
    | Binding(trunk: TrunkId)
    | Cleaning(target: TrunkId, phase: CleanupPhase, next: Continuation)
    | RegAwaitLock(trunk: TrunkId, need: bool)
    | RegOwnedCheck(trunk: TrunkId, need: bool)
    | Registering(trunk: TrunkId)
    | RegUnlocking(trunk: TrunkId)
    | Unbinding
    | Gone

  /** Whole protocol state; registered is the set of trunks the trunk manager owns. */
  datatype State = State(
    table: Bindings,
    registered: set<TrunkId>,
    lock: map<TrunkId, ClientId>,
    pc: map<ClientId, Pc>)

  const INIT := State(Bindings(map[], map[]), {}, map[], map[])

  /** A new socket, an agent_register message, a closed socket, or the next step of c's handler. */
  datatype Action =
    | Connect(c: ClientId)
    | Register(c: ClientId, trunk: TrunkId)
    | Disconnect(c: ClientId)
    | Advance(c: ClientId)

  predicate InFlight(p: Pc) {
    p != Idle && p != Gone
  }

  predicate Enabled(s: State, a: Action) {
    match a
    case Connect(c) => c !in s.pc
    case Register(c, t) => c in s.pc && s.pc[c] == Idle && t > 0
    case Disconnect(c) => c in s.pc && s.pc[c] == Idle
    case Advance(c) =>
      c in s.pc && InFlight(s.pc[c]) &&
      match s.pc[c] {
        case Cleaning(t, AwaitLock, _) => t !in s.lock
        case RegAwaitLock(t, _) => t !in s.lock
        case _ => true
      }
  }

  /** Only c's program counter moves. */
  predicate MovesOnly(pc: map<ClientId, Pc>, pc': map<ClientId, Pc>, c: ClientId) {
    pc'.Keys == pc.Keys + {c} && forall d <- pc :: d != c ==> pc'[d] == pc[d]
  }

  function Goto(s: State, c: ClientId, p: Pc): (s': State)
    ensures MovesOnly(s.pc, s'.pc, c)
  {
    s.(pc := s.pc[c := p])
  }

  function Resume(k: Continuation): Pc {
    match k
    case ThenRegister(t, need) => RegAwaitLock(t, need)
    case ThenGone => Gone
  }

  function CleanupStep(s: State, c: ClientId, t: TrunkId, phase: CleanupPhase, k: Continuation): (s': State)
    ensures MovesOnly(s.pc, s'.pc, c)
  {
    var present := s.table.Members(t) != {};
    match phase
    case AwaitLock => Goto(s.(lock := s.lock[t := c]), c, Cleaning(t, BeforeSnapshot, k))
    case BeforeSnapshot => Goto(s, c, Cleaning(t, if present then Unlocking else AfterSnapshot, k))
    case AfterSnapshot => Goto(s, c, Cleaning(t, if present then Unlocking else AfterHangup, k))
    case AfterHangup => Goto(s, c, Cleaning(t, if present then Unlocking else Unregistering, k))
    case Unregistering => Goto(s.(registered := s.registered - {t}), c, Cleaning(t, Rechecking, k))
    case Rechecking => Goto(s, c, Cleaning(t, if present then Repairing else Unlocking, k))
    case Repairing => Goto(s.(registered := s.registered + {t}), c, Cleaning(t, Unlocking, k))
    case Unlocking => Goto(s.(lock := s.lock - {t}), c, Resume(k))
  }

  function BoundStep(s: State, c: ClientId, t: TrunkId, o: BindOutcome): (s': State)
    ensures MovesOnly(s.pc, s'.pc, c)
  {
    Goto(s.(table := o.after), c,
         if o.oldTrunk > 0 && o.oldRemaining == 0 && o.oldTrunk != t
         then Cleaning(o.oldTrunk, AwaitLock, ThenRegister(t, o.needRegister))
         else RegAwaitLock(t, o.needRegister))
  }

  function UnboundStep(s: State, c: ClientId, o: UnbindOutcome): (s': State)
    ensures MovesOnly(s.pc, s'.pc, c)
  {
    Goto(s.(table := o.after), c,
         if o.wasBound && o.trunk > 0 && o.remaining == 0
         then Cleaning(o.trunk, AwaitLock, ThenGone)
         else Gone)
  }

  function AdvanceStep(s: State, c: ClientId): (s': State)
    requires Enabled(s, Advance(c))
    ensures MovesOnly(s.pc, s'.pc, c)
  {
    match s.pc[c]
    case Binding(t) => BoundStep(s, c, t, Bind(s.table, c, t))
    case Cleaning(t, phase, k) => CleanupStep(s, c, t, phase, k)
    case RegAwaitLock(t, need) => Goto(s.(lock := s.lock[t := c]), c, RegOwnedCheck(t, need))
    case RegOwnedCheck(t, need) =>
      Goto(s, c, if need || t !in s.registered then Registering(t) else RegUnlocking(t))
    case Registering(t) => Goto(s.(registered := s.registered + {t}), c, RegUnlocking(t))
    case RegUnlocking(t) => Goto(s.(lock := s.lock - {t}), c, Idle)
    case Unbinding => UnboundStep(s, c, Unbind(s.table, c))
  }

  function Apply(s: State, a: Action): (s': State)
    requires Enabled(s, a)
    ensures MovesOnly(s.pc, s'.pc, a.c)
  {
    match a
    case Connect(c) => Goto(s, c, Idle)
    case Register(c, t) => Goto(s, c, Binding(t))
    case Disconnect(c) => Goto(s, c, Unbinding)
    case Advance(c) => AdvanceStep(s, c)
  }

  /** The interleaving as runs every action in turn from s and ends in s'. */
  predicate Runs(s: State, actions: seq<Action>, s': State)
    decreases |actions|
  {
    if actions == [] then s == s'
    else Enabled(s, actions[0]) && Runs(Apply(s, actions[0]), actions[1..], s')
  }

  predicate Quiet(s: State) {
    forall c :: c in s.pc ==> !InFlight(s.pc[c])
  }

  // ---------------------------------------------------------------- the inductive invariant

  /** The trunk whose operation lock a handler holds at this point, 0 when none. */
  function Holding(p: Pc): TrunkId {
    match p
    case Cleaning(t, phase, _) => if phase == AwaitLock then 0 else t
    case RegOwnedCheck(t, _) => t
    case Registering(t) => t
    case RegUnlocking(t) => t
    case _ => 0
  }

  /** The handler will still look at t and register it if t is then unregistered but bound. */
  predicate WillRegister(p: Pc, t: TrunkId) {
    match p
    case Cleaning(u, phase, k) =>
      (u == t && (phase == Rechecking || phase == Repairing)) || (k.ThenRegister? && k.trunk == t)
    case RegAwaitLock(u, _) => u == t
    case RegOwnedCheck(u, _) => u == t
    case Registering(u) => u == t
    case _ => false
  }

  /** The handler will still look at t and unregister it if t is then unbound. */
  predicate WillUnregister(p: Pc, t: TrunkId) {
    p.Cleaning? && p.target == t &&
    p.phase != Rechecking && p.phase != Repairing && p.phase != Unlocking
  }

  predicate IsRepairing(p: Pc, t: TrunkId) {
    p.Cleaning? && p.target == t && p.phase == Repairing
  }

  /** What c's program counter says about c's own binding. */
  predicate BindingMatches(p: Pc, resolved: TrunkId) {
    match p
    case Binding(t) => t > 0
    case Cleaning(u, _, ThenRegister(t, _)) => resolved == t > 0 && u > 0 && u != t
    case Cleaning(u, _, ThenGone) => resolved == 0 && u > 0
    case RegAwaitLock(t, _) => resolved == t > 0
    case RegOwnedCheck(t, _) => resolved == t > 0
    case Registering(t) => resolved == t > 0
    case RegUnlocking(t) => resolved == t > 0
    case Gone => resolved == 0
    case _ => true
  }

  /** Both fields tell the same story: c is in t's set exactly when c is resolved to t. */
  ghost predicate TableWf(b: Bindings) {
    && (forall t, c :: c in b.Members(t) ==> b.ResolvedOf(c) == t && t > 0)
    && (forall c :: b.ResolvedOf(c) > 0 ==> c in b.Members(b.ResolvedOf(c)))
  }

  ghost predicate ClientInv(s: State) {
    forall c :: if c in s.pc then BindingMatches(s.pc[c], s.table.ResolvedOf(c)) else s.table.ResolvedOf(c) == 0
  }

  /** A handler that holds a trunk's lock is its owner, and every lock held is held by its owner. */
  ghost predicate HoldersAgree(pc: map<ClientId, Pc>, lock: map<TrunkId, ClientId>) {
    && (forall c :: c in pc && Holding(pc[c]) > 0 ==> Holding(pc[c]) in lock && lock[Holding(pc[c])] == c)
    && (forall t :: t in lock ==> lock[t] in pc && t > 0 && Holding(pc[lock[t]]) == t)
  }

  ghost predicate LockInv(s: State) {
    HoldersAgree(s.pc, s.lock)
  }

  ghost predicate SomeoneWillRegister(s: State, t: TrunkId) {
    exists c :: c in s.pc && WillRegister(s.pc[c], t)
  }

  ghost predicate SomeoneWillUnregister(s: State, t: TrunkId) {
    exists c :: c in s.pc && WillUnregister(s.pc[c], t)
  }

  ghost predicate SomeoneRepairs(s: State, t: TrunkId) {
    exists c :: c in s.pc && IsRepairing(s.pc[c], t)
  }

  /** A bound but unregistered trunk, and an unbound but (soon) registered one, have a handler that will notice. */
  ghost predicate TrunkInv(s: State, t: TrunkId) {
    && (s.table.Members(t) != {} && t !in s.registered ==> SomeoneWillRegister(s, t))
    && (s.table.Members(t) == {} && (t in s.registered || SomeoneRepairs(s, t)) ==> SomeoneWillUnregister(s, t))
  }

  ghost predicate Inv(s: State) {
    TableWf(s.table) && ClientInv(s) && LockInv(s) && forall t :: TrunkInv(s, t)
  }

  // ---------------------------------------------------------------- the two table updates

  lemma MembersAfterLeave(b: Bindings, c: ClientId, t: TrunkId, u: TrunkId)
    ensures Leave(b, c, t).Members(u) == if u == t then b.Members(u) - {c} else b.Members(u)
  {
  }

  lemma LeaveNothing(b: Bindings, c: ClientId, u: TrunkId)
    requires TableWf(b) && u != b.ResolvedOf(c)
    ensures c !in b.Members(u) && b.Members(u) - {c} == b.Members(u)
  {
  }

  /** What a client's membership looks like once it has moved to t, or nowhere when t is 0. */
  function Moved(members: set<ClientId>, c: ClientId, t: TrunkId, u: TrunkId): set<ClientId> {
    if u == t && t > 0 then members + {c} else members - {c}
  }

  /** Moving a client keeps sets and fields in agreement. */
  lemma MovedWf(b: Bindings, b': Bindings, c: ClientId, t: TrunkId)
    requires TableWf(b)
    requires forall d :: b'.ResolvedOf(d) == if d == c then t else b.ResolvedOf(d)
    requires forall u :: b'.Members(u) == Moved(b.Members(u), c, t, u)
    ensures TableWf(b')
  {
    forall u, d | d in b'.Members(u)
      ensures b'.ResolvedOf(d) == u && u > 0
    {
      assert d == c || d in b.Members(u);
    }
    forall d | b'.ResolvedOf(d) > 0
      ensures d in b'.Members(b'.ResolvedOf(d))
    {
      var u := b'.ResolvedOf(d);
      assert b'.Members(u) == Moved(b.Members(u), c, t, u);
      assert d == c || d in b.Members(u);
    }
  }

  lemma MembersAfterBind(b: Bindings, c: ClientId, t: TrunkId, u: TrunkId)
    requires TableWf(b) && t > 0
    ensures Bind(b, c, t).after.Members(u) == Moved(b.Members(u), c, t, u)
  {
    var previous := b.ResolvedOf(c);
    MembersAfterLeave(b, c, previous, u);
    var b1 := if previous > 0 && previous != t then Leave(b, c, previous) else b;
    assert Bind(b, c, t).after.Members(u) == if u == t then b1.Members(t) + {c} else b1.Members(u);
    if u != previous {
      LeaveNothing(b, c, u);
    }
  }

  lemma BindResolves(b: Bindings, c: ClientId, t: TrunkId, d: ClientId)
    ensures Bind(b, c, t).after.ResolvedOf(d) == if d == c then t else b.ResolvedOf(d)
  {
  }

  /** The trunk that a move empties is the one left, when nobody remains there. */
  lemma EmptiedByMove(b: Bindings, c: ClientId, t: TrunkId, u: TrunkId)
    requires TableWf(b)
    ensures b.Members(u) != {} && Moved(b.Members(u), c, t, u) == {} <==>
      u == b.ResolvedOf(c) && u > 0 && u != t && b.Members(u) - {c} == {}
  {
    if u != b.ResolvedOf(c) {
      LeaveNothing(b, c, u);
    }
  }

  /** The outcome of a bind, trunk by trunk. */
  lemma BindReports(b: Bindings, c: ClientId, t: TrunkId)
    requires TableWf(b) && t > 0
    ensures var o := Bind(b, c, t);
      var previous := b.ResolvedOf(c);
      && o.oldTrunk == (if previous > 0 && previous != t then previous else 0)
      && (o.oldTrunk > 0 ==> o.oldRemaining == |b.Members(previous) - {c}|)
      && (o.needRegister <==> |b.Members(t)| == 0)
  {
    var previous := b.ResolvedOf(c);
    MembersAfterLeave(b, c, previous, t);
    if previous != t {
      LeaveNothing(b, c, t);
    } else {
      EmptySize(b.Members(t));
    }
  }

  lemma EmptySize<T>(s: set<T>)
    ensures |s| == 0 <==> s == {}
  {
  }

  /** Binding moves c to t and touches no other membership; the outcome tells who became unbound. */
  lemma BindMoves(b: Bindings, c: ClientId, t: TrunkId)
    requires TableWf(b) && t > 0
    ensures var o := Bind(b, c, t);
      && (forall d :: o.after.ResolvedOf(d) == if d == c then t else b.ResolvedOf(d))
      && (forall u :: o.after.Members(u) == if u == t then b.Members(u) + {c} else b.Members(u) - {c})
      && TableWf(o.after)
      && (forall u :: b.Members(u) != {} && o.after.Members(u) == {} <==>
            u == o.oldTrunk && o.oldTrunk > 0 && o.oldRemaining == 0)
      && (o.needRegister <==> b.Members(t) == {})
      && o.oldTrunk == (if b.ResolvedOf(c) == t then 0 else b.ResolvedOf(c))
      && (o.oldTrunk > 0 ==> o.oldRemaining == |o.after.Members(o.oldTrunk)|)
  {
    var o := Bind(b, c, t);
    BindReports(b, c, t);
    EmptySize(b.Members(t));
    EmptySize(b.Members(b.ResolvedOf(c)) - {c});
    forall u
      ensures o.after.Members(u) == Moved(b.Members(u), c, t, u)
      ensures b.Members(u) != {} && o.after.Members(u) == {} <==>
              u == o.oldTrunk && o.oldTrunk > 0 && o.oldRemaining == 0
    {
      MembersAfterBind(b, c, t, u);
      EmptiedByMove(b, c, t, u);
    }
    forall d
      ensures o.after.ResolvedOf(d) == if d == c then t else b.ResolvedOf(d)
    {
      BindResolves(b, c, t, d);
    }
    MovedWf(b, o.after, c, t);
  }

  lemma MembersAfterUnbind(b: Bindings, c: ClientId, u: TrunkId)
    requires TableWf(b)
    ensures Unbind(b, c).after.Members(u) == b.Members(u) - {c}
  {
    var t := b.ResolvedOf(c);
    MembersAfterLeave(b, c, t, u);
    if u != t {
      LeaveNothing(b, c, u);
    }
  }

  lemma UnbindReports(b: Bindings, c: ClientId)
    requires TableWf(b)
    ensures var o := Unbind(b, c);
      && o.trunk == b.ResolvedOf(c) && (o.wasBound <==> o.trunk > 0)
      && (o.wasBound ==> o.remaining == |b.Members(o.trunk) - {c}|)
      && forall d :: o.after.ResolvedOf(d) == if d == c then 0 else b.ResolvedOf(d)
  {
  }

  /** Unbinding removes c everywhere; remaining is zero for a bound client just when it was the last. */
  lemma UnbindRemoves(b: Bindings, c: ClientId)
    requires TableWf(b)
    ensures var o := Unbind(b, c);
      && (forall d :: o.after.ResolvedOf(d) == if d == c then 0 else b.ResolvedOf(d))
      && (forall u :: o.after.Members(u) == b.Members(u) - {c})
      && TableWf(o.after)
      && (forall u :: b.Members(u) != {} && o.after.Members(u) == {} <==>
            u == o.trunk && o.wasBound && o.remaining == 0)
      && o.trunk == b.ResolvedOf(c) && (o.wasBound <==> o.trunk > 0)
      && (o.wasBound ==> o.remaining == |o.after.Members(o.trunk)|)
  {
    var o := Unbind(b, c);
    UnbindReports(b, c);
    EmptySize(b.Members(o.trunk) - {c});
    forall u
      ensures o.after.Members(u) == Moved(b.Members(u), c, 0, u)
      ensures b.Members(u) != {} && o.after.Members(u) == {} <==> u == o.trunk && o.wasBound && o.remaining == 0
    {
      MembersAfterUnbind(b, c, u);
      EmptiedByMove(b, c, 0, u);
    }
    MovedWf(b, o.after, c, 0);
  }

  // ---------------------------------------------------------------- every step keeps the invariant

  /** The effect of a step on the table: at most the stepping client's own binding changes. */
  lemma StepOnTable(s: State, a: Action)
    requires TableWf(s.table) && ClientInv(s) && Enabled(s, a)
    ensures var s' := Apply(s, a);
      && TableWf(s'.table)
      && (forall d :: d != a.c ==> s'.table.ResolvedOf(d) == s.table.ResolvedOf(d))
      && (!a.Advance? || !(s.pc[a.c].Binding? || s.pc[a.c].Unbinding?) ==> s'.table == s.table)
  {
    if a.Advance? {
      if s.pc[a.c].Binding? {
        BindMoves(s.table, a.c, s.pc[a.c].trunk);
      } else if s.pc[a.c].Unbinding? {
        UnbindRemoves(s.table, a.c);
      }
    }
  }

  /** The two steps that change the table leave their own client's counter in agreement with it. */
  lemma TableStepKeepsOwnPc(s: State, c: ClientId)
    requires TableWf(s.table) && ClientInv(s) && Enabled(s, Advance(c))
    requires s.pc[c].Binding? || s.pc[c].Unbinding?
    ensures var s' := Apply(s, Advance(c)); BindingMatches(s'.pc[c], s'.table.ResolvedOf(c))
  {
    assert BindingMatches(s.pc[c], s.table.ResolvedOf(c));
    if s.pc[c].Binding? {
      BindMoves(s.table, c, s.pc[c].trunk);
    } else {
      UnbindRemoves(s.table, c);
    }
  }

  predicate TableStep(p: Pc) {
    p.Binding? || p.Unbinding?
  }

  lemma CleanupKeepsOwnPc(s: State, c: ClientId, s': State)
    requires Enabled(s, Advance(c)) && s.pc[c].Cleaning? && s' == Apply(s, Advance(c))
    requires BindingMatches(s.pc[c], s.table.ResolvedOf(c))
    ensures s'.table == s.table && BindingMatches(s'.pc[c], s.table.ResolvedOf(c))
  {
  }

  lemma OtherStepKeepsOwnPc(s: State, c: ClientId, s': State)
    requires Enabled(s, Advance(c)) && !TableStep(s.pc[c]) && s' == Apply(s, Advance(c))
    requires BindingMatches(s.pc[c], s.table.ResolvedOf(c))
    ensures s'.table == s.table && BindingMatches(s'.pc[c], s.table.ResolvedOf(c))
  {
    if s.pc[c].Cleaning? {
      CleanupKeepsOwnPc(s, c, s');
    }
  }

  lemma StepKeepsOwnPc(s: State, a: Action)
    requires TableWf(s.table) && ClientInv(s) && Enabled(s, a)
    ensures var s' := Apply(s, a); BindingMatches(s'.pc[a.c], s'.table.ResolvedOf(a.c))
  {
    if a.Advance? {
      if TableStep(s.pc[a.c]) {
        TableStepKeepsOwnPc(s, a.c);
      } else {
        OtherStepKeepsOwnPc(s, a.c, Apply(s, a));
      }
    }
  }

  lemma StepKeepsClients(s: State, a: Action)
    requires Inv(s) && Enabled(s, a)
    ensures ClientInv(Apply(s, a))
  {
    StepOnTable(s, a);
    StepKeepsOwnPc(s, a);
  }

  /** How a step that moves one handler from holding before to holding after changes the locks. */
  predicate LockMove(lock: map<TrunkId, ClientId>, lock': map<TrunkId, ClientId>, c: ClientId,
                     before: TrunkId, after: TrunkId)
  {
    || (before == after && lock' == lock)
    || (before == 0 && after > 0 && after !in lock && lock' == lock[after := c])
    || (before > 0 && after == 0 && lock' == lock - {before})
  }

  lemma CleanupOnLocks(s: State, c: ClientId, s': State)
    requires Enabled(s, Advance(c)) && s.pc[c].Cleaning? && s' == Apply(s, Advance(c))
    requires BindingMatches(s.pc[c], s.table.ResolvedOf(c))
    ensures LockMove(s.lock, s'.lock, c, Holding(s.pc[c]), Holding(s'.pc[c]))
  {
  }

  lemma TableStepsHoldNothing(s: State, c: ClientId, t: TrunkId, o: BindOutcome, u: UnbindOutcome)
    ensures var s' := BoundStep(s, c, t, o);
      s'.lock == s.lock && s'.registered == s.registered && Holding(s'.pc[c]) == 0
    ensures var s' := UnboundStep(s, c, u);
      s'.lock == s.lock && s'.registered == s.registered && Holding(s'.pc[c]) == 0
  {
  }

  /** The steps that change the table touch neither locks nor registrations. */
  lemma TableStepLeavesRest(s: State, c: ClientId, s': State)
    requires Enabled(s, Advance(c)) && TableStep(s.pc[c]) && s' == Apply(s, Advance(c))
    ensures s'.registered == s.registered && s'.lock == s.lock
    ensures Holding(s.pc[c]) == 0 && Holding(s'.pc[c]) == 0
  {
    var t := if s.pc[c].Binding? then s.pc[c].trunk else 0;
    TableStepsHoldNothing(s, c, t, Bind(s.table, c, t), Unbind(s.table, c));
  }

  lemma RegisterOnLocks(s: State, c: ClientId, s': State)
    requires Enabled(s, Advance(c)) && !s.pc[c].Cleaning? && !TableStep(s.pc[c]) && s' == Apply(s, Advance(c))
    requires BindingMatches(s.pc[c], s.table.ResolvedOf(c))
    ensures LockMove(s.lock, s'.lock, c, Holding(s.pc[c]), Holding(s'.pc[c]))
  {
  }

  /** A step may take a free lock, or release the one its handler holds. */
  lemma StepOnLocks(s: State, a: Action)
    requires ClientInv(s) && Enabled(s, a)
    ensures var s' := Apply(s, a);
      LockMove(s.lock, s'.lock, a.c, if a.c in s.pc then Holding(s.pc[a.c]) else 0, Holding(s'.pc[a.c]))
  {
    if a.Advance? {
      assert BindingMatches(s.pc[a.c], s.table.ResolvedOf(a.c));
      if s.pc[a.c].Cleaning? {
        CleanupOnLocks(s, a.c, Apply(s, a));
      } else if TableStep(s.pc[a.c]) {
        TableStepLeavesRest(s, a.c, Apply(s, a));
      } else {
        RegisterOnLocks(s, a.c, Apply(s, a));
      }
    }
  }

  lemma MoveKeepsHolders(pc: map<ClientId, Pc>, lock: map<TrunkId, ClientId>, c: ClientId,
                         pc': map<ClientId, Pc>, lock': map<TrunkId, ClientId>, before: TrunkId, after: TrunkId)
    requires HoldersAgree(pc, lock) && pc'.Keys == pc.Keys + {c}
    requires forall d :: d in pc && d != c ==> pc'[d] == pc[d]
    requires before == (if c in pc then Holding(pc[c]) else 0) && after == Holding(pc'[c])
    requires LockMove(lock, lock', c, before, after)
    ensures HoldersAgree(pc', lock')
  {
    forall d | d in pc' && Holding(pc'[d]) > 0
      ensures Holding(pc'[d]) in lock' && lock'[Holding(pc'[d])] == d
    {
      if d != c {
        assert d in pc && lock[Holding(pc[d])] == d;
      }
    }
    forall t | t in lock'
      ensures lock'[t] in pc' && t > 0 && Holding(pc'[lock'[t]]) == t
    {
      if lock'[t] != c {
        assert t in lock && lock[t] in pc;
      }
    }
  }

  lemma StepKeepsLocks(s: State, a: Action)
    requires ClientInv(s) && LockInv(s) && Enabled(s, a)
    ensures LockInv(Apply(s, a))
  {
    var s' := Apply(s, a);
    StepOnLocks(s, a);
    var before := if a.c in s.pc then Holding(s.pc[a.c]) else 0;
    MoveKeepsHolders(s.pc, s.lock, a.c, s'.pc, s'.lock, before, Holding(s'.pc[a.c]));
  }

  lemma TableStepBoundUnwatched(s: State, c: ClientId, t: TrunkId)
    requires TableWf(s.table) && ClientInv(s) && Enabled(s, Advance(c))
    requires s.pc[c].Binding? || s.pc[c].Unbinding?
    requires var s' := Apply(s, Advance(c)); s'.table.Members(t) != {} && !WillRegister(s'.pc[c], t)
    ensures s.table.Members(t) != {}
  {
    if s.pc[c].Binding? {
      BindMoves(s.table, c, s.pc[c].trunk);
    } else {
      UnbindRemoves(s.table, c);
    }
  }

  /** A handler that would register a bound trunk still will after its step, unless it has. */
  lemma RegisteringGoesOn(s: State, c: ClientId, t: TrunkId, s': State)
    requires Enabled(s, Advance(c)) && !TableStep(s.pc[c]) && s' == Apply(s, Advance(c))
    requires s.table.Members(t) != {} && WillRegister(s.pc[c], t)
    ensures WillRegister(s'.pc[c], t) || t in s'.registered
  {
    if s.pc[c].Cleaning? {
      CleanupGoesOnToRegister(s, c, t, s');
    }
  }

  lemma CleanupGoesOnToRegister(s: State, c: ClientId, t: TrunkId, s': State)
    requires Enabled(s, Advance(c)) && s.pc[c].Cleaning? && s' == Apply(s, Advance(c))
    requires s.table.Members(t) != {} && WillRegister(s.pc[c], t)
    ensures WillRegister(s'.pc[c], t) || t in s'.registered
  {
  }

  /** Only an UNREGISTER takes a trunk away, and its handler looks at the trunk once more. */
  lemma UnregisteredBy(s: State, c: ClientId, t: TrunkId, s': State)
    requires Enabled(s, Advance(c)) && s' == Apply(s, Advance(c))
    requires t in s.registered && t !in s'.registered
    ensures s.pc[c].Cleaning? && s.pc[c].target == t && WillRegister(s'.pc[c], t)
  {
  }

  /** A step that leaves t bound but unregistered, and is not itself bound to notice, found t that way. */
  lemma BoundUnwatchedBefore(s: State, a: Action, t: TrunkId)
    requires TableWf(s.table) && ClientInv(s) && Enabled(s, a)
    requires var s' := Apply(s, a);
      s'.table.Members(t) != {} && t !in s'.registered && !WillRegister(s'.pc[a.c], t)
    ensures s.table.Members(t) != {} && t !in s.registered
    ensures a.c in s.pc ==> !WillRegister(s.pc[a.c], t)
  {
    if a.Advance? {
      var s' := Apply(s, a);
      if t in s.registered {
        UnregisteredBy(s, a.c, t, s');
      }
      if TableStep(s.pc[a.c]) {
        TableStepBoundUnwatched(s, a.c, t);
      } else {
        OtherStepKeepsOwnPc(s, a.c, s');
        if WillRegister(s.pc[a.c], t) {
          RegisteringGoesOn(s, a.c, t, s');
        }
      }
    }
  }

  /** After any step, a trunk that is bound but unregistered is watched by a handler. */
  lemma StepKeepsBoundWatched(s: State, a: Action, t: TrunkId)
    requires TableWf(s.table) && ClientInv(s) && TrunkInv(s, t) && Enabled(s, a)
    ensures var s' := Apply(s, a);
      s'.table.Members(t) != {} && t !in s'.registered ==> SomeoneWillRegister(s', t)
  {
    var s' := Apply(s, a);
    if s'.table.Members(t) != {} && t !in s'.registered && !WillRegister(s'.pc[a.c], t) {
      BoundUnwatchedBefore(s, a, t);
      var w :| w in s.pc && WillRegister(s.pc[w], t);
      assert w in s'.pc && WillRegister(s'.pc[w], t);
    }
  }

  /** The operation lock keeps a repair and an unregister of the same trunk apart. */
  lemma RepairExcludesUnregister(s: State, c: ClientId, t: TrunkId)
    requires ClientInv(s) && LockInv(s) && c in s.pc && SomeoneRepairs(s, t)
    ensures !(s.pc[c].Cleaning? && s.pc[c].target == t && s.pc[c].phase == Unregistering)
  {
    var w :| w in s.pc && IsRepairing(s.pc[w], t);
    assert BindingMatches(s.pc[w], s.table.ResolvedOf(w));
    assert Holding(s.pc[w]) == t > 0;
  }

  /** A repair under way after a step of a client that does not see t bound was under way before. */
  lemma RepairingBefore(s: State, a: Action, t: TrunkId)
    requires Enabled(s, a) && SomeoneRepairs(Apply(s, a), t)
    requires Apply(s, a).table.Members(t) == {}
    ensures SomeoneRepairs(s, t)
  {
    var w :| w in Apply(s, a).pc && IsRepairing(Apply(s, a).pc[w], t);
    assert w != a.c;
    assert w in s.pc && IsRepairing(s.pc[w], t);
  }

  /** A handler that would unregister an unbound trunk still will after its step, unless it just has. */
  lemma UnregisteringGoesOn(s: State, c: ClientId, t: TrunkId, s': State)
    requires Enabled(s, Advance(c)) && s' == Apply(s, Advance(c))
    requires s.table.Members(t) == {} && WillUnregister(s.pc[c], t)
    ensures WillUnregister(s'.pc[c], t) || (s.pc[c].phase == Unregistering && t !in s'.registered)
  {
  }

  /** Only a REGISTER adds a trunk. */
  lemma RegisteredBy(s: State, c: ClientId, t: TrunkId, s': State)
    requires Enabled(s, Advance(c)) && s' == Apply(s, Advance(c))
    requires t !in s.registered && t in s'.registered
    ensures s.pc[c] == Registering(t) || IsRepairing(s.pc[c], t)
  {
  }

  /** A table step that leaves t unbound without taking on its cleanup found it unbound. */
  lemma TableStepUnboundUnwatched(s: State, c: ClientId, t: TrunkId)
    requires TableWf(s.table) && ClientInv(s) && Enabled(s, Advance(c)) && TableStep(s.pc[c])
    requires var s' := Apply(s, Advance(c)); s'.table.Members(t) == {} && !WillUnregister(s'.pc[c], t)
    ensures s.table.Members(t) == {}
  {
    if s.pc[c].Binding? {
      assert BindingMatches(s.pc[c], s.table.ResolvedOf(c));
      BindMoves(s.table, c, s.pc[c].trunk);
    } else {
      UnbindRemoves(s.table, c);
    }
  }

  lemma OtherStepUnboundBefore(s: State, c: ClientId, t: TrunkId, s': State, repairing: bool)
    requires TableWf(s.table) && ClientInv(s) && LockInv(s) && Enabled(s, Advance(c)) && !TableStep(s.pc[c])
    requires s' == Apply(s, Advance(c)) && s'.table.Members(t) == {} && !WillUnregister(s'.pc[c], t)
    requires repairing ==> SomeoneRepairs(s, t)
    requires t in s'.registered || repairing
    ensures s.table.Members(t) == {} && (t in s.registered || SomeoneRepairs(s, t)) && !WillUnregister(s.pc[c], t)
  {
    assert BindingMatches(s.pc[c], s.table.ResolvedOf(c));
    OtherStepKeepsOwnPc(s, c, s');
    if !repairing && t !in s.registered {
      RegisteredBy(s, c, t, s');
    }
    if WillUnregister(s.pc[c], t) {
      UnregisteringGoesOn(s, c, t, s');
      if repairing {
        RepairExcludesUnregister(s, c, t);
      }
    }
  }

  /** The mirror image, for a trunk that is unbound while registered or about to be repaired. */
  lemma UnboundUnwatchedBefore(s: State, a: Action, t: TrunkId)
    requires TableWf(s.table) && ClientInv(s) && LockInv(s) && Enabled(s, a)
    requires var s' := Apply(s, a);
      s'.table.Members(t) == {} && (t in s'.registered || SomeoneRepairs(s', t)) && !WillUnregister(s'.pc[a.c], t)
    ensures s.table.Members(t) == {} && (t in s.registered || SomeoneRepairs(s, t))
    ensures a.c in s.pc ==> !WillUnregister(s.pc[a.c], t)
  {
    var s' := Apply(s, a);
    var repairing := SomeoneRepairs(s', t);
    if repairing {
      RepairingBefore(s, a, t);
    }
    if a.Advance? {
      if TableStep(s.pc[a.c]) {
        TableStepUnboundUnwatched(s, a.c, t);
        TableStepLeavesRest(s, a.c, s');
      } else {
        OtherStepUnboundBefore(s, a.c, t, s', repairing);
      }
    }
  }

  lemma StepKeepsUnboundWatched(s: State, a: Action, t: TrunkId)
    requires TableWf(s.table) && ClientInv(s) && LockInv(s) && TrunkInv(s, t) && Enabled(s, a)
    ensures var s' := Apply(s, a);
      s'.table.Members(t) == {} && (t in s'.registered || SomeoneRepairs(s', t)) ==> SomeoneWillUnregister(s', t)
  {
    var s' := Apply(s, a);
    if s'.table.Members(t) == {} && (t in s'.registered || SomeoneRepairs(s', t)) && !WillUnregister(s'.pc[a.c], t) {
      UnboundUnwatchedBefore(s, a, t);
      var w :| w in s.pc && WillUnregister(s.pc[w], t);
      assert w in s'.pc && WillUnregister(s'.pc[w], t);
    }
  }

  lemma StepKeepsInv(s: State, a: Action)
    requires Inv(s) && Enabled(s, a)
    ensures Inv(Apply(s, a))
  {
    StepOnTable(s, a);
    StepKeepsClients(s, a);
    StepKeepsLocks(s, a);
    forall t
      ensures TrunkInv(Apply(s, a), t)
    {
      StepKeepsBoundWatched(s, a, t);
      StepKeepsUnboundWatched(s, a, t);
    }
  }

  lemma InitInv()
    ensures Inv(INIT)
  {
    forall t
      ensures TrunkInv(INIT, t)
    {
      assert INIT.table.Members(t) == {};
    }
  }

  lemma {:induction false} RunKeepsInv(s: State, actions: seq<Action>, s': State)
    requires Inv(s) && Runs(s, actions, s')
    ensures Inv(s')
    decreases |actions|
  {
    if actions != [] {
      StepKeepsInv(s, actions[0]);
      RunKeepsInv(Apply(s, actions[0]), actions[1..], s');
    }
  }

  // ---------------------------------------------------------------- main results

  /** The handler at this point may still operate on t. */
  predicate Concerns(p: Pc, t: TrunkId) {
    match p
    case Binding(u) => u == t
    case Cleaning(u, _, k) => u == t || (k.ThenRegister? && k.trunk == t)
    case RegAwaitLock(u, _) => u == t
    case RegOwnedCheck(u, _) => u == t
    case Registering(u) => u == t
    case RegUnlocking(u) => u == t
    case _ => false
  }

  lemma UnconcernedIgnores(p: Pc, t: TrunkId)
    requires !Concerns(p, t)
    ensures !WillRegister(p, t) && !WillUnregister(p, t) && !IsRepairing(p, t)
  {
  }

  lemma NobodyWatches(s: State, t: TrunkId)
    requires forall c :: c in s.pc ==> !Concerns(s.pc[c], t)
    ensures !SomeoneWillRegister(s, t) && !SomeoneWillUnregister(s, t)
  {
    forall c | c in s.pc
      ensures !WillRegister(s.pc[c], t) && !WillUnregister(s.pc[c], t)
    {
      UnconcernedIgnores(s.pc[c], t);
    }
  }

  /**
    In every interleaving, a trunk that no handler is working on is registered exactly when some
    client is bound to it, whatever handlers of other trunks are doing.
   */
  lemma UntouchedTrunkMatchesPresence(actions: seq<Action>, s: State, t: TrunkId)
    requires Runs(INIT, actions, s)
    requires forall c :: c in s.pc ==> !Concerns(s.pc[c], t)
    ensures t in s.registered <==> s.table.Members(t) != {}
  {
    InitInv();
    RunKeepsInv(INIT, actions, s);
    NobodyWatches(s, t);
    assert TrunkInv(s, t);
  }

  lemma NoLocksWhenQuiet(s: State)
    requires LockInv(s) && Quiet(s)
    ensures forall t :: t !in s.lock
  {
  }

  /** With no handler in flight, the registered trunks are the trunks in the binding map. */
  lemma QuietMatchesPresence(actions: seq<Action>, s: State)
    requires Runs(INIT, actions, s) && Quiet(s)
    ensures forall t :: t in s.registered <==> s.table.Members(t) != {}
    ensures forall t :: t !in s.lock
  {
    forall t
      ensures t in s.registered <==> s.table.Members(t) != {}
    {
      UntouchedTrunkMatchesPresence(actions, s, t);
    }
    InitInv();
    RunKeepsInv(INIT, actions, s);
    NoLocksWhenQuiet(s);
  }

  /** The two trunk locks never deadlock: while a handler is in flight, some handler can step. */
  lemma SomeHandlerCanStep(s: State)
    requires ClientInv(s) && LockInv(s) && !Quiet(s)
    ensures exists c :: Enabled(s, Advance(c))
  {
    var c :| c in s.pc && InFlight(s.pc[c]);
    if !Enabled(s, Advance(c)) {
      var t := if s.pc[c].Cleaning? then s.pc[c].target else s.pc[c].trunk;
      var holder := s.lock[t];
      assert Holding(s.pc[holder]) == t > 0;
      assert Enabled(s, Advance(holder));
    }
  }

  /** Steps a handler has left at most. */
  function Rank(p: Pc): nat {
    match p
    case Idle => 0
    case Gone => 0
    case RegUnlocking(_) => 1
    case Registering(_) => 2
    case RegOwnedCheck(_, _) => 3
    case RegAwaitLock(_, _) => 4
    case Cleaning(_, phase, _) =>
      (match phase
       case Unlocking => 5
       case Repairing => 6
       case Rechecking => 7
       case Unregistering => 8
       case AfterHangup => 9
       case AfterSnapshot => 10
       case BeforeSnapshot => 11
       case AwaitLock => 12)
    case Binding(_) => 13
    case Unbinding => 13
  }

  ghost function TotalRank(pc: map<ClientId, Pc>): nat {
    if pc == map[] then 0
    else var c :| c in pc; Rank(pc[c]) + TotalRank(pc - {c})
  }

  lemma {:induction false} TotalRankSplits(pc: map<ClientId, Pc>, c: ClientId)
    requires c in pc
    ensures TotalRank(pc) == Rank(pc[c]) + TotalRank(pc - {c})
    decreases pc
  {
    var d :| d in pc && TotalRank(pc) == Rank(pc[d]) + TotalRank(pc - {d});
    if d != c {
      TotalRankSplits(pc - {d}, c);
      TotalRankSplits(pc - {c}, d);
      assert pc - {d} - {c} == pc - {c} - {d};
    }
  }

  lemma CleanupLowersRank(s: State, c: ClientId, p: Pc)
    requires p.Cleaning?
    ensures Rank(CleanupStep(s, c, p.target, p.phase, p.next).pc[c]) < Rank(p)
  {
  }

  lemma TableStepsLowerRank(s: State, c: ClientId, t: TrunkId, o: BindOutcome, u: UnbindOutcome)
    ensures Rank(BoundStep(s, c, t, o).pc[c]) < Rank(Binding(t))
    ensures Rank(UnboundStep(s, c, u).pc[c]) < Rank(Unbinding)
  {
  }

  lemma RegisterLowersRank(s: State, c: ClientId, s': State)
    requires Enabled(s, Advance(c)) && !s.pc[c].Cleaning? && !TableStep(s.pc[c]) && s' == Apply(s, Advance(c))
    ensures Rank(s'.pc[c]) < Rank(s.pc[c])
  {
  }

  lemma AdvanceLowersOwnRank(s: State, c: ClientId)
    requires Enabled(s, Advance(c))
    ensures Rank(Apply(s, Advance(c)).pc[c]) < Rank(s.pc[c])
  {
    if s.pc[c].Cleaning? {
      CleanupLowersRank(s, c, s.pc[c]);
    } else if s.pc[c].Binding? {
      TableStepsLowerRank(s, c, s.pc[c].trunk, Bind(s.table, c, s.pc[c].trunk), Unbind(s.table, c));
    } else if s.pc[c].Unbinding? {
      TableStepsLowerRank(s, c, 0, Bind(s.table, c, 0), Unbind(s.table, c));
    } else {
      RegisterLowersRank(s, c, Apply(s, Advance(c)));
    }
  }

  lemma AdvanceLowersRank(s: State, c: ClientId)
    requires Enabled(s, Advance(c))
    ensures TotalRank(Apply(s, Advance(c)).pc) < TotalRank(s.pc)
  {
    var pc' := Apply(s, Advance(c)).pc;
    AdvanceLowersOwnRank(s, c);
    TotalRankSplits(s.pc, c);
    TotalRankSplits(pc', c);
    assert s.pc - {c} == pc' - {c};
  }

  lemma RunsCons(s: State, a: Action, rest: seq<Action>, s': State)
    requires Enabled(s, a) && Runs(Apply(s, a), rest, s')
    ensures Runs(s, [a] + rest, s')
  {
    assert ([a] + rest)[1..] == rest;
  }

  ghost predicate Settles(s: State, actions: seq<Action>, s': State) {
    Runs(s, actions, s') && Quiet(s') && forall a :: a in actions ==> a.Advance?
  }

  lemma SettlesAfter(s: State, c: ClientId)
    requires Enabled(s, Advance(c))
    requires exists actions, s' :: Settles(Apply(s, Advance(c)), actions, s')
    ensures exists actions, s' :: Settles(s, actions, s')
  {
    var rest, s' :| Settles(Apply(s, Advance(c)), rest, s');
    RunsCons(s, Advance(c), rest, s');
    assert Settles(s, [Advance(c)] + rest, s');
  }

  /** From any reachable state the handlers in flight can all finish, with no new message needed. */
  lemma {:induction false} HandlersCanFinish(s: State)
    requires Inv(s)
    ensures exists actions, s' :: Settles(s, actions, s')
    decreases TotalRank(s.pc)
  {
    if Quiet(s) {
      assert Settles(s, [], s);
    } else {
      SomeHandlerCanStep(s);
      var c :| Enabled(s, Advance(c));
      StepKeepsInv(s, Advance(c));
      AdvanceLowersRank(s, c);
      HandlersCanFinish(Apply(s, Advance(c)));
      SettlesAfter(s, c);
    }
  }

  lemma QuietCannotStep(s: State, c: ClientId)
    requires Quiet(s)
    ensures !Enabled(s, Advance(c))
  {
  }

  /**
    However the handlers in flight are scheduled, they finish: without new messages no run is longer than
    the steps they have left, and it cannot go on exactly when every handler has finished.
   */
  lemma {:induction false} EveryScheduleFinishes(s: State, actions: seq<Action>, s': State)
    requires Inv(s) && Runs(s, actions, s') && forall a :: a in actions ==> a.Advance?
    ensures |actions| <= TotalRank(s.pc) - TotalRank(s'.pc)
    ensures Quiet(s') <==> forall c :: !Enabled(s', Advance(c))
    decreases |actions|
  {
    if actions == [] {
      if Quiet(s) {
        forall c ensures !Enabled(s, Advance(c)) {
          QuietCannotStep(s, c);
        }
      } else {
        SomeHandlerCanStep(s);
      }
    } else {
      var a := actions[0];
      assert a in actions;
      StepKeepsInv(s, a);
      AdvanceLowersRank(s, a.c);
      EveryScheduleFinishes(Apply(s, a), actions[1..], s');
    }
  }
}
