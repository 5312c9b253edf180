/**
  The rate limit on client diagnostics: a window per key that opens with the first upload after the
  last one lapsed, and at most LIMIT uploads in it.  What callers rely on is a bound over every
  stretch of one window length, wherever it starts.
 */
module DiagnosticsRate {

  const WINDOW: int := 60_000_000_000    // one minute in nanoseconds
  const LIMIT: nat := 30

  datatype Window = Window(start: int, count: nat)

  type Limits = map<string, Window>

  datatype Request = Request(key: string, now: int)

  function KeyOf(key: string): string {
    if key == "" then "unknown" else key
  }

  predicate Lapsed(limits: Limits, key: string, now: int) {
    key !in limits || now - limits[key].start >= WINDOW
  }

  predicate Allows(limits: Limits, r: Request) {
    var key := KeyOf(r.key);
    Lapsed(limits, key, r.now) || limits[key].count < LIMIT
  }

  function Step(limits: Limits, r: Request): Limits {
    var key := KeyOf(r.key);
    if Lapsed(limits, key, r.now) then limits[key := Window(r.now, 1)]
    else if limits[key].count >= LIMIT then limits
    else limits[key := Window(limits[key].start, limits[key].count + 1)]
  }

  class Limiter {
    var limits: Limits

    constructor ()
      ensures limits == map[]
    {
      limits := map[];
    }

    method AllowClientDiagnostics(key: string, now: int) returns (ok: bool)
      modifies this
      ensures ok == Allows(old(limits), Request(key, now))
      ensures limits == Step(old(limits), Request(key, now))
    {
      var k := key;
      if k == "" {
        k := "unknown";
      }
      if k !in limits || now - limits[k].start >= WINDOW {
        limits := limits[k := Window(now, 1)];
        return true;
      }
      if limits[k].count >= LIMIT {
        return false;
      }
      limits := limits[k := Window(limits[k].start, limits[k].count + 1)];
      return true;
    }
  }

  // ---------------------------------------------------------------- runs

  predicate Ordered(run: seq<Request>) {
    forall i, j :: 0 <= i < j < |run| ==> run[i].now <= run[j].now
  }

  function After(run: seq<Request>): Limits {
    if run == [] then map[] else Step(After(run[..|run| - 1]), run[|run| - 1])
  }

  /** Was the last request of the run accepted, and is it one for key in [from, to)? */
  predicate LastCounts(run: seq<Request>, key: string, from: int, to: int)
    requires run != []
  {
    var r := run[|run| - 1];
    KeyOf(r.key) == key && from <= r.now < to && Allows(After(run[..|run| - 1]), r)
  }

  /** Accepted requests of a key with times in [from, to). */
  function Accepted(run: seq<Request>, key: string, from: int, to: int): (n: nat)
    ensures n <= |run|
  {
    if run == [] then 0
    else Accepted(run[..|run| - 1], key, from, to) + (if LastCounts(run, key, from, to) then 1 else 0)
  }

  lemma {:induction false} NoneEarlier(run: seq<Request>, key: string, from: int, to: int)
    requires forall i :: 0 <= i < |run| ==> run[i].now < from
    ensures Accepted(run, key, from, to) == 0
  {
    if run != [] {
      NoneEarlier(run[..|run| - 1], key, from, to);
    }
  }

  lemma {:induction false} AcceptedWidens(run: seq<Request>, key: string, from: int, from': int, to: int)
    requires from' <= from
    ensures Accepted(run, key, from, to) <= Accepted(run, key, from', to)
  {
    if run != [] {
      AcceptedWidens(run[..|run| - 1], key, from, from', to);
    }
  }

  /** A window that has lapsed by now leaves nothing accepted at now or later. */
  lemma {:induction false} NoneSince(run: seq<Request>, key: string, now: int, to: int)
    requires Lapsed(After(run), key, now)
    requires Ordered(run) && forall i :: 0 <= i < |run| ==> run[i].now <= now
    ensures Accepted(run, key, now, to) == 0
  {
    if run != [] && Lapsed(After(run[..|run| - 1]), key, now) {
      NoneSince(run[..|run| - 1], key, now, to);
    }
  }

  /** The open window counts exactly the uploads accepted since it opened. */
  predicate Counted(run: seq<Request>, key: string, to: int) {
    var limits := After(run);
    key in limits ==>
      && run != [] && limits[key].start <= run[|run| - 1].now
      && 1 <= limits[key].count <= LIMIT
      && limits[key].count == Accepted(run, key, limits[key].start, to)
  }

  lemma {:induction false} WindowCounts(run: seq<Request>, key: string, to: int)
    requires Ordered(run) && forall i :: 0 <= i < |run| ==> run[i].now < to
    ensures Counted(run, key, to)
  {
    if run != [] {
      var front, r := run[..|run| - 1], run[|run| - 1];
      WindowCounts(front, key, to);
      if Lapsed(After(front), key, r.now) {
        NoneSince(front, key, r.now, to);
      }
    }
  }

  /** What a run can have accepted in [from, from + WINDOW), by where the current window opened. */
  predicate Within(run: seq<Request>, key: string, from: int) {
    var limits, n := After(run), Accepted(run, key, from, from + WINDOW);
    if key !in limits then n == 0
    else
      var w := limits[key];
      && run != [] && w.start <= run[|run| - 1].now && 1 <= w.count <= LIMIT
      && n <= (if w.start < from then w.count - 1
               else if w.start < from + WINDOW then LIMIT - 1 + w.count
               else 2 * LIMIT - 1)
  }

  lemma {:induction false} RunsStayWithin(run: seq<Request>, key: string, from: int)
    requires Ordered(run)
    ensures Within(run, key, from)
  {
    if run != [] {
      var front, r := run[..|run| - 1], run[|run| - 1];
      RunsStayWithin(front, key, from);
      if r.now < from {
        NoneEarlier(front, key, from, from + WINDOW);
      }
    }
  }

  /**
    Every minute holds at most 59 accepted uploads of a key, wherever it starts and whatever the other keys do.
   */
  lemma SlidingBound(run: seq<Request>, key: string, from: int)
    requires Ordered(run)
    ensures Accepted(run, key, from, from + 60_000_000_000) <= 59
  {
    RunsStayWithin(run, key, from);
  }

  /** An upload is refused only after 30 accepted ones of its key within the last minute. */
  lemma RefusedOnlyWhenFull(run: seq<Request>, r: Request)
    requires Ordered(run + [r]) && !Allows(After(run), r)
    ensures Accepted(run, KeyOf(r.key), r.now - 60_000_000_000 + 1, r.now + 1) >= 30
  {
    var key := KeyOf(r.key);
    forall i | 0 <= i < |run|
      ensures run[i].now <= r.now
    {
      assert (run + [r])[i] == run[i] && (run + [r])[|run|] == r;
    }
    assert run == (run + [r])[..|run|];
    WindowCounts(run, key, r.now + 1);
    AcceptedWidens(run, key, After(run)[key].start, r.now - WINDOW + 1, r.now + 1);
  }

  // ---------------------------------------------------------------- the bound is met

  /** One upload just before the stretch, then early ones at its start, then late ones when the window lapses. */
  function Burst(key: string, start: int, early: nat, late: nat): seq<Request> {
    if late > 0 then Burst(key, start, early, late - 1) + [Request(key, start + WINDOW)]
    else if early > 0 then Burst(key, start, early - 1, 0) + [Request(key, start + 1)]
    else [Request(key, start)]
  }

  /** One more accepted upload of the only key seen. */
  lemma Extend(front: seq<Request>, r: Request, key: string, w: Window, from: int, run: seq<Request>)
    requires KeyOf(r.key) == key && run == front + [r] && After(front) == map[key := w]
    requires r.now - w.start >= WINDOW || w.count < LIMIT
    ensures After(run) ==
      map[key := if r.now - w.start >= WINDOW then Window(r.now, 1) else Window(w.start, w.count + 1)]
    ensures Accepted(run, key, from, from + WINDOW) ==
      Accepted(front, key, from, from + WINDOW) + (if from <= r.now < from + WINDOW then 1 else 0)
  {
    assert run[..|run| - 1] == front;
  }

  lemma First(r: Request, key: string, from: int)
    requires KeyOf(r.key) == key && r.now < from
    ensures After([r]) == map[key := Window(r.now, 1)] && Accepted([r], key, from, from + WINDOW) == 0
  {
    assert [r][..0] == [];
  }

  /** The last time of a burst. */
  function BurstEnd(start: int, early: nat, late: nat): int {
    if late > 0 then start + WINDOW else if early > 0 then start + 1 else start
  }

  lemma {:induction false} BurstOrdered(key: string, start: int, early: nat, late: nat)
    ensures var run := Burst(key, start, early, late);
      Ordered(run) && forall i :: 0 <= i < |run| ==> run[i].now <= BurstEnd(start, early, late)
  {
    if late > 0 {
      BurstOrdered(key, start, early, late - 1);
    } else if early > 0 {
      BurstOrdered(key, start, early - 1, 0);
    }
  }

  function BurstWindow(start: int, early: nat, late: nat): Window {
    if late == 0 then Window(start, 1 + early) else Window(start + WINDOW, late)
  }

  lemma {:induction false} BurstAccepted(key: string, start: int, early: nat, late: nat)
    requires early <= LIMIT - 1 && late <= LIMIT && KeyOf(key) == key
    ensures After(Burst(key, start, early, late)) == map[key := BurstWindow(start, early, late)]
    ensures Accepted(Burst(key, start, early, late), key, start + 1, start + 1 + WINDOW) == early + late
  {
    if late > 0 {
      BurstAccepted(key, start, early, late - 1);
      Extend(Burst(key, start, early, late - 1), Request(key, start + WINDOW), key,
             BurstWindow(start, early, late - 1), start + 1, Burst(key, start, early, late));
    } else if early > 0 {
      BurstAccepted(key, start, early - 1, 0);
      Extend(Burst(key, start, early - 1, 0), Request(key, start + 1), key,
             BurstWindow(start, early - 1, 0), start + 1, Burst(key, start, early, 0));
    } else {
      First(Request(key, start), key, start + 1);
    }
  }

  /** The sliding bound is exact: for every key and start there is a run that meets it. */
  lemma SlidingBoundIsExact(key: string, from: int)
    requires KeyOf(key) == key
    ensures exists run :: Ordered(run) && Accepted(run, key, from, from + 60_000_000_000) == 59
  {
    BurstAccepted(key, from - 1, LIMIT - 1, LIMIT);
    BurstOrdered(key, from - 1, LIMIT - 1, LIMIT);
    assert Accepted(Burst(key, from - 1, LIMIT - 1, LIMIT), key, from, from + WINDOW) == 59;
  }

  // ---------------------------------------------------------------- keys do not affect each other

  /** Clients without a key share the budget of the key "unknown", and no two other keys share one. */
  lemma MissingKeyIsUnknown(limits: Limits, key: string, other: string, now: int)
    ensures KeyOf("") == KeyOf("unknown")
    ensures Allows(limits, Request("", now)) == Allows(limits, Request("unknown", now))
    ensures Step(limits, Request("", now)) == Step(limits, Request("unknown", now))
    ensures key != "" && other != "" && KeyOf(key) == KeyOf(other) ==> key == other
  {
  }

  /** The requests of one key. */
  function Only(run: seq<Request>, key: string): (own: seq<Request>)
    ensures |own| <= |run|
  {
    if run == [] then []
    else
      var front, r := run[..|run| - 1], run[|run| - 1];
      if KeyOf(r.key) == key then Only(front, key) + [r] else Only(front, key)
  }

  /** The decisions on the requests of one key, in order. */
  function Decisions(run: seq<Request>, key: string): seq<bool> {
    if run == [] then []
    else
      var front, r := run[..|run| - 1], run[|run| - 1];
      if KeyOf(r.key) == key then Decisions(front, key) + [Allows(After(front), r)] else Decisions(front, key)
  }

  /** Leaving out every other key changes neither a key's window nor any decision on its requests. */
  lemma {:induction false} KeysIndependent(run: seq<Request>, key: string)
    ensures Decisions(run, key) == Decisions(Only(run, key), key)
    ensures key in After(run) <==> key in After(Only(run, key))
    ensures key in After(run) ==> After(run)[key] == After(Only(run, key))[key]
  {
    if run != [] {
      var front, r := run[..|run| - 1], run[|run| - 1];
      KeysIndependent(front, key);
      if KeyOf(r.key) == key {
        assert Only(run, key)[..|Only(front, key)|] == Only(front, key);
      }
    }
  }
}
