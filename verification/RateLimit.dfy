/** The fixed-window request counter (`_check_rate_limit`, and the same counter in `middleware.py`).

The counter is incremented by one Redis command and given its lifetime by a second one, sent only
for the first hit. The two are separate steps here: time may pass and other requests may come in
between, and the second may never be sent. Times are integers on the server's clock, which does
not go back; a key is gone as soon as its expiry time is reached.
 */
module RateLimit {
  import opened Outcomes

  /** `start` is the time of the first hit; None in `expiry` is a key with no lifetime set. */
  datatype Counter = Counter(count: nat, start: int, expiry: Option<int>)

  predicate Alive(key: Option<Counter>, now: int) {
    key.Some? && (key.value.expiry.Some? ==> now < key.value.expiry.value)
  }

  function Incr(key: Option<Counter>, now: int): Counter {
    if Alive(key, now) then key.value.(count := key.value.count + 1) else Counter(1, now, None)
  }

  /** A request as it was answered; `life` numbers the counters in the order they began. */
  datatype Served = Served(time: int, life: nat, start: int, accepted: bool, first: bool)

  datatype System = System(now: int, key: Option<Counter>, life: nat, pending: bool, log: seq<Served>)

  datatype Action = Tick(d: nat) | Request | SetExpiry | LoseExpiry

  predicate Enabled(s: System, a: Action) {
    match a
    case Tick(_) => true
    case Request => true
    case SetExpiry => s.pending && s.key.Some?
    case LoseExpiry => s.pending
  }

  function Step(max: int, window: nat, s: System, a: Action): System
    requires Enabled(s, a)
  {
    match a
    case Tick(d) => s.(now := s.now + d)
    case Request =>
      var first := !Alive(s.key, s.now);
      var c := Incr(s.key, s.now);
      var life := if first then s.life + 1 else s.life;
      System(s.now, Some(c), life, s.pending || first, s.log + [Served(s.now, life, c.start, c.count <= max, first)])
    case SetExpiry => s.(key := Some(s.key.value.(expiry := Some(s.now + window))), pending := false)
    case LoseExpiry => s.(pending := false)
  }

  ghost predicate IsRun(max: int, window: nat, s: System, actions: seq<Action>, s': System)
    decreases |actions|
  {
    if actions == [] then s == s'
    else Enabled(s, actions[0]) && IsRun(max, window, Step(max, window, s, actions[0]), actions[1..], s')
  }

  function Fresh(now: int): System {
    System(now, None, 0, false, [])
  }

  // ---------------------------------------------------------------------------
  // Counting
  // ---------------------------------------------------------------------------

  function LifeCount(log: seq<Served>, life: nat): nat {
    if log == [] then 0
    else
      var e := log[|log| - 1];
      LifeCount(log[..|log| - 1], life) + if e.accepted && e.life == life then 1 else 0
  }

  function LaterCount(log: seq<Served>, life: nat): nat {
    if log == [] then 0
    else
      var e := log[|log| - 1];
      LaterCount(log[..|log| - 1], life) + if e.accepted && e.life == life && !e.first then 1 else 0
  }

  /** Requests accepted at a time in `[from, to)`. */
  function AcceptedIn(log: seq<Served>, from: int, to: int): nat {
    if log == [] then 0
    else
      var e := log[|log| - 1];
      AcceptedIn(log[..|log| - 1], from, to) + if e.accepted && from <= e.time < to then 1 else 0
  }

  lemma Snoc(log: seq<Served>, e: Served)
    ensures forall k: nat :: LifeCount(log + [e], k) == LifeCount(log, k) + if e.accepted && e.life == k then 1 else 0
    ensures forall k: nat ::
            LaterCount(log + [e], k) == LaterCount(log, k) + if e.accepted && e.life == k && !e.first then 1 else 0
    ensures forall x: int, y: int ::
            AcceptedIn(log + [e], x, y) == AcceptedIn(log, x, y) + if e.accepted && x <= e.time < y then 1 else 0
  {
    assert (log + [e])[..|log|] == log;
  }

  // ---------------------------------------------------------------------------
  // What every run keeps
  // ---------------------------------------------------------------------------

  /** One counter's first hit comes a whole window after the first hit of any earlier counter, and
      no sooner than that counter's last hit. */
  predicate Apart(window: nat, a: Served, b: Served) {
    && (a.life == b.life ==> a.start == b.start)
    && (a.life < b.life ==> b.start >= a.start + window && b.start >= a.time)
  }

  ghost predicate LogOk(max: int, window: nat, log: seq<Served>) {
    && (forall e :: e in log ==> e.start <= e.time && (e.first ==> e.time == e.start))
    && (forall a, b :: a in log && b in log ==> Apart(window, a, b))
    && (forall e :: e in log ==> LifeCount(log, e.life) <= max && LaterCount(log, e.life) <= max - 1)
  }

  function Capped(n: int, max: int): int {
    if n <= max then n else max
  }

  ghost predicate Inv(max: int, window: nat, s: System) {
    && LogOk(max, window, s.log)
    && (forall e :: e in s.log ==> e.life <= s.life && e.time <= s.now)
    && (forall k: nat :: k > s.life ==> LifeCount(s.log, k) == 0 && LaterCount(s.log, k) == 0)
    && (s.key.None? ==> s.log == [] && !s.pending)
    && (s.key.Some? ==>
          var c := s.key.value;
          && c.count >= 1 && c.start <= s.now
          && (c.expiry.Some? ==> c.expiry.value >= c.start + window && !s.pending)
          && (forall e :: e in s.log ==> Apart(window, e, Served(c.start, s.life, c.start, false, true)))
          && LifeCount(s.log, s.life) == Capped(c.count, max)
          && LaterCount(s.log, s.life) == Capped(c.count, max) - 1)
  }

  lemma AppendOk(max: int, window: nat, log: seq<Served>, e: Served)
    requires max >= 1 && LogOk(max, window, log)
    requires e.start <= e.time && (e.first ==> e.time == e.start)
    requires forall a :: a in log ==> Apart(window, a, e) && a.life <= e.life
    requires LifeCount(log + [e], e.life) <= max && LaterCount(log + [e], e.life) <= max - 1
    ensures LogOk(max, window, log + [e])
  {
    Snoc(log, e);
    hide LifeCount, LaterCount;
    var all := log + [e];
    forall a, b | a in all && b in all
      ensures Apart(window, a, b)
    {
      assert a in log || a == e;
      assert b in log || b == e;
      assert b in log ==> Apart(window, b, e);
      assert a in log ==> Apart(window, a, e);
    }
    forall a | a in all
      ensures a.start <= a.time && (a.first ==> a.time == a.start)
      ensures LifeCount(all, a.life) <= max && LaterCount(all, a.life) <= max - 1
    {
      assert a in log || a == e;
    }
  }

  lemma FirstHit(max: int, window: nat, s: System, e: Served)
    requires max >= 1 && Inv(max, window, s) && !Alive(s.key, s.now)
    requires e == Served(s.now, s.life + 1, s.now, true, true)
    ensures LogOk(max, window, s.log + [e])
    ensures forall a :: a in s.log ==> Apart(window, a, e)
  {
    hide LifeCount, LaterCount, LogOk;
    Snoc(s.log, e);
    forall a | a in s.log
      ensures Apart(window, a, e)
    {
      assert Apart(window, a, Served(s.key.value.start, s.life, s.key.value.start, false, true));
    }
    AppendOk(max, window, s.log, e);
  }

  lemma LaterHit(max: int, window: nat, s: System, e: Served)
    requires max >= 1 && Inv(max, window, s) && Alive(s.key, s.now)
    requires e == Served(s.now, s.life, s.key.value.start, s.key.value.count + 1 <= max, false)
    ensures LogOk(max, window, s.log + [e])
    ensures forall a :: a in s.log ==> Apart(window, a, e)
  {
    hide LifeCount, LaterCount, LogOk;
    Snoc(s.log, e);
    forall a | a in s.log
      ensures Apart(window, a, e)
    {
      assert Apart(window, a, Served(s.key.value.start, s.life, s.key.value.start, false, true));
    }
    AppendOk(max, window, s.log, e);
  }

  lemma RequestKeepsInv(max: int, window: nat, s: System)
    requires max >= 1 && Inv(max, window, s)
    ensures Inv(max, window, Step(max, window, s, Request))
  {
    hide LifeCount, LaterCount, LogOk;
    var s' := Step(max, window, s, Request);
    var e := s'.log[|s.log|];
    assert s'.log == s.log + [e];
    Snoc(s.log, e);
    if Alive(s.key, s.now) {
      LaterHit(max, window, s, e);
    } else {
      FirstHit(max, window, s, e);
    }
    var mark := Served(e.start, e.life, e.start, false, true);
    forall a | a in s'.log
      ensures Apart(window, a, mark)
    {
      assert a in s.log ==> Apart(window, a, Served(s.key.value.start, s.life, s.key.value.start, false, true));
    }
  }

  lemma StepKeepsInv(max: int, window: nat, s: System, a: Action)
    requires max >= 1 && Inv(max, window, s) && Enabled(s, a)
    ensures Inv(max, window, Step(max, window, s, a))
  {
    hide LifeCount, LaterCount;
    match a
    case Request => RequestKeepsInv(max, window, s);
    case _ =>
  }

  lemma {:induction false} RunKeepsInv(max: int, window: nat, s: System, actions: seq<Action>, s': System)
    requires max >= 1 && Inv(max, window, s) && IsRun(max, window, s, actions, s')
    ensures Inv(max, window, s')
    decreases |actions|
  {
    hide Inv, Step, Enabled;
    if actions != [] {
      StepKeepsInv(max, window, s, actions[0]);
      RunKeepsInv(max, window, Step(max, window, s, actions[0]), actions[1..], s');
    }
  }

  // ---------------------------------------------------------------------------
  // The sliding-window bound
  // ---------------------------------------------------------------------------

  predicate Within(e: Served, from: int, to: int) {
    from <= e.time < to
  }

  lemma {:induction false} CountByLives(log: seq<Served>, from: int, to: int, a: nat, b: nat)
    requires forall e :: e in log && Within(e, from, to) ==> (e.life == a && !e.first) || e.life == b
    ensures AcceptedIn(log, from, to) <= LaterCount(log, a) + LifeCount(log, b)
  {
    if log != [] {
      assert forall e :: e in log[..|log| - 1] ==> e in log;
      assert log[|log| - 1] in log;
      CountByLives(log[..|log| - 1], from, to, a, b);
    }
  }

  lemma {:induction false} CountByLife(log: seq<Served>, from: int, to: int, a: nat)
    requires forall e :: e in log && Within(e, from, to) ==> e.life == a
    ensures AcceptedIn(log, from, to) <= LifeCount(log, a)
  {
    if log != [] {
      assert forall e :: e in log[..|log| - 1] ==> e in log;
      assert log[|log| - 1] in log;
      CountByLife(log[..|log| - 1], from, to, a);
    }
  }

  lemma {:induction false} NoneWithin(log: seq<Served>, from: int, to: int)
    requires forall e :: e in log ==> !Within(e, from, to)
    ensures AcceptedIn(log, from, to) == 0
  {
    if log != [] {
      assert forall e :: e in log[..|log| - 1] ==> e in log;
      assert log[|log| - 1] in log;
      NoneWithin(log[..|log| - 1], from, to);
    }
  }

  /** At most `2 * max - 1` requests are accepted in any span of one window, wherever it begins. */
  lemma AnyWindow(max: int, window: nat, log: seq<Served>, from: int)
    requires max >= 1 && LogOk(max, window, log)
    ensures AcceptedIn(log, from, from + window) <= 2 * max - 1
  {
    hide AcceptedIn, LifeCount, LaterCount, Apart;
    var to := from + window;
    if e :| e in log && Within(e, from, to) {
      if f :| f in log && Within(f, from, to) && f.life != e.life {
        var a, b := if e.life < f.life then e else f, if e.life < f.life then f else e;
        forall g | g in log && Within(g, from, to)
          ensures (g.life == a.life && !g.first) || g.life == b.life
        {
          LivesOf(max, window, log, from, a, b, g);
        }
        CountByLives(log, from, to, a.life, b.life);
      } else {
        CountByLife(log, from, to, e.life);
      }
    } else {
      NoneWithin(log, from, to);
    }
  }

  lemma LivesOf(max: int, window: nat, log: seq<Served>, from: int, a: Served, b: Served, g: Served)
    requires LogOk(max, window, log) && a in log && b in log && g in log && a.life < b.life
    requires Within(a, from, from + window) && Within(b, from, from + window) && Within(g, from, from + window)
    ensures (g.life == a.life && !g.first) || g.life == b.life
  {
    hide LifeCount, LaterCount;
    assert Apart(window, a, b) && Apart(window, a, g) && Apart(window, g, a) && Apart(window, g, b);
    assert Apart(window, b, g);
  }

  // ---------------------------------------------------------------------------
  // Main results
  // ---------------------------------------------------------------------------

  /** Over every run from a fresh key, even one in which lifetimes are set late or never: each counter
      accepts at most `max` requests, and any span of one window admits at most `2 * max - 1`. */
  lemma LimitHolds(max: int, window: nat, now: int, actions: seq<Action>, s: System, from: int)
    requires max >= 1 && IsRun(max, window, Fresh(now), actions, s)
    ensures forall e :: e in s.log ==> LifeCount(s.log, e.life) <= max
    ensures AcceptedIn(s.log, from, from + window) <= 2 * max - 1
  {
    RunKeepsInv(max, window, Fresh(now), actions, s);
    AnyWindow(max, window, s.log, from);
  }

  /** Once a counter's expiry is set it never moves: until that time comes the same counter goes on
      counting, whatever requests arrive. */
  lemma {:induction false} ExpiryNeverMoves(max: int, window: nat, s: System, actions: seq<Action>, s': System)
    requires s.key.Some? && s.key.value.expiry.Some? && !s.pending
    requires IsRun(max, window, s, actions, s') && s'.now < s.key.value.expiry.value
    ensures s'.key.Some? && !s'.pending && s'.life == s.life
    ensures s'.key.value.expiry == s.key.value.expiry && s'.key.value.start == s.key.value.start
    ensures s'.key.value.count >= s.key.value.count
    decreases |actions|
  {
    if actions != [] {
      var m := Step(max, window, s, actions[0]);
      ClockForward(max, window, m, actions[1..], s');
      ExpiryNeverMoves(max, window, m, actions[1..], s');
    }
  }

  lemma {:induction false} ClockForward(max: int, window: nat, s: System, actions: seq<Action>, s': System)
    requires IsRun(max, window, s, actions, s')
    ensures s.now <= s'.now
    decreases |actions|
  {
    if actions != [] {
      ClockForward(max, window, Step(max, window, s, actions[0]), actions[1..], s');
    }
  }

  /** Every answer in `log[n..]` is a refusal. */
  predicate RefusedFrom(log: seq<Served>, n: nat) {
    forall i :: n <= i < |log| ==> !log[i].accepted
  }

  /** A full counter whose lifetime was never set refuses every later request: no tick frees it. */
  lemma {:induction false} LostExpiryBlocks(max: int, window: nat, s: System, actions: seq<Action>, s': System)
    requires s.key.Some? && s.key.value.expiry.None? && !s.pending && s.key.value.count >= max
    requires IsRun(max, window, s, actions, s')
    ensures |s.log| <= |s'.log| && RefusedFrom(s'.log, |s.log|) && s'.log[..|s.log|] == s.log
    decreases |actions|
  {
    if actions != [] {
      var m := Step(max, window, s, actions[0]);
      LostExpiryBlocks(max, window, m, actions[1..], s');
      assert actions[0].Request? ==> s'.log[|s.log|] == m.log[|s.log|];
      assert s.log == m.log[..|s.log|];
    }
  }

  lemma {:induction false} RunThen(max: int, window: nat, s: System, actions: seq<Action>, m: System, a: Action)
    requires IsRun(max, window, s, actions, m) && Enabled(m, a)
    ensures IsRun(max, window, s, actions + [a], Step(max, window, m, a))
    decreases |actions|
  {
    hide Step, Enabled;
    var all := actions + [a];
    if actions == [] {
      assert all[0] == a && all[1..] == [];
      assert IsRun(max, window, Step(max, window, m, a), all[1..], Step(max, window, m, a));
    } else {
      RunThen(max, window, Step(max, window, s, actions[0]), actions[1..], m, a);
      assert all[0] == actions[0] && all[1..] == actions[1..] + [a];
    }
  }

  /** Some continuation accepts a request. */
  ghost predicate EverAccepts(max: int, window: nat, s: System) {
    exists actions, s' :: IsRun(max, window, s, actions, s') && !RefusedFrom(s'.log, |s.log|)
  }

  lemma WaitAndRetry(max: int, window: nat, s0: System, before: seq<Action>, s: System)
    returns (actions: seq<Action>, s': System)
    requires max >= 1 && IsRun(max, window, s0, before, s)
    requires s.key.Some? && s.key.value.expiry.Some? && s.log == s0.log
    ensures IsRun(max, window, s0, actions, s') && !RefusedFrom(s'.log, |s0.log|)
  {
    hide IsRun;
    var d: nat := if s.key.value.expiry.value > s.now then s.key.value.expiry.value - s.now else 0;
    var m := Step(max, window, s, Tick(d));
    RunThen(max, window, s0, before, s, Tick(d));
    s' := Step(max, window, m, Request);
    RunThen(max, window, s0, before + [Tick(d)], m, Request);
    actions := before + [Tick(d)] + [Request];
    assert s'.log[|s0.log|].accepted;
  }

  /** A full counter ever accepts again exactly when its lifetime has been set or is still to be set. */
  lemma FullCounterReopens(max: int, window: nat, s: System)
    requires max >= 1 && s.key.Some? && s.key.value.count >= max
    ensures EverAccepts(max, window, s) <==> s.key.value.expiry.Some? || s.pending
  {
    assert IsRun(max, window, s, [], s);
    hide IsRun, RefusedFrom;
    if s.key.value.expiry.Some? {
      var actions, s' := WaitAndRetry(max, window, s, [], s);
    } else if s.pending {
      var m := Step(max, window, s, SetExpiry);
      RunThen(max, window, s, [], s, SetExpiry);
      var actions, s' := WaitAndRetry(max, window, s, [] + [SetExpiry], m);
    } else {
      forall actions, s' | IsRun(max, window, s, actions, s')
        ensures RefusedFrom(s'.log, |s.log|)
      {
        LostExpiryBlocks(max, window, s, actions, s');
      }
    }
  }

  // ---------------------------------------------------------------------------
  // The bound is attained
  // ---------------------------------------------------------------------------

  /** `n` requests to a live counter that has room for them are all accepted. */
  lemma {:induction false} Burst(max: int, window: nat, start: System, actions: seq<Action>, s: System, n: nat,
                                 from: int, to: int)
    returns (all: seq<Action>, s': System)
    requires IsRun(max, window, start, actions, s)
    requires Alive(s.key, s.now) && s.key.value.count + n <= max && from <= s.now < to
    ensures IsRun(max, window, start, all, s')
    ensures s' == s.(key := Some(s.key.value.(count := s.key.value.count + n)), log := s'.log)
    ensures AcceptedIn(s'.log, from, to) == AcceptedIn(s.log, from, to) + n
    decreases n
  {
    hide IsRun;
    if n == 0 {
      all, s' := actions, s;
    } else {
      var m := Step(max, window, s, Request);
      RunThen(max, window, start, actions, s, Request);
      var e := m.log[|s.log|];
      assert m.log == s.log + [e];
      Snoc(s.log, e);
      all, s' := Burst(max, window, start, actions + [Request], m, n - 1, from, to);
    }
  }

  lemma Opening(max: int, window: nat, start: System, actions: seq<Action>, s: System, from: int, to: int)
    returns (all: seq<Action>, s': System)
    requires max >= 1 && window >= 1 && IsRun(max, window, start, actions, s) && !Alive(s.key, s.now)
    ensures IsRun(max, window, start, all, s')
    ensures s'.now == s.now && s'.key == Some(Counter(1, s.now, Some(s.now + window))) && !s'.pending
    ensures AcceptedIn(s'.log, from, to) == AcceptedIn(s.log, from, to) + if from <= s.now < to then 1 else 0
  {
    hide IsRun;
    var m := Step(max, window, s, Request);
    RunThen(max, window, start, actions, s, Request);
    var e := m.log[|s.log|];
    assert m.log == s.log + [e];
    Snoc(s.log, e);
    s' := Step(max, window, m, SetExpiry);
    RunThen(max, window, start, actions + [Request], m, SetExpiry);
    all := actions + [Request] + [SetExpiry];
  }

  /** With a window of at least two ticks, some run admits exactly `2 * max - 1` in one window. */
  lemma BoundAttained(max: int, window: nat) returns (actions: seq<Action>, s: System)
    requires max >= 1 && window >= 2
    ensures IsRun(max, window, Fresh(0), actions, s)
    ensures AcceptedIn(s.log, 1, 1 + window) == 2 * max - 1
  {
    assert IsRun(max, window, Fresh(0), [], Fresh(0));
    hide IsRun;
    var to := 1 + window;
    var a1, s1 := Opening(max, window, Fresh(0), [], Fresh(0), 1, to);
    var s2 := Step(max, window, s1, Tick(window - 1));
    RunThen(max, window, Fresh(0), a1, s1, Tick(window - 1));
    var a3, s3 := Burst(max, window, Fresh(0), a1 + [Tick(window - 1)], s2, max - 1, 1, to);
    var s4 := Step(max, window, s3, Tick(1));
    RunThen(max, window, Fresh(0), a3, s3, Tick(1));
    var a5, s5 := Opening(max, window, Fresh(0), a3 + [Tick(1)], s4, 1, to);
    actions, s := Burst(max, window, Fresh(0), a5, s5, max - 1, 1, to);
  }

  /** A first hit whose EXPIRE is lost, and as many more as fill the counter: the key is shut for good. */
  lemma CounterLost(max: int, window: nat) returns (actions: seq<Action>, s: System)
    requires max >= 1
    ensures IsRun(max, window, Fresh(0), actions, s) && !EverAccepts(max, window, s)
  {
    assert IsRun(max, window, Fresh(0), [], Fresh(0));
    hide IsRun;
    var s1 := Step(max, window, Fresh(0), Request);
    RunThen(max, window, Fresh(0), [], Fresh(0), Request);
    var s2 := Step(max, window, s1, LoseExpiry);
    RunThen(max, window, Fresh(0), [] + [Request], s1, LoseExpiry);
    actions, s := Burst(max, window, Fresh(0), [] + [Request] + [LoseExpiry], s2, max - 1, 0, 1);
    FullCounterReopens(max, window, s);
  }

  // ---------------------------------------------------------------------------
  // The check itself
  // ---------------------------------------------------------------------------

  class RateLimiter {
    var key: Option<Counter>

    predicate Valid()
      reads this
    {
      key.Some? ==> key.value.count >= 1
    }

    constructor ()
      ensures Valid() && key == None
    {
      key := None;
    }

    /** One call with nothing in between its two commands. */
    method CheckRateLimit(enabled: bool, now: int, max: int, window: nat) returns (result: Result<(), ()>)
      requires Valid()
      modifies this
      ensures Valid()
      ensures !enabled ==> result.Ok? && key == old(key)
      ensures enabled ==> key.Some? && (result.Ok? <==> key.value.count <= max)
      ensures enabled && Alive(old(key), now) ==> key == Some(old(key).value.(count := old(key).value.count + 1))
      ensures enabled && !Alive(old(key), now) ==> key == Some(Counter(1, now, Some(now + window)))
    {
      if !enabled {
        return Ok(());
      }
      var c := Incr(key, now);
      key := Some(c);
      if c.count == 1 {
        key := Some(c.(expiry := Some(now + window)));
      }
      if c.count > max {
        return Err(());
      }
      return Ok(());
    }
  }
}
