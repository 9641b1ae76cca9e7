/**
 The pool and any number of relay runs together. Every pool operation is one atomic step (it runs
 under the pool's mutex); relays take these steps in any interleaving. What a relay does with its
 connection is what its loop does: RelayLoop.TraceOf of arbitrary events, action by action.
 */
module LeaseSystem {

  import opened Options
  import opened UpstreamPools
  import opened RelayLoop

  datatype Config = Config(max: nat, timeout: int)

  /** Where a dialled connection is. */
  datatype Place = Leased(holder: nat) | Idling(key: Key) | Closed

  /** A relay: its pool key, where it stands, what its run will still do, and whether it is dialling. */
  datatype RelayState = RelayState(key: Key, phase: Phase, todo: seq<Action>, dialing: bool)

  datatype System = System(idle: Idle, place: map<Conn, Place>, relays: map<nat, RelayState>, tainted: set<Conn>, clock: int)

  datatype Step =
    | Start(r: nat, key: Key, h2: bool, events: seq<Event>)
    | Take(r: nat, now: int)                             // acquire, up to and including takeIdle
    | Dialled(r: nat, conn: Conn)                        // a dial that takeIdle left to be done succeeds
    | DialFailed(r: nat)
    | UseHttp(r: nat)
    | UseWs(r: nat)
    | GiveBack(r: nat, reusable: bool, drained: bool)    // release
    | CloseIdle
    | Tick(clock: int)

  /** The relay's run goes on with this action. */
  predicate Next(s: System, r: nat, a: Action)
  {
    r in s.relays && s.relays[r].todo != [] && s.relays[r].todo[0] == a
  }

  /** The connection takeIdle finds for a relay. */
  function Found(cfg: Config, s: System, r: nat, now: int): Popped
    requires r in s.relays
  {
    PopFresh(ListOf(s.idle, s.relays[r].key), now, cfg.timeout)
  }

  ghost predicate Enabled(cfg: Config, s: System, t: Step)
  {
    match t
    case Start(r, key, h2, events) => r !in s.relays
    case Take(r, now) =>
      && r in s.relays && s.relays[r].phase.Fresh? && !s.relays[r].dialing
      && (Found(cfg, s, r, now).taken.Some? ==> Next(s, r, Acquired(Found(cfg, s, r, now).taken.value.conn)))
    case Dialled(r, conn) => Next(s, r, Acquired(conn)) && s.relays[r].dialing && conn !in s.place
    case DialFailed(r) => r in s.relays && s.relays[r].dialing
    case UseHttp(r) => exists c :: Next(s, r, HttpUse(c))
    case UseWs(r) => exists c :: Next(s, r, WsUse(c))
    case GiveBack(r, reusable, drained) => exists c :: Next(s, r, Released(c, reusable))
    case CloseIdle => true
    case Tick(clock) => clock >= s.clock
  }

  ghost function MarkClosed(place: map<Conn, Place>, conns: set<Conn>): map<Conn, Place>
  {
    map c | c in place :: if c in conns then Closed else place[c]
  }

  /** The relay after the next action of its run. */
  function Advance(s: System, r: nat): map<nat, RelayState>
    requires r in s.relays && s.relays[r].todo != []
  {
    var x := s.relays[r];
    s.relays[r := RelayState(x.key, After(x.phase, x.todo[0]), x.todo[1..], false)]
  }

  function SetDialing(s: System, r: nat, dialing: bool): map<nat, RelayState>
    requires r in s.relays
  {
    s.relays[r := s.relays[r].(dialing := dialing)]
  }

  ghost function Apply(cfg: Config, s: System, t: Step): System
    requires Enabled(cfg, s, t) && cfg.max > 0
  {
    match t
    case Start(r, key, h2, events) =>
      s.(relays := s.relays[r := RelayState(key, Fresh, TraceOf(h2, None, 0, events), false)])
    case Take(r, now) =>
      var key := s.relays[r].key;
      var p := Found(cfg, s, r, now);
      var place := MarkClosed(s.place, ConnsOf(p.closed));
      if p.taken.Some? then
        s.(idle := SetList(s.idle, key, p.rest), place := place[p.taken.value.conn := Leased(r)], relays := Advance(s, r))
      else
        s.(idle := SetList(s.idle, key, []), place := place, relays := SetDialing(s, r, true))
    case Dialled(r, conn) => s.(place := s.place[conn := Leased(r)], relays := Advance(s, r))
    case DialFailed(r) => s.(relays := SetDialing(s, r, false))
    case UseHttp(r) => s.(relays := Advance(s, r))
    case UseWs(r) => s.(relays := Advance(s, r), tainted := s.tainted + {s.relays[r].todo[0].conn})
    case GiveBack(r, reusable, drained) =>
      var c, key := s.relays[r].todo[0].conn, s.relays[r].key;
      if !(reusable && drained) then s.(place := s.place[c := Closed], relays := Advance(s, r))
      else
        var put := PushBounded(ListOf(s.idle, key), Pooled(c, s.clock), cfg.max);
        var place := MarkClosed(s.place, if put.1.Some? then {put.1.value.conn} else {});
        s.(idle := s.idle[key := put.0], place := place[c := Idling(key)], relays := Advance(s, r))
    case CloseIdle => s.(idle := map[], place := MarkClosed(s.place, ConnsUnder(s.idle, s.idle.Keys)))
    case Tick(clock) => s.(clock := clock)
  }

  // ---------------------------------------------------------------- the invariant

  ghost predicate Listed(s: System, c: Conn, k: Key)
  {
    c in ConnsOf(ListOf(s.idle, k))
  }

  ghost predicate DistinctConns(list: seq<Pooled>)
  {
    forall i, j | 0 <= i < j < |list| :: list[i].conn != list[j].conn
  }

  /** Each idle list: short enough, without repetition, in last-used order. */
  ghost predicate GoodList(list: seq<Pooled>, max: nat, clock: int)
  {
    && |list| <= max && DistinctConns(list) && Ordered(list)
    && forall i | 0 <= i < |list| :: list[i].lastUsed <= clock
  }

  ghost predicate ListsGood(cfg: Config, s: System)
  {
    forall k | k in s.idle :: GoodList(ListOf(s.idle, k), cfg.max, s.clock)
  }

  /** A connection is listed under a key exactly when that is its place. */
  ghost predicate IdlePlaces(s: System)
  {
    forall c, k :: Listed(s, c, k) <==> c in s.place && s.place[c] == Idling(k)
  }

  ghost predicate Holds(s: System, r: nat, c: Conn)
  {
    r in s.relays && s.relays[r].phase.Holding? && s.relays[r].phase.conn == c
  }

  /** A relay holds a connection exactly when the connection is leased to it. */
  ghost predicate LeasePlaces(s: System)
  {
    && (forall r, c :: Holds(s, r, c) <==> c in s.place && s.place[c] == Leased(r))
    && (forall r | r in s.relays && s.relays[r].dialing :: s.relays[r].phase.Fresh?)
  }

  /** A connection used for WebSocket is never idle, and its holder knows. */
  ghost predicate TaintKept(s: System)
  {
    && (forall c | c in s.tainted :: c in s.place && !s.place[c].Idling?)
    && (forall r, c :: Holds(s, r, c) && c in s.tainted ==> s.relays[r].phase.ws)
  }

  /** What a relay's run will still do is allowed where it stands. */
  ghost predicate Disciplined(s: System)
  {
    forall r | r in s.relays :: ObeysFrom(s.relays[r].phase, s.relays[r].todo)
  }

  ghost predicate Inv(cfg: Config, s: System)
  {
    cfg.max > 0 && ListsGood(cfg, s) && IdlePlaces(s) && LeasePlaces(s) && TaintKept(s) && Disciplined(s)
  }

  const Init := System(map[], map[], map[], {}, 0)

  // ---------------------------------------------------------------- lists

  lemma DistinctSplit(a: seq<Pooled>, b: seq<Pooled>)
    requires DistinctConns(a + b)
    ensures DistinctConns(a) && DistinctConns(b) && ConnsOf(a) !! ConnsOf(b)
    ensures ConnsOf(a + b) == ConnsOf(a) + ConnsOf(b)
  {
    var l := a + b;
    assert forall i | 0 <= i < |a| :: a[i] == l[i];
    assert forall i | 0 <= i < |b| :: b[i] == l[|a| + i];
  }

  /** Taking from a good list leaves a good list, and the three pieces share no connection. */
  lemma PopGood(list: seq<Pooled>, max: nat, clock: int, now: int, timeout: int)
    requires GoodList(list, max, clock)
    ensures var p := PopFresh(list, now, timeout);
      && GoodList(p.rest, max, clock)
      && ConnsOf(p.rest) !! ConnsOf(p.closed)
      && (p.taken.Some? ==> p.taken.value.conn !in ConnsOf(p.rest) + ConnsOf(p.closed))
      && ConnsOf(list) == ConnsOf(p.rest) + ConnsOf(p.closed) + (if p.taken.Some? then {p.taken.value.conn} else {})
      && (p.taken.None? ==> p.rest == [])
  {
    hide ConnsOf;
    var p := PopFresh(list, now, timeout);
    PopConserves(list, now, timeout);
    var mid := if p.taken.Some? then [p.taken.value] else [];
    assert list == (p.rest + mid) + p.closed;
    DistinctSplit(p.rest + mid, p.closed);
    DistinctSplit(p.rest, mid);
    if p.taken.Some? {
      ConnsOne(p.taken.value);
    }
    assert forall i | 0 <= i < |p.rest| :: p.rest[i] == list[i];
  }

  /** Putting a new connection on a good list keeps it good; only the oldest entry can make room. */
  lemma PushGood(list: seq<Pooled>, max: nat, clock: int, c: Conn)
    requires GoodList(list, max, clock) && max > 0 && c !in ConnsOf(list)
    ensures var put := PushBounded(list, Pooled(c, clock), max);
      && GoodList(put.0, max, clock)
      && (put.1.Some? <==> |list| == max) && (put.1.Some? ==> put.1.value == list[0])
      && (var out := if put.1.Some? then {put.1.value.conn} else {};
          out <= ConnsOf(list) && ConnsOf(put.0) == ConnsOf(list) - out + {c})
  {
    ConnsOne(Pooled(c, clock));
    if |list| >= max {
      ConnsOne(list[0]);
      ConnsAppend(list[1..], [Pooled(c, clock)]);
      FreshSnoc(list[1..], Pooled(c, clock));
      assert forall i | 0 <= i < |list| - 1 :: list[1..][i] == list[i + 1];
    } else {
      ConnsAppend(list, [Pooled(c, clock)]);
    }
  }

  lemma FreshSnoc(list: seq<Pooled>, p: Pooled)
    requires DistinctConns(list) && p.conn !in ConnsOf(list)
    ensures DistinctConns(list + [p])
  {
  }

  // ---------------------------------------------------------------- every step keeps the invariant

  /** The next action of a relay is allowed where it stands, and so is the rest afterwards. */
  lemma NextAllowed(s: System, r: nat)
    requires Disciplined(s) && r in s.relays && s.relays[r].todo != []
    ensures var x := s.relays[r]; Allowed(x.phase, x.todo[0]) && ObeysFrom(After(x.phase, x.todo[0]), x.todo[1..])
  {
  }

  lemma DisciplineKept(cfg: Config, s: System, t: Step)
    requires Disciplined(s) && Enabled(cfg, s, t) && cfg.max > 0
    ensures Disciplined(Apply(cfg, s, t))
  {
    hide ObeysFrom, TraceOf, PopFresh, PushBounded;
    match t
    case Start(r, key, h2, events) => RunObeys(h2, None, 0, events);
    case Take(r, now) => if s.relays[r].todo != [] { NextAllowed(s, r); }
    case Dialled(r, conn) => NextAllowed(s, r);
    case UseHttp(r) => NextAllowed(s, r);
    case UseWs(r) => NextAllowed(s, r);
    case GiveBack(r, reusable, drained) => NextAllowed(s, r);
    case _ =>
  }

  lemma TakeKeeps(cfg: Config, s: System, r: nat, now: int)
    requires Inv(cfg, s) && Enabled(cfg, s, Take(r, now))
    ensures Inv(cfg, Apply(cfg, s, Take(r, now)))
  {
    hide ConnsOf, PopFresh, GoodList, Disciplined;
    var t := Take(r, now);
    var s' := Apply(cfg, s, t);
    DisciplineKept(cfg, s, t);
    var key := s.relays[r].key;
    var list := ListOf(s.idle, key);
    EmptyGood(cfg.max, s.clock);
    PopGood(list, cfg.max, s.clock, now, cfg.timeout);
    forall c, k ensures Listed(s', c, k) <==> c in s'.place && s'.place[c] == Idling(k) {
      assert Listed(s, c, k) <==> c in s.place && s.place[c] == Idling(k);
      assert Listed(s, c, key) <==> c in s.place && s.place[c] == Idling(key);
    }
    forall q, c ensures Holds(s', q, c) <==> c in s'.place && s'.place[c] == Leased(q) {
      assert Holds(s, q, c) <==> c in s.place && s.place[c] == Leased(q);
      assert Listed(s, c, key) <==> c in s.place && s.place[c] == Idling(key);
    }
    forall q, c | Holds(s', q, c) && c in s'.tainted ensures s'.relays[q].phase.ws {
      assert Listed(s, c, key) <==> c in s.place && s.place[c] == Idling(key);
    }
  }

  lemma EmptyGood(max: nat, clock: int)
    ensures GoodList([], max, clock)
  {
  }

  lemma GiveBackKeeps(cfg: Config, s: System, r: nat, reusable: bool, drained: bool)
    requires Inv(cfg, s) && Enabled(cfg, s, GiveBack(r, reusable, drained))
    ensures Inv(cfg, Apply(cfg, s, GiveBack(r, reusable, drained)))
  {
    hide ConnsOf, PushBounded, GoodList, Disciplined;
    var s' := Apply(cfg, s, GiveBack(r, reusable, drained));
    DisciplineKept(cfg, s, GiveBack(r, reusable, drained));
    NextAllowed(s, r);
    var c0, key := s.relays[r].todo[0].conn, s.relays[r].key;
    assert Holds(s, r, c0);
    assert Listed(s, c0, key) <==> c0 in s.place && s.place[c0] == Idling(key);
    EmptyGood(cfg.max, s.clock);
    var list := ListOf(s.idle, key);
    PushGood(list, cfg.max, s.clock, c0);
    forall c, k ensures Listed(s', c, k) <==> c in s'.place && s'.place[c] == Idling(k) {
      assert Listed(s, c, k) <==> c in s.place && s.place[c] == Idling(k);
      assert Listed(s, c, key) <==> c in s.place && s.place[c] == Idling(key);
    }
    forall q, c ensures Holds(s', q, c) <==> c in s'.place && s'.place[c] == Leased(q) {
      assert Holds(s, q, c) <==> c in s.place && s.place[c] == Leased(q);
      assert Listed(s, c, key) <==> c in s.place && s.place[c] == Idling(key);
    }
  }

  lemma CloseIdleKeeps(cfg: Config, s: System)
    requires Inv(cfg, s)
    ensures Inv(cfg, Apply(cfg, s, CloseIdle))
  {
    var s' := Apply(cfg, s, CloseIdle);
    forall c ensures c in ConnsUnder(s.idle, s.idle.Keys) <==> c in s.place && s.place[c].Idling? {
      if c in ConnsUnder(s.idle, s.idle.Keys) {
        var k, i :| k in s.idle && 0 <= i < |s.idle[k]| && s.idle[k][i].conn == c;
        assert Listed(s, c, k);
      }
      if c in s.place && s.place[c].Idling? {
        assert Listed(s, c, s.place[c].key);
      }
    }
    forall q, c ensures Holds(s', q, c) <==> c in s'.place && s'.place[c] == Leased(q) {
      assert Holds(s, q, c) <==> c in s.place && s.place[c] == Leased(q);
    }
    forall q, c | Holds(s', q, c) && c in s'.tainted ensures s'.relays[q].phase.ws {
    }
  }

  lemma OtherKeeps(cfg: Config, s: System, t: Step)
    requires Inv(cfg, s) && Enabled(cfg, s, t) && !t.Take? && !t.GiveBack? && !t.CloseIdle?
    ensures Inv(cfg, Apply(cfg, s, t))
  {
    hide ConnsOf, Disciplined;
    var s' := Apply(cfg, s, t);
    DisciplineKept(cfg, s, t);
    if t.Dialled? || t.UseHttp? || t.UseWs? {
      NextAllowed(s, t.r);
    }
    forall c, k ensures Listed(s', c, k) <==> c in s'.place && s'.place[c] == Idling(k) {
      assert Listed(s, c, k) <==> c in s.place && s.place[c] == Idling(k);
    }
    forall q, c ensures Holds(s', q, c) <==> c in s'.place && s'.place[c] == Leased(q) {
      assert Holds(s, q, c) <==> c in s.place && s.place[c] == Leased(q);
    }
    forall c | c in s'.tainted ensures c in s'.place && !s'.place[c].Idling? {
      if t.UseWs? {
        assert Holds(s, t.r, s.relays[t.r].phase.conn);
      }
    }
    forall q, c | Holds(s', q, c) && c in s'.tainted ensures s'.relays[q].phase.ws {
      if t.UseWs? && c == s.relays[t.r].todo[0].conn {
        assert Holds(s, t.r, c) && Holds(s, q, c);
      } else if !t.Dialled? {
        assert Holds(s, q, c);
      }
    }
  }

  // ---------------------------------------------------------------- every run

  ghost predicate IsRun(cfg: Config, run: seq<System>, steps: seq<Step>)
  {
    && cfg.max > 0 && |run| == |steps| + 1 && run[0] == Init
    && forall i | 0 <= i < |steps| :: Enabled(cfg, run[i], steps[i]) && run[i + 1] == Apply(cfg, run[i], steps[i])
  }

  lemma {:induction false} RunKeeps(cfg: Config, run: seq<System>, steps: seq<Step>, i: nat)
    requires IsRun(cfg, run, steps) && i < |run|
    ensures Inv(cfg, run[i])
  {
    if i > 0 {
      RunKeeps(cfg, run, steps, i - 1);
      var s, t := run[i - 1], steps[i - 1];
      match t
      case Take(r, now) => TakeKeeps(cfg, s, r, now);
      case GiveBack(r, reusable, drained) => GiveBackKeeps(cfg, s, r, reusable, drained);
      case CloseIdle => CloseIdleKeeps(cfg, s);
      case _ => OtherKeeps(cfg, s, t);
    }
  }

  /**
   In every state of every interleaving, each dialled connection is held by exactly one relay and
   idle nowhere, or idle under exactly one key, once, and held by nobody, or closed and neither.
   */
  lemma EveryConnectionInOnePlace(cfg: Config, run: seq<System>, steps: seq<Step>, i: nat, c: Conn)
    requires IsRun(cfg, run, steps) && i < |run| && c in run[i].place
    ensures var s := run[i];
      match s.place[c]
      case Leased(r) => Holds(s, r, c) && (forall q :: Holds(s, q, c) ==> q == r) && (forall k :: !Listed(s, c, k))
      case Idling(k) => (forall q :: !Holds(s, q, c)) && (forall j :: Listed(s, c, j) <==> j == k) && GoodList(ListOf(s.idle, k), cfg.max, s.clock)
      case Closed => (forall q :: !Holds(s, q, c)) && (forall k :: !Listed(s, c, k))
  {
    RunKeeps(cfg, run, steps, i);
  }

  /** Once a relay has used a connection for WebSocket it is never idle in any later state. */
  lemma {:induction false} WebSocketNeverIdle(cfg: Config, run: seq<System>, steps: seq<Step>, i: nat, j: nat, k: Key)
    requires IsRun(cfg, run, steps) && i < j < |run| && steps[i].UseWs?
    ensures var c := run[i].relays[steps[i].r].todo[0].conn; !Listed(run[j], c, k)
  {
    var c := run[i].relays[steps[i].r].todo[0].conn;
    TaintStays(cfg, run, steps, i + 1, j, c);
    RunKeeps(cfg, run, steps, j);
  }

  lemma {:induction false} TaintStays(cfg: Config, run: seq<System>, steps: seq<Step>, i: nat, j: nat, c: Conn)
    requires IsRun(cfg, run, steps) && i <= j < |run| && c in run[i].tainted
    ensures c in run[j].tainted
  {
    if i < j {
      TaintStays(cfg, run, steps, i, j - 1, c);
    }
  }

  // ---------------------------------------------------------------- nothing a relay does is missing

  /** The step with which relay r does the next action of its run. */
  function StepOf(r: nat, a: Action, drained: bool): Step
  {
    match a
    case Acquired(c) => Dialled(r, c)
    case HttpUse(c) => UseHttp(r)
    case WsUse(c) => UseWs(r)
    case Released(c, reusable) => GiveBack(r, reusable, drained)
  }

  /**
   The next action of any relay, in any state of any run, is a step of the system that moves the relay on. A
   connection is obtained by a dial if it is new and the relay is dialling, or by a take that finds it.
   */
  lemma ActionIsStep(cfg: Config, s: System, r: nat, drained: bool)
    requires Inv(cfg, s) && r in s.relays && s.relays[r].todo != []
    requires var a := s.relays[r].todo[0]; a.Acquired? ==> s.relays[r].dialing && a.conn !in s.place
    ensures var t := StepOf(r, s.relays[r].todo[0], drained);
      Enabled(cfg, s, t) && Apply(cfg, s, t).relays == Advance(s, r)
  {
    var a := s.relays[r].todo[0];
    assert Next(s, r, a);
  }

  lemma RunSnoc(cfg: Config, run: seq<System>, steps: seq<Step>, t: Step)
    requires IsRun(cfg, run, steps) && Enabled(cfg, run[|run| - 1], t)
    ensures IsRun(cfg, run + [Apply(cfg, run[|run| - 1], t)], steps + [t])
  {
    hide Enabled, Apply;
  }

  /** A relay's run can be carried through to its end. */
  lemma {:induction false} RunsThrough(cfg: Config, run: seq<System>, steps: seq<Step>, r: nat)
    returns (run': seq<System>, steps': seq<Step>)
    requires IsRun(cfg, run, steps) && r in run[|run| - 1].relays
    requires var s := run[|run| - 1]; var x := s.relays[r];
      x.todo != [] && x.todo[0].Acquired? ==> x.dialing && x.todo[0].conn !in s.place
    ensures IsRun(cfg, run', steps') && run <= run' && steps <= steps'
    ensures var s := run'[|run'| - 1]; r in s.relays && s.relays[r].todo == []
    decreases |run[|run| - 1].relays[r].todo|
  {
    hide Enabled, Apply, Inv;
    var s := run[|run| - 1];
    if s.relays[r].todo == [] {
      return run, steps;
    }
    RunKeeps(cfg, run, steps, |run| - 1);
    ActionIsStep(cfg, s, r, true);
    var t := StepOf(r, s.relays[r].todo[0], true);
    RunSnoc(cfg, run, steps, t);
    AcquiresOnce(cfg, s, r);
    run', steps' := RunsThrough(cfg, run + [Apply(cfg, s, t)], steps + [t], r);
  }

  lemma AcquiresOnce(cfg: Config, s: System, r: nat)
    requires Inv(cfg, s) && r in s.relays && s.relays[r].todo != []
    ensures |s.relays[r].todo| > 1 ==> !s.relays[r].todo[1].Acquired?
  {
    NextAllowed(s, r);
  }

  /** Whatever its events, there is a run of the system in which a relay does all that its loop does with them. */
  lemma EveryRelayRunHappens(cfg: Config, r: nat, key: Key, h2: bool, events: seq<Event>)
    returns (run: seq<System>, steps: seq<Step>)
    requires cfg.max > 0
    ensures IsRun(cfg, run, steps) && |steps| >= 2
    ensures steps[0] == Start(r, key, h2, events) && r in run[1].relays
    ensures run[1].relays[r].todo == TraceOf(h2, None, 0, events)
    ensures var s := run[|run| - 1]; r in s.relays && s.relays[r].todo == []
  {
    hide TraceOf;
    var t0, t1 := Start(r, key, h2, events), Take(r, 0);
    var s1 := Apply(cfg, Init, t0);
    var s2 := Apply(cfg, s1, t1);
    run, steps := [Init, s1, s2], [t0, t1];
    run, steps := RunsThrough(cfg, run, steps, r);
  }

  // ---------------------------------------------------------------- reuse

  /** A connection given back as reusable is what the next relay for the same upstream gets, while it is fresh. */
  lemma ReuseHappens(cfg: Config, s: System, r: nat, other: nat, now: int)
    requires cfg.max > 0 && Enabled(cfg, s, GiveBack(r, true, true)) && other in s.relays && other != r
    requires s.relays[other].key == s.relays[r].key && now - s.clock <= cfg.timeout
    ensures var s', c := Apply(cfg, s, GiveBack(r, true, true)), s.relays[r].todo[0].conn;
      && c in s'.place && s'.place[c] == Idling(s.relays[r].key) && other in s'.relays
      && Found(cfg, s', other, now).taken == Some(Pooled(c, s.clock)) && Found(cfg, s', other, now).closed == []
  {
    var key, c := s.relays[r].key, s.relays[r].todo[0].conn;
    PushThenPop(ListOf(s.idle, key), Pooled(c, s.clock), cfg.max, now, cfg.timeout);
  }

  /** One that is not reusable, or not drained, is closed and no list changes. */
  lemma UnfitIsClosed(cfg: Config, s: System, r: nat, reusable: bool, drained: bool)
    requires cfg.max > 0 && Enabled(cfg, s, GiveBack(r, reusable, drained)) && !(reusable && drained)
    ensures var s', c := Apply(cfg, s, GiveBack(r, reusable, drained)), s.relays[r].todo[0].conn;
      s'.idle == s.idle && c in s'.place && s'.place[c] == Closed
  {
  }

  /** What a relay takes was idle under its own key and not too long; what was is closed, and then it dials. */
  lemma TakeMeans(cfg: Config, s: System, r: nat, now: int)
    requires Inv(cfg, s) && Enabled(cfg, s, Take(r, now))
    ensures var s', p := Apply(cfg, s, Take(r, now)), Found(cfg, s, r, now);
      && (p.taken.Some? ==> var c := p.taken.value.conn;
           c in s.place && s.place[c] == Idling(s.relays[r].key) && now - p.taken.value.lastUsed <= cfg.timeout && s'.place[c] == Leased(r))
      && (p.taken.None? ==> s'.relays[r].dialing && ListOf(s'.idle, s.relays[r].key) == [])
  {
    var key := s.relays[r].key;
    var list := ListOf(s.idle, key);
    PopConserves(list, now, cfg.timeout);
    var p := Found(cfg, s, r, now);
    if p.taken.Some? {
      assert list[|p.rest|] == p.taken.value;
      assert Listed(s, p.taken.value.conn, key);
    }
  }
}
