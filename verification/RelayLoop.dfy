/**
 The relay loop's ownership of its upstream connection: loop variables, the deferred release, and
 the promise that every run gives back what it took, once.
 */
module RelayLoop {

  import opened Options
  import opened UpstreamPools

  // ---------------------------------------------------------------- what a run may do with a connection

  datatype Action =
    | Acquired(conn: Conn)
    | HttpUse(conn: Conn)
    | WsUse(conn: Conn)
    | Released(conn: Conn, reusable: bool)

  /** Where a run stands: nothing taken yet, holding a connection (used for WebSocket or not), gave it back. */
  datatype Phase = Fresh | Holding(conn: Conn, ws: bool) | GaveBack

  predicate Allowed(p: Phase, a: Action)
  {
    match a
    case Acquired(c) => p.Fresh?
    case HttpUse(c) => p.Holding? && p.conn == c && !p.ws
    case WsUse(c) => p.Holding? && p.conn == c
    case Released(c, reusable) => p.Holding? && p.conn == c && (reusable ==> !p.ws)
  }

  function After(p: Phase, a: Action): Phase
  {
    match a
    case Acquired(c) => Holding(c, false)
    case HttpUse(c) => p
    case WsUse(c) => Holding(c, true)
    case Released(c, reusable) => GaveBack
  }

  /** The actions are allowed one after the other, from phase p on. */
  predicate ObeysFrom(p: Phase, actions: seq<Action>)
    decreases |actions|
  {
    actions == [] || (Allowed(p, actions[0]) && ObeysFrom(After(p, actions[0]), actions[1..]))
  }

  function AfterAll(p: Phase, actions: seq<Action>): Phase
    decreases |actions|
  {
    if actions == [] then p else AfterAll(After(p, actions[0]), actions[1..])
  }

  predicate Obeys(trace: seq<Action>)
  {
    ObeysFrom(Fresh, trace)
  }

  function PhaseOf(trace: seq<Action>): Phase
  {
    AfterAll(Fresh, trace)
  }

  lemma {:induction false} ObeysAppend(p: Phase, a: seq<Action>, b: seq<Action>)
    ensures ObeysFrom(p, a + b) <==> ObeysFrom(p, a) && ObeysFrom(AfterAll(p, a), b)
    ensures AfterAll(p, a + b) == AfterAll(AfterAll(p, a), b)
    decreases |a|
  {
    if a == [] {
      assert a + b == b;
    } else {
      assert (a + b)[1..] == a[1..] + b;
      ObeysAppend(After(p, a[0]), a[1..], b);
    }
  }

  lemma ObeysSnoc(trace: seq<Action>, a: Action)
    ensures Obeys(trace + [a]) <==> Obeys(trace) && Allowed(PhaseOf(trace), a)
    ensures PhaseOf(trace + [a]) == After(PhaseOf(trace), a)
  {
    ObeysAppend(Fresh, trace, [a]);
  }

  predicate UseOf(a: Action, c: Conn)
  {
    a == HttpUse(c) || a == WsUse(c)
  }

  /** While holding c: it was acquired first, and everything since is a use of it. */
  lemma {:induction false} HoldingShape(trace: seq<Action>)
    requires Obeys(trace)
    ensures PhaseOf(trace).Fresh? <==> trace == []
    ensures PhaseOf(trace).Holding? ==> var c := PhaseOf(trace).conn;
      && trace[0] == Acquired(c)
      && (forall i | 0 < i < |trace| :: UseOf(trace[i], c))
      && (PhaseOf(trace).ws <==> WsUse(c) in trace)
  {
    if trace != [] {
      var front, a := trace[..|trace| - 1], trace[|trace| - 1];
      assert trace == front + [a];
      ObeysSnoc(front, a);
      HoldingShape(front);
    }
  }

  /** A finished run took nothing, or took one connection first and released exactly that one last. */
  ghost predicate OneLease(trace: seq<Action>)
  {
    trace == [] ||
    (|trace| >= 2 && trace[0].Acquired? &&
     var c, n := trace[0].conn, |trace|;
     && trace[n - 1].Released? && trace[n - 1].conn == c
     && (forall i | 0 < i < n - 1 :: UseOf(trace[i], c))
     && (WsUse(c) in trace ==> !trace[n - 1].reusable))
  }

  lemma FinishedShape(trace: seq<Action>)
    requires Obeys(trace) && !PhaseOf(trace).Holding?
    ensures OneLease(trace)
  {
    if trace != [] {
      var front, a := trace[..|trace| - 1], trace[|trace| - 1];
      assert trace == front + [a];
      ObeysSnoc(front, a);
      HoldingShape(front);
    }
  }

  // ---------------------------------------------------------------- one iteration's outside events

  datatype Attempt = Granted(conn: Conn) | Refused | NegotiatedH2

  datatype ReadEnd = Eof | Timeout | Failure

  /** How a round trip over HTTP/2 ended; a response blocked by policy is answered but not counted. */
  datatype H2Trip = Failed | Blocked | Done

  datatype Event =
    | RequestEnds(kind: ReadEnd, drained: bool)                    // no further request could be read
    | Answered                                                     // redirect or policy block, then return
    | WebSocket(attempt: Attempt)
    | KnownH2(trip: H2Trip, localClose: bool)                      // the host is known to speak h2
    | Exchange(attempt: Attempt, trip: H2Trip, aborted: bool, respClose: bool, localClose: bool, drained: bool)

  // ---------------------------------------------------------------- what a run does with its connection

  /** What one pass of the loop does, and the loop variables after it. */
  datatype Effect = Effect(actions: seq<Action>, held: Option<Conn>, exchanges: nat, stop: bool)

  function Returning(held: Option<Conn>, reusable: bool): seq<Action>
  {
    if held.Some? then [Released(held.value, reusable)] else []
  }

  function Obtained(held: Option<Conn>, attempt: Attempt): Option<Conn>
  {
    if held.None? && attempt.Granted? then Some(attempt.conn) else held
  }

  function Obtaining(held: Option<Conn>, attempt: Attempt): seq<Action>
  {
    if held.None? && attempt.Granted? then [Acquired(attempt.conn)] else []
  }

  function TripEffect(held: Option<Conn>, exchanges: nat, trip: H2Trip, localClose: bool): Effect
  {
    Effect([], held, if trip.Done? then exchanges + 1 else exchanges, trip.Failed? || localClose)
  }

  function EffectOf(h2: bool, held: Option<Conn>, exchanges: nat, e: Event): Effect
  {
    match e
    case RequestEnds(kind, drained) =>
      if kind == Eof || (kind == Timeout && exchanges > 0)
      then Effect(Returning(held, drained), None, exchanges, true) else Effect([], held, exchanges, true)
    case Answered => Effect([], held, exchanges, true)
    case WebSocket(attempt) =>
      var c := Obtained(held, attempt);
      if c.None? then Effect([], None, exchanges, true)
      else Effect(Obtaining(held, attempt) + [WsUse(c.value), Released(c.value, false)], None, exchanges, true)
    case KnownH2(trip, localClose) =>
      if h2 then TripEffect(held, exchanges, trip, localClose) else Effect([], held, exchanges, false)
    case Exchange(attempt, trip, aborted, respClose, localClose, drained) =>
      var c := Obtained(held, attempt);
      if c.None? then
        if attempt.NegotiatedH2? && h2 then TripEffect(None, exchanges, trip, localClose) else Effect([], None, exchanges, true)
      else
        var used := Obtaining(held, attempt) + [HttpUse(c.value)];
        if aborted then Effect(used, c, exchanges, true)
        else if localClose || respClose
        then Effect(used + [Released(c.value, !respClose && drained)], None, exchanges + 1, true)
        else Effect(used, c, exchanges + 1, false)
  }

  /** Everything a run does: the passes up to the first that returns, then the deferred release. */
  function TraceOf(h2: bool, held: Option<Conn>, exchanges: nat, events: seq<Event>): seq<Action>
    decreases |events|
  {
    if events == [] then Returning(held, false)
    else
      var x := EffectOf(h2, held, exchanges, events[0]);
      x.actions + if x.stop then Returning(x.held, false) else TraceOf(h2, x.held, x.exchanges, events[1..])
  }

  /** Whatever its events, a run only does what is allowed, and ends holding nothing. */
  lemma {:induction false} RunObeys(h2: bool, held: Option<Conn>, exchanges: nat, events: seq<Event>)
    ensures ObeysFrom(Standing(held), TraceOf(h2, held, exchanges, events))
    ensures !AfterAll(Standing(held), TraceOf(h2, held, exchanges, events)).Holding?
    decreases |events|
  {
    if events != [] {
      var x := EffectOf(h2, held, exchanges, events[0]);
      PassObeys(h2, held, exchanges, events[0]);
      if x.stop {
        ObeysAppend(Standing(held), x.actions, Returning(x.held, false));
      } else {
        ObeysAppend(Standing(held), x.actions, TraceOf(h2, x.held, x.exchanges, events[1..]));
        RunObeys(h2, x.held, x.exchanges, events[1..]);
      }
    }
  }

  /** So every run took nothing, or took one connection and released exactly that one exactly once. */
  lemma EveryRunOneLease(h2: bool, events: seq<Event>)
    ensures OneLease(TraceOf(h2, None, 0, events))
  {
    RunObeys(h2, None, 0, events);
    FinishedShape(TraceOf(h2, None, 0, events));
  }

  /** Where a run stands that holds this between two passes. */
  function Standing(held: Option<Conn>): Phase
  {
    if held.Some? then Holding(held.value, false) else Fresh
  }

  lemma PassObeys(h2: bool, held: Option<Conn>, exchanges: nat, e: Event)
    ensures var x := EffectOf(h2, held, exchanges, e);
      && ObeysFrom(Standing(held), x.actions)
      && (x.held.Some? || !x.stop ==> AfterAll(Standing(held), x.actions) == Standing(x.held))
      && (x.held.None? ==> !AfterAll(Standing(held), x.actions).Holding?)
  {
    hide ObeysFrom, AfterAll;
    NoActions(Standing(held));
    match e
    case Exchange(attempt, _, _, respClose, _, drained) =>
      var c := Obtained(held, attempt);
      if c.Some? {
        Uses(held, attempt, HttpUse(c.value), Released(c.value, !respClose && drained));
      }
    case WebSocket(attempt) =>
      var c := Obtained(held, attempt);
      if c.Some? {
        Uses(held, attempt, WsUse(c.value), Released(c.value, false));
      }
    case RequestEnds(_, drained) =>
      if held.Some? {
        Unrolled(Standing(held), Released(held.value, drained), Released(held.value, drained), Released(held.value, drained));
      }
    case _ =>
  }

  /** A connection obtained and used, and then perhaps given back. */
  lemma Uses(held: Option<Conn>, attempt: Attempt, use: Action, back: Action)
    requires var c := Obtained(held, attempt); c.Some? && UseOf(use, c.value) && back.Released? && back.conn == c.value
    requires back.reusable ==> use.HttpUse?
    ensures var p, used := Standing(held), Obtaining(held, attempt) + [use];
      && ObeysFrom(p, used) && AfterAll(p, used) == Holding(Obtained(held, attempt).value, use.WsUse?)
      && ObeysFrom(p, used + [back]) && AfterAll(p, used + [back]) == GaveBack
      && used + [back] == Obtaining(held, attempt) + [use, back]
  {
    hide ObeysFrom, AfterAll;
    var p, first := Standing(held), Obtaining(held, attempt);
    if first == [] {
      assert first + [use] == [use] && [use] + [back] == [use, back];
      Unrolled(p, use, back, back);
    } else {
      assert first + [use] == [first[0], use] && [first[0], use] + [back] == [first[0], use, back];
      Unrolled(p, first[0], use, back);
    }
  }

  lemma NoActions(p: Phase)
    ensures ObeysFrom(p, []) && AfterAll(p, []) == p
  {
  }

  /** Up to three actions, written out. */
  lemma Unrolled(p: Phase, a: Action, b: Action, c: Action)
    ensures ObeysFrom(p, [a]) == Allowed(p, a) && AfterAll(p, [a]) == After(p, a)
    ensures ObeysFrom(p, [a, b]) == (Allowed(p, a) && Allowed(After(p, a), b))
    ensures AfterAll(p, [a, b]) == After(After(p, a), b)
    ensures ObeysFrom(p, [a, b, c]) == (Allowed(p, a) && Allowed(After(p, a), b) && Allowed(After(After(p, a), b), c))
    ensures AfterAll(p, [a, b, c]) == After(After(After(p, a), b), c)
  {
    ObeysAppend(p, [a], [b]);
    ObeysAppend(p, [a, b], [c]);
    assert [a] + [b] == [a, b] && [a, b] + [c] == [a, b, c];
  }

  // ---------------------------------------------------------------- the run, from its events alone

  /** An event that leaves the connection good: a silent client, or a last exchange it asked for. */
  predicate CleanEnd(e: Event)
  {
    || (e.RequestEnds? && e.kind != Failure && e.drained)
    || (e.Exchange? && !e.aborted && e.localClose && !e.respClose && e.drained)
  }

  predicate TakesLease(e: Event)
  {
    (e.Exchange? || e.WebSocket?) && e.attempt.Granted?
  }

  /** The event ends a run that has a lease, or has none, when it comes. */
  predicate Ends(h2: bool, leased: bool, e: Event)
  {
    || e.RequestEnds? || e.Answered? || e.WebSocket?
    || (e.KnownH2? && h2 && (e.trip.Failed? || e.localClose))
    || (e.Exchange? && (leased || e.attempt.Granted?) && (e.aborted || e.localClose || e.respClose))
    || (e.Exchange? && !leased && e.attempt.Refused?)
    || (e.Exchange? && !leased && e.attempt.NegotiatedH2? && (!h2 || e.trip.Failed? || e.localClose))
  }

  /** A lease was taken before event i. */
  ghost predicate Leased(events: seq<Event>, i: int)
  {
    exists j :: 0 <= j < i && j < |events| && TakesLease(events[j])
  }

  /** The first event that ends the run; the length if none does. */
  ghost predicate EndsAt(h2: bool, leased: bool, events: seq<Event>, n: int)
  {
    && 0 <= n <= |events|
    && (forall i | 0 <= i < n :: !Ends(h2, leased || Leased(events, i), events[i]))
    && (n < |events| ==> Ends(h2, leased || Leased(events, n), events[n]))
  }

  /** What the events up to and including n use the connection for. */
  function UsesOf(c: Conn, events: seq<Event>): seq<Action>
  {
    if events == [] then []
    else
      (match events[0]
       case Exchange(_, _, _, _, _, _) => [HttpUse(c)]
       case WebSocket(_) => [WsUse(c)]
       case _ => [])
      + UsesOf(c, events[1..])
  }

  /** The events of the run: those before its end, and the one that ends it. */
  function Through(events: seq<Event>, n: nat): seq<Event>
  {
    if n < |events| then events[..n + 1] else events
  }

  /** How the connection goes back. */
  function Back(c: Conn, events: seq<Event>, n: nat): Action
  {
    Released(c, n < |events| && CleanEnd(events[n]))
  }

  lemma LeasedShift(events: seq<Event>, leased: bool, i: nat)
    requires events != [] && i > 0
    ensures leased || Leased(events, i) <==> leased || TakesLease(events[0]) || Leased(events[1..], i - 1)
  {
    hide TakesLease;
    if j :| 0 <= j < i && j < |events| && TakesLease(events[j]) {
      assert j > 0 ==> events[1..][j - 1] == events[j];
    }
    if j :| 0 <= j < i - 1 && j < |events[1..]| && TakesLease(events[1..][j]) {
      assert events[j + 1] == events[1..][j];
    }
  }

  /** Past an event that does not end the run, the end is that of the rest. */
  lemma EndsLater(h2: bool, leased: bool, events: seq<Event>, n: int)
    requires EndsAt(h2, leased, events, n) && events != []
    ensures n == 0 <==> Ends(h2, leased, events[0])
    ensures n > 0 ==> EndsAt(h2, leased || TakesLease(events[0]), events[1..], n - 1)
  {
    hide Ends, TakesLease;
    var rest, later := events[1..], leased || TakesLease(events[0]);
    assert !Leased(events, 0);
    if n > 0 {
      forall i | 0 <= i < n - 1
        ensures !Ends(h2, later || Leased(rest, i), rest[i])
      {
        LeasedShift(events, leased, i + 1);
        assert rest[i] == events[i + 1];
      }
      LeasedShift(events, leased, n);
      assert n < |events| ==> rest[n - 1] == events[n];
    }
  }

  lemma ThroughStep(c: Conn, events: seq<Event>, n: nat)
    requires events != []
    ensures n > 0 ==> Through(events, n)[1..] == Through(events[1..], n - 1) && Back(c, events, n) == Back(c, events[1..], n - 1)
    ensures n > 0 ==> Through(events, n) != [] && Through(events, n)[0] == events[0]
    ensures n == 0 ==> Through(events, 0) == [events[0]]
  {
    hide CleanEnd;
  }

  /** One pass with a connection in hand. */
  lemma HeldPass(h2: bool, c: Conn, exchanges: nat, e: Event)
    requires exchanges > 0
    ensures var x := EffectOf(h2, Some(c), exchanges, e);
      && x.stop == Ends(h2, true, e)
      && (x.stop ==> x.actions + Returning(x.held, false) == UsesOf(c, [e]) + [Released(c, CleanEnd(e))])
      && (!x.stop ==> x.actions == UsesOf(c, [e]) && x.held == Some(c) && x.exchanges > 0)
  {
    assert [e][1..] == [];
  }

  /** With a connection in hand: used by every exchange and hand-over up to the end, then given back as the end allows. */
  lemma {:induction false} HeldTrace(h2: bool, c: Conn, exchanges: nat, events: seq<Event>, n: nat)
    requires exchanges > 0 && EndsAt(h2, true, events, n)
    ensures TraceOf(h2, Some(c), exchanges, events) == UsesOf(c, Through(events, n)) + [Back(c, events, n)]
    decreases |events|
  {
    hide EffectOf, CleanEnd, Ends, EndsAt;
    if events == [] {
      EndsNone(h2, true, n);
    } else {
      var x := EffectOf(h2, Some(c), exchanges, events[0]);
      HeldPass(h2, c, exchanges, events[0]);
      EndsLater(h2, true, events, n);
      ThroughStep(c, events, n);
      UsesStep(c, Through(events, n));
      if n > 0 {
        HeldTrace(h2, c, x.exchanges, events[1..], n - 1);
      }
    }
  }

  lemma EndsNone(h2: bool, leased: bool, n: int)
    requires EndsAt(h2, leased, [], n)
    ensures n == 0
  {
  }

  lemma UsesStep(c: Conn, events: seq<Event>)
    requires events != []
    ensures UsesOf(c, events) == UsesOf(c, [events[0]]) + UsesOf(c, events[1..])
  {
    assert [events[0]][1..] == [];
  }

  /** One pass without a connection. */
  lemma FreshPass(h2: bool, exchanges: nat, e: Event)
    ensures var x := EffectOf(h2, None, exchanges, e);
      && x.stop == Ends(h2, false, e)
      && (!TakesLease(e) ==> x.actions == [] && x.held == None)
      && (TakesLease(e) ==> var c := e.attempt.conn;
           && (x.stop ==> x.actions + Returning(x.held, false) == [Acquired(c)] + UsesOf(c, [e]) + [Released(c, CleanEnd(e))])
           && (!x.stop ==> x.actions == [Acquired(c)] + UsesOf(c, [e]) && x.held == Some(c) && x.exchanges > 0))
  {
    assert [e][1..] == [];
  }

  /** Event l is the first to take a lease. */
  ghost predicate FirstLease(events: seq<Event>, l: nat)
  {
    l < |events| && TakesLease(events[l]) && !Leased(events, l)
  }

  lemma {:induction false} NoLeaseTrace(h2: bool, exchanges: nat, events: seq<Event>, n: nat)
    requires EndsAt(h2, false, events, n) && !Leased(events, n + 1)
    ensures TraceOf(h2, None, exchanges, events) == []
    decreases |events|
  {
    hide EffectOf, CleanEnd, Ends, EndsAt, Leased, TakesLease;
    if events != [] {
      var x := EffectOf(h2, None, exchanges, events[0]);
      FreshPass(h2, exchanges, events[0]);
      EndsLater(h2, false, events, n);
      LeasedFirst(events, n + 1);
      if n > 0 {
        LeasedShift(events, false, n + 1);
        NoLeaseTrace(h2, x.exchanges, events[1..], n - 1);
      }
    }
  }

  /** The run that takes its lease at once. */
  lemma LeaseNow(h2: bool, exchanges: nat, events: seq<Event>, n: nat)
    requires EndsAt(h2, false, events, n) && events != [] && TakesLease(events[0])
    ensures var c := events[0].attempt.conn;
      TraceOf(h2, None, exchanges, events) == [Acquired(c)] + UsesOf(c, Through(events, n)) + [Back(c, events, n)]
  {
    hide EffectOf, CleanEnd, Ends, EndsAt, UsesOf;
    var c := events[0].attempt.conn;
    var x := EffectOf(h2, None, exchanges, events[0]);
    FreshPass(h2, exchanges, events[0]);
    EndsLater(h2, false, events, n);
    ThroughStep(c, events, n);
    UsesStep(c, Through(events, n));
    if n > 0 {
      HeldTrace(h2, c, x.exchanges, events[1..], n - 1);
    } else {
      UsesNone(c);
      assert Through(events, n)[1..] == [];
      assert UsesOf(c, [events[0]]) + [] == UsesOf(c, [events[0]]);
    }
  }

  lemma UsesNone(c: Conn)
    ensures UsesOf(c, []) == []
  {
  }

  lemma {:induction false} LeaseTrace(h2: bool, exchanges: nat, events: seq<Event>, n: nat, l: nat)
    requires EndsAt(h2, false, events, n) && l <= n && FirstLease(events, l)
    ensures var c := events[l].attempt.conn;
      TraceOf(h2, None, exchanges, events) == [Acquired(c)] + UsesOf(c, Through(events, n)[l..]) + [Back(c, events, n)]
    decreases |events|
  {
    hide EffectOf, CleanEnd, Ends, EndsAt, Leased, UsesOf;
    var c := events[l].attempt.conn;
    if TakesLease(events[0]) {
      LeasedFirst(events, l);
      LeaseNow(h2, exchanges, events, n);
      assert Through(events, n)[0..] == Through(events, n);
    } else {
      var x := EffectOf(h2, None, exchanges, events[0]);
      FreshPass(h2, exchanges, events[0]);
      LaterLease(events, l);
      EndsLater(h2, false, events, n);
      LeaseTrace(h2, x.exchanges, events[1..], n - 1, l - 1);
      ThroughStep(c, events, n);
      assert Through(events, n)[l..] == Through(events[1..], n - 1)[l - 1..];
    }
  }

  /**
   The whole run, from its events alone: no lease, no action; otherwise the first lease is acquired, used by every
   exchange and hand-over from there to the end of the run, and released, as reusable exactly if that end is clean.
   */
  lemma TraceMeans(h2: bool, exchanges: nat, events: seq<Event>, n: nat)
    requires EndsAt(h2, false, events, n)
    ensures !Leased(events, n + 1) ==> TraceOf(h2, None, exchanges, events) == []
    ensures forall l: nat | l <= n && FirstLease(events, l) ::
      var c := events[l].attempt.conn;
      TraceOf(h2, None, exchanges, events) == [Acquired(c)] + UsesOf(c, Through(events, n)[l..]) + [Back(c, events, n)]
  {
    hide TraceOf, EndsAt, Leased, UsesOf, Back;
    if !Leased(events, n + 1) {
      NoLeaseTrace(h2, exchanges, events, n);
    }
    forall l: nat | l <= n && FirstLease(events, l)
      ensures var c := events[l].attempt.conn;
        TraceOf(h2, None, exchanges, events) == [Acquired(c)] + UsesOf(c, Through(events, n)[l..]) + [Back(c, events, n)]
    {
      LeaseTrace(h2, exchanges, events, n, l);
    }
  }

  lemma LeasedFirst(events: seq<Event>, i: nat)
    requires events != []
    ensures TakesLease(events[0]) && i > 0 ==> Leased(events, i)
    ensures !TakesLease(events[0]) && i <= 1 ==> !Leased(events, i)
  {
    hide TakesLease;
  }

  lemma LaterLease(events: seq<Event>, l: nat)
    requires events != [] && FirstLease(events, l) && !TakesLease(events[0])
    ensures l > 0 && FirstLease(events[1..], l - 1) && events[1..][l - 1] == events[l]
  {
    hide TakesLease;
    assert l > 0;
    LeasedShift(events, false, l);
  }

  ghost predicate GivesReusable(actions: seq<Action>)
  {
    exists a :: a in actions && a.Released? && a.reusable
  }

  /**
   A connection goes back as reusable exactly if the event at which the run ended is a clean one and some event took
   a connection.
   */
  lemma ReusableIffCleanEnd(h2: bool, events: seq<Event>, n: nat)
    requires EndsAt(h2, false, events, n)
    ensures GivesReusable(TraceOf(h2, None, 0, events)) <==> n < |events| && CleanEnd(events[n]) && Leased(events, n + 1)
  {
    hide CleanEnd, TraceOf, EndsAt, Leased, GivesReusable, UsesOf;
    TraceMeans(h2, 0, events, n);
    NoneGiven();
    if Leased(events, n + 1) {
      var l := SomeFirstLease(events, n + 1);
      var c := events[l].attempt.conn;
      UsesOnly(c, Through(events, n)[l..]);
      OneRelease(c, UsesOf(c, Through(events, n)[l..]), Back(c, events, n));
    }
  }

  lemma NoneGiven()
    ensures !GivesReusable([])
  {
  }

  lemma OneRelease(c: Conn, uses: seq<Action>, back: Action)
    requires back.Released? && forall a | a in uses :: UseOf(a, c)
    ensures GivesReusable([Acquired(c)] + uses + [back]) <==> back.reusable
  {
    var trace := [Acquired(c)] + uses + [back];
    assert trace[|trace| - 1] == back;
  }

  lemma {:induction false} SomeFirstLease(events: seq<Event>, i: nat) returns (l: nat)
    requires Leased(events, i)
    ensures l < i && FirstLease(events, l)
    decreases i
  {
    var j :| 0 <= j < i && j < |events| && TakesLease(events[j]);
    if Leased(events, j) {
      l := SomeFirstLease(events, j);
    } else {
      l := j;
    }
  }

  lemma {:induction false} UsesOnly(c: Conn, events: seq<Event>)
    ensures forall a | a in UsesOf(c, events) :: UseOf(a, c)
  {
    if events != [] {
      UsesOnly(c, events[1..]);
    }
  }

  /** An exchange cut off with a connection in hand, or an answer of the relay's own, is the end: no use after it, nothing reusable. */
  lemma AbortedNeverReusable(h2: bool, events: seq<Event>, n: nat, i: nat)
    requires EndsAt(h2, false, events, n) && i <= n && i < |events|
    requires events[i].Answered? || (events[i].Exchange? && events[i].aborted && Leased(events, i + 1))
    ensures i == n && !GivesReusable(TraceOf(h2, None, 0, events))
    ensures TraceOf(h2, None, 0, events) == TraceOf(h2, None, 0, events[..i + 1])
  {
    hide TraceOf, GivesReusable;
    LeasedSnoc(events, i);
    assert Ends(h2, Leased(events, i), events[i]);
    ReusableIffCleanEnd(h2, events, n);
    OnlyThrough(h2, events, n);
  }

  lemma LeasedSnoc(events: seq<Event>, i: nat)
    requires i < |events|
    ensures Leased(events, i + 1) <==> Leased(events, i) || TakesLease(events[i])
  {
    hide TakesLease;
  }

  /** Events after the end do not matter. */
  lemma {:induction false} OnlyThrough(h2: bool, events: seq<Event>, n: nat)
    requires EndsAt(h2, false, events, n) && n < |events|
    ensures TraceOf(h2, None, 0, events) == TraceOf(h2, None, 0, events[..n + 1])
  {
    hide TraceOf, Ends, TakesLease;
    var cut := events[..n + 1];
    forall i | 0 <= i <= n
      ensures Leased(cut, i) <==> Leased(events, i)
    {
      LeasedCut(events, n, i);
    }
    assert EndsAt(h2, false, cut, n);
    TraceMeans(h2, 0, events, n);
    TraceMeans(h2, 0, cut, n);
    LeasedCut(events, n, n + 1);
    if Leased(events, n + 1) {
      var l := SomeFirstLease(events, n + 1);
      assert FirstLease(cut, l);
      assert Through(cut, n) == Through(events, n);
    }
  }

  lemma LeasedCut(events: seq<Event>, n: nat, i: nat)
    requires n < |events| && i <= n + 1
    ensures Leased(events[..n + 1], i) <==> Leased(events, i)
  {
    hide TakesLease;
    var cut := events[..n + 1];
    if j :| 0 <= j < i && j < |events| && TakesLease(events[j]) {
      assert cut[j] == events[j];
    }
  }

  /** Both kinds of release occur: reusable after HTTP and a silent client, never after WebSocket. */
  lemma ReleasesOccur(h2: bool, c: Conn, trip: H2Trip)
    ensures TraceOf(h2, None, 0, [Exchange(Granted(c), trip, false, false, false, true), RequestEnds(Eof, true)])
      == [Acquired(c), HttpUse(c), Released(c, true)]
    ensures TraceOf(h2, None, 0, [Exchange(Granted(c), trip, false, false, false, true), WebSocket(Refused)])
      == [Acquired(c), HttpUse(c), WsUse(c), Released(c, false)]
  {
    var get := Exchange(Granted(c), trip, false, false, false, true);
    assert [get, RequestEnds(Eof, true)][1..] == [RequestEnds(Eof, true)];
    assert [get, WebSocket(Refused)][1..] == [WebSocket(Refused)];
  }

  // ---------------------------------------------------------------- the loop

  class Relay {
    const h2: bool                     // RoundTripH2 is configured
    var upstreamConn: Option<Conn>
    var releaseUpstream: bool          // the release function is set
    var exchanges: nat
    var trace: seq<Action>

    ghost predicate Valid()
      reads this
    {
      && Obeys(trace) && releaseUpstream == upstreamConn.Some?
      && (upstreamConn.Some? ==> PhaseOf(trace) == Holding(upstreamConn.value, false))
      && (upstreamConn.None? ==> !PhaseOf(trace).Holding?)
    }

    constructor (h2: bool)
      ensures Valid() && trace == [] && upstreamConn == None && exchanges == 0 && this.h2 == h2
    {
      this.h2 := h2;
      upstreamConn, releaseUpstream, exchanges, trace := None, false, 0, [];
    }

    method Log(a: Action)
      modifies this`trace
      ensures trace == old(trace) + [a]
      ensures Obeys(old(trace)) && Allowed(PhaseOf(old(trace)), a) ==> Obeys(trace) && PhaseOf(trace) == After(PhaseOf(old(trace)), a)
    {
      ObeysSnoc(trace, a);
      trace := trace + [a];
    }

    /** releaseCurrent: whatever is held is released, at most once however often it is called. */
    method ReleaseCurrent(reusable: bool)
      requires Obeys(trace) && releaseUpstream == upstreamConn.Some?
      requires upstreamConn.Some? ==> PhaseOf(trace).Holding? && PhaseOf(trace).conn == upstreamConn.value
      requires upstreamConn.Some? && reusable ==> !PhaseOf(trace).ws
      requires upstreamConn.None? ==> !PhaseOf(trace).Holding?
      modifies this
      ensures Valid() && upstreamConn.None? && exchanges == old(exchanges)
      ensures trace == old(trace) + Returning(old(upstreamConn), reusable)
    {
      if upstreamConn.None? {
        return;
      }
      if releaseUpstream {
        Log(Released(upstreamConn.value, reusable));
      }
      upstreamConn, releaseUpstream := None, false;
    }

    /** Take a lease if none is held; false means the attempt ended without one. */
    method Ensure(attempt: Attempt) returns (ok: bool)
      requires Valid() && (upstreamConn.None? ==> PhaseOf(trace).Fresh?)
      modifies this
      ensures Valid() && ok == upstreamConn.Some? && exchanges == old(exchanges)
      ensures upstreamConn == Obtained(old(upstreamConn), attempt) && (!ok ==> trace == old(trace))
      ensures trace == old(trace) + Obtaining(old(upstreamConn), attempt)
    {
      if upstreamConn.None? && attempt.Granted? {
        Log(Acquired(attempt.conn));
        upstreamConn, releaseUpstream := Some(attempt.conn), true;
      }
      ok := upstreamConn.Some?;
    }

    /** One pass of the loop body; true means the function returns. */
    method Iterate(e: Event) returns (stop: bool)
      requires Valid() && (upstreamConn.None? ==> PhaseOf(trace).Fresh?)
      modifies this
      ensures Valid() && (!stop ==> (upstreamConn.None? ==> PhaseOf(trace).Fresh?))
      ensures var x := EffectOf(h2, old(upstreamConn), old(exchanges), e);
        && trace == old(trace) + x.actions && upstreamConn == x.held && exchanges == x.exchanges && stop == x.stop
    {
      hide Obeys, PhaseOf;
      match e
      case RequestEnds(kind, drained) =>
        if kind == Eof || (kind == Timeout && exchanges > 0) {
          ReleaseCurrent(upstreamConn.Some? && drained);
        }
        return true;
      case Answered =>
        return true;
      case WebSocket(attempt) =>
        var ok := Ensure(attempt);
        if ok {
          Log(WsUse(upstreamConn.value));
          ReleaseCurrent(false);
        }
        return true;
      case KnownH2(trip, localClose) =>
        if !h2 {
          return false;  // not taken without a round tripper
        }
        stop := RoundTripH2(trip, localClose);
      case Exchange(attempt, trip, aborted, respClose, localClose, drained) =>
        stop := ExchangeOnce(attempt, trip, aborted, respClose, localClose, drained);
    }

    /** doH2RoundTrip and what follows it. */
    method RoundTripH2(trip: H2Trip, localClose: bool) returns (stop: bool)
      modifies this`exchanges
      ensures var x := TripEffect(upstreamConn, old(exchanges), trip, localClose); exchanges == x.exchanges && stop == x.stop
    {
      if trip.Failed? {
        return true;
      }
      if trip.Done? {
        exchanges := exchanges + 1;
      }
      return localClose;
    }

    /** A plain request: obtain a connection, use it, and keep it or give it back. */
    method ExchangeOnce(attempt: Attempt, trip: H2Trip, aborted: bool, respClose: bool, localClose: bool, drained: bool)
      returns (stop: bool)
      requires Valid() && (upstreamConn.None? ==> PhaseOf(trace).Fresh?)
      modifies this
      ensures Valid() && (!stop ==> (upstreamConn.None? ==> PhaseOf(trace).Fresh?))
      ensures
        var x := EffectOf(h2, old(upstreamConn), old(exchanges), Exchange(attempt, trip, aborted, respClose, localClose, drained));
        && trace == old(trace) + x.actions && upstreamConn == x.held && exchanges == x.exchanges && stop == x.stop
    {
      hide Obeys, PhaseOf;
      var ok := Ensure(attempt);
      if !ok {
        if attempt.NegotiatedH2? && h2 {
          stop := RoundTripH2(trip, localClose);
          return;
        }
        return true;
      }
      Log(HttpUse(upstreamConn.value));
      if aborted {
        return true;
      }
      exchanges := exchanges + 1;
      if localClose || respClose {
        ReleaseCurrent(!respClose && drained);
        return true;
      }
      return false;
    }

    /** relayHTTPConnLease: the run does exactly what its events ask for, obeys the discipline and ends holding nothing. */
    method Run(events: seq<Event>)
      requires Valid() && trace == [] && upstreamConn == None && exchanges == 0
      modifies this
      ensures trace == TraceOf(h2, None, 0, events)
      ensures Obeys(trace) && OneLease(trace) && upstreamConn == None
    {
      hide TraceOf, EffectOf, Obeys, PhaseOf;
      var i, stop := 0, false;
      ghost var whole := TraceOf(h2, None, 0, events);
      HoldingShape(trace);
      assert events[0..] == events;
      assert whole == trace + TraceOf(h2, upstreamConn, exchanges, events[i..]);
      while i < |events| && !stop
        invariant 0 <= i <= |events| && Valid()
        invariant !stop ==> (upstreamConn.None? ==> PhaseOf(trace).Fresh?)
        invariant stop ==> whole == trace + Returning(upstreamConn, false)
        invariant !stop ==> whole == trace + TraceOf(h2, upstreamConn, exchanges, events[i..])
        decreases |events| - i
      {
        TraceStep(h2, trace, upstreamConn, exchanges, events, i);
        stop := Iterate(events[i]);
        i := i + 1;
      }
      TraceEnd(h2, upstreamConn, exchanges);
      assert !stop ==> events[i..] == [];
      ReleaseCurrent(false);  // deferred
      FinishedShape(trace);
    }
  }

  lemma TraceEnd(h2: bool, held: Option<Conn>, exchanges: nat)
    ensures TraceOf(h2, held, exchanges, []) == Returning(held, false)
  {
  }

  lemma TraceStep(h2: bool, before: seq<Action>, held: Option<Conn>, exchanges: nat, events: seq<Event>, i: nat)
    requires i < |events|
    ensures var x := EffectOf(h2, held, exchanges, events[i]);
      before + TraceOf(h2, held, exchanges, events[i..]) == before + x.actions
        + if x.stop then Returning(x.held, false) else TraceOf(h2, x.held, x.exchanges, events[i + 1..])
  {
    hide EffectOf, Returning;
    assert events[i..][1..] == events[i + 1..];
    assert events[i..] != [] && events[i..][0] == events[i];
  }
}
