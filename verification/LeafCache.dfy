/**
 Single-flight certificate generation. Each step is one critical section of LeafCache.Get (or one
 action outside the mutex); any number of threads interleave them. The LRU is the recency sequence
 that Lru.LruTable refines.
 */
module LeafCache {

  import opened Options
  import opened Lru

  type Tid = nat
  type Ticket = nat

  datatype Cert = Cert(host: string, serial: nat)

  datatype Outcome = Issued(cert: Cert) | Failed

  /** pendingCert: for whom it was created, by whom, and its outcome once done is closed. */
  datatype PendingCert = PendingCert(host: string, owner: Tid, outcome: Option<Outcome>)

  datatype Thread =
    | Idle
    | Checking(host: string, cert: Cert)                           // hit, mutex released
    | Stale(host: string)                                          // hit was expired, about to lock again
    | Waiting(host: string, ticket: Ticket)
    | Generating(host: string, ticket: Ticket)
    | Publishing(host: string, ticket: Ticket, outcome: Outcome)   // done closed, about to lock again
    | Returned(host: string, outcome: Outcome, via: Option<Ticket>)

  datatype System = System(cap: nat, lru: seq<Entry<Cert>>, pending: map<string, Ticket>, tickets: map<Ticket, PendingCert>,
                           threads: map<Tid, Thread>, issued: seq<Cert>)

  datatype Step =
    | Lookup(t: Tid, host: string, ticket: Ticket)
    | Check(t: Tid, valid: bool)
    | Relock(t: Tid, ticket: Ticket)
    | Generate(t: Tid, outcome: Outcome)
    | Publish(t: Tid)
    | Wake(t: Tid)
    | Reset(t: Tid)        // the thread is used for another call

  predicate Enabled(s: System, e: Step)
  {
    e.t in s.threads &&
    var th := s.threads[e.t];
    match e
    case Lookup(t, host, ticket) => th.Idle? && host != "" && ticket !in s.tickets
    case Check(t, valid) => th.Checking?
    case Relock(t, ticket) => th.Stale? && ticket !in s.tickets
    case Generate(t, outcome) => th.Generating? && (outcome.Issued? ==> outcome.cert.host == th.host && outcome.cert !in s.issued)
    case Publish(t) => th.Publishing?
    case Wake(t) => th.Waiting? && th.ticket in s.tickets && s.tickets[th.ticket].outcome.Some?
    case Reset(t) => th.Returned?
  }

  function Move(s: System, t: Tid, th: Thread): map<Tid, Thread>
  {
    s.threads[t := th]
  }

  /** The end of both critical sections: join a pending generation or start one. */
  function JoinOrStart(s: System, t: Tid, host: string, ticket: Ticket): System
  {
    if host in s.pending then s.(threads := Move(s, t, Waiting(host, s.pending[host])))
    else s.(pending := s.pending[host := ticket], tickets := s.tickets[ticket := PendingCert(host, t, None)],
            threads := Move(s, t, Generating(host, ticket)))
  }

  function Apply(s: System, e: Step): System
    requires Enabled(s, e)
  {
    var th := s.threads[e.t];
    match e
    case Lookup(t, host, ticket) =>
      var hit := Lru.Lookup(s.lru, host);
      if hit.Some? then s.(lru := AfterGet(s.lru, host), threads := Move(s, t, Checking(host, hit.value)))
      else JoinOrStart(s, t, host, ticket)
    case Check(t, valid) =>
      s.(threads := Move(s, t, if valid then Returned(th.host, Issued(th.cert), None) else Stale(th.host)))
    case Relock(t, ticket) => JoinOrStart(s.(lru := AfterRemove(s.lru, th.host)), t, th.host, ticket)
    case Generate(t, outcome) =>
      s.(tickets := if th.ticket in s.tickets then s.tickets[th.ticket := s.tickets[th.ticket].(outcome := Some(outcome))] else s.tickets,
         threads := Move(s, t, Publishing(th.host, th.ticket, outcome)),
         issued := s.issued + if outcome.Issued? then [outcome.cert] else [])
    case Publish(t) =>
      s.(pending := s.pending - {th.host},
         lru := if th.outcome.Issued? then AfterPut(s.lru, th.host, th.outcome.cert, s.cap) else s.lru,
         threads := Move(s, t, Returned(th.host, th.outcome, Some(th.ticket))))
    case Wake(t) => s.(threads := Move(s, t, Returned(th.host, s.tickets[th.ticket].outcome.value, Some(th.ticket))))
    case Reset(t) => s.(threads := Move(s, t, Idle))
  }

  // ---------------------------------------------------------------- invariant

  predicate InFlight(th: Thread)
  {
    th.Generating? || th.Publishing?
  }

  ghost predicate ForHost(o: Outcome, host: string)
  {
    o.Issued? ==> o.cert.host == host
  }

  /** What a thread's position says about tickets and the pending map. */
  ghost predicate ThreadOk(s: System, t: Tid, th: Thread)
  {
    match th
    case Idle => true
    case Checking(host, cert) => cert.host == host
    case Stale(host) => true
    case Waiting(host, k) => k in s.tickets && s.tickets[k].host == host
    case Generating(host, k) => Owns(s, t, host, k) && s.tickets[k].outcome == None
    case Publishing(host, k, o) => Owns(s, t, host, k) && s.tickets[k].outcome == Some(o)
    case Returned(host, o, via) =>
      ForHost(o, host) && (via.Some? ==> via.value in s.tickets && s.tickets[via.value] == PendingCert(host, s.tickets[via.value].owner, Some(o)))
  }

  ghost predicate Owns(s: System, t: Tid, host: string, k: Ticket)
  {
    host in s.pending && s.pending[host] == k && k in s.tickets && s.tickets[k].host == host && s.tickets[k].owner == t
  }

  ghost predicate Inv(s: System)
  {
    && s.cap >= 1 && DistinctKeys(s.lru) && |s.lru| <= s.cap
    && (forall i | 0 <= i < |s.lru| :: s.lru[i].value.host == s.lru[i].key)
    && (forall k | k in s.tickets && s.tickets[k].outcome.Some? :: ForHost(s.tickets[k].outcome.value, s.tickets[k].host))
    && (forall h | h in s.pending :: s.pending[h] in s.tickets && s.tickets[s.pending[h]].host == h)
    && (forall t | t in s.threads :: ThreadOk(s, t, s.threads[t]))
  }

  /** At most one generation per host is in flight. */
  lemma OneInFlight(s: System, t: Tid, u: Tid)
    requires Inv(s) && t in s.threads && u in s.threads && InFlight(s.threads[t]) && InFlight(s.threads[u])
    requires s.threads[t].host == s.threads[u].host
    ensures t == u
  {
  }

  lemma JoinKeeps(s: System, t: Tid, host: string, ticket: Ticket)
    requires Inv(s) && t in s.threads && !InFlight(s.threads[t]) && ticket !in s.tickets
    ensures Inv(JoinOrStart(s, t, host, ticket))
  {
  }

  lemma LruKeeps(s: System, lru: seq<Entry<Cert>>)
    requires Inv(s) && DistinctKeys(lru) && |lru| <= s.cap
    requires forall i | 0 <= i < |lru| :: lru[i].value.host == lru[i].key
    ensures Inv(s.(lru := lru))
  {
  }

  /** Each operation leaves only entries that were there, or the one put. */
  lemma HostsKept(es: seq<Entry<Cert>>, key: string, c: Cert, cap: nat)
    requires c.host == key && forall i | 0 <= i < |es| :: es[i].value.host == es[i].key
    ensures forall i | 0 <= i < |AfterGet(es, key)| :: AfterGet(es, key)[i].value.host == AfterGet(es, key)[i].key
    ensures forall i | 0 <= i < |AfterRemove(es, key)| :: AfterRemove(es, key)[i].value.host == AfterRemove(es, key)[i].key
    ensures forall i | 0 <= i < |AfterPut(es, key, c, cap)| :: AfterPut(es, key, c, cap)[i].value.host == AfterPut(es, key, c, cap)[i].key
  {
  }

  lemma StepKeeps(s: System, e: Step)
    requires Inv(s) && Enabled(s, e)
    ensures Inv(Apply(s, e))
  {
    hide AfterGet, AfterPut, AfterRemove, Find, DistinctKeys;
    var th := s.threads[e.t];
    match e
    case Lookup(t, host, ticket) =>
      var c := Cert(host, 0);
      OperationsKeepShape(s.lru, host, c, s.cap);
      HostsKept(s.lru, host, c, s.cap);
      if Lru.Lookup(s.lru, host).Some? {
        var s1 := s.(lru := AfterGet(s.lru, host));
        OtherThreads(s1, Apply(s, e), t);
      } else {
        JoinKeeps(s, t, host, ticket);
      }
    case Relock(t, ticket) =>
      var c := Cert(th.host, 0);
      OperationsKeepShape(s.lru, th.host, c, s.cap);
      HostsKept(s.lru, th.host, c, s.cap);
      LruKeeps(s, AfterRemove(s.lru, th.host));
      JoinKeeps(s.(lru := AfterRemove(s.lru, th.host)), t, th.host, ticket);
    case Generate(t, outcome) => GenerateKeeps(s, e);
    case Publish(t) => PublishKeeps(s, e);
    case _ => OtherThreads(s, Apply(s, e), e.t);
  }

  /** Only thread t moved. */
  lemma OtherThreads(s: System, s': System, t: Tid)
    requires Inv(s) && t in s.threads && !InFlight(s.threads[t])
    requires t in s'.threads && s' == s.(threads := s.threads[t := s'.threads[t]]) && ThreadOk(s', t, s'.threads[t])
    ensures Inv(s')
  {
  }

  lemma GenerateKeeps(s: System, e: Step)
    requires Inv(s) && Enabled(s, e) && e.Generate?
    ensures Inv(Apply(s, e))
  {
  }

  lemma PublishKeeps(s: System, e: Step)
    requires Inv(s) && Enabled(s, e) && e.Publish?
    ensures Inv(Apply(s, e))
  {
    hide AfterPut, DistinctKeys;
    var s' := Apply(s, e);
    var th := s.threads[e.t];
    var c := if th.outcome.Issued? then th.outcome.cert else Cert(th.host, 0);
    OperationsKeepShape(s.lru, th.host, c, s.cap);
    HostsKept(s.lru, th.host, c, s.cap);
    forall u | u in s'.threads ensures ThreadOk(s', u, s'.threads[u]) {
    }
  }

  // ---------------------------------------------------------------- every run

  ghost predicate Starts(s: System)
  {
    s.cap >= 1 && s.lru == [] && s.pending == map[] && s.tickets == map[] && s.issued == [] && forall t | t in s.threads :: s.threads[t].Idle?
  }

  ghost predicate IsRun(run: seq<System>, steps: seq<Step>)
  {
    && |run| == |steps| + 1 && Starts(run[0])
    && forall i | 0 <= i < |steps| :: Enabled(run[i], steps[i]) && run[i + 1] == Apply(run[i], steps[i])
  }

  lemma {:induction false} RunKeeps(run: seq<System>, steps: seq<Step>, i: nat)
    requires IsRun(run, steps) && i < |run|
    ensures Inv(run[i])
  {
    if i > 0 {
      RunKeeps(run, steps, i - 1);
      StepKeeps(run[i - 1], steps[i - 1]);
    }
  }

  // ---------------------------------------------------------------- nobody waits in vain

  /** The thread is at work on the ticket. */
  ghost predicate AtWork(s: System, k: Ticket)
  {
    k in s.tickets && var p := s.tickets[k];
    p.owner in s.threads && InFlight(s.threads[p.owner]) && s.threads[p.owner].host == p.host && s.threads[p.owner].ticket == k
  }

  /** A pending entry has somebody at work on it, and a generation without an outcome is still being made. */
  ghost predicate Live(s: System)
  {
    && (forall h | h in s.pending :: AtWork(s, s.pending[h]))
    && (forall k | k in s.tickets && s.tickets[k].outcome.None? :: AtWork(s, k) && s.threads[s.tickets[k].owner].Generating?)
  }

  lemma LiveJoin(s: System, t: Tid, host: string, ticket: Ticket)
    requires Inv(s) && Live(s) && t in s.threads && !InFlight(s.threads[t]) && ticket !in s.tickets
    ensures Live(JoinOrStart(s, t, host, ticket))
  {
    if host in s.pending {
      LiveOther(s, JoinOrStart(s, t, host, ticket), t);
    } else {
      LiveStart(s, t, host, ticket);
    }
  }

  lemma LiveStart(s: System, t: Tid, host: string, ticket: Ticket)
    requires Live(s) && t in s.threads && !InFlight(s.threads[t]) && ticket !in s.tickets && host !in s.pending
    ensures Live(JoinOrStart(s, t, host, ticket))
  {
    hide Live;
    var s' := JoinOrStart(s, t, host, ticket);
    forall k | k in s.tickets && AtWork(s, k)
      ensures AtWork(s', k) && s'.threads[s'.tickets[k].owner] == s.threads[s.tickets[k].owner]
    {
    }
    LiveMore(s, s', host, ticket);
  }

  lemma LiveMore(s: System, s': System, host: string, ticket: Ticket)
    requires Live(s) && AtWork(s', ticket) && s'.threads[s'.tickets[ticket].owner].Generating?
    requires s'.pending == s.pending[host := ticket] && s'.tickets.Keys == s.tickets.Keys + {ticket}
    requires forall k | k in s.tickets && k != ticket :: s'.tickets[k] == s.tickets[k]
    requires forall k | k in s.tickets && AtWork(s, k) :: AtWork(s', k) && s'.threads[s'.tickets[k].owner] == s.threads[s.tickets[k].owner]
    ensures Live(s')
  {
  }

  lemma LiveStep(s: System, e: Step)
    requires Inv(s) && Live(s) && Enabled(s, e)
    ensures Live(Apply(s, e))
  {
    hide AfterGet, AfterPut, AfterRemove, Lru.Lookup, DistinctKeys, Live, Inv, JoinOrStart;
    var th := s.threads[e.t];
    match e
    case Lookup(t, host, ticket) =>
      if Lru.Lookup(s.lru, host).None? {
        LiveJoin(s, t, host, ticket);
      } else {
        LiveOther(s, Apply(s, e), t);
      }
    case Relock(t, ticket) =>
      RelockShape(s, th.host);
      LiveJoin(s.(lru := AfterRemove(s.lru, th.host)), t, th.host, ticket);
    case Publish(_) => LivePublish(s, e);
    case Generate(_, _) => LiveGenerate(s, e);
    case _ => LiveOther(s, Apply(s, e), e.t);
  }

  lemma LiveOther(s: System, s': System, t: Tid)
    requires Live(s) && t in s.threads && !InFlight(s.threads[t])
    requires t in s'.threads && s'.pending == s.pending && s'.tickets == s.tickets && s'.threads == s.threads[t := s'.threads[t]]
    ensures Live(s')
  {
  }

  lemma RelockShape(s: System, host: string)
    requires Inv(s) && Live(s)
    ensures var s' := s.(lru := AfterRemove(s.lru, host)); Inv(s') && Live(s')
  {
    hide AfterRemove, AfterGet, AfterPut, DistinctKeys;
    OperationsKeepShape(s.lru, host, Cert(host, 0), s.cap);
    HostsKept(s.lru, host, Cert(host, 0), s.cap);
    LruKeeps(s, AfterRemove(s.lru, host));
  }

  lemma LivePublish(s: System, e: Step)
    requires Inv(s) && Live(s) && Enabled(s, e) && e.Publish?
    ensures Live(Apply(s, e))
  {
    hide AfterPut, DistinctKeys;
    var s', th := Apply(s, e), s.threads[e.t];
    assert ThreadOk(s, e.t, th);
    forall h | h in s'.pending
      ensures AtWork(s', s'.pending[h])
    {
      assert AtWork(s, s.pending[h]);
    }
  }

  lemma LiveGenerate(s: System, e: Step)
    requires Inv(s) && Live(s) && Enabled(s, e) && e.Generate?
    ensures Live(Apply(s, e))
  {
    var s', th := Apply(s, e), s.threads[e.t];
    assert ThreadOk(s, e.t, th);
    forall h | h in s'.pending
      ensures AtWork(s', s'.pending[h])
    {
      assert AtWork(s, s.pending[h]);
    }
  }

  lemma {:induction false} RunLive(run: seq<System>, steps: seq<Step>, i: nat)
    requires IsRun(run, steps) && i < |run|
    ensures Live(run[i])
  {
    if i > 0 {
      RunLive(run, steps, i - 1);
      RunKeeps(run, steps, i - 1);
      LiveStep(run[i - 1], steps[i - 1]);
    }
  }

  /** A caller that waits can go on, or the one it waits for is generating; a pending host is one being generated or published. */
  lemma NeverStranded(run: seq<System>, steps: seq<Step>, i: nat, t: Tid, h: string)
    requires IsRun(run, steps) && i < |run|
    ensures t in run[i].threads && run[i].threads[t].Waiting? ==>
      || Enabled(run[i], Wake(t))
      || (exists u :: u in run[i].threads && run[i].threads[u] == Generating(run[i].threads[t].host, run[i].threads[t].ticket))
    ensures h in run[i].pending ==> exists u :: u in run[i].threads && InFlight(run[i].threads[u]) && run[i].threads[u].host == h
  {
    RunLive(run, steps, i);
    RunKeeps(run, steps, i);
    var s := run[i];
    if t in s.threads && s.threads[t].Waiting? {
      assert ThreadOk(s, t, s.threads[t]);
    }
    if h in s.pending {
      assert AtWork(s, s.pending[h]);
    }
  }

  // ---------------------------------------------------------------- what a call gets

  lemma {:induction false} ThreadStays(run: seq<System>, steps: seq<Step>, i: nat, j: nat, t: Tid)
    requires IsRun(run, steps) && i <= j < |run| && t in run[i].threads && forall k | i <= k < j :: steps[k].t != t
    ensures t in run[j].threads && run[j].threads[t] == run[i].threads[t]
    decreases j
  {
    if i < j {
      ThreadStays(run, steps, i, j - 1, t);
      OthersStay(run[j - 1], steps[j - 1], t);
    }
  }

  lemma OthersStay(s: System, e: Step, t: Tid)
    requires Enabled(s, e) && t in s.threads && e.t != t
    ensures t in Apply(s, e).threads && Apply(s, e).threads[t] == s.threads[t]
  {
    hide AfterGet, AfterPut, AfterRemove, Lru.Lookup;
  }

  /** A cached certificate that is still valid is what the call gets, whatever others do meanwhile, and nothing is generated for it. */
  lemma HitReturned(run: seq<System>, steps: seq<Step>, i: nat, j: nat, t: Tid, host: string, c: Cert)
    requires IsRun(run, steps) && i < j < |steps| && steps[i].Lookup? && steps[i].t == t && steps[i].host == host
    requires Lru.Lookup(run[i].lru, host) == Some(c) && steps[j] == Check(t, true) && forall k | i < k < j :: steps[k].t != t
    ensures run[j + 1].threads[t] == Returned(host, Issued(c), None)
    ensures run[i + 1].pending == run[i].pending && run[i + 1].issued == run[i].issued
  {
    hide AfterGet, Lru.Lookup;
    ThreadStays(run, steps, i + 1, j, t);
  }

  /** A generation that succeeded is cached and no longer pending; one that failed leaves nothing behind and may be tried again. */
  lemma PublishedOrForgotten(s: System, e: Step)
    requires Inv(s) && Enabled(s, e) && e.Publish?
    ensures var th, s' := s.threads[e.t], Apply(s, e);
      && th.host !in s'.pending
      && (th.outcome.Issued? ==> Lru.Lookup(s'.lru, th.host) == Some(th.outcome.cert))
      && (th.outcome.Failed? ==> s'.lru == s.lru && s'.issued == s.issued)
  {
    hide AfterPut, Lru.Lookup;
    var th := s.threads[e.t];
    if th.outcome.Issued? {
      PutEvictsOldest(s.lru, th.host, th.outcome.cert, s.cap, th.host);
    }
  }

  /** A call for a host that is neither cached nor pending generates; one for a pending host waits for that generation. */
  lemma MissGenerates(s: System, e: Step)
    requires Enabled(s, e) && e.Lookup? && Lru.Lookup(s.lru, e.host).None?
    ensures var s' := Apply(s, e);
      s'.threads[e.t] == if e.host in s.pending then Waiting(e.host, s.pending[e.host]) else Generating(e.host, e.ticket)
    ensures Apply(s, e).lru == s.lru
  {
    hide Lru.Lookup;
  }

  /**
   In every state of every run: two generations in flight are for different hosts; a certificate in the
   cache is for its key; and a call that returned through a pending generation returned, for its own
   host, exactly that generation's outcome, so any two calls that shared one agree.
   */
  lemma SingleFlight(run: seq<System>, steps: seq<Step>, i: nat, t: Tid, u: Tid)
    requires IsRun(run, steps) && i < |run| && t in run[i].threads && u in run[i].threads
    ensures var s := run[i]; var a, b := s.threads[t], s.threads[u];
      && (InFlight(a) && InFlight(b) && a.host == b.host ==> t == u)
      && (forall j | 0 <= j < |s.lru| :: s.lru[j].value.host == s.lru[j].key)
      && (a.Returned? && a.outcome.Issued? ==> a.outcome.cert.host == a.host)
      && (a.Returned? && a.via.Some? ==>
            a.via.value in s.tickets && s.tickets[a.via.value].host == a.host && s.tickets[a.via.value].outcome == Some(a.outcome))
      && (a.Returned? && b.Returned? && a.via.Some? && a.via == b.via ==> a.host == b.host && a.outcome == b.outcome)
  {
    RunKeeps(run, steps, i);
    var s := run[i];
    if InFlight(s.threads[t]) && InFlight(s.threads[u]) && s.threads[t].host == s.threads[u].host {
      OneInFlight(s, t, u);
    }
  }

  // ---------------------------------------------------------------- how often a host is issued

  predicate Cached(s: System, h: string)
  {
    Find(s.lru, h) < |s.lru|
  }

  /** The step takes the host's certificate out of the cache, as expired or to make room. */
  predicate Drops(s: System, e: Step, h: string)
  {
    Enabled(s, e) && Cached(s, h) && !Cached(Apply(s, e), h)
  }

  predicate Issues(e: Step, h: string)
  {
    e.Generate? && e.outcome.Issued? && e.outcome.cert.host == h
  }

  predicate IssuedFor(s: System, host: string)
  {
    exists i :: 0 <= i < |s.issued| && s.issued[i].host == host
  }

  predicate IssuedTwice(s: System, h: string)
  {
    exists i, j :: 0 <= i < j < |s.issued| && s.issued[i].host == h && s.issued[j].host == h
  }

  ghost predicate PublishesFor(s: System, t: Tid, h: string)
  {
    t in s.threads && s.threads[t].Publishing? && s.threads[t].host == h && s.threads[t].outcome.Issued?
  }

  /** Once issued, the host's certificate is cached or about to be, and nobody generates another. */
  ghost predicate Calm(s: System, h: string)
  {
    && !IssuedTwice(s, h)
    && (forall t | t in s.threads && s.threads[t].Generating? && s.threads[t].host == h :: !IssuedFor(s, h))
    && (IssuedFor(s, h) ==> Cached(s, h) || exists t :: PublishesFor(s, t, h))
  }

  lemma CalmJoin(s: System, t: Tid, host: string, ticket: Ticket, h: string)
    requires Inv(s) && Calm(s, h) && t in s.threads && !InFlight(s.threads[t]) && !Cached(s, host)
    ensures Calm(JoinOrStart(s, t, host, ticket), h)
  {
    var s' := JoinOrStart(s, t, host, ticket);
    if IssuedFor(s, h) && !Cached(s, h) {
      var u :| PublishesFor(s, u, h);
      assert ThreadOk(s, u, s.threads[u]);
      assert PublishesFor(s', u, h);
    }
  }

  lemma CalmOther(s: System, e: Step, h: string)
    requires Inv(s) && Calm(s, h) && Enabled(s, e) && (e.Check? || e.Wake? || e.Reset?)
    ensures Calm(Apply(s, e), h)
  {
    if IssuedFor(s, h) && !Cached(s, h) {
      var u :| PublishesFor(s, u, h);
      assert PublishesFor(Apply(s, e), u, h);
    }
  }

  lemma CalmHit(s: System, e: Step, h: string)
    requires Inv(s) && Calm(s, h) && Enabled(s, e) && e.Lookup? && Lru.Lookup(s.lru, e.host).Some?
    ensures Calm(Apply(s, e), h)
  {
    TouchOnlyReorders(s.lru, e.host, h);
    if IssuedFor(s, h) && !Cached(s, h) {
      var u :| PublishesFor(s, u, h);
      assert PublishesFor(Apply(s, e), u, h);
    }
  }

  lemma CalmGenerate(s: System, e: Step, h: string)
    requires Inv(s) && Calm(s, h) && Enabled(s, e) && e.Generate?
    ensures Calm(Apply(s, e), h)
  {
    var s' := Apply(s, e);
    assert forall i | 0 <= i < |s.issued| :: s'.issued[i] == s.issued[i];
    if Issues(e, h) {
      assert PublishesFor(s', e.t, h);
      forall t | t in s'.threads && s'.threads[t].Generating? && s'.threads[t].host == h
        ensures false
      {
        OneInFlight(s, t, e.t);
      }
    } else if IssuedFor(s', h) {
      assert IssuedFor(s, h);
      if !Cached(s, h) {
        var u :| PublishesFor(s, u, h);
        assert PublishesFor(s', u, h);
      }
    }
  }

  lemma CalmPublish(s: System, e: Step, h: string)
    requires Inv(s) && Calm(s, h) && Enabled(s, e) && !Drops(s, e, h) && e.Publish?
    ensures Calm(Apply(s, e), h)
  {
    hide AfterPut;
    var th := s.threads[e.t];
    if th.outcome.Issued? {
      PutEvictsOldest(s.lru, th.host, th.outcome.cert, s.cap, h);
    }
    if IssuedFor(s, h) && !Cached(s, h) && !(h == th.host && th.outcome.Issued?) {
      var u :| PublishesFor(s, u, h);
      assert PublishesFor(Apply(s, e), u, h);
    }
  }

  lemma CalmRelock(s: System, e: Step, h: string)
    requires Inv(s) && Calm(s, h) && Enabled(s, e) && !Drops(s, e, h) && e.Relock?
    ensures Calm(Apply(s, e), h)
  {
    hide AfterRemove, Calm, Inv;
    var host := s.threads[e.t].host;
    var s1 := s.(lru := AfterRemove(s.lru, host));
    CacheShape(s);
    RemoveOnlyKey(s.lru, host, h);
    OperationsKeepShape(s.lru, host, Cert(host, 0), s.cap);
    HostsKept(s.lru, host, Cert(host, 0), s.cap);
    LruKeeps(s, s1.lru);
    SameCache(s, s1.lru, h);
    CalmJoin(s1, e.t, host, e.ticket, h);
  }

  lemma CacheShape(s: System)
    requires Inv(s)
    ensures s.cap >= 1 && DistinctKeys(s.lru) && |s.lru| <= s.cap
    ensures forall i | 0 <= i < |s.lru| :: s.lru[i].value.host == s.lru[i].key
  {
  }

  lemma SameCache(s: System, lru: seq<Entry<Cert>>, h: string)
    requires Calm(s, h) && (Cached(s, h) ==> Cached(s.(lru := lru), h))
    ensures Calm(s.(lru := lru), h)
  {
    if IssuedFor(s, h) && !Cached(s, h) {
      var u :| PublishesFor(s, u, h);
      assert PublishesFor(s.(lru := lru), u, h);
    }
  }

  lemma CalmStep(s: System, e: Step, h: string)
    requires Inv(s) && Calm(s, h) && Enabled(s, e) && !Drops(s, e, h)
    ensures Calm(Apply(s, e), h)
  {
    hide Calm, Inv, Drops;
    match e
    case Lookup(t, host, ticket) =>
      if Lru.Lookup(s.lru, host).Some? {
        CalmHit(s, e, h);
      } else {
        CalmJoin(s, t, host, ticket, h);
      }
    case Generate(t, outcome) => CalmGenerate(s, e, h);
    case Publish(t) => CalmPublish(s, e, h);
    case Relock(t, ticket) => CalmRelock(s, e, h);
    case _ => CalmOther(s, e, h);
  }

  /** As long as no step drops a host's certificate, the host is issued at most one, whatever happens to other hosts. */
  lemma {:induction false} OneSuccessPerHost(run: seq<System>, steps: seq<Step>, i: nat, h: string)
    requires IsRun(run, steps) && i < |run| && forall k | 0 <= k < i :: !Drops(run[k], steps[k], h)
    ensures Calm(run[i], h) && !IssuedTwice(run[i], h)
  {
    if i > 0 {
      OneSuccessPerHost(run, steps, i - 1, h);
      RunKeeps(run, steps, i - 1);
      CalmStep(run[i - 1], steps[i - 1], h);
    }
  }

  lemma IssuedGrows(s: System, e: Step, h: string)
    requires Enabled(s, e)
    ensures s.issued <= Apply(s, e).issued
    ensures Apply(s, e).issued == s.issued + if e.Generate? && e.outcome.Issued? then [e.outcome.cert] else []
  {
  }

  /** Steps that do not issue the host leave it issued as often as before. */
  lemma {:induction false} NoFurtherIssue(run: seq<System>, steps: seq<Step>, j: nat, i: nat, h: string)
    requires IsRun(run, steps) && j <= i < |run| && forall k | j <= k < i :: !Issues(steps[k], h)
    ensures IssuedTwice(run[i], h) ==> IssuedTwice(run[j], h)
    ensures IssuedFor(run[j], h) ==> IssuedFor(run[i], h)
    ensures IssuedTwice(run[j], h) ==> IssuedTwice(run[i], h)
  {
    hide Enabled, Apply;
    if j < i {
      NoFurtherIssue(run, steps, j, i - 1, h);
      IssuedGrows(run[i - 1], steps[i - 1], h);
    }
  }

  lemma {:induction false} IssuedStays(run: seq<System>, steps: seq<Step>, j: nat, i: nat)
    requires IsRun(run, steps) && j <= i < |run|
    ensures run[j].issued <= run[i].issued
  {
    hide Enabled, Apply;
    if j < i {
      IssuedStays(run, steps, j, i - 1);
      IssuedGrows(run[i - 1], steps[i - 1], "");
    }
  }

  /** What is cached or about to be was issued. */
  ghost predicate Sourced(s: System)
  {
    && (forall i | 0 <= i < |s.lru| :: s.lru[i].value in s.issued)
    && (forall t | t in s.threads && s.threads[t].Publishing? && s.threads[t].outcome.Issued? ::
          s.threads[t].outcome.cert in s.issued)
  }

  lemma {:induction false} RunSourced(run: seq<System>, steps: seq<Step>, i: nat)
    requires IsRun(run, steps) && i < |run|
    ensures Sourced(run[i])
  {
    if i > 0 {
      RunSourced(run, steps, i - 1);
      RunKeeps(run, steps, i - 1);
      SourcedStep(run[i - 1], steps[i - 1]);
    }
  }

  lemma SourcedStep(s: System, e: Step)
    requires Inv(s) && Sourced(s) && Enabled(s, e)
    ensures Sourced(Apply(s, e))
  {
    hide AfterGet, AfterPut, AfterRemove;
    var th := s.threads[e.t];
    match e
    case Lookup(t, host, ticket) => ValuesKept(s.lru, host, Cert(host, 0), s.cap);
    case Relock(t, ticket) => ValuesKept(s.lru, th.host, Cert(th.host, 0), s.cap);
    case Publish(t) => ValuesKept(s.lru, th.host, if th.outcome.Issued? then th.outcome.cert else Cert(th.host, 0), s.cap);
    case _ =>
  }

  /** Each operation leaves only values that were there, or the one put. */
  lemma ValuesKept(es: seq<Entry<Cert>>, key: string, c: Cert, cap: nat)
    ensures forall i | 0 <= i < |AfterGet(es, key)| :: AfterGet(es, key)[i] in es
    ensures forall i | 0 <= i < |AfterRemove(es, key)| :: AfterRemove(es, key)[i] in es
    ensures forall i | 0 <= i < |AfterPut(es, key, c, cap)| :: AfterPut(es, key, c, cap)[i] in es || AfterPut(es, key, c, cap)[i].value == c
  {
  }

  /** A host is issued twice if and only if some step drops its certificate and a later step issues it again. */
  lemma IssuedTwiceIff(run: seq<System>, steps: seq<Step>, i: nat, h: string)
    requires IsRun(run, steps) && i < |run|
    ensures IssuedTwice(run[i], h) <==>
      exists j, k :: 0 <= j < k < i && Drops(run[j], steps[j], h) && Issues(steps[k], h)
  {
    hide Enabled, Apply, Drops, Issues, IssuedTwice;
    if j, k :| 0 <= j < k < i && Drops(run[j], steps[j], h) && Issues(steps[k], h) {
      DroppedThenIssued(run, steps, j, k, i, h);
    } else if j :| 0 <= j < i && Drops(run[j], steps[j], h) {
      var first := FirstDrop(run, steps, j, h);
      OneSuccessPerHost(run, steps, first, h);
      assert !Issues(steps[first], h) by {
        DropIsNoIssue(run[first], steps[first], h);
      }
      NoFurtherIssue(run, steps, first, i, h);
    } else {
      OneSuccessPerHost(run, steps, i, h);
    }
  }

  lemma DropIsNoIssue(s: System, e: Step, h: string)
    requires Drops(s, e, h)
    ensures !Issues(e, h)
  {
  }

  lemma {:induction false} FirstDrop(run: seq<System>, steps: seq<Step>, j: nat, h: string) returns (first: nat)
    requires j < |steps| && |steps| < |run| && Drops(run[j], steps[j], h)
    ensures first <= j && Drops(run[first], steps[first], h) && forall k | 0 <= k < first :: !Drops(run[k], steps[k], h)
  {
    hide Drops;
    if k :| 0 <= k < j && Drops(run[k], steps[k], h) {
      first := FirstDrop(run, steps, k, h);
    } else {
      first := j;
    }
  }

  lemma DroppedThenIssued(run: seq<System>, steps: seq<Step>, j: nat, k: nat, i: nat, h: string)
    requires IsRun(run, steps) && j < k < i < |run| && Drops(run[j], steps[j], h) && Issues(steps[k], h)
    ensures IssuedTwice(run[i], h)
  {
    hide Apply, Enabled;
    RunSourced(run, steps, j);
    RunKeeps(run, steps, j);
    var e := run[j].lru[Find(run[j].lru, h)];
    var a :| 0 <= a < |run[j].issued| && run[j].issued[a] == e.value;
    IssuedStays(run, steps, j, k);
    IssuedGrows(run[k], steps[k], h);
    IssuedStays(run, steps, k + 1, i);
    assert run[i].issued[a].host == h && run[i].issued[|run[k].issued|].host == h;
  }

  // ---------------------------------------------------------------- when a certificate does expire

  /** A thread that saw an expired hit drops whatever is cached by the time it locks again, however fresh. */
  lemma StaleDropsWhatIsThere(s: System, e: Step)
    requires Inv(s) && Enabled(s, e) && e.Relock?
    ensures var host := s.threads[e.t].host;
      && Lru.Lookup(Apply(s, e).lru, host) == None
      && (host !in s.pending ==> Apply(s, e).threads[e.t] == Generating(host, e.ticket))
  {
    RemoveOnlyKey(s.lru, s.threads[e.t].host, s.threads[e.t].host);
  }

  /** The states of such a run, the two threads and the cache only: certificates 0, 1 and 2 are for h. */
  ghost function Race(h: string, n: nat): System
  {
    var c0, c1 := Cert(h, 0), Cert(h, 1);
    var d0 := map[0 := PendingCert(h, 1, Some(Issued(c0)))];
    var d1 := d0[1 := PendingCert(h, 1, Some(Issued(c1)))];
    var got0, got1 := Returned(h, Issued(c0), Some(0)), Returned(h, Issued(c1), Some(1));
    if n == 0 then System(1, [], map[], map[], map[1 := Idle, 2 := Idle], [])
    else if n == 1 then System(1, [], map[h := 0], map[0 := PendingCert(h, 1, None)], map[1 := Generating(h, 0), 2 := Idle], [])
    else if n == 2 then System(1, [], map[h := 0], d0, map[1 := Publishing(h, 0, Issued(c0)), 2 := Idle], [c0])
    else if n <= 8 then
      System(1, [Entry(h, c0)], map[], d0,
             map[1 := if n == 3 then got0 else if n == 4 then Idle else if n <= 6 then Checking(h, c0) else Stale(h),
                 2 := if n <= 5 then Idle else if n <= 7 then Checking(h, c0) else Stale(h)], [c0])
    else if n == 9 then System(1, [], map[h := 1], d0[1 := PendingCert(h, 1, None)], map[1 := Generating(h, 1), 2 := Stale(h)], [c0])
    else if n == 10 then System(1, [], map[h := 1], d1, map[1 := Publishing(h, 1, Issued(c1)), 2 := Stale(h)], [c0, c1])
    else if n == 11 then System(1, [Entry(h, c1)], map[], d1, map[1 := got1, 2 := Stale(h)], [c0, c1])
    else if n == 12 then System(1, [], map[h := 2], d1[2 := PendingCert(h, 2, None)], map[1 := got1, 2 := Generating(h, 2)], [c0, c1])
    else System(1, [], map[h := 2], d1[2 := PendingCert(h, 2, Some(Issued(Cert(h, 2))))],
                map[1 := got1, 2 := Publishing(h, 2, Issued(Cert(h, 2)))], [c0, c1, Cert(h, 2)])
  }

  ghost function RaceStep(h: string, n: nat): Step
  {
    if n == 0 then Lookup(1, h, 0) else if n == 1 then Generate(1, Issued(Cert(h, 0))) else if n == 2 then Publish(1)
    else if n == 3 then Reset(1) else if n == 4 then Lookup(1, h, 1) else if n == 5 then Lookup(2, h, 1)
    else if n == 6 then Check(1, false) else if n == 7 then Check(2, false) else if n == 8 then Relock(1, 1)
    else if n == 9 then Generate(1, Issued(Cert(h, 1))) else if n == 10 then Publish(1)
    else if n == 11 then Relock(2, 2) else Generate(2, Issued(Cert(h, 2)))
  }

  lemma RaceIssues(h: string, n: nat)
    requires h != "" && 0 <= n < 3
    ensures Enabled(Race(h, n), RaceStep(h, n)) && Apply(Race(h, n), RaceStep(h, n)) == Race(h, n + 1)
  {
  }

  lemma RaceFindsExpired(h: string, n: nat)
    requires h != "" && 3 <= n < 8
    ensures Enabled(Race(h, n), RaceStep(h, n)) && Apply(Race(h, n), RaceStep(h, n)) == Race(h, n + 1)
  {
    hide AfterGet, AfterPut, AfterRemove, Lru.Lookup;
    LruOfOne(Entry(h, Cert(h, 0)));
    LruOfOne(Entry(h, Cert(h, 1)));
  }

  lemma RaceRelocks(h: string)
    requires h != ""
    ensures Enabled(Race(h, 8), RaceStep(h, 8)) && Apply(Race(h, 8), RaceStep(h, 8)) == Race(h, 9)
  {
    hide AfterGet, AfterPut, AfterRemove, Lru.Lookup;
    LruOfOne(Entry(h, Cert(h, 0)));
  }

  lemma RaceReissues(h: string)
    requires h != ""
    ensures Enabled(Race(h, 9), RaceStep(h, 9)) && Apply(Race(h, 9), RaceStep(h, 9)) == Race(h, 10)
  {
    hide AfterGet, AfterPut, AfterRemove, Lru.Lookup;
  }

  lemma RacePublishes(h: string)
    requires h != ""
    ensures Enabled(Race(h, 10), RaceStep(h, 10)) && Apply(Race(h, 10), RaceStep(h, 10)) == Race(h, 11)
  {
  }

  lemma RaceDrops(h: string, n: nat)
    requires h != "" && 11 <= n < 13
    ensures Enabled(Race(h, n), RaceStep(h, n)) && Apply(Race(h, n), RaceStep(h, n)) == Race(h, n + 1)
  {
    hide AfterGet, AfterPut, AfterRemove, Lru.Lookup;
    LruOfOne(Entry(h, Cert(h, 1)));
  }

  /**
   So one expiry can cost two generations: threads 1 and 2 both find certificate 0 expired, 1 replaces it
   with certificate 1, then 2 drops certificate 1 unseen and issues certificate 2.
   */
  lemma OneExpiryTwoGenerations(h: string) returns (run: seq<System>, steps: seq<Step>)
    requires h != ""
    ensures IsRun(run, steps) && |steps| == 13
    ensures run[13].issued == [Cert(h, 0), Cert(h, 1), Cert(h, 2)]
    ensures forall i | 0 <= i < 13 && steps[i].Check? :: run[i].threads[steps[i].t] == Checking(h, Cert(h, 0))
  {
    run := seq(14, n requires 0 <= n < 14 => Race(h, n));
    steps := seq(13, n requires 0 <= n < 13 => RaceStep(h, n));
    forall n | 0 <= n < 13
      ensures Enabled(run[n], steps[n]) && run[n + 1] == Apply(run[n], steps[n])
    {
      if n < 3 {
        RaceIssues(h, n);
      } else if n < 8 {
        RaceFindsExpired(h, n);
      } else if n == 8 {
        RaceRelocks(h);
      } else if n == 9 {
        RaceReissues(h);
      } else if n == 10 {
        RacePublishes(h);
      } else {
        RaceDrops(h, n);
      }
    }
  }

  lemma LruOfOne(e: Entry<Cert>)
    ensures AfterGet([e], e.key) == [e] && AfterRemove([e], e.key) == [] && Lru.Lookup([e], e.key) == Some(e.value)
    ensures Lru.Lookup<Cert>([], e.key) == None && AfterPut([], e.key, e.value, 1) == [e]
  {
  }
}
