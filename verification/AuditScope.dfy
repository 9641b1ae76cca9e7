/**
 The audit scope's dependency map: copied, edited and published under a mutex, read without one.
 Hosts are already normalised; the configured roots are a predicate on hosts.
 */
module AuditScopes {

  import opened Options

  datatype Dep = Dep(root: string, reason: string, lastSeen: int)

  type Deps = map<string, Dep>

  datatype Config = Config(isRoot: string -> bool, ttl: int, max: nat)

  // ---------------------------------------------------------------- one publication

  predicate Fresh(cfg: Config, d: Dep, now: int)
  {
    now - d.lastSeen <= cfg.ttl
  }

  /** The entries of the old map that have not expired, and the new one. */
  function Refreshed(cfg: Config, deps: Deps, host: string, d: Dep): Deps
  {
    (map h | h in deps && Fresh(cfg, deps[h], d.lastSeen) :: deps[h])[host := d]
  }

  ghost predicate Oldest(deps: Deps, h: string)
  {
    h in deps && forall k | k in deps :: deps[h].lastSeen <= deps[k].lastSeen
  }

  /** next is what one publication may make of deps: nothing but expiry, overwriting and evicting the oldest. */
  ghost predicate Publication(cfg: Config, deps: Deps, host: string, d: Dep, next: Deps)
  {
    var full := Refreshed(cfg, deps, host, d);
    if |full| <= cfg.max then next == full
    else exists victim :: Oldest(full, victim) && next == full - {victim}
  }

  /** An entry that was there and is not afterwards had expired, was overwritten, or was the oldest of too many. */
  lemma LossesExplained(cfg: Config, deps: Deps, host: string, d: Dep, next: Deps, h: string)
    requires Publication(cfg, deps, host, d, next) && h in deps && (h !in next || next[h] != deps[h])
    ensures || h == host
            || !Fresh(cfg, deps[h], d.lastSeen)
            || (h !in next && |Refreshed(cfg, deps, host, d)| > cfg.max && Oldest(Refreshed(cfg, deps, host, d), h))
  {
  }

  /** What a publication leaves: the new entry and old ones within their time; all of these if there is room for one more. */
  lemma PublicationMeans(cfg: Config, deps: Deps, host: string, d: Dep, next: Deps, h: string)
    requires Publication(cfg, deps, host, d, next)
    ensures h in next ==> if h == host then next[h] == d else h in deps && next[h] == deps[h] && d.lastSeen <= deps[h].lastSeen + cfg.ttl
    ensures |deps| < cfg.max ==> (h in next <==> h == host || (h in deps && d.lastSeen <= deps[h].lastSeen + cfg.ttl))
    ensures h in deps && h != host && d.lastSeen <= deps[h].lastSeen + cfg.ttl && h !in next ==>
      forall k | k in next :: deps[h].lastSeen <= next[k].lastSeen
  {
    RefreshedSize(cfg, deps, host, d);
  }

  lemma RefreshedSize(cfg: Config, deps: Deps, host: string, d: Dep)
    ensures |Refreshed(cfg, deps, host, d)| <= |deps| + 1
  {
    var kept := map h | h in deps && Fresh(cfg, deps[h], d.lastSeen) :: deps[h];
    SubsetSize(kept.Keys, deps.Keys);
  }

  lemma {:induction false} SubsetSize(a: set<string>, b: set<string>)
    requires a <= b
    ensures |a| <= |b|
  {
    if a != {} {
      var x :| x in a;
      SubsetSize(a - {x}, b - {x});
    }
  }

  /** A publication never leaves more than the maximum, and at most one entry had to be evicted for that. */
  lemma PublicationBounded(cfg: Config, deps: Deps, host: string, d: Dep, next: Deps)
    requires Publication(cfg, deps, host, d, next) && |deps| <= cfg.max
    ensures |next| <= cfg.max
  {
    RefreshedSize(cfg, deps, host, d);
    var full := Refreshed(cfg, deps, host, d);
    if |full| > cfg.max {
      var victim :| Oldest(full, victim) && next == full - {victim};
    }
  }

  class AuditScope {
    const cfg: Config
    var dependencies: Deps

    constructor (cfg: Config)
      ensures this.cfg == cfg && dependencies == map[]
    {
      this.cfg, dependencies := cfg, map[];
    }

    /** The locked part of RegisterDependency: copy what is fresh, add, evict while there is too much, store. */
    method Publish(root: string, host: string, reason: string, now: int)
      requires |dependencies| <= cfg.max
      modifies this`dependencies
      ensures Publication(cfg, old(dependencies), host, Dep(root, reason, now), dependencies)
      ensures |dependencies| <= cfg.max
    {
      var d := Dep(root, reason, now);
      var next := CopyFresh(dependencies, now);
      next := next[host := d];
      RefreshedSize(cfg, dependencies, host, d);
      next := Evict(next);
      dependencies := next;
    }

    /** The eviction loop: it stops after one round, because the map grew by one entry at most. */
    method Evict(full: Deps) returns (next: Deps)
      requires |full| <= cfg.max + 1
      ensures |next| <= cfg.max
      ensures if |full| <= cfg.max then next == full else exists victim :: Oldest(full, victim) && next == full - {victim}
    {
      next := full;
      while |next| > cfg.max
        invariant if |next| > cfg.max then next == full
                  else (next == full || (|full| > cfg.max && exists victim :: Oldest(full, victim) && next == full - {victim}))
        decreases |next|
      {
        var oldest := FindOldest(next);
        next := next - {oldest};
      }
    }

    method CopyFresh(current: Deps, now: int) returns (next: Deps)
      ensures next == map h | h in current && Fresh(cfg, current[h], now) :: current[h]
    {
      next := map[];
      var left := current.Keys;
      while left != {}
        invariant left <= current.Keys
        invariant next == map h | h in current && h !in left && Fresh(cfg, current[h], now) :: current[h]
        decreases left
      {
        var h :| h in left;
        left := left - {h};
        if Fresh(cfg, current[h], now) {
          next := next[h := current[h]];
        }
      }
    }

    /** The scan for the entry seen longest ago. */
    method FindOldest(next: Deps) returns (oldest: string)
      requires next != map[]
      ensures Oldest(next, oldest)
    {
      oldest :| oldest in next;
      var left := next.Keys - {oldest};
      while left != {}
        invariant left <= next.Keys && oldest in next
        invariant forall k | k in next && k !in left :: next[oldest].lastSeen <= next[k].lastSeen
        decreases left
      {
        var h :| h in left;
        left := left - {h};
        if next[h].lastSeen < next[oldest].lastSeen {
          oldest := h;
        }
      }
    }
  }

  // ---------------------------------------------------------------- interleavings

  type Tid = nat

  datatype Verdict = RootHost(host: string) | Dependency(root: string) | OutOfScope

  /**
   Where a call of Decide or RegisterDependency stands; each arrow reads the published map once. A registration made
   by Decide carries the verdict Decide will return, whatever becomes of the registration.
   */
  datatype Thread =
    | Idle
    | AskHost(host: string, origin: string, referer: string)
    | AskOrigin(host: string, origin: string, referer: string)
    | AskReferer(host: string, referer: string)
    | Register(root: string, host: string, reason: string, decision: Option<Verdict>)         // inside RegisterDependency
    | Ready(root: string, host: string, reason: string, now: int, decision: Option<Verdict>)  // about to lock
    | Decided(verdict: Verdict)

  datatype System = System(deps: Deps, clock: int, threads: map<Tid, Thread>)

  datatype Step =
    | Decide(t: Tid, host: string, origin: string, referer: string)
    | CallRegister(t: Tid, root: string, host: string, reason: string)
    | Go(t: Tid)                            // the thread's next lookup
    | Store(t: Tid, next: Deps)             // the thread's locked section
    | Return(t: Tid)
    | Tick(clock: int)

  /** lookupDependency on the map as published now. */
  function Known(cfg: Config, s: System, host: string): Option<string>
  {
    if host != "" && host in s.deps && Fresh(cfg, s.deps[host], s.clock) then Some(s.deps[host].root) else None
  }

  /** rootFromHeaderURL for a header whose host is h. */
  function HeaderRoot(cfg: Config, s: System, h: string): Option<string>
  {
    if h == "" then None else if cfg.isRoot(h) then Some(h) else Known(cfg, s, h)
  }

  ghost predicate Enabled(cfg: Config, s: System, e: Step)
  {
    match e
    case Tick(clock) => clock >= s.clock
    case Decide(t, _, _, _) => t in s.threads && s.threads[t].Idle?
    case CallRegister(t, _, _, _) => t in s.threads && s.threads[t].Idle?
    case Go(t) => t in s.threads && !s.threads[t].Idle? && !s.threads[t].Ready? && !s.threads[t].Decided?
    case Store(t, next) => t in s.threads && s.threads[t].Ready? &&
      var th := s.threads[t]; Publication(cfg, s.deps, th.host, Dep(th.root, th.reason, th.now), next)
    case Return(t) => t in s.threads && s.threads[t].Decided?
  }

  /** RegisterDependency returns: to Decide, or to its own caller. */
  function Finished(verdict: Option<Verdict>): Thread
  {
    if verdict.Some? then Decided(verdict.value) else Idle
  }

  /** The next position of a thread that looks something up. */
  function Advance(cfg: Config, s: System, th: Thread): Thread
  {
    match th
    case AskHost(host, origin, referer) =>
      if Known(cfg, s, host).Some? then Decided(Dependency(Known(cfg, s, host).value)) else AskOrigin(host, origin, referer)
    case AskOrigin(host, origin, referer) =>
      var root := HeaderRoot(cfg, s, origin);
      if root.Some? then Register(root.value, host, "origin", Some(Dependency(root.value))) else AskReferer(host, referer)
    case AskReferer(host, referer) =>
      var root := HeaderRoot(cfg, s, referer);
      if root.Some? then Register(root.value, host, "referer", Some(Dependency(root.value))) else Decided(OutOfScope)
    case Register(root, host, reason, verdict) =>
      if root == "" || host == "" || root == host || cfg.isRoot(host) then Finished(verdict)
      else if cfg.isRoot(root) then Ready(root, host, reason, s.clock, verdict)
      else if Known(cfg, s, root).Some? then Ready(Known(cfg, s, root).value, host, reason, s.clock, verdict)
      else Finished(verdict)
    case _ => th
  }

  function Apply(cfg: Config, s: System, e: Step): System
    requires e.Tick? || e.t in s.threads
  {
    match e
    case Tick(clock) => s.(clock := clock)
    case Decide(t, host, origin, referer) =>
      s.(threads := s.threads[t := if host == "" then Decided(OutOfScope) else if cfg.isRoot(host) then Decided(RootHost(host))
                                   else AskHost(host, origin, referer)])
    case CallRegister(t, root, host, reason) => s.(threads := s.threads[t := Register(root, host, if reason == "" then "manual" else reason, None)])
    case Go(t) => s.(threads := s.threads[t := Advance(cfg, s, s.threads[t])])
    case Store(t, next) =>
      s.(deps := next, threads := s.threads[t := if s.threads[t].Ready? then Finished(s.threads[t].decision) else Idle])
    case Return(t) => s.(threads := s.threads[t := Idle])
  }

  ghost predicate ThreadOk(cfg: Config, th: Thread)
  {
    match th
    case Register(root, host, reason, verdict) => verdict.Some? ==> VerdictOk(cfg, verdict.value)
    case Ready(root, host, reason, now, verdict) =>
      cfg.isRoot(root) && !cfg.isRoot(host) && host != "" && (verdict.Some? ==> VerdictOk(cfg, verdict.value))
    case Decided(verdict) => VerdictOk(cfg, verdict)
    case _ => true
  }

  /** A decision names configured roots only. */
  ghost predicate VerdictOk(cfg: Config, v: Verdict)
  {
    match v
    case RootHost(host) => cfg.isRoot(host)
    case Dependency(root) => cfg.isRoot(root)
    case OutOfScope => true
  }

  /** Every entry leads to a configured root, is not itself one, and there are not too many. */
  ghost predicate Inv(cfg: Config, s: System)
  {
    && (forall h | h in s.deps :: cfg.isRoot(s.deps[h].root) && !cfg.isRoot(h) && h != "")
    && |s.deps| <= cfg.max
    && (forall t | t in s.threads :: ThreadOk(cfg, s.threads[t]))
  }

  /** What a publication by a thread that is ready leaves in the map. */
  lemma StoreKeeps(cfg: Config, s: System, th: Thread, next: Deps)
    requires Inv(cfg, s) && th.Ready? && ThreadOk(cfg, th)
    requires Publication(cfg, s.deps, th.host, Dep(th.root, th.reason, th.now), next)
    ensures |next| <= cfg.max && forall h | h in next :: cfg.isRoot(next[h].root) && !cfg.isRoot(h) && h != ""
  {
    var d := Dep(th.root, th.reason, th.now);
    PublicationBounded(cfg, s.deps, th.host, d, next);
    forall h | h in next ensures cfg.isRoot(next[h].root) && !cfg.isRoot(h) && h != "" {
    }
  }

  lemma StepKeeps(cfg: Config, s: System, e: Step)
    requires Inv(cfg, s) && Enabled(cfg, s, e)
    ensures Inv(cfg, Apply(cfg, s, e))
  {
    hide Publication;
    if !e.Tick? {
      var s' := Apply(cfg, s, e);
      var th := s.threads[e.t];
      if e.Store? {
        StoreKeeps(cfg, s, th, e.next);
      }
      forall t | t in s'.threads ensures ThreadOk(cfg, s'.threads[t]) {
        if t != e.t {
          assert ThreadOk(cfg, s.threads[t]);
        }
      }
    }
  }

  ghost predicate IsRun(cfg: Config, run: seq<System>, steps: seq<Step>)
  {
    && |run| == |steps| + 1 && run[0].deps == map[] && (forall t | t in run[0].threads :: run[0].threads[t].Idle?)
    && forall i | 0 <= i < |steps| :: Enabled(cfg, run[i], steps[i]) && run[i + 1] == Apply(cfg, run[i], steps[i])
  }

  /**
   In every state of every interleaving: each dependency entry names a configured root, through
   whatever chain of Origin and Referer headers it came; no root is a dependency; the map is within
   its bound; and every decision that names a root names a configured one.
   */
  lemma {:induction false} ScopeSound(cfg: Config, run: seq<System>, steps: seq<Step>, i: nat)
    requires IsRun(cfg, run, steps) && i < |run|
    ensures Inv(cfg, run[i])
  {
    if i > 0 {
      ScopeSound(cfg, run, steps, i - 1);
      StepKeeps(cfg, run[i - 1], steps[i - 1]);
    }
  }

  /** Between two states of a run an entry disappears or changes only for one of the three reasons, at one publication. */
  lemma RunLossesExplained(cfg: Config, run: seq<System>, steps: seq<Step>, i: nat, h: string)
    requires IsRun(cfg, run, steps) && i < |steps| && h in run[i].deps
    requires h !in run[i + 1].deps || run[i + 1].deps[h] != run[i].deps[h]
    ensures steps[i].Store?
    ensures var th := run[i].threads[steps[i].t]; var full := Refreshed(cfg, run[i].deps, th.host, Dep(th.root, th.reason, th.now));
      h == th.host || !Fresh(cfg, run[i].deps[h], th.now) || (|full| > cfg.max && Oldest(full, h))
  {
    var e := steps[i];
    var th := run[i].threads[e.t];
    LossesExplained(cfg, run[i].deps, th.host, Dep(th.root, th.reason, th.now), e.next, h);
  }

  // ---------------------------------------------------------------- what is answered

  /** The map leads from the host to the root, and the entry is within its time. */
  predicate Listed(cfg: Config, s: System, host: string, root: string)
  {
    host != "" && host in s.deps && s.clock <= s.deps[host].lastSeen + cfg.ttl && root == s.deps[host].root
  }

  /** The host of a header is a root, or is listed for one. */
  predicate Leads(cfg: Config, s: System, h: string, root: string)
  {
    h != "" && if cfg.isRoot(h) then root == h else Listed(cfg, s, h, root)
  }

  predicate Asking(th: Thread)
  {
    th.AskHost? || th.AskOrigin? || th.AskReferer?
  }

  function Rank(th: Thread): nat
  {
    match th case AskHost(_, _, _) => 3 case AskOrigin(_, _, _) => 2 case AskReferer(_, _) => 1 case _ => 0
  }

  /** The lookups of a call one after the other, on the map as it stands. */
  function Settled(cfg: Config, s: System, th: Thread): Thread
    decreases Rank(th)
  {
    if Asking(th) then Settled(cfg, s, Advance(cfg, s, th)) else th
  }

  /** The verdict a call has come to. */
  function Answer(th: Thread): Option<Verdict>
  {
    match th
    case Decided(v) => Some(v)
    case Register(_, _, _, v) => v
    case Ready(_, _, _, _, v) => v
    case _ => None
  }

  /** What the headers make of a host that is not known: the root of the first that leads to one. */
  lemma HeadersAnswer(cfg: Config, s: System, host: string, origin: string, referer: string, root: string)
    ensures var v := Answer(Settled(cfg, s, AskOrigin(host, origin, referer)));
      && v.Some?
      && (Leads(cfg, s, origin, root) ==> v.value == Dependency(root))
      && ((forall r :: !Leads(cfg, s, origin, r)) && Leads(cfg, s, referer, root) ==> v.value == Dependency(root))
      && ((forall r :: !Leads(cfg, s, origin, r)) && (forall r :: !Leads(cfg, s, referer, r)) ==> v.value == OutOfScope)
  {
    LeadsMeans(cfg, s, origin);
    LeadsMeans(cfg, s, referer);
    var first, second := AskOrigin(host, origin, referer), AskReferer(host, referer);
    assert Settled(cfg, s, second) == Settled(cfg, s, Advance(cfg, s, second)) == Advance(cfg, s, second);
    assert Settled(cfg, s, first) == Settled(cfg, s, Advance(cfg, s, first));
    assert HeaderRoot(cfg, s, origin).Some? ==> Leads(cfg, s, origin, HeaderRoot(cfg, s, origin).value);
    assert HeaderRoot(cfg, s, referer).Some? ==> Leads(cfg, s, referer, HeaderRoot(cfg, s, referer).value);
  }

  lemma LeadsMeans(cfg: Config, s: System, h: string)
    ensures forall r :: Leads(cfg, s, h, r) <==> HeaderRoot(cfg, s, h) == Some(r)
    ensures forall r :: Listed(cfg, s, h, r) <==> Known(cfg, s, h) == Some(r)
  {
  }

  /** A call that nobody interrupts: a root is a root, a listed host its dependency, otherwise what the headers lead to. */
  lemma DecideAlone(cfg: Config, s: System, t: Tid, host: string, origin: string, referer: string, root: string)
    requires Enabled(cfg, s, Decide(t, host, origin, referer))
    ensures var v := Answer(Settled(cfg, s, Apply(cfg, s, Decide(t, host, origin, referer)).threads[t]));
      && v.Some?
      && (host == "" ==> v.value == OutOfScope)
      && (host != "" && cfg.isRoot(host) ==> v.value == RootHost(host))
      && (host != "" && !cfg.isRoot(host) && Listed(cfg, s, host, root) ==> v.value == Dependency(root))
      && (host != "" && !cfg.isRoot(host) && (forall r :: !Listed(cfg, s, host, r)) ==>
            v == Answer(Settled(cfg, s, AskOrigin(host, origin, referer))))
  {
    LeadsMeans(cfg, s, host);
    HeadersAnswer(cfg, s, host, origin, referer, root);
  }

  /** Whatever others do between its lookups, each answer of a call is what the map says at that moment. */
  lemma LookupMeans(cfg: Config, run: seq<System>, steps: seq<Step>, i: nat, root: string)
    requires IsRun(cfg, run, steps) && i < |steps| && steps[i].Go?
    ensures var th, th', s := run[i].threads[steps[i].t], run[i + 1].threads[steps[i].t], run[i];
      && (th.AskHost? ==> (th' == Decided(Dependency(root)) <==> Listed(cfg, s, th.host, root)))
      && (th.AskOrigin? ==> (th' == Register(root, th.host, "origin", Some(Dependency(root))) <==> Leads(cfg, s, th.origin, root)))
      && (th.AskReferer? ==> (th' == Register(root, th.host, "referer", Some(Dependency(root))) <==> Leads(cfg, s, th.referer, root)))
      && (th.AskReferer? ==> (th' == Decided(OutOfScope) <==> forall r :: !Leads(cfg, s, th.referer, r)))
      && (th.Register? && th'.Ready? ==> th'.now == s.clock && th'.host == th.host && Leads(cfg, s, th.root, th'.root))
  {
    var th := run[i].threads[steps[i].t];
    match th
    case AskHost(host, _, _) => LeadsMeans(cfg, run[i], host);
    case AskOrigin(_, origin, _) => LeadsMeans(cfg, run[i], origin);
    case AskReferer(_, referer) => LeadsMeans(cfg, run[i], referer);
    case Register(root, _, _, _) => LeadsMeans(cfg, run[i], root);
    case _ =>
  }
}
