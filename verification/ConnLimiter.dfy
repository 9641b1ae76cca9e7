/**
 Two-level admission permits across hot reload. Threads acquire, fail, time out, release, probe for
 saturation and replace the limiter in any interleaving; each step is one atomic operation on a
 semaphore or on the limiter pointer. Limiters are immutable once published.
 */
module ConnLimiters {

  import opened Options

  type SemId = nat
  type LimId = nat
  type Tid = nat

  datatype Sem = Sem(cap: int, held: int)

  datatype Limiter = Limiter(globalSem: Option<SemId>, profileSems: map<string, SemId>)

  /** Where a thread stands in acquireConnForProfile, releaseConn, IsSaturated or a reload. */
  datatype Thread =
    | Free
    | Want(lim: LimId, profile: string)
    | GotProfile(lim: LimId, profile: string, hasProfile: bool)   // about to take the global semaphore
    | Undo(lim: LimId, profile: string)                           // global refused: the profile unit goes back
    | Permit(lim: LimId, profile: string, hasProfile: bool)
    | HalfReleased(lim: LimId, profile: string, hasProfile: bool) // global unit given back
    | WantProbe(lim: LimId)                                       // IsSaturated has read the limiter
    | Probed(lim: LimId)                                          // TryAcquire of IsSaturated succeeded
    | ReloadMax(profileSems: map<string, SemId>, max: int)        // SetMaxConnections has read the old limiter
    | ReloadProfiles(globalSem: Option<SemId>, caps: map<string, int>)

  datatype System = System(sems: map<SemId, Sem>, lims: map<LimId, Limiter>, current: LimId, threads: map<Tid, Thread>)

  datatype Step =
    | Load(t: Tid, profile: string)
    | TakeProfile(t: Tid) | RefuseProfile(t: Tid)
    | TakeGlobal(t: Tid) | RefuseGlobal(t: Tid) | UndoProfile(t: Tid)
    | ReleaseGlobal(t: Tid) | ReleaseProfile(t: Tid)
    | LoadProbe(t: Tid) | Probe(t: Tid) | RefuseProbe(t: Tid) | Unprobe(t: Tid)
    | LoadMax(t: Tid, max: int) | StoreMax(t: Tid, sem: SemId, lim: LimId)
    | LoadProfiles(t: Tid, caps: map<string, int>) | StoreProfiles(t: Tid, global: SemId, sems: map<string, SemId>, lim: LimId)

  // ---------------------------------------------------------------- which semaphore a thread has taken

  /** The semaphore whose unit the thread has taken in its global (profile) slot, if any. */
  function Slot(s: System, t: Tid, global: bool): Option<SemId>
  {
    if t !in s.threads then None
    else
      var th := s.threads[t];
      if global then (if (th.Permit? || th.Probed?) && th.lim in s.lims then s.lims[th.lim].globalSem else None)
      else if th.GotProfile? || th.Permit? || th.HalfReleased? then (if th.hasProfile then ProfileSem(s, th.lim, th.profile) else None)
      else if th.Undo? then ProfileSem(s, th.lim, th.profile)
      else None
  }

  function ProfileSem(s: System, lim: LimId, profile: string): Option<SemId>
  {
    if lim in s.lims && profile != "" && profile in s.lims[lim].profileSems then Some(s.lims[lim].profileSems[profile]) else None
  }

  /** The units of a semaphore that are out, each named by the thread and slot that took it. */
  ghost function Units(s: System, sem: SemId): set<(Tid, bool)>
  {
    set t, g | t in s.threads && g in {true, false} && Slot(s, t, g) == Some(sem) :: (t, g)
  }

  // ---------------------------------------------------------------- steps

  predicate Room(s: System, sem: Option<SemId>)
  {
    sem.Some? ==> sem.value in s.sems && s.sems[sem.value].held < s.sems[sem.value].cap
  }

  function Bump(s: System, sem: Option<SemId>, delta: int): map<SemId, Sem>
  {
    if sem.Some? && sem.value in s.sems
    then s.sems[sem.value := Sem(s.sems[sem.value].cap, s.sems[sem.value].held + delta)] else s.sems
  }

  predicate Enabled(s: System, e: Step)
  {
    e.t in s.threads && s.current in s.lims &&
    var th := s.threads[e.t];
    match e
    case Load(t, profile) => th.Free?
    case TakeProfile(t) => th.Want? && Room(s, ProfileSem(s, th.lim, th.profile))
    case RefuseProfile(t) => th.Want? && ProfileSem(s, th.lim, th.profile).Some?
    case TakeGlobal(t) => th.GotProfile? && th.lim in s.lims && Room(s, s.lims[th.lim].globalSem)
    case RefuseGlobal(t) => th.GotProfile? && th.lim in s.lims && s.lims[th.lim].globalSem.Some?
    case UndoProfile(t) => th.Undo?
    case ReleaseGlobal(t) => th.Permit?
    case ReleaseProfile(t) => th.HalfReleased?
    case LoadProbe(t) => th.Free?
    case Probe(t) => th.WantProbe? && th.lim in s.lims && Room(s, s.lims[th.lim].globalSem)
    case RefuseProbe(t) => th.WantProbe? && th.lim in s.lims && s.lims[th.lim].globalSem.Some?
    case Unprobe(t) => th.Probed?
    case LoadMax(t, max) => th.Free?
    case StoreMax(t, sem, lim) => th.ReloadMax? && sem !in s.sems && lim !in s.lims
    case LoadProfiles(t, caps) => th.Free?
    case StoreProfiles(t, global, sems, lim) =>
      && th.ReloadProfiles? && lim !in s.lims
      && sems.Keys == (set p | p in th.caps && th.caps[p] > 0)
      && (forall p | p in sems :: sems[p] !in s.sems && sems[p] != global)
      && (forall p, q | p in sems && q in sems && sems[p] == sems[q] :: p == q)
      && (th.globalSem.Some? ==> global == th.globalSem.value) && (th.globalSem.None? ==> global !in s.sems)
  }

  function Move(s: System, t: Tid, th: Thread): map<Tid, Thread>
  {
    s.threads[t := th]
  }

  ghost function Apply(s: System, e: Step): System
    requires Enabled(s, e)
  {
    var th := s.threads[e.t];
    match e
    case Load(t, profile) => s.(threads := Move(s, t, Want(s.current, profile)))
    case TakeProfile(t) =>
      var sem := ProfileSem(s, th.lim, th.profile);
      s.(sems := Bump(s, sem, 1), threads := Move(s, t, GotProfile(th.lim, th.profile, sem.Some?)))
    case RefuseProfile(t) => s.(threads := Move(s, t, Free))
    case TakeGlobal(t) =>
      s.(sems := Bump(s, s.lims[th.lim].globalSem, 1), threads := Move(s, t, Permit(th.lim, th.profile, th.hasProfile)))
    case RefuseGlobal(t) => s.(threads := Move(s, t, if th.hasProfile then Undo(th.lim, th.profile) else Free))
    case UndoProfile(t) => s.(sems := Bump(s, ProfileSem(s, th.lim, th.profile), -1), threads := Move(s, t, Free))
    case ReleaseGlobal(t) =>
      s.(sems := Bump(s, Slot(s, t, true), -1), threads := Move(s, t, HalfReleased(th.lim, th.profile, th.hasProfile)))
    case ReleaseProfile(t) =>
      s.(sems := Bump(s, if th.hasProfile then ProfileSem(s, th.lim, th.profile) else None, -1), threads := Move(s, t, Free))
    case LoadProbe(t) => s.(threads := Move(s, t, WantProbe(s.current)))
    case Probe(t) =>
      s.(sems := Bump(s, s.lims[th.lim].globalSem, 1),
         threads := Move(s, t, if s.lims[th.lim].globalSem.Some? then Probed(th.lim) else Free))
    case RefuseProbe(t) => s.(threads := Move(s, t, Free))
    case Unprobe(t) => s.(sems := Bump(s, Slot(s, t, true), -1), threads := Move(s, t, Free))
    case LoadMax(t, max) => s.(threads := Move(s, t, ReloadMax(s.lims[s.current].profileSems, max)))
    case StoreMax(t, sem, lim) =>
      s.(sems := s.sems[sem := Sem(if th.max <= 0 then 1 else th.max, 0)],
         lims := s.lims[lim := Limiter(Some(sem), th.profileSems)], current := lim, threads := Move(s, t, Free))
    case LoadProfiles(t, caps) => s.(threads := Move(s, t, ReloadProfiles(s.lims[s.current].globalSem, caps)))
    case StoreProfiles(t, global, sems, lim) =>
      var withGlobal := if th.globalSem.Some? then s.sems else s.sems[global := Sem(1024, 0)];
      s.(sems := withGlobal + EmptySems(th.caps, sems),
         lims := s.lims[lim := Limiter(Some(global), sems)], current := lim, threads := Move(s, t, Free))
  }

  ghost function CapOf(caps: map<string, int>, sems: map<string, SemId>, x: SemId): int
    requires x in sems.Values && sems.Keys <= caps.Keys
  {
    var p :| p in sems && sems[p] == x;
    caps[p]
  }

  ghost function EmptySems(caps: map<string, int>, sems: map<string, SemId>): map<SemId, Sem>
    requires sems.Keys <= caps.Keys
  {
    map x | x in sems.Values :: Sem(CapOf(caps, sems, x), 0)
  }

  // ---------------------------------------------------------------- invariant

  /** Every limiter, and every limiter being prepared, names existing semaphores; threads name existing limiters. */
  ghost predicate Wired(s: System)
  {
    && s.current in s.lims
    && (forall l | l in s.lims :: SemsExist(s, s.lims[l].globalSem, s.lims[l].profileSems))
    && (forall t | t in s.threads :: ThreadWired(s, s.threads[t]))
  }

  ghost predicate SemsExist(s: System, global: Option<SemId>, profiles: map<string, SemId>)
  {
    (global.Some? ==> global.value in s.sems) && forall p | p in profiles :: profiles[p] in s.sems
  }

  ghost predicate ThreadWired(s: System, th: Thread)
  {
    match th
    case Free => true
    case ReloadMax(profileSems, max) => SemsExist(s, None, profileSems)
    case ReloadProfiles(globalSem, caps) => SemsExist(s, globalSem, map[])
    case Undo(lim, profile) => lim in s.lims && ProfileSem(s, lim, profile).Some?
    case GotProfile(lim, profile, has) => lim in s.lims && (has ==> ProfileSem(s, lim, profile).Some?)
    case Permit(lim, profile, has) => lim in s.lims && (has ==> ProfileSem(s, lim, profile).Some?)
    case HalfReleased(lim, profile, has) => lim in s.lims && (has ==> ProfileSem(s, lim, profile).Some?)
    case Probed(lim) => lim in s.lims && s.lims[lim].globalSem.Some?
    case Want(lim, profile) => lim in s.lims
    case WantProbe(lim) => lim in s.lims
  }

  ghost predicate Counted(s: System, sem: SemId)
    requires sem in s.sems
  {
    s.sems[sem].held == |Units(s, sem)| <= s.sems[sem].cap
  }

  ghost predicate Inv(s: System)
  {
    Wired(s) && forall sem | sem in s.sems :: Counted(s, sem)
  }

  // ---------------------------------------------------------------- counting

  /** The same limiters and more, the same threads except t. */
  ghost predicate Extends(s: System, s': System, t: Tid)
  {
    && (forall l | l in s.lims :: l in s'.lims && s'.lims[l] == s.lims[l])
    && s'.threads.Keys == s.threads.Keys
    && (forall u | u in s.threads && u != t :: s'.threads[u] == s.threads[u])
  }

  lemma SlotFrame(s: System, s': System, t: Tid, u: Tid, g: bool)
    requires Wired(s) && Extends(s, s', t) && u != t
    ensures Slot(s', u, g) == Slot(s, u, g)
  {
  }

  lemma UnitIn(s: System, sem: SemId, t: Tid, g: bool)
    ensures (t, g) in Units(s, sem) <==> t in s.threads && Slot(s, t, g) == Some(sem)
  {
  }

  /** When only slot g of thread t can differ, each semaphore's units change by that one unit at most. */
  lemma UnitsChange(s: System, s': System, t: Tid, g: bool, sem: SemId)
    requires Wired(s) && Extends(s, s', t) && t in s.threads && Slot(s', t, !g) == Slot(s, t, !g)
    ensures |Units(s', sem)| == |Units(s, sem)|
      + (if Slot(s', t, g) == Some(sem) then 1 else 0) - (if Slot(s, t, g) == Some(sem) then 1 else 0)
  {
    hide Slot, Wired, Units;
    var unit := (t, g);
    UnitIn(s, sem, t, g);
    UnitIn(s', sem, t, g);
    forall x ensures x in Units(s', sem) - {unit} <==> x in Units(s, sem) - {unit} {
      UnitIn(s, sem, x.0, x.1);
      UnitIn(s', sem, x.0, x.1);
      if x.0 != t {
        SlotFrame(s, s', t, x.0, x.1);
      }
    }
    assert Units(s', sem) - {unit} == Units(s, sem) - {unit};
    Without(Units(s, sem), unit);
  }

  lemma Without(a: set<(Tid, bool)>, x: (Tid, bool))
    ensures |a| == |a - {x}| + if x in a then 1 else 0
  {
  }

  // ---------------------------------------------------------------- every step keeps the invariant

  /** A step that moves one unit between thread t's slot g and its semaphore. */
  lemma MoveUnit(s: System, s': System, t: Tid, g: bool)
    requires Inv(s) && Extends(s, s', t) && t in s.threads && Wired(s') && Slot(s', t, !g) == Slot(s, t, !g)
    requires s'.sems.Keys == s.sems.Keys
    requires forall x | x in s.sems ::
      && s'.sems[x].cap == s.sems[x].cap
      && s'.sems[x].held == s.sems[x].held
           + (if Slot(s', t, g) == Some(x) then 1 else 0) - (if Slot(s, t, g) == Some(x) then 1 else 0)
      && (Slot(s', t, g) == Some(x) ==> s.sems[x].held < s.sems[x].cap || Slot(s, t, g) == Some(x))
    ensures Inv(s')
  {
    hide Slot, Wired, Units;
    forall x | x in s'.sems ensures Counted(s', x) {
      UnitsChange(s, s', t, g, x);
    }
  }

  /** Same limiters, one thread moved: the wiring only needs checking at that thread. */
  lemma WiredKept(s: System, s': System, t: Tid)
    requires Wired(s) && t in s.threads && s'.lims == s.lims && s'.current == s.current && s'.sems.Keys == s.sems.Keys
    requires Extends(s, s', t) && ThreadWired(s', s'.threads[t])
    ensures Wired(s')
  {
    forall u | u in s'.threads ensures ThreadWired(s', s'.threads[u]) {
      if u != t {
      }
    }
    forall l | l in s'.lims ensures SemsExist(s', s'.lims[l].globalSem, s'.lims[l].profileSems) {
    }
  }

  lemma NeutralStep(s: System, e: Step)
    requires Inv(s) && Enabled(s, e)
    requires e.Load? || e.RefuseProfile? || e.RefuseGlobal? || e.LoadProbe? || e.RefuseProbe? || e.LoadMax? || e.LoadProfiles?
    ensures Inv(Apply(s, e))
  {
    hide Units, Counted, Bump, EmptySems;
    assert ThreadWired(s, s.threads[e.t]) && SemsExist(s, s.lims[s.current].globalSem, s.lims[s.current].profileSems);
    var s' := Apply(s, e);
    WiredKept(s, s', e.t);
    MoveUnit(s, s', e.t, true);
  }

  lemma TakeStep(s: System, e: Step)
    requires Inv(s) && Enabled(s, e) && (e.TakeProfile? || e.TakeGlobal? || e.Probe?)
    ensures Inv(Apply(s, e))
  {
    hide Units, Counted;
    var s' := Apply(s, e);
    var th := s.threads[e.t];
    var sem := if e.TakeProfile? then ProfileSem(s, th.lim, th.profile) else s.lims[th.lim].globalSem;
    var g := !e.TakeProfile?;
    assert Slot(s, e.t, g) == None && Slot(s', e.t, g) == sem && Slot(s', e.t, !g) == Slot(s, e.t, !g);
    WiredKept(s, s', e.t);
    MoveUnit(s, s', e.t, g);
  }

  /** A unit that goes back was out: no semaphore is released below zero. */
  lemma GiveStep(s: System, e: Step)
    requires Inv(s) && Enabled(s, e) && (e.UndoProfile? || e.ReleaseGlobal? || e.ReleaseProfile? || e.Unprobe?)
    ensures Inv(Apply(s, e))
    ensures var sem := Slot(s, e.t, e.ReleaseGlobal? || e.Unprobe?); sem.Some? ==> sem.value in s.sems && s.sems[sem.value].held >= 1
  {
    hide Units, Counted, EmptySems, SemsExist;
    var s' := Apply(s, e);
    var g := e.ReleaseGlobal? || e.Unprobe?;
    assert ThreadWired(s, s.threads[e.t]);
    WiredKept(s, s', e.t);
    MoveUnit(s, s', e.t, g);
    if Slot(s, e.t, g).Some? {
      OutIsHeld(s, e.t, g);
    }
  }

  lemma OutIsHeld(s: System, t: Tid, g: bool)
    requires Inv(s) && Slot(s, t, g).Some?
    ensures Slot(s, t, g).value in s.sems && s.sems[Slot(s, t, g).value].held >= 1
  {
    var x := Slot(s, t, g).value;
    Without(Units(s, x), (t, g));
  }

  lemma WiredGrows(s: System, s': System, t: Tid, lim: LimId)
    requires Wired(s) && t in s.threads && lim !in s.lims && s'.lims.Keys == s.lims.Keys + {lim} && s'.current == lim
    requires Extends(s, s', t) && s'.threads[t] == Free && s.sems.Keys <= s'.sems.Keys
    requires SemsExist(s', s'.lims[lim].globalSem, s'.lims[lim].profileSems)
    ensures Wired(s')
  {
    forall u | u in s'.threads ensures ThreadWired(s', s'.threads[u]) {
      if u != t {
      }
    }
    forall l | l in s'.lims ensures SemsExist(s', s'.lims[l].globalSem, s'.lims[l].profileSems) {
      if l != lim {
        assert SemsExist(s, s.lims[l].globalSem, s.lims[l].profileSems);
      }
    }
  }

  /** Publishing a limiter: old semaphores keep their units, new ones start empty with room. */
  lemma PublishKeeps(s: System, s': System, t: Tid)
    requires Inv(s) && Wired(s') && Extends(s, s', t) && t in s.threads
    requires forall g: bool :: Slot(s, t, g) == None && Slot(s', t, g) == None
    requires s.sems.Keys <= s'.sems.Keys && forall x | x in s.sems :: s'.sems[x] == s.sems[x]
    requires forall x | x in s'.sems && x !in s.sems :: s'.sems[x].held == 0 < s'.sems[x].cap
    ensures Inv(s')
  {
    hide Slot, Wired, Units;
    forall x | x in s'.sems ensures Counted(s', x) {
      UnitsChange(s, s', t, true, x);
      if x in s.sems {
      } else {
        NoUnits(s, x);
      }
    }
  }

  lemma NoUnits(s: System, x: SemId)
    requires Wired(s) && x !in s.sems
    ensures Units(s, x) == {}
  {
  }

  /** A store adds one limiter and fresh, empty semaphores for it; everything else stays. */
  ghost predicate Published(s: System, s': System, t: Tid, lim: LimId)
  {
    && t in s.threads && lim !in s.lims && s'.lims.Keys == s.lims.Keys + {lim} && s'.current == lim
    && Extends(s, s', t) && s'.threads[t] == Free && s.sems.Keys <= s'.sems.Keys
    && SemsExist(s', s'.lims[lim].globalSem, s'.lims[lim].profileSems)
    && (forall g: bool :: Slot(s, t, g) == None && Slot(s', t, g) == None)
    && (forall x | x in s.sems :: s'.sems[x] == s.sems[x])
    && (forall x | x in s'.sems && x !in s.sems :: s'.sems[x].held == 0 < s'.sems[x].cap)
  }

  lemma StoreMaxPublishes(s: System, e: Step)
    requires Enabled(s, e) && e.StoreMax? && ThreadWired(s, s.threads[e.t])
    ensures Published(s, Apply(s, e), e.t, e.lim)
  {
  }

  lemma StoreProfilesPublishes(s: System, e: Step)
    requires Enabled(s, e) && e.StoreProfiles? && ThreadWired(s, s.threads[e.t])
    ensures Published(s, Apply(s, e), e.t, e.lim)
  {
    hide EmptySems;
    EmptySemsFresh(s.threads[e.t].caps, e.sems);
  }

  lemma EmptySemsFresh(caps: map<string, int>, sems: map<string, SemId>)
    requires sems.Keys <= caps.Keys && forall p | p in sems :: caps[p] > 0
    ensures forall p | p in sems :: sems[p] in EmptySems(caps, sems)
    ensures forall x | x in EmptySems(caps, sems) :: x in sems.Values
    ensures forall x | x in EmptySems(caps, sems) :: EmptySems(caps, sems)[x].held == 0 < EmptySems(caps, sems)[x].cap
  {
  }

  lemma WiredThread(s: System, e: Step)
    requires Wired(s) && Enabled(s, e)
    ensures e.t in s.threads && ThreadWired(s, s.threads[e.t])
  {
  }

  lemma StoreStep(s: System, e: Step)
    requires Inv(s) && Enabled(s, e) && (e.StoreMax? || e.StoreProfiles?)
    ensures Inv(Apply(s, e))
  {
    hide Wired, Counted, Enabled, Apply, Slot, SemsExist;
    var s' := Apply(s, e);
    WiredThread(s, e);
    if e.StoreMax? {
      StoreMaxPublishes(s, e);
    } else {
      StoreProfilesPublishes(s, e);
    }
    WiredGrows(s, s', e.t, e.lim);
    PublishKeeps(s, s', e.t);
  }

  // ---------------------------------------------------------------- every run

  ghost predicate IsRun(run: seq<System>, steps: seq<Step>)
  {
    && |run| == |steps| + 1 && Inv(run[0])
    && forall i | 0 <= i < |steps| :: Enabled(run[i], steps[i]) && run[i + 1] == Apply(run[i], steps[i])
  }

  lemma StepKeeps(s: System, e: Step)
    requires Inv(s) && Enabled(s, e)
    ensures Inv(Apply(s, e))
  {
    hide Inv, Enabled, Apply;
    match e
    case Load(_, _) => NeutralStep(s, e);
    case RefuseProfile(_) => NeutralStep(s, e);
    case LoadProbe(_) => NeutralStep(s, e);
    case RefuseProbe(_) => NeutralStep(s, e);
    case RefuseGlobal(_) => NeutralStep(s, e);
    case LoadMax(_, _) => NeutralStep(s, e);
    case LoadProfiles(_, _) => NeutralStep(s, e);
    case TakeProfile(_) => TakeStep(s, e);
    case TakeGlobal(_) => TakeStep(s, e);
    case Probe(_) => TakeStep(s, e);
    case UndoProfile(_) => GiveStep(s, e);
    case ReleaseGlobal(_) => GiveStep(s, e);
    case ReleaseProfile(_) => GiveStep(s, e);
    case Unprobe(_) => GiveStep(s, e);
    case StoreMax(_, _, _) => StoreStep(s, e);
    case StoreProfiles(_, _, _, _) => StoreStep(s, e);
  }

  /**
   In every state of every interleaving, whatever reloads happened, each semaphore's held count is the
   number of permits and in-progress acquirers that took that very semaphore, and is within its capacity.
   */
  lemma {:induction false} HeldIsUnits(run: seq<System>, steps: seq<Step>, i: nat)
    requires IsRun(run, steps) && i < |run|
    ensures Inv(run[i])
    ensures forall x | x in run[i].sems :: 0 <= run[i].sems[x].held == |Units(run[i], x)| <= run[i].sems[x].cap
  {
    if i > 0 {
      HeldIsUnits(run, steps, i - 1);
      StepKeeps(run[i - 1], steps[i - 1]);
    }
  }

  /** When every thread has gone back to Free, every semaphore ever made is back to zero. */
  lemma QuietMeansZero(run: seq<System>, steps: seq<Step>, i: nat)
    requires IsRun(run, steps) && i < |run| && forall t | t in run[i].threads :: run[i].threads[t].Free?
    ensures forall x | x in run[i].sems :: run[i].sems[x].held == 0
  {
    HeldIsUnits(run, steps, i);
    forall x | x in run[i].sems ensures Units(run[i], x) == {} {
      forall u: (Tid, bool) ensures u !in Units(run[i], x) {
        UnitIn(run[i], x, u.0, u.1);
      }
    }
  }

  /** The state a server starts in: one limiter, nothing taken. */
  lemma StartsWell(cap: int, tids: set<Tid>)
    requires cap > 0
    ensures Inv(System(map[0 := Sem(cap, 0)], map[0 := Limiter(Some(0), map[])], 0, map t | t in tids :: Free))
  {
  }

  // ---------------------------------------------------------------- what a permit is

  /** The thread is somewhere between asking for the profile and giving everything back, on that limiter. */
  predicate Serves(th: Thread, lim: LimId, profile: string)
  {
    (th.Want? || th.GotProfile? || th.Undo? || th.Permit? || th.HalfReleased?) && th.lim == lim && th.profile == profile
  }

  /** From a request on, until the thread asks again or does something else, it is free or at work for that profile on the limiter that was current. */
  lemma {:induction false} RequestKept(run: seq<System>, steps: seq<Step>, i: nat, j: nat, t: Tid, profile: string)
    requires IsRun(run, steps) && i < j < |run| && steps[i] == Load(t, profile)
    requires forall k | i < k < j && steps[k].t == t :: !(steps[k].Load? || steps[k].LoadProbe? || steps[k].LoadMax? || steps[k].LoadProfiles?)
    ensures t in run[j].threads && (run[j].threads[t].Free? || Serves(run[j].threads[t], run[i].current, profile))
    decreases j
  {
    hide Inv, Bump, EmptySems;
    if i + 1 < j {
      RequestKept(run, steps, i, j - 1, t, profile);
      ServesOn(run[j - 1], steps[j - 1], t, run[i].current, profile);
    }
  }

  lemma ServesOn(s: System, e: Step, t: Tid, lim: LimId, profile: string)
    requires Enabled(s, e) && t in s.threads && (s.threads[t].Free? || Serves(s.threads[t], lim, profile))
    requires e.t == t ==> !(e.Load? || e.LoadProbe? || e.LoadMax? || e.LoadProfiles?)
    ensures var s' := Apply(s, e); t in s'.threads && (s'.threads[t].Free? || Serves(s'.threads[t], lim, profile))
  {
    hide Bump, EmptySems;
  }

  /** A permit says that it holds a unit of its profile exactly if its limiter limits that profile. */
  ghost predicate Honest(s: System, th: Thread)
  {
    th.GotProfile? || th.Permit? || th.HalfReleased? ==> (th.hasProfile <==> ProfileSem(s, th.lim, th.profile).Some?)
  }

  ghost predicate AllHonest(s: System)
  {
    forall t | t in s.threads :: Honest(s, s.threads[t])
  }

  lemma HonestStep(s: System, e: Step)
    requires Wired(s) && AllHonest(s) && Enabled(s, e)
    ensures AllHonest(Apply(s, e))
  {
    hide Bump, EmptySems, SemsExist;
    var s' := Apply(s, e);
    forall t | t in s'.threads
      ensures Honest(s', s'.threads[t])
    {
      assert ThreadWired(s, s.threads[t]) && Honest(s, s.threads[t]);
      HonestThread(s, e, t);
    }
  }

  lemma HonestThread(s: System, e: Step, t: Tid)
    requires Enabled(s, e) && t in s.threads && ThreadWired(s, s.threads[t]) && Honest(s, s.threads[t])
    ensures t in Apply(s, e).threads && Honest(Apply(s, e), Apply(s, e).threads[t])
  {
    hide Bump, EmptySems, SemsExist;
  }

  lemma {:induction false} RunHonest(run: seq<System>, steps: seq<Step>, i: nat)
    requires IsRun(run, steps) && i < |run| && AllHonest(run[0])
    ensures AllHonest(run[i])
  {
    hide Inv, AllHonest, Enabled, Apply;
    if i > 0 {
      RunHonest(run, steps, i - 1);
      HeldIsUnits(run, steps, i - 1);
      InvWired(run[i - 1]);
      HonestStep(run[i - 1], steps[i - 1]);
    }
  }

  lemma InvWired(s: System)
    requires Inv(s)
    ensures Wired(s)
  {
  }

  /** The threads with a permit for that profile on that limiter. */
  ghost function Permits(s: System, lim: LimId, profile: string): set<Tid>
  {
    set t | t in s.threads && s.threads[t].Permit? && s.threads[t].lim == lim && s.threads[t].profile == profile
  }

  /** However requests and reloads interleave, a limited profile never has more permits out than its capacity. */
  lemma ProfileBound(run: seq<System>, steps: seq<Step>, i: nat, lim: LimId, profile: string)
    requires IsRun(run, steps) && i < |run| && AllHonest(run[0]) && ProfileSem(run[i], lim, profile).Some?
    ensures var x := ProfileSem(run[i], lim, profile).value; x in run[i].sems && |Permits(run[i], lim, profile)| <= run[i].sems[x].cap
  {
    hide Inv, IsRun;
    HeldIsUnits(run, steps, i);
    RunHonest(run, steps, i);
    var s, x := run[i], ProfileSem(run[i], lim, profile).value;
    SemsThere(s, lim, profile);
    forall t | t in Permits(s, lim, profile)
      ensures (t, false) in Units(s, x)
    {
      assert Honest(s, s.threads[t]);
    }
    Injected(Permits(s, lim, profile), false, Units(s, x));
  }

  lemma SemsThere(s: System, lim: LimId, profile: string)
    requires Inv(s) && ProfileSem(s, lim, profile).Some?
    ensures ProfileSem(s, lim, profile).value in s.sems
  {
    assert SemsExist(s, s.lims[lim].globalSem, s.lims[lim].profileSems);
  }

  lemma {:induction false} Injected(a: set<Tid>, g: bool, b: set<(Tid, bool)>)
    requires forall t | t in a :: (t, g) in b
    ensures |a| <= |b|
    decreases a
  {
    if a != {} {
      var t :| t in a;
      Injected(a - {t}, g, b - {(t, g)});
    }
  }

  ghost function PermitsOn(s: System, lim: LimId): set<Tid>
  {
    set t | t in s.threads && s.threads[t].Permit? && s.threads[t].lim == lim
  }

  /** Nor are there ever more permits on a limiter than its own capacity. */
  lemma GlobalBound(run: seq<System>, steps: seq<Step>, i: nat, lim: LimId)
    requires IsRun(run, steps) && i < |run| && lim in run[i].lims && run[i].lims[lim].globalSem.Some?
    ensures var x := run[i].lims[lim].globalSem.value;
      x in run[i].sems && |PermitsOn(run[i], lim)| <= run[i].sems[x].cap
  {
    hide IsRun;
    HeldIsUnits(run, steps, i);
    var s, x := run[i], run[i].lims[lim].globalSem.value;
    assert SemsExist(s, s.lims[lim].globalSem, s.lims[lim].profileSems);
    forall t | t in PermitsOn(s, lim)
      ensures (t, true) in Units(s, x)
    {
    }
    Injected(PermitsOn(s, lim), true, Units(s, x));
  }

  /** What a reload publishes: the profiles with a positive limit, each with that capacity and nothing out, and the global limit that was there. */
  lemma ReloadMeans(s: System, e: Step, p: string)
    requires Wired(s) && Enabled(s, e) && e.StoreProfiles? && p != ""
    ensures var s', th := Apply(s, e), s.threads[e.t];
      && s'.current == e.lim
      && (ProfileSem(s', e.lim, p).Some? <==> p in th.caps && th.caps[p] > 0)
      && (ProfileSem(s', e.lim, p).Some? ==>
            var x := ProfileSem(s', e.lim, p).value; x in s'.sems && s'.sems[x] == Sem(th.caps[p], 0))
      && s'.lims[e.lim].globalSem == Some(e.global) && (th.globalSem.Some? ==> th.globalSem == Some(e.global))
      && (th.globalSem.None? ==> e.global in s'.sems && s'.sems[e.global] == Sem(1024, 0))
  {
    var th := s.threads[e.t];
    if p in e.sems {
      var x := e.sems[p];
      assert x in e.sems.Values;
      CapIs(th.caps, e.sems, p);
    }
  }

  lemma CapIs(caps: map<string, int>, sems: map<string, SemId>, p: string)
    requires p in sems && sems.Keys <= caps.Keys && forall q, r | q in sems && r in sems && sems[q] == sems[r] :: q == r
    ensures sems[p] in sems.Values && CapOf(caps, sems, sems[p]) == caps[p]
  {
  }

  /** A new maximum counts from zero, is at least one, and leaves the profiles their semaphores. */
  lemma MaxMeans(s: System, e: Step)
    requires Enabled(s, e) && e.StoreMax?
    ensures var s', th := Apply(s, e), s.threads[e.t];
      && s'.current == e.lim && s'.lims[e.lim] == Limiter(Some(e.sem), th.profileSems)
      && s'.sems[e.sem].held == 0 && s'.sems[e.sem].cap == (if th.max > 0 then th.max else 1)
  {
  }
}
