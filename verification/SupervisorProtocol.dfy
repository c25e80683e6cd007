/** One owner thread (start, run, finish) and any number of cancelling threads around one supervisor.
    A run is a sequence of events; each event is one critical section or one action outside the lock
    (spawning, waiting, killing). The process table records which spawned leader processes are alive. */
module SupervisorProtocol {
  import opened Options
  import opened Supervisor

  /** Where the owner thread is inside run. */
  datatype Owner =
    | Outside
    | Spawning(component: string)
    | Spawned(component: string, p: Pid)
    | MustKill(component: string, p: Pid)
    | Waiting(component: string, p: Pid)
    | TimingOut(component: string, p: Pid)
    | KillingTimedOut(component: string, p: Pid)
    | Draining(component: string, p: Pid)
    | Ended(component: string, p: Pid, code: int)
    | Released(component: string, p: Pid, code: int)
    | Reporting(component: string, p: Pid)

  /** What one call of run returned, and the process it started if any. */
  datatype Outcome = Outcome(component: string, code: int, p: Option<Pid>)

  datatype System = System(
    shared: State,
    owner: Owner,
    holding: map<nat, Pid>,    // cancelling threads that left the lock with a process handle
    alive: set<Pid>,
    used: set<Pid>,            // every process spawned so far
    outcomes: seq<Outcome>)

  datatype Event =
    | Start(now: int, seconds: int, planned: seq<string>, weights: map<string, int>)
    | Enter(component: string, time: int, timeout: int)
    | Spawn(p: Pid)
    | SpawnFails
    | PublishHandle
    | KillStopped
    | Exits(p: Pid)
    | CommunicateReturns(code: int)
    | TimeoutExpires
    | MarkTimeout(why: string)
    | KillTimedOut
    | DrainReturns
    | ReleaseHandle
    | CheckStop
    | Report
    | Finish(status: string)
    | CancelLocked(thread: nat, why: string)
    | CancelKill(thread: nat)

  const INITIAL := System(IDLE, Outside, map[], {}, {}, [])

  predicate Enabled(s: System, e: Event) {
    match e
    case Start(_, _, _, _) => s.owner.Outside?
    case Enter(_, _, _) => s.owner.Outside?
    case Spawn(p) => s.owner.Spawning? && p !in s.used
    case SpawnFails => s.owner.Spawning?
    case PublishHandle => s.owner.Spawned?
    case KillStopped => s.owner.MustKill?
    case Exits(p) => p in s.alive
    case CommunicateReturns(_) => s.owner.Waiting? && s.owner.p !in s.alive
    case TimeoutExpires => s.owner.Waiting?
    case MarkTimeout(_) => s.owner.TimingOut?
    case KillTimedOut => s.owner.KillingTimedOut?
    case DrainReturns => s.owner.Draining? && s.owner.p !in s.alive
    case ReleaseHandle => s.owner.Ended?
    case CheckStop => s.owner.Released?
    case Report => s.owner.Reporting?
    case Finish(_) => s.owner.Outside?
    case CancelLocked(t, _) => t !in s.holding
    case CancelKill(t) => t in s.holding
  }

  function Apply(s: System, e: Event): System
    requires Enabled(s, e)
  {
    match e
    case Start(now, seconds, planned, weights) =>
      s.(shared := StartSection(s.shared, now, seconds, planned, weights))
    case Enter(component, time, timeout) =>
      var (t, entry) := EnterSection(s.shared, component, time, timeout);
      (match entry
       case NotActive => s
       case Refused(code, _) => s.(shared := t, outcomes := s.outcomes + [Outcome(component, code, None)])
       case Admitted(_) => s.(shared := t, owner := Spawning(component)))
    case Spawn(p) =>
      s.(owner := Spawned(s.owner.component, p), alive := s.alive + {p}, used := s.used + {p})
    case SpawnFails =>
      s.(owner := Outside, outcomes := s.outcomes + [Outcome(s.owner.component, 127, None)])
    case PublishHandle =>
      var (t, stopped) := PublishSection(s.shared, s.owner.p);
      s.(shared := t,
         owner := if stopped then MustKill(s.owner.component, s.owner.p) else Waiting(s.owner.component, s.owner.p))
    case KillStopped => s.(owner := Waiting(s.owner.component, s.owner.p), alive := s.alive - {s.owner.p})
    case Exits(p) => s.(alive := s.alive - {p})
    case CommunicateReturns(code) => s.(owner := Ended(s.owner.component, s.owner.p, code))
    case TimeoutExpires => s.(owner := TimingOut(s.owner.component, s.owner.p))
    case MarkTimeout(why) =>
      s.(shared := StopOnce(s.shared, TIMED_OUT, why), owner := KillingTimedOut(s.owner.component, s.owner.p))
    case KillTimedOut => s.(owner := Draining(s.owner.component, s.owner.p), alive := s.alive - {s.owner.p})
    case DrainReturns => s.(owner := Ended(s.owner.component, s.owner.p, 124))
    case ReleaseHandle =>
      s.(shared := ReleaseSection(s.shared, s.owner.p, s.owner.component),
         owner := Released(s.owner.component, s.owner.p, s.owner.code))
    case CheckStop =>
      if s.shared.stop then s.(owner := Reporting(s.owner.component, s.owner.p))
      else s.(owner := Outside,
              outcomes := s.outcomes + [Outcome(s.owner.component, s.owner.code, Some(s.owner.p))])
    case Report =>
      s.(owner := Outside,
         outcomes := s.outcomes + [Outcome(s.owner.component, StopCode(s.shared.record.stopKind), Some(s.owner.p))])
    case Finish(status) => s.(shared := FinishSection(s.shared, status))
    case CancelLocked(thread, why) =>
      var (t, _, handle) := CancelSection(s.shared, why);
      s.(shared := t, holding := if handle.Some? then s.holding[thread := handle.value] else s.holding)
    case CancelKill(thread) =>
      s.(holding := s.holding - {thread}, alive := s.alive - {s.holding[thread]})
  }

  // ---- processes ---------------------------------------------------------------------------------------

  /** The process ends by itself, or is killed by the thread that takes this step. */
  predicate Ends(s: System, e: Event, p: Pid) {
    || e == Exits(p)
    || ((e.KillStopped? || e.KillTimedOut?) && !s.owner.Outside? && !s.owner.Spawning? && s.owner.p == p)
    || (e.CancelKill? && e.thread in s.holding && s.holding[e.thread] == p)
  }

  /** A process lives from its spawning to its end, and no identity is given twice. */
  lemma AliveExactly(s: System, e: Event, p: Pid)
    requires Enabled(s, e)
    ensures p in Apply(s, e).alive <==> e == Spawn(p) || (p in s.alive && !Ends(s, e, p))
    ensures p in Apply(s, e).used <==> e == Spawn(p) || p in s.used
    ensures e == Spawn(p) ==> p !in s.used
  {
  }

  /** No thread is ever kept from cancelling or killing, and the owner waits for nothing but the end of its process. */
  lemma NothingBlocks(s: System, thread: nat, p: Pid, why: string)
    ensures if thread in s.holding then Enabled(s, CancelKill(thread)) else Enabled(s, CancelLocked(thread, why))
    ensures p in s.alive ==> Enabled(s, Exits(p))
    ensures match s.owner
      case Outside => Enabled(s, Start(0, 0, [], map[])) && Enabled(s, Enter("", 0, 0)) && Enabled(s, Finish(""))
      case Spawning(_) => Enabled(s, SpawnFails) && (p !in s.used ==> Enabled(s, Spawn(p)))
      case Spawned(_, _) => Enabled(s, PublishHandle)
      case MustKill(_, _) => Enabled(s, KillStopped)
      case Waiting(_, q) => Enabled(s, TimeoutExpires) && (Enabled(s, CommunicateReturns(0)) <==> q !in s.alive)
      case TimingOut(_, _) => Enabled(s, MarkTimeout(why))
      case KillingTimedOut(_, _) => Enabled(s, KillTimedOut)
      case Draining(_, q) => Enabled(s, DrainReturns) <==> q !in s.alive
      case Ended(_, _, _) => Enabled(s, ReleaseHandle)
      case Released(_, _, _) => Enabled(s, CheckStop)
      case Reporting(_, _) => Enabled(s, Report)
  {
  }

  // ---- the steps of one run ------------------------------------------------------------------------------

  /** How many of its own steps the owner is at most away from the end of its run. */
  function Distance(owner: Owner): nat {
    match owner
    case Outside => 0
    case Reporting(_, _) => 1
    case Released(_, _, _) => 2
    case Ended(_, _, _) => 3
    case Draining(_, _) => 4
    case KillingTimedOut(_, _) => 5
    case TimingOut(_, _) => 6
    case Waiting(_, _) => 7
    case MustKill(_, _) => 8
    case Spawned(_, _) => 9
    case Spawning(_) => 10
  }

  predicate ByOthers(e: Event) { e.Exits? || e.CancelLocked? || e.CancelKill? }

  /** Every step of its own brings the owner closer to the end of its run, other threads leave it where it is, and a
      thread that has killed lets go. */
  lemma OwnerAdvances(s: System, e: Event)
    requires Enabled(s, e)
    ensures ByOthers(e) ==> Apply(s, e).owner == s.owner
    ensures !ByOthers(e) && !s.owner.Outside? ==> Distance(Apply(s, e).owner) < Distance(s.owner)
    ensures s.owner.Outside? && !e.Enter? ==> Apply(s, e).owner.Outside?
    ensures e.CancelKill? ==> Apply(s, e).holding == s.holding - {e.thread}
  {
  }

  /** A run that is let in leaves exactly one outcome, when it ends; one that is refused leaves it at once. */
  lemma OneOutcomePerRun(s: System, e: Event)
    requires Enabled(s, e)
    ensures var t := Apply(s, e);
      if e.Enter? && s.shared.record.active && !t.owner.Spawning? then
        |t.outcomes| == |s.outcomes| + 1 && t.outcomes[|s.outcomes|].component == e.component
      else if !s.owner.Outside? && t.owner.Outside? then
        |t.outcomes| == |s.outcomes| + 1 && t.outcomes[|s.outcomes|].component == s.owner.component
      else t.outcomes == s.outcomes
    ensures s.outcomes <= Apply(s, e).outcomes
  {
  }

  /** The events happen in order, each one enabled when its turn comes. */
  ghost predicate Executes(s: System, events: seq<Event>, t: System)
    decreases |events|
  {
    if events == [] then s == t
    else Enabled(s, events[0]) && Executes(Apply(s, events[0]), events[1..], t)
  }

  ghost predicate Reachable(t: System) { exists events :: Executes(INITIAL, events, t) }

  // ---- what every step keeps ---------------------------------------------------------------------------

  ghost predicate Held(s: System, p: Pid) { exists t :: t in s.holding && s.holding[t] == p }

  predicate HasProcess(o: Owner) { !o.Outside? && !o.Spawning? }

  predicate HasPublished(o: Owner) {
    o.MustKill? || o.Waiting? || o.TimingOut? || o.KillingTimedOut? || o.Draining? || o.Ended?
  }

  ghost predicate ProcessesInv(s: System) {
    && s.alive <= s.used
    && (HasProcess(s.owner) ==> s.owner.p in s.used)
    && (forall p :: p in s.alive ==> HasProcess(s.owner) && s.owner.p == p)
    && (s.owner.Draining? || s.owner.Ended? || s.owner.Released? || s.owner.Reporting? ==> s.owner.p !in s.alive)
    && (forall t :: t in s.holding ==> s.holding[t] in s.used)
  }

  ghost predicate SharedInv(s: System) {
    var r := s.shared.record;
    && (!s.owner.Outside? ==> r.active)
    && s.shared.process == (if HasPublished(s.owner) then Some(s.owner.p) else None)
    && r.stopKind in {"", CANCELLED, TIMED_OUT}
    && (s.shared.stop <==> r.stopKind != "")
    && (s.shared.stop ==> r.status == r.stopKind)
    && (s.owner.MustKill? || s.owner.KillingTimedOut? || s.owner.Draining? || s.owner.Reporting? ==> s.shared.stop)
  }

  ghost predicate HandoverInv(s: System) {
    s.owner.Waiting? && s.shared.stop && s.owner.p in s.alive ==> Held(s, s.owner.p)
  }

  ghost predicate ProgressInv(r: Record) {
    && (r.active ==> r.status != COMPLETED
                     && r.progress == if r.planned == [] then 0 else Percent(r.weights, r.planned, r.completed))
    && r.progress <= 100
    && (r.progress == 100 <==> r.status == COMPLETED)
  }

  ghost predicate Inv(s: System) {
    ProcessesInv(s) && SharedInv(s) && HandoverInv(s) && ProgressInv(s.shared.record)
  }

  lemma StepKeepsProcesses(s: System, e: Event)
    requires Inv(s) && Enabled(s, e)
    ensures ProcessesInv(Apply(s, e))
  {
  }

  lemma StepKeepsShared(s: System, e: Event)
    requires Inv(s) && Enabled(s, e)
    ensures SharedInv(Apply(s, e))
  {
  }

  lemma StepKeepsHandover(s: System, e: Event)
    requires Inv(s) && Enabled(s, e)
    ensures HandoverInv(Apply(s, e))
  {
    var t := Apply(s, e);
    if t.owner.Waiting? && t.shared.stop && t.owner.p in t.alive {
      var p := t.owner.p;
      if e.CancelLocked? {
        assert t.holding[e.thread] == p;
      } else if e.CancelKill? {
        var held :| held in s.holding && s.holding[held] == p;
        assert held != e.thread && t.holding[held] == p;
      }
    }
  }

  lemma StepKeepsProgress(s: System, e: Event)
    requires Inv(s) && Enabled(s, e)
    ensures ProgressInv(Apply(s, e).shared.record)
    ensures !e.Start? ==> s.shared.record.progress <= Apply(s, e).shared.record.progress
  {
    var r := s.shared.record;
    if e.ReleaseHandle? && r.planned != [] && s.owner.component !in r.completed {
      PercentGrows(r.weights, r.planned, r.completed, s.owner.component);
    }
  }

  lemma {:induction false} ExecutionKeepsInv(s: System, events: seq<Event>, t: System)
    requires Inv(s) && Executes(s, events, t)
    ensures Inv(t)
    decreases |events|
  {
    if events != [] {
      StepKeepsInv(s, events[0]);
      ExecutionKeepsInv(Apply(s, events[0]), events[1..], t);
    }
  }

  lemma StepKeepsInv(s: System, e: Event)
    requires Inv(s) && Enabled(s, e)
    ensures Inv(Apply(s, e))
  {
    StepKeepsProcesses(s, e);
    StepKeepsShared(s, e);
    StepKeepsHandover(s, e);
    StepKeepsProgress(s, e);
  }

  lemma ReachableInv(t: System)
    requires Reachable(t)
    ensures Inv(t)
  {
    var events :| Executes(INITIAL, events, t);
    ExecutionKeepsInv(INITIAL, events, t);
  }

  // ---- no orphan process -------------------------------------------------------------------------------

  /** Some thread has already decided to kill p, or holds it unpublished and has yet to read the stop flag. */
  ghost predicate Committed(s: System, p: Pid) {
    || ((s.owner.Spawned? || s.owner.MustKill? || s.owner.TimingOut? || s.owner.KillingTimedOut?) && s.owner.p == p)
    || Held(s, p)
  }

  /** In every interleaving: a live child of a stopped collection always has a thread that will kill it. */
  lemma NoOrphan(t: System, p: Pid)
    requires Reachable(t) && t.shared.stop && p in t.alive
    ensures Committed(t, p)
  {
    ReachableInv(t);
  }

  /** With every cancelling thread done and the owner outside its own windows, a stop leaves no leader alive. */
  lemma StopLeavesNoChild(t: System)
    requires Reachable(t) && t.shared.stop && t.holding == map[]
    requires !t.owner.Spawned? && !t.owner.MustKill? && !t.owner.TimingOut? && !t.owner.KillingTimedOut?
    ensures t.alive == {}
  {
    forall p | p in t.alive ensures false {
      NoOrphan(t, p);
    }
  }

  /** Left to itself, the committed thread kills p within two steps: nothing can block it. */
  lemma CommitmentKills(t: System, p: Pid) returns (events: seq<Event>, u: System)
    requires Reachable(t) && t.shared.stop && p in t.alive
    ensures |events| <= 2 && Executes(t, events, u) && p !in u.alive && u.outcomes == t.outcomes
    ensures (forall e :: e in events ==> e.CancelKill?)
            || (forall e :: e in events ==> e.PublishHandle? || e.KillStopped? || e.MarkTimeout? || e.KillTimedOut?)
  {
    ReachableInv(t);
    if t.owner.Spawned? {
      events := [PublishHandle, KillStopped];
    } else if t.owner.MustKill? {
      events := [KillStopped];
    } else if t.owner.TimingOut? {
      events := [MarkTimeout(""), KillTimedOut];
    } else if t.owner.KillingTimedOut? {
      events := [KillTimedOut];
    } else {
      var thread :| thread in t.holding && t.holding[thread] == p;
      events := [CancelKill(thread)];
    }
    var middle := Apply(t, events[0]);
    u := if |events| == 2 then Apply(middle, events[1]) else middle;
    assert Executes(middle, events[1..], u) by {
      if |events| == 2 { assert Executes(u, events[1..][1..], u); }
    }
  }

  predicate OwnerStep(e: Event) { !e.Exits? && !e.CancelLocked? && !e.CancelKill? }

  /** How many of its own steps the owner is away from killing p, if it is bound to. */
  function StepsLeft(o: Owner, p: Pid): nat {
    match o
    case Spawned(_, q) => if q == p then 2 else 0
    case MustKill(_, q) => if q == p then 1 else 0
    case TimingOut(_, q) => if q == p then 2 else 0
    case KillingTimedOut(_, q) => if q == p then 1 else 0
    case _ => 0
  }

  /** While p lives, a bound owner comes nearer with each step of its own and stays where it is in any other step. */
  lemma OwnerStaysBound(s: System, e: Event, p: Pid)
    requires Inv(s) && Enabled(s, e) && s.shared.stop && p in s.alive && p in Apply(s, e).alive
               && StepsLeft(s.owner, p) > 0
    ensures Apply(s, e).shared.stop
    ensures StepsLeft(Apply(s, e).owner, p) == StepsLeft(s.owner, p) - if OwnerStep(e) then 1 else 0
    ensures StepsLeft(Apply(s, e).owner, p) > 0
  {
  }

  function OwnSteps(events: seq<Event>): nat {
    if events == [] then 0 else (if OwnerStep(events[0]) then 1 else 0) + OwnSteps(events[1..])
  }

  /** Whatever the other threads do in between, a bound owner has taken at most one step while p still lives. */
  lemma {:induction false} OwnerKills(s: System, events: seq<Event>, t: System, p: Pid)
    requires Inv(s) && s.shared.stop && Executes(s, events, t) && p in s.alive && p in t.alive
               && StepsLeft(s.owner, p) > 0
    ensures OwnSteps(events) + StepsLeft(t.owner, p) == StepsLeft(s.owner, p)
    ensures StepsLeft(t.owner, p) > 0 && OwnSteps(events) <= 1
    decreases |events|
  {
    if events != [] {
      StillAlive(Apply(s, events[0]), events[1..], t, p);
      OwnerStaysBound(s, events[0], p);
      StepKeepsInv(s, events[0]);
      OwnerKills(Apply(s, events[0]), events[1..], t, p);
    }
  }

  /** Nothing comes back to life. */
  lemma {:induction false} StillAlive(m: System, events: seq<Event>, t: System, p: Pid)
    requires Executes(m, events, t) && p in m.used && p in t.alive
    ensures p in m.alive
    decreases |events|
  {
    if events != [] { StillAlive(Apply(m, events[0]), events[1..], t, p); }
  }

  /** And a cancelling thread that holds p still holds it, so p dies with that thread's next step. */
  lemma {:induction false} HolderKills(s: System, events: seq<Event>, t: System, p: Pid, thread: nat)
    requires Inv(s) && Executes(s, events, t) && p in s.alive && p in t.alive
    requires thread in s.holding && s.holding[thread] == p
    ensures thread in t.holding && t.holding[thread] == p && CancelKill(thread) !in events
    ensures Enabled(t, CancelKill(thread)) && p !in Apply(t, CancelKill(thread)).alive
    decreases |events|
  {
    if events != [] {
      StillAlive(Apply(s, events[0]), events[1..], t, p);
      StepKeepsInv(s, events[0]);
      HolderKills(Apply(s, events[0]), events[1..], t, p, thread);
    }
  }

  // ---- the first stop wins -----------------------------------------------------------------------------

  /** The stop flag rises only by an accepted cancel, a component timeout or an exhausted deadline,
      and the recorded kind says which. */
  lemma StopCause(s: System, e: Event)
    requires Inv(s) && Enabled(s, e) && !s.shared.stop
    ensures var r := Apply(s, e).shared.record;
            && (r.stopKind == CANCELLED <==> e.CancelLocked? && s.shared.record.active)
            && (r.stopKind == TIMED_OUT <==>
                e.MarkTimeout? || (e.Enter? && s.shared.record.active && s.shared.deadline <= e.time))
            && (Apply(s, e).shared.stop <==> r.stopKind in {CANCELLED, TIMED_OUT})
  {
    assert CANCELLED != TIMED_OUT by { assert CANCELLED[0] != TIMED_OUT[0]; }
  }

  ghost predicate SameStop(s: System, t: System) {
    && t.shared.stop
    && t.shared.record.stopKind == s.shared.record.stopKind
    && t.shared.record.reason == s.shared.record.reason
    && t.shared.record.status == s.shared.record.stopKind
  }

  predicate NoStart(events: seq<Event>) { forall e :: e in events ==> !e.Start? }

  /** Results recorded between s and t: each reports the stop, except a spawn that failed in a run
      already admitted when the stop came. */
  ghost predicate ReportsStop(s: System, t: System) {
    && s.outcomes <= t.outcomes
    && forall i :: |s.outcomes| <= i < |t.outcomes| ==>
         || t.outcomes[i].code == StopCode(s.shared.record.stopKind)
         || (i == |s.outcomes| && s.owner.Spawning? && t.outcomes[i].code == 127 && t.outcomes[i].p == None)
  }

  lemma StepKeepsStop(s: System, e: Event)
    requires Inv(s) && s.shared.stop && Enabled(s, e) && !e.Start?
    ensures SameStop(s, Apply(s, e))
  {
  }

  lemma StepReportsStop(s: System, e: Event)
    requires Inv(s) && s.shared.stop && Enabled(s, e) && !e.Start?
    ensures ReportsStop(s, Apply(s, e))
    ensures Apply(s, e).owner.Spawning? ==> s.owner.Spawning? && Apply(s, e).outcomes == s.outcomes
  {
  }

  lemma ReportsChain(s: System, m: System, t: System)
    requires SameStop(s, m) && SameStop(m, t) && ReportsStop(s, m) && ReportsStop(m, t)
    requires m.owner.Spawning? ==> s.owner.Spawning? && m.outcomes == s.outcomes
    ensures SameStop(s, t) && ReportsStop(s, t)
  {
    forall i | |s.outcomes| <= i < |t.outcomes|
      ensures t.outcomes[i].code == StopCode(s.shared.record.stopKind)
              || (i == |s.outcomes| && s.owner.Spawning? && t.outcomes[i].code == 127 && t.outcomes[i].p == None)
    {
      if i < |m.outcomes| { assert t.outcomes[i] == m.outcomes[i]; }
    }
  }

  /** Until the next start, the cause never changes, finish reports it whatever it is asked to report,
      and every run returns 124 for TIMED_OUT or 130 for CANCELLED. */
  lemma {:induction false} FirstStopWins(s: System, events: seq<Event>, t: System)
    requires Inv(s) && s.shared.stop && Executes(s, events, t) && NoStart(events)
    ensures SameStop(s, t) && ReportsStop(s, t)
    decreases |events|
  {
    if events == [] {
      assert SharedInv(s);
    } else {
      var m := Apply(s, events[0]);
      assert events[0] in events && NoStart(events[1..]);
      StepKeepsInv(s, events[0]);
      StepKeepsStop(s, events[0]);
      StepReportsStop(s, events[0]);
      FirstStopWins(m, events[1..], t);
      ReportsChain(s, m, t);
    }
  }

  /** The one outcome that does not tell of the stop: a spawn that failed in a run admitted before it. */
  predicate FailedSpawn(s: System, i: nat, o: Outcome) {
    i == |s.outcomes| && s.owner.Spawning? && o.code == 127 && o.p == None
  }

  /** After an accepted cancel, every run that ends before the next start returns 130. */
  lemma CancelledRunsReturn130(s: System, e: Event, events: seq<Event>, t: System)
    requires Inv(s) && !s.shared.stop && Enabled(s, e) && e.CancelLocked? && s.shared.record.active
    requires Executes(Apply(s, e), events, t) && NoStart(events)
    ensures t.shared.stop && t.shared.record.status == "CANCELLED" && t.shared.record.reason == e.why
    ensures s.outcomes <= t.outcomes
    ensures forall i :: |s.outcomes| <= i < |t.outcomes| ==>
              t.outcomes[i].code == 130 || FailedSpawn(s, i, t.outcomes[i])
  {
    var m := Apply(s, e);
    StepKeepsInv(s, e);
    assert "CANCELLED"[0] != "TIMED_OUT"[0];
    FirstStopWins(m, events, t);
  }

  /** After a component timeout or a run that finds the deadline past, every run that ends before the next start
      returns 124, the refused one included. */
  lemma TimedOutRunsReturn124(s: System, e: Event, events: seq<Event>, t: System)
    requires Inv(s) && !s.shared.stop && Enabled(s, e)
    requires e.MarkTimeout? || (e.Enter? && s.shared.record.active && s.shared.deadline <= e.time)
    requires Executes(Apply(s, e), events, t) && NoStart(events)
    ensures t.shared.stop && t.shared.record.status == "TIMED_OUT"
    ensures s.outcomes <= t.outcomes && (e.Enter? ==> |t.outcomes| > |s.outcomes|)
    ensures forall i :: |s.outcomes| <= i < |t.outcomes| ==>
              t.outcomes[i].code == 124 || FailedSpawn(s, i, t.outcomes[i])
  {
    var m := Apply(s, e);
    StepKeepsInv(s, e);
    FirstStopWins(m, events, t);
    forall i | |s.outcomes| <= i < |t.outcomes| ensures t.outcomes[i].code == 124 || FailedSpawn(s, i, t.outcomes[i]) {
      if i < |m.outcomes| { assert t.outcomes[i] == m.outcomes[i]; }
    }
  }

  /** Without a stop a run returns what its process returned. */
  lemma UndisturbedRunReturnsItsCode(s: System, code: int)
    requires Inv(s) && !s.shared.stop && Enabled(s, CommunicateReturns(code))
    ensures var a := Apply(s, CommunicateReturns(code));
            && Enabled(a, ReleaseHandle)
            && var b := Apply(a, ReleaseHandle);
               && Enabled(b, CheckStop) && b.shared.process == None && s.owner.component in b.shared.record.completed
               && Apply(b, CheckStop).outcomes == s.outcomes + [Outcome(s.owner.component, code, Some(s.owner.p))]
  {
  }

  /** Runs begun after the stop start no process; the one run already past its check starts at most one. */
  lemma {:induction false} StopBoundsSpawns(s: System, events: seq<Event>, t: System) returns (late: set<Pid>)
    requires Inv(s) && s.shared.stop && Executes(s, events, t) && NoStart(events)
    ensures t.used == s.used + late
    ensures !s.owner.Spawning? ==> late == {}
    ensures |late| <= 1
    decreases |events|
  {
    late := {};
    if events != [] {
      var m := Apply(s, events[0]);
      assert events[0] in events;
      StepKeepsInv(s, events[0]);
      assert NoStart(events[1..]);
      late := StopBoundsSpawns(m, events[1..], t);
      if events[0].Spawn? { late := {events[0].p}; }
    }
  }

  // ---- progress ----------------------------------------------------------------------------------------

  /** Between two starts the percentage never falls; it is below 100 while the collection is active
      and 100 exactly when the collection ended COMPLETED. */
  lemma {:induction false} ProgressOverRun(s: System, events: seq<Event>, t: System)
    requires Inv(s) && Executes(s, events, t) && NoStart(events)
    ensures s.shared.record.progress <= t.shared.record.progress
    ensures t.shared.record.active ==> t.shared.record.progress <= 99
    ensures t.shared.record.progress == 100 <==> t.shared.record.status == COMPLETED
    decreases |events|
  {
    if events != [] {
      assert events[0] in events;
      StepKeepsInv(s, events[0]);
      StepKeepsProgress(s, events[0]);
      assert NoStart(events[1..]);
      ProgressOverRun(Apply(s, events[0]), events[1..], t);
    }
  }

  // ---- the class ---------------------------------------------------------------------------------------

  /** The class, driven by any event, keeps its fields equal to the protocol's shared record, and answers each thread
      as the protocol goes on. */
  method Perform(supervisor: CollectionSupervisor, s: System, e: Event)
    returns (entry: Option<Entry>, stopped: bool, handle: Option<Pid>)
    requires Enabled(s, e) && supervisor.View() == s.shared
    modifies supervisor
    ensures supervisor.View() == Apply(s, e).shared
    ensures e.Enter? ==> entry.Some? && (entry.value.Admitted? <==> Apply(s, e).owner == Spawning(e.component))
    ensures e.PublishHandle? ==> (stopped <==> Apply(s, e).owner.MustKill?)
    ensures e.CancelLocked? ==> (handle.Some? <==> e.thread in Apply(s, e).holding)
                                && (handle.Some? ==> Apply(s, e).holding[e.thread] == handle.value)
  {
    entry, stopped, handle := None, false, None;
    match e {
      case Start(now, seconds, planned, weights) => var _ := supervisor.Start(now, seconds, planned, weights);
      case Enter(component, time, timeout) =>
        var decided := supervisor.EnterRun(component, time, timeout);
        entry := Some(decided);
      case PublishHandle => stopped := supervisor.Publish(s.owner.p);
      case MarkTimeout(why) => supervisor.TimeoutExpired(why);
      case ReleaseHandle => supervisor.Release(s.owner.p, s.owner.component);
      case Finish(status) => supervisor.Finish(status);
      case CancelLocked(_, why) =>
        var _, found := supervisor.Cancel(why);
        handle := found;
      case _ =>
    }
  }
}
