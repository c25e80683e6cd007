/** The collection supervisor's shared record and its critical sections.
    Every section runs under the one re-entrant lock, so it is a function from the old record to the new one;
    the class below performs the sections on mutable fields. Times are integer milliseconds. */
module Supervisor {
  import opened Options
  import HalfEven

  /** Identity of a spawned process (the Popen handle), the leader of its group; never reused. */
  type Pid = nat

  const CANCELLED := "CANCELLED"
  const TIMED_OUT := "TIMED_OUT"
  const COMPLETED := "COMPLETED"
  const RUNNING := "RUNNING"
  const PREPARING := "preparing"
  const BUDGET_EXHAUSTED := "collection time budget exhausted"

  /** The status dictionary. stopKind is "" until something stops the collection. */
  datatype Record = Record(
    active: bool, status: string, stopKind: string, reason: string, cancelRequested: bool,
    pid: Option<Pid>, component: string,
    planned: seq<string>, weights: map<string, int>, completed: seq<string>, progress: nat)

  /** The stop event, the published process handle, the deadline and the dictionary. */
  datatype State = State(stop: bool, process: Option<Pid>, deadline: int, record: Record)

  const IDLE := State(false, None, 0, Record(false, "IDLE", "", "", false, None, "", [], map[], [], 0))

  /** What run's first critical section decides. */
  datatype Entry = NotActive | Refused(returnCode: int, stderr: string) | Admitted(timeout: int)

  /** How a finished component is reported to the caller of run. */
  function StopCode(kind: string): int { if kind == TIMED_OUT then 124 else 130 }

  function StopReason(reason: string): string { if reason == "" then "collection stopped" else reason }

  function Weight(weights: map<string, int>, item: string): (w: nat)
    ensures w >= 1 && (item !in weights || weights[item] < 1 ==> w == 1)
    ensures item in weights && weights[item] >= 1 ==> w == weights[item]
  {
    if item in weights then Max(1, weights[item]) else 1
  }

  /** The whole collection's time budget: between one minute and two hours. */
  function Budget(seconds: int): (milliseconds: int)
    ensures 60_000 <= milliseconds <= 7_200_000 && (60 <= seconds <= 7200 ==> milliseconds == 1000 * seconds)
    ensures (seconds < 60 ==> milliseconds == 60_000) && (seconds > 7200 ==> milliseconds == 7_200_000)
  {
    1000 * Max(60, Min(seconds, 7200))
  }

  function AtLeastOne(weights: map<string, int>): map<string, int> {
    map k | k in weights :: Max(1, weights[k])
  }

  function TotalWeight(weights: map<string, int>, items: seq<string>): (w: nat)
    ensures w >= |items|
  {
    if items == [] then 0
    else TotalWeight(weights, items[..|items| - 1]) + Weight(weights, items[|items| - 1])
  }

  function CompletedWeight(weights: map<string, int>, planned: seq<string>, completed: seq<string>): nat {
    if completed == [] then 0
    else
      var item := completed[|completed| - 1];
      CompletedWeight(weights, planned, completed[..|completed| - 1])
      + if item in planned then Weight(weights, item) else 0
  }

  function Percent(weights: map<string, int>, planned: seq<string>, completed: seq<string>): (percent: nat)
    requires planned != []
    ensures percent <= 99
  {
    Min(99, HalfEven.RoundDiv(CompletedWeight(weights, planned, completed) * 100, TotalWeight(weights, planned)))
  }

  // ---- critical sections as functions ------------------------------------------------------------------

  function Fresh(planned: seq<string>, weights: map<string, int>): Record {
    Record(true, RUNNING, "", "", false, None, PREPARING, planned, AtLeastOne(weights), [], 0)
  }

  function StartSection(s: State, now: int, seconds: int, planned: seq<string>, weights: map<string, int>): State {
    if s.record.active then s
    else State(false, None, now + Budget(seconds), Fresh(planned, weights))
  }

  function MarkStop(s: State, kind: string, reason: string): State {
    s.(stop := true,
       record := s.record.(cancelRequested := kind == CANCELLED, stopKind := kind, status := kind, reason := reason))
  }

  function StopOnce(s: State, kind: string, reason: string): State {
    if s.stop then s else MarkStop(s, kind, reason)
  }

  function CancelSection(s: State, reason: string): (State, bool, Option<Pid>) {
    if !s.record.active then (s, false, None)
    else
      var t := StopOnce(s, CANCELLED, reason);
      (t, true, t.process)
  }

  function StoppedResult(r: Record): Entry { Refused(StopCode(r.stopKind), StopReason(r.reason)) }

  function EnterSection(s: State, component: string, now: int, timeout: int): (State, Entry) {
    if !s.record.active then (s, NotActive)
    else if s.stop then (s, StoppedResult(s.record))
    else if s.deadline - now <= 0 then
      var t := MarkStop(s, TIMED_OUT, BUDGET_EXHAUSTED);
      (t, StoppedResult(t.record))
    else
      (s.(record := s.record.(component := component)), Admitted(Max(50, Min(timeout, s.deadline - now))))
  }

  function PublishSection(s: State, p: Pid): (State, bool) {
    (s.(process := Some(p), record := s.record.(pid := Some(p))), s.stop)
  }

  function Concluded(r: Record, component: string): Record {
    var completed := if component in r.completed then r.completed else r.completed + [component];
    r.(completed := completed,
       progress := if r.planned == [] then r.progress else Percent(r.weights, r.planned, completed))
  }

  function ReleaseSection(s: State, p: Pid, component: string): State {
    var t := if s.process == Some(p) then s.(process := None, record := s.record.(pid := None)) else s;
    t.(record := Concluded(t.record, component))
  }

  /** status "" stands for the absent argument. */
  function FinishSection(s: State, status: string): State {
    if !s.record.active then s
    else
      var r := s.record;
      var inferred := if r.stopKind != "" then r.stopKind else if status != "" then status else COMPLETED;
      s.(record := r.(status := inferred, active := false, component := "", pid := None,
                      progress := if inferred == COMPLETED then 100 else r.progress))
  }

  // ---- progress ----------------------------------------------------------------------------------------

  /** The nearest percentage to the completed share, and never more than 99. */
  lemma PercentIsNearest(weights: map<string, int>, planned: seq<string>, completed: seq<string>)
    requires planned != []
    ensures var done, total := CompletedWeight(weights, planned, completed), TotalWeight(weights, planned);
            var percent := Percent(weights, planned, completed);
            && total * (2 * percent) <= 200 * done + total
            && (percent < 99 ==> 200 * done <= total * (2 * percent) + total)
  {
    var done, total := CompletedWeight(weights, planned, completed), TotalWeight(weights, planned);
    HalfEven.Scaled(total, 2 * Percent(weights, planned, completed), 2 * HalfEven.RoundDiv(done * 100, total));
  }

  /** Finishing one more component never lowers the percentage. */
  lemma PercentGrows(weights: map<string, int>, planned: seq<string>, completed: seq<string>, item: string)
    requires planned != []
    ensures Percent(weights, planned, completed) <= Percent(weights, planned, completed + [item])
  {
    var before := CompletedWeight(weights, planned, completed);
    assert (completed + [item])[..|completed|] == completed;
    HalfEven.RoundDivMonotone(before * 100, CompletedWeight(weights, planned, completed + [item]) * 100,
                              TotalWeight(weights, planned));
  }

  /** The total is the sum over the items, one by one. */
  lemma {:induction false} TotalAddsUp(weights: map<string, int>, a: seq<string>, b: seq<string>)
    ensures TotalWeight(weights, a + b) == TotalWeight(weights, a) + TotalWeight(weights, b)
    ensures |a| == 1 ==> TotalWeight(weights, a) == Weight(weights, a[0])
  {
    assert |a| == 1 ==> a[..0] == [];
    if b == [] {
      assert a + b == a;
    } else {
      var init := b[..|b| - 1];
      assert (a + b)[..|a + b| - 1] == a + init;
      TotalAddsUp(weights, a, init);
    }
  }

  function Planned(planned: seq<string>, completed: seq<string>): seq<string> {
    if completed == [] then []
    else
      var last := completed[|completed| - 1];
      Planned(planned, completed[..|completed| - 1]) + if last in planned then [last] else []
  }

  /** What counts as completed is the weight of the completed components that were planned. */
  lemma {:induction false} CompletedIsPlannedPart(weights: map<string, int>, planned: seq<string>,
                                                  completed: seq<string>)
    ensures CompletedWeight(weights, planned, completed) == TotalWeight(weights, Planned(planned, completed))
    ensures forall x :: x in Planned(planned, completed) <==> x in planned && x in completed
  {
    if completed != [] {
      var init, last := completed[..|completed| - 1], completed[|completed| - 1];
      assert completed == init + [last];
      CompletedIsPlannedPart(weights, planned, init);
      TotalAddsUp(weights, [last], []);
      assert [last] + [] == [last];
      TotalAddsUp(weights, Planned(planned, init), if last in planned then [last] else []);
    }
  }

  // ---- the class ---------------------------------------------------------------------------------------

  class CollectionSupervisor {
    var stop: bool
    var process: Option<Pid>
    var deadline: int
    var record: Record

    ghost function View(): State
      reads this
    {
      State(stop, process, deadline, record)
    }

    constructor ()
      ensures View() == IDLE
      ensures !stop && process == None && !record.active && record.status == "IDLE" && record.stopKind == ""
      ensures !record.cancelRequested && record.pid == None && record.planned == [] && record.completed == []
    {
      stop, process, deadline, record := IDLE.stop, IDLE.process, IDLE.deadline, IDLE.record;
    }

    method Start(now: int, seconds: int, planned: seq<string>, weights: map<string, int>) returns (ok: bool)
      modifies this
      ensures View() == StartSection(old(View()), now, seconds, planned, weights)
      ensures ok == !old(record.active)
      // What a started collection looks like.
      ensures ok ==>
        && !stop && process == None && now + 60_000 <= deadline <= now + 7_200_000
        && (60 <= seconds <= 7200 ==> deadline == now + 1000 * seconds)
        && record.active && record.status == "RUNNING" && record.stopKind == "" && record.reason == ""
        && !record.cancelRequested && record.pid == None && record.component == "preparing"
        && record.planned == planned && record.completed == [] && record.progress == 0
        && record.weights.Keys == weights.Keys
        && forall k :: k in weights ==> record.weights[k] >= 1 && (weights[k] >= 1 ==> record.weights[k] == weights[k])
    {
      if record.active { return false; }
      stop := false;
      process := None;
      deadline := now + Budget(seconds);
      record := Fresh(planned, weights);
      return true;
    }

    method SetStop(kind: string, why: string)
      modifies this
      ensures View() == MarkStop(old(View()), kind, why)
    {
      stop := true;
      record := record.(cancelRequested := kind == CANCELLED);
      record := record.(stopKind := kind);
      record := record.(status := kind, reason := why);
    }

    /** The locked part of cancel; the caller kills the returned process outside the lock. */
    method Cancel(why: string) returns (accepted: bool, handle: Option<Pid>)
      modifies this
      ensures (View(), accepted, handle) == CancelSection(old(View()), why)
      ensures accepted && !old(stop) ==>
                stop && record.status == "CANCELLED" && record.stopKind == "CANCELLED" && record.cancelRequested
    {
      if !record.active { return false, None; }
      if !stop { SetStop(CANCELLED, why); }
      return true, process;
    }

    method EnterRun(component: string, now: int, timeout: int) returns (entry: Entry)
      modifies this
      ensures (View(), entry) == EnterSection(old(View()), component, now, timeout)
      // A run after a stop is told why, a run after the deadline makes the stop, any other gets its time.
      ensures old(record.active && stop) ==>
        && entry.Refused? && entry.returnCode == (if old(record.stopKind) == "TIMED_OUT" then 124 else 130)
        && entry.stderr == (if old(record.reason) == "" then "collection stopped" else old(record.reason))
      ensures old(record.active && !stop) && old(deadline) <= now ==>
        && entry.Refused? && entry.returnCode == 124 && entry.stderr == "collection time budget exhausted"
        && stop && record.status == "TIMED_OUT" && record.stopKind == "TIMED_OUT" && !record.cancelRequested
      ensures old(record.active && !stop) && now < old(deadline) ==>
        && entry.Admitted? && entry.timeout >= 50 && !stop && record.component == component
        && (timeout >= 50 && deadline - now >= 50 ==>
              entry.timeout <= timeout && entry.timeout <= deadline - now && entry.timeout in {timeout, deadline - now})
    {
      if !record.active { return NotActive; }
      if stop { return StoppedResult(record); }
      var remaining := deadline - now;
      if remaining <= 0 {
        SetStop(TIMED_OUT, BUDGET_EXHAUSTED);
        return StoppedResult(record);
      }
      record := record.(component := component);
      return Admitted(Max(50, Min(timeout, remaining)));
    }

    method Publish(p: Pid) returns (stopped: bool)
      modifies this
      ensures (View(), stopped) == PublishSection(old(View()), p)
    {
      process := Some(p);
      record := record.(pid := Some(p));
      stopped := stop;
    }

    method TimeoutExpired(why: string)
      modifies this
      ensures View() == StopOnce(old(View()), TIMED_OUT, why)
      ensures stop
      ensures !old(stop) ==> record.status == "TIMED_OUT" && record.stopKind == "TIMED_OUT" && record.reason == why
    {
      if !stop { SetStop(TIMED_OUT, why); }
    }

    method Release(p: Pid, component: string)
      modifies this
      ensures View() == ReleaseSection(old(View()), p, component)
    {
      if process == Some(p) {
        process := None;
        record := record.(pid := None);
      }
      if component !in record.completed { record := record.(completed := record.completed + [component]); }
      if record.planned != [] {
        record := record.(progress := Percent(record.weights, record.planned, record.completed));
      }
    }

    method Finish(outcome: string)
      modifies this
      ensures View() == FinishSection(old(View()), outcome)
      ensures old(record.active) ==>
        && !record.active && record.pid == None && record.component == ""
        && record.status == (if old(record.stopKind) != "" then old(record.stopKind)
                             else if outcome == "" then "COMPLETED" else outcome)
        && record.progress == if record.status == "COMPLETED" then 100 else old(record.progress)
    {
      if record.active {
        var inferred :=
          if record.stopKind != "" then record.stopKind else if outcome != "" then outcome else COMPLETED;
        record := record.(status := inferred, active := false, component := "", pid := None);
        if inferred == COMPLETED { record := record.(progress := 100); }
      }
    }
  }
}
