/** The durable collector state file: initialisation with resume, marks, and the run decision.
    Each write replaces the whole file at once, so a crash falls between events. */
module CollectorState {
  import opened Options
  import HalfEven

  datatype Status = Pending | Running | Pass | Fail | Skipped | Cancelled | TimedOut {
    predicate Terminal() { !Pending? && !Running? }
  }

  datatype Record = Record(status: Status, attempts: nat)

  /** A planned collector; the registry admits only positive weights. */
  datatype Item = Item(id: string, weight: nat)

  datatype File = File(plan: seq<Item>, collectors: map<string, Record>, progress: nat)

  const PREFLIGHT := "preflight"

  function Ids(plan: seq<Item>): set<string> { set item | item in plan :: item.id }

  function StatusOf(f: File, id: string): Status {
    if id in f.collectors then f.collectors[id].status else Pending
  }

  // ---- progress ----------------------------------------------------------------------------------------

  function Weight(plan: seq<Item>): nat {
    if plan == [] then 0 else plan[0].weight + Weight(plan[1..])
  }

  function Done(plan: seq<Item>, collectors: map<string, Record>): nat {
    if plan == [] then 0
    else
      (if plan[0].id in collectors && collectors[plan[0].id].status.Terminal() then plan[0].weight else 0)
      + Done(plan[1..], collectors)
  }

  function Progress(plan: seq<Item>, collectors: map<string, Record>): nat {
    if Weight(plan) == 0 then 0
    else Min(100, HalfEven.RoundDiv(Done(plan, collectors) * 100, Weight(plan)))
  }

  lemma {:induction false} DoneWithin(plan: seq<Item>, collectors: map<string, Record>)
    ensures Done(plan, collectors) <= Weight(plan)
  {
    if plan != [] { DoneWithin(plan[1..], collectors); }
  }

  predicate AllTerminal(plan: seq<Item>, collectors: map<string, Record>) {
    forall item :: item in plan ==> item.id in collectors && collectors[item.id].status.Terminal()
  }

  lemma {:induction false} DoneMeansAllTerminal(plan: seq<Item>, collectors: map<string, Record>)
    requires forall item :: item in plan ==> item.weight > 0
    ensures Done(plan, collectors) == Weight(plan) <==> AllTerminal(plan, collectors)
  {
    if plan != [] {
      DoneMeansAllTerminal(plan[1..], collectors);
      DoneWithin(plan[1..], collectors);
      assert plan == [plan[0]] + plan[1..];
    }
  }

  /** The statuses that count as done. */
  lemma TerminalExactly(s: Status)
    ensures s.Terminal() <==> s in {Pass, Fail, Skipped, Cancelled, TimedOut}
  {
  }

  /** The weight done is the sum over the collectors of the plan that have ended, and the percentage is the nearest one
      to its share. */
  lemma {:induction false} DoneAddsUp(a: seq<Item>, b: seq<Item>, collectors: map<string, Record>)
    ensures Weight(a + b) == Weight(a) + Weight(b)
    ensures Done(a + b, collectors) == Done(a, collectors) + Done(b, collectors)
    ensures |a| == 1 ==>
      var done := a[0].id in collectors && collectors[a[0].id].status in {Pass, Fail, Skipped, Cancelled, TimedOut};
      Weight(a) == a[0].weight && Done(a, collectors) == if done then a[0].weight else 0
  {
    if a == [] {
      assert a + b == b;
    } else {
      assert (a + b)[1..] == a[1..] + b;
      DoneAddsUp(a[1..], b, collectors);
    }
  }

  lemma ProgressIsNearest(plan: seq<Item>, collectors: map<string, Record>)
    ensures var total, done, percent := Weight(plan), Done(plan, collectors), Progress(plan, collectors);
            && (total == 0 ==> percent == 0)
            && total * (2 * percent) <= 200 * done + total && 200 * done <= total * (2 * percent) + total
  {
    DoneWithin(plan, collectors);
    if Weight(plan) > 0 { HalfEven.ReadsHundred(Done(plan, collectors), Weight(plan)); }
  }

  /** 100 is shown exactly when at most half a percent of the weight is missing; with something still to run
      that takes a total weight of 200 or more. */
  lemma HundredExactly(plan: seq<Item>, collectors: map<string, Record>)
    requires plan != [] && forall item :: item in plan ==> item.weight > 0
    ensures var total, completed := Weight(plan), Done(plan, collectors);
            && (Progress(plan, collectors) == 100 <==> 200 * (total - completed) <= total)
            && (Progress(plan, collectors) == 100 && !AllTerminal(plan, collectors) ==> total >= 200)
            && (AllTerminal(plan, collectors) ==> Progress(plan, collectors) == 100)
  {
    assert plan[0] in plan;
    DoneWithin(plan, collectors);
    DoneMeansAllTerminal(plan, collectors);
    HalfEven.ReadsHundred(Done(plan, collectors), Weight(plan));
  }

  lemma {:induction false} DoneGrows(plan: seq<Item>, collectors: map<string, Record>, id: string, r: Record)
    requires r.status.Terminal()
    ensures Done(plan, collectors) <= Done(plan, collectors[id := r])
  {
    if plan != [] { DoneGrows(plan[1..], collectors, id, r); }
  }

  // ---- the operations ----------------------------------------------------------------------------------

  /** A collector's record when a collection starts or resumes. */
  function Initial(kept: map<string, Record>, id: string, retryFailed: bool): Record {
    var r := if id in kept then kept[id] else Record(Pending, 0);
    if id == PREFLIGHT || r.status.Running? || r.status.Cancelled? || r.status.TimedOut?
       || (retryFailed && r.status.Fail?)
    then r.(status := Pending) else r
  }

  function Initialised(plan: seq<Item>, kept: map<string, Record>, retryFailed: bool): File {
    var collectors := map id | id in Ids(plan) :: Initial(kept, id, retryFailed);
    File(plan, collectors, Progress(plan, collectors))
  }

  function Previous(file: Option<File>, resume: bool): map<string, Record> {
    if resume && file.Some? then file.value.collectors else map[]
  }

  function Marked(f: File, id: string, status: Status): File {
    var current := if id in f.collectors then f.collectors[id] else Record(Pending, 0);
    var collectors :=
      f.collectors[id := Record(status, current.attempts + if status.Running? then 1 else 0)];
    File(f.plan, collectors, Progress(f.plan, collectors))
  }

  predicate ShouldRun(f: File, id: string, retryFailed: bool) {
    var s := StatusOf(f, id);
    !s.Pass? && !(s.Fail? && !retryFailed) && !s.Skipped?
  }

  /** A start keeps a record from before but for its status: preflight and what was interrupted run again, and what
      failed if failures are retried. A collector without a record is pending. */
  lemma InitialExactly(kept: map<string, Record>, id: string, retryFailed: bool)
    ensures id !in kept ==> Initial(kept, id, retryFailed) == Record(Pending, 0)
    ensures id in kept ==>
      && Initial(kept, id, retryFailed).attempts == kept[id].attempts
      && var s := kept[id].status;
         Initial(kept, id, retryFailed).status ==
           if id == "preflight" || s in {Running, Cancelled, TimedOut} || (retryFailed && s == Fail) then Pending else s
  {
  }

  /** A mark changes one record: its status, and one more attempt if it is RUNNING. */
  lemma MarkedExactly(f: File, id: string, status: Status)
    ensures var g := Marked(f, id, status);
            && g.plan == f.plan && g.collectors.Keys == f.collectors.Keys + {id}
            && (forall other :: other in f.collectors && other != id ==> g.collectors[other] == f.collectors[other])
            && g.collectors[id].status == status
            && g.collectors[id].attempts == (if id in f.collectors then f.collectors[id].attempts else 0)
                                            + (if status == Running then 1 else 0)
            && g.progress == Progress(f.plan, g.collectors)
  {
  }

  /** A collector runs unless it passed, was skipped, or failed and failures are not retried. */
  lemma ShouldRunExactly(f: File, id: string, retryFailed: bool)
    ensures ShouldRun(f, id, retryFailed) <==>
      id !in f.collectors || f.collectors[id].status in {Pending, Running, Cancelled, TimedOut}
      || (retryFailed && f.collectors[id].status == Fail)
  {
  }

  class StateFile {
    var file: Option<File>

    constructor ()
      ensures file == None
    {
      file := None;
    }

    method InitState(plan: seq<Item>, resume: bool, retryFailed: bool)
      modifies this
      ensures file == Some(Initialised(plan, Previous(old(file), resume), retryFailed))
      ensures file == Apply(old(file), Init(plan, resume, retryFailed))
      ensures file.value.plan == plan && file.value.collectors.Keys == Ids(plan)
      ensures forall id :: id in file.value.collectors && (!resume || old(file) == None) ==>
                file.value.collectors[id] == Record(Pending, 0)
    {
      var previous := Previous(file, resume);
      var collectors: map<string, Record> := map[];
      for i := 0 to |plan|
        invariant collectors == map id | id in Ids(plan[..i]) :: Initial(previous, id, retryFailed)
      {
        assert plan[..i + 1] == plan[..i] + [plan[i]];
        collectors := collectors[plan[i].id := Initial(previous, plan[i].id, retryFailed)];
      }
      assert plan[..|plan|] == plan;
      file := Some(File(plan, collectors, Progress(plan, collectors)));
    }

    /** Refused without a state file or for a collector outside the plan. */
    method UpdateState(id: string, status: Status) returns (ok: bool)
      modifies this
      ensures ok <==> old(file).Some? && id in Ids(old(file).value.plan)
      ensures file == if ok then Some(Marked(old(file).value, id, status)) else old(file)
      ensures file == Apply(old(file), Mark(id, status))
    {
      if file.None? || id !in Ids(file.value.plan) { return false; }
      file := Some(Marked(file.value, id, status));
      return true;
    }
  }

  // ---- over any history --------------------------------------------------------------------------------

  datatype Event = Init(plan: seq<Item>, resume: bool, retryFailed: bool) | Mark(id: string, status: Status) | Crash

  function Apply(file: Option<File>, e: Event): Option<File> {
    match e
    case Init(plan, resume, retryFailed) => Some(Initialised(plan, Previous(file, resume), retryFailed))
    case Mark(id, status) =>
      if file.Some? && id in Ids(file.value.plan) then Some(Marked(file.value, id, status)) else file
    case Crash => file
  }

  function After(file: Option<File>, events: seq<Event>): Option<File>
    decreases |events|
  {
    if events == [] then file else After(Apply(file, events[0]), events[1..])
  }

  predicate Accurate(file: Option<File>) {
    file.Some? ==> file.value.progress == Progress(file.value.plan, file.value.collectors)
  }

  /** The stored percentage is always the one its own states give. */
  lemma {:induction false} ProgressIsAccurate(file: Option<File>, events: seq<Event>)
    requires Accurate(file)
    ensures Accurate(After(file, events))
    decreases |events|
  {
    if events != [] { ProgressIsAccurate(Apply(file, events[0]), events[1..]); }
  }

  /** Recording that a collector ended never lowers the percentage. */
  lemma FinishingNeverLowers(f: File, id: string, status: Status)
    requires status.Terminal() && Accurate(Some(f))
    ensures f.progress <= Marked(f, id, status).progress
  {
    var attempts := if id in f.collectors then f.collectors[id].attempts else 0;
    DoneGrows(f.plan, f.collectors, id, Record(status, attempts));
    if Weight(f.plan) > 0 {
      HalfEven.RoundDivMonotone(Done(f.plan, f.collectors) * 100, Done(f.plan, Marked(f, id, status).collectors) * 100,
                                Weight(f.plan));
    }
  }

  /** After a start or a resume, the collectors to run are exactly the pending ones. */
  lemma RunsExactlyThePending(plan: seq<Item>, kept: map<string, Record>, retryFailed: bool, id: string)
    ensures var f := Initialised(plan, kept, retryFailed);
            ShouldRun(f, id, retryFailed) <==> StatusOf(f, id) == Pending
  {
  }

  /** A passed collector stays passed through an event exactly when the event does not start over, does not drop it
      from the plan, is not the preflight reset, and does not mark it otherwise. */
  lemma PassIsKeptExactly(f: File, e: Event, id: string)
    requires id in Ids(f.plan) && StatusOf(f, id) == Pass
    ensures Apply(Some(f), e).Some?
    ensures StatusOf(Apply(Some(f), e).value, id) == Pass <==>
            && (e.Init? ==> e.resume && id != PREFLIGHT && id in Ids(e.plan))
            && (e.Mark? && e.id == id ==> e.status == Pass)
  {
  }

  /** The runner's discipline for one collector: RUNNING only after ShouldRun, an outcome only while RUNNING;
      and every restart is a resume that keeps the collector in the plan. */
  predicate Disciplined(f: File, e: Event, id: string, retryFailed: bool) {
    match e
    case Init(plan, resume, _) => resume && id in Ids(plan)
    case Mark(other, status) =>
      other == id ==>
        (status.Running? && ShouldRun(f, id, retryFailed)) || (status.Terminal() && StatusOf(f, id) == Running)
    case Crash => true
  }

  predicate DisciplinedRun(file: Option<File>, events: seq<Event>, id: string, retryFailed: bool)
    decreases |events|
  {
    events != [] ==>
      && file.Some? && Disciplined(file.value, events[0], id, retryFailed)
      && DisciplinedRun(Apply(file, events[0]), events[1..], id, retryFailed)
  }

  /** Across any crashes and resumes, a collector that passed is never started again. */
  lemma {:induction false} PassedIsNeverRerun(f: File, events: seq<Event>, id: string, retryFailed: bool)
    requires id != PREFLIGHT && id in Ids(f.plan) && StatusOf(f, id) == Pass
    requires DisciplinedRun(Some(f), events, id, retryFailed)
    ensures var g := After(Some(f), events);
            g.Some? && id in g.value.collectors && g.value.collectors[id] == f.collectors[id]
    decreases |events|
  {
    if events != [] {
      var g := Apply(Some(f), events[0]);
      PassIsKeptExactly(f, events[0], id);
      PassedIsNeverRerun(g.value, events[1..], id, retryFailed);
    }
  }

  /** Every start in the run is a resume whose plan has the collector. */
  predicate Kept(events: seq<Event>, id: string) {
    forall e :: e in events && e.Init? ==> e.resume && id in Ids(e.plan)
  }

  predicate MarksOf(e: Event, id: string) { e.Mark? && e.id == id }

  predicate NoMark(events: seq<Event>, id: string) { forall e :: e in events ==> !MarksOf(e, id) }

  /** A resume that retries failures. */
  predicate Retries(events: seq<Event>) { exists i :: 0 <= i < |events| && events[i].Init? && events[i].retryFailed }

  /** A collector that stands like this, and is not marked in the rest of the run, is run at its end. */
  predicate Runs(s: Status, rest: seq<Event>, retryFailed: bool) {
    s.Pending? || s.Running? || s.Cancelled? || s.TimedOut? || (s.Fail? && (retryFailed || Retries(rest)))
  }

  /** The i-th event is the last mark of the collector, and one that makes it run again. */
  predicate Revives(events: seq<Event>, i: nat, id: string, retryFailed: bool) {
    i < |events| && MarksOf(events[i], id) && NoMark(events[i + 1..], id)
    && Runs(events[i].status, events[i + 1..], retryFailed)
  }

  ghost predicate Revived(events: seq<Event>, id: string, retryFailed: bool) {
    exists i :: 0 <= i < |events| && Revives(events, i, id, retryFailed)
  }

  lemma RevivedParts(e: Event, rest: seq<Event>, id: string, retryFailed: bool)
    ensures Revived([e] + rest, id, retryFailed) <==>
            Revived(rest, id, retryFailed) || (MarksOf(e, id) && NoMark(rest, id) && Runs(e.status, rest, retryFailed))
  {
    var all := [e] + rest;
    assert all[1..] == rest;
    forall i | 0 <= i < |rest| ensures Revives(all, i + 1, id, retryFailed) <==> Revives(rest, i, id, retryFailed) {
      assert all[i + 1] == rest[i] && all[i + 2..] == rest[i + 1..];
    }
    if i :| 0 <= i < |rest| && Revives(rest, i, id, retryFailed) { assert Revives(all, i + 1, id, retryFailed); }
    if Revived(all, id, retryFailed) {
      var i :| 0 <= i < |all| && Revives(all, i, id, retryFailed);
      if i > 0 { assert Revives(rest, i - 1, id, retryFailed); }
    }
    assert Revives(all, 0, id, retryFailed) <==>
        MarksOf(e, id) && NoMark(rest, id) && Runs(e.status, rest, retryFailed);
  }

  lemma MarkParts(e: Event, rest: seq<Event>, id: string)
    ensures NoMark([e] + rest, id) <==> !MarksOf(e, id) && NoMark(rest, id)
    ensures Retries([e] + rest) <==> (e.Init? && e.retryFailed) || Retries(rest)
  {
    var all := [e] + rest;
    if NoMark(all, id) {
      assert all[0] == e;
      forall x | x in rest ensures !MarksOf(x, id) { assert x in all; }
    }
    if i :| 0 <= i < |rest| && rest[i].Init? && rest[i].retryFailed { assert all[i + 1] == rest[i]; }
    if e.Init? && e.retryFailed { assert all[0] == e; }
  }

  /** One event that does not mark the collector changes how it stands only in a way that Runs foresees. */
  lemma UnmarkedStep(f: File, e: Event, rest: seq<Event>, id: string, retryFailed: bool)
    requires id != PREFLIGHT && id in Ids(f.plan) && !MarksOf(e, id)
    requires e.Init? ==> e.resume && id in Ids(e.plan)
    ensures Apply(Some(f), e).Some? && id in Ids(Apply(Some(f), e).value.plan)
    ensures Runs(StatusOf(Apply(Some(f), e).value, id), rest, retryFailed)
            <==> Runs(StatusOf(f, id), [e] + rest, retryFailed)
  {
    MarkParts(e, rest, id);
  }

  lemma {:induction false} RunsAtEnd(f: File, events: seq<Event>, id: string, retryFailed: bool)
    requires id != PREFLIGHT && id in Ids(f.plan) && Kept(events, id)
    ensures After(Some(f), events).Some?
    ensures ShouldRun(After(Some(f), events).value, id, retryFailed) <==>
            Revived(events, id, retryFailed) || (NoMark(events, id) && Runs(StatusOf(f, id), events, retryFailed))
    decreases |events|
  {
    if events != [] {
      var e, rest := events[0], events[1..];
      assert events == [e] + rest;
      MarkParts(e, rest, id);
      RevivedParts(e, rest, id, retryFailed);
      if !MarksOf(e, id) { UnmarkedStep(f, e, rest, id, retryFailed); }
      RunsAtEnd(Apply(Some(f), e).value, rest, id, retryFailed);
    }
  }

  /** Over any run whose starts are resumes that keep the collector, marks by whomever: a passed collector is run again
      exactly if its last mark is not PASS or SKIPPED, and, if it is FAIL, failures are retried now or were by a later
      resume. Without any mark it is never run again. */
  lemma RerunExactly(f: File, events: seq<Event>, id: string, retryFailed: bool)
    requires id != PREFLIGHT && id in Ids(f.plan) && StatusOf(f, id) == Pass && Kept(events, id)
    ensures After(Some(f), events).Some?
    ensures ShouldRun(After(Some(f), events).value, id, retryFailed) <==> Revived(events, id, retryFailed)
  {
    RunsAtEnd(f, events, id, retryFailed);
  }

  /** The final contract validation is marked again outside that discipline, after it passed: if it is marked
      FAIL, a resume that retries failures runs it once more. */
  lemma RemarkedIsRerun(f: File, id: string)
    requires id in Ids(f.plan) && StatusOf(f, id) == Pass
    ensures var g := After(Some(f), [Mark(id, Fail), Init(f.plan, true, true)]);
            g.Some? && ShouldRun(g.value, id, true) && g.value.progress == Progress(g.value.plan, g.value.collectors)
  {
    var marked := Apply(Some(f), Mark(id, Fail));
    var resumed := Apply(marked, Init(f.plan, true, true));
    assert [Mark(id, Fail), Init(f.plan, true, true)][1..] == [Init(f.plan, true, true)];
    assert After(marked, [Init(f.plan, true, true)]) == After(resumed, []);
  }
}
