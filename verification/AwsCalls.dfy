/** Request and retry accounting of the AWS collector, which checks its budget once, before the retry loop. */
module AwsCalls {
  import opened Options

  /** What the command line tool answered. */
  datatype Answer = Payload | BadJson | Failure(transient: bool, unsupported: bool)

  datatype Coverage = Available | Unavailable | Partial | NotApplicable

  predicate Retried(a: Answer) { a.Failure? && a.transient }

  /** Requests one call sends when it is let in: one, plus one for each transient failure while retries last. */
  function Attempts(answers: seq<Answer>, retries: nat): (n: nat)
    requires |answers| == retries + 1
    ensures 1 <= n <= retries + 1
    ensures forall i :: 0 <= i < n - 1 ==> answers[i].Failure? && answers[i].transient
    ensures n == retries + 1 || !(answers[n - 1].Failure? && answers[n - 1].transient)
  {
    if retries == 0 || !Retried(answers[0]) then 1 else 1 + Attempts(answers[1..], retries - 1)
  }

  function Verdict(last: Answer, optional: bool): Coverage {
    match last
    case Payload => Available
    case BadJson => Unavailable
    case Failure(_, unsupported) => if optional && unsupported then NotApplicable else Unavailable
  }

  class AwsCollector {
    const maxRequests: int
    const retries: nat
    const installed: bool
    var requests: nat
    var retryCount: nat
    var coverage: map<string, Coverage>

    constructor (maxRequests: int, retries: nat, installed: bool)
      ensures this.maxRequests == maxRequests && this.retries == retries && this.installed == installed
      ensures requests == 0 && retryCount == 0 && coverage == map[]
    {
      this.maxRequests, this.retries, this.installed := maxRequests, retries, installed;
      requests, retryCount, coverage := 0, 0, map[];
    }

    method Call(key: string, answers: seq<Answer>, optional: bool) returns (ok: bool)
      requires |answers| == retries + 1
      modifies this
      ensures !installed ==> coverage == old(coverage)[key := Unavailable]
      ensures installed && old(requests) >= maxRequests ==> coverage == old(coverage)[key := Partial]
      ensures !installed || old(requests) >= maxRequests ==>
                !ok && requests == old(requests) && retryCount == old(retryCount)
      ensures installed && old(requests) < maxRequests ==>
                var n := Attempts(answers, retries);
                && requests == old(requests) + n && retryCount == old(retryCount) + n - 1
                && (ok <==> answers[n - 1] == Payload)
                && coverage == old(coverage)[key := Verdict(answers[n - 1], optional)]
                && coverage[key] == if answers[n - 1] == Payload then Available
                                    else if answers[n - 1] == BadJson || !answers[n - 1].unsupported || !optional
                                    then Unavailable else NotApplicable
    {
      if !installed {
        coverage := coverage[key := Unavailable];
        return false;
      }
      if requests >= maxRequests {
        coverage := coverage[key := Partial];
        return false;
      }
      var last := Failure(false, false);
      for attempt := 0 to retries + 1
        invariant attempt <= retries && requests == old(requests) + attempt
        invariant retryCount == old(retryCount) + Max(0, attempt - 1)
        invariant coverage == old(coverage)
        invariant Attempts(answers, retries) == attempt + Attempts(answers[attempt..], retries - attempt)
      {
        requests := requests + 1;
        if attempt > 0 { retryCount := retryCount + 1; }
        last := answers[attempt];
        assert answers[attempt..][1..] == answers[attempt + 1..];
        if last == Payload || last == BadJson {
          coverage := coverage[key := Verdict(last, optional)];
          return last == Payload;
        }
        if attempt >= retries || !Retried(last) { break; }
      }
      coverage := coverage[key := Verdict(last, optional)];
      return false;
    }
  }

  // ---- the total over any sequence of calls ------------------------------------------------------------

  function Used(maxRequests: int, retries: nat, before: nat, calls: seq<seq<Answer>>): nat
    requires forall c :: c in calls ==> |c| == retries + 1
    decreases |calls|
  {
    if calls == [] then before
    else if before >= maxRequests then Used(maxRequests, retries, before, calls[1..])
    else Used(maxRequests, retries, before + Attempts(calls[0], retries), calls[1..])
  }

  /** One use of the collector: what to record it under, what the tool will answer, and whether it may be
      unsupported. */
  datatype Query = Query(key: string, answers: seq<Answer>, optional: bool)

  function AnswersOf(queries: seq<Query>): seq<seq<Answer>> {
    seq(|queries|, i requires 0 <= i < |queries| => queries[i].answers)
  }

  /** Any calls in turn on one collector. */
  method CallAll(collector: AwsCollector, queries: seq<Query>)
    requires forall q :: q in queries ==> |q.answers| == collector.retries + 1
    modifies collector
    ensures collector.requests ==
            if collector.installed
                then Used(collector.maxRequests, collector.retries, old(collector.requests), AnswersOf(queries))
            else old(collector.requests)
    ensures old(collector.requests) <= collector.maxRequests + collector.retries ==>
              collector.requests <= collector.maxRequests + collector.retries
    ensures forall q :: q in queries ==> q.key in collector.coverage
  {
    ghost var all := AnswersOf(queries);
    for i := 0 to |queries|
      invariant collector.installed ==> Used(collector.maxRequests, collector.retries, collector.requests, all[i..])
                                        == Used(collector.maxRequests, collector.retries, old(collector.requests), all)
      invariant !collector.installed ==> collector.requests == old(collector.requests)
      invariant forall j :: 0 <= j < i ==> queries[j].key in collector.coverage
    {
      assert all[i..][1..] == all[i + 1..] && all[i] == queries[i].answers;
      var _ := collector.Call(queries[i].key, queries[i].answers, queries[i].optional);
    }
    if collector.installed && old(collector.requests) <= collector.maxRequests + collector.retries {
      OverrunIsBounded(collector.maxRequests, collector.retries, old(collector.requests), all);
    }
  }

  /** The check before the loop lets the last admitted call run over by its retries, and no further. */
  lemma {:induction false} OverrunIsBounded(maxRequests: int, retries: nat, before: nat, calls: seq<seq<Answer>>)
    requires forall c :: c in calls ==> |c| == retries + 1
    requires before <= maxRequests + retries
    ensures Used(maxRequests, retries, before, calls) <= maxRequests + retries
    decreases |calls|
  {
    if calls != [] {
      OverrunIsBounded(maxRequests, retries,
                       if before >= maxRequests then before else before + Attempts(calls[0], retries), calls[1..]);
    }
  }

  lemma {:induction false} AllTransient(answers: seq<Answer>, retries: nat)
    requires |answers| == retries + 1 && forall a :: a in answers ==> Retried(a)
    ensures Attempts(answers, retries) == retries + 1
  {
    if retries > 0 { AllTransient(answers[1..], retries - 1); }
  }

  /** The bound is met: the budget alone does not cap the requests when retries are allowed. */
  lemma {:induction false} OverrunIsReached(maxRequests: nat, retries: nat, before: nat)
    returns (calls: seq<seq<Answer>>)
    requires before < maxRequests
    ensures forall c :: c in calls ==> |c| == retries + 1
    ensures Used(maxRequests, retries, before, calls) == maxRequests + retries
    decreases maxRequests - before
  {
    if before == maxRequests - 1 {
      var failing := seq(retries + 1, _ => Failure(true, false));
      AllTransient(failing, retries);
      calls := [failing];
    } else {
      var rest := OverrunIsReached(maxRequests, retries, before + 1);
      calls := [seq(retries + 1, _ => Payload)] + rest;
      assert calls[1..] == rest;
    }
  }
}
