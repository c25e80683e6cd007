/** The request, time and response-size budget shared by the inventory threads, and the retry loop on top of it.
    Clock readings are inputs; times are integer milliseconds. Every section runs under one lock, so the threads
    interleave as some sequence of sections. */
module ApiBudgets {
  import opened Options
  import HalfEven

  datatype Reason = NoReason | RequestsExhausted | DurationExhausted | BytesExhausted

  datatype Limits = Limits(maxRequests: int, maxDuration: int, maxBytes: int, delay: nat, started: int)

  datatype Budget = Budget(requests: nat, retries: nat, responseBytes: nat, throttles: nat,
                           reason: Reason, nextAllowed: int)

  /** A granted request owns the start slot at the end of its wait. */
  datatype Grant = Granted(slot: int) | Refused(reason: Reason)

  function Opening(l: Limits): Budget { Budget(0, 0, 0, 0, NoReason, l.started) }

  function BeforeSection(l: Limits, b: Budget, checkedAt: int, now: int, retry: bool): (Budget, Grant) {
    if b.reason != NoReason then (b, Refused(b.reason))
    else if b.requests >= l.maxRequests then (b.(reason := RequestsExhausted), Refused(RequestsExhausted))
    else if checkedAt - l.started >= l.maxDuration then (b.(reason := DurationExhausted), Refused(DurationExhausted))
    else
      (b.(nextAllowed := Max(now, b.nextAllowed) + l.delay, requests := b.requests + 1,
          retries := b.retries + if retry then 1 else 0),
       Granted(now + Max(0, b.nextAllowed - now)))
  }

  function AfterSection(l: Limits, b: Budget, size: nat, throttled: bool): Budget {
    b.(responseBytes := b.responseBytes + size, throttles := b.throttles + if throttled then 1 else 0,
       reason := if b.responseBytes + size > l.maxBytes && b.reason == NoReason then BytesExhausted else b.reason)
  }

  datatype Event = Before(checkedAt: int, now: int, retry: bool) | After(size: nat, throttled: bool)

  function Step(l: Limits, b: Budget, e: Event): Budget {
    match e
    case Before(checkedAt, now, retry) => BeforeSection(l, b, checkedAt, now, retry).0
    case After(size, throttled) => AfterSection(l, b, size, throttled)
  }

  /** The budget after any interleaving of sections. */
  function Final(l: Limits, b: Budget, events: seq<Event>): Budget
    decreases |events|
  {
    if events == [] then b else Final(l, Step(l, b, events[0]), events[1..])
  }

  predicate Grants(l: Limits, b: Budget, e: Event) {
    e.Before? && BeforeSection(l, b, e.checkedAt, e.now, e.retry).1.Granted?
  }

  function SlotOf(l: Limits, b: Budget, e: Event): int
    requires Grants(l, b, e)
  {
    BeforeSection(l, b, e.checkedAt, e.now, e.retry).1.slot
  }

  /** The start slots granted along the way, in grant order. */
  function Slots(l: Limits, b: Budget, events: seq<Event>): seq<int>
    decreases |events|
  {
    if events == [] then []
    else
      var e, rest := events[0], Slots(l, Step(l, b, events[0]), events[1..]);
      if Grants(l, b, e) then [SlotOf(l, b, e)] + rest else rest
  }

  /** What one event does to the next free slot. */
  lemma SlotOfEvent(l: Limits, b: Budget, e: Event)
    ensures Grants(l, b, e) ==>
              SlotOf(l, b, e) == Max(e.now, b.nextAllowed) && Step(l, b, e).nextAllowed == SlotOf(l, b, e) + l.delay
    ensures !Grants(l, b, e) ==> Step(l, b, e).nextAllowed == b.nextAllowed
  {
  }

  // ---- pacing ------------------------------------------------------------------------------------------

  ghost predicate Spaced(slots: seq<int>, delay: nat) {
    forall i, j :: 0 <= i < j < |slots| ==> slots[j] - slots[i] >= (j - i) * delay
  }

  lemma {:induction false} SpacedCons(first: int, rest: seq<int>, delay: nat)
    requires Spaced(rest, delay) && (rest != [] ==> rest[0] >= first + delay)
    ensures Spaced([first] + rest, delay)
  {
    var all := [first] + rest;
    forall i, j | 0 <= i < j < |all| ensures all[j] - all[i] >= (j - i) * delay {
      if i == 0 {
        assert j * delay == delay + (j - 1) * delay;
        if j > 1 { assert rest[j - 1] - rest[0] >= (j - 1) * delay; }
      }
    }
  }

  /** Whatever the interleaving and the clock, granted slots are a delay apart. */
  lemma {:induction false} SlotsAreSpaced(l: Limits, b: Budget, events: seq<Event>)
    ensures Spaced(Slots(l, b, events), l.delay)
    ensures Slots(l, b, events) != [] ==> Slots(l, b, events)[0] >= b.nextAllowed
    decreases |events|
  {
    if events != [] {
      SlotsAreSpaced(l, Step(l, b, events[0]), events[1..]);
      SlotOfEvent(l, b, events[0]);
      if Grants(l, b, events[0]) {
        SpacedCons(SlotOf(l, b, events[0]), Slots(l, Step(l, b, events[0]), events[1..]), l.delay);
      }
    }
  }

  function CountIn(slots: seq<int>, low: int, high: int): nat {
    if slots == [] then 0
    else
      var last := slots[|slots| - 1];
      CountIn(slots[..|slots| - 1], low, high) + if low <= last <= high then 1 else 0
  }

  lemma {:induction false} LowerHigh(slots: seq<int>, low: int, high: int, cut: int)
    requires cut <= high && forall i :: 0 <= i < |slots| ==> slots[i] <= cut
    ensures CountIn(slots, low, high) == CountIn(slots, low, cut)
  {
    if slots != [] { LowerHigh(slots[..|slots| - 1], low, high, cut); }
  }

  lemma AtLeastOneDelay(slots: seq<int>, delay: nat, i: nat)
    requires Spaced(slots, delay) && i + 1 < |slots|
    ensures slots[i] <= slots[|slots| - 1] - delay
  {
    var gap := |slots| - 1 - i;
    assert slots[|slots| - 1] - slots[i] >= (|slots| - 1 - i) * delay;
    OneMore(gap, delay);
  }

  lemma OneMore(c: nat, delay: nat)
    requires c > 0
    ensures c * delay == (c - 1) * delay + delay >= delay
  {
  }

  lemma {:induction false} SpacedCount(slots: seq<int>, delay: nat, low: int, high: int)
    requires Spaced(slots, delay) && CountIn(slots, low, high) > 0
    ensures low <= high && (CountIn(slots, low, high) - 1) * delay <= high - low
    decreases |slots|
  {
    var n := |slots| - 1;
    var init, last := slots[..n], slots[n];
    assert Spaced(init, delay);
    if low <= last <= high {
      forall i | 0 <= i < n ensures init[i] <= last - delay {
        AtLeastOneDelay(slots, delay, i);
      }
      LowerHigh(init, low, high, last - delay);
      if CountIn(init, low, high) > 0 {
        SpacedCount(init, delay, low, last - delay);
        OneMore(CountIn(init, low, high), delay);
      }
    } else {
      SpacedCount(init, delay, low, high);
    }
  }

  /** A window of length n holds at most n / delay + 1 starts. */
  lemma WindowBound(l: Limits, b: Budget, events: seq<Event>, low: int, n: nat)
    requires l.delay > 0
    ensures CountIn(Slots(l, b, events), low, low + n) <= n / l.delay + 1
  {
    SlotsAreSpaced(l, b, events);
    CountBound(Slots(l, b, events), l.delay, low, n);
  }

  lemma CountBound(slots: seq<int>, delay: nat, low: int, n: nat)
    requires delay > 0 && Spaced(slots, delay)
    ensures CountIn(slots, low, low + n) <= n / delay + 1
  {
    if CountIn(slots, low, low + n) > 0 {
      SpacedCount(slots, delay, low, low + n);
      Quotient(CountIn(slots, low, low + n) - 1, n, delay);
    }
  }

  lemma Quotient(q: nat, n: nat, d: nat)
    requires d > 0 && q * d <= n
    ensures q <= n / d
  {
    var floor := n / d;
    assert n < d * floor + d;
    assert d * (floor + 1) == d * floor + d;
    if q > floor { HalfEven.Scaled(d, floor + 1, q); }
  }

  /** The clock at each granted request. */
  function Asked(l: Limits, b: Budget, events: seq<Event>): seq<int>
    decreases |events|
  {
    if events == [] then []
    else
      var e, rest := events[0], Asked(l, Step(l, b, events[0]), events[1..]);
      if Grants(l, b, e) then [e.now] + rest else rest
  }

  /** When the next request may start: from `open` on at first, then a delay after the slot before. */
  function Opens(slots: seq<int>, open: int, delay: nat, i: nat): int
    requires i <= |slots|
  {
    if i == 0 then open else slots[i - 1] + delay
  }

  ghost predicate Tight(slots: seq<int>, asked: seq<int>, open: int, delay: nat) {
    |asked| == |slots| && forall i :: 0 <= i < |slots| ==> slots[i] == Max(asked[i], Opens(slots, open, delay, i))
  }

  lemma TightCons(slot: int, now: int, slots: seq<int>, asked: seq<int>, open: int, delay: nat)
    requires slot == Max(now, open) && Tight(slots, asked, slot + delay, delay)
    ensures Tight([slot] + slots, [now] + asked, open, delay)
  {
    var all, times := [slot] + slots, [now] + asked;
    forall i | 0 <= i < |all| ensures all[i] == Max(times[i], Opens(all, open, delay, i)) {
      if i > 0 { assert slots[i - 1] == Max(asked[i - 1], Opens(slots, slot + delay, delay, i - 1)); }
    }
  }

  /** Nobody waits longer than the spacing demands: a slot is the moment of asking or one delay after the slot
      before it, whichever is later. */
  lemma {:induction false} NoNeedlessWait(l: Limits, b: Budget, events: seq<Event>)
    ensures Tight(Slots(l, b, events), Asked(l, b, events), b.nextAllowed, l.delay)
    decreases |events|
  {
    if events != [] {
      var e, next, rest := events[0], Step(l, b, events[0]), events[1..];
      NoNeedlessWait(l, next, rest);
      SlotOfEvent(l, b, e);
      if Grants(l, b, e) {
        TightCons(SlotOf(l, b, e), e.now, Slots(l, next, rest), Asked(l, next, rest), b.nextAllowed, l.delay);
      }
    }
  }

  // ---- exhaustion --------------------------------------------------------------------------------------

  /** The count is exact, and the number of grants never passes the limit. */
  lemma {:induction false} GrantsAreCounted(l: Limits, b: Budget, events: seq<Event>)
    ensures Final(l, b, events).requests == b.requests + |Slots(l, b, events)|
    ensures Final(l, b, events).requests <= Max(b.requests, l.maxRequests)
    decreases |events|
  {
    if events != [] { GrantsAreCounted(l, Step(l, b, events[0]), events[1..]); }
  }

  /** A request is granted exactly while nothing is exhausted: checked after the duration, it never is. */
  lemma GrantedExactly(l: Limits, b: Budget, e: Event)
    ensures Grants(l, b, e) <==>
      && e.Before? && b.reason == NoReason && b.requests < l.maxRequests && e.checkedAt - l.started < l.maxDuration
    ensures e.Before? && b.reason == NoReason && b.requests < l.maxRequests && !Grants(l, b, e) ==>
              Step(l, b, e) == b.(reason := DurationExhausted)
  {
  }

  /** The sizes, the throttled answers and the granted retries of a run. */
  function Sizes(events: seq<Event>): nat {
    if events == [] then 0 else (if events[0].After? then events[0].size else 0) + Sizes(events[1..])
  }

  function Throttled(events: seq<Event>): nat {
    if events == [] then 0 else (if events[0].After? && events[0].throttled then 1 else 0) + Throttled(events[1..])
  }

  function GrantedRetries(l: Limits, b: Budget, events: seq<Event>): nat
    decreases |events|
  {
    if events == [] then 0
    else (if Grants(l, b, events[0]) && events[0].retry then 1 else 0)
         + GrantedRetries(l, Step(l, b, events[0]), events[1..])
  }

  /** The counters are the sums over the run, and bytes over the limit have closed the budget. */
  lemma {:induction false} TotalsAddUp(l: Limits, b: Budget, events: seq<Event>)
    ensures var t := Final(l, b, events);
            && t.responseBytes == b.responseBytes + Sizes(events) && t.throttles == b.throttles + Throttled(events)
            && t.retries == b.retries + GrantedRetries(l, b, events)
    decreases |events|
  {
    if events != [] { TotalsAddUp(l, Step(l, b, events[0]), events[1..]); }
  }

  /** The first reason is permanent and blocks every later grant. */
  lemma {:induction false} FirstReasonIsFinal(l: Limits, b: Budget, events: seq<Event>)
    requires b.reason != NoReason
    ensures Slots(l, b, events) == [] && Final(l, b, events).reason == b.reason
    decreases |events|
  {
    if events != [] { FirstReasonIsFinal(l, Step(l, b, events[0]), events[1..]); }
  }

  /** A refused request leaves its reason behind, so the budget never reopens. */
  lemma RefusalIsFinal(l: Limits, b: Budget, checkedAt: int, now: int, retry: bool, later: seq<Event>)
    requires BeforeSection(l, b, checkedAt, now, retry).1.Refused?
    ensures var (t, grant) := BeforeSection(l, b, checkedAt, now, retry);
            grant.reason != NoReason && Slots(l, t, later) == [] && Final(l, t, later).reason == grant.reason
  {
    FirstReasonIsFinal(l, BeforeSection(l, b, checkedAt, now, retry).0, later);
  }

  /** Some request of the run was checked after the time had run out. */
  predicate Overdue(l: Limits, events: seq<Event>) {
    exists i :: 0 <= i < |events| && events[i].Before? && events[i].checkedAt - l.started >= l.maxDuration
  }

  /** The recorded reason is a true one, and bytes over the limit never go unrecorded. */
  predicate Justified(l: Limits, b: Budget, overdue: bool) {
    && (b.reason == RequestsExhausted ==> b.requests >= l.maxRequests)
    && (b.reason == DurationExhausted ==> overdue)
    && (b.reason == BytesExhausted ==> b.responseBytes > l.maxBytes)
    && (b.responseBytes > l.maxBytes ==> b.reason != NoReason)
  }

  lemma StepIsJustified(l: Limits, b: Budget, e: Event, overdue: bool)
    requires Justified(l, b, overdue)
    ensures Justified(l, Step(l, b, e), overdue || Overdue(l, [e]))
  {
    if e.Before? && e.checkedAt - l.started >= l.maxDuration { assert [e][0].Before?; }
  }

  lemma {:induction false} ReasonStaysJustified(l: Limits, b: Budget, events: seq<Event>, overdue: bool)
    requires Justified(l, b, overdue)
    ensures Justified(l, Final(l, b, events), overdue || Overdue(l, events))
    decreases |events|
  {
    if events != [] {
      var e, rest := events[0], events[1..];
      StepIsJustified(l, b, e, overdue);
      ReasonStaysJustified(l, Step(l, b, e), rest, overdue || Overdue(l, [e]));
      OverdueParts(l, e, rest);
      assert events == [e] + rest;
    }
  }

  lemma OverdueParts(l: Limits, e: Event, rest: seq<Event>)
    ensures Overdue(l, [e]) || Overdue(l, rest) ==> Overdue(l, [e] + rest)
  {
    var all := [e] + rest;
    if Overdue(l, [e]) { assert all[0] == [e][0]; }
    if i :| 0 <= i < |rest| && rest[i].Before? && rest[i].checkedAt - l.started >= l.maxDuration {
      assert all[i + 1] == rest[i];
    }
  }

  lemma {:induction false} FinalOfConcat(l: Limits, b: Budget, first: seq<Event>, second: seq<Event>)
    ensures Final(l, b, first + second) == Final(l, Final(l, b, first), second)
    decreases |first|
  {
    if first == [] {
      assert first + second == second;
    } else {
      assert (first + second)[1..] == first[1..] + second;
      FinalOfConcat(l, Step(l, b, first[0]), first[1..], second);
    }
  }

  // ---- the class and the retry loop --------------------------------------------------------------------

  class ApiBudget {
    const limits: Limits
    var requests: nat
    var retries: nat
    var responseBytes: nat
    var throttles: nat
    var reason: Reason
    var nextAllowed: int

    function View(): Budget
      reads this
    {
      Budget(requests, retries, responseBytes, throttles, reason, nextAllowed)
    }

    constructor (l: Limits)
      ensures limits == l && View() == Opening(l)
    {
      limits := l;
      requests, retries, responseBytes, throttles, reason, nextAllowed := 0, 0, 0, 0, NoReason, l.started;
    }

    method BeforeRequest(checkedAt: int, now: int, retry: bool) returns (grant: Grant)
      modifies this
      ensures (View(), grant) == BeforeSection(limits, old(View()), checkedAt, now, retry)
      // A recorded reason refuses first, then the requests, then the time; anything else is granted.
      ensures old(reason) != NoReason ==> grant == Refused(old(reason)) && View() == old(View())
      ensures old(reason) == NoReason && old(requests) >= limits.maxRequests ==>
                grant == Refused(RequestsExhausted) && View() == old(View()).(reason := RequestsExhausted)
      ensures old(reason) == NoReason && old(requests) < limits.maxRequests
              && checkedAt - limits.started >= limits.maxDuration ==>
                grant == Refused(DurationExhausted) && View() == old(View()).(reason := DurationExhausted)
      ensures old(reason) == NoReason && old(requests) < limits.maxRequests
              && checkedAt - limits.started < limits.maxDuration ==>
                && grant.Granted? && grant.slot == (if now >= old(nextAllowed) then now else old(nextAllowed))
                && nextAllowed == grant.slot + limits.delay && requests == old(requests) + 1
                && retries == old(retries) + (if retry then 1 else 0)
                && responseBytes == old(responseBytes) && throttles == old(throttles) && reason == NoReason
    {
      if reason != NoReason { return Refused(reason); }
      if requests >= limits.maxRequests {
        reason := RequestsExhausted;
        return Refused(reason);
      }
      if checkedAt - limits.started >= limits.maxDuration {
        reason := DurationExhausted;
        return Refused(reason);
      }
      var wait := Max(0, nextAllowed - now);
      nextAllowed := Max(now, nextAllowed) + limits.delay;
      requests := requests + 1;
      if retry { retries := retries + 1; }
      return Granted(now + wait);
    }

    method AfterResponse(size: nat, throttled: bool)
      modifies this
      ensures View() == AfterSection(limits, old(View()), size, throttled)
      ensures responseBytes == old(responseBytes) + size
      ensures throttles == old(throttles) + if throttled then 1 else 0
      ensures reason == if old(reason) == NoReason && responseBytes > limits.maxBytes then BytesExhausted
                        else old(reason)
      ensures requests == old(requests) && retries == old(retries) && nextAllowed == old(nextAllowed)
    {
      responseBytes := responseBytes + size;
      if throttled { throttles := throttles + 1; }
      if responseBytes > limits.maxBytes && reason == NoReason { reason := BytesExhausted; }
    }

    /** Sections of other threads. */
    method Perform(events: seq<Event>)
      modifies this
      ensures View() == Final(limits, old(View()), events)
    {
      for i := 0 to |events|
        invariant Final(limits, View(), events[i..]) == Final(limits, old(View()), events)
      {
        match events[i] {
          case Before(checkedAt, now, retry) => var _ := BeforeRequest(checkedAt, now, retry);
          case After(size, throttled) => AfterResponse(size, throttled);
        }
        assert events[i..][1..] == events[i + 1..];
      }
    }
  }

  /** returnCode and whether standard error matches the transient pattern. */
  datatype Response = Response(code: int, transient: bool, size: nat, throttled: bool)

  /** One round as the environment plays it: what other threads do first and while the command runs,
      the clock readings, and the command's answer. */
  datatype Round = Round(earlier: seq<Event>, checkedAt: int, now: int, during: seq<Event>, response: Response)

  /** The sections of a round up to the request, and of a round that was granted. */
  function Request(r: Round, retry: bool): seq<Event> { r.earlier + [Before(r.checkedAt, r.now, retry)] }

  function FullRound(r: Round, retry: bool): seq<Event> {
    Request(r, retry) + r.during + [After(r.response.size, r.response.throttled)]
  }

  /** The sections of the first n rounds; all but the first are retries. */
  function FullRounds(rounds: seq<Round>, n: nat): seq<Event>
    requires n <= |rounds|
  {
    if n == 0 then [] else FullRounds(rounds, n - 1) + FullRound(rounds[n - 1], n > 1)
  }

  /** One turn of the retry loop; granted tells whether the command ran. */
  method RunRound(budget: ApiBudget, round: Round, retry: bool) returns (granted: bool)
    modifies budget
    ensures budget.View() == Final(budget.limits, old(budget.View()),
                                   if granted then FullRound(round, retry) else Request(round, retry))
    ensures granted ==> budget.requests > old(budget.requests)
    ensures !granted ==> budget.reason != NoReason && budget.requests >= old(budget.requests)
  {
    ghost var l, start := budget.limits, budget.View();
    GrantsAreCounted(l, start, round.earlier);
    budget.Perform(round.earlier);
    ghost var e := Before(round.checkedAt, round.now, retry);
    FinalOfConcat(l, start, round.earlier, [e]);
    var grant := budget.BeforeRequest(round.checkedAt, round.now, retry);
    if grant.Refused? { return false; }
    GrantsAreCounted(l, budget.View(), round.during);
    budget.Perform(round.during);
    FinalOfConcat(l, start, Request(round, retry), round.during);
    FinalOfConcat(l, start, Request(round, retry) + round.during,
                  [After(round.response.size, round.response.throttled)]);
    budget.AfterResponse(round.response.size, round.response.throttled);
    return true;
  }

  /** Runs one command with retries, at most one grant for each try. Every command but the last failed in a way worth
      retrying; no result means that the budget refused the next one. */
  method RunKubectl(budget: ApiBudget, rounds: seq<Round>, retries: nat) returns (last: Option<Response>, own: nat)
    requires |rounds| == retries + 1
    modifies budget
    ensures own <= retries + 1 && own <= budget.requests
    ensures last.None? ==> own <= retries && budget.reason != NoReason
    ensures budget.View() == Final(budget.limits, old(budget.View()),
                                   FullRounds(rounds, own) + if last.None? then Request(rounds[own], own > 0) else [])
    ensures forall i :: 0 <= i < own - 1 ==> rounds[i].response.code != 0 && rounds[i].response.transient
    ensures last.Some? ==>
              && own >= 1 && last.value == rounds[own - 1].response
              && (last.value.code == 0 || !last.value.transient || own == retries + 1)
    ensures last.None? && own >= 1 ==> rounds[own - 1].response.code != 0 && rounds[own - 1].response.transient
  {
    own, last := 0, None;
    ghost var l, start := budget.limits, budget.View();
    for attempt := 0 to retries + 1
      invariant own == attempt <= retries && own <= budget.requests
      invariant budget.View() == Final(l, start, FullRounds(rounds, attempt))
      invariant forall i :: 0 <= i < own ==> rounds[i].response.code != 0 && rounds[i].response.transient
    {
      var round := rounds[attempt];
      var granted := RunRound(budget, round, attempt > 0);
      if !granted {
        FinalOfConcat(l, start, FullRounds(rounds, attempt), Request(round, attempt > 0));
        return;
      }
      FinalOfConcat(l, start, FullRounds(rounds, attempt), FullRound(round, attempt > 0));
      own := own + 1;
      if round.response.code == 0 || attempt >= retries || !round.response.transient {
        assert FullRounds(rounds, own) + [] == FullRounds(rounds, own);
        return Some(round.response), own;
      }
    }
  }
}
