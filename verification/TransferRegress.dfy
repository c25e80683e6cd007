/** Can a completed transfer be shown as failed? The update has no guard, so a caller that comes late may overwrite the
    status. This module says exactly when one can. */
module TransferRegress {
  import opened Options
  import opened Transfers
  import opened TransferProtocol
  import opened TransferRuns
  import opened TransferOverlap

  // ---- the calls that may still fail ---------------------------------------------------------------------

  /** A call for the key that has been rejected, or whose request may yet be: it is past the test of its key. */
  predicate Doubtful(s: System, c: nat, key: Key) {
    && c in s.calls && s.calls[c].key == key
    && (s.calls[c].stage.Failing?
        || (s.calls[c].stage.Awaiting? && c in s.requests
            && (s.requests[c].Checked? || (s.requests[c].Answered? && s.requests[c].reply.Rejected?))))
  }

  ghost predicate Settled(s: System, key: Key) {
    key in s.rows && s.rows[key].status == Completed && forall c :: !Doubtful(s, c, key)
  }

  predicate ShownFailed(s: System, key: Key) { key in s.rows && s.rows[key].status == Failed }

  ghost predicate CanFail(s: System, key: Key) { exists events, u :: Executes(s, events, u) && ShownFailed(u, key) }

  // ---- without one the row stays completed ---------------------------------------------------------------

  /** A request that arrives for a key that moved is told so: it cannot come past the test. */
  lemma DoubtIsOld(s: System, e: Event, c: nat, key: Key)
    requires Enabled(s, e) && Doubtful(Apply(s, e), c, key) && key in s.bank.processed
    requires c in s.requests ==> SoundRequest(s, c)
    requires key in s.rows && s.rows[key].source != s.rows[key].destination && s.rows[key].amount > 0
    ensures Doubtful(s, c, key)
  {
  }

  lemma RowStaysCompleted(s: System, e: Event, key: Key)
    requires Enabled(s, e) && Settled(s, key)
    ensures key in Apply(s, e).rows && Apply(s, e).rows[key].status == Completed
  {
    if e.Fail? { assert !Doubtful(s, e.call, key); }
  }

  lemma StepKeepsSettled(s: System, e: Event, key: Key)
    requires Inv(s) && Enabled(s, e) && Settled(s, key)
    ensures Settled(Apply(s, e), key)
  {
    RowStaysCompleted(s, e, key);
    assert SoundRow(s.bank.processed, key, s.rows[key]);
    ProcessedIsValid(s, key);
    forall c | Doubtful(Apply(s, e), c, key) ensures Doubtful(s, c, key) {
      assert c in s.requests ==> SoundRequest(s, c);
      DoubtIsOld(s, e, c, key);
    }
  }

  lemma {:induction false} RunKeepsSettled(s: System, events: seq<Event>, t: System, key: Key)
    requires Inv(s) && Executes(s, events, t) && Settled(s, key)
    ensures Settled(t, key)
    decreases |events|
  {
    if events != [] {
      StepKeepsInv(s, events[0]);
      StepKeepsSettled(s, events[0], key);
      RunKeepsSettled(Apply(s, events[0]), events[1..], t, key);
    }
  }

  // ---- with one it can fail ------------------------------------------------------------------------------

  lemma FailsLater(s: System, e: Event, key: Key)
    requires Enabled(s, e) && CanFail(Apply(s, e), key)
    ensures CanFail(s, key)
  {
    var events, u :| Executes(Apply(s, e), events, u) && ShownFailed(u, key);
    Prepend(s, e, events, u);
  }

  lemma FailingFails(s: System, c: nat, key: Key)
    requires At(s, c, (p: Stage) => p.Failing?) && s.calls[c].key == key && key in s.rows
    ensures CanFail(s, key)
  {
    var u := Apply(s, Fail(c, 0));
    OneStep(s, Fail(c, 0));
    assert ShownFailed(u, key);
  }

  lemma RejectedFails(s: System, c: nat, key: Key)
    requires At(s, c, (p: Stage) => p.Awaiting?) && s.calls[c].key == key && key in s.rows
    requires c in s.requests && s.requests[c].Answered? && s.requests[c].reply.Rejected?
    ensures CanFail(s, key)
  {
    FailingFails(Apply(s, Receive(c)), c, key);
    FailsLater(s, Receive(c), key);
  }

  /** Somebody else may take the money before the locks are taken. */
  lemma CheckedFails(s: System, c: nat, key: Key)
    requires Inv(s) && At(s, c, (p: Stage) => p.Awaiting?) && s.calls[c].key == key && key in s.rows
    requires c in s.requests && s.requests[c].Checked?
    ensures CanFail(s, key)
  {
    assert SoundRequest(s, c);
    var r := s.calls[c].request;
    assert Balance(s.bank.balances, r.source) >= 0;
    var drain := Other(r.source, -Balance(s.bank.balances, r.source));
    var drained := Apply(s, drain);
    RejectedFails(Apply(drained, LockedMove(c)), c, key);
    FailsLater(drained, LockedMove(c), key);
    FailsLater(s, drain, key);
  }

  /** From a state whose row is Completed, some run shows it Failed exactly if a call for the key has been rejected and
      has not finished, or still waits for a request that came past the test of its key. */
  lemma RegressesExactly(t: System, key: Key)
    requires Reachable(t) && key in t.rows && t.rows[key].status == Completed
    ensures CanFail(t, key) <==> exists c :: Doubtful(t, c, key)
  {
    ReachableInv(t);
    if c: nat :| Doubtful(t, c, key) {
      if t.calls[c].stage.Failing? {
        FailingFails(t, c, key);
      } else if t.requests[c].Checked? {
        CheckedFails(t, c, key);
      } else {
        RejectedFails(t, c, key);
      }
    } else {
      forall events, u | Executes(t, events, u) ensures !ShownFailed(u, key) {
        RunKeepsSettled(t, events, u, key);
      }
    }
  }

  // ---- a concrete run ------------------------------------------------------------------------------------

  /** Even in a careful run the status column is not monotone: a call rejected for lack of funds may record its failure
      after another call with the same key found the funds and completed. The completion time still tells the truth. */
  lemma StatusCanRegress() returns (t: System)
    ensures Reachable(t) && CarefullyReached(t) && 7 in t.rows && t.rows[7].status == Failed
    ensures t.rows[7].completedAt.Some? && Moved(t.bank, 7)
  {
    var r := Request(1, 2, 10, "");
    t := TwoCallsRead(r, 0);
    t := RejectedFirst(t, r);
    t := CompletedNext(t, r);
    t := Hop(t, Fail(1, 6));
  }

  lemma RejectedFirst(t: System, r: Request) returns (u: System)
    requires CarefullyReached(t) && Reachable(t) && BothApplying(t, r, 0) && r == Request(1, 2, 10, "")
    ensures CarefullyReached(u) && Reachable(u) && u.rows == t.rows
    ensures u.bank.balances == map[1 := 10, 2 := 0] && u.bank.processed == {} && u.bank.moves == []
    ensures u.calls == map[0 := Call(7, r, Applying), 1 := Call(7, r, Failing("insufficient_funds"))]
    ensures u.requests == map[1 := Answered(Rejected("insufficient_funds"))]
  {
    var m := PostPasses(t, 1);
    assert m.requests == map[1 := Checked] && m.bank.balances == map[1 := 0, 2 := 0];
    assert m.calls == map[0 := Call(7, r, Applying), 1 := Call(7, r, Awaiting)];
    var n := ShortOfFunds(m, r);
    u := TenArrive(n);
  }

  lemma TenArrive(t: System) returns (u: System)
    requires CarefullyReached(t) && Reachable(t) && t.bank.balances == map[1 := 0, 2 := 0]
    ensures CarefullyReached(u) && Reachable(u) && u.rows == t.rows && u.calls == t.calls && u.requests == t.requests
    ensures u.bank.balances == map[1 := 10, 2 := 0] && u.bank.processed == t.bank.processed
              && u.bank.moves == t.bank.moves
  {
    u := Hop(t, Other(1, 10));
  }

  lemma ShortOfFunds(t: System, r: Request) returns (u: System)
    requires CarefullyReached(t) && Reachable(t) && r == Request(1, 2, 10, "") && t.requests == map[1 := Checked]
    requires t.calls == map[0 := Call(7, r, Applying), 1 := Call(7, r, Awaiting)]
    requires t.bank.balances == map[1 := 0, 2 := 0]
    ensures CarefullyReached(u) && Reachable(u) && u.rows == t.rows && u.bank == t.bank
    ensures u.calls == map[0 := Call(7, r, Applying), 1 := Call(7, r, Failing("insufficient_funds"))]
    ensures u.requests == map[1 := Answered(Rejected("insufficient_funds"))]
  {
    assert MoveLocked(t.bank, 7, r) == (t.bank, Rejected("insufficient_funds"));
    u := MoveIsAnswered(t, 1);
  }

  lemma CompletedNext(t: System, r: Request) returns (u: System)
    requires CarefullyReached(t) && Reachable(t) && r == Request(1, 2, 10, "") && t.rows == map[7 := NewRow(r)]
    requires t.calls == map[0 := Call(7, r, Applying), 1 := Call(7, r, Failing("insufficient_funds"))]
    requires t.requests == map[1 := Answered(Rejected("insufficient_funds"))]
    requires t.bank.balances == map[1 := 10, 2 := 0] && t.bank.processed == {} && t.bank.moves == []
    ensures CarefullyReached(u) && Reachable(u) && Moved(u.bank, 7)
    ensures 7 in u.rows && u.rows[7].completedAt == Some(5)
    ensures 1 in u.calls && u.calls[1] == Call(7, r, Failing("insufficient_funds"))
  {
    u := PostPasses(t, 0);
    u := MoveIsAnswered(u, 0);
    assert u.bank.moves[0].key == 7;
    u := Hop(u, Complete(0, 5));
  }
}
