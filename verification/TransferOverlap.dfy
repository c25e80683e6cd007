/** Does a key move at most once? The account service tests the key before it takes its locks and not again, so two
    requests for one key that are both past the test both move. This module says exactly when that can happen. */
module TransferOverlap {
  import Text
  import opened Options
  import opened Transfers
  import opened TransferProtocol
  import opened TransferRuns

  // ---- when a second move is still possible --------------------------------------------------------------

  ghost predicate MovedTwice(b: Bank, key: Key) {
    exists i, j :: 0 <= i < j < |b.moves| && b.moves[i].key == key && b.moves[j].key == key
  }

  /** A valid request for the key that the account service has not answered. */
  predicate Unanswered(s: System, c: nat, key: Key) {
    && c in s.requests && c in s.calls && s.calls[c].key == key && ValidTransfer(s.calls[c].request)
    && !s.requests[c].Answered?
  }

  /** Two requests for a key that has not moved, or one past the test for a key that has. */
  ghost predicate Overlapping(s: System, key: Key) {
    if key in s.bank.processed then exists c :: Unanswered(s, c, key) && s.requests[c].Checked?
    else exists c, d :: c != d && Unanswered(s, c, key) && Unanswered(s, d, key)
  }

  ghost predicate Safe(s: System, key: Key) { !MovedTwice(s.bank, key) && !Overlapping(s, key) }

  predicate PostsFor(s: System, e: Event, key: Key) { e.Post? && e.call in s.calls && s.calls[e.call].key == key }

  /** Posting a valid transfer whose key has not moved while another request for the key is unanswered. */
  ghost predicate Careless(s: System, e: Event) {
    && e.Post? && e.call in s.calls && ValidTransfer(s.calls[e.call].request)
    && s.calls[e.call].key !in s.bank.processed && exists d :: d != e.call && Unanswered(s, d, s.calls[e.call].key)
  }

  // ---- careful posting keeps every key safe ------------------------------------------------------------

  /** Only the locked move adds a move, and only of its own key. */
  lemma OneMoveMore(s: System, e: Event, key: Key)
    requires Inv(s) && Enabled(s, e) && !MovedTwice(s.bank, key)
    requires e.LockedMove? && s.calls[e.call].key == key ==> key !in s.bank.processed
    ensures !MovedTwice(Apply(s, e).bank, key)
  {
    var b, t := s.bank, Apply(s, e).bank;
    assert t.moves[..|b.moves|] == b.moves && |t.moves| <= |b.moves| + 1;
    forall i, j | 0 <= i < j < |t.moves| && t.moves[j].key == key ensures t.moves[i].key != key {
      assert t.moves[i] == b.moves[i];
      if j < |b.moves| { assert t.moves[j] == b.moves[j]; } else { assert !Moved(b, key); }
    }
  }

  lemma UnansweredBefore(s: System, e: Event, c: nat, key: Key)
    requires Enabled(s, e) && Unanswered(Apply(s, e), c, key) && (e.Post? ==> e.call != c)
    requires c in s.requests ==> SoundRequest(s, c)
    ensures Unanswered(s, c, key)
    ensures Apply(s, e).requests[c].Checked? && !s.requests[c].Checked? ==> key !in s.bank.processed && e == LookUp(c)
  {
    assert c in s.requests;
    assert Apply(s, e).calls[c].key == s.calls[c].key && Apply(s, e).calls[c].request == s.calls[c].request;
  }

  lemma CheckedOverlapped(s: System, e: Event, c: nat, key: Key)
    requires Inv(s) && Enabled(s, e) && key in Apply(s, e).bank.processed
    requires Unanswered(Apply(s, e), c, key) && Apply(s, e).requests[c].Checked?
    ensures Overlapping(s, key)
  {
    assert c in s.requests ==> SoundRequest(s, c);
    UnansweredBefore(s, e, c, key);
    if key !in s.bank.processed {
      // So the key moved in this very step, beside c.
      assert e.LockedMove? && e.call != c && SoundRequest(s, e.call) && Unanswered(s, e.call, key);
    }
  }

  lemma PairOverlapped(s: System, e: Event, c: nat, d: nat, key: Key)
    requires Inv(s) && Enabled(s, e) && key !in Apply(s, e).bank.processed
    requires c != d && Unanswered(Apply(s, e), c, key) && Unanswered(Apply(s, e), d, key)
    ensures Overlapping(s, key) || (Careless(s, e) && PostsFor(s, e, key))
  {
    assert c in s.requests ==> SoundRequest(s, c);
    assert d in s.requests ==> SoundRequest(s, d);
    if e.Post? && e.call == c {
      UnansweredBefore(s, e, d, key);
    } else if e.Post? && e.call == d {
      UnansweredBefore(s, e, c, key);
    } else {
      UnansweredBefore(s, e, c, key);
      UnansweredBefore(s, e, d, key);
    }
  }

  lemma OverlapNeedsPost(s: System, e: Event, key: Key)
    requires Inv(s) && Enabled(s, e) && Overlapping(Apply(s, e), key)
    ensures Overlapping(s, key) || (Careless(s, e) && PostsFor(s, e, key))
  {
    var t := Apply(s, e);
    if key in t.bank.processed {
      var c: nat :| Unanswered(t, c, key) && t.requests[c].Checked?;
      CheckedOverlapped(s, e, c, key);
    } else {
      var c: nat, d: nat :| c != d && Unanswered(t, c, key) && Unanswered(t, d, key);
      PairOverlapped(s, e, c, d, key);
    }
  }

  lemma StepKeepsSafe(s: System, e: Event, key: Key)
    requires Inv(s) && Enabled(s, e) && Safe(s, key) && !(Careless(s, e) && PostsFor(s, e, key))
    ensures Safe(Apply(s, e), key)
  {
    if Overlapping(Apply(s, e), key) { OverlapNeedsPost(s, e, key); }
    if e.LockedMove? && s.calls[e.call].key == key {
      assert SoundRequest(s, e.call) && Unanswered(s, e.call, key);
    }
    OneMoveMore(s, e, key);
  }

  /** A run in which nobody posts carelessly. */
  ghost predicate Careful(s: System, events: seq<Event>)
    decreases |events|
  {
    events == [] || (Enabled(s, events[0]) && !Careless(s, events[0]) && Careful(Apply(s, events[0]), events[1..]))
  }

  lemma {:induction false} CarefulKeepsSafe(s: System, events: seq<Event>, t: System, key: Key)
    requires Inv(s) && Executes(s, events, t) && Careful(s, events) && Safe(s, key)
    ensures Safe(t, key)
    decreases |events|
  {
    if events != [] {
      StepKeepsInv(s, events[0]);
      StepKeepsSafe(s, events[0], key);
      CarefulKeepsSafe(Apply(s, events[0]), events[1..], t, key);
    }
  }

  ghost predicate CarefullyReached(t: System) {
    exists events :: Executes(INITIAL, events, t) && Careful(INITIAL, events)
  }

  /** Money moves at most once per key in every run without a careless post. */
  lemma MovesOnce(t: System)
    requires CarefullyReached(t)
    ensures forall i, j :: 0 <= i < j < |t.bank.moves| ==> t.bank.moves[i].key != t.bank.moves[j].key
    ensures forall key :: Safe(t, key)
  {
    var events :| Executes(INITIAL, events, t) && Careful(INITIAL, events);
    forall key ensures Safe(t, key) { CarefulKeepsSafe(INITIAL, events, t, key); }
    forall i, j | 0 <= i < j < |t.bank.moves| ensures t.bank.moves[i].key != t.bank.moves[j].key {
      assert Safe(t, t.bank.moves[i].key);
    }
  }

  /** A caller that gets its transaction back had exactly its own payload moved; and once, if nobody posted
      carelessly. */
  lemma ReturnMeansMoved(t: System, k: nat) returns (i: nat)
    requires Reachable(t) && k in t.calls && t.calls[k].stage.Returned?
    ensures var r, row := t.calls[k].request, t.calls[k].stage.row;
            && i < |t.bank.moves|
            && t.bank.moves[i] == Move(t.calls[k].key, r.source, r.destination, r.amount)
            && row.source == r.source && row.destination == r.destination && row.amount == r.amount
            && row.description == Text.Trim(r.description)
            && (CarefullyReached(t) ==>
                 forall j :: 0 <= j < |t.bank.moves| && t.bank.moves[j].key == t.calls[k].key ==> j == i)
  {
    ReachableInv(t);
    var key := t.calls[k].key;
    assert SoundCall(t, k, t.calls[k]);
    assert Moved(t.bank, key);
    i :| 0 <= i < |t.bank.moves| && t.bank.moves[i].key == key;
    assert MoveMatches(t.rows, t.bank.moves[i]);
    if CarefullyReached(t) { MovesOnce(t); }
  }

  // ---- a careless post can move a key twice ------------------------------------------------------------

  /** u comes after t in some run in which nobody posts for the key any more. */
  ghost predicate Follows(t: System, key: Key, u: System) { exists events :: Quiet(t, events, key, u) }

  ghost predicate Quiet(t: System, events: seq<Event>, key: Key, u: System)
    decreases |events|
  {
    if events == [] then t == u
    else Enabled(t, events[0]) && !PostsFor(t, events[0], key) && Quiet(Apply(t, events[0]), events[1..], key, u)
  }

  lemma {:induction false} QuietKeepsSafe(t: System, events: seq<Event>, key: Key, u: System)
    requires Inv(t) && Safe(t, key) && Quiet(t, events, key, u)
    ensures Safe(u, key)
    decreases |events|
  {
    if events != [] {
      StepKeepsInv(t, events[0]);
      StepKeepsSafe(t, events[0], key);
      QuietKeepsSafe(Apply(t, events[0]), events[1..], key, u);
    }
  }

  lemma Stays(t: System, key: Key)
    ensures Follows(t, key, t)
  {
    assert Quiet(t, [], key, t);
  }

  lemma {:induction false} QuietExtends(t: System, events: seq<Event>, key: Key, m: System, e: Event)
    requires Quiet(t, events, key, m) && Enabled(m, e) && !PostsFor(m, e, key)
    ensures Quiet(t, events + [e], key, Apply(m, e))
    decreases |events|
  {
    if events == [] {
      assert [e][1..] == [] && Quiet(Apply(m, e), [], key, Apply(m, e));
    } else {
      assert (events + [e])[1..] == events[1..] + [e];
      QuietExtends(Apply(t, events[0]), events[1..], key, m, e);
    }
  }

  lemma Goes(t: System, key: Key, m: System, e: Event) returns (u: System)
    requires Follows(t, key, m) && Inv(m) && Enabled(m, e) && !PostsFor(m, e, key)
    ensures u == Apply(m, e) && Follows(t, key, u) && Inv(u)
  {
    var events :| Quiet(t, events, key, m);
    QuietExtends(t, events, key, m, e);
    StepKeepsInv(m, e);
    u := Apply(m, e);
  }

  /** Both accounts exist, and the source holds so much. */
  predicate Funded(b: Bank, r: Request, amount: int) {
    r.source in b.balances && r.destination in b.balances && b.balances[r.source] >= amount
  }

  /** Deposits can always provide the funds. */
  lemma Deposit(t: System, key: Key, m: System, r: Request, amount: nat) returns (u: System)
    requires Follows(t, key, m) && Inv(m)
    ensures Follows(t, key, u) && Inv(u) && Funded(u.bank, r, amount)
    ensures u.calls == m.calls && u.requests == m.requests && u.rows == m.rows
    ensures u.bank.moves == m.bank.moves && u.bank.processed == m.bank.processed
  {
    assert Balance(m.bank.balances, r.source) >= 0;
    u := Goes(t, key, m, Other(r.source, amount));
    assert Balance(u.bank.balances, r.source) >= amount && Balance(u.bank.balances, r.destination) >= 0;
    u := Goes(t, key, u, Other(r.destination, 0));
  }

  lemma GoChecked(t: System, key: Key, m: System, c: nat) returns (u: System)
    requires Follows(t, key, m) && Inv(m) && Unanswered(m, c, key) && key !in m.bank.processed
    ensures Follows(t, key, u) && Inv(u) && Unanswered(u, c, key) && u.requests == m.requests[c := Checked]
    ensures u.bank == m.bank && u.calls == m.calls && u.rows == m.rows
  {
    u := m;
    if m.requests[c].Arrived? { u := Goes(t, key, m, LookUp(c)); }
  }

  lemma GoMoved(t: System, key: Key, m: System, c: nat, left: nat) returns (u: System)
    requires Follows(t, key, m) && Inv(m) && Unanswered(m, c, key) && m.requests[c].Checked?
    requires Funded(m.bank, m.calls[c].request, m.calls[c].request.amount + left)
    ensures Follows(t, key, u) && Inv(u) && Funded(u.bank, m.calls[c].request, left)
    ensures u.calls == m.calls && u.requests.Keys == m.requests.Keys
    ensures forall d :: d in m.requests && d != c ==> u.requests[d] == m.requests[d]
    ensures |u.bank.moves| == |m.bank.moves| + 1 && m.bank.moves <= u.bank.moves
              && u.bank.moves[|m.bank.moves|].key == key
  {
    u := Goes(t, key, m, LockedMove(c));
  }

  /** One request past the test moves a key that moved before once more. */
  lemma LateMove(t: System, key: Key, m: System, c: nat) returns (u: System)
    requires Follows(t, key, m) && Inv(m) && key in m.bank.processed && Unanswered(m, c, key) && m.requests[c].Checked?
    ensures Follows(t, key, u) && MovedTwice(u.bank, key)
  {
    assert Moved(m.bank, key);
    var i :| 0 <= i < |m.bank.moves| && m.bank.moves[i].key == key;
    var funded := Deposit(t, key, m, m.calls[c].request, m.calls[c].request.amount);
    u := GoMoved(t, key, funded, c, 0);
    assert u.bank.moves[i] == m.bank.moves[i];
  }

  /** Two unanswered requests for a key can both come past the test before either moves. */
  lemma BothPass(t: System, key: Key, c: nat, d: nat) returns (u: System)
    requires Inv(t) && key !in t.bank.processed && c != d && Unanswered(t, c, key) && Unanswered(t, d, key)
    ensures Follows(t, key, u) && Inv(u) && u.calls == t.calls
    ensures Unanswered(u, c, key) && u.requests[c].Checked? && Unanswered(u, d, key) && u.requests[d].Checked?
  {
    Stays(t, key);
    var m := GoChecked(t, key, t, c);
    u := GoChecked(t, key, m, d);
  }

  lemma NextIsReady(t: System, key: Key, m: System, c: nat, d: nat, left: nat) returns (u: System)
    requires Follows(t, key, m) && Inv(m) && c != d
    requires Unanswered(m, c, key) && m.requests[c].Checked? && Unanswered(m, d, key) && m.requests[d].Checked?
    requires Funded(m.bank, m.calls[c].request, m.calls[c].request.amount + left)
    ensures Follows(t, key, u) && Inv(u) && Unanswered(u, d, key) && u.requests[d].Checked? && u.calls == m.calls
    ensures Funded(u.bank, m.calls[c].request, left) && key in u.bank.processed
  {
    u := GoMoved(t, key, m, c, left);
    assert Moved(u.bank, key);
  }

  lemma BothMoveOn(t: System, key: Key, m: System, c: nat, d: nat) returns (u: System)
    requires Follows(t, key, m) && Inv(m) && c != d
    requires Unanswered(m, c, key) && m.requests[c].Checked? && Unanswered(m, d, key) && m.requests[d].Checked?
    ensures Follows(t, key, u) && MovedTwice(u.bank, key)
  {
    var amount := m.calls[c].request.amount;
    var funded := Deposit(t, key, m, m.calls[c].request, amount);
    var once := NextIsReady(t, key, funded, c, d, 0);
    u := LateMove(t, key, once, d);
  }

  lemma OverlapMovesTwice(t: System, key: Key) returns (u: System)
    requires Inv(t) && Overlapping(t, key)
    ensures Follows(t, key, u) && MovedTwice(u.bank, key)
  {
    if key in t.bank.processed {
      var c: nat :| Unanswered(t, c, key) && t.requests[c].Checked?;
      Stays(t, key);
      u := LateMove(t, key, t, c);
    } else {
      var c: nat, d: nat :| c != d && Unanswered(t, c, key) && Unanswered(t, d, key);
      var m := BothPass(t, key, c, d);
      u := BothMoveOn(t, key, m, c, d);
    }
  }

  /** From here on, without another post for the key, it can have moved twice exactly if it has already, or its
      requests overlap. */
  lemma SecondMoveExactly(t: System, key: Key)
    requires Reachable(t)
    ensures (exists u :: Follows(t, key, u) && MovedTwice(u.bank, key)) <==> !Safe(t, key)
  {
    ReachableInv(t);
    if MovedTwice(t.bank, key) {
      Stays(t, key);
    } else if Overlapping(t, key) {
      var u := OverlapMovesTwice(t, key);
    } else {
      forall u | Follows(t, key, u) ensures !MovedTwice(u.bank, key) {
        var events :| Quiet(t, events, key, u);
        QuietKeepsSafe(t, events, key, u);
      }
    }
  }

  /** While a key is safe, one more post for it makes a second move possible exactly if it is careless: a caller that
      waits until no request for its key is unanswered, or knows that the key has moved, never causes one. */
  lemma PostIsSafeExactly(t: System, call: nat)
    requires Reachable(t) && Enabled(t, Post(call)) && Safe(t, t.calls[call].key)
    ensures var key, u := t.calls[call].key, Apply(t, Post(call));
            (exists v :: Follows(u, key, v) && MovedTwice(v.bank, key)) <==> Careless(t, Post(call))
  {
    ReachableInv(t);
    var key, u := t.calls[call].key, Apply(t, Post(call));
    StepKeepsInv(t, Post(call));
    if Careless(t, Post(call)) {
      var d :| d != call && Unanswered(t, d, key);
      assert Unanswered(u, call, key) && Unanswered(u, d, key);
      var v := OverlapMovesTwice(u, key);
    } else {
      StepKeepsSafe(t, Post(call), key);
      forall v | Follows(u, key, v) ensures !MovedTwice(v.bank, key) {
        var events :| Quiet(u, events, key, v);
        QuietKeepsSafe(u, events, key, v);
      }
    }
  }

  // ---- concrete runs -----------------------------------------------------------------------------------

  lemma {:induction false} Extend(s: System, events: seq<Event>, t: System, e: Event)
    requires Executes(s, events, t) && Enabled(t, e)
    ensures Executes(s, events + [e], Apply(t, e))
    ensures Careful(s, events) && !Careless(t, e) ==> Careful(s, events + [e])
    decreases |events|
  {
    if events == [] {
      OneStep(t, e);
      assert [e][1..] == [];
    } else {
      assert (events + [e])[1..] == events[1..] + [e];
      Extend(Apply(s, events[0]), events[1..], t, e);
    }
  }

  /** One more step, careful if all before it were. */
  lemma Hop(t: System, e: Event) returns (u: System)
    requires Reachable(t) && Enabled(t, e) && !e.Post?
    ensures u == Apply(t, e) && Reachable(u) && (CarefullyReached(t) ==> CarefullyReached(u))
  {
    u := HopCareful(t, e);
  }

  lemma HopCareful(t: System, e: Event) returns (u: System)
    requires Reachable(t) && Enabled(t, e)
    ensures u == Apply(t, e) && Reachable(u)
    ensures CarefullyReached(t) && !Careless(t, e) ==> CarefullyReached(u)
  {
    var events :| Executes(INITIAL, events, t) && (CarefullyReached(t) ==> Careful(INITIAL, events));
    Extend(INITIAL, events, t, e);
    u := Apply(t, e);
  }

  lemma HopPost(t: System, call: nat) returns (u: System)
    requires Reachable(t) && At(t, call, (p: Stage) => p.Applying?)
    ensures u == Apply(t, Post(call)) && Reachable(u)
    ensures CarefullyReached(t) && (forall d :: d in t.requests ==> t.requests[d].Answered?) ==> CarefullyReached(u)
  {
    u := HopCareful(t, Post(call));
  }

  /** Two calls with one key and one payload have both read the row; neither has reached the account service. */
  predicate BothApplying(t: System, r: Request, funds: int) {
    && t.calls == map[0 := Call(7, r, Applying), 1 := Call(7, r, Applying)]
    && t.requests == map[] && t.rows == map[7 := NewRow(r)]
    && t.bank == Bank(map[1 := funds, 2 := 0], {}, [], map[1 := funds, 2 := 0])
  }

  lemma CallBegins(t: System, call: nat, r: Request) returns (u: System)
    requires Reachable(t) && call !in t.calls
    ensures Reachable(u) && (CarefullyReached(t) ==> CarefullyReached(u))
    ensures u == t.(calls := t.calls[call := Call(7, r, Inserting)])
  {
    u := Hop(t, Begin(call, 7, r));
  }

  lemma CallInserts(t: System, call: nat, r: Request) returns (u: System)
    requires Reachable(t) && call !in t.calls && (t.rows == map[] || t.rows == map[7 := NewRow(r)])
    ensures Reachable(u) && (CarefullyReached(t) ==> CarefullyReached(u))
    ensures u == t.(rows := map[7 := NewRow(r)], calls := t.calls[call := Call(7, r, Reading)])
  {
    var m := CallBegins(t, call, r);
    u := Hop(m, Insert(call));
    assert u.rows == map[7 := NewRow(r)] && u.calls == t.calls[call := Call(7, r, Reading)];
  }

  lemma CallReads(t: System, call: nat, r: Request) returns (u: System)
    requires Reachable(t) && call !in t.calls && (t.rows == map[] || t.rows == map[7 := NewRow(r)])
    ensures Reachable(u) && (CarefullyReached(t) ==> CarefullyReached(u))
    ensures u == t.(rows := map[7 := NewRow(r)], calls := t.calls[call := Call(7, r, Applying)])
  {
    var m := CallInserts(t, call, r);
    u := Hop(m, Read(call));
    assert u.calls == t.calls[call := Call(7, r, Applying)];
  }

  /** A posted request goes past the test of its key. */
  lemma PostPasses(t: System, call: nat) returns (u: System)
    requires Reachable(t) && At(t, call, (p: Stage) => p.Applying?)
    requires ValidTransfer(t.calls[call].request) && t.calls[call].key !in t.bank.processed
    ensures Reachable(u)
    ensures CarefullyReached(t) && (forall d :: d in t.requests ==> t.requests[d].Answered?) ==> CarefullyReached(u)
    ensures u == t.(calls := t.calls[call := t.calls[call].(stage := Awaiting)],
                    requests := t.requests[call := Checked])
  {
    var m := HopPost(t, call);
    u := Hop(m, LookUp(call));
    assert u.requests == t.requests[call := Checked];
  }

  /** Its locked part runs and the caller gets the answer. */
  lemma MoveIsAnswered(t: System, call: nat) returns (u: System)
    requires Reachable(t) && At(t, call, (p: Stage) => p.Awaiting?) && call in t.requests && t.requests[call].Checked?
    ensures Reachable(u) && (CarefullyReached(t) ==> CarefullyReached(u))
    ensures var c := t.calls[call];
            var (bank, reply) := MoveLocked(t.bank, c.key, c.request);
            u == t.(bank := bank, requests := t.requests[call := Answered(reply)],
                    calls := t.calls[call := c.(stage := if reply.Done? then Completing else Failing(reply.code))])
  {
    var m := Hop(t, LockedMove(call));
    u := Hop(m, Receive(call));
  }

  lemma TwoCallsRead(r: Request, funds: nat) returns (t: System)
    ensures CarefullyReached(t) && Reachable(t) && BothApplying(t, r, funds)
  {
    assert Executes(INITIAL, [], INITIAL) && Careful(INITIAL, []);
    t := Hop(INITIAL, Other(1, funds));
    t := Hop(t, Other(2, 0));
    assert t.bank == Bank(map[1 := funds, 2 := 0], {}, [], map[1 := funds, 2 := 0]);
    t := CallReads(t, 0, r);
    t := CallReads(t, 1, r);
  }

  lemma BothChecked(r: Request) returns (t: System)
    requires r == Request(1, 2, 10, "")
    ensures Reachable(t) && t.bank == Bank(map[1 := 20, 2 := 0], {}, [], map[1 := 20, 2 := 0])
    ensures t.requests == map[0 := Checked, 1 := Checked]
    ensures t.calls == map[0 := Call(7, r, Awaiting), 1 := Call(7, r, Awaiting)]
  {
    var both := TwoCallsRead(r, 20);
    var one := PostPasses(both, 0);
    t := PostPasses(one, 1);
  }

  /** A run that ends with two moves of one key: two callers with one payload post it, the account service looks both
      up, and each then gets the locks in turn. */
  lemma KeyMovesTwice() returns (t: System)
    ensures Reachable(t) && !CarefullyReached(t) && MovedTwice(t.bank, 7)
    ensures t.bank.moves == [Move(7, 1, 2, 10), Move(7, 1, 2, 10)] && Balance(t.bank.balances, 2) == 20
  {
    var r := Request(1, 2, 10, "");
    var m := BothChecked(r);
    t := BothMove(m, r);
    assert t.bank.moves[0].key == 7 && t.bank.moves[1].key == 7;
    TwiceIsCareless(t, 7);
  }

  lemma TwiceIsCareless(t: System, key: Key)
    requires MovedTwice(t.bank, key)
    ensures !CarefullyReached(t)
  {
    if CarefullyReached(t) { MovesOnce(t); }
  }

  lemma BothMove(t: System, r: Request) returns (u: System)
    requires Reachable(t) && t.bank == Bank(map[1 := 20, 2 := 0], {}, [], map[1 := 20, 2 := 0])
    requires t.requests == map[0 := Checked, 1 := Checked] && r == Request(1, 2, 10, "")
    requires t.calls == map[0 := Call(7, r, Awaiting), 1 := Call(7, r, Awaiting)]
    ensures Reachable(u) && u.bank.moves == [Move(7, 1, 2, 10), Move(7, 1, 2, 10)]
    ensures Balance(u.bank.balances, 2) == 20
  {
    u := Hop(t, LockedMove(0));
    u := Hop(u, LockedMove(1));
  }
}
