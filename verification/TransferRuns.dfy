/** Whole runs of the transfer protocol: what they keep in every interleaving, and the retry that completes a row. */
module TransferRuns {
  import opened Options
  import opened Text
  import opened Transfers
  import opened TransferProtocol

  // ---- over whole runs ---------------------------------------------------------------------------------

  ghost predicate Executes(s: System, events: seq<Event>, t: System)
    decreases |events|
  {
    if events == [] then s == t
    else Enabled(s, events[0]) && Executes(Apply(s, events[0]), events[1..], t)
  }

  ghost predicate Reachable(t: System) { exists events :: Executes(INITIAL, events, t) }

  /** A row's payload never changes, a completion time is never cleared, and a move is never undone. */
  lemma {:induction false} HistoryIsKept(s: System, events: seq<Event>, t: System)
    requires Inv(s) && Executes(s, events, t)
    ensures Inv(t) && Later(s, t)
    decreases |events|
  {
    if events != [] {
      var m := Apply(s, events[0]);
      StepKeepsInv(s, events[0]);
      HistoryIsKept(m, events[1..], t);
      forall key | key in s.rows ensures key in t.rows && Advances(s.rows[key], t.rows[key]) {
        assert key in m.rows && Advances(s.rows[key], m.rows[key]);
      }
    }
  }

  lemma ReachableInv(t: System)
    requires Reachable(t)
    ensures Inv(t)
  {
    var events :| Executes(INITIAL, events, t);
    HistoryIsKept(INITIAL, events, t);
  }

  /** In every reachable state, however requests overlap: every move is the payload of the row with its key; no
      account is overdrawn; each balance is the outside money plus the moves, so their total is the outside total;
      a completion time means that money moved. */
  lemma TransferSafety(t: System)
    requires Reachable(t)
    ensures MovesMatchRows(t)
    ensures forall a: Account :: Balance(t.bank.balances, a) >= 0
                                 && Balance(t.bank.balances, a) == Balance(t.bank.external, a) + Net(t.bank.moves, a)
    ensures Total(t.bank.balances) == Total(t.bank.external)
    ensures forall key :: key in t.rows && (t.rows[key].completedAt.Some? || t.rows[key].status == Completed)
                          ==> Moved(t.bank, key)
  {
    ReachableInv(t);
    forall key | key in t.rows && (t.rows[key].completedAt.Some? || t.rows[key].status == Completed)
      ensures Moved(t.bank, key)
    {
      assert SoundRow(t.bank.processed, key, t.rows[key]);
    }
  }

  /** What a read makes of its call. */
  function Outcome(t: System, b: nat): Stage
    requires Enabled(t, Read(b))
  {
    Apply(t, Read(b)).calls[b].stage
  }

  lemma PayloadOfFirst(s: System, a: nat, events: seq<Event>, t: System)
    requires Reachable(s) && Enabled(s, Insert(a)) && s.calls[a].key !in s.rows
    requires Executes(Apply(s, Insert(a)), events, t)
    ensures var p, key := s.calls[a].request, s.calls[a].key;
            && key in t.rows && t.rows[key].source == p.source && t.rows[key].destination == p.destination
            && t.rows[key].amount == p.amount && t.rows[key].description == Trim(p.description)
  {
    ReachableInv(s);
    var m, key := Apply(s, Insert(a)), s.calls[a].key;
    StepKeepsInv(s, Insert(a));
    HistoryIsKept(m, events, t);
    assert key in m.rows && Advances(m.rows[key], t.rows[key]);
  }

  /** After the insert of call a made the row of a key, a read of call b with that key stops it exactly if source,
      destination, amount or trimmed description differ; otherwise it returns a completed row, or goes on. */
  lemma ReadStopsExactly(s: System, a: nat, events: seq<Event>, t: System, b: nat)
    requires Reachable(s) && Enabled(s, Insert(a)) && s.calls[a].key !in s.rows
    requires Executes(Apply(s, Insert(a)), events, t)
    requires Enabled(t, Read(b)) && t.calls[b].key == s.calls[a].key
    ensures Outcome(t, b) == Stopped <==>
      var p, q := s.calls[a].request, t.calls[b].request;
      || p.source != q.source || p.destination != q.destination || p.amount != q.amount
      || Trim(p.description) != Trim(q.description)
    ensures t.calls[b].key in t.rows && (Outcome(t, b) == Stopped || Outcome(t, b) ==
      if t.rows[t.calls[b].key].status == Completed then Returned(t.rows[t.calls[b].key]) else Applying)
  {
    PayloadOfFirst(s, a, events, t);
  }

  /** Every row was made by such an insert. */
  lemma {:induction false} RowHasOrigin(s: System, events: seq<Event>, t: System, key: Key)
      returns (before: seq<Event>, m: System, a: nat, after: seq<Event>)
    requires Executes(s, events, t) && key !in s.rows && key in t.rows
    ensures Executes(s, before, m) && Enabled(m, Insert(a)) && m.calls[a].key == key && key !in m.rows
    ensures Executes(Apply(m, Insert(a)), after, t)
    decreases |events|
  {
    var e := events[0];
    if key in Apply(s, e).rows {
      assert e.Insert? && s.calls[e.call].key == key;
      before, m, a, after := [], s, e.call, events[1..];
    } else {
      before, m, a, after := RowHasOrigin(Apply(s, e), events[1..], t, key);
      assert ([e] + before)[1..] == before;
      before := [e] + before;
    }
  }

  lemma FinishedAfterStep(s: System, e: Event, k: nat)
    requires Enabled(s, e) && k in s.calls && (s.calls[k].stage.Returned? || s.calls[k].stage.Stopped?)
    ensures k in Apply(s, e).calls && Apply(s, e).calls[k] == s.calls[k]
  {
  }

  /** A call that has returned or stopped never changes again. */
  lemma {:induction false} FinishedStays(s: System, events: seq<Event>, t: System, k: nat)
    requires Executes(s, events, t) && k in s.calls && (s.calls[k].stage.Returned? || s.calls[k].stage.Stopped?)
    ensures k in t.calls && t.calls[k] == s.calls[k]
    decreases |events|
  {
    if events != [] {
      FinishedAfterStep(s, events[0], k);
      FinishedStays(Apply(s, events[0]), events[1..], t, k);
    }
  }

  /** A call whose payload differs from the stored one never reaches the account service or a result. */
  lemma DifferentPayloadStops(t: System, k: nat)
    requires Reachable(t) && k in t.calls && t.calls[k].key in t.rows
    requires !SamePayload(t.rows[t.calls[k].key], t.calls[k].request)
    ensures t.calls[k].stage.Inserting? || t.calls[k].stage.Reading? || t.calls[k].stage.Stopped?
    ensures k !in t.requests
    ensures t.calls[k].stage.Reading? ==> Apply(t, Read(k)).calls[k].stage == Stopped
  {
    ReachableInv(t);
    assert SoundCall(t, k, t.calls[k]);
    assert k in t.requests ==> SoundRequest(t, k);
  }

  // ---- building runs -----------------------------------------------------------------------------------

  lemma Prepend(s: System, e: Event, events: seq<Event>, t: System)
    requires Enabled(s, e) && Executes(Apply(s, e), events, t)
    ensures Executes(s, [e] + events, t)
  {
    assert ([e] + events)[1..] == events;
  }

  lemma {:induction false} Chained(s: System, first: seq<Event>, m: System, second: seq<Event>, t: System)
    requires Executes(s, first, m) && Executes(m, second, t)
    ensures Executes(s, first + second, t)
    decreases |first|
  {
    if first == [] {
      assert first + second == second;
    } else {
      assert (first + second)[1..] == first[1..] + second;
      Chained(Apply(s, first[0]), first[1..], m, second, t);
    }
  }

  lemma OneStep(s: System, e: Event)
    requires Enabled(s, e)
    ensures Executes(s, [e], Apply(s, e))
  {
    assert [e][1..] == [];
    assert Executes(Apply(s, e), [], Apply(s, e));
  }

  // ---- one retry ---------------------------------------------------------------------------------------

  /** The first three steps of a retry, and the rest once the account service knows the key. */
  function Retry(call: nat, key: Key, r: Request): seq<Event> { [Begin(call, key, r), Insert(call), Read(call)] }

  function Asking(call: nat): seq<Event> { [Post(call), LookUp(call), Receive(call)] }

  function Settling(call: nat, now: int): seq<Event> { [Complete(call, now), ReadBack(call)] }

  lemma RetryReads(t: System, key: Key, r: Request, call: nat) returns (u: System)
    requires call !in t.calls && key in t.rows && SamePayload(t.rows[key], r) && t.rows[key].status != Completed
    ensures Executes(t, Retry(call, key, r), u)
    ensures u == t.(calls := t.calls[call := Call(key, r, Applying)])
  {
    var a := Apply(t, Begin(call, key, r));
    var b := Apply(a, Insert(call));
    u := Apply(b, Read(call));
    Prepend(b, Read(call), [], u);
    Prepend(a, Insert(call), [Read(call)], u);
    Prepend(t, Begin(call, key, r), [Insert(call), Read(call)], u);
  }

  lemma RetryAsks(t: System, key: Key, r: Request, call: nat) returns (u: System)
    requires call in t.calls && t.calls[call] == Call(key, r, Applying) && key in t.bank.processed && ValidTransfer(r)
    ensures Executes(t, Asking(call), u)
    ensures u.bank == t.bank && u.rows == t.rows && u.calls == t.calls[call := Call(key, r, Completing)]
  {
    var a := Apply(t, Post(call));
    var b := Apply(a, LookUp(call));
    u := Apply(b, Receive(call));
    Prepend(b, Receive(call), [], u);
    Prepend(a, LookUp(call), [Receive(call)], u);
    Prepend(t, Post(call), [LookUp(call), Receive(call)], u);
  }

  lemma RetrySettles(t: System, key: Key, r: Request, call: nat, now: int) returns (u: System)
    requires call in t.calls && t.calls[call] == Call(key, r, Completing) && key in t.rows
    ensures Executes(t, Settling(call, now), u)
    ensures u.bank == t.bank && u.rows == Updated(t.rows, key, Completed, None, now)
    ensures call in u.calls && u.calls[call].stage == Returned(u.rows[key])
  {
    var a := Apply(t, Complete(call, now));
    u := Apply(a, ReadBack(call));
    Prepend(a, ReadBack(call), [], u);
    Prepend(t, Complete(call, now), [ReadBack(call)], u);
  }

  /** Whatever the row says after the money moved, one retry with the same payload, given its turns, completes it
      and moves nothing. */
  lemma RetryCompletes(t: System, key: Key, r: Request, call: nat, now: int) returns (events: seq<Event>, u: System)
    requires Reachable(t) && key in t.bank.processed && call !in t.calls
    requires key in t.rows && SamePayload(t.rows[key], r) && t.rows[key].status != Completed
    ensures Executes(t, events, u) && events == Retry(call, key, r) + (Asking(call) + Settling(call, now))
    ensures u.bank == t.bank && u.rows.Keys == t.rows.Keys && u.rows[key].status == Completed
    ensures call in u.calls && u.calls[call].stage == Returned(u.rows[key]) && u.rows[key].completedAt == Some(now)
  {
    ReachableInv(t);
    ProcessedIsValid(t, key);
    var m := RetryReads(t, key, r, call);
    var n := RetryAsks(m, key, r, call);
    u := RetrySettles(n, key, r, call, now);
    Chained(m, Asking(call), n, Settling(call, now), u);
    Chained(t, Retry(call, key, r), m, Asking(call) + Settling(call, now), u);
    events := Retry(call, key, r) + (Asking(call) + Settling(call, now));
  }

  lemma ProcessedIsValid(t: System, key: Key)
    requires Inv(t) && key in t.bank.processed
    ensures key in t.rows && t.rows[key].source != t.rows[key].destination && t.rows[key].amount > 0
  {
    assert Moved(t.bank, key);
    var i :| 0 <= i < |t.bank.moves| && t.bank.moves[i].key == key;
    assert MoveMatches(t.rows, t.bank.moves[i]);
  }
}
