/** Concurrent ExecuteAsync calls of the transfer service over the account service. Each event is one SQL statement,
    one part of an account-service request, one message between the two, or the end of a call. A request runs on its
    own once it is posted: its caller may be gone before it is looked up, moved or answered. */
module TransferProtocol {
  import opened Options
  import opened Transfers
  import opened Text

  /** Where a call of ExecuteAsync is. */
  datatype Stage =
    | Inserting
    | Reading
    | Applying
    | Awaiting
    | Completing
    | Failing(code: string)
    | ReadingBack
    | Returned(row: Row)
    | Stopped

  /** Where the account service is with the request of a call. */
  datatype Progress = Arrived | Checked | Answered(reply: Reply)

  datatype Call = Call(key: Key, request: Request, stage: Stage)

  datatype System = System(bank: Bank, rows: map<Key, Row>, calls: map<nat, Call>, requests: map<nat, Progress>)

  datatype Event =
    | Begin(call: nat, key: Key, request: Request)
    | Insert(call: nat)
    | Read(call: nat)
    | Post(call: nat)
    | LookUp(call: nat)
    | LockedMove(call: nat)
    | RollBack(call: nat)
    | Receive(call: nat)
    | Complete(call: nat, now: int)
    | Fail(call: nat, now: int)
    | ReadBack(call: nat)
    | Abandon(call: nat)
    | Other(account: Account, delta: int)

  const INITIAL := System(Bank(map[], {}, [], map[]), map[], map[], map[])

  predicate At(s: System, call: nat, stage: Stage -> bool) { call in s.calls && stage(s.calls[call].stage) }

  predicate Serving(s: System, call: nat, progress: Progress -> bool) {
    call in s.requests && call in s.calls && progress(s.requests[call])
  }

  predicate Enabled(s: System, e: Event) {
    match e
    case Begin(call, _, _) => call !in s.calls
    case Insert(call) => At(s, call, (p: Stage) => p.Inserting?)
    case Read(call) => At(s, call, (p: Stage) => p.Reading?)
    case Post(call) => At(s, call, (p: Stage) => p.Applying?)
    case LookUp(call) => Serving(s, call, (p: Progress) => p.Arrived?)
    case LockedMove(call) => Serving(s, call, (p: Progress) => p.Checked?)
    case RollBack(call) => Serving(s, call, (p: Progress) => !p.Answered?)
    case Receive(call) => At(s, call, (p: Stage) => p.Awaiting?) && Serving(s, call, (p: Progress) => p.Answered?)
    case Complete(call, _) => At(s, call, (p: Stage) => p.Completing?)
    case Fail(call, _) => At(s, call, (p: Stage) => p.Failing?)
    case ReadBack(call) => At(s, call, (p: Stage) => p.ReadingBack?)
    case Abandon(call) => At(s, call, (p: Stage) => !p.Returned? && !p.Stopped?)
    case Other(account, delta) => Balance(s.bank.balances, account) + delta >= 0
  }

  function To(s: System, call: nat, stage: Stage): System
    requires call in s.calls
  {
    s.(calls := s.calls[call := s.calls[call].(stage := stage)])
  }

  function Apply(s: System, e: Event): System
    requires Enabled(s, e)
  {
    match e
    case Begin(call, key, request) => s.(calls := s.calls[call := Call(key, request, Inserting)])
    case Insert(call) => To(s, call, Reading).(rows := Inserted(s.rows, s.calls[call].key, s.calls[call].request))
    case Read(call) =>
      var c := s.calls[call];
      if c.key !in s.rows || !SamePayload(s.rows[c.key], c.request) then To(s, call, Stopped)
      else if s.rows[c.key].status == Completed then To(s, call, Returned(s.rows[c.key]))
      else To(s, call, Applying)
    case Post(call) => To(s, call, Awaiting).(requests := s.requests[call := Arrived])
    case LookUp(call) =>
      var reply := LookUpKey(s.bank, s.calls[call].key, s.calls[call].request);
      s.(requests := s.requests[call := if reply.Some? then Answered(reply.value) else Checked])
    case LockedMove(call) =>
      var (bank, reply) := MoveLocked(s.bank, s.calls[call].key, s.calls[call].request);
      s.(bank := bank, requests := s.requests[call := Answered(reply)])
    case RollBack(call) => s.(requests := s.requests - {call})
    case Receive(call) =>
      var reply := s.requests[call].reply;
      To(s, call, if reply.Done? then Completing else Failing(reply.code))
    case Complete(call, now) =>
      To(s, call, ReadingBack).(rows := Updated(s.rows, s.calls[call].key, Completed, None, now))
    case Fail(call, now) =>
      To(s, call, Stopped)
      .(rows := Updated(s.rows, s.calls[call].key, Failed, Some(s.calls[call].stage.code), now))
    case ReadBack(call) =>
      var c := s.calls[call];
      if c.key !in s.rows then To(s, call, Stopped) else To(s, call, Returned(s.rows[c.key]))
    case Abandon(call) => To(s, call, Stopped)
    case Other(account, delta) => s.(bank := OtherMoney(s.bank, account, delta))
  }

  // ---- the invariant -----------------------------------------------------------------------------------

  ghost predicate SoundBank(b: Bank) {
    && b.balances.Keys == b.external.Keys
    && Booked(b)
    && Total(b.balances) == Total(b.external)
    && KeysAreMoves(b)
  }

  /** No account is overdrawn, and each holds its outside money plus exactly what the moves did to it. */
  ghost predicate Booked(b: Bank) {
    forall a: Account :: Balance(b.balances, a) >= 0
        && Balance(b.balances, a) == Balance(b.external, a) + Net(b.moves, a)
  }

  /** A key is processed exactly if it moved, and only valid transfers moved. */
  ghost predicate KeysAreMoves(b: Bank) {
    && (forall k :: k in b.processed <==> Moved(b, k))
    && (forall i :: 0 <= i < |b.moves| ==> b.moves[i].source != b.moves[i].destination && b.moves[i].amount > 0)
  }

  ghost predicate Moved(b: Bank, k: Key) { exists i :: 0 <= i < |b.moves| && b.moves[i].key == k }

  predicate MoveMatches(rows: map<Key, Row>, m: Move) {
    m.key in rows && m.source == rows[m.key].source && m.destination == rows[m.key].destination
    && m.amount == rows[m.key].amount
  }

  /** Every move is the payload of the row with its key. */
  predicate MovesMatchRows(s: System) {
    forall i :: 0 <= i < |s.bank.moves| ==> MoveMatches(s.rows, s.bank.moves[i])
  }

  predicate SoundRow(processed: set<Key>, key: Key, row: Row) {
    && (row.completedAt.Some? ==> key in processed)
    && (row.status == Completed ==> row.completedAt.Some? && row.failureCode == None)
    && (row.status == Failed ==> row.failureCode.Some?)
  }

  predicate BeforePosting(p: Stage) { p.Inserting? || p.Reading? || p.Applying? }

  predicate SoundCall(s: System, k: nat, c: Call) {
    && (c.stage.Reading? ==> c.key in s.rows)
    && (!c.stage.Inserting? && !c.stage.Reading? && !c.stage.Stopped? ==>
          c.key in s.rows && SamePayload(s.rows[c.key], c.request))
    && (c.stage.Completing? || c.stage.ReadingBack? || c.stage.Returned? ==> c.key in s.bank.processed)
    && (c.stage.Returned? ==> SamePayload(c.stage.row, c.request))
    && (BeforePosting(c.stage) ==> k !in s.requests)
  }

  /** A request carries the payload of the row with its key, whatever became of its caller. */
  predicate SoundRequest(s: System, k: nat) {
    && k in s.requests && k in s.calls
    && var c := s.calls[k];
       && c.key in s.rows && SamePayload(s.rows[c.key], c.request)
       && (s.requests[k].Checked? ==> ValidTransfer(c.request))
       && (s.requests[k].Answered? && s.requests[k].reply.Done? ==> c.key in s.bank.processed)
  }

  ghost predicate Inv(s: System) {
    && SoundBank(s.bank)
    && MovesMatchRows(s)
    && (forall key :: key in s.rows ==> SoundRow(s.bank.processed, key, s.rows[key]))
    && (forall k :: k in s.calls ==> SoundCall(s, k, s.calls[k]))
    && (forall k :: k in s.requests ==> SoundRequest(s, k))
  }

  /** What no step takes back: payloads, the fact of completion, and the moves made. */
  predicate Advances(before: Row, after: Row) {
    && after.source == before.source && after.destination == before.destination
    && after.amount == before.amount && after.description == before.description
    && (before.completedAt.Some? ==> after.completedAt.Some?)
  }

  predicate RowsAdvance(s: System, t: System) {
    forall key :: key in s.rows ==> key in t.rows && Advances(s.rows[key], t.rows[key])
  }

  predicate Later(s: System, t: System) {
    && RowsAdvance(s, t)
    && s.bank.moves <= t.bank.moves
    && s.bank.processed <= t.bank.processed
  }

  // ---- what a step does to the bank --------------------------------------------------------------------

  lemma MoveKeepsKeys(b: Bank, key: Key, r: Request)
    requires KeysAreMoves(b) && ValidTransfer(r)
    ensures KeysAreMoves(MoveLocked(b, key, r).0)
  {
    var t := MoveLocked(b, key, r).0;
    if t != b {
      assert t.moves[|b.moves|].key == key;
      forall k ensures k in t.processed <==> Moved(t, k) {
        if Moved(b, k) {
          var i :| 0 <= i < |b.moves| && b.moves[i].key == k;
          assert t.moves[i].key == k;
        }
      }
    }
  }

  /** Whether it is applied or rejected, a transfer leaves the total balance as it was. */
  lemma TransferConserves(b: Bank, key: Key, r: Request)
    ensures Total(MoveLocked(b, key, r).0.balances) == Total(b.balances)
  {
    if MoveLocked(b, key, r).1 == Done(false) {
      var debited := b.balances[r.source := b.balances[r.source] - r.amount];
      TotalAfterUpdate(b.balances, r.source, b.balances[r.source] - r.amount);
      TotalAfterUpdate(debited, r.destination, Balance(debited, r.destination) + r.amount);
    }
  }

  lemma MoveIsBooked(b: Bank, key: Key, r: Request)
    requires Booked(b) && ValidTransfer(r)
    ensures Booked(MoveLocked(b, key, r).0)
  {
    var t := MoveLocked(b, key, r).0;
    if t != b {
      assert t.moves[..|b.moves|] == b.moves;
      forall a: Account
        ensures Balance(t.balances, a) >= 0 && Balance(t.balances, a) == Balance(t.external, a) + Net(t.moves, a)
      {
        assert Balance(b.balances, a) == Balance(b.external, a) + Net(b.moves, a);
      }
    }
  }

  lemma MoveKeepsBank(b: Bank, key: Key, r: Request)
    requires SoundBank(b) && ValidTransfer(r)
    ensures SoundBank(MoveLocked(b, key, r).0)
  {
    MoveKeepsKeys(b, key, r);
    TransferConserves(b, key, r);
    MoveIsBooked(b, key, r);
  }

  lemma OtherMoneyIsBooked(b: Bank, a: Account, delta: int)
    requires Booked(b) && Balance(b.balances, a) + delta >= 0
    ensures Booked(OtherMoney(b, a, delta))
  {
    var t := OtherMoney(b, a, delta);
    forall x: Account
      ensures Balance(t.balances, x) >= 0 && Balance(t.balances, x) == Balance(t.external, x) + Net(t.moves, x)
    {
      assert Balance(b.balances, x) == Balance(b.external, x) + Net(b.moves, x);
    }
  }

  lemma OtherMoneyKeepsBank(b: Bank, a: Account, delta: int)
    requires SoundBank(b) && Balance(b.balances, a) + delta >= 0
    ensures SoundBank(OtherMoney(b, a, delta))
  {
    TotalAfterUpdate(b.balances, a, Balance(b.balances, a) + delta);
    TotalAfterUpdate(b.external, a, Balance(b.external, a) + delta);
    OtherMoneyIsBooked(b, a, delta);
    var t := OtherMoney(b, a, delta);
    assert t.moves == b.moves && t.processed == b.processed;
    forall k ensures k in t.processed <==> Moved(t, k) {
      assert Moved(b, k) <==> Moved(t, k);
    }
  }

  lemma BankAfterStep(s: System, e: Event)
    requires Enabled(s, e) && SoundBank(s.bank) && (e.LockedMove? ==> SoundRequest(s, e.call))
    ensures SoundBank(Apply(s, e).bank)
    ensures s.bank.moves <= Apply(s, e).bank.moves && s.bank.processed <= Apply(s, e).bank.processed
  {
    if e.LockedMove? {
      MoveKeepsBank(s.bank, s.calls[e.call].key, s.calls[e.call].request);
    } else if e.Other? {
      OtherMoneyKeepsBank(s.bank, e.account, e.delta);
    }
  }

  // ---- what a step does to the rest --------------------------------------------------------------------

  lemma RowAfterStep(s: System, e: Event, key: Key)
    requires Enabled(s, e) && (key in s.rows ==> SoundRow(s.bank.processed, key, s.rows[key]))
    requires s.bank.processed <= Apply(s, e).bank.processed
    requires e.Complete? ==> SoundCall(s, e.call, s.calls[e.call])
    ensures key in s.rows ==> key in Apply(s, e).rows && Advances(s.rows[key], Apply(s, e).rows[key])
    ensures key in Apply(s, e).rows ==> SoundRow(Apply(s, e).bank.processed, key, Apply(s, e).rows[key])
  {
  }

  lemma MatchLasts(rows: map<Key, Row>, later: map<Key, Row>, m: Move)
    requires MoveMatches(rows, m) && m.key in later && Advances(rows[m.key], later[m.key])
    ensures MoveMatches(later, m)
  {
  }

  lemma NewMoveMatches(s: System, call: nat)
    requires Enabled(s, LockedMove(call)) && SoundRequest(s, call)
    ensures var t := Apply(s, LockedMove(call));
            t.rows == s.rows && (t.bank.moves == s.bank.moves
            || exists m :: t.bank.moves == s.bank.moves + [m] && MoveMatches(s.rows, m))
  {
    var c := s.calls[call];
    assert MoveMatches(s.rows, Transfers.Move(c.key, c.request.source, c.request.destination, c.request.amount));
  }

  lemma MovesAfterStep(s: System, e: Event)
    requires Enabled(s, e) && MovesMatchRows(s) && (e.LockedMove? ==> SoundRequest(s, e.call))
    requires RowsAdvance(s, Apply(s, e))
    ensures MovesMatchRows(Apply(s, e))
  {
    var t := Apply(s, e);
    if e.LockedMove? {
      NewMoveMatches(s, e.call);
    } else {
      forall i | 0 <= i < |t.bank.moves| ensures MoveMatches(t.rows, t.bank.moves[i]) {
        MatchLasts(s.rows, t.rows, s.bank.moves[i]);
      }
    }
  }

  /** What is known of a call lasts while it does not move itself. */
  lemma SoundCallLasts(s: System, t: System, k: nat, c: Call)
    requires SoundCall(s, k, c) && s.bank.processed <= t.bank.processed
    requires c.key in s.rows ==> c.key in t.rows && Advances(s.rows[c.key], t.rows[c.key])
    requires k !in s.requests ==> k !in t.requests
    ensures SoundCall(t, k, c)
  {
  }

  lemma MovedCall(s: System, e: Event, k: nat)
    requires Enabled(s, e) && !e.Other? && e.call == k && k in s.calls && SoundCall(s, k, s.calls[k])
    requires k in s.requests ==> SoundRequest(s, k)
    requires s.calls[k].key in s.rows ==> SoundRow(s.bank.processed, s.calls[k].key, s.rows[s.calls[k].key])
    requires s.bank.processed <= Apply(s, e).bank.processed
    ensures SoundCall(Apply(s, e), k, Apply(s, e).calls[k])
  {
  }

  /** What is known of a row, a call and a request before a step. */
  predicate SoundAt(s: System, k: nat) {
    && (k in s.requests ==> SoundRequest(s, k))
    && (k in s.calls ==> SoundCall(s, k, s.calls[k]))
    && (k in s.calls && s.calls[k].key in s.rows ==> SoundRow(s.bank.processed, s.calls[k].key, s.rows[s.calls[k].key]))
  }

  lemma OtherCall(s: System, e: Event, k: nat)
    requires Enabled(s, e) && k in s.calls && (e.Other? || e.call != k)
    ensures k in Apply(s, e).calls && Apply(s, e).calls[k] == s.calls[k]
    ensures k in Apply(s, e).requests <==> k in s.requests
    ensures k in s.requests ==> Apply(s, e).requests[k] == s.requests[k]
  {
  }

  lemma CallAfterStep(s: System, e: Event, k: nat)
    requires Enabled(s, e) && k in Apply(s, e).calls && SoundAt(s, k)
    requires s.bank.processed <= Apply(s, e).bank.processed && RowsAdvance(s, Apply(s, e))
    ensures SoundCall(Apply(s, e), k, Apply(s, e).calls[k])
  {
    if k !in s.calls {
      assert Apply(s, e).calls[k].stage == Inserting;
    } else if e.Other? || e.call != k {
      OtherCall(s, e, k);
      SoundCallLasts(s, Apply(s, e), k, s.calls[k]);
    } else {
      MovedCall(s, e, k);
    }
  }

  lemma MovedRequest(s: System, e: Event, k: nat)
    requires Enabled(s, e) && !e.Other? && e.call == k && k in Apply(s, e).requests
    requires k in s.requests ==> SoundRequest(s, k)
    requires k in s.calls ==> SoundCall(s, k, s.calls[k])
    requires s.bank.processed <= Apply(s, e).bank.processed
    ensures SoundRequest(Apply(s, e), k)
  {
  }

  lemma SoundRequestLasts(s: System, t: System, k: nat)
    requires SoundRequest(s, k) && s.bank.processed <= t.bank.processed
    requires k in t.calls && t.calls[k] == s.calls[k] && k in t.requests && t.requests[k] == s.requests[k]
    requires s.calls[k].key in t.rows && Advances(s.rows[s.calls[k].key], t.rows[s.calls[k].key])
    ensures SoundRequest(t, k)
  {
  }

  lemma RequestAfterStep(s: System, e: Event, k: nat)
    requires Enabled(s, e) && k in Apply(s, e).requests && SoundAt(s, k)
    requires s.bank.processed <= Apply(s, e).bank.processed && RowsAdvance(s, Apply(s, e))
    ensures SoundRequest(Apply(s, e), k)
  {
    if !e.Other? && e.call == k {
      MovedRequest(s, e, k);
    } else {
      assert k in s.requests;
      OtherCall(s, e, k);
      SoundRequestLasts(s, Apply(s, e), k);
    }
  }

  lemma RowsAfterStep(s: System, e: Event, t: System)
    requires Enabled(s, e) && t == Apply(s, e) && s.bank.processed <= t.bank.processed
    requires forall key :: key in s.rows ==> SoundRow(s.bank.processed, key, s.rows[key])
    requires e.Complete? ==> SoundCall(s, e.call, s.calls[e.call])
    ensures RowsAdvance(s, t) && forall key :: key in t.rows ==> SoundRow(t.bank.processed, key, t.rows[key])
  {
    forall key ensures (key in s.rows ==> key in t.rows && Advances(s.rows[key], t.rows[key]))
                       && (key in t.rows ==> SoundRow(t.bank.processed, key, t.rows[key])) {
      RowAfterStep(s, e, key);
    }
  }

  ghost predicate SoundThroughout(s: System) { forall k: nat :: SoundAt(s, k) }

  lemma SoundEverywhere(s: System)
    requires Inv(s)
    ensures SoundThroughout(s)
  {
    forall k: nat ensures SoundAt(s, k) {
      assert k in s.requests ==> SoundRequest(s, k);
      assert k in s.calls ==> SoundCall(s, k, s.calls[k]);
    }
  }

  lemma CallsAfterStep(s: System, e: Event, t: System)
    requires Enabled(s, e) && t == Apply(s, e) && SoundThroughout(s)
    requires s.bank.processed <= t.bank.processed && RowsAdvance(s, t)
    ensures forall k :: k in t.calls ==> SoundCall(t, k, t.calls[k])
    ensures forall k :: k in t.requests ==> SoundRequest(t, k)
  {
    forall k | k in t.calls ensures SoundCall(t, k, t.calls[k]) { CallAfterStep(s, e, k); }
    forall k | k in t.requests ensures SoundRequest(t, k) { RequestAfterStep(s, e, k); }
  }

  lemma StepKeepsInv(s: System, e: Event)
    requires Inv(s) && Enabled(s, e)
    ensures Inv(Apply(s, e)) && Later(s, Apply(s, e))
  {
    SoundEverywhere(s);
    if e.LockedMove? || e.Complete? { assert SoundAt(s, e.call); }
    BankAfterStep(s, e);
    RowsAfterStep(s, e, Apply(s, e));
    MovesAfterStep(s, e);
    CallsAfterStep(s, e, Apply(s, e));
  }

  // ---- the table class ---------------------------------------------------------------------------------

  /** The repository's statements, driven by any event, keep the table equal to the protocol's rows. */
  method Perform(table: TransactionTable, s: System, e: Event)
    requires Enabled(s, e) && table.rows == s.rows
    modifies table
    ensures table.rows == Apply(s, e).rows
  {
    match e {
      case Insert(call) => table.InsertIfAbsent(s.calls[call].key, s.calls[call].request);
      case Complete(call, now) => table.Update(s.calls[call].key, Completed, None, now);
      case Fail(call, now) => table.Update(s.calls[call].key, Failed, Some(s.calls[call].stage.code), now);
      case _ =>
    }
  }
}
