/** Any number of concurrent, retried or abandoned ExecuteAsync calls over one payments table.
    Each event is one SQL statement, one issuer answer or the end of a call; a call may stop at any point.
    The issuer is unconstrained: it may answer two requests for one id differently. */
module PaymentProtocol {
  import opened Options
  import opened Payments
  import opened Text
  import Luhn

  datatype Failure = Conflict | IssuerUnavailable | Abandoned

  /** Where one call of ExecuteAsync is. */
  datatype Stage =
    | Inserting
    | Reading
    | Asking
    | Deciding(decision: Decision)
    | Rereading
    | Returned(payment: Payment)
    | Failed(failure: Failure)

  datatype Call = Call(id: Guid, request: Request, pan: Pan, stage: Stage) {
    function Canonical(): Canonical { Normalise(request, pan) }
  }

  datatype System = System(
    rows: map<Guid, Row>,
    calls: map<nat, Call>,
    asked: set<(Guid, Request)>,        // every request sent to the issuer
    answers: set<(Guid, Decision)>)     // every answer it gave

  datatype Event =
    | Begin(call: nat, id: Guid, request: Request, year: int, month: int)
    | Insert(call: nat, now: int)
    | Read(call: nat)
    | Answer(call: nat, decision: Decision)
    | IssuerFails(call: nat, failure: Failure)
    | Decide(call: nat, now: int)
    | Reread(call: nat)
    | Abandon(call: nat)

  const INITIAL := System(map[], map[], {}, {})

  predicate At(s: System, call: nat, stage: Stage -> bool) { call in s.calls && stage(s.calls[call].stage) }

  predicate Enabled(s: System, e: Event) {
    match e
    case Begin(call, _, _, _, _) => call !in s.calls
    case Insert(call, _) => At(s, call, (p: Stage) => p.Inserting?)
    case Read(call) => At(s, call, (p: Stage) => p.Reading?)
    case Answer(call, _) => At(s, call, (p: Stage) => p.Asking?)
    case IssuerFails(call, failure) => At(s, call, (p: Stage) => p.Asking?) && failure in {Conflict, IssuerUnavailable}
    case Decide(call, _) => At(s, call, (p: Stage) => p.Deciding?)
    case Reread(call) => At(s, call, (p: Stage) => p.Rereading?)
    case Abandon(call) => At(s, call, (p: Stage) => !p.Returned? && !p.Failed?)
  }

  function Move(s: System, call: nat, stage: Stage): System
    requires call in s.calls
  {
    s.(calls := s.calls[call := s.calls[call].(stage := stage)])
  }

  function Apply(s: System, e: Event): System
    requires Enabled(s, e)
  {
    match e
    case Begin(call, id, request, year, month) =>
      var pan := Validate(request, year, month);
      // A request that fails validation is refused before anything is touched.
      if pan == None then s else s.(calls := s.calls[call := Call(id, request, pan.value, Inserting)])
    case Insert(call, now) =>
      var c := s.calls[call];
      Move(s, call, Reading).(rows :=
        Inserted(s.rows, c.id, NewRow(c.request, c.pan, Fingerprint(c.request, c.pan), now)))
    case Read(call) =>
      var c := s.calls[call];
      if c.id !in s.rows then Move(s, call, Failed(Abandoned))
      else if s.rows[c.id].hash != Fingerprint(c.request, c.pan) then Move(s, call, Failed(Conflict))
      else if s.rows[c.id].status == CAPTURED || s.rows[c.id].status == DECLINED then
        Move(s, call, Returned(ReadPayment(c.id, s.rows[c.id])))
      else Move(s, call, Asking).(asked := s.asked + {(c.id, c.request)})
    case Answer(call, decision) =>
      var c := s.calls[call];
      Move(s, call, if ValidDecision(c.id, Upper(Trim(c.request.paymentType)), c.pan, decision)
                    then Deciding(decision) else Failed(IssuerUnavailable))
      .(answers := s.answers + {(c.id, decision)})
    case IssuerFails(call, failure) => Move(s, call, Failed(failure))
    case Decide(call, now) =>
      var c := s.calls[call];
      Move(s, call, Rereading).(rows := Decided(s.rows, c.id, c.stage.decision, now))
    case Reread(call) =>
      var c := s.calls[call];
      if c.id !in s.rows then Move(s, call, Failed(Abandoned))
      else Move(s, call, Returned(ReadPayment(c.id, s.rows[c.id])))
    case Abandon(call) => Move(s, call, Failed(Abandoned))
  }

  // ---- the invariant -----------------------------------------------------------------------------------

  /** The stored columns are those of the hashed canonical request. */
  predicate Faithful(row: Row) {
    var c := row.hash.canonical;
    && row.merchantId == c.merchantId && row.orderId == c.orderId && row.amount == c.amount
    && row.currency == c.currency && row.description == c.description && row.last4 == Last4(c.pan)
    && row.paymentType == c.paymentType && row.installments == c.installments
  }

  /** The outcome columns are an answer the issuer gave and ValidDecision accepted. */
  predicate Settles(row: Row, id: Guid, d: Decision) {
    && ValidDecision(id, row.hash.canonical.paymentType, row.hash.canonical.pan, d)
    && row.status == d.status && row.authorizationCode == d.authorizationCode
    && row.declineCode == d.declineCode && row.cardType == d.cardType && row.completedAt.Some?
  }

  ghost predicate SoundRow(s: System, id: Guid, row: Row) {
    && Faithful(row)
    && if row.status == PENDING then row.completedAt == None
       else exists d :: (id, d) in s.answers && Settles(row, id, d)
  }

  /** What validation settles about the parts of a request that the fingerprint reads in another form. */
  predicate Readable(r: Request, pan: Pan) {
    Upper(r.currency) == "BRL" && pan == Filter(r.card.number, Luhn.IsDigit)
  }

  /** A request was sent only under an id whose row holds its fingerprint. */
  predicate SoundQuestion(s: System, id: Guid, r: Request) {
    && |Filter(r.card.number, Luhn.IsDigit)| == 16 && Upper(r.currency) == "BRL"
    && id in s.rows && s.rows[id].hash == Keyed(Normalise(r, Filter(r.card.number, Luhn.IsDigit)))
  }

  predicate SoundCall(s: System, c: Call) {
    && Readable(c.request, c.pan)
    && (c.stage.Reading? ==> c.id in s.rows)
    && (c.stage.Asking? || c.stage.Deciding? || c.stage.Rereading? || c.stage.Returned? ==>
          c.id in s.rows && s.rows[c.id].hash == Keyed(c.Canonical()))
    && (c.stage.Deciding? ==>
          && (c.id, c.stage.decision) in s.answers
          && ValidDecision(c.id, c.Canonical().paymentType, c.pan, c.stage.decision))
    && (c.stage.Rereading? ==> s.rows[c.id].status != PENDING)
    && (c.stage.Returned? ==>
          s.rows[c.id].status != PENDING && c.stage.payment == ReadPayment(c.id, s.rows[c.id]))
  }

  ghost predicate Inv(s: System) {
    && (forall id :: id in s.rows ==> SoundRow(s, id, s.rows[id]))
    && (forall k :: k in s.calls ==> SoundCall(s, s.calls[k]))
    && (forall q :: q in s.asked ==> SoundQuestion(s, q.0, q.1))
  }

  /** What happens to a row from one state to a later one: identity, request columns and hash never change,
      and once decided nothing changes. */
  predicate Advances(before: Row, after: Row) {
    && after.hash == before.hash && after.createdAt == before.createdAt
    && (before.status != PENDING ==> after == before)
  }

  predicate RowsAdvance(s: System, t: System) {
    forall id :: id in s.rows ==> id in t.rows && Advances(s.rows[id], t.rows[id])
  }

  ghost predicate Later(s: System, t: System) {
    && RowsAdvance(s, t)
    && (forall k :: k in s.calls ==> k in t.calls && t.calls[k].(stage := s.calls[k].stage) == s.calls[k])
    && s.asked <= t.asked && s.answers <= t.answers
  }

  /** Only the insert and the guarded update write the table, each to the row of its own call. */
  lemma RowAfterStep(s: System, e: Event, id: Guid)
    requires Enabled(s, e) && id in Apply(s, e).rows && (id in s.rows ==> SoundRow(s, id, s.rows[id]))
    requires e.call in s.calls ==> SoundCall(s, s.calls[e.call])
    ensures id in s.rows ==> Advances(s.rows[id], Apply(s, e).rows[id])
    ensures s.answers <= Apply(s, e).answers && SoundRow(Apply(s, e), id, Apply(s, e).rows[id])
  {
    if id !in s.rows {
      InsertedRow(s, e, id);
    } else if s.rows[id].status != PENDING {
      SettledRow(s, e, id);
    } else if e.Decide? && s.calls[e.call].id == id {
      DecidedRow(s, e, id);
    } else {
      assert Apply(s, e).rows[id] == s.rows[id];
    }
  }

  lemma SettledRow(s: System, e: Event, id: Guid)
    requires Enabled(s, e) && id in s.rows && s.rows[id].status != PENDING && SoundRow(s, id, s.rows[id])
    ensures id in Apply(s, e).rows && Apply(s, e).rows[id] == s.rows[id]
    ensures SoundRow(Apply(s, e), id, s.rows[id])
  {
    var d :| (id, d) in s.answers && Settles(s.rows[id], id, d);
    assert (id, d) in Apply(s, e).answers;
  }

  lemma InsertedRow(s: System, e: Event, id: Guid)
    requires Enabled(s, e) && id in Apply(s, e).rows && id !in s.rows
    requires e.call in s.calls ==> SoundCall(s, s.calls[e.call])
    ensures SoundRow(Apply(s, e), id, Apply(s, e).rows[id])
  {
    CurrencyIsTrimmed(s.calls[e.call].request.currency);
  }

  lemma DecidedRow(s: System, e: Event, id: Guid)
    requires Enabled(s, e) && e.Decide? && s.calls[e.call].id == id && SoundCall(s, s.calls[e.call])
    requires id in s.rows && s.rows[id].status == PENDING && SoundRow(s, id, s.rows[id])
    ensures id in Apply(s, e).rows && Advances(s.rows[id], Apply(s, e).rows[id])
    ensures SoundRow(Apply(s, e), id, Apply(s, e).rows[id])
  {
    assert Settles(Apply(s, e).rows[id], id, s.calls[e.call].stage.decision);
  }

  /** What is known of a call survives the progress of its row. */
  lemma SoundCallLasts(s: System, t: System, c: Call)
    requires SoundCall(s, c) && s.answers <= t.answers
    requires c.id in s.rows ==> c.id in t.rows && Advances(s.rows[c.id], t.rows[c.id])
    ensures SoundCall(t, c)
  {
  }

  lemma MovedCall(s: System, e: Event)
    requires Enabled(s, e) && e.call in s.calls && SoundCall(s, s.calls[e.call])
    requires var id := s.calls[e.call].id;
             id in s.rows ==> id in Apply(s, e).rows && Advances(s.rows[id], Apply(s, e).rows[id])
    ensures SoundCall(Apply(s, e), Apply(s, e).calls[e.call])
    ensures Apply(s, e).calls[e.call].(stage := s.calls[e.call].stage) == s.calls[e.call]
  {
  }

  lemma CallAfterStep(s: System, e: Event, k: nat)
    requires Enabled(s, e) && k in Apply(s, e).calls && (k in s.calls ==> SoundCall(s, s.calls[k]))
    requires RowsAdvance(s, Apply(s, e)) && s.answers <= Apply(s, e).answers
    ensures SoundCall(Apply(s, e), Apply(s, e).calls[k])
    ensures k in s.calls ==> Apply(s, e).calls[k].(stage := s.calls[k].stage) == s.calls[k]
  {
    if k !in s.calls {
      assert Apply(s, e).calls[k].stage == Inserting;
    } else if k != e.call {
      SoundCallLasts(s, Apply(s, e), s.calls[k]);
    } else {
      MovedCall(s, e);
    }
  }

  lemma AskedAfterStep(s: System, e: Event, q: (Guid, Request))
    requires Enabled(s, e) && q in Apply(s, e).asked && RowsAdvance(s, Apply(s, e))
    requires q in s.asked ==> SoundQuestion(s, q.0, q.1)
    requires e.call in s.calls ==> SoundCall(s, s.calls[e.call])
    ensures SoundQuestion(Apply(s, e), q.0, q.1)
  {
  }

  lemma RowsAfterStep(s: System, e: Event, t: System)
    requires Enabled(s, e) && t == Apply(s, e) && (e.call in s.calls ==> SoundCall(s, s.calls[e.call]))
    requires forall id :: id in s.rows ==> SoundRow(s, id, s.rows[id])
    ensures RowsAdvance(s, t) && s.answers <= t.answers
    ensures forall id :: id in t.rows ==> SoundRow(t, id, t.rows[id])
  {
    RowsStay(s, e);
    forall id | id in t.rows
      ensures SoundRow(t, id, t.rows[id]) && (id in s.rows ==> Advances(s.rows[id], t.rows[id]))
    {
      RowAfterStep(s, e, id);
    }
  }

  lemma RowsStay(s: System, e: Event)
    requires Enabled(s, e)
    ensures s.rows.Keys <= Apply(s, e).rows.Keys && s.answers <= Apply(s, e).answers
  {
  }

  lemma CallsAfterStep(s: System, e: Event, t: System)
    requires Enabled(s, e) && t == Apply(s, e) && forall k :: k in s.calls ==> SoundCall(s, s.calls[k])
    requires RowsAdvance(s, t) && s.answers <= t.answers
    ensures forall k :: k in t.calls ==> SoundCall(t, t.calls[k])
    ensures forall k :: k in s.calls ==> k in t.calls && t.calls[k].(stage := s.calls[k].stage) == s.calls[k]
  {
    forall k | k in t.calls
      ensures SoundCall(t, t.calls[k]) && (k in s.calls ==> t.calls[k].(stage := s.calls[k].stage) == s.calls[k])
    {
      CallAfterStep(s, e, k);
    }
  }

  lemma AllAskedAfterStep(s: System, e: Event, t: System)
    requires Enabled(s, e) && t == Apply(s, e) && RowsAdvance(s, t)
    requires forall q :: q in s.asked ==> SoundQuestion(s, q.0, q.1)
    requires e.call in s.calls ==> SoundCall(s, s.calls[e.call])
    ensures s.asked <= t.asked && forall q :: q in t.asked ==> SoundQuestion(t, q.0, q.1)
  {
    forall q | q in t.asked ensures SoundQuestion(t, q.0, q.1) {
      AskedAfterStep(s, e, q);
    }
  }

  lemma StepKeepsInv(s: System, e: Event)
    requires Inv(s) && Enabled(s, e)
    ensures Inv(Apply(s, e)) && Later(s, Apply(s, e))
  {
    RowsAfterStep(s, e, Apply(s, e));
    CallsAfterStep(s, e, Apply(s, e));
    AllAskedAfterStep(s, e, Apply(s, e));
  }

  // ---- over whole runs ---------------------------------------------------------------------------------

  ghost predicate Executes(s: System, events: seq<Event>, t: System)
    decreases |events|
  {
    if events == [] then s == t
    else Enabled(s, events[0]) && Executes(Apply(s, events[0]), events[1..], t)
  }

  ghost predicate Reachable(t: System) { exists events :: Executes(INITIAL, events, t) }

  lemma LaterIsTransitive(s: System, m: System, t: System)
    requires Later(s, m) && Later(m, t)
    ensures Later(s, t)
  {
    forall id | id in s.rows ensures id in t.rows && Advances(s.rows[id], t.rows[id]) {
      assert id in m.rows && Advances(s.rows[id], m.rows[id]);
    }
    forall k | k in s.calls ensures k in t.calls && t.calls[k].(stage := s.calls[k].stage) == s.calls[k] {
      assert k in m.calls && m.calls[k].(stage := s.calls[k].stage) == s.calls[k];
      assert t.calls[k].(stage := m.calls[k].stage) == m.calls[k];
    }
  }

  /** The request hash of an id is written once, and a decided payment never changes again. */
  lemma {:induction false} HistoryIsKept(s: System, events: seq<Event>, t: System)
    requires Inv(s) && Executes(s, events, t)
    ensures Inv(t) && Later(s, t)
    decreases |events|
  {
    if events != [] {
      var m := Apply(s, events[0]);
      StepKeepsInv(s, events[0]);
      HistoryIsKept(m, events[1..], t);
      LaterIsTransitive(s, m, t);
    }
  }

  lemma ReachableInv(t: System)
    requires Reachable(t)
    ensures Inv(t)
  {
    var events :| Executes(INITIAL, events, t);
    HistoryIsKept(INITIAL, events, t);
  }

  predicate Succeeded(t: System, k: nat) { At(t, k, (p: Stage) => p.Returned?) }

  /** All successful calls with one id return the same payment, whatever the issuer told each of them. */
  lemma Agreement(t: System, a: nat, b: nat)
    requires Reachable(t) && Succeeded(t, a) && Succeeded(t, b) && t.calls[a].id == t.calls[b].id
    ensures t.calls[a].stage.payment == t.calls[b].stage.payment
  {
    ReachableInv(t);
    assert SoundCall(t, t.calls[a]) && SoundCall(t, t.calls[b]);
  }

  // ---- what the fingerprint compares -------------------------------------------------------------------

  /** The decimal digits of a text, in order. */
  function DigitsOf(s: string): string {
    if s == "" then "" else (if '0' <= s[0] <= '9' then [s[0]] else "") + DigitsOf(s[1..])
  }

  lemma {:induction false} PanIsDigits(s: string)
    ensures Filter(s, Luhn.IsDigit) == DigitsOf(s)
  {
    if s != "" { PanIsDigits(s[1..]); }
  }

  lemma PrintsAgreeExactly(a: Request, b: Request, panA: Pan, panB: Pan)
    requires Readable(a, panA) && Readable(b, panB)
    ensures Keyed(Normalise(a, panA)) == Keyed(Normalise(b, panB)) <==>
      && Trim(a.merchantId) == Trim(b.merchantId) && Trim(a.merchantName) == Trim(b.merchantName)
      && a.orderId == b.orderId && a.amount == b.amount && Upper(a.currency) == Upper(b.currency)
      && Trim(a.description) == Trim(b.description) && DigitsOf(a.card.number) == DigitsOf(b.card.number)
      && Trim(a.card.holderName) == Trim(b.card.holderName) && a.card.expiryMonth == b.card.expiryMonth
      && a.card.expiryYear == b.card.expiryYear && a.card.cvv == b.card.cvv
      && Upper(Trim(a.paymentType)) == Upper(Trim(b.paymentType)) && a.installments == b.installments
  {
    PanIsDigits(a.card.number);
    PanIsDigits(b.card.number);
    CurrencyIsTrimmed(a.currency);
    CurrencyIsTrimmed(b.currency);
  }

  lemma HashOfFirst(s: System, a: nat, now: int, events: seq<Event>, t: System, b: nat)
    requires Reachable(s) && Enabled(s, Insert(a, now)) && s.calls[a].id !in s.rows
    requires Executes(Apply(s, Insert(a, now)), events, t) && b in t.calls
    ensures Readable(s.calls[a].request, s.calls[a].pan) && Readable(t.calls[b].request, t.calls[b].pan)
    ensures s.calls[a].id in t.rows
            && t.rows[s.calls[a].id].hash == Keyed(Normalise(s.calls[a].request, s.calls[a].pan))
  {
    ReachableInv(s);
    var m, c := Apply(s, Insert(a, now)), s.calls[a];
    StepKeepsInv(s, Insert(a, now));
    HistoryIsKept(m, events, t);
    assert SoundCall(s, c) && SoundCall(t, t.calls[b]);
    assert m.rows[c.id].hash == Keyed(Normalise(c.request, c.pan)) && Advances(m.rows[c.id], t.rows[c.id]);
  }

  /** What a read makes of its call. */
  function Outcome(t: System, b: nat): Stage
    requires Enabled(t, Read(b))
  {
    Apply(t, Read(b)).calls[b].stage
  }

  lemma ReadOutcome(t: System, b: nat)
    requires Enabled(t, Read(b)) && t.calls[b].id in t.rows
    ensures var c, stage := t.calls[b], Outcome(t, b);
            var row := t.rows[c.id];
            if row.hash != Keyed(Normalise(c.request, c.pan)) then stage == Failed(Conflict)
            else if row.status in {"CAPTURED", "DECLINED"} then stage == Returned(ReadPayment(c.id, row))
            else stage == Asking && (c.id, c.request) in Apply(t, Read(b)).asked
  {
  }

  /** After the insert of call a made the row of an id, a read of call b with that id ends in a conflict exactly if the
      two requests differ in one of these; otherwise it returns what is decided, or asks the issuer. */
  lemma ReadConflictsExactly(s: System, a: nat, now: int, events: seq<Event>, t: System, b: nat)
    requires Reachable(s) && Enabled(s, Insert(a, now)) && s.calls[a].id !in s.rows
    requires Executes(Apply(s, Insert(a, now)), events, t)
    requires Enabled(t, Read(b)) && t.calls[b].id == s.calls[a].id
    ensures Outcome(t, b) == Failed(Conflict) <==>
      var p, q := s.calls[a].request, t.calls[b].request;
      || Trim(p.merchantId) != Trim(q.merchantId) || Trim(p.merchantName) != Trim(q.merchantName)
      || p.orderId != q.orderId || p.amount != q.amount || Upper(p.currency) != Upper(q.currency)
      || Trim(p.description) != Trim(q.description) || DigitsOf(p.card.number) != DigitsOf(q.card.number)
      || Trim(p.card.holderName) != Trim(q.card.holderName) || p.card.expiryMonth != q.card.expiryMonth
      || p.card.expiryYear != q.card.expiryYear || p.card.cvv != q.card.cvv
      || Upper(Trim(p.paymentType)) != Upper(Trim(q.paymentType)) || p.installments != q.installments
    ensures Outcome(t, b) == Failed(Conflict) || Outcome(t, b) == Asking ||
      (Outcome(t, b).Returned? && Outcome(t, b).payment.status in {"CAPTURED", "DECLINED"})
  {
    HashOfFirst(s, a, now, events, t, b);
    PrintsAgreeExactly(s.calls[a].request, t.calls[b].request, s.calls[a].pan, t.calls[b].pan);
    ReadOutcome(t, b);
  }

  /** Every row was made by such an insert. */
  lemma {:induction false} RowHasOrigin(s: System, events: seq<Event>, t: System, id: Guid)
      returns (before: seq<Event>, m: System, a: nat, now: int, after: seq<Event>)
    requires Executes(s, events, t) && id !in s.rows && id in t.rows
    ensures Executes(s, before, m) && Enabled(m, Insert(a, now)) && m.calls[a].id == id && id !in m.rows
    ensures Executes(Apply(m, Insert(a, now)), after, t)
    decreases |events|
  {
    var e := events[0];
    if id in Apply(s, e).rows {
      assert e.Insert? && s.calls[e.call].id == id;
      before, m, a, now, after := [], s, e.call, e.now, events[1..];
    } else {
      before, m, a, now, after := RowHasOrigin(Apply(s, e), events[1..], t, id);
      assert ([e] + before)[1..] == before;
      before := [e] + before;
    }
  }

  /** The payment is a repeat of the caller's own normalised request together with an answer of the issuer for it:
      captured with an authorization code alone, or declined with a decline code alone. */
  lemma ReturnsOwnRequestDecided(t: System, k: nat) returns (d: Decision)
    requires Reachable(t) && Succeeded(t, k)
    ensures var p, r := t.calls[k].stage.payment, t.calls[k].request;
            && p.paymentId == t.calls[k].id && (p.paymentId, d) in t.answers
            && p.merchantId == Trim(r.merchantId) && p.orderId == r.orderId && p.amount == r.amount
            && p.currency == "BRL" && p.description == Trim(r.description)
            && |DigitsOf(r.card.number)| == 16 && p.last4 == DigitsOf(r.card.number)[12..]
            && p.paymentType == Upper(Trim(r.paymentType)) && p.installments == r.installments
            && p.cardType == p.paymentType && p.completedAt.Some?
            && p.status == d.status && p.authorizationCode == d.authorizationCode && p.declineCode == d.declineCode
    ensures AcceptedAnswer(t.calls[k], d)
  {
    ReachableInv(t);
    var c := t.calls[k];
    var id := c.id;
    assert SoundCall(t, c) && SoundRow(t, id, t.rows[id]);
    PanIsDigits(c.request.card.number);
    CurrencyIsTrimmed(c.request.currency);
    d :| (id, d) in t.answers && Settles(t.rows[id], id, d);
    AnswerIsAccepted(c, d);
  }

  /** What the coordinator asks of an answer, field by field. */
  predicate AcceptedAnswer(c: Call, d: Decision) {
    var digits := DigitsOf(c.request.card.number);
    && d.paymentId == c.id && |digits| == 16 && d.last4 == [digits[12], digits[13], digits[14], digits[15]]
    && d.cardType == Some(Upper(Trim(c.request.paymentType)))
    && ( || (&& d.status == "CAPTURED" && d.authorizationCode.Some? && Trim(d.authorizationCode.value) != ""
             && |d.authorizationCode.value| <= 20 && (d.declineCode.None? || Trim(d.declineCode.value) == ""))
         || (&& d.status == "DECLINED" && (d.authorizationCode.None? || Trim(d.authorizationCode.value) == "")
             && d.declineCode.Some? && Trim(d.declineCode.value) != "" && |d.declineCode.value| <= 40))
  }

  lemma AnswerIsAccepted(c: Call, d: Decision)
    requires Readable(c.request, c.pan)
    ensures ValidDecision(c.id, Upper(Trim(c.request.paymentType)), c.pan, d) <==> AcceptedAnswer(c, d)
  {
    PanIsDigits(c.request.card.number);
    assert Trim("") == "";
    assert Last4(c.pan) == [c.pan[12], c.pan[13], c.pan[14], c.pan[15]];
  }

  /** An answer is taken exactly if it is acceptable for the call; otherwise the call fails. */
  lemma AnswerTakenExactly(s: System, k: nat, d: Decision)
    requires Reachable(s) && Enabled(s, Answer(k, d))
    ensures Apply(s, Answer(k, d)).calls[k].stage ==
            if AcceptedAnswer(s.calls[k], d) then Deciding(d) else Failed(IssuerUnavailable)
  {
    ReachableInv(s);
    assert SoundCall(s, s.calls[k]);
    AnswerIsAccepted(s.calls[k], d);
  }

  lemma FinishedAfterStep(s: System, e: Event, k: nat)
    requires Enabled(s, e) && k in s.calls && (s.calls[k].stage.Returned? || s.calls[k].stage.Failed?)
    ensures k in Apply(s, e).calls && Apply(s, e).calls[k] == s.calls[k]
  {
  }

  /** A call that has returned or failed never changes again. */
  lemma {:induction false} FinishedStays(s: System, events: seq<Event>, t: System, k: nat)
    requires Executes(s, events, t) && k in s.calls && (s.calls[k].stage.Returned? || s.calls[k].stage.Failed?)
    ensures k in t.calls && t.calls[k] == s.calls[k]
    decreases |events|
  {
    if events != [] {
      FinishedAfterStep(s, events[0], k);
      FinishedStays(Apply(s, events[0]), events[1..], t, k);
    }
  }

  /** A caller whose normalised request differs from the stored one never reaches the issuer or a result,
      and its read ends in a conflict. */
  lemma DifferentRequestConflicts(t: System, k: nat)
    requires Reachable(t) && k in t.calls && t.calls[k].id in t.rows
    requires t.rows[t.calls[k].id].hash.canonical != t.calls[k].Canonical()
    ensures t.calls[k].stage.Inserting? || t.calls[k].stage.Reading? || t.calls[k].stage.Failed?
    ensures (t.calls[k].id, t.calls[k].request) !in t.asked
    ensures t.calls[k].stage.Reading? ==> Apply(t, Read(k)).calls[k].stage == Failed(Conflict)
  {
    ReachableInv(t);
    var c := t.calls[k];
    assert SoundCall(t, c);
    assert (c.id, c.request) in t.asked ==> SoundQuestion(t, (c.id, c.request).0, (c.id, c.request).1);
  }

  /** However many calls ask it, the issuer sees one normalised request per id. */
  lemma IssuerSeesOneRequest(t: System, id: Guid, a: Request, b: Request)
    requires Reachable(t) && (id, a) in t.asked && (id, b) in t.asked
    ensures Trim(a.merchantId) == Trim(b.merchantId) && Trim(a.merchantName) == Trim(b.merchantName)
    ensures a.orderId == b.orderId && a.amount == b.amount && Upper(a.currency) == Upper(b.currency) == "BRL"
    ensures Trim(a.description) == Trim(b.description) && DigitsOf(a.card.number) == DigitsOf(b.card.number)
    ensures Trim(a.card.holderName) == Trim(b.card.holderName) && a.card.expiryMonth == b.card.expiryMonth
    ensures a.card.expiryYear == b.card.expiryYear && a.card.cvv == b.card.cvv
    ensures Upper(Trim(a.paymentType)) == Upper(Trim(b.paymentType)) && a.installments == b.installments
  {
    ReachableInv(t);
    assert SoundQuestion(t, (id, a).0, (id, a).1) && SoundQuestion(t, (id, b).0, (id, b).1);
    PrintsAgreeExactly(a, b, Filter(a.card.number, Luhn.IsDigit), Filter(b.card.number, Luhn.IsDigit));
  }

  // ---- the table class ---------------------------------------------------------------------------------

  /** The repository's statements, driven by any event, keep the table equal to the protocol's rows; what the
      selects return is what the protocol's reads go by. */
  method Perform(table: PaymentTable, s: System, e: Event) returns (found: Option<(Payment, Hash)>)
    requires Enabled(s, e) && table.rows == s.rows
    modifies table
    ensures table.rows == Apply(s, e).rows
    ensures e.Read? ==> (Apply(s, e).calls[e.call].stage == Failed(Conflict) <==>
                           found.Some? && found.value.1 != Keyed(s.calls[e.call].Canonical()))
    ensures e.Reread? && found.Some? ==> Apply(s, e).calls[e.call].stage == Returned(found.value.0)
  {
    found := None;
    match e {
      case Insert(call, now) =>
        var c := s.calls[call];
        table.InsertIfAbsent(c.id, c.request, c.pan, Fingerprint(c.request, c.pan), now);
      case Read(call) => found := table.SelectWithHash(s.calls[call].id);
      case Decide(call, now) => table.UpdateIfPending(s.calls[call].id, s.calls[call].stage.decision, now);
      case Reread(call) => found := table.SelectWithHash(s.calls[call].id);
      case _ =>
    }
  }
}
