/** A payment call that nobody disturbs, from its beginning to its result. */
module PaymentRuns {
  import opened Options
  import opened Payments
  import opened PaymentProtocol

  /** One step takes s to t. */
  predicate Takes(s: System, e: Event, t: System) { Enabled(s, e) && t == Apply(s, e) }

  lemma Begins(t: System, k: nat, id: Guid, r: Request, year: int, month: int)
    requires k !in t.calls && Validate(r, year, month).Some?
    ensures Enabled(t, Begin(k, id, r, year, month))
    ensures Apply(t, Begin(k, id, r, year, month))
            == t.(calls := t.calls[k := Call(id, r, Validate(r, year, month).value, Inserting)])
  {
  }

  lemma Inserts(a: System, k: nat, c: Call, now: int)
    requires k in a.calls && a.calls[k] == c && c.stage == Inserting && c.id !in a.rows
    ensures Enabled(a, Insert(k, now))
    ensures Apply(a, Insert(k, now)) == a.(calls := a.calls[k := c.(stage := Reading)],
              rows := a.rows[c.id := NewRow(c.request, c.pan, Fingerprint(c.request, c.pan), now)])
  {
  }

  lemma Reads(b: System, k: nat, c: Call)
    requires k in b.calls && b.calls[k] == c && c.stage == Reading && c.id in b.rows
    requires b.rows[c.id].hash == Fingerprint(c.request, c.pan) && b.rows[c.id].status == "PENDING"
    ensures Enabled(b, Read(k))
    ensures Apply(b, Read(k)) == b.(calls := b.calls[k := c.(stage := Asking)], asked := b.asked + {(c.id, c.request)})
  {
  }

  lemma CallAsks(a: System, k: nat, c: Call, now: int) returns (b: System, m: System)
    requires k in a.calls && a.calls[k] == c && c.stage == Inserting && c.id !in a.rows
    ensures Takes(a, Insert(k, now), b) && Takes(b, Read(k), m)
    ensures m.calls == a.calls[k := c.(stage := Asking)] && m.asked == a.asked + {(c.id, c.request)}
    ensures m.rows == a.rows[c.id := NewRow(c.request, c.pan, Fingerprint(c.request, c.pan), now)]
  {
    Inserts(a, k, c, now);
    b := Apply(a, Insert(k, now));
    Reads(b, k, c.(stage := Reading));
    m := Apply(b, Read(k));
  }

  lemma CallDecides(m: System, k: nat, d: Decision, later: int) returns (x: System, y: System, u: System)
    requires k in m.calls && m.calls[k].stage == Asking && AcceptedAnswer(m.calls[k], d)
    requires Readable(m.calls[k].request, m.calls[k].pan)
    requires m.calls[k].id in m.rows && m.rows[m.calls[k].id].status == "PENDING"
    ensures Takes(m, Answer(k, d), x) && Takes(x, Decide(k, later), y) && Takes(y, Reread(k), u)
    ensures var id := m.calls[k].id;
            && u.rows == m.rows[id := Settled(m.rows[id], d, later)]
            && k in u.calls && u.calls[k].stage == Returned(ReadPayment(id, u.rows[id]))
  {
    AnswerIsAccepted(m.calls[k], d);
    x := Apply(m, Answer(k, d));
    y := Apply(x, Decide(k, later));
    u := Apply(y, Reread(k));
  }

  lemma BegunCallReturns(a: System, k: nat, c: Call, now: int, d: Decision, later: int)
      returns (b: System, m: System, x: System, y: System, u: System)
    requires k in a.calls && a.calls[k] == c && c.stage == Inserting && c.id !in a.rows
    requires Readable(c.request, c.pan) && AcceptedAnswer(c, d)
    ensures Takes(a, Insert(k, now), b) && Takes(b, Read(k), m)
    ensures Takes(m, Answer(k, d), x) && Takes(x, Decide(k, later), y) && Takes(y, Reread(k), u)
    ensures m.asked == a.asked + {(c.id, c.request)}
    ensures var row := Settled(NewRow(c.request, c.pan, Fingerprint(c.request, c.pan), now), d, later);
            u.rows == a.rows[c.id := row] && k in u.calls && u.calls[k].stage == Returned(ReadPayment(c.id, row))
  {
    b, m := CallAsks(a, k, c, now);
    x, y, u := CallDecides(m, k, d, later);
  }

  /** From any state, an acceptable request under a new id that is given its turns asks the issuer its own request;
      given an acceptable answer it returns that decision. Only the row of its id is new. */
  lemma UndisturbedCallReturns(t: System, k: nat, id: Guid, r: Request, year: int, month: int, now: int, d: Decision,
                               later: int)
      returns (a: System, b: System, m: System, x: System, y: System, u: System)
    requires k !in t.calls && id !in t.rows && Validate(r, year, month).Some?
    requires AcceptedAnswer(Call(id, r, Validate(r, year, month).value, Inserting), d)
    ensures Takes(t, Begin(k, id, r, year, month), a) && Takes(a, Insert(k, now), b) && Takes(b, Read(k), m)
    ensures Takes(m, Answer(k, d), x) && Takes(x, Decide(k, later), y) && Takes(y, Reread(k), u)
    ensures m.asked == t.asked + {(id, r)} && k in u.calls && u.calls[k].stage.Returned?
    ensures var p := u.calls[k].stage.payment;
            && p.paymentId == id && p.amount == r.amount && p.status == d.status
            && p.authorizationCode == d.authorizationCode && p.declineCode == d.declineCode
            && p.createdAt == now && p.completedAt == Some(later)
    ensures u.rows.Keys == t.rows.Keys + {id} && forall other :: other in t.rows ==> u.rows[other] == t.rows[other]
  {
    Begins(t, k, id, r, year, month);
    AcceptedIsReadable(r, year, month);
    a := Apply(t, Begin(k, id, r, year, month));
    b, m, x, y, u := BegunCallReturns(a, k, a.calls[k], now, d, later);
  }

  lemma AcceptedIsReadable(r: Request, year: int, month: int)
    requires Validate(r, year, month).Some?
    ensures Readable(r, Validate(r, year, month).value)
  {
    ValidateExactly(r, year, month);
  }
}
