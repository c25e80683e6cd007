/** The acquirer's payment request, its validation, its fingerprint and the payments table. */
module Payments {
  import opened Options
  import opened Text
  import Luhn

  type Guid = nat
  const EMPTY_GUID: Guid := 0

  const PENDING := "PENDING"
  const CAPTURED := "CAPTURED"
  const DECLINED := "DECLINED"

  datatype Card = Card(number: string, holderName: string, expiryMonth: int, expiryYear: int, cvv: string)

  /** Amounts are in cents: validation admits no finer amount. */
  datatype Request = Request(
    merchantId: string, merchantName: string, orderId: Guid, amount: int, currency: string,
    description: string, card: Card, paymentType: string, installments: int)

  datatype Decision = Decision(
    paymentId: Guid, status: string, authorizationCode: Option<string>, declineCode: Option<string>,
    cardType: Option<string>, last4: string)

  // ---- validation --------------------------------------------------------------------------------------

  /** A normalised card number. */
  type Pan = s: string | |s| == 16 witness "0000000000000000"

  predicate CardCharacter(c: char) { Luhn.IsDigit(c) || c == ' ' || c == '-' }

  predicate All(s: string, p: char -> bool) { forall i :: 0 <= i < |s| ==> p(s[i]) }

  predicate Filled(s: string, limit: nat) { !Blank(s) && |Trim(s)| <= limit }

  /** The card number the request carries, if everything about the request is acceptable. */
  function Validate(r: Request, year: int, month: int): Option<Pan> {
    if Blank(r.card.number) || |r.card.number| > 23 || !All(r.card.number, CardCharacter) then None
    else
      var pan := Filter(r.card.number, Luhn.IsDigit);
      var paymentType := Upper(Trim(r.paymentType));
      if |pan| != 16 || !("999999" <= pan) || !Luhn.AllDigits(pan) || !Luhn.Valid(Luhn.Digits(pan)) then None
      else if r.orderId == EMPTY_GUID || r.amount <= 0 || r.amount > 9_999_999_999_999_999_999 then None
      else if Blank(r.currency) || |r.currency| != 3 || Upper(r.currency) != "BRL" then None
      else if Blank(r.paymentType) then None
      else if !Filled(r.merchantId, 40) || !Filled(r.merchantName, 120) || !Filled(r.description, 140) then None
      else if !Filled(r.card.holderName, 120) || !(1 <= r.card.expiryMonth <= 12)
              || !(2026 <= r.card.expiryYear <= 9999) || |r.card.cvv| != 3 || !Luhn.AllDigits(r.card.cvv) then None
      else if r.card.expiryYear < year || (r.card.expiryYear == year && r.card.expiryMonth < month) then None
      else if paymentType != "DEBIT" && paymentType != "CREDIT" then None
      else if (paymentType == "DEBIT" && r.installments != 1) || !(1 <= r.installments <= 12) then None
      else Some(pan)
  }

  /** Exactly the requests that pass; the number handed on is what is left of it without blanks and hyphens. */
  lemma ValidateExactly(r: Request, year: int, month: int)
    ensures Validate(r, year, month).Some? <==>
      && Trim(r.card.number) != "" && |r.card.number| <= 23
      && (forall i :: 0 <= i < |r.card.number| ==> '0' <= r.card.number[i] <= '9' || r.card.number[i] in " -")
      && var digits := Filter(r.card.number, Luhn.IsDigit);
      && |digits| == 16 && digits[..6] == "999999" && Luhn.AllDigits(digits) && Luhn.Valid(Luhn.Digits(digits))
      && r.orderId != 0 && 0 < r.amount <= 9_999_999_999_999_999_999 && Upper(r.currency) == "BRL"
      && Trim(r.merchantId) != "" && |Trim(r.merchantId)| <= 40
      && Trim(r.merchantName) != "" && |Trim(r.merchantName)| <= 120
      && Trim(r.description) != "" && |Trim(r.description)| <= 140
      && Trim(r.card.holderName) != "" && |Trim(r.card.holderName)| <= 120
      && |r.card.cvv| == 3 && (forall i :: 0 <= i < 3 ==> '0' <= r.card.cvv[i] <= '9')
      && 1 <= r.card.expiryMonth <= 12 && 2026 <= r.card.expiryYear <= 9999
      && (r.card.expiryYear > year || (r.card.expiryYear == year && r.card.expiryMonth >= month))
      && ( || (Upper(Trim(r.paymentType)) == "DEBIT" && r.installments == 1)
           || (Upper(Trim(r.paymentType)) == "CREDIT" && 1 <= r.installments <= 12))
    ensures Validate(r, year, month).Some? ==> Validate(r, year, month).value == Filter(r.card.number, Luhn.IsDigit)
  {
    var digits := Filter(r.card.number, Luhn.IsDigit);
    assert Trim("") == "" && Upper("") == "";
    assert "999999" <= digits <==> |digits| >= 6 && digits[..6] == "999999";
    if Upper(r.currency) == "BRL" {
      CurrencyIsTrimmed(r.currency);
      assert |Trim(r.currency)| == |Upper(Trim(r.currency))| == 3;
    }
    assert All(r.card.number, CardCharacter) <==>
             forall i :: 0 <= i < |r.card.number| ==> CardCharacter(r.card.number[i]);
  }

  function Last4(pan: Pan): string { pan[|pan| - 4..] }

  // ---- fingerprint -------------------------------------------------------------------------------------

  /** The normalised request that the fingerprint covers. */
  datatype Canonical = Canonical(
    merchantId: string, merchantName: string, orderId: Guid, amount: int, currency: string,
    description: string, pan: Pan, holderName: string, expiryMonth: int, expiryYear: int, cvv: string,
    paymentType: string, installments: int)

  /** The keyed hash, taken to be free of collisions. */
  datatype Hash = Keyed(canonical: Canonical)

  function Normalise(r: Request, pan: Pan): Canonical {
    Canonical(Trim(r.merchantId), Trim(r.merchantName), r.orderId, r.amount, Upper(Trim(r.currency)),
              Trim(r.description), pan, Trim(r.card.holderName), r.card.expiryMonth, r.card.expiryYear,
              r.card.cvv, Upper(Trim(r.paymentType)), r.installments)
  }

  function Fingerprint(r: Request, pan: Pan): Hash { Keyed(Normalise(r, pan)) }

  function OrBlank(s: Option<string>): string { if s.Some? then s.value else "" }

  predicate ValidDecision(id: Guid, paymentType: string, pan: Pan, d: Decision) {
    && d.paymentId == id && d.last4 == Last4(pan) && d.cardType == Some(paymentType)
    && var authorization, decline := OrBlank(d.authorizationCode), OrBlank(d.declineCode);
       if d.status == CAPTURED then !Blank(authorization) && |authorization| <= 20 && Blank(decline)
       else d.status == DECLINED && Blank(authorization) && !Blank(decline) && |decline| <= 40
  }

  // ---- the table ---------------------------------------------------------------------------------------

  datatype Row = Row(
    merchantId: string, orderId: Guid, amount: int, currency: string, description: string, last4: string,
    paymentType: string, installments: int, hash: Hash, status: string,
    authorizationCode: Option<string>, declineCode: Option<string>, cardType: Option<string>,
    createdAt: int, completedAt: Option<int>)

  datatype Payment = Payment(
    paymentId: Guid, merchantId: string, orderId: Guid, amount: int, currency: string, description: string,
    last4: string, paymentType: string, cardType: string, installments: int, status: string,
    authorizationCode: Option<string>, declineCode: Option<string>, createdAt: int, completedAt: Option<int>)

  function ReadPayment(id: Guid, row: Row): Payment {
    Payment(id, row.merchantId, row.orderId, row.amount, row.currency, row.description, row.last4,
            row.paymentType, if row.cardType.Some? then row.cardType.value else row.paymentType,
            row.installments, row.status, row.authorizationCode, row.declineCode, row.createdAt, row.completedAt)
  }

  function NewRow(r: Request, pan: Pan, hash: Hash, now: int): Row {
    Row(Trim(r.merchantId), r.orderId, r.amount, Upper(r.currency), Trim(r.description), Last4(pan),
        Upper(Trim(r.paymentType)), r.installments, hash, PENDING, None, None, None, now, None)
  }

  function Inserted(rows: map<Guid, Row>, id: Guid, row: Row): map<Guid, Row> {
    if id in rows then rows else rows[id := row]
  }

  function Settled(row: Row, d: Decision, now: int): Row {
    row.(status := d.status, authorizationCode := d.authorizationCode, declineCode := d.declineCode,
         cardType := d.cardType, completedAt := Some(now))
  }

  function Decided(rows: map<Guid, Row>, id: Guid, d: Decision, now: int): map<Guid, Row> {
    if id in rows && rows[id].status == PENDING then rows[id := Settled(rows[id], d, now)] else rows
  }

  /** The repository; each method is one SQL statement, atomic on the table. */
  class PaymentTable {
    var rows: map<Guid, Row>

    constructor ()
      ensures rows == map[]
    {
      rows := map[];
    }

    method InsertIfAbsent(id: Guid, r: Request, pan: Pan, hash: Hash, now: int)
      modifies this
      ensures rows == Inserted(old(rows), id, NewRow(r, pan, hash, now))
      ensures id in rows && forall k :: k in old(rows) ==> k in rows && rows[k] == old(rows)[k]
      ensures id !in old(rows) ==>
        && rows.Keys == old(rows).Keys + {id}
        && rows[id].merchantId == Trim(r.merchantId) && rows[id].orderId == r.orderId && rows[id].amount == r.amount
        && rows[id].currency == Upper(r.currency) && rows[id].description == Trim(r.description)
        && rows[id].last4 == pan[12..] && rows[id].paymentType == Upper(Trim(r.paymentType))
        && rows[id].installments == r.installments && rows[id].hash == hash && rows[id].status == "PENDING"
        && rows[id].authorizationCode == rows[id].declineCode == rows[id].cardType == None
        && rows[id].createdAt == now && rows[id].completedAt == None
    {
      if id !in rows { rows := rows[id := NewRow(r, pan, hash, now)]; }
    }

    method SelectWithHash(id: Guid) returns (found: Option<(Payment, Hash)>)
      ensures found == if id in rows then Some((ReadPayment(id, rows[id]), rows[id].hash)) else None
      ensures id in rows ==> var p, row := found.value.0, rows[id];
        && p.paymentId == id && p.merchantId == row.merchantId && p.orderId == row.orderId && p.amount == row.amount
        && p.currency == row.currency && p.description == row.description && p.last4 == row.last4
        && p.paymentType == row.paymentType && p.installments == row.installments && p.status == row.status
        && Some(p.cardType) == (if row.cardType == None then Some(row.paymentType) else row.cardType)
        && p.authorizationCode == row.authorizationCode && p.declineCode == row.declineCode
        && p.createdAt == row.createdAt && p.completedAt == row.completedAt
    {
      if id !in rows { return None; }
      found := Some((ReadPayment(id, rows[id]), rows[id].hash));
    }

    method UpdateIfPending(id: Guid, d: Decision, now: int)
      modifies this
      ensures rows == Decided(old(rows), id, d, now)
      ensures rows.Keys == old(rows).Keys
      ensures forall k :: k in rows && (k != id || old(rows)[k].status != "PENDING") ==> rows[k] == old(rows)[k]
      ensures id in old(rows) && old(rows)[id].status == "PENDING" ==>
        && rows[id].status == d.status && rows[id].authorizationCode == d.authorizationCode
        && rows[id].declineCode == d.declineCode && rows[id].cardType == d.cardType
        && rows[id].completedAt == Some(now)
        && rows[id].(status := "PENDING", authorizationCode := None, declineCode := None, cardType := None,
                     completedAt := None)
           == old(rows)[id].(authorizationCode := None, declineCode := None, cardType := None, completedAt := None)
    {
      if id in rows && rows[id].status == PENDING { rows := rows[id := Settled(rows[id], d, now)]; }
    }
  }

  // ---- the row is the normalised request ---------------------------------------------------------------

  /** A currency that validation accepts is already trimmed, so the row and the fingerprint agree on it. */
  lemma CurrencyIsTrimmed(s: string)
    requires Upper(s) == "BRL"
    ensures Upper(Trim(s)) == "BRL" && |s| == 3
  {
    assert |s| == |Upper(s)| == 3;
    assert UpperChar(s[0]) == Upper(s)[0] == 'B';
    assert UpperChar(s[2]) == Upper(s)[2] == 'L';
    NothingToTrim(s);
  }
}
