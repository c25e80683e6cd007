/** The transfer service's table and the account service it calls. Amounts are in cents. */
module Transfers {
  import opened Options
  import opened Text

  type Key = nat
  type Account = nat

  datatype Request = Request(source: Account, destination: Account, amount: int, description: string)

  // ---- the account service -----------------------------------------------------------------------------

  datatype Move = Move(key: Key, source: Account, destination: Account, amount: int)

  /** Balances, the processed keys, and two histories: the moves made here and the money from elsewhere. */
  datatype Bank = Bank(balances: map<Account, int>, processed: set<Key>, moves: seq<Move>, external: map<Account, int>)

  datatype Reply = Done(replay: bool) | Rejected(code: string)

  predicate ValidTransfer(r: Request) { r.source != r.destination && r.amount > 0 }

  /** The part of a transfer before it takes any lock: validation and the test whether the key was processed.
      None means that the transfer goes on to the locks. */
  function LookUpKey(b: Bank, key: Key, r: Request): Option<Reply> {
    if !ValidTransfer(r) then Some(Rejected("invalid_request"))
    else if key in b.processed then Some(Done(true))
    else None
  }

  /** A known key is answered as done whatever else the request says; only a request between different accounts with a
      positive amount goes on. */
  lemma KnownKeyIsDone(b: Bank, key: Key, r: Request)
    ensures LookUpKey(b, key, r) == Some(Done(true)) <==>
            key in b.processed && r.source != r.destination && r.amount > 0
    ensures LookUpKey(b, key, r) == None <==> key !in b.processed && r.source != r.destination && r.amount > 0
    ensures LookUpKey(b, key, r) == Some(Rejected("invalid_request")) <==> r.source == r.destination || r.amount <= 0
  {
  }

  /** The part under the row locks of both accounts, up to the commit. The key is not tested again, and saving the
      record of a key that meanwhile has one changes nothing. */
  function MoveLocked(b: Bank, key: Key, r: Request): (Bank, Reply) {
    if r.source !in b.balances || r.destination !in b.balances then (b, Rejected("account_not_found"))
    else if b.balances[r.source] < r.amount then (b, Rejected("insufficient_funds"))
    else
      var debited := b.balances[r.source := b.balances[r.source] - r.amount];
      (b.(balances := debited[r.destination := Balance(debited, r.destination) + r.amount],
          processed := b.processed + {key},
          moves := b.moves + [Move(key, r.source, r.destination, r.amount)]), Done(false))
  }

  /** The money moves exactly if both accounts exist and the source covers the amount; each balance changes by what it
      gives or takes, and a rejection changes nothing. */
  lemma MovedExactly(b: Bank, key: Key, r: Request)
    ensures var (after, reply) := MoveLocked(b, key, r);
            && (reply == Done(false) <==>
                  r.source in b.balances && r.destination in b.balances && b.balances[r.source] >= r.amount)
            && (reply == Done(false) ==>
                  && after.balances.Keys == b.balances.Keys && after.external == b.external
                  && (forall a :: a in b.balances ==>
                        after.balances[a] == b.balances[a] + (if a == r.destination then r.amount else 0)
                                             - (if a == r.source then r.amount else 0))
                  && after.processed == b.processed + {key}
                  && after.moves == b.moves + [Move(key, r.source, r.destination, r.amount)])
            && (reply != Done(false) ==>
                  && after == b
                  && reply == if r.source in b.balances && r.destination in b.balances
                              then Rejected("insufficient_funds") else Rejected("account_not_found"))
  {
    if r.source in b.balances && r.destination in b.balances {
      var debited := b.balances[r.source := b.balances[r.source] - r.amount];
      assert debited.Keys == b.balances.Keys;
      assert debited[r.destination := Balance(debited, r.destination) + r.amount].Keys == b.balances.Keys;
    }
  }

  /** So a request for another account and another amount is answered as done under a key that moved 10 to account 2. */
  lemma PayloadIsNotCompared() returns (b: Bank, r: Request)
    ensures b.moves == [Move(7, 1, 2, 10)] && r == Request(1, 3, 99, "") && LookUpKey(b, 7, r) == Some(Done(true))
  {
    r := Request(1, 3, 99, "");
    b := MoveLocked(Bank(map[1 := 10, 2 := 0], {}, [], map[1 := 10, 2 := 0]), 7, Request(1, 2, 10, "")).0;
    KnownKeyIsDone(b, 7, r);
  }

  function Balance(m: map<Account, int>, a: Account): int { if a in m then m[a] else 0 }

  /** Opening an account, a card payment, a deposit: money entering or leaving by another route. */
  function OtherMoney(b: Bank, a: Account, delta: int): Bank {
    b.(balances := b.balances[a := Balance(b.balances, a) + delta],
       external := b.external[a := Balance(b.external, a) + delta])
  }

  /** What the moves made here did to one account. */
  function Net(moves: seq<Move>, a: Account): int {
    if moves == [] then 0
    else
      var last := moves[|moves| - 1];
      Net(moves[..|moves| - 1], a)
      + (if last.destination == a then last.amount else 0) - (if last.source == a then last.amount else 0)
  }

  ghost function Total(m: map<Account, int>): int {
    if m == map[] then 0 else var a :| a in m; m[a] + Total(m - {a})
  }

  lemma {:induction false} TotalWithout(m: map<Account, int>, a: Account)
    requires a in m
    ensures Total(m) == m[a] + Total(m - {a})
    decreases |m|
  {
    var first :| first in m && Total(m) == m[first] + Total(m - {first});
    if first != a {
      assert a in m - {first} && first in m - {a};
      TotalWithout(m - {first}, a);
      TotalWithout(m - {a}, first);
      assert m - {first} - {a} == m - {a} - {first};
    }
  }

  lemma TotalAfterUpdate(m: map<Account, int>, a: Account, v: int)
    ensures Total(map[]) == 0 && Total(m[a := v]) == Total(m) + v - Balance(m, a)
  {
    TotalWithout(m[a := v], a);
    assert m[a := v] - {a} == m - {a};
    if a in m { TotalWithout(m, a); } else { assert m - {a} == m; }
  }

  // ---- the transactions table --------------------------------------------------------------------------

  datatype Status = Pending | Completed | Failed

  datatype Row = Row(source: Account, destination: Account, amount: int, description: string,
                     status: Status, completedAt: Option<int>, failureCode: Option<string>)

  function NewRow(r: Request): Row {
    Row(r.source, r.destination, r.amount, Trim(r.description), Pending, None, None)
  }

  function Inserted(rows: map<Key, Row>, key: Key, r: Request): map<Key, Row> {
    if key in rows then rows else rows[key := NewRow(r)]
  }

  function Updated(rows: map<Key, Row>, key: Key, status: Status, failureCode: Option<string>, now: int)
    : map<Key, Row>
  {
    if key !in rows then rows
    else rows[key := rows[key].(status := status, failureCode := failureCode,
                                completedAt := if status == Completed then Some(now) else rows[key].completedAt)]
  }

  predicate SamePayload(row: Row, r: Request) {
    row.source == r.source && row.destination == r.destination && row.amount == r.amount
    && row.description == Trim(r.description)
  }

  /** The repository; each method is one SQL statement, atomic on the table. */
  class TransactionTable {
    var rows: map<Key, Row>

    constructor ()
      ensures rows == map[]
    {
      rows := map[];
    }

    method InsertIfAbsent(key: Key, r: Request)
      modifies this
      ensures rows == Inserted(old(rows), key, r)
      ensures key in rows && forall k :: k in old(rows) ==> k in rows && rows[k] == old(rows)[k]
      ensures key !in old(rows) ==>
        && rows.Keys == old(rows).Keys + {key}
        && rows[key].source == r.source && rows[key].destination == r.destination && rows[key].amount == r.amount
        && rows[key].description == Trim(r.description) && rows[key].status == Pending
        && rows[key].completedAt == None && rows[key].failureCode == None
    {
      if key !in rows { rows := rows[key := NewRow(r)]; }
    }

    method Update(key: Key, status: Status, failureCode: Option<string>, now: int)
      modifies this
      ensures rows == Updated(old(rows), key, status, failureCode, now)
      ensures rows.Keys == old(rows).Keys && forall k :: k in rows && k != key ==> rows[k] == old(rows)[k]
      ensures key in rows ==>
        && rows[key].status == status && rows[key].failureCode == failureCode
        && rows[key].completedAt == (if status == Completed then Some(now) else old(rows)[key].completedAt)
        && rows[key].source == old(rows)[key].source && rows[key].destination == old(rows)[key].destination
        && rows[key].amount == old(rows)[key].amount && rows[key].description == old(rows)[key].description
    {
      if key in rows {
        var completedAt := if status == Completed then Some(now) else rows[key].completedAt;
        rows := rows[key := rows[key].(status := status, completedAt := completedAt, failureCode := failureCode)];
      }
    }
  }
}
