/**
  The rows of the platform ledger carry provider ids made of their kind and booking, and a
  unique index forbids two rows with the same id.  Over every run, crashes included, no
  step attempts to write a second one.
 */
module LedgerIds {
  import opened Bookings
  import opened Soundness

  predicate SameId(a: Row, b: Row) {
    a.kind == b.kind && a.booking == b.booking
  }

  ghost predicate IdsUnique(rows: seq<Row>) {
    forall i, j :: 0 <= i < j < |rows| ==> !SameId(rows[i], rows[j])
  }

  /** A row of the kind can only be there when the booking has got that far. */
  predicate Backed(r: Row, bookings: map<Id, Booking>) {
    match r.kind
    case CoinBooking => r.booking in bookings
    case SessionPayout => r.booking in bookings && bookings[r.booking].settledAt.Some?
    case RefundRow => true
  }

  ghost predicate AllBacked(rows: seq<Row>, bookings: map<Id, Booking>) {
    forall r :: r in rows ==> Backed(r, bookings)
  }

  ghost predicate IdsInv(s: State) {
    IdsUnique(s.rows) && AllBacked(s.rows, s.bookings)
  }

  /** Bookings stay and settled ones stay settled. */
  ghost predicate Progress(before: map<Id, Booking>, after: map<Id, Booking>) {
    forall id :: id in before ==> id in after && (before[id].settledAt.Some? ==> after[id].settledAt.Some?)
  }

  lemma SameRows(s: State, s': State)
    requires IdsInv(s) && s'.rows == s.rows && Progress(s.bookings, s'.bookings)
    ensures IdsInv(s')
  {
  }

  lemma OneMoreRow(s: State, s': State, row: Row)
    requires IdsInv(s) && s'.rows == s.rows + [row] && Progress(s.bookings, s'.bookings)
    requires Backed(row, s'.bookings) && forall r :: r in s.rows ==> !SameId(r, row)
    ensures IdsInv(s')
  {
    forall i, j | 0 <= i < j < |s'.rows|
      ensures !SameId(s'.rows[i], s'.rows[j])
    {
      if j == |s.rows| {
        assert s.rows[i] in s.rows;
      }
    }
    forall r | r in s'.rows
      ensures Backed(r, s'.bookings)
    {
      assert r in s.rows || r == row;
    }
  }

  lemma StepProgress(s: State, op: Op)
    ensures Progress(s.bookings, Step(s, op).bookings)
  {
    forall id | id in s.bookings
      ensures id in Step(s, op).bookings
      ensures s.bookings[id].settledAt.Some? ==> Step(s, op).bookings[id].settledAt.Some?
    {
      StepSameContracts(s, op, id);
    }
  }

  /** The money part of a settlement writes at most one row: a payout that succeeds, or a refund not yet recorded. */
  lemma PayOrRefundRow(s: State, id: Id, b: Booking) returns (row: Row)
    ensures var a := PayOrRefund(s, id, b);
            || a.state.rows == s.rows
            || (a.state.rows == s.rows + [row] && row.kind == SessionPayout && row.booking == id && a.ok)
            || (a.state.rows == s.rows + [row] && row.kind == RefundRow && row.booking == id && !HasRefundRow(s, id))
  {
    var rows := PayOrRefund(s, id, b).state.rows;
    row := if rows == [] then Row(RefundRow, id, 0) else rows[|rows| - 1];
  }

  lemma SettleKeepsIds(s: State, id: Id, now: int)
    requires IdsInv(s)
    ensures IdsInv(Settle(s, id, now).0)
  {
    var s' := Settle(s, id, now).0;
    StepProgress(s, SettleOp(id, now));
    if NeedsSettlement(s, id) {
      var b := s.bookings[id];
      var completed := if b.status == Started then Complete(s, id) else s;
      assert completed.rows == s.rows;
      var row := PayOrRefundRow(completed, id, b);
      assert s'.rows == PayOrRefund(completed, id, b).state.rows;
      if s'.rows == s.rows {
        SameRows(s, s');
      } else {
        OneMoreRow(s, s', row);
      }
    } else {
      SameRows(s, s');
    }
  }

  lemma CancelKeepsIds(s: State, id: Id, user: Id, byMentor: bool, now: int)
    requires IdsInv(s)
    ensures IdsInv(Cancel(s, id, user, byMentor, now).0)
  {
    var s' := Cancel(s, id, user, byMentor, now).0;
    StepProgress(s, CancelOp(id, user, byMentor, now));
    if s'.rows == s.rows {
      SameRows(s, s');
    } else {
      assert !HasRefundRow(s, id);
      OneMoreRow(s, s', s'.rows[|s'.rows| - 1]);
    }
  }

  lemma CreateKeepsIds(s: State, id: Id, i: CreateInput, now: int)
    requires IdsInv(s) && id !in s.bookings
    ensures IdsInv(Create(s, id, i, now).0)
  {
    var s' := Create(s, id, i, now).0;
    CreateAddsOne(s, id, i, now);
    if s'.rows == s.rows {
      SameRows(s, s');
    } else {
      OneMoreRow(s, s', s'.rows[|s'.rows| - 1]);
    }
  }

  /** Over any run, crashes included, no two rows of the platform ledger have the same provider id. */
  lemma {:induction false} RunIdsUnique(s: State, ops: seq<Op>)
    requires Initial(s)
    ensures IdsInv(Run(s, ops))
  {
    if ops != [] {
      var before, op := Run(s, ops[..|ops| - 1]), ops[|ops| - 1];
      RunIdsUnique(s, ops[..|ops| - 1]);
      match op
      case CreateOp(id, i, now) =>
        if id !in before.bookings {
          CreateKeepsIds(before, id, i, now);
        }
      case CancelOp(id, user, byMentor, now) => CancelKeepsIds(before, id, user, byMentor, now);
      case SettleOp(id, now) => SettleKeepsIds(before, id, now);
      case _ =>
        StepProgress(before, op);
        SameRows(before, Step(before, op));
    }
  }
}
