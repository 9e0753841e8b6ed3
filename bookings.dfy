/**
 * The booking collection: the owner filter of `GET /api/bookings` and the
 * rewrite of `DELETE /api/bookings/:id`, which keeps every booking except
 * those with the parsed id that belong to the caller.
 */
module Bookings {
  import opened Wrappers
  import opened Seqs
  import opened JsText
  import opened Records

  /** `bookings.filter(b => b.userId === userId)`. */
  function OwnedBy(bookings: seq<Booking>, userId: int): (r: seq<Booking>)
    ensures IsSubsequence(r, bookings)
    ensures forall b :: b in r <==> b in bookings && b.userId == userId
    ensures forall b :: multiset(r)[b] == if b.userId == userId then multiset(bookings)[b] else 0
  {
    Filter(bookings, (b: Booking) => b.userId == userId)
  }

  /**
   * The bookings a cancel removes: those whose id equals the parsed path
   * parameter and that belong to the caller. `NaN` (`None`) equals nothing.
   */
  predicate Targeted(b: Booking, target: Option<int>, caller: int)
  {
    target == Some(b.id) && b.userId == caller
  }

  /** `bookings.filter(b => b.id !== target || b.userId !== caller)`. */
  function Cancelled(bookings: seq<Booking>, target: Option<int>, caller: int): (r: seq<Booking>)
    ensures IsSubsequence(r, bookings)
    ensures forall b :: b in r <==> b in bookings && !Targeted(b, target, caller)
    ensures forall b :: multiset(r)[b] == if Targeted(b, target, caller) then 0 else multiset(bookings)[b]
  {
    Filter(bookings, (b: Booking) => !Targeted(b, target, caller))
  }

  /** An id that does not parse (`NaN`) cancels nothing. */
  lemma CancelNaNKeepsAll(bookings: seq<Booking>, caller: int)
    ensures Cancelled(bookings, None, caller) == bookings
  {
    FilterKeepsAll(bookings, (b: Booking) => !Targeted(b, None, caller));
  }

  /** Cancelling twice is cancelling once. */
  lemma CancelIdempotent(bookings: seq<Booking>, target: Option<int>, caller: int)
    ensures Cancelled(Cancelled(bookings, target, caller), target, caller) == Cancelled(bookings, target, caller)
  {
    FilterIdempotent(bookings, (b: Booking) => !Targeted(b, target, caller));
  }

  /** A cancel leaves every other user's list of bookings exactly as it was. */
  lemma CancelSparesOthers(bookings: seq<Booking>, target: Option<int>, caller: int, other: int)
    requires other != caller
    ensures OwnedBy(Cancelled(bookings, target, caller), other) == OwnedBy(bookings, other)
  {
    var keep := (b: Booking) => !Targeted(b, target, caller);
    var mine := (b: Booking) => b.userId == other;
    FilterCommute(bookings, keep, mine);
    FilterAbsorbs(bookings, mine, keep);
  }

  /** `newBooking` as created for the caller. */
  function NewBooking(id: int, userId: int, roomId: string, checkin: string, checkout: string): (b: Booking)
  {
    Booking(id, userId, roomId, checkin, checkout)
  }

  /** A created booking appears at the end of its owner's list and in no one else's. */
  lemma CreateThenList(bookings: seq<Booking>, b: Booking, userId: int)
    ensures OwnedBy(bookings + [b], userId) ==
              if b.userId == userId then OwnedBy(bookings, userId) + [b] else OwnedBy(bookings, userId)
  {
    var mine := (x: Booking) => x.userId == userId;
    FilterAppend(bookings, [b], mine);
    assert Filter([b], mine) == if b.userId == userId then [b] else [] by {
      assert [b][1..] == [];
    }
  }

  /**
   * Cancelling a just-created booking through the decimal form of its id, as
   * its owner, restores the collection, provided no older booking of that
   * owner carries the same id.
   */
  lemma CreateThenCancel(bookings: seq<Booking>, b: Booking)
    requires forall i :: 0 <= i < |bookings| ==> !(bookings[i].id == b.id && bookings[i].userId == b.userId)
    ensures Cancelled(bookings + [b], ParseInt(IntToDecimal(b.id)), b.userId) == bookings
  {
    ParseIntDecimal(b.id, "");
    assert IntToDecimal(b.id) + "" == IntToDecimal(b.id);
    var keep := (x: Booking) => !Targeted(x, Some(b.id), b.userId);
    FilterAppend(bookings, [b], keep);
    FilterKeepsAll(bookings, keep);
    assert Filter([b], keep) == [] by {
      assert [b][1..] == [];
    }
    assert bookings + [] == bookings;
  }
}
