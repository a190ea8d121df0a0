/** `Pass2Repository` over mutable tables, proved against the ledger functions. */
module ReviewTables {
  import opened ReviewLedger

  datatype ChangeOutcome = Recorded | NotHumanConfirmed | NeedsConfirmedReview | IntegrityError

  class ReviewTables {
    const methodologies: set<string>
    var diffs: seq<Diff>
    var reviews: seq<Review>
    var changes: seq<ChangeRow>

    ghost function State(): Ledger
      reads this
    {
      Ledger(methodologies, diffs, reviews, changes)
    }

    constructor (methodologies: set<string>)
      ensures State() == Initial(methodologies)
    {
      this.methodologies := methodologies;
      diffs, reviews, changes := [], [], [];
    }

    method AddDiff(d: Diff) returns (inserted: bool)
      modifies this
      ensures State() == ReviewLedger.AddDiff(old(State()), d)
      ensures inserted <==> State() != old(State())
    {
      if exists x | x in diffs :: x.id == d.id {
        return false;
      }
      diffs := diffs + [d];
      return true;
    }

    /**
     One INSERT: the model validator, the CHECKs, the foreign keys, the trigger and the indexes may each refuse it.
     */
    method AddReview(r: Review) returns (inserted: bool)
      modifies this
      ensures State() == ReviewLedger.AddReview(old(State()), r)
      ensures inserted <==> Inserts(old(State()), r)
    {
      if !WellFormed(r) || !SubtypeCheck(r) || !StatusCheck(r) {
        return false;
      }
      if exists n | n in reviews :: n.id == r.id {
        return false;
      }
      if !(exists d | d in diffs :: d.id == r.candidate) || r.machine.methodology !in methodologies {
        return false;
      }
      if r.prior.Some? && !(exists p | p in reviews :: PriorMatches(p, r)) {
        return false;
      }
      if exists n | n in reviews :: Clashes(n, r) {
        return false;
      }
      reviews := reviews + [r];
      return true;
    }

    method AddConfirmedChange(ch: Change, reviewId: string) returns (r: ChangeOutcome)
      modifies this
      ensures State() == ReviewLedger.AddConfirmedChange(old(State()), ch, reviewId)
      ensures r.Recorded? <==> ChangeInserts(old(State()), ch, reviewId)
      ensures r.NotHumanConfirmed? <==> !ch.humanConfirmed || ch.confirmedAt.None?
      ensures r.NeedsConfirmedReview? ==> forall n | n in reviews :: n.id == reviewId ==> !n.status.Confirmed?
    {
      if !ch.humanConfirmed || ch.confirmedAt.None? {
        return NotHumanConfirmed;
      }
      if !(exists n | n in reviews :: n.id == reviewId && n.status.Confirmed?) {
        return NeedsConfirmedReview;
      }
      if exists row | row in changes :: row.change.id == ch.id {
        return IntegrityError;
      }
      changes := changes + [ChangeRow(ch, reviewId)];
      return Recorded;
    }
  }
}
