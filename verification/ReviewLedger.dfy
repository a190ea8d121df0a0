/**
 The human-gated change review ledger: `structured_diffs`, `change_review_queue` and `confirmed_changes`.
 The CHECKs, the insert trigger and the two partial unique indexes each say little; together they make
 the rows of every candidate one linked history.
 */
module ReviewLedger {
  import opened Common

  datatype Classification =
    | CapabilityAddition | CapabilityRemoval | ControlChange | AutonomyFacetChange | AvailabilityLifecycleChange
    | ArchitectureChange | ModelChange | AgentAddition | AgentRemoval | PermissionChange | TriggerChange
    | ApprovalChange | BenchmarkResultChange | EvidenceStatusChange | DocumentationDeprecation | NotMaterial

  datatype Subtype = IndependentValidationAdded | EvidenceMaturityChanged | EvidenceContradictionAdded

  datatype ReviewStatus = Pending | Confirmed | Rejected

  type Impact = string

  /** What the machine proposed; the columns the trigger compares. */
  datatype Proposal = Proposal(classification: Classification, rationale: string, impacts: set<Impact>,
                               subtype: Option<Subtype>, methodology: string)

  /** `ChangeReviewItem`, which is also one row of the queue. */
  datatype Review = Review(
    id: string, candidate: string, machine: Proposal, status: ReviewStatus, reviewer: Option<string>,
    reviewedAt: Option<int>, humanClassification: Option<Classification>, confirmedImpacts: set<Impact>,
    humanRationale: Option<string>, prior: Option<string>)

  datatype Diff = Diff(id: string, material: bool)

  datatype Change = Change(id: string, humanConfirmed: bool, confirmedAt: Option<int>)

  datatype ChangeRow = ChangeRow(change: Change, reviewId: string)

  /** Rows are in `rowid` order; nothing is ever updated or deleted. */
  datatype Ledger = Ledger(methodologies: set<string>, diffs: seq<Diff>, reviews: seq<Review>, changes: seq<ChangeRow>)

  // ----- the model validator and the table's own rules -----

  predicate Undecided(r: Review) {
    r.reviewer.None? && r.reviewedAt.None? && r.humanClassification.None? && r.humanRationale.None?
  }

  predicate Decided(r: Review) {
    r.reviewer.Some? && r.reviewedAt.Some? && r.humanClassification.Some? && r.humanRationale.Some?
  }

  /** `enforce_human_decision` */
  predicate WellFormed(r: Review) {
    && (r.status.Pending? ==> Undecided(r) && r.confirmedImpacts == {} && r.prior.None?)
    && (!r.status.Pending? ==> Decided(r) && r.prior.Some?)
    && (r.status.Confirmed? && r.humanClassification != Some(NotMaterial) ==> r.confirmedImpacts != {})
    && (r.machine.classification.EvidenceStatusChange? <==> r.machine.subtype.Some?)
  }

  predicate SubtypeCheck(r: Review) {
    (r.machine.classification.EvidenceStatusChange? && r.machine.subtype.Some?)
    || (!r.machine.classification.EvidenceStatusChange? && r.machine.subtype.None?)
  }

  predicate StatusCheck(r: Review) {
    (r.status.Pending? && Undecided(r) && r.prior.None?) || (!r.status.Pending? && Decided(r) && r.prior.Some?)
  }

  function SubtypeText(s: Subtype): string {
    match s
    case IndependentValidationAdded => "INDEPENDENT_VALIDATION_ADDED"
    case EvidenceMaturityChanged => "EVIDENCE_MATURITY_CHANGED"
    case EvidenceContradictionAdded => "EVIDENCE_CONTRADICTION_ADDED"
  }

  /** `COALESCE(evidence_status_subtype, '')` */
  function Coalesced(s: Option<Subtype>): string {
    if s.Some? then SubtypeText(s.value) else ""
  }

  /** The row the insert trigger looks for. */
  predicate PriorMatches(p: Review, r: Review) {
    r.prior == Some(p.id) && p.candidate == r.candidate && p.machine.classification == r.machine.classification
    && p.machine.rationale == r.machine.rationale && p.machine.impacts == r.machine.impacts
    && Coalesced(p.machine.subtype) == Coalesced(r.machine.subtype) && p.machine.methodology == r.machine.methodology
  }

  /** One row per candidate without a prior review, one row per prior review. */
  predicate Clashes(n: Review, r: Review) {
    (n.prior.None? && r.prior.None? && n.candidate == r.candidate) || (r.prior.Some? && n.prior == r.prior)
  }

  predicate Inserts(l: Ledger, r: Review) {
    && WellFormed(r) && SubtypeCheck(r) && StatusCheck(r)
    && (forall n | n in l.reviews :: n.id != r.id)
    && (exists d | d in l.diffs :: d.id == r.candidate)
    && r.machine.methodology in l.methodologies
    && (r.prior.Some? ==> exists p | p in l.reviews :: PriorMatches(p, r))
    && (forall n | n in l.reviews :: !Clashes(n, r))
  }

  predicate ChangeInserts(l: Ledger, ch: Change, reviewId: string) {
    && ch.humanConfirmed && ch.confirmedAt.Some?
    && (exists r | r in l.reviews :: r.id == reviewId && r.status.Confirmed?)
    && (forall row | row in l.changes :: row.change.id != ch.id)
  }

  function AddDiff(l: Ledger, d: Diff): Ledger {
    if exists x | x in l.diffs :: x.id == d.id then l else l.(diffs := l.diffs + [d])
  }

  function AddReview(l: Ledger, r: Review): Ledger {
    if Inserts(l, r) then l.(reviews := l.reviews + [r]) else l
  }

  function AddConfirmedChange(l: Ledger, ch: Change, reviewId: string): Ledger {
    if ChangeInserts(l, ch, reviewId) then l.(changes := l.changes + [ChangeRow(ch, reviewId)]) else l
  }

  datatype Event = NewDiff(diff: Diff) | NewReview(review: Review) | NewChange(change: Change, reviewId: string)

  function Step(l: Ledger, e: Event): Ledger {
    match e
    case NewDiff(d) => AddDiff(l, d)
    case NewReview(r) => AddReview(l, r)
    case NewChange(ch, reviewId) => AddConfirmedChange(l, ch, reviewId)
  }

  function Run(l: Ledger, es: seq<Event>): Ledger
    decreases |es|
  {
    if es == [] then l else Run(Step(l, es[0]), es[1..])
  }

  /** A ledger seeded with its methodologies. */
  function Initial(methodologies: set<string>): Ledger {
    Ledger(methodologies, [], [], [])
  }

  // ----- histories -----

  /** The rows of one candidate, oldest first. */
  function History(rows: seq<Review>, c: string): seq<Review> {
    if rows == [] then []
    else
      var r := rows[|rows| - 1];
      History(rows[..|rows| - 1], c) + if r.candidate == c then [r] else []
  }

  lemma {:induction false} HistoryRows(rows: seq<Review>, c: string, r: Review)
    ensures r in History(rows, c) <==> r in rows && r.candidate == c
  {
    if rows != [] {
      var n := |rows| - 1;
      HistoryRows(rows[..n], c, r);
      assert rows == rows[..n] + [rows[n]];
    }
  }

  /** One PENDING root, every later row decided and pointing at the row before it, one proposal throughout. */
  ghost predicate Linked(h: seq<Review>) {
    && (h != [] ==> h[0].prior.None? && h[0].status.Pending?)
    && (forall k | 0 < k < |h| :: h[k].prior == Some(h[k - 1].id) && !h[k].status.Pending?)
    && (forall k | 0 <= k < |h| :: h[k].machine == h[0].machine)
  }

  ghost predicate UniqueIds(rows: seq<Review>) {
    forall i, j | 0 <= i < |rows| && 0 <= j < |rows| && rows[i].id == rows[j].id :: i == j
  }

  ghost predicate BackedBy(l: Ledger, row: ChangeRow) {
    exists r :: r in l.reviews && r.id == row.reviewId && r.status.Confirmed?
  }

  ghost predicate Inv(l: Ledger) {
    && UniqueIds(l.reviews)
    && (forall r | r in l.reviews :: WellFormed(r) && r.machine.methodology in l.methodologies
                                     && exists d :: d in l.diffs && d.id == r.candidate)
    && (forall c :: Linked(History(l.reviews, c)))
    && (forall row | row in l.changes :: BackedBy(l, row))
  }

  /** The trigger's comparison is equality of the whole proposal, because no subtype is written as the empty text. */
  lemma TriggerComparesProposals(p: Review, r: Review)
    requires PriorMatches(p, r)
    ensures p.machine == r.machine
  {
    assert SubtypeText(IndependentValidationAdded)[0] == 'I';
    assert SubtypeText(EvidenceMaturityChanged)[9] == 'M' && SubtypeText(EvidenceContradictionAdded)[9] == 'C';
  }

  lemma RootInsert(l: Ledger, r: Review)
    requires Linked(History(l.reviews, r.candidate)) && Inserts(l, r) && r.prior.None?
    ensures History(l.reviews, r.candidate) == []
  {
    var h := History(l.reviews, r.candidate);
    if h != [] {
      HistoryRows(l.reviews, r.candidate, h[0]);
      assert Clashes(h[0], r);
    }
  }

  /** The prior row of an accepted one has no successor, and so is the last of its history. */
  lemma PriorIsLast(l: Ledger, r: Review, k: nat)
    requires Linked(History(l.reviews, r.candidate)) && Inserts(l, r) && k < |History(l.reviews, r.candidate)|
    requires r.prior == Some(History(l.reviews, r.candidate)[k].id)
    ensures k == |History(l.reviews, r.candidate)| - 1
  {
    var h := History(l.reviews, r.candidate);
    if k + 1 < |h| {
      HistoryRows(l.reviews, r.candidate, h[k + 1]);
      assert Clashes(h[k + 1], r);
    }
  }

  lemma SuccessorInsert(l: Ledger, r: Review)
    requires Linked(History(l.reviews, r.candidate)) && Inserts(l, r) && r.prior.Some?
    ensures var h := History(l.reviews, r.candidate);
            h != [] && r.prior == Some(h[|h| - 1].id) && r.machine == h[0].machine
  {
    var h := History(l.reviews, r.candidate);
    var p :| p in l.reviews && PriorMatches(p, r);
    TriggerComparesProposals(p, r);
    HistoryRows(l.reviews, r.candidate, p);
    var k :| 0 <= k < |h| && h[k] == p;
    PriorIsLast(l, r, k);
  }

  /** An accepted row always extends its candidate's history at the end. */
  lemma InsertExtends(l: Ledger, r: Review)
    requires Linked(History(l.reviews, r.candidate)) && Inserts(l, r)
    ensures var h := History(l.reviews, r.candidate);
            Linked(h + [r]) && r.prior == (if h == [] then None else Some(h[|h| - 1].id))
  {
    if r.prior.None? {
      RootInsert(l, r);
    } else {
      SuccessorInsert(l, r);
    }
  }

  lemma HistoryAppend(rows: seq<Review>, r: Review, c: string)
    ensures History(rows + [r], c) == History(rows, c) + (if c == r.candidate then [r] else [])
  {
    assert (rows + [r])[..|rows + [r]| - 1] == rows;
  }

  lemma ReviewKeepsInv(l: Ledger, r: Review)
    requires Inv(l) && Inserts(l, r)
    ensures Inv(AddReview(l, r))
  {
    var m := AddReview(l, r);
    assert UniqueIds(m.reviews) by {
      assert forall i | 0 <= i < |l.reviews| :: l.reviews[i] in l.reviews;
    }
    forall c
      ensures Linked(History(m.reviews, c))
    {
      HistoryAppend(l.reviews, r, c);
      assert Linked(History(l.reviews, c));
      assert History(l.reviews, c) + [] == History(l.reviews, c);
      if c == r.candidate {
        InsertExtends(l, r);
      }
    }
    forall row | row in m.changes
      ensures BackedBy(m, row)
    {
      assert BackedBy(l, row);
    }
  }

  lemma ChangeKeepsInv(l: Ledger, ch: Change, reviewId: string)
    requires Inv(l)
    ensures Inv(AddConfirmedChange(l, ch, reviewId))
  {
    var m := AddConfirmedChange(l, ch, reviewId);
    forall row | row in m.changes
      ensures BackedBy(m, row)
    {
      if row in l.changes {
        assert BackedBy(l, row);
      }
    }
  }

  lemma DiffKeepsInv(l: Ledger, d: Diff)
    requires Inv(l)
    ensures Inv(AddDiff(l, d))
  {
    var m := AddDiff(l, d);
    assert forall x | x in l.diffs :: x in m.diffs;
    forall row | row in m.changes
      ensures BackedBy(m, row)
    {
      assert BackedBy(l, row);
    }
  }

  lemma StepKeepsInv(l: Ledger, e: Event)
    requires Inv(l)
    ensures Inv(Step(l, e))
  {
    match e {
      case NewDiff(d) => DiffKeepsInv(l, d);
      case NewReview(r) =>
        if Inserts(l, r) {
          ReviewKeepsInv(l, r);
        }
      case NewChange(ch, reviewId) => ChangeKeepsInv(l, ch, reviewId);
    }
  }

  lemma {:induction false} RunKeepsInv(l: Ledger, es: seq<Event>)
    requires Inv(l)
    ensures Inv(Run(l, es))
    decreases |es|
  {
    if es != [] {
      StepKeepsInv(l, es[0]);
      RunKeepsInv(Step(l, es[0]), es[1..]);
    }
  }

  lemma ReachableInv(ms: set<string>, es: seq<Event>)
    ensures Inv(Run(Initial(ms), es))
  {
    RunKeepsInv(Initial(ms), es);
  }

  /** In every reachable table the rows of each candidate are one linked history. */
  lemma HistoriesAreLinked(ms: set<string>, es: seq<Event>, c: string)
    ensures Linked(History(Run(Initial(ms), es).reviews, c))
  {
    ReachableInv(ms, es);
  }

  lemma {:induction false} RunAppends(l: Ledger, es: seq<Event>)
    ensures l.reviews <= Run(l, es).reviews && l.changes <= Run(l, es).changes
    decreases |es|
  {
    if es != [] {
      RunAppends(Step(l, es[0]), es[1..]);
    }
  }

  /** A confirmed change, once recorded, stays recorded and backed by a CONFIRMED review through every later event. */
  lemma ConfirmedForever(ms: set<string>, es: seq<Event>, fs: seq<Event>, row: ChangeRow)
    requires row in Run(Initial(ms), es).changes
    ensures var l := Run(Run(Initial(ms), es), fs); row in l.changes && BackedBy(l, row)
  {
    ReachableInv(ms, es);
    RunKeepsInv(Run(Initial(ms), es), fs);
    RunAppends(Run(Initial(ms), es), fs);
  }

  // ----- tips -----

  predicate HasSuccessor(rows: seq<Review>, r: Review) {
    exists n | n in rows :: n.prior == Some(r.id)
  }

  function Last(h: seq<Review>): Review
    requires h != []
  {
    h[|h| - 1]
  }

  lemma LaterRowSucceeds(l: Ledger, r: Review, k: nat)
    requires Inv(l) && k + 1 < |History(l.reviews, r.candidate)| && History(l.reviews, r.candidate)[k] == r
    ensures HasSuccessor(l.reviews, r) && r != Last(History(l.reviews, r.candidate))
  {
    var h := History(l.reviews, r.candidate);
    assert Linked(h);
    HistoryRows(l.reviews, r.candidate, h[k + 1]);
    assert h[k + 1].prior == Some(r.id);
    if h[|h| - 1] == r {
      NoRepeats(l, r.candidate, k, |h| - 1);
    }
  }

  /** A row has no successor exactly when it is the newest of its candidate: each candidate has exactly one tip. */
  lemma TipIsNewest(l: Ledger, r: Review)
    requires Inv(l) && r in l.reviews
    ensures History(l.reviews, r.candidate) != []
    ensures !HasSuccessor(l.reviews, r) <==> r == Last(History(l.reviews, r.candidate))
  {
    var h := History(l.reviews, r.candidate);
    HistoryRows(l.reviews, r.candidate, r);
    var k :| 0 <= k < |h| && h[k] == r;
    if k + 1 < |h| {
      LaterRowSucceeds(l, r, k);
    } else if HasSuccessor(l.reviews, r) {
      var n :| n in l.reviews && n.prior == Some(r.id);
      SuccessorIsSameCandidate(l, r, n);
    }
  }

  /** Positions of a history are rows of the table, in the same order and without repetition. */
  lemma {:induction false} HistoryIndex(rows: seq<Review>, c: string) returns (at: seq<nat>)
    ensures |at| == |History(rows, c)|
    ensures forall k | 0 <= k < |at| :: at[k] < |rows| && rows[at[k]] == History(rows, c)[k]
    ensures forall i, k | 0 <= i < k < |at| :: at[i] < at[k]
  {
    if rows == [] {
      at := [];
    } else {
      var n := |rows| - 1;
      at := HistoryIndex(rows[..n], c);
      if rows[n].candidate == c {
        at := at + [n];
      }
    }
  }

  lemma NoRepeats(l: Ledger, c: string, i: nat, k: nat)
    requires Inv(l) && i < k < |History(l.reviews, c)|
    ensures History(l.reviews, c)[i].id != History(l.reviews, c)[k].id
  {
    var at := HistoryIndex(l.reviews, c);
    assert at[i] < at[k];
  }

  lemma SuccessorIsSameCandidate(l: Ledger, r: Review, n: Review)
    requires Inv(l) && r in l.reviews && n in l.reviews && n.prior == Some(r.id)
    ensures n.candidate == r.candidate
    ensures var h := History(l.reviews, r.candidate); h == [] || r != Last(h)
  {
    var h := History(l.reviews, n.candidate);
    HistoryRows(l.reviews, n.candidate, n);
    assert Linked(h);
    var k :| 0 <= k < |h| && h[k] == n;
    assert k > 0 && h[k - 1].id == r.id;
    HistoryRows(l.reviews, n.candidate, h[k - 1]);
    assert h[k - 1] == r;
    NoRepeats(l, n.candidate, k - 1, |h| - 1);
  }

  // ----- the queries -----

  function Select(rows: seq<Review>, keep: Review -> bool): seq<Review> {
    if rows == [] then []
    else
      var n := |rows| - 1;
      Select(rows[..n], keep) + if keep(rows[n]) then [rows[n]] else []
  }

  /** `latest_reviews` */
  function LatestReviews(rows: seq<Review>): seq<Review> {
    Select(rows, (r: Review) => !HasSuccessor(rows, r))
  }

  /** `pending_reviews`; a negative LIMIT is no limit. */
  function PendingReviews(rows: seq<Review>, limit: int): seq<Review> {
    var all := Select(rows, (r: Review) => r.status.Pending? && !HasSuccessor(rows, r));
    if 0 <= limit < |all| then all[..limit] else all
  }

  function PendingAt(rows: seq<Review>): set<nat> {
    set i: nat | i < |rows| && rows[i].status.Pending? && !HasSuccessor(rows, rows[i])
  }

  /** `pending_review_count` */
  function PendingReviewCount(rows: seq<Review>): nat {
    |PendingAt(rows)|
  }

  /** The manifest's `pending_review_count`: PENDING entries among the latest reviews. */
  function ManifestPending(latest: seq<Review>): nat {
    |Select(latest, (r: Review) => r.status.Pending?)|
  }

  /** The candidates whose history is still the machine proposal alone. */
  function Undecideds(rows: seq<Review>): set<string> {
    set r | r in rows && |History(rows, r.candidate)| == 1 :: r.candidate
  }

  lemma {:induction false} SelectAppend(a: seq<Review>, b: seq<Review>, keep: Review -> bool)
    ensures Select(a + b, keep) == Select(a, keep) + Select(b, keep)
  {
    if b == [] {
      assert a + b == a;
    } else {
      assert (a + b)[..|a + b| - 1] == a + b[..|b| - 1];
      SelectAppend(a, b[..|b| - 1], keep);
    }
  }

  lemma {:induction false} SelectTwice(rows: seq<Review>, first: Review -> bool, second: Review -> bool,
      both: Review -> bool)
    requires forall r :: both(r) <==> first(r) && second(r)
    ensures Select(Select(rows, first), second) == Select(rows, both)
  {
    if rows != [] {
      var n := |rows| - 1;
      SelectTwice(rows[..n], first, second, both);
      var tail := if first(rows[n]) then [rows[n]] else [];
      SelectAppend(Select(rows[..n], first), tail, second);
    }
  }

  lemma {:induction false} SelectSize(rows: seq<Review>, keep: Review -> bool)
    ensures |Select(rows, keep)| == |set i: nat | i < |rows| && keep(rows[i])|
  {
    var at := set i: nat | i < |rows| && keep(rows[i]);
    if rows == [] {
      assert at == {};
    } else {
      var n := |rows| - 1;
      SelectSize(rows[..n], keep);
      var before := set i: nat | i < n && keep(rows[..n][i]);
      assert at == before + if keep(rows[n]) then {n} else {};
    }
  }

  lemma {:induction false} ImageSize(at: set<nat>, rows: seq<Review>)
    requires forall i | i in at :: i < |rows|
    requires forall i, j | i in at && j in at && rows[i].candidate == rows[j].candidate :: i == j
    ensures |set i | i in at :: rows[i].candidate| == |at|
  {
    var image := set i | i in at :: rows[i].candidate;
    if at != {} {
      var x :| x in at;
      ImageSize(at - {x}, rows);
      var rest := set i | i in at - {x} :: rows[i].candidate;
      assert image == rest + {rows[x].candidate};
    }
  }

  /** A PENDING row without successor is the whole history of its candidate, and the other way round. */
  lemma PendingTip(l: Ledger, r: Review)
    requires Inv(l) && r in l.reviews
    ensures |History(l.reviews, r.candidate)| >= 1
    ensures r.status.Pending? && !HasSuccessor(l.reviews, r) ==> |History(l.reviews, r.candidate)| == 1
    ensures |History(l.reviews, r.candidate)| == 1 ==> r.status.Pending? && !HasSuccessor(l.reviews, r)
  {
    var h := History(l.reviews, r.candidate);
    HistoryRows(l.reviews, r.candidate, r);
    assert Linked(h);
    TipIsNewest(l, r);
  }

  /** The four counts of pending reviews agree in every reachable table. */
  lemma PendingCountsAgree(ms: set<string>, es: seq<Event>, limit: int)
    requires limit < 0
    ensures var rows := Run(Initial(ms), es).reviews;
            PendingReviewCount(rows) == |PendingReviews(rows, limit)|
            == ManifestPending(LatestReviews(rows)) == |Undecideds(rows)|
  {
    ReachableInv(ms, es);
    var l := Run(Initial(ms), es);
    var rows := l.reviews;
    var tip, pending := (r: Review) => !HasSuccessor(rows, r), (r: Review) => r.status.Pending?;
    var both := (r: Review) => r.status.Pending? && !HasSuccessor(rows, r);
    SelectTwice(rows, tip, pending, both);
    SelectSize(rows, both);
    var at := PendingAt(rows);
    assert at == set i: nat | i < |rows| && both(rows[i]);
    forall i, j | i in at && j in at && rows[i].candidate == rows[j].candidate
      ensures i == j
    {
      PendingTip(l, rows[i]);
      PendingTip(l, rows[j]);
      HistoryRows(rows, rows[i].candidate, rows[i]);
      HistoryRows(rows, rows[i].candidate, rows[j]);
    }
    ImageSize(at, rows);
    UndecidedAt(l);
  }

  lemma UndecidedAt(l: Ledger)
    requires Inv(l)
    ensures Undecideds(l.reviews) == set i | i in PendingAt(l.reviews) :: l.reviews[i].candidate
  {
    var rows := l.reviews;
    var image := set i | i in PendingAt(rows) :: rows[i].candidate;
    forall c
      ensures c in Undecideds(rows) <==> c in image
    {
      if c in Undecideds(rows) {
        var i: nat :| i < |rows| && rows[i].candidate == c;
        PendingTip(l, rows[i]);
        assert i in PendingAt(rows);
      }
      if c in image {
        var i :| i in PendingAt(rows) && rows[i].candidate == c;
        PendingTip(l, rows[i]);
      }
    }
  }

  /** The answer holds rows of the table at rising positions. */
  ghost predicate Positions(rows: seq<Review>, answer: seq<Review>, at: seq<nat>) {
    && |at| == |answer| && (forall k | 0 <= k < |at| :: at[k] < |rows| && rows[at[k]] == answer[k])
    && forall j, k | 0 <= j < k < |at| :: at[j] < at[k]
  }

  /** The rows of a query, oldest first and each once. */
  ghost predicate InTableOrder(rows: seq<Review>, answer: seq<Review>) {
    exists at: seq<nat> :: Positions(rows, answer, at)
  }

  lemma OneMorePosition(rows: seq<Review>, r: Review, answer: seq<Review>, at: seq<nat>)
    requires Positions(rows, answer, at)
    ensures Positions(rows + [r], answer, at) && Positions(rows + [r], answer + [r], at + [|rows|])
  {
    assert forall k | 0 <= k < |at| :: (rows + [r])[at[k]] == rows[at[k]];
  }

  /** Selected rows keep their order. */
  lemma {:induction false} SelectInOrder(rows: seq<Review>, keep: Review -> bool)
    ensures InTableOrder(rows, Select(rows, keep))
  {
    if rows == [] {
      assert Positions(rows, [], []);
    } else {
      var n := |rows| - 1;
      SelectInOrder(rows[..n], keep);
      var before := Select(rows[..n], keep);
      var at :| Positions(rows[..n], before, at);
      OneMorePosition(rows[..n], rows[n], before, at);
      assert rows == rows[..n] + [rows[n]];
      assert before + [] == before;
    }
  }

  /** Both queries answer in the order of the table with exactly the rows they ask for. */
  lemma QueriesAnswer(rows: seq<Review>, r: Review)
    ensures InTableOrder(rows, LatestReviews(rows)) && InTableOrder(rows, PendingReviews(rows, -1))
    ensures r in LatestReviews(rows) <==> r in rows && forall n | n in rows :: n.prior != Some(r.id)
    ensures r in PendingReviews(rows, -1)
            <==> r in rows && r.status == Pending && forall n | n in rows :: n.prior != Some(r.id)
  {
    var tip, waiting := (x: Review) => !HasSuccessor(rows, x), (x: Review) => x.status.Pending?
        && !HasSuccessor(rows, x);
    SelectInOrder(rows, tip);
    SelectInOrder(rows, waiting);
    SelectRows(rows, tip, r);
    SelectRows(rows, waiting, r);
  }

  /** A limit cuts the list off at the front and shortens nothing else. */
  lemma LimitTakesOldest(rows: seq<Review>, limit: nat)
    ensures var all, some := PendingReviews(rows, -1), PendingReviews(rows, limit);
            some <= all && |some| == if limit < |all| then limit else |all|
  {
  }

  // ----- the daily status -----

  datatype DailyStatus =
    | MaterialChanges | NoReviewedContent | NoMaterialChange | NoConfirmedMaterialChange | ReviewPending

  /** The status `build_daily_brief` chooses. */
  function ChooseStatus(changes: seq<Change>, candidates: seq<Diff>, reviews: seq<Review>,
      contentAvailable: bool): DailyStatus {
    var completed := set r | r in reviews && !r.status.Pending? :: r.candidate;
    if exists ch | ch in changes :: ch.humanConfirmed then MaterialChanges
    else if exists d | d in candidates :: d.material && d.id !in completed then ReviewPending
    else if exists d | d in candidates :: d.material then NoConfirmedMaterialChange
    else if !contentAvailable then NoReviewedContent
    else NoMaterialChange
  }

  function Changes(l: Ledger): seq<Change> {
    seq(|l.changes|, i requires 0 <= i < |l.changes| => l.changes[i].change)
  }

  /** No review yet, or nothing but the machine proposal. */
  predicate AwaitsHuman(l: Ledger, d: Diff) {
    |History(l.reviews, d.id)| <= 1
  }

  lemma {:induction false} SelectRows(rows: seq<Review>, keep: Review -> bool, r: Review)
    ensures r in Select(rows, keep) <==> r in rows && keep(r)
  {
    if rows != [] {
      var n := |rows| - 1;
      SelectRows(rows[..n], keep, r);
      assert rows == rows[..n] + [rows[n]];
    }
  }

  /** Among the latest reviews of a reachable table, a decided one is there exactly when the candidate awaits nobody. */
  lemma CompletedIsDecided(l: Ledger, d: Diff)
    requires Inv(l)
    ensures (exists r :: r in LatestReviews(l.reviews) && !r.status.Pending? && r.candidate == d.id)
            <==> !AwaitsHuman(l, d)
  {
    var rows := l.reviews;
    var tip := (r: Review) => !HasSuccessor(rows, r);
    forall r
      ensures r in LatestReviews(rows) <==> r in rows && !HasSuccessor(rows, r)
    {
      SelectRows(rows, tip, r);
    }
    var h := History(rows, d.id);
    assert Linked(h);
    if h != [] {
      var last := Last(h);
      HistoryRows(rows, d.id, last);
      TipIsNewest(l, last);
      if |h| > 1 {
        assert last in LatestReviews(rows) && !last.status.Pending?;
      }
    }
    forall r | r in LatestReviews(rows) && !r.status.Pending? && r.candidate == d.id
      ensures !AwaitsHuman(l, d)
    {
      HistoryRows(rows, d.id, r);
    }
  }

  /**
   On the ledger's own data the brief says REVIEW_PENDING exactly when nothing is confirmed and some material
   candidate awaits a human, NO_CONFIRMED_MATERIAL_CHANGE exactly when every material one has been decided, and one of
   the others, by the content available, exactly when there is no material one.
   */
  lemma DailyStatusMeaning(ms: set<string>, es: seq<Event>, contentAvailable: bool)
    ensures var l := Run(Initial(ms), es);
            var status := ChooseStatus(Changes(l), l.diffs, LatestReviews(l.reviews), contentAvailable);
            && (status.MaterialChanges? <==> l.changes != [])
            && (status.ReviewPending? <==>
                  l.changes == [] && exists d :: d in l.diffs && d.material && AwaitsHuman(l, d))
            && (status.NoConfirmedMaterialChange? <==>
                  l.changes == [] && (exists d :: d in l.diffs && d.material)
                  && forall d :: d in l.diffs && d.material ==> !AwaitsHuman(l, d))
            && (status.NoReviewedContent? <==>
                  l.changes == [] && (forall d | d in l.diffs :: !d.material) && !contentAvailable)
            && (status.NoMaterialChange? <==>
                  l.changes == [] && (forall d | d in l.diffs :: !d.material) && contentAvailable)
  {
    ReachableInv(ms, es);
    var l := Run(Initial(ms), es);
    ChangesAreConfirmed(ms, es);
    var latest := LatestReviews(l.reviews);
    var completed := set r | r in latest && !r.status.Pending? :: r.candidate;
    forall d: Diff
      ensures d.id in completed <==> !AwaitsHuman(l, d)
    {
      CompletedIsDecided(l, d);
      assert d.id in completed <==> exists r :: r in latest && !r.status.Pending? && r.candidate == d.id;
    }
  }

  lemma {:induction false} RunKeepsConfirmed(l: Ledger, es: seq<Event>)
    requires forall row | row in l.changes :: row.change.humanConfirmed
    ensures forall row | row in Run(l, es).changes :: row.change.humanConfirmed
    decreases |es|
  {
    if es != [] {
      RunKeepsConfirmed(Step(l, es[0]), es[1..]);
    }
  }

  lemma ChangesAreConfirmed(ms: set<string>, es: seq<Event>)
    ensures var l := Run(Initial(ms), es);
            (exists ch | ch in Changes(l) :: ch.humanConfirmed) <==> l.changes != []
  {
    RunKeepsConfirmed(Initial(ms), es);
    var l := Run(Initial(ms), es);
    if l.changes != [] {
      assert l.changes[0] in l.changes;
      assert Changes(l)[0] == l.changes[0].change && Changes(l)[0] in Changes(l);
    }
  }

  // ----- the machine proposal and the human decision -----

  datatype Refusal = AlreadyCompleted | InvalidReview

  /**
   `create_review`: `proposal` is what the classifier made of the diff, and `idFits` says whether the identifier matches
   its pattern.
   */
  function CreateReview(d: Diff, reviewId: string, idFits: bool, proposal: Proposal): Result<Review, Refusal> {
    var r := Review(reviewId, d.id, proposal, Pending, None, None, None, {}, None, None);
    if idFits && WellFormed(r) then Ok(r) else Err(InvalidReview)
  }

  /** A machine proposal can be stored exactly once for each stored candidate, under an unused identifier. */
  lemma CreationInserts(ms: set<string>, es: seq<Event>, d: Diff, reviewId: string, idFits: bool, proposal: Proposal)
    requires CreateReview(d, reviewId, idFits, proposal).Ok?
    ensures var l := Run(Initial(ms), es);
            Inserts(l, CreateReview(d, reviewId, idFits, proposal).value) <==>
              History(l.reviews, d.id) == [] && (exists x :: x in l.diffs && x.id == d.id)
              && proposal.methodology in l.methodologies && forall n :: n in l.reviews ==> n.id != reviewId
  {
    ReachableInv(ms, es);
    var l := Run(Initial(ms), es);
    var r := CreateReview(d, reviewId, idFits, proposal).value;
    var h := History(l.reviews, d.id);
    assert Linked(h);
    if Inserts(l, r) {
      RootInsert(l, r);
    }
    if h == [] {
      forall n | n in l.reviews
        ensures !Clashes(n, r)
      {
        HistoryRows(l.reviews, d.id, n);
      }
    }
  }

  predicate Given(reviewId: Option<string>) {
    reviewId.Some? && reviewId.value != ""
  }

  /**
   `confirm_review`: a decided review may not be confirmed again; the result is validated like any other.  An identifier
   passed in may miss its pattern (`idFits`), one made from the reviewed row's does not.
   */
  function ConfirmReview(item: Review, reviewId: Option<string>, idFits: bool, reviewer: string, reviewedAt: int,
                         classification: Classification, impacts: set<Impact>, rationale: string)
    : Result<Review, Refusal>
  {
    if !item.status.Pending? then Err(AlreadyCompleted)
    else
      var id := if Given(reviewId) then reviewId.value else item.id + "-H1";
      var r := Review(id, item.candidate, item.machine, Confirmed, Some(reviewer), Some(reviewedAt),
                      Some(classification), impacts, Some(rationale), Some(item.id));
      if (Given(reviewId) ==> idFits) && WellFormed(r) then Ok(r) else Err(InvalidReview)
  }

  /**
   Of a stored review, a confirmation is made exactly when it is undecided, a material change names its impacts, and
   an identifier passed in matches its pattern.
   */
  lemma ConfirmationIsMade(ms: set<string>, es: seq<Event>, item: Review, reviewId: Option<string>, idFits: bool,
                           reviewer: string, reviewedAt: int, classification: Classification, impacts: set<Impact>,
                           rationale: string)
    requires item in Run(Initial(ms), es).reviews
    ensures ConfirmReview(item, reviewId, idFits, reviewer, reviewedAt, classification, impacts, rationale).Ok?
       <==> item.status.Pending? && (classification.NotMaterial? || impacts != {}) && (Given(reviewId) ==> idFits)
  {
    ReachableInv(ms, es);
  }

  /**
   A confirmed review can be stored exactly when the reviewed row is still an undecided tip and the new identifier is
   unused.
   */
  lemma ConfirmationInserts(ms: set<string>, es: seq<Event>, item: Review, reviewId: Option<string>, idFits: bool,
                            reviewer: string, reviewedAt: int, classification: Classification, impacts: set<Impact>,
                            rationale: string)
    requires item in Run(Initial(ms), es).reviews
    requires ConfirmReview(item, reviewId, idFits, reviewer, reviewedAt, classification, impacts, rationale).Ok?
    ensures var l := Run(Initial(ms), es);
            var made := ConfirmReview(item, reviewId, idFits, reviewer, reviewedAt, classification, impacts, rationale);
            var r := made.value;
            Inserts(l, r) <==>
              History(l.reviews, item.candidate) == [item] && forall n :: n in l.reviews ==> n.id != r.id
  {
    ReachableInv(ms, es);
    var l := Run(Initial(ms), es);
    var r := ConfirmReview(item, reviewId, idFits, reviewer, reviewedAt, classification, impacts, rationale).value;
    var h := History(l.reviews, item.candidate);
    HistoryRows(l.reviews, item.candidate, item);
    PendingTip(l, item);
    if Inserts(l, r) {
      assert Linked(h);
      InsertExtends(l, r);
      assert h[|h| - 1].id == item.id;
      HistoryRows(l.reviews, item.candidate, h[|h| - 1]);
      assert h[|h| - 1] == item;
      assert Linked(h);
    }
    if h == [item] {
      assert PriorMatches(item, r);
      assert !HasSuccessor(l.reviews, item);
    }
  }

  lemma UndecidedsMember(rows: seq<Review>, c: string)
    ensures c in Undecideds(rows) <==> |History(rows, c)| == 1
  {
    var h := History(rows, c);
    if |h| == 1 {
      HistoryRows(rows, c, h[0]);
      assert h[0] in rows;
    }
  }

  lemma DecidedRowIsTip(l: Ledger, item: Review, r: Review)
    requires Inv(l) && item in l.reviews && Inserts(l, r) && r.prior == Some(item.id)
    ensures r.candidate == item.candidate && History(l.reviews, r.candidate) != []
  {
    var h := History(l.reviews, r.candidate);
    assert Linked(h);
    SuccessorInsert(l, r);
    HistoryRows(l.reviews, r.candidate, Last(h));
    assert Last(h).id == item.id;
    assert Last(h) == item;
  }

  lemma UndecidedsAfter(rows: seq<Review>, r: Review, c: string)
    requires History(rows, r.candidate) != []
    ensures c in Undecideds(rows + [r]) <==> c in Undecideds(rows) && c != r.candidate
  {
    HistoryAppend(rows, r, c);
    UndecidedsMember(rows, c);
    UndecidedsMember(rows + [r], c);
  }

  /** Storing the decision takes exactly this candidate off the pending list. */
  lemma DecisionSettles(l: Ledger, item: Review, r: Review)
    requires Inv(l) && item in l.reviews && Inserts(l, r) && r.prior == Some(item.id)
    ensures Undecideds(AddReview(l, r).reviews) == Undecideds(l.reviews) - {item.candidate}
  {
    DecidedRowIsTip(l, item, r);
    forall c
      ensures c in Undecideds(l.reviews + [r]) <==> c in Undecideds(l.reviews) - {item.candidate}
    {
      UndecidedsAfter(l.reviews, r, c);
    }
  }

  // ----- what a row must be, and when it is taken -----

  /** A machine proposal carries nothing of a human decision. */
  predicate IsProposal(r: Review) {
    && r.status == Pending && r.reviewer == None && r.reviewedAt == None && r.humanClassification == None
    && r.humanRationale == None && r.confirmedImpacts == {} && r.prior == None
  }

  /** A decision carries all of it, and the impacts of a change confirmed as material. */
  predicate IsDecision(r: Review) {
    && r.status != Pending && r.reviewer != None && r.reviewedAt != None && r.humanClassification != None
    && r.humanRationale != None && r.prior != None
    && (r.status == Confirmed && r.humanClassification != Some(NotMaterial) ==> r.confirmedImpacts != {})
  }

  predicate SubtypeFits(r: Review) {
    r.machine.classification == EvidenceStatusChange <==> r.machine.subtype != None
  }

  /** The table's own two CHECKs ask for the same as the validator, but for the impacts. */
  lemma ChecksAgree(r: Review)
    ensures SubtypeCheck(r) <==> SubtypeFits(r)
    ensures IsProposal(r) ==> StatusCheck(r)
    ensures IsDecision(r) ==> StatusCheck(r)
    ensures StatusCheck(r) && r.status == Pending && r.confirmedImpacts == {} ==> IsProposal(r)
    ensures StatusCheck(r) && r.status != Pending && r.confirmedImpacts != {} ==> IsDecision(r)
    ensures WellFormed(r) <==> (IsProposal(r) || IsDecision(r)) && SubtypeFits(r)
  {
  }

  /** A proposal is made of the diff and the classifier's answer when identifier and subtype fit, and not otherwise. */
  lemma ProposalIsMade(d: Diff, reviewId: string, idFits: bool, proposal: Proposal)
    ensures var made := CreateReview(d, reviewId, idFits, proposal);
            && (made.Ok? <==> idFits && (proposal.classification == EvidenceStatusChange <==> proposal.subtype != None))
            && (made.Ok? ==>
                  IsProposal(made.value) && made.value.id == reviewId && made.value.candidate == d.id
                  && made.value.machine == proposal)
  {
  }

  predicate UnusedId(l: Ledger, id: string) {
    forall n | n in l.reviews :: n.id != id
  }

  /** Every row of a reachable table is a proposal or a decision, and none of it is half of either. */
  lemma RowsAreWhole(ms: set<string>, es: seq<Event>, r: Review)
    requires r in Run(Initial(ms), es).reviews
    ensures (IsProposal(r) || IsDecision(r)) && SubtypeFits(r)
  {
    ReachableInv(ms, es);
  }

  /** A pending row is taken exactly as the first of a stored candidate. */
  lemma ProposalInsertsIff(l: Ledger, r: Review)
    requires Inv(l) && r.status == Pending
    ensures Inserts(l, r) <==>
              && IsProposal(r) && SubtypeFits(r) && UnusedId(l, r.id) && r.machine.methodology in l.methodologies
              && (exists d :: d in l.diffs && d.id == r.candidate) && History(l.reviews, r.candidate) == []
  {
    if Inserts(l, r) {
      assert Linked(History(l.reviews, r.candidate));
      RootInsert(l, r);
    } else if History(l.reviews, r.candidate) == [] {
      forall n | n in l.reviews
        ensures n.candidate != r.candidate
      {
        HistoryRows(l.reviews, r.candidate, n);
      }
    }
  }

  /** A decided row is taken exactly on top of its candidate's history, with the proposal unchanged. */
  lemma DecisionInsertsIff(l: Ledger, r: Review)
    requires Inv(l) && r.status != Pending
    ensures var h := History(l.reviews, r.candidate);
            Inserts(l, r) <==>
              && IsDecision(r) && SubtypeFits(r) && UnusedId(l, r.id)
              && h != [] && r.prior == Some(h[|h| - 1].id) && r.machine == h[0].machine
  {
    if Inserts(l, r) {
      InsertedOnTop(l, r);
    } else if Tops(History(l.reviews, r.candidate), r) {
      TopIsFree(l, r);
    }
  }

  ghost predicate Tops(h: seq<Review>, r: Review) {
    h != [] && r.prior == Some(h[|h| - 1].id) && r.machine == h[0].machine
  }

  lemma InsertedOnTop(l: Ledger, r: Review)
    requires Inv(l) && Inserts(l, r) && r.status != Pending
    ensures Tops(History(l.reviews, r.candidate), r)
  {
    assert Linked(History(l.reviews, r.candidate));
    SuccessorInsert(l, r);
  }

  lemma TopIsFree(l: Ledger, r: Review)
    requires Inv(l) && Tops(History(l.reviews, r.candidate), r)
    ensures (exists p | p in l.reviews :: PriorMatches(p, r)) && (forall n | n in l.reviews :: !Clashes(n, r))
    ensures r.machine.methodology in l.methodologies && exists d | d in l.diffs :: d.id == r.candidate
  {
    var h := History(l.reviews, r.candidate);
    var last := h[|h| - 1];
    assert Linked(h);
    HistoryRows(l.reviews, r.candidate, last);
    TipIsNewest(l, last);
    assert PriorMatches(last, r);
    assert !HasSuccessor(l.reviews, last);
  }

  /** A change is recorded exactly when a human confirmed it, its review is there CONFIRMED, and it is new. */
  lemma ChangeIsRecordedIff(l: Ledger, ch: Change, reviewId: string)
    ensures var t := AddConfirmedChange(l, ch, reviewId);
            && t.reviews == l.reviews && t.diffs == l.diffs
            && t.changes ==
                 (if && ch.humanConfirmed && ch.confirmedAt != None
                     && (exists r | r in l.reviews :: r.id == reviewId && r.status == Confirmed)
                     && (forall row | row in l.changes :: row.change.id != ch.id)
                  then l.changes + [ChangeRow(ch, reviewId)] else l.changes)
  {
  }

  /** A stored confirmation is its candidate's latest review, as the reviewer made it, beside the unchanged proposal. */
  lemma ConfirmationIsOnRecord(ms: set<string>, es: seq<Event>, item: Review, reviewId: Option<string>, idFits: bool,
                               reviewer: string, reviewedAt: int, classification: Classification, impacts: set<Impact>,
                               rationale: string, latest: Review)
    requires item in Run(Initial(ms), es).reviews
    requires var made := ConfirmReview(item, reviewId, idFits, reviewer, reviewedAt, classification, impacts,
            rationale);
             made.Ok? && Inserts(Run(Initial(ms), es), made.value)
    ensures var made := ConfirmReview(item, reviewId, idFits, reviewer, reviewedAt, classification, impacts, rationale);
            var l := AddReview(Run(Initial(ms), es), made.value);
            latest in LatestReviews(l.reviews) && latest.candidate == item.candidate <==>
              latest == Review(if reviewId != None && reviewId != Some("") then reviewId.value else item.id + "-H1",
                               item.candidate, item.machine, Confirmed, Some(reviewer), Some(reviewedAt),
                               Some(classification), impacts, Some(rationale), Some(item.id))
  {
    var l := Run(Initial(ms), es);
    var made := ConfirmReview(item, reviewId, idFits, reviewer, reviewedAt, classification, impacts, rationale);
    ReachableInv(ms, es);
    ReviewKeepsInv(l, made.value);
    LatestIsTheOne(AddReview(l, made.value), l.reviews, made.value, latest);
  }

  lemma LatestIsTheOne(l: Ledger, before: seq<Review>, r: Review, latest: Review)
    requires Inv(l) && l.reviews == before + [r]
    ensures latest in LatestReviews(l.reviews) && latest.candidate == r.candidate <==> latest == r
  {
    QueriesAnswer(l.reviews, latest);
    HistoryAppend(before, r, r.candidate);
    assert r in l.reviews;
    TipIsNewest(l, r);
    if latest in l.reviews && latest.candidate == r.candidate {
      TipIsNewest(l, latest);
    }
  }
}
