/** The append-only availability history of systems and agents, and the velocity query that relies on its order. */
module Lifecycle {
  import opened Common

  datatype State = Unknown | PrivatePreview | LimitedPublicPreview | PublicPreview | Ga | Deprecated

  /** Exactly one of `system_id` and `agent_id` is set. */
  datatype Entity = System(id: string) | Agent(id: string)

  datatype Event = Event(id: string, entity: Entity, state: State, effectiveAt: Option<int>, evidence: string,
      retrievedAt: int)

  /** `lifecycle_events` in `sequence` order, with the rows its foreign keys may reference. */
  datatype Table = Table(entities: set<Entity>, evidence: set<string>, rows: seq<Event>)

  /** The transition table `_ALLOWED`. */
  function Allowed(s: State): set<State> {
    match s
    case Unknown => {Unknown, PrivatePreview, LimitedPublicPreview, PublicPreview, Ga, Deprecated}
    case PrivatePreview => {LimitedPublicPreview, PublicPreview, Ga, Deprecated}
    case LimitedPublicPreview => {PublicPreview, Ga, Deprecated}
    case PublicPreview => {Ga, Deprecated}
    case Ga => {Deprecated}
    case Deprecated => {}
  }

  function Stage(s: State): nat {
    match s
    case Unknown => 0
    case PrivatePreview => 1
    case LimitedPublicPreview => 2
    case PublicPreview => 3
    case Ga => 4
    case Deprecated => 5
  }

  /** The table allows anything from UNKNOWN and otherwise exactly the later stages. */
  lemma AllowedMeansAdvance(a: State, b: State)
    ensures b in Allowed(a) <==> a == Unknown || Stage(a) < Stage(b)
  {
  }

  datatype Verdict = Valid | DifferentEntity | InvalidTransition | OutOfOrder

  function ValidateTransition(history: seq<Event>, e: Event): Verdict {
    if history == [] then Valid
    else
      var previous := history[|history| - 1];
      if previous.entity != e.entity then DifferentEntity
      else if e.state !in Allowed(previous.state) then InvalidTransition
      else if e.retrievedAt < previous.retrievedAt then OutOfOrder
      else Valid
  }

  /** The rows of one entity, oldest first. */
  function History(rows: seq<Event>, x: Entity): seq<Event> {
    if rows == [] then []
    else
      var n := |rows| - 1;
      History(rows[..n], x) + if rows[n].entity == x then [rows[n]] else []
  }

  predicate Inserts(t: Table, e: Event) {
    && ValidateTransition(History(t.rows, e.entity), e).Valid?
    && (forall r | r in t.rows :: r.id != e.id)
    && e.entity in t.entities && e.evidence in t.evidence
  }

  function Append(t: Table, e: Event): Table {
    if Inserts(t, e) then t.(rows := t.rows + [e]) else t
  }

  function Run(t: Table, es: seq<Event>): Table
    decreases |es|
  {
    if es == [] then t else Run(Append(t, es[0]), es[1..])
  }

  ghost predicate Stepwise(h: seq<Event>) {
    && (forall i | 0 < i < |h| :: h[i].state in Allowed(h[i - 1].state))
    && (forall i | 0 < i < |h| :: h[i - 1].retrievedAt <= h[i].retrievedAt)
  }

  lemma {:induction false} HistoryRows(rows: seq<Event>, x: Entity, e: Event)
    ensures e in History(rows, x) <==> e in rows && e.entity == x
  {
    if rows != [] {
      var n := |rows| - 1;
      HistoryRows(rows[..n], x, e);
      assert rows == rows[..n] + [rows[n]];
    }
  }

  lemma HistoryAppend(rows: seq<Event>, e: Event, x: Entity)
    ensures History(rows + [e], x) == History(rows, x) + (if e.entity == x then [e] else [])
  {
    assert (rows + [e])[..|rows + [e]| - 1] == rows;
  }

  lemma StepwiseOneMore(h: seq<Event>, e: Event)
    requires Stepwise(h) && ValidateTransition(h, e).Valid?
    ensures Stepwise(h + [e])
  {
  }

  lemma AppendStepwise(t: Table, e: Event, x: Entity)
    requires Stepwise(History(t.rows, x))
    ensures Stepwise(History(Append(t, e).rows, x))
  {
    if Inserts(t, e) {
      HistoryAppend(t.rows, e, x);
      if e.entity == x {
        StepwiseOneMore(History(t.rows, x), e);
      } else {
        assert History(t.rows, x) + [] == History(t.rows, x);
      }
    }
  }

  lemma {:induction false} RunStepwise(t: Table, es: seq<Event>, x: Entity)
    requires Stepwise(History(t.rows, x))
    ensures Stepwise(History(Run(t, es).rows, x))
    decreases |es|
  {
    if es != [] {
      AppendStepwise(t, es[0], x);
      RunStepwise(Append(t, es[0]), es[1..], x);
    }
  }

  function Empty(entities: set<Entity>, evidence: set<string>): Table {
    Table(entities, evidence, [])
  }

  /**
   The event may follow this history: any event may be first, any state may follow UNKNOWN, later ones only another.
   */
  ghost predicate MayFollow(h: seq<Event>, e: Event) {
    h == [] ||
    var last := h[|h| - 1];
    last.retrievedAt <= e.retrievedAt && (last.state == Unknown || Stage(last.state) < Stage(e.state))
  }

  /** The check itself, on any history of any entity. */
  lemma TransitionValidIff(h: seq<Event>, e: Event)
    ensures ValidateTransition(h, e).Valid? <==> h == [] || (h[|h| - 1].entity == e.entity && MayFollow(h, e))
  {
    if h != [] {
      AllowedMeansAdvance(h[|h| - 1].state, e.state);
    }
  }

  /** The table takes an event exactly when its identifier is new, what it references is there, and it may follow. */
  lemma AppendedIff(t: Table, e: Event)
    ensures var taken := (forall r | r in t.rows :: r.id != e.id) && e.entity in t.entities && e.evidence in t.evidence
                         && MayFollow(History(t.rows, e.entity), e);
            Append(t, e) == if taken then t.(rows := t.rows + [e]) else t
  {
    var h := History(t.rows, e.entity);
    if h != [] {
      HistoryRows(t.rows, e.entity, h[|h| - 1]);
      AllowedMeansAdvance(h[|h| - 1].state, e.state);
    }
  }

  /** How many leading events are UNKNOWN. */
  function Unknowns(h: seq<Event>): (k: nat)
    ensures k <= |h|
    ensures forall i | 0 <= i < k :: h[i].state.Unknown?
    ensures k < |h| ==> !h[k].state.Unknown?
  {
    if h == [] || !h[0].state.Unknown? then 0 else 1 + Unknowns(h[1..])
  }

  lemma {:induction false} StepwiseAdvances(h: seq<Event>, i: nat, j: nat)
    requires Stepwise(h) && i < j < |h|
    ensures h[i].retrievedAt <= h[j].retrievedAt
    ensures h[i].state.Unknown? || Stage(h[i].state) < Stage(h[j].state)
    decreases j
  {
    AllowedMeansAdvance(h[j - 1].state, h[j].state);
    if i < j - 1 {
      StepwiseAdvances(h, i, j - 1);
    }
  }

  lemma {:induction false} StageCount(h: seq<Event>, k: nat, j: nat)
    requires Stepwise(h) && k <= j < |h| && !h[k].state.Unknown?
    ensures Stage(h[j].state) >= 1 + j - k
    decreases j
  {
    if k < j {
      StageCount(h, k, j - 1);
      StepwiseAdvances(h, j - 1, j);
    }
  }

  /** UNKNOWN for a while, then a strictly advancing sequence of at most five stages, retrieved in order. */
  ghost predicate Shaped(h: seq<Event>) {
    var k := Unknowns(h);
    && (forall i | k <= i < |h| :: !h[i].state.Unknown?)
    && (forall i, j | k <= i < j < |h| :: Stage(h[i].state) < Stage(h[j].state))
    && |h| - k <= 5
    && (forall i, j | 0 <= i < j < |h| :: h[i].retrievedAt <= h[j].retrievedAt)
  }

  lemma StepwiseShaped(h: seq<Event>)
    requires Stepwise(h)
    ensures Shaped(h)
  {
    var k := Unknowns(h);
    forall i, j | 0 <= i < j < |h|
      ensures h[i].retrievedAt <= h[j].retrievedAt
      ensures h[i].state.Unknown? || Stage(h[i].state) < Stage(h[j].state)
    {
      StepwiseAdvances(h, i, j);
    }
    if k < |h| {
      StageCount(h, k, |h| - 1);
    }
  }

  /** Every history has this shape, under any interleaving of appends across entities. */
  lemma HistoryShape(entities: set<Entity>, evidence: set<string>, es: seq<Event>, x: Entity)
    ensures Shaped(History(Run(Empty(entities, evidence), es).rows, x))
  {
    RunStepwise(Empty(entities, evidence), es, x);
    StepwiseShaped(History(Run(Empty(entities, evidence), es).rows, x));
  }

  // ----- the velocity query -----

  predicate Preview(s: State) {
    s.PrivatePreview? || s.LimitedPublicPreview? || s.PublicPreview?
  }

  function Previews(h: seq<Event>): seq<Event> {
    if h == [] then []
    else
      var n := |h| - 1;
      Previews(h[..n]) + if Preview(h[n].state) && h[n].effectiveAt.Some? then [h[n]] else []
  }

  function Gas(h: seq<Event>): seq<Event> {
    if h == [] then []
    else
      var n := |h| - 1;
      Gas(h[..n]) + if h[n].state.Ga? && h[n].effectiveAt.Some? then [h[n]] else []
  }

  lemma {:induction false} DatedRows(h: seq<Event>, e: Event)
    ensures e in Previews(h) <==> e in h && Preview(e.state) && e.effectiveAt.Some?
    ensures e in Gas(h) <==> e in h && e.state.Ga? && e.effectiveAt.Some?
  {
    if h != [] {
      var n := |h| - 1;
      DatedRows(h[..n], e);
      assert h == h[..n] + [h[n]];
    }
  }

  const MICROS_PER_DAY := 86_400_000_000

  /** `(later - earlier).days`, which rounds down. */
  function Days(later: int, earlier: int): int {
    (later - earlier) / MICROS_PER_DAY
  }

  /** The systems with a non-empty identifier. */
  function Systems(events: seq<Event>): set<string> {
    set e | e in events && e.entity.System? && e.entity.id != "" :: e.entity.id
  }

  predicate Measured(h: seq<Event>) {
    Previews(h) != [] && Gas(h) != []
  }

  function Velocity(h: seq<Event>): int
    requires Measured(h)
  {
    var ga, preview := Gas(h)[|Gas(h)| - 1], Previews(h)[0];
    DatedRows(h, ga);
    DatedRows(h, preview);
    Days(ga.effectiveAt.value, preview.effectiveAt.value)
  }

  function Velocities(events: seq<Event>): map<string, int> {
    map s | s in Systems(events) && Measured(History(events, System(s))) :: Velocity(History(events, System(s)))
  }

  lemma SystemsMember(events: seq<Event>, s: string)
    ensures s in Systems(events) <==> s != "" && History(events, System(s)) != []
  {
    var h := History(events, System(s));
    if h != [] {
      HistoryRows(events, System(s), h[0]);
    }
    if s in Systems(events) {
      var e :| e in events && e.entity == System(s);
      HistoryRows(events, System(s), e);
    }
  }

  ghost predicate GroupedUpTo(bySystem: map<string, seq<Event>>, events: seq<Event>) {
    forall s :: (s in bySystem <==> s != "" && History(events, System(s)) != [])
                && (s in bySystem ==> bySystem[s] == History(events, System(s)))
  }

  lemma GroupOneMore(bySystem: map<string, seq<Event>>, events: seq<Event>, e: Event)
    requires GroupedUpTo(bySystem, events)
    ensures var s := e.entity.id;
            var grouped := bySystem[s := (if s in bySystem then bySystem[s] else []) + [e]];
            GroupedUpTo(if e.entity.System? && s != "" then grouped else bySystem, events + [e])
  {
    forall s: string
      ensures History(events + [e], System(s))
              == History(events, System(s)) + (if e.entity == System(s) then [e] else [])
    {
      HistoryAppend(events, e, System(s));
    }
    forall s: string | e.entity != System(s)
      ensures History(events + [e], System(s)) == History(events, System(s))
    {
      assert History(events, System(s)) + [] == History(events, System(s));
    }
  }

  /** The first loop of the query. */
  method GroupBySystem(events: seq<Event>) returns (bySystem: map<string, seq<Event>>)
    ensures GroupedUpTo(bySystem, events)
  {
    bySystem := map[];
    for i := 0 to |events|
      invariant GroupedUpTo(bySystem, events[..i])
    {
      var e := events[i];
      GroupOneMore(bySystem, events[..i], e);
      assert events[..i + 1] == events[..i] + [e];
      if e.entity.System? && e.entity.id != "" {
        bySystem := bySystem[e.entity.id := (if e.entity.id in bySystem then bySystem[e.entity.id] else []) + [e]];
      }
    }
    assert events[..|events|] == events;
  }

  /** The result so far: the velocities of the measured systems outside `rest`. */
  ghost predicate MeasuredOutside(bySystem: map<string, seq<Event>>, rest: set<string>, result: map<string, int>) {
    forall s :: (s in result <==> s in bySystem && s !in rest && Measured(bySystem[s]))
                && (s in result ==> result[s] == Velocity(bySystem[s]))
  }

  lemma AllMeasured(events: seq<Event>, bySystem: map<string, seq<Event>>, result: map<string, int>)
    requires GroupedUpTo(bySystem, events) && MeasuredOutside(bySystem, {}, result)
    ensures result == Velocities(events)
  {
    forall s
      ensures s in result <==> s in Velocities(events)
      ensures s in result ==> result[s] == Velocities(events)[s]
    {
      SystemsMember(events, s);
    }
  }

  lemma VelocityIs(h: seq<Event>)
    requires Measured(h)
    ensures var ga, preview := Gas(h)[|Gas(h)| - 1], Previews(h)[0];
            ga.effectiveAt.Some? && preview.effectiveAt.Some?
            && Velocity(h) == Days(ga.effectiveAt.value, preview.effectiveAt.value)
  {
    DatedRows(h, Gas(h)[|Gas(h)| - 1]);
    DatedRows(h, Previews(h)[0]);
  }

  method PreviewToGaVelocity(events: seq<Event>) returns (result: map<string, int>)
    ensures result == Velocities(events)
  {
    var bySystem := GroupBySystem(events);
    result := map[];
    var rest := bySystem.Keys;
    while rest != {}
      invariant rest <= bySystem.Keys && MeasuredOutside(bySystem, rest, result)
      decreases rest
    {
      var s :| s in rest;
      var previews, ga := Previews(bySystem[s]), Gas(bySystem[s]);
      if previews != [] && ga != [] {
        VelocityIs(bySystem[s]);
        result := result[s := Days(ga[|ga| - 1].effectiveAt.value, previews[0].effectiveAt.value)];
      }
      rest := rest - {s};
    }
    AllMeasured(events, bySystem, result);
  }

  lemma GaInStepwise(h: seq<Event>, i: nat, j: nat)
    requires Stepwise(h) && i < |h| && j < |h| && h[i].state.Ga?
    ensures (h[j].state.Ga? ==> i == j) && (Preview(h[j].state) ==> j < i)
  {
    if i < j {
      StepwiseAdvances(h, i, j);
    } else if j < i {
      StepwiseAdvances(h, j, i);
    }
  }

  /** In a reachable history GA occurs at most once and every preview lies before it. */
  lemma GaIsUniqueAndLast(entities: set<Entity>, evidence: set<string>, es: seq<Event>, x: Entity, i: nat, j: nat)
    requires var h := History(Run(Empty(entities, evidence), es).rows, x); i < |h| && j < |h| && h[i].state.Ga?
    ensures var h := History(Run(Empty(entities, evidence), es).rows, x);
            (h[j].state.Ga? ==> i == j) && (Preview(h[j].state) ==> j < i)
  {
    RunStepwise(Empty(entities, evidence), es, x);
    GaInStepwise(History(Run(Empty(entities, evidence), es).rows, x), i, j);
  }

  /** A preview of any kind whose effective time is known. */
  predicate DatedPreview(e: Event) {
    e.state in {PrivatePreview, LimitedPublicPreview, PublicPreview} && e.effectiveAt != None
  }

  /** The whole days between two instants, rounded down. */
  lemma DaysMean(later: int, earlier: int)
    ensures 24 * 60 * 60 * 1_000_000 * Days(later, earlier) <= later - earlier
    ensures later - earlier < 24 * 60 * 60 * 1_000_000 * (Days(later, earlier) + 1)
  {
  }

  /** The event is a dated preview of this history, and no other comes before it. */
  ghost predicate IsFirstPreview(h: seq<Event>, e: Event) {
    exists k :: 0 <= k < |h| && h[k] == e && DatedPreview(e) && forall j | 0 <= j < k :: !DatedPreview(h[j])
  }

  lemma {:induction false} FirstPreview(h: seq<Event>)
    requires Previews(h) != []
    ensures IsFirstPreview(h, Previews(h)[0])
  {
    var n := |h| - 1;
    if Previews(h[..n]) == [] {
      forall j | 0 <= j < n
        ensures !DatedPreview(h[j])
      {
        DatedRows(h[..n], h[j]);
        assert h[..n][j] == h[j];
      }
      assert Previews(h)[0] == h[n];
    } else {
      FirstPreview(h[..n]);
      var k :| 0 <= k < n && h[..n][k] == Previews(h[..n])[0] && DatedPreview(h[..n][k])
               && forall j | 0 <= j < k :: !DatedPreview(h[..n][j]);
      assert h[k] == Previews(h)[0];
      assert forall j | 0 <= j < k :: h[j] == h[..n][j];
    }
  }

  ghost predicate HasPreview(rows: seq<Event>, s: string) {
    exists e :: e in rows && e.entity == System(s) && DatedPreview(e)
  }

  ghost predicate HasGa(rows: seq<Event>, s: string) {
    exists e :: e in rows && e.entity == System(s) && e.state == Ga && e.effectiveAt != None
  }

  lemma PreviewsMean(rows: seq<Event>, s: string)
    ensures Previews(History(rows, System(s))) != [] <==> HasPreview(rows, s)
  {
    var h := History(rows, System(s));
    if Previews(h) != [] {
      var e := Previews(h)[0];
      DatedRows(h, e);
      HistoryRows(rows, System(s), e);
    }
    if HasPreview(rows, s) {
      var e :| e in rows && e.entity == System(s) && DatedPreview(e);
      HistoryRows(rows, System(s), e);
      DatedRows(h, e);
    }
  }

  lemma GasMean(rows: seq<Event>, s: string)
    ensures Gas(History(rows, System(s))) != [] <==> HasGa(rows, s)
  {
    var h := History(rows, System(s));
    if Gas(h) != [] {
      var e := Gas(h)[0];
      DatedRows(h, e);
      HistoryRows(rows, System(s), e);
    }
    if HasGa(rows, s) {
      var e :| e in rows && e.entity == System(s) && e.state == Ga && e.effectiveAt != None;
      HistoryRows(rows, System(s), e);
      DatedRows(h, e);
    }
  }

  /** The query answers for a system exactly when it has a dated preview and a dated GA event. */
  lemma MeasuredMeans(rows: seq<Event>, s: string)
    ensures s in Velocities(rows) <==> s != "" && HasPreview(rows, s) && HasGa(rows, s)
  {
    SystemsMember(rows, s);
    PreviewsMean(rows, s);
    GasMean(rows, s);
  }

  /**
   On a reachable table the query answers for a system exactly when it has a dated preview and a dated GA event,
   and then it subtracts the first dated preview from the system's only GA event, which was retrieved no earlier.
   */
  lemma VelocityUsesTheOnlyGa(entities: set<Entity>, evidence: set<string>, es: seq<Event>, s: string, g: Event)
    requires var rows := Run(Empty(entities, evidence), es).rows;
             s in Velocities(rows) && g in rows && g.entity == System(s) && g.state.Ga?
    ensures var rows := Run(Empty(entities, evidence), es).rows; var p := Previews(History(rows, System(s)));
            g.effectiveAt.Some? && p != [] && p[0].effectiveAt.Some? && Preview(p[0].state)
            && p[0].retrievedAt <= g.retrievedAt
            && Velocities(rows)[s] == Days(g.effectiveAt.value, p[0].effectiveAt.value)
  {
    var rows := Run(Empty(entities, evidence), es).rows;
    var h := History(rows, System(s));
    var p, last := Previews(h)[0], Gas(h)[|Gas(h)| - 1];
    DatedRows(h, p);
    DatedRows(h, last);
    HistoryRows(rows, System(s), g);
    var i :| 0 <= i < |h| && h[i] == g;
    var j :| 0 <= j < |h| && h[j] == last;
    var k :| 0 <= k < |h| && h[k] == p;
    GaIsUniqueAndLast(entities, evidence, es, System(s), i, j);
    GaIsUniqueAndLast(entities, evidence, es, System(s), i, k);
    RunStepwise(Empty(entities, evidence), es, System(s));
    StepwiseAdvances(h, k, i);
  }

  /** The preview a velocity starts from is the first dated one of the system. */
  lemma VelocityStartsAtFirst(rows: seq<Event>, s: string)
    requires s in Velocities(rows)
    ensures var h := History(rows, System(s)); Previews(h) != [] && IsFirstPreview(h, Previews(h)[0])
  {
    assert Measured(History(rows, System(s)));
    FirstPreview(History(rows, System(s)));
  }

  // ----- the repository -----

  class LifecycleTable {
    const entities: set<Entity>
    const evidence: set<string>
    var rows: seq<Event>

    ghost function State(): Table
      reads this
    {
      Table(entities, evidence, rows)
    }

    constructor (entities: set<Entity>, evidence: set<string>)
      ensures State() == Empty(entities, evidence)
    {
      this.entities, this.evidence := entities, evidence;
      rows := [];
    }

    method HistoryOf(x: Entity) returns (events: seq<Event>)
      ensures events == History(rows, x)
    {
      events := [];
      for i := 0 to |rows|
        invariant events == History(rows[..i], x)
      {
        HistoryAppend(rows[..i], rows[i], x);
        assert rows[..i + 1] == rows[..i] + [rows[i]];
        if rows[i].entity == x {
          events := events + [rows[i]];
        }
      }
      assert rows[..|rows|] == rows;
    }

    method AppendEvent(e: Event) returns (accepted: bool)
      modifies this
      ensures State() == Append(old(State()), e)
      ensures accepted <==> Inserts(old(State()), e)
    {
      var history := HistoryOf(e.entity);
      if !ValidateTransition(history, e).Valid? {
        return false;
      }
      if (exists r | r in rows :: r.id == e.id) || e.entity !in entities || e.evidence !in evidence {
        return false;
      }
      rows := rows + [e];
      return true;
    }
  }
}
