/** Assertions identified by ontology slots, and the observations attached to them. */
module AssertionLedger {
  import opened Common
  import Text

  datatype Slots = Slots(system: string, agent: Option<string>, subject: string, action: string, object_: string)

  datatype State = Affirmed | ExplicitlyUnsupported | Unknown | Partial | Conditional | Disputed

  datatype Scope = Scope(licenseTier: string, availability: string, regions: seq<string>, conditions: seq<string>)

  const DEFAULT_SCOPE := Scope("unknown", "UNKNOWN", [], [])

  /**
   Which identifiers match the pattern of their kind: the assertion's, those of the observation and its evidence, and
   those of the methodology and the taxonomy.
   */
  datatype Fits = Fits(assertion: bool, observation: bool, versions: bool)

  /** The arguments of one `upsert`. */
  datatype Call = Call(
    assertionId: string, observationId: string, slots: Slots, statement: string, rendering: string, scope: Scope,
    state: State, confidence: string, rationale: string, evidenceId: string, observedAt: int,
    methodology: string, taxonomy: string, fits: Fits)

  /** What creation fixes. */
  datatype Core = Core(
    id: string, key: string, slots: Slots, statement: string, rendering: string, state: State, confidence: string,
    rationale: string, firstSeenAt: int, methodology: string, taxonomy: string)

  datatype Assertion = Assertion(core: Core, lastVerifiedAt: int, evidenceIds: seq<string>)

  datatype Observation = Observation(
    id: string, assertionId: string, evidenceId: string, statement: string, observedAt: int, paraphrase: bool,
        scope: Scope)

  datatype Ledger = Ledger(byKey: map<string, Assertion>, observations: seq<Observation>)

  const EMPTY := Ledger(map[], [])

  datatype Outcome = Created | Attached | MissingConditions | InvalidObservation | InvalidAssertion

  /** `assertion_key`: the slots joined by colons, never the prose. */
  function Key(s: Slots): string {
    var agent := if s.agent.Some? && s.agent.value != "" then s.agent.value else "_system";
    s.system + ":" + agent + ":" + s.subject + ":" + s.action + ":" + s.object_
  }

  /** `dict.fromkeys`: the first occurrence of each element, in order. */
  function Dedupe(s: seq<string>): seq<string> {
    if s == [] then []
    else
      var n := |s| - 1;
      var d := Dedupe(s[..n]);
      if s[n] in d then d else d + [s[n]]
  }

  function Observe(l: Ledger, c: Call): Observation {
    var k := Key(c.slots);
    Observation(c.observationId, if k in l.byKey then l.byKey[k].core.id else c.assertionId, c.evidenceId, c.statement,
                c.observedAt, k in l.byKey && l.byKey[k].core.statement != c.statement, c.scope)
  }

  function NewAssertion(c: Call): Assertion {
    Assertion(Core(c.assertionId, Key(c.slots), c.slots, c.statement, c.rendering, c.state, c.confidence, c.rationale,
                   c.observedAt, c.methodology, c.taxonomy), c.observedAt, [c.evidenceId])
  }

  /** Everything the assertion's validator refuses although the observation's has accepted it. */
  predicate RefusedLate(c: Call) {
    c.state.Disputed? || !c.fits.versions
  }

  /** An attached observation carries the stored identifier; the one passed in is then not looked at. */
  predicate ObservationFits(l: Ledger, c: Call) {
    c.fits.observation && (Key(c.slots) in l.byKey || c.fits.assertion)
  }

  function Verdict(l: Ledger, c: Call): Outcome {
    if c.state.Conditional? && c.scope.conditions == [] then MissingConditions
    else if !ObservationFits(l, c) then InvalidObservation
    else if Key(c.slots) in l.byKey then Attached
    else if RefusedLate(c) then InvalidAssertion
    else Created
  }

  /**
   The ledger after one call.  A creation refused by the assertion's own validator has already recorded its
   observation.
   */
  function Effect(l: Ledger, c: Call): Ledger {
    var k := Key(c.slots);
    var observations := l.observations + [Observe(l, c)];
    match Verdict(l, c)
    case MissingConditions => l
    case InvalidObservation => l
    case InvalidAssertion => l.(observations := observations)
    case Created => Ledger(l.byKey[k := NewAssertion(c)], observations)
    case Attached =>
      var a := l.byKey[k];
      var refreshed := a.(lastVerifiedAt := c.observedAt, evidenceIds := Dedupe(a.evidenceIds + [c.evidenceId]));
      Ledger(l.byKey[k := refreshed], observations)
  }

  function Run(l: Ledger, cs: seq<Call>): Ledger
    decreases |cs|
  {
    if cs == [] then l else Run(Effect(l, cs[0]), cs[1..])
  }

  /** The observations of one assertion, in call order. */
  function Of(obs: seq<Observation>, id: string): seq<Observation> {
    if obs == [] then []
    else
      var n := |obs| - 1;
      Of(obs[..n], id) + if obs[n].assertionId == id then [obs[n]] else []
  }

  function EvidenceOf(obs: seq<Observation>): (e: seq<string>)
    ensures |e| == |obs|
  {
    if obs == [] then [] else EvidenceOf(obs[..|obs| - 1]) + [obs[|obs| - 1].evidenceId]
  }

  lemma {:induction false} DedupeMembers(s: seq<string>, x: string)
    ensures x in Dedupe(s) <==> x in s
  {
    if s != [] {
      var n := |s| - 1;
      DedupeMembers(s[..n], x);
      DedupeMembers(s[..n], s[n]);
      assert s == s[..n] + [s[n]];
    }
  }

  lemma DedupeStep(s: seq<string>, x: string)
    ensures Dedupe(s + [x]) == if x in Dedupe(s) then Dedupe(s) else Dedupe(s) + [x]
  {
    assert (s + [x])[..|s + [x]| - 1] == s;
  }

  lemma {:induction false} DedupeFixed(s: seq<string>)
    ensures Dedupe(Dedupe(s)) == Dedupe(s)
  {
    if s != [] {
      var n := |s| - 1;
      DedupeFixed(s[..n]);
      DedupeStep(Dedupe(s[..n]), s[n]);
    }
  }

  /** Folding one more element in is deduplicating the longer list. */
  lemma DedupeFold(s: seq<string>, x: string)
    ensures Dedupe(Dedupe(s) + [x]) == Dedupe(s + [x])
  {
    DedupeStep(s, x);
    DedupeStep(Dedupe(s), x);
    DedupeFixed(s);
  }

  lemma OfAppend(obs: seq<Observation>, o: Observation, id: string)
    ensures Of(obs + [o], id) == Of(obs, id) + (if o.assertionId == id then [o] else [])
  {
    assert (obs + [o])[..|obs + [o]| - 1] == obs;
  }

  lemma {:induction false} OfRows(obs: seq<Observation>, id: string, o: Observation)
    ensures o in Of(obs, id) <==> o in obs && o.assertionId == id
  {
    if obs != [] {
      var n := |obs| - 1;
      OfRows(obs[..n], id, o);
      assert obs == obs[..n] + [obs[n]];
    }
  }

  lemma EvidenceAppend(obs: seq<Observation>, o: Observation)
    ensures EvidenceOf(obs + [o]) == EvidenceOf(obs) + [o.evidenceId]
  {
    assert (obs + [o])[..|obs + [o]| - 1] == obs;
  }

  // ----- the law, and exactly which calls keep it -----

  /** The assertion is exactly what its own observations say. */
  ghost predicate Reflects(l: Ledger, k: string)
    requires k in l.byKey
  {
    var a := l.byKey[k];
    var mine := Of(l.observations, a.core.id);
    a.core.key == k == Key(a.core.slots) && mine != [] && a.evidenceIds == Dedupe(EvidenceOf(mine))
    && a.core.firstSeenAt == mine[0].observedAt && a.core.statement == mine[0].statement
    && a.lastVerifiedAt == mine[|mine| - 1].observedAt
  }

  ghost predicate DistinctIds(l: Ledger) {
    forall j, k | j in l.byKey && k in l.byKey && l.byKey[j].core.id == l.byKey[k].core.id :: j == k
  }

  /** Every assertion reflects its observations, and no two share an identifier. */
  ghost predicate Law(l: Ledger) {
    (forall k | k in l.byKey :: Reflects(l, k)) && DistinctIds(l)
  }

  /**
   What the ledger holds under the identifier of a creation: no assertion, and at most repetitions of its own
   observation.
   */
  ghost predicate CreationFits(l: Ledger, c: Call) {
    var mine := Of(l.observations, c.assertionId);
    NoneHas(l, c.assertionId) && (mine == [] || Repeats(mine, c))
  }

  /** What a caller has to see to before the call. */
  ghost predicate CallFits(l: Ledger, c: Call) {
    (Verdict(l, c).Created? ==> CreationFits(l, c))
        && (Verdict(l, c).InvalidAssertion? ==> NothingNew(l, Observe(l, c)))
  }

  lemma OthersReflect(l: Ledger, m: Ledger, o: Observation, k: string)
    requires k in l.byKey && k in m.byKey && m.byKey[k] == l.byKey[k] && Reflects(l, k)
    requires m.observations == l.observations + [o] && o.assertionId != l.byKey[k].core.id
    ensures Reflects(m, k)
  {
    var mine := Of(l.observations, l.byKey[k].core.id);
    OfAppend(l.observations, o, l.byKey[k].core.id);
    assert mine + [] == mine;
  }

  /** An observation and the assertion at `key` change, and the identifier is nobody else's. */
  lemma AllOthersReflect(l: Ledger, m: Ledger, o: Observation, key: string)
    requires Law(l) && m.observations == l.observations + [o]
    requires forall k | k in l.byKey && k != key :: k in m.byKey && m.byKey[k] == l.byKey[k]
    requires forall k | k in l.byKey && k != key :: o.assertionId != l.byKey[k].core.id
    ensures forall k | k in l.byKey && k != key :: Reflects(m, k)
  {
    forall k | k in l.byKey && k != key
      ensures Reflects(m, k)
    {
      OthersReflect(l, m, o, k);
    }
  }

  ghost predicate NoneHas(l: Ledger, id: string) {
    forall k | k in l.byKey :: l.byKey[k].core.id != id
  }

  lemma DistinctOneMore(l: Ledger, m: Ledger, key: string, a: Assertion)
    requires DistinctIds(l) && key !in l.byKey && m.byKey == l.byKey[key := a]
    ensures DistinctIds(m) <==> NoneHas(l, a.core.id)
  {
    if !NoneHas(l, a.core.id) {
      var k :| k in l.byKey && l.byKey[k].core.id == a.core.id;
      assert m.byKey[k].core.id == m.byKey[key].core.id && k != key;
    }
  }

  /** With a new assertion the law comes down to its identifier being new and to the assertion itself. */
  lemma LawOneMore(l: Ledger, m: Ledger, o: Observation, key: string, a: Assertion)
    requires Law(l) && key !in l.byKey && m.byKey == l.byKey[key := a] && m.observations == l.observations + [o]
    requires o.assertionId == a.core.id
    ensures Law(m) <==> NoneHas(l, a.core.id) && Reflects(m, key)
  {
    DistinctOneMore(l, m, key, a);
    if NoneHas(l, a.core.id) {
      AllOthersReflect(l, m, o, key);
    }
  }

  lemma OneEvidence(mine: seq<Observation>, o: Observation)
    ensures Dedupe(EvidenceOf(mine + [o])) == [o.evidenceId]
       <==> mine == [] || Dedupe(EvidenceOf(mine)) == [o.evidenceId]
  {
    EvidenceAppend(mine, o);
    DedupeStep(EvidenceOf(mine), o.evidenceId);
    if mine != [] {
      DedupeMembers(EvidenceOf(mine), EvidenceOf(mine)[0]);
    }
  }

  /** The evidence, first time and statement of the observations already there are those of the creation. */
  ghost predicate Repeats(mine: seq<Observation>, c: Call) {
    Dedupe(EvidenceOf(mine)) == [c.evidenceId] && mine != []
    && mine[0].observedAt == c.observedAt && mine[0].statement == c.statement
  }

  /** The new assertion itself: its own observation comes last among those of its identifier. */
  lemma NewReflectsIff(m: Ledger, mine: seq<Observation>, o: Observation, c: Call)
    requires Key(c.slots) in m.byKey && m.byKey[Key(c.slots)] == NewAssertion(c)
    requires Of(m.observations, c.assertionId) == mine + [o]
    requires o.evidenceId == c.evidenceId && o.observedAt == c.observedAt && o.statement == c.statement
    ensures Reflects(m, Key(c.slots)) <==> mine == [] || Repeats(mine, c)
  {
    OneEvidence(mine, o);
    assert (mine + [o])[|mine|] == o;
    if mine != [] {
      assert (mine + [o])[0] == mine[0];
    }
  }

  lemma CreationKeepsLawIff(l: Ledger, c: Call)
    requires Law(l) && Verdict(l, c).Created?
    ensures Law(Effect(l, c)) <==> CreationFits(l, c)
  {
    var m, o, key := Effect(l, c), Observe(l, c), Key(c.slots);
    assert m == Ledger(l.byKey[key := NewAssertion(c)], l.observations + [o]);
    OfAppend(l.observations, o, c.assertionId);
    NewReflectsIff(m, Of(l.observations, c.assertionId), o, c);
    LawOneMore(l, m, o, key, NewAssertion(c));
  }

  /** One more observation for an assertion that is not touched. */
  lemma OrphanReflectsIff(l: Ledger, m: Ledger, o: Observation, k: string)
    requires k in l.byKey && Reflects(l, k) && m.byKey == l.byKey && m.observations == l.observations + [o]
    requires o.assertionId == l.byKey[k].core.id
    ensures Reflects(m, k) <==> o.evidenceId in l.byKey[k].evidenceIds && l.byKey[k].lastVerifiedAt == o.observedAt
  {
    var mine := Of(l.observations, o.assertionId);
    OfAppend(l.observations, o, o.assertionId);
    EvidenceAppend(mine, o);
    DedupeStep(EvidenceOf(mine), o.evidenceId);
    assert (mine + [o])[0] == mine[0];
  }

  /** The observation tells the assertion with its identifier, if there is one, nothing new. */
  ghost predicate NothingNew(l: Ledger, o: Observation) {
    forall k | k in l.byKey && l.byKey[k].core.id == o.assertionId ::
      o.evidenceId in l.byKey[k].evidenceIds && l.byKey[k].lastVerifiedAt == o.observedAt
  }

  lemma LawWithOrphan(l: Ledger, m: Ledger, o: Observation)
    requires Law(l) && m.byKey == l.byKey && m.observations == l.observations + [o]
    ensures Law(m) <==> NothingNew(l, o)
  {
    assert DistinctIds(m);
    forall k | k in l.byKey
      ensures Reflects(m, k) <==>
                (l.byKey[k].core.id == o.assertionId ==>
                   o.evidenceId in l.byKey[k].evidenceIds && l.byKey[k].lastVerifiedAt == o.observedAt)
    {
      if l.byKey[k].core.id == o.assertionId {
        OrphanReflectsIff(l, m, o, k);
      } else {
        OthersReflect(l, m, o, k);
      }
    }
  }

  lemma RefusalKeepsLawIff(l: Ledger, c: Call)
    requires Law(l) && Verdict(l, c).InvalidAssertion?
    ensures Law(Effect(l, c)) <==> NothingNew(l, Observe(l, c))
  {
    assert Effect(l, c) == Ledger(l.byKey, l.observations + [Observe(l, c)]);
    LawWithOrphan(l, Effect(l, c), Observe(l, c));
  }

  lemma AttachedReflects(l: Ledger, c: Call)
    requires Verdict(l, c).Attached? && Reflects(l, Key(c.slots))
    ensures Reflects(Effect(l, c), Key(c.slots))
  {
    var a := l.byKey[Key(c.slots)];
    var mine := Of(l.observations, a.core.id);
    var o := Observe(l, c);
    OfAppend(l.observations, o, a.core.id);
    EvidenceAppend(mine, o);
    DedupeFold(EvidenceOf(mine), c.evidenceId);
  }

  lemma SameIdsDistinct(l: Ledger, m: Ledger)
    requires DistinctIds(l) && m.byKey.Keys == l.byKey.Keys
    requires forall k | k in l.byKey :: m.byKey[k].core.id == l.byKey[k].core.id
    ensures DistinctIds(m)
  {
  }

  lemma OthersDiffer(l: Ledger, key: string)
    requires DistinctIds(l) && key in l.byKey
    ensures forall k | k in l.byKey && k != key :: l.byKey[k].core.id != l.byKey[key].core.id
  {
  }

  lemma AttachedShape(l: Ledger, c: Call)
    requires Verdict(l, c).Attached?
    ensures var m, o, key := Effect(l, c), Observe(l, c), Key(c.slots);
            m.observations == l.observations + [o] && o.assertionId == l.byKey[key].core.id
            && m.byKey.Keys == l.byKey.Keys
            && (forall k | k in l.byKey :: m.byKey[k].core == l.byKey[k].core
                  && (k != key ==> m.byKey[k] == l.byKey[k]))
  {
  }

  lemma AttachingKeepsOne(l: Ledger, c: Call, k: string)
    requires Verdict(l, c).Attached? && k in l.byKey && Reflects(l, k)
    requires k != Key(c.slots) ==> l.byKey[k].core.id != l.byKey[Key(c.slots)].core.id
    ensures k in Effect(l, c).byKey && Reflects(Effect(l, c), k)
  {
    if k == Key(c.slots) {
      AttachedReflects(l, c);
    } else {
      AttachedShape(l, c);
      OthersReflect(l, Effect(l, c), Observe(l, c), k);
    }
  }

  /** An attached observation always keeps the law, whatever identifiers it came with. */
  lemma AttachingKeepsLaw(l: Ledger, c: Call)
    requires Law(l) && Verdict(l, c).Attached?
    ensures Law(Effect(l, c))
  {
    AttachedShape(l, c);
    OthersDiffer(l, Key(c.slots));
    SameIdsDistinct(l, Effect(l, c));
    forall k | k in Effect(l, c).byKey
      ensures Reflects(Effect(l, c), k)
    {
      AttachingKeepsOne(l, c, k);
    }
  }

  /** One call keeps the law exactly when it meets its condition. */
  lemma CallKeepsLawIff(l: Ledger, c: Call)
    requires Law(l)
    ensures Law(Effect(l, c)) <==> CallFits(l, c)
  {
    match Verdict(l, c)
    case Created => CreationKeepsLawIff(l, c);
    case InvalidAssertion => RefusalKeepsLawIff(l, c);
    case Attached => AttachingKeepsLaw(l, c);
    case MissingConditions =>
    case InvalidObservation =>
  }

  /** The law holds now and after each call. */
  ghost predicate Lawful(l: Ledger, cs: seq<Call>)
    decreases |cs|
  {
    Law(l) && (cs == [] || Lawful(Effect(l, cs[0]), cs[1..]))
  }

  ghost predicate AllFit(l: Ledger, cs: seq<Call>)
    decreases |cs|
  {
    cs == [] || (CallFits(l, cs[0]) && AllFit(Effect(l, cs[0]), cs[1..]))
  }

  /** Over any calls, refused ones included, the law holds throughout exactly when every call meets its condition. */
  lemma {:induction false} LawfulIffAllFit(l: Ledger, cs: seq<Call>)
    requires Law(l)
    ensures Lawful(l, cs) <==> AllFit(l, cs)
    decreases |cs|
  {
    if cs != [] {
      CallKeepsLawIff(l, cs[0]);
      if CallFits(l, cs[0]) {
        LawfulIffAllFit(Effect(l, cs[0]), cs[1..]);
      }
    }
  }

  // ----- compatible identifiers -----

  /**
   Two calls may share an assertion identifier only for the same key, and not when the earlier one can be refused
   late; identifiers that are fresh for every call satisfy this at once.
   */
  predicate Compatible(a: Call, b: Call) {
    a.assertionId == b.assertionId ==> Key(a.slots) == Key(b.slots) && !RefusedLate(a)
  }

  ghost predicate CompatibleCalls(cs: seq<Call>) {
    forall i, j | 0 <= i < j < |cs| :: Compatible(cs[i], cs[j])
  }

  ghost predicate Owned(l: Ledger, seen: seq<Call>, k: string)
    requires k in l.byKey
  {
    exists c :: c in seen && c.assertionId == l.byKey[k].core.id && Key(c.slots) == k
  }

  /** The observation has the identifier of an assertion. */
  ghost predicate Placed(l: Ledger, o: Observation) {
    exists k :: k in l.byKey && l.byKey[k].core.id == o.assertionId
  }

  /** The observation was left behind by a refused creation. */
  ghost predicate LeftBehind(seen: seq<Call>, o: Observation) {
    exists c :: c in seen && c.assertionId == o.assertionId && RefusedLate(c)
  }

  ghost predicate Inv(l: Ledger, seen: seq<Call>) {
    && Law(l)
    && (forall k | k in l.byKey :: Owned(l, seen, k))
    && (forall o | o in l.observations :: Placed(l, o) || LeftBehind(seen, o))
  }

  lemma {:induction false} OfNone(obs: seq<Observation>, id: string)
    requires forall o | o in obs :: o.assertionId != id
    ensures Of(obs, id) == []
  {
    if obs != [] {
      OfNone(obs[..|obs| - 1], id);
    }
  }

  /** A key that is not stored yet comes with an identifier that no assertion has. */
  lemma NewIdUnowned(l: Ledger, seen: seq<Call>, c: Call)
    requires Key(c.slots) !in l.byKey && forall k | k in l.byKey :: Owned(l, seen, k)
    requires forall b | b in seen :: Compatible(b, c)
    ensures NoneHas(l, c.assertionId)
  {
    forall k | k in l.byKey
      ensures l.byKey[k].core.id != c.assertionId
    {
      assert Owned(l, seen, k);
    }
  }

  lemma NewIdUnobserved(l: Ledger, seen: seq<Call>, c: Call)
    requires NoneHas(l, c.assertionId) && forall o | o in l.observations :: Placed(l, o) || LeftBehind(seen, o)
    requires forall b | b in seen :: Compatible(b, c)
    ensures Of(l.observations, c.assertionId) == []
  {
    forall o | o in l.observations
      ensures o.assertionId != c.assertionId
    {
      assert Placed(l, o) || LeftBehind(seen, o);
    }
    OfNone(l.observations, c.assertionId);
  }

  /** A call whose identifier is new to the ledger meets the exact condition. */
  lemma NewIdFits(l: Ledger, c: Call)
    requires Key(c.slots) !in l.byKey ==> NoneHas(l, c.assertionId) && Of(l.observations, c.assertionId) == []
    ensures CallFits(l, c)
  {
  }

  /** Compatible calls meet the exact condition. */
  lemma CompatibleFits(l: Ledger, seen: seq<Call>, c: Call)
    requires Inv(l, seen)
    requires forall b | b in seen :: Compatible(b, c)
    ensures CallFits(l, c)
  {
    if Key(c.slots) !in l.byKey {
      NewIdUnowned(l, seen, c);
      NewIdUnobserved(l, seen, c);
    }
    NewIdFits(l, c);
  }

  /** What a call can change: one observation more, one assertion more or refreshed. */
  lemma EffectShape(l: Ledger, c: Call)
    ensures var m := Effect(l, c);
            && (forall k | k in l.byKey :: k in m.byKey && m.byKey[k].core == l.byKey[k].core)
            && (forall k | k in m.byKey && k !in l.byKey ::
                  k == Key(c.slots) && Verdict(l, c).Created? && m.byKey[k].core.id == c.assertionId)
            && (forall o | o in m.observations :: o in l.observations || o == Observe(l, c))
  {
  }

  lemma StepOwns(l: Ledger, seen: seq<Call>, c: Call, k: string)
    requires Inv(l, seen) && k in Effect(l, c).byKey
    ensures Owned(Effect(l, c), seen + [c], k)
  {
    EffectShape(l, c);
    assert c in seen + [c];
    if k in l.byKey {
      assert Owned(l, seen, k);
      var b :| b in seen && b.assertionId == l.byKey[k].core.id && Key(b.slots) == k;
      assert b in seen + [c];
    }
  }

  /** An earlier observation keeps its place or its excuse. */
  lemma OldObservation(l: Ledger, seen: seq<Call>, c: Call, o: Observation)
    requires Placed(l, o) || LeftBehind(seen, o)
    ensures Placed(Effect(l, c), o) || LeftBehind(seen + [c], o)
  {
    EffectShape(l, c);
    if Placed(l, o) {
      var k :| k in l.byKey && l.byKey[k].core.id == o.assertionId;
      assert k in Effect(l, c).byKey;
    } else {
      var b :| b in seen && b.assertionId == o.assertionId && RefusedLate(b);
      assert b in seen + [c];
    }
  }

  lemma NewObservation(l: Ledger, seen: seq<Call>, c: Call)
    requires !Verdict(l, c).MissingConditions? && !Verdict(l, c).InvalidObservation?
    ensures Placed(Effect(l, c), Observe(l, c)) || LeftBehind(seen + [c], Observe(l, c))
  {
    var m, o, key := Effect(l, c), Observe(l, c), Key(c.slots);
    if Verdict(l, c).InvalidAssertion? {
      assert c in seen + [c] && o.assertionId == c.assertionId;
    } else {
      assert key in m.byKey && m.byKey[key].core.id == o.assertionId;
    }
  }

  lemma StepKeepsInv(l: Ledger, seen: seq<Call>, c: Call)
    requires Inv(l, seen)
    requires forall b | b in seen :: Compatible(b, c)
    ensures Inv(Effect(l, c), seen + [c])
  {
    var m := Effect(l, c);
    CompatibleFits(l, seen, c);
    CallKeepsLawIff(l, c);
    forall k | k in m.byKey
      ensures Owned(m, seen + [c], k)
    {
      StepOwns(l, seen, c, k);
    }
    forall o | o in m.observations
      ensures Placed(m, o) || LeftBehind(seen + [c], o)
    {
      EffectShape(l, c);
      if o in l.observations {
        OldObservation(l, seen, c, o);
      } else {
        NewObservation(l, seen, c);
      }
    }
  }

  lemma EarlierCompatible(seen: seq<Call>, cs: seq<Call>)
    requires cs != [] && CompatibleCalls(seen + cs)
    ensures forall b | b in seen :: Compatible(b, cs[0])
  {
    forall b | b in seen
      ensures Compatible(b, cs[0])
    {
      var i :| 0 <= i < |seen| && seen[i] == b;
      assert (seen + cs)[i] == b && (seen + cs)[|seen|] == cs[0];
    }
  }

  lemma NextCall(seen: seq<Call>, cs: seq<Call>)
    requires cs != []
    ensures seen + [cs[0]] + cs[1..] == seen + cs
  {
  }

  lemma {:induction false} RunKeepsInv(l: Ledger, seen: seq<Call>, cs: seq<Call>)
    requires Inv(l, seen) && CompatibleCalls(seen + cs)
    ensures Inv(Run(l, cs), seen + cs)
    decreases |cs|
  {
    if cs == [] {
      assert seen + cs == seen;
    } else {
      EarlierCompatible(seen, cs);
      StepKeepsInv(l, seen, cs[0]);
      NextCall(seen, cs);
      RunKeepsInv(Effect(l, cs[0]), seen + [cs[0]], cs[1..]);
    }
  }

  /**
   After any sequence of calls with compatible identifiers each key has one assertion, told apart by its identifier,
   whose evidence is the first-occurrence deduplication of its observations' evidence in call order.
   */
  lemma AssertionsReflectObservations(cs: seq<Call>)
    requires CompatibleCalls(cs)
    ensures Law(Run(EMPTY, cs))
  {
    assert [] + cs == cs;
    RunKeepsInv(EMPTY, [], cs);
  }

  /** Identity and statement are frozen at creation, whatever later calls say. */
  lemma {:induction false} CoreIsFrozen(l: Ledger, cs: seq<Call>, k: string)
    requires k in l.byKey
    ensures k in Run(l, cs).byKey && Run(l, cs).byKey[k].core == l.byKey[k].core
    decreases |cs|
  {
    if cs != [] {
      CoreIsFrozen(Effect(l, cs[0]), cs[1..], k);
    }
  }

  /**
   Reusing the identifier of a creation refused late, with other evidence, breaks the law: the observation left behind
   then belongs to an assertion that does not list its evidence.
   */
  lemma RefusedCreationLeavesAnOrphan(c: Call, d: Call)
    requires Verdict(EMPTY, c).InvalidAssertion? && Verdict(Effect(EMPTY, c), d).Created?
    requires c.assertionId == d.assertionId && c.evidenceId != d.evidenceId
    ensures !Reflects(Effect(Effect(EMPTY, c), d), Key(d.slots))
  {
    var o := Observe(EMPTY, c);
    var l := Effect(EMPTY, c);
    assert l.observations == [] + [o];
    OfAppend([], o, c.assertionId);
    EvidenceAppend([], o);
    DedupeStep([], o.evidenceId);
    assert Of(l.observations, c.assertionId) == [o] == [] + [o];
    assert Dedupe(EvidenceOf([] + [o])) == [c.evidenceId];
    var m := Effect(l, d);
    OfAppend(l.observations, Observe(l, d), d.assertionId);
    NewReflectsIff(m, [o], Observe(l, d), d);
  }

  // ----- which claims share an assertion -----

  /** The agent as the key has it. */
  function AgentOf(s: Slots): string {
    if s.agent.Some? && s.agent.value != "" then s.agent.value else "_system"
  }

  predicate NoColon(s: string) {
    forall i | 0 <= i < |s| :: s[i] != ':'
  }

  /** Every slot but the last is free of the separator. */
  predicate ColonFree(s: Slots) {
    NoColon(s.system) && NoColon(AgentOf(s)) && NoColon(s.subject) && NoColon(s.action)
  }

  predicate SameClaim(s: Slots, t: Slots) {
    && s.system == t.system && AgentOf(s) == AgentOf(t)
    && s.subject == t.subject && s.action == t.action && s.object_ == t.object_
  }

  /** Text up to the first colon is determined by the whole text. */
  lemma FirstField(x: string, r: string, y: string, t: string)
    requires NoColon(x) && NoColon(y) && x + (":" + r) == y + (":" + t)
    ensures x == y && r == t
  {
    var p, q := x + (":" + r), y + (":" + t);
    assert p[|x|] == ':' && q[|y|] == ':';
    assert forall i | 0 <= i < |x| :: p[i] == x[i];
    assert forall i | 0 <= i < |y| :: q[i] == y[i];
    assert |x| == |y|;
    assert x == p[..|x|] && y == q[..|y|];
    assert r == p[|x| + 1..] && t == q[|y| + 1..];
  }

  function Nested(s: Slots): string {
    s.system + (":" + (AgentOf(s) + (":" + (s.subject + (":" + (s.action + (":" + s.object_)))))))
  }

  lemma KeyNests(s: Slots)
    ensures Key(s) == Nested(s)
  {
  }

  /** Slots free of colons share a key exactly when they make the same claim. */
  lemma KeyMeansSameClaim(s: Slots, t: Slots)
    requires ColonFree(s) && ColonFree(t)
    ensures Key(s) == Key(t) <==> SameClaim(s, t)
  {
    KeyNests(s);
    KeyNests(t);
    if Key(s) == Key(t) {
      var s4, t4 := s.action + (":" + s.object_), t.action + (":" + t.object_);
      var s3, t3 := s.subject + (":" + s4), t.subject + (":" + t4);
      FirstField(s.system, AgentOf(s) + (":" + s3), t.system, AgentOf(t) + (":" + t3));
      FirstField(AgentOf(s), s3, AgentOf(t), t3);
      FirstField(s.subject, s4, t.subject, t4);
      FirstField(s.action, s.object_, t.action, t.object_);
    }
  }

  // ----- where what is stored comes from -----

  /** What the observation's validator and the check on CONDITIONAL let through. */
  predicate Admitted(c: Call) {
    (c.state.Conditional? ==> c.scope.conditions != []) && c.fits.observation
  }

  /** The assertion is the one this call asked for, and the call was not to be refused. */
  ghost predicate AskedFor(a: Core, k: string, c: Call) {
    && Admitted(c) && c.fits.assertion && c.fits.versions && !c.state.Disputed? && Key(c.slots) == k
    && a.id == c.assertionId && a.key == k && a.slots == c.slots && a.statement == c.statement
    && a.rendering == c.rendering && a.state == c.state && a.confidence == c.confidence && a.rationale == c.rationale
    && a.firstSeenAt == c.observedAt && a.methodology == c.methodology && a.taxonomy == c.taxonomy
  }

  ghost predicate ObservedBy(o: Observation, c: Call) {
    && Admitted(c) && o.id == c.observationId && o.evidenceId == c.evidenceId && o.statement == c.statement
    && o.observedAt == c.observedAt && o.scope == c.scope
  }

  ghost predicate Traced(l: Ledger, seen: seq<Call>) {
    && (forall k | k in l.byKey :: exists i :: 0 <= i < |seen| && AskedFor(l.byKey[k].core, k, seen[i]))
    && (forall o | o in l.observations :: exists i :: 0 <= i < |seen| && ObservedBy(o, seen[i]))
  }

  lemma StepTraces(l: Ledger, seen: seq<Call>, c: Call)
    requires Traced(l, seen)
    ensures Traced(Effect(l, c), seen + [c])
  {
    var m, more := Effect(l, c), seen + [c];
    EffectShape(l, c);
    assert more[|seen|] == c;
    forall k | k in m.byKey
      ensures exists i :: 0 <= i < |more| && AskedFor(m.byKey[k].core, k, more[i])
    {
      if k in l.byKey {
        var i :| 0 <= i < |seen| && AskedFor(l.byKey[k].core, k, seen[i]);
        assert more[i] == seen[i];
      } else {
        assert AskedFor(m.byKey[k].core, k, more[|seen|]);
      }
    }
    forall o | o in m.observations
      ensures exists i :: 0 <= i < |more| && ObservedBy(o, more[i])
    {
      if o in l.observations {
        var i :| 0 <= i < |seen| && ObservedBy(o, seen[i]);
        assert more[i] == seen[i];
      } else {
        assert ObservedBy(o, more[|seen|]);
      }
    }
  }

  lemma {:induction false} RunTraces(l: Ledger, seen: seq<Call>, cs: seq<Call>)
    requires Traced(l, seen)
    ensures Traced(Run(l, cs), seen + cs)
    decreases |cs|
  {
    if cs == [] {
      assert seen + cs == seen;
    } else {
      StepTraces(l, seen, cs[0]);
      NextCall(seen, cs);
      RunTraces(Effect(l, cs[0]), seen + [cs[0]], cs[1..]);
    }
  }

  /**
   After any calls every assertion is, field by field, the one some call asked for that nothing refuses, so no stored
   assertion is DISPUTED; and every observation is that of some call that was admitted.
   */
  lemma EverythingIsTraced(cs: seq<Call>)
    ensures Traced(Run(EMPTY, cs), cs)
  {
    RunTraces(EMPTY, [], cs);
    assert [] + cs == cs;
  }

  /** What an admitted call adds, and that any other adds nothing. */
  lemma AdmittedIsRecorded(l: Ledger, c: Call)
    ensures var m, stored := Effect(l, c), Key(c.slots) in l.byKey;
            && (Admitted(c) && (stored || c.fits.assertion) ==>
                  && |m.observations| == |l.observations| + 1 && m.observations[..|l.observations|] == l.observations
                  && ObservedBy(m.observations[|l.observations|], c))
            && (!(Admitted(c) && (stored || c.fits.assertion)) ==> m == l)
            && (Key(c.slots) in m.byKey <==>
                  stored || (Admitted(c) && c.fits.assertion && c.fits.versions && !c.state.Disputed?))
  {
  }

  ghost predicate AllColonFree(cs: seq<Call>) {
    forall i | 0 <= i < |cs| :: ColonFree(cs[i].slots)
  }

  /**
   After any calls with colon-free slots, an admitted call is attached exactly when a stored assertion makes the same
   claim, and then it is attached to that one.
   */
  lemma AttachedIffSameClaim(cs: seq<Call>, c: Call)
    requires AllColonFree(cs) && ColonFree(c.slots) && Admitted(c)
    ensures var l := Run(EMPTY, cs);
            && (Verdict(l, c).Attached? <==> exists k :: k in l.byKey && SameClaim(l.byKey[k].core.slots, c.slots))
            && (forall k | k in l.byKey && SameClaim(l.byKey[k].core.slots, c.slots) ::
                  Observe(l, c).assertionId == l.byKey[k].core.id && c.evidenceId in Effect(l, c).byKey[k].evidenceIds)
  {
    EverythingIsTraced(cs);
    var l := Run(EMPTY, cs);
    forall k | k in l.byKey
      ensures SameClaim(l.byKey[k].core.slots, c.slots) <==> k == Key(c.slots)
    {
      StoredClaim(l, cs, c, k);
    }
    if Key(c.slots) in l.byKey {
      AttachedIsListed(l, c);
    }
  }

  lemma StoredClaim(l: Ledger, cs: seq<Call>, c: Call, k: string)
    requires Traced(l, cs) && AllColonFree(cs) && ColonFree(c.slots) && k in l.byKey
    ensures SameClaim(l.byKey[k].core.slots, c.slots) <==> k == Key(c.slots)
  {
    var i :| 0 <= i < |cs| && AskedFor(l.byKey[k].core, k, cs[i]);
    KeyMeansSameClaim(cs[i].slots, c.slots);
  }

  lemma AttachedIsListed(l: Ledger, c: Call)
    requires Key(c.slots) in l.byKey && Admitted(c)
    ensures var key := Key(c.slots);
            && Observe(l, c).assertionId == l.byKey[key].core.id
            && key in Effect(l, c).byKey && c.evidenceId in Effect(l, c).byKey[key].evidenceIds
  {
    DedupeMembers(l.byKey[Key(c.slots)].evidenceIds + [c.evidenceId], c.evidenceId);
  }

  // ----- paraphrases -----

  /** An observation counts as a paraphrase exactly when it says something other than its assertion does. */
  ghost predicate ParaphrasesMarked(l: Ledger) {
    forall k, o | k in l.byKey && o in l.observations && o.assertionId == l.byKey[k].core.id ::
      o.paraphrase <==> o.statement != l.byKey[k].core.statement
  }

  lemma StepMarks(l: Ledger, seen: seq<Call>, c: Call)
    requires Inv(l, seen) && ParaphrasesMarked(l) && forall b | b in seen :: Compatible(b, c)
    ensures ParaphrasesMarked(Effect(l, c))
  {
    var m := Effect(l, c);
    EffectShape(l, c);
    StepKeepsInv(l, seen, c);
    if Key(c.slots) !in l.byKey {
      NewIdUnowned(l, seen, c);
      NewIdUnobserved(l, seen, c);
    }
    forall k, o | k in m.byKey && o in m.observations && o.assertionId == m.byKey[k].core.id
      ensures o.paraphrase <==> o.statement != m.byKey[k].core.statement
    {
      if o !in l.observations {
        assert o == Observe(l, c);
        assert Key(c.slots) in m.byKey ==> m.byKey[Key(c.slots)].core.id == o.assertionId;
        assert Key(c.slots) in m.byKey ==> k == Key(c.slots);
      } else if k !in l.byKey {
        OfRows(l.observations, c.assertionId, o);
        assert false;
      }
    }
  }

  lemma {:induction false} RunMarks(l: Ledger, seen: seq<Call>, cs: seq<Call>)
    requires Inv(l, seen) && CompatibleCalls(seen + cs) && ParaphrasesMarked(l)
    ensures ParaphrasesMarked(Run(l, cs))
    decreases |cs|
  {
    if cs != [] {
      EarlierCompatible(seen, cs);
      StepMarks(l, seen, cs[0]);
      StepKeepsInv(l, seen, cs[0]);
      NextCall(seen, cs);
      RunMarks(Effect(l, cs[0]), seen + [cs[0]], cs[1..]);
    }
  }

  lemma ParaphraseMeans(cs: seq<Call>)
    requires CompatibleCalls(cs)
    ensures ParaphrasesMarked(Run(EMPTY, cs))
  {
    assert [] + cs == cs;
    RunMarks(EMPTY, [], cs);
  }

  // ----- current scope -----

  /** `(observed_at, id)` of `a` is greater than that of `b`. */
  predicate Later(a: Observation, b: Observation) {
    a.observedAt > b.observedAt || (a.observedAt == b.observedAt && Text.Less(b.id, a.id))
  }

  /** Python's `max` keeps the first of equal elements. */
  function Latest(obs: seq<Observation>): Observation
    requires obs != []
  {
    var n := |obs| - 1;
    if n == 0 then obs[0]
    else
      var best := Latest(obs[..n]);
      if Later(obs[n], best) then obs[n] else best
  }

  /** `derive_current_scope`; `upsert` records every observation as accepted. */
  function CurrentScope(obs: seq<Observation>, id: string): Scope {
    var mine := Of(obs, id);
    if mine == [] then DEFAULT_SCOPE else Latest(mine).scope
  }

  lemma {:induction false} LatestIsGreatest(obs: seq<Observation>, o: Observation)
    requires o in obs
    ensures Latest(obs) in obs && !Later(o, Latest(obs))
  {
    var n := |obs| - 1;
    if n == 0 {
      Text.LessIrreflexive(o.id);
    } else {
      assert obs == obs[..n] + [obs[n]];
      var best := Latest(obs[..n]);
      assert obs[..n][0] in obs[..n];
      LatestIsGreatest(obs[..n], obs[..n][0]);
      if o in obs[..n] {
        LatestIsGreatest(obs[..n], o);
        if Later(obs[n], best) && Later(o, obs[n]) {
          if Text.Less(best.id, obs[n].id) && Text.Less(obs[n].id, o.id) {
            Text.LessTransitive(best.id, obs[n].id, o.id);
          }
        }
      } else {
        Text.LessIrreflexive(o.id);
      }
    }
  }

  function NewestOf(obs: seq<Observation>, id: string): Option<Observation> {
    if Of(obs, id) == [] then None else Some(Latest(Of(obs, id)))
  }

  lemma LatestStep(mine: seq<Observation>, o: Observation)
    ensures Latest(mine + [o]) == if mine == [] || Later(o, Latest(mine)) then o else Latest(mine)
  {
    assert (mine + [o])[..|mine + [o]| - 1] == mine;
  }

  lemma NewestStep(obs: seq<Observation>, o: Observation, id: string)
    ensures var before := NewestOf(obs, id);
            NewestOf(obs + [o], id)
            == if o.assertionId == id && (before.None? || Later(o, before.value)) then Some(o) else before
  {
    OfAppend(obs, o, id);
    if o.assertionId == id {
      LatestStep(Of(obs, id), o);
    } else {
      assert Of(obs + [o], id) == Of(obs, id);
    }
  }

  /** An observation of the assertion that none of its observations is later than. */
  ghost predicate IsNewest(obs: seq<Observation>, id: string, n: Observation) {
    n in obs && n.assertionId == id && forall o | o in obs && o.assertionId == id :: !Later(o, n)
  }

  lemma NewestMeans(obs: seq<Observation>, id: string)
    ensures NewestOf(obs, id).None? <==> forall o | o in obs :: o.assertionId != id
    ensures NewestOf(obs, id).Some? ==> IsNewest(obs, id, NewestOf(obs, id).value)
  {
    var mine := Of(obs, id);
    forall o
      ensures o in mine <==> o in obs && o.assertionId == id
    {
      OfRows(obs, id, o);
    }
    if mine != [] {
      assert mine[0] in mine;
      LatestIsGreatest(mine, mine[0]);
      forall o | o in mine
        ensures !Later(o, Latest(mine))
      {
        LatestIsGreatest(mine, o);
      }
    }
  }

  method NewestObservation(obs: seq<Observation>, id: string) returns (newest: Option<Observation>)
    ensures newest == NewestOf(obs, id)
  {
    newest := None;
    for i := 0 to |obs|
      invariant newest == NewestOf(obs[..i], id)
    {
      NewestStep(obs[..i], obs[i], id);
      assert obs[..i + 1] == obs[..i] + [obs[i]];
      if obs[i].assertionId == id && (newest.None? || Later(obs[i], newest.value)) {
        newest := Some(obs[i]);
      }
    }
    assert obs[..|obs|] == obs;
  }

  ghost predicate UniqueObservations(obs: seq<Observation>) {
    forall i, j | 0 <= i < j < |obs| :: obs[i].id != obs[j].id
  }

  ghost predicate FreshObservations(obs: seq<Observation>, cs: seq<Call>) {
    && (forall i, j | 0 <= i < j < |cs| :: cs[i].observationId != cs[j].observationId)
    && (forall i, j | 0 <= i < |obs| && 0 <= j < |cs| :: obs[i].id != cs[j].observationId)
  }

  lemma {:induction false} RunKeepsUnique(l: Ledger, cs: seq<Call>)
    requires UniqueObservations(l.observations) && FreshObservations(l.observations, cs)
    ensures UniqueObservations(Run(l, cs).observations)
    decreases |cs|
  {
    if cs != [] {
      var m := Effect(l, cs[0]);
      assert m.observations == l.observations || m.observations == l.observations + [Observe(l, cs[0])];
      RunKeepsUnique(m, cs[1..]);
    }
  }

  /** The current scope of an assertion is that of its observation with the greatest (time, identifier). */
  lemma CurrentScopeIsLatest(cs: seq<Call>, k: string)
    requires CompatibleCalls(cs) && FreshObservations([], cs) && k in Run(EMPTY, cs).byKey
    ensures var l := Run(EMPTY, cs); var id := l.byKey[k].core.id;
            exists o :: o in l.observations && o.assertionId == id && CurrentScope(l.observations, id) == o.scope
                        && forall p | p in l.observations && p.assertionId == id && p != o :: Later(o, p)
  {
    AssertionsReflectObservations(cs);
    RunKeepsUnique(EMPTY, cs);
    var l := Run(EMPTY, cs);
    var id := l.byKey[k].core.id;
    assert Reflects(l, k);
    var mine := Of(l.observations, id);
    var o := Latest(mine);
    LatestIsGreatest(mine, mine[0]);
    OfRows(l.observations, id, o);
    forall p | p in l.observations && p.assertionId == id && p != o
      ensures Later(o, p)
    {
      OfRows(l.observations, id, p);
      LatestIsGreatest(mine, p);
      Text.LessTotal(o.id, p.id);
      assert o.id != p.id;
    }
  }

  // ----- the in-memory service -----

  class AssertionLedger {
    var byKey: map<string, Assertion>
    var observations: seq<Observation>

    ghost function State(): Ledger
      reads this
    {
      Ledger(byKey, observations)
    }

    constructor ()
      ensures State() == EMPTY
    {
      byKey, observations := map[], [];
    }

    /** The scope of a newest observation of the assertion by (time, identifier), or the default one. */
    method ScopeOf(id: string) returns (s: Scope)
      ensures (forall o | o in observations :: o.assertionId != id) ==> s == Scope("unknown", "UNKNOWN", [], [])
      ensures (exists o :: o in observations && o.assertionId == id) ==>
                exists n :: IsNewest(observations, id, n) && s == n.scope
      ensures s == CurrentScope(observations, id)
    {
      var newest := NewestObservation(observations, id);
      NewestMeans(observations, id);
      return if newest.None? then DEFAULT_SCOPE else newest.value.scope;
    }

    method Upsert(c: Call) returns (r: Outcome)
      modifies this
      ensures State() == Effect(old(State()), c)
      ensures r == Verdict(old(State()), c)
    {
      var key := Key(c.slots);
      if c.state.Conditional? && c.scope.conditions == [] {
        return MissingConditions;
      }
      if !ObservationFits(Ledger(byKey, observations), c) {
        return InvalidObservation;
      }
      var observation := Observe(Ledger(byKey, observations), c);
      observations := observations + [observation];
      if key in byKey {
        var existing := byKey[key];
        var evidenceIds := Dedupe(existing.evidenceIds + [c.evidenceId]);
        byKey := byKey[key := existing.(lastVerifiedAt := c.observedAt, evidenceIds := evidenceIds)];
        return Attached;
      }
      if RefusedLate(c) {
        return InvalidAssertion;
      }
      byKey := byKey[key := NewAssertion(c)];
      return Created;
    }
  }
}
