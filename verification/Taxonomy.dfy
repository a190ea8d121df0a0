/** Loading the chain of taxonomy versions, and seeding or verifying the ledger's authoritative metadata with it. */
module Taxonomy {
  import opened Common

  /** A loaded taxonomy; `content` stands for its vocabularies, mappings and reserved identifiers. */
  datatype Version = Version(id: string, publishedAt: int, previous: Option<string>, content: string)

  datatype LoadError = Cycle | MissingFile | WrongVersion

  /** The taxonomy files beside the configured one, by the version in their name. */
  type Directory = map<string, Version>

  predicate Filed(dir: Directory, v: Version) {
    v.id in dir && dir[v.id] == v
  }

  function Ids(chain: seq<Version>): set<string> {
    set v | v in chain :: v.id
  }

  predicate DistinctIds(chain: seq<Version>) {
    forall i, j | 0 <= i < j < |chain| :: chain[i].id != chain[j].id
  }

  /** Each version after the first names the one before it. */
  predicate NamesPredecessor(chain: seq<Version>) {
    forall i | 0 < i < |chain| :: chain[i].previous == Some(chain[i - 1].id)
  }

  /** Root first: no predecessor at the start, each later version naming the one before it, no version twice. */
  predicate RootFirst(chain: seq<Version>) {
    chain != [] && chain[0].previous.None? && NamesPredecessor(chain) && DistinctIds(chain)
  }

  /** The history of the configured version in this directory. */
  predicate IsChain(chain: seq<Version>, configured: Version, dir: Directory) {
    RootFirst(chain) && chain[|chain| - 1] == configured && forall i | 0 <= i < |chain| - 1 :: Filed(dir, chain[i])
  }

  /** `tail` is the part of the history already followed, and `current` the version before it. */
  ghost predicate Followed(tail: seq<Version>, current: Version, configured: Version, dir: Directory) {
    && NamesPredecessor([current] + tail) && DistinctIds(tail)
    && ([current] + tail)[|tail|] == configured
    && (tail != [] ==> Filed(dir, current))
    && (forall i | 0 <= i < |tail| - 1 :: Filed(dir, tail[i]))
  }

  /** Every history ends with what has been followed. */
  ghost predicate Forced(tail: seq<Version>, current: Version, configured: Version, dir: Directory) {
    forall c | IsChain(c, configured, dir) :: |tail| < |c| && c[|c| - |tail| - 1..] == [current] + tail
  }

  /** The version before a suffix of a history. */
  lemma BeforeSuffix(c: seq<Version>, configured: Version, dir: Directory, m: nat)
    requires IsChain(c, configured, dir) && m < |c|
    ensures c[m].previous.None? <==> m == 0
    ensures m > 0 ==> c[m].previous == Some(c[m - 1].id) && Filed(dir, c[m - 1]) && c[m - 1..] == [c[m - 1]] + c[m..]
  {
  }

  /** A history names no version of a suffix again in the rest of that suffix. */
  lemma SuffixHeadIsNew(c: seq<Version>, m: nat, tail: seq<Version>)
    requires DistinctIds(c) && m < |c| && c[m + 1..] == tail
    ensures c[m].id !in Ids(tail)
  {
    forall v | v in tail
      ensures v.id != c[m].id
    {
      var i :| 0 <= i < |tail| && tail[i] == v;
      assert c[m + 1 + i] == v;
    }
  }

  lemma SuffixParts(c: seq<Version>, m: nat, current: Version, tail: seq<Version>)
    requires m < |c| && c[m..] == [current] + tail
    ensures c[m] == current && c[m + 1..] == tail
  {
    assert c[m] == c[m..][0];
    assert c[m + 1..] == c[m..][1..];
  }

  lemma ForcedOnce(tail: seq<Version>, current: Version, configured: Version, dir: Directory, c: seq<Version>)
    requires Forced(tail, current, configured, dir) && IsChain(c, configured, dir)
    ensures current.id !in Ids(tail)
    ensures current.previous.None? ==> c == [current] + tail
    ensures current.previous.Some? ==>
              |tail| + 1 < |c| && current.previous.value in dir
                  && dir[current.previous.value].id == current.previous.value
              && c[|c| - |tail| - 2..] == [dir[current.previous.value]] + ([current] + tail)
  {
    var m := |c| - |tail| - 1;
    SuffixParts(c, m, current, tail);
    SuffixHeadIsNew(c, m, tail);
    BeforeSuffix(c, configured, dir, m);
    assert m == 0 ==> c[m..] == c;
  }

  /** A repeated version, a missing file or a file for another version means there is no history. */
  lemma NoChain(tail: seq<Version>, current: Version, configured: Version, dir: Directory)
    requires Forced(tail, current, configured, dir)
    requires current.id in Ids(tail)
             || (current.previous.Some?
                 && (current.previous.value !in dir || dir[current.previous.value].id != current.previous.value))
    ensures forall c :: !IsChain(c, configured, dir)
  {
    forall c
      ensures !IsChain(c, configured, dir)
    {
      if IsChain(c, configured, dir) {
        ForcedOnce(tail, current, configured, dir, c);
      }
    }
  }

  lemma FollowedStart(configured: Version, dir: Directory)
    ensures Followed([], configured, configured, dir) && Forced([], configured, configured, dir)
  {
    assert [configured] + [] == [configured];
    forall c | IsChain(c, configured, dir)
      ensures c[|c| - 1..] == [configured]
    {
      assert c[|c| - 1..] == [c[|c| - 1]];
    }
  }

  lemma FollowedOneMore(tail: seq<Version>, current: Version, configured: Version, dir: Directory)
    requires Followed(tail, current, configured, dir) && current.id !in Ids(tail) && current.previous.Some?
    requires current.previous.value in dir && dir[current.previous.value].id == current.previous.value
    ensures Followed([current] + tail, dir[current.previous.value], configured, dir)
  {
    var next := dir[current.previous.value];
    var longer, before := [next] + ([current] + tail), [current] + tail;
    forall i | 0 < i < |longer|
      ensures longer[i].previous == Some(longer[i - 1].id)
    {
      if i > 1 {
        assert longer[i] == before[i - 1] && longer[i - 1] == before[i - 2];
      }
    }
    assert longer[|before|] == before[|tail|];
    forall i | 0 < i < |before|
      ensures before[i] == tail[i - 1] && tail[i - 1].id in Ids(tail)
    {
      assert tail[i - 1] in tail;
    }
  }

  lemma FollowOne(tail: seq<Version>, current: Version, configured: Version, dir: Directory)
    requires Followed(tail, current, configured, dir) && Forced(tail, current, configured, dir)
    requires current.id !in Ids(tail) && current.previous.Some?
    requires current.previous.value in dir && dir[current.previous.value].id == current.previous.value
    ensures var next := dir[current.previous.value];
            Followed([current] + tail, next, configured, dir) && Forced([current] + tail, next, configured, dir)
  {
    var next := dir[current.previous.value];
    FollowedOneMore(tail, current, configured, dir);
    forall c | IsChain(c, configured, dir)
      ensures |[current] + tail| < |c| && c[|c| - |[current] + tail| - 1..] == [next] + ([current] + tail)
    {
      ForcedOnce(tail, current, configured, dir, c);
    }
  }

  lemma ReverseAppend(s: seq<Version>, v: Version)
    ensures Reverse(s + [v]) == [v] + Reverse(s)
  {
    assert (s + [v])[..|s + [v]| - 1] == s;
  }

  function Reverse(s: seq<Version>): (r: seq<Version>)
    ensures |r| == |s|
  {
    if s == [] then [] else [s[|s| - 1]] + Reverse(s[..|s| - 1])
  }

  function Universe(configured: Version, dir: Directory): set<string> {
    {configured.id} + dir.Keys
  }

  /** What the loop keeps: `chain` is the history followed so far, newest first. */
  ghost predicate Progress(chain: seq<Version>, seen: set<string>, current: Version, configured: Version,
      dir: Directory) {
    seen == Ids(Reverse(chain)) && seen <= Universe(configured, dir) && current.id in Universe(configured, dir)
    && Followed(Reverse(chain), current, configured, dir) && Forced(Reverse(chain), current, configured, dir)
  }

  lemma Start(configured: Version, dir: Directory)
    ensures Progress([], {}, configured, configured, dir)
  {
    FollowedStart(configured, dir);
  }

  lemma Finish(chain: seq<Version>, seen: set<string>, current: Version, configured: Version, dir: Directory)
    requires Progress(chain, seen, current, configured, dir) && current.id !in seen && current.previous.None?
    ensures IsChain(Reverse(chain + [current]), configured, dir)
    ensures forall c | IsChain(c, configured, dir) :: c == Reverse(chain + [current])
  {
    var tail := Reverse(chain);
    ReverseAppend(chain, current);
    var whole := [current] + tail;
    forall i | 0 < i < |whole|
      ensures whole[i] == tail[i - 1] && tail[i - 1].id in Ids(tail)
    {
      assert tail[i - 1] in tail;
    }
    forall c | IsChain(c, configured, dir)
      ensures c == whole
    {
      ForcedOnce(tail, current, configured, dir, c);
    }
  }

  lemma Advance(chain: seq<Version>, seen: set<string>, current: Version, configured: Version, dir: Directory)
    requires Progress(chain, seen, current, configured, dir) && current.id !in seen && current.previous.Some?
    requires current.previous.value in dir && dir[current.previous.value].id == current.previous.value
    ensures Progress(chain + [current], seen + {current.id}, dir[current.previous.value], configured, dir)
  {
    var tail := Reverse(chain);
    ReverseAppend(chain, current);
    FollowOne(tail, current, configured, dir);
    forall v
      ensures v in [current] + tail <==> v == current || v in tail
    {
    }
    assert Ids([current] + tail) == Ids(tail) + {current.id};
  }

  /**
   Terminates over every finite directory.  It returns the history of the configured version, root first,
   exactly when there is one.
   */
  method LoadChain(configured: Version, dir: Directory) returns (r: Result<seq<Version>, LoadError>)
    ensures r.Ok? ==> IsChain(r.value, configured, dir)
    ensures r.Err? ==> forall c :: !IsChain(c, configured, dir)
    ensures forall c | IsChain(c, configured, dir) :: r == Ok(c)
    ensures r == Err(MissingFile) ==>
              exists v :: (v == configured || Filed(dir, v)) && v.previous.Some? && v.previous.value !in dir
    ensures r == Err(WrongVersion) ==>
              exists v :: (v == configured || Filed(dir, v)) && v.previous.Some? && v.previous.value in dir
                          && dir[v.previous.value].id != v.previous.value
  {
    var chain: seq<Version> := [];
    var seen: set<string> := {};
    var current := configured;
    Start(configured, dir);
    while true
      invariant Progress(chain, seen, current, configured, dir)
      invariant current == configured || Filed(dir, current)
      decreases Universe(configured, dir) - seen
    {
      if current.id in seen {
        NoChain(Reverse(chain), current, configured, dir);
        return Err(Cycle);
      }
      ghost var followed, known := chain, seen;
      seen := seen + {current.id};
      chain := chain + [current];
      if current.previous.None? {
        Finish(followed, known, current, configured, dir);
        return Ok(Reverse(chain));
      }
      var name := current.previous.value;
      if name !in dir {
        NoChain(Reverse(followed), current, configured, dir);
        return Err(MissingFile);
      }
      var dependency := dir[name];
      if dependency.id != name {
        NoChain(Reverse(followed), current, configured, dir);
        return Err(WrongVersion);
      }
      Advance(followed, known, current, configured, dir);
      current := dependency;
    }
  }

  // ----- the ledger's metadata tables -----

  datatype TaxonomyRow = TaxonomyRow(publishedAt: int, previous: Option<string>, payload: string)

  datatype MethodologyRow = MethodologyRow(publishedAt: int, description: string, normalizer: string)

  /** `AuthoritativeMetadata.taxonomies` only ever holds what the loader returned. */
  type History = c: seq<Version> | RootFirst(c) witness [Version("", 0, None, "")]

  datatype Metadata = Metadata(methodologyId: string, methodology: MethodologyRow, taxonomies: History)

  datatype Tables = Tables(taxonomies: map<string, TaxonomyRow>, methodologies: map<string, MethodologyRow>)

  datatype ApplyError =
    | UnexpectedTaxonomy | MissingTaxonomy | TaxonomyDrift
    | UnexpectedMethodology | MissingMethodology | MethodologyDrift

  function RowOf(v: Version): TaxonomyRow {
    TaxonomyRow(v.publishedAt, v.previous, v.content)
  }

  /** The rows of a list of versions; with distinct identifiers there is one for each. */
  function Rows(chain: seq<Version>): map<string, TaxonomyRow> {
    if chain == [] then map[]
    else
      var v := chain[|chain| - 1];
      Rows(chain[..|chain| - 1])[v.id := RowOf(v)]
  }

  /** The tables that hold exactly the authoritative rows. */
  function Expected(md: Metadata): Tables {
    Tables(Rows(md.taxonomies), map[md.methodologyId := md.methodology])
  }

  ghost predicate Within<V>(a: map<string, V>, b: map<string, V>) {
    forall k | k in a :: k in b && a[k] == b[k]
  }

  /** Nothing in the ledger is foreign to, or differs from, the authoritative rows. */
  ghost predicate Agrees(t: Tables, md: Metadata) {
    Within(t.taxonomies, Rows(md.taxonomies)) && Within(t.methodologies, Expected(md).methodologies)
  }

  lemma {:induction false} RowsAt(chain: seq<Version>, i: nat)
    requires DistinctIds(chain) && i < |chain|
    ensures chain[i].id in Rows(chain) && Rows(chain)[chain[i].id] == RowOf(chain[i])
  {
    if i < |chain| - 1 {
      RowsAt(chain[..|chain| - 1], i);
      assert chain[i].id != chain[|chain| - 1].id;
    }
  }

  lemma {:induction false} RowsFrom(chain: seq<Version>, k: string)
    ensures k in Rows(chain) <==> exists i :: 0 <= i < |chain| && chain[i].id == k
  {
    if chain != [] {
      var n := |chain| - 1;
      RowsFrom(chain[..n], k);
      if i :| 0 <= i < n && chain[..n][i].id == k {
        assert chain[i].id == k;
      }
      if k == chain[n].id {
        assert chain[n].id == k;
      }
    }
  }

  lemma RowsPrefix(chain: seq<Version>, i: nat)
    requires i < |chain|
    ensures Rows(chain[..i + 1]) == Rows(chain[..i])[chain[i].id := RowOf(chain[i])]
  {
    assert chain[..i + 1][..i] == chain[..i];
  }

  /** Column by column, the rows are the versions' own, one for each and no other. */
  lemma RowsAreTheVersions(chain: seq<Version>, k: string)
    requires DistinctIds(chain)
    ensures k in Rows(chain) <==> exists i :: 0 <= i < |chain| && chain[i].id == k
    ensures forall i | 0 <= i < |chain| :: chain[i].id in Rows(chain) && Describes(Rows(chain)[chain[i].id], chain[i])
  {
    RowsFrom(chain, k);
    forall i | 0 <= i < |chain|
      ensures chain[i].id in Rows(chain) && Describes(Rows(chain)[chain[i].id], chain[i])
    {
      RowsAt(chain, i);
    }
  }

  predicate Describes(row: TaxonomyRow, v: Version) {
    row.publishedAt == v.publishedAt && row.previous == v.previous && row.payload == v.content
  }

  lemma RowNames(c: seq<Version>, d: seq<Version>, i: nat) returns (j: nat)
    requires DistinctIds(c) && DistinctIds(d) && Rows(c) == Rows(d) && i < |c|
    ensures j < |d| && d[j] == c[i]
  {
    RowsAreTheVersions(c, c[i].id);
    RowsAreTheVersions(d, c[i].id);
    j :| 0 <= j < |d| && d[j].id == c[i].id;
  }

  lemma HasPredecessor(c: seq<Version>, i: nat)
    requires NamesPredecessor(c) && 0 < i < |c|
    ensures c[i].previous == Some(c[i - 1].id)
  {
  }

  lemma {:induction false} SameRowsSamePlace(c: seq<Version>, d: seq<Version>, i: nat)
    requires RootFirst(c) && RootFirst(d) && Rows(c) == Rows(d) && i < |c|
    ensures i < |d| && d[i] == c[i]
  {
    var j := RowNames(c, d, i);
    if j > 0 {
      HasPredecessor(d, j);
    }
    if i > 0 {
      HasPredecessor(c, i);
      SameRowsSamePlace(c, d, i - 1);
    }
  }

  /** A seeded ledger determines the history it was seeded from, order and all. */
  lemma RowsDetermineHistory(c: seq<Version>, d: seq<Version>)
    requires RootFirst(c) && RootFirst(d) && Rows(c) == Rows(d)
    ensures c == d
  {
    SameRowsSamePlace(c, d, |c| - 1);
    SameRowsSamePlace(d, c, |d| - 1);
    forall i | 0 <= i < |c|
      ensures d[i] == c[i]
    {
      SameRowsSamePlace(c, d, i);
    }
  }

  /** The transaction's view after the first `i` versions have been applied to the rows in `saved`. */
  ghost predicate Applied(now: map<string, TaxonomyRow>, saved: map<string, TaxonomyRow>, chain: seq<Version>, i: nat,
      insertMissing: bool)
    requires i <= |chain|
  {
    var done := Rows(chain[..i]);
    && now == saved + done
    && (forall k | k in done && k in saved :: saved[k] == done[k])
    && (!insertMissing ==> Within(done, saved))
  }

  lemma AppliedAll(now: map<string, TaxonomyRow>, saved: map<string, TaxonomyRow>, chain: seq<Version>,
      insertMissing: bool)
    requires Applied(now, saved, chain, |chain|, insertMissing) && saved.Keys <= Rows(chain).Keys
    ensures now == Rows(chain) && Within(saved, Rows(chain))
    ensures !insertMissing ==> saved == Rows(chain)
  {
    assert chain[..|chain|] == chain;
  }

  lemma NotYetApplied(chain: seq<Version>, i: nat)
    requires DistinctIds(chain) && i < |chain|
    ensures chain[i].id !in Rows(chain[..i])
  {
    RowsFrom(chain[..i], chain[i].id);
    forall j | 0 <= j < i
      ensures chain[..i][j].id != chain[i].id
    {
    }
  }

  /** Root first, the version a row references is always there already. */
  lemma PredecessorApplied(now: map<string, TaxonomyRow>, saved: map<string, TaxonomyRow>, chain: seq<Version>, i: nat,
      insertMissing: bool)
    requires RootFirst(chain) && i < |chain| && Applied(now, saved, chain, i, insertMissing)
    ensures chain[i].previous.Some? ==> chain[i].previous.value in now
  {
    if i > 0 {
      RowsFrom(chain[..i], chain[i - 1].id);
      assert chain[..i][i - 1].id == chain[i - 1].id;
    }
  }

  /** A version not there yet is in no saved row either, so the ledger lacks an authoritative row. */
  lemma MissingIsUnsaved(now: map<string, TaxonomyRow>, saved: map<string, TaxonomyRow>, chain: seq<Version>, i: nat,
      insertMissing: bool)
    requires RootFirst(chain) && i < |chain| && Applied(now, saved, chain, i, insertMissing) && chain[i].id !in now
    ensures chain[i].id !in saved && saved != Rows(chain)
  {
    assert now.Keys == saved.Keys + Rows(chain[..i]).Keys;
    RowsAt(chain, i);
  }

  lemma ApplyMissing(now: map<string, TaxonomyRow>, saved: map<string, TaxonomyRow>, chain: seq<Version>, i: nat,
      insertMissing: bool)
    requires RootFirst(chain) && i < |chain| && Applied(now, saved, chain, i, insertMissing) && chain[i].id !in now
    ensures insertMissing ==> Applied(now[chain[i].id := RowOf(chain[i])], saved, chain, i + 1, insertMissing)
    ensures saved != Rows(chain)
  {
    MissingIsUnsaved(now, saved, chain, i, insertMissing);
    RowsPrefix(chain, i);
    var done := Rows(chain[..i]);
    MergeUpdate(saved, done, chain[i].id, RowOf(chain[i]));
  }

  lemma MergeUpdate(saved: map<string, TaxonomyRow>, done: map<string, TaxonomyRow>, id: string, row: TaxonomyRow)
    ensures (saved + done)[id := row] == saved + done[id := row]
    ensures id !in done && id in saved && saved[id] == row ==> saved + done == saved + done[id := row]
  {
  }

  lemma ApplyPresent(now: map<string, TaxonomyRow>, saved: map<string, TaxonomyRow>, chain: seq<Version>, i: nat,
      insertMissing: bool)
    requires RootFirst(chain) && i < |chain| && Applied(now, saved, chain, i, insertMissing) && chain[i].id in now
    ensures now[chain[i].id] == RowOf(chain[i]) ==> Applied(now, saved, chain, i + 1, insertMissing)
    ensures now[chain[i].id] != RowOf(chain[i]) ==> !Within(saved, Rows(chain))
  {
    RowsPrefix(chain, i);
    RowsAt(chain, i);
    NotYetApplied(chain, i);
    MergeUpdate(saved, Rows(chain[..i]), chain[i].id, RowOf(chain[i]));
  }

  class MetadataTables {
    var taxonomies: map<string, TaxonomyRow>
    var methodologies: map<string, MethodologyRow>

    ghost function State(): Tables
      reads this
    {
      Tables(taxonomies, methodologies)
    }

    constructor ()
      ensures State() == Tables(map[], map[])
    {
      taxonomies, methodologies := map[], map[];
    }

    /** An INSERT that the primary key and the `previous_version` foreign key must both admit. */
    method InsertTaxonomy(v: Version)
      requires v.id !in taxonomies && (v.previous.Some? ==> v.previous.value in taxonomies)
      modifies this`taxonomies
      ensures taxonomies == old(taxonomies)[v.id := RowOf(v)]
    {
      taxonomies := taxonomies[v.id := RowOf(v)];
    }

    method ApplyTaxonomies(md: Metadata, insertMissing: bool) returns (r: Option<ApplyError>)
      modifies this`taxonomies
      ensures r.None? <==> if insertMissing then Within(old(taxonomies), Rows(md.taxonomies))
              else old(taxonomies) == Rows(md.taxonomies)
      ensures r.None? ==> taxonomies == Rows(md.taxonomies)
    {
      ghost var saved := taxonomies;
      var chain := md.taxonomies;
      if exists k | k in taxonomies :: k !in Rows(chain) {
        return Some(UnexpectedTaxonomy);
      }
      assert chain[..0] == [] && saved + map[] == saved;
      for i := 0 to |chain|
        invariant Applied(taxonomies, saved, chain, i, insertMissing)
      {
        var v := chain[i];
        PredecessorApplied(taxonomies, saved, chain, i, insertMissing);
        if v.id !in taxonomies {
          ApplyMissing(taxonomies, saved, chain, i, insertMissing);
          if !insertMissing {
            return Some(MissingTaxonomy);
          }
          InsertTaxonomy(v);
        } else {
          ApplyPresent(taxonomies, saved, chain, i, insertMissing);
          if taxonomies[v.id] != RowOf(v) {
            return Some(TaxonomyDrift);
          }
        }
      }
      AppliedAll(taxonomies, saved, chain, insertMissing);
      return None;
    }

    method ApplyMethodology(md: Metadata, insertMissing: bool) returns (r: Option<ApplyError>)
      modifies this`methodologies
      ensures r.None? <==> if insertMissing then Within(old(methodologies), Expected(md).methodologies)
                           else old(methodologies) == Expected(md).methodologies
      ensures r.None? ==> methodologies == Expected(md).methodologies
    {
      if exists k | k in methodologies :: k != md.methodologyId {
        return Some(UnexpectedMethodology);
      }
      if md.methodologyId !in methodologies {
        if !insertMissing {
          return Some(MissingMethodology);
        }
        methodologies := methodologies[md.methodologyId := md.methodology];
      } else if methodologies[md.methodologyId] != md.methodology {
        return Some(MethodologyDrift);
      }
      return None;
    }

    /**
     `_apply_authoritative_metadata` inside the caller's transaction, which an error rolls back.  Seeding succeeds
     exactly when nothing stored disagrees, and then leaves exactly the authoritative rows; verifying succeeds
     exactly on those rows and changes nothing.
     */
    method Apply(md: Metadata, insertMissing: bool) returns (r: Option<ApplyError>)
      modifies this
      ensures r.None? <==> if insertMissing then Agrees(old(State()), md) else old(State()) == Expected(md)
      ensures State() == if r.None? then Expected(md) else old(State())
    {
      var savedTaxonomies, savedMethodologies := taxonomies, methodologies;
      r := ApplyTaxonomies(md, insertMissing);
      if r.None? {
        r := ApplyMethodology(md, insertMissing);
      }
      if r.Some? {
        taxonomies, methodologies := savedTaxonomies, savedMethodologies;
      }
    }
  }

  /** Initialise a ledger from the files, seed it again, and verify it. */
  method InitializeTwiceAndVerify(t: MetadataTables, configured: Version, dir: Directory, methodologyId: string,
      methodology: MethodologyRow)
    returns (loaded: bool, first: Option<ApplyError>, second: Option<ApplyError>, verified: Option<ApplyError>)
    modifies t
    ensures loaded <==> exists c :: IsChain(c, configured, dir)
    ensures !loaded ==> t.State() == old(t.State())
    ensures loaded && first.None? ==> second.None? && verified.None?
    ensures loaded && first.None? ==>
              exists c :: IsChain(c, configured, dir) && t.State() == Tables(Rows(c), map[methodologyId := methodology])
    ensures loaded && first.Some? ==> t.State() == old(t.State()) && second.Some? && verified.Some?
  {
    var r := LoadChain(configured, dir);
    loaded := r.Ok?;
    first, second, verified := None, None, None;
    if loaded {
      var md := Metadata(methodologyId, methodology, r.value);
      first := t.Apply(md, true);
      second := t.Apply(md, true);
      verified := t.Apply(md, false);
    }
  }
}
