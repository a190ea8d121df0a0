/**
 The publication manifest: its producer lists files in path-component order (`sorted` of `Path` objects),
 its validator also demands the text order of the POSIX paths.  SHA-256 is symbolic.
 */
module Manifest {
  import Text
  import opened Hashing

  /** A relative path, as its non-empty components. */
  type Path = seq<string>

  predicate ValidName(n: string) {
    n != "" && '/' !in n
  }

  predicate ValidPath(p: Path) {
    p != [] && forall i | 0 <= i < |p| :: ValidName(p[i])
  }

  /** `as_posix()` */
  function Posix(p: Path): string {
    if p == [] then "" else if |p| == 1 then p[0] else p[0] + ("/" + Posix(p[1..]))
  }

  /** The order of `Path` objects: component by component. */
  predicate Before(p: Path, q: Path) {
    if q == [] then false
    else if p == [] then true
    else if p[0] != q[0] then Text.Less(p[0], q[0])
    else Before(p[1..], q[1..])
  }

  predicate ProperPrefix(a: string, b: string) {
    |a| < |b| && b[..|a|] == a
  }

  /**
   In one directory, `p` goes through a directory whose name is a proper prefix of the name `q` goes through or
   ends in, and that name continues with a character below '/'.
   */
  predicate Straddles(p: Path, q: Path) {
    p != [] && q != [] &&
    if p[0] == q[0] then Straddles(p[1..], q[1..])
    else |p| > 1 && ProperPrefix(p[0], q[0]) && q[0][|p[0]|] < '/'
  }

  lemma {:induction false} BeforeIrreflexive(p: Path)
    ensures !Before(p, p)
  {
    if p != [] {
      BeforeIrreflexive(p[1..]);
    }
  }

  lemma {:induction false} BeforeTotal(p: Path, q: Path)
    ensures Before(p, q) || p == q || Before(q, p)
  {
    if p != [] && q != [] {
      Text.LessTotal(p[0], q[0]);
      if p[0] == q[0] {
        BeforeTotal(p[1..], q[1..]);
        assert p == [p[0]] + p[1..] && q == [q[0]] + q[1..];
      }
    }
  }

  lemma {:induction false} BeforeTransitive(p: Path, q: Path, r: Path)
    requires Before(p, q) && Before(q, r)
    ensures Before(p, r)
  {
    if p != [] {
      if p[0] == q[0] == r[0] {
        BeforeTransitive(p[1..], q[1..], r[1..]);
      } else if p[0] != q[0] && q[0] != r[0] {
        Text.LessTransitive(p[0], q[0], r[0]);
        Text.LessIrreflexive(p[0]);
      }
    }
  }

  /**
   Different names compare by their first difference, whatever follows them; a proper prefix compares by what follows.
   */
  lemma {:induction false} NamesThenRest(a: string, x: string, b: string, y: string)
    requires Text.Less(a, b)
    ensures !ProperPrefix(a, b) ==> Text.Less(a + x, b + y)
    ensures ProperPrefix(a, b) ==> (Text.Less(a + x, b + y) <==> Text.Less(x, b[|a|..] + y))
                                   && (Text.Less(b + y, a + x) <==> Text.Less(b[|a|..] + y, x))
  {
    assert b[..0] == [];
    if ProperPrefix(a, b) {
      assert b == a + b[|a|..];
      assert b + y == a + (b[|a|..] + y);
      Text.LessCommonPrefix(a, x, b[|a|..] + y);
      Text.LessCommonPrefix(a, b[|a|..] + y, x);
    } else if a[0] == b[0] {
      assert (a + x)[1..] == a[1..] + x && (b + y)[1..] == b[1..] + y;
      assert |a| <= |b| ==> b[..|a|] == [b[0]] + b[1..][..|a| - 1];
      assert a == [a[0]] + a[1..];
      NamesThenRest(a[1..], x, b[1..], y);
    } else {
      assert (a + x)[0] == a[0] && (b + y)[0] == b[0];
    }
  }

  /** What follows the first component in the POSIX text. */
  function Rest(p: Path): string
    requires p != []
  {
    if |p| == 1 then "" else "/" + Posix(p[1..])
  }

  lemma PosixHead(p: Path)
    requires p != []
    ensures Posix(p) == p[0] + Rest(p)
  {
    assert p[0] + "" == p[0];
  }

  /** The two orders of two files agree exactly when the files do not straddle, and are opposite when they do. */
  lemma {:induction false} OrdersAgree(p: Path, q: Path)
    requires ValidPath(p) && ValidPath(q) && Before(p, q)
    ensures !Straddles(p, q) ==> Text.Less(Posix(p), Posix(q))
    ensures Straddles(p, q) ==> Text.Less(Posix(q), Posix(p))
  {
    PosixHead(p);
    PosixHead(q);
    if p[0] == q[0] {
      Text.LessCommonPrefix(p[0], Rest(p), Rest(q));
      Text.LessCommonPrefix(p[0], Rest(q), Rest(p));
      if |p| > 1 {
        assert ValidPath(p[1..]) && ValidPath(q[1..]);
        OrdersAgree(p[1..], q[1..]);
        Text.LessCommonPrefix("/", Posix(p[1..]), Posix(q[1..]));
        Text.LessCommonPrefix("/", Posix(q[1..]), Posix(p[1..]));
      } else {
        assert p[1..] == [] && !Straddles(p[1..], q[1..]);
      }
    } else {
      NamesThenRest(p[0], Rest(p), q[0], Rest(q));
      if ProperPrefix(p[0], q[0]) {
        var c := q[0][|p[0]|];
        assert q[0][|p[0]|] in q[0];
        assert (q[0][|p[0]|..] + Rest(q))[0] == c && c != '/';
      }
    }
  }

  lemma PosixInjective(p: Path, q: Path)
    requires ValidPath(p) && ValidPath(q) && Posix(p) == Posix(q)
    ensures p == q
  {
    BeforeTotal(p, q);
    Text.LessIrreflexive(Posix(p));
    if Before(p, q) {
      OrdersAgree(p, q);
    } else if Before(q, p) {
      OrdersAgree(q, p);
    }
  }

  lemma {:induction false} StraddlersAreOrdered(p: Path, q: Path)
    requires Straddles(p, q)
    ensures Before(p, q)
  {
    if p[0] == q[0] {
      StraddlersAreOrdered(p[1..], q[1..]);
    } else {
      PrefixIsLess(p[0], q[0]);
    }
  }

  lemma {:induction false} PrefixIsLess(a: string, b: string)
    requires ProperPrefix(a, b)
    ensures Text.Less(a, b)
  {
    if a != [] {
      assert b[..|a|][0] == b[0];
      assert b[1..][..|a| - 1] == b[..|a|][1..];
      PrefixIsLess(a[1..], b[1..]);
    }
  }

  // ----- sorting -----

  function InsertPath(p: Path, sorted: seq<Path>): seq<Path> {
    if sorted == [] then [p]
    else if Before(sorted[0], p) then [sorted[0]] + InsertPath(p, sorted[1..])
    else [p] + sorted
  }

  /** `sorted(root.rglob("*"))`, for any order in which the directory is listed. */
  function SortPaths(listing: seq<Path>): seq<Path> {
    if listing == [] then [] else InsertPath(listing[0], SortPaths(listing[1..]))
  }

  ghost predicate Ordered(ps: seq<Path>) {
    forall i, j | 0 <= i < j < |ps| :: Before(ps[i], ps[j])
  }

  predicate Distinct(ps: seq<Path>) {
    forall i, j | 0 <= i < j < |ps| :: ps[i] != ps[j]
  }

  lemma {:induction false} InsertKeeps(p: Path, sorted: seq<Path>)
    requires Ordered(sorted) && p !in sorted
    ensures Ordered(InsertPath(p, sorted)) && |InsertPath(p, sorted)| == |sorted| + 1
    ensures forall q :: q in InsertPath(p, sorted) <==> q == p || q in sorted
  {
    var r := InsertPath(p, sorted);
    if sorted != [] {
      var first, rest := sorted[0], sorted[1..];
      assert sorted == [first] + rest;
      if Before(first, p) {
        InsertKeeps(p, rest);
        assert forall q | q in rest :: Before(first, q);
        assert forall i | 0 < i < |r| :: r[i] in InsertPath(p, rest);
      } else {
        BeforeTotal(first, p);
        forall i | 0 <= i < |sorted|
          ensures Before(p, sorted[i])
        {
          if i > 0 {
            BeforeTransitive(p, first, sorted[i]);
          }
        }
      }
    }
  }

  lemma {:induction false} SortKeeps(listing: seq<Path>)
    requires Distinct(listing)
    ensures Ordered(SortPaths(listing)) && |SortPaths(listing)| == |listing|
    ensures forall q :: q in SortPaths(listing) <==> q in listing
  {
    if listing != [] {
      SortKeeps(listing[1..]);
      assert forall i | 0 < i < |listing| :: listing[i] in listing[1..];
      InsertKeeps(listing[0], SortPaths(listing[1..]));
      assert listing == [listing[0]] + listing[1..];
    }
  }

  // ----- manifest and bundle -----

  datatype Entry = Entry(path: string, sha256: Digest, size: nat)

  /** Every file of the bundle but the manifest itself. */
  type Bundle = map<Path, Bytes>

  ghost predicate ValidBundle(b: Bundle) {
    forall p | p in b :: ValidPath(p)
  }

  ghost predicate Lists(listing: seq<Path>, b: Bundle) {
    Distinct(listing) && forall p :: p in listing <==> p in b
  }

  /** `file_hash` */
  function FileHash(p: Path, content: Bytes): Entry {
    Entry(Posix(p), OfBytes(content), |content|)
  }

  function Hashes(b: Bundle, ps: seq<Path>): (es: seq<Entry>)
    requires forall p | p in ps :: p in b
    ensures |es| == |ps|
  {
    seq(|ps|, i requires 0 <= i < |ps| => FileHash(ps[i], b[ps[i]]))
  }

  /** The entries `export` writes. */
  function Export(b: Bundle, listing: seq<Path>): seq<Entry>
    requires Lists(listing, b)
  {
    SortKeeps(listing);
    Hashes(b, SortPaths(listing))
  }

  function InsertEntry(e: Entry, sorted: seq<Entry>): seq<Entry> {
    if sorted == [] then [e]
    else if Text.Less(sorted[0].path, e.path) then [sorted[0]] + InsertEntry(e, sorted[1..])
    else [e] + sorted
  }

  /** `sorted(manifest.files, key=lambda item: item.path)`, stable. */
  function SortEntries(es: seq<Entry>): seq<Entry> {
    if es == [] then [] else InsertEntry(es[0], SortEntries(es[1..]))
  }

  ghost predicate TextSorted(es: seq<Entry>) {
    forall i, j | 0 <= i < j < |es| :: Text.AtMost(es[i].path, es[j].path)
  }

  datatype Verdict = Accepted | NotSorted | NotEnumerated | HashMismatch

  /** `validate_publication_bundle`, without the content scan. */
  function Validate(es: seq<Entry>, b: Bundle, listing: seq<Path>): Verdict
    requires Lists(listing, b)
  {
    var actual := SortPaths(listing);
    SortKeeps(listing);
    if es != SortEntries(es) then NotSorted
    else if |es| != |actual| || exists i | 0 <= i < |es| :: es[i].path != Posix(actual[i]) then NotEnumerated
    else if es != Hashes(b, actual) then HashMismatch
    else Accepted
  }

  lemma {:induction false} InsertEntryKeeps(e: Entry, sorted: seq<Entry>)
    requires TextSorted(sorted)
    ensures TextSorted(InsertEntry(e, sorted))
    ensures forall x :: x in InsertEntry(e, sorted) <==> x == e || x in sorted
  {
    if sorted != [] {
      var first, rest := sorted[0], sorted[1..];
      assert sorted == [first] + rest;
      Text.LessTotal(first.path, e.path);
      if Text.Less(first.path, e.path) {
        InsertEntryKeeps(e, rest);
        var r := InsertEntry(e, sorted);
        assert forall x | x in rest :: Text.AtMost(first.path, x.path);
        assert forall i | 0 < i < |r| :: r[i] in InsertEntry(e, rest);
      } else {
        forall i | 0 <= i < |sorted|
          ensures Text.AtMost(e.path, sorted[i].path)
        {
          if i > 0 && Text.Less(e.path, first.path) && Text.Less(first.path, sorted[i].path) {
            Text.LessTransitive(e.path, first.path, sorted[i].path);
          }
        }
      }
    }
  }

  lemma {:induction false} SortEntriesSorts(es: seq<Entry>)
    ensures TextSorted(SortEntries(es))
  {
    if es != [] {
      SortEntriesSorts(es[1..]);
      InsertEntryKeeps(es[0], SortEntries(es[1..]));
    }
  }

  /** Comparing with the sorted list tests that the list is already in order. */
  lemma {:induction false} SortedIsFixed(es: seq<Entry>)
    ensures es == SortEntries(es) <==> TextSorted(es)
  {
    SortEntriesSorts(es);
    if TextSorted(es) && es != [] {
      SortedIsFixed(es[1..]);
      assert es == [es[0]] + es[1..];
      if |es| > 1 {
        assert Text.AtMost(es[0].path, es[1].path);
        if Text.Less(es[1].path, es[0].path) {
          if es[0].path == es[1].path {
            Text.LessIrreflexive(es[0].path);
          } else {
            Text.LessAsymmetric(es[0].path, es[1].path);
          }
        }
      }
    }
  }

  /** The entries are the hashes of the files, in an order of all of them. */
  ghost predicate HashesInOrder(es: seq<Entry>, b: Bundle, actual: seq<Path>) {
    && Ordered(actual) && |es| == |actual|
    && (forall p :: p in actual <==> p in b)
    && (forall i | 0 <= i < |es| :: actual[i] in b && es[i] == FileHash(actual[i], b[actual[i]]))
  }

  lemma AcceptedIsHashes(es: seq<Entry>, b: Bundle, listing: seq<Path>)
    requires Lists(listing, b) && Validate(es, b, listing).Accepted?
    ensures HashesInOrder(es, b, SortPaths(listing))
  {
    SortKeeps(listing);
    var actual := SortPaths(listing);
    assert es == Hashes(b, actual);
    assert forall i | 0 <= i < |es| :: actual[i] in actual;
  }

  lemma PathsDiffer(es: seq<Entry>, b: Bundle, actual: seq<Path>, i: nat, j: nat)
    requires ValidBundle(b) && HashesInOrder(es, b, actual) && i < j < |es|
    ensures es[i].path != es[j].path
  {
    if es[i].path == es[j].path {
      PosixInjective(actual[i], actual[j]);
      BeforeIrreflexive(actual[i]);
    }
  }

  lemma FileListed(es: seq<Entry>, b: Bundle, actual: seq<Path>, p: Path)
    requires HashesInOrder(es, b, actual) && p in b
    ensures FileHash(p, b[p]) in es
  {
    assert p in actual;
    var i :| 0 <= i < |actual| && actual[i] == p;
    assert es[i] == FileHash(p, b[p]);
  }

  lemma EntryHasFile(es: seq<Entry>, b: Bundle, actual: seq<Path>, e: Entry)
    requires HashesInOrder(es, b, actual) && e in es
    ensures exists p :: p in b && e == FileHash(p, b[p])
  {
    var i :| 0 <= i < |es| && es[i] == e;
    assert actual[i] in b;
  }

  /** An accepted manifest lists every file of the bundle exactly once, with its hash, and nothing else. */
  lemma AcceptedEnumerates(es: seq<Entry>, b: Bundle, listing: seq<Path>)
    requires ValidBundle(b) && Lists(listing, b) && Validate(es, b, listing).Accepted?
    ensures forall p | p in b :: Entry(Posix(p), OfBytes(b[p]), |b[p]|) in es
    ensures forall e | e in es :: exists p :: p in b && e == Entry(Posix(p), OfBytes(b[p]), |b[p]|)
    ensures forall i, j | 0 <= i < j < |es| :: es[i].path != es[j].path
  {
    AcceptedIsHashes(es, b, listing);
    var actual := SortPaths(listing);
    forall p | p in b
      ensures FileHash(p, b[p]) in es
    {
      FileListed(es, b, actual, p);
    }
    forall e | e in es
      ensures exists p :: p in b && e == FileHash(p, b[p])
    {
      EntryHasFile(es, b, actual, e);
    }
    forall i, j | 0 <= i < j < |es|
      ensures es[i].path != es[j].path
    {
      PathsDiffer(es, b, actual, i, j);
    }
  }

  /** A manifest is accepted with one bundle only: it pins every path and every byte. */
  lemma ManifestPinsBundle(es: seq<Entry>, a: Bundle, la: seq<Path>, b: Bundle, lb: seq<Path>)
    requires ValidBundle(a) && Lists(la, a) && Validate(es, a, la).Accepted?
    requires ValidBundle(b) && Lists(lb, b) && Validate(es, b, lb).Accepted?
    ensures a == b
  {
    PinnedFiles(es, a, la, b, lb);
    PinnedFiles(es, b, lb, a, la);
    assert a.Keys == b.Keys;
  }

  lemma PinnedFiles(es: seq<Entry>, a: Bundle, la: seq<Path>, b: Bundle, lb: seq<Path>)
    requires ValidBundle(a) && Lists(la, a) && Validate(es, a, la).Accepted?
    requires ValidBundle(b) && Lists(lb, b) && Validate(es, b, lb).Accepted?
    ensures forall p | p in a :: p in b && a[p] == b[p]
  {
    AcceptedIsHashes(es, a, la);
    AcceptedIsHashes(es, b, lb);
    forall p | p in a
      ensures p in b && a[p] == b[p]
    {
      FileListed(es, a, SortPaths(la), p);
      EntryHasFile(es, b, SortPaths(lb), FileHash(p, a[p]));
      var q :| q in b && FileHash(p, a[p]) == FileHash(q, b[q]);
      PosixInjective(p, q);
    }
  }

  /** No two files of the bundle straddle. */
  ghost predicate Aligned(b: Bundle) {
    forall p, q | p in b && q in b :: !Straddles(p, q)
  }

  /** Listed in path order, the files are in text order too exactly when none straddle. */
  lemma TextSortedIffAligned(es: seq<Entry>, b: Bundle, actual: seq<Path>)
    requires ValidBundle(b) && HashesInOrder(es, b, actual)
    ensures TextSorted(es) <==> Aligned(b)
  {
    if Aligned(b) {
      forall i, j | 0 <= i < j < |es|
        ensures Text.AtMost(es[i].path, es[j].path)
      {
        OrdersAgree(actual[i], actual[j]);
      }
    } else {
      StraddlersUnsorted(es, b, actual);
    }
  }

  lemma StraddlersUnsorted(es: seq<Entry>, b: Bundle, actual: seq<Path>)
    requires ValidBundle(b) && HashesInOrder(es, b, actual) && !Aligned(b)
    ensures !TextSorted(es)
  {
    var p, q :| p in b && q in b && Straddles(p, q);
    assert p in actual && q in actual;
    var i :| 0 <= i < |actual| && actual[i] == p;
    var j :| 0 <= j < |actual| && actual[j] == q;
    StraddlingPair(es, b, actual, i, j);
  }

  lemma StraddlingPair(es: seq<Entry>, b: Bundle, actual: seq<Path>, i: nat, j: nat)
    requires ValidBundle(b) && HashesInOrder(es, b, actual) && i < |es| && j < |es| && Straddles(actual[i], actual[j])
    ensures i < j && !Text.AtMost(es[i].path, es[j].path)
  {
    StraddlersAreOrdered(actual[i], actual[j]);
    OrderedIndex(actual, i, j);
    OrdersAgree(actual[i], actual[j]);
    LessIsNotAtMost(es[j].path, es[i].path);
  }

  lemma LessIsNotAtMost(x: string, y: string)
    requires Text.Less(x, y)
    ensures !Text.AtMost(y, x)
  {
    Text.LessIrreflexive(x);
    if Text.Less(y, x) {
      Text.LessAsymmetric(x, y);
    }
  }

  /**
   The order, enumeration and hash checks accept what `export` writes exactly when no two files of the bundle
   straddle.
   */
  lemma ExportValidates(b: Bundle, listing: seq<Path>)
    requires ValidBundle(b) && Lists(listing, b)
    ensures Validate(Export(b, listing), b, listing).Accepted? <==> Aligned(b)
  {
    SortKeeps(listing);
    var actual, es := SortPaths(listing), Export(b, listing);
    SortedIsFixed(es);
    assert forall i | 0 <= i < |es| :: actual[i] in actual;
    assert HashesInOrder(es, b, actual);
    TextSortedIffAligned(es, b, actual);
  }

  /** Those three checks accept one manifest at most: the one `export` writes. */
  lemma OnlyExportIsAccepted(es: seq<Entry>, b: Bundle, listing: seq<Path>)
    requires ValidBundle(b) && Lists(listing, b)
    ensures Validate(es, b, listing).Accepted? <==> es == Export(b, listing) && Aligned(b)
  {
    ExportValidates(b, listing);
    SortKeeps(listing);
  }

  lemma OrderedIndex(ps: seq<Path>, i: nat, j: nat)
    requires Ordered(ps) && i < |ps| && j < |ps| && Before(ps[i], ps[j])
    ensures i < j
  {
    if i == j {
      BeforeIrreflexive(ps[i]);
    } else if j < i {
      BeforeTransitive(ps[i], ps[j], ps[i]);
      BeforeIrreflexive(ps[i]);
    }
  }

  /** The one-file bundle `export` writes today passes the order, enumeration and hash checks, whatever its content. */
  lemma LedgerExportValidates(content: Bytes)
    ensures var b: Bundle := map[["data", "ledger.json"] := content];
            Lists([["data", "ledger.json"]], b)
                && Validate(Export(b, [["data", "ledger.json"]]), b, [["data", "ledger.json"]]).Accepted?
  {
    var p := ["data", "ledger.json"];
    var b: Bundle := map[p := content];
    assert ValidPath(p);
    assert !Straddles(p, p) by {
      assert p[1..] == ["ledger.json"] && p[1..][1..] == [];
      assert !Straddles(p[1..][1..], p[1..][1..]);
    }
    assert Aligned(b);
    ExportValidates(b, [p]);
  }

  /** A directory beside a file named like it plus '-' (below '/') makes the export's own validation fail. */
  lemma StraddlingBundleIsRefused(content: Bytes)
    ensures var b: Bundle := map[["data", "ledger.json"] := content, ["data-old.json"] := content];
            var listing := [["data", "ledger.json"], ["data-old.json"]];
            Lists(listing, b) && !Validate(Export(b, listing), b, listing).Accepted?
  {
    var p, q := ["data", "ledger.json"], ["data-old.json"];
    var b: Bundle := map[p := content, q := content];
    assert q[0][..4] == "data" && q[0][4] == '-';
    assert Straddles(p, q);
    ExportValidates(b, [p, q]);
  }
}
