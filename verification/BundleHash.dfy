/**
 The artifact hash of a manifest: SHA-256 of one `path:hash` line for each file.  As a mere function of a list it
 determines the files exactly when no path imitates the end of such a line; PathScan shows that no scanned manifest
 has such a path.
 */
module BundleHash {
  import opened Hashing

  /** A manifest entry as far as the artifact hash goes. */
  datatype Item = Item(path: string, sha256: string)

  /** `sha256` is 64 hexadecimal digits. */
  predicate HashText(s: string) {
    |s| == 64 && forall i | 0 <= i < |s| :: '0' <= s[i] <= '9' || 'a' <= s[i] <= 'f'
  }

  predicate Hashed(items: seq<Item>) {
    forall i | 0 <= i < |items| :: HashText(items[i].sha256)
  }

  function Line(i: Item): string {
    i.path + (":" + i.sha256)
  }

  /** One `path:hash` line for each file, joined by newlines. */
  function Canonical(items: seq<Item>): string
    decreases |items|, 1
  {
    if items == [] then "" else Line(items[0]) + Tail(items)
  }

  function Tail(items: seq<Item>): string
    requires items != []
    decreases |items|, 0
  {
    if |items| == 1 then "" else "\n" + Canonical(items[1..])
  }

  function ArtifactHash(items: seq<Item>): Digest {
    OfText(Canonical(items))
  }

  // ----- paths that imitate -----

  /** At `i` the path has a newline that ends a colon and 64 hexadecimal digits. */
  predicate ImitatesAt(p: string, i: nat) {
    65 <= i < |p| && p[i] == '\n' && p[i - 65] == ':' && HashText(p[i - 64..i])
  }

  predicate Imitates(p: string) {
    exists i | 0 <= i < |p| :: ImitatesAt(p, i)
  }

  predicate Plain(items: seq<Item>) {
    forall i | 0 <= i < |items| :: !Imitates(items[i].path)
  }

  lemma LineParts(i: Item)
    requires HashText(i.sha256)
    ensures |Line(i)| == |i.path| + 65 && Line(i)[|i.path|] == ':'
    ensures Line(i)[..|i.path|] == i.path && Line(i)[|i.path| + 1..] == i.sha256
    ensures forall k | |i.path| <= k < |Line(i)| :: Line(i)[k] != '\n'
  {
    var s := Line(i);
    forall k | |i.path| < k < |s|
      ensures s[k] == i.sha256[k - |i.path| - 1]
    {
    }
    assert s[..|i.path|] == i.path;
  }

  /** A line followed by a newline, at the front of a longer line, makes the longer line's path imitate. */
  lemma LongerLineImitates(i: Item, r: string, j: Item, s: string)
    requires HashText(i.sha256) && HashText(j.sha256) && Line(i) + r == Line(j) + s && |Line(i)| < |Line(j)|
    requires r == "" || r[0] == '\n'
    ensures Imitates(j.path)
  {
    LineParts(i);
    LineParts(j);
    var x, y := Line(i), Line(j);
    var n := |x|;
    assert x + r == y + s;
    assert r != "" by {
      assert |x + r| == |y + s|;
    }
    assert y[n] == (y + s)[n] == (x + r)[n] == r[0];
    assert n < |j.path|;
    forall k | 0 <= k < n
      ensures j.path[k] == x[k]
    {
      assert x[k] == (x + r)[k] == (y + s)[k] == y[k] == y[..|j.path|][k];
    }
    assert j.path[n] == y[..|j.path|][n] == y[n];
    assert j.path[n - 64..n] == x[|i.path| + 1..];
    assert ImitatesAt(j.path, n);
  }

  lemma LineInjective(i: Item, j: Item)
    requires HashText(i.sha256) && HashText(j.sha256) && Line(i) == Line(j)
    ensures i == j
  {
    LineParts(i);
    LineParts(j);
  }

  lemma SameFront(x: string, r: string, y: string, s: string)
    requires x + r == y + s && |x| == |y|
    ensures x == y && r == s
  {
    assert x == (x + r)[..|x|] && y == (y + s)[..|y|];
    assert r == (x + r)[|x|..] && s == (y + s)[|y|..];
  }

  lemma TailStarts(items: seq<Item>)
    requires items != []
    ensures Tail(items) == "" || Tail(items)[0] == '\n'
  {
  }

  lemma FirstEntry(a: seq<Item>, b: seq<Item>)
    requires Hashed(a) && Hashed(b) && Plain(a) && Plain(b) && a != [] && b != [] && Canonical(a) == Canonical(b)
    ensures a[0] == b[0] && Tail(a) == Tail(b)
  {
    TailStarts(a);
    TailStarts(b);
    if |Line(a[0])| < |Line(b[0])| {
      LongerLineImitates(a[0], Tail(a), b[0], Tail(b));
    } else if |Line(b[0])| < |Line(a[0])| {
      LongerLineImitates(b[0], Tail(b), a[0], Tail(a));
    }
    SameFront(Line(a[0]), Tail(a), Line(b[0]), Tail(b));
    LineInjective(a[0], b[0]);
  }

  lemma TailText(a: seq<Item>, b: seq<Item>)
    requires a != [] && b != [] && Tail(a) == Tail(b)
    ensures |a| == 1 <==> |b| == 1
    ensures Canonical(a[1..]) == Canonical(b[1..])
  {
    if |a| > 1 {
      assert Tail(a)[1..] == Canonical(a[1..]) && Tail(b)[1..] == Canonical(b[1..]);
    } else {
      assert a[1..] == b[1..] == [];
    }
  }

  lemma EmptyText(a: seq<Item>)
    requires Hashed(a)
    ensures Canonical(a) == "" <==> a == []
  {
    if a != [] {
      LineParts(a[0]);
    }
  }

  /** Among lists whose paths do not imitate, the artifact hash determines every path and file hash, in order. */
  lemma {:induction false} ArtifactHashInjective(a: seq<Item>, b: seq<Item>)
    requires Hashed(a) && Hashed(b) && Plain(a) && Plain(b) && ArtifactHash(a) == ArtifactHash(b)
    ensures a == b
    decreases |a|
  {
    EmptyText(a);
    EmptyText(b);
    if a != [] {
      FirstEntry(a, b);
      TailText(a, b);
      ArtifactHashInjective(a[1..], b[1..]);
      assert a == [a[0]] + a[1..] && b == [b[0]] + b[1..];
    }
  }

  /** A path without a newline, which is every usual path, does not imitate. */
  lemma NewlineFree(p: string)
    requires forall i | 0 <= i < |p| :: p[i] != '\n'
    ensures !Imitates(p)
  {
  }

  // ----- taking an imitating path apart -----

  function FirstHalf(x: Item, i: nat): Item
    requires ImitatesAt(x.path, i)
  {
    Item(x.path[..i - 65], x.path[i - 64..i])
  }

  function SecondHalf(x: Item, i: nat): Item
    requires ImitatesAt(x.path, i)
  {
    Item(x.path[i + 1..], x.sha256)
  }

  /** The list in which the imitating path of entry `k` is two entries. */
  function Parted(items: seq<Item>, k: nat, i: nat): (r: seq<Item>)
    requires k < |items| && ImitatesAt(items[k].path, i)
    ensures |r| == |items| + 1
  {
    items[..k] + [FirstHalf(items[k], i), SecondHalf(items[k], i)] + items[k + 1..]
  }

  lemma LinePartsAgain(x: Item, i: nat)
    requires ImitatesAt(x.path, i)
    ensures Line(x) == Line(FirstHalf(x, i)) + ("\n" + Line(SecondHalf(x, i)))
  {
    var p := x.path;
    assert p == p[..i - 65] + (":" + p[i - 64..i]) + ("\n" + p[i + 1..]) by {
      assert p[i - 65..i - 64] == ":" && p[i..i + 1] == "\n";
      assert p == p[..i - 65] + p[i - 65..i - 64] + p[i - 64..i] + p[i..i + 1] + p[i + 1..];
    }
  }

  lemma CanonicalCons(x: Item, rest: seq<Item>)
    ensures Canonical([x] + rest) == if rest == [] then Line(x) else Line(x) + ("\n" + Canonical(rest))
  {
    var items := [x] + rest;
    assert items[1..] == rest;
    if rest == [] {
      assert Line(x) + "" == Line(x);
    }
  }

  lemma PartedFirst(x: Item, rest: seq<Item>, i: nat)
    requires ImitatesAt(x.path, i)
    ensures Canonical([x] + rest) == Canonical([FirstHalf(x, i)] + ([SecondHalf(x, i)] + rest))
  {
    var p, q := FirstHalf(x, i), SecondHalf(x, i);
    LinePartsAgain(x, i);
    CanonicalCons(x, rest);
    CanonicalCons(q, rest);
    CanonicalCons(p, [q] + rest);
    if rest != [] {
      Regroup(Line(p), Line(q), Canonical(rest));
    }
  }

  lemma Regroup(p: string, q: string, rest: string)
    ensures (p + ("\n" + q)) + ("\n" + rest) == p + ("\n" + (q + ("\n" + rest)))
  {
  }

  /** Taking an imitating path apart does not change the canonical text. */
  lemma {:induction false} PartedKeepsText(items: seq<Item>, k: nat, i: nat)
    requires k < |items| && ImitatesAt(items[k].path, i) && Hashed(items)
    ensures Canonical(Parted(items, k, i)) == Canonical(items) && Hashed(Parted(items, k, i))
    decreases k
  {
    var x, rest := items[0], items[1..];
    assert items == [x] + rest;
    if k == 0 {
      PartedFirst(x, rest, i);
      assert Parted(items, 0, i) == [FirstHalf(x, i)] + ([SecondHalf(x, i)] + rest);
    } else {
      PartedKeepsText(rest, k - 1, i);
      assert Parted(items, k, i) == [x] + Parted(rest, k - 1, i);
      CanonicalCons(x, rest);
      CanonicalCons(x, Parted(rest, k - 1, i));
    }
  }

  /** Any list with an imitating path has another one with one more entry and the same hash. */
  lemma ImitationCollides(items: seq<Item>) returns (other: seq<Item>)
    requires Hashed(items) && !Plain(items)
    ensures Hashed(other) && |other| == |items| + 1 && ArtifactHash(other) == ArtifactHash(items)
  {
    var k :| 0 <= k < |items| && Imitates(items[k].path);
    var i: nat :| ImitatesAt(items[k].path, i);
    PartedKeepsText(items, k, i);
    other := Parted(items, k, i);
  }

  lemma {:induction false} EntriesAreText(items: seq<Item>)
    requires Hashed(items)
    ensures |items| <= |Canonical(items)|
  {
    if items != [] {
      LineParts(items[0]);
      EntriesAreText(items[1..]);
    }
  }

  /** Taking every imitating path apart ends, in a longer list unless there was none. */
  lemma {:induction false} Normalise(items: seq<Item>) returns (plain: seq<Item>)
    requires Hashed(items)
    ensures Hashed(plain) && Plain(plain) && ArtifactHash(plain) == ArtifactHash(items)
    ensures if Plain(items) then plain == items else |plain| > |items|
    decreases |Canonical(items)| - |items|
  {
    if Plain(items) {
      plain := items;
    } else {
      var other := ImitationCollides(items);
      EntriesAreText(other);
      plain := Normalise(other);
    }
  }

  /** The artifact hash determines a list among all with at least as many entries exactly when no path imitates. */
  lemma DeterminedIffPlain(a: seq<Item>)
    requires Hashed(a)
    ensures (forall b | Hashed(b) && |b| >= |a| && ArtifactHash(b) == ArtifactHash(a) :: b == a) <==> Plain(a)
  {
    if Plain(a) {
      forall b | Hashed(b) && |b| >= |a| && ArtifactHash(b) == ArtifactHash(a)
        ensures b == a
      {
        var plain := Normalise(b);
        ArtifactHashInjective(plain, a);
      }
    } else {
      var other := ImitationCollides(a);
      assert other != a;
    }
  }

  /** As a mere function of the list, the hash cannot tell a path that imitates from two entries. */
  lemma NewlinePathCollides(sha: string)
    requires HashText(sha)
    ensures var one := [Item("a.json:" + sha + "\nb.json", sha)];
            var two := [Item("a.json", sha), Item("b.json", sha)];
            two != one && ArtifactHash(two) == ArtifactHash(one)
  {
    var p := "a.json:" + sha + "\nb.json";
    var x := Item(p, sha);
    assert p[71] == '\n' && p[6] == ':' && p[7..71] == sha;
    assert ImitatesAt(p, 71);
    assert p[..6] == "a.json" && p[72..] == "b.json";
    PartedKeepsText([x], 0, 71);
    assert Parted([x], 0, 71) == [Item("a.json", sha), Item("b.json", sha)];
  }
}
