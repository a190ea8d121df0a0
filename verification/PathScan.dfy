/**
 The part of the public-data scan that makes the artifact hash tell manifests apart: a manifest's own paths are scanned
 like any other text in it, and a path that could imitate the end of a hash line holds a token the scan refuses.
 */
module PathScan {
  import opened Common
  import opened BundleHash
  import LineText
  import Manifest

  /** The characters of a token candidate. */
  predicate TokenChar(c: char) {
    'A' <= c <= 'Z' || 'a' <= c <= 'z' || '0' <= c <= '9' || c == '_' || c == '+' || c == '/' || c == '=' || c == '-'
  }

  predicate HexChar(c: char) {
    '0' <= c <= '9' || 'a' <= c <= 'f' || 'A' <= c <= 'F'
  }

  /** A longest run of token characters, of 32 at least. */
  predicate TokenAt(s: string, i: nat, j: nat) {
    && i + 32 <= j <= |s| && (forall k | i <= k < j :: TokenChar(s[k]))
    && (i == 0 || !TokenChar(s[i - 1])) && (j == |s| || !TokenChar(s[j]))
  }

  /** The token is a hexadecimal text of at most 128 digits, and not of the length a hash may have there. */
  predicate HashLike(s: string, i: nat, j: nat, allowed: Option<nat>) {
    TokenAt(s, i, j) && j - i <= 128 && (forall k | i <= k < j :: HexChar(s[k])) && allowed != Some(j - i)
  }

  predicate HoldsHash(s: string, allowed: Option<nat>) {
    exists i, j | 0 <= i <= |s| && 0 <= j <= |s| :: HashLike(s, i, j, allowed)
  }

  predicate NoEmptyComponent(s: string) {
    forall i | 0 < i < |s| :: !(s[i - 1] == '/' && s[i] == '/')
  }

  /** Only a text with a network location and without white space is scanned by its parts as a URL. */
  predicate MayBeUrl(s: string) {
    !NoEmptyComponent(s) && forall i | 0 <= i < |s| :: !LineText.IsSpace(s[i])
  }

  /** `_scan_string` refuses the path for a hash it holds: no length is allowed under the key `path`. */
  predicate ScanRefuses(path: string) {
    var s := LineText.Strip(path);
    !MayBeUrl(s) && HoldsHash(s, None)
  }

  lemma {:induction false} LeftStops(s: string, a: nat) returns (l: nat)
    requires a < |s| && !LineText.IsSpace(s[a])
    ensures l <= a && LineText.StripLeft(s) == s[l..]
  {
    if LineText.IsSpace(s[0]) {
      l := LeftStops(s[1..], a - 1);
      assert s[1..][l..] == s[l + 1..];
      l := l + 1;
    } else {
      l := 0;
    }
  }

  lemma {:induction false} RightStops(s: string, b: nat) returns (r: nat)
    requires 0 < b <= |s| && !LineText.IsSpace(s[b - 1])
    ensures b <= r <= |s| && LineText.StripRight(s) == s[..r]
  {
    if LineText.IsSpace(s[|s| - 1]) {
      r := RightStops(s[..|s| - 1], b);
      assert s[..|s| - 1][..r] == s[..r];
    } else {
      r := |s|;
    }
  }

  /** Stripping keeps everything between two characters that are not white space. */
  lemma StripStops(s: string, a: nat, b: nat) returns (l: nat, r: nat)
    requires a < b <= |s| && !LineText.IsSpace(s[a]) && !LineText.IsSpace(s[b - 1])
    ensures l <= a && b <= r <= |s| && LineText.Strip(s) == s[l..r]
  {
    l := LeftStops(s, a);
    assert s[l..][b - 1 - l] == s[b - 1];
    r := RightStops(s[l..], b - l);
    assert s[l..][..r] == s[l..l + r];
    r := l + r;
  }

  lemma SliceHasNoEmptyComponent(s: string, l: nat, r: nat)
    requires NoEmptyComponent(s) && l <= r <= |s|
    ensures NoEmptyComponent(s[l..r])
  {
    var t := s[l..r];
    forall i | 0 < i < |t|
      ensures !(t[i - 1] == '/' && t[i] == '/')
    {
      assert t[i] == s[l + i] && t[i - 1] == s[l + i - 1];
    }
  }

  lemma HashDigits(s: string, i: nat)
    requires ImitatesAt(s, i)
    ensures forall k | i - 64 <= k < i :: HexChar(s[k]) && TokenChar(s[k]) && !LineText.IsSpace(s[k])
  {
    forall k | i - 64 <= k < i
      ensures HexChar(s[k]) && TokenChar(s[k]) && !LineText.IsSpace(s[k])
    {
      assert s[k] == s[i - 64..i][k - (i - 64)];
    }
  }

  /** A path without empty components that imitates the end of a hash line is refused by the scan. */
  lemma ImitationIsRefused(p: string)
    requires Imitates(p) && NoEmptyComponent(p)
    ensures ScanRefuses(p)
  {
    var i :| 0 <= i < |p| && ImitatesAt(p, i);
    HashDigits(p, i);
    var l, r := StripStops(p, i - 65, i);
    var s := LineText.Strip(p);
    SliceHasNoEmptyComponent(p, l, r);
    assert forall k | i - 65 <= k < i :: s[k - l] == p[k];
    assert i < r ==> s[i - l] == p[i];
    assert HashLike(s, i - 64 - l, i - l, None);
  }

  /** The paths of a manifest that has passed the scan; they were found to be those of files. */
  ghost predicate Scanned(items: seq<Item>) {
    forall i | 0 <= i < |items| :: NoEmptyComponent(items[i].path) && !ScanRefuses(items[i].path)
  }

  /** Two manifests that passed the scan have one artifact hash only if they list the same files. */
  lemma ScannedHashInjective(a: seq<Item>, b: seq<Item>)
    requires Hashed(a) && Hashed(b) && Scanned(a) && Scanned(b) && ArtifactHash(a) == ArtifactHash(b)
    ensures a == b
  {
    ScannedIsPlain(a);
    ScannedIsPlain(b);
    ArtifactHashInjective(a, b);
  }

  lemma ScannedIsPlain(items: seq<Item>)
    requires Scanned(items)
    ensures Plain(items)
  {
    forall i | 0 <= i < |items|
      ensures !Imitates(items[i].path)
    {
      if Imitates(items[i].path) {
        ImitationIsRefused(items[i].path);
      }
    }
  }

  /** The path of a file has no empty component. */
  lemma {:induction false} PosixHasNoEmptyComponent(p: Manifest.Path)
    requires Manifest.ValidPath(p)
    ensures NoEmptyComponent(Manifest.Posix(p)) && Manifest.Posix(p) != "" && Manifest.Posix(p)[0] != '/'
  {
    var s := Manifest.Posix(p);
    NameHasNoSlash(p[0]);
    if |p| > 1 {
      PosixHasNoEmptyComponent(p[1..]);
      var rest := Manifest.Posix(p[1..]);
      assert s == p[0] + ("/" + rest);
      forall i | 0 < i < |s|
        ensures !(s[i - 1] == '/' && s[i] == '/')
      {
        if i > |p[0]| + 1 {
          assert s[i] == rest[i - |p[0]| - 1] && s[i - 1] == rest[i - |p[0]| - 2];
        }
      }
    }
  }

  lemma NameHasNoSlash(n: string)
    requires Manifest.ValidName(n)
    ensures forall i | 0 <= i < |n| :: n[i] != '/'
  {
  }

  /** The scan refuses the path that would give one file the hash of two. */
  lemma CollidingPathIsRefused(sha: string)
    requires HashText(sha)
    ensures ScanRefuses("a.json:" + sha + "\nb.json")
  {
    var p := "a.json:" + sha + "\nb.json";
    assert p[71] == '\n' && p[6] == ':' && p[7..71] == sha;
    assert ImitatesAt(p, 71);
    forall i | 0 < i < |p|
      ensures p[i] != '/'
    {
      assert 7 <= i < 71 ==> p[i] == sha[i - 7];
    }
    ImitationIsRefused(p);
  }

  /** A text of hexadecimal digits alone is refused exactly from 32 to 128 of them, but for the length allowed there. */
  lemma LoneHashRefusedIff(s: string, allowed: Option<nat>)
    requires forall k | 0 <= k < |s| :: '0' <= s[k] <= '9' || 'a' <= s[k] <= 'f' || 'A' <= s[k] <= 'F'
    ensures HoldsHash(s, allowed) <==> 32 <= |s| <= 128 && allowed != Some(|s|)
  {
    assert forall k | 0 <= k < |s| :: HexChar(s[k]) && TokenChar(s[k]);
    if 32 <= |s| <= 128 && allowed != Some(|s|) {
      assert HashLike(s, 0, |s|, allowed);
    }
    forall i, j | 0 <= i <= |s| && 0 <= j <= |s| && HashLike(s, i, j, allowed)
      ensures i == 0 && j == |s|
    {
    }
  }

  /** A text that may be a URL is not refused by this rule: its parts are scanned instead. */
  lemma UrlIsLeftToItsParts(s: string)
    requires !NoEmptyComponent(s) && forall i | 0 <= i < |s| :: !LineText.IsSpace(s[i])
    ensures !ScanRefuses(s)
  {
    LineText.StripFixed(s);
  }
}
