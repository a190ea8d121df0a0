/** Offset anchors and git line anchors into the same normalised snapshot text. */
module EvidenceAnchor {
  import opened Common
  import opened LineText
  import opened Hashing

  datatype Git = Git(repository: string, commit: string, file: string)

  datatype Snapshot = Snapshot(id: string, sha256: Digest, normalizer: string, text: string, git: Option<Git>)

  /** `line_start` and `line_end`, from 1, both inclusive. */
  datatype LineRange = LineRange(git: Git, first: nat, last: nat)

  /** The shape rules allow the five git fields together or not at all. */
  datatype Anchor = Anchor(snapshotId: string, sha256: Digest, normalizer: string, quote: string,
                           start: nat, end: nat, lines: Option<LineRange>)

  datatype Verdict =
    | Resolves | WrongSnapshot | HashMismatch | NormalizerMismatch | OffsetTooLarge | QuoteMismatch
    | GitRequired | ProvenanceMismatch | LineMismatch

  /** Python's `lines[a:b]`. */
  function Clamp(lines: seq<string>, a: nat, b: nat): seq<string> {
    var hi := if b > |lines| then |lines| else b;
    if a >= hi then [] else lines[a..hi]
  }

  function LineQuote(text: string, r: LineRange): string {
    if r.first == 0 then "" else Join(Clamp(SplitLines(text), r.first - 1, r.last))
  }

  /** `validate_evidence_anchor` */
  function Validate(a: Anchor, s: Snapshot): Verdict {
    if a.snapshotId != s.id then WrongSnapshot
    else if s.sha256 != OfText(s.text) || a.sha256 != OfText(s.text) then HashMismatch
    else if a.normalizer != s.normalizer then NormalizerMismatch
    else if a.end > |s.text| then OffsetTooLarge
    else if a.start > a.end || s.text[a.start..a.end] != a.quote then QuoteMismatch
    else if s.git.Some? then
      if a.lines.None? then GitRequired
      else if a.lines.value.git != s.git.value then ProvenanceMismatch
      else if LineQuote(s.text, a.lines.value) != a.quote then LineMismatch
      else Resolves
    else if a.lines.Some? then ProvenanceMismatch
    else Resolves
  }

  /** `str.count("\\n")` */
  function Newlines(s: string): nat {
    if s == [] then 0 else (if s[0] == '\n' then 1 else 0) + Newlines(s[1..])
  }

  /** A snapshot as `build_snapshot` makes it. */
  function Build(id: string, raw: string, git: Option<Git>): Snapshot {
    var text := NormalizeLines(raw);
    Snapshot(id, OfText(text), "norm-1.0", text, git)
  }

  /** The anchor of the quote at an offset: its lines are found by counting newlines. */
  function AnchorAt(s: Snapshot, start: nat, end: nat): Anchor
    requires start <= end <= |s.text|
  {
    var quote := s.text[start..end];
    var first := Newlines(s.text[..start]) + 1;
    Anchor(s.id, s.sha256, s.normalizer, quote, start, end,
           if s.git.Some? then Some(LineRange(s.git.value, first, first + Newlines(quote))) else None)
  }

  /** The quote begins where a line begins and ends where a line ends. */
  predicate WholeLines(text: string, start: nat, end: nat)
    requires start <= end <= |text|
  {
    (start == 0 || text[start - 1] == '\n') && (end == |text| || text[end] == '\n')
  }

  lemma {:induction false} NewlinesAppend(a: string, b: string)
    ensures Newlines(a + b) == Newlines(a) + Newlines(b)
  {
    if a == [] {
      assert a + b == b;
    } else {
      assert (a + b)[1..] == a[1..] + b;
      NewlinesAppend(a[1..], b);
    }
  }

  lemma {:induction false} NoNewlines(s: string)
    requires forall i | 0 <= i < |s| :: s[i] != '\n'
    ensures Newlines(s) == 0
  {
    if s != [] {
      NoNewlines(s[1..]);
    }
  }

  /** Non-empty lines without a newline, as normalised text has them. */
  ghost predicate Plain(lines: seq<string>) {
    forall i | 0 <= i < |lines| :: lines[i] != "" && forall k | 0 <= k < |lines[i]| :: lines[i][k] != '\n'
  }

  lemma CleanIsPlain(lines: seq<string>)
    requires AllClean(lines)
    ensures Plain(lines)
  {
    forall i | 0 <= i < |lines|
      ensures lines[i] != "" && forall k | 0 <= k < |lines[i]| :: lines[i][k] != '\n'
    {
      assert lines[i] in lines;
      assert forall k | 0 <= k < |lines[i]| :: lines[i][k] in lines[i];
    }
  }

  /** The text of two or more lines: the first, a newline, the others. */
  lemma JoinSplit(lines: seq<string>)
    requires Plain(lines) && |lines| > 1
    ensures var n := |lines[0]|; var t := Join(lines);
            |t| == n + 1 + |Join(lines[1..])| && t[..n] == lines[0] && t[n] == '\n' && t[n + 1..] == Join(lines[1..])
            && (forall k | 0 <= k < n :: t[k] != '\n') && Newlines(t[..n + 1]) == 1 && Plain(lines[1..])
  {
    var n, t := |lines[0]|, Join(lines);
    assert t == lines[0] + "\n" + Join(lines[1..]);
    assert forall k | 0 <= k < n :: t[k] == lines[0][k];
    assert t[..n + 1] == lines[0] + "\n";
    NewlinesAppend(lines[0], "\n");
    NoNewlines(lines[0]);
    assert Newlines("\n") == 1;
  }

  lemma FirstIsNotNewline(lines: seq<string>)
    requires Plain(lines) && lines != []
    ensures Join(lines) != "" && Join(lines)[0] != '\n'
  {
    assert lines[0] != "" && lines[0][0] != '\n';
    assert Join(lines)[0] == lines[0][0];
  }

  /** A prefix that ends with a line is the join of the lines counted in it. */
  lemma {:induction false} PrefixLines(lines: seq<string>, end: nat)
    requires Plain(lines) && lines != [] && 0 < end <= |Join(lines)| && WholeLines(Join(lines), 0, end)
    ensures PrefixCounted(lines, end)
    decreases |lines|
  {
    var t, n := Join(lines), |lines[0]|;
    if |lines| == 1 {
      assert end == |t| && t[..end] == t;
      NoNewlines(t);
      assert lines[..1] == lines;
    } else if end == n {
      JoinSplit(lines);
      NoNewlines(lines[0]);
      assert lines[..1] == [lines[0]];
    } else {
      JoinSplit(lines);
      FirstIsNotNewline(lines[1..]);
      assert end > n + 1 by {
        assert t[n + 1] == t[n + 1..][0];
      }
      assert end < |t| ==> t[end] == t[n + 1..][end - n - 1];
      PrefixLines(lines[1..], end - n - 1);
      PrefixStep(lines, end - n - 1, end);
    }
  }

  /** The prefix is the join of the lines counted in it. */
  ghost predicate PrefixCounted(lines: seq<string>, end: nat) {
    end <= |Join(lines)| && Newlines(Join(lines)[..end]) < |lines|
    && Join(lines[..Newlines(Join(lines)[..end]) + 1]) == Join(lines)[..end]
  }

  /** Joining the first line and some of the others. */
  lemma JoinCons(first: string, rest: seq<string>)
    requires rest != []
    ensures Join([first] + rest) == first + "\n" + Join(rest)
  {
    assert ([first] + rest)[1..] == rest;
  }

  lemma PickCons(lines: seq<string>, k: nat)
    requires k + 1 < |lines|
    ensures lines[..k + 2] == [lines[0]] + lines[1..][..k + 1]
  {
  }

  lemma PrefixSplit(t: string, n: nat, e: nat)
    requires n + e <= |t|
    ensures t[..n + e] == t[..n] + t[n..][..e]
  {
  }

  /** The newlines of a prefix that reaches into the other lines. */
  lemma PrefixCount(lines: seq<string>, e: nat)
    requires Plain(lines) && |lines| > 1 && e <= |Join(lines[1..])|
    ensures var t, u, n := Join(lines), Join(lines[1..]), |lines[0]| + 1;
            && n + e <= |t| && t[..n + e] == lines[0] + "\n" + u[..e]
            && Newlines(t[..n + e]) == Newlines(u[..e]) + 1
  {
    JoinSplit(lines);
    var t, u, n := Join(lines), Join(lines[1..]), |lines[0]| + 1;
    PrefixSplit(t, n, e);
    NewlinesAppend(t[..n], u[..e]);
    assert t[..n] == lines[0] + "\n";
  }

  lemma PrefixStep(lines: seq<string>, e: nat, end: nat)
    requires Plain(lines) && |lines| > 1 && end == |lines[0]| + 1 + e && PrefixCounted(lines[1..], e)
    ensures PrefixCounted(lines, end)
  {
    PrefixCount(lines, e);
    PickedJoin(lines, Newlines(Join(lines[1..])[..e]));
  }

  /** One more line at the front of those picked from the others. */
  lemma PickedJoin(lines: seq<string>, k: nat)
    requires k + 1 < |lines|
    ensures Join(lines[..k + 2]) == lines[0] + "\n" + Join(lines[1..][..k + 1])
  {
    PickCons(lines, k);
    JoinCons(lines[0], lines[1..][..k + 1]);
  }

  /** The range is the join of the lines that newline counting finds. */
  ghost predicate RangeCounted(lines: seq<string>, start: nat, end: nat) {
    start <= end <= |Join(lines)| &&
    var t := Join(lines);
    var a := Newlines(t[..start]);
    var b := a + Newlines(t[start..end]);
    b < |lines| && Join(lines[a..b + 1]) == t[start..end]
  }

  lemma SingleLine(lines: seq<string>)
    requires Plain(lines) && |lines| == 1
    ensures forall k | 0 <= k < |Join(lines)| :: Join(lines)[k] != '\n'
  {
  }

  /** Whole lines are the join of the lines that newline counting finds. */
  lemma {:induction false} RangeLines(lines: seq<string>, start: nat, end: nat)
    requires Plain(lines) && start < end <= |Join(lines)| && WholeLines(Join(lines), start, end)
    ensures RangeCounted(lines, start, end)
    decreases |lines|
  {
    if start == 0 {
      PrefixLines(lines, end);
      PrefixIsRange(lines, end);
    } else {
      if |lines| == 1 {
        SingleLine(lines);
      }
      WholeShift(lines, start, end);
      var s, e := start - |lines[0]| - 1, end - |lines[0]| - 1;
      RangeLines(lines[1..], s, e);
      RangeStep(lines, s, e, start, end);
    }
  }

  lemma PrefixIsRange(lines: seq<string>, end: nat)
    requires PrefixCounted(lines, end)
    ensures RangeCounted(lines, 0, end)
  {
    var t := Join(lines);
    assert t[..0] == "" && t[0..end] == t[..end];
    assert lines[0..Newlines(t[..end]) + 1] == lines[..Newlines(t[..end]) + 1];
  }

  /** A range that begins at a line begin after the first line: where that is in the rest. */
  lemma BeginShift(lines: seq<string>, start: nat)
    requires Plain(lines) && |lines| > 1 && 0 < start <= |Join(lines)| && Join(lines)[start - 1] == '\n'
    ensures var n := |lines[0]| + 1; n <= start && (start > n ==> Join(lines[1..])[start - n - 1] == '\n')
  {
    JoinSplit(lines);
    var t, n := Join(lines), |lines[0]| + 1;
    assert start > n ==> t[start - 1] == t[n..][start - 1 - n];
  }

  lemma EndShift(lines: seq<string>, end: nat)
    requires Plain(lines) && |lines| > 1 && |lines[0]| + 1 <= end <= |Join(lines)|
    requires end == |Join(lines)| || Join(lines)[end] == '\n'
    ensures var e := end - |lines[0]| - 1;
            e == |Join(lines[1..])| || (e < |Join(lines[1..])| && Join(lines[1..])[e] == '\n')
  {
    JoinSplit(lines);
    var t, n := Join(lines), |lines[0]| + 1;
    assert end < |t| ==> t[end] == t[n..][end - n];
  }

  /** Whole lines after the first are whole lines of the rest. */
  lemma WholeShift(lines: seq<string>, start: nat, end: nat)
    requires Plain(lines) && |lines| > 1 && 0 < start < end <= |Join(lines)| && WholeLines(Join(lines), start, end)
    ensures var n := |lines[0]| + 1;
            && n <= start && end - n <= |Join(lines[1..])| && WholeLines(Join(lines[1..]), start - n, end - n)
            && Plain(lines[1..])
  {
    BeginShift(lines, start);
    EndShift(lines, end);
  }

  lemma CountShift(head: string, u: string, s: nat, e: nat)
    requires s <= e <= |u|
    ensures var t := head + u; var n := |head|;
            Newlines(t[..n + s]) == Newlines(head) + Newlines(u[..s]) && t[n + s..n + e] == u[s..e]
  {
    var t := head + u;
    assert t[..|head| + s] == head + u[..s];
    NewlinesAppend(head, u[..s]);
    SliceShift(head, u, s, e);
  }

  lemma SliceShift(head: string, u: string, s: nat, e: nat)
    requires s <= e <= |u|
    ensures (head + u)[|head| + s..|head| + e] == u[s..e]
  {
  }

  lemma RangeStep(lines: seq<string>, s: nat, e: nat, start: nat, end: nat)
    requires Plain(lines) && |lines| > 1 && RangeCounted(lines[1..], s, e)
    requires start == |lines[0]| + 1 + s && end == |lines[0]| + 1 + e
    ensures RangeCounted(lines, start, end)
  {
    JoinSplit(lines);
    var t, u := Join(lines), Join(lines[1..]);
    var head := t[..|lines[0]| + 1];
    assert t == head + u;
    CountShift(head, u, s, e);
    var a := Newlines(u[..s]);
    var b := a + Newlines(u[s..e]);
    RestLines(lines, a, b);
  }

  lemma RestLines(lines: seq<string>, a: nat, b: nat)
    requires a <= b && b + 1 < |lines|
    ensures lines[a + 1..b + 2] == lines[1..][a..b + 1]
  {
    assert lines[1..][a..b + 1] == lines[a + 1..b + 2];
  }

  /** The lines around a range: from the last line begin before it to the first line end after it. */
  lemma {:induction false} LineBegin(text: string, start: nat) returns (s: nat)
    requires start <= |text|
    ensures s <= start && (s == 0 || text[s - 1] == '\n') && Newlines(text[s..start]) == 0
    ensures Newlines(text[..s]) == Newlines(text[..start])
  {
    if start == 0 || text[start - 1] == '\n' {
      s := start;
    } else {
      s := LineBegin(text, start - 1);
      assert text[s..start] == text[s..start - 1] + [text[start - 1]];
      assert text[..start] == text[..start - 1] + [text[start - 1]];
      NewlinesAppend(text[s..start - 1], [text[start - 1]]);
      NewlinesAppend(text[..start - 1], [text[start - 1]]);
    }
  }

  lemma {:induction false} LineEnd(text: string, end: nat) returns (e: nat)
    requires end <= |text|
    ensures end <= e <= |text| && (e == |text| || text[e] == '\n') && Newlines(text[end..e]) == 0
    decreases |text| - end
  {
    if end == |text| || text[end] == '\n' {
      e := end;
    } else {
      e := LineEnd(text, end + 1);
      assert text[end..e] == [text[end]] + text[end + 1..e];
    }
  }

  /** Widening a range to whole lines does not change the lines counted. */
  lemma WidenedCount(t: string, s: nat, start: nat, end: nat, e: nat)
    requires s <= start <= end <= e <= |t| && Newlines(t[s..start]) == 0 && Newlines(t[end..e]) == 0
    ensures Newlines(t[s..e]) == Newlines(t[start..end])
  {
    TwoSlices(t, start, end, e);
    TwoSlices(t, s, start, e);
    NewlinesAppend(t[s..start], t[start..e]);
    NewlinesAppend(t[start..end], t[end..e]);
  }

  lemma TwoSlices(t: string, a: nat, b: nat, c: nat)
    requires a <= b <= c <= |t|
    ensures t[a..c] == t[a..b] + t[b..c]
  {
  }

  /** A range already at a line begin or end is not widened there. */
  lemma WholeIsWidest(t: string, s: nat, start: nat, end: nat, e: nat)
    requires s <= start <= end <= e <= |t| && Newlines(t[s..start]) == 0 && Newlines(t[end..e]) == 0
    requires WholeLines(t, start, end)
    ensures s == start && e == end
  {
    if s < start {
      assert t[s..start][start - 1 - s] == t[start - 1];
      CountsNewline(t[s..start], start - 1 - s);
    }
    if end < e {
      CountsNewline(t[end..e], 0);
    }
  }

  /** The lines counted are those of the widened range. */
  lemma CountedIsWidest(lines: seq<string>, s: nat, start: nat, end: nat, e: nat)
    requires Plain(lines) && s <= start < end <= e <= |Join(lines)| && RangeCounted(lines, s, e)
    requires var t := Join(lines);
             Newlines(t[s..e]) == Newlines(t[start..end]) && Newlines(t[..s]) == Newlines(t[..start])
    ensures var t := Join(lines); var a := Newlines(t[..start]); var b := a + Newlines(t[start..end]);
            Join(Clamp(lines, a, b + 1)) == t[s..e]
  {
    var t := Join(lines);
    var a := Newlines(t[..start]);
    var b := a + Newlines(t[start..end]);
    assert Clamp(lines, a, b + 1) == lines[a..b + 1];
  }

  lemma SlicesDiffer(t: string, s: nat, start: nat, end: nat, e: nat)
    requires s <= start <= end <= e <= |t|
    ensures t[s..e] == t[start..end] <==> s == start && e == end
  {
    assert |t[s..e]| == e - s && |t[start..end]| == end - start;
  }

  /** On normalised text the counted lines join to the quote exactly when the quote occupies whole lines. */
  lemma LineQuoteIffWhole(lines: seq<string>, start: nat, end: nat)
    requires Plain(lines) && start < end <= |Join(lines)|
    ensures var t := Join(lines); var a := Newlines(t[..start]); var b := a + Newlines(t[start..end]);
            Join(Clamp(lines, a, b + 1)) == t[start..end] <==> WholeLines(t, start, end)
  {
    var t := Join(lines);
    var s := LineBegin(t, start);
    var e := LineEnd(t, end);
    RangeLines(lines, s, e);
    WidenedCount(t, s, start, end, e);
    CountedIsWidest(lines, s, start, end, e);
    SlicesDiffer(t, s, start, end, e);
    if WholeLines(t, start, end) {
      WholeIsWidest(t, s, start, end, e);
    }
  }

  lemma {:induction false} CountsNewline(s: string, i: nat)
    requires i < |s| && s[i] == '\n'
    ensures Newlines(s) > 0
  {
    if i > 0 {
      CountsNewline(s[1..], i - 1);
    }
  }

  /** The offset checks pass for every anchor made from an offset; the line check alone decides. */
  lemma OffsetResolves(s: Snapshot, start: nat, end: nat)
    requires start <= end <= |s.text| && s.sha256 == OfText(s.text)
    ensures var a := AnchorAt(s, start, end);
            Validate(a, s)
            == if s.git.None? || LineQuote(s.text, a.lines.value) == s.text[start..end] then Resolves else LineMismatch
  {
  }

  lemma GitAnchorResolves(s: Snapshot, lines: seq<string>, start: nat, end: nat)
    requires start < end <= |s.text| && s.git.Some?
    requires s.text == Join(lines) && SplitLines(s.text) == lines && Plain(lines)
    ensures LineQuote(s.text, AnchorAt(s, start, end).lines.value) == s.text[start..end]
            <==> WholeLines(s.text, start, end)
  {
    LineQuoteIffWhole(lines, start, end);
    var a := Newlines(s.text[..start]);
    var r := AnchorAt(s, start, end).lines.value;
    assert r.first == a + 1 && r.last == a + 1 + Newlines(s.text[start..end]);
  }

  lemma BuiltText(id: string, raw: string, git: Option<Git>)
    ensures var s := Build(id, raw, git); var lines := Kept(SplitLines(raw));
            s.text == Join(lines) && SplitLines(s.text) == lines && Plain(lines) && s.sha256 == OfText(s.text)
                && s.git == git
  {
    NormalizedLines(raw);
    CleanIsPlain(Kept(SplitLines(raw)));
  }

  /**
   An anchor made from an offset into a built snapshot always passes the offset check, and passes the git line
   check too exactly when its quote occupies whole lines.
   */
  lemma AnchorResolvesIffWholeLines(id: string, raw: string, git: Option<Git>, start: nat, end: nat)
    requires start < end <= |Build(id, raw, git).text|
    ensures var s := Build(id, raw, git); var v := Validate(AnchorAt(s, start, end), s);
            (git.None? ==> v.Resolves?)
            && (git.Some? ==> (v.Resolves? <==> WholeLines(s.text, start, end)) && (v.LineMismatch? <==> !v.Resolves?))
  {
    var s := Build(id, raw, git);
    BuiltText(id, raw, git);
    OffsetResolves(s, start, end);
    if git.Some? {
      GitAnchorResolves(s, Kept(SplitLines(raw)), start, end);
    }
  }

  // ----- every anchor -----

  /** On a built snapshot without git an anchor resolves exactly when it is the one made from its own offsets. */
  lemma PlainAnchorResolvesIff(id: string, raw: string, x: Anchor)
    ensures var s := Build(id, raw, None);
            Validate(x, s).Resolves? <==> x.start <= x.end <= |s.text| && x == AnchorAt(s, x.start, x.end)
  {
  }

  /** The git side of an anchor: its repository, commit and file are the snapshot's, and its lines join to its quote. */
  ghost predicate LinesResolve(x: Anchor, git: Git, lines: seq<string>) {
    && x.lines.Some? && x.lines.value.git == git
    && x.quote == if x.lines.value.first == 0 then ""
          else Join(Clamp(lines, x.lines.value.first - 1, x.lines.value.last))
  }

  /**
   On a built git snapshot an anchor resolves exactly when all but its lines is as made from its own offsets, and its
   lines, picked from the kept lines of the raw text, join to its quote.
   */
  lemma GitAnchorResolvesIff(id: string, raw: string, git: Git, x: Anchor)
    ensures var s := Build(id, raw, Some(git));
            Validate(x, s).Resolves? <==>
              && x.start <= x.end <= |s.text|
              && x.(lines := None) == AnchorAt(s, x.start, x.end).(lines := None)
              && LinesResolve(x, git, Kept(SplitLines(raw)))
  {
    BuiltText(id, raw, Some(git));
  }

  /**
   Whatever the snapshot, an anchor that resolves quotes its text at its offsets, and names it by identifier and hash.
   */
  lemma ResolvedQuoteIsThere(x: Anchor, s: Snapshot)
    requires Validate(x, s).Resolves?
    ensures && x.start <= x.end <= |s.text| && x.quote == s.text[x.start..x.end]
            && x.snapshotId == s.id && x.sha256 == s.sha256 == OfText(s.text) && x.normalizer == s.normalizer
            && (x.lines.Some? <==> s.git.Some?)
  {
  }
}
