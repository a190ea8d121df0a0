/** The line stage of `normalize_v1`, and why its output can be addressed both by offsets and by line numbers. */
module LineText {
  /** The characters at which `str.splitlines` breaks. */
  predicate IsBreak(c: char) {
    c == '\n' || c == '\r' || c == '\U{0B}' || c == '\U{0C}' || c == '\U{1C}' || c == '\U{1D}' || c == '\U{1E}'
    || c == '\U{85}' || c == '\U{2028}' || c == '\U{2029}'
  }

  /** The characters `str.strip` removes: `str.isspace`. */
  predicate IsSpace(c: char) {
    c == ' ' || c == '\t' || c == '\U{1F}' || IsBreak(c) || c == '\U{A0}' || c == '\U{1680}'
    || '\U{2000}' <= c <= '\U{200A}' || c == '\U{202F}' || c == '\U{205F}' || c == '\U{3000}'
  }

  predicate IsBlank(c: char) {
    c == ' ' || c == '\t'
  }

  /**
   `splitlines`, with `line` collected so far: a carriage return and line feed are one break, a final break adds no
   line.
   */
  function SplitFrom(line: string, s: string): seq<string>
    decreases |s|
  {
    if s == [] then (if line == [] then [] else [line])
    else if s[0] == '\r' && |s| > 1 && s[1] == '\n' then [line] + SplitFrom("", s[2..])
    else if IsBreak(s[0]) then [line] + SplitFrom("", s[1..])
    else SplitFrom(line + [s[0]], s[1..])
  }

  function SplitLines(s: string): seq<string> {
    SplitFrom("", s)
  }

  /** `re.sub(r"[ \t]+", " ", s)` */
  function Collapse(s: string): string {
    if s == [] then []
    else if !IsBlank(s[0]) then [s[0]] + Collapse(s[1..])
    else if |s| > 1 && IsBlank(s[1]) then Collapse(s[1..])
    else " " + Collapse(s[1..])
  }

  function StripLeft(s: string): string {
    if s != [] && IsSpace(s[0]) then StripLeft(s[1..]) else s
  }

  function StripRight(s: string): string {
    if s != [] && IsSpace(s[|s| - 1]) then StripRight(s[..|s| - 1]) else s
  }

  function Strip(s: string): string {
    StripRight(StripLeft(s))
  }

  function Compact(line: string): string {
    Strip(Collapse(line))
  }

  /** One character under `re.I`: the letters, and the three non-ASCII characters that fold to i, k and s. */
  function Fold(c: char): char {
    if 'A' <= c <= 'Z' then (c as int + 32) as char
    else if c == '\U{130}' || c == '\U{131}' then 'i'
    else if c == '\U{17F}' then 's'
    else if c == '\U{212A}' then 'k'
    else c
  }

  function FoldAll(s: string): string {
    if s == [] then [] else [Fold(s[0])] + FoldAll(s[1..])
  }

  predicate IsChrome(s: string) {
    FoldAll(s) in {"cookie preference", "cookie preferences", "accept all", "skip to content"}
  }

  predicate Keeps(line: string) {
    Compact(line) != "" && !IsChrome(Compact(line))
  }

  function Kept(lines: seq<string>): seq<string> {
    if lines == [] then []
    else
      var n := |lines| - 1;
      Kept(lines[..n]) + if Keeps(lines[n]) then [Compact(lines[n])] else []
  }

  /** `"\n".join(lines)` */
  function Join(lines: seq<string>): string {
    if lines == [] then "" else if |lines| == 1 then lines[0] else lines[0] + "\n" + Join(lines[1..])
  }

  function NormalizeLines(text: string): string {
    Strip(Join(Kept(SplitLines(text))))
  }

  method NormalizeLoop(text: string) returns (r: string)
    ensures r == NormalizeLines(text)
  {
    var lines: seq<string> := [];
    var split := SplitLines(text);
    for i := 0 to |split|
      invariant lines == Kept(split[..i])
    {
      assert split[..i + 1][..i] == split[..i];
      var compact := Compact(split[i]);
      if compact != "" && !IsChrome(compact) {
        lines := lines + [compact];
      }
    }
    assert split[..|split|] == split;
    return Strip(Join(lines));
  }

  // ----- what a kept line looks like -----

  predicate NoBreaks(s: string) {
    forall c | c in s :: !IsBreak(c)
  }

  /** No tab and no two blanks in a row. */
  predicate NoRuns(s: string) {
    (forall i | 0 <= i < |s| :: s[i] != '\t') && (forall i | 0 < i < |s| :: !(s[i - 1] == ' ' && s[i] == ' '))
  }

  predicate Stripped(s: string) {
    s == [] || (!IsSpace(s[0]) && !IsSpace(s[|s| - 1]))
  }

  /** A line the loop would keep as it is. */
  predicate Clean(s: string) {
    s != "" && NoBreaks(s) && Compact(s) == s && !IsChrome(s)
  }

  lemma {:induction false} SplitHasNoBreaks(line: string, s: string)
    requires NoBreaks(line)
    ensures forall x | x in SplitFrom(line, s) :: NoBreaks(x)
    decreases |s|
  {
    if s != [] {
      if s[0] == '\r' && |s| > 1 && s[1] == '\n' {
        SplitHasNoBreaks("", s[2..]);
      } else if IsBreak(s[0]) {
        SplitHasNoBreaks("", s[1..]);
      } else {
        SplitHasNoBreaks(line + [s[0]], s[1..]);
      }
    }
  }

  lemma {:induction false} CollapseCleans(s: string)
    ensures NoRuns(Collapse(s))
    ensures NoBreaks(s) ==> NoBreaks(Collapse(s))
    ensures s != [] ==> Collapse(s) != [] && (Collapse(s)[0] == ' ' <==> IsBlank(s[0]))
  {
    if s != [] {
      assert s == [s[0]] + s[1..];
      CollapseCleans(s[1..]);
    }
  }

  lemma {:induction false} CollapseFixed(s: string)
    requires NoRuns(s)
    ensures Collapse(s) == s
  {
    if s != [] {
      assert forall i | 0 < i < |s[1..]| :: s[1..][i - 1] == s[i] && s[1..][i] == s[i + 1];
      CollapseFixed(s[1..]);
      assert s == [s[0]] + s[1..];
      if |s| > 1 {
        assert !(s[0] == ' ' && s[1] == ' ');
      }
    }
  }

  lemma {:induction false} StripLeftSlices(s: string) returns (i: nat)
    ensures i <= |s| && StripLeft(s) == s[i..]
    ensures i < |s| ==> !IsSpace(s[i])
  {
    i := 0;
    if s != [] && IsSpace(s[0]) {
      i := StripLeftSlices(s[1..]);
      i := i + 1;
    }
  }

  lemma {:induction false} StripRightSlices(s: string) returns (i: nat)
    ensures i <= |s| && StripRight(s) == s[..i]
    ensures i > 0 ==> !IsSpace(s[i - 1])
  {
    i := |s|;
    if s != [] && IsSpace(s[|s| - 1]) {
      i := StripRightSlices(s[..|s| - 1]);
      assert s[..|s| - 1][..i] == s[..i];
    }
  }

  lemma SliceKeeps(s: string, i: nat, j: nat)
    requires i <= j <= |s|
    ensures NoRuns(s) ==> NoRuns(s[i..j])
    ensures NoBreaks(s) ==> NoBreaks(s[i..j])
  {
    var r := s[i..j];
    assert forall k | 0 <= k < |r| :: r[k] == s[i + k];
    if NoRuns(s) {
      forall k | 0 < k < |r|
        ensures !(r[k - 1] == ' ' && r[k] == ' ')
      {
        assert r[k] == s[i + k] && r[k - 1] == s[i + k - 1];
      }
    }
  }

  lemma StripSlices(s: string)
    ensures Stripped(Strip(s))
    ensures NoRuns(s) ==> NoRuns(Strip(s))
    ensures NoBreaks(s) ==> NoBreaks(Strip(s))
  {
    var i := StripLeftSlices(s);
    var left := StripLeft(s);
    var j := StripRightSlices(left);
    var r := Strip(s);
    assert r == left[..j];
    assert r == s[i..i + j];
    SliceKeeps(s, i, i + j);
    if j > 0 {
      assert r[0] == s[i] && r[j - 1] == left[j - 1];
    }
  }

  lemma StripFixed(s: string)
    requires Stripped(s)
    ensures Strip(s) == s
  {
  }

  lemma CompactIsClean(line: string)
    requires NoBreaks(line) && Keeps(line)
    ensures Clean(Compact(line))
  {
    CollapseCleans(line);
    StripSlices(Collapse(line));
    var c := Compact(line);
    CollapseFixed(c);
    StripFixed(c);
  }

  ghost predicate AllClean(lines: seq<string>) {
    forall x | x in lines :: Clean(x)
  }

  lemma {:induction false} KeptAreClean(lines: seq<string>)
    requires forall x | x in lines :: NoBreaks(x)
    ensures AllClean(Kept(lines))
  {
    if lines != [] {
      var n := |lines| - 1;
      KeptAreClean(lines[..n]);
      assert lines[n] in lines;
      if Keeps(lines[n]) {
        CompactIsClean(lines[n]);
      }
    }
  }

  lemma {:induction false} KeptFixed(lines: seq<string>)
    requires AllClean(lines)
    ensures Kept(lines) == lines
  {
    if lines != [] {
      var n := |lines| - 1;
      assert lines[n] in lines && lines == lines[..n] + [lines[n]];
      KeptFixed(lines[..n]);
    }
  }

  lemma {:induction false} SplitPlain(line: string, s: string, rest: string)
    requires NoBreaks(s)
    ensures SplitFrom(line, s + rest) == SplitFrom(line + s, rest)
    decreases |s|
  {
    if s == [] {
      assert s + rest == rest && line + s == line;
    } else {
      assert s[0] in s;
      assert (s + rest)[1..] == s[1..] + rest;
      assert line + [s[0]] + s[1..] == line + s;
      SplitPlain(line + [s[0]], s[1..], rest);
    }
  }

  /** Joining clean lines and splitting the text again gives the lines back. */
  lemma {:induction false} SplitJoin(lines: seq<string>)
    requires AllClean(lines)
    ensures SplitLines(Join(lines)) == lines
    decreases |lines|
  {
    if lines != [] {
      var first := lines[0];
      assert first in lines;
      if |lines| == 1 {
        SplitPlain("", first, "");
        assert first + "" == first && "" + first == first;
      } else {
        var rest := "\n" + Join(lines[1..]);
        SplitPlain("", first, rest);
        assert first + "\n" + Join(lines[1..]) == first + rest;
        assert "" + first == first && rest[1..] == Join(lines[1..]);
        SplitJoin(lines[1..]);
        assert lines == [first] + lines[1..];
      }
    }
  }

  lemma {:induction false} JoinEnds(lines: seq<string>)
    requires AllClean(lines) && lines != []
    ensures Join(lines) != "" && Stripped(Join(lines))
    decreases |lines|
  {
    assert lines[0] in lines;
    CleanEnds(lines[0]);
    if |lines| > 1 {
      JoinEnds(lines[1..]);
    }
  }

  lemma CleanEnds(s: string)
    requires Clean(s)
    ensures Stripped(s)
  {
    StripSlices(Collapse(s));
  }

  /** The line stage outputs the kept lines, and its output splits back into exactly these. */
  lemma NormalizedLines(text: string)
    ensures var kept := Kept(SplitLines(text));
            AllClean(kept) && NormalizeLines(text) == Join(kept) && SplitLines(NormalizeLines(text)) == kept
  {
    SplitHasNoBreaks("", text);
    KeptAreClean(SplitLines(text));
    var kept := Kept(SplitLines(text));
    if kept != [] {
      JoinEnds(kept);
    }
    StripFixed(Join(kept));
    SplitJoin(kept);
  }

  /** Normalising the lines of a normalised text changes nothing. */
  lemma NormalizeIdempotent(text: string)
    ensures NormalizeLines(NormalizeLines(text)) == NormalizeLines(text)
  {
    NormalizedLines(text);
    var kept := Kept(SplitLines(text));
    KeptFixed(kept);
  }

  // ----- what is kept -----

  /** The longest runs without blanks, `word` collected so far. */
  function Words(word: string, s: string): seq<string>
    decreases |s|
  {
    var done := if word == "" then [] else [word];
    if s == "" then done
    else if s[0] == ' ' || s[0] == '\t' then done + Words("", s[1..])
    else Words(word + [s[0]], s[1..])
  }

  /** Collapsing blanks changes no word. */
  lemma {:induction false} CollapseKeepsWords(word: string, s: string)
    ensures Words(word, Collapse(s)) == Words(word, s)
    decreases |s|
  {
    if s != "" {
      var c := Collapse(s[1..]);
      if !IsBlank(s[0]) {
        assert ([s[0]] + c)[1..] == c;
        CollapseKeepsWords(word + [s[0]], s[1..]);
      } else if |s| > 1 && IsBlank(s[1]) {
        CollapseKeepsWords(word, s[1..]);
        assert s[1..][1..] == s[2..];
      } else {
        assert (" " + c)[1..] == c;
        CollapseKeepsWords("", s[1..]);
      }
    }
  }

  /** Stripping takes white space off both ends, all of it and nothing else. */
  lemma StripMeans(s: string) returns (l: nat, r: nat)
    ensures l <= r <= |s| && Strip(s) == s[l..r]
    ensures forall k | 0 <= k < l || r <= k < |s| :: IsSpace(s[k])
    ensures l < r ==> !IsSpace(s[l]) && !IsSpace(s[r - 1])
  {
    l := LeadingSpace(s);
    var rest := StripLeft(s);
    var m := TrailingSpace(rest);
    r := l + m;
    assert rest == s[l..];
    assert forall k | l <= k < |s| :: s[k] == rest[k - l];
    assert rest[..m] == s[l..r];
  }

  lemma {:induction false} LeadingSpace(s: string) returns (l: nat)
    ensures l <= |s| && StripLeft(s) == s[l..] && forall k | 0 <= k < l :: IsSpace(s[k])
    ensures l < |s| ==> !IsSpace(s[l])
  {
    l := 0;
    if s != "" && IsSpace(s[0]) {
      l := LeadingSpace(s[1..]);
      assert forall k | 0 < k < l + 1 :: s[k] == s[1..][k - 1];
      assert l < |s[1..]| ==> s[1..][l] == s[l + 1];
      l := l + 1;
    }
  }

  lemma {:induction false} TrailingSpace(s: string) returns (m: nat)
    ensures m <= |s| && StripRight(s) == s[..m] && forall k | m <= k < |s| :: IsSpace(s[k])
    ensures m > 0 ==> !IsSpace(s[m - 1])
  {
    m := |s|;
    if s != "" && IsSpace(s[|s| - 1]) {
      var shorter := s[..|s| - 1];
      m := TrailingSpace(shorter);
      assert shorter[..m] == s[..m];
      assert forall k | m <= k < |shorter| :: s[k] == shorter[k];
    }
  }

  function WithoutBreaks(s: string): string {
    if s == "" then "" else (if IsBreak(s[0]) then "" else [s[0]]) + WithoutBreaks(s[1..])
  }

  function Concat(lines: seq<string>): string {
    if lines == [] then "" else lines[0] + Concat(lines[1..])
  }

  lemma ConcatCons(line: string, rest: seq<string>)
    ensures Concat([line] + rest) == line + Concat(rest)
  {
    assert ([line] + rest)[1..] == rest;
  }

  lemma BreaksDropped(s: string)
    ensures |s| > 0 && IsBreak(s[0]) ==> WithoutBreaks(s) == WithoutBreaks(s[1..])
    ensures |s| > 1 && IsBreak(s[0]) && IsBreak(s[1]) ==> WithoutBreaks(s) == WithoutBreaks(s[2..])
  {
    if |s| > 1 {
      assert s[1..][1..] == s[2..] && s[1..][0] == s[1];
    }
  }

  /** A finished line comes before the text of the others. */
  lemma FinishedLine(line: string, rest: seq<string>, text: string)
    requires Concat(rest) == "" + text
    ensures Concat([line] + rest) == line + text
  {
    ConcatCons(line, rest);
    assert "" + text == text;
  }

  lemma LongerLine(line: string, s: string)
    requires s != "" && !IsBreak(s[0])
    ensures (line + [s[0]]) + WithoutBreaks(s[1..]) == line + WithoutBreaks(s)
  {
  }

  /** Splitting loses the line breaks and nothing else. */
  lemma {:induction false} SplitKeepsText(line: string, s: string)
    ensures Concat(SplitFrom(line, s)) == line + WithoutBreaks(s)
    decreases |s|
  {
    BreaksDropped(s);
    if s == "" {
      ConcatCons(line, []);
    } else if s[0] == '\r' && |s| > 1 && s[1] == '\n' {
      SplitKeepsText("", s[2..]);
      FinishedLine(line, SplitFrom("", s[2..]), WithoutBreaks(s[2..]));
    } else if IsBreak(s[0]) {
      SplitKeepsText("", s[1..]);
      FinishedLine(line, SplitFrom("", s[1..]), WithoutBreaks(s[1..]));
    } else {
      SplitKeepsText(line + [s[0]], s[1..]);
      LongerLine(line, s);
    }
  }

  const CHROME := ["cookie preference", "cookie preferences", "accept all", "skip to content"]

  lemma {:induction false} FoldAt(s: string)
    ensures |FoldAll(s)| == |s| && forall i | 0 <= i < |s| :: FoldAll(s)[i] == Fold(s[i])
  {
    if s != "" {
      FoldAt(s[1..]);
    }
  }

  /** A line is page chrome exactly when it is one of four phrases, character by character and whatever the case. */
  lemma ChromeIff(s: string)
    ensures IsChrome(s) <==> exists p :: p in CHROME && |s| == |p| && forall i | 0 <= i < |s| :: Fold(s[i]) == p[i]
  {
    FoldAt(s);
    forall p | p in CHROME
      ensures FoldAll(s) == p <==> |s| == |p| && forall i | 0 <= i < |s| :: Fold(s[i]) == p[i]
    {
    }
    assert FoldAll(s) in CHROME <==> IsChrome(s);
  }

  /** Some line is this text once its blanks are collapsed and its ends stripped. */
  ghost predicate Says(lines: seq<string>, x: string) {
    exists i :: 0 <= i < |lines| && Strip(Collapse(lines[i])) == x
  }

  lemma SaysOneMore(lines: seq<string>, line: string, x: string)
    ensures Says(lines + [line], x) <==> Says(lines, x) || Strip(Collapse(line)) == x
  {
    var more := lines + [line];
    assert more[|lines|] == line;
    if Says(lines, x) {
      var i :| 0 <= i < |lines| && Strip(Collapse(lines[i])) == x;
      assert more[i] == lines[i];
    }
    if Says(more, x) {
      var i :| 0 <= i < |more| && Strip(Collapse(more[i])) == x;
      assert i < |lines| ==> more[i] == lines[i];
    }
  }

  /** Every line that has something to say is kept, compacted, and nothing else is. */
  lemma {:induction false} KeptIff(lines: seq<string>, x: string)
    ensures x in Kept(lines) <==> x != "" && !IsChrome(x) && Says(lines, x)
  {
    if lines != [] {
      var n := |lines| - 1;
      KeptIff(lines[..n], x);
      SaysOneMore(lines[..n], lines[n], x);
      assert lines == lines[..n] + [lines[n]];
    }
  }

  /** The same characters by code point. */
  lemma CodePoints(c: char)
    ensures var n := c as int;
            && (IsBreak(c) <==> 10 <= n <= 13 || 28 <= n <= 30 || n == 133 || 8232 <= n <= 8233)
            && (IsSpace(c) <==>
                  || 9 <= n <= 13 || 28 <= n <= 32 || n == 133 || n == 160 || n == 5760 || 8192 <= n <= 8202
                  || 8232 <= n <= 8233 || n == 8239 || n == 8287 || n == 12288)
  {
  }

  /** Equal but for the case of ASCII letters. */
  predicate SameButCase(s: string, t: string) {
    |s| == |t| && forall i | 0 <= i < |s| ::
      || s[i] == t[i]
      || ('A' <= s[i] <= 'Z' && t[i] as int == s[i] as int + 32)
      || ('A' <= t[i] <= 'Z' && s[i] as int == t[i] as int + 32)
  }

  /** What is page chrome does not depend on the case. */
  lemma CaseDoesNotMatter(s: string, t: string)
    requires SameButCase(s, t)
    ensures IsChrome(s) <==> IsChrome(t)
  {
    FoldAt(s);
    FoldAt(t);
    assert forall i | 0 <= i < |s| :: Fold(s[i]) == Fold(t[i]);
    assert FoldAll(s) == FoldAll(t);
  }
}
