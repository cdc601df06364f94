/** The few Python `str` operations the evaluators rely on: `lower`, `strip`,
    the substring test `in`, `split`, the `\d+\.?\d*` number search and the
    decimal rendering of a count. */
module Text {
  import opened Wrappers

  // ---------------------------------------------------------------------
  // Case folding (ASCII letters only)
  // ---------------------------------------------------------------------

  predicate IsUpperAscii(c: char) { 'A' <= c <= 'Z' }

  /** `str.lower` on one character, for the ASCII range. */
  function LowerChar(c: char): (r: char)
    ensures !IsUpperAscii(r)
    ensures r == c || IsUpperAscii(c)
  {
    if IsUpperAscii(c) then (c as int + 32) as char else c
  }

  /** `str.lower`: every character folded independently, length kept. */
  function Lower(s: string): (r: string)
    ensures |r| == |s|
    ensures forall i :: 0 <= i < |r| ==> !IsUpperAscii(r[i])
  {
    seq(|s|, i requires 0 <= i < |s| => LowerChar(s[i]))
  }

  lemma LowerIdempotent(s: string)
    ensures Lower(Lower(s)) == Lower(s)
  {
  }

  lemma LowerConcat(a: string, b: string)
    ensures Lower(a + b) == Lower(a) + Lower(b)
  {
    assert Lower(a + b) == Lower(a) + Lower(b);
  }

  // ---------------------------------------------------------------------
  // Whitespace and `strip`
  // ---------------------------------------------------------------------

  /** `str.isspace` on one character: the 29 code points Python counts as
      white space. */
  predicate IsSpace(c: char) {
    var n := c as int;
    (9 <= n <= 13) || (0x1C <= n <= 0x20) || n == 0x85 || n == 0xA0
    || n == 0x1680 || (0x2000 <= n <= 0x200A) || n == 0x2028 || n == 0x2029
    || n == 0x202F || n == 0x205F || n == 0x3000
  }

  /* Stripping is proved for an arbitrary class of characters `cls`, so that
     the proofs never unfold the 29-way definition of `IsSpace`. */

  predicate AllIn(s: string, cls: char -> bool) {
    forall i :: 0 <= i < |s| ==> cls(s[i])
  }

  /** Neither end of `s` is in `cls`. */
  predicate TrimmedBy(s: string, cls: char -> bool) {
    s == [] || (!cls(s[0]) && !cls(s[|s| - 1]))
  }

  /** How many characters at the start of `s` are in `cls`. */
  function LeadingRun(s: string, cls: char -> bool): (n: nat)
    ensures n <= |s|
    ensures AllIn(s[..n], cls)
    ensures n < |s| ==> !cls(s[n])
    decreases |s|
  {
    if |s| > 0 && cls(s[0]) then
      var m := LeadingRun(s[1..], cls);
      RunGrowsLeft(s, m, cls);
      1 + m
    else 0
  }

  lemma RunGrowsLeft(s: string, m: nat, cls: char -> bool)
    requires 0 < |s| && m < |s| && cls(s[0]) && AllIn(s[1..][..m], cls)
    ensures AllIn(s[..1 + m], cls)
  {
    var t, rest := s[..1 + m], s[1..][..m];
    forall k | 0 < k < |t| ensures cls(t[k]) {
      assert t[k] == rest[k - 1];
    }
  }

  /** How many characters at the end of `s` are in `cls`. */
  function TrailingRun(s: string, cls: char -> bool): (n: nat)
    ensures n <= |s|
    ensures AllIn(s[|s| - n..], cls)
    ensures n < |s| ==> !cls(s[|s| - n - 1])
    decreases |s|
  {
    if |s| > 0 && cls(s[|s| - 1]) then
      var u := s[..|s| - 1];
      var m := TrailingRun(u, cls);
      RunGrowsRight(s, m, cls);
      1 + m
    else 0
  }

  lemma RunGrowsRight(s: string, m: nat, cls: char -> bool)
    requires 0 < |s| && m < |s| && cls(s[|s| - 1]) && AllIn(s[..|s| - 1][|s| - 1 - m..], cls)
    ensures AllIn(s[|s| - (1 + m)..], cls)
  {
    var t, rest := s[|s| - (1 + m)..], s[..|s| - 1][|s| - 1 - m..];
    forall k | 0 <= k < m ensures cls(t[k]) {
      assert t[k] == rest[k];
    }
  }

  /** `s.strip(chars)`, where `chars` is the class `cls`. */
  function StripBy(s: string, cls: char -> bool): (r: string)
    ensures TrimmedBy(r, cls)
    ensures |r| <= |s|
  {
    var t := s[LeadingRun(s, cls)..];
    t[..|t| - TrailingRun(t, cls)]
  }

  /** `StripBy(s, cls)` is the middle of `s` between two runs of `cls`. */
  lemma StripBySplits(s: string, cls: char -> bool) returns (pre: string, post: string)
    ensures s == pre + StripBy(s, cls) + post
    ensures AllIn(pre, cls) && AllIn(post, cls)
  {
    var a := LeadingRun(s, cls);
    var t := s[a..];
    var b := TrailingRun(t, cls);
    pre, post := s[..a], t[|t| - b..];
    assert s == pre + StripBy(s, cls) + post by {
      var core := t[..|t| - b];
      assert core == StripBy(s, cls);
      TakeDrop(t, |t| - b);
      TakeDrop(s, a);
      Reassociate(s, pre, t, core, post);
    }
  }

  lemma TakeDrop(s: string, n: nat)
    requires n <= |s|
    ensures s == s[..n] + s[n..]
  {
  }

  lemma Reassociate(s: string, pre: string, t: string, core: string, post: string)
    requires s == pre + t && t == core + post
    ensures s == pre + core + post
  {
  }

  lemma {:induction false} LeadingRunOfPadded(w: string, t: string, cls: char -> bool)
    requires AllIn(w, cls)
    requires t == [] || !cls(t[0])
    ensures LeadingRun(w + t, cls) == |w|
    decreases |w|
  {
    if w != [] {
      assert (w + t)[1..] == w[1..] + t;
      LeadingRunOfPadded(w[1..], t, cls);
    }
  }

  lemma {:induction false} TrailingRunOfPadded(t: string, w: string, cls: char -> bool)
    requires AllIn(w, cls)
    requires t == [] || !cls(t[|t| - 1])
    ensures TrailingRun(t + w, cls) == |w|
    decreases |w|
  {
    if w != [] {
      assert (t + w)[..|t + w| - 1] == t + w[..|w| - 1];
      TrailingRunOfPadded(t, w[..|w| - 1], cls);
    } else {
      assert t + w == t;
    }
  }

  /** What `strip` keeps of a trimmed core between two runs of `cls` is the core. */
  lemma StripByOfPadded(w1: string, core: string, w2: string, cls: char -> bool)
    requires AllIn(w1, cls) && AllIn(w2, cls) && TrimmedBy(core, cls)
    ensures StripBy(w1 + core + w2, cls) == core
  {
    var s := w1 + core + w2;
    if core == [] {
      assert s == (w1 + w2) + [];
      assert AllIn(w1 + w2, cls);
      LeadingRunOfPadded(w1 + w2, [], cls);
      assert s[|s|..] == [];
    } else {
      assert s == w1 + (core + w2);
      LeadingRunOfPadded(w1, core + w2, cls);
      assert s[|w1|..] == core + w2;
      TrailingRunOfPadded(core, w2, cls);
    }
  }

  lemma StripByIgnoresPadding(w1: string, s: string, w2: string, cls: char -> bool)
    requires AllIn(w1, cls) && AllIn(w2, cls)
    ensures StripBy(w1 + s + w2, cls) == StripBy(s, cls)
  {
    var pre, post := StripBySplits(s, cls);
    var core := StripBy(s, cls);
    assert AllIn(w1 + pre, cls);
    assert AllIn(post + w2, cls);
    Regroup(w1, pre, core, post, w2);
    StripByOfPadded(w1 + pre, core, post + w2, cls);
  }

  lemma Regroup(w1: string, pre: string, core: string, post: string, w2: string)
    ensures w1 + (pre + core + post) + w2 == (w1 + pre) + core + (post + w2)
  {
    var a, b := w1 + (pre + core + post) + w2, (w1 + pre) + core + (post + w2);
    assert |a| == |b|;
    forall k | 0 <= k < |a| ensures a[k] == b[k] {
      if k < |w1| + |pre| {
      } else if k < |w1| + |pre| + |core| {
      } else {
      }
    }
  }

  // Python's own `strip()`, `isspace` on every character, and the facts above for it.

  predicate AllSpace(s: string) { AllIn(s, IsSpace) }

  /** `str.strip()`. */
  function Strip(s: string): (r: string)
    ensures TrimmedBy(r, IsSpace)
    ensures |r| <= |s|
  {
    StripBy(s, IsSpace)
  }

  /** Surrounding white space never changes the result of `strip`. */
  lemma StripIgnoresPadding(w1: string, s: string, w2: string)
    requires AllSpace(w1) && AllSpace(w2)
    ensures Strip(w1 + s + w2) == Strip(s)
  {
    StripByIgnoresPadding(w1, s, w2, IsSpace);
  }

  // ---------------------------------------------------------------------
  // Substrings: `pat in text`, and the first occurrence that `split` looks for
  // ---------------------------------------------------------------------

  predicate OccursAt(text: string, pat: string, i: int) {
    0 <= i && i + |pat| <= |text| && text[i..i + |pat|] == pat
  }

  /** Python's `pat in text` on strings. */
  predicate Contains(text: string, pat: string) {
    exists i | 0 <= i <= |text| :: OccursAt(text, pat, i)
  }

  /** A substring of a substring is a substring. */
  lemma OccursWithin(a: string, b: string, c: string, i: int, j: int)
    requires OccursAt(a, b, i) && OccursAt(b, c, j)
    ensures OccursAt(a, c, i + j)
  {
    forall k | 0 <= k < |c| ensures a[i + j + k] == c[k] {
      assert b[j + k] == c[k];
      assert a[i + (j + k)] == b[j + k];
    }
    assert a[i + j..i + j + |c|] == c;
  }

  lemma ContainsTransitive(a: string, b: string, c: string)
    requires Contains(a, b) && Contains(b, c)
    ensures Contains(a, c)
  {
    var i :| 0 <= i <= |a| && OccursAt(a, b, i);
    var j :| 0 <= j <= |b| && OccursAt(b, c, j);
    OccursWithin(a, b, c, i, j);
  }

  /** A phrase placed between two texts occurs right after the first. */
  lemma OccursInMiddle(x: string, p: string, y: string)
    ensures OccursAt(x + p + y, p, |x|)
  {
    assert (x + p + y)[|x|..|x| + |p|] == p;
  }

  lemma ContainsEmpty(s: string)
    ensures Contains(s, [])
  {
    assert OccursAt(s, [], 0);
  }

  /** Folding case keeps an occurrence in place: what occurs in the text
      occurs, folded, in the folded text. */
  lemma LowerPreservesOccurrence(text: string, pat: string, i: int)
    requires OccursAt(text, pat, i)
    ensures OccursAt(Lower(text), Lower(pat), i)
  {
    assert Lower(text)[i..i + |pat|] == Lower(pat);
  }

  lemma ContainsStripped(s: string)
    ensures Contains(s, Strip(s))
  {
    ContainsStrippedBy(s, IsSpace);
  }

  lemma ContainsStrippedBy(s: string, cls: char -> bool)
    ensures Contains(s, StripBy(s, cls))
  {
    var pre, post := StripBySplits(s, cls);
    assert s[|pre|..|pre| + |StripBy(s, cls)|] == StripBy(s, cls);
    assert OccursAt(s, StripBy(s, cls), |pre|);
  }

  /** A non-empty trimmed pattern that occurs in `s` lies inside `Strip(s)`. */
  lemma TrimmedOccursInStripped(s: string, pat: string, i: int)
    requires OccursAt(s, pat, i) && pat != [] && TrimmedBy(pat, IsSpace)
    ensures Contains(Strip(s), pat)
  {
    TrimmedOccursInStrippedBy(s, pat, i, IsSpace);
  }

  lemma TrimmedOccursInStrippedBy(s: string, pat: string, i: int, cls: char -> bool)
    requires OccursAt(s, pat, i) && pat != [] && TrimmedBy(pat, cls)
    ensures Contains(StripBy(s, cls), pat)
  {
    var pre, post := StripBySplits(s, cls);
    var core := StripBy(s, cls);
    var n := |pat|;
    assert |pre| <= i && i + n <= |pre| + |core| by {
      OccursAtIndex(s, pat, i, 0);
      OccursAtIndex(s, pat, i, n - 1);
      OutsideRuns(pre, core, post, cls);
    }
    SliceOfMiddle(pre, core, post, i, n);
    assert OccursAt(core, pat, i - |pre|);
  }

  lemma OccursAtIndex(text: string, pat: string, i: int, k: nat)
    requires OccursAt(text, pat, i) && k < |pat|
    ensures text[i + k] == pat[k]
  {
    assert text[i..i + |pat|][k] == pat[k];
  }

  /** Every character of `pre + core + post` outside `core` is in `cls`. */
  lemma OutsideRuns(pre: string, core: string, post: string, cls: char -> bool)
    requires AllIn(pre, cls) && AllIn(post, cls)
    ensures forall k :: 0 <= k < |pre| ==> cls((pre + core + post)[k])
    ensures forall k :: |pre| + |core| <= k < |pre| + |core| + |post| ==> cls((pre + core + post)[k])
  {
    var s := pre + core + post;
    forall k | 0 <= k < |pre| ensures cls(s[k]) {
      assert s[k] == pre[k];
    }
    forall k | |pre| + |core| <= k < |s| ensures cls(s[k]) {
      assert s[k] == post[k - |pre| - |core|];
    }
  }

  lemma SliceOfMiddle(pre: string, core: string, post: string, i: int, n: nat)
    requires |pre| <= i && i + n <= |pre| + |core|
    ensures (pre + core + post)[i..i + n] == core[i - |pre|..i - |pre| + n]
  {
    var a, b := (pre + core + post)[i..i + n], core[i - |pre|..i - |pre| + n];
    forall k | 0 <= k < n ensures a[k] == b[k] {
      assert a[k] == (pre + core + post)[i + k];
    }
  }

  /** The first occurrence of `pat` at or after `start`, if any: where `split`
      cuts next. */
  function FindFrom(text: string, pat: string, start: nat): (r: Option<nat>)
    ensures r.Some? ==> start <= r.value && OccursAt(text, pat, r.value)
    ensures r.Some? ==> forall j :: start <= j < r.value ==> !OccursAt(text, pat, j)
    ensures r.None? ==> forall j :: start <= j ==> !OccursAt(text, pat, j)
    decreases |text| - start
  {
    if start + |pat| > |text| then None
    else if OccursAt(text, pat, start) then Some(start)
    else FindFrom(text, pat, start + 1)
  }

  /** The first occurrence of `pat`, if any. */
  function FindFirst(text: string, pat: string): (r: Option<nat>)
    ensures r.None? <==> !Contains(text, pat)
  {
    FindFrom(text, pat, 0)
  }

  // ---------------------------------------------------------------------
  // `str.split(sep)` and its inverse `sep.join(parts)`
  // ---------------------------------------------------------------------

  /** The pieces of `s[start..]` between the non-overlapping occurrences of
      `sep`, found from the left. */
  function SplitFrom(s: string, sep: string, start: nat): (parts: seq<string>)
    requires |sep| > 0 && start <= |s|
    ensures |parts| >= 1
    decreases |s| - start
  {
    match FindFrom(s, sep, start)
    case None => [s[start..]]
    case Some(i) => [s[start..i]] + SplitFrom(s, sep, i + |sep|)
  }

  /** `s.split(sep)` for a non-empty separator. */
  function Split(s: string, sep: string): (parts: seq<string>)
    requires |sep| > 0
    ensures |parts| >= 1
  {
    SplitFrom(s, sep, 0)
  }

  /** `sep.join(parts)`. */
  function Join(parts: seq<string>, sep: string): string
    requires |parts| >= 1
  {
    if |parts| == 1 then parts[0] else parts[0] + sep + Join(parts[1..], sep)
  }

  /** A slice of `s` that holds no occurrence of `sep` does not contain it. */
  lemma SliceIsFree(s: string, sep: string, lo: nat, hi: nat)
    requires lo <= hi <= |s|
    requires forall j :: lo <= j && j + |sep| <= hi ==> !OccursAt(s, sep, j)
    ensures !Contains(s[lo..hi], sep)
  {
    forall j | 0 <= j <= hi - lo ensures !OccursAt(s[lo..hi], sep, j) {
      if OccursAt(s[lo..hi], sep, j) {
        forall k | 0 <= k < |sep| ensures s[lo + j + k] == sep[k] {
          assert sep[k] == s[lo..hi][j..j + |sep|][k];
        }
        assert s[lo + j..lo + j + |sep|] == sep;
        assert OccursAt(s, sep, lo + j);
      }
    }
  }

  /** No piece of a split contains the separator. */
  lemma {:induction false} SplitPiecesAreFree(s: string, sep: string, start: nat)
    requires |sep| > 0 && start <= |s|
    ensures forall k :: 0 <= k < |SplitFrom(s, sep, start)| ==> !Contains(SplitFrom(s, sep, start)[k], sep)
    decreases |s| - start
  {
    match FindFrom(s, sep, start)
    case None =>
      assert SplitFrom(s, sep, start) == [s[start..]];
      SliceIsFree(s, sep, start, |s|);
      assert s[start..|s|] == s[start..];
    case Some(i) =>
      var rest := SplitFrom(s, sep, i + |sep|);
      assert SplitFrom(s, sep, start) == [s[start..i]] + rest;
      SliceIsFree(s, sep, start, i);
      SplitPiecesAreFree(s, sep, i + |sep|);
      forall k | 0 <= k < |SplitFrom(s, sep, start)| ensures !Contains(SplitFrom(s, sep, start)[k], sep) {
        if k > 0 {
          assert SplitFrom(s, sep, start)[k] == rest[k - 1];
        }
      }
  }

  /** There is a second piece exactly when the separator occurs. */
  lemma SplitHasSecondPiece(s: string, sep: string)
    requires |sep| > 0
    ensures |Split(s, sep)| >= 2 <==> Contains(s, sep)
  {
  }

  lemma JoinCons(x: string, ps: seq<string>, sep: string)
    requires |ps| >= 1
    ensures Join([x] + ps, sep) == x + sep + Join(ps, sep)
  {
    assert ([x] + ps)[1..] == ps;
  }

  lemma AroundOccurrence(s: string, sep: string, start: nat, i: nat)
    requires start <= i && OccursAt(s, sep, i)
    ensures s[start..] == s[start..i] + sep + s[i + |sep|..]
  {
    assert s[start..] == s[start..i] + s[i..i + |sep|] + s[i + |sep|..];
  }

  /** Joining the pieces of a split gives back the original string. */
  lemma {:induction false} JoinSplitFrom(s: string, sep: string, start: nat)
    requires |sep| > 0 && start <= |s|
    ensures Join(SplitFrom(s, sep, start), sep) == s[start..]
    decreases |s| - start
  {
    match FindFrom(s, sep, start)
    case None =>
    case Some(i) =>
      JoinSplitFrom(s, sep, i + |sep|);
      JoinCons(s[start..i], SplitFrom(s, sep, i + |sep|), sep);
      AroundOccurrence(s, sep, start, i);
  }

  lemma JoinSplit(s: string, sep: string)
    requires |sep| > 0
    ensures Join(Split(s, sep), sep) == s
  {
    JoinSplitFrom(s, sep, 0);
  }

  /** The second piece of a split is the text between the first and the
      second occurrence of `sep`, or up to the end of `s` if there is no second. */
  lemma SecondPieceBetweenSeparators(s: string, sep: string)
    requires |sep| > 0 && Contains(s, sep)
    ensures |Split(s, sep)| >= 2
    ensures var i := FindFirst(s, sep).value;
      var start := i + |sep|;
      match FindFrom(s, sep, start)
      case None => Split(s, sep)[1] == s[start..] && |Split(s, sep)| == 2
      case Some(k) => Split(s, sep)[1] == s[start..k] && |Split(s, sep)| > 2
  {
    var i := FindFirst(s, sep).value;
    var start := i + |sep|;
    var rest := SplitFrom(s, sep, start);
    assert Split(s, sep) == [s[..i]] + rest;
    match FindFrom(s, sep, start)
    case None =>
      assert rest == [s[start..]];
    case Some(k) =>
      assert rest == [s[start..k]] + SplitFrom(s, sep, k + |sep|);
  }

  // ---------------------------------------------------------------------
  // Digits and the `\d+\.?\d*` search of `re.findall`
  // ---------------------------------------------------------------------

  predicate IsDigit(c: char) { '0' <= c <= '9' }

  predicate HasDigit(s: string) {
    exists i | 0 <= i < |s| :: IsDigit(s[i])
  }

  /** Length of the run of digits of `s` that starts at position `i`. */
  function DigitRun(s: string, i: nat): (n: nat)
    requires i <= |s|
    ensures i + n <= |s|
    ensures i + n < |s| ==> !IsDigit(s[i + n])
    decreases |s| - i
  {
    if i < |s| && IsDigit(s[i]) then 1 + DigitRun(s, i + 1) else 0
  }

  /** Every character of the run is a digit. */
  lemma {:induction false} DigitRunDigits(s: string, i: nat, k: nat)
    requires i <= |s| && i <= k < i + DigitRun(s, i)
    ensures IsDigit(s[k])
    decreases |s| - i
  {
    if k > i {
      DigitRunDigits(s, i + 1, k);
    }
  }

  /** `t` is a whole match of `\d+\.?\d*`: digits, then optionally a point
      and more digits, and nothing else. */
  predicate IsNumberToken(t: string) {
    var d := DigitRun(t, 0);
    d >= 1 && (d == |t| || (t[d] == '.' && d + 1 + DigitRun(t, d + 1) == |t|))
  }

  /** Length of the greedy `\d+\.?\d*` match at the start of `s`. */
  function NumberLength(s: string): (n: nat)
    requires |s| > 0 && IsDigit(s[0])
    ensures 1 <= n <= |s|
    ensures IsNumberToken(s[..n])
  {
    var d := DigitRun(s, 0);
    if d < |s| && s[d] == '.' then
      var e := DigitRun(s, d + 1);
      TokenOfPrefix(s, d + 1 + e);
      d + 1 + e
    else
      TokenOfPrefix(s, d);
      d
  }

  /** The greedy match is a token: the runs of the prefix are those of `s`. */
  lemma TokenOfPrefix(s: string, n: nat)
    requires |s| > 0 && IsDigit(s[0])
    requires var d := DigitRun(s, 0);
      if d < |s| && s[d] == '.' then n == d + 1 + DigitRun(s, d + 1) else n == d
    ensures IsNumberToken(s[..n])
  {
    var d := DigitRun(s, 0);
    DigitRunOfPrefix(s, n, 0);
    if n > d {
      DigitRunOfPrefix(s, n, d + 1);
    }
  }

  /** Cutting `s` at or after the end of a run leaves that run. */
  lemma {:induction false} DigitRunOfPrefix(s: string, n: nat, i: nat)
    requires i <= n <= |s| && i + DigitRun(s, i) <= n
    ensures DigitRun(s[..n], i) == DigitRun(s, i)
    decreases |s| - i
  {
    if i < n && IsDigit(s[i]) {
      DigitRunOfPrefix(s, n, i + 1);
    }
  }

  /** `re.findall(r'\d+\.?\d*', s)`: the non-overlapping greedy matches, left to right. */
  function FindNumbers(s: string): (ms: seq<string>)
    ensures forall k :: 0 <= k < |ms| ==> IsNumberToken(ms[k])
    ensures |ms| > 0 <==> HasDigit(s)
    decreases |s|
  {
    if s == [] then []
    else if !IsDigit(s[0]) then
      assert HasDigit(s) <==> HasDigit(s[1..]) by {
        if HasDigit(s) {
          var i :| 0 <= i < |s| && IsDigit(s[i]);
          assert s[1..][i - 1] == s[i];
        }
        if HasDigit(s[1..]) {
          var i :| 0 <= i < |s[1..]| && IsDigit(s[1..][i]);
          assert s[i + 1] == s[1..][i];
        }
      }
      FindNumbers(s[1..])
    else
      var n := NumberLength(s);
      [s[..n]] + FindNumbers(s[n..])
  }

  // ---------------------------------------------------------------------
  // Decimal rendering of a count, as in an f-string
  // ---------------------------------------------------------------------

  function DigitChar(d: nat): (c: char)
    requires d < 10
    ensures IsDigit(c)
  {
    ('0' as int + d) as char
  }

  /** `str(n)` for a natural number. */
  function NatToString(n: nat): (s: string)
    ensures |s| >= 1
    ensures forall i :: 0 <= i < |s| ==> IsDigit(s[i])
    decreases n
  {
    if n < 10 then [DigitChar(n)] else NatToString(n / 10) + [DigitChar(n % 10)]
  }

  /** `int(s)` for a string of decimal digits. */
  function ParseNat(s: string): nat
    requires forall i :: 0 <= i < |s| ==> IsDigit(s[i])
  {
    if s == [] then 0
    else
      assert IsDigit(s[|s| - 1]);
      10 * ParseNat(s[..|s| - 1]) + (s[|s| - 1] as int - '0' as int)
  }

  /** Reading back the decimal rendering gives the number. */
  lemma {:induction false} ParseNatToString(n: nat)
    ensures ParseNat(NatToString(n)) == n
    decreases n
  {
    if n >= 10 {
      ParseNatToString(n / 10);
      var s := NatToString(n);
      assert s[..|s| - 1] == NatToString(n / 10);
    }
  }
}
