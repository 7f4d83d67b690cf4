/** The Python string operations the pages rely on: `str.strip()`, `str.lower()`,
    the `in` substring test, `str.endswith`, `str.split()` with no argument, and
    the code-point order used when Python compares two strings. */
module Text {
  import opened Seqs

  /** Python's `str.isspace()`: the ASCII whitespace and separator characters
      and the Unicode space separators. */
  predicate IsSpace(c: char) {
    c == ' ' || c == '\t' || c == '\n' || c == '\r' || c == '\U{B}' || c == '\U{C}'
    || ('\U{1C}' <= c <= '\U{1F}') || c == '\U{85}' || c == '\U{A0}' || c == '\U{1680}'
    || ('\U{2000}' <= c <= '\U{200A}') || c == '\U{2028}' || c == '\U{2029}'
    || c == '\U{202F}' || c == '\U{205F}' || c == '\U{3000}'
  }

  predicate NotSpace(c: char) { !IsSpace(c) }

  /** Number of whitespace characters at the start of `s`. */
  function LeadingSpaces(s: string): (n: nat)
    ensures n <= |s|
    ensures forall k :: 0 <= k < n ==> IsSpace(s[k])
    ensures n == |s| || !IsSpace(s[n])
  {
    if s == [] || !IsSpace(s[0]) then 0 else 1 + LeadingSpaces(s[1..])
  }

  /** Number of whitespace characters at the end of `s`. */
  function TrailingSpaces(s: string): (n: nat)
    ensures n <= |s|
    ensures forall k :: |s| - n <= k < |s| ==> IsSpace(s[k])
    ensures n == |s| || !IsSpace(s[|s| - 1 - n])
  {
    if s == [] || !IsSpace(s[|s| - 1]) then 0 else 1 + TrailingSpaces(s[..|s| - 1])
  }

  /** Neither end of `s` is whitespace. */
  predicate NoOuterSpace(s: string) {
    s == [] || (!IsSpace(s[0]) && !IsSpace(s[|s| - 1]))
  }

  /** `r` is `s` with some whitespace-only prefix and suffix cut off. */
  ghost predicate IsTrimOf(r: string, s: string) {
    exists i, j :: 0 <= i <= j <= |s| && r == s[i..j]
      && (forall k :: 0 <= k < i ==> IsSpace(s[k]))
      && (forall k :: j <= k < |s| ==> IsSpace(s[k]))
  }

  /** A slice between a whitespace-only prefix and a whitespace-only
      suffix is a trim. */
  lemma TrimOfSlice(s: string, i: nat, j: nat)
    requires i <= j <= |s|
    requires forall k :: 0 <= k < i ==> IsSpace(s[k])
    requires forall k :: j <= k < |s| ==> IsSpace(s[k])
    ensures IsTrimOf(s[i..j], s)
  {
  }

  /** Python's `str.strip()`: the middle of `s` between its leading and
      trailing whitespace. */
  function Strip(s: string): (r: string)
    ensures NoOuterSpace(r)
    ensures IsTrimOf(r, s)
    ensures |r| <= |s|
  {
    var i := LeadingSpaces(s);
    if i == |s| then
      TrimOfSlice(s, i, i);
      []
    else
      var j := |s| - TrailingSpaces(s);
      assert !IsSpace(s[i]);
      assert i < j;
      TrimOfSlice(s, i, j);
      s[i..j]
  }

  /** A property every character of `s` has, every character of its strip
      has too. */
  lemma StripKeeps(s: string, p: char -> bool)
    requires forall k :: 0 <= k < |s| ==> p(s[k])
    ensures forall k :: 0 <= k < |Strip(s)| ==> p(Strip(s)[k])
  {
    var i := LeadingSpaces(s);
    if i < |s| {
      var j := |s| - TrailingSpaces(s);
      assert Strip(s) == s[i..j];
    }
  }

  /** Stripping a string that has no outer whitespace changes nothing; in
      particular Strip is idempotent. */
  lemma StripNoOuterSpace(s: string)
    requires NoOuterSpace(s)
    ensures Strip(s) == s
  {
    assert LeadingSpaces(s) == 0;
    assert TrailingSpaces(s) == 0;
  }

  lemma StripIdempotent(s: string)
    ensures Strip(Strip(s)) == Strip(s)
  {
    StripNoOuterSpace(Strip(s));
  }

  /** A string all of whose characters are whitespace strips to "". */
  lemma StripAllSpace(s: string)
    requires forall k :: 0 <= k < |s| ==> IsSpace(s[k])
    ensures Strip(s) == []
  {
  }

  /** Python's `str.lower()` on the ASCII capitals. */
  function LowerChar(c: char): char {
    if 'A' <= c <= 'Z' then (c as int + 32) as char else c
  }

  function Lower(s: string): (r: string)
    ensures |r| == |s|
    ensures forall k :: 0 <= k < |s| ==> r[k] == LowerChar(s[k])
  {
    seq(|s|, k requires 0 <= k < |s| => LowerChar(s[k]))
  }

  /** `pat` occurs in `s` starting at index `k`. */
  predicate OccursAt(s: string, pat: string, k: nat) {
    k + |pat| <= |s| && s[k..k + |pat|] == pat
  }

  /** Python's `pat in s` for strings: `pat` occurs somewhere in `s`. */
  function Contains(s: string, pat: string): (b: bool)
    ensures b <==> exists k: nat :: OccursAt(s, pat, k)
    decreases |s|
  {
    if |pat| > |s| then false
    else if s[..|pat|] == pat then
      assert OccursAt(s, pat, 0);
      true
    else
      var b := Contains(s[1..], pat);
      assert forall k: nat :: OccursAt(s, pat, k + 1) == OccursAt(s[1..], pat, k);
      assert !OccursAt(s, pat, 0);
      assert forall k: nat :: OccursAt(s, pat, k) ==> k == 0 || OccursAt(s[1..], pat, k - 1);
      b
  }

  /** Python's `s.endswith(suffix)`. */
  predicate EndsWith(s: string, suffix: string)
    ensures EndsWith(s, suffix) <==>
      |suffix| <= |s| && forall k :: 0 <= k < |suffix| ==> s[|s| - |suffix| + k] == suffix[k]
  {
    |suffix| <= |s| && s[|s| - |suffix|..] == suffix
  }

  /** Length of the run of non-whitespace characters that starts `s`. */
  function WordLength(s: string): (n: nat)
    ensures n <= |s|
    ensures forall k :: 0 <= k < n ==> !IsSpace(s[k])
    ensures n == |s| || IsSpace(s[n])
  {
    if s == [] || IsSpace(s[0]) then 0 else 1 + WordLength(s[1..])
  }

  /** Python's `str.split()` with no argument: the maximal runs of
      non-whitespace characters, in order. */
  function Tokens(s: string): (r: seq<string>)
    ensures forall t :: t in r ==> t != [] && forall c :: c in t ==> !IsSpace(c)
    decreases |s|
  {
    var rest := s[LeadingSpaces(s)..];
    if rest == [] then []
    else
      var n := WordLength(rest);
      [rest[..n]] + Tokens(rest[n..])
  }

  function Concat(ts: seq<string>): string {
    if ts == [] then [] else ts[0] + Concat(ts[1..])
  }

  lemma FilterSpacesEmpty(x: string)
    requires forall k :: 0 <= k < |x| ==> IsSpace(x[k])
    ensures Filter(x, NotSpace) == []
  {
  }

  /** Leading whitespace contributes nothing to the non-whitespace
      characters of a string. */
  lemma FilterSkipsLeadingSpaces(s: string)
    ensures Filter(s, NotSpace) == Filter(s[LeadingSpaces(s)..], NotSpace)
  {
    var i := LeadingSpaces(s);
    assert s == s[..i] + s[i..];
    FilterAppend(s[..i], s[i..], NotSpace);
    FilterSpacesEmpty(s[..i]);
  }

  /** A leading word is kept whole by the filter. */
  lemma FilterKeepsLeadingWord(s: string)
    ensures Filter(s, NotSpace) == s[..WordLength(s)] + Filter(s[WordLength(s)..], NotSpace)
  {
    var n := WordLength(s);
    assert s == s[..n] + s[n..];
    FilterAppend(s[..n], s[n..], NotSpace);
    FilterAll(s[..n], NotSpace);
  }

  /** Splitting loses no character but whitespace and invents none: the
      tokens, put back together, are `s` without its whitespace. */
  lemma {:induction false} TokensKeepNonSpace(s: string)
    ensures Concat(Tokens(s)) == Filter(s, NotSpace)
    decreases |s|
  {
    var rest := s[LeadingSpaces(s)..];
    FilterSkipsLeadingSpaces(s);
    if rest != [] {
      var n := WordLength(rest);
      FilterKeepsLeadingWord(rest);
      TokensKeepNonSpace(rest[n..]);
      assert Tokens(s) == [rest[..n]] + Tokens(rest[n..]);
    }
  }

  /** A word of `s` starts at `k`: a non-whitespace character at the start
      of `s` or right after whitespace. */
  predicate WordStartAt(s: string, k: nat)
    requires k < |s|
  {
    !IsSpace(s[k]) && (k == 0 || IsSpace(s[k - 1]))
  }

  /** How many words of `s` start at index `k` or later. */
  function WordStartsFrom(s: string, k: nat): nat
    requires k <= |s|
    decreases |s| - k
  {
    if k == |s| then 0
    else (if WordStartAt(s, k) then 1 else 0) + WordStartsFrom(s, k + 1)
  }

  /** A stretch without word starts adds nothing to the count. */
  lemma {:induction false} NoStartsBetween(s: string, k: nat, e: nat)
    requires k <= e <= |s|
    requires forall l :: k <= l < e ==> !WordStartAt(s, l)
    ensures WordStartsFrom(s, k) == WordStartsFrom(s, e)
    decreases e - k
  {
    if k < e {
      NoStartsBetween(s, k + 1, e);
    }
  }

  /** Past the first index of a suffix, word starts are the same whether the
      suffix is seen on its own or inside `s`. */
  lemma {:induction false} StartsFromSuffix(s: string, j: nat, k: nat)
    requires j < k <= |s|
    ensures WordStartsFrom(s, k) == WordStartsFrom(s[j..], k - j)
    decreases |s| - k
  {
    if k < |s| {
      assert s[j..][k - j] == s[k] && s[j..][k - j - 1] == s[k - 1];
      assert WordStartAt(s, k) == WordStartAt(s[j..], k - j);
      StartsFromSuffix(s, j, k + 1);
    }
  }

  /** Inside a word no other word starts. */
  lemma {:induction false} WordInterior(s: string, i: nat, e: nat)
    requires i < e <= |s|
    requires forall k :: i <= k < e ==> !IsSpace(s[k])
    ensures WordStartsFrom(s, i + 1) == WordStartsFrom(s, e)
  {
    NoStartsBetween(s, i + 1, e);
  }

  /** Where a word ends, the count goes on as in the rest of the string. */
  lemma {:induction false} WordEnd(s: string, e: nat)
    requires 0 < e <= |s|
    requires e == |s| || IsSpace(s[e])
    ensures WordStartsFrom(s, e) == WordStartsFrom(s[e..], 0)
  {
    if e < |s| {
      assert !WordStartAt(s, e);
      StartsFromSuffix(s, e, e + 1);
      assert s[e..][0] == s[e];
      assert !WordStartAt(s[e..], 0);
    }
  }

  /** The word at the head of `s[i..]`, seen in `s` itself: its characters
      are not whitespace and it ends at whitespace or at the end of `s`. */
  lemma WordInPlace(s: string, i: nat)
    requires i < |s| && !IsSpace(s[i])
    ensures var e := i + WordLength(s[i..]);
            i < e <= |s| && (forall k :: i <= k < e ==> !IsSpace(s[k])) && (e == |s| || IsSpace(s[e]))
  {
    var w := s[i..];
    var e := i + WordLength(w);
    assert w[0] == s[i];
    forall k | i <= k < e
      ensures !IsSpace(s[k])
    {
      assert s[k] == w[k - i];
    }
    assert e < |s| ==> s[e] == w[e - i];
  }

  /** After the leading whitespace, the first word of `s` starts, and the
      rest of the count comes from what follows that word. */
  lemma {:induction false} FirstWordStarts(s: string)
    requires LeadingSpaces(s) < |s|
    ensures var i := LeadingSpaces(s);
            var e := i + WordLength(s[i..]);
            i < e <= |s| && WordStartsFrom(s, 0) == 1 + WordStartsFrom(s[e..], 0)
  {
    var i := LeadingSpaces(s);
    var e := i + WordLength(s[i..]);
    NoStartsBetween(s, 0, i);
    assert WordStartAt(s, i);
    assert WordStartsFrom(s, i) == 1 + WordStartsFrom(s, i + 1);
    WordInPlace(s, i);
    WordInterior(s, i, e);
    WordEnd(s, e);
  }

  /** Past leading whitespace, `str.split()` takes the first word as one
      token and splits the rest after it. */
  lemma {:induction false} TokensStep(s: string)
    requires LeadingSpaces(s) < |s|
    ensures var rest := s[LeadingSpaces(s)..];
            Tokens(s) == [rest[..WordLength(rest)]] + Tokens(rest[WordLength(rest)..])
    ensures var rest := s[LeadingSpaces(s)..];
            |Tokens(s)| == 1 + |Tokens(rest[WordLength(rest)..])|
  {
    var rest := s[LeadingSpaces(s)..];
    var n := WordLength(rest);
    assert Tokens(s) == [rest[..n]] + Tokens(rest[n..]);
  }

  /** `str.split()` gives one token per word start of the string, which fixes
      where the tokens split: "1 2 3" has three tokens and "1 23" two. */
  lemma {:induction false} TokenCount(s: string)
    ensures |Tokens(s)| == WordStartsFrom(s, 0)
    decreases |s|
  {
    var i := LeadingSpaces(s);
    if i == |s| {
      NoStartsBetween(s, 0, i);
      assert Tokens(s) == [];
    } else {
      var rest := s[i..];
      var e := i + WordLength(rest);
      TokensStep(s);
      assert rest[WordLength(rest)..] == s[e..];
      FirstWordStarts(s);
      TokenCount(s[e..]);
    }
  }

  /** A string made of whitespace only. */
  predicate AllSpace(x: string) {
    forall k :: 0 <= k < |x| ==> IsSpace(x[k])
  }

  /** `ts` laid out between `gaps`: gaps[0] + ts[0] + gaps[1] + ... + ts[n-1] + gaps[n]. */
  function Weave(ts: seq<string>, gaps: seq<string>): string
    requires |gaps| == |ts| + 1
  {
    if ts == [] then gaps[0] else gaps[0] + ts[0] + Weave(ts[1..], gaps[1..])
  }

  /** `s` is the words `ts` separated by whitespace-only gaps, with at least one
      whitespace character between consecutive words. */
  ghost predicate SplitsInto(s: string, ts: seq<string>, gaps: seq<string>) {
    |gaps| == |ts| + 1 && s == Weave(ts, gaps)
    && (forall k :: 0 <= k < |gaps| ==> AllSpace(gaps[k]))
    && (forall k :: 0 < k < |ts| ==> gaps[k] != [])
  }

  /** The whitespace `str.split()` drops: the run before the first token,
      the runs between tokens and the run after the last one. */
  function Gaps(s: string): (g: seq<string>)
    ensures |g| >= 1
    ensures g[0] == s[..LeadingSpaces(s)]
    decreases |s|
  {
    var i := LeadingSpaces(s);
    var rest := s[i..];
    if rest == [] then [s]
    else
      var n := WordLength(rest);
      [s[..i]] + Gaps(rest[n..])
  }

  /** `str.split()` cuts `s` exactly at its whitespace runs: `s` is its tokens
      woven between whitespace-only gaps, every inner gap non-empty. Since the
      tokens hold no whitespace, this fixes where they split: "ab c" gives
      "ab" and "c", never "a" and "bc". */
  lemma {:induction false} TokensSplit(s: string)
    ensures SplitsInto(s, Tokens(s), Gaps(s))
    decreases |s|
  {
    var i := LeadingSpaces(s);
    if i == |s| {
      assert s[i..] == [];
      assert Tokens(s) == [] && Gaps(s) == [s];
      assert s[..i] == s;
    } else {
      var rest := s[i..];
      var n := WordLength(rest);
      var t := rest[n..];
      TokensStep(s);
      GapsStep(s);
      TokensSplit(t);
      InnerGap(t);
      Rejoin(s, i, n);
      SplitsStep(s, s[..i], rest[..n], t, Tokens(t), Gaps(t));
    }
  }

  /** Past leading whitespace, the first gap is that whitespace and the
      others are those of what follows the first word. */
  lemma {:induction false} GapsStep(s: string)
    requires LeadingSpaces(s) < |s|
    ensures var rest := s[LeadingSpaces(s)..];
            Gaps(s) == [s[..LeadingSpaces(s)]] + Gaps(rest[WordLength(rest)..])
  {
  }

  /** A word after a whitespace-only gap, followed by a split string that
      starts with whitespace whenever it has a word, is a split string. */
  lemma SplitsStep(s: string, g: string, w: string, t: string, ts: seq<string>, gs: seq<string>)
    requires s == g + w + t && AllSpace(g)
    requires SplitsInto(t, ts, gs)
    requires ts != [] ==> gs[0] != []
    ensures SplitsInto(s, [w] + ts, [g] + gs)
  {
    assert ([w] + ts)[1..] == ts && ([g] + gs)[1..] == gs;
  }

  /** Cutting `s` at `i` and then `n` further on and gluing the pieces back gives `s`. */
  lemma Rejoin(s: string, i: nat, n: nat)
    requires i <= |s| && n <= |s| - i
    ensures s == s[..i] + s[i..][..n] + s[i..][n..]
  {
  }

  /** After a word, the next token (if any) is preceded by whitespace. */
  lemma InnerGap(t: string)
    requires t == [] || IsSpace(t[0])
    ensures Tokens(t) != [] ==> Gaps(t)[0] != []
  {
    if t == [] {
      assert Tokens(t) == [];
    }
  }

  /** Python's `a <= b` on strings: lexicographic by code point. */
  predicate LexLeq(a: string, b: string) {
    a == [] || (b != [] && (a[0] < b[0] || (a[0] == b[0] && LexLeq(a[1..], b[1..]))))
  }

  lemma {:induction false} LexReflexive(a: string)
    ensures LexLeq(a, a)
  {
    if a != [] {
      LexReflexive(a[1..]);
    }
  }

  lemma {:induction false} LexTotal(a: string, b: string)
    ensures LexLeq(a, b) || LexLeq(b, a)
  {
    if a != [] && b != [] && a[0] == b[0] {
      LexTotal(a[1..], b[1..]);
    }
  }

  lemma {:induction false} LexTransitive(a: string, b: string, c: string)
    requires LexLeq(a, b) && LexLeq(b, c)
    ensures LexLeq(a, c)
  {
    if a != [] && b != [] && c != [] && a[0] == b[0] && b[0] == c[0] {
      LexTransitive(a[1..], b[1..], c[1..]);
    }
  }
}
