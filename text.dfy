/**
 * The few Python string operations the scraper relies on, stated over `seq<char>`:
 * `strip`, `split`, `join`, `startswith`, ASCII `lower`, `re.sub(r'\s+', ' ', ...)`,
 * the first match of `re.search(r'^(.*?)Tel:', ..., re.DOTALL)` and `str(int)`
 * with a parser that inverts it. The whitespace set is the one `strip()` and `\s` use.
 */
module Text {
  import opened Wrappers

  /** Python truthiness of an `Optional[str]`: present and non-empty. */
  predicate Truthy(o: Option<string>) {
    o.Some? && o.value != ""
  }

  // ---------------------------------------------------------------- whitespace

  /** The whitespace that `strip()` removes and `\s` matches (the `str.isspace()` set). */
  predicate IsSpace(c: char) {
    || c == ' '
    || ('\t' <= c <= '\r')
    || ('\U{1C}' <= c <= '\U{1F}')
    || c == '\U{85}' || c == '\U{A0}' || c == '\U{1680}'
    || ('\U{2000}' <= c <= '\U{200A}')
    || c == '\U{2028}' || c == '\U{2029}' || c == '\U{202F}' || c == '\U{205F}' || c == '\U{3000}'
  }

  /** Every character of `s` from index `lo` up to (not including) `hi` is whitespace. */
  predicate SpaceBetween(s: string, lo: int, hi: int)
    requires 0 <= lo && hi <= |s|
  {
    forall k :: lo <= k < hi ==> IsSpace(s[k])
  }

  predicate AllSpace(s: string) {
    SpaceBetween(s, 0, |s|)
  }

  /** True when `s` neither begins nor ends with whitespace. */
  predicate Trimmed(s: string) {
    s == [] || (!IsSpace(s[0]) && !IsSpace(s[|s| - 1]))
  }

  /** `s.lstrip()`: drops the leading whitespace and keeps the rest. */
  function TrimLeft(s: string): (r: string)
    ensures |r| <= |s| && r == s[|s| - |r|..]
    ensures SpaceBetween(s, 0, |s| - |r|)
    ensures r == [] || !IsSpace(r[0])
  {
    if s != [] && IsSpace(s[0]) then TrimLeft(s[1..]) else s
  }

  /** `s.rstrip()`: drops the trailing whitespace and keeps the rest. */
  function TrimRight(s: string): (r: string)
    ensures |r| <= |s| && r == s[..|r|]
    ensures SpaceBetween(s, |r|, |s|)
    ensures r == [] || !IsSpace(r[|r| - 1])
  {
    if s != [] && IsSpace(s[|s| - 1]) then TrimRight(s[..|s| - 1]) else s
  }

  /** `s.strip()`. */
  function Strip(s: string): (r: string)
  {
    TrimRight(TrimLeft(s))
  }

  /**
   * What `strip()` promises, independently of how it is computed: the result is
   * the slice `s[i..j]` left once whitespace-only ends are cut away, and the
   * result itself has no whitespace at either end.
   */
  ghost predicate IsStripOf(r: string, s: string) {
    exists i, j :: 0 <= i <= j <= |s| && r == s[i..j] && SpaceBetween(s, 0, i) && SpaceBetween(s, j, |s|) && Trimmed(r)
  }

  lemma StripMeetsSpec(s: string)
    ensures IsStripOf(Strip(s), s)
  {
    var l := TrimLeft(s);
    var r := TrimRight(l);
    var i := |s| - |l|;
    var j := i + |r|;
    SpaceAfterPrefix(s, l, r);
    TrimmedInner(l, r);
    assert r == s[i..j];
    assert Strip(s) == r;
    assert 0 <= i <= j <= |s| && r == s[i..j] && SpaceBetween(s, 0, i) && SpaceBetween(s, j, |s|) && Trimmed(r);
  }

  /** The whitespace `rstrip` drops from the suffix `l` of `s` is whitespace at the end of `s`. */
  lemma SpaceAfterPrefix(s: string, l: string, r: string)
    requires |l| <= |s| && l == s[|s| - |l|..]
    requires |r| <= |l| && r == l[..|r|] && SpaceBetween(l, |r|, |l|)
    ensures SpaceBetween(s, |s| - |l| + |r|, |s|)
  {
    var i := |s| - |l|;
    forall k | i + |r| <= k < |s|
      ensures IsSpace(s[k])
    {
      assert s[k] == l[k - i];
    }
  }

  lemma TrimmedInner(l: string, r: string)
    requires l == [] || !IsSpace(l[0])
    requires |r| <= |l| && r == l[..|r|]
    requires r == [] || !IsSpace(r[|r| - 1])
    ensures Trimmed(r)
  {
    if r != [] {
      assert r[0] == l[0];
    }
  }

  /** Two ways of cutting whitespace-only ends off `s` that leave trimmed slices leave the same slice. */
  lemma TrimmedSlicesAgree(s: string, i: nat, j: nat, i': nat, j': nat)
    requires i <= j <= |s| && SpaceBetween(s, 0, i) && SpaceBetween(s, j, |s|) && Trimmed(s[i..j])
    requires i' <= j' <= |s| && SpaceBetween(s, 0, i') && SpaceBetween(s, j', |s|) && Trimmed(s[i'..j'])
    ensures s[i..j] == s[i'..j']
  {
    if i < j {
      assert s[i..j][0] == s[i] && s[i..j][j - i - 1] == s[j - 1];
      assert !IsSpace(s[i]) && !IsSpace(s[j - 1]);
    }
    if i' < j' {
      assert s[i'..j'][0] == s[i'] && s[i'..j'][j' - i' - 1] == s[j' - 1];
      assert !IsSpace(s[i']) && !IsSpace(s[j' - 1]);
    }
  }

  /** `IsStripOf` admits exactly one result: the one `Strip` computes. */
  lemma StripUnique(s: string, r: string)
    requires IsStripOf(r, s)
    ensures r == Strip(s)
  {
    StripMeetsSpec(s);
    var t := Strip(s);
    var i, j :| 0 <= i <= j <= |s| && r == s[i..j] && SpaceBetween(s, 0, i) && SpaceBetween(s, j, |s|) && Trimmed(r);
    var i', j' :| 0 <= i' <= j' <= |s| && t == s[i'..j'] && SpaceBetween(s, 0, i') && SpaceBetween(s, j', |s|) && Trimmed(t);
    TrimmedSlicesAgree(s, i, j, i', j');
  }

  /** Whitespace around a trimmed core strips away to exactly that core. */
  lemma StripPadded(pre: string, mid: string, post: string)
    requires AllSpace(pre) && AllSpace(post) && Trimmed(mid)
    ensures Strip(pre + mid + post) == mid
  {
    var s := pre + mid + post;
    assert s[|pre|..|pre| + |mid|] == mid;
    assert SpaceBetween(s, 0, |pre|) by { assert forall k :: 0 <= k < |pre| ==> s[k] == pre[k]; }
    assert SpaceBetween(s, |pre| + |mid|, |s|) by {
      assert forall k :: |pre| + |mid| <= k < |s| ==> s[k] == post[k - |pre| - |mid|];
    }
    assert IsStripOf(mid, s);
    StripUnique(s, mid);
  }

  /** A string without surrounding whitespace strips to itself. */
  lemma StripTrimmed(s: string)
    requires Trimmed(s)
    ensures Strip(s) == s
  {
    StripPadded([], s, []);
    assert [] + s + [] == s;
  }

  /** Stripping twice is stripping once. */
  lemma StripIdempotent(s: string)
    ensures Strip(Strip(s)) == Strip(s)
  {
    var t := Strip(s);
    StripMeetsSpec(s);
    assert t == t[0..|t|];
    assert IsStripOf(t, t);
    StripUnique(t, t);
  }

  /** A string strips to nothing exactly when it is all whitespace. */
  lemma StripEmptyIff(s: string)
    ensures Strip(s) == [] <==> AllSpace(s)
  {
    StripMeetsSpec(s);
    var i, j :| 0 <= i <= j <= |s| && Strip(s) == s[i..j] && SpaceBetween(s, 0, i) && SpaceBetween(s, j, |s|) && Trimmed(Strip(s));
    if Strip(s) != [] {
      assert !IsSpace(s[i]);
    }
  }

  // ---------------------------------------------------------- prefix and search

  /** `s.startswith(prefix)`. */
  predicate StartsWith(s: string, prefix: string) {
    |prefix| <= |s| && s[..|prefix|] == prefix
  }

  predicate OccursAt(s: string, pat: string, i: nat) {
    i + |pat| <= |s| && s[i..i + |pat|] == pat
  }

  /** The index of the first occurrence of `pat` in `s` at or after `from`, if any. */
  function FindFrom(s: string, pat: string, from: nat): (r: Option<nat>)
    decreases |s| - from
    ensures r.Some? ==> from <= r.value && OccursAt(s, pat, r.value)
    ensures r.Some? ==> forall k :: from <= k < r.value ==> !OccursAt(s, pat, k)
    ensures r.None? ==> forall k :: from <= k ==> !OccursAt(s, pat, k)
  {
    if from + |pat| > |s| then None
    else if s[from..from + |pat|] == pat then Some(from)
    else FindFrom(s, pat, from + 1)
  }

  /**
   * The first index where `pat` occurs, if any: where the lazy
   * `re.search(r'^(.*?)' + pat, s, re.DOTALL)` ends its group.
   */
  function Find(s: string, pat: string): (r: Option<nat>)
    ensures r.Some? ==> OccursAt(s, pat, r.value) && forall k: nat :: k < r.value ==> !OccursAt(s, pat, k)
    ensures r.None? <==> forall k: nat :: !OccursAt(s, pat, k)
  {
    FindFrom(s, pat, 0)
  }

  /** A pattern whose first character does not occur in `p` is first found right after `p`. */
  lemma FindAfterPrefix(p: string, pat: string, q: string)
    requires pat != [] && pat[0] !in p
    ensures Find(p + pat + q, pat) == Some(|p|)
  {
    var s := p + pat + q;
    assert s[|p|..|p| + |pat|] == pat;
    assert OccursAt(s, pat, |p|);
    forall k: nat | k < |p| ensures !OccursAt(s, pat, k) {
      assert s[k..k + |pat|][0] == s[k] == p[k] != pat[0];
    }
  }

  // ------------------------------------------------------------- split and join

  /** `s.split(sep)` for a one-character separator. */
  function Split(s: string, sep: char): (parts: seq<string>)
    ensures |parts| >= 1
    ensures forall i :: 0 <= i < |parts| ==> sep !in parts[i]
  {
    if s == [] then [[]]
    else
      var rest := Split(s[1..], sep);
      if s[0] == sep then [[]] + rest
      else [[s[0]] + rest[0]] + rest[1..]
  }

  /** `sep.join(parts)`. */
  function Join(sep: string, parts: seq<string>): string {
    if |parts| == 0 then []
    else if |parts| == 1 then parts[0]
    else parts[0] + sep + Join(sep, parts[1..])
  }

  /** Joining the pieces of a split with the separator gives the original text back. */
  lemma {:induction false} JoinSplit(s: string, sep: char)
    ensures Join([sep], Split(s, sep)) == s
  {
    if s != [] {
      var rest := Split(s[1..], sep);
      JoinSplit(s[1..], sep);
      if s[0] == sep {
        assert s == [sep] + s[1..];
      } else if |rest| == 1 {
        assert s == [s[0]] + s[1..];
      } else {
        assert rest == [rest[0]] + rest[1..];
        assert Join([sep], rest) == rest[0] + [sep] + Join([sep], rest[1..]);
        assert s == [s[0]] + s[1..];
      }
    }
  }

  /** Text without the separator is one piece. */
  lemma {:induction false} SplitNoSeparator(s: string, sep: char)
    requires sep !in s
    ensures Split(s, sep) == [s]
  {
    if s != [] {
      SplitNoSeparator(s[1..], sep);
      assert s == [s[0]] + s[1..];
    }
  }

  /** The first piece is the text before the first separator; the rest is the split of what follows it. */
  lemma {:induction false} SplitAtFirst(a: string, sep: char, b: string)
    requires sep !in a
    ensures Split(a + [sep] + b, sep) == [a] + Split(b, sep)
  {
    if a != [] {
      assert (a + [sep] + b)[1..] == a[1..] + [sep] + b;
      SplitAtFirst(a[1..], sep, b);
      assert a == [a[0]] + a[1..];
    }
  }

  /** Python gives at least two pieces exactly when the separator occurs. */
  lemma SplitSeveralIff(s: string, sep: char)
    ensures |Split(s, sep)| >= 2 <==> sep in s
  {
    if sep in s {
      var i :| 0 <= i < |s| && s[i] == sep;
      var a := s[..i];
      while sep in a
        invariant 0 <= i < |s| && s[i] == sep && a == s[..i]
        decreases i
      {
        var k :| 0 <= k < |a| && a[k] == sep;
        i := k;
        a := s[..i];
      }
      assert s == a + [sep] + s[i + 1..];
      SplitAtFirst(a, sep, s[i + 1..]);
    } else {
      SplitNoSeparator(s, sep);
    }
  }

  /** Splitting what `join` built gives the pieces back, provided no piece holds the separator. */
  lemma {:induction false} SplitJoin(parts: seq<string>, sep: char)
    requires |parts| >= 1
    requires forall i :: 0 <= i < |parts| ==> sep !in parts[i]
    ensures Split(Join([sep], parts), sep) == parts
  {
    if |parts| == 1 {
      SplitNoSeparator(parts[0], sep);
    } else {
      SplitJoin(parts[1..], sep);
      SplitAtFirst(parts[0], sep, Join([sep], parts[1..]));
      assert parts == [parts[0]] + parts[1..];
    }
  }

  /** A character found neither in the separator nor in any piece is not in their join. */
  lemma {:induction false} JoinAvoids(sep: string, parts: seq<string>, c: char)
    requires c !in sep
    requires forall i :: 0 <= i < |parts| ==> c !in parts[i]
    ensures c !in Join(sep, parts)
  {
    if |parts| >= 2 {
      JoinAvoids(sep, parts[1..], c);
    }
  }

  /** Joining one more piece adds the separator and the piece at the end. */
  lemma {:induction false} JoinSnoc(sep: string, parts: seq<string>, last: string)
    ensures Join(sep, parts + [last]) == if parts == [] then last else Join(sep, parts) + sep + last
  {
    if |parts| >= 2 {
      JoinSnoc(sep, parts[1..], last);
      assert (parts + [last])[1..] == parts[1..] + [last];
    } else if |parts| == 1 {
      assert (parts + [last])[1..] == [last];
    }
  }

  // ---------------------------------------------------------------------- lower

  /** `c.lower()` for ASCII letters; every other character is left as it is. */
  function AsciiLower(c: char): char {
    if 'A' <= c <= 'Z' then (c as int + 32) as char else c
  }

  function Lower(s: string): (r: string)
    ensures |r| == |s| && forall k :: 0 <= k < |s| ==> r[k] == AsciiLower(s[k])
  {
    seq(|s|, k requires 0 <= k < |s| => AsciiLower(s[k]))
  }

  // ----------------------------------------------------------- whitespace runs

  /** The characters of `s` that are not whitespace, in order. */
  function NonSpace(s: string): string {
    if s == [] then [] else (if IsSpace(s[0]) then [] else [s[0]]) + NonSpace(s[1..])
  }

  lemma {:induction false} NonSpaceAppend(a: string, b: string)
    ensures NonSpace(a + b) == NonSpace(a) + NonSpace(b)
  {
    if a != [] {
      var ab := a + b;
      assert ab[0] == a[0] && ab[1..] == a[1..] + b;
      NonSpaceAppend(a[1..], b);
      calc {
        NonSpace(ab);
        (if IsSpace(a[0]) then [] else [a[0]]) + NonSpace(a[1..] + b);
        (if IsSpace(a[0]) then [] else [a[0]]) + (NonSpace(a[1..]) + NonSpace(b));
      }
    } else {
      assert a + b == b;
    }
  }

  lemma NonSpaceOfSpaces(s: string)
    requires AllSpace(s)
    ensures NonSpace(s) == []
  {
    if s != [] { NonSpaceOfSpaces(s[1..]); }
  }

  /** Dropping a whitespace-only prefix or suffix leaves the non-space text unchanged. */
  lemma DropSpacesKeepsText(s: string, i: nat, j: nat)
    requires i <= j <= |s| && SpaceBetween(s, 0, i) && SpaceBetween(s, j, |s|)
    ensures NonSpace(s[i..j]) == NonSpace(s)
  {
    SliceOfSpaces(s, 0, i);
    SliceOfSpaces(s, j, |s|);
    SplitThree(s, i, j);
    NonSpacePadded(s[0..i], s[i..j], s[j..|s|]);
  }

  lemma SplitThree<T>(s: seq<T>, i: nat, j: nat)
    requires i <= j <= |s|
    ensures s == s[0..i] + s[i..j] + s[j..|s|]
  {
  }

  lemma NonSpacePadded(pre: string, mid: string, post: string)
    requires AllSpace(pre) && AllSpace(post)
    ensures NonSpace(pre + mid + post) == NonSpace(mid)
  {
    NonSpaceAppend(pre + mid, post);
    NonSpaceAppend(pre, mid);
    NonSpaceOfSpaces(pre);
    NonSpaceOfSpaces(post);
  }

  lemma SliceOfSpaces(s: string, lo: nat, hi: nat)
    requires lo <= hi <= |s| && SpaceBetween(s, lo, hi)
    ensures AllSpace(s[lo..hi])
  {
    forall k | 0 <= k < hi - lo
      ensures IsSpace(s[lo..hi][k])
    {
      assert s[lo..hi][k] == s[lo + k];
    }
  }

  /** Stripping removes whitespace only. */
  lemma StripKeepsText(s: string)
    ensures NonSpace(Strip(s)) == NonSpace(s)
  {
    var l := TrimLeft(s);
    DropSpacesKeepsText(s, |s| - |l|, |s|);
    assert s[|s| - |l|..|s|] == l;
    DropSpacesKeepsText(l, 0, |TrimRight(l)|);
    assert l[0..|TrimRight(l)|] == TrimRight(l);
  }

  /** `re.sub(r'\s+', ' ', s)`: every maximal run of whitespace becomes one space. */
  function CollapseSpaces(s: string): (r: string)
    decreases |s|
    ensures r == [] <==> s == []
  {
    if s == [] then []
    else if IsSpace(s[0]) then [' '] + CollapseSpaces(TrimLeft(s[1..]))
    else [s[0]] + CollapseSpaces(s[1..])
  }

  /** Collapsing keeps every non-space character, in order, and no other. */
  lemma {:induction false} CollapseKeepsText(s: string)
    decreases |s|
    ensures NonSpace(CollapseSpaces(s)) == NonSpace(s)
  {
    if s != [] {
      if IsSpace(s[0]) {
        var t := TrimLeft(s[1..]);
        var ws := s[1..][..|s| - 1 - |t|];
        assert s[1..] == ws + t;
        assert AllSpace(ws) by {
          assert forall k :: 0 <= k < |ws| ==> ws[k] == s[1..][k];
        }
        NonSpaceAppend(ws, t);
        NonSpaceOfSpaces(ws);
        CollapseKeepsText(t);
        assert NonSpace(s) == NonSpace(s[1..]);
        var r := CollapseSpaces(s);
        assert r[0] == ' ' && r[1..] == CollapseSpaces(t);
      } else {
        CollapseKeepsText(s[1..]);
        var r := CollapseSpaces(s);
        assert r[0] == s[0] && r[1..] == CollapseSpaces(s[1..]);
      }
    }
  }

  /** The only whitespace in `r` is ' ', and no two whitespace characters are adjacent. */
  predicate SingleSpaced(r: string) {
    && (forall k :: 0 <= k < |r| && IsSpace(r[k]) ==> r[k] == ' ')
    && (forall k :: 0 <= k < |r| - 1 ==> !SpacePairAt(r, k))
  }

  /** Whitespace at `k` and again at `k + 1`. */
  predicate SpacePairAt(r: string, k: int)
    requires 0 <= k < |r| - 1
  {
    IsSpace(r[k]) && IsSpace(r[k + 1])
  }

  /** After collapsing, whitespace is single plain spaces. */
  lemma {:induction false} CollapseSingleSpaces(s: string)
    decreases |s|
    ensures SingleSpaced(CollapseSpaces(s))
  {
    if s != [] {
      if IsSpace(s[0]) {
        var t := TrimLeft(s[1..]);
        CollapseSingleSpaces(t);
        var rest := CollapseSpaces(t);
        if t != [] {
          CollapseEnds(t);
        }
        SingleSpacedCons(' ', rest);
      } else {
        CollapseSingleSpaces(s[1..]);
        SingleSpacedCons(s[0], CollapseSpaces(s[1..]));
      }
    }
  }

  /** A character in front of single-spaced text keeps it single-spaced unless it adds a second space. */
  lemma SingleSpacedCons(c: char, rest: string)
    requires SingleSpaced(rest)
    requires IsSpace(c) ==> c == ' ' && (rest == [] || !IsSpace(rest[0]))
    ensures SingleSpaced([c] + rest)
  {
    var r := [c] + rest;
    forall k | 0 <= k < |r| && IsSpace(r[k])
      ensures r[k] == ' '
    {
      if k > 0 {
        assert r[k] == rest[k - 1];
      }
    }
    forall k | 0 <= k < |r| - 1
      ensures !SpacePairAt(r, k)
    {
      assert r[k + 1] == rest[k];
      if k > 0 {
        assert r[k] == rest[k - 1];
        assert !SpacePairAt(rest, k - 1);
      }
    }
  }

  /** Collapsing starts with whitespace exactly when the input does, and likewise at the end. */
  lemma {:induction false} CollapseEnds(s: string)
    requires s != []
    decreases |s|
    ensures CollapseSpaces(s) != []
    ensures IsSpace(CollapseSpaces(s)[0]) <==> IsSpace(s[0])
    ensures IsSpace(CollapseSpaces(s)[|CollapseSpaces(s)| - 1]) <==> IsSpace(s[|s| - 1])
  {
    var r := CollapseSpaces(s);
    if IsSpace(s[0]) {
      var u := s[1..];
      var t := TrimLeft(u);
      var rest := CollapseSpaces(t);
      assert r == [' '] + rest;
      if t != [] {
        CollapseEnds(t);
        assert t[|t| - 1] == u[|u| - 1] == s[|s| - 1];
        assert r[|r| - 1] == rest[|rest| - 1];
      } else if |s| > 1 {
        assert SpaceBetween(u, 0, |u|);
        assert IsSpace(u[|u| - 1]);
        assert u[|u| - 1] == s[|s| - 1];
      }
    } else {
      var rest := CollapseSpaces(s[1..]);
      assert r == [s[0]] + rest;
      if |s| > 1 {
        CollapseEnds(s[1..]);
        assert r[|r| - 1] == rest[|rest| - 1];
      }
    }
  }

  /** Text whose whitespace is already single plain spaces is left as it is. */
  lemma {:induction false} CollapseSingleSpaced(s: string)
    requires SingleSpaced(s)
    ensures CollapseSpaces(s) == s
  {
    if s != [] {
      SingleSpacedTail(s);
      CollapseSingleSpaced(s[1..]);
      SingleSpacedHead(s);
      CollapseCons(s);
      HeadTail(s);
    }
  }

  lemma HeadTail<T>(s: seq<T>)
    requires s != []
    ensures s == [s[0]] + s[1..]
  {
  }

  /** A leading space of single-spaced text is ' ' and is not followed by another. */
  lemma SingleSpacedHead(s: string)
    requires s != [] && SingleSpaced(s)
    ensures IsSpace(s[0]) ==> s[0] == ' ' && (|s| == 1 || !IsSpace(s[1]))
  {
    if |s| > 1 {
      assert !SpacePairAt(s, 0);
    }
  }

  /** Collapsing a text whose first character does not begin a run of two or more spaces. */
  lemma CollapseCons(s: string)
    requires s != []
    requires IsSpace(s[0]) ==> s[0] == ' ' && (|s| == 1 || !IsSpace(s[1]))
    ensures CollapseSpaces(s) == [s[0]] + CollapseSpaces(s[1..])
  {
    if IsSpace(s[0]) {
      var t := s[1..];
      if t != [] {
        assert t[0] == s[1];
      }
      assert TrimLeft(t) == t;
    }
  }

  lemma SingleSpacedTail(s: string)
    requires s != [] && SingleSpaced(s)
    ensures SingleSpaced(s[1..])
  {
    var t := s[1..];
    forall k | 0 <= k < |t| && IsSpace(t[k])
      ensures t[k] == ' '
    {
      assert t[k] == s[k + 1];
    }
    forall k | 0 <= k < |t| - 1
      ensures !SpacePairAt(t, k)
    {
      assert t[k] == s[k + 1] && t[k + 1] == s[k + 2];
      assert !SpacePairAt(s, k + 1);
    }
  }

  /** Collapsing twice is collapsing once. */
  lemma CollapseIdempotent(s: string)
    ensures CollapseSpaces(CollapseSpaces(s)) == CollapseSpaces(s)
  {
    CollapseSingleSpaces(s);
    CollapseSingleSpaced(CollapseSpaces(s));
  }

  /** Collapsing a stripped string leaves it stripped. */
  lemma CollapseKeepsTrimmed(s: string)
    requires Trimmed(s)
    ensures Trimmed(CollapseSpaces(s))
  {
    if s != [] { CollapseEnds(s); }
  }

  // --------------------------------------------------------------------- words

  /** The longest prefix of `s` that holds no whitespace. */
  function WordPrefix(s: string): (w: string)
    ensures |w| <= |s| && w == s[..|w|]
    ensures forall k :: 0 <= k < |w| ==> !IsSpace(w[k])
    ensures |w| == |s| || IsSpace(s[|w|])
    ensures s != [] && !IsSpace(s[0]) ==> w != []
  {
    if s == [] || IsSpace(s[0]) then [] else [s[0]] + WordPrefix(s[1..])
  }

  /** `s.split()` with no separator: the maximal runs of non-whitespace characters, in order. */
  function Words(s: string): seq<string>
    decreases |s|
  {
    if s == [] then []
    else if IsSpace(s[0]) then Words(s[1..])
    else
      var w := WordPrefix(s);
      [w] + Words(s[|w|..])
  }

  lemma TrimLeftNonSpace(s: string)
    requires s == [] || !IsSpace(s[0])
    ensures TrimLeft(s) == s
  {
  }

  /** Leading whitespace does not change the words. */
  lemma {:induction false} WordsTrimLeft(s: string)
    ensures Words(TrimLeft(s)) == Words(s)
    decreases |s|
  {
    if s != [] && IsSpace(s[0]) {
      WordsTrimLeft(s[1..]);
    }
  }

  /** Whitespace alone holds no word. */
  lemma {:induction false} WordsOfSpaces(s: string)
    requires AllSpace(s)
    ensures Words(s) == []
    decreases |s|
  {
    if s != [] {
      assert IsSpace(s[0]);
      WordsOfSpaces(s[1..]);
    }
  }

  /** A word ends at whitespace, so what follows a whitespace boundary does not change it. */
  lemma {:induction false} WordPrefixAppend(x: string, y: string)
    requires y == [] || IsSpace(y[0])
    ensures WordPrefix(x + y) == WordPrefix(x)
    decreases |x|
  {
    if x == [] {
      assert x + y == y;
    } else {
      assert (x + y)[0] == x[0] && (x + y)[1..] == x[1..] + y;
      if !IsSpace(x[0]) {
        WordPrefixAppend(x[1..], y);
      }
    }
  }

  /** Whitespace after a last non-space character does not change the words. */
  lemma {:induction false} WordsPadded(m: string, r: string)
    requires AllSpace(r)
    requires m == [] || !IsSpace(m[|m| - 1])
    ensures Words(m + r) == Words(m)
    decreases |m|
  {
    if m == [] {
      assert m + r == r;
      WordsOfSpaces(r);
    } else if IsSpace(m[0]) {
      assert (m + r)[0] == m[0] && (m + r)[1..] == m[1..] + r;
      WordsPadded(m[1..], r);
    } else {
      var w := WordPrefix(m);
      WordPrefixAppend(m, r);
      assert (m + r)[0] == m[0];
      assert (m + r)[|w|..] == m[|w|..] + r;
      var rest := m[|w|..];
      assert rest == [] || rest[|rest| - 1] == m[|m| - 1];
      WordsPadded(rest, r);
    }
  }

  /** A word followed by anything collapses to the word followed by the collapse of the rest. */
  lemma {:induction false} CollapseAfterWord(w: string, y: string)
    requires forall k :: 0 <= k < |w| ==> !IsSpace(w[k])
    ensures CollapseSpaces(w + y) == w + CollapseSpaces(y)
    decreases |w|
  {
    if w == [] {
      assert w + y == y;
    } else {
      assert (w + y)[0] == w[0] && (w + y)[1..] == w[1..] + y;
      CollapseAfterWord(w[1..], y);
    }
  }

  /** Whitespace in front of text that starts with a non-space character is all `lstrip` removes. */
  lemma {:induction false} TrimLeftSpaces(w: string, y: string)
    requires AllSpace(w)
    requires y == [] || !IsSpace(y[0])
    ensures TrimLeft(w + y) == y
    decreases |w|
  {
    if w == [] {
      assert w + y == y;
      TrimLeftNonSpace(y);
    } else {
      assert (w + y)[0] == w[0] && (w + y)[1..] == w[1..] + y;
      assert IsSpace(w[0]);
      TrimLeftSpaces(w[1..], y);
    }
  }

  /** A whole run of whitespace, however long and whatever its characters, collapses to one space. */
  lemma CollapseGap(w: string, y: string)
    requires w != [] && AllSpace(w)
    requires y == [] || !IsSpace(y[0])
    ensures CollapseSpaces(w + y) == " " + CollapseSpaces(y)
  {
    assert (w + y)[0] == w[0] && (w + y)[1..] == w[1..] + y;
    assert IsSpace(w[0]);
    TrimLeftSpaces(w[1..], y);
  }

  /** Text without surrounding whitespace collapses to its words joined by single spaces. */
  lemma {:induction false} CollapseJoinsWords(t: string)
    requires Trimmed(t)
    ensures CollapseSpaces(t) == Join(" ", Words(t))
    decreases |t|
  {
    if t != [] {
      var w := WordPrefix(t);
      var rest := t[|w|..];
      WordStep(t);
      if rest == [] {
        assert Words(rest) == [] && CollapseSpaces(rest) == [];
      } else {
        var next := TrimLeft(rest[1..]);
        GapStep(rest);
        GapRemainder(t, |w|);
        CollapseJoinsWords(next);
        JoinCons(" ", w, Words(next));
      }
    }
  }

  /** Text that starts with a word: its first word, then the words and the collapse of what follows. */
  lemma WordStep(t: string)
    requires t != [] && !IsSpace(t[0])
    ensures Words(t) == [WordPrefix(t)] + Words(t[|WordPrefix(t)|..])
    ensures CollapseSpaces(t) == WordPrefix(t) + CollapseSpaces(t[|WordPrefix(t)|..])
  {
    var w := WordPrefix(t);
    assert t == w + t[|w|..];
    CollapseAfterWord(w, t[|w|..]);
  }

  /** Text that starts with whitespace: one space, then the rest without its leading whitespace. */
  lemma GapStep(rest: string)
    requires rest != [] && IsSpace(rest[0])
    ensures CollapseSpaces(rest) == " " + CollapseSpaces(TrimLeft(rest[1..]))
    ensures Words(rest) == Words(TrimLeft(rest[1..]))
  {
    WordsTrimLeft(rest[1..]);
  }

  /** After the first word of trimmed text, the next word starts a shorter trimmed text with words. */
  lemma GapRemainder(t: string, n: nat)
    requires Trimmed(t) && 0 < n < |t| && IsSpace(t[n])
    ensures var next := TrimLeft(t[n..][1..]);
      next != [] && Trimmed(next) && |next| < |t| && Words(next) != []
  {
    var rest := t[n..];
    assert rest[|rest| - 1] == t[|t| - 1];
    var next := TrimLeft(rest[1..]);
    assert |rest[1..]| > 0 && rest[1..][|rest[1..]| - 1] == t[|t| - 1];
    assert next != [] && next[|next| - 1] == t[|t| - 1];
    assert !IsSpace(next[0]);
  }

  lemma JoinCons(sep: string, w: string, ws: seq<string>)
    requires ws != []
    ensures Join(sep, [w] + ws) == w + sep + Join(sep, ws)
  {
    assert ([w] + ws)[1..] == ws;
  }

  /** Surrounding whitespace does not change the words. */
  lemma WordsOfStrip(s: string)
    ensures Words(Strip(s)) == Words(s)
  {
    var l := TrimLeft(s);
    WordsTrimLeft(s);
    WordsBeforeSpaces(l, |TrimRight(l)|);
  }

  /** Cutting whitespace off the end, after a non-space character, does not change the words. */
  lemma WordsBeforeSpaces(l: string, n: nat)
    requires n <= |l| && SpaceBetween(l, n, |l|)
    requires n == 0 || !IsSpace(l[n - 1])
    ensures Words(l[..n]) == Words(l)
  {
    SliceOfSpaces(l, n, |l|);
    SplitAt(l, n);
    WordsPadded(l[..n], l[n..]);
  }

  lemma SplitAt<T>(s: seq<T>, n: nat)
    requires n <= |s|
    ensures s[..n] + s[n..] == s
  {
  }

  /** Stripping and then collapsing whitespace is `" ".join(s.split())`: the words, each run of whitespace between them one space. */
  lemma CollapseStripJoinsWords(s: string)
    ensures CollapseSpaces(Strip(s)) == Join(" ", Words(s))
  {
    var l := TrimLeft(s);
    TrimmedInner(l, TrimRight(l));
    CollapseJoinsWords(Strip(s));
    WordsOfStrip(s);
  }

  // ------------------------------------------------------------------ integers

  predicate IsDigit(c: char) {
    '0' <= c <= '9'
  }

  function DigitChar(d: nat): (c: char)
    requires d < 10
    ensures IsDigit(c)
  {
    (48 + d) as char
  }

  /** The decimal digits of a natural number, without leading zeros. */
  function Digits(n: nat): (s: string)
    ensures |s| >= 1 && forall k :: 0 <= k < |s| ==> IsDigit(s[k])
    ensures s[0] == '0' ==> n == 0
  {
    if n < 10 then [DigitChar(n)] else Digits(n / 10) + [DigitChar(n % 10)]
  }

  /** `str(n)` for a Python `int`: a minus sign for negatives, then the digits. */
  function Decimal(n: int): string {
    if n < 0 then "-" + Digits(-n) else Digits(n)
  }

  /**
   * `str(n)` is digits after an optional minus sign, which is there exactly
   * for negative `n`; the first digit is '0' only in "0".
   */
  lemma DecimalChars(n: int)
    ensures Decimal(n) != [] && IsDigit(Decimal(n)[|Decimal(n)| - 1])
    ensures Decimal(n)[0] == '-' || IsDigit(Decimal(n)[0])
    ensures forall k :: 0 < k < |Decimal(n)| ==> IsDigit(Decimal(n)[k])
    ensures Decimal(n)[0] == '-' <==> n < 0
    ensures Canonical(Decimal(n))
  {
  }

  /** No leading zero: "0" itself, or a first digit other than '0' (after the sign). */
  predicate Canonical(s: string) {
    && (s != [] && s[0] == '0' ==> s == "0")
    && (|s| >= 2 && s[0] == '-' ==> s[1] != '0')
  }

  function DigitsValue(s: string): nat
    requires forall k :: 0 <= k < |s| ==> IsDigit(s[k])
  {
    if s == [] then 0
    else
      assert IsDigit(s[|s| - 1]);
      10 * DigitsValue(s[..|s| - 1]) + (s[|s| - 1] as int - 48)
  }

  /** An optional minus sign followed by one or more digits. */
  predicate WellFormedDecimal(s: string) {
    && s != [] && IsDigit(s[|s| - 1])
    && (s[0] == '-' || IsDigit(s[0]))
    && (forall k :: 0 < k < |s| ==> IsDigit(s[k]))
  }

  /** `int(s)` for the strings `Decimal` produces. */
  function ParseInt(s: string): int
    requires WellFormedDecimal(s)
  {
    if s[0] == '-' then 0 - DigitsValue(s[1..]) as int else DigitsValue(s)
  }

  lemma {:induction false} DigitsRoundTrip(n: nat)
    ensures DigitsValue(Digits(n)) == n
  {
    if n >= 10 {
      var s := Digits(n);
      assert s[..|s| - 1] == Digits(n / 10);
      DigitsRoundTrip(n / 10);
    }
  }

  /** `str(n)` is non-empty, ends in a digit, has digits after an optional sign, and parses back to `n`. */
  lemma DecimalRoundTrip(n: int)
    ensures WellFormedDecimal(Decimal(n)) && ParseInt(Decimal(n)) == n
  {
    var s := Decimal(n);
    if n < 0 {
      assert s[1..] == Digits(-n);
      DigitsRoundTrip(-n);
    } else {
      DigitsRoundTrip(n);
    }
  }

  /** Digits not starting with '0' (or a lone "0") have a value whose own digits are them again. */
  lemma {:induction false} DigitsOfValue(s: string)
    requires s != [] && forall k :: 0 <= k < |s| ==> IsDigit(s[k])
    requires s[0] == '0' ==> |s| == 1
    ensures Digits(DigitsValue(s)) == s
  {
    var p := s[..|s| - 1];
    var d := s[|s| - 1] as int - 48;
    if p == [] {
      assert DigitsValue(s) == d;
      assert Digits(d) == [DigitChar(d)];
    } else {
      assert forall k :: 0 <= k < |p| ==> IsDigit(p[k]) by {
        forall k | 0 <= k < |p| ensures IsDigit(p[k]) { assert p[k] == s[k]; }
      }
      DigitsValuePositive(p);
      DigitsOfValue(p);
      var v := DigitsValue(s);
      assert v == 10 * DigitsValue(p) + d;
      assert v / 10 == DigitsValue(p) && v % 10 == d;
      assert s == p + [DigitChar(d)];
    }
  }

  lemma {:induction false} DigitsValuePositive(s: string)
    requires s != [] && forall k :: 0 <= k < |s| ==> IsDigit(s[k])
    requires s[0] != '0'
    ensures DigitsValue(s) >= 1
  {
    if |s| > 1 {
      var p := s[..|s| - 1];
      assert p[0] == s[0];
      assert forall k :: 0 <= k < |p| ==> IsDigit(p[k]) by {
        forall k | 0 <= k < |p| ensures IsDigit(p[k]) { assert p[k] == s[k]; }
      }
      DigitsValuePositive(p);
    }
  }

  /**
   * The converse of `DecimalRoundTrip`: every well-formed decimal without a
   * leading zero is `str` of its value, so `str(n)` is the one such string.
   */
  lemma DecimalOfParse(s: string)
    requires WellFormedDecimal(s) && Canonical(s)
    ensures Decimal(ParseInt(s)) == s
  {
    if s[0] == '-' {
      var t := s[1..];
      assert forall k :: 0 <= k < |t| ==> IsDigit(t[k]) by {
        forall k | 0 <= k < |t| ensures IsDigit(t[k]) { assert t[k] == s[k + 1]; }
      }
      assert t[0] != '0';
      DigitsValuePositive(t);
      DigitsOfValue(t);
      assert s == "-" + t;
    } else {
      DigitsOfValue(s);
    }
  }

  /** Distinct integers print differently. */
  lemma DecimalInjective(m: int, n: int)
    requires Decimal(m) == Decimal(n)
    ensures m == n
  {
    DecimalRoundTrip(m);
    DecimalRoundTrip(n);
  }
}
