// The `Option` wrapper shared by every module of the model.
module Wrappers {
  datatype Option<T> = None | Some(value: T)

  /** The value when there is one, otherwise the default. */
  function OrElse<T>(o: Option<T>, d: T): T {
    if o.Some? then o.value else d
  }
}

/** The subset of Go's `strings` and `strconv` packages that the scraping engine relies on,
    over Dafny strings (sequences of Unicode code points). */
module Text {
  import opened Wrappers

  /** Go's unicode.IsSpace: ASCII white space plus NEL, NBSP and the Unicode space separators. */
  predicate IsSpace(c: char) {
    c == ' ' || c == '\t' || c == '\n' || c == '\r' || c == '\U{000B}' || c == '\U{000C}'
    || c == '\U{0085}' || c == '\U{00A0}' || c == '\U{1680}'
    || ('\U{2000}' <= c <= '\U{200A}')
    || c == '\U{2028}' || c == '\U{2029}' || c == '\U{202F}' || c == '\U{205F}' || c == '\U{3000}'
  }

  /** A string with no white space at either end. */
  predicate IsTrimmed(s: string) {
    s == [] || (!IsSpace(s[0]) && !IsSpace(s[|s| - 1]))
  }

  /** The end of the run of white space that starts at `i`. */
  function SpaceRunFrom(s: string, i: nat): (n: nat)
    requires i <= |s|
    ensures i <= n <= |s|
    decreases |s| - i
  {
    if i < |s| && IsSpace(s[i]) then SpaceRunFrom(s, i + 1) else i
  }

  /** The run is white space throughout. */
  lemma {:induction false} SpaceRunFromSpaces(s: string, i: nat)
    requires i <= |s|
    ensures var n := SpaceRunFrom(s, i); n == |s| || !IsSpace(s[n])
    ensures forall k :: i <= k < SpaceRunFrom(s, i) ==> IsSpace(s[k])
    decreases |s| - i
  {
    if i < |s| && IsSpace(s[i]) {
      SpaceRunFromSpaces(s, i + 1);
    }
  }

  /** The start of the run of white space that ends at `j`, going back no further than `lo`. */
  function SpaceRunBefore(s: string, lo: nat, j: nat): (n: nat)
    requires lo <= j <= |s|
    ensures lo <= n <= j
    decreases j
  {
    if lo < j && IsSpace(s[j - 1]) then SpaceRunBefore(s, lo, j - 1) else j
  }

  /** The run is white space throughout. */
  lemma {:induction false} SpaceRunBeforeSpaces(s: string, lo: nat, j: nat)
    requires lo <= j <= |s|
    ensures var n := SpaceRunBefore(s, lo, j); n == lo || !IsSpace(s[n - 1])
    ensures forall k :: SpaceRunBefore(s, lo, j) <= k < j ==> IsSpace(s[k])
    decreases j
  {
    if lo < j && IsSpace(s[j - 1]) {
      SpaceRunBeforeSpaces(s, lo, j - 1);
    }
  }

  /** The number of leading white space characters. */
  function LeadingSpaces(s: string): nat {
    SpaceRunFrom(s, 0)
  }

  /** `r` occurs in `s` at `i` with only white space before and after it. */
  predicate SpaceFramed(r: string, s: string, i: int) {
    0 <= i <= |s| - |r| && s[i..i + |r|] == r
    && (forall k :: 0 <= k < i ==> IsSpace(s[k]))
    && (forall k :: i + |r| <= k < |s| ==> IsSpace(s[k]))
  }

  /** strings.TrimSpace: drops the leading and trailing white space and nothing else. */
  function TrimSpace(s: string): (r: string)
    ensures IsTrimmed(r)
  {
    var a := SpaceRunFrom(s, 0);
    var b := SpaceRunBefore(s, a, |s|);
    SpaceRunFromSpaces(s, 0);
    SpaceRunBeforeSpaces(s, a, |s|);
    s[a..b]
  }

  /** What TrimSpace drops is white space before and after the result, nothing else. */
  lemma TrimSpaceFramed(s: string)
    ensures SpaceFramed(TrimSpace(s), s, LeadingSpaces(s))
  {
    var a := SpaceRunFrom(s, 0);
    SpaceRunFromSpaces(s, 0);
    SpaceRunBeforeSpaces(s, a, |s|);
  }

  /** Trimming adds no character. */
  lemma TrimSpaceKeepsAbsent(s: string, c: char)
    requires c !in s
    ensures c !in TrimSpace(s)
  {
    var r := TrimSpace(s);
    var i := LeadingSpaces(s);
    TrimSpaceFramed(s);
    forall k | 0 <= k < |r| ensures r[k] != c {
      assert r[k] == s[i..i + |r|][k] == s[i + k];
    }
  }

  /** Trimming twice is trimming once: colly already trims ChildText, so the engine's own
      TrimSpace calls on it change nothing. */
  lemma TrimSpaceIdempotent(s: string)
    ensures TrimSpace(TrimSpace(s)) == TrimSpace(s)
  {
    TrimSpaceOfTrimmed(TrimSpace(s));
  }

  /** A string that starts and ends with non-space characters is its own TrimSpace. */
  lemma TrimSpaceOfTrimmed(s: string)
    requires IsTrimmed(s)
    ensures TrimSpace(s) == s
  {
    assert SpaceRunFrom(s, 0) == 0;
    assert SpaceRunBefore(s, 0, |s|) == |s|;
    assert s[0..|s|] == s;
  }

  predicate HasPrefix(s: string, p: string) {
    |p| <= |s| && s[..|p|] == p
  }

  predicate HasSuffix(s: string, p: string) {
    |p| <= |s| && s[|s| - |p|..] == p
  }

  /** strings.TrimPrefix: removes one copy of `p` when `s` starts with it. */
  function TrimPrefix(s: string, p: string): (r: string)
    ensures HasPrefix(s, p) ==> |r| == |s| - |p|
    ensures !HasPrefix(s, p) ==> r == s
  {
    if HasPrefix(s, p) then s[|p|..] else s
  }

  /** Putting the prefix back gives the original string. */
  lemma TrimPrefixRestores(s: string, p: string)
    requires HasPrefix(s, p)
    ensures p + TrimPrefix(s, p) == s
  {
    assert s == s[..|p|] + s[|p|..];
  }

  /** Removing a prefix that does not overlap a suffix keeps the suffix. */
  lemma TrimPrefixKeepsSuffix(s: string, p: string, w: string)
    requires HasSuffix(s, w) && |p| + |w| <= |s|
    ensures HasSuffix(TrimPrefix(s, p), w)
  {
    if HasPrefix(s, p) {
      var r := s[|p|..];
      assert r[|r| - |w|..] == s[|s| - |w|..];
    }
  }

  lemma TrimPrefixConcat(p: string, x: string)
    ensures TrimPrefix(p + x, p) == x
  {
    assert (p + x)[..|p|] == p;
  }

  /** A string whose first character differs from the prefix's keeps it. */
  lemma TrimPrefixMismatch(s: string, p: string)
    requires s != [] && p != [] && s[0] != p[0]
    ensures TrimPrefix(s, p) == s
  {
    if |p| <= |s| {
      assert s[..|p|][0] != p[0];
    }
  }

  /** A string that differs from the prefix at some shared position does not start with it. */
  lemma TrimPrefixDiffer(s: string, p: string, k: nat)
    requires k < |p| && k < |s| && s[k] != p[k]
    ensures !HasPrefix(s, p) && TrimPrefix(s, p) == s
  {
    if |p| <= |s| {
      assert s[..|p|][k] == s[k];
    }
  }

  /** A common prefix does not change whether one string starts with another. */
  lemma HasPrefixConcat(p: string, a: string, b: string)
    ensures HasPrefix(p + a, p + b) <==> HasPrefix(a, b)
  {
    if HasPrefix(a, b) {
      assert (p + a)[..|p + b|] == p + a[..|b|];
    }
    if HasPrefix(p + a, p + b) {
      assert (p + a)[..|p + b|][|p|..] == a[..|b|];
      assert (p + b)[|p|..] == b;
    }
  }

  /** What follows a prefix `a + b` starts with `b`. */
  lemma HasPrefixRest(s: string, a: string, b: string)
    requires HasPrefix(s, a + b)
    ensures HasPrefix(s[|a|..], b)
  {
    assert s[|a|..][..|b|] == s[..|a + b|][|a|..];
  }

  /** strings.TrimSuffix: removes one copy of `p` when `s` ends with it. */
  function TrimSuffix(s: string, p: string): (r: string)
    ensures HasSuffix(s, p) ==> |r| == |s| - |p|
    ensures !HasSuffix(s, p) ==> r == s
  {
    if HasSuffix(s, p) then s[..|s| - |p|] else s
  }

  /** Putting the suffix back gives the original string. */
  lemma TrimSuffixRestores(s: string, p: string)
    requires HasSuffix(s, p)
    ensures TrimSuffix(s, p) + p == s
  {
    assert s == s[..|s| - |p|] + s[|s| - |p|..];
  }

  /** The front of a sequence with one more element is the sequence. */
  lemma SnocFront<T>(s: seq<T>, x: T)
    ensures (s + [x])[..|s|] == s
  {
  }

  /** An element of a sequence with one more element at the end. */
  lemma SnocAt<T>(s: seq<T>, x: T, j: int)
    requires 0 <= j <= |s|
    ensures (s + [x])[j] == if j < |s| then s[j] else x
  {
  }

  /** The prefix of a prefix one element longer. */
  lemma PrefixOfLonger<T>(s: seq<T>, i: int)
    requires 0 <= i < |s|
    ensures s[..i + 1][..i] == s[..i] && s[..i + 1][i] == s[i]
  {
  }

  /** Taking every element gives the sequence back. */
  lemma WholeSlice<T>(s: seq<T>)
    ensures s[..|s|] == s
  {
  }

  /** A prefix of a prefix, and an element read through a prefix. */
  lemma PrefixOfPrefix<T>(s: seq<T>, i: int, j: int)
    requires 0 <= i <= j <= |s|
    ensures s[..j][..i] == s[..i]
    ensures forall k :: 0 <= k < j ==> s[..j][k] == s[k]
  {
  }

  /** Equal fronts and equal last elements make equal sequences. */
  lemma SnocCongruence<T>(a: seq<T>, b: seq<T>, u: T, v: T)
    requires a == b && u == v
    ensures a + [u] == b + [v]
  {
  }

  /** Concatenation is associative. */
  lemma ConcatAssoc<T>(a: seq<T>, b: seq<T>, c: seq<T>)
    ensures a + b + c == a + (b + c)
  {
  }

  /** A non-empty sequence is its front followed by its last element. */
  lemma FrontLast<T>(s: seq<T>)
    requires s != []
    ensures s[..|s| - 1] + [s[|s| - 1]] == s
  {
  }

  /** The prefix of `s` one element longer. */
  lemma PrefixSnoc<T>(s: seq<T>, i: int)
    requires 0 <= i < |s|
    ensures s[..i + 1] == s[..i] + [s[i]]
  {
  }

  /** A word found at `k` starts every slice from `k` that covers it. */
  lemma OccursAtSlicePrefix(s: string, w: string, k: int, e: int)
    requires OccursAt(s, w, k) && k + |w| <= e <= |s|
    ensures HasPrefix(s[k..e], w)
  {
    assert s[k..e][..|w|] == s[k..k + |w|];
  }

  /** A slice of positions that all differ from `c` does not contain `c`. */
  lemma CharNotInSlice(s: string, k: int, e: int, c: char)
    requires 0 <= k <= e <= |s| && forall j :: k <= j < e ==> s[j] != c
    ensures c !in s[k..e]
  {
    forall i | 0 <= i < e - k ensures s[k..e][i] != c {
      assert s[k..e][i] == s[k + i];
    }
  }

  /** A suffix stays a suffix when the same text is appended to both. */
  lemma HasSuffixAppend(s: string, p: string, x: string)
    requires HasSuffix(s, p)
    ensures HasSuffix(s + x, p + x)
  {
    assert (s + x)[|s + x| - |p + x|..] == s[|s| - |p|..] + x;
  }

  lemma HasSuffixConcat(x: string, p: string)
    ensures HasSuffix(x + p, p)
  {
    assert (x + p)[|x|..] == p;
  }

  lemma TrimSuffixConcat(x: string, p: string)
    ensures TrimSuffix(x + p, p) == x
  {
    assert (x + p)[|x|..] == p;
  }

  predicate OccursAt(s: string, w: string, i: int) {
    0 <= i && i + |w| <= |s| && s[i..i + |w|] == w
  }

  /** The first occurrence of `w` in `s` at or after position `from`. */
  function IndexFrom(s: string, w: string, from: nat): (r: Option<nat>)
    requires from <= |s|
    ensures r.Some? ==> from <= r.value && OccursAt(s, w, r.value)
    ensures r.Some? ==> forall j :: from <= j < r.value ==> !OccursAt(s, w, j)
    ensures r.None? ==> forall j :: from <= j <= |s| ==> !OccursAt(s, w, j)
    decreases |s| - from
  {
    if OccursAt(s, w, from) then Some(from)
    else if from == |s| then None
    else IndexFrom(s, w, from + 1)
  }

  /** strings.Index: the first occurrence of `w` in `s`. */
  function IndexOf(s: string, w: string): (r: Option<nat>)
    ensures r.Some? ==> OccursAt(s, w, r.value) && forall j :: 0 <= j < r.value ==> !OccursAt(s, w, j)
    ensures r.None? ==> forall j :: 0 <= j <= |s| ==> !OccursAt(s, w, j)
  {
    IndexFrom(s, w, 0)
  }

  /** A one-character pattern is found only where that character is. */
  lemma AbsentCharNotFound(s: string, c: char)
    requires c !in s
    ensures IndexOf(s, [c]).None?
  {
    forall j | 0 <= j <= |s| ensures !OccursAt(s, [c], j) {
      if j + 1 <= |s| {
        assert s[j..j + 1][0] == s[j];
      }
    }
  }

  /** strings.Contains. */
  predicate Contains(s: string, w: string) {
    IndexOf(s, w).Some?
  }

  lemma ContainsWitness(s: string, w: string, i: int)
    requires OccursAt(s, w, i)
    ensures Contains(s, w)
  {
  }

  /** strings.Split for a non-empty separator: the pieces between the occurrences of `sep`. */
  function Split(s: string, sep: string): (r: seq<string>)
    requires sep != []
    ensures |r| >= 1
    ensures IndexOf(s, sep).None? ==> r == [s]
    ensures IndexOf(s, sep).Some? ==> r[0] == s[..IndexOf(s, sep).value]
    decreases |s|
  {
    match IndexOf(s, sep)
    case None => [s]
    case Some(i) => [s[..i]] + Split(s[i + |sep|..], sep)
  }

  /** strings.Join. */
  function JoinWith(parts: seq<string>, sep: string): string {
    if parts == [] then ""
    else if |parts| == 1 then parts[0]
    else parts[0] + sep + JoinWith(parts[1..], sep)
  }

  /** Joining the pieces of a split with the same separator gives back the split string. */
  lemma {:induction false} JoinSplit(s: string, sep: string)
    requires sep != []
    ensures JoinWith(Split(s, sep), sep) == s
    decreases |s|
  {
    match IndexOf(s, sep)
    case None =>
    case Some(i) =>
      var rest := s[i + |sep|..];
      var tail := Split(rest, sep);
      JoinSplit(rest, sep);
      var parts := [s[..i]] + tail;
      assert Split(s, sep) == parts;
      assert parts[0] == s[..i] && parts[1..] == tail;
      assert JoinWith(parts, sep) == s[..i] + sep + rest;
      assert s[i..i + |sep|] == sep;
      SliceThree(s, i, i + |sep|);
  }

  /** Cutting a string at two positions and joining the three pieces gives it back. */
  lemma SliceThree(s: string, i: int, j: int)
    requires 0 <= i <= j <= |s|
    ensures s[..i] + s[i..j] + s[j..] == s
  {
    assert s[..i] + s[i..j] == s[..j];
  }

  /** The text before the first occurrence of `w` does not contain `w`. */
  lemma PrefixBeforeFirstFree(s: string, w: string, i: nat)
    requires w != [] && IndexOf(s, w) == Some(i)
    ensures !Contains(s[..i], w)
  {
    forall j | 0 <= j <= i ensures !OccursAt(s[..i], w, j) {
      if OccursAt(s[..i], w, j) {
        assert s[..i][j..j + |w|] == s[j..j + |w|];
        assert OccursAt(s, w, j);
      }
    }
  }

  /** No piece of a split contains the separator. */
  lemma {:induction false} SplitPiecesFree(s: string, sep: string)
    requires sep != []
    ensures forall k :: 0 <= k < |Split(s, sep)| ==> !Contains(Split(s, sep)[k], sep)
    decreases |s|
  {
    match IndexOf(s, sep)
    case None =>
    case Some(i) =>
      var rest := s[i + |sep|..];
      var tail := Split(rest, sep);
      SplitPiecesFree(rest, sep);
      PrefixBeforeFirstFree(s, sep, i);
      var r := Split(s, sep);
      assert r == [s[..i]] + tail;
      forall k | 0 <= k < |r| ensures !Contains(r[k], sep) {
        if k > 0 {
          assert r[k] == tail[k - 1];
        }
      }
  }

  /** Splitting on a single character that the first piece lacks peels that piece off. */
  lemma SplitOnChar(a: string, c: char, b: string)
    requires c !in a
    ensures Split(a + [c] + b, [c]) == [a] + Split(b, [c])
  {
    var s := a + [c] + b;
    assert OccursAt(s, [c], |a|) by { assert s[|a|..|a| + 1] == [c]; }
    forall k | 0 <= k < |a| ensures !OccursAt(s, [c], k) {
      assert s[k..k + 1][0] == s[k] == a[k];
    }
    assert IndexOf(s, [c]) == Some(|a|);
    assert s[..|a|] == a && s[|a| + 1..] == b;
  }

  lemma SplitNoChar(a: string, c: char)
    requires c !in a
    ensures Split(a, [c]) == [a]
  {
    AbsentCharNotFound(a, c);
  }

  /** strings.Replace(s, pat, rep, 1) for a non-empty `pat`. */
  function ReplaceFirst(s: string, pat: string, rep: string): (r: string)
    requires pat != []
    ensures IndexOf(s, pat).None? ==> r == s
    ensures IndexOf(s, pat).Some? ==>
      var i := IndexOf(s, pat).value; r == s[..i] + rep + s[i + |pat|..]
  {
    match IndexOf(s, pat)
    case None => s
    case Some(i) => s[..i] + rep + s[i + |pat|..]
  }

  /** The replacement happens at the first occurrence and leaves the text around it. */
  lemma ReplaceFirstAt(a: string, w: string, b: string, rep: string)
    requires w != []
    requires forall k :: 0 <= k < |a| ==> !OccursAt(a + w + b, w, k)
    ensures ReplaceFirst(a + w + b, w, rep) == a + rep + b
  {
    var s := a + w + b;
    assert OccursAt(s, w, |a|) by { assert s[|a|..|a| + |w|] == w; }
    var i := IndexOf(s, w).value;
    assert i == |a|;
    assert s[..i] == a && s[i + |w|..] == b;
  }

  /** strings.ReplaceAll(s, string(c), w) for a one-character pattern. */
  function ReplaceChar(s: string, c: char, w: string): (r: string)
    ensures c !in w ==> c !in r
    ensures c !in s ==> r == s
  {
    if s == [] then ""
    else (if s[0] == c then w else [s[0]]) + ReplaceChar(s[1..], c, w)
  }

  /** Replacing a character distributes over concatenation. */
  lemma {:induction false} ReplaceCharConcat(a: string, b: string, c: char, w: string)
    ensures ReplaceChar(a + b, c, w) == ReplaceChar(a, c, w) + ReplaceChar(b, c, w)
  {
    if a == [] {
      assert a + b == b;
    } else {
      assert (a + b)[0] == a[0] && (a + b)[1..] == a[1..] + b;
      ReplaceCharConcat(a[1..], b, c, w);
    }
  }

  /** unicode.ToLower on every character whose lower case is ASCII: the letters A to Z, the
      capital I with dot above and the Kelvin sign. Every other character is kept; its Go lower
      case is never ASCII, so no comparison with an ASCII string can tell the two apart. */
  function LowerChar(c: char): char {
    if 'A' <= c <= 'Z' then (c as int + 32) as char
    else if c == '\U{130}' then 'i'
    else if c == '\U{212A}' then 'k'
    else c
  }

  function ToLower(s: string): (r: string)
    ensures |r| == |s|
    ensures forall i :: 0 <= i < |s| ==> r[i] == LowerChar(s[i])
  {
    if s == [] then "" else [LowerChar(s[0])] + ToLower(s[1..])
  }

  /** Case folding works piece by piece. */
  lemma ToLowerConcat(a: string, b: string)
    ensures ToLower(a + b) == ToLower(a) + ToLower(b)
  {
    var r, t := ToLower(a + b), ToLower(a) + ToLower(b);
    forall i | 0 <= i < |r| ensures r[i] == t[i] {
      if i < |a| {
        assert (a + b)[i] == a[i];
      } else {
        assert (a + b)[i] == b[i - |a|];
      }
    }
  }

  /** Go's byte-wise string order, which on valid UTF-8 is the code point order used here. */
  predicate LexLess(a: string, b: string)
    decreases |a|
  {
    if a == [] then b != []
    else if b == [] then false
    else if a[0] != b[0] then a[0] < b[0]
    else LexLess(a[1..], b[1..])
  }

  /** Strings that differ in their first character are ordered by it. */
  lemma LexLessByFirst(a: string, b: string)
    requires a != [] && b != [] && a[0] < b[0]
    ensures LexLess(a, b)
  {
  }

  predicate LexLessEq(a: string, b: string) {
    a == b || LexLess(a, b)
  }

  lemma {:induction false} LexLessIrreflexive(a: string)
    ensures !LexLess(a, a)
    decreases |a|
  {
    if a != [] { LexLessIrreflexive(a[1..]); }
  }

  lemma {:induction false} LexLessTransitive(a: string, b: string, c: string)
    requires LexLess(a, b) && LexLess(b, c)
    ensures LexLess(a, c)
    decreases |a|
  {
    if a != [] && b != [] && c != [] && a[0] == b[0] && b[0] == c[0] {
      LexLessTransitive(a[1..], b[1..], c[1..]);
    }
  }

  lemma {:induction false} LexLessTotal(a: string, b: string)
    ensures a == b || LexLess(a, b) || LexLess(b, a)
    decreases |a|
  {
    if a != [] && b != [] && a[0] == b[0] {
      LexLessTotal(a[1..], b[1..]);
      if a[1..] == b[1..] {
        assert a == [a[0]] + a[1..] && b == [b[0]] + b[1..];
      }
    }
  }

  /** Number of bytes in the UTF-8 encoding of `c` (Go's len counts bytes). */
  function Utf8Width(c: char): nat {
    if c as int < 0x80 then 1
    else if c as int < 0x800 then 2
    else if c as int < 0x10000 then 3
    else 4
  }

  /** Go's `len(s)`: the UTF-8 byte length. */
  function Utf8Len(s: string): (n: nat)
    ensures n >= |s|
  {
    if s == [] then 0 else Utf8Width(s[0]) + Utf8Len(s[1..])
  }

  // ---------------------------------------------------------------- decimal numbers

  predicate IsDigit(c: char) {
    '0' <= c <= '9'
  }

  predicate AllDigits(s: string) {
    forall i :: 0 <= i < |s| ==> IsDigit(s[i])
  }

  function DigitChar(d: nat): (c: char)
    requires d < 10
    ensures IsDigit(c) && c as int - '0' as int == d
  {
    ('0' as int + d) as char
  }

  /** The decimal digits of `n`, most significant first, without leading zeros. */
  function NatToString(n: nat): (r: string)
    ensures r != [] && AllDigits(r)
    ensures r[0] == '0' ==> n == 0 && |r| == 1
  {
    if n < 10 then [DigitChar(n)] else NatToString(n / 10) + [DigitChar(n % 10)]
  }

  /** The value of a string of decimal digits. */
  function DigitsValue(s: string): nat
    requires AllDigits(s)
  {
    if s == [] then 0 else 10 * DigitsValue(s[..|s| - 1]) + (s[|s| - 1] as int - '0' as int)
  }

  lemma {:induction false} DigitsOfNat(n: nat)
    ensures DigitsValue(NatToString(n)) == n
  {
    if n >= 10 {
      DigitsOfNat(n / 10);
      var s := NatToString(n);
      assert s[..|s| - 1] == NatToString(n / 10);
    }
  }

  /** strconv.Itoa. */
  function Itoa(i: int): (r: string)
    ensures r != []
  {
    if i < 0 then "-" + NatToString(-i) else NatToString(i)
  }

  /** A decimal form holds digits and at most a leading minus sign. */
  lemma ItoaChars(i: int)
    ensures forall k :: 0 <= k < |Itoa(i)| ==> IsDigit(Itoa(i)[k]) || (k == 0 && Itoa(i)[k] == '-')
  {
    var d := Itoa(i);
    if i < 0 {
      assert AllDigits(d[1..]);
      forall k | 0 < k < |d| ensures IsDigit(d[k]) {
        assert d[k] == d[1..][k - 1];
      }
    }
  }

  /** Distinct integers have distinct decimal forms (so stringified ordinals are unique keys). */
  lemma ItoaInjective(a: int, b: int)
    requires Itoa(a) == Itoa(b)
    ensures a == b
  {
    if a >= 0 && b >= 0 {
      DigitsOfNat(a);
      DigitsOfNat(b);
    } else if a < 0 && b < 0 {
      assert NatToString(-a) == Itoa(a)[1..] == Itoa(b)[1..] == NatToString(-b);
      DigitsOfNat(-a);
      DigitsOfNat(-b);
    }
  }

  const MaxInt64: int := 0x7fff_ffff_ffff_ffff
  const MinInt64: int := -0x8000_0000_0000_0000

  /** strconv.Atoi's two results: the value and whether the error is nil. */
  datatype AtoiResult = AtoiResult(value: int, ok: bool)

  /** strconv.Atoi on a 64-bit platform: an optional sign and decimal digits; a syntax error
      gives 0, an out-of-range value gives the nearest bound, both with a non-nil error. */
  function Atoi(s: string): (r: AtoiResult)
    ensures r.ok ==> MinInt64 <= r.value <= MaxInt64
    ensures !r.ok ==> r.value in {0, MaxInt64, MinInt64}
  {
    if s == [] then AtoiResult(0, false)
    else
      var signed := s[0] == '+' || s[0] == '-';
      var digits := if signed then s[1..] else s;
      if digits == [] || !AllDigits(digits) then AtoiResult(0, false)
      else
        var n: int := DigitsValue(digits);
        var v: int := if s[0] == '-' then -n else n;
        if v > MaxInt64 then AtoiResult(MaxInt64, false)
        else if v < MinInt64 then AtoiResult(MinInt64, false)
        else AtoiResult(v, true)
  }

  /** Atoi inverts Itoa on the 64-bit range. */
  lemma AtoiItoa(i: int)
    requires MinInt64 <= i <= MaxInt64
    ensures Atoi(Itoa(i)) == AtoiResult(i, true)
  {
    var s := Itoa(i);
    if i < 0 {
      var d := NatToString(-i);
      DigitsOfNat(-i);
      assert s[0] == '-' && s[1..] == d;
      assert DigitsValue(s[1..]) == -i;
    } else {
      DigitsOfNat(i);
      assert IsDigit(s[0]);
    }
  }
}
