/** The specific regular expressions of the adapters, written as string functions with Go's
    RE2 semantics: the leftmost match wins, `*`/`+` are greedy, `.` does not match a newline
    unless the (?s) flag is set, `\d` is [0-9] and `\s` is [\t\n\f\r ]. */
module Patterns {
  import opened Wrappers
  import opened Text

  /** RE2's `\s`. */
  predicate IsReSpace(c: char) {
    c == '\t' || c == '\n' || c == '\U{000C}' || c == '\r' || c == ' '
  }

  /** The first newline at or after `i`, or the end of `s`. */
  function LineEnd(s: string, i: nat): (k: nat)
    requires i <= |s|
    ensures i <= k <= |s|
    ensures k < |s| ==> s[k] == '\n'
    ensures forall j :: i <= j < k ==> s[j] != '\n'
    decreases |s| - i
  {
    if i == |s| || s[i] == '\n' then i else LineEnd(s, i + 1)
  }

  /** The last position `j` in [lo, hi - |w|] where `w` occurs. */
  function LastOccurrenceIn(s: string, w: string, lo: nat, hi: nat): (r: Option<nat>)
    requires lo <= hi <= |s|
    ensures r.Some? ==> lo <= r.value && r.value + |w| <= hi && OccursAt(s, w, r.value)
    ensures r.Some? ==> forall j :: r.value < j && j + |w| <= hi ==> !OccursAt(s, w, j)
    ensures r.None? ==> forall j :: lo <= j && j + |w| <= hi ==> !OccursAt(s, w, j)
    decreases hi
  {
    if hi < lo + |w| then None
    else if OccursAt(s, w, hi - |w|) then Some(hi - |w|)
    else if hi == lo then None
    else LastOccurrenceIn(s, w, lo, hi - 1)
  }

  /** How far the `.` of a pattern can reach from position `i`. */
  function Reach(s: string, i: nat, dotAll: bool): (k: nat)
    requires i <= |s|
    ensures i <= k <= |s|
  {
    if dotAll then |s| else LineEnd(s, i)
  }

  /** `open(.{minGap,})close` matches starting at `i` with the close literal at `j`. */
  predicate MatchesAt(s: string, open: string, close: string, minGap: nat, dotAll: bool, i: int, j: int) {
    OccursAt(s, open, i) && i + |open| + minGap <= j && OccursAt(s, close, j)
    && j + |close| <= Reach(s, i + |open|, dotAll)
  }

  /** The greedy match of `open(.*)close` (or `.+` when minGap is 1) that starts at `i`:
      the close literal farthest to the right within reach. */
  function MatchFrom(s: string, open: string, close: string, minGap: nat, dotAll: bool, i: nat): (r: Option<nat>)
    requires i <= |s|
    ensures r.Some? ==> MatchesAt(s, open, close, minGap, dotAll, i, r.value)
    ensures r.Some? ==> forall j :: r.value < j ==> !MatchesAt(s, open, close, minGap, dotAll, i, j)
    ensures r.None? ==> forall j :: !MatchesAt(s, open, close, minGap, dotAll, i, j)
  {
    if !OccursAt(s, open, i) then None
    else
      var lo := i + |open| + minGap;
      var hi := Reach(s, i + |open|, dotAll);
      if lo > hi then None else LastOccurrenceIn(s, close, lo, hi)
  }

  /** The leftmost greedy match of `open(.*)close` at or after `from`: its start and the
      position of its close literal. */
  function FindFrom(s: string, open: string, close: string, minGap: nat, dotAll: bool, from: nat): (r: Option<(nat, nat)>)
    requires from <= |s|
    ensures r.Some? ==> from <= r.value.0 && MatchesAt(s, open, close, minGap, dotAll, r.value.0, r.value.1)
    decreases |s| - from
  {
    match MatchFrom(s, open, close, minGap, dotAll, from)
    case Some(j) => Some((from, j))
    case None => if from == |s| then None else FindFrom(s, open, close, minGap, dotAll, from + 1)
  }

  /** The match FindFrom returns is the leftmost one and, from its start, the greediest; when
      it returns none, no match starts at or after `from`. */
  lemma {:induction false} FindFromLeftmost(s: string, open: string, close: string, minGap: nat, dotAll: bool, from: nat)
    requires from <= |s|
    ensures var r := FindFrom(s, open, close, minGap, dotAll, from);
      (r.Some? ==> forall j :: r.value.1 < j ==> !MatchesAt(s, open, close, minGap, dotAll, r.value.0, j))
      && (r.Some? ==> forall i, j :: from <= i < r.value.0 ==> !MatchesAt(s, open, close, minGap, dotAll, i, j))
      && (r.None? ==> forall i, j :: from <= i <= |s| ==> !MatchesAt(s, open, close, minGap, dotAll, i, j))
    decreases |s| - from
  {
    var m := MatchFrom(s, open, close, minGap, dotAll, from);
    if m.None? {
      if from < |s| {
        FindFromLeftmost(s, open, close, minGap, dotAll, from + 1);
        var r := FindFrom(s, open, close, minGap, dotAll, from + 1);
        assert FindFrom(s, open, close, minGap, dotAll, from) == r;
        forall i, j | from <= i < (if r.Some? then r.value.0 else |s| + 1)
          ensures !MatchesAt(s, open, close, minGap, dotAll, i, j)
        {
          if i == from {
            assert forall j :: !MatchesAt(s, open, close, minGap, dotAll, from, j);
          }
        }
      }
    }
  }

  /** The first group of `open(.*)close`: the text between the leftmost open and the
      farthest close reachable from it. */
  function Capture(s: string, open: string, close: string, minGap: nat, dotAll: bool): (r: Option<string>)
    ensures r.Some? ==> |r.value| >= minGap
    ensures r.Some? ==> exists i, j :: MatchesAt(s, open, close, minGap, dotAll, i, j) && r.value == s[i + |open|..j]
    ensures r.None? ==> forall i, j :: 0 <= i <= |s| ==> !MatchesAt(s, open, close, minGap, dotAll, i, j)
  {
    FindFromLeftmost(s, open, close, minGap, dotAll, 0);
    match FindFrom(s, open, close, minGap, dotAll, 0)
    case None => None
    case Some((i, j)) => Some(s[i + |open|..j])
  }

  /** A match that starts before every other occurrence of `open` and whose close literal
      ends the reachable text is the one FindFrom returns. */
  lemma FindExact(s: string, open: string, close: string, minGap: nat, dotAll: bool, i: nat, j: nat)
    requires MatchesAt(s, open, close, minGap, dotAll, i, j)
    requires forall k :: 0 <= k < i ==> !OccursAt(s, open, k)
    requires j + |close| == Reach(s, i + |open|, dotAll)
    ensures FindFrom(s, open, close, minGap, dotAll, 0) == Some((i, j))
  {
    var r := FindFrom(s, open, close, minGap, dotAll, 0);
    FindFromLeftmost(s, open, close, minGap, dotAll, 0);
    assert r.Some?;
    assert r.value.0 == i;
  }

  /** `\((.*)\)`: the text between the first "(" and the last ")" on its line. */
  function Parenthesised(s: string): (r: Option<string>)
    ensures r.Some? ==> '\n' !in r.value
  {
    match FindFrom(s, "(", ")", 0, false, 0)
    case None => None
    case Some((i, j)) =>
      assert forall k :: i + 1 <= k < j ==> s[k] != '\n';
      Some(s[i + 1..j])
  }

  /** The year rule of the `\((.*)\)` adapters: the text between the first "(" and the last
      ")" of the title's line, when it is a decimal integer; 0 otherwise and for an empty
      title. */
  function YearOf(title: string): (y: int)
    ensures MinInt64 <= y <= MaxInt64
    ensures y != 0 ==> Parenthesised(title).Some? && Atoi(Parenthesised(title).value) == AtoiResult(y, true)
    ensures Parenthesised(title).Some? && Atoi(Parenthesised(title).value).ok ==>
      y == Atoi(Parenthesised(title).value).value
  {
    if title == [] then 0
    else match Parenthesised(title)
      case None => 0
      case Some(g) => if Atoi(g).ok then Atoi(g).value else 0
  }

  /** A title ending in "(year)", with no other "(" and on one line, yields that year. */
  lemma YearFromTitle(a: string, y: int)
    requires '(' !in a && '\n' !in a
    requires MinInt64 <= y <= MaxInt64
    ensures YearOf(a + "(" + Itoa(y) + ")") == y
  {
    var d := Itoa(y);
    var s := a + "(" + d + ")";
    ItoaChars(y);
    var i := |a|;
    var j := |s| - 1;
    assert s[i] == '(' && s[j] == ')';
    assert s[i..i + 1] == "(" && s[j..j + 1] == ")";
    forall k | i + 1 <= k < |s| ensures s[k] != '\n' {
      if k < j { assert s[k] == d[k - i - 1]; }
    }
    LineEndAt(s, i + 1, |s|);
    forall k | 0 <= k < i ensures !OccursAt(s, "(", k) {
      assert s[k..k + 1][0] == s[k] == a[k];
    }
    FindExact(s, "(", ")", 0, false, i, j);
    assert s[i + 1..j] == d;
    AtoiItoa(y);
  }

  /** A title without "(" has no year. */
  lemma NoYearWithoutParenthesis(title: string)
    requires '(' !in title
    ensures YearOf(title) == 0
  {
    forall i | 0 <= i < |title| ensures !OccursAt(title, "(", i) {
      assert title[i..i + 1][0] == title[i];
    }
  }

  /** `label(.+)` and `(label.+)`: the leftmost `label` followed by at least one character on
      its line; the result is where the label starts and where its line ends. */
  function LabelToLineEnd(s: string, lbl: string, from: nat): (r: Option<(nat, nat)>)
    requires from <= |s|
    ensures r.Some? ==> var (i, e) := r.value;
      from <= i && OccursAt(s, lbl, i) && i + |lbl| < e && e == LineEnd(s, i + |lbl|)
    ensures r.Some? ==> forall i :: from <= i < r.value.0 && OccursAt(s, lbl, i) ==> LineEnd(s, i + |lbl|) == i + |lbl|
    ensures r.None? ==> forall i :: from <= i && OccursAt(s, lbl, i) ==> LineEnd(s, i + |lbl|) == i + |lbl|
    decreases |s| - from
  {
    if OccursAt(s, lbl, from) && LineEnd(s, from + |lbl|) > from + |lbl| then
      Some((from, LineEnd(s, from + |lbl|)))
    else if from == |s| then None
    else LabelToLineEnd(s, lbl, from + 1)
  }

  /** `label(.+)`: the rest of the line after the leftmost `label` that has a rest. */
  function AfterLabel(s: string, lbl: string): (r: Option<string>)
    ensures r.Some? ==> r.value != [] && '\n' !in r.value
  {
    match LabelToLineEnd(s, lbl, 0)
    case None => None
    case Some((i, e)) =>
      assert forall k :: i + |lbl| <= k < e ==> s[k] != '\n';
      Some(s[i + |lbl|..e])
  }

  /** The end of the run of RE2 white space starting at `i`. */
  function SkipReSpace(s: string, i: nat): (k: nat)
    requires i <= |s|
    ensures i <= k <= |s| && (k < |s| ==> !IsReSpace(s[k]))
    ensures forall j :: i <= j < k ==> IsReSpace(s[j])
    decreases |s| - i
  {
    if i < |s| && IsReSpace(s[i]) then SkipReSpace(s, i + 1) else i
  }

  /** `label\s+(.*)`: after the leftmost `label` that is followed by white space, the white
      space run (newlines included) is skipped and the rest of that line is captured. */
  function AfterLabelAndSpace(s: string, lbl: string, from: nat): (r: Option<string>)
    requires from <= |s|
    ensures r.Some? ==> '\n' !in r.value && (r.value == [] || !IsReSpace(r.value[0]))
    ensures r.None? ==> forall i :: from <= i && OccursAt(s, lbl, i) ==> i + |lbl| == |s| || !IsReSpace(s[i + |lbl|])
    ensures r.Some? ==> exists i :: from <= i <= |s| && OccursAt(s, lbl, i)
    decreases |s| - from
  {
    if OccursAt(s, lbl, from) && from + |lbl| < |s| && IsReSpace(s[from + |lbl|]) then
      var k := SkipReSpace(s, from + |lbl|);
      var e := LineEnd(s, k);
      assert forall j :: k <= j < e ==> s[j] != '\n';
      Some(s[k..e])
    else if from == |s| then None
    else AfterLabelAndSpace(s, lbl, from + 1)
  }

  /** The index of the first decimal digit at or after `from`. */
  function FirstDigit(s: string, from: nat): (r: Option<nat>)
    requires from <= |s|
    ensures r.Some? ==> from <= r.value < |s| && IsDigit(s[r.value])
    ensures r.Some? ==> forall j :: from <= j < r.value ==> !IsDigit(s[j])
    ensures r.None? ==> forall j :: from <= j < |s| ==> !IsDigit(s[j])
    decreases |s| - from
  {
    if from == |s| then None
    else if IsDigit(s[from]) then Some(from)
    else FirstDigit(s, from + 1)
  }

  /** The end of the run of digits starting at `i`. */
  function DigitRunEnd(s: string, i: nat): (k: nat)
    requires i <= |s|
    ensures i <= k <= |s| && (k < |s| ==> !IsDigit(s[k]))
    ensures AllDigits(s[i..k])
    decreases |s| - i
  {
    if i < |s| && IsDigit(s[i]) then DigitRunEnd(s, i + 1) else i
  }

  /** `\d+` / `(\d+)`: the first maximal run of decimal digits. */
  function FirstDigitRun(s: string): (r: Option<string>)
    ensures r.Some? ==> r.value != [] && AllDigits(r.value)
    ensures r.None? <==> forall j :: 0 <= j < |s| ==> !IsDigit(s[j])
  {
    match FirstDigit(s, 0)
    case None => None
    case Some(i) => Some(s[i..DigitRunEnd(s, i)])
  }

  /** `(\d.*)`: from the first digit to the end of its line. */
  function FromFirstDigit(s: string): (r: Option<string>)
    ensures r.Some? ==> r.value != [] && IsDigit(r.value[0]) && '\n' !in r.value
    ensures r.None? <==> forall j :: 0 <= j < |s| ==> !IsDigit(s[j])
  {
    match FirstDigit(s, 0)
    case None => None
    case Some(i) =>
      var e := LineEnd(s, i);
      assert forall j :: i <= j < e ==> s[j] != '\n';
      Some(s[i..e])
  }

  /** Whether `(\d+)[\s]?MB` matches at `i`, and where the match ends. */
  function DigitsMBAt(s: string, i: nat): (r: Option<nat>)
    requires i <= |s|
    ensures r.Some? ==> i < r.value <= |s| && HasSuffix(s[i..r.value], "MB") && IsDigit(s[i])
  {
    if i == |s| || !IsDigit(s[i]) then None
    else
      var d := DigitRunEnd(s, i);
      if OccursAt(s, "MB", d) then Some(d + 2)
      else if d < |s| && IsReSpace(s[d]) && OccursAt(s, "MB", d + 1) then Some(d + 3)
      else None
  }

  /** The whole leftmost match of `(\d+)[\s]?MB` at or after `from`. */
  function DigitsMB(s: string, from: nat): (r: Option<string>)
    requires from <= |s|
    ensures r.Some? ==> HasSuffix(r.value, "MB") && IsDigit(r.value[0])
    decreases |s| - from
  {
    match DigitsMBAt(s, from)
    case Some(e) => Some(s[from..e])
    case None => if from == |s| then None else DigitsMB(s, from + 1)
  }

  /** The start of the line containing position `i`. */
  function LineStart(s: string, i: nat): (k: nat)
    requires i <= |s|
    ensures k <= i
    ensures k > 0 ==> s[k - 1] == '\n'
    ensures forall j :: k <= j < i ==> s[j] != '\n'
  {
    if i == 0 || s[i - 1] == '\n' then i else LineStart(s, i - 1)
  }

  /** For the first occurrence of `w` (which holds no newline): its line's start, the last
      occurrence of `w` on that line, and the line's end. This gives `(.*w)` — the match runs
      from the line start through the last `w` — and `.*(w.*)` — the group runs from the last
      `w` to the line end. */
  function FirstLineWith(s: string, w: string): (r: Option<(nat, nat, nat)>)
    requires '\n' !in w
    ensures r.Some? ==> var (l, k, e) := r.value;
      l <= k && k + |w| <= e <= |s| && OccursAt(s, w, k) && e == LineEnd(s, k)
      && (forall j :: l <= j < e ==> s[j] != '\n')
      && (forall j :: k < j && j + |w| <= e ==> !OccursAt(s, w, j))
    ensures r.None? <==> !Contains(s, w)
  {
    match IndexOf(s, w)
    case None => None
    case Some(f) =>
      var l := LineStart(s, f);
      assert forall j :: f <= j < f + |w| ==> s[j] == w[j - f];
      var e := LineEnd(s, f + |w|);
      match LastOccurrenceIn(s, w, f, e)
      case None => None
      case Some(k) =>
        assert forall j :: f <= j < k + |w| ==> s[j] != '\n' by {
          forall j | f <= j < k + |w| ensures s[j] != '\n' {
            if j < f + |w| { assert s[j] == w[j - f]; }
          }
        }
        assert forall j :: k + |w| <= j < e ==> s[j] != '\n';
        assert LineEnd(s, k) == e by { LineEndAt(s, k, e); }
        Some((l, k, e))
  }

  /** `.*(w.*)`: the leftmost match lies on the first line holding `w`; the greedy `.*` puts
      the group at that line's last `w`, and the group runs to the line end. */
  function FromLast(s: string, w: string): (r: Option<string>)
    requires '\n' !in w
    ensures r.Some? ==> HasPrefix(r.value, w) && '\n' !in r.value
    ensures r.Some? ==> exists k ::
      (OccursAt(s, w, k) && r.value == s[k..LineEnd(s, k)]
       && forall j :: k < j && j + |w| <= LineEnd(s, k) ==> !OccursAt(s, w, j))
    ensures r.None? <==> !Contains(s, w)
  {
    match FirstLineWith(s, w)
    case Some((_, k, e)) =>
      OccursAtSlicePrefix(s, w, k, e);
      CharNotInSlice(s, k, e, '\n');
      Some(s[k..e])
    case None => None
  }

  /** On newline-free text `.*(w.*)` captures from the last `w` to the end. */
  lemma {:induction false} FromLastOneLine(s: string, w: string)
    requires '\n' !in w && '\n' !in s
    ensures FromLast(s, w) == match LastOccurrenceIn(s, w, 0, |s|)
                              case Some(k) => Some(s[k..])
                              case None => None
  {
    FirstLineWithOneLine(s, w);
    var r := FirstLineWith(s, w);
    var last := LastOccurrenceIn(s, w, 0, |s|);
    if r.Some? {
      var k := r.value.1;
      assert FromLast(s, w) == Some(s[k..|s|]);
      assert last == Some(k);
      assert s[k..|s|] == s[last.value..];
    } else {
      assert FromLast(s, w) == None;
      assert last == None;
    }
  }

  /** On newline-free text the line found is the whole text: it runs to the end, and its last
      occurrence is the last occurrence in the text. */
  lemma {:induction false} FirstLineWithOneLine(s: string, w: string)
    requires '\n' !in w && '\n' !in s
    ensures FirstLineWith(s, w).Some? <==> LastOccurrenceIn(s, w, 0, |s|).Some?
    ensures FirstLineWith(s, w).Some? ==>
      FirstLineWith(s, w).value.1 == LastOccurrenceIn(s, w, 0, |s|).value && FirstLineWith(s, w).value.2 == |s|
  {
    var r := FirstLineWith(s, w);
    var last := LastOccurrenceIn(s, w, 0, |s|);
    if r.Some? {
      var k := r.value.1;
      LineEndAt(s, k, |s|);
      assert last.Some?;
      assert k <= last.value && last.value <= k;
    } else if last.Some? {
      ContainsWitness(s, w, last.value);
    }
  }

  /** The line FirstLineWith finds starts the text or follows a newline, and no occurrence of
      `w` comes before it. */
  lemma {:induction false} FirstLineStart(s: string, w: string)
    requires '\n' !in w && FirstLineWith(s, w).Some?
    ensures var l := FirstLineWith(s, w).value.0;
      (l == 0 || s[l - 1] == '\n') && forall j :: 0 <= j < l ==> !OccursAt(s, w, j)
  {
    var f := IndexOf(s, w).value;
    assert FirstLineWith(s, w).value.0 == LineStart(s, f);
  }

  /** A label followed by the rest of a single line captures that rest. */
  lemma AfterLabelWhole(lbl: string, x: string)
    requires x != [] && '\n' !in x
    ensures AfterLabel(lbl + x, lbl) == Some(x)
  {
    var s := lbl + x;
    assert s[0..|lbl|] == lbl;
    forall j | |lbl| <= j < |s| ensures s[j] != '\n' {
      assert s[j] == x[j - |lbl|];
    }
    LineEndAt(s, |lbl|, |s|);
    assert s[|lbl|..|s|] == x;
  }

  /** With (?s), `open(.+)close` over open, a non-empty middle and close captures the middle. */
  lemma CaptureWhole(open: string, d: string, close: string)
    requires d != []
    ensures Capture(open + d + close, open, close, 1, true) == Some(d)
  {
    var s := open + d + close;
    var j := |open| + |d|;
    assert s[0..|open|] == open;
    assert s[j..j + |close|] == close;
    FindExact(s, open, close, 1, true, 0, j);
    assert s[|open|..j] == d;
  }

  /** Without (?s), `open(.*)close` over open, a single-line middle and a single-line close
      captures the middle. */
  lemma CaptureLine(open: string, d: string, close: string)
    requires '\n' !in d && '\n' !in close
    ensures Capture(open + d + close, open, close, 0, false) == Some(d)
  {
    var s := open + d + close;
    var j := |open| + |d|;
    assert s[0..|open|] == open;
    assert s[j..j + |close|] == close;
    forall k | |open| <= k < |s| ensures s[k] != '\n' {
      if k < j {
        assert s[k] == d[k - |open|];
      } else {
        assert s[k] == close[k - j];
      }
    }
    LineEndAt(s, |open|, |s|);
    FindExact(s, open, close, 0, false, 0, j);
    assert s[|open|..j] == d;
  }

  /** The whole match of `(.*close)`: from the start of the first line on which `close`
      occurs to the end of its last occurrence on that line. */
  function ThroughLast(s: string, close: string): (r: Option<string>)
    ensures r.Some? ==> HasSuffix(r.value, close) && '\n' !in r.value
  {
    match FindFrom(s, "", close, 0, false, 0)
    case None => None
    case Some((i, j)) =>
      assert forall k :: i <= k < j + |close| ==> s[k] != '\n';
      Some(s[i..j + |close|])
  }

  /** Any occurrence of a single-line `close` makes `(.*close)` match. */
  lemma ThroughLastFinds(s: string, close: string, j: nat)
    requires '\n' !in close && OccursAt(s, close, j)
    ensures ThroughLast(s, close).Some?
  {
    assert MatchesAt(s, "", close, 0, false, j, j);
    FindFromLeftmost(s, "", close, 0, false, 0);
  }

  /** On a single line, `(.*close)` runs from the start to the end of the last `close`. */
  lemma ThroughLastOnLine(s: string, close: string, j: nat)
    requires '\n' !in s && OccursAt(s, close, j)
    requires forall k :: j < k ==> !OccursAt(s, close, k)
    ensures ThroughLast(s, close) == Some(s[..j + |close|])
  {
    LineEndAt(s, 0, |s|);
    assert MatchesAt(s, "", close, 0, false, 0, j);
    var r := FindFrom(s, "", close, 0, false, 0);
    FindFromLeftmost(s, "", close, 0, false, 0);
    assert r.Some? && r.value.0 == 0;
    assert r.value.1 == j;
  }

  /** On a single line ending in `close`, `(.*close)` is the whole line. */
  lemma ThroughLastLine(d: string, close: string)
    requires '\n' !in d && '\n' !in close
    ensures ThroughLast(d + close, close) == Some(d + close)
  {
    var s := d + close;
    assert '\n' !in s by {
      forall k | 0 <= k < |s| ensures s[k] != '\n' {
        if k < |d| { assert s[k] == d[k]; } else { assert s[k] == close[k - |d|]; }
      }
    }
    assert OccursAt(s, close, |d|) by { assert s[|d|..] == close; }
    ThroughLastOnLine(s, close, |d|);
    assert s[..|d| + |close|] == s;
  }

  /** Without the label, `label(.+)` does not match. */
  lemma AfterLabelAbsent(s: string, lbl: string)
    requires !Contains(s, lbl)
    ensures AfterLabel(s, lbl).None?
  {
  }

  /** Without the opening literal, `open(.+)close` does not match. */
  lemma CaptureAbsent(s: string, open: string, close: string, minGap: nat, dotAll: bool)
    requires !Contains(s, open)
    ensures Capture(s, open, close, minGap, dotAll).None?
  {
  }

  /** A position followed by a newline-free stretch that ends in a newline (or the end of
      the string) has its line end there. */
  lemma {:induction false} LineEndAt(s: string, a: nat, e: nat)
    requires a <= e <= |s| && (e == |s| || s[e] == '\n')
    requires forall j :: a <= j < e ==> s[j] != '\n'
    ensures LineEnd(s, a) == e
    decreases e - a
  {
    if a < e {
      LineEndAt(s, a + 1, e);
    }
  }

  // ------------------------------------------------------------------ window.open\(\.+\)

  /** The end of the run of literal dots that starts at `i`. */
  function DotRunEnd(s: string, i: nat): (k: nat)
    requires i <= |s|
    ensures i <= k <= |s|
    ensures forall j :: i <= j < k ==> s[j] == '.'
    ensures k < |s| ==> s[k] != '.'
    decreases |s| - i
  {
    if i == |s| || s[i] != '.' then i else DotRunEnd(s, i + 1)
  }

  /** `window.open\(\.+\)` matches at `i`: "window", any character but a newline, "open(",
      one or more literal dots and ")". The dot run cannot give back a character to ")", so
      the match, when there is one, ends just after the full run. */
  predicate WindowOpenAt(s: string, i: nat) {
    i + 12 <= |s| && OccursAt(s, "window", i) && s[i + 6] != '\n' && OccursAt(s, "open(", i + 7)
    && DotRunEnd(s, i + 12) > i + 12 && DotRunEnd(s, i + 12) < |s| && s[DotRunEnd(s, i + 12)] == ')'
  }

  /** The leftmost start of a match at or after `from`. */
  function WindowOpenFrom(s: string, from: nat): (r: Option<nat>)
    requires from <= |s|
    ensures r.Some? ==> from <= r.value && WindowOpenAt(s, r.value)
    ensures r.Some? ==> forall k :: from <= k < r.value ==> !WindowOpenAt(s, k)
    ensures r.None? ==> forall k :: from <= k <= |s| ==> !WindowOpenAt(s, k)
    decreases |s| - from
  {
    if WindowOpenAt(s, from) then Some(from)
    else if from == |s| then None
    else WindowOpenFrom(s, from + 1)
  }

  /** FindStringSubmatch(...)[0]: the text of the leftmost match. */
  function WindowOpen(s: string): (r: Option<string>)
    ensures r.Some? ==> HasPrefix(r.value, "window") && HasSuffix(r.value, ".)")
  {
    match WindowOpenFrom(s, 0)
    case None => None
    case Some(i) =>
      var e := DotRunEnd(s, i + 12);
      assert s[i..e + 1][..6] == s[i..i + 6];
      assert s[i..e + 1][|s[i..e + 1]| - 2..] == s[e - 1..e + 1];
      Some(s[i..e + 1])
  }

  /** A text without ".)" has no match: the pattern only ever matches a call whose argument
      is made of dots. */
  lemma WindowOpenNeedsDotParen(s: string)
    requires !Contains(s, ".)")
    ensures WindowOpen(s).None?
  {
    match WindowOpenFrom(s, 0)
    case None =>
    case Some(i) =>
      var e := DotRunEnd(s, i + 12);
      assert s[e - 1..e + 1] == ".)";
      ContainsWitness(s, ".)", e - 1);
  }

  /** The shape it does match. */
  lemma WindowOpenOfDots(dots: string)
    requires dots != [] && forall j :: 0 <= j < |dots| ==> dots[j] == '.'
    ensures WindowOpen("window.open(" + dots + ")") == Some("window.open(" + dots + ")")
  {
    var s := "window.open(" + dots + ")";
    assert s[..6] == "window" && s[7..12] == "open(";
    forall j | 12 <= j < |s| - 1 ensures s[j] == '.' {
      assert s[j] == dots[j - 12];
    }
    assert s[|s| - 1] == ')';
    var e := DotRunEnd(s, 12);
    assert e == |s| - 1;
    assert WindowOpenAt(s, 0);
    assert s[0..e + 1] == s;
  }

  /** A label, one space and a value that does not start with white space and fills the
      rest of the line: `label\s+(.*)` captures the value. */
  lemma AfterLabelAndSpaceWhole(lbl: string, v: string)
    requires '\n' !in v && (v == [] || !IsReSpace(v[0]))
    ensures AfterLabelAndSpace(lbl + " " + v, lbl, 0) == Some(v)
  {
    var s := lbl + " " + v;
    var a := |lbl| + 1;
    assert s[..|lbl|] == lbl && s[|lbl|] == ' ';
    assert s[a..] == v;
    assert SkipReSpace(s, a) == a by {
      if a < |s| { assert s[a] == v[0]; }
    }
    forall j | a <= j < |s| ensures s[j] != '\n' {
      assert s[j] == v[j - a];
    }
    LineEndAt(s, a, |s|);
    assert OccursAt(s, lbl, 0) by { assert s[0..|lbl|] == lbl; }
    assert IsReSpace(s[|lbl|]);
    assert s[a..|s|] == v;
  }

  /** Without the label, `label\s+(.*)` does not match. */
  lemma AfterLabelAndSpaceAbsent(s: string, lbl: string)
    requires !Contains(s, lbl)
    ensures AfterLabelAndSpace(s, lbl, 0).None?
  {
  }

  /** `(\d+)` on a text whose first digits are `d`: the run is `d` when it is preceded by no
      digit and followed by a non-digit or the end. */
  lemma FirstDigitRunOf(a: string, d: string, b: string)
    requires forall j :: 0 <= j < |a| ==> !IsDigit(a[j])
    requires d != [] && AllDigits(d)
    requires b == [] || !IsDigit(b[0])
    ensures FirstDigitRun(a + d + b) == Some(d)
  {
    var s := a + d + b;
    var i := |a|;
    assert s[i] == d[0];
    forall j | 0 <= j < i ensures !IsDigit(s[j]) {
      assert s[j] == a[j];
    }
    assert FirstDigit(s, 0) == Some(i);
    forall j | i <= j < i + |d| ensures IsDigit(s[j]) {
      assert s[j] == d[j - i];
    }
    DigitRunEndAt(s, i, i + |d|);
    assert s[i..i + |d|] == d;
  }

  lemma {:induction false} DigitRunEndAt(s: string, i: nat, k: nat)
    requires i <= k <= |s| && (k == |s| || !IsDigit(s[k]))
    requires forall j :: i <= j < k ==> IsDigit(s[j])
    ensures DigitRunEnd(s, i) == k
    decreases k - i
  {
    if i < k {
      DigitRunEndAt(s, i + 1, k);
    }
  }

  // ------------------------------------------------------------------ numbers in titles

  /** `(\d+)` on a title, read with Atoi whose error is ignored (so an overlong run gives the
      nearest int64 bound); 0 when the title has no digit. */
  function FirstNumber(title: string): (y: int)
    ensures MinInt64 <= y <= MaxInt64
    ensures (forall j :: 0 <= j < |title| ==> !IsDigit(title[j])) ==> y == 0
  {
    match FirstDigitRun(title)
    case Some(d) => Atoi(d).value
    case None => 0
  }

  /** The first digit run is the number: digit-free text, then the number, then a non-digit. */
  lemma FirstNumberOf(a: string, y: int, b: string)
    requires forall j :: 0 <= j < |a| ==> !IsDigit(a[j])
    requires 0 <= y <= MaxInt64
    requires b == [] || !IsDigit(b[0])
    ensures FirstNumber(a + Itoa(y) + b) == y
  {
    FirstDigitRunOf(a, Itoa(y), b);
    AtoiItoa(y);
  }

  /** No match of `(\d+)[\s]?MB` starts where there is no digit. */
  lemma {:induction false} DigitsMBSkip(s: string, from: nat, to: nat)
    requires from <= to <= |s|
    requires forall j :: from <= j < to ==> !IsDigit(s[j])
    ensures DigitsMB(s, from) == DigitsMB(s, to)
    decreases |s| - from
  {
    if from < to {
      DigitsMBSkip(s, from + 1, to);
    }
  }

  /** A digit run from `i` to `k`, a space and "MB" is a match at `i` ending after "MB". */
  lemma DigitsMBAtSpace(s: string, i: nat, k: nat)
    requires i < k && k + 3 <= |s|
    requires forall j :: i <= j < k ==> IsDigit(s[j])
    requires s[k] == ' ' && s[k + 1..k + 3] == "MB"
    ensures DigitsMBAt(s, i) == Some(k + 3)
  {
    DigitRunEndAt(s, i, k);
    assert !OccursAt(s, "MB", k) by {
      assert s[k..k + 2][0] == ' ';
    }
  }

  /** Where the pieces of `a + d + " MB" + b` sit. */
  lemma SizeLayout(a: string, d: string, b: string)
    ensures var s := a + d + " MB" + b; var k := |a| + |d|;
      |s| == k + 3 + |b| && s[k] == ' ' && s[k + 1..k + 3] == "MB" && s[|a|..k + 3] == d + " MB" &&
      (forall j :: 0 <= j < |a| ==> s[j] == a[j]) && (forall j :: |a| <= j < k ==> s[j] == d[j - |a|])
  {
  }

  /** Digit-free text, then digits, a space and "MB": the match is the digits, the space and
      "MB". */
  lemma DigitsMBOf(a: string, d: string, b: string)
    requires forall j :: 0 <= j < |a| ==> !IsDigit(a[j])
    requires d != [] && AllDigits(d)
    ensures DigitsMB(a + d + " MB" + b, 0) == Some(d + " MB")
  {
    var s := a + d + " MB" + b;
    SizeLayout(a, d, b);
    DigitsMBSkip(s, 0, |a|);
    DigitsMBAtSpace(s, |a|, |a| + |d|);
  }

  // ------------------------------------------------------------------ prefixed elements

  /** The elements of `xs` that start with `p`, in order: what a loop testing each element
      with strings.HasPrefix acts on. */
  function Prefixed(xs: seq<string>, p: string): (r: seq<string>)
    ensures |r| <= |xs|
  {
    if xs == [] then []
    else Prefixed(xs[..|xs| - 1], p) + (if HasPrefix(xs[|xs| - 1], p) then [xs[|xs| - 1]] else [])
  }

  /** Every selected element has the prefix. */
  lemma {:induction false} PrefixedHavePrefix(xs: seq<string>, p: string)
    ensures forall k :: 0 <= k < |Prefixed(xs, p)| ==> HasPrefix(Prefixed(xs, p)[k], p)
  {
    if xs != [] {
      PrefixedHavePrefix(xs[..|xs| - 1], p);
    }
  }

  /** One more element extends the selection by that element exactly when it has the prefix. */
  lemma PrefixedSnoc(xs: seq<string>, x: string, p: string)
    ensures Prefixed(xs + [x], p) == Prefixed(xs, p) + (if HasPrefix(x, p) then [x] else [])
  {
    SnocFront(xs, x);
  }

  /** The selection holds exactly the elements that have the prefix. */
  lemma {:induction false} PrefixedMembers(xs: seq<string>, p: string, x: string)
    ensures x in Prefixed(xs, p) <==> x in xs && HasPrefix(x, p)
  {
    if xs != [] {
      var q := xs[..|xs| - 1];
      PrefixedMembers(q, p, x);
      assert xs == q + [xs[|xs| - 1]];
    }
  }

  /** The last element that starts with `p`. */
  function LastPrefixed(xs: seq<string>, p: string): (r: Option<string>)
    ensures r.Some? ==> HasPrefix(r.value, p)
  {
    var f := Prefixed(xs, p);
    PrefixedHavePrefix(xs, p);
    if f == [] then None else Some(f[|f| - 1])
  }

  /** It is the last element carrying the prefix. */
  lemma {:induction false} LastPrefixedIsLast(xs: seq<string>, p: string, i: int)
    requires 0 <= i < |xs| && HasPrefix(xs[i], p)
    requires forall j :: i < j < |xs| ==> !HasPrefix(xs[j], p)
    ensures LastPrefixed(xs, p) == Some(xs[i])
  {
    var n := |xs| - 1;
    if i < n {
      var q := xs[..n];
      assert q[i] == xs[i];
      assert forall j :: i < j < |q| ==> q[j] == xs[j];
      LastPrefixedIsLast(q, p, i);
    }
  }

  /** There is none exactly when no element carries the prefix. */
  lemma {:induction false} LastPrefixedNone(xs: seq<string>, p: string)
    ensures LastPrefixed(xs, p).None? <==> forall j :: 0 <= j < |xs| ==> !HasPrefix(xs[j], p)
  {
    if xs != [] {
      var q := xs[..|xs| - 1];
      assert forall j :: 0 <= j < |q| ==> q[j] == xs[j];
      LastPrefixedNone(q, p);
    }
  }
}
