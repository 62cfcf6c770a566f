/** Go's `path` package (Join, Clean, Split, Ext) restricted to slash-separated paths without
    "." or ".." elements; on such elements Go's Clean resolves them and this model keeps them. */
module Paths {
  import opened Wrappers
  import opened Text

  /** A slash at `i` followed by another. */
  predicate DoubleSlashAt(s: string, i: int) {
    0 <= i < |s| - 1 && s[i] == '/' && s[i + 1] == '/'
  }

  /** No two consecutive slashes. */
  predicate NoDoubleSlash(s: string) {
    forall i :: 0 <= i < |s| ==> !DoubleSlashAt(s, i)
  }

  /** A relative path made of non-empty elements: what the engines append to a URL path
      ("download", "page/3", "7.html"). */
  predicate IsRelativeSegment(w: string) {
    w != [] && w[0] != '/' && w[|w| - 1] != '/' && NoDoubleSlash(w)
  }

  /** Replaces every run of slashes by a single slash. */
  function Collapse(s: string): (r: string)
    ensures |r| <= |s|
    decreases |s|
  {
    if |s| <= 1 then s
    else if s[0] == '/' && s[1] == '/' then Collapse(s[1..])
    else [s[0]] + Collapse(s[1..])
  }

  lemma {:induction false} CollapseEnds(s: string)
    requires s != []
    ensures Collapse(s) != [] && Collapse(s)[0] == s[0] && Collapse(s)[|Collapse(s)| - 1] == s[|s| - 1]
    decreases |s|
  {
    if |s| > 1 {
      CollapseEnds(s[1..]);
    }
  }

  lemma {:induction false} CollapseNoDoubleSlash(s: string)
    ensures NoDoubleSlash(Collapse(s))
    decreases |s|
  {
    if |s| > 1 {
      CollapseNoDoubleSlash(s[1..]);
      if !(s[0] == '/' && s[1] == '/') {
        CollapseEnds(s[1..]);
        var t := Collapse(s[1..]);
        assert Collapse(s) == [s[0]] + t;
        forall i | 0 <= i < |Collapse(s)| - 1 ensures !DoubleSlashAt(Collapse(s), i) {
          if i > 0 {
            assert !DoubleSlashAt(t, i - 1);
            assert Collapse(s)[i] == t[i - 1] && Collapse(s)[i + 1] == t[i];
          }
        }
      }
    }
  }

  /** Collapsing distributes over a suffix that has no double slash and does not start with one. */
  lemma {:induction false} CollapseAppend(x: string, w: string)
    requires NoDoubleSlash(w) && (w == [] || w[0] != '/')
    ensures Collapse(x + w) == Collapse(x) + w
    decreases |x| + |w|
  {
    if x == [] {
      CollapseFree(w);
      assert x + w == w;
    } else if |x| == 1 {
      if w != [] {
        assert (x + w)[1..] == w;
        CollapseFree(w);
      } else {
        assert x + w == x;
      }
    } else {
      assert (x + w)[1..] == x[1..] + w;
      CollapseAppend(x[1..], w);
    }
  }

  lemma {:induction false} CollapseFree(w: string)
    requires NoDoubleSlash(w)
    ensures Collapse(w) == w
    decreases |w|
  {
    if |w| > 1 {
      assert !DoubleSlashAt(w, 0);
      assert NoDoubleSlash(w[1..]) by {
        forall i | 0 <= i < |w[1..]| ensures !DoubleSlashAt(w[1..], i) {
          assert !DoubleSlashAt(w, i + 1);
        }
      }
      CollapseFree(w[1..]);
    }
  }

  lemma CollapseIdempotent(s: string)
    ensures Collapse(Collapse(s)) == Collapse(s)
  {
    CollapseNoDoubleSlash(s);
    CollapseFree(Collapse(s));
  }

  /** The elements of a slash-separated path: its non-empty runs without a slash, in order. */
  function Elements(s: string): (r: seq<string>)
    ensures s != [] && s[0] != '/' ==> r != []
    decreases |s|
  {
    if s == [] then []
    else if s[0] == '/' then Elements(s[1..])
    else
      var rest := Elements(s[1..]);
      if |s| > 1 && s[1] != '/' then [[s[0]] + rest[0]] + rest[1..]
      else [[s[0]]] + rest
  }

  /** Collapsing slash runs keeps the elements. */
  lemma {:induction false} ElementsCollapse(s: string)
    ensures Elements(Collapse(s)) == Elements(s)
    decreases |s|
  {
    if |s| > 1 {
      ElementsCollapse(s[1..]);
      if !(s[0] == '/' && s[1] == '/') {
        var c := Collapse(s[1..]);
        CollapseEnds(s[1..]);
        assert Collapse(s) == [s[0]] + c;
        assert ([s[0]] + c)[1..] == c;
        assert ([s[0]] + c)[1] == s[1];
      }
    }
  }

  /** A trailing slash adds no element. */
  lemma {:induction false} ElementsTrailingSlash(t: string)
    ensures Elements(t + "/") == Elements(t)
    decreases |t|
  {
    if t == [] {
      assert t + "/" == "/";
      assert "/"[1..] == [];
    } else {
      assert (t + "/")[1..] == t[1..] + "/";
      ElementsTrailingSlash(t[1..]);
      if |t| == 1 {
        assert t[1..] + "/" == "/";
        assert "/"[1..] == [];
      } else {
        assert (t + "/")[1] == t[1];
      }
    }
  }

  /** path.Clean for paths without "." and ".." elements: "." for the empty path; otherwise
      the same elements in the same order, the same first character (so a rooted path stays
      rooted), no double slash and no trailing slash except for the root "/". */
  function Clean(s: string): (r: string)
    ensures r != [] && NoDoubleSlash(r)
    ensures |r| > 1 ==> r[|r| - 1] != '/'
    ensures s == [] ==> r == "."
    ensures s != [] ==> r[0] == s[0] && Elements(r) == Elements(s)
  {
    if s == [] then "."
    else
      var c := Collapse(s);
      CollapseNoDoubleSlash(s);
      CollapseEnds(s);
      ElementsCollapse(s);
      if |c| > 1 && c[|c| - 1] == '/' then
        assert !DoubleSlashAt(c, |c| - 2);
        NoDoubleSlashPrefix(c, |c| - 1);
        assert c[..|c| - 1] + "/" == c;
        ElementsTrailingSlash(c[..|c| - 1]);
        c[..|c| - 1]
      else c
  }

  lemma NoDoubleSlashPrefix(s: string, n: nat)
    requires NoDoubleSlash(s) && n <= |s|
    ensures NoDoubleSlash(s[..n])
  {
    forall i | 0 <= i < n ensures !DoubleSlashAt(s[..n], i) {
      assert !DoubleSlashAt(s, i);
    }
  }

  /** The buffer path.Join builds: the non-empty elements separated by slashes. */
  function JoinBuffer(elems: seq<string>): string
    decreases |elems|
  {
    if elems == [] then ""
    else
      var buf := JoinBuffer(elems[..|elems| - 1]);
      var e := elems[|elems| - 1];
      if |buf| > 0 then buf + "/" + e else e
  }

  /** path.Join: the cleaned slash-join of the elements, or "" when every element is empty. */
  function Join(elems: seq<string>): string {
    var b := JoinBuffer(elems);
    if b == [] then "" else Clean(b)
  }

  lemma JoinBufferPair(p: string, w: string)
    ensures JoinBuffer([p, w]) == if p == [] then w else p + "/" + w
  {
    assert [p, w][..1] == [p];
    assert [p][..0] == [];
    assert JoinBuffer([p]) == p;
  }

  /** Join of two elements, the first non-empty, cleans their slash-join. */
  lemma JoinPair(p: string, w: string)
    requires p != []
    ensures Join([p, w]) == Clean(p + "/" + w)
  {
    JoinBufferPair(p, w);
  }

  lemma JoinBufferTriple(p: string, a: string, b: string)
    requires p != [] && a != []
    ensures JoinBuffer([p, a, b]) == p + "/" + (a + "/" + b)
  {
    assert [p, a, b][..2] == [p, a];
    JoinBufferPair(p, a);
  }

  /** A string ending in a slash followed by a relative segment cleans to its collapsed form
      followed by the segment. */
  lemma CleanAppend(x: string, w: string)
    requires x != [] && x[|x| - 1] == '/' && IsRelativeSegment(w)
    ensures Clean(x + w) == Collapse(x) + w
  {
    CollapseAppend(x, w);
    var c := Collapse(x) + w;
    assert c[|c| - 1] == w[|w| - 1];
    CleanOfCollapsed(x + w, c);
  }

  /** A path whose collapsed form does not end in a slash cleans to that form. */
  lemma CleanOfCollapsed(s: string, c: string)
    requires s != [] && c == Collapse(s) && c != [] && c[|c| - 1] != '/'
    ensures Clean(s) == c
  {
  }

  /** Text after a string that ends in a slash is preceded by that slash. */
  lemma SuffixAfterSlash(c: string, w: string)
    requires c != [] && c[|c| - 1] == '/'
    ensures HasSuffix(c + w, "/" + w)
  {
    assert (c + w)[|c| - 1..] == "/" + w;
  }

  lemma SlashEndedCollapse(p: string)
    ensures Collapse(p + "/") != [] && Collapse(p + "/")[|Collapse(p + "/")| - 1] == '/'
  {
    CollapseEnds(p + "/");
  }

  /** Appending a relative segment to a non-empty path keeps the segment, right after one slash,
      at the end of the result; appending to the empty path gives the segment itself. */
  lemma JoinSegment(p: string, w: string)
    requires IsRelativeSegment(w)
    ensures p == [] ==> Join([p, w]) == w
    ensures p != [] ==> Join([p, w]) == Collapse(p + "/") + w
    ensures HasSuffix(Join([p, w]), if p == [] then w else "/" + w)
  {
    if p == [] {
      JoinBufferPair(p, w);
      CollapseFree(w);
      assert w[|w| - |w|..] == w;
    } else {
      JoinPair(p, w);
      SlashEndedCollapse(p);
      CleanAppend(p + "/", w);
      SuffixAfterSlash(Collapse(p + "/"), w);
    }
  }

  /** After a join with a relative segment, a further slash collapses onto the segment. */
  lemma CollapseAfterSegment(p: string, a: string)
    requires p != [] && IsRelativeSegment(a)
    ensures Join([p, a]) != []
    ensures Collapse(Join([p, a]) + "/") == Collapse(p + "/") + (a + "/")
  {
    var c := Collapse(p + "/");
    JoinSegment(p, a);
    SlashEnded(a);
    CollapseAppend(c, a + "/");
    CollapseIdempotent(p + "/");
    assert Join([p, a]) + "/" == c + (a + "/");
  }

  /** Two successive joins, as done when a page path is built on top of a category path:
      both segments end up at the end of the result, in order. */
  lemma JoinTwice(p: string, a: string, b: string)
    requires p != [] && IsRelativeSegment(a) && IsRelativeSegment(b)
    ensures HasSuffix(Join([Join([p, a]), b]), "/" + a + "/" + b)
  {
    var c := Collapse(p + "/");
    CollapseAfterSegment(p, a);
    JoinSegment(Join([p, a]), b);
    assert Join([Join([p, a]), b]) == c + (a + "/") + b;
    assert c + (a + "/") + b == c + (a + "/" + b);
    SlashEndedCollapse(p);
    SuffixAfterSlash(c, a + "/" + b);
    assert "/" + (a + "/" + b) == "/" + a + "/" + b;
  }

  /** Two relative segments joined by one slash form a relative segment. */
  lemma SegmentConcat(a: string, b: string)
    requires IsRelativeSegment(a) && IsRelativeSegment(b)
    ensures IsRelativeSegment(a + "/" + b)
  {
    var w := a + "/" + b;
    forall i | 0 <= i < |w| ensures !DoubleSlashAt(w, i) {
      if i < |a| - 1 {
        assert !DoubleSlashAt(a, i);
        assert w[i] == a[i] && w[i + 1] == a[i + 1];
      } else if i > |a| && i < |w| - 1 {
        assert !DoubleSlashAt(b, i - |a| - 1);
        assert w[i] == b[i - |a| - 1] && w[i + 1] == b[i - |a|];
      }
    }
  }

  /** Joining a path and two relative segments puts both after the cleaned path, one slash
      apart. */
  lemma JoinThree(p: string, a: string, b: string)
    requires p != [] && IsRelativeSegment(a) && IsRelativeSegment(b)
    ensures Join([p, a, b]) == Collapse(p + "/") + a + "/" + b
  {
    JoinBufferTriple(p, a, b);
    SegmentConcat(a, b);
    SlashEndedCollapse(p);
    CleanAppend(p + "/", a + "/" + b);
    assert p + "/" + (a + "/" + b) == (p + "/") + (a + "/" + b);
    assert Collapse(p + "/") + (a + "/" + b) == Collapse(p + "/") + a + "/" + b;
  }

  /** A doubled trailing slash collapses like a single one. */
  lemma {:induction false} CollapseDoubleEnd(x: string)
    ensures Collapse(x + "//") == Collapse(x + "/")
    decreases |x|
  {
    if x == [] {
      assert x + "//" == "//" && x + "/" == "/";
      assert "//"[1..] == "/";
    } else {
      CollapseDoubleEnd(x[1..]);
      assert (x + "//")[1..] == x[1..] + "//";
      assert (x + "/")[1..] == x[1..] + "/";
      if |x| == 1 {
        assert (x + "//")[1] == (x + "/")[1] == '/';
      } else {
        assert (x + "//")[1] == (x + "/")[1] == x[1];
      }
    }
  }

  /** Joining onto a path that ends in a slash is joining onto the path without it. */
  lemma JoinAfterSlash(p: string, w: string)
    requires p != [] && IsRelativeSegment(w)
    ensures Join([p + "/", w]) == Join([p, w])
  {
    JoinSegment(p + "/", w);
    JoinSegment(p, w);
    CollapseDoubleEnd(p);
    assert p + "/" + "/" == p + "//";
  }

  /** A relative segment with one slash appended has no double slash. */
  lemma SlashEnded(a: string)
    requires IsRelativeSegment(a)
    ensures NoDoubleSlash(a + "/") && (a + "/")[0] != '/'
  {
    SlashAppended(a);
  }

  /** A path without double slashes that does not end in a slash keeps that when one slash
      is appended. */
  lemma SlashAppended(a: string)
    requires a != [] && a[|a| - 1] != '/' && NoDoubleSlash(a)
    ensures NoDoubleSlash(a + "/")
  {
    forall i | 0 <= i < |a + "/"| ensures !DoubleSlashAt(a + "/", i) {
      if i < |a| - 1 {
        assert !DoubleSlashAt(a, i);
        assert (a + "/")[i] == a[i] && (a + "/")[i + 1] == a[i + 1];
      }
    }
  }

  /** Join drops a trailing slash of the last element. */
  lemma JoinTrailingSlash(p: string, w: string)
    requires p != [] && IsRelativeSegment(w)
    ensures Join([p, w + "/"]) == Join([p, w])
  {
    JoinPair(p, w + "/");
    SlashEnded(w);
    CollapseAppend(p + "/", w + "/");
    assert p + "/" + (w + "/") == (p + "/") + (w + "/");
    var c := Collapse(p + "/") + (w + "/");
    assert c[..|c| - 1] == Collapse(p + "/") + w;
    JoinSegment(p, w);
  }

  /** The index just after the last slash of `s` (0 when there is none). */
  function AfterLastSlash(s: string): (i: nat)
    ensures i <= |s|
    ensures i > 0 ==> s[i - 1] == '/'
    ensures forall j :: i <= j < |s| ==> s[j] != '/'
  {
    if s == [] then 0
    else if s[|s| - 1] == '/' then |s|
    else AfterLastSlash(s[..|s| - 1])
  }

  /** path.Split: everything up to and including the last slash, and the rest. */
  function SplitPath(s: string): (r: (string, string))
    ensures r.0 + r.1 == s
    ensures '/' !in r.1
    ensures r.0 == [] || r.0[|r.0| - 1] == '/'
  {
    var i := AfterLastSlash(s);
    (s[..i], s[i..])
  }

  /** path.Ext: the suffix starting at the last dot of the final element, or "". */
  function Ext(s: string): (r: string)
    ensures r == [] || (r[0] == '.' && HasSuffix(s, r) && '/' !in r)
    ensures r != [] ==> '.' !in r[1..]
  {
    if s == [] || s[|s| - 1] == '/' then ""
    else if s[|s| - 1] == '.' then "."
    else
      var e := Ext(s[..|s| - 1]);
      if e == [] then "" else e + [s[|s| - 1]]
  }

  /** A directory part ending in a slash (or empty) and a slash-free name split back apart. */
  lemma SplitPathOf(dir: string, file: string)
    requires dir == [] || dir[|dir| - 1] == '/'
    requires '/' !in file
    ensures SplitPath(dir + file) == (dir, file)
  {
    var s := dir + file;
    var i := AfterLastSlash(s);
    if dir != [] {
      assert s[|dir| - 1] == '/';
    }
    forall j | |dir| <= j < |s| ensures s[j] != '/' {
      assert s[j] == file[j - |dir|];
    }
    assert i == |dir|;
    assert s[..i] == dir && s[i..] == file;
  }

  /** The extension of a name followed by a dot and a dot- and slash-free tail is that dot and
      tail. */
  lemma {:induction false} ExtOf(name: string, e: string)
    requires '.' !in e && '/' !in e
    ensures Ext(name + "." + e) == "." + e
    decreases |e|
  {
    var s := name + "." + e;
    if e != [] {
      var n := |e| - 1;
      assert '.' !in e[..n] && '/' !in e[..n];
      ExtOf(name, e[..n]);
      assert s[..|s| - 1] == name + "." + e[..n];
      assert s[|s| - 1] == e[n];
      assert "." + e[..n] + [e[n]] == "." + e;
    }
  }
}
