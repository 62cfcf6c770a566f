/** A small model of Go's url.URL and url.Values, limited to what the engines read and write:
    the part before the path (scheme, user info and host) is kept as one `origin` string. */
module Urls {
  import opened Wrappers
  import opened Text
  import Paths
  import opened Escaping

  datatype Url = Url(origin: string, path: string, forceQuery: bool, rawQuery: string)

  /** The zero url.URL, which is what `Movie{}` holds as its download link. */
  const EmptyUrl := Url("", "", false, "")

  /** URL.String(): a host-relative path gets a leading slash; a query is written after "?"
      when it is non-empty or explicitly forced. */
  function UrlString(u: Url): string {
    u.origin
    + (if u.origin != [] && u.path != [] && u.path[0] != '/' then "/" else "")
    + u.path
    + (if u.forceQuery || u.rawQuery != [] then "?" + u.rawQuery else "")
  }

  /** Splits the text before the query into origin and path: the path starts at the first "/"
      after "://", or is the whole text when there is no scheme separator. */
  function SplitOrigin(t: string): (r: (string, string))
    ensures r.0 + r.1 == t
    ensures r.0 != [] ==> r.1 == [] || r.1[0] == '/'
  {
    match IndexOf(t, "://")
    case None => ("", t)
    case Some(p) =>
      match IndexFrom(t, "/", p + 3)
      case None => (t, "")
      case Some(k) =>
        assert t[k..][0] == t[k..k + 1][0];
        (t[..k], t[k..])
  }

  /** url.Parse for absolute and path-only references without a fragment. The first "?"
      starts the raw query; a lone trailing "?" sets ForceQuery. */
  function ParseUrl(s: string): (u: Url)
    ensures UrlString(u) == s
    ensures u.origin != [] ==> u.path == [] || u.path[0] == '/'
  {
    match IndexOf(s, "?")
    case None =>
      var r := SplitOrigin(s);
      StringOfSplit(s, r.0, r.1, false, "");
      Url(r.0, r.1, false, "")
    case Some(q) =>
      QuerySplit(s, q);
      var r := SplitOrigin(s[..q]);
      Url(r.0, r.1, q + 1 == |s|, s[q + 1..])
  }

  /** A URL split at a "?" writes the text before it, the "?" and the query back. */
  lemma QuerySplit(s: string, q: nat)
    requires OccursAt(s, "?", q)
    ensures q < |s|
    ensures var r := SplitOrigin(s[..q]);
      UrlString(Url(r.0, r.1, q + 1 == |s|, s[q + 1..])) == s
  {
    var r := SplitOrigin(s[..q]);
    StringOfSplit(s[..q], r.0, r.1, q + 1 == |s|, s[q + 1..]);
    assert s[q..q + 1] == "?";
    SliceThree(s, q, q + 1);
  }

  /** The text of a URL whose origin and path come from splitting `t`: `t`, then the query. */
  lemma StringOfSplit(t: string, o: string, p: string, force: bool, query: string)
    requires o + p == t && (o != [] ==> p == [] || p[0] == '/')
    ensures UrlString(Url(o, p, force, query)) == t + (if force || query != [] then "?" + query else "")
  {
  }

  /** The text before the first `c`, or all of `s` when `c` does not occur. */
  function BeforeChar(s: string, c: char): (h: string)
    ensures HasPrefix(s, h) && c !in h
    ensures |h| < |s| ==> s[|h|] == c
  {
    if s == [] || s[0] == c then []
    else
      var t := BeforeChar(s[1..], c);
      assert s[1..][..|t|] == t;
      assert s[..1 + |t|] == [s[0]] + s[1..][..|t|];
      [s[0]] + t
  }

  predicate SchemeLetter(c: char) {
    'a' <= c <= 'z' || 'A' <= c <= 'Z'
  }

  predicate SchemeChar(c: char) {
    SchemeLetter(c) || IsDigit(c) || c == '+' || c == '-' || c == '.'
  }

  /** The scan of url.Parse's getScheme from position `i`: the ':' that ends an unbroken run
      of scheme characters, or None when another character (or the end) comes first. */
  function SchemeEndFrom(s: string, i: nat): (r: Option<nat>)
    requires i <= |s|
    ensures r.Some? ==> i <= r.value < |s| && s[r.value] == ':'
                          && forall j :: i <= j < r.value ==> SchemeChar(s[j])
    ensures r.None? ==> forall k :: i <= k < |s| && s[k] == ':' ==> exists j :: i <= j < k && !SchemeChar(s[j])
    decreases |s| - i
  {
    if i == |s| then None
    else if s[i] == ':' then Some(i)
    else if SchemeChar(s[i]) then SchemeEndFrom(s, i + 1)
    else None
  }

  /** getScheme: a reference has a scheme when it starts with a letter and an unbroken run of
      scheme characters ends at a ':'; the scheme is the text before that ':'. */
  function SchemeEnd(s: string): (r: Option<nat>)
    ensures r.Some? ==> 0 < r.value < |s| && s[r.value] == ':' && SchemeLetter(s[0])
                          && forall j :: 0 <= j < r.value ==> SchemeChar(s[j])
    ensures r.None? && s != [] && SchemeLetter(s[0]) ==>
      forall k :: 0 < k < |s| && s[k] == ':' ==> exists j :: 0 < j < k && !SchemeChar(s[j])
  {
    if s == [] || !SchemeLetter(s[0]) then None else SchemeEndFrom(s, 1)
  }

  /** The scheme of a URL: the text before the ':' that ends it, "" for a URL without one. */
  function SchemeOf(u: Url): (r: string)
    ensures r == [] || (SchemeLetter(r[0]) && HasPrefix(u.origin, r + ":"))
  {
    match SchemeEnd(u.origin)
    case None => ""
    case Some(i) =>
      assert u.origin[..i + 1] == u.origin[..i] + ":";
      u.origin[..i]
  }

  /** url.Parse refuses a reference without a scheme whose path does not start with "/" when
      the first segment of that path holds a ':' (a ':' in first position is refused as a
      missing scheme, which comes to the same). */
  predicate RefusedRef(h: string) {
    SchemeEnd(h).None? &&
    var p := BeforeChar(h, '?');
    !HasPrefix(p, "/") && ':' in BeforeChar(p, '/')
  }

  /** A network-path reference: "//host/…" without a scheme ("///" is a path). */
  predicate NetworkPath(h: string) {
    HasPrefix(h, "//") && !HasPrefix(h, "///")
  }

  /** base.Parse(h) printed back, for a reference `h` without a fragment:
      - a reference url.Parse refuses gives "";
      - a reference with a scheme is kept;
      - a network-path reference "//host/…" takes the base's scheme;
      - a host-absolute path replaces the path;
      - a query-only reference replaces the query;
      - any other reference replaces the last path element. */
  function ResolveRef(base: Url, h: string): (r: string)
    requires h != []
    ensures RefusedRef(h) ==> r == ""
    ensures SchemeEnd(h).Some? ==> r == h
    ensures !RefusedRef(h) ==> HasSuffix(r, h)
    ensures NetworkPath(h) && SchemeEnd(h).None? ==>
      r == (if SchemeOf(base) == [] then h else SchemeOf(base) + ":" + h)
    ensures SchemeEnd(h).None? && !RefusedRef(h) && !NetworkPath(h) ==> HasPrefix(r, base.origin)
  {
    if RefusedRef(h) then ""
    else if SchemeEnd(h).Some? then h
    else if NetworkPath(h) then
      (if SchemeOf(base) == [] then h else SchemeOf(base) + ":" + h)
    else if h[0] == '/' then base.origin + h
    else if h[0] == '?' then base.origin + base.path + h
    else
      var dir := Paths.SplitPath(base.path).0;
      base.origin + (if dir == [] then "/" else dir) + h
  }

  /** colly's Request.AbsoluteURL: an href starting with "#" gives "", the empty href the base
      itself, and any other href is resolved with its fragment ("#…") dropped. */
  function AbsoluteUrl(base: Url, href: string): (r: string)
    ensures HasPrefix(href, "#") ==> r == ""
    ensures href == [] ==> r == UrlString(base)
    ensures href != [] && !HasPrefix(href, "#") ==> BeforeChar(href, '#') != [] && r == ResolveRef(base, BeforeChar(href, '#'))
  {
    if HasPrefix(href, "#") then ""
    else if href == [] then UrlString(base)
    else
      assert href[0] != '#';
      ResolveRef(base, BeforeChar(href, '#'))
  }

  /** The text before `c` in `x + y` for a `c`-free `x` continues into `y`. */
  lemma {:induction false} BeforeCharConcat(x: string, y: string, c: char)
    requires c !in x
    ensures BeforeChar(x + y, c) == x + BeforeChar(y, c)
    decreases |x|
  {
    if x != [] {
      assert (x + y)[1..] == x[1..] + y;
      BeforeCharConcat(x[1..], y, c);
    } else {
      assert x + y == y;
    }
  }

  /** A string free of `c` is its own text before `c`. */
  lemma {:induction false} BeforeCharFree(x: string, c: char)
    requires c !in x
    ensures BeforeChar(x, c) == x
  {
    BeforeCharConcat(x, [], c);
    assert x + [] == x;
  }

  /** The fragment of an href plays no part in the resolved URL. */
  lemma {:induction false} AbsoluteUrlDropsFragment(base: Url, h: string, frag: string)
    requires h != [] && '#' !in h
    ensures AbsoluteUrl(base, h + "#" + frag) == AbsoluteUrl(base, h)
  {
    assert h + "#" + frag == h + ("#" + frag);
    BeforeCharConcat(h, "#" + frag, '#');
    BeforeCharFree(h, '#');
    assert (h + "#" + frag)[0] == h[0];
  }

  /** A fragment-free href is resolved as it stands. */
  lemma {:induction false} AbsoluteUrlFragmentFree(base: Url, h: string)
    requires h != [] && '#' !in h
    ensures AbsoluteUrl(base, h) == ResolveRef(base, h)
  {
    BeforeCharFree(h, '#');
    assert h[0] != '#';
  }

  /** An https origin has the scheme "https". */
  lemma {:induction false} HttpsScheme(base: Url)
    requires HasPrefix(base.origin, "https://")
    ensures SchemeOf(base) == "https"
  {
    var o := base.origin;
    assert o[..8] == "https://";
    assert o[0] == 'h' && o[1] == 't' && o[2] == 't' && o[3] == 'p' && o[4] == 's' && o[5] == ':';
    assert SchemeEndFrom(o, 5) == Some(5);
    assert SchemeEndFrom(o, 4) == Some(5);
    assert SchemeEndFrom(o, 3) == Some(5);
    assert SchemeEndFrom(o, 2) == Some(5);
    assert SchemeEndFrom(o, 1) == Some(5);
    assert SchemeEnd(o) == Some(5);
    assert o[..5] == "https";
  }

  /** A network-path reference keeps its text after the base's scheme. */
  lemma {:induction false} ResolveNetworkPath(base: Url, h: string)
    requires NetworkPath(h)
    ensures ResolveRef(base, h) == if SchemeOf(base) == [] then h else SchemeOf(base) + ":" + h
  {
    assert h[0] == '/';
    var p := BeforeChar(h, '?');
    assert p != [] && p[0] == '/';
  }

  /** "//host/path" resolves against an https page to "https://host/path". */
  lemma {:induction false} NetworkPathTakesScheme(base: Url, rest: string)
    requires HasPrefix(base.origin, "https://")
    requires '#' !in rest && (rest == [] || rest[0] != '/')
    ensures AbsoluteUrl(base, "//" + rest) == "https://" + rest
  {
    var h := "//" + rest;
    assert NetworkPath(h) && '#' !in h by {
      assert h[..2] == "//";
      assert h[2..] == rest;
    }
    AbsoluteUrlFragmentFree(base, h);
    ResolveNetworkPath(base, h);
    HttpsScheme(base);
    SchemeJoin(rest);
  }

  /** "https" + ":" + "//" + rest spells "https://" + rest. */
  lemma SchemeJoin(rest: string)
    ensures "https" + ":" + ("//" + rest) == "https://" + rest
  {
    assert "https" + ":" + "//" == "https://";
  }

  /** A host-absolute href is resolved against the base's origin even when its query holds
      another URL: the scheme test stops at the first "/". */
  lemma {:induction false} HostPathIsRelative(base: Url, h: string)
    requires h != [] && h[0] == '/' && '#' !in h && !NetworkPath(h)
    ensures AbsoluteUrl(base, h) == base.origin + h
  {
    AbsoluteUrlFragmentFree(base, h);
    var p := BeforeChar(h, '?');
    assert p == [] || p[0] == '/';
    assert !RefusedRef(h);
  }

  /** A relative reference whose first segment holds a ':' is refused, and gives "". */
  lemma {:induction false} ColonSegmentRefused(base: Url, a: string, b: string)
    requires a != [] && !SchemeLetter(a[0]) && a[0] != '/' && a[0] != '?' && a[0] != '#'
    requires '/' !in a && '?' !in a && '#' !in a && '#' !in b && '?' !in b
    ensures AbsoluteUrl(base, a + ":" + b) == ""
  {
    var h := a + ":" + b;
    assert h == a + (":" + b);
    BeforeCharFree(h, '#');
    BeforeCharFree(h, '?');
    BeforeCharConcat(a, ":" + b, '/');
    assert (":" + b)[0] == ':';
    assert BeforeChar(":" + b, '/') == [':'] + BeforeChar(b, '/');
    assert ':' in BeforeChar(h, '/') by {
      assert BeforeChar(h, '/')[|a|] == ':';
    }
    assert h[0] == a[0];
  }

  /** url.Values restricted to one value per key, which is all the engines ever store. */
  type Values = map<string, string>

  /** Values.Get, with the absent case made explicit. */
  function Get(v: Values, k: string): Option<string> {
    if k in v then Some(v[k]) else None
  }

  /** Values.Set: the key's only value becomes `x`. */
  function Set(v: Values, k: string, x: string): Values {
    v[k := x]
  }

  /** Set stores the value under its key and leaves every other key as it was. */
  lemma SetThenGet(v: Values, k: string, x: string)
    ensures Get(Set(v, k, x), k) == Some(x)
    ensures forall k' :: k' != k ==> Get(Set(v, k, x), k') == Get(v, k')
  {
  }

  /** `m` comes before every other key of `ks`. */
  predicate IsLeast(m: string, ks: set<string>) {
    m in ks && forall k :: k in ks && k != m ==> LexLess(m, k)
  }

  lemma {:induction false} LeastExists(ks: set<string>)
    requires ks != {}
    ensures exists m :: IsLeast(m, ks)
    decreases |ks|
  {
    var x :| x in ks;
    if ks == {x} {
      assert IsLeast(x, ks);
    } else {
      var rest := ks - {x};
      LeastExists(rest);
      var m :| IsLeast(m, rest);
      LexLessTotal(x, m);
      if LexLess(x, m) {
        forall k | k in ks && k != x ensures LexLess(x, k) {
          if k != m { LexLessTransitive(x, m, k); }
        }
        assert IsLeast(x, ks);
      } else {
        assert IsLeast(m, ks);
      }
    }
  }

  lemma LeastUnique(ks: set<string>)
    ensures forall m, m' :: IsLeast(m, ks) && IsLeast(m', ks) ==> m == m'
  {
    forall m, m' | IsLeast(m, ks) && IsLeast(m', ks) ensures m == m' {
      if m != m' {
        LexLessTransitive(m, m', m);
        LexLessIrreflexive(m);
      }
    }
  }

  /** The smallest key of a non-empty key set. */
  function LeastKey(ks: set<string>): (m: string)
    requires ks != {}
    ensures IsLeast(m, ks)
  {
    LeastExists(ks);
    LeastUnique(ks);
    var m :| IsLeast(m, ks);
    m
  }

  /** The keys in increasing order, as Encode sorts them. */
  function SortedKeyList(ks: set<string>): (r: seq<string>)
    ensures forall k :: k in r <==> k in ks
    ensures forall i, j :: 0 <= i < j < |r| ==> LexLess(r[i], r[j])
    decreases |ks|
  {
    if ks == {} then []
    else
      var m := LeastKey(ks);
      var t := SortedKeyList(ks - {m});
      assert forall j :: 0 <= j < |t| ==> t[j] in ks - {m};
      [m] + t
  }

  /** Values.Encode: "key=value" pairs, both escaped, in key order and joined by "&". */
  function Encode(v: Values): string {
    EncodePairs(v, SortedKeyList(v.Keys))
  }

  function EncodePairs(v: Values, ks: seq<string>): string
    requires forall k :: k in ks ==> k in v
  {
    if ks == [] then ""
    else if |ks| == 1 then QueryEscape(ks[0]) + "=" + QueryEscape(v[ks[0]])
    else QueryEscape(ks[0]) + "=" + QueryEscape(v[ks[0]]) + "&" + EncodePairs(v, ks[1..])
  }

  /** The key list of a two-key map, in order. */
  lemma SortedTwo(a: string, b: string)
    requires LexLess(a, b)
    ensures SortedKeyList({a, b}) == [a, b]
  {
    LexLessIrreflexive(a);
    LeastUnique({a, b});
    assert IsLeast(a, {a, b});
    assert LeastKey({a, b}) == a;
    assert {a, b} - {a} == {b};
    assert IsLeast(b, {b});
    LeastUnique({b});
    assert LeastKey({b}) == b;
    assert {b} - {b} == {};
    assert SortedKeyList({b}) == [b] + SortedKeyList({});
    assert SortedKeyList({a, b}) == [a] + SortedKeyList({b});
  }

  /** Two listed keys are encoded in the order listed. */
  lemma EncodePairsTwo(v: Values, a: string, b: string)
    requires a in v && b in v
    ensures EncodePairs(v, [a, b]) == QueryEscape(a) + "=" + QueryEscape(v[a]) + "&" + QueryEscape(b) + "=" + QueryEscape(v[b])
  {
    assert [a, b][1..] == [b];
    var x := QueryEscape(a) + "=" + QueryEscape(v[a]) + "&";
    assert EncodePairs(v, [a, b]) == x + (QueryEscape(b) + "=" + QueryEscape(v[b]));
    ConcatAssoc(x, QueryEscape(b) + "=", QueryEscape(v[b]));
    ConcatAssoc(x, QueryEscape(b), "=");
  }

  /** A two-key map is encoded in key order. */
  lemma EncodeSortedTwo(a: string, x: string, b: string, y: string)
    requires LexLess(a, b)
    ensures Encode(map[a := x, b := y]) == EncodePairs(map[a := x, b := y], [a, b])
  {
    LexLessIrreflexive(a);
    assert map[a := x, b := y].Keys == {a, b};
    SortedTwo(a, b);
  }

  /** Two keys are encoded in their order, whichever was set first. */
  lemma EncodeTwo(a: string, x: string, b: string, y: string)
    requires LexLess(a, b)
    ensures Encode(map[a := x, b := y]) == QueryEscape(a) + "=" + QueryEscape(x) + "&" + QueryEscape(b) + "=" + QueryEscape(y)
    ensures map[a := x, b := y] == map[b := y, a := x]
  {
    LexLessIrreflexive(a);
    EncodeSortedTwo(a, x, b, y);
    EncodePairsTwo(map[a := x, b := y], a, b);
  }

  /** Two keys of unreserved characters are written as they are. */
  lemma EncodeTwoPlainKeys(a: string, x: string, b: string, y: string)
    requires LexLess(a, b)
    requires forall i :: 0 <= i < |a| ==> Unreserved(a[i])
    requires forall i :: 0 <= i < |b| ==> Unreserved(b[i])
    ensures Encode(map[a := x, b := y]) == a + "=" + QueryEscape(x) + "&" + b + "=" + QueryEscape(y)
    ensures map[a := x, b := y] == map[b := y, a := x]
  {
    EncodeTwo(a, x, b, y);
    EscapeUnreserved(a);
    EscapeUnreserved(b);
  }

  /** Two keys and the first value of unreserved characters are written as they are. */
  lemma EncodeTwoPlainFirst(a: string, x: string, b: string, y: string)
    requires LexLess(a, b)
    requires forall i :: 0 <= i < |a| ==> Unreserved(a[i])
    requires forall i :: 0 <= i < |x| ==> Unreserved(x[i])
    requires forall i :: 0 <= i < |b| ==> Unreserved(b[i])
    ensures Encode(map[a := x, b := y]) == a + "=" + x + "&" + b + "=" + QueryEscape(y)
    ensures map[a := x, b := y] == map[b := y, a := x]
  {
    EncodeTwoPlainKeys(a, x, b, y);
    EscapeUnreserved(x);
  }

  /** Two keys and the second value of unreserved characters are written as they are. */
  lemma EncodeTwoPlainSecond(a: string, x: string, b: string, y: string)
    requires LexLess(a, b)
    requires forall i :: 0 <= i < |a| ==> Unreserved(a[i])
    requires forall i :: 0 <= i < |b| ==> Unreserved(b[i])
    requires forall i :: 0 <= i < |y| ==> Unreserved(y[i])
    ensures Encode(map[a := x, b := y]) == a + "=" + QueryEscape(x) + "&" + b + "=" + y
    ensures map[a := x, b := y] == map[b := y, a := x]
  {
    EncodeTwoPlainKeys(a, x, b, y);
    EscapeUnreserved(y);
  }
}
