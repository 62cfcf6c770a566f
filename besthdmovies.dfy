/** The BestHDMovies adapter (engine/besthdmovies.go): fixed listing selectors, the per-item
    rules, the five detail callbacks that follow a movie from its post through the freeload
    and zeefiles mirrors to the final video, the form fields they collect and submit, and the
    URL building of List and Search. */
module BestHDMovies {
  import opened Wrappers
  import opened Text
  import opened Urls
  import opened Types
  import opened Patterns
  import opened Props
  import opened Engines
  import Paths

  const Name: string := "BestHDMovies"
  const Base: string := "https://www.besthdmovies.top/"
  const Description: string :=
    "BestHDMovies is a site where you can find high quality Hollywood and Bollywood mkv movies"

  /** NewBestHDEngine: the search URL is the parsed base URL with the base's own path "/". */
  method New() returns (e: Props)
    ensures fresh(e) && e.Valid()
    ensures e.name == Name && e.description == Description && e.mode == SearchMode
    ensures e.baseURL == ParseUrl(Base) && e.searchURL == ParseUrl(Base).(path := "/")
    ensures e.listURL == ParseUrl(Base).(path := "/new-hd-movies/")
    ensures e.searchQuery == map[] && e.listQuery == map[]
  {
    e := new Props(Name, Description, Base, "/", "/new-hd-movies/");
  }

  /** getParseAttrs: the same selectors in every mode, and never an error. */
  function ParseAttrs(mode: Mode): (r: Result<(string, string)>)
    ensures r == Ok(("body", "article.latestPost"))
  {
    Ok(("body", "article.latestPost"))
  }

  // ------------------------------------------------------------------ one listing item

  /** What parseSingleMovie needs not to panic: an upload time. */
  predicate Parsable(el: Element) {
    |ChildTexts(el, "span.thetime")| >= 1
  }

  /** The download link: the post's href with its path joined onto the base URL's path. */
  function PostLink(basePath: string, href: string): (u: Url)
    ensures u == ParseUrl(href).(path := Paths.Join([basePath, ParseUrl(href).path]))
  {
    var link := ParseUrl(href);
    link.(path := Paths.Join([basePath, link.path]))
  }

  /** Under the root path "/" a post path "/<segment>" is kept as it is. */
  lemma PostPathAtRoot(w: string)
    requires Paths.IsRelativeSegment(w)
    ensures Paths.Join(["/", "/" + w]) == "/" + w
  {
    Paths.JoinBufferPair("/", "/" + w);
    assert "/" + "/" + ("/" + w) == "///" + w;
    Paths.CollapseAppend("///", w);
    assert "///"[1..] == "//" && "//"[1..] == "/";
    assert Paths.Collapse("///") == "/";
    var c := "/" + w;
    assert c[|c| - 1] == w[|w| - 1];
  }

  /** parseSingleMovie: a movie, not a series, with the first number of its categories as the
      year, the first upload time, and the post link under the base path. */
  function ParseSingleMovie(basePath: string, el: Element, index: int): (m: Movie)
    requires Parsable(el)
    ensures m.index == index && !m.isSeries && m.source == Name
    ensures m.coverPhotoLink == AbsoluteUrl(el.request, ChildAttr(el, "img", "src"))
    ensures m.year == FirstNumber(ChildText(el, "div.categories"))
    ensures m.uploadDate == ChildTexts(el, "span.thetime")[0]
    ensures m.title == ChildAttr(el, "a", "title") && m.description == ""
    ensures m.downloadLink == PostLink(basePath, ChildAttr(el, "a", "href"))
    ensures m.size == "" && m.sDownloadLink == map[]
  {
    ChildTextsTrimmed(el, "span.thetime");
    TrimSpaceOfTrimmed(ChildTexts(el, "span.thetime")[0]);
    TrimSpaceOfTrimmed(ChildAttr(el, "a", "title"));
    EmptyMovie.(index := index, source := Name,
                coverPhotoLink := UrlString(ParseUrl(AbsoluteUrl(el.request, ChildAttr(el, "img", "src")))),
                year := FirstNumber(ChildText(el, "div.categories")),
                uploadDate := TrimSpace(ChildTexts(el, "span.thetime")[0]),
                title := TrimSpace(ChildAttr(el, "a", "title")),
                downloadLink := PostLink(basePath, ChildAttr(el, "a", "href")))
  }

  /** The parser Scrape's discovery loop calls, for an engine whose base URL has this path. An
      item parseSingleMovie would panic on yields nothing here; DiscoversEveryItem speaks
      only of listings without such items. */
  function Parser(basePath: string): (Element, int) -> Option<Movie> {
    (el: Element, i: int) => if Parsable(el) then Some(ParseSingleMovie(basePath, el, i)) else None
  }

  /** Discovery with this parser keeps every listing item, each under its own ordinal. */
  lemma DiscoversEveryItem(basePath: string, items: seq<Element>, start: int)
    requires forall j :: 0 <= j < |items| ==> Parsable(items[j])
    ensures KeepsIndex(Parser(basePath))
    ensures |Parsed(items, Parser(basePath), start)| == |items|
    ensures forall j :: 0 <= j < |items| ==> Parsed(items, Parser(basePath), start)[j].index == start + j
  {
    ParsedAll(items, Parser(basePath), start);
    ParsedOrdinals(items, Parser(basePath), start);
  }

  // ------------------------------------------------------------------ follow-up requests

  /** The collector visits of a list of links, each with a fresh context (CollectorVisit). */
  function Visits(urls: seq<string>): (r: seq<Request>)
    ensures |r| == |urls|
    ensures forall i :: 0 <= i < |urls| ==> r[i] == CollectorVisit(urls[i])
  {
    seq(|urls|, i requires 0 <= i < |urls| => CollectorVisit(urls[i]))
  }

  /** A collector POST of form fields to a URL: a request with a fresh context, as a visit is. */
  datatype Submission = Submission(request: Request, form: map<string, string>)

  // ------------------------------------------------------------------ the post page

  const SizeLabel: string := "File Size: "
  const Freeload: string := "https://freeload"

  /** Go's `a >= b` on strings. */
  predicate AtLeast(a: string, b: string) {
    !LexLess(a, b)
  }

  /** The description: the larger (in Go's string order) of the third-last and second-last
      paragraphs, trimmed. */
  function PostDescription(ptags: seq<string>): (r: string)
    requires |ptags| >= 3
    ensures r == TrimSpace(ptags[|ptags| - 3]) || r == TrimSpace(ptags[|ptags| - 2])
  {
    var n := |ptags|;
    if AtLeast(ptags[n - 3], ptags[n - 2]) then TrimSpace(ptags[n - 3]) else TrimSpace(ptags[n - 2])
  }

  /** For trimmed paragraphs the description is one of the two and no smaller than either. */
  lemma PostDescriptionIsLarger(ptags: seq<string>)
    requires |ptags| >= 3 && forall j :: 0 <= j < |ptags| ==> IsTrimmed(ptags[j])
    ensures var a, b := ptags[|ptags| - 3], ptags[|ptags| - 2];
      var r := PostDescription(ptags); (r == a || r == b) && AtLeast(r, a) && AtLeast(r, b)
  {
    var a, b := ptags[|ptags| - 3], ptags[|ptags| - 2];
    TrimSpaceOfTrimmed(a);
    TrimSpaceOfTrimmed(b);
    LexLessIrreflexive(a);
    LexLessIrreflexive(b);
    if LexLess(a, b) && LexLess(b, a) {
      LexLessTransitive(a, b, a);
    }
  }

  /** The size: the last paragraph that starts with "File Size: ", without that prefix. */
  function PostSize(ptags: seq<string>, current: string): (r: string)
    ensures LastPrefixed(ptags, SizeLabel).None? ==> r == current
    ensures LastPrefixed(ptags, SizeLabel).Some? ==> SizeLabel + r == LastPrefixed(ptags, SizeLabel).value
  {
    match LastPrefixed(ptags, SizeLabel)
    case Some(x) =>
      assert x == SizeLabel + x[|SizeLabel|..];
      TrimPrefix(x, SizeLabel)
    case None => current
  }

  /** The download link: the last freeload link. */
  function LastFreeload(links: seq<string>, current: Url): (u: Url)
    ensures LastPrefixed(links, Freeload).None? ==> u == current
    ensures LastPrefixed(links, Freeload).Some? ==> UrlString(u) == LastPrefixed(links, Freeload).value
  {
    match LastPrefixed(links, Freeload)
    case Some(l) => ParseUrl(l)
    case None => current
  }

  /** The `div.post-single-content` callback's effect. */
  function PostDetails(m: Movie, e: Element): (r: Movie)
    requires |ChildTexts(e, "p")| >= 3
    ensures r == m.(description := r.description, size := r.size, downloadLink := r.downloadLink)
  {
    m.(description := PostDescription(ChildTexts(e, "p")),
       size := PostSize(ChildTexts(e, "p"), m.size),
       downloadLink := LastFreeload(ChildAttrs(e, "a", "href"), m.downloadLink))
  }

  /** The loop over the paragraphs. */
  method SizeLoop(ptags: seq<string>, current: string) returns (size: string)
    ensures size == PostSize(ptags, current)
  {
    size := current;
    var i := 0;
    while i < |ptags|
      invariant 0 <= i <= |ptags|
      invariant size == PostSize(ptags[..i], current)
    {
      SizeStep(ptags, i, current);
      if HasPrefix(ptags[i], SizeLabel) {
        size := TrimPrefix(ptags[i], SizeLabel);
      }
      i := i + 1;
    }
    WholeSlice(ptags);
  }

  /** One more paragraph: a size paragraph gives the size. */
  lemma SizeStep(ptags: seq<string>, i: int, current: string)
    requires 0 <= i < |ptags|
    ensures PostSize(ptags[..i + 1], current) ==
      if HasPrefix(ptags[i], SizeLabel) then TrimPrefix(ptags[i], SizeLabel) else PostSize(ptags[..i], current)
  {
    PrefixSnoc(ptags, i);
    PrefixedSnoc(ptags[..i], ptags[i], SizeLabel);
  }

  /** One more link: a freeload link becomes the download link and adds its visit. */
  lemma FreeloadStep(links: seq<string>, i: int, current: Url)
    requires 0 <= i < |links|
    ensures LastFreeload(links[..i + 1], current) ==
      if HasPrefix(links[i], Freeload) then ParseUrl(links[i]) else LastFreeload(links[..i], current)
    ensures Visits(Prefixed(links[..i + 1], Freeload)) ==
      Visits(Prefixed(links[..i], Freeload))
      + (if HasPrefix(links[i], Freeload) then [CollectorVisit(UrlString(ParseUrl(links[i])))] else [])
  {
    PrefixSnoc(links, i);
    PrefixedSnoc(links[..i], links[i], Freeload);
  }

  /** The loop over the links: every freeload link becomes the download link and is visited. */
  method FreeloadLoop(links: seq<string>, current: Url) returns (link: Url, visits: seq<Request>)
    ensures link == LastFreeload(links, current)
    ensures visits == Visits(Prefixed(links, Freeload))
  {
    link := current;
    visits := [];
    var i := 0;
    while i < |links|
      invariant 0 <= i <= |links|
      invariant link == LastFreeload(links[..i], current)
      invariant visits == Visits(Prefixed(links[..i], Freeload))
    {
      FreeloadStep(links, i, current);
      if HasPrefix(links[i], Freeload) {
        link := ParseUrl(links[i]);
        visits := visits + [CollectorVisit(UrlString(link))];
      }
      i := i + 1;
    }
    WholeSlice(links);
  }

  /** The `div.post-single-content` callback on the movie its request belongs to; at least
      three paragraphs are needed. The returned requests visit every freeload link. */
  method OnPost(t: Scraped, ctx: string, e: Element) returns (visits: seq<Request>)
    requires t.Valid() && t.HasEntry(ctx) && |ChildTexts(e, "p")| >= 3
    modifies t
    ensures t.Valid() && t.next == old(t.next)
    ensures var k := EntryKey(ctx); t.movies == old(t.movies)[k := PostDetails(old(t.movies)[k], e)]
    ensures visits == Visits(Prefixed(ChildAttrs(e, "a", "href"), Freeload))
  {
    var key := EntryKey(ctx);
    var movie := t.movies[key];
    var ptags := ChildTexts(e, "p");
    movie := movie.(description := PostDescription(ptags));
    var size := SizeLoop(ptags, movie.size);
    movie := movie.(size := size);
    var link;
    link, visits := FreeloadLoop(ChildAttrs(e, "a", "href"), movie.downloadLink);
    movie := movie.(downloadLink := link);
    t.Update(key, movie);
  }

  // ------------------------------------------------------------------ the freeload page

  const Zee: string := "zeefiles"
  const ZeeHttps: string := "https://" + Zee
  const ZeeHttp: string := "http://" + Zee

  predicate IsZeeLink(l: string) {
    HasPrefix(l, ZeeHttps) || HasPrefix(l, ZeeHttp)
  }

  /** "http://" rewritten to "https://". */
  function ToHttps(l: string): (r: string)
    ensures HasPrefix(l, "http://") ==> r == "https://" + l[7..]
    ensures !HasPrefix(l, "http://") ==> r == l
  {
    if HasPrefix(l, "http://") then "https://" + TrimPrefix(l, "http://") else l
  }

  /** The zeefiles links in order, each rewritten to https. */
  function ZeeLinks(links: seq<string>): (r: seq<string>)
    ensures |r| <= |links|
    ensures forall k :: 0 <= k < |r| ==> HasPrefix(r[k], ZeeHttps)
  {
    ZeeLinksAllHttps(links, |links|);
    ZeeLinksUpTo(links, |links|)
  }

  /** The rewritten zeefiles links among the first `n`. */
  function ZeeLinksUpTo(links: seq<string>, n: nat): (r: seq<string>)
    requires n <= |links|
    ensures |r| <= n
  {
    if n == 0 then []
    else
      var l := links[n - 1];
      ZeeLinksUpTo(links, n - 1) + (if IsZeeLink(l) then [ToHttps(l)] else [])
  }

  lemma {:induction false} ZeeLinksAllHttps(links: seq<string>, n: nat)
    requires n <= |links|
    ensures forall k :: 0 <= k < |ZeeLinksUpTo(links, n)| ==> HasPrefix(ZeeLinksUpTo(links, n)[k], ZeeHttps)
  {
    if n > 0 {
      ZeeLinksAllHttps(links, n - 1);
      ZeeHttpsOf(links[n - 1]);
    }
  }

  /** A zeefiles link is https after the rewrite. */
  lemma ZeeHttpsOf(l: string)
    ensures IsZeeLink(l) ==> HasPrefix(ToHttps(l), ZeeHttps)
  {
    if HasPrefix(l, ZeeHttp) {
      HasPrefixRest(l, "http://", Zee);
      assert HasPrefix(l, "http://") by { assert l[..7] == ZeeHttp[..7]; }
      HasPrefixConcat("https://", l[7..], Zee);
    } else if HasPrefix(l, ZeeHttps) {
      assert !HasPrefix(l, "http://") by { assert l[4] == ZeeHttps[4]; }
    }
  }

  /** The download link after the loop: the last rewritten zeefiles link. */
  function LastZee(links: seq<string>, current: Url): (u: Url)
    ensures var z := ZeeLinks(links); (z == [] ==> u == current) && (z != [] ==> UrlString(u) == z[|z| - 1])
  {
    LastOf(ZeeLinks(links), current)
  }

  /** The URL of the last link of `z`, or `current` when there is none. */
  function LastOf(z: seq<string>, current: Url): Url {
    if z == [] then current else ParseUrl(z[|z| - 1])
  }

  /** One more request at the end of the visits. */
  lemma VisitsSnoc(urls: seq<string>, x: string)
    ensures Visits(urls + [x]) == Visits(urls) + [CollectorVisit(x)]
  {
    var a, b := Visits(urls + [x]), Visits(urls) + [CollectorVisit(x)];
    forall i | 0 <= i < |a| ensures a[i] == b[i] {
      if i < |urls| {
        assert (urls + [x])[i] == urls[i];
      }
    }
  }

  /** One zeefiles link more: it becomes the last link and one more visit. */
  lemma ZeeSnoc(z: seq<string>, x: string, current: Url)
    ensures LastOf(z + [x], current) == ParseUrl(x)
    ensures Visits(z + [x]) == Visits(z) + [CollectorVisit(UrlString(ParseUrl(x)))]
  {
    VisitsSnoc(z, x);
  }

  /** The links up to `i + 1` are those up to `i` and the rewritten link `i` when it is a
      zeefiles link. */
  lemma ZeeUpToStep(links: seq<string>, i: nat)
    requires i < |links|
    ensures ZeeLinksUpTo(links, i + 1)
            == ZeeLinksUpTo(links, i) + (if IsZeeLink(links[i]) then [ToHttps(links[i])] else [])
  {
  }

  /** The loop over the links of `div.content-area`: every zeefiles link, rewritten to https,
      becomes the download link and is visited. */
  method ZeeLoop(links: seq<string>, current: Url) returns (link: Url, visits: seq<Request>)
    ensures link == LastZee(links, current)
    ensures visits == Visits(ZeeLinks(links))
  {
    link := current;
    visits := [];
    ghost var z: seq<string> := [];
    var i := 0;
    while i < |links|
      invariant 0 <= i <= |links|
      invariant z == ZeeLinksUpTo(links, i)
      invariant link == LastOf(z, current)
      invariant visits == Visits(z)
    {
      var l := links[i];
      ZeeUpToStep(links, i);
      if HasPrefix(l, ZeeHttps) || HasPrefix(l, ZeeHttp) {
        if HasPrefix(l, "http://") {
          l := "https://" + TrimPrefix(l, "http://");
        }
        assert l == ToHttps(links[i]);
        ZeeSnoc(z, l, current);
        link := ParseUrl(l);
        visits := visits + [CollectorVisit(UrlString(link))];
        z := z + [l];
      } else {
        assert z + [] == z;
      }
      i := i + 1;
    }
  }

  /** The `div.content-area` callback on the movie its request belongs to; the returned
      requests visit every zeefiles link. */
  method OnContentArea(t: Scraped, ctx: string, e: Element) returns (visits: seq<Request>)
    requires t.Valid() && t.HasEntry(ctx)
    modifies t
    ensures t.Valid() && t.next == old(t.next)
    ensures var k := EntryKey(ctx);
      t.movies == old(t.movies)[k := old(t.movies)[k].(downloadLink := LastZee(ChildAttrs(e, "a", "href"), old(t.movies)[k].downloadLink))]
    ensures visits == Visits(ZeeLinks(ChildAttrs(e, "a", "href")))
  {
    var key := EntryKey(ctx);
    var movie := t.movies[key];
    var link;
    link, visits := ZeeLoop(ChildAttrs(e, "a", "href"), movie.downloadLink);
    t.Update(key, movie.(downloadLink := link));
  }

  // ------------------------------------------------------------------ form fields

  /** The map after the loop `m[names[i]] = values[i]` over every name. */
  function FormOf(names: seq<string>, values: seq<string>, m: map<string, string>): map<string, string>
    requires |names| <= |values|
  {
    if names == [] then m
    else
      var n := |names| - 1;
      FormOf(names[..n], values, m)[names[n] := values[n]]
  }

  /** The fields are the earlier ones and every name. */
  lemma {:induction false} FormOfKeys(names: seq<string>, values: seq<string>, m: map<string, string>)
    requires |names| <= |values|
    ensures FormOf(names, values, m).Keys == m.Keys + set i | 0 <= i < |names| :: names[i]
  {
    if names != [] {
      var n := |names| - 1;
      FormOfKeys(names[..n], values, m);
      assert (set i | 0 <= i < |names| :: names[i]) == (set i | 0 <= i < n :: names[..n][i]) + {names[n]};
    }
  }

  /** One more name sets its field to the value beside it. */
  lemma FormStep(names: seq<string>, values: seq<string>, m: map<string, string>, i: int)
    requires |names| <= |values| && 0 <= i < |names|
    ensures FormOf(names[..i + 1], values, m) == FormOf(names[..i], values, m)[names[i] := values[i]]
  {
    PrefixOfLonger(names, i);
  }

  /** The last position of `k` among the names. */
  function LastName(names: seq<string>, k: string): (r: Option<nat>)
    ensures r.Some? ==> r.value < |names| && names[r.value] == k
    ensures r.Some? ==> forall j :: r.value < j < |names| ==> names[j] != k
    ensures r.None? ==> forall j :: 0 <= j < |names| ==> names[j] != k
  {
    if names == [] then None
    else if names[|names| - 1] == k then Some(|names| - 1)
    else LastName(names[..|names| - 1], k)
  }

  /** Each field holds the value next to its last name, or its earlier value when no name
      matches. */
  lemma {:induction false} FormValue(names: seq<string>, values: seq<string>, m: map<string, string>, k: string)
    requires |names| <= |values| && k in FormOf(names, values, m)
    ensures LastName(names, k).Some? ==> FormOf(names, values, m)[k] == values[LastName(names, k).value]
    ensures LastName(names, k).None? ==> k in m && FormOf(names, values, m)[k] == m[k]
  {
    if names != [] {
      var n := |names| - 1;
      if names[n] != k {
        FormValue(names[..n], values, m, k);
      }
    }
  }

  /** The loop that fills a form map. */
  method FormLoop(names: seq<string>, values: seq<string>, m0: map<string, string>) returns (m: map<string, string>)
    requires |names| <= |values|
    ensures m == FormOf(names, values, m0)
  {
    m := m0;
    var i := 0;
    while i < |names|
      invariant 0 <= i <= |names|
      invariant m == FormOf(names[..i], values, m0)
    {
      FormStep(names, values, m0, i);
      m := m[names[i] := values[i]];
      i := i + 1;
    }
    WholeSlice(names);
  }

  /** `submissionDetails`: one map shared by every form callback of a scrape, so fields seen on
      one movie's page stay for the forms of every later one. */
  class FormFields {
    var details: map<string, string>

    constructor ()
      ensures details == map[]
    {
      details := map[];
    }

    method Fill(names: seq<string>, values: seq<string>)
      requires |names| <= |values|
      modifies this
      ensures details == FormOf(names, values, old(details))
    {
      details := FormLoop(names, values, details);
    }
  }

  // ------------------------------------------------------------------ the zeefiles page

  /** The `div.freeDownload` callback's effect on the movie: a non-empty button link becomes
      the download link; otherwise the movie stays as it is. */
  function FreeDownloadDetails(m: Movie, e: Element): (r: Movie)
    ensures ChildAttr(e, "a.link_button", "href") != "" ==>
      r == m.(downloadLink := r.downloadLink) && UrlString(r.downloadLink) == ChildAttr(e, "a.link_button", "href")
    ensures ChildAttr(e, "a.link_button", "href") == "" ==> r == m
  {
    var button := ChildAttr(e, "a.link_button", "href");
    if button != "" then m.(downloadLink := ParseUrl(button)) else m
  }

  /** The `div.freeDownload` callback on the movie its request belongs to. Without a button
      link the page's own inputs are posted to the movie's download link; a value is needed
      for every input name. */
  method OnFreeDownload(t: Scraped, ctx: string, e: Element) returns (post: Option<Submission>)
    requires t.Valid() && t.HasEntry(ctx)
    requires ChildAttr(e, "a.link_button", "href") == "" ==> |ChildAttrs(e, "input", "name")| <= |ChildAttrs(e, "input", "value")|
    modifies t
    ensures t.Valid() && t.next == old(t.next)
    ensures var k := EntryKey(ctx); t.movies == old(t.movies)[k := FreeDownloadDetails(old(t.movies)[k], e)]
    ensures ChildAttr(e, "a.link_button", "href") != "" ==> post.None?
    ensures ChildAttr(e, "a.link_button", "href") == "" ==>
      post == Some(Submission(CollectorVisit(UrlString(old(t.movies)[EntryKey(ctx)].downloadLink)),
                              FormOf(ChildAttrs(e, "input", "name"), ChildAttrs(e, "input", "value"), map[])))
  {
    var key := EntryKey(ctx);
    var movie := t.movies[key];
    var button := ChildAttr(e, "a.link_button", "href");
    if button != "" {
      t.Update(key, movie.(downloadLink := ParseUrl(button)));
      post := None;
    } else {
      var zeesubmission := FormLoop(ChildAttrs(e, "input", "name"), ChildAttrs(e, "input", "value"), map[]);
      post := Some(Submission(CollectorVisit(UrlString(movie.downloadLink)), zeesubmission));
      t.Update(key, movie);
    }
  }

  // ------------------------------------------------------------------ the download form

  const Udown: string := "https://udown.me/watchonline/?movieIndex="

  /** The udown link for a page that is not on zeefiles. */
  function FormLink(ctx: string, requestUrl: string, current: Url): (u: Url)
    requires Atoi(ctx).ok
    ensures IsZeeLink(requestUrl) ==> u == current
    ensures !IsZeeLink(requestUrl) ==> UrlString(u) == Udown + Itoa(MovieIndexFromCtx(ctx))
  {
    if IsZeeLink(requestUrl) then current else ParseUrl(Udown + Itoa(MovieIndexFromCtx(ctx)))
  }

  /** The udown link carries the movie's own ordinal. */
  lemma FormLinkNamesMovie(t: Scraped, ctx: string, requestUrl: string, current: Url)
    requires t.Valid() && t.HasEntry(ctx) && !IsZeeLink(requestUrl)
    ensures UrlString(FormLink(ctx, requestUrl, current)) == Udown + Itoa(t.movies[EntryKey(ctx)].index)
  {
    CtxRoundTrip(MovieIndexFromCtx(ctx));
  }

  /** The `form[method=post]` callback: the inputs are added to the shared fields; on a page
      that is not on zeefiles the download link becomes the udown link and the shared fields
      are posted to it. */
  method OnForm(t: Scraped, fields: FormFields, ctx: string, e: Element) returns (post: Option<Submission>)
    requires t.Valid() && t.HasEntry(ctx)
    requires |ChildAttrs(e, "input", "name")| <= |ChildAttrs(e, "input", "value")|
    modifies t, fields
    ensures t.Valid() && t.next == old(t.next)
    ensures fields.details == FormOf(ChildAttrs(e, "input", "name"), ChildAttrs(e, "input", "value"), old(fields.details))
    ensures var k := EntryKey(ctx); var link := FormLink(ctx, UrlString(e.request), old(t.movies)[k].downloadLink);
      t.movies == old(t.movies)[k := old(t.movies)[k].(downloadLink := link)]
    ensures IsZeeLink(UrlString(e.request)) ==> post.None?
    ensures !IsZeeLink(UrlString(e.request)) ==>
      post == Some(Submission(CollectorVisit(Udown + Itoa(MovieIndexFromCtx(ctx))), fields.details))
  {
    var key := EntryKey(ctx);
    var movieIndex := MovieIndexFromCtx(ctx);
    var movie := t.movies[key];
    fields.Fill(ChildAttrs(e, "input", "name"), ChildAttrs(e, "input", "value"));
    var requestlink := UrlString(e.request);
    post := None;
    if !(HasPrefix(requestlink, ZeeHttps) || HasPrefix(requestlink, ZeeHttp)) {
      var downloadlink := ParseUrl(Udown + Itoa(movieIndex));
      movie := movie.(downloadLink := downloadlink);
      post := Some(Submission(CollectorVisit(UrlString(downloadlink)), fields.details));
    }
    t.Update(key, movie);
  }

  // ------------------------------------------------------------------ the video page

  /** The `video` callback's effect: the source's src becomes the download link. */
  function VideoDetails(m: Movie, e: Element): (r: Movie)
    ensures r == m.(downloadLink := r.downloadLink)
    ensures UrlString(r.downloadLink) == ChildAttr(e, "source", "src")
  {
    m.(downloadLink := ParseUrl(ChildAttr(e, "source", "src")))
  }

  method OnVideo(t: Scraped, ctx: string, e: Element)
    requires t.Valid() && t.HasEntry(ctx)
    modifies t
    ensures t.Valid() && t.next == old(t.next)
    ensures var k := EntryKey(ctx); t.movies == old(t.movies)[k := VideoDetails(old(t.movies)[k], e)]
  {
    t.Apply(ctx, (m: Movie) => VideoDetails(m, e));
  }

  // ------------------------------------------------------------------ List and Search

  /** List: ListMode, "page/N" joined onto the current list path, then a scrape. */
  method List(e: Props, page: int, scrape: Scraper) returns (r: SearchResult)
    requires e.Valid()
    modifies e
    ensures e.Valid() && e.mode == ListMode
    ensures e.listURL == old(e.listURL).(path := Paths.Join([old(e.listURL.path), PageSegment(page)]))
    ensures e.searchURL == old(e.searchURL) && e.searchQuery == old(e.searchQuery) && e.listQuery == old(e.listQuery)
    ensures r == SearchResult(RecentUploads(page), scrape(ListMode, e.listURL))
  {
    e.JoinListPath(PageSegment(page));
    r := SearchResult(RecentUploads(page), scrape(e.mode, e.ParseURL()));
  }

  /** Search: the query under "s". */
  method Search(e: Props, query: string, scrape: Scraper) returns (r: SearchResult)
    requires e.Valid()
    modifies e
    ensures e.Valid() && e.mode == SearchMode
    ensures e.searchQuery == Set(old(e.searchQuery), "s", query)
    ensures e.searchURL == old(e.searchURL).(rawQuery := Encode(e.searchQuery))
    ensures e.listURL == old(e.listURL) && e.listQuery == old(e.listQuery)
    ensures r == SearchResult(query, scrape(SearchMode, e.searchURL))
  {
    e.mode := SearchMode;
    e.SetSearchParam("s", query);
    r := SearchResult(query, scrape(e.mode, e.ParseURL()));
  }
}
