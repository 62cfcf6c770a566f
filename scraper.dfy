/** The legacy scrapers of pkg/scraper/scraper.go: the NetNaija search, which appends every
    titled result and refines the last appended movie from each response, and the TFPDL search,
    which records every listed item with its permalink page's entry. The servers reach the
    model as an input saying, for each visited URL, whether a response came back and, if so,
    its final URL and the callback hits it produces. */
module LegacyScraper {
  import opened Wrappers
  import opened Text
  import opened Types

  // ------------------------------------------------------------------ NetNaija

  /** NetNaijaMovie. */
  datatype NetNaijaMovie = NetNaijaMovie(
    index: int,
    title: string,
    pictureLink: string,
    description: string,
    downloadLink: string,
    sDownloadLink: seq<string>,
    size: string,
    series: bool)

  const SeriesPrefix: string := "https://www.thenetnaija.com/videos/series/"
  const DownloadSuffix: string := "/download"
  const UnknownSize: string := "Unknown"
  const DirectDownload: string := "Direct Download"

  /** One firing of a callback that getdownloadlink registers, with the element it matched. */
  datatype Hit =
    | SizeButton(e: Element)      // button[id=download-button]
    | DownloadAnchor(e: Element)  // a[id=download]
    | Row(e: Element)             // div.row
    | LatestEpisodes(e: Element)  // div.video-series-latest-episodes

  /** A row labelled "Direct Download", whose input holds the link. */
  predicate IsDirectRow(e: Element) {
    TrimSpace(ChildText(e, "label")) == DirectDownload
  }

  /** The episode links of a latest-episodes block: each anchor's href with "/download". */
  function Episodes(anchors: seq<Element>): seq<string> {
    if anchors == [] then []
    else Episodes(anchors[..|anchors| - 1]) + [Attr(anchors[|anchors| - 1], "href") + DownloadSuffix]
  }

  /** One link per anchor, in anchor order. */
  lemma {:induction false} EpisodesAt(anchors: seq<Element>)
    ensures |Episodes(anchors)| == |anchors|
    ensures forall i :: 0 <= i < |anchors| ==> Episodes(anchors)[i] == Attr(anchors[i], "href") + DownloadSuffix
  {
    if anchors != [] {
      var n := |anchors| - 1;
      EpisodesAt(anchors[..n]);
      forall i | 0 <= i < |anchors|
        ensures Episodes(anchors)[i] == Attr(anchors[i], "href") + DownloadSuffix
      {
        if i < n {
          assert anchors[..n][i] == anchors[i];
        }
      }
    }
  }

  /** The effect of one callback on the movie. */
  function OnHit(m: NetNaijaMovie, h: Hit): (r: NetNaijaMovie)
    ensures r.index == m.index && r.title == m.title
    ensures r.pictureLink == m.pictureLink && r.description == m.description
  {
    match h
    case SizeButton(e) => m.(size := TrimSpace(ChildText(e, "span.size")))
    case DownloadAnchor(e) =>
      m.(size := TrimSpace(ChildText(e, "span[id=download-size]")), downloadLink := Attr(e, "href"))
    case Row(e) => if IsDirectRow(e) then m.(downloadLink := ChildAttr(e, "input", "value")) else m
    case LatestEpisodes(e) => m.(series := true, sDownloadLink := m.sDownloadLink + Episodes(ForEach(e, "a")))
  }

  /** The movie after the callbacks, in firing order. */
  function AfterHits(m: NetNaijaMovie, hits: seq<Hit>): NetNaijaMovie {
    if hits == [] then m else OnHit(AfterHits(m, hits[..|hits| - 1]), hits[|hits| - 1])
  }

  /** Whether a hit sets the download link. */
  predicate SetsLink(h: Hit) {
    h.DownloadAnchor? || (h.Row? && IsDirectRow(h.e))
  }

  /** The episode links one callback appends. */
  function HitEpisodes(h: Hit): seq<string> {
    if h.LatestEpisodes? then Episodes(ForEach(h.e, "a")) else []
  }

  /** The episode links the hits append, in firing order. */
  function EpisodeLinks(hits: seq<Hit>): seq<string> {
    if hits == [] then [] else EpisodeLinks(hits[..|hits| - 1]) + HitEpisodes(hits[|hits| - 1])
  }

  lemma OnHitEpisodes(m: NetNaijaMovie, h: Hit)
    ensures OnHit(m, h).sDownloadLink == m.sDownloadLink + HitEpisodes(h)
  {
    if !h.LatestEpisodes? {
      assert m.sDownloadLink + [] == m.sDownloadLink;
    }
  }

  /** The callbacks never touch the index, the title, the picture or the description. */
  lemma {:induction false} AfterHitsKeeps(m: NetNaijaMovie, hits: seq<Hit>)
    ensures AfterHits(m, hits).index == m.index && AfterHits(m, hits).title == m.title
    ensures AfterHits(m, hits).pictureLink == m.pictureLink && AfterHits(m, hits).description == m.description
  {
    if hits != [] {
      AfterHitsKeeps(m, hits[..|hits| - 1]);
    }
  }

  /** Episode links are only ever appended: the earlier ones stay, in hit order. */
  lemma {:induction false} AfterHitsEpisodes(m: NetNaijaMovie, hits: seq<Hit>)
    ensures AfterHits(m, hits).sDownloadLink == m.sDownloadLink + EpisodeLinks(hits)
  {
    if hits != [] {
      var n := |hits| - 1;
      AfterHitsEpisodes(m, hits[..n]);
      OnHitEpisodes(AfterHits(m, hits[..n]), hits[n]);
      ConcatAssoc(m.sDownloadLink, EpisodeLinks(hits[..n]), HitEpisodes(hits[n]));
    }
  }

  /** The movie is a series afterwards exactly when it was one or a latest-episodes block
      fired. */
  lemma {:induction false} AfterHitsSeries(m: NetNaijaMovie, hits: seq<Hit>)
    ensures AfterHits(m, hits).series <==> m.series || exists i :: 0 <= i < |hits| && hits[i].LatestEpisodes?
  {
    if hits != [] {
      var n := |hits| - 1;
      AfterHitsSeries(m, hits[..n]);
      OnHitSeries(AfterHits(m, hits[..n]), hits[n]);
      PrefixHas(hits, n);
    }
  }

  lemma OnHitSeries(m: NetNaijaMovie, h: Hit)
    ensures OnHit(m, h).series == (m.series || h.LatestEpisodes?)
  {
  }

  /** A latest-episodes hit is among the first `n + 1` exactly when it is among the first `n`
      or is the next one. */
  lemma PrefixHas(hits: seq<Hit>, n: int)
    requires 0 <= n < |hits|
    ensures (exists i :: 0 <= i < n + 1 && hits[i].LatestEpisodes?) <==>
      (exists i :: 0 <= i < n && hits[..n][i].LatestEpisodes?) || hits[n].LatestEpisodes?
  {
    if exists i :: 0 <= i < n && hits[..n][i].LatestEpisodes? {
      var i :| 0 <= i < n && hits[..n][i].LatestEpisodes?;
      assert hits[i].LatestEpisodes?;
    }
    if exists i :: 0 <= i < n + 1 && hits[i].LatestEpisodes? {
      var i :| 0 <= i < n + 1 && hits[i].LatestEpisodes?;
      if i < n {
        assert hits[..n][i].LatestEpisodes?;
      }
    }
  }

  /** Without an anchor or a direct-download row the download link stays as it was. */
  lemma {:induction false} AfterHitsLink(m: NetNaijaMovie, hits: seq<Hit>)
    requires forall i :: 0 <= i < |hits| ==> !SetsLink(hits[i])
    ensures AfterHits(m, hits).downloadLink == m.downloadLink
  {
    if hits != [] {
      var n := |hits| - 1;
      assert forall i :: 0 <= i < n ==> hits[..n][i] == hits[i];
      AfterHitsLink(m, hits[..n]);
      assert !SetsLink(hits[n]);
    }
  }

  /** What getdownloadlink itself does: a link under the series prefix marks a series, and
      the visit of the movie's own link, the page being answered, is refused as a revisit,
      so the link is unchanged and the size becomes "Unknown". */
  function Prepared(m: NetNaijaMovie): (r: NetNaijaMovie)
    ensures r.series <==> m.series || HasPrefix(m.downloadLink, SeriesPrefix)
    ensures r.size == UnknownSize
    ensures r == m.(series := r.series, size := UnknownSize)
  {
    var marked := if HasPrefix(m.downloadLink, SeriesPrefix) then m.(series := true) else m;
    marked.(size := UnknownSize)
  }

  /** A movie after its detail response: prepared by getdownloadlink, then refined by the
      callbacks it registered, which fire on the page once the response callback returns. */
  function Visited(m: NetNaijaMovie, hits: seq<Hit>): (r: NetNaijaMovie)
    ensures r.index == m.index && r.title == m.title
  {
    AfterHitsKeeps(Prepared(m), hits);
    AfterHits(Prepared(m), hits)
  }

  /** On an answered visit, a link under the series prefix always yields a series. A visit
      that brings no response never reaches getdownloadlink (Refined, FoundUnanswered). */
  lemma VisitedSeries(m: NetNaijaMovie, hits: seq<Hit>)
    requires HasPrefix(m.downloadLink, SeriesPrefix)
    ensures Visited(m, hits).series
  {
    AfterHitsSeries(Prepared(m), hits);
  }

  /** The episode links of the page are appended to the movie's, in anchor order. */
  lemma VisitedEpisodes(m: NetNaijaMovie, hits: seq<Hit>)
    ensures Visited(m, hits).sDownloadLink == m.sDownloadLink + EpisodeLinks(hits)
  {
    AfterHitsEpisodes(Prepared(m), hits);
  }

  /** The size the size-reporting callbacks leave: the last one's, or `dflt`. */
  function SizeAfter(hits: seq<Hit>, dflt: string): string {
    if hits == [] then dflt
    else match hits[|hits| - 1]
      case SizeButton(e) => TrimSpace(ChildText(e, "span.size"))
      case DownloadAnchor(e) => TrimSpace(ChildText(e, "span[id=download-size]"))
      case _ => SizeAfter(hits[..|hits| - 1], dflt)
  }

  lemma {:induction false} AfterHitsSize(m: NetNaijaMovie, hits: seq<Hit>)
    ensures AfterHits(m, hits).size == SizeAfter(hits, m.size)
  {
    if hits != [] {
      AfterHitsSize(m, hits[..|hits| - 1]);
    }
  }

  /** The size is the last one the page reports, or "Unknown" when it reports none. */
  lemma VisitedSize(m: NetNaijaMovie, hits: seq<Hit>)
    ensures Visited(m, hits).size == SizeAfter(hits, UnknownSize)
  {
    AfterHitsSize(Prepared(m), hits);
  }

  /** A page without a download anchor or a direct-download row leaves the link as it was. */
  lemma VisitedWithoutLink(m: NetNaijaMovie, hits: seq<Hit>)
    requires forall i :: 0 <= i < |hits| ==> !SetsLink(hits[i])
    ensures Visited(m, hits).downloadLink == m.downloadLink
  {
    AfterHitsLink(Prepared(m), hits);
  }

  /** A page that reports no size leaves it "Unknown". */
  lemma {:induction false} SizeAfterSilent(hits: seq<Hit>, dflt: string)
    requires forall i :: 0 <= i < |hits| ==> !hits[i].SizeButton? && !hits[i].DownloadAnchor?
    ensures SizeAfter(hits, dflt) == dflt
  {
    if hits != [] {
      var n := |hits| - 1;
      assert forall i :: 0 <= i < n ==> hits[..n][i] == hits[i];
      SizeAfterSilent(hits[..n], dflt);
    }
  }

  /** The ForEach over a latest-episodes block. */
  method AppendEpisodes(links: seq<string>, anchors: seq<Element>) returns (r: seq<string>)
    ensures r == links + Episodes(anchors)
  {
    r := links;
    var i := 0;
    while i < |anchors|
      invariant 0 <= i <= |anchors|
      invariant r == links + Episodes(anchors[..i])
    {
      PrefixOfLonger(anchors, i);
      r := r + [Attr(anchors[i], "href") + DownloadSuffix];
      i := i + 1;
    }
    WholeSlice(anchors);
  }

  /** getdownloadlink on one movie: it registers the callbacks, and its visit of the link is
      refused, so the test after it always finds the link unchanged. */
  method GetDownloadLink(m: NetNaijaMovie) returns (r: NetNaijaMovie)
    ensures r == Prepared(m)
  {
    var former := m.downloadLink;
    r := m;
    if HasPrefix(former, SeriesPrefix) {
      r := r.(series := true);
    }
    if former == r.downloadLink {
      r := r.(size := UnknownSize);
    }
  }

  /** The registered callbacks on the answered page, firing in the order given. */
  method FireCallbacks(m: NetNaijaMovie, hits: seq<Hit>) returns (r: NetNaijaMovie)
    ensures r == AfterHits(m, hits)
  {
    r := m;
    var i := 0;
    while i < |hits|
      invariant 0 <= i <= |hits|
      invariant r == AfterHits(m, hits[..i])
    {
      PrefixOfLonger(hits, i);
      match hits[i] {
      case SizeButton(e) =>
        r := r.(size := TrimSpace(ChildText(e, "span.size")));
      case DownloadAnchor(e) =>
        r := r.(size := TrimSpace(ChildText(e, "span[id=download-size]")));
        r := r.(downloadLink := Attr(e, "href"));
      case Row(e) =>
        if TrimSpace(ChildText(e, "label")) == DirectDownload {
          r := r.(downloadLink := ChildAttr(e, "input", "value"));
        }
      case LatestEpisodes(e) =>
        r := r.(series := true);
        var links := AppendEpisodes(r.sDownloadLink, ForEach(e, "a"));
        r := r.(sDownloadLink := links);
      }
      i := i + 1;
    }
    WholeSlice(hits);
  }

  const SearchHead: string := "https://thenetnaija.com/search?t=Movie%3A"
  const SearchTail: string := "&folder=videos"

  /** The result URL of a NetNaija search: the query sits between the fixed head and tail,
      character for character, except that each space is a "+". */
  function SearchUrl(query: string): (u: string)
    ensures |u| == |SearchHead| + |query| + |SearchTail|
    ensures u[..|SearchHead|] == SearchHead && u[|SearchHead| + |query|..] == SearchTail
    ensures forall i :: 0 <= i < |query| ==> u[|SearchHead| + i] == if query[i] == ' ' then '+' else query[i]
  {
    SpacesToPlus(query);
    SearchHead + ReplaceChar(query, ' ', "+") + SearchTail
  }

  /** strings.ReplaceAll(query, " ", "+"): each space becomes a plus, the rest stays. */
  lemma {:induction false} SpacesToPlus(query: string)
    ensures |ReplaceChar(query, ' ', "+")| == |query|
    ensures forall i :: 0 <= i < |query| ==> ReplaceChar(query, ' ', "+")[i] == if query[i] == ' ' then '+' else query[i]
  {
    if query != [] {
      SpacesToPlus(query[1..]);
      var w := if query[0] == ' ' then "+" else [query[0]];
      assert ReplaceChar(query, ' ', "+") == w + ReplaceChar(query[1..], ' ', "+");
    }
  }

  /** A search result before it is kept: index 0, no size, not a series, and the href with
      "/download" as its link. */
  function ResultMovie(el: Element): (m: NetNaijaMovie)
    ensures m.index == 0 && m.size == "" && !m.series && m.sDownloadLink == []
    ensures HasSuffix(m.downloadLink, DownloadSuffix)
  {
    HasSuffixConcat(ChildAttr(el, "a", "href"), DownloadSuffix);
    NetNaijaMovie(
      0,
      TrimSpace(TrimPrefix(ChildText(el, "h3.result-title"), "Movie:")),
      ChildAttr(el, "img", "src"),
      TrimSpace(ChildText(el, "p.result-desc")),
      ChildAttr(el, "a", "href") + DownloadSuffix,
      [],
      "",
      false)
  }

  /** The OnResponse callback: the last appended movie takes the response's URL as its
      download link, goes through getdownloadlink, and is refined by the callbacks that
      fire on the page (RespondAt). */
  function Respond(movies: seq<NetNaijaMovie>, url: string, hits: seq<Hit>): (r: seq<NetNaijaMovie>)
    ensures |r| == |movies|
  {
    if movies == [] then []
    else movies[..|movies| - 1] + [Visited(movies[|movies| - 1].(downloadLink := url), hits)]
  }

  /** A response changes the last movie only. */
  lemma RespondAt(movies: seq<NetNaijaMovie>, url: string, hits: seq<Hit>)
    requires movies != []
    ensures Respond(movies, url, hits)[..|movies| - 1] == movies[..|movies| - 1]
    ensures Respond(movies, url, hits)[|movies| - 1] == Visited(movies[|movies| - 1].(downloadLink := url), hits)
  {
    var n := |movies| - 1;
    SnocFront(movies[..n], Visited(movies[n].(downloadLink := url), hits));
  }

  /** The callbacks never read the index: numbering before or after them is the same. */
  lemma {:induction false} AfterHitsIndex(m: NetNaijaMovie, hits: seq<Hit>, k: int)
    ensures AfterHits(m.(index := k), hits) == AfterHits(m, hits).(index := k)
  {
    if hits != [] {
      AfterHitsIndex(m, hits[..|hits| - 1], k);
    }
  }

  /** getdownloadlink never reads the index either. */
  lemma VisitedIndex(m: NetNaijaMovie, hits: seq<Hit>, k: int)
    ensures Visited(m.(index := k), hits) == Visited(m, hits).(index := k)
  {
    assert Prepared(m.(index := k)) == Prepared(m).(index := k);
    AfterHitsIndex(Prepared(m), hits, k);
  }

  /** What a visit brings back when colly's OnResponse runs: the URL of the request as it
      ended (after any redirect) and the hits of the registered callbacks on that page. */
  datatype Answer = Answer(url: string, hits: seq<Hit>)

  /** Whether Go's HTTP client can send a request for the link at all: only absolute http and
      https URLs (url.Parse lowercases the scheme). A relative href with "/download" fails
      before any response, so OnResponse never runs for it. */
  predicate Fetchable(link: string) {
    HasPrefix(ToLower(link), "http://") || HasPrefix(ToLower(link), "https://")
  }

  /** A visit of `link` in a world whose servers answer as `pages` says: None when no
      response reaches OnResponse (an unsendable link, a failed transport or an error
      status), otherwise the answer. */
  function Fetch(pages: string -> Option<Answer>, link: string): (r: Option<Answer>)
    ensures !Fetchable(link) ==> r.None?
    ensures Fetchable(link) ==> r == pages(link)
  {
    if Fetchable(link) then pages(link) else None
  }

  /** A movie after its visit: unchanged when nothing answered; otherwise the OnResponse path,
      which takes the final URL as the download link before getdownloadlink and the page's
      callbacks refine it. The visit inside getdownloadlink repeats the final URL, which colly
      has already recorded as visited, also after a redirect, so it is refused. */
  function Refined(m: NetNaijaMovie, a: Option<Answer>): (r: NetNaijaMovie)
    ensures r.index == m.index && r.title == m.title
    ensures a.None? ==> r == m
    ensures a.Some? ==> r.size == SizeAfter(a.value.hits, UnknownSize)
    ensures a.Some? ==> (r.series <==> m.series || HasPrefix(a.value.url, SeriesPrefix) ||
                                       exists i :: 0 <= i < |a.value.hits| && a.value.hits[i].LatestEpisodes?)
    ensures a.Some? ==> r.sDownloadLink == m.sDownloadLink + EpisodeLinks(a.value.hits)
  {
    match a
    case None => m
    case Some(ans) =>
      var x := m.(downloadLink := ans.url);
      VisitedSize(x, ans.hits);
      VisitedEpisodes(x, ans.hits);
      AfterHitsSeries(Prepared(x), ans.hits);
      Visited(x, ans.hits)
  }

  /** The callbacks never read the index, whether or not the visit answered. */
  lemma RefinedIndex(m: NetNaijaMovie, a: Option<Answer>, k: int)
    ensures Refined(m.(index := k), a) == Refined(m, a).(index := k)
  {
    if a.Some? {
      assert m.(index := k).(downloadLink := a.value.url) == m.(downloadLink := a.value.url).(index := k);
      VisitedIndex(m.(downloadLink := a.value.url), a.value.hits, k);
    }
  }

  /** A search result after the visit of its link, before it is numbered. */
  function Found(el: Element, pages: string -> Option<Answer>): (f: NetNaijaMovie)
    ensures f.title == ResultMovie(el).title
    ensures Fetch(pages, ResultMovie(el).downloadLink).None? ==> f == ResultMovie(el)
    ensures Fetch(pages, ResultMovie(el).downloadLink).Some? ==>
      f.size == SizeAfter(Fetch(pages, ResultMovie(el).downloadLink).value.hits, UnknownSize)
  {
    var m := ResultMovie(el);
    Refined(m, Fetch(pages, m.downloadLink))
  }

  /** A result whose visit brought no response keeps what the listing gave it: the href with
      "/download", no size, not a series, no episodes. */
  lemma FoundUnanswered(el: Element, pages: string -> Option<Answer>)
    requires Fetch(pages, ResultMovie(el).downloadLink).None?
    ensures var f := Found(el, pages);
      f.downloadLink == ChildAttr(el, "a", "href") + DownloadSuffix && f.size == ""
      && !f.series && f.sDownloadLink == []
  {
  }

  /** A relative href (one starting with "/", or the empty href) is never fetched, so its
      result stays as listed. */
  lemma {:induction false} RelativeHrefUnanswered(el: Element, pages: string -> Option<Answer>)
    requires var h := ChildAttr(el, "a", "href"); h == [] || h[0] == '/'
    ensures Found(el, pages) == ResultMovie(el)
  {
    var h := ChildAttr(el, "a", "href");
    var link := h + DownloadSuffix;
    assert link[0] == '/' by {
      if h == [] {
        assert link == DownloadSuffix;
      } else {
        assert link[0] == h[0];
      }
    }
    SlashLedUnfetchable(link);
  }

  /** A link starting with "/" has no scheme and is never sent. */
  lemma {:induction false} SlashLedUnfetchable(link: string)
    requires link != [] && link[0] == '/'
    ensures !Fetchable(link)
  {
    var t := ToLower(link);
    assert t[0] == '/';
    assert !HasPrefix(t, "http://") by {
      if |t| >= 7 { assert t[..7][0] == '/'; }
    }
    assert !HasPrefix(t, "https://") by {
      if |t| >= 8 { assert t[..8][0] == '/'; }
    }
  }

  /** A detail page whose final URL lies under the series prefix yields a series, also when
      the listing's own link did not. */
  lemma FoundSeries(el: Element, pages: string -> Option<Answer>)
    requires Fetch(pages, ResultMovie(el).downloadLink).Some?
    requires HasPrefix(Fetch(pages, ResultMovie(el).downloadLink).value.url, SeriesPrefix)
    ensures Found(el, pages).series
  {
  }

  /** Every search result after the visit of its link, in result order. */
  function AllFound(results: seq<Element>, pages: string -> Option<Answer>): (r: seq<NetNaijaMovie>)
    ensures |r| == |results|
    ensures forall i :: 0 <= i < |results| ==> r[i] == Found(results[i], pages)
  {
    seq(|results|, i requires 0 <= i < |results| => Found(results[i], pages))
  }

  /** One search result: a titled one is appended, refined, with the count of results kept
      before it as its index (SearchStepAppends); an untitled one changes nothing. */
  function SearchStep(prev: seq<NetNaijaMovie>, kept: int, f: NetNaijaMovie): (r: seq<NetNaijaMovie>)
    ensures |r| == if f.title == "" then |prev| else |prev| + 1
    ensures f.title == "" ==> r == prev
  {
    if f.title == "" then prev else prev + [f.(index := kept)]
  }

  /** A titled result keeps the movies before it and is appended with its index and title. */
  lemma SearchStepAppends(prev: seq<NetNaijaMovie>, kept: int, f: NetNaijaMovie)
    requires f.title != ""
    ensures SearchStep(prev, kept, f)[..|prev|] == prev
    ensures SearchStep(prev, kept, f)[|prev|] == f.(index := kept)
  {
    SnocFront(prev, f.(index := kept));
  }

  /** Appending a numbered result and answering its visit appends its refined, numbered
      form. */
  lemma RespondToAppended(prev: seq<NetNaijaMovie>, m: NetNaijaMovie, k: int, a: Answer)
    ensures Respond(prev + [m.(index := k)], a.url, a.hits) == prev + [Refined(m, Some(a)).(index := k)]
  {
    var x := m.(index := k);
    var s, n := prev + [x], |prev|;
    assert s[..n] == prev by { SnocFront(prev, x); }
    var v := Visited(x.(downloadLink := a.url), a.hits);
    assert Respond(s, a.url, a.hits) == s[..n] + [v];
    RefinedIndex(m, Some(a), k);
    SnocCongruence(s[..n], prev, v, Refined(m, Some(a)).(index := k));
  }

  /** The movies after the first `n` results. */
  function SearchUpTo(start: seq<NetNaijaMovie>, found: seq<NetNaijaMovie>, n: nat): (r: seq<NetNaijaMovie>)
    requires n <= |found|
    ensures |r| >= |start|
  {
    if n == 0 then start
    else
      var prev := SearchUpTo(start, found, n - 1);
      SearchStep(prev, |prev| - |start|, found[n - 1])
  }

  /** The step from `n` results to `n + 1`: the next result, numbered by the count of movies
      appended so far. */
  lemma SearchUpToStep(start: seq<NetNaijaMovie>, found: seq<NetNaijaMovie>, n: nat, prev: seq<NetNaijaMovie>, kept: int)
    requires n < |found| && prev == SearchUpTo(start, found, n) && kept == |prev| - |start|
    ensures SearchUpTo(start, found, n + 1) == SearchStep(prev, kept, found[n])
  {
  }

  /** The number of titled results among the first `n`. */
  function TitledCount(found: seq<NetNaijaMovie>, n: nat): nat
    requires n <= |found|
  {
    if n == 0 then 0
    else TitledCount(found, n - 1) + (if found[n - 1].title == "" then 0 else 1)
  }

  /** Exactly the titled results are appended. */
  lemma {:induction false} SearchUpToLength(start: seq<NetNaijaMovie>, found: seq<NetNaijaMovie>, n: nat)
    requires n <= |found|
    ensures |SearchUpTo(start, found, n)| == |start| + TitledCount(found, n)
  {
    if n > 0 {
      SearchUpToLength(start, found, n - 1);
    }
  }

  /** None of the movies there before the search changes. */
  lemma {:induction false} SearchUpToKeeps(start: seq<NetNaijaMovie>, found: seq<NetNaijaMovie>, n: nat)
    requires n <= |found|
    ensures SearchUpTo(start, found, n)[..|start|] == start
  {
    if n == 0 {
      WholeSlice(start);
    } else {
      SearchUpToKeeps(start, found, n - 1);
      var prev := SearchUpTo(start, found, n - 1);
      if found[n - 1].title != "" {
        SearchStepAppends(prev, |prev| - |start|, found[n - 1]);
        PrefixOfPrefix(SearchUpTo(start, found, n), |start|, |prev|);
      }
    }
  }

  /** Each appended movie has a title and carries its position among the appended ones as its
      index. */
  lemma {:induction false} SearchUpToIndexes(start: seq<NetNaijaMovie>, found: seq<NetNaijaMovie>, n: nat)
    requires n <= |found|
    ensures forall j :: |start| <= j < |SearchUpTo(start, found, n)| ==>
      SearchUpTo(start, found, n)[j].index == j - |start| && SearchUpTo(start, found, n)[j].title != ""
  {
    if n > 0 {
      SearchUpToIndexes(start, found, n - 1);
      var prev := SearchUpTo(start, found, n - 1);
      var f := found[n - 1];
      if f.title != "" {
        var r := SearchUpTo(start, found, n);
        SearchStepAppends(prev, |prev| - |start|, f);
        PrefixOfPrefix(r, |prev|, |prev|);
        forall j | |start| <= j < |r|
          ensures r[j].index == j - |start| && r[j].title != ""
        {
          if j < |prev| {
            assert r[j] == r[..|prev|][j];
          }
        }
      }
    }
  }

  /** The NetNaija scraper: the title of the last search and the movies found so far. */
  class NetNaijaSite {
    var title: string
    var movies: seq<NetNaijaMovie>

    constructor ()
      ensures title == "" && movies == []
    {
      title := "";
      movies := [];
    }

    /** The OnResponse callback. */
    method OnResponse(url: string, hits: seq<Hit>)
      modifies this`movies
      ensures movies == Respond(old(movies), url, hits)
    {
      if |movies| > 0 {
        var n := |movies| - 1;
        var last := GetDownloadLink(movies[n].(downloadLink := url));
        last := FireCallbacks(last, hits);
        movies := movies[..n] + [last];
      }
    }

    /** The body of the result loop for the `i`-th result `movie`: a titled movie takes the
        running index, is appended, and its detail page is visited; an untitled one is
        dropped. The running index goes up with each appended movie. */
    method Keep(movie: NetNaijaMovie, movieIndex: int, pages: string -> Option<Answer>,
                ghost start: seq<NetNaijaMovie>, ghost found: seq<NetNaijaMovie>, ghost i: nat) returns (next: int)
      requires i < |found| && found[i] == Refined(movie, Fetch(pages, movie.downloadLink))
      requires movies == SearchUpTo(start, found, i) && movieIndex == |movies| - |start|
      modifies this`movies
      ensures movies == SearchUpTo(start, found, i + 1) && next == |movies| - |start|
    {
      SearchUpToStep(start, found, i, movies, movieIndex);
      next := movieIndex;
      if movie.title != "" {
        next := movieIndex + 1;
        ghost var prev := movies;
        var m := movie.(index := movieIndex);
        movies := movies + [m];
        var answer := Fetch(pages, m.downloadLink);
        if answer.Some? {
          OnResponse(answer.value.url, answer.value.hits);
          RespondToAppended(prev, movie, movieIndex, answer.value);
        }
      }
    }

    /** The `main` callback: every result in order, each titled one appended with the
        running index and its link visited, in a world whose servers answer as `pages`. */
    method OnMain(results: seq<Element>, pages: string -> Option<Answer>)
      modifies this`movies
      ensures movies == SearchUpTo(old(movies), AllFound(results, pages), |results|)
    {
      ghost var start := movies;
      ghost var found := AllFound(results, pages);
      var movieIndex := 0;
      var i := 0;
      while i < |results|
        invariant 0 <= i <= |results|
        invariant movies == SearchUpTo(start, found, i)
        invariant movieIndex == |movies| - |start|
      {
        var movie := ResultMovie(results[i]);
        assert found[i] == Refined(movie, Fetch(pages, movie.downloadLink));
        movieIndex := Keep(movie, movieIndex, pages, start, found, i);
        i := i + 1;
      }
    }

    /** Search: the visit of SearchUrl(query). Without a response neither OnResponse nor the
        `main` callback runs. With one, OnResponse refines the previously last movie, if any,
        with the search page's URL and hits, and then `main` runs over the page's `results`. */
    method Search(query: string, results: seq<Element>, pages: string -> Option<Answer>)
      modifies this
      ensures title == "Search Results for " + query
      ensures Fetch(pages, SearchUrl(query)).None? ==> movies == old(movies)
      ensures Fetch(pages, SearchUrl(query)).Some? ==>
        var a := Fetch(pages, SearchUrl(query)).value;
        movies == SearchUpTo(Respond(old(movies), a.url, a.hits), AllFound(results, pages), |results|)
    {
      title := "Search Results for " + query;
      var url := SearchUrl(query);
      var answer := Fetch(pages, url);
      if answer.Some? {
        OnResponse(answer.value.url, answer.value.hits);
        OnMain(results, pages);
      }
    }
  }

  // ------------------------------------------------------------------ TFPDL

  /** TfpdlMovie. */
  datatype TfpdlMovie = TfpdlMovie(
    index: int,
    name: string,
    permaLink: string,
    safeTxtLink: string,
    pictureLink: string,
    description: string)

  const TfpdlHead: string := "https://tfp.is/page/1/?s="

  /** The search URL, the query formatted in after the fixed head, each space a "+". */
  function TfpdlUrl(query: string): (u: string)
    ensures |u| == |TfpdlHead| + |query| && u[..|TfpdlHead|] == TfpdlHead
    ensures forall i :: 0 <= i < |query| ==> u[|TfpdlHead| + i] == if query[i] == ' ' then '+' else query[i]
  {
    SpacesToPlus(query);
    TfpdlHead + ReplaceChar(query, ' ', "+")
  }

  /** One listed item: its index, trimmed name, picture and permalink, and the description and
      SafeTxtLink of the permalink page's `.entry`, when it has one. */
  function ListedMovie(el: Element, index: int, entry: Option<Element>): (m: TfpdlMovie)
    ensures m.index == index && m.permaLink == TrimSpace(ChildAttr(el, "a", "href"))
    ensures entry.None? ==> m.description == "" && m.safeTxtLink == ""
  {
    var m := TfpdlMovie(index, TrimSpace(ChildText(el, "h2")), TrimSpace(ChildAttr(el, "a", "href")), "",
                        TrimSpace(ChildAttr(el, "img", "src")), "");
    match entry
    case None => m
    case Some(p) => m.(description := TrimSpace(ChildText(p, "p")), safeTxtLink := TrimSpace(ChildAttr(p, "a.button", "href")))
  }

  /** The movies of the listed items, each numbered by its position, with its own permalink. */
  function Listed(items: seq<Element>, entries: string -> Option<Element>): (r: seq<TfpdlMovie>)
    ensures |r| == |items|
    ensures forall j :: 0 <= j < |items| ==>
      r[j] == ListedMovie(items[j], j, entries(TrimSpace(ChildAttr(items[j], "a", "href"))))
  {
    seq(|items|, j requires 0 <= j < |items| => ListedMovie(items[j], j, entries(TrimSpace(ChildAttr(items[j], "a", "href")))))
  }

  /** Every item is recorded, at its position, with its own permalink and page entry. */
  lemma ListedAt(items: seq<Element>, entries: string -> Option<Element>, j: int)
    requires 0 <= j < |items|
    ensures Listed(items, entries)[j].index == j
    ensures Listed(items, entries)[j].permaLink == TrimSpace(ChildAttr(items[j], "a", "href"))
    ensures entries(Listed(items, entries)[j].permaLink).None? ==>
      Listed(items, entries)[j].description == "" && Listed(items, entries)[j].safeTxtLink == ""
  {
    var r := Listed(items, entries);
    assert r[j] == ListedMovie(items[j], j, entries(TrimSpace(ChildAttr(items[j], "a", "href"))));
  }

  /** The TFPDL scraper. */
  class TfpdlSite {
    var query: string
    var pageTitle: string
    var movies: seq<TfpdlMovie>

    constructor (query: string)
      ensures this.query == query && pageTitle == "" && movies == []
    {
      this.query := query;
      pageTitle := "";
      movies := [];
    }

    /** The `div.page-title` callback, once per match: the last match's trimmed text wins. */
    method OnPageTitle(titles: seq<Element>)
      modifies this`pageTitle
      ensures titles == [] ==> pageTitle == old(pageTitle)
      ensures titles != [] ==> pageTitle == TrimSpace(ElementText(titles[|titles| - 1]))
    {
      var k := 0;
      while k < |titles|
        invariant 0 <= k <= |titles|
        invariant k == 0 ==> pageTitle == old(pageTitle)
        invariant k > 0 ==> pageTitle == TrimSpace(ElementText(titles[k - 1]))
      {
        pageTitle := TrimSpace(ElementText(titles[k]));
        k := k + 1;
      }
    }

    /** The `div.post-listing` callback: every `article.item-list` is appended, numbered from
        0, with its permalink page's `.entry` from `entries`. */
    method OnPostListing(items: seq<Element>, entries: string -> Option<Element>)
      modifies this`movies
      ensures movies == old(movies) + Listed(items, entries)
    {
      ghost var listed := Listed(items, entries);
      var movieindex := 0;
      while movieindex < |items|
        invariant 0 <= movieindex <= |items|
        invariant movies == old(movies) + listed[..movieindex]
      {
        var el := items[movieindex];
        var link := TrimSpace(ChildAttr(el, "a", "href"));
        var movie := ListedMovie(el, movieindex, entries(link));
        assert movie == listed[movieindex];
        PrefixSnoc(listed, movieindex);
        ConcatAssoc(old(movies), listed[..movieindex], [movie]);
        movies := movies + [movie];
        movieindex := movieindex + 1;
      }
      WholeSlice(listed);
    }

    /** SafetextlinkSearch on the search page fetched from TfpdlUrl(query): the page-title
        callback over `titles`, then the post-listing callback over `items`. */
    method SafetextlinkSearch(titles: seq<Element>, items: seq<Element>, entries: string -> Option<Element>)
      modifies this
      ensures query == old(query)
      ensures titles == [] ==> pageTitle == old(pageTitle)
      ensures titles != [] ==> pageTitle == TrimSpace(ElementText(titles[|titles| - 1]))
      ensures movies == old(movies) + Listed(items, entries)
    {
      var url := TfpdlUrl(query);
      OnPageTitle(titles);
      OnPostListing(items, entries);
    }
  }
}
