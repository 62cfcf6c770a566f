/** The TvSeries adapter (engine/tvseries.go): fixed listing selectors, the per-item rules with
    the "&ftype=2" file links, the episode, direct-link and file-download callbacks that follow
    a show to its file, and the query parameters of List and Search. */
module TvSeries {
  import opened Wrappers
  import opened Text
  import opened Urls
  import opened Types
  import opened Patterns
  import opened Props
  import opened Engines

  const Name: string := "TvSeries"
  const Base: string := "https://tvseries.in/"
  const Description: string := "TvSeries is a site owned by the fzmovies group where shows are available"

  /** NewTvSeriesEngine. */
  method New() returns (e: Props)
    ensures fresh(e) && e.Valid()
    ensures e.name == Name && e.description == Description && e.mode == SearchMode
    ensures e.baseURL == ParseUrl(Base)
    ensures e.searchURL == ParseUrl(Base).(path := "/search.php")
    ensures e.listURL == ParseUrl(Base).(path := "/tv.php")
    ensures e.searchQuery == map[] && e.listQuery == map[]
  {
    e := new Props(Name, Description, Base, "/search.php", "/tv.php");
  }

  /** getParseAttrs: the same selectors in every mode, and never an error. */
  function ParseAttrs(mode: Mode): (r: Result<(string, string)>)
    ensures r == Ok(("body", "div.mainbox"))
  {
    Ok(("body", "div.mainbox"))
  }

  // ------------------------------------------------------------------ one listing item

  /** What the site appends to a show or episode link to be served the file listing. */
  const FileType: string := "&ftype=2"

  /** An href resolved against the page and given the file type. */
  function FileLink(page: Url, href: string): (u: Url)
    ensures UrlString(u) == AbsoluteUrl(page, href) + FileType
    ensures HasSuffix(UrlString(u), FileType)
  {
    var s := AbsoluteUrl(page, href) + FileType;
    assert s[|s| - |FileType|..] == FileType;
    ParseUrl(s)
  }

  /** The title and description taken from the "small" texts: with at least two, the first
      is the title and the description is the second, or the last one when that is strictly
      longer in bytes; with fewer, both stay empty. */
  function SmallFields(smalls: seq<string>): (r: (string, string))
    ensures |smalls| <= 1 ==> r == ("", "")
    ensures |smalls| > 1 ==> r.0 == TrimSpace(smalls[0])
    ensures |smalls| > 1 ==> r.1 == TrimSpace(smalls[1]) || r.1 == smalls[|smalls| - 1]
    ensures |smalls| > 1 ==> Utf8Len(r.1) >= Utf8Len(TrimSpace(smalls[1])) && Utf8Len(r.1) >= Utf8Len(smalls[|smalls| - 1])
    ensures |smalls| > 1 && Utf8Len(smalls[|smalls| - 1]) <= Utf8Len(TrimSpace(smalls[1])) ==> r.1 == TrimSpace(smalls[1])
  {
    if |smalls| > 1 then
      var description := TrimSpace(smalls[1]);
      var last := smalls[|smalls| - 1];
      (TrimSpace(smalls[0]), if Utf8Len(last) > Utf8Len(description) then last else description)
    else ("", "")
  }

  /** ChildTexts are trimmed already, so with exactly two texts they are title and
      description as they are. */
  lemma TwoSmalls(el: Element)
    requires |ChildTexts(el, "small")| == 2
    ensures SmallFields(ChildTexts(el, "small")) == (ChildTexts(el, "small")[0], ChildTexts(el, "small")[1])
  {
    var smalls := ChildTexts(el, "small");
    ChildTextsTrimmed(el, "small");
    TrimSpaceOfTrimmed(smalls[0]);
    TrimSpaceOfTrimmed(smalls[1]);
  }

  /** parseSingleMovie: a film (not a series) whose cover is resolved against the listing page,
      whose title and description come from the "small" texts, and whose link is the item's
      href with the file type. */
  function ParseSingleMovie(el: Element, index: int): (m: Movie)
    ensures m.index == index && !m.isSeries && m.source == Name
    ensures m.coverPhotoLink == AbsoluteUrl(el.request, ChildAttr(el, "img", "src"))
    ensures (m.title, m.description) == SmallFields(ChildTexts(el, "small"))
    ensures UrlString(m.downloadLink) == AbsoluteUrl(el.request, ChildAttr(el, "a", "href")) + FileType
    ensures m.size == "" && m.year == 0 && m.category == "" && m.sDownloadLink == map[]
  {
    var cover := ParseUrl(AbsoluteUrl(el.request, ChildAttr(el, "img", "src")));
    var fields := SmallFields(ChildTexts(el, "small"));
    EmptyMovie.(index := index, source := Name, coverPhotoLink := UrlString(cover),
                title := fields.0, description := fields.1,
                downloadLink := FileLink(el.request, ChildAttr(el, "a", "href")))
  }

  /** The parser Scrape's discovery loop calls; the mode only chooses the selectors. */
  function Parser(mode: Mode): (Element, int) -> Option<Movie> {
    (el: Element, i: int) => Some(ParseSingleMovie(el, i))
  }

  /** Discovery with this parser keeps every listing item, each under its own ordinal. */
  lemma DiscoversEveryItem(mode: Mode, items: seq<Element>, start: int)
    ensures KeepsIndex(Parser(mode))
    ensures |Parsed(items, Parser(mode), start)| == |items|
    ensures forall j :: 0 <= j < |items| ==> Parsed(items, Parser(mode), start)[j].index == start + j
  {
    ParsedAll(items, Parser(mode), start);
    ParsedOrdinals(items, Parser(mode), start);
  }

  // ------------------------------------------------------------------ the episode callback

  /** The episode's href resolved against the page it is on. */
  function EpisodeHref(e: Element): string {
    AbsoluteUrl(e.request, ChildAttr(e, "a", "href"))
  }

  /** Whether the episode links somewhere other than the page it is on. */
  predicate LinksElsewhere(e: Element) {
    EpisodeHref(e) != UrlString(e.request)
  }

  /** The `div[itemprop=episode]` callback's effect: the first "b" text becomes the title and
      the last "small" text the description, each only when there are at least two; the link
      becomes the episode's href with the file type when it leads elsewhere. */
  function EpisodeDetails(m: Movie, e: Element): (r: Movie)
    ensures r == m.(title := r.title, description := r.description, downloadLink := r.downloadLink)
    ensures |ChildTexts(e, "b")| > 1 ==> r.title == ChildTexts(e, "b")[0]
    ensures |ChildTexts(e, "b")| <= 1 ==> r.title == m.title
    ensures |ChildTexts(e, "small")| > 1 ==> r.description == ChildTexts(e, "small")[|ChildTexts(e, "small")| - 1]
    ensures |ChildTexts(e, "small")| <= 1 ==> r.description == m.description
    ensures LinksElsewhere(e) ==> UrlString(r.downloadLink) == EpisodeHref(e) + FileType
    ensures !LinksElsewhere(e) ==> r.downloadLink == m.downloadLink
  {
    var bs := ChildTexts(e, "b");
    var smalls := ChildTexts(e, "small");
    m.(title := if |bs| > 1 then bs[0] else m.title,
       description := if |smalls| > 1 then smalls[|smalls| - 1] else m.description,
       downloadLink := if LinksElsewhere(e) then FileLink(e.request, ChildAttr(e, "a", "href")) else m.downloadLink)
  }

  /** The episode callback on the movie its request belongs to; the new file link is visited
      only when the episode leads elsewhere. */
  method OnEpisode(t: Scraped, ctx: string, e: Element) returns (visit: Option<Request>)
    requires t.Valid() && t.HasEntry(ctx)
    modifies t
    ensures t.Valid() && t.next == old(t.next)
    ensures var k := EntryKey(ctx); t.movies == old(t.movies)[k := EpisodeDetails(old(t.movies)[k], e)]
    ensures visit.Some? <==> LinksElsewhere(e)
    ensures visit.Some? ==> visit.value == CollectorVisit(UrlString(t.movies[EntryKey(ctx)].downloadLink))
  {
    var key := EntryKey(ctx);
    var movie := EpisodeDetails(t.movies[key], e);
    t.Update(key, movie);
    if LinksElsewhere(e) {
      visit := Some(CollectorVisit(UrlString(movie.downloadLink)));
    } else {
      visit := None;
    }
  }

  /** An episode without an href resolves to the page itself: its link is kept and the page
      is not visited again. */
  lemma EpisodeWithoutHref(m: Movie, e: Element)
    requires ChildAttr(e, "a", "href") == ""
    ensures !LinksElsewhere(e)
    ensures EpisodeDetails(m, e).downloadLink == m.downloadLink
  {
  }

  // ------------------------------------------------------------------ the direct-link callbacks

  /** The selectors the direct-link callback is registered for, in registration order. */
  const DirectLinks: seq<string> := ["a[id=dlink3]", "a[id=dlink4]", "a[id=dlink2]"]

  /** The direct link's href resolved against the page. */
  function DirectHref(e: Element): string {
    AbsoluteUrl(e.request, Attr(e, "href"))
  }

  /** The direct-link callback's effect: the resolved href becomes the download link. */
  function DirectDetails(m: Movie, e: Element): (r: Movie)
    ensures r == m.(downloadLink := r.downloadLink)
    ensures UrlString(r.downloadLink) == DirectHref(e)
  {
    m.(downloadLink := ParseUrl(DirectHref(e)))
  }

  /** The direct-link callback, the same for each of the three selectors: the new link is
      followed unless it names an mp4 file. */
  method OnDirectLink(t: Scraped, ctx: string, e: Element) returns (visit: Option<Request>)
    requires t.Valid() && t.HasEntry(ctx)
    modifies t
    ensures t.Valid() && t.next == old(t.next)
    ensures var k := EntryKey(ctx); t.movies == old(t.movies)[k := DirectDetails(old(t.movies)[k], e)]
    ensures visit.Some? <==> !HasSuffix(DirectHref(e), "mp4")
    ensures visit.Some? ==> visit.value == CollectorVisit(DirectHref(e))
  {
    var key := EntryKey(ctx);
    var movie := DirectDetails(t.movies[key], e);
    t.Update(key, movie);
    if !HasSuffix(UrlString(movie.downloadLink), "mp4") {
      visit := Some(CollectorVisit(UrlString(movie.downloadLink)));
    } else {
      visit := None;
    }
  }

  /** A relative or absolute href to an mp4 file ends the chain: the resolved link ends in
      "mp4" as well, whatever fragment the href carries, unless url.Parse refuses it. */
  lemma VideoEndsTheChain(e: Element)
    requires var h := BeforeChar(Attr(e, "href"), '#'); HasSuffix(h, "mp4") && !RefusedRef(h)
    ensures HasSuffix(DirectHref(e), "mp4")
  {
    var href := Attr(e, "href");
    var h := BeforeChar(href, '#');
    assert href[0] == h[0];
    var r := DirectHref(e);
    assert r[|r| - |h|..] == h;
    assert r[|r| - 3..] == r[|r| - |h|..][|h| - 3..];
  }

  // ------------------------------------------------------------------ the file-download callback

  /** The size: the whole match of `(.* MB)` on the "textcolor2" text. */
  function FileSize(e: Element): (r: Option<string>)
    ensures r.Some? ==> HasSuffix(r.value, " MB") && '\n' !in r.value
  {
    ThroughLast(ChildText(e, "textcolor2"), " MB")
  }

  /** The callback indexes the regexp's match, which panics without one. */
  predicate HasSize(e: Element) {
    FileSize(e).Some?
  }

  /** The link preference: a non-empty flink1 href, else a non-empty filelink value, else
      the link as it was. */
  function PreferredLink(e: Element, current: Url): (u: Url)
    ensures ChildAttr(e, "a[id=flink1]", "href") != "" ==> UrlString(u) == ChildAttr(e, "a[id=flink1]", "href")
    ensures ChildAttr(e, "a[id=flink1]", "href") == "" && ChildAttr(e, "input[name=filelink]", "value") != ""
      ==> UrlString(u) == ChildAttr(e, "input[name=filelink]", "value")
    ensures ChildAttr(e, "a[id=flink1]", "href") == "" && ChildAttr(e, "input[name=filelink]", "value") == ""
      ==> u == current
  {
    var flink := ChildAttr(e, "a[id=flink1]", "href");
    if flink != "" then
      var link := ParseUrl(flink);
      if UrlString(link) != "" then link else current
    else
      var link := ParseUrl(ChildAttr(e, "input[name=filelink]", "value"));
      if UrlString(link) != "" then link else current
  }

  /** An empty link never overwrites a set one. */
  lemma PreferredLinkNeverEmpty(e: Element, current: Url)
    requires UrlString(current) != ""
    ensures UrlString(PreferredLink(e, current)) != ""
  {
  }

  /** The `div.filedownload` callback's effect: the preferred link and the size. */
  function FileDetails(m: Movie, e: Element): (r: Movie)
    requires HasSize(e)
    ensures r == m.(downloadLink := PreferredLink(e, m.downloadLink), size := r.size)
    ensures FileSize(e) == Some(r.size) && HasSuffix(r.size, " MB")
  {
    m.(downloadLink := PreferredLink(e, m.downloadLink), size := FileSize(e).value)
  }

  /** A single-line size text "<n> MB" is taken as it is. */
  lemma SizeOfLine(e: Element, d: string)
    requires '\n' !in d && ChildText(e, "textcolor2") == d + " MB"
    ensures HasSize(e) && FileSize(e) == Some(d + " MB")
  {
    ThroughLastLine(d, " MB");
  }

  /** The callback can run as soon as " MB" occurs somewhere in the size text. */
  lemma SizeWhereMB(e: Element, j: nat)
    requires OccursAt(ChildText(e, "textcolor2"), " MB", j)
    ensures HasSize(e)
  {
    ThroughLastFinds(ChildText(e, "textcolor2"), " MB", j);
  }

  method OnFileDownload(t: Scraped, ctx: string, e: Element)
    requires t.Valid() && t.HasEntry(ctx) && HasSize(e)
    modifies t
    ensures t.Valid() && t.next == old(t.next)
    ensures var k := EntryKey(ctx); t.movies == old(t.movies)[k := FileDetails(old(t.movies)[k], e)]
  {
    var key := EntryKey(ctx);
    var movie := FileDetails(t.movies[key], e);
    t.Update(key, movie);
  }

  // ------------------------------------------------------------------ List and Search

  /** The list URL's query for a page: the A to Z listing at that page, every other
      parameter kept. */
  function PageQuery(q: Values, page: int): (r: Values)
    ensures Get(r, "alpha") == Some("AtoZ") && Get(r, "pg") == Some(Itoa(page))
    ensures forall k :: k != "alpha" && k != "pg" ==> Get(r, k) == Get(q, k)
  {
    Set(Set(q, "alpha", "AtoZ"), "pg", Itoa(page))
  }

  function ListTitle(page: int): string {
    "Series From A to Z latest episode each - Page " + Itoa(page)
  }

  /** List: ListMode, the page's query on the list URL, then a scrape. */
  method List(e: Props, page: int, scrape: Scraper) returns (r: SearchResult)
    requires e.Valid()
    modifies e
    ensures e.Valid() && e.mode == ListMode
    ensures e.listQuery == PageQuery(old(e.listQuery), page)
    ensures e.listURL == old(e.listURL).(rawQuery := Encode(e.listQuery))
    ensures e.searchURL == old(e.searchURL) && e.searchQuery == old(e.searchQuery)
    ensures r == SearchResult(ListTitle(page), scrape(ListMode, e.listURL))
  {
    e.mode := ListMode;
    e.SetListParam("alpha", "AtoZ");
    e.SetListParam("pg", Itoa(page));
    r := SearchResult(ListTitle(page), scrape(e.mode, e.ParseURL()));
  }

  /** The search URL's query: the search text searched among episodes, and the page only when
      a second parameter gives one; every other parameter kept. */
  function SearchQuery(q: Values, param: seq<string>): (r: Values)
    requires |param| >= 1
    ensures Get(r, "search") == Some(param[0]) && Get(r, "beginsearch") == Some("Search")
    ensures Get(r, "vsearch") == Some("") && Get(r, "by") == Some("episodes")
    ensures |param| > 1 ==> Get(r, "pg") == Some(param[1])
    ensures |param| == 1 ==> Get(r, "pg") == Get(q, "pg")
    ensures forall k :: k !in ["search", "beginsearch", "vsearch", "by", "pg"] ==> Get(r, k) == Get(q, k)
  {
    var a := Set(q, "search", param[0]);
    var b := Set(a, "beginsearch", "Search");
    var c := Set(b, "vsearch", "");
    var d := Set(c, "by", "episodes");
    assert Get(b, "search") == Some(param[0]) by { assert "search" != "beginsearch"; }
    assert Get(c, "search") == Some(param[0]) && Get(c, "beginsearch") == Some("Search") by {
      assert "search" != "vsearch" && "beginsearch" != "vsearch";
    }
    assert Get(d, "search") == Some(param[0]) && Get(d, "beginsearch") == Some("Search")
           && Get(d, "vsearch") == Some("") by {
      assert "search" != "by" && "beginsearch" != "by" && "vsearch" != "by";
    }
    assert Get(d, "pg") == Get(q, "pg") by {
      assert "pg" != "search" && "pg" != "beginsearch" && "pg" != "vsearch" && "pg" != "by";
    }
    if |param| > 1 then
      assert "pg" != "search" && "pg" != "beginsearch" && "pg" != "vsearch" && "pg" != "by";
      Set(d, "pg", param[1])
    else d
  }

  /** Search: SearchMode, the query on the search URL, then a scrape; the result's query is
      the search text. */
  method Search(e: Props, param: seq<string>, scrape: Scraper) returns (r: SearchResult)
    requires e.Valid() && |param| >= 1
    modifies e
    ensures e.Valid() && e.mode == SearchMode
    ensures e.searchQuery == SearchQuery(old(e.searchQuery), param)
    ensures e.searchURL == old(e.searchURL).(rawQuery := Encode(e.searchQuery))
    ensures e.listURL == old(e.listURL) && e.listQuery == old(e.listQuery)
    ensures r == SearchResult(param[0], scrape(SearchMode, e.searchURL))
  {
    var query := param[0];
    e.mode := SearchMode;
    e.SetSearchParam("search", query);
    e.SetSearchParam("beginsearch", "Search");
    e.SetSearchParam("vsearch", "");
    e.SetSearchParam("by", "episodes");
    if |param| > 1 {
      e.SetSearchParam("pg", param[1]);
    }
    r := SearchResult(query, scrape(e.mode, e.ParseURL()));
  }
}
