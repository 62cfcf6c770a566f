/** The MyCoolMoviez adapter (engine/mycoolmoviez.go): fixed listing selectors, the title and
    year rules, the detail callbacks (shared with ChiaAnime, apart from the download box), and
    the URL building of List and Search. */
module MyCoolMoviez {
  import opened Wrappers
  import opened Text
  import opened Urls
  import opened Types
  import opened Patterns
  import opened Props
  import opened Engines
  import opened PanelSites
  import Paths

  const Name: string := "MyCoolMoviez"
  const Base: string := "https://mycoolmoviez.website"
  const Description: string :=
    "MyCoolMoviez is a site that collects movies from across the web in believed to be in a public domain"

  /** NewMyCoolMoviezEngine. */
  method New() returns (e: Props)
    ensures fresh(e) && e.Valid()
    ensures e.name == Name && e.description == Description && e.mode == SearchMode
    ensures e.baseURL == ParseUrl(Base)
    ensures e.searchURL == ParseUrl(Base).(path := "/search.php")
    ensures e.listURL == ParseUrl(Base).(path := "/hollywood_movies/page")
    ensures e.searchQuery == map[] && e.listQuery == map[]
  {
    e := new Props(Name, Description, Base, "/search.php", "/hollywood_movies/page");
  }

  /** getParseAttrs: the same selectors in every mode, and never an error. */
  function ParseAttrs(mode: Mode): (r: Result<(string, string)>)
    ensures r == Ok(("ul.cat_ul", "li"))
  {
    Ok(("ul.cat_ul", "li"))
  }

  // ------------------------------------------------------------------ one listing item

  /** parseSingleMovie: never fails; a movie, not a series, whose year is the first number
      in its title. */
  function ParseSingleMovie(el: Element, index: int): (m: Movie)
    ensures m.index == index && !m.isSeries && m.source == Name
    ensures m.title == ChildText(el, "a") && m.year == FirstNumber(m.title)
    ensures UrlString(m.downloadLink) == AbsoluteUrl(el.request, ChildAttr(el, "a", "href"))
    ensures m.size == "" && m.description == "" && m.coverPhotoLink == "" && m.sDownloadLink == map[]
  {
    TrimSpaceOfTrimmed(ChildText(el, "a"));
    var title := TrimSpace(ChildText(el, "a"));
    EmptyMovie.(index := index, source := Name, title := title, year := FirstNumber(title),
                downloadLink := ParseUrl(AbsoluteUrl(el.request, ChildAttr(el, "a", "href"))))
  }

  /** The parser Scrape's discovery loop calls; the mode plays no part. */
  function Parser(mode: Mode): (Element, int) -> Option<Movie> {
    (el: Element, i: int) => Some(ParseSingleMovie(el, i))
  }

  /** Discovery with this parser keeps every listing item, each under its own ordinal. */
  lemma DiscoversEveryItem(mode: Mode, items: seq<Element>, start: int)
    ensures KeepsIndex(Parser(mode))
    ensures |Parsed(items, Parser(mode), start)| == |items|
    ensures forall j :: 0 <= j < |items| ==> Parsed(items, Parser(mode), start)[j].index == start + j
  {
    ParsedAll(items, Parser(mode), start);
    ParsedOrdinals(items, Parser(mode), start);
  }

  // ------------------------------------------------------------------ the download box

  /** The first `(\d+)[\s]?MB` match of the box's span, with its spaces removed. */
  function SizeOf(span: string): (r: Option<string>)
    ensures r.Some? ==> ' ' !in r.value
    ensures r.Some? <==> DigitsMB(span, 0).Some?
  {
    match DigitsMB(span, 0)
    case Some(s) => Some(ReplaceChar(s, ' ', ""))
    case None => None
  }

  /** "700 MB" after digit-free text is read as "700MB". */
  lemma SizeOfDigits(a: string, d: string, b: string)
    requires forall j :: 0 <= j < |a| ==> !IsDigit(a[j])
    requires d != [] && AllDigits(d)
    ensures SizeOf(a + d + " MB" + b) == Some(d + "MB")
  {
    DigitsMBOf(a, d, b);
    ReplaceCharConcat(d, " MB", ' ', "");
    assert ' ' !in d by {
      forall j | 0 <= j < |d| ensures d[j] != ' ' {
        assert IsDigit(d[j]);
      }
    }
    assert ReplaceChar(d, ' ', "") == d;
    assert " MB"[1..] == "MB" && "MB"[1..] == "B" && "B"[1..] == "";
    assert ReplaceChar("MB", ' ', "") == "MB";
    assert ReplaceChar(" MB", ' ', "") == "MB";
  }

  /** The `div.download` callback's effect: the last https link of the box, and the size of
      its span, each only when there is one. */
  function DownloadDetails(m: Movie, e: Element): (r: Movie)
    ensures r == m.(downloadLink := r.downloadLink, size := r.size)
    ensures var l := LastPrefixed(ChildAttrs(e, "a", "href"), Https);
      (l.None? ==> r.downloadLink == m.downloadLink) && (l.Some? ==> UrlString(r.downloadLink) == l.value)
    ensures var z := SizeOf(ChildText(e, "span"));
      (z.None? ==> r.size == m.size) && (z.Some? ==> r.size == z.value)
  {
    m.(downloadLink := LinkAfter(ChildAttrs(e, "a", "href"), m.downloadLink),
       size := OrElse(SizeOf(ChildText(e, "span")), m.size))
  }

  /** The `div.download` callback on the movie its request belongs to; the returned request
      is the visit of the movie's new download link, made with a fresh context (CollectorVisit). */
  method OnDownload(t: Scraped, ctx: string, e: Element) returns (visit: Request)
    requires t.Valid() && t.HasEntry(ctx)
    modifies t
    ensures t.Valid() && t.next == old(t.next)
    ensures var k := EntryKey(ctx); t.movies == old(t.movies)[k := DownloadDetails(old(t.movies)[k], e)]
    ensures visit == CollectorVisit(UrlString(t.movies[EntryKey(ctx)].downloadLink))
  {
    var key := EntryKey(ctx);
    var movie := t.movies[key];
    var link := LinksLoop(movie.downloadLink, ChildAttrs(e, "a", "href"));
    movie := movie.(downloadLink := link);
    var stringsub := SizeOf(ChildText(e, "span"));
    if stringsub.Some? {
      movie := movie.(size := stringsub.value);
    }
    assert movie == DownloadDetails(t.movies[key], e);
    t.Update(key, movie);
    visit := CollectorVisit(UrlString(movie.downloadLink));
  }

  // ------------------------------------------------------------------ List and Search

  /** "N/" for page N + 1, the element List joins on. */
  function PageDir(page: int): (w: string)
    ensures w == Itoa(page - 1) + "/" && Paths.IsRelativeSegment(Itoa(page - 1))
  {
    ItoaHasNoSlash(page - 1);
    Itoa(page - 1) + "/"
  }

  /** List: ListMode, "(page-1)/" joined onto the current list path and a "/" appended, then a
      scrape. */
  method List(e: Props, page: int, scrape: Scraper) returns (r: SearchResult)
    requires e.Valid()
    modifies e
    ensures e.Valid() && e.mode == ListMode
    ensures e.listURL == old(e.listURL).(path := Paths.Join([old(e.listURL.path), PageDir(page)]) + "/")
    ensures e.searchURL == old(e.searchURL) && e.searchQuery == old(e.searchQuery) && e.listQuery == old(e.listQuery)
    ensures r == SearchResult(RecentUploads(page), scrape(ListMode, e.listURL))
  {
    e.mode := ListMode;
    var pageParam := PageDir(page);
    e.listURL := e.listURL.(path := Paths.Join([e.listURL.path, pageParam]) + "/");
    r := SearchResult(RecentUploads(page), scrape(e.mode, e.ParseURL()));
  }

  /** On a clean list path, List(page) appends "/<page-1>/": page 1 of "/hollywood_movies/page"
      is "/hollywood_movies/page/0/". */
  lemma ListPathOf(p: string, page: int)
    requires p != [] && Paths.NoDoubleSlash(p) && p[|p| - 1] != '/'
    ensures Paths.Join([p, PageDir(page)]) + "/" == p + "/" + Itoa(page - 1) + "/"
  {
    var w := Itoa(page - 1);
    Paths.JoinTrailingSlash(p, w);
    Paths.JoinSegment(p, w);
    Paths.SlashAppended(p);
    Paths.CollapseFree(p + "/");
  }

  /** Search: the query under "movie"; the first parameter is the query and must exist. */
  method Search(e: Props, param: seq<string>, scrape: Scraper) returns (r: SearchResult)
    requires e.Valid() && |param| >= 1
    modifies e
    ensures e.Valid() && e.mode == SearchMode
    ensures e.searchQuery == Set(old(e.searchQuery), "movie", param[0])
    ensures e.searchURL == old(e.searchURL).(rawQuery := Encode(e.searchQuery))
    ensures e.listURL == old(e.listURL) && e.listQuery == old(e.listQuery)
    ensures r == SearchResult(param[0], scrape(SearchMode, e.searchURL))
  {
    var query := param[0];
    e.mode := SearchMode;
    e.SetSearchParam("movie", query);
    r := SearchResult(query, scrape(e.mode, e.ParseURL()));
  }
}
