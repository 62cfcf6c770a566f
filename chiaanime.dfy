/** The ChiaAnime adapter (engine/chiaanime.go): fixed listing selectors, the title and cover
    rules, the detail callbacks (shared with MyCoolMoviez, apart from the download box), and
    the URL building of List and Search. */
module ChiaAnime {
  import opened Wrappers
  import opened Text
  import opened Urls
  import opened Types
  import opened Patterns
  import opened Props
  import opened Engines
  import opened PanelSites

  const Name: string := "ChiaAnime"
  const Base: string := "https://m.chia-anime.me"
  const Description: string := "Founded by a group of college students that love to watch anime"

  /** NewChiaAnimeEngine. */
  method New() returns (e: Props)
    ensures fresh(e) && e.Valid()
    ensures e.name == Name && e.description == Description && e.mode == SearchMode
    ensures e.baseURL == ParseUrl(Base)
    ensures e.searchURL == ParseUrl(Base).(path := "/catlist.php")
    ensures e.listURL == ParseUrl(Base).(path := "/")
    ensures e.searchQuery == map[] && e.listQuery == map[]
  {
    e := new Props(Name, Description, Base, "/catlist.php", "/");
  }

  /** getParseAttrs: the same selectors in every mode, and never an error. */
  function ParseAttrs(mode: Mode): (r: Result<(string, string)>)
    ensures r == Ok(("table.items", "tr.episode"))
  {
    Ok(("table.items", "tr.episode"))
  }

  // ------------------------------------------------------------------ one listing item

  const BackgroundOpen: string := "background: url ('"
  const BackgroundClose: string := "');"

  /** `background: url \('.*'\);` on the span's style: the whole match, when there is one. */
  function Background(style: string): (r: Option<string>)
    ensures r.Some? ==> HasPrefix(r.value, BackgroundOpen) && HasSuffix(r.value, BackgroundClose)
  {
    match Capture(style, BackgroundOpen, BackgroundClose, 0, false)
    case Some(u) =>
      var w := BackgroundOpen + u + BackgroundClose;
      assert w[..|BackgroundOpen|] == BackgroundOpen;
      assert w[|w| - |BackgroundClose|..] == BackgroundClose;
      Some(w)
    case None => None
  }

  /** A style that is exactly one background declaration is matched whole. */
  lemma BackgroundOfStyle(u: string)
    requires '\n' !in u
    ensures Background(BackgroundOpen + u + BackgroundClose) == Some(BackgroundOpen + u + BackgroundClose)
  {
    CaptureLine(BackgroundOpen, u, BackgroundClose);
  }

  /** What parseSingleMovie needs not to panic: a second anchor, and a background match. */
  predicate Parsable(el: Element) {
    |ChildTexts(el, "a")| >= 2 && Background(ChildAttr(el, "span", "style")).Some?
  }

  /** parseSingleMovie: the second anchor's text is the title and the whole background
      declaration is the cover; a movie, not a series. */
  function ParseSingleMovie(el: Element, index: int): (m: Movie)
    requires Parsable(el)
    ensures m.index == index && !m.isSeries && m.source == Name
    ensures m.title == ChildTexts(el, "a")[1]
    ensures HasPrefix(m.coverPhotoLink, BackgroundOpen) && HasSuffix(m.coverPhotoLink, BackgroundClose)
    ensures Some(m.coverPhotoLink) == Background(ChildAttr(el, "span", "style"))
    ensures UrlString(m.downloadLink) == AbsoluteUrl(el.request, ChildAttr(el, "a", "href"))
    ensures m.size == "" && m.description == "" && m.year == 0 && m.sDownloadLink == map[]
  {
    ChildTextsTrimmed(el, "a");
    TrimSpaceOfTrimmed(ChildTexts(el, "a")[1]);
    EmptyMovie.(index := index, source := Name,
                title := TrimSpace(ChildTexts(el, "a")[1]),
                coverPhotoLink := Background(ChildAttr(el, "span", "style")).value,
                downloadLink := ParseUrl(AbsoluteUrl(el.request, ChildAttr(el, "a", "href"))))
  }

  /** The parser Scrape's discovery loop calls. An item parseSingleMovie would panic on yields
      nothing here; DiscoversEveryItem speaks only of listings without such items. */
  function Parser(mode: Mode): (Element, int) -> Option<Movie> {
    (el: Element, i: int) => if Parsable(el) then Some(ParseSingleMovie(el, i)) else None
  }

  /** Discovery with this parser keeps every listing item, each under its own ordinal. */
  lemma DiscoversEveryItem(mode: Mode, items: seq<Element>, start: int)
    requires forall j :: 0 <= j < |items| ==> Parsable(items[j])
    ensures KeepsIndex(Parser(mode))
    ensures |Parsed(items, Parser(mode), start)| == |items|
    ensures forall j :: 0 <= j < |items| ==> Parsed(items, Parser(mode), start)[j].index == start + j
  {
    ParsedAll(items, Parser(mode), start);
    ParsedOrdinals(items, Parser(mode), start);
  }

  // ------------------------------------------------------------------ the size of the box

  /** The characters of the class `[ Size : (\d+) MB ]` as written. */
  predicate InSizeClass(c: char) {
    c in " Size:(+)MB" || IsDigit(c)
  }

  /** The first position at or after `from` holding a character of the class. */
  function FirstInClass(s: string, from: nat): (r: Option<nat>)
    requires from <= |s|
    ensures r.Some? ==> from <= r.value < |s| && InSizeClass(s[r.value])
    ensures r.Some? ==> forall j :: from <= j < r.value ==> !InSizeClass(s[j])
    ensures r.None? ==> forall j :: from <= j < |s| ==> !InSizeClass(s[j])
    decreases |s| - from
  {
    if from == |s| then None
    else if InSizeClass(s[from]) then Some(from)
    else FirstInClass(s, from + 1)
  }

  /** The size as the source computes it: the whole match of the bracketed pattern, which
      is a single character; with no such character the source panics. */
  function SizeAsWritten(span: string): (r: string)
    requires FirstInClass(span, 0).Some?
    ensures |r| == 1 && InSizeClass(r[0])
  {
    [span[FirstInClass(span, 0).value]]
  }

  const SizeLabel: string := "Size : "
  const SizeUnit: string := " MB"

  /** Where a match of `Size : (\d+) MB` starting at `i` ends. */
  function SizePhraseAt(s: string, i: nat): (r: Option<nat>)
    requires i <= |s|
    ensures r.Some? ==> i < r.value <= |s| && HasPrefix(s[i..r.value], SizeLabel) && HasSuffix(s[i..r.value], SizeUnit)
  {
    if !OccursAt(s, SizeLabel, i) then None
    else
      var a := i + |SizeLabel|;
      if a == |s| || !IsDigit(s[a]) then None
      else
        var d := DigitRunEnd(s, a);
        if OccursAt(s, SizeUnit, d) then
          assert s[i..d + 3][..|SizeLabel|] == s[i..a];
          assert s[i..d + 3][|s[i..d + 3]| - 3..] == s[d..d + 3];
          Some(d + 3)
        else None
  }

  /** The leftmost match of `Size : (\d+) MB` at or after `from`. */
  function SizePhraseFrom(s: string, from: nat): (r: Option<string>)
    requires from <= |s|
    ensures r.Some? ==> HasPrefix(r.value, SizeLabel) && HasSuffix(r.value, SizeUnit)
    ensures r.Some? ==> exists i :: (from <= i <= |s| && SizePhraseAt(s, i).Some?
                  && r.value == s[i..SizePhraseAt(s, i).value]
                  && forall j :: from <= j < i ==> SizePhraseAt(s, j).None?)
    ensures r.None? ==> forall i :: from <= i <= |s| ==> SizePhraseAt(s, i).None?
    decreases |s| - from
  {
    match SizePhraseAt(s, from)
    case Some(e) => Some(s[from..e])
    case None => if from == |s| then None else SizePhraseFrom(s, from + 1)
  }

  /** The size as evidently intended: the leftmost whole match of `Size : (\d+) MB`, and
      None exactly when the span holds no match. */
  function SizePhrase(span: string): (r: Option<string>)
    ensures r.Some? ==> HasPrefix(r.value, SizeLabel) && HasSuffix(r.value, SizeUnit)
    ensures r.Some? ==> exists i :: (0 <= i <= |span| && SizePhraseAt(span, i).Some?
                  && r.value == span[i..SizePhraseAt(span, i).value]
                  && forall j :: 0 <= j < i ==> SizePhraseAt(span, j).None?)
    ensures r.None? <==> forall i :: 0 <= i <= |span| ==> SizePhraseAt(span, i).None?
  {
    SizePhraseFrom(span, 0)
  }

  /** A span that starts with the size phrase gives that phrase, where the bracketed pattern
      gives only its first letter. */
  lemma SizeClassKeepsOneLetter(d: string, b: string)
    requires d != [] && AllDigits(d)
    ensures SizePhrase(SizeLabel + d + SizeUnit + b) == Some(SizeLabel + d + SizeUnit)
    ensures FirstInClass(SizeLabel + d + SizeUnit + b, 0) == Some(0)
    ensures SizeAsWritten(SizeLabel + d + SizeUnit + b) == "S"
  {
    var s := SizeLabel + d + SizeUnit + b;
    var a := |SizeLabel|;
    var k := a + |d|;
    assert s[0..a] == SizeLabel;
    forall j | a <= j < k ensures IsDigit(s[j]) {
      assert s[j] == d[j - a];
    }
    assert s[k..k + 3] == SizeUnit;
    DigitRunEndAt(s, a, k);
    assert SizePhraseAt(s, 0) == Some(k + 3);
    assert s[0..k + 3] == SizeLabel + d + SizeUnit;
    assert s[0] == 'S';
  }

  // ------------------------------------------------------------------ the download box

  /** The `div.download` callback's effect as written: the last https link of the box, when
      there is one, and the single character the bracketed pattern matches in its span as the
      size; with no such character the source panics. */
  function DownloadDetails(m: Movie, e: Element): (r: Movie)
    requires FirstInClass(ChildText(e, "span"), 0).Some?
    ensures r == m.(downloadLink := r.downloadLink, size := r.size)
    ensures var l := LastPrefixed(ChildAttrs(e, "a", "href"), Https);
      (l.None? ==> r.downloadLink == m.downloadLink) && (l.Some? ==> UrlString(r.downloadLink) == l.value)
    ensures r.size == SizeAsWritten(ChildText(e, "span")) && |r.size| == 1
  {
    m.(downloadLink := LinkAfter(ChildAttrs(e, "a", "href"), m.downloadLink),
       size := SizeAsWritten(ChildText(e, "span")))
  }

  /** The `div.download` callback's effect with the intended size rule: the size phrase of
      the span when there is one, the size kept otherwise. */
  function DownloadDetailsCorrected(m: Movie, e: Element): (r: Movie)
    ensures r == m.(downloadLink := r.downloadLink, size := r.size)
    ensures var l := LastPrefixed(ChildAttrs(e, "a", "href"), Https);
      (l.None? ==> r.downloadLink == m.downloadLink) && (l.Some? ==> UrlString(r.downloadLink) == l.value)
    ensures var z := SizePhrase(ChildText(e, "span"));
      (z.None? ==> r.size == m.size) && (z.Some? ==> r.size == z.value)
  {
    m.(downloadLink := LinkAfter(ChildAttrs(e, "a", "href"), m.downloadLink),
       size := OrElse(SizePhrase(ChildText(e, "span")), m.size))
  }

  /** The two rules differ in the size alone; on a span that opens with the size phrase the
      code as written keeps the letter "S" where the intended rule keeps the phrase. */
  lemma DownloadDetailsDiffer(m: Movie, e: Element, d: string, b: string)
    requires FirstInClass(ChildText(e, "span"), 0).Some?
    ensures DownloadDetails(m, e) == DownloadDetailsCorrected(m, e).(size := SizeAsWritten(ChildText(e, "span")))
    ensures d != [] && AllDigits(d) && ChildText(e, "span") == SizeLabel + d + SizeUnit + b ==>
      DownloadDetails(m, e).size == "S" && DownloadDetailsCorrected(m, e).size == SizeLabel + d + SizeUnit
  {
    if d != [] && AllDigits(d) && ChildText(e, "span") == SizeLabel + d + SizeUnit + b {
      SizeClassKeepsOneLetter(d, b);
    }
  }

  /** The `div.download` callback on the movie its request belongs to; the returned request
      is the visit of the movie's new download link, made with a fresh context (CollectorVisit). */
  method OnDownload(t: Scraped, ctx: string, e: Element) returns (visit: Request)
    requires t.Valid() && t.HasEntry(ctx)
    requires FirstInClass(ChildText(e, "span"), 0).Some?
    modifies t
    ensures t.Valid() && t.next == old(t.next)
    ensures var k := EntryKey(ctx); t.movies == old(t.movies)[k := DownloadDetails(old(t.movies)[k], e)]
    ensures visit == CollectorVisit(UrlString(t.movies[EntryKey(ctx)].downloadLink))
  {
    var key := EntryKey(ctx);
    var movie := t.movies[key];
    var link := LinksLoop(movie.downloadLink, ChildAttrs(e, "a", "href"));
    movie := movie.(downloadLink := link);
    var stringsub := SizeAsWritten(ChildText(e, "span"));
    movie := movie.(size := stringsub);
    assert movie == DownloadDetails(t.movies[key], e);
    t.Update(key, movie);
    visit := CollectorVisit(UrlString(movie.downloadLink));
  }

  // ------------------------------------------------------------------ List and Search

  /** List as written: the "paged" query is built from a copy and never stored, so the list
      URL, and with it the scrape, is the same for every page. */
  method List(e: Props, page: int, scrape: Scraper) returns (r: SearchResult)
    requires e.Valid()
    modifies e
    ensures e.Valid() && e.mode == ListMode
    ensures e.listURL == old(e.listURL) && e.listQuery == old(e.listQuery)
    ensures e.searchURL == old(e.searchURL) && e.searchQuery == old(e.searchQuery)
    ensures r == SearchResult(RecentUploads(page), scrape(ListMode, old(e.listURL)))
  {
    e.mode := ListMode;
    var q := Set(e.listQuery, "paged", Itoa(page));
    r := SearchResult(RecentUploads(page), scrape(e.mode, e.ParseURL()));
  }

  /** List as evidently intended: "paged" set to the page on the list URL. */
  method ListCorrected(e: Props, page: int, scrape: Scraper) returns (r: SearchResult)
    requires e.Valid()
    modifies e
    ensures e.Valid() && e.mode == ListMode
    ensures e.listQuery == Set(old(e.listQuery), "paged", Itoa(page))
    ensures e.listURL == old(e.listURL).(rawQuery := Encode(e.listQuery))
    ensures e.searchURL == old(e.searchURL) && e.searchQuery == old(e.searchQuery)
    ensures r == SearchResult(RecentUploads(page), scrape(ListMode, e.listURL))
  {
    e.mode := ListMode;
    e.SetListParam("paged", Itoa(page));
    r := SearchResult(RecentUploads(page), scrape(e.mode, e.ParseURL()));
  }

  /** With the intended List, different pages give different list queries. */
  lemma PagesGiveDistinctQueries(q: Values, a: int, b: int)
    requires a != b && MinInt64 <= a <= MaxInt64 && MinInt64 <= b <= MaxInt64
    ensures Get(Set(q, "paged", Itoa(a)), "paged") != Get(Set(q, "paged", Itoa(b)), "paged")
  {
    AtoiItoa(a);
    AtoiItoa(b);
  }

  /** Search: the query under "tags"; the first parameter is the query and must exist. */
  method Search(e: Props, param: seq<string>, scrape: Scraper) returns (r: SearchResult)
    requires e.Valid() && |param| >= 1
    modifies e
    ensures e.Valid() && e.mode == SearchMode
    ensures e.searchQuery == Set(old(e.searchQuery), "tags", param[0])
    ensures e.searchURL == old(e.searchURL).(rawQuery := Encode(e.searchQuery))
    ensures e.listURL == old(e.listURL) && e.listQuery == old(e.listQuery)
    ensures r == SearchResult(param[0], scrape(SearchMode, e.searchURL))
  {
    var query := param[0];
    e.mode := SearchMode;
    e.SetSearchParam("tags", query);
    r := SearchResult(query, scrape(e.mode, e.ParseURL()));
  }
}
