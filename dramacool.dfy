/** The DramaCool adapter (engine/dramacool.go): listing selectors, the per-item rules with the
    episode-suffix stripping, and the drama-details callback. */
module DramaCool {
  import opened Wrappers
  import opened Text
  import opened Urls
  import opened Types
  import opened Patterns
  import opened Props
  import opened Engines

  const Name: string := "DramaCool"
  const Base: string := "https://www.dramacool9.co"
  const Description: string := "Search from over 1000's of encoded anime available"

  /** NewDramaCoolEngine. */
  method New() returns (e: Props)
    ensures fresh(e) && e.Valid()
    ensures e.name == Name && e.description == Description && e.mode == SearchMode
    ensures e.baseURL == ParseUrl(Base)
    ensures e.searchURL == ParseUrl(Base).(path := "/")
    ensures e.listURL == ParseUrl(Base).(path := "/category/latest-asian-drama-releases/")
    ensures e.searchQuery == map[] && e.listQuery == map[]
  {
    e := new Props(Name, Description, Base, "/", "/category/latest-asian-drama-releases/");
  }

  /** getParseAttrs: (container, item) selectors per mode; any other mode is an error. */
  function ParseAttrs(mode: Mode): (r: Result<(string, string)>)
    ensures r.Ok? <==> mode == SearchMode || mode == ListMode
    ensures mode == SearchMode ==> r == Ok(("ul.list-thumb", "li"))
    ensures mode == ListMode ==> r == Ok(("div#drama", "li"))
    ensures r.Err? ==> r.error == InvalidMode(mode)
  {
    if mode == SearchMode then Ok(("ul.list-thumb", "li"))
    else if mode == ListMode then Ok(("div#drama", "li"))
    else Err(InvalidMode(mode))
  }

  // ------------------------------------------------------------------ one listing item

  const EpisodeMarker: string := "-episode-"

  /** `(-episode-.+)` removed from the end of the link: the match runs from the leftmost
      marker with something after it to the end of that line, and it is cut off only when it
      is a suffix of the link. The result is always a prefix of the link. */
  function ShowLink(link: string): (r: string)
    ensures HasPrefix(link, r)
  {
    match LabelToLineEnd(link, EpisodeMarker, 0)
    case None => link
    case Some((i, e)) => TrimSuffix(link, link[i..e])
  }

  /** A link without the marker is kept. */
  lemma ShowLinkWithoutMarker(link: string)
    requires !Contains(link, EpisodeMarker)
    ensures ShowLink(link) == link
  {
    match LabelToLineEnd(link, EpisodeMarker, 0)
    case None =>
    case Some((i, e)) =>
      ContainsWitness(link, EpisodeMarker, i);
  }

  /** The first marker and everything after it on a single-line link is removed. */
  lemma ShowLinkStripsEpisode(show: string, rest: string)
    requires rest != [] && '\n' !in rest
    requires forall k :: 0 <= k < |show| ==> !OccursAt(show + EpisodeMarker + rest, EpisodeMarker, k)
    ensures ShowLink(show + EpisodeMarker + rest) == show
  {
    var link := show + EpisodeMarker + rest;
    var a := |show| + |EpisodeMarker|;
    assert link[|show|..a] == EpisodeMarker;
    forall j | a <= j < |link| ensures link[j] != '\n' {
      assert link[j] == rest[j - a];
    }
    LineEndAt(link, a, |link|);
    assert OccursAt(link, EpisodeMarker, |show|);
    var r := LabelToLineEnd(link, EpisodeMarker, 0);
    assert r.Some?;
    assert r.value.0 <= |show|;
    assert r.value.0 == |show|;
    assert link[|show|..|link|] == link[|show|..];
    assert link[..|show|] == show;
  }

  /** parseSingleMovie: every item is a series of unknown size, its link resolved against the
      listing page and stripped of its episode suffix. */
  function ParseSingleMovie(el: Element, index: int): (m: Movie)
    ensures m.index == index && m.isSeries && m.source == Name && m.size == "---MB"
    ensures m.title == ChildAttr(el, "a", "title")
    ensures m.coverPhotoLink == ChildAttr(el, "img", "src")
    ensures UrlString(m.downloadLink) == ShowLink(AbsoluteUrl(el.request, ChildAttr(el, "a", "href")))
    ensures m.description == "" && m.year == 0 && m.category == "" && m.sDownloadLink == map[]
  {
    TrimSpaceOfTrimmed(ChildAttr(el, "a", "title"));
    var link := AbsoluteUrl(el.request, ChildAttr(el, "a", "href"));
    EmptyMovie.(index := index, isSeries := true, source := Name, size := "---MB",
                title := TrimSpace(ChildAttr(el, "a", "title")),
                coverPhotoLink := ChildAttr(el, "img", "src"),
                downloadLink := ParseUrl(ShowLink(link)))
  }

  /** The parser Scrape's discovery loop calls; the mode only chooses the selectors. */
  function Parser(mode: Mode): (Element, int) -> Option<Movie> {
    (el: Element, i: int) => Some(ParseSingleMovie(el, i))
  }

  /** Discovery with this parser keeps every listing item, each under its own ordinal. */
  lemma DiscoversEveryItem(mode: Mode, items: seq<Element>, start: int)
    ensures KeepsIndex(Parser(mode))
    ensures |Parsed(items, Parser(mode), start)| == |items|
    ensures forall j :: 0 <= j < |items| ==> Parsed(items, Parser(mode), start)[j].index == start + j
  {
    ParsedAll(items, Parser(mode), start);
    ParsedOrdinals(items, Parser(mode), start);
  }

  // ------------------------------------------------------------------ the details callback

  /** `Genres: (.+)` on the genres paragraph. */
  function GenresOf(e: Element): Option<string> {
    AfterLabel(ChildText(e, "p.genres"), "Genres: ")
  }

  /** `Release Year: (.+)` on the release paragraph, when the capture is a decimal integer. */
  function ReleaseYearOf(e: Element): (r: Option<int>)
    ensures r.Some? ==> MinInt64 <= r.value <= MaxInt64
  {
    match AfterLabel(ChildText(e, "p.release-year"), "Release Year: ")
    case Some(y) => if Atoi(y).ok then Some(Atoi(y).value) else None
    case None => None
  }

  /** `(?s)Synopsis:(.+)Also known as:` on the synopsis text, trimmed: everything between the
      first marker and the last closing marker, across lines. */
  function SynopsisOf(e: Element): (r: Option<string>)
    ensures r.Some? ==> IsTrimmed(r.value)
  {
    match Capture(ChildText(e, "div.synopsis"), "Synopsis:", "Also known as:", 1, true)
    case Some(d) => Some(TrimSpace(d))
    case None => None
  }

  /** The details' effect on a movie: the category, the year and the description, each only
      when its pattern matches (and, for the year, parses). */
  function DramaDetails(m: Movie, e: Element): (r: Movie)
    ensures r == m.(category := r.category, year := r.year, description := r.description)
  {
    m.(category := if GenresOf(e).Some? then GenresOf(e).value else m.category,
       year := if ReleaseYearOf(e).Some? then ReleaseYearOf(e).value else m.year,
       description := if SynopsisOf(e).Some? then SynopsisOf(e).value else m.description)
  }

  /** Paragraphs in the expected shape set all three fields. */
  lemma DetailsFromLabels(m: Movie, e: Element, genres: string, year: int, synopsis: string)
    requires genres != [] && '\n' !in genres && ChildText(e, "p.genres") == "Genres: " + genres
    requires MinInt64 <= year <= MaxInt64 && ChildText(e, "p.release-year") == "Release Year: " + Itoa(year)
    requires synopsis != [] && ChildText(e, "div.synopsis") == "Synopsis:" + synopsis + "Also known as:"
    ensures DramaDetails(m, e) == m.(category := genres, year := year, description := TrimSpace(synopsis))
  {
    AfterLabelWhole("Genres: ", genres);
    ItoaChars(year);
    AfterLabelWhole("Release Year: ", Itoa(year));
    AtoiItoa(year);
    CaptureWhole("Synopsis:", synopsis, "Also known as:");
  }

  /** Paragraphs without the labels leave the movie as it was. */
  lemma DetailsWithoutLabels(m: Movie, e: Element)
    requires !Contains(ChildText(e, "p.genres"), "Genres: ")
    requires !Contains(ChildText(e, "p.release-year"), "Release Year: ")
    requires !Contains(ChildText(e, "div.synopsis"), "Synopsis:")
    ensures DramaDetails(m, e) == m
  {
    AfterLabelAbsent(ChildText(e, "p.genres"), "Genres: ");
    AfterLabelAbsent(ChildText(e, "p.release-year"), "Release Year: ");
    CaptureAbsent(ChildText(e, "div.synopsis"), "Synopsis:", "Also known as:", 1, true);
  }

  /** A release year that is not a number leaves the year alone. */
  lemma YearNeedsNumber(m: Movie, e: Element, y: string)
    requires ChildText(e, "p.release-year") == "Release Year: " + y && y != [] && '\n' !in y
    requires !Atoi(y).ok
    ensures DramaDetails(m, e).year == m.year
  {
    AfterLabelWhole("Release Year: ", y);
  }

  /** The "div.drama-details" callback on the movie its request belongs to. */
  method OnDetails(t: Scraped, ctx: string, e: Element)
    requires t.Valid() && t.HasEntry(ctx)
    modifies t
    ensures t.Valid() && t.next == old(t.next)
    ensures t.movies == old(t.movies)[EntryKey(ctx) := DramaDetails(old(t.movies)[EntryKey(ctx)], e)]
  {
    t.Apply(ctx, (m: Movie) => DramaDetails(m, e));
  }
}
