/** The Nkiri adapter (engine/nkiri.go): listing selectors, the per-item rules, the walk over
    the sections of a detail page, and the category-by-category List. */
module Nkiri {
  import opened Wrappers
  import opened Text
  import opened Urls
  import opened Escaping
  import opened Types
  import opened Patterns
  import opened Props
  import opened Engines
  import Paths

  const Name: string := "Nkiri"
  const Base: string := "https://nkiri.com/"
  const Description: string :=
    "Nkiri is an entertainment website where you can download Hollywood, Korean, Chinese and other movies, TV Series and Dramas freely and easily."

  /** The category paths List walks, in order; the last three sit under "asian-movies". The
      engine never changes them. */
  const ListCategories: seq<string> := [
    "international",
    "african",
    AsianMovies + "/" + "download-bollywood-movies",
    AsianMovies + "/" + "download-korean-movies",
    AsianMovies + "/" + "download-philippine-movies"
  ]
  const AsianMovies: string := "asian-movies"

  /** NewNkiriEngine. */
  method New() returns (e: Props)
    ensures fresh(e) && e.Valid()
    ensures e.name == Name && e.description == Description && e.mode == SearchMode
    ensures e.baseURL == ParseUrl(Base)
    ensures e.searchURL == ParseUrl(Base).(path := "")
    ensures e.listURL == ParseUrl(Base).(path := "/category/")
    ensures e.searchQuery == map[] && e.listQuery == map[]
  {
    e := new Props(Name, Description, Base, "", "/category/");
  }

  /** getParseAttrs: (container, item) selectors per mode; any other mode is an error. */
  function ParseAttrs(mode: Mode): (r: Result<(string, string)>)
    ensures r.Ok? <==> mode == SearchMode || mode == ListMode
    ensures mode == SearchMode ==> r == Ok(("div.site-content", "article"))
    ensures mode == ListMode ==> r == Ok(("div.entries", "article.blog-entry"))
    ensures r.Err? ==> r.error == InvalidMode(mode)
  {
    if mode == SearchMode then Ok(("div.site-content", "article"))
    else if mode == ListMode then Ok(("div.entries", "article.blog-entry"))
    else Err(InvalidMode(mode))
  }

  // ------------------------------------------------------------------ one listing item

  /** The characters `[^\w()]` does not match: ASCII letters, digits, '_' and parentheses. */
  predicate IsTitleChar(c: char) {
    'a' <= c <= 'z' || 'A' <= c <= 'Z' || '0' <= c <= '9' || c == '_' || c == '(' || c == ')'
  }

  /** ReplaceAllString(`[^\w()]`, "_"): every other character becomes one '_'. */
  function Sanitise(s: string): (r: string)
    ensures |r| == |s|
    ensures forall i :: 0 <= i < |s| ==> r[i] == (if IsTitleChar(s[i]) then s[i] else '_')
  {
    if s == [] then [] else [if IsTitleChar(s[0]) then s[0] else '_'] + Sanitise(s[1..])
  }

  /** A sanitised title holds title characters only, and a title made of them is left alone;
      together these make sanitising idempotent. */
  lemma SanitiseClean(s: string)
    ensures forall i :: 0 <= i < |Sanitise(s)| ==> IsTitleChar(Sanitise(s)[i])
    ensures Sanitise(Sanitise(s)) == Sanitise(s)
    ensures (forall i :: 0 <= i < |s| ==> IsTitleChar(s[i])) ==> Sanitise(s) == s
  {
  }

  /** The category rule: one leading "Download" and one trailing "Movie" are dropped. */
  function CategoryOf(piece: string): (c: string)
    ensures |c| <= |piece|
  {
    TrimSuffix(TrimPrefix(piece, "Download"), "Movie")
  }

  lemma CategoryOfFramed(c: string)
    ensures CategoryOf("Download" + c + "Movie") == c
  {
    assert "Download" + c + "Movie" == "Download" + (c + "Movie");
    TrimPrefixConcat("Download", c + "Movie");
    TrimSuffixConcat(c, "Movie");
  }

  /** The heading split on " | " as the code reads it: the guard only asks for one piece, yet
      the second piece is read as well, so the heading must contain " | ". */
  function TitleAndCategoryAsWritten(h2: string): (r: (string, string))
    requires |Split(h2, " | ")| >= 2
    ensures r.0 == Sanitise(Split(h2, " | ")[0]) && r.1 == CategoryOf(Split(h2, " | ")[1])
  {
    var parts := Split(h2, " | ");
    (Sanitise(parts[0]), CategoryOf(parts[1]))
  }

  /** The guard `len >= 1` holds for every heading, but a heading without a '|' splits into one
      piece, so the as-written rule cannot be applied to it: the item aborts the scrape. */
  lemma GuardAdmitsSinglePiece(h2: string)
    requires '|' !in h2
    ensures |Split(h2, " | ")| >= 1
    ensures Split(h2, " | ") == [h2]
  {
    forall k | 0 <= k <= |h2| ensures !OccursAt(h2, " | ", k) {
      if k + 3 <= |h2| {
        assert h2[k..k + 3][1] == h2[k + 1];
      }
    }
  }

  /** The evidently intended rule: the title from the first piece always, the category from
      the second piece when there is one. */
  function TitleAndCategory(h2: string): (r: (string, string))
    ensures r.0 == Sanitise(Split(h2, " | ")[0])
    ensures |Split(h2, " | ")| >= 2 ==> r == TitleAndCategoryAsWritten(h2)
    ensures |Split(h2, " | ")| < 2 ==> r.1 == ""
  {
    var parts := Split(h2, " | ");
    (Sanitise(parts[0]), if |parts| >= 2 then CategoryOf(parts[1]) else "")
  }

  /** What parseSingleMovie needs not to panic: a heading with a second " | " piece. */
  predicate Parsable(el: Element) {
    |Split(ChildText(el, "h2"), " | ")| >= 2
  }

  /** The movie parseSingleMovie builds around a given title and category. */
  function ItemMovie(mode: Mode, el: Element, index: int, title: string, category: string): (m: Movie)
    requires forall i :: 0 <= i < |title| ==> IsTitleChar(title[i])
    ensures m.index == index && m.source == Name && !m.isSeries
    ensures m.title == title && m.category == category
    ensures m.year == YearOf(title)
    ensures m.coverPhotoLink == ChildAttr(el, "img", "src")
    ensures m.uploadDate == (if mode == ListMode then ChildText(el, "div.blog-entry-date") else "")
    ensures UrlString(m.downloadLink) == ChildAttr(el, "a", "href")
    ensures m.size == "" && m.description == "" && m.sDownloadLink == map[]
  {
    TrimSpaceOfTrimmed(ChildText(el, "div.blog-entry-date"));
    EmptyMovie.(index := index, source := Name, coverPhotoLink := ChildAttr(el, "img", "src"),
                title := title, category := category,
                uploadDate := if mode == ListMode then TrimSpace(ChildText(el, "div.blog-entry-date")) else "",
                downloadLink := ParseUrl(ChildAttr(el, "a", "href")), year := YearOf(title))
  }

  /** parseSingleMovie as written: the title from the first piece of the heading and the
      category from the second, which must exist. */
  function ParseSingleMovie(mode: Mode, el: Element, index: int): (m: Movie)
    requires Parsable(el)
    ensures m.index == index && m.source == Name && !m.isSeries
    ensures (m.title, m.category) == TitleAndCategoryAsWritten(ChildText(el, "h2"))
    ensures forall i :: 0 <= i < |m.title| ==> IsTitleChar(m.title[i])
    ensures m.year == YearOf(m.title)
    ensures m.coverPhotoLink == ChildAttr(el, "img", "src")
    ensures m.uploadDate == (if mode == ListMode then ChildText(el, "div.blog-entry-date") else "")
    ensures UrlString(m.downloadLink) == ChildAttr(el, "a", "href")
    ensures m.size == "" && m.description == "" && m.sDownloadLink == map[]
  {
    var tc := TitleAndCategoryAsWritten(ChildText(el, "h2"));
    SanitiseClean(Split(ChildText(el, "h2"), " | ")[0]);
    ItemMovie(mode, el, index, tc.0, tc.1)
  }

  /** parseSingleMovie with the corrected heading rule: defined on every item. */
  function ParseSingleMovieCorrected(mode: Mode, el: Element, index: int): (m: Movie)
    ensures m.index == index && m.source == Name && !m.isSeries
    ensures (m.title, m.category) == TitleAndCategory(ChildText(el, "h2"))
    ensures forall i :: 0 <= i < |m.title| ==> IsTitleChar(m.title[i])
    ensures m.year == YearOf(m.title)
    ensures m.coverPhotoLink == ChildAttr(el, "img", "src")
    ensures m.uploadDate == (if mode == ListMode then ChildText(el, "div.blog-entry-date") else "")
    ensures UrlString(m.downloadLink) == ChildAttr(el, "a", "href")
    ensures m.size == "" && m.description == "" && m.sDownloadLink == map[]
  {
    var tc := TitleAndCategory(ChildText(el, "h2"));
    SanitiseClean(Split(ChildText(el, "h2"), " | ")[0]);
    ItemMovie(mode, el, index, tc.0, tc.1)
  }

  /** The correction changes nothing where the code as written is defined, and on a heading
      without '|' it keeps the whole sanitised heading as the title with no category. */
  lemma CorrectedAgrees(mode: Mode, el: Element, index: int)
    ensures Parsable(el) ==> ParseSingleMovieCorrected(mode, el, index) == ParseSingleMovie(mode, el, index)
    ensures '|' !in ChildText(el, "h2") ==>
      !Parsable(el)
      && ParseSingleMovieCorrected(mode, el, index).title == Sanitise(ChildText(el, "h2"))
      && ParseSingleMovieCorrected(mode, el, index).category == ""
  {
    if '|' !in ChildText(el, "h2") {
      GuardAdmitsSinglePiece(ChildText(el, "h2"));
    }
  }

  /** The parser Scrape's discovery loop calls in the given mode. An item parseSingleMovie would
      panic on yields nothing here; DiscoversEveryItem speaks only of listings without such
      items. */
  function Parser(mode: Mode): (Element, int) -> Option<Movie> {
    (el: Element, i: int) => if Parsable(el) then Some(ParseSingleMovie(mode, el, i)) else None
  }

  /** Discovery with this parser keeps every listing item, each under its own ordinal. */
  lemma DiscoversEveryItem(mode: Mode, items: seq<Element>, start: int)
    requires forall j :: 0 <= j < |items| ==> Parsable(items[j])
    ensures KeepsIndex(Parser(mode))
    ensures |Parsed(items, Parser(mode), start)| == |items|
    ensures forall j :: 0 <= j < |items| ==> Parsed(items, Parser(mode), start)[j].index == start + j
  {
    ParsedAll(items, Parser(mode), start);
    ParsedOrdinals(items, Parser(mode), start);
  }

  // ------------------------------------------------------------------ the detail-page sections

  /** The button of a section starts with "Download Episode". */
  predicate IsEpisodeButton(s: Element) {
    HasPrefix(ChildText(s, "span.elementor-button-text"), "Download Episode")
  }

  /** The button of a section starts with "Download Movie". */
  predicate IsMovieButton(s: Element) {
    HasPrefix(ChildText(s, "span.elementor-button-text"), "Download Movie")
  }

  /** The alert title of a section starts with "Download Size". */
  predicate IsSizeAlert(s: Element) {
    HasPrefix(ChildText(s, "span.elementor-alert-title"), "Download Size")
  }

  /** The container text of a section starts with "Synopsis". */
  predicate IsSynopsisHeading(s: Element) {
    HasPrefix(ChildText(s, "div.elementor-container"), "Synopsis")
  }

  /** The link of a section's button. */
  function ButtonLink(s: Element): Url {
    ParseUrl(ChildAttr(s, "div.elementor-button-wrapper > a", "href"))
  }

  /** `(\d.*)` on the trimmed alert description, trimmed again: from the first digit to the
      end of that line; None when the description has no digit. */
  function SizeOf(s: Element): (r: Option<string>)
    ensures r.Some? ==> IsTrimmed(r.value) && '\n' !in r.value
  {
    match FromFirstDigit(TrimSpace(ChildText(s, "span.elementor-alert-description")))
    case None => None
    case Some(w) =>
      TrimSpaceKeepsAbsent(w, '\n');
      Some(TrimSpace(w))
  }

  /** What the callback reads from one `section.elementor-section`: which button it has, the
      button's link, the size when the section is a size alert
      with a digit in it, whether it is the synopsis heading, and its paragraph. */
  datatype Section = Section(episode: bool, movieButton: bool, link: Url, size: Option<string>,
                             synopsis: bool, paragraph: string)

  function ReadSection(s: Element): (r: Section)
    ensures r.episode <==> IsEpisodeButton(s)
    ensures r.movieButton <==> IsMovieButton(s)
    ensures r.size.Some? <==> IsSizeAlert(s) && SizeOf(s).Some?
    ensures r.size.Some? ==> r.size == SizeOf(s)
    ensures r.synopsis <==> IsSynopsisHeading(s)
    ensures r.link == ButtonLink(s) && r.paragraph == ChildText(s, "p")
  {
    Section(IsEpisodeButton(s), IsMovieButton(s), ButtonLink(s),
            if IsSizeAlert(s) then SizeOf(s) else None, IsSynopsisHeading(s), ChildText(s, "p"))
  }

  function ReadSections(es: seq<Element>): (r: seq<Section>)
    ensures |r| == |es| && forall i :: 0 <= i < |es| ==> r[i] == ReadSection(es[i])
  {
    seq(|es|, i requires 0 <= i < |es| => ReadSection(es[i]))
  }

  /** The state of the section walk: the movie so far, the episode links in order, and whether
      the previous section was the synopsis heading. */
  datatype Walk = Walk(movie: Movie, episodes: seq<Url>, nextSection: bool)

  /** The synopsis rule of one section: a heading raises the flag; the next section that is not
      a heading supplies the description and lowers it. */
  function SynopsisStep(m: Movie, s: Section, flag: bool): (Movie, bool) {
    if s.synopsis then (m, true)
    else if flag then (m.(description := s.paragraph), false)
    else (m, false)
  }

  /** One section: the button switch, then the size rule, then the synopsis rule. */
  function SectionStep(w: Walk, s: Section): Walk {
    var episodes := if s.episode then w.episodes + [s.link] else w.episodes;
    var m := if !s.episode && s.movieButton then w.movie.(downloadLink := s.link) else w.movie;
    var m2 := if s.size.Some? then m.(size := s.size.value) else m;
    var (m3, flag) := SynopsisStep(m2, s, w.nextSection);
    Walk(m3, episodes, flag)
  }

  /** The walk over the sections in document order. */
  function WalkSections(w: Walk, secs: seq<Section>): Walk
    decreases |secs|
  {
    if secs == [] then w else SectionStep(WalkSections(w, secs[..|secs| - 1]), secs[|secs| - 1])
  }

  /** The callback's effect on a movie: the walk, then the episode map numbered from "1" when
      there is at least one episode. */
  function SectionWrap(m: Movie, secs: seq<Section>): Movie {
    var w := WalkSections(Walk(m, [], false), secs);
    if |w.episodes| > 0 then w.movie.(isSeries := true, sDownloadLink := NumberedLinks(w.episodes, 1))
    else w.movie
  }

  /** The episode buttons' links, in document order: an independent reference for the walk. */
  function EpisodeButtons(secs: seq<Section>): seq<Url> {
    if secs == [] then [] else (if secs[0].episode then [secs[0].link] else []) + EpisodeButtons(secs[1..])
  }

  lemma {:induction false} EpisodeButtonsSnoc(secs: seq<Section>, s: Section)
    ensures EpisodeButtons(secs + [s]) == EpisodeButtons(secs) + (if s.episode then [s.link] else [])
    decreases |secs|
  {
    if secs != [] {
      assert (secs + [s])[1..] == secs[1..] + [s];
      EpisodeButtonsSnoc(secs[1..], s);
    } else {
      assert [s][1..] == [];
    }
  }

  /** The walk collects exactly the episode buttons' links, and it changes only the download
      link, the size and the description of the movie. */
  lemma {:induction false} WalkContent(w: Walk, secs: seq<Section>)
    ensures WalkSections(w, secs).episodes == w.episodes + EpisodeButtons(secs)
    ensures var m := WalkSections(w, secs).movie;
      m == w.movie.(downloadLink := m.downloadLink, size := m.size, description := m.description)
    decreases |secs|
  {
    if secs != [] {
      var n := |secs| - 1;
      assert secs == secs[..n] + [secs[n]];
      WalkContent(w, secs[..n]);
      EpisodeButtonsSnoc(secs[..n], secs[n]);
    }
  }

  /** After a non-empty walk the flag is raised exactly when the last section is a synopsis
      heading. */
  lemma WalkFlag(w: Walk, secs: seq<Section>)
    requires secs != []
    ensures WalkSections(w, secs).nextSection <==> secs[|secs| - 1].synopsis
  {
  }

  /** The walk's description is the starting one or the paragraph of a section that follows a
      synopsis heading without being one. */
  lemma {:induction false} WalkDescription(w: Walk, secs: seq<Section>)
    requires !w.nextSection
    ensures var d := WalkSections(w, secs).movie.description;
      d == w.movie.description
      || exists k :: 0 < k < |secs| && secs[k - 1].synopsis && !secs[k].synopsis && d == secs[k].paragraph
    decreases |secs|
  {
    if secs != [] {
      var n := |secs| - 1;
      var prev := WalkSections(w, secs[..n]);
      WalkDescription(w, secs[..n]);
      var d := WalkSections(w, secs).movie.description;
      if n == 0 {
        assert prev == w;
      } else if d != prev.movie.description {
        assert prev.nextSection && !secs[n].synopsis;
        WalkFlag(w, secs[..n]);
        assert secs[..n][n - 1] == secs[n - 1];
      } else if d != w.movie.description {
        var k :| 0 < k < n && secs[..n][k - 1].synopsis && !secs[..n][k].synopsis
          && prev.movie.description == secs[..n][k].paragraph;
        assert secs[..n][k - 1] == secs[k - 1] && secs[..n][k] == secs[k];
      }
    }
  }

  /** The callback's effect: the movie becomes a series exactly when some section carries an
      episode button, and then its episode map holds those buttons' links under "1", "2", ...;
      the index, title and every listing field survive. */
  lemma SectionWrapContent(m: Movie, secs: seq<Section>)
    ensures var r := SectionWrap(m, secs); var eps := EpisodeButtons(secs);
      r.index == m.index && r.title == m.title && r.year == m.year && r.coverPhotoLink == m.coverPhotoLink
      && (eps != [] ==> r.isSeries && r.sDownloadLink.Keys == NumberKeys(1, |eps|)
                        && forall j :: 0 <= j < |eps| ==> r.sDownloadLink[NumberKey(1, j)] == eps[j])
      && (eps == [] ==> r.isSeries == m.isSeries && r.sDownloadLink == m.sDownloadLink)
  {
    WalkContent(Walk(m, [], false), secs);
    assert [] + EpisodeButtons(secs) == EpisodeButtons(secs);
    NumberedLinksContent(EpisodeButtons(secs), 1);
  }

  /** The section loop with the callback's own variables: the movie, the episode map, the
      episode counter and the synopsis flag. */
  method WrapSections(start: Movie, secs: seq<Section>) returns (movie: Movie)
    ensures movie == SectionWrap(start, secs)
  {
    movie := start;
    var seriesMap: map<string, Url> := map[];
    var episode := 0;
    var nextSection := false;
    var i := 0;
    while i < |secs|
      invariant 0 <= i <= |secs|
      invariant movie == WalkSections(Walk(start, [], false), secs[..i]).movie
      invariant nextSection == WalkSections(Walk(start, [], false), secs[..i]).nextSection
      invariant episode == |WalkSections(Walk(start, [], false), secs[..i]).episodes|
      invariant seriesMap == NumberedLinks(WalkSections(Walk(start, [], false), secs[..i]).episodes, 1)
    {
      var inner := secs[i];
      ghost var w := WalkSections(Walk(start, [], false), secs[..i]);
      PrefixOfLonger(secs, i);
      ghost var w' := SectionStep(w, inner);
      assert WalkSections(Walk(start, [], false), secs[..i + 1]) == w';
      if inner.episode {
        NumberedLinksSnoc(w.episodes, inner.link, 1);
        episode := episode + 1;
        seriesMap := seriesMap[Itoa(episode) := inner.link];
      } else if inner.movieButton {
        movie := movie.(downloadLink := inner.link);
      }
      if inner.size.Some? {
        movie := movie.(size := inner.size.value);
      }
      if inner.synopsis {
        nextSection := true;
      } else if nextSection {
        movie := movie.(description := inner.paragraph);
        nextSection := false;
      }
      i := i + 1;
    }
    WholeSlice(secs);
    ghost var w := WalkSections(Walk(start, [], false), secs);
    NumberedLinksContent(w.episodes, 1);
    if |seriesMap| > 0 {
      movie := movie.(isSeries := true, sDownloadLink := seriesMap);
    }
    assert |w.episodes| > 0 ==> NumberKey(1, 0) in seriesMap.Keys;
  }

  /** The "div.elementor-section-wrap" callback on the movie its request belongs to. */
  method OnSectionWrap(t: Scraped, ctx: string, e: Element)
    requires t.Valid() && t.HasEntry(ctx)
    modifies t
    ensures t.Valid() && t.next == old(t.next)
    ensures var secs := ReadSections(ForEach(e, "section.elementor-section"));
      t.movies == old(t.movies)[EntryKey(ctx) := SectionWrap(old(t.movies)[EntryKey(ctx)], secs)]
  {
    var key := EntryKey(ctx);
    var secs := ReadSections(ForEach(e, "section.elementor-section"));
    var m := WrapSections(t.movies[key], secs);
    SectionWrapContent(t.movies[key], secs);
    t.Update(key, m);
  }

  // ------------------------------------------------------------------ List and Search

  /** The list path of one category page, built on the path List started from. */
  function CategoryPath(base: string, category: string, page: int): string {
    Paths.Join([base, category, PageSegment(page)])
  }

  /** What List collects: the scrape of every category page, in category order. */
  function ListAll(scrape: Scraper, u: Url, page: int, cats: seq<string>): seq<Movie>
    decreases |cats|
  {
    if cats == [] then []
    else
      var n := |cats| - 1;
      ListAll(scrape, u, page, cats[..n]) + scrape(ListMode, u.(path := CategoryPath(u.path, cats[n], page)))
  }

  /** One more category of ListAll. */
  lemma ListAllStep(scrape: Scraper, u: Url, page: int, cats: seq<string>, i: int)
    requires 0 <= i < |cats|
    ensures ListAll(scrape, u, page, cats[..i + 1])
            == ListAll(scrape, u, page, cats[..i]) + scrape(ListMode, u.(path := CategoryPath(u.path, cats[i], page)))
  {
    PrefixOfLonger(cats, i);
  }

  /** List: ListMode, then one scrape per category, each at the category's page path joined
      onto the path the list URL had when List began; the list URL keeps the last one. */
  method List(e: Props, page: int, scrape: Scraper) returns (r: SearchResult)
    requires e.Valid()
    modifies e
    ensures e.Valid() && e.mode == ListMode
    ensures e.listURL == old(e.listURL).(path := CategoryPath(old(e.listURL.path), ListCategories[|ListCategories| - 1], page))
    ensures e.searchURL == old(e.searchURL) && e.searchQuery == old(e.searchQuery) && e.listQuery == old(e.listQuery)
    ensures r == SearchResult(RecentUploads(page), ListAll(scrape, old(e.listURL), page, ListCategories))
  {
    e.mode := ListMode;
    ghost var u0 := e.listURL;
    var movies: seq<Movie> := [];
    var listCategoryPath := e.listURL.path;
    var i := 0;
    while i < |ListCategories|
      invariant 0 <= i <= |ListCategories|
      invariant e.Valid() && e.mode == ListMode
      invariant e.listURL == if i == 0 then u0 else u0.(path := CategoryPath(u0.path, ListCategories[i - 1], page))
      invariant e.searchURL == old(e.searchURL) && e.searchQuery == old(e.searchQuery) && e.listQuery == old(e.listQuery)
      invariant listCategoryPath == u0.path
      invariant movies == ListAll(scrape, u0, page, ListCategories[..i])
    {
      e.listURL := e.listURL.(path := CategoryPath(listCategoryPath, ListCategories[i], page));
      ListAllStep(scrape, u0, page, ListCategories, i);
      movies := movies + scrape(e.mode, e.ParseURL());
      i := i + 1;
    }
    WholeSlice(ListCategories);
    r := SearchResult(RecentUploads(page), movies);
  }

  /** A non-empty piece without slashes is a relative segment. */
  lemma PieceIsSegment(c: string)
    requires c != [] && '/' !in c
    ensures Paths.IsRelativeSegment(c)
  {
  }

  /** A category nested one level below another: two slash-free pieces. */
  lemma NestedIsSegment(a: string, d: string)
    requires a != [] && '/' !in a && d != [] && '/' !in d
    ensures Paths.IsRelativeSegment(a + "/" + d)
  {
    PieceIsSegment(a);
    PieceIsSegment(d);
    Paths.SegmentConcat(a, d);
  }

  /** Every category is a relative path. */
  lemma CategoriesAreSegments(k: int)
    requires 0 <= k < |ListCategories|
    ensures Paths.IsRelativeSegment(ListCategories[k])
  {
    if k == 0 {
      PieceIsSegment("international");
    } else if k == 1 {
      PieceIsSegment("african");
    } else if k == 2 {
      NestedIsSegment(AsianMovies, "download-bollywood-movies");
    } else if k == 3 {
      NestedIsSegment(AsianMovies, "download-korean-movies");
    } else {
      NestedIsSegment(AsianMovies, "download-philippine-movies");
    }
  }

  /** Each category page sits directly under the starting path: the path with one trailing
      slash, the category, then "page/N". */
  lemma CategoryPathShape(base: string, k: int, page: int)
    requires base != [] && 0 <= k < |ListCategories|
    ensures CategoryPath(base, ListCategories[k], page)
      == Paths.Collapse(base + "/") + ListCategories[k] + "/" + PageSegment(page)
  {
    CategoriesAreSegments(k);
    Paths.JoinThree(base, ListCategories[k], PageSegment(page));
  }

  /** Search: SearchMode, "s" set to the query and "post_type" to "post" on the current search
      query, then a scrape. The first parameter is the query and must exist. */
  method Search(e: Props, param: seq<string>, scrape: Scraper) returns (r: SearchResult)
    requires e.Valid() && |param| >= 1
    modifies e
    ensures e.Valid() && e.mode == SearchMode
    ensures e.searchQuery == Set(Set(old(e.searchQuery), "s", param[0]), "post_type", "post")
    ensures e.searchURL == old(e.searchURL).(rawQuery := Encode(e.searchQuery))
    ensures e.listURL == old(e.listURL) && e.listQuery == old(e.listQuery)
    ensures r == SearchResult(param[0], scrape(SearchMode, e.searchURL))
  {
    var query := param[0];
    e.mode := SearchMode;
    e.SetSearchParam("s", query);
    e.SetSearchParam("post_type", "post");
    r := SearchResult(query, scrape(e.mode, e.ParseURL()));
  }

  /** On a fresh engine the search query is exactly "post_type=post&s=<query>", with the query escaped. */
  lemma FreshSearchQuery(q: string)
    ensures Encode(Set(Set(map[], "s", q), "post_type", "post")) == "post_type" + "=" + "post" + "&" + "s" + "=" + QueryEscape(q)
  {
    LexLessByFirst("post_type", "s");
    EncodeTwoPlainFirst("post_type", "post", "s", q);
  }
}
