/** The FzMovies adapter (engine/fzmovies.go). Unlike the other adapters it has a Scrape of its
    own: the mode is a string, the movies are a slice indexed by position, and a detail request
    is tied to its movie by looking the request URL up among the movies' download links. */
module FzMovies {
  import opened Wrappers
  import opened Text
  import opened Urls
  import opened Types
  import opened Patterns
  import opened Props
  import opened Engines
  import Paths

  const Name: string := "FzMovies"
  const Base: string := "https://www.fzmovies.net/"

  /** NewFzEngine: the description is left empty. */
  method New() returns (e: Props)
    ensures fresh(e) && e.Valid()
    ensures e.name == Name && e.description == "" && e.mode == SearchMode
    ensures e.baseURL == ParseUrl(Base)
    ensures e.searchURL == ParseUrl(Base).(path := "/csearch.php")
    ensures e.listURL == ParseUrl(Base).(path := "/movieslist.php")
    ensures e.searchQuery == map[] && e.listQuery == map[]
  {
    e := new Props(Name, "", Base, "/csearch.php", "/movieslist.php");
  }

  // ------------------------------------------------------------------ the mode dispatch

  /** The URL Scrape fetches: the search URL for "search", the list URL for "list", and an
      error naming the mode for anything else. */
  function ModeURL(mode: string, searchURL: Url, listURL: Url): (r: Result<Url>)
    ensures r.Ok? <==> mode == "search" || mode == "list"
    ensures mode == "search" ==> r == Ok(searchURL)
    ensures mode == "list" ==> r == Ok(listURL)
    ensures r.Err? ==> r.error == InvalidModeName(mode)
  {
    if mode == "search" then Ok(searchURL)
    else if mode == "list" then Ok(listURL)
    else Err(InvalidModeName(mode))
  }

  /** FzEngine.Scrape: `run` stands for the collector run over the chosen URL (the callbacks
      below); an unknown mode gives no movies and an error. */
  method Scrape(e: Props, mode: string, run: Url -> seq<Movie>) returns (movies: seq<Movie>, err: Option<Error>)
    ensures mode == "search" ==> movies == run(e.searchURL) && err.None?
    ensures mode == "list" ==> movies == run(e.listURL) && err.None?
    ensures mode != "search" && mode != "list" ==> movies == [] && err == Some(InvalidModeName(mode))
  {
    match ModeURL(mode, e.searchURL, e.listURL) {
      case Ok(u) =>
        movies := run(u);
        err := None;
      case Err(x) =>
        movies := [];
        err := Some(x);
    }
  }

  // ------------------------------------------------------------------ one listing item

  const More: string := "<more>"

  /** The title: the trimmed bold text with one trailing "<more>" removed. */
  function ItemTitle(el: Element): string {
    TrimSuffix(ChildText(el, "b"), More)
  }

  /** The title followed by the marker, when the bold text had it, is the bold text. */
  lemma ItemTitleOf(el: Element)
    ensures HasSuffix(ChildText(el, "b"), More) ==> ItemTitle(el) + More == ChildText(el, "b")
    ensures !HasSuffix(ChildText(el, "b"), More) ==> ItemTitle(el) == ChildText(el, "b")
  {
    if HasSuffix(ChildText(el, "b"), More) {
      TrimSuffixRestores(ChildText(el, "b"), More);
    }
  }

  /** A title that was only the marker leaves the item without a title. */
  lemma MoreAloneIsNoTitle(el: Element)
    requires ChildText(el, "b") == More
    ensures ItemTitle(el) == ""
  {
  }

  /** The item reads the second and the fourth "small" text, which panics with fewer than four. */
  predicate Parsable(el: Element) {
    |ChildTexts(el, "small")| >= 4
  }

  /** The download link: the item's href with its path joined onto the base URL's path. */
  function ItemLink(basePath: string, el: Element): (u: Url)
  {
    var link := ParseUrl(ChildAttr(el, "a", "href"));
    link.(path := Paths.Join([basePath, link.path]))
  }

  /** The k-th "small" text of the item (the callback panics when it is missing; see
      Parsable). */
  function Small(el: Element, k: nat): string {
    var smalls := ChildTexts(el, "small");
    if k < |smalls| then smalls[k] else ""
  }

  /** The movie built from one "div.mainbox" item under the current counter value. */
  function ParseItem(basePath: string, el: Element, index: int): Movie {
    // The small texts are already trimmed, and a parsed URL prints back as its text.
    EmptyMovie.(index := index, source := Name, coverPhotoLink := ChildAttr(el, "img", "src"),
                uploadDate := Small(el, 1), title := ItemTitle(el),
                description := Small(el, 3), downloadLink := ItemLink(basePath, el))
  }

  /** The fields of an item's movie: the counter value, the engine's name, the cover image,
      the second and fourth small texts as upload date and description, the title and the
      joined download link; nothing else is set. */
  lemma ParseItemFields(basePath: string, el: Element, index: int)
    requires Parsable(el)
    ensures var m := ParseItem(basePath, el, index);
      m.index == index && !m.isSeries && m.source == Name
      && m.coverPhotoLink == ChildAttr(el, "img", "src")
      && m.uploadDate == ChildTexts(el, "small")[1] && m.description == ChildTexts(el, "small")[3]
      && m.title == ItemTitle(el) && m.downloadLink == ItemLink(basePath, el)
      && m.size == "" && m.year == 0 && m.category == "" && m.sDownloadLink == map[]
  {
  }

  /** The parser a listing applies to each kept item and its position. */
  function ItemParser(basePath: string): (Element, int) -> Movie {
    (el: Element, index: int) => ParseItem(basePath, el, index)
  }

  /** An item the listing keeps: it has four small texts and a title. */
  predicate Kept(el: Element) {
    Parsable(el) && ItemTitle(el) != ""
  }

  /** The items a listing keeps, in order: those with four small texts and a title. */
  function Titled(items: seq<Element>): (r: seq<Element>)
    ensures |r| <= |items|
    decreases |items|
  {
    if items == [] then []
    else
      var x := items[|items| - 1];
      Titled(items[..|items| - 1]) + (if Kept(x) then [x] else [])
  }

  /** Every kept item can be read and has a title. */
  lemma {:induction false} TitledAreParsable(items: seq<Element>)
    ensures forall j :: 0 <= j < |Titled(items)| ==> Kept(Titled(items)[j])
    decreases |items|
  {
    if items != [] {
      TitledAreParsable(items[..|items| - 1]);
    }
  }

  lemma {:induction false} TitledSnoc(items: seq<Element>, x: Element)
    ensures Titled(items + [x]) == Titled(items) + (if Kept(x) then [x] else [])
  {
    SnocFront(items, x);
  }

  /** When every item can be read and has a title, every item is kept, in order. */
  lemma {:induction false} KeepsTitled(items: seq<Element>)
    requires forall j :: 0 <= j < |items| ==> Kept(items[j])
    ensures Titled(items) == items
    decreases |items|
  {
    if items != [] {
      var n := |items| - 1;
      var init, x := items[..n], items[n];
      forall j | 0 <= j < |init| ensures Kept(init[j]) {
        assert init[j] == items[j];
      }
      KeepsTitled(init);
      TitledSnoc(init, x);
      FrontLast(items);
    }
  }

  /** An item without a title is dropped. */
  lemma DropsUntitled(items: seq<Element>, x: Element)
    requires ItemTitle(x) == ""
    ensures Titled(items + [x]) == Titled(items)
  {
    TitledSnoc(items, x);
    assert Titled(items) + [] == Titled(items);
  }

  /** From position `start` on, `ms` holds the kept items parsed in order by `parse`, each
      under its own position as counter value, and nothing after them. */
  ghost predicate ListedInto(parse: (Element, int) -> Movie, kept: seq<Element>, start: int, ms: seq<Movie>) {
    0 <= start && start + |kept| == |ms|
    && forall j :: 0 <= j < |kept| ==> ms[start + j] == parse(kept[j], start + j)
  }

  /** Appending the next kept item's movie extends the listing. */
  lemma ListedIntoSnoc(parse: (Element, int) -> Movie, kept: seq<Element>, start: int,
                       ms: seq<Movie>, ms': seq<Movie>, x: Element)
    requires ListedInto(parse, kept, start, ms)
    requires |ms'| == |ms| + 1 && ms'[|ms|] == parse(x, |ms|)
    requires forall j :: 0 <= j < |ms| ==> ms'[j] == ms[j]
    ensures ListedInto(parse, kept + [x], start, ms')
  {
    var k := kept + [x];
    forall j | 0 <= j < |k|
      ensures ms'[start + j] == parse(k[j], start + j)
    {
      if j < |kept| {
        assert k[j] == kept[j];
      }
    }
  }

  /** The movies a listing adds all have titles, and each sits at its own counter value. */
  lemma ListedTitlesAndIndexes(basePath: string, items: seq<Element>, start: int, ms: seq<Movie>)
    requires ListedInto(ItemParser(basePath), Titled(items), start, ms)
    ensures forall j :: start <= j < |ms| ==> ms[j].title != "" && ms[j].index == j
  {
    var kept := Titled(items);
    TitledAreParsable(items);
    forall j | start <= j < |ms|
      ensures ms[j].title != "" && ms[j].index == j
    {
      assert ms[start + (j - start)] == ItemParser(basePath)(kept[j - start], j);
    }
  }

  // ------------------------------------------------------------------ tying requests to movies

  /** The position of the last movie whose download link is `url`. */
  function LastLinked(movies: seq<Movie>, url: string): (r: Option<nat>)
    ensures r.Some? ==> r.value < |movies| && UrlString(movies[r.value].downloadLink) == url
    ensures r.Some? ==> forall j :: r.value < j < |movies| ==> UrlString(movies[j].downloadLink) != url
    ensures r.None? ==> forall j :: 0 <= j < |movies| ==> UrlString(movies[j].downloadLink) != url
  {
    if movies == [] then None
    else if UrlString(movies[|movies| - 1].downloadLink) == url then Some(|movies| - 1)
    else LastLinked(movies[..|movies| - 1], url)
  }

  /** The "movieIndex" a detail request is given: the last linked position, or none. */
  function TagOf(movies: seq<Movie>, url: string): (ctx: Option<string>)
    ensures ctx.Some? <==> LastLinked(movies, url).Some?
    ensures ctx.Some? ==> ctx.value == Key(LastLinked(movies, url).value)
  {
    match LastLinked(movies, url)
    case Some(i) => Some(Key(i))
    case None => None
  }

  /** The movie just appended is the one its own download request is tied to. */
  lemma AppendedIsTagged(movies: seq<Movie>, m: Movie)
    ensures LastLinked(movies + [m], UrlString(m.downloadLink)) == Some(|movies|)
  {
  }

  /** A position holding the request's URL is tied to that position or a later one. */
  lemma TaggedAtLeast(movies: seq<Movie>, i: nat)
    requires i < |movies|
    ensures var r := LastLinked(movies, UrlString(movies[i].downloadLink)); r.Some? && r.value >= i
  {
  }

  /** With pairwise distinct download links, each movie's request is tied to that movie. */
  lemma DistinctLinksTagExactly(movies: seq<Movie>, i: nat)
    requires i < |movies|
    requires forall a, b :: 0 <= a < b < |movies| ==> UrlString(movies[a].downloadLink) != UrlString(movies[b].downloadLink)
    ensures LastLinked(movies, UrlString(movies[i].downloadLink)) == Some(i)
  {
    TaggedAtLeast(movies, i);
  }

  lemma LastLinkedStep(movies: seq<Movie>, i: nat, url: string)
    requires i < |movies|
    ensures LastLinked(movies[..i + 1], url)
         == if UrlString(movies[i].downloadLink) == url then Some(i) else LastLinked(movies[..i], url)
  {
    PrefixOfLonger(movies, i);
  }

  // ------------------------------------------------------------------ the detail pages

  const Download1: string := "download1.php"
  const Download: string := "download.php"
  const PtSuffix: string := "&pt=jRGarGzOo2"

  /** The file link of a "ul.moviesfiles" page: the first "download1.php" of the href becomes
      "download.php" and the pt parameter is appended. */
  function FilesLink(href: string): (r: string)
    ensures HasSuffix(r, PtSuffix)
    ensures !Contains(href, Download1) ==> r == href + PtSuffix
  {
    var r := ReplaceFirst(href, Download1, Download) + PtSuffix;
    assert r[|r| - |PtSuffix|..] == PtSuffix;
    r
  }

  /** Only the first "download1.php" is rewritten; the text around it is kept. */
  lemma FilesLinkRewrites(a: string, b: string)
    requires forall k :: 0 <= k < |a| ==> !OccursAt(a + Download1 + b, Download1, k)
    ensures FilesLink(a + Download1 + b) == a + Download + b + PtSuffix
  {
    ReplaceFirstAt(a, Download1, b, Download);
  }

  /** The size: the whole match of `(.* MB)` on the "dcounter" text with one leading "("
      removed. */
  function CounterSize(e: Element): (r: Option<string>)
    ensures r.Some? ==> HasSuffix(r.value, " MB")
  {
    match ThroughLast(ChildText(e, "dcounter"), " MB")
    case None => None
    case Some(x) =>
      assert HasPrefix(x, "(") ==> x[0] != x[|x| - 3];
      if HasPrefix(x, "(") then
        TrimPrefixKeepsSuffix(x, "(", " MB");
        Some(TrimPrefix(x, "("))
      else Some(x)
  }

  /** The files callback indexes the regexp's match, which panics without one; there is one
      exactly when " MB" occurs in the text. */
  predicate HasCounterSize(e: Element) {
    Contains(ChildText(e, "dcounter"), " MB")
  }

  lemma CounterSizeFound(e: Element)
    requires HasCounterSize(e)
    ensures CounterSize(e).Some?
  {
    ThroughLastFinds(ChildText(e, "dcounter"), " MB", IndexOf(ChildText(e, "dcounter"), " MB").value);
  }

  /** `(.* MB)` on a line "(<n> MB<rest>" whose rest has no " MB" is "(<n> MB". */
  lemma CounterMatch(s: string, d: string, rest: string)
    requires s == "(" + d + " MB" + rest && '\n' !in s
    requires forall k :: |d| + 1 < k ==> !OccursAt(s, " MB", k)
    ensures Contains(s, " MB") && ThroughLast(s, " MB") == Some("(" + (d + " MB"))
  {
    assert OccursAt(s, " MB", |d| + 1) by { assert s[|d| + 1..|d| + 4] == " MB"; }
    ContainsWitness(s, " MB", |d| + 1);
    ThroughLastOnLine(s, " MB", |d| + 1);
    assert s[..|d| + 4] == "(" + (d + " MB");
  }

  /** A counter text "(<n> MB" followed on its line by text without " MB" gives "<n> MB". */
  lemma CounterSizeOf(e: Element, d: string, rest: string)
    requires ChildText(e, "dcounter") == "(" + d + " MB" + rest
    requires '\n' !in ChildText(e, "dcounter")
    requires forall k :: |d| + 1 < k ==> !OccursAt(ChildText(e, "dcounter"), " MB", k)
    ensures HasCounterSize(e) && CounterSize(e) == Some(d + " MB")
  {
    CounterMatch(ChildText(e, "dcounter"), d, rest);
    TrimPrefixConcat("(", d + " MB");
  }

  /** The "ul.moviesfiles" callback's effect: the rewritten file link and the size. */
  function FilesDetails(m: Movie, e: Element): (r: Movie)
    requires HasCounterSize(e)
    ensures r == m.(downloadLink := r.downloadLink, size := r.size) && CounterSize(e) == Some(r.size)
    ensures UrlString(r.downloadLink) == FilesLink(ChildAttr(e, "a", "href"))
  {
    CounterSizeFound(e);
    m.(downloadLink := ParseUrl(FilesLink(ChildAttr(e, "a", "href"))), size := CounterSize(e).value)
  }

  /** The "p" callback's link: the input's value when, trimmed, it ends in "mp4". */
  function VideoLink(e: Element): (r: Option<Url>)
    ensures r.Some? <==> HasSuffix(ChildAttr(e, "input", "value"), "mp4")
    ensures r.Some? ==> UrlString(r.value) == ChildAttr(e, "input", "value")
  {
    var v := ChildAttr(e, "input", "value");
    TrimSpaceOfTrimmed(v);
    if HasSuffix(TrimSpace(v), "mp4") then Some(ParseUrl(v)) else None
  }

  /** The state one FzEngine.Scrape call builds up: the movies slice and its counter. */
  class ScrapeState {
    var movies: seq<Movie>
    var movieIndex: int

    /** The counter is the slice's length and every movie's Index is its position. */
    ghost predicate Valid()
      reads this
    {
      movieIndex == |movies| && forall i :: 0 <= i < |movies| ==> movies[i].index == i
    }

    constructor ()
      ensures Valid() && movies == []
    {
      movies := [];
      movieIndex := 0;
    }

    /** Whether a request's "movieIndex" reads back as a position of the slice; the callbacks
        index the slice with it, so any other value is fatal. */
    predicate Addresses(ctx: string)
      reads this
    {
      Atoi(ctx).ok && 0 <= Atoi(ctx).value < |movies|
    }

    /** A callback writing a movie back through its *Movie into the slice; keeping the
        Index keeps the invariant. */
    method Store(i: int, m: Movie)
      requires Valid() && 0 <= i < |movies| && m.index == movies[i].index
      modifies this
      ensures Valid() && movieIndex == old(movieIndex)
      ensures movies == old(movies)[i := m]
    {
      movies := movies[i := m];
    }

    /** Appending under the counter keeps the invariant and advances the counter. */
    method Append(m: Movie)
      requires Valid() && m.index == movieIndex
      modifies this
      ensures Valid()
      ensures movies == old(movies) + [m]
      ensures |movies| == |old(movies)| + 1 && movies[|old(movies)|] == m
      ensures forall j :: 0 <= j < |old(movies)| ==> movies[j] == old(movies)[j]
    {
      movies := movies + [m];
      movieIndex := movieIndex + 1;
    }

    /** One ForEach callback on "div.mainbox": an item with a title is appended under the
        counter, which advances, and its download page is visited; one without is dropped. */
    method OnItem(basePath: string, el: Element) returns (visit: Option<Url>)
      requires Valid() && Parsable(el)
      modifies this
      ensures Valid()
      ensures ItemTitle(el) == "" ==> movies == old(movies) && visit.None?
      ensures ItemTitle(el) != "" ==>
        |movies| == |old(movies)| + 1 && movies[|old(movies)|] == ItemParser(basePath)(el, |old(movies)|)
        && visit == Some(movies[|old(movies)|].downloadLink)
      ensures forall j :: 0 <= j < |old(movies)| ==> movies[j] == old(movies)[j]
    {
      if ItemTitle(el) != "" {
        Append(ParseItem(basePath, el, movieIndex));
        visit := Some(ItemLink(basePath, el));
      } else {
        visit := None;
      }
    }

    /** After the items `done`: the slice holds, from `start` on, the titled ones parsed in
        order under the counter, and `visits` holds their download URLs in that order. */
    ghost predicate Listing(basePath: string, done: seq<Element>, start: int, visits: seq<Url>)
      reads this
    {
      Valid() && ListedInto(ItemParser(basePath), Titled(done), start, movies)
      && |visits| == |movies| - start
      && forall j :: 0 <= j < |visits| ==> visits[j] == movies[start + j].downloadLink
    }

    /** One item of the ForEach, on top of the items before it. */
    method ListItem(basePath: string, ghost done: seq<Element>, x: Element, start: int, visits: seq<Url>)
      returns (visits': seq<Url>)
      requires Listing(basePath, done, start, visits) && Parsable(x)
      modifies this
      ensures Listing(basePath, done + [x], start, visits')
      ensures old(movies) <= movies
    {
      ghost var prev := movies;
      var visit := OnItem(basePath, x);
      if ItemTitle(x) != "" {
        TitledSnoc(done, x);
        ListedIntoSnoc(ItemParser(basePath), Titled(done), start, prev, movies, x);
        visits' := visits + [visit.value];
        forall j | 0 <= j < |visits'|
          ensures visits'[j] == movies[start + j].downloadLink
        {
          if j < |visits| {
            assert movies[start + j] == prev[start + j];
          } else {
            assert j == |visits| && start + j == |prev|;
            assert visits'[j] == visit.value;
          }
        }
      } else {
        DropsUntitled(done, x);
        visits' := visits;
      }
    }

    /** The "body" callback: the ForEach over the listing's items. The slice keeps what it
        held and grows by exactly the titled items, parsed in order under the counter; their
        download pages are visited in that order. */
    method OnBody(basePath: string, items: seq<Element>) returns (visits: seq<Url>)
      requires Valid() && forall j :: 0 <= j < |items| ==> Parsable(items[j])
      modifies this
      ensures Listing(basePath, items, |old(movies)|, visits)
      ensures old(movies) <= movies
    {
      var start := |movies|;
      ghost var base := movies;
      visits := [];
      var i := 0;
      assert items[..0] == [];
      while i < |items|
        invariant 0 <= i <= |items|
        invariant base <= movies
        invariant Listing(basePath, items[..i], start, visits)
      {
        visits := ListItem(basePath, items[..i], items[i], start, visits);
        PrefixSnoc(items, i);
        i := i + 1;
      }
      assert items[..|items|] == items;
    }

    /** The download collector's OnRequest: every movie is compared with the request URL and
        the last match's position becomes the request's "movieIndex". */
    method Tag(url: string) returns (ctx: Option<string>)
      ensures ctx == TagOf(movies, url)
    {
      ctx := None;
      var i := 0;
      while i < |movies|
        invariant 0 <= i <= |movies|
        invariant ctx == TagOf(movies[..i], url)
      {
        LastLinkedStep(movies, i, url);
        if UrlString(movies[i].downloadLink) == url {
          ctx := Some(Key(i));
        }
        i := i + 1;
      }
      assert movies[..|movies|] == movies;
    }

    /** The "ul.moviesfiles" callback on the movie its request is tied to; the new file link
        is visited. */
    method OnFiles(ctx: string, e: Element) returns (visit: string)
      requires Valid() && Addresses(ctx) && HasCounterSize(e)
      modifies this
      ensures Valid() && movieIndex == old(movieIndex)
      ensures var i := Atoi(ctx).value; movies == old(movies)[i := FilesDetails(old(movies)[i], e)]
      ensures visit == UrlString(movies[Atoi(ctx).value].downloadLink)
    {
      var i := MovieIndexFromCtx(ctx);
      var movie := FilesDetails(movies[i], e);
      Store(i, movie);
      visit := UrlString(movie.downloadLink);
    }

    /** The "p" callback: the slice is touched only when the input names an mp4 file, and only
        then is the request's "movieIndex" read. */
    method OnParagraph(ctx: string, e: Element)
      requires Valid() && (VideoLink(e).Some? ==> Addresses(ctx))
      modifies this
      ensures Valid() && movieIndex == old(movieIndex)
      ensures VideoLink(e).None? ==> movies == old(movies)
      ensures VideoLink(e).Some? ==>
        var i := Atoi(ctx).value; movies == old(movies)[i := old(movies)[i].(downloadLink := VideoLink(e).value)]
    {
      var link := VideoLink(e);
      if link.Some? {
        var i := MovieIndexFromCtx(ctx);
        Store(i, movies[i].(downloadLink := link.value));
      }
    }
  }

  /** A request tied by Tag reads back, through getMovieIndexFromCtx, as the position of a
      movie whose Index is that position. */
  lemma TagAddresses(st: ScrapeState, url: string)
    requires st.Valid() && TagOf(st.movies, url).Some? && |st.movies| <= MaxInt64
    ensures st.Addresses(TagOf(st.movies, url).value)
    ensures var i := MovieIndexFromCtx(TagOf(st.movies, url).value);
      UrlString(st.movies[i].downloadLink) == url && st.movies[i].index == i
  {
    CtxRoundTrip(LastLinked(st.movies, url).value);
  }

  // ------------------------------------------------------------------ List and Search

  /** The list URL's query for a page: the category, the ordering and the page, every other
      parameter kept. */
  function PageQuery(q: Values, page: int): (r: Values)
    ensures Get(r, "catID") == Some("2") && Get(r, "by") == Some("date") && Get(r, "pg") == Some(Itoa(page))
    ensures forall k :: k != "catID" && k != "by" && k != "pg" ==> Get(r, k) == Get(q, k)
  {
    Set(Set(Set(q, "catID", "2"), "by", "date"), "pg", Itoa(page))
  }

  /** List: the page's query on the list URL, then Scrape("list"); the engine's mode is not
      touched. */
  method List(e: Props, page: int, run: Url -> seq<Movie>) returns (r: SearchResult)
    requires e.Valid()
    modifies e
    ensures e.Valid() && e.mode == old(e.mode)
    ensures e.listQuery == PageQuery(old(e.listQuery), page)
    ensures e.listURL == old(e.listURL).(rawQuery := Encode(e.listQuery))
    ensures e.searchURL == old(e.searchURL) && e.searchQuery == old(e.searchQuery)
    ensures r == SearchResult(RecentUploads(page), run(e.listURL))
  {
    e.SetListParam("catID", "2");
    e.SetListParam("by", "date");
    e.SetListParam("pg", Itoa(page));
    var movies, err := Scrape(e, "list", run);
    r := SearchResult(RecentUploads(page), movies);
  }

  /** Search: the query under "searchname", then Scrape("search"). */
  method Search(e: Props, query: string, run: Url -> seq<Movie>) returns (r: SearchResult)
    requires e.Valid()
    modifies e
    ensures e.Valid() && e.mode == old(e.mode)
    ensures e.searchQuery == Set(old(e.searchQuery), "searchname", query)
    ensures e.searchURL == old(e.searchURL).(rawQuery := Encode(e.searchQuery))
    ensures e.listURL == old(e.listURL) && e.listQuery == old(e.listQuery)
    ensures r == SearchResult(query, run(e.searchURL))
  {
    e.SetSearchParam("searchname", query);
    var movies, err := Scrape(e, "search", run);
    r := SearchResult(query, movies);
  }
}
