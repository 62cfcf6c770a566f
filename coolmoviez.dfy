/** The CoolMoviez adapter (engine/coolmoviez.go): fixed listing selectors, the title and year
    rules, the three detail callbacks, and the URL building of List and Search. */
module CoolMoviez {
  import opened Wrappers
  import opened Text
  import opened Urls
  import opened Escaping
  import opened Types
  import opened Patterns
  import opened Props
  import opened Engines
  import Paths

  const Name: string := "CoolMoviez"
  const Base: string := "https://coolmoviez.buzz"
  const Description: string := "Self reported best download site for mobile, tablets and pc"

  /** NewCoolMoviezEngine. */
  method New() returns (e: Props)
    ensures fresh(e) && e.Valid()
    ensures e.name == Name && e.description == Description && e.mode == SearchMode
    ensures e.baseURL == ParseUrl(Base)
    ensures e.searchURL == ParseUrl(Base).(path := "/mobile/search")
    ensures e.listURL == ParseUrl(Base).(path := "/movielist/13/Hollywood_movies/default")
    ensures e.searchQuery == map[] && e.listQuery == map[]
  {
    e := new Props(Name, Description, Base, "/mobile/search", "/movielist/13/Hollywood_movies/default");
  }

  /** getParseAttrs: the same selectors in every mode, and never an error. */
  function ParseAttrs(mode: Mode): (r: Result<(string, string)>)
    ensures r == Ok(("div.list", "div.fl"))
  {
    Ok(("div.list", "div.fl"))
  }

  // ------------------------------------------------------------------ one listing item

  /** The trimmed file name with the span's text cut off when it ends the name. */
  function CleanTitle(raw: string, appendage: string): (t: string)
    ensures HasPrefix(TrimSpace(raw), t)
    ensures HasSuffix(TrimSpace(raw), appendage) ==> t + appendage == TrimSpace(raw)
    ensures !HasSuffix(TrimSpace(raw), appendage) ==> t == TrimSpace(raw)
  {
    var title := TrimSpace(raw);
    if HasSuffix(title, appendage) then
      assert title == title[..|title| - |appendage|] + appendage;
      TrimSuffix(title, appendage)
    else title
  }

  /** A name followed by its span text loses exactly that text. */
  lemma CleanTitleDropsSpan(name: string, appendage: string)
    requires IsTrimmed(name + appendage)
    ensures CleanTitle(name + appendage, appendage) == name
  {
    TrimSpaceOfTrimmed(name + appendage);
    TrimSuffixConcat(name, appendage);
  }

  /** parseSingleMovie: never fails; a movie, not a series. */
  function ParseSingleMovie(el: Element, index: int): (m: Movie)
    ensures m.index == index && !m.isSeries && m.source == Name
    ensures m.title == CleanTitle(ChildText(el, "a.fileName"), ChildText(el, "span"))
    ensures m.year == FirstNumber(m.title)
    ensures m.coverPhotoLink == ChildAttr(el, "img", "src")
    ensures UrlString(m.downloadLink) == AbsoluteUrl(el.request, ChildAttr(el, "a", "href"))
    ensures m.size == "" && m.description == "" && m.category == "" && m.sDownloadLink == map[]
  {
    var title := CleanTitle(ChildText(el, "a.fileName"), ChildText(el, "span"));
    var link := AbsoluteUrl(el.request, ChildAttr(el, "a", "href"));
    EmptyMovie.(index := index, source := Name, title := title, year := FirstNumber(title),
                downloadLink := ParseUrl(link), coverPhotoLink := ChildAttr(el, "img", "src"))
  }

  /** The parser Scrape's discovery loop calls; the mode plays no part. */
  function Parser(mode: Mode): (Element, int) -> Option<Movie> {
    (el: Element, i: int) => Some(ParseSingleMovie(el, i))
  }

  /** Discovery with this parser keeps every listing item, each under its own ordinal. */
  lemma DiscoversEveryItem(mode: Mode, items: seq<Element>, start: int)
    ensures KeepsIndex(Parser(mode))
    ensures |Parsed(items, Parser(mode), start)| == |items|
    ensures forall j :: 0 <= j < |items| ==> Parsed(items, Parser(mode), start)[j].index == start + j
  {
    ParsedAll(items, Parser(mode), start);
    ParsedOrdinals(items, Parser(mode), start);
  }

  // ------------------------------------------------------------------ the details panel

  /** The labels the panel callback looks for, in the order it tries them. */
  const PanelKeys: seq<string> := ["Quality", "Genre", "Description", "Starcast"]

  /** `<key>:\s+(.*)` on the panel text. */
  function Field(text: string, key: string): Option<string> {
    AfterLabelAndSpace(text, key + ":", 0)
  }

  /** The switch on the key: Quality, Genre (the category), Description and Starcast (the
      cast); any other key changes nothing. */
  function SetField(m: Movie, key: string, value: string): (r: Movie)
    ensures r == m.(quality := r.quality, category := r.category, description := r.description, cast := r.cast)
  {
    if key == "Quality" then m.(quality := value)
    else if key == "Description" then m.(description := value)
    else if key == "Genre" then m.(category := value)
    else if key == "Starcast" then m.(cast := value)
    else m
  }

  /** The keys in order, each applied when its pattern matches. */
  function PanelFold(m: Movie, text: string, keys: seq<string>): (r: Movie)
    ensures r == m.(quality := r.quality, category := r.category, description := r.description, cast := r.cast)
    decreases |keys|
  {
    if keys == [] then m
    else
      var n := |keys| - 1;
      ApplyField(PanelFold(m, text, keys[..n]), text, keys[n])
  }

  /** One key of the panel: its field is set when its pattern matches. */
  function ApplyField(m: Movie, text: string, key: string): (r: Movie)
    ensures r == m.(quality := r.quality, category := r.category, description := r.description, cast := r.cast)
  {
    match Field(text, key)
    case Some(v) => SetField(m, key, v)
    case None => m
  }

  /** Each of the four keys sets only its own field. */
  lemma ApplyEachKey(m: Movie, text: string)
    ensures ApplyField(m, text, "Quality") == m.(quality := OrElse(Field(text, "Quality"), m.quality))
    ensures ApplyField(m, text, "Genre") == m.(category := OrElse(Field(text, "Genre"), m.category))
    ensures ApplyField(m, text, "Description") ==
      m.(description := OrElse(Field(text, "Description"), m.description))
    ensures ApplyField(m, text, "Starcast") == m.(cast := OrElse(Field(text, "Starcast"), m.cast))
  {
  }

  /** The panel's effect on a movie. */
  function PanelDetails(m: Movie, text: string): Movie {
    PanelFold(m, text, PanelKeys)
  }

  /** Each label sets its own field when it matches and leaves it alone otherwise; nothing
      else changes. */
  lemma PanelFields(m: Movie, text: string)
    ensures PanelDetails(m, text) ==
      m.(quality := OrElse(Field(text, "Quality"), m.quality),
         category := OrElse(Field(text, "Genre"), m.category),
         description := OrElse(Field(text, "Description"), m.description),
         cast := OrElse(Field(text, "Starcast"), m.cast))
  {
    var k := PanelKeys;
    assert k[..0] == [];
    var f0 := PanelFold(m, text, k[..0]);
    PanelStep(m, text, k, 0);
    var f1 := PanelFold(m, text, k[..1]);
    ApplyEachKey(f0, text);
    PanelStep(m, text, k, 1);
    var f2 := PanelFold(m, text, k[..2]);
    ApplyEachKey(f1, text);
    PanelStep(m, text, k, 2);
    var f3 := PanelFold(m, text, k[..3]);
    ApplyEachKey(f2, text);
    PanelStep(m, text, k, 3);
    ApplyEachKey(f3, text);
    assert k[..4] == k;
  }

  /** One more key of the fold. */
  lemma PanelStep(m: Movie, text: string, keys: seq<string>, i: int)
    requires 0 <= i < |keys|
    ensures PanelFold(m, text, keys[..i + 1]) == ApplyField(PanelFold(m, text, keys[..i]), text, keys[i])
  {
    PrefixOfLonger(keys, i);
  }

  /** The label of each key is the key and a colon. */
  lemma FieldLabels(text: string)
    ensures Field(text, "Quality") == AfterLabelAndSpace(text, "Quality:", 0)
    ensures Field(text, "Genre") == AfterLabelAndSpace(text, "Genre:", 0)
    ensures Field(text, "Description") == AfterLabelAndSpace(text, "Description:", 0)
    ensures Field(text, "Starcast") == AfterLabelAndSpace(text, "Starcast:", 0)
  {
    assert "Quality" + ":" == "Quality:" && "Genre" + ":" == "Genre:";
    assert "Description" + ":" == "Description:" && "Starcast" + ":" == "Starcast:";
  }

  /** A panel that carries only the quality label sets only the quality. */
  lemma PanelQualityOnly(m: Movie, text: string, q: string)
    requires text == "Quality:" + " " + q && '\n' !in q && (q == [] || !IsReSpace(q[0]))
    requires !Contains(text, "Genre:") && !Contains(text, "Description:") && !Contains(text, "Starcast:")
    ensures PanelDetails(m, text) == m.(quality := q)
  {
    PanelFields(m, text);
    FieldLabels(text);
    assert Field(text, "Quality") == Some(q) by {
      AfterLabelAndSpaceWhole("Quality:", q);
    }
    assert Field(text, "Genre").None? by {
      AfterLabelAndSpaceAbsent(text, "Genre:");
    }
    assert Field(text, "Description").None? by {
      AfterLabelAndSpaceAbsent(text, "Description:");
    }
    assert Field(text, "Starcast").None? by {
      AfterLabelAndSpaceAbsent(text, "Starcast:");
    }
  }

  /** A panel without any of the labels leaves the movie as it was. */
  lemma PanelWithoutLabels(m: Movie, text: string)
    requires !Contains(text, "Quality:") && !Contains(text, "Genre:")
    requires !Contains(text, "Description:") && !Contains(text, "Starcast:")
    ensures PanelDetails(m, text) == m
  {
    PanelFields(m, text);
    FieldLabels(text);
    AfterLabelAndSpaceAbsent(text, "Quality:");
    AfterLabelAndSpaceAbsent(text, "Genre:");
    AfterLabelAndSpaceAbsent(text, "Description:");
    AfterLabelAndSpaceAbsent(text, "Starcast:");
  }

  /** The loop of the panel callback over the four labels, on the movie as it stands. */
  method PanelLoop(start: Movie, text: string) returns (movie: Movie)
    ensures movie == PanelDetails(start, text)
  {
    movie := start;
    var i := 0;
    while i < |PanelKeys|
      invariant 0 <= i <= |PanelKeys|
      invariant movie == PanelFold(start, text, PanelKeys[..i])
    {
      var reString := PanelKeys[i];
      PanelStep(start, text, PanelKeys, i);
      var stringsub := Field(text, reString);
      if stringsub.Some? {
        var value := stringsub.value;
        if reString == "Quality" {
          movie := movie.(quality := value);
        } else if reString == "Description" {
          movie := movie.(description := value);
        } else if reString == "Genre" {
          movie := movie.(category := value);
        } else if reString == "Starcast" {
          movie := movie.(cast := value);
        }
      }
      i := i + 1;
    }
    WholeSlice(PanelKeys);
  }

  /** The "div.M1,div.M2" callback on the movie its request belongs to. */
  method OnPanel(t: Scraped, ctx: string, e: Element)
    requires t.Valid() && t.HasEntry(ctx)
    modifies t
    ensures t.Valid() && t.next == old(t.next)
    ensures var k := EntryKey(ctx); t.movies == old(t.movies)[k := PanelDetails(old(t.movies)[k], ElementText(e))]
  {
    var key := EntryKey(ctx);
    var movie := PanelLoop(t.movies[key], ElementText(e));
    t.Update(key, movie);
  }

  // ------------------------------------------------------------------ the file-name link

  const FilePrefix: string := "https://www.coolmoviez.buzz/file"
  const ServerPrefix: string := "https://www.coolmoviez.buzz/server"

  /** The server link a /file link is rewritten to: the same remainder after "/server". */
  function ServerLink(href: string): (r: Option<Url>)
    ensures r.Some? <==> HasPrefix(href, FilePrefix)
    ensures r.Some? ==> UrlString(r.value) == ServerPrefix + href[|FilePrefix|..]
  {
    if HasPrefix(href, FilePrefix) then Some(ParseUrl(ServerPrefix + TrimPrefix(href, FilePrefix))) else None
  }

  /** The rewrite keeps the remainder of the link. */
  lemma ServerLinkOf(rest: string)
    ensures ServerLink(FilePrefix + rest) == Some(ParseUrl(ServerPrefix + rest))
  {
    TrimPrefixConcat(FilePrefix, rest);
  }

  /** The `a.fileName` callback's effect: the size after "Size:" when present, and the
      rewritten server link when the href is a /file link. */
  function FileNameDetails(m: Movie, e: Element): (r: Movie)
    ensures r == m.(size := r.size, downloadLink := r.downloadLink)
    ensures r.size == OrElse(AfterLabelAndSpace(ElementText(e), "Size:", 0), m.size)
    ensures ServerLink(Attr(e, "href")).None? ==> r.downloadLink == m.downloadLink
    ensures ServerLink(Attr(e, "href")).Some? ==> r.downloadLink == ServerLink(Attr(e, "href")).value
  {
    var size := AfterLabelAndSpace(ElementText(e), "Size:", 0);
    var link := ServerLink(Attr(e, "href"));
    m.(size := OrElse(size, m.size), downloadLink := if link.Some? then link.value else m.downloadLink)
  }

  /** An anchor text of the form "Size: <value>" gives that size. */
  lemma SizeFromText(m: Movie, e: Element, v: string)
    requires ElementText(e) == "Size:" + " " + v && '\n' !in v && (v == [] || !IsReSpace(v[0]))
    ensures FileNameDetails(m, e).size == v
  {
    AfterLabelAndSpaceWhole("Size:", v);
  }

  /** The `a.fileName` callback on the movie its request belongs to; the returned request is
      the visit of the server page, made with a fresh context (CollectorVisit). */
  method OnFileName(t: Scraped, ctx: string, e: Element) returns (visit: Option<Request>)
    requires t.Valid() && t.HasEntry(ctx)
    modifies t
    ensures t.Valid() && t.next == old(t.next)
    ensures var k := EntryKey(ctx); t.movies == old(t.movies)[k := FileNameDetails(old(t.movies)[k], e)]
    ensures ServerLink(Attr(e, "href")).None? ==> visit.None?
    ensures ServerLink(Attr(e, "href")).Some? ==>
      visit == Some(CollectorVisit(UrlString(ServerLink(Attr(e, "href")).value)))
  {
    var key := EntryKey(ctx);
    var movie := t.movies[key];
    var initialLink := Attr(e, "href");
    var stringsub := AfterLabelAndSpace(ElementText(e), "Size:", 0);
    if stringsub.Some? {
      movie := movie.(size := stringsub.value);
    }
    visit := None;
    var downloadLink := ServerLink(initialLink);
    if downloadLink.Some? {
      movie := movie.(downloadLink := downloadLink.value);
      visit := Some(CollectorVisit(UrlString(downloadLink.value)));
    }
    t.Update(key, movie);
  }

  /** The `a.dwnLink` callback: the anchor's href becomes the download link. */
  function DwnLinkDetails(m: Movie, e: Element): (r: Movie)
    ensures r == m.(downloadLink := r.downloadLink)
    ensures UrlString(r.downloadLink) == Attr(e, "href")
  {
    m.(downloadLink := ParseUrl(Attr(e, "href")))
  }

  method OnDwnLink(t: Scraped, ctx: string, e: Element)
    requires t.Valid() && t.HasEntry(ctx)
    modifies t
    ensures t.Valid() && t.next == old(t.next)
    ensures var k := EntryKey(ctx); t.movies == old(t.movies)[k := DwnLinkDetails(old(t.movies)[k], e)]
  {
    t.Apply(ctx, (m: Movie) => DwnLinkDetails(m, e));
  }

  // ------------------------------------------------------------------ List and Search

  /** "N.html", the segment List joins on. */
  function PageFile(page: int): (w: string)
    ensures Paths.IsRelativeSegment(w) && '/' !in w
  {
    ItoaHasNoSlash(page);
    var w := Itoa(page) + ".html";
    assert w[|w| - 1] == 'l';
    w
  }

  /** List: ListMode, "N.html" joined onto the current list path and a "/" appended, then a
      scrape. */
  method List(e: Props, page: int, scrape: Scraper) returns (r: SearchResult)
    requires e.Valid()
    modifies e
    ensures e.Valid() && e.mode == ListMode
    ensures e.listURL == old(e.listURL).(path := Paths.Join([old(e.listURL.path), PageFile(page)]) + "/")
    ensures e.searchURL == old(e.searchURL) && e.searchQuery == old(e.searchQuery) && e.listQuery == old(e.listQuery)
    ensures r == SearchResult(RecentUploads(page), scrape(ListMode, e.listURL))
  {
    e.mode := ListMode;
    var pageParam := PageFile(page);
    e.listURL := e.listURL.(path := Paths.Join([e.listURL.path, pageParam]) + "/");
    r := SearchResult(RecentUploads(page), scrape(e.mode, e.ParseURL()));
  }

  /** The list path after List(a) and then List(b) on one engine ends in both page files. */
  lemma ListPathsAccumulate(p: string, a: int, b: int)
    requires p != []
    ensures HasSuffix(Paths.Join([Paths.Join([p, PageFile(a)]) + "/", PageFile(b)]) + "/",
                      "/" + PageFile(a) + "/" + PageFile(b) + "/")
  {
    var q := Paths.Join([p, PageFile(a)]);
    Paths.JoinSegment(p, PageFile(a));
    Paths.JoinAfterSlash(q, PageFile(b));
    Paths.JoinTwice(p, PageFile(a), PageFile(b));
    HasSuffixAppend(Paths.Join([q, PageFile(b)]), "/" + PageFile(a) + "/" + PageFile(b), "/");
  }

  /** Search: "find" set to the query and "per_page" to "1"; the first parameter is the
      query and must exist. */
  method Search(e: Props, param: seq<string>, scrape: Scraper) returns (r: SearchResult)
    requires e.Valid() && |param| >= 1
    modifies e
    ensures e.Valid() && e.mode == SearchMode
    ensures e.searchQuery == Set(Set(old(e.searchQuery), "find", param[0]), "per_page", "1")
    ensures e.searchURL == old(e.searchURL).(rawQuery := Encode(e.searchQuery))
    ensures e.listURL == old(e.listURL) && e.listQuery == old(e.listQuery)
    ensures r == SearchResult(param[0], scrape(SearchMode, e.searchURL))
  {
    var query := param[0];
    e.mode := SearchMode;
    e.SetSearchParam("find", query);
    e.SetSearchParam("per_page", "1");
    r := SearchResult(query, scrape(e.mode, e.ParseURL()));
  }

  /** On a fresh engine the search query is exactly "find=<query>&per_page=1", with the query escaped. */
  lemma FreshSearchQuery(q: string)
    ensures Encode(Set(Set(map[], "find", q), "per_page", "1")) == "find" + "=" + QueryEscape(q) + "&" + "per_page" + "=" + "1"
  {
    LexLessByFirst("find", "per_page");
    EncodeTwoPlainSecond("find", q, "per_page", "1");
  }
}
