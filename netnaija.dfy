/** The NetNaija adapter (engine/netnaija.go): listing selectors, the per-item rules, the
    detail-page callbacks with their shared sabishare state, and the URL building of List and
    Search. */
module NetNaija {
  import opened Wrappers
  import opened Text
  import opened Urls
  import opened Escaping
  import opened Types
  import opened Patterns
  import opened Props
  import opened Engines
  import Paths

  const Name: string := "NetNaija"
  const Base: string := "https://www.thenetnaija.com/"
  const Description: string :=
    "\n\t\t\tNigerian forum and media download center.\n\t\t\tDeveloped and owned by Analike Emmanuel Bridge"

  /** NewNetNaijaEngine. */
  method New() returns (e: Props)
    ensures fresh(e) && e.Valid()
    ensures e.name == Name && e.description == Description && e.mode == SearchMode
    ensures e.baseURL == ParseUrl(Base)
    ensures e.searchURL == ParseUrl(Base).(path := "/search")
    ensures e.listURL == ParseUrl(Base).(path := "/videos/movies/")
    ensures e.searchQuery == map[] && e.listQuery == map[]
  {
    e := new Props(Name, Description, Base, "/search", "/videos/movies/");
  }

  /** getParseAttrs: (container, item) selectors per mode; any other mode is an error. */
  function ParseAttrs(mode: Mode): (r: Result<(string, string)>)
    ensures r.Ok? <==> mode == SearchMode || mode == ListMode
    ensures mode == SearchMode ==> r == Ok(("main", "article.sr-one"))
    ensures mode == ListMode ==> r == Ok(("div.video-files", "article.file-one"))
    ensures r.Err? ==> r.error == InvalidMode(mode)
  {
    if mode == SearchMode then Ok(("main", "article.sr-one"))
    else if mode == ListMode then Ok(("div.video-files", "article.file-one"))
    else Err(InvalidMode(mode))
  }

  // ------------------------------------------------------------------ one listing item

  /** The title heading: h3 on search pages, h2 on every other page. */
  function TitleSelector(mode: Mode): (sel: string)
    ensures sel == "h3" <==> mode == SearchMode
    ensures sel == "h3" || sel == "h2"
  {
    if mode == SearchMode then "h3" else "h2"
  }

  /** One leading "Movie:" is dropped, then one leading "Video:", then the white space. */
  function CleanTitle(raw: string): (t: string)
    ensures IsTrimmed(t)
  {
    TrimSpace(TrimPrefix(TrimPrefix(raw, "Movie:"), "Video:"))
  }

  /** Each prefix goes at most once and in that order: "Movie:" before "Video:" is fully
      stripped, the reverse order and a doubled "Movie:" keep the second marker. */
  lemma CleanTitleOrder(x: string)
    ensures CleanTitle("Movie:" + ("Video:" + x)) == TrimSpace(x)
    ensures CleanTitle("Video:" + ("Movie:" + x)) == TrimSpace("Movie:" + x)
    ensures CleanTitle("Movie:" + ("Movie:" + x)) == TrimSpace("Movie:" + x)
  {
    TrimPrefixConcat("Movie:", "Video:" + x);
    TrimPrefixConcat("Video:", x);
    TrimPrefixMismatch("Video:" + ("Movie:" + x), "Movie:");
    TrimPrefixConcat("Video:", "Movie:" + x);
    TrimPrefixConcat("Movie:", "Movie:" + x);
    TrimPrefixMismatch("Movie:" + x, "Video:");
  }

  /** Links under /videos/series mark a series. */
  predicate IsSeriesPath(path: string) {
    HasPrefix(path, "/videos/series")
  }

  /** parseSingleMovie: never fails. */
  function ParseSingleMovie(mode: Mode, el: Element, index: int): (m: Movie)
    ensures m.index == index && m.source == Name
    ensures m.title == CleanTitle(ChildText(el, TitleSelector(mode)))
    ensures m.year == YearOf(m.title)
    ensures m.coverPhotoLink == ChildAttr(el, "img", "src")
    ensures m.uploadDate == ChildText(el, "span.fa-clock-o")
    ensures m.description == ChildText(el, "p.result-desc")
    ensures UrlString(m.downloadLink) == ChildAttr(el, "a", "href")
    ensures m.isSeries <==> IsSeriesPath(m.downloadLink.path)
    ensures m.size == "" && m.sDownloadLink == map[] && m.category == ""
  {
    var title := CleanTitle(ChildText(el, TitleSelector(mode)));
    var link := ParseUrl(ChildAttr(el, "a", "href"));
    TrimSpaceOfTrimmed(ChildText(el, "span.fa-clock-o"));
    TrimSpaceOfTrimmed(ChildText(el, "p.result-desc"));
    EmptyMovie.(index := index, source := Name, coverPhotoLink := ChildAttr(el, "img", "src"),
                title := title, uploadDate := TrimSpace(ChildText(el, "span.fa-clock-o")),
                description := TrimSpace(ChildText(el, "p.result-desc")), downloadLink := link,
                isSeries := IsSeriesPath(link.path), year := YearOf(title))
  }

  /** The parser Scrape's discovery loop calls in the given mode. */
  function Parser(mode: Mode): (Element, int) -> Option<Movie> {
    (el: Element, i: int) => Some(ParseSingleMovie(mode, el, i))
  }

  /** Discovery with this parser keeps every listing item, each under its own ordinal. */
  lemma DiscoversEveryItem(mode: Mode, items: seq<Element>, start: int)
    ensures KeepsIndex(Parser(mode))
    ensures |Parsed(items, Parser(mode), start)| == |items|
    ensures forall j :: 0 <= j < |items| ==> Parsed(items, Parser(mode), start)[j].index == start + j
  {
    ParsedAll(items, Parser(mode), start);
    ParsedOrdinals(items, Parser(mode), start);
  }

  // ------------------------------------------------------------------ sabishare token

  /** getDownloadToken indexes the third "/"-piece, so the path must have one. */
  predicate HasToken(s: string) {
    |Split(Split(ParseUrl(s).path, "-")[0], "/")| >= 3
  }

  /** getDownloadToken: the third "/"-piece of the path's text before its first "-". */
  function DownloadToken(s: string): string
    requires HasToken(s)
  {
    Split(Split(ParseUrl(s).path, "-")[0], "/")[2]
  }

  /** For a path "/<seg>/<TOKEN>-<rest>", as on https://www.sabishare.com/file/<TOKEN>-..., the
      token is TOKEN. */
  lemma TokenOfPath(s: string, seg: string, token: string, rest: string)
    requires ParseUrl(s).path == "/" + seg + "/" + token + "-" + rest
    requires '/' !in seg && '-' !in seg && '/' !in token && '-' !in token
    ensures HasToken(s)
    ensures DownloadToken(s) == token
  {
    var head := "/" + seg + "/" + token;
    var path := ParseUrl(s).path;
    assert path == head + ['-'] + rest;
    assert '-' !in head;
    SplitOnChar(head, '-', rest);
    assert Split(path, "-")[0] == head;
    SlashPieces(seg, token);
  }

  /** "/<seg>/<token>" splits on "/" into "", seg and token. */
  lemma SlashPieces(seg: string, token: string)
    requires '/' !in seg && '/' !in token
    ensures Split("/" + seg + "/" + token, "/") == ["", seg, token]
  {
    var tail := seg + "/" + token;
    assert "/" + seg + "/" + token == [] + ['/'] + tail;
    SplitOnChar([], '/', tail);
    assert tail == seg + ['/'] + token;
    SplitOnChar(seg, '/', token);
    SplitNoChar(token, '/');
    assert Split(tail, "/") == [seg, token];
  }

  // ------------------------------------------------------------------ detail page

  /** The `meta[property="og:url"]` callback as written: it tests the element's href, which a
      meta element does not carry, and would take the content attribute. */
  function OgUrl(cur: string, e: Element): (r: string)
    ensures cur != "" ==> r == cur
    ensures cur == "" && Contains(Attr(e, "href"), "sabishare") ==> r == Attr(e, "content")
    ensures !Contains(Attr(e, "href"), "sabishare") ==> r == cur
  {
    if cur == "" && Contains(Attr(e, "href"), "sabishare") then Attr(e, "content") else cur
  }

  /** On an og:url meta element (content attribute, no href) the callback never fires. */
  lemma OgUrlIgnoresMeta(cur: string, e: Element)
    requires "href" !in e.attrs
    ensures OgUrl(cur, e) == cur
  {
    assert !OccursAt("", "sabishare", 0);
  }

  /** The og:url callback with the test on the attribute it takes. */
  function OgUrlCorrected(cur: string, e: Element): (r: string)
    ensures cur != "" ==> r == cur
    ensures cur == "" && Contains(Attr(e, "content"), "sabishare") ==> r == Attr(e, "content")
    ensures r == cur || Contains(r, "sabishare")
  {
    if cur == "" && Contains(Attr(e, "content"), "sabishare") then Attr(e, "content") else cur
  }

  /** A meta element whose content is a sabishare URL: the corrected callback takes it, the
      callback as written leaves the variable empty. */
  lemma OgUrlMissesContent(e: Element)
    requires "href" !in e.attrs && Contains(Attr(e, "content"), "sabishare")
    ensures OgUrl("", e) == "" && OgUrlCorrected("", e) == Attr(e, "content") != ""
  {
    OgUrlIgnoresMeta("", e);
  }

  /** The `link[rel=canonical]` callback: the href, when it is the first sabishare link seen. */
  function Canonical(cur: string, e: Element): (r: string)
    ensures cur != "" ==> r == cur
    ensures cur == "" && Contains(Attr(e, "href"), "sabishare") ==> r == Attr(e, "href")
    ensures r == cur || Contains(r, "sabishare")
  {
    if cur == "" && Contains(Attr(e, "href"), "sabishare") then Attr(e, "href") else cur
  }

  /** The download-page link: the sabishare URL, replaced by the API's direct link when the
      token request succeeds. */
  function ResolvedLink(m: Movie, sabi: string, api: Option<string>): (r: Movie)
    ensures r == m.(downloadLink := r.downloadLink)
    ensures UrlString(r.downloadLink) == if api.Some? then api.value else sabi
  {
    m.(downloadLink := ParseUrl(if api.Some? then api.value else sabi))
  }

  /** The `div.file-size` callback. */
  function FileSize(m: Movie, e: Element): (r: Movie)
    ensures r == m.(size := r.size)
    ensures r.size == ChildText(e, "span.size-number")
  {
    TrimSpaceOfTrimmed(ChildText(e, "span.size-number"));
    m.(size := TrimSpace(ChildText(e, "span.size-number")))
  }

  /** What the post-body text yields for each field it can set; None where nothing is set. */
  datatype PostFields = PostFields(description: Option<string>, category: Option<string>,
                                   releaseDate: Option<string>, cast: Option<string>, imdb: Option<string>)

  function OrElse(o: Option<string>, d: string): (r: string)
    ensures o.None? ==> r == d
    ensures o.Some? ==> r == o.value
  {
    if o.Some? then o.value else d
  }

  const ReleaseLabel: string := "Release Date:"
  const ImdbPrefix: string := "https://www.imdb"

  /** `^(.*)Release Date:`: the anchor holds only at the start of the text and `.` stops at a
      newline, so the group is everything before the last "Release Date:" of the first line,
      and there is no match when the first line has none. */
  function CategoryOf(others: string): (r: Option<string>)
    ensures r.None? <==>
      forall j :: 0 <= j && j + |ReleaseLabel| <= LineEnd(others, 0) ==> !OccursAt(others, ReleaseLabel, j)
    ensures r.Some? ==> var k := |r.value|;
      HasPrefix(others, r.value) && OccursAt(others, ReleaseLabel, k) && k + |ReleaseLabel| <= LineEnd(others, 0)
      && forall j :: k < j && j + |ReleaseLabel| <= LineEnd(others, 0) ==> !OccursAt(others, ReleaseLabel, j)
  {
    match FirstLineWith(others, ReleaseLabel)
    case Some((l, k, e)) =>
      FirstLineStart(others, ReleaseLabel);
      if l == 0 then
        LineEndAt(others, 0, e);
        Some(others[..k])
      else
        assert others[l - 1] == '\n';
        None
    case None => None
  }

  /** On the newline-free text the callback reads, the category is the text before the last
      "Release Date:", and there is none exactly when the label is absent. */
  lemma {:induction false} CategoryOfOneLine(others: string)
    requires '\n' !in others
    ensures CategoryOf(others) == match LastOccurrenceIn(others, ReleaseLabel, 0, |others|)
                                  case Some(k) => Some(others[..k])
                                  case None => None
  {
    LineEndAt(others, 0, |others|);
    var r := CategoryOf(others);
    match LastOccurrenceIn(others, ReleaseLabel, 0, |others|)
    case Some(k) =>
      assert r.Some?;
      var k' := |r.value|;
      assert k' <= k && k <= k';
    case None =>
  }

  /** `.*(https:\/\/www\.imdb.*)`: from the last IMDb link of the first line holding one
      to that line's end. */
  function ImdbOf(others: string): (r: Option<string>)
    ensures r.Some? ==> HasPrefix(r.value, ImdbPrefix) && '\n' !in r.value
    ensures r.Some? ==> exists k ::
      (OccursAt(others, ImdbPrefix, k) && r.value == others[k..LineEnd(others, k)]
       && forall j :: k < j && j + |ImdbPrefix| <= LineEnd(others, k) ==> !OccursAt(others, ImdbPrefix, j))
    ensures r.None? <==> !Contains(others, ImdbPrefix)
  {
    FromLast(others, ImdbPrefix)
  }

  /** On newline-free text the IMDb link runs from the last "https://www.imdb" to the end. */
  lemma {:induction false} ImdbOfOneLine(others: string)
    requires '\n' !in others
    ensures ImdbOf(others) == match LastOccurrenceIn(others, ImdbPrefix, 0, |others|)
                              case Some(k) => Some(others[k..])
                              case None => None
  {
    FromLastOneLine(others, ImdbPrefix);
  }

  /** The post-body text: the description before the first "Genre: " and, from the next
      piece with its newlines removed, the category, release date, cast and IMDb link. */
  function ReadPostFields(text: string): (f: PostFields)
    ensures text == "" ==> f == PostFields(None, None, None, None, None)
    ensures text != "" ==> f.description.Some? && !Contains(f.description.value, "Genre: ")
                               && HasPrefix(text, f.description.value)
    ensures !Contains(text, "Genre: ") ==> f.category.None? && f.releaseDate.None? && f.cast.None? && f.imdb.None?
  {
    if text == "" then PostFields(None, None, None, None, None)
    else
      var parts := Split(text, "Genre: ");
      SplitPiecesFree(text, "Genre: ");
      if |parts| == 1 then PostFields(Some(parts[0]), None, None, None, None)
      else
        var others := ReplaceChar(parts[1], '\n', "");
        PostFields(Some(parts[0]), CategoryOf(others),
                   Capture(others, "Release Date:", "Stars", 0, false),
                   Capture(others, "Stars:", "Source:", 0, false),
                   ImdbOf(others))
  }

  /** The post-body fields written onto the movie; fields without a match keep their value. */
  function PostDetails(m: Movie, text: string): (r: Movie)
    ensures r == m.(description := r.description, category := r.category, uploadDate := r.uploadDate,
                    cast := r.cast, imdbLink := r.imdbLink)
    ensures text == "" ==> r == m
    ensures text != "" ==> !Contains(r.description, "Genre: ") && HasPrefix(text, r.description)
  {
    var f := ReadPostFields(text);
    m.(description := OrElse(f.description, m.description), category := OrElse(f.category, m.category),
       uploadDate := OrElse(f.releaseDate, m.uploadDate), cast := OrElse(f.cast, m.cast),
       imdbLink := OrElse(f.imdb, m.imdbLink))
  }

  /** The detail pages live under <item path>/download: a path ending in "download" is left
      alone and nothing is queued; otherwise "download" is joined on once and the page is
      requested with the movie's ordinal. */
  function DownloadStep(u: Url, index: int): (r: (Url, Option<Request>))
    ensures HasSuffix(u.path, "download") ==> r == (u, None)
    ensures !HasSuffix(u.path, "download") ==>
      r.0 == u.(path := Paths.Join([u.path, "download"])) && r.1 == Some(Request(UrlString(r.0), Itoa(index)))
    ensures HasSuffix(r.0.path, "download")
  {
    if HasSuffix(u.path, "download") then (u, None)
    else
      var p := Paths.Join([u.path, "download"]);
      Paths.JoinSegment(u.path, "download");
      var v := u.(path := p);
      (v, Some(Request(UrlString(v), Itoa(index))))
  }

  /** The `article.post-body` callback's effect on the movie; the request it queues is the
      second half of DownloadStep. */
  function PostBody(m: Movie, e: Element, index: int): (r: Movie)
    ensures r == PostDetails(m, ChildText(e, "p")).(downloadLink := r.downloadLink)
    ensures r.downloadLink == DownloadStep(m.downloadLink, index).0
  {
    PostDetails(m, ChildText(e, "p")).(downloadLink := DownloadStep(m.downloadLink, index).0)
  }

  /** Visiting the same post body again changes nothing and queues nothing. */
  lemma PostBodyIdempotent(m: Movie, e: Element, index: int)
    ensures PostBody(PostBody(m, e, index), e, index) == PostBody(m, e, index)
    ensures DownloadStep(PostBody(m, e, index).downloadLink, index).1 == None
  {
    var t := ChildText(e, "p");
    var m1 := PostBody(m, e, index);
    assert PostDetails(m1, t) == m1 by {
      PostDetailsIdempotent(m, t);
      PostDetailsKeepsLink(PostDetails(m, t), t, m1.downloadLink);
    }
  }

  lemma PostDetailsIdempotent(m: Movie, t: string)
    ensures PostDetails(PostDetails(m, t), t) == PostDetails(m, t)
  {
  }

  /** The post-body fields depend only on the text, not on the download link. */
  lemma PostDetailsKeepsLink(m: Movie, t: string, u: Url)
    ensures PostDetails(m.(downloadLink := u), t) == PostDetails(m, t).(downloadLink := u)
  {
  }

  /** The link the j-th episode anchor gives: its href with "download" joined on its path. */
  function EpisodeLink(a: Element): (u: Url)
    ensures HasSuffix(u.path, "download")
  {
    var v := ParseUrl(Attr(a, "href"));
    Paths.JoinSegment(v.path, "download");
    v.(path := Paths.Join([v.path, "download"]))
  }

  /** The links of the episode anchors, in anchor order. */
  function EpisodeLinks(anchors: seq<Element>): (r: seq<Url>)
    ensures |r| == |anchors| && forall j :: 0 <= j < |anchors| ==> r[j] == EpisodeLink(anchors[j])
  {
    seq(|anchors|, j requires 0 <= j < |anchors| => EpisodeLink(anchors[j]))
  }

  /** The ForEach over the episode anchors, which stores anchor j's link under key "j". */
  method EpisodeMap(anchors: seq<Element>) returns (links: map<string, Url>)
    ensures links.Keys == NumberKeys(0, |anchors|)
    ensures forall j :: 0 <= j < |anchors| ==> links[NumberKey(0, j)] == EpisodeLink(anchors[j])
  {
    links := NumberLinks(EpisodeLinks(anchors), 0);
    NumberedLinksContent(EpisodeLinks(anchors), 0);
  }

  /** The callbacks of updateDownloadProps and the one variable they share. */
  class Downloads {
    /** The sabishare page URL found on the current detail page, or "". */
    var sabiShareURL: string

    constructor ()
      ensures sabiShareURL == ""
    {
      sabiShareURL := "";
    }

    method OnOgUrl(e: Element)
      modifies this
      ensures sabiShareURL == OgUrl(old(sabiShareURL), e)
    {
      sabiShareURL := OgUrl(sabiShareURL, e);
    }

    method OnCanonical(e: Element)
      modifies this
      ensures sabiShareURL == Canonical(old(sabiShareURL), e)
    {
      sabiShareURL := Canonical(sabiShareURL, e);
    }

    /** OnScraped: only on a ".../download" page. `api` is the direct link the sabishare
        token API returned with status 200, or None when the answer did not decode or had
        another status; a call that fails outright dereferences a nil response and panics,
        which is not modelled. */
    method OnScraped(t: Scraped, requestPath: string, ctx: string, api: Option<string>)
      requires t.Valid()
      requires HasSuffix(requestPath, "download") ==> t.HasEntry(ctx) && HasToken(sabiShareURL)
      modifies this, t
      ensures t.Valid() && t.next == old(t.next)
      ensures !HasSuffix(requestPath, "download") ==> t.movies == old(t.movies) && sabiShareURL == old(sabiShareURL)
      ensures HasSuffix(requestPath, "download") ==>
        t.movies == old(t.movies)[EntryKey(ctx) := ResolvedLink(old(t.movies)[EntryKey(ctx)], old(sabiShareURL), api)]
        && sabiShareURL == (if api.Some? then "" else old(sabiShareURL))
    {
      if HasSuffix(requestPath, "download") {
        var sabi := sabiShareURL;
        var _ := DownloadToken(sabi);
        t.Apply(ctx, m => ResolvedLink(m, sabi, api));
        if api.Some? {
          sabiShareURL := "";
        }
      }
    }

    method OnFileSize(t: Scraped, ctx: string, e: Element)
      requires t.Valid() && t.HasEntry(ctx)
      modifies t
      ensures t.Valid() && t.next == old(t.next)
      ensures t.movies == old(t.movies)[EntryKey(ctx) := FileSize(old(t.movies)[EntryKey(ctx)], e)]
    {
      t.Apply(ctx, m => FileSize(m, e));
    }

    /** The post-body callback; the returned request is the one it queues. */
    method OnPostBody(t: Scraped, ctx: string, e: Element) returns (req: Option<Request>)
      requires t.Valid() && t.HasEntry(ctx)
      modifies t
      ensures t.Valid() && t.next == old(t.next)
      ensures var i := MovieIndexFromCtx(ctx);
        t.movies == old(t.movies)[EntryKey(ctx) := PostBody(old(t.movies)[EntryKey(ctx)], e, i)]
        && req == DownloadStep(old(t.movies)[EntryKey(ctx)].downloadLink, i).1
    {
      var i := MovieIndexFromCtx(ctx);
      req := DownloadStep(t.movies[EntryKey(ctx)].downloadLink, i).1;
      t.Apply(ctx, m => PostBody(m, e, i));
    }

    /** The `div.video-series-latest-episodes` callback. */
    method OnEpisodes(t: Scraped, ctx: string, inn: Element)
      requires t.Valid() && t.HasEntry(ctx)
      modifies t
      ensures t.Valid() && t.next == old(t.next)
      ensures var m := t.movies[EntryKey(ctx)];
        t.movies == old(t.movies)[EntryKey(ctx) := m]
        && m == old(t.movies)[EntryKey(ctx)].(isSeries := true, sDownloadLink := m.sDownloadLink)
        && m.sDownloadLink.Keys == NumberKeys(0, |ForEach(inn, "a")|)
        && forall j :: 0 <= j < |ForEach(inn, "a")| ==> m.sDownloadLink[NumberKey(0, j)] == EpisodeLink(ForEach(inn, "a")[j])
    {
      var links := EpisodeMap(ForEach(inn, "a"));
      t.Apply(ctx, (m: Movie) => m.(isSeries := true, sDownloadLink := links));
    }
  }

  // ------------------------------------------------------------------ List and Search

  /** List: ListMode, "page/N" joined onto the current list path, then a scrape. */
  method List(e: Props, page: int, scrape: Scraper) returns (r: SearchResult)
    requires e.Valid()
    modifies e
    ensures e.Valid() && e.mode == ListMode
    ensures e.listURL == old(e.listURL).(path := Paths.Join([old(e.listURL.path), PageSegment(page)]))
    ensures e.searchURL == old(e.searchURL) && e.searchQuery == old(e.searchQuery) && e.listQuery == old(e.listQuery)
    ensures r == SearchResult(RecentUploads(page), scrape(ListMode, e.listURL))
  {
    e.JoinListPath(PageSegment(page));
    r := SearchResult(RecentUploads(page), scrape(e.mode, e.ParseURL()));
  }

  /** Two List calls on one engine stack their page segments. */
  lemma ListPathsAccumulate(p: string, a: int, b: int)
    requires p != []
    ensures HasSuffix(Paths.Join([Paths.Join([p, PageSegment(a)]), PageSegment(b)]),
                      "/" + PageSegment(a) + "/" + PageSegment(b))
  {
    Paths.JoinTwice(p, PageSegment(a), PageSegment(b));
  }

  /** Search: SearchMode, "t" set to the query and "folder" to "videos" on the current search
      query, then a scrape. The first parameter is the query and must exist. */
  method Search(e: Props, param: seq<string>, scrape: Scraper) returns (r: SearchResult)
    requires e.Valid() && |param| >= 1
    modifies e
    ensures e.Valid() && e.mode == SearchMode
    ensures e.searchQuery == Set(Set(old(e.searchQuery), "t", param[0]), "folder", "videos")
    ensures e.searchURL == old(e.searchURL).(rawQuery := Encode(e.searchQuery))
    ensures e.listURL == old(e.listURL) && e.listQuery == old(e.listQuery)
    ensures r == SearchResult(param[0], scrape(SearchMode, e.searchURL))
  {
    var query := param[0];
    e.mode := SearchMode;
    e.SetSearchParam("t", query);
    e.SetSearchParam("folder", "videos");
    r := SearchResult(query, scrape(e.mode, e.ParseURL()));
  }

  /** On a fresh engine the search query is exactly "folder=videos&t=<query>", with the query escaped. */
  lemma FreshSearchQuery(q: string)
    ensures Encode(Set(Set(map[], "t", q), "folder", "videos")) == "folder" + "=" + "videos" + "&" + "t" + "=" + QueryEscape(q)
  {
    LexLessByFirst("folder", "t");
    EncodeTwoPlainFirst("folder", "videos", "t", q);
  }
}
