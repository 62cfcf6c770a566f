/** The TakanimeList adapter (engine/takanimelist.go): listing selectors, the per-item rules,
    the link retrieval of one episode, the entry-content callback, and List and Search. */
module TakanimeList {
  import opened Wrappers
  import opened Text
  import opened Urls
  import opened Types
  import opened Patterns
  import opened Props
  import opened Engines
  import Paths

  const Name: string := "TakanimeList"
  const Base: string := "https://takanimelist.live"
  const Description: string := "Anime in 480p, 720p and 1080p format"

  /** NewTakanimeListEngine: search and list both start at the site root. */
  method New() returns (e: Props)
    ensures fresh(e) && e.Valid()
    ensures e.name == Name && e.description == Description && e.mode == SearchMode
    ensures e.baseURL == ParseUrl(Base)
    ensures e.searchURL == ParseUrl(Base).(path := "/") && e.listURL == ParseUrl(Base).(path := "/")
    ensures e.searchQuery == map[] && e.listQuery == map[]
  {
    e := new Props(Name, Description, Base, "/", "/");
  }

  /** getParseAttrs: never an error; a mode other than the two named ones gives empty
      selectors. */
  function ParseAttrs(mode: Mode): (r: Result<(string, string)>)
    ensures r.Ok?
    ensures mode == SearchMode ==> r.value == ("main.site-main", "article.post")
    ensures mode == ListMode ==> r.value == ("div.grid-plus-inner", ".grid-post-item")
    ensures mode != SearchMode && mode != ListMode ==> r.value == ("", "")
  {
    if mode == SearchMode then Ok(("main.site-main", "article.post"))
    else if mode == ListMode then Ok(("div.grid-plus-inner", ".grid-post-item"))
    else Ok(("", ""))
  }

  // ------------------------------------------------------------------ one listing item

  /** parseSingleMovie: a series of unknown size; list pages give title, thumbnail and excerpt
      from the grid card, every other mode from the image and the entry excerpt. */
  function ParseSingleMovie(mode: Mode, el: Element, index: int): (m: Movie)
    ensures m.index == index && m.isSeries && m.source == Name && m.size == "---MB"
    ensures mode == ListMode ==>
      m.title == ChildText(el, "div.title") && m.coverPhotoLink == ChildAttr(el, "div.thumbnail-image", "data-img")
      && m.description == ChildText(el, "div.excerpt")
    ensures mode != ListMode ==>
      m.title == TrimSpace(ChildAttr(el, "img", "alt")) && m.coverPhotoLink == ChildAttr(el, "img", "src")
      && m.description == ChildText(el, "span.entry-excerpt")
    ensures UrlString(m.downloadLink) == AbsoluteUrl(el.request, ChildAttr(el, "a", "href"))
    ensures m.year == 0 && m.category == "" && m.sDownloadLink == map[]
  {
    TrimSpaceOfTrimmed(ChildText(el, "div.title"));
    TrimSpaceOfTrimmed(ChildText(el, "div.excerpt"));
    TrimSpaceOfTrimmed(ChildText(el, "span.entry-excerpt"));
    var m := EmptyMovie.(index := index, isSeries := true, source := Name, size := "---MB");
    var m := if mode == ListMode then
               m.(title := TrimSpace(ChildText(el, "div.title")),
                  coverPhotoLink := ChildAttr(el, "div.thumbnail-image", "data-img"),
                  description := TrimSpace(ChildText(el, "div.excerpt")))
             else
               m.(coverPhotoLink := ChildAttr(el, "img", "src"),
                  title := TrimSpace(ChildAttr(el, "img", "alt")),
                  description := TrimSpace(ChildText(el, "span.entry-excerpt")));
    m.(downloadLink := ParseUrl(AbsoluteUrl(el.request, ChildAttr(el, "a", "href"))))
  }

  /** The parser Scrape's discovery loop calls in the given mode. */
  function Parser(mode: Mode): (Element, int) -> Option<Movie> {
    (el: Element, i: int) => Some(ParseSingleMovie(mode, el, i))
  }

  /** Discovery with this parser keeps every listing item, each under its own ordinal. */
  lemma DiscoversEveryItem(mode: Mode, items: seq<Element>, start: int)
    ensures KeepsIndex(Parser(mode))
    ensures |Parsed(items, Parser(mode), start)| == |items|
    ensures forall j :: 0 <= j < |items| ==> Parsed(items, Parser(mode), start)[j].index == start + j
  {
    ParsedAll(items, Parser(mode), start);
    ParsedOrdinals(items, Parser(mode), start);
  }

  // ------------------------------------------------------------------ retrieveSingle

  /** A link to a video file, by its lower-cased extension. */
  predicate IsVideoFile(link: string) {
    HasSuffix(ToLower(link), ".mkv") || HasSuffix(ToLower(link), ".mp4")
  }

  /** Every `script[language="Javascript"]` text of a visited page must match, or the
      callback's `stringsub[0]` panics; a video link is never visited. */
  predicate Retrievable(link: string, scripts: seq<string>) {
    IsVideoFile(link) || forall j :: 0 <= j < |scripts| ==> WindowOpen(scripts[j]).Some?
  }

  /** What retrieveSingle returns for `link`, whose page has the script texts `scripts`: the
      link itself for a video file, otherwise the match in the last script, or "" when the
      page has none. */
  function FinalLink(link: string, scripts: seq<string>): (r: string)
    requires Retrievable(link, scripts)
    ensures IsVideoFile(link) ==> r == link
    ensures !IsVideoFile(link) && scripts == [] ==> r == ""
    ensures !IsVideoFile(link) && scripts != [] ==> HasPrefix(r, "window") && HasSuffix(r, ".)")
  {
    if IsVideoFile(link) then link
    else if scripts == [] then ""
    else WindowOpen(scripts[|scripts| - 1]).value
  }

  /** The extension test ignores case. */
  lemma UpperCaseVideoKept(name: string, scripts: seq<string>)
    ensures IsVideoFile(name + ".MKV") && IsVideoFile(name + ".Mp4")
    ensures FinalLink(name + ".MKV", scripts) == name + ".MKV"
  {
    var a := name + ".MKV";
    var b := name + ".Mp4";
    ToLowerConcat(name, ".MKV");
    ToLowerConcat(name, ".Mp4");
    assert ToLower(".MKV") == ".mkv" && ToLower(".Mp4") == ".mp4";
    HasSuffixConcat(ToLower(name), ".mkv");
    HasSuffixConcat(ToLower(name), ".mp4");
  }

  /** retrieveSingle, with the visit replaced by the script texts of the page it fetches:
      the callback runs on each script element in page order and keeps the latest match. */
  method RetrieveSingle(link: string, scripts: seq<string>) returns (finalLink: string)
    requires Retrievable(link, scripts)
    ensures finalLink == FinalLink(link, scripts)
  {
    finalLink := "";
    if !IsVideoFile(link) {
      var j := 0;
      while j < |scripts|
        invariant 0 <= j <= |scripts|
        invariant finalLink == FinalLink(link, scripts[..j])
      {
        var stringsub := WindowOpen(scripts[j]);
        finalLink := stringsub.value;
        j := j + 1;
        assert scripts[..j][j - 1] == scripts[j - 1];
      }
      assert scripts[..j] == scripts;
    } else {
      finalLink := link;
    }
  }

  /** retrieveSingle as the asynchronous collector runs it: Visit only queues the request, so
      the function returns before any script callback has stored a match, and a link that
      is not a video file comes back empty. */
  function FinalLinkAsWritten(link: string): (r: string)
    ensures r == "" || r == link
    ensures r == link <== IsVideoFile(link)
    ensures r == "" <== !IsVideoFile(link)
  {
    if IsVideoFile(link) then link else ""
  }

  /** The two readings agree on video files; on any other link whose page has a script, the
      asynchronous one loses the match the synchronous one returns, and the episode is then
      not stored (its link prints empty). */
  lemma AsyncLosesPageLink(link: string, scripts: seq<string>)
    requires Retrievable(link, scripts)
    ensures IsVideoFile(link) ==> FinalLinkAsWritten(link) == FinalLink(link, scripts)
    ensures !IsVideoFile(link) && scripts != [] ==>
      FinalLinkAsWritten(link) == "" && FinalLink(link, scripts) != ""
        && !Stored(Entry("", ParseUrl(FinalLinkAsWritten(link))))
  {
    if !IsVideoFile(link) && scripts != [] {
      var r := FinalLink(link, scripts);
      assert HasPrefix(r, "window");
      assert |r| >= 6;
    }
  }

  // ------------------------------------------------------------------ the entry-content callback

  /** One anchor of the entry: its text and the parsed link retrieveSingle made of its href. */
  datatype Entry = Entry(title: string, link: Url)

  /** Only an entry whose link prints non-empty is stored (its ordinal's text always is). */
  predicate Stored(x: Entry) {
    UrlString(x.link) != ""
  }

  /** The anchors' hrefs paired with the anchor text at the same index and their final links;
      `fetch` gives the script texts of the page at a URL. */
  function Entries(links: seq<string>, titles: seq<string>, fetch: string -> seq<string>): (es: seq<Entry>)
    requires |links| <= |titles|
    requires forall j :: 0 <= j < |links| ==> Retrievable(links[j], fetch(links[j]))
    ensures |es| == |links|
    ensures forall j :: 0 <= j < |links| ==> es[j] == Entry(titles[j], ParseUrl(FinalLink(links[j], fetch(links[j]))))
  {
    seq(|links|, j requires 0 <= j < |links| => Entry(titles[j], ParseUrl(FinalLink(links[j], fetch(links[j])))))
  }

  /** The episode map the loop builds: each entry whose final link is non-empty is stored
      under its title, a later title overwriting an earlier one. */
  function EpisodeMapOf(es: seq<Entry>): map<string, Url> {
    EpisodeMapUpTo(es, |es|)
  }

  /** The map after the first `n` entries. */
  function EpisodeMapUpTo(es: seq<Entry>, n: nat): map<string, Url>
    requires n <= |es|
    decreases n
  {
    if n == 0 then map[]
    else
      var m := EpisodeMapUpTo(es, n - 1);
      if Stored(es[n - 1]) then m[es[n - 1].title := es[n - 1].link] else m
  }

  /** One more entry stores its link under its title when its link is non-empty. */
  lemma EpisodeMapStep(es: seq<Entry>, i: nat)
    requires i < |es|
    ensures EpisodeMapUpTo(es, i + 1) ==
      if Stored(es[i]) then EpisodeMapUpTo(es, i)[es[i].title := es[i].link] else EpisodeMapUpTo(es, i)
  {
  }

  /** A title is a key exactly when some stored entry has it, and the value is the link of
      the last such entry. */
  lemma EpisodeMapContent(es: seq<Entry>, k: string)
    ensures k in EpisodeMapOf(es) <==> exists j :: 0 <= j < |es| && Stored(es[j]) && es[j].title == k
    ensures k in EpisodeMapOf(es) ==>
      exists j :: 0 <= j < |es| && Stored(es[j]) && es[j].title == k && EpisodeMapOf(es)[k] == es[j].link
        && forall j' :: j < j' < |es| && Stored(es[j']) ==> es[j'].title != k
  {
    EpisodeMapAt(es, |es|, k);
  }

  /** The content of the map after `n` entries, for one title. */
  lemma {:induction false} EpisodeMapAt(es: seq<Entry>, n: nat, k: string)
    requires n <= |es|
    ensures k in EpisodeMapUpTo(es, n) <==> exists j :: 0 <= j < n && Stored(es[j]) && es[j].title == k
    ensures k in EpisodeMapUpTo(es, n) ==>
      exists j :: 0 <= j < n && Stored(es[j]) && es[j].title == k && EpisodeMapUpTo(es, n)[k] == es[j].link
        && forall j' :: j < j' < n && Stored(es[j']) ==> es[j'].title != k
    decreases n
  {
    if n > 0 {
      EpisodeMapAt(es, n - 1, k);
      EpisodeMapStep(es, n - 1);
      var x := es[n - 1];
      var prev := EpisodeMapUpTo(es, n - 1);
      var cur := EpisodeMapUpTo(es, n);
      if Stored(x) && x.title == k {
        assert cur[k] == x.link;
        assert Stored(es[n - 1]) && es[n - 1].title == k && cur[k] == es[n - 1].link;
      } else {
        assert k in cur <==> k in prev;
        if k in prev {
          var j :| 0 <= j < n - 1 && Stored(es[j]) && es[j].title == k && prev[k] == es[j].link
            && forall j' :: j < j' < n - 1 && Stored(es[j']) ==> es[j'].title != k;
          assert cur[k] == es[j].link;
        } else {
          assert forall j :: 0 <= j < n - 1 && Stored(es[j]) ==> es[j].title != k;
        }
      }
    }
  }

  /** The loop overwrites the download link at every anchor, so it ends as the last href. */
  function LastLink(links: seq<string>, current: Url): Url {
    if links == [] then current else ParseUrl(links[|links| - 1])
  }

  /** The callback's effect on the movie: the download link ends as the last href (the loop
      overwrites it at every anchor), and the episode map replaces the old one. */
  function EntryDetails(m: Movie, links: seq<string>, es: seq<Entry>): (r: Movie)
    ensures r == m.(downloadLink := r.downloadLink, sDownloadLink := r.sDownloadLink)
    ensures links == [] ==> r.downloadLink == m.downloadLink
    ensures links != [] ==> UrlString(r.downloadLink) == links[|links| - 1]
    ensures r.sDownloadLink == EpisodeMapOf(es)
  {
    m.(downloadLink := LastLink(links, m.downloadLink),
       sDownloadLink := EpisodeMapOf(es))
  }

  /** The loop of the callback over the anchors, with the retrieval of each href. */
  method EntryLoop(links: seq<string>, titles: seq<string>, fetch: string -> seq<string>, current: Url)
    returns (downloadLink: Url, episodeMap: map<string, Url>)
    requires |links| <= |titles|
    requires forall j :: 0 <= j < |links| ==> Retrievable(links[j], fetch(links[j]))
    ensures downloadLink == LastLink(links, current)
    ensures episodeMap == EpisodeMapOf(Entries(links, titles, fetch))
  {
    ghost var es := Entries(links, titles, fetch);
    downloadLink := current;
    episodeMap := map[];
    var i := 0;
    while i < |links|
      invariant 0 <= i <= |links|
      invariant downloadLink == if i == 0 then current else ParseUrl(links[i - 1])
      invariant episodeMap == EpisodeMapUpTo(es, i)
    {
      downloadLink := ParseUrl(links[i]);
      var finalLink := RetrieveSingle(links[i], fetch(links[i]));
      var x := Entry(titles[i], ParseUrl(finalLink));
      assert x == es[i];
      EpisodeMapStep(es, i);
      if UrlString(x.link) != "" {
        episodeMap := episodeMap[x.title := x.link];
      }
      i := i + 1;
    }
  }

  /** The "div.entry-content" callback on the movie its request belongs to. An anchor whose
      index has no anchor text panics, so there are at least as many texts as hrefs. */
  method OnEntryContent(t: Scraped, ctx: string, e: Element, fetch: string -> seq<string>)
    requires t.Valid() && t.HasEntry(ctx)
    requires |ChildAttrs(e, "a", "href")| <= |ChildTexts(e, "a")|
    requires forall j :: 0 <= j < |ChildAttrs(e, "a", "href")| ==>
      Retrievable(ChildAttrs(e, "a", "href")[j], fetch(ChildAttrs(e, "a", "href")[j]))
    modifies t
    ensures t.Valid() && t.next == old(t.next)
    ensures var links := ChildAttrs(e, "a", "href");
      var k := EntryKey(ctx);
      t.movies == old(t.movies)[k := EntryDetails(old(t.movies)[k], links, Entries(links, ChildTexts(e, "a"), fetch))]
  {
    var key := EntryKey(ctx);
    var links := ChildAttrs(e, "a", "href");
    var titles := ChildTexts(e, "a");
    var downloadLink, episodeMap := EntryLoop(links, titles, fetch, t.movies[key].downloadLink);
    t.Update(key, t.movies[key].(downloadLink := downloadLink, sDownloadLink := episodeMap));
  }

  // ------------------------------------------------------------------ List and Search

  /** List: ListMode, "page/N" joined onto the current list path, then a scrape. */
  method List(e: Props, page: int, scrape: Scraper) returns (r: SearchResult)
    requires e.Valid()
    modifies e
    ensures e.Valid() && e.mode == ListMode
    ensures e.listURL == old(e.listURL).(path := Paths.Join([old(e.listURL.path), PageSegment(page)]))
    ensures e.searchURL == old(e.searchURL) && e.searchQuery == old(e.searchQuery) && e.listQuery == old(e.listQuery)
    ensures r == SearchResult(RecentUploads(page), scrape(ListMode, e.listURL))
  {
    e.JoinListPath(PageSegment(page));
    r := SearchResult(RecentUploads(page), scrape(e.mode, e.ParseURL()));
  }

  /** Search: the query under "s"; the first parameter is the query and must exist. */
  method Search(e: Props, param: seq<string>, scrape: Scraper) returns (r: SearchResult)
    requires e.Valid() && |param| >= 1
    modifies e
    ensures e.Valid() && e.mode == SearchMode
    ensures e.searchQuery == Set(old(e.searchQuery), "s", param[0])
    ensures e.searchURL == old(e.searchURL).(rawQuery := Encode(e.searchQuery))
    ensures e.listURL == old(e.listURL) && e.listQuery == old(e.listQuery)
    ensures r == SearchResult(param[0], scrape(SearchMode, e.searchURL))
  {
    var query := param[0];
    e.mode := SearchMode;
    e.SetSearchParam("s", query);
    r := SearchResult(query, scrape(e.mode, e.ParseURL()));
  }
}
