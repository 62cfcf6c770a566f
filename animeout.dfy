/** The AnimeOut adapter (engine/animeout.go): the fixed selectors, the per-item defaults, and
    the article callback that rewrites every episode link onto the public mirror and keys it by
    its file name. */
module AnimeOut {
  import opened Wrappers
  import opened Text
  import opened Urls
  import opened Types
  import opened Props
  import opened Engines
  import Paths
  import opened Escaping

  const Name: string := "AnimeOut"
  const Base: string := "https://animeout.xyz"
  const Description: string := "Search from over 1000's of encoded anime available"

  /** NewAnimeOutEngine. */
  method New() returns (e: Props)
    ensures fresh(e) && e.Valid()
    ensures e.name == Name && e.description == Description && e.mode == SearchMode
    ensures e.baseURL == ParseUrl(Base)
    ensures e.searchURL == ParseUrl(Base).(path := "/")
    ensures e.listURL == ParseUrl(Base).(path := "/all-releases/")
    ensures e.searchQuery == map[] && e.listQuery == map[]
  {
    e := new Props(Name, Description, Base, "/", "/all-releases/");
  }

  /** getParseAttrs: the same selectors in every mode, and never an error. */
  function ParseAttrs(mode: Mode): (r: Result<(string, string)>)
    ensures r.Ok? && r.value == ("div.container", "article.post-item")
  {
    Ok(("div.container", "article.post-item"))
  }

  /** parseSingleMovie: every item is a series of unknown size; the link is resolved against
      the listing page. */
  function ParseSingleMovie(el: Element, index: int): (m: Movie)
    ensures m.index == index && m.isSeries && m.source == Name && m.size == "---MB"
    ensures m.title == ChildText(el, "h3.post-title")
    ensures m.coverPhotoLink == ChildAttr(el, "img", "src")
    ensures UrlString(m.downloadLink) == AbsoluteUrl(el.request, ChildAttr(el, "a", "href"))
    ensures m.description == "" && m.year == 0 && m.sDownloadLink == map[]
  {
    TrimSpaceOfTrimmed(ChildText(el, "h3.post-title"));
    EmptyMovie.(index := index, isSeries := true, source := Name, size := "---MB",
                title := TrimSpace(ChildText(el, "h3.post-title")),
                coverPhotoLink := ChildAttr(el, "img", "src"),
                downloadLink := ParseUrl(AbsoluteUrl(el.request, ChildAttr(el, "a", "href"))))
  }

  /** The parser Scrape's discovery loop calls; the mode plays no part. */
  function Parser(mode: Mode): (Element, int) -> Option<Movie> {
    (el: Element, i: int) => Some(ParseSingleMovie(el, i))
  }

  /** Discovery with this parser keeps every listing item, each under its own ordinal. */
  lemma DiscoversEveryItem(mode: Mode, items: seq<Element>, start: int)
    ensures KeepsIndex(Parser(mode))
    ensures |Parsed(items, Parser(mode), start)| == |items|
    ensures forall j :: 0 <= j < |items| ==> Parsed(items, Parser(mode), start)[j].index == start + j
  {
    ParsedAll(items, Parser(mode), start);
    ParsedOrdinals(items, Parser(mode), start);
  }

  // ------------------------------------------------------------------ episode links

  const MirrorRoot: string := "http://public.animeout.xyz/"
  const DownloadHost: string := "http://" + "download.animeout.com/"
  /** Where links of the download host are moved to. */
  const ServerOneMirror: string := MirrorRoot + "sv1.animeout.com/"

  /** The mirror rewrite: the download host's links move under ServerOneMirror; any other link
      loses one leading "http://", then one leading "https://", and goes under MirrorRoot. */
  function RewriteLink(link: string): (r: string)
    ensures HasPrefix(r, MirrorRoot)
  {
    if HasPrefix(link, DownloadHost) then
      TrimPrefixConcat(MirrorRoot, "sv1.animeout.com/" + TrimPrefix(link, DownloadHost));
      ServerOneMirror + TrimPrefix(link, DownloadHost)
    else
      MirrorRoot + TrimPrefix(TrimPrefix(link, "http://"), "https://")
  }

  /** A download-host link keeps its path under the first server's mirror. */
  lemma RewriteDownloadHost(rest: string)
    ensures RewriteLink(DownloadHost + rest) == ServerOneMirror + rest
  {
    TrimPrefixConcat(DownloadHost, rest);
  }

  /** An https link keeps everything after its scheme. */
  lemma RewriteHttps(rest: string)
    ensures RewriteLink("https://" + rest) == MirrorRoot + rest
  {
    var s := "https://" + rest;
    assert s[4] == 's';
    TrimPrefixDiffer(s, DownloadHost, 4);
    TrimPrefixDiffer(s, "http://", 4);
    TrimPrefixConcat("https://", rest);
  }

  /** Any other http link loses its scheme, and then an "https://" that follows it. */
  lemma RewriteHttp(rest: string)
    requires !HasPrefix(rest, "download.animeout.com/")
    ensures RewriteLink("http://" + rest) == MirrorRoot + TrimPrefix(rest, "https://")
  {
    HasPrefixConcat("http://", rest, "download.animeout.com/");
    TrimPrefixConcat("http://", rest);
  }

  /** The episode key: the last path element without its extension, query-unescaped; a
      malformed escape gives "". */
  function EpisodeKey(link: string): string {
    var filename := Paths.SplitPath(link).1;
    var file := TrimSuffix(filename, Paths.Ext(filename));
    match QueryUnescape(file)
    case Some(f) => f
    case None => ""
  }

  /** A link ending in a plain name and an extension is keyed by the name. */
  lemma EpisodeKeyOfFile(dir: string, name: string, ext: string)
    requires dir == [] || dir[|dir| - 1] == '/'
    requires '/' !in name && '%' !in name && '+' !in name
    requires '.' !in ext && '/' !in ext
    ensures EpisodeKey(dir + name + "." + ext) == name
  {
    FileOfLink(dir, name, ext);
    StemOfFile(name, ext);
    QueryUnescapePlain(name);
    EpisodeKeyOfStem(dir + name + "." + ext, name + "." + ext, name);
  }

  /** The key of a link whose file part has the plain stem `name`. */
  lemma EpisodeKeyOfStem(link: string, file: string, name: string)
    requires Paths.SplitPath(link).1 == file && TrimSuffix(file, Paths.Ext(file)) == name
    requires QueryUnescape(name) == Some(name)
    ensures EpisodeKey(link) == name
  {
  }

  /** Removing the extension of "name.ext" leaves the name. */
  lemma StemOfFile(name: string, ext: string)
    requires Paths.Ext(name + "." + ext) == "." + ext
    ensures TrimSuffix(name + "." + ext, Paths.Ext(name + "." + ext)) == name
  {
    assert name + "." + ext == name + ("." + ext);
    TrimSuffixConcat(name, "." + ext);
  }

  /** The file part of such a link and its extension. */
  lemma FileOfLink(dir: string, name: string, ext: string)
    requires dir == [] || dir[|dir| - 1] == '/'
    requires '/' !in name && '.' !in ext && '/' !in ext
    ensures Paths.SplitPath(dir + name + "." + ext).1 == name + "." + ext
    ensures Paths.Ext(name + "." + ext) == "." + ext
  {
    var file := name + "." + ext;
    assert dir + name + "." + ext == dir + file;
    assert '/' !in file by {
      assert forall i :: 0 <= i < |file| ==> file[i] in name || file[i] == '.' || file[i] in ext;
    }
    Paths.SplitPathOf(dir, file);
    Paths.ExtOf(name, ext);
  }

  /** What the loop reads from one link: whether it is usable (neither "#" nor ""), its key
      and its rewritten URL. */
  datatype Entry = Entry(usable: bool, key: string, url: Url)

  function ReadLink(link: string): (r: Entry)
    ensures r.usable <==> link != "#" && link != ""
    ensures r.key == EpisodeKey(link) && r.url == ParseUrl(RewriteLink(link))
  {
    Entry(link != "#" && link != "", EpisodeKey(link), ParseUrl(RewriteLink(link)))
  }

  function ReadLinks(links: seq<string>): (r: seq<Entry>)
    ensures |r| == |links| && forall i :: 0 <= i < |links| ==> r[i] == ReadLink(links[i])
  {
    seq(|links|, i requires 0 <= i < |links| => ReadLink(links[i]))
  }

  /** A usable link whose key does not start with "#" is stored. */
  predicate Stored(x: Entry) {
    x.usable && !HasPrefix(x.key, "#")
  }

  /** The episode map the loop builds: every stored entry in order, a later one replacing an
      earlier one with the same key. */
  function EpisodeMapOf(es: seq<Entry>): map<string, Url> {
    EpisodeMapUpTo(es, |es|)
  }

  /** The map after the first `n` entries. */
  function EpisodeMapUpTo(es: seq<Entry>, n: nat): map<string, Url>
    requires n <= |es|
    decreases n
  {
    if n == 0 then map[]
    else
      var m := EpisodeMapUpTo(es, n - 1);
      if Stored(es[n - 1]) then m[es[n - 1].key := es[n - 1].url] else m
  }

  /** The download link after the loop: the first link's URL when that link is usable, and the
      current one otherwise. */
  function FirstLinkOf(es: seq<Entry>, current: Url): Url {
    if es != [] && es[0].usable then es[0].url else current
  }

  /** The map holds a key exactly when some stored entry has it, and the URL under the key is
      that of the last such entry; no key starts with "#". */
  lemma EpisodeMapContent(es: seq<Entry>)
    ensures forall j :: 0 <= j < |es| && Stored(es[j]) ==> es[j].key in EpisodeMapOf(es)
    ensures forall k :: k in EpisodeMapOf(es) ==> !HasPrefix(k, "#")
    ensures forall k :: k in EpisodeMapOf(es) ==>
      exists j :: 0 <= j < |es| && Stored(es[j]) && es[j].key == k && EpisodeMapOf(es)[k] == es[j].url
        && (forall j' :: j < j' < |es| && Stored(es[j']) ==> es[j'].key != k)
  {
    forall j | 0 <= j < |es| && Stored(es[j]) ensures es[j].key in EpisodeMapOf(es) {
      EpisodeMapAt(es, |es|, es[j].key);
    }
    forall k | k in EpisodeMapOf(es)
      ensures !HasPrefix(k, "#")
      ensures exists j :: 0 <= j < |es| && Stored(es[j]) && es[j].key == k && EpisodeMapOf(es)[k] == es[j].url
                          && (forall j' :: j < j' < |es| && Stored(es[j']) ==> es[j'].key != k)
    {
      EpisodeMapAt(es, |es|, k);
    }
  }

  /** The content of the map after `n` entries, for one key. */
  lemma {:induction false} EpisodeMapAt(es: seq<Entry>, n: nat, k: string)
    requires n <= |es|
    ensures k in EpisodeMapUpTo(es, n) <==> exists j :: 0 <= j < n && Stored(es[j]) && es[j].key == k
    ensures k in EpisodeMapUpTo(es, n) ==> !HasPrefix(k, "#")
    ensures k in EpisodeMapUpTo(es, n) ==>
      exists j :: 0 <= j < n && Stored(es[j]) && es[j].key == k && EpisodeMapUpTo(es, n)[k] == es[j].url
        && (forall j' :: j < j' < n && Stored(es[j']) ==> es[j'].key != k)
    decreases n
  {
    if n > 0 {
      EpisodeMapAt(es, n - 1, k);
      var x := es[n - 1];
      var prev := EpisodeMapUpTo(es, n - 1);
      if Stored(x) && x.key == k {
        assert EpisodeMapUpTo(es, n)[k] == x.url;
      } else {
        assert EpisodeMapUpTo(es, n) == prev || EpisodeMapUpTo(es, n) == prev[x.key := x.url];
        assert k in EpisodeMapUpTo(es, n) <==> k in prev;
        if k in prev {
          var j :| 0 <= j < n - 1 && Stored(es[j]) && es[j].key == k && prev[k] == es[j].url
            && (forall j' :: j < j' < n - 1 && Stored(es[j']) ==> es[j'].key != k);
          assert EpisodeMapUpTo(es, n)[k] == es[j].url;
        }
      }
    }
  }

  /** The episode loop with its own variables, over the links of the slice as read: every link
      is counted by `index`, and only the one at index 0 can set the download link. */
  method EpisodeLoop(es: seq<Entry>, current: Url) returns (episodeMap: map<string, Url>, downloadLink: Url)
    ensures episodeMap == EpisodeMapOf(es)
    ensures downloadLink == FirstLinkOf(es, current)
  {
    episodeMap := map[];
    downloadLink := current;
    var index := 0;
    while index < |es|
      invariant 0 <= index <= |es|
      invariant episodeMap == EpisodeMapUpTo(es, index)
      invariant downloadLink == if index == 0 then current else FirstLinkOf(es, current)
    {
      var link := es[index];
      if link.usable {
        if !HasPrefix(link.key, "#") {
          episodeMap := episodeMap[link.key := link.url];
        }
        if index == 0 {
          downloadLink := link.url;
        }
      }
      index := index + 1;
    }
  }

  // ------------------------------------------------------------------ the article callback

  /** The description rule: the `div.spaceit` text, or, when that is empty and there are more
      than two paragraphs, the second paragraph. */
  function DescriptionOf(e: Element): (d: string)
    ensures IsTrimmed(d)
    ensures ChildText(e, "div.spaceit") != "" ==> d == ChildText(e, "div.spaceit")
    ensures ChildText(e, "div.spaceit") == "" && |ChildTexts(e, "p")| > 2 ==> d == ChildTexts(e, "p")[1]
    ensures ChildText(e, "div.spaceit") == "" && |ChildTexts(e, "p")| <= 2 ==> d == ""
  {
    var d := ChildText(e, "div.spaceit");
    ChildTextsTrimmed(e, "p");
    if d == "" && |ChildTexts(e, "p")| > 2 then ChildTexts(e, "p")[1] else d
  }

  /** The article's effect on a movie. The anchor list is sliced from its second element, so
      an article without anchors aborts. */
  function ArticleDetails(m: Movie, e: Element): (r: Movie)
    requires |ChildAttrs(e, "a", "href")| >= 1
    ensures r == m.(description := r.description, sDownloadLink := r.sDownloadLink, downloadLink := r.downloadLink)
    ensures r.description == DescriptionOf(e)
  {
    var es := ReadLinks(ChildAttrs(e, "a", "href")[1..]);
    m.(description := DescriptionOf(e), sDownloadLink := EpisodeMapOf(es), downloadLink := FirstLinkOf(es, m.downloadLink))
  }

  /** What the first anchor is plays no part: articles that agree from the second anchor on
      and in their description give the same movie. */
  lemma FirstAnchorSkipped(m: Movie, e1: Element, e2: Element)
    requires |ChildAttrs(e1, "a", "href")| >= 1 && |ChildAttrs(e2, "a", "href")| >= 1
    requires ChildAttrs(e1, "a", "href")[1..] == ChildAttrs(e2, "a", "href")[1..]
    requires DescriptionOf(e1) == DescriptionOf(e2)
    ensures ArticleDetails(m, e1) == ArticleDetails(m, e2)
  {
  }

  /** The "div.article-content" callback on the movie its request belongs to. */
  method OnArticle(t: Scraped, ctx: string, e: Element)
    requires t.Valid() && t.HasEntry(ctx) && |ChildAttrs(e, "a", "href")| >= 1
    modifies t
    ensures t.Valid() && t.next == old(t.next)
    ensures t.movies == old(t.movies)[EntryKey(ctx) := ArticleDetails(old(t.movies)[EntryKey(ctx)], e)]
  {
    var key := EntryKey(ctx);
    var description := DescriptionOf(e);
    var episodeMap, downloadLink := EpisodeLoop(ReadLinks(ChildAttrs(e, "a", "href")[1..]), t.movies[key].downloadLink);
    t.Update(key, t.movies[key].(description := description, sDownloadLink := episodeMap, downloadLink := downloadLink));
  }
}
