/** The KDramaHood adapter (engine/kdramahood.go): fixed listing selectors, the per-item rules,
    the episode-page handler with its two shared maps, and the URL building of List and Search. */
module KDramaHood {
  import opened Wrappers
  import opened Text
  import opened Urls
  import opened Types
  import opened Props
  import opened Engines
  import Paths

  const Name: string := "KDramaHood"
  const Base: string := "https://kdramahood.com"
  const Description: string := "Watch your favourite korean movie all in one place"

  /** NewKDramaHoodEngine. */
  method New() returns (e: Props)
    ensures fresh(e) && e.Valid()
    ensures e.name == Name && e.description == Description && e.mode == SearchMode
    ensures e.baseURL == ParseUrl(Base)
    ensures e.searchURL == ParseUrl(Base).(path := "/")
    ensures e.listURL == ParseUrl(Base).(path := "/home2/")
    ensures e.searchQuery == map[] && e.listQuery == map[]
  {
    e := new Props(Name, Description, Base, "/", "/home2/");
  }

  /** getParseAttrs: the same selectors in every mode, and never an error. */
  function ParseAttrs(mode: Mode): (r: Result<(string, string)>)
    ensures r == Ok(("div.items", "div.item"))
  {
    Ok(("div.items", "div.item"))
  }

  // ------------------------------------------------------------------ one listing item

  /** parseSingleMovie: every item is a Korean-drama series of unknown size; title and
      description come from the spans on search pages, from the image and the content block
      on list pages, and stay empty in any other mode. */
  function ParseSingleMovie(mode: Mode, el: Element, index: int): (m: Movie)
    ensures m.index == index && m.isSeries && m.source == Name && m.size == "---MB" && m.category == "kdrama"
    ensures mode == SearchMode ==> m.title == ChildText(el, "span.tt") && m.description == ChildText(el, "span.ttx")
    ensures mode == ListMode ==>
      m.title == TrimSpace(ChildAttr(el, "img", "alt")) && m.description == ChildText(el, "div.contenido")
    ensures mode != SearchMode && mode != ListMode ==> m.title == "" && m.description == ""
    ensures m.coverPhotoLink == ChildAttr(el, "img", "src")
    ensures UrlString(m.downloadLink) == AbsoluteUrl(el.request, ChildAttr(el, "a", "href"))
    ensures m.year == 0 && m.sDownloadLink == map[] && m.subtitleLinks == map[]
    ensures m.uploadDate == "" && m.cast == "" && m.quality == "" && m.imdbLink == ""
  {
    TrimSpaceOfTrimmed(ChildText(el, "span.tt"));
    TrimSpaceOfTrimmed(ChildText(el, "span.ttx"));
    TrimSpaceOfTrimmed(ChildText(el, "div.contenido"));
    var m := EmptyMovie.(index := index, isSeries := true, source := Name, size := "---MB");
    var m := if mode == SearchMode then
               m.(title := TrimSpace(ChildText(el, "span.tt")), description := TrimSpace(ChildText(el, "span.ttx")))
             else if mode == ListMode then
               m.(title := TrimSpace(ChildAttr(el, "img", "alt")), description := TrimSpace(ChildText(el, "div.contenido")))
             else m;
    m.(coverPhotoLink := ChildAttr(el, "img", "src"),
       downloadLink := ParseUrl(AbsoluteUrl(el.request, ChildAttr(el, "a", "href"))),
       category := "kdrama")
  }

  /** The parser Scrape's discovery loop calls in the given mode. */
  function Parser(mode: Mode): (Element, int) -> Option<Movie> {
    (el: Element, i: int) => Some(ParseSingleMovie(mode, el, i))
  }

  /** Discovery with this parser keeps every listing item, each under its own ordinal. */
  lemma DiscoversEveryItem(mode: Mode, items: seq<Element>, start: int)
    ensures KeepsIndex(Parser(mode))
    ensures |Parsed(items, Parser(mode), start)| == |items|
    ensures forall j :: 0 <= j < |items| ==> Parsed(items, Parser(mode), start)[j].index == start + j
  {
    ParsedAll(items, Parser(mode), start);
    ParsedOrdinals(items, Parser(mode), start);
  }

  // ------------------------------------------------------------------ the link blocks

  /** What a `div.linkstv` block carries: the anchor's download name and every anchor href. */
  datatype Block = Block(name: string, links: seq<string>)

  function ReadBlock(e: Element): (b: Block)
    ensures b.name == ChildAttr(e, "a", "download") && b.links == ChildAttrs(e, "a", "href")
  {
    Block(ChildAttr(e, "a", "download"), ChildAttrs(e, "a", "href"))
  }

  /** A block records something only when it has more than one link. */
  predicate Records(b: Block) {
    |b.links| > 1
  }

  /** The episode link of a recording block is its first link, the subtitle its last. */
  function EpisodeOf(b: Block): Url
    requires Records(b)
  {
    ParseUrl(b.links[0])
  }

  function SubtitleOf(b: Block): Url
    requires Records(b)
  {
    ParseUrl(b.links[|b.links| - 1])
  }

  /** The two maps the callbacks share. */
  datatype Links = Links(episodes: map<string, Url>, subtitles: map<string, Url>)

  /** The effect of the blocks, in order, on the maps `s`. */
  function Collect(s: Links, bs: seq<Block>): Links
    decreases |bs|
  {
    if bs == [] then s
    else
      var n := |bs| - 1;
      var p := Collect(s, bs[..n]);
      if Records(bs[n]) then Links(p.episodes[bs[n].name := EpisodeOf(bs[n])], p.subtitles[bs[n].name := SubtitleOf(bs[n])])
      else p
  }

  /** Both maps are written together under the same key, so maps that start with one key set
      keep one key set. */
  lemma {:induction false} CollectKeysAgree(s: Links, bs: seq<Block>)
    requires s.episodes.Keys == s.subtitles.Keys
    ensures Collect(s, bs).episodes.Keys == Collect(s, bs).subtitles.Keys
    decreases |bs|
  {
    if bs != [] {
      CollectKeysAgree(s, bs[..|bs| - 1]);
    }
  }

  /** The last recording block named `k`, if any. */
  function LastRecording(bs: seq<Block>, k: string): (r: Option<Block>)
    ensures r.Some? ==> Records(r.value) && r.value.name == k
    decreases |bs|
  {
    if bs == [] then None
    else
      var n := |bs| - 1;
      if Records(bs[n]) && bs[n].name == k then Some(bs[n]) else LastRecording(bs[..n], k)
  }

  /** LastRecording finds a recording block named `k` exactly when there is one, and no
      recording block after the one it finds carries that name. */
  lemma LastRecordingIsLatest(bs: seq<Block>, k: string)
    ensures LastRecording(bs, k).None? <==> forall j :: 0 <= j < |bs| && Records(bs[j]) ==> bs[j].name != k
    ensures LastRecording(bs, k).Some? ==>
      exists j :: 0 <= j < |bs| && bs[j] == LastRecording(bs, k).value
        && forall j' :: j < j' < |bs| && Records(bs[j']) ==> bs[j'].name != k
  {
    LastRecordingNone(bs, k);
    if LastRecording(bs, k).Some? {
      var j := LastRecordingAt(bs, k);
    }
  }

  lemma {:induction false} LastRecordingNone(bs: seq<Block>, k: string)
    ensures LastRecording(bs, k).None? <==> forall j :: 0 <= j < |bs| && Records(bs[j]) ==> bs[j].name != k
    decreases |bs|
  {
    if bs != [] {
      var n := |bs| - 1;
      var prev := bs[..n];
      LastRecordingNone(prev, k);
      assert forall j :: 0 <= j < n ==> prev[j] == bs[j];
    }
  }

  /** The position of the block LastRecording finds: later recording blocks have other names. */
  lemma {:induction false} LastRecordingAt(bs: seq<Block>, k: string) returns (j: int)
    requires LastRecording(bs, k).Some?
    ensures 0 <= j < |bs| && bs[j] == LastRecording(bs, k).value
    ensures forall j' :: j < j' < |bs| && Records(bs[j']) ==> bs[j'].name != k
    decreases |bs|
  {
    var n := |bs| - 1;
    if Records(bs[n]) && bs[n].name == k {
      j := n;
    } else {
      var prev := bs[..n];
      j := LastRecordingAt(prev, k);
      assert forall j' :: 0 <= j' < n ==> prev[j'] == bs[j'];
    }
  }

  /** From empty maps: a name is in both maps exactly when some recording block carries it,
      and under it stand the first and the last link of the last such block. */
  lemma {:induction false} CollectContent(bs: seq<Block>, k: string)
    ensures k in Collect(Links(map[], map[]), bs).episodes <==> LastRecording(bs, k).Some?
    ensures k in Collect(Links(map[], map[]), bs).subtitles <==> LastRecording(bs, k).Some?
    ensures LastRecording(bs, k).Some? ==>
      Collect(Links(map[], map[]), bs).episodes[k] == EpisodeOf(LastRecording(bs, k).value)
      && Collect(Links(map[], map[]), bs).subtitles[k] == SubtitleOf(LastRecording(bs, k).value)
    decreases |bs|
  {
    if bs != [] {
      CollectContent(bs[..|bs| - 1], k);
    }
  }

  /** Running the blocks of two pages one after the other is running their concatenation. */
  lemma {:induction false} CollectAppend(s: Links, a: seq<Block>, b: seq<Block>)
    ensures Collect(s, a + b) == Collect(Collect(s, a), b)
    decreases |b|
  {
    if b == [] {
      assert a + b == a;
    } else {
      var n := |b| - 1;
      assert (a + b)[..|a| + n] == a + b[..n];
      assert (a + b)[|a| + n] == b[n];
      CollectAppend(s, a, b[..n]);
    }
  }

  /** A block with one link or none leaves both maps as they were. */
  lemma ShortBlockRecordsNothing(s: Links, bs: seq<Block>, b: Block)
    requires |b.links| <= 1
    ensures Collect(s, bs + [b]) == Collect(s, bs)
  {
    SnocFront(bs, b);
  }

  // ------------------------------------------------------------------ the visits

  /** The href each `li` of the episode list visits. */
  function Hrefs(items: seq<Element>): (r: seq<string>)
    ensures |r| == |items| && forall j :: 0 <= j < |items| ==> r[j] == ChildAttr(items[j], "a", "href")
  {
    seq(|items|, j requires 0 <= j < |items| => ChildAttr(items[j], "a", "href"))
  }

  function ReadBlocks(es: seq<Element>): (r: seq<Block>)
    ensures |r| == |es| && forall j :: 0 <= j < |es| ==> r[j] == ReadBlock(es[j])
  {
    seq(|es|, j requires 0 <= j < |es| => ReadBlock(es[j]))
  }

  /** The link blocks the visits deliver, page after page; `fetch` gives the `div.linkstv`
      blocks of the page at a URL and stands for the inner collector's download. */
  function Visited(hrefs: seq<string>, fetch: string -> seq<Element>): seq<Block>
    decreases |hrefs|
  {
    if hrefs == [] then []
    else Visited(hrefs[..|hrefs| - 1], fetch) + ReadBlocks(fetch(hrefs[|hrefs| - 1]))
  }

  lemma VisitedSnoc(hrefs: seq<string>, i: int, fetch: string -> seq<Element>)
    requires 0 <= i < |hrefs|
    ensures Visited(hrefs[..i + 1], fetch) == Visited(hrefs[..i], fetch) + ReadBlocks(fetch(hrefs[i]))
  {
    PrefixOfLonger(hrefs, i);
  }

  /** The inner collector is asynchronous, so each Visit only queues its page and the copy
      loops run before any link block is read: as written, the handler sees no blocks at all
      (a `fetch` that delivers nothing in time) and the movie receives two empty maps. */
  lemma {:induction false} AsyncVisitsRecordNothing(hrefs: seq<string>, fetch: string -> seq<Element>)
    requires forall h :: fetch(h) == []
    ensures Visited(hrefs, fetch) == []
    ensures Collect(Links(map[], map[]), Visited(hrefs, fetch)) == Links(map[], map[])
  {
    if hrefs != [] {
      AsyncVisitsRecordNothing(hrefs[..|hrefs| - 1], fetch);
      assert ReadBlocks(fetch(hrefs[|hrefs| - 1])) == [];
    }
  }

  /** updateDownloadProps' two shared maps and the callbacks that use them. */
  class Downloads {
    var episodeMap: map<string, Url>
    var subtitleMap: map<string, Url>

    constructor ()
      ensures episodeMap == map[] && subtitleMap == map[]
    {
      episodeMap := map[];
      subtitleMap := map[];
    }

    /** The delete loops at the start of the `ul.episodios` handler. */
    method Clear()
      modifies this
      ensures episodeMap == map[] && subtitleMap == map[]
    {
      while episodeMap != map[]
        decreases |episodeMap|
      {
        var k :| k in episodeMap;
        episodeMap := episodeMap - {k};
      }
      while subtitleMap != map[]
        invariant episodeMap == map[]
        decreases |subtitleMap|
      {
        var k :| k in subtitleMap;
        subtitleMap := subtitleMap - {k};
      }
    }

    /** The `div.linkstv` callback: with more than one link, the first is the episode and the
        last the subtitle, both under the block's download name. */
    method OnLinksTv(b: Block)
      modifies this
      ensures Records(b) ==> episodeMap == old(episodeMap)[b.name := EpisodeOf(b)]
                             && subtitleMap == old(subtitleMap)[b.name := SubtitleOf(b)]
      ensures !Records(b) ==> episodeMap == old(episodeMap) && subtitleMap == old(subtitleMap)
    {
      var links := b.links;
      if |links| > 1 {
        var movieLink := ParseUrl(links[0]);
        var subLink := ParseUrl(links[|links| - 1]);
        episodeMap := episodeMap[b.name := movieLink];
        subtitleMap := subtitleMap[b.name := subLink];
      }
    }

    /** The link-block callback on the blocks of one fetched page, in page order. */
    method VisitPage(blocks: seq<Block>)
      modifies this
      ensures Links(episodeMap, subtitleMap) == Collect(old(Links(episodeMap, subtitleMap)), blocks)
    {
      ghost var s := Links(episodeMap, subtitleMap);
      var j := 0;
      while j < |blocks|
        invariant 0 <= j <= |blocks|
        invariant Links(episodeMap, subtitleMap) == Collect(s, blocks[..j])
      {
        PrefixOfLonger(blocks, j);
        OnLinksTv(blocks[j]);
        j := j + 1;
      }
      assert blocks[..j] == blocks;
    }

    /** The visits of the episode list, each running the link-block callback on the blocks of
        the page it fetches. */
    method VisitAll(hrefs: seq<string>, fetch: string -> seq<Element>)
      modifies this
      ensures Links(episodeMap, subtitleMap) == Collect(old(Links(episodeMap, subtitleMap)), Visited(hrefs, fetch))
    {
      ghost var s := Links(episodeMap, subtitleMap);
      var i := 0;
      while i < |hrefs|
        invariant 0 <= i <= |hrefs|
        invariant Links(episodeMap, subtitleMap) == Collect(s, Visited(hrefs[..i], fetch))
      {
        var blocks := ReadBlocks(fetch(hrefs[i]));
        VisitPage(blocks);
        VisitedSnoc(hrefs, i, fetch);
        CollectAppend(s, Visited(hrefs[..i], fetch), blocks);
        i := i + 1;
      }
      WholeSlice(hrefs);
    }

    /** The `ul.episodios` handler: clear the shared maps, visit every episode page, then
        give the movie copies of what the visits recorded. */
    method OnEpisodes(t: Scraped, ctx: string, e: Element, fetch: string -> seq<Element>)
      requires t.Valid() && t.HasEntry(ctx)
      modifies this, t
      ensures t.Valid() && t.next == old(t.next)
      ensures Links(episodeMap, subtitleMap) == Collect(Links(map[], map[]), Visited(Hrefs(ForEach(e, "li")), fetch))
      ensures var k := EntryKey(ctx);
        t.movies == old(t.movies)[k := old(t.movies)[k].(sDownloadLink := episodeMap, subtitleLinks := subtitleMap)]
      ensures episodeMap.Keys == subtitleMap.Keys
    {
      Clear();
      var key := EntryKey(ctx);
      VisitAll(Hrefs(ForEach(e, "li")), fetch);
      CollectKeysAgree(Links(map[], map[]), Visited(Hrefs(ForEach(e, "li")), fetch));
      var targetEpisode := CopyMap(episodeMap);
      var targetSub := CopyMap(subtitleMap);
      t.Update(key, t.movies[key].(sDownloadLink := targetEpisode, subtitleLinks := targetSub));
    }
  }

  /** The range loop that copies a map entry by entry into a new one. */
  method CopyMap(src: map<string, Url>) returns (dst: map<string, Url>)
    ensures dst == src
  {
    dst := map[];
    var rest := src.Keys;
    while rest != {}
      invariant rest <= src.Keys
      invariant forall k :: k in dst <==> k in src && k !in rest
      invariant forall k :: k in dst ==> dst[k] == src[k]
      decreases |rest|
    {
      var k :| k in rest;
      dst := dst[k := src[k]];
      rest := rest - {k};
    }
    assert dst.Keys == src.Keys;
  }

  // ------------------------------------------------------------------ List and Search

  /** List: ListMode, "page/N" joined onto the current list path, then a scrape. */
  method List(e: Props, page: int, scrape: Scraper) returns (r: SearchResult)
    requires e.Valid()
    modifies e
    ensures e.Valid() && e.mode == ListMode
    ensures e.listURL == old(e.listURL).(path := Paths.Join([old(e.listURL.path), PageSegment(page)]))
    ensures e.searchURL == old(e.searchURL) && e.searchQuery == old(e.searchQuery) && e.listQuery == old(e.listQuery)
    ensures r == SearchResult(RecentUploads(page), scrape(ListMode, e.listURL))
  {
    e.JoinListPath(PageSegment(page));
    r := SearchResult(RecentUploads(page), scrape(e.mode, e.ParseURL()));
  }

  /** Search: the query under "s"; the first parameter is the query and must exist. */
  method Search(e: Props, param: seq<string>, scrape: Scraper) returns (r: SearchResult)
    requires e.Valid() && |param| >= 1
    modifies e
    ensures e.Valid() && e.mode == SearchMode
    ensures e.searchQuery == Set(old(e.searchQuery), "s", param[0])
    ensures e.searchURL == old(e.searchURL).(rawQuery := Encode(e.searchQuery))
    ensures e.listURL == old(e.listURL) && e.listQuery == old(e.listQuery)
    ensures r == SearchResult(param[0], scrape(SearchMode, e.searchURL))
  {
    var query := param[0];
    e.mode := SearchMode;
    e.SetSearchParam("s", query);
    r := SearchResult(query, scrape(e.mode, e.ParseURL()));
  }
}
