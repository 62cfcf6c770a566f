/** The per-engine properties (engine/props.go): name, description, the three site URLs and the
    current mode, plus the URL-building steps the adapters' List and Search share. */
module Props {
  import opened Wrappers
  import opened Text
  import opened Urls
  import opened Types
  import Paths

  /** What Scrape returns for an engine in the given mode aimed at the given URL. The
      network, colly and the parsing of the fetched pages stand behind this parameter. */
  type Scraper = (Mode, Url) -> seq<Movie>

  /** Props.MarshalJSON: the same fields with the three URLs replaced by their String forms. */
  datatype PropsJson = PropsJson(name: string, description: string, baseURL: string, searchURL: string, listURL: string)

  class Props {
    var name: string
    var description: string
    var baseURL: Url
    var searchURL: Url
    var listURL: Url
    var mode: Mode
    /** The query parameters of each URL, as url.Values; kept encoded in the URL's RawQuery. */
    var searchQuery: Values
    var listQuery: Values

    ghost predicate Valid()
      reads this
    {
      searchURL.rawQuery == Encode(searchQuery) && listURL.rawQuery == Encode(listQuery)
    }

    /** An engine built as the adapters' constructors do: every URL is the parsed base URL,
        the search and list URLs with their own paths; the mode starts at its zero value. */
    constructor (name: string, description: string, base: string, searchPath: string, listPath: string)
      requires '?' !in base
      ensures Valid()
      ensures this.name == name && this.description == description
      ensures baseURL == ParseUrl(base)
      ensures searchURL == ParseUrl(base).(path := searchPath)
      ensures listURL == ParseUrl(base).(path := listPath)
      ensures mode == SearchMode && searchQuery == map[] && listQuery == map[]
    {
      AbsentCharNotFound(base, '?');
      this.name := name;
      this.description := description;
      baseURL := ParseUrl(base);
      searchURL := ParseUrl(base).(path := searchPath);
      listURL := ParseUrl(base).(path := listPath);
      mode := SearchMode;
      searchQuery := map[];
      listQuery := map[];
    }

    /** getParseURL: the search URL in SearchMode and the list URL in every other mode. */
    function ParseURL(): (u: Url)
      reads this
      ensures mode == SearchMode ==> u == searchURL
      ensures mode != SearchMode ==> u == listURL
    {
      if mode == SearchMode then searchURL else listURL
    }

    /** MarshalJSON's projection. */
    function ToJson(): (j: PropsJson)
      reads this
      ensures j.name == name && j.description == description
      ensures j.baseURL == UrlString(baseURL) && j.searchURL == UrlString(searchURL) && j.listURL == UrlString(listURL)
    {
      PropsJson(name, description, UrlString(baseURL), UrlString(searchURL), UrlString(listURL))
    }

    /** Enters ListMode and joins `segment` onto the list URL's path, as the page-path List
        implementations do; nothing else changes. */
    method JoinListPath(segment: string)
      requires Valid()
      modifies this
      ensures Valid()
      ensures mode == ListMode
      ensures listURL == old(listURL).(path := Paths.Join([old(listURL.path), segment]))
      ensures searchURL == old(searchURL) && baseURL == old(baseURL)
      ensures searchQuery == old(searchQuery) && listQuery == old(listQuery)
      ensures name == old(name) && description == old(description)
    {
      var path := Paths.Join([listURL.path, segment]);
      mode, listURL := ListMode, listURL.(path := path);
    }

    /** Query().Set(key, value) on the search URL followed by storing Encode() as RawQuery. */
    method SetSearchParam(key: string, value: string)
      requires Valid()
      modifies this
      ensures Valid()
      ensures searchQuery == Set(old(searchQuery), key, value)
      ensures searchURL == old(searchURL).(rawQuery := Encode(searchQuery))
      ensures listURL == old(listURL) && listQuery == old(listQuery) && baseURL == old(baseURL)
      ensures mode == old(mode) && name == old(name) && description == old(description)
    {
      var q := Set(searchQuery, key, value);
      var raw := Encode(q);
      searchQuery, searchURL := q, searchURL.(rawQuery := raw);
    }

    /** The same on the list URL. */
    method SetListParam(key: string, value: string)
      requires Valid()
      modifies this
      ensures Valid()
      ensures listQuery == Set(old(listQuery), key, value)
      ensures listURL == old(listURL).(rawQuery := Encode(listQuery))
      ensures searchURL == old(searchURL) && searchQuery == old(searchQuery) && baseURL == old(baseURL)
      ensures mode == old(mode) && name == old(name) && description == old(description)
    {
      var q := Set(listQuery, key, value);
      var raw := Encode(q);
      listQuery, listURL := q, listURL.(rawQuery := raw);
    }

    /** The Search shape most adapters share: SearchMode, the query stored under `key`, then a
        scrape of the search URL. The result's query is the search text. */
    method SearchBy(key: string, query: string, scrape: Scraper) returns (r: SearchResult)
      requires Valid()
      modifies this
      ensures Valid()
      ensures mode == SearchMode
      ensures Get(searchQuery, key) == Some(query)
      ensures forall k :: k != key ==> Get(searchQuery, k) == Get(old(searchQuery), k)
      ensures searchURL == old(searchURL).(rawQuery := Encode(searchQuery))
      ensures listURL == old(listURL) && listQuery == old(listQuery)
      ensures r == SearchResult(query, scrape(SearchMode, searchURL))
    {
      mode := SearchMode;
      SetSearchParam(key, query);
      r := SearchResult(query, scrape(SearchMode, searchURL));
    }
  }

  /** The list query text of the page-numbered adapters. */
  function RecentUploads(page: int): string {
    "List of Recent Uploads - Page " + Itoa(page)
  }

  /** "page/N", the segment the page-path List implementations join on. */
  function PageSegment(page: int): (w: string)
    ensures Paths.IsRelativeSegment(w)
  {
    var d := Itoa(page);
    assert '/' !in d by { ItoaHasNoSlash(page); }
    var w := "page/" + d;
    assert forall i :: 0 <= i < |w| - 1 && w[i] == '/' ==> i == 4;
    w
  }

  lemma ItoaHasNoSlash(i: int)
    ensures '/' !in Itoa(i)
  {
    ItoaChars(i);
  }
}
