/** The values the engine package passes around: modes, movies, scraped page fragments,
    errors and search results. */
module Types {
  import opened Text
  import opened Urls

  /** Mode is an int in Go; only its two named values are meaningful. */
  type Mode = int
  const SearchMode: Mode := 0
  const ListMode: Mode := 1

  /** One downloadable item, with the union of the fields the adapters fill in. The episode and
      subtitle links are keyed maps, as the adapters build them. */
  datatype Movie = Movie(
    index: int,
    title: string,
    coverPhotoLink: string,
    description: string,
    size: string,
    downloadLink: Url,
    year: int,
    isSeries: bool,
    sDownloadLink: map<string, Url>,
    uploadDate: string,
    source: string,
    category: string,
    cast: string,
    quality: string,
    imdbLink: string,
    subtitleLinks: map<string, Url>)

  /** The zero value `Movie{}`. */
  const EmptyMovie := Movie(0, "", "", "", "", EmptyUrl, 0, false, map[], "", "", "", "", "", "", map[])

  /** A fragment of a fetched HTML page as colly presents it to a callback: the raw text and
      attributes of the element itself, what its CSS selectors find (the text of all matches
      run together for ChildText, the attribute of the first match for ChildAttr, one entry
      per match for the list lookups), the sub-elements ForEach walks, and the URL of the
      request that fetched the page. */
  datatype Element = Element(
    text: string,
    attrs: map<string, string>,
    childText: map<string, string>,
    childAttr: map<(string, string), string>,
    childTexts: map<string, seq<string>>,
    childAttrs: map<(string, string), seq<string>>,
    children: map<string, seq<Element>>,
    request: Url)

  /** HTMLElement.Text: the raw, untrimmed text. */
  function ElementText(e: Element): string {
    e.text
  }

  /** HTMLElement.Attr: the raw attribute value, or "" when absent. */
  function Attr(e: Element, name: string): string {
    if name in e.attrs then e.attrs[name] else ""
  }

  /** HTMLElement.ChildText: the text of all matches run together, trimmed; "" when nothing
      matches. */
  function ChildText(e: Element, sel: string): (r: string)
    ensures IsTrimmed(r)
  {
    if sel in e.childText then TrimSpace(e.childText[sel]) else ""
  }

  /** HTMLElement.ChildAttr: the trimmed attribute of the first match, "" when absent. */
  function ChildAttr(e: Element, sel: string, name: string): (r: string)
    ensures IsTrimmed(r)
  {
    if (sel, name) in e.childAttr then TrimSpace(e.childAttr[(sel, name)]) else ""
  }

  /** HTMLElement.ChildTexts: the trimmed text of every match, in document order. */
  function ChildTexts(e: Element, sel: string): seq<string> {
    var raw := if sel in e.childTexts then e.childTexts[sel] else [];
    seq(|raw|, i requires 0 <= i < |raw| => TrimSpace(raw[i]))
  }

  /** HTMLElement.ChildAttrs: the trimmed attribute of every match that has it. */
  function ChildAttrs(e: Element, sel: string, name: string): seq<string> {
    var raw := if (sel, name) in e.childAttrs then e.childAttrs[(sel, name)] else [];
    seq(|raw|, i requires 0 <= i < |raw| => TrimSpace(raw[i]))
  }

  /** Every text ChildTexts gives is trimmed. */
  lemma ChildTextsTrimmed(e: Element, sel: string)
    ensures forall i :: 0 <= i < |ChildTexts(e, sel)| ==> IsTrimmed(ChildTexts(e, sel)[i])
  {
    var raw := if sel in e.childTexts then e.childTexts[sel] else [];
    forall i | 0 <= i < |ChildTexts(e, sel)| ensures IsTrimmed(ChildTexts(e, sel)[i]) {
      assert ChildTexts(e, sel)[i] == TrimSpace(raw[i]);
    }
  }

  /** Every attribute ChildAttrs gives is trimmed. */
  lemma ChildAttrsTrimmed(e: Element, sel: string, name: string)
    ensures forall i :: 0 <= i < |ChildAttrs(e, sel, name)| ==> IsTrimmed(ChildAttrs(e, sel, name)[i])
  {
    var raw := if (sel, name) in e.childAttrs then e.childAttrs[(sel, name)] else [];
    forall i | 0 <= i < |ChildAttrs(e, sel, name)| ensures IsTrimmed(ChildAttrs(e, sel, name)[i]) {
      assert ChildAttrs(e, sel, name)[i] == TrimSpace(raw[i]);
    }
  }

  /** HTMLElement.ForEach: the sub-elements matching `sel`, in document order. */
  function ForEach(e: Element, sel: string): seq<Element> {
    if sel in e.children then e.children[sel] else []
  }

  /** The keys Itoa(first) .. Itoa(first + n - 1). */
  function NumberKeys(first: int, n: nat): set<string> {
    set j | 0 <= j < n :: NumberKey(first, j)
  }

  /** The key of the j-th numbered link. */
  function NumberKey(first: int, j: int): string {
    Itoa(first + j)
  }

  lemma NumberKeysSucc(first: int, n: nat)
    ensures NumberKeys(first, n + 1) == NumberKeys(first, n) + {NumberKey(first, n)}
    ensures NumberKey(first, n) !in NumberKeys(first, n)
  {
    var k := NumberKey(first, n);
    assert k in NumberKeys(first, n + 1);
    if k in NumberKeys(first, n) {
      var j :| 0 <= j < n && NumberKey(first, j) == k;
      ItoaInjective(first + j, first + n);
    }
  }

  /** A ForEach-built episode map: the j-th link is stored under Itoa(first + j). */
  function NumberedLinks(links: seq<Url>, first: int): map<string, Url>
    decreases |links|
  {
    if links == [] then map[]
    else
      var n := |links| - 1;
      NumberedLinks(links[..n], first)[NumberKey(first, n) := links[n]]
  }

  /** The numbered map has exactly the keys Itoa(first) .. Itoa(first + n - 1), each holding its
      own link. */
  lemma NumberedLinksContent(links: seq<Url>, first: int)
    ensures NumberedLinks(links, first).Keys == NumberKeys(first, |links|)
    ensures forall j :: 0 <= j < |links| ==> NumberedLinks(links, first)[NumberKey(first, j)] == links[j]
  {
    NumberedLinksKeys(links, first);
    forall j | 0 <= j < |links| ensures NumberedLinks(links, first)[NumberKey(first, j)] == links[j] {
      NumberedLinksAt(links, first, j);
    }
  }

  lemma {:induction false} NumberedLinksKeys(links: seq<Url>, first: int)
    ensures NumberedLinks(links, first).Keys == NumberKeys(first, |links|)
    decreases |links|
  {
    if links != [] {
      var n := |links| - 1;
      NumberedLinksKeys(links[..n], first);
      NumberKeysSucc(first, n);
    }
  }

  /** The j-th link sits under the j-th key: a later key never equals it. */
  lemma {:induction false} NumberedLinksAt(links: seq<Url>, first: int, j: int)
    requires 0 <= j < |links|
    ensures NumberKey(first, j) in NumberedLinks(links, first)
    ensures NumberedLinks(links, first)[NumberKey(first, j)] == links[j]
    decreases |links|
  {
    var n := |links| - 1;
    if j < n {
      NumberedLinksAt(links[..n], first, j);
      if NumberKey(first, j) == NumberKey(first, n) {
        ItoaInjective(first + j, first + n);
      }
      assert links[..n][j] == links[j];
    }
  }

  /** Adding one more link stores it under the next key. */
  lemma NumberedLinksSnoc(links: seq<Url>, x: Url, first: int)
    ensures NumberedLinks(links + [x], first) == NumberedLinks(links, first)[NumberKey(first, |links|) := x]
  {
    SnocFront(links, x);
  }

  /** The ForEach loop that fills an episode map: the j-th link goes under Itoa(first + j). */
  method NumberLinks(links: seq<Url>, first: int) returns (m: map<string, Url>)
    ensures m == NumberedLinks(links, first)
  {
    m := map[];
    var i := 0;
    while i < |links|
      invariant 0 <= i <= |links|
      invariant m == NumberedLinks(links[..i], first)
    {
      PrefixSnoc(links, i);
      NumberedLinksSnoc(links[..i], links[i], first);
      m := m[NumberKey(first, i) := links[i]];
      i := i + 1;
    }
    WholeSlice(links);
  }

  /** The errors the core reports; FzEngine.Scrape names its mode as the string it was given. */
  datatype Error = InvalidMode(mode: Mode) | InvalidModeName(name: string) | MovieNotFound | UnknownEngine(name: string)

  datatype Result<T> = Ok(value: T) | Err(error: Error)

  /** A detail-page request queued by discovery: the URL and the "movieIndex" context value. */
  datatype Request = Request(url: string, movieIndex: string)

  datatype SearchResult = SearchResult(query: string, movies: seq<Movie>)
}
