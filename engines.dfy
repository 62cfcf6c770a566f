/** The engine-independent part of engine/engines.go: the scraped-movies table with its
    discovery phase, the detail-phase lookups and writes, flattening, the content-type check,
    and the SearchResult queries. */
module Engines {
  import opened Wrappers
  import opened Text
  import opened Urls
  import opened Types

  /** Mode.String, which indexes a two-element array and so is defined on the two modes only. */
  function ModeName(m: Mode): (r: string)
    requires m == SearchMode || m == ListMode
    ensures m == SearchMode ==> r == "Search"
    ensures m == ListMode ==> r == "List"
  {
    if m == SearchMode then "Search" else "List"
  }

  // ------------------------------------------------------------------ ordinal keys

  /** The table key of the movie with ordinal `i`: strconv.Itoa(i). */
  function Key(i: int): string {
    Itoa(i)
  }

  /** The keys "0" .. "n-1". */
  function KeySet(n: nat): set<string> {
    set i | 0 <= i < n :: Key(i)
  }

  lemma KeySetSucc(n: nat)
    ensures KeySet(n + 1) == KeySet(n) + {Key(n)}
  {
    assert Key(n) in KeySet(n + 1);
  }

  lemma KeyNotBelow(n: nat)
    ensures Key(n) !in KeySet(n)
  {
    if Key(n) in KeySet(n) {
      var i :| 0 <= i < n && Key(i) == Key(n);
      ItoaInjective(i, n);
    }
  }

  /** There are exactly n ordinal keys below n. */
  lemma {:induction false} KeySetSize(n: nat)
    ensures |KeySet(n)| == n
  {
    if n > 0 {
      KeySetSize(n - 1);
      KeySetSucc(n - 1);
      KeyNotBelow(n - 1);
    } else {
      assert KeySet(0) == {};
    }
  }

  /** The table invariant after discovery: the keys are exactly "0".."n-1" and the movie
      stored under Key(i) has Index i. */
  ghost predicate OrdinalTable(movies: map<string, Movie>, n: nat) {
    movies.Keys == KeySet(n)
    && forall i :: 0 <= i < n ==> Key(i) in movies && movies[Key(i)].index == i
  }

  /** A parseSingleMovie that gives every movie it returns the index it was called with. */
  ghost predicate KeepsIndex(parse: (Element, int) -> Option<Movie>) {
    forall e, i :: parse(e, i).Some? ==> parse(e, i).value.index == i
  }

  /** The movies discovery keeps from `items` with the counter starting at `start`: each
      item is parsed with the current counter, which moves only past successful parses. */
  function Parsed(items: seq<Element>, parse: (Element, int) -> Option<Movie>, start: int): (p: seq<Movie>)
    ensures |p| <= |items|
    decreases |items|
  {
    if items == [] then []
    else
      var prev := Parsed(items[..|items| - 1], parse, start);
      match parse(items[|items| - 1], start + |prev|)
      case None => prev
      case Some(m) => prev + [m]
  }

  /** The detail requests discovery queues: one per kept movie, tagged with its key. */
  function Requests(p: seq<Movie>, start: int): (r: seq<Request>)
    ensures |r| == |p|
    ensures forall j :: 0 <= j < |p| ==> r[j] == Request(UrlString(p[j].downloadLink), Key(start + j))
  {
    seq(|p|, j requires 0 <= j < |p| => Request(UrlString(p[j].downloadLink), Key(start + j)))
  }

  /** Kept movies carry consecutive ordinals from `start`. */
  lemma {:induction false} ParsedOrdinals(items: seq<Element>, parse: (Element, int) -> Option<Movie>, start: int)
    requires KeepsIndex(parse)
    ensures forall j :: 0 <= j < |Parsed(items, parse, start)| ==> Parsed(items, parse, start)[j].index == start + j
    decreases |items|
  {
    if items != [] {
      ParsedOrdinals(items[..|items| - 1], parse, start);
    }
  }

  /** An item that fails to parse adds nothing and leaves the counter where it was; the
      items after it are parsed with that same counter. */
  lemma ParsedSkipsFailure(items: seq<Element>, x: Element, parse: (Element, int) -> Option<Movie>, start: int)
    requires parse(x, start + |Parsed(items, parse, start)|).None?
    ensures Parsed(items + [x], parse, start) == Parsed(items, parse, start)
  {
    SnocFront(items, x);
  }

  /** A successfully parsed item is appended with the current counter value. */
  lemma ParsedAppends(items: seq<Element>, x: Element, parse: (Element, int) -> Option<Movie>, start: int)
    requires parse(x, start + |Parsed(items, parse, start)|).Some?
    ensures Parsed(items + [x], parse, start)
         == Parsed(items, parse, start) + [parse(x, start + |Parsed(items, parse, start)|).value]
  {
    SnocFront(items, x);
  }

  /** All items are kept when none of them fails to parse. */
  lemma {:induction false} ParsedAll(items: seq<Element>, parse: (Element, int) -> Option<Movie>, start: int)
    requires forall j, i :: 0 <= j < |items| ==> parse(items[j], i).Some?
    ensures |Parsed(items, parse, start)| == |items|
    decreases |items|
  {
    if items != [] {
      var p := items[..|items| - 1];
      assert forall j :: 0 <= j < |p| ==> p[j] == items[j];
      ParsedAll(p, parse, start);
    }
  }

  /** A flattening of a table built by discovery holds every ordinal below n exactly once:
      its size is n, every Index is below n and no two entries share an Index. */
  lemma FlattenedOrdinals(movies: map<string, Movie>, n: nat, v: seq<Movie>, keys: seq<string>)
    requires OrdinalTable(movies, n)
    requires |keys| == |v| == |movies|
    requires forall j :: 0 <= j < |v| ==> keys[j] in movies && v[j] == movies[keys[j]]
    requires forall a, b :: 0 <= a < b < |keys| ==> keys[a] != keys[b]
    ensures |v| == n
    ensures forall j :: 0 <= j < |v| ==> 0 <= v[j].index < n
    ensures forall a, b :: 0 <= a < b < |v| ==> v[a].index != v[b].index
  {
    KeySetSize(n);
    assert |movies| == |movies.Keys|;
    forall j | 0 <= j < |v| ensures 0 <= v[j].index < n && keys[j] == Key(v[j].index) {
      var i :| 0 <= i < n && keys[j] == Key(i);
    }
  }


  /** `movies` keeps every entry of `before` and holds p[j] under the key of ordinal start + j. */
  ghost predicate Extends(before: map<string, Movie>, movies: map<string, Movie>, p: seq<Movie>, start: int) {
    (forall j :: 0 <= j < |p| ==> Key(start + j) in movies && movies[Key(start + j)] == p[j])
    && (forall k :: k in before ==> k in movies && movies[k] == before[k])
  }

  lemma ExtendsStep(before: map<string, Movie>, movies: map<string, Movie>, p: seq<Movie>, start: int, m: Movie)
    requires Extends(before, movies, p, start) && Key(start + |p|) !in movies
    ensures Extends(before, movies[Key(start + |p|) := m], p + [m], start)
  {
    var movies' := movies[Key(start + |p|) := m];
    forall j | 0 <= j < |p| + 1 ensures Key(start + j) in movies' && movies'[Key(start + j)] == (p + [m])[j] {
      SnocAt(p, m, j);
      if j < |p| {
        assert Key(start + j) in movies && movies[Key(start + j)] == p[j];
      }
    }
    forall k | k in before ensures k in movies' && movies'[k] == before[k] {
      assert k in movies;
    }
  }

  /** One discovery step, in terms of Parsed: what DiscoverOne does to the table, the counter
      and the queued requests is what Parsed, Extends and Requests say of one more item. */
  lemma DiscoverStep(done: seq<Element>, x: Element, parse: (Element, int) -> Option<Movie>, start: int,
                     old0: map<string, Movie>, before: map<string, Movie>, after: map<string, Movie>,
                     reqs: seq<Request>, req: Option<Request>, nextAfter: int)
    requires Extends(old0, before, Parsed(done, parse, start), start)
    requires reqs == Requests(Parsed(done, parse, start), start)
    requires var n := start + |Parsed(done, parse, start)|;
      (parse(x, n).None? ==> after == before && nextAfter == n && req.None?)
      && (parse(x, n).Some? ==>
            Key(n) !in before && after == before[Key(n) := parse(x, n).value] && nextAfter == n + 1
            && req == Some(Request(UrlString(parse(x, n).value.downloadLink), Key(n))))
    ensures nextAfter == start + |Parsed(done + [x], parse, start)|
    ensures Extends(old0, after, Parsed(done + [x], parse, start), start)
    ensures (if req.Some? then reqs + [req.value] else reqs) == Requests(Parsed(done + [x], parse, start), start)
  {
    var prev := Parsed(done, parse, start);
    var n := start + |prev|;
    match parse(x, n) {
      case None =>
        ParsedSkipsFailure(done, x, parse, start);
      case Some(m) =>
        ParsedAppends(done, x, parse, start);
        ExtendsStep(old0, before, prev, start, m);
        assert Requests(prev + [m], start) == Requests(prev, start) + [req.value];
    }
  }

  /** The table key a detail callback addresses: the request's "movieIndex" read back as a
      number and used as the ordinal. */
  function EntryKey(ctx: string): string
    requires Atoi(ctx).ok
  {
    Key(Atoi(ctx).value)
  }

  /** A discovery-made context value addresses the movie discovery stored under it. */
  lemma OrdinalEntry(movies: map<string, Movie>, n: nat, i: int)
    requires OrdinalTable(movies, n) && 0 <= i < n && i <= MaxInt64
    ensures Atoi(Key(i)).ok && EntryKey(Key(i)) == Key(i)
    ensures Key(i) in movies && movies[Key(i)].index == i
  {
    CtxRoundTrip(i);
  }

  /** A detail callback that never changes a movie's Index. */
  ghost predicate PreservesIndex(f: Movie -> Movie) {
    forall m :: f(m).index == m.index
  }

  // ------------------------------------------------------------------ the table

  /** The flattening loop over any map: every value once, under pairwise distinct keys, in
      the map's unspecified order. */
  method FlattenMap<V>(all: map<string, V>) returns (v: seq<V>, ghost keys: seq<string>)
    ensures |keys| == |v| == |all|
    ensures forall j :: 0 <= j < |v| ==> keys[j] in all && v[j] == all[keys[j]]
    ensures forall a, b :: 0 <= a < b < |keys| ==> keys[a] != keys[b]
  {
    v, keys := [], [];
    var rest := all;
    while rest.Keys != {}
      invariant |keys| == |v| && |v| + |rest.Keys| == |all.Keys|
      invariant forall k :: k in rest ==> k in all && rest[k] == all[k]
      invariant forall j :: 0 <= j < |v| ==> keys[j] in all && keys[j] !in rest && v[j] == all[keys[j]]
      invariant forall a, b :: 0 <= a < b < |keys| ==> keys[a] != keys[b]
      decreases |rest.Keys|
    {
      var k :| k in rest.Keys;
      v, keys := v + [rest[k]], keys + [k];
      assert (rest - {k}).Keys == rest.Keys - {k};
      rest := rest - {k};
    }
    assert |all| == |all.Keys|;
  }

  /** The `scraped` table of Scrape together with its `movieIndex` counter. */
  class Scraped {
    var movies: map<string, Movie>
    var next: nat

    ghost predicate Valid()
      reads this
    {
      OrdinalTable(movies, next)
    }

    constructor ()
      ensures Valid() && movies == map[] && next == 0
    {
      movies := map[];
      next := 0;
      assert KeySet(0) == {};
    }

    /** getMovieFromMovies: the movie stored under the request's "movieIndex", or an empty
        movie when there is none. */
    function MovieFromMovies(key: string): (m: Movie)
      reads this
      ensures key in movies ==> m == movies[key]
      ensures key !in movies ==> m == EmptyMovie
    {
      if key in movies then movies[key] else EmptyMovie
    }

    /** A detail callback writing a movie back through the *Movie it looked up. A movie
        looked up under an absent key is a fresh Movie{} that the table never sees. */
    method Put(key: string, m: Movie)
      modifies this
      ensures movies == if key in old(movies) then old(movies)[key := m] else old(movies)
      ensures next == old(next)
    {
      if key in movies {
        movies := movies[key := m];
      }
    }

    /** Whether a detail callback for the request with this context value finds its movie:
        the adapters index their movie list with the ordinal, so an absent one is fatal. */
    predicate HasEntry(ctx: string)
      reads this
    {
      Atoi(ctx).ok && EntryKey(ctx) in movies
    }

    /** A detail callback `f` applied to the movie its request addresses, written back in
        place; every other entry and the counter stay as they were. */
    method Apply(ctx: string, f: Movie -> Movie)
      requires Valid() && HasEntry(ctx) && PreservesIndex(f)
      modifies this
      ensures Valid()
      ensures movies == old(movies)[EntryKey(ctx) := f(old(movies)[EntryKey(ctx)])]
      ensures next == old(next)
    {
      var k := EntryKey(ctx);
      Update(k, f(movies[k]));
    }

    /** A detail callback that keeps the movie's Index keeps the table invariant. */
    method Update(key: string, m: Movie)
      requires Valid() && (key in movies ==> m.index == movies[key].index)
      modifies this
      ensures Valid()
      ensures movies == if key in old(movies) then old(movies)[key := m] else old(movies)
      ensures next == old(next)
    {
      Put(key, m);
    }

    /** The body of the ForEach callback on a successful parse: store the movie under the
        current ordinal, queue its detail request, and advance the counter. */
    method InsertAndAdvance(m: Movie) returns (req: Request)
      requires Valid() && m.index == next
      modifies this
      ensures Valid()
      ensures Key(old(next)) !in old(movies)
      ensures movies == old(movies)[Key(old(next)) := m] && next == old(next) + 1
      ensures req == Request(UrlString(m.downloadLink), Key(old(next)))
    {
      KeyNotBelow(next);
      KeySetSucc(next);
      forall i | 0 <= i < next ensures Key(i) != Key(next) {
        if Key(i) == Key(next) { ItoaInjective(i, next); }
      }
      req := Request(UrlString(m.downloadLink), Key(next));
      movies := movies[Key(next) := m];
      next := next + 1;
    }

    /** One ForEach callback: parse the item with the current counter; on success store it
        and advance, on failure change nothing. */
    method DiscoverOne(x: Element, parse: (Element, int) -> Option<Movie>) returns (req: Option<Request>)
      requires Valid() && KeepsIndex(parse)
      modifies this
      ensures Valid()
      ensures parse(x, old(next)).None? ==> movies == old(movies) && next == old(next) && req.None?
      ensures parse(x, old(next)).Some? ==>
        var m := parse(x, old(next)).value;
        Key(old(next)) !in old(movies) && movies == old(movies)[Key(old(next)) := m] && next == old(next) + 1
        && req == Some(Request(UrlString(m.downloadLink), Key(old(next))))
    {
      match parse(x, next) {
        case None =>
          req := None;
        case Some(m) =>
          var r := InsertAndAdvance(m);
          req := Some(r);
      }
    }

    /** After the items `done`, starting from the table `base` and the counter `start`: the
        kept movies are stored under their ordinals, the counter is past them, and their
        detail requests are queued in order. */
    ghost predicate Discovered(done: seq<Element>, parse: (Element, int) -> Option<Movie>, start: int,
                               base: map<string, Movie>, reqs: seq<Request>)
      reads this
    {
      Valid() && next == start + |Parsed(done, parse, start)|
      && Extends(base, movies, Parsed(done, parse, start), start)
      && reqs == Requests(Parsed(done, parse, start), start)
    }

    /** One item of the ForEach, on top of the items before it. */
    method DiscoverNext(ghost done: seq<Element>, x: Element, parse: (Element, int) -> Option<Movie>,
                        ghost start: int, ghost base: map<string, Movie>, reqs: seq<Request>)
      returns (reqs': seq<Request>)
      requires Discovered(done, parse, start, base, reqs) && KeepsIndex(parse)
      modifies this
      ensures Discovered(done + [x], parse, start, base, reqs')
    {
      ghost var before := movies;
      var req := DiscoverOne(x, parse);
      DiscoverStep(done, x, parse, start, base, before, movies, reqs, req, next);
      if req.Some? {
        reqs' := reqs + [req.value];
      } else {
        reqs' := reqs;
      }
    }

    /** The discovery phase over the item fragments of the listing page: every movie kept
        by Parsed lands under the next ordinal key, earlier entries stay, and one detail
        request per kept movie is queued in order. */
    method Discover(items: seq<Element>, parse: (Element, int) -> Option<Movie>) returns (reqs: seq<Request>)
      requires Valid() && KeepsIndex(parse)
      modifies this
      ensures Discovered(items, parse, old(next), old(movies), reqs)
    {
      ghost var start, base := next, movies;
      reqs := [];
      var i := 0;
      ghost var done: seq<Element> := [];
      while i < |items|
        invariant 0 <= i <= |items| && done == items[..i]
        invariant Discovered(done, parse, start, base, reqs)
      {
        reqs := DiscoverNext(done, items[i], parse, start, base, reqs);
        done := done + [items[i]];
        i := i + 1;
      }
      assert done == items;
    }

    /** The flattening loop: every stored movie once, in the map's unspecified order. */
    method Flatten() returns (v: seq<Movie>, ghost keys: seq<string>)
      ensures |keys| == |v| == |movies|
      ensures forall j :: 0 <= j < |v| ==> keys[j] in movies && v[j] == movies[keys[j]]
      ensures forall a, b :: 0 <= a < b < |keys| ==> keys[a] != keys[b]
    {
      v, keys := FlattenMap(movies);
    }
  }

  // ------------------------------------------------------------------ detail phase checks

  /** OnResponseHeaders: a detail response is aborted exactly when its Content-Type has no
      occurrence of "text". */
  function AbortsResponse(contentType: string): (abort: bool)
    ensures abort <==> forall j :: 0 <= j <= |contentType| ==> !OccursAt(contentType, "text", j)
  {
    !Contains(contentType, "text")
  }

  /** getMovieIndexFromCtx: the request's "movieIndex" read back as a number (a value that
      does not parse ends the program). */
  function MovieIndexFromCtx(ctx: string): (i: int)
    requires Atoi(ctx).ok
    ensures MinInt64 <= i <= MaxInt64
  {
    Atoi(ctx).value
  }

  /** The context value discovery stores reads back as the same ordinal. */
  lemma CtxRoundTrip(i: int)
    requires 0 <= i <= MaxInt64
    ensures Atoi(Key(i)).ok && MovieIndexFromCtx(Key(i)) == i
  {
    AtoiItoa(i);
  }

  // ------------------------------------------------------------------ follow-up visits

  /** Collector.Visit from inside a detail callback: a request with a context of its own, in
      which "movieIndex" is absent and reads back as "". */
  function CollectorVisit(url: string): (r: Request)
    ensures r.url == url
  {
    Request(url, "")
  }

  /** The page such a request fetches cannot be tied to a movie: every detail callback on it
      reads "movieIndex" with getMovieIndexFromCtx, which ends the program on "". */
  lemma CollectorVisitLosesMovie(t: Scraped, url: string)
    ensures !Atoi(CollectorVisit(url).movieIndex).ok
    ensures !t.HasEntry(CollectorVisit(url).movieIndex)
  {
  }

  /** Request.Visit from inside a detail callback: the follow-up request shares the context
      of the request whose page is being handled. */
  function ContextVisit(ctx: string, url: string): (r: Request)
    ensures r.url == url
  {
    Request(url, ctx)
  }

  /** The callbacks on a page fetched that way address the same movie as the page that
      queued it. */
  lemma ContextVisitKeepsMovie(t: Scraped, ctx: string, url: string)
    requires t.HasEntry(ctx)
    ensures t.HasEntry(ContextVisit(ctx, url).movieIndex)
    ensures EntryKey(ContextVisit(ctx, url).movieIndex) == EntryKey(ctx)
  {
  }

  // ------------------------------------------------------------------ results

  /** MovieJSON: the movie with its links replaced by their String forms. */
  datatype MovieJson = MovieJson(movie: Movie, downloadLink: string, sDownloadLink: map<string, string>)

  function ToJson(m: Movie): (j: MovieJson)
    ensures j.movie == m && j.downloadLink == UrlString(m.downloadLink)
    ensures j.sDownloadLink.Keys == m.sDownloadLink.Keys
    ensures forall k :: k in m.sDownloadLink ==> j.sDownloadLink[k] == UrlString(m.sDownloadLink[k])
  {
    MovieJson(m, UrlString(m.downloadLink), map k | k in m.sDownloadLink :: UrlString(m.sDownloadLink[k]))
  }

  /** SearchResult.Titles. */
  method Titles(s: SearchResult) returns (titles: seq<string>)
    ensures |titles| == |s.movies|
    ensures forall i :: 0 <= i < |s.movies| ==> titles[i] == s.movies[i].title
  {
    titles := [];
    var i := 0;
    while i < |s.movies|
      invariant 0 <= i <= |s.movies|
      invariant |titles| == i
      invariant forall j :: 0 <= j < i ==> titles[j] == s.movies[j].title
    {
      titles := titles + [s.movies[i].title];
      i := i + 1;
    }
  }

  /** The position of the first movie with the given title. */
  function FirstWithTitle(movies: seq<Movie>, title: string): (r: Option<nat>)
    ensures r.Some? ==> r.value < |movies| && movies[r.value].title == title
    ensures r.Some? ==> forall j :: 0 <= j < r.value ==> movies[j].title != title
    ensures r.None? <==> forall j :: 0 <= j < |movies| ==> movies[j].title != title
  {
    if movies == [] then None
    else if movies[0].title == title then Some(0)
    else match FirstWithTitle(movies[1..], title)
      case None => None
      case Some(i) => Some(i + 1)
  }

  /** SearchResult.GetMovieByTitle: the first movie with that title, or an empty movie and
      "Movie not Found". */
  method GetMovieByTitle(s: SearchResult, title: string) returns (m: Movie, err: Option<Error>)
    ensures err.None? <==> FirstWithTitle(s.movies, title).Some?
    ensures err.None? ==> m == s.movies[FirstWithTitle(s.movies, title).value]
    ensures err.Some? ==> m == EmptyMovie && err.value == MovieNotFound
  {
    var i := 0;
    while i < |s.movies|
      invariant 0 <= i <= |s.movies|
      invariant forall j :: 0 <= j < i ==> s.movies[j].title != title
    {
      if s.movies[i].title == title {
        return s.movies[i], None;
      }
      i := i + 1;
    }
    return EmptyMovie, Some(MovieNotFound);
  }

  /** SearchResult.GetIndexFromTitle: the slice position of the first movie with that title
      (not its Index field), or 0 and "Movie not Found". */
  method GetIndexFromTitle(s: SearchResult, title: string) returns (index: int, err: Option<Error>)
    ensures err.None? <==> FirstWithTitle(s.movies, title).Some?
    ensures err.None? ==> index == FirstWithTitle(s.movies, title).value
    ensures err.Some? ==> index == 0 && err.value == MovieNotFound
  {
    var i := 0;
    while i < |s.movies|
      invariant 0 <= i <= |s.movies|
      invariant forall j :: 0 <= j < i ==> s.movies[j].title != title
    {
      if s.movies[i].title == title {
        return i, None;
      }
      i := i + 1;
    }
    return 0, Some(MovieNotFound);
  }

  /** Any movie with the title makes the lookup succeed, at that movie or an earlier one. */
  lemma TitleLookupsAgree(s: SearchResult, title: string, i: nat)
    requires i < |s.movies| && s.movies[i].title == title
    ensures FirstWithTitle(s.movies, title).Some? && FirstWithTitle(s.movies, title).value <= i
  {
  }

  /** The two lookups on one result agree: they succeed and fail together, and the movie found
      by title is the one at the index found by title. */
  method LookupsAgree(s: SearchResult, title: string) returns (m: Movie, index: int, found: bool)
    ensures found <==> exists j :: 0 <= j < |s.movies| && s.movies[j].title == title
    ensures found ==> 0 <= index < |s.movies| && m == s.movies[index] && m.title == title
    ensures !found ==> m == EmptyMovie && index == 0
  {
    var byTitle, byIndex;
    m, byTitle := GetMovieByTitle(s, title);
    index, byIndex := GetIndexFromTitle(s, title);
    found := byTitle.None?;
  }
}
