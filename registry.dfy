/** The engine registry of engine/engines.go: GetEngines builds the four usable engines under
    lower-case names, and GetEngine looks a name up after case folding. */
module Registry {
  import opened Wrappers
  import opened Text
  import opened Types
  import opened Urls
  import opened Props
  import NetNaija
  import FzMovies
  import BestHDMovies
  import TvSeries

  /** The four engines GetEngines offers. */
  datatype Site = NetNaijaSite | FzMoviesSite | BestHDSite | TvSeriesSite

  /** The key each engine is registered under. */
  function SiteKey(s: Site): string {
    match s
    case NetNaijaSite => "netnaija"
    case FzMoviesSite => "fzmovies"
    case BestHDSite => "besthdmovies"
    case TvSeriesSite => "tvseries"
  }

  /** The name the engine's constructor gives it. */
  function SiteName(s: Site): string {
    match s
    case NetNaijaSite => NetNaija.Name
    case FzMoviesSite => FzMovies.Name
    case BestHDSite => BestHDMovies.Name
    case TvSeriesSite => TvSeries.Name
  }

  /** The keys of GetEngines' map. */
  const Keys: set<string> := {"netnaija", "fzmovies", "besthdmovies", "tvseries"}

  /** ToLower of a given text, checked character by character. */
  lemma LowerIs(s: string, t: string)
    requires |s| == |t| && forall i :: 0 <= i < |s| ==> LowerChar(s[i]) == t[i]
    ensures ToLower(s) == t
  {
  }

  /** Every engine is registered under its own name, case-folded. */
  lemma KeyIsFoldedName(s: Site)
    ensures SiteKey(s) == ToLower(SiteName(s))
  {
    match s
    case NetNaijaSite => LowerIs("NetNaija", "netnaija");
    case FzMoviesSite => LowerIs("FzMovies", "fzmovies");
    case BestHDSite => LowerIs("BestHDMovies", "besthdmovies");
    case TvSeriesSite => LowerIs("TvSeries", "tvseries");
  }

  /** The engine registered under a key, if any. */
  function SiteOfKey(k: string): (r: Option<Site>)
    ensures r.Some? <==> k in Keys
    ensures r.Some? ==> SiteKey(r.value) == k
  {
    if k == "netnaija" then Some(NetNaijaSite)
    else if k == "fzmovies" then Some(FzMoviesSite)
    else if k == "besthdmovies" then Some(BestHDSite)
    else if k == "tvseries" then Some(TvSeriesSite)
    else None
  }

  /** Which engine a name selects: the one whose key is the case-folded name, or an error
      naming the name as given. */
  function Lookup(name: string): (r: Result<Site>)
    ensures r.Ok? <==> ToLower(name) in Keys
    ensures r.Ok? ==> SiteKey(r.value) == ToLower(name)
    ensures r.Err? ==> r.error == UnknownEngine(name)
  {
    match SiteOfKey(ToLower(name))
    case Some(s) => Ok(s)
    case None => Err(UnknownEngine(name))
  }

  /** Folding is idempotent. */
  lemma {:induction false} ToLowerIdempotent(s: string)
    ensures ToLower(ToLower(s)) == ToLower(s)
  {
    if s != [] {
      ToLowerIdempotent(s[1..]);
      assert ToLower(s) == [LowerChar(s[0])] + ToLower(s[1..]);
    }
  }

  /** A name and its lower-case form select the same engine. */
  lemma LookupIgnoresCase(name: string)
    ensures Lookup(name).Ok? <==> Lookup(ToLower(name)).Ok?
    ensures Lookup(name).Ok? ==> Lookup(ToLower(name)) == Lookup(name)
  {
    ToLowerIdempotent(name);
  }

  /** Each engine's own name selects it. */
  lemma NameSelectsSite(s: Site)
    ensures Lookup(SiteName(s)) == Ok(s)
  {
    KeyIsFoldedName(s);
  }

  /** Folding also maps the dotted capital I (U+0130) to 'i', so a name spelt with it
      still selects its engine. */
  lemma DottedCapitalSelects()
    ensures Lookup("TVSER\U{130}ES") == Ok(TvSeriesSite)
  {
    LowerIs("TVSER\U{130}ES", "tvseries");
  }

  /** What a freshly built engine holds: no query parameters yet. */
  ghost predicate Unqueried(e: Props)
    reads e
  {
    e.searchQuery == map[] && e.listQuery == map[] && e.searchURL.rawQuery == Encode(map[]) && e.listURL.rawQuery == Encode(map[])
  }

  lemma UnqueriedValid(e: Props)
    requires Unqueried(e)
    ensures e.Valid()
  {
  }

  /** The engine's constructor. */
  method Build(s: Site) returns (e: Props)
    ensures fresh(e) && Unqueried(e)
    ensures e.name == SiteName(s) && e.mode == SearchMode
  {
    match s
    case NetNaijaSite => e := NetNaija.New();
    case FzMoviesSite => e := FzMovies.New();
    case BestHDSite => e := BestHDMovies.New();
    case TvSeriesSite => e := TvSeries.New();
  }

  lemma KeysDistinct()
    ensures forall s: Site, s': Site :: s != s' ==> SiteKey(s) != SiteKey(s')
  {
    assert "netnaija"[0] == 'n' && "fzmovies"[0] == 'f' && "tvseries"[0] == 't' && |"besthdmovies"| == 12;
  }

  /** GetEngines: a fresh engine under each key, no two of them the same object. */
  method GetEngines() returns (engines: map<string, Props>)
    ensures engines.Keys == Keys
    ensures forall s: Site :: engines[SiteKey(s)].name == SiteName(s)
    ensures forall s: Site :: fresh(engines[SiteKey(s)]) && Unqueried(engines[SiteKey(s)])
    ensures forall s: Site, s': Site :: s != s' ==> engines[SiteKey(s)] != engines[SiteKey(s')]
  {
    var n := Build(NetNaijaSite);
    var f := Build(FzMoviesSite);
    var b := Build(BestHDSite);
    var t := Build(TvSeriesSite);
    engines := map[];
    engines := engines["netnaija" := n];
    engines := engines["fzmovies" := f];
    engines := engines["besthdmovies" := b];
    engines := engines["tvseries" := t];
    KeysDistinct();
    assert engines[SiteKey(NetNaijaSite)] == n && engines[SiteKey(FzMoviesSite)] == f;
    assert engines[SiteKey(BestHDSite)] == b && engines[SiteKey(TvSeriesSite)] == t;
  }

  /** GetEngine: the engine of the case-folded name, built afresh on every call, or an error
      and no engine. */
  method GetEngine(name: string) returns (e: Props?, err: Option<Error>)
    ensures err.None? <==> Lookup(name).Ok?
    ensures err.None? ==> e != null && fresh(e) && e.Valid() && e.name == SiteName(Lookup(name).value)
    ensures err.Some? ==> e == null && err == Some(UnknownEngine(name))
  {
    var engines := GetEngines();
    var k := ToLower(name);
    if k in engines {
      var s := Lookup(name).value;
      e := engines[SiteKey(s)];
      err := None;
      UnqueriedValid(e);
    } else {
      e := null;
      err := Some(UnknownEngine(name));
    }
  }
}
