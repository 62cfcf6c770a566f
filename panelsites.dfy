/** The detail-page callbacks that MyCoolMoviez (engine/mycoolmoviez.go) and ChiaAnime
    (engine/chiaanime.go) share word for word: the poster, the panel of labelled list items,
    the https links of the download box, and the "Download from" anchors. */
module PanelSites {
  import opened Wrappers
  import opened Text
  import opened Urls
  import opened Types
  import opened Patterns
  import opened Engines

  // ------------------------------------------------------------------ the poster

  /** The `img.movie-poster` callback's effect: the src, parsed and printed back, which gives
      the same text. */
  function PosterDetails(m: Movie, e: Element): (r: Movie)
    ensures r == m.(coverPhotoLink := Attr(e, "src"))
  {
    m.(coverPhotoLink := UrlString(ParseUrl(Attr(e, "src"))))
  }

  method OnPoster(t: Scraped, ctx: string, e: Element)
    requires t.Valid() && t.HasEntry(ctx)
    modifies t
    ensures t.Valid() && t.next == old(t.next)
    ensures var k := EntryKey(ctx); t.movies == old(t.movies)[k := PosterDetails(old(t.movies)[k], e)]
  {
    t.Apply(ctx, (m: Movie) => PosterDetails(m, e));
  }

  // ------------------------------------------------------------------ the panel

  const DescriptionLabel: string := "Description :"
  const GenreLabel: string := "Genre :"

  /** The two characters backslash and `n` (a Go raw string), not a line break. */
  const BackslashN: string := "\\n"

  /** The trimmed remainder of the last text that starts with `tag`, or `dflt` when none
      does. */
  function LastAfter(texts: seq<string>, tag: string, dflt: string): (r: string)
    ensures r == dflt || IsTrimmed(r)
  {
    match LastPrefixed(texts, tag)
    case Some(x) => TrimSpace(TrimPrefix(x, tag))
    case None => dflt
  }

  /** One more text overrides the value exactly when it carries the tag. */
  lemma LastAfterSnoc(texts: seq<string>, x: string, tag: string, dflt: string)
    ensures LastAfter(texts + [x], tag, dflt) ==
      if HasPrefix(x, tag) then TrimSpace(TrimPrefix(x, tag)) else LastAfter(texts, tag, dflt)
  {
    PrefixedSnoc(texts, x, tag);
  }

  /** The value after the first `n` texts, computed one text at a time as the loop does. */
  function LastAfterUpTo(texts: seq<string>, n: nat, tag: string, dflt: string): string
    requires n <= |texts|
  {
    if n == 0 then dflt
    else if HasPrefix(texts[n - 1], tag) then TrimSpace(TrimPrefix(texts[n - 1], tag))
    else LastAfterUpTo(texts, n - 1, tag, dflt)
  }

  /** Scanning the texts one at a time gives the last tagged text's value. */
  lemma {:induction false} LastAfterUpToAgrees(texts: seq<string>, n: nat, tag: string, dflt: string)
    requires n <= |texts|
    ensures LastAfterUpTo(texts, n, tag, dflt) == LastAfter(texts[..n], tag, dflt)
  {
    if n > 0 {
      LastAfterUpToAgrees(texts, n - 1, tag, dflt);
      PrefixSnoc(texts, n - 1);
      LastAfterSnoc(texts[..n - 1], texts[n - 1], tag, dflt);
    }
  }

  /** The `div.panel-body` callback's effect: the description is the last "Description :"
      item (or the description so far), then backslash-n, then the last "Genre :" item (or
      nothing). */
  function PanelDetails(m: Movie, texts: seq<string>): (r: Movie)
    ensures r == m.(description := r.description)
  {
    m.(description := LastAfter(texts, DescriptionLabel, m.description) + BackslashN + LastAfter(texts, GenreLabel, ""))
  }

  /** Items carrying both labels give exactly their values. */
  lemma PanelFromLabels(m: Movie, texts: seq<string>, d: int, g: int)
    requires 0 <= d < |texts| && HasPrefix(texts[d], DescriptionLabel)
    requires forall j :: d < j < |texts| ==> !HasPrefix(texts[j], DescriptionLabel)
    requires 0 <= g < |texts| && HasPrefix(texts[g], GenreLabel)
    requires forall j :: g < j < |texts| ==> !HasPrefix(texts[j], GenreLabel)
    ensures PanelDetails(m, texts).description ==
      TrimSpace(TrimPrefix(texts[d], DescriptionLabel)) + BackslashN + TrimSpace(TrimPrefix(texts[g], GenreLabel))
  {
    LastPrefixedIsLast(texts, DescriptionLabel, d);
    LastPrefixedIsLast(texts, GenreLabel, g);
  }

  /** A panel without either tag still appends backslash-n to the description, so every
      visit of the panel lengthens it. */
  lemma PanelWithoutLabels(m: Movie, texts: seq<string>)
    requires forall j :: 0 <= j < |texts| ==> !HasPrefix(texts[j], DescriptionLabel)
    requires forall j :: 0 <= j < |texts| ==> !HasPrefix(texts[j], GenreLabel)
    ensures PanelDetails(m, texts).description == m.description + BackslashN
  {
    LastPrefixedNone(texts, DescriptionLabel);
    LastPrefixedNone(texts, GenreLabel);
  }

  /** The loop over the panel's list items; the movie's description is kept in a local until
      the loop ends, which nothing else observes in between. */
  method PanelLoop(start: Movie, texts: seq<string>) returns (movie: Movie)
    ensures movie == PanelDetails(start, texts)
  {
    var genre := "";
    var description := start.description;
    var i := 0;
    while i < |texts|
      invariant 0 <= i <= |texts|
      invariant description == LastAfterUpTo(texts, i, DescriptionLabel, start.description)
      invariant genre == LastAfterUpTo(texts, i, GenreLabel, "")
    {
      var text := texts[i];
      if HasPrefix(text, DescriptionLabel) {
        description := TrimSpace(TrimPrefix(text, DescriptionLabel));
      }
      if HasPrefix(text, GenreLabel) {
        genre := TrimSpace(TrimPrefix(text, GenreLabel));
      }
      i := i + 1;
    }
    LastAfterUpToAgrees(texts, i, DescriptionLabel, start.description);
    LastAfterUpToAgrees(texts, i, GenreLabel, "");
    WholeSlice(texts);
    movie := start.(description := description + BackslashN + genre);
  }

  method OnPanel(t: Scraped, ctx: string, e: Element)
    requires t.Valid() && t.HasEntry(ctx)
    modifies t
    ensures t.Valid() && t.next == old(t.next)
    ensures var k := EntryKey(ctx); t.movies == old(t.movies)[k := PanelDetails(old(t.movies)[k], ChildTexts(e, "li"))]
  {
    var key := EntryKey(ctx);
    var movie := PanelLoop(t.movies[key], ChildTexts(e, "li"));
    t.Update(key, movie);
  }

  // ------------------------------------------------------------------ the download box

  const Https: string := "https://"

  /** The download link after the loop over the box's hrefs. */
  function LinkAfter(links: seq<string>, current: Url): (u: Url)
    ensures LastPrefixed(links, Https).None? ==> u == current
    ensures LastPrefixed(links, Https).Some? ==> UrlString(u) == LastPrefixed(links, Https).value
  {
    match LastPrefixed(links, Https)
    case Some(l) => ParseUrl(l)
    case None => current
  }

  /** One more href: an https link becomes the download link. */
  lemma LinkStep(links: seq<string>, i: int, current: Url)
    requires 0 <= i < |links|
    ensures LinkAfter(links[..i + 1], current) ==
      if HasPrefix(links[i], Https) then ParseUrl(links[i]) else LinkAfter(links[..i], current)
  {
    PrefixSnoc(links, i);
    PrefixedSnoc(links[..i], links[i], Https);
  }

  /** The loop over the box's hrefs: every https link overwrites the previous one. */
  method LinksLoop(current: Url, links: seq<string>) returns (link: Url)
    ensures link == LinkAfter(links, current)
  {
    link := current;
    var i := 0;
    while i < |links|
      invariant 0 <= i <= |links|
      invariant link == LinkAfter(links[..i], current)
    {
      LinkStep(links, i, current);
      if HasPrefix(links[i], Https) {
        link := ParseUrl(links[i]);
      }
      i := i + 1;
    }
    WholeSlice(links);
  }

  // ------------------------------------------------------------------ the mirror anchors

  const MirrorTitle: string := "Download from"

  /** The `a[rel="nofollow"]` callback's effect: only an anchor titled "Download from…"
      replaces the download link, with its href. */
  function NofollowDetails(m: Movie, e: Element): (r: Movie)
    ensures HasPrefix(Attr(e, "title"), MirrorTitle) ==>
      r == m.(downloadLink := r.downloadLink) && UrlString(r.downloadLink) == Attr(e, "href")
    ensures !HasPrefix(Attr(e, "title"), MirrorTitle) ==> r == m
  {
    if HasPrefix(Attr(e, "title"), MirrorTitle) then m.(downloadLink := ParseUrl(Attr(e, "href"))) else m
  }

  method OnNofollow(t: Scraped, ctx: string, e: Element)
    requires t.Valid() && t.HasEntry(ctx)
    modifies t
    ensures t.Valid() && t.next == old(t.next)
    ensures var k := EntryKey(ctx); t.movies == old(t.movies)[k := NofollowDetails(old(t.movies)[k], e)]
  {
    t.Apply(ctx, (m: Movie) => NofollowDetails(m, e));
  }
}
