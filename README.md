# gophie engines, modelled in Dafny

This project models the scraping core of gophie, a Go command-line tool that searches and lists
movies on a number of download sites. It covers:

- the `engine` package: the shared `Scrape` pipeline (discovery of listing items, the ordinal
  "movieIndex" tag carried by detail requests, the flattening of the result map), the engine
  registry, the `Props` state every adapter shares (its URLs, their query parameters and the mode),
  and every site adapter with its `getParseAttrs`, `parseSingleMovie`, detail callbacks, `List` and
  `Search`;
- the legacy scrapers of `pkg/scraper/scraper.go` (NetNaija and TFPDL).

One Dafny module models each Go file. AnimeOut and DramaCool have `List` and `Search` of the shared
shape, modelled once as `Props.JoinListPath` and `Props.SearchBy`. Around them sit modules for the
Go and colly library behaviour the adapters depend on:

- `Text`: strings and strconv;
- `Paths`: path.Join, Clean, Split and Ext;
- `Urls`: url.URL, url.Values and Request.AbsoluteURL;
- `Escaping`: url.QueryEscape and QueryUnescape;
- `Patterns`: the regular expressions the adapters use, each as a function;
- `Types`: Movie, Mode and colly's HTMLElement accessors.

An adapter's state is a class with its fields; the scraped movie table is a class over a map keyed
by the ordinal strings. Each detail callback is a method that rewrites exactly the entry its
request addresses. That method is proved against a function on `Movie` that states the callback's
effect. Network responses reach the model as inputs: the elements a page yields, the script texts it
holds, and the status of an API call.

A Go panic (an index out of range, a nil regexp match, a dereferenced nil response, log.Fatal) is
a `requires` on the member that would reach it.

## Model

| member | source | states |
|---|---|---|
| Engines.ModeName | engine/engines.go:28-30 | Mode.String gives "Search" for SearchMode and "List" for ListMode; it is defined on those two modes only, because it indexes a two-element array |
| Engines.KeySetSize | engine/engines.go:89-90 | the ordinal keys Itoa(0) .. Itoa(n-1) are n distinct strings |
| Engines.Parsed | engine/engines.go:81-95 | discovery keeps at most one movie per item fragment |
| Engines.Requests | engine/engines.go:89-93 | one detail request per kept movie, in order, for its download link and tagged with its ordinal key |
| Engines.ParsedOrdinals | engine/engines.go:82-94 | the kept movies carry consecutive ordinals from the counter's start, whatever items failed in between |
| Engines.ParsedSkipsFailure | engine/engines.go:82-84 | an item that fails to parse adds nothing and does not move the counter |
| Engines.ParsedAppends | engine/engines.go:85-94 | an item that parses is appended, parsed with the current counter value |
| Engines.ParsedAll | engine/engines.go:81-95 | when no item fails, every item is kept |
| Engines.DiscoverStep | engine/engines.go:81-95 | one ForEach step matches Parsed, the table extension and Requests for one more item |
| Engines.OrdinalEntry | engine/engines.go:89-92 | a context value made by discovery reads back as an ordinal and addresses the movie stored under it, whose Index is that ordinal |
| Engines.FlattenedOrdinals | engine/engines.go:137-141 | flattening a table built by discovery gives n movies whose Index values are exactly the distinct ordinals below n |
| Engines.FlattenMap | engine/engines.go:137-141 | the range-and-append loop returns every map value exactly once, under pairwise distinct keys; the order is left open |
| Engines.Scraped.constructor | engine/engines.go:70 | the table starts empty with the counter at 0 |
| Engines.Scraped.MovieFromMovies | engine/engines.go:254-262 | getMovieFromMovies returns the stored movie for a present key and an empty Movie for an absent one; it reads the table and changes nothing |
| Engines.Scraped.Put | engine/engines.go:254-262 | a write through the looked-up *Movie changes the entry of a present key; for an absent key it goes to a fresh Movie{} and the table is unchanged |
| Engines.Scraped.Apply | engine/engines.go:254-262 | a detail callback rewrites exactly the entry its request addresses; other entries and the counter stay as they were |
| Engines.Scraped.Update | engine/engines.go:254-262 | a write that keeps the movie's Index keeps the table invariant, and the write goes only to a present key |
| Engines.Scraped.InsertAndAdvance | engine/engines.go:87-94 | a successful parse is stored under Itoa(counter), a key not used before; one request is queued for its download link with that key; the counter goes up by one |
| Engines.Scraped.DiscoverOne | engine/engines.go:82-95 | a failed parse leaves the table, the counter and the queue unchanged; a successful one does InsertAndAdvance |
| Engines.Scraped.DiscoverNext | engine/engines.go:81-96 | the Discovered relation (table, counter and queue as Parsed says) extends to one more item |
| Engines.Scraped.Discover | engine/engines.go:80-97 | after the ForEach, every kept movie is under its ordinal key, earlier entries stay, and the queued requests are Requests of the kept movies |
| Engines.Scraped.Flatten | engine/engines.go:137-141 | the flattened slice holds every stored movie exactly once |
| Engines.AbortsResponse | engine/engines.go:120-125 | a detail response is aborted exactly when "text" occurs nowhere in its Content-Type |
| Engines.MovieIndexFromCtx | engine/engines.go:245-251 | getMovieIndexFromCtx returns the int64 value of the context's "movieIndex"; a value that does not parse ends the program, which is its requires |
| Engines.CtxRoundTrip | engine/engines.go:89-92 | the value discovery puts into the context reads back as the same ordinal |
| Engines.CollectorVisit | engine/coolmoviez.go:127 | a Collector.Visit or Collector.Post made inside a callback queues a request with a fresh context, in which "movieIndex" is empty |
| Engines.CollectorVisitLosesMovie | engine/engines.go:245-251 | a page fetched by such a request cannot be tied to a movie: its "movieIndex" reads back as "", which Atoi rejects |
| Engines.ContextVisit | engine/engines.go:91-93 | the intended follow-up request, which carries the "movieIndex" of the page being handled |
| Engines.ContextVisitKeepsMovie | engine/engines.go:91-93 | callbacks on a page fetched with the shared context address the same movie |
| Engines.ToJson | engine/engines.go:174-188 | MovieJSON keeps the movie and writes the download link and each episode link as its String form, under the same keys |
| Engines.Titles | engine/engines.go:197-203 | Titles has one entry per movie, and entry i is the title of movie i |
| Engines.FirstWithTitle | engine/engines.go:206-213 | the position of the first movie with that title; None exactly when no title matches |
| Engines.GetMovieByTitle | engine/engines.go:206-213 | the first movie with that title; otherwise an empty Movie and "Movie not Found" |
| Engines.GetIndexFromTitle | engine/engines.go:216-223 | the slice position (not the Index field) of the first match; otherwise 0 and "Movie not Found" |
| Engines.TitleLookupsAgree | engine/engines.go:206-223 | any movie with the title makes the first-match lookup succeed, at that movie or an earlier one |
| Engines.LookupsAgree | engine/engines.go:206-223 | GetMovieByTitle and GetIndexFromTitle succeed exactly when some movie has the title, and then the movie returned is the one at the index returned |
| Props.Props.constructor | engine/netnaija.go:24-53 | an adapter's constructor: base URL parsed, the search and list URLs are the base with their own paths, no query parameters, mode at its zero value SearchMode |
| Props.Props.ParseURL | engine/props.go:42-47 | getParseURL is the search URL exactly in SearchMode and the list URL in every other mode; it is a function of the state and changes nothing |
| Props.Props.ToJson | engine/props.go:31-39 | the JSON projection keeps Name and Description and replaces the three URLs by their String forms |
| Props.Props.JoinListPath | engine/netnaija.go:254-259 | enters ListMode and path-joins one segment onto the current list path; nothing else changes |
| Props.Props.SetSearchParam | engine/netnaija.go:275-278 | Query().Set on the search URL, then RawQuery = Encode(); only the search query and search URL change |
| Props.Props.SetListParam | engine/fzmovies.go:176-180 | the same on the list URL |
| Props.Props.SearchBy | engine/dramacool.go:151-166 | SearchMode, the query set under its key (other keys kept), RawQuery re-encoded, then a scrape of the search URL |
| Props.PageSegment | engine/netnaija.go:258 | "page/N" is a relative segment with no empty, "." or ".." part |
| Types.ChildText | engine/netnaija.go:100-101 | colly's ChildText: the text of all matches run together, trimmed, so the result is trimmed |
| Types.ChildAttr | engine/netnaija.go:94 | colly's ChildAttr: the trimmed attribute of the first match |
| Types.ChildTextsTrimmed | engine/takanimelist.go:121 | every text ChildTexts gives is trimmed |
| Types.ChildAttrsTrimmed | engine/takanimelist.go:120 | every attribute ChildAttrs gives is trimmed |
| Types.NumberedLinksContent | engine/netnaija.go:240-247 | the numbered episode map has exactly the keys Itoa(first) .. Itoa(first+n-1), and key j holds link j |
| Types.NumberedLinksSnoc | engine/netnaija.go:246 | one more link goes under the next key |
| Types.NumberLinks | engine/netnaija.go:239-248 | the ForEach loop fills the map with NumberedLinks |
| Registry.KeyIsFoldedName | engine/engines.go:228-231 | each engine is registered under its own Name, lower-cased |
| Registry.SiteOfKey | engine/engines.go:226-233 | a key names an engine exactly when it is one of netnaija, fzmovies, besthdmovies or tvseries |
| Registry.Lookup | engine/engines.go:236-242 | GetEngine succeeds exactly when ToLower(name) is one of the four keys; otherwise the error names the name as given |
| Registry.ToLowerIdempotent | engine/engines.go:237 | case-folding twice is folding once |
| Registry.LookupIgnoresCase | engine/engines.go:237 | a name and its lower-case form select the same engine |
| Registry.NameSelectsSite | engine/engines.go:228-231 | each engine's own Name selects it |
| Registry.DottedCapitalSelects | engine/engines.go:237 | strings.ToLower maps U+0130 to 'i', so "TVSERİES" selects the tvseries engine |
| Registry.Build | engine/engines.go:228-231 | each constructor gives a fresh engine with its Name, in SearchMode, with no query parameters |
| Registry.GetEngines | engine/engines.go:226-233 | the map has exactly the four keys; each holds a fresh engine with its Name, and no two are the same object |
| Registry.GetEngine | engine/engines.go:236-242 | on success, a fresh valid engine of the case-folded name (GetEngines is rebuilt on every call); on failure no engine and the error |
| NetNaija.New | engine/netnaija.go:24-53 | the base URL is the parsed base; the search path is "/search" and the list path "/videos/movies/" |
| NetNaija.ParseAttrs | engine/netnaija.go:61-78 | ("main","article.sr-one") in SearchMode, ("div.video-files","article.file-one") in ListMode, an error naming the mode otherwise |
| NetNaija.TitleSelector | engine/netnaija.go:82-85 | h3 exactly in SearchMode, h2 in every other mode |
| NetNaija.CleanTitle | engine/netnaija.go:96-99 | the cleaned title is trimmed |
| NetNaija.CleanTitleOrder | engine/netnaija.go:96-99 | one "Movie:" is removed, then one "Video:", in that order: the reverse order and a doubled "Movie:" keep the second marker |
| NetNaija.ParseSingleMovie | engine/netnaija.go:80-122 | every field: Index and Source, the cleaned title, Year from the title, cover, upload date, description, the link, and IsSeries exactly when the path starts with "/videos/series" |
| NetNaija.DiscoversEveryItem | engine/netnaija.go:80-122 | parseSingleMovie never fails, so discovery keeps every item under its own ordinal |
| NetNaija.TokenOfPath | engine/netnaija.go:124-128 | getDownloadToken of "/<seg>/<TOKEN>-<rest>" is TOKEN |
| NetNaija.SlashPieces | engine/netnaija.go:127 | "/seg/token" splits on "/" into "", seg and token |
| NetNaija.OgUrl | engine/netnaija.go:135-139 | the og:url callback as written: it takes content only when the element's href contains "sabishare" and no URL was seen yet |
| NetNaija.OgUrlIgnoresMeta | engine/netnaija.go:135-139 | on a meta element, which has no href, the callback never changes the URL |
| NetNaija.OgUrlCorrected | engine/netnaija.go:135-139 | the intended callback, testing the content it takes |
| NetNaija.OgUrlMissesContent | engine/netnaija.go:135-139 | a meta element whose content is a sabishare URL: the as-written callback leaves the URL "", the corrected one takes the content |
| NetNaija.Canonical | engine/netnaija.go:141-145 | the canonical link's href is taken when it contains "sabishare" and no URL was seen yet; a URL already seen is kept |
| NetNaija.ResolvedLink | engine/netnaija.go:152-176 | the download link is the sabishare URL, replaced by the API's direct link when the token request answered status 200; nothing else changes |
| NetNaija.FileSize | engine/netnaija.go:181-183 | Size becomes the trimmed span.size-number text; nothing else changes |
| NetNaija.CategoryOf | engine/netnaija.go:201-211 | `^(.*)Release Date:`: the text before the last "Release Date:" that lies wholly on the first line; None exactly when the first line holds no such label |
| NetNaija.CategoryOfOneLine | engine/netnaija.go:201-211 | on the newline-free text the callback reads: the text before the last "Release Date:", None exactly when the label is absent |
| NetNaija.ImdbOf | engine/netnaija.go:204-220 | `.*(https://www.imdb.*)`: runs from an IMDb link with no later link on its line to that line's end, so it starts with the link and holds no newline; None exactly when the text has no IMDb link |
| NetNaija.ImdbOfOneLine | engine/netnaija.go:204-220 | on the newline-free text the callback reads: from the last IMDb link to the end, None exactly when there is none |
| NetNaija.ReadPostFields | engine/netnaija.go:189-222 | empty text reads nothing; otherwise the description is the text before the first "Genre: "; without "Genre: " no other field is read |
| NetNaija.PostDetails | engine/netnaija.go:189-222 | only description, category, upload date, cast and IMDb link change; empty text changes nothing; the description is a prefix of the text with no "Genre: " |
| NetNaija.DownloadStep | engine/netnaija.go:226-232 | a path ending in "download" is kept and nothing is queued; otherwise "download" is joined on once and one request is queued with the same ordinal; either way the path ends in "download" |
| NetNaija.PostBody | engine/netnaija.go:186-233 | the post-body callback is PostDetails followed by the download step |
| NetNaija.PostBodyIdempotent | engine/netnaija.go:225-232 | handling the same post body twice is handling it once, and the second time queues nothing |
| NetNaija.PostDetailsIdempotent | engine/netnaija.go:189-222 | the field update is idempotent |
| NetNaija.PostDetailsKeepsLink | engine/netnaija.go:189-222 | the field update does not depend on the download link |
| NetNaija.EpisodeLink | engine/netnaija.go:241-245 | an episode link's path ends in "download" |
| NetNaija.EpisodeLinks | engine/netnaija.go:240-247 | one link per anchor, in anchor order |
| NetNaija.EpisodeMap | engine/netnaija.go:239-248 | the episode map has keys "0".."n-1", and key j holds anchor j's href with "download" joined on |
| NetNaija.Downloads.constructor | engine/netnaija.go:133 | the captured sabishare URL starts empty |
| NetNaija.Downloads.OnOgUrl | engine/netnaija.go:135-139 | applies OgUrl to the captured URL |
| NetNaija.Downloads.OnCanonical | engine/netnaija.go:141-145 | applies Canonical to the captured URL |
| NetNaija.Downloads.OnScraped | engine/netnaija.go:147-178 | only on a path ending in "download": the movie's link becomes ResolvedLink, and the captured URL is cleared exactly when the API answered; other pages change nothing |
| NetNaija.Downloads.OnFileSize | engine/netnaija.go:181-183 | the addressed movie gets FileSize |
| NetNaija.Downloads.OnPostBody | engine/netnaija.go:186-233 | the addressed movie gets PostBody, and the returned request is DownloadStep's |
| NetNaija.Downloads.OnEpisodes | engine/netnaija.go:236-249 | the movie becomes a series, and its episode map is EpisodeMap of the anchors |
| NetNaija.List | engine/netnaija.go:253-266 | ListMode, "page/N" joined onto the current list path, the query text "List of Recent Uploads - Page N", then a scrape of that URL |
| NetNaija.ListPathsAccumulate | engine/netnaija.go:259 | two List calls stack their page segments |
| NetNaija.Search | engine/netnaija.go:269-285 | SearchMode, "t" and then "folder" set on the current query, RawQuery re-encoded, then a scrape |
| NetNaija.FreshSearchQuery | engine/netnaija.go:275-278 | on a fresh engine the query is "folder=videos&t=" followed by the escaped query |
| Nkiri.New | engine/nkiri.go:22-54 | the search path is "" and the list path "/category/" on the parsed base URL |
| Nkiri.ParseAttrs | engine/nkiri.go:61-77 | ("div.site-content","article") in SearchMode, ("div.entries","article.blog-entry") in ListMode, an error otherwise |
| Nkiri.Sanitise | engine/nkiri.go:82-95 | `[^\w()]` replaced by "_": the length is kept, and character i is kept exactly when it is a letter, digit, '_', '(' or ')' |
| Nkiri.SanitiseClean | engine/nkiri.go:95 | a sanitised title holds title characters only; sanitising is idempotent and leaves a clean title alone |
| Nkiri.CategoryOf | engine/nkiri.go:96 | removing one "Download" prefix and one "Movie" suffix never lengthens the piece |
| Nkiri.CategoryOfFramed | engine/nkiri.go:96 | "Download" + c + "Movie" gives c |
| Nkiri.TitleAndCategoryAsWritten | engine/nkiri.go:93-96 | the title is the sanitised first " \| " piece and the category comes from the second piece, which must exist |
| Nkiri.GuardAdmitsSinglePiece | engine/nkiri.go:94 | the guard `len >= 1` holds for every heading; a heading without '\|' splits into the single piece [h2], so the second piece it then reads does not exist |
| Nkiri.TitleAndCategory | engine/nkiri.go:93-96 | the corrected rule: it agrees with the as-written rule when there are two pieces, and otherwise the category is "" |
| Nkiri.ParseSingleMovie | engine/nkiri.go:79-118 | parseSingleMovie as written: title and category from TitleAndCategoryAsWritten, a title of title characters only, Year from the title, UploadDate only in ListMode, the link, Index and Source |
| Nkiri.ParseSingleMovieCorrected | engine/nkiri.go:79-118 | the same fields with the corrected heading rule, defined on every item |
| Nkiri.CorrectedAgrees | engine/nkiri.go:93-96 | the correction changes nothing on items the code handles; on a heading without '\|', where the code panics, it takes the whole sanitised heading as the title with no category |
| Nkiri.DiscoversEveryItem | engine/nkiri.go:79-118 | on parsable items discovery keeps every item under its own ordinal |
| Nkiri.SizeOf | engine/nkiri.go:121-153 | `(\d.*)` on the trimmed description: a match is trimmed and does not cross a line |
| Nkiri.ReadSection | engine/nkiri.go:128-161 | a section is an episode button exactly when its button text starts with "Download Episode" and a movie button when it starts with "Download Movie"; a size exactly when it is a "Download Size" alert with a match; a synopsis exactly when its container starts with "Synopsis" |
| Nkiri.EpisodeButtonsSnoc | engine/nkiri.go:131-137 | one more section adds its link exactly when it is an episode button |
| Nkiri.WalkContent | engine/nkiri.go:128-162 | the walk collects exactly the episode buttons' links, in order, and changes only the movie's link, size and description |
| Nkiri.WalkFlag | engine/nkiri.go:156-161 | after a non-empty walk the synopsis flag is up exactly when the last section is a synopsis heading |
| Nkiri.WalkDescription | engine/nkiri.go:156-161 | the description is the starting one or the paragraph of a section right after a synopsis heading that is not one itself |
| Nkiri.SectionWrapContent | engine/nkiri.go:122-167 | the movie becomes a series exactly when some section has an episode button; its episode map then holds those links under "1", "2", ... in section order; index, title and listing fields survive |
| Nkiri.WrapSections | engine/nkiri.go:125-166 | the section loop with episode counter, series map and flag computes SectionWrap |
| Nkiri.OnSectionWrap | engine/nkiri.go:122-167 | the addressed movie becomes SectionWrap of its sections; nothing else changes |
| Nkiri.ListAllStep | engine/nkiri.go:179-186 | one more category appends its scrape to the results |
| Nkiri.List | engine/nkiri.go:171-189 | ListMode; one scrape per category in ListCategories order, each at the captured start path + category + "page/N", results concatenated; the list URL keeps the last category's path |
| Nkiri.CategoriesAreSegments | engine/nkiri.go:46-52 | every category is a relative path of slash-free pieces |
| Nkiri.CategoryPathShape | engine/nkiri.go:178-180 | each category page is the start path with one trailing slash, then the category, then "page/N", so repeated List calls do not accumulate |
| Nkiri.Search | engine/nkiri.go:192-208 | SearchMode, "s" and then "post_type" set on the current query, RawQuery re-encoded, then a scrape |
| Nkiri.FreshSearchQuery | engine/nkiri.go:198-201 | on a fresh engine the query is "post_type=post&s=" followed by the escaped query |
| AnimeOut.New | engine/animeout.go:20-47 | the search path is "/" and the list path "/all-releases/" on the parsed base URL |
| AnimeOut.ParseAttrs | engine/animeout.go:56-58 | ("div.container","article.post-item") in every mode, never an error |
| AnimeOut.ParseSingleMovie | engine/animeout.go:60-76 | Index, IsSeries true, Source, Size "---MB", the trimmed h3.post-title, the cover, and the href resolved against the listing page |
| AnimeOut.DiscoversEveryItem | engine/animeout.go:60-76 | parseSingleMovie never fails, so discovery keeps every item under its own ordinal |
| AnimeOut.RewriteLink | engine/animeout.go:95-102 | every rewritten link lies under "http://public.animeout.xyz/" |
| AnimeOut.RewriteDownloadHost | engine/animeout.go:95-97 | "http://download.animeout.com/" + rest becomes "http://public.animeout.xyz/sv1.animeout.com/" + rest |
| AnimeOut.RewriteHttps | engine/animeout.go:98-102 | "https://" + rest becomes the mirror root + rest |
| AnimeOut.RewriteHttp | engine/animeout.go:98-102 | any other "http://" + rest loses "http://" and then one "https://" before the mirror root is put in front |
| AnimeOut.EpisodeKeyOfFile | engine/animeout.go:92-94 | a link ending in a plain name and an extension is keyed by the name |
| AnimeOut.EpisodeKeyOfStem | engine/animeout.go:92-94 | a link whose file part has a plain stem is keyed by that stem |
| AnimeOut.StemOfFile | engine/animeout.go:93 | removing path.Ext of "name.ext" leaves the name |
| AnimeOut.FileOfLink | engine/animeout.go:92-93 | path.Split gives "name.ext" as the file, and its extension is ".ext" |
| AnimeOut.ReadLink | engine/animeout.go:91-103 | a link is used exactly when it is neither "#" nor ""; its key is the unescaped stem and its URL the rewritten link |
| AnimeOut.ReadLinks | engine/animeout.go:88-90 | one reading per link, in order |
| AnimeOut.EpisodeMapContent | engine/animeout.go:104-106 | every stored link's key is in the map, no key starts with "#", and each key holds the link of the last entry with it |
| AnimeOut.EpisodeMapAt | engine/animeout.go:90-112 | the map after n links: a key is present exactly when a stored entry among them has it, with the last such entry's link |
| AnimeOut.EpisodeLoop | engine/animeout.go:88-112 | the loop builds EpisodeMapOf of the anchors after the first; only the link at index 0, when it is usable, sets the download link |
| AnimeOut.DescriptionOf | engine/animeout.go:81-87 | the div.spaceit text; when that is empty and there are more than two p texts, the second one; otherwise "" |
| AnimeOut.ArticleDetails | engine/animeout.go:79-116 | only description, episode map and download link change, and the description is DescriptionOf |
| AnimeOut.FirstAnchorSkipped | engine/animeout.go:88 | the first anchor plays no part: two articles that agree from the second anchor on give the same movie |
| AnimeOut.OnArticle | engine/animeout.go:79-116 | the addressed movie becomes ArticleDetails of the article; nothing else changes |
| DramaCool.New | engine/dramacool.go:21-48 | the search path is "/" and the list path "/category/latest-asian-drama-releases/" on the parsed base URL |
| DramaCool.ParseAttrs | engine/dramacool.go:57-73 | ("ul.list-thumb","li") in SearchMode, ("div#drama","li") in ListMode, an error otherwise |
| DramaCool.ShowLink | engine/dramacool.go:84-95 | the link with a matched `(-episode-.+)` suffix cut off is always a prefix of the link |
| DramaCool.ShowLinkWithoutMarker | engine/dramacool.go:87-89 | a link without "-episode-" followed by something is kept |
| DramaCool.ShowLinkStripsEpisode | engine/dramacool.go:87-95 | on a single-line link the first marker and everything after it go |
| DramaCool.ParseSingleMovie | engine/dramacool.go:75-97 | Index, IsSeries true, Source, Size "---MB", the anchor title, the cover, and the absolute link stripped of its episode suffix |
| DramaCool.DiscoversEveryItem | engine/dramacool.go:75-97 | parseSingleMovie never fails, so discovery keeps every item under its own ordinal |
| DramaCool.ReleaseYearOf | engine/dramacool.go:116-123 | a year is taken only when the `Release Year: (.+)` capture parses as an int64 |
| DramaCool.SynopsisOf | engine/dramacool.go:125-129 | the description between "Synopsis:" and the last "Also known as:" is trimmed |
| DramaCool.DramaDetails | engine/dramacool.go:106-131 | only category, year and description change |
| DramaCool.DetailsFromLabels | engine/dramacool.go:111-129 | paragraphs of the expected shape set the genres, the year and the trimmed synopsis |
| DramaCool.DetailsWithoutLabels | engine/dramacool.go:111-129 | paragraphs without the labels leave the movie unchanged |
| DramaCool.YearNeedsNumber | engine/dramacool.go:118-122 | a release year that does not parse leaves Year alone |
| DramaCool.OnDetails | engine/dramacool.go:106-131 | the addressed movie becomes DramaDetails; nothing else changes |
| KDramaHood.New | engine/kdramahood.go:20-47 | the search path is "/" and the list path "/home2/" on the parsed base URL |
| KDramaHood.ParseAttrs | engine/kdramahood.go:56-58 | ("div.items","div.item") in every mode, never an error |
| KDramaHood.ParseSingleMovie | engine/kdramahood.go:60-85 | Index, IsSeries true, Size "---MB", Category "kdrama"; title and description from span.tt and span.ttx in SearchMode, from img alt and div.contenido in ListMode, empty in any other mode; the absolute link; UploadDate, Cast, Quality and ImdbLink empty |
| KDramaHood.DiscoversEveryItem | engine/kdramahood.go:60-85 | parseSingleMovie never fails, so discovery keeps every item under its own ordinal |
| KDramaHood.ReadBlock | engine/kdramahood.go:120-121 | a link block is its download name and its hrefs |
| KDramaHood.CollectKeysAgree | engine/kdramahood.go:127-128 | both maps are written together under one key, so they keep one key set |
| KDramaHood.LastRecording | engine/kdramahood.go:119-130 | the block found records (has more than one link) and carries the name |
| KDramaHood.LastRecordingIsLatest | engine/kdramahood.go:119-130 | a recording block with the name is found exactly when one exists, and no later recording block has that name |
| KDramaHood.LastRecordingAt | engine/kdramahood.go:119-130 | the position of the block found: later recording blocks have other names |
| KDramaHood.CollectContent | engine/kdramahood.go:119-130 | from empty maps, a name is in both maps exactly when a recording block carries it, holding the first and the last link of the last such block |
| KDramaHood.CollectAppend | engine/kdramahood.go:103-105 | running two pages' blocks one after the other is running their concatenation |
| KDramaHood.ShortBlockRecordsNothing | engine/kdramahood.go:122 | a block with fewer than two links leaves both maps unchanged |
| KDramaHood.Hrefs | engine/kdramahood.go:103-105 | the href each li visits, in order |
| KDramaHood.AsyncVisitsRecordNothing | engine/kdramahood.go:103-116 | with visits that deliver nothing before the copy loops run, as an asynchronous collector does, the movie receives two empty maps |
| KDramaHood.Downloads.constructor | engine/kdramahood.go:89-90 | both shared maps start empty |
| KDramaHood.Downloads.Clear | engine/kdramahood.go:92-98 | the delete loops empty both shared maps |
| KDramaHood.Downloads.OnLinksTv | engine/kdramahood.go:119-130 | a block with more than one link records the first as the episode and the last as the subtitle under its name; any other block changes nothing |
| KDramaHood.Downloads.VisitPage | engine/kdramahood.go:119-130 | the blocks of one page, in order, update the maps as Collect says |
| KDramaHood.Downloads.VisitAll | engine/kdramahood.go:103-105 | the visits of the episode list update the maps as Collect of all their blocks |
| KDramaHood.Downloads.OnEpisodes | engine/kdramahood.go:91-117 | clear, visit, copy: the shared maps hold what the visits recorded from empty, the movie receives those maps, and the two have the same key set |
| KDramaHood.CopyMap | engine/kdramahood.go:107-113 | the range loop copies the map exactly |
| KDramaHood.List | engine/kdramahood.go:134-147 | ListMode, "page/N" joined onto the current list path, then a scrape |
| KDramaHood.Search | engine/kdramahood.go:150-165 | SearchMode, "s" set on the current query, RawQuery re-encoded, then a scrape |
| TakanimeList.New | engine/takanimelist.go:21-48 | search and list paths both "/" on the parsed base URL, empty queries, SearchMode |
| TakanimeList.ParseAttrs | engine/takanimelist.go:57-69 | ("main.site-main","article.post") in SearchMode, ("div.grid-plus-inner",".grid-post-item") in ListMode, empty selectors otherwise, never an error |
| TakanimeList.ParseSingleMovie | engine/takanimelist.go:71-95 | Index, IsSeries, Size "---MB"; title, cover and excerpt from the grid card in ListMode and from img and span.entry-excerpt otherwise; the absolute link |
| TakanimeList.DiscoversEveryItem | engine/takanimelist.go:71-95 | parseSingleMovie never fails, so discovery keeps every item under its own ordinal |
| TakanimeList.FinalLink | engine/takanimelist.go:97-113 | a .mkv/.mp4 link (any case) is returned as is; otherwise the window.open match of the last script, or "" without scripts |
| TakanimeList.UpperCaseVideoKept | engine/takanimelist.go:107 | the extension test lower-cases the link first, so ".MKV" and ".Mp4" count as video files |
| TakanimeList.RetrieveSingle | engine/takanimelist.go:97-113 | with the callbacks run during the visit, the function returns FinalLink of the link and the page's scripts |
| TakanimeList.FinalLinkAsWritten | engine/takanimelist.go:97-113 | with the asynchronous collector, the visit only queues the request: the result is the link for a video file and "" for any other |
| TakanimeList.AsyncLosesPageLink | engine/takanimelist.go:97-113 | both readings agree on video files; on any other link whose page has a script the asynchronous one returns "" where the other returns a window.open match, so the episode is not stored |
| TakanimeList.Entries | engine/takanimelist.go:120-128 | each href paired with the anchor text at its index and the parsed final link of its page |
| TakanimeList.EpisodeMapStep | engine/takanimelist.go:127-129 | one more anchor adds its title and link exactly when the link prints non-empty |
| TakanimeList.EpisodeMapContent | engine/takanimelist.go:119-131 | a title is a key exactly when a stored entry has it, mapped to the link of the last such entry |
| TakanimeList.EpisodeMapAt | engine/takanimelist.go:123-130 | the same, after the loop's first n anchors |
| TakanimeList.EntryDetails | engine/takanimelist.go:118-131 | only downloadLink and sDownloadLink change; downloadLink ends as the last href (unchanged without anchors); sDownloadLink is the episode map |
| TakanimeList.EntryLoop | engine/takanimelist.go:123-130 | the loop leaves the last href as the download link and builds exactly the episode map of the entries |
| TakanimeList.OnEntryContent | engine/takanimelist.go:115-133 | the movie of the request's index receives EntryDetails; nothing else changes |
| TakanimeList.List | engine/takanimelist.go:136-149 | ListMode, "page/N" joined onto the current list path, then a scrape |
| TakanimeList.Search | engine/takanimelist.go:152-167 | SearchMode, "s" set on the current query, RawQuery re-encoded, then a scrape |
| CoolMoviez.New | engine/coolmoviez.go:21-48 | the search path "/mobile/search" and the list path "/movielist/13/Hollywood_movies/default" on the parsed base URL |
| CoolMoviez.ParseAttrs | engine/coolmoviez.go:57-59 | ("div.list","div.fl") in every mode, never an error |
| CoolMoviez.CleanTitle | engine/coolmoviez.go:67-71 | the result is a prefix of the trimmed name; the span text is cut off exactly when it ends the name |
| CoolMoviez.CleanTitleDropsSpan | engine/coolmoviez.go:68-71 | a trimmed name followed by its span text gives back the name |
| CoolMoviez.ParseSingleMovie | engine/coolmoviez.go:61-87 | a movie, not a series: the cleaned title, the year as its first number, the cover, the absolute link |
| CoolMoviez.DiscoversEveryItem | engine/coolmoviez.go:61-87 | parseSingleMovie never fails, so discovery keeps every item under its own ordinal |
| CoolMoviez.SetField | engine/coolmoviez.go:99-108 | the switch writes only quality, category, description and cast |
| CoolMoviez.PanelFold | engine/coolmoviez.go:94-110 | the loop over the keys writes only those four fields |
| CoolMoviez.ApplyField | engine/coolmoviez.go:95-109 | one key writes only those four fields |
| CoolMoviez.ApplyEachKey | engine/coolmoviez.go:95-108 | Quality sets quality, Genre the category, Description the description, Starcast the cast, each only when its pattern matches |
| CoolMoviez.PanelFields | engine/coolmoviez.go:91-111 | the panel gives each of the four fields its matched value or leaves it, and nothing else changes |
| CoolMoviez.PanelStep | engine/coolmoviez.go:94 | one more key of the range loop applies that key to the state so far |
| CoolMoviez.FieldLabels | engine/coolmoviez.go:95 | each key's pattern is the key, a colon and blanks |
| CoolMoviez.PanelQualityOnly | engine/coolmoviez.go:91-111 | a panel that carries only "Quality: q" sets only the quality, to q |
| CoolMoviez.PanelWithoutLabels | engine/coolmoviez.go:91-111 | a panel without any of the labels leaves the movie as it was |
| CoolMoviez.PanelLoop | engine/coolmoviez.go:94-110 | the loop leaves the movie equal to PanelDetails of the text |
| CoolMoviez.OnPanel | engine/coolmoviez.go:91-111 | the movie of the request's index receives the panel's fields; nothing else changes |
| CoolMoviez.ServerLink | engine/coolmoviez.go:122-124 | a link is rewritten exactly when it starts with the /file prefix, to the /server prefix and the same remainder |
| CoolMoviez.ServerLinkOf | engine/coolmoviez.go:122-124 | the rewrite of the /file prefix and a remainder is the /server prefix and that remainder |
| CoolMoviez.FileNameDetails | engine/coolmoviez.go:113-130 | only size and downloadLink change: the size after "Size:" when it matches, the server link when the href is a /file link |
| CoolMoviez.SizeFromText | engine/coolmoviez.go:116-120 | an anchor text "Size: v" gives the size v |
| CoolMoviez.OnFileName | engine/coolmoviez.go:113-130 | the movie receives FileNameDetails; a server link is visited, with a fresh context, exactly when the href is a /file link |
| CoolMoviez.DwnLinkDetails | engine/coolmoviez.go:132-138 | only downloadLink changes, to the anchor's href |
| CoolMoviez.OnDwnLink | engine/coolmoviez.go:132-138 | the movie of the request's index receives DwnLinkDetails; nothing else changes |
| CoolMoviez.PageFile | engine/coolmoviez.go:147 | "N.html" is a single relative segment |
| CoolMoviez.List | engine/coolmoviez.go:142-155 | ListMode, "N.html" joined onto the current list path with "/" appended, then a scrape |
| CoolMoviez.ListPathsAccumulate | engine/coolmoviez.go:148 | two List calls leave a path that ends in both page files: the path accumulates |
| CoolMoviez.Search | engine/coolmoviez.go:158-174 | SearchMode, "find" set to the query and "per_page" to "1" on the current query, RawQuery re-encoded, then a scrape |
| CoolMoviez.FreshSearchQuery | engine/coolmoviez.go:164-167 | on an empty query the RawQuery is "find=<escaped query>&per_page=1" |
| MyCoolMoviez.New | engine/mycoolmoviez.go:21-48 | the search path "/search.php" and the list path "/hollywood_movies/page" on the parsed base URL |
| MyCoolMoviez.ParseAttrs | engine/mycoolmoviez.go:57-59 | ("ul.cat_ul","li") in every mode, never an error |
| MyCoolMoviez.ParseSingleMovie | engine/mycoolmoviez.go:61-82 | a movie, not a series: the anchor text as title, the year as its first number, the absolute link |
| MyCoolMoviez.DiscoversEveryItem | engine/mycoolmoviez.go:61-82 | parseSingleMovie never fails, so discovery keeps every item under its own ordinal |
| MyCoolMoviez.SizeOf | engine/mycoolmoviez.go:118-122 | a size exists exactly when the span has a `(\d+)[\s]?MB` match, and it holds no space |
| MyCoolMoviez.SizeOfDigits | engine/mycoolmoviez.go:118-122 | "700 MB" after digit-free text is read as "700MB" |
| MyCoolMoviez.DownloadDetails | engine/mycoolmoviez.go:109-123 | only downloadLink and size change: the last https link when there is one, the spaceless size when there is one |
| MyCoolMoviez.OnDownload | engine/mycoolmoviez.go:109-125 | the movie receives DownloadDetails and its new download link is visited with a fresh context |
| MyCoolMoviez.PageDir | engine/mycoolmoviez.go:142 | the segment is the number of the page before, and a "/" |
| MyCoolMoviez.List | engine/mycoolmoviez.go:137-150 | ListMode, "(page-1)/" joined onto the current list path with "/" appended, then a scrape |
| MyCoolMoviez.ListPathOf | engine/mycoolmoviez.go:142-143 | on a clean path, List(page) appends "/<page-1>/" |
| MyCoolMoviez.Search | engine/mycoolmoviez.go:153-168 | SearchMode, "movie" set on the current query, RawQuery re-encoded, then a scrape |
| PanelSites.PosterDetails | engine/mycoolmoviez.go:85-92 | only the cover changes, to the src printed back unchanged by the URL round trip |
| PanelSites.OnPoster | engine/chiaanime.go:82-90 | the movie of the request's index receives PosterDetails; nothing else changes |
| PanelSites.LastAfter | engine/mycoolmoviez.go:98-105 | the value is the default or a trimmed remainder |
| PanelSites.LastAfterSnoc | engine/mycoolmoviez.go:98-105 | one more list item overrides the value exactly when it starts with the tag |
| PanelSites.LastAfterUpToAgrees | engine/mycoolmoviez.go:98-105 | the one-item-at-a-time scan equals the last tagged item's value |
| PanelSites.PanelDetails | engine/mycoolmoviez.go:94-107 | the panel changes only the description |
| PanelSites.PanelFromLabels | engine/mycoolmoviez.go:94-107 | items "Description : d" and "Genre : g" give the description d, backslash-n, g |
| PanelSites.PanelWithoutLabels | engine/mycoolmoviez.go:106 | without either tag the description still grows by backslash-n, so each visit of a panel lengthens it |
| PanelSites.PanelLoop | engine/chiaanime.go:91-105 | the loop leaves the movie equal to PanelDetails of the items |
| PanelSites.OnPanel | engine/chiaanime.go:91-105 | the movie of the request's index receives PanelDetails; nothing else changes |
| PanelSites.LinkAfter | engine/mycoolmoviez.go:111-117 | the link is the last https href, or the current link when there is none |
| PanelSites.LinkStep | engine/mycoolmoviez.go:112-116 | one more href overwrites the link exactly when it starts with "https://" |
| PanelSites.LinksLoop | engine/mycoolmoviez.go:111-117 | the loop leaves LinkAfter of the hrefs |
| PanelSites.NofollowDetails | engine/mycoolmoviez.go:127-133 | only an anchor titled "Download from…" replaces the download link, with its href; any other leaves the movie alone |
| PanelSites.OnNofollow | engine/chiaanime.go:121-128 | the movie of the request's index receives NofollowDetails; nothing else changes |
| ChiaAnime.New | engine/chiaanime.go:20-47 | the search path "/catlist.php" and the list path "/" on the parsed base URL |
| ChiaAnime.ParseAttrs | engine/chiaanime.go:56-58 | ("table.items","tr.episode") in every mode, never an error |
| ChiaAnime.Background | engine/chiaanime.go:67-68 | a match starts with "background: url ('" and ends with "');" |
| ChiaAnime.BackgroundOfStyle | engine/chiaanime.go:67-69 | a style that is one background declaration is matched whole |
| ChiaAnime.ParseSingleMovie | engine/chiaanime.go:60-79 | a movie, not a series: the second anchor's trimmed text as title, the whole background declaration as cover, the absolute link; an item with fewer than two anchors or no declaration panics |
| ChiaAnime.DiscoversEveryItem | engine/chiaanime.go:60-79 | on items that do not panic, discovery keeps every item under its own ordinal |
| ChiaAnime.FirstInClass | engine/chiaanime.go:115-116 | the first position from `from` whose character is in the bracketed class, with none before it; None exactly when no character from `from` on is in the class |
| ChiaAnime.SizeAsWritten | engine/chiaanime.go:115-117 | the bracketed pattern matches one character of its class, so the size is that single character |
| ChiaAnime.SizePhraseAt | engine/chiaanime.go:115 | a match of `Size : (\d+) MB` at i starts with the label and ends with the unit |
| ChiaAnime.SizePhraseFrom | engine/chiaanime.go:115 | the leftmost match at or after `from`, with no match starting before it, which starts with the label and ends with the unit; None exactly when no position from `from` on starts a match |
| ChiaAnime.SizePhrase | engine/chiaanime.go:115-117 | the intended size: the leftmost whole `Size : (\d+) MB` phrase of the span, with the label and the unit; None exactly when the span holds no match |
| ChiaAnime.SizeClassKeepsOneLetter | engine/chiaanime.go:115-117 | on "Size : d MB…" the intended rule gives the phrase while the code gives "S" |
| ChiaAnime.DownloadDetails | engine/chiaanime.go:106-118 | as written: only downloadLink and size change, to the last https link (when there is one) and a one-character size |
| ChiaAnime.DownloadDetailsCorrected | engine/chiaanime.go:106-118 | as intended: the same link rule, the size phrase when there is one and the old size otherwise |
| ChiaAnime.DownloadDetailsDiffer | engine/chiaanime.go:115-117 | the two rules differ in the size alone, and on a span opening with the phrase the code keeps "S" |
| ChiaAnime.OnDownload | engine/chiaanime.go:106-119 | the movie receives DownloadDetails as written and its new download link is visited with a fresh context |
| ChiaAnime.List | engine/chiaanime.go:131-144 | as written: the "paged" query is built on a copy and dropped, so the list URL and the scrape are the same for every page |
| ChiaAnime.ListCorrected | engine/chiaanime.go:131-144 | as intended: "paged" set on the list query and RawQuery re-encoded before the scrape |
| ChiaAnime.PagesGiveDistinctQueries | engine/chiaanime.go:136-137 | with the intended List, different pages give different "paged" values |
| ChiaAnime.Search | engine/chiaanime.go:147-162 | SearchMode, "tags" set on the current query, RawQuery re-encoded, then a scrape |
| BestHDMovies.New | engine/besthdmovies.go:21-47 | the search URL is the parsed base URL with its own path "/", the list path "/new-hd-movies/" |
| BestHDMovies.ParseAttrs | engine/besthdmovies.go:56-58 | ("body","article.latestPost") in every mode, never an error |
| BestHDMovies.PostLink | engine/besthdmovies.go:80-86 | the post's href with its path joined onto the base URL's path |
| BestHDMovies.PostPathAtRoot | engine/besthdmovies.go:86 | under the base path "/", a post path "/w" is kept as it is |
| BestHDMovies.ParseSingleMovie | engine/besthdmovies.go:60-90 | a movie, not a series: the absolute cover, the year as the categories' first number, the first upload time, the anchor title, an empty description and the post link |
| BestHDMovies.DiscoversEveryItem | engine/besthdmovies.go:60-90 | on items with an upload time, discovery keeps every item under its own ordinal |
| BestHDMovies.Visits | engine/besthdmovies.go:114 | one collector visit, with a fresh context, per link, in order |
| BestHDMovies.PostDescription | engine/besthdmovies.go:98-102 | the description is the trimmed third-last or the trimmed second-last paragraph |
| BestHDMovies.PostDescriptionIsLarger | engine/besthdmovies.go:98-102 | for trimmed paragraphs it is the one that is no smaller than the other in byte order |
| BestHDMovies.PostSize | engine/besthdmovies.go:103-107 | the size is the last "File Size: " paragraph without its prefix, or the old size |
| BestHDMovies.LastFreeload | engine/besthdmovies.go:108-119 | the download link is the last "https://freeload" link, or the old link |
| BestHDMovies.PostDetails | engine/besthdmovies.go:95-120 | the callback changes only description, size and downloadLink |
| BestHDMovies.SizeLoop | engine/besthdmovies.go:103-107 | the loop leaves PostSize of the paragraphs |
| BestHDMovies.SizeStep | engine/besthdmovies.go:104-106 | one more paragraph sets the size exactly when it carries the prefix |
| BestHDMovies.FreeloadStep | engine/besthdmovies.go:110-117 | one more freeload link becomes the download link and adds one visit |
| BestHDMovies.FreeloadLoop | engine/besthdmovies.go:108-119 | the loop leaves the last freeload link and one visit per freeload link |
| BestHDMovies.OnPost | engine/besthdmovies.go:95-120 | the movie receives PostDetails and every freeload link is visited, in order; fewer than three paragraphs panic |
| BestHDMovies.ToHttps | engine/besthdmovies.go:128-130 | "http://" becomes "https://", any other link is kept |
| BestHDMovies.ZeeLinks | engine/besthdmovies.go:124-139 | the rewritten zeefiles links, each starting with "https://zeefiles", no more than the links |
| BestHDMovies.ZeeLinksUpTo | engine/besthdmovies.go:125-138 | the rewritten zeefiles links among the first n, no more than n |
| BestHDMovies.ZeeLinksAllHttps | engine/besthdmovies.go:126-130 | every rewritten zeefiles link starts with "https://zeefiles" |
| BestHDMovies.ZeeHttpsOf | engine/besthdmovies.go:126-130 | a zeefiles link of either scheme is https after the rewrite |
| BestHDMovies.LastZee | engine/besthdmovies.go:124-139 | the download link is the last rewritten zeefiles link, or the old link |
| BestHDMovies.VisitsSnoc | engine/besthdmovies.go:134 | one more link adds one visit at the end |
| BestHDMovies.ZeeSnoc | engine/besthdmovies.go:131-134 | one more zeefiles link becomes the last link and one more visit |
| BestHDMovies.ZeeUpToStep | engine/besthdmovies.go:125-138 | one more link adds its rewrite exactly when it is a zeefiles link |
| BestHDMovies.ZeeLoop | engine/besthdmovies.go:124-139 | the loop leaves LastZee and one visit per rewritten zeefiles link |
| BestHDMovies.OnContentArea | engine/besthdmovies.go:122-140 | the movie receives the last rewritten zeefiles link and every such link is visited |
| BestHDMovies.FormOfKeys | engine/besthdmovies.go:175-177 | the fields are the earlier ones and every input name |
| BestHDMovies.FormStep | engine/besthdmovies.go:176 | one more name sets its field to the value at the same index |
| BestHDMovies.LastName | engine/besthdmovies.go:175-177 | the last position of a name, with no later one; none when the name is absent |
| BestHDMovies.FormValue | engine/besthdmovies.go:175-177 | each field holds the value beside its last name, or its earlier value |
| BestHDMovies.FormLoop | engine/besthdmovies.go:156-158 | the loop leaves FormOf of the names and values |
| BestHDMovies.FormFields.constructor | engine/besthdmovies.go:93 | the shared submission map starts empty |
| BestHDMovies.FormFields.Fill | engine/besthdmovies.go:175-177 | the shared map gains the inputs as FormOf says |
| BestHDMovies.FreeDownloadDetails | engine/besthdmovies.go:146-150 | a non-empty button link becomes the download link; otherwise the movie stays |
| BestHDMovies.OnFreeDownload | engine/besthdmovies.go:142-165 | the movie receives FreeDownloadDetails; without a button link the page's own inputs are posted to the current download link, otherwise nothing is posted |
| BestHDMovies.FormLink | engine/besthdmovies.go:178-183 | off zeefiles the link is the udown link with the movie index, on zeefiles it is unchanged |
| BestHDMovies.FormLinkNamesMovie | engine/besthdmovies.go:180 | the udown link carries the movie's own ordinal |
| BestHDMovies.OnForm | engine/besthdmovies.go:167-189 | the shared map gains the inputs; off zeefiles the download link becomes the udown link and the whole shared map is posted to it, on zeefiles nothing is posted |
| BestHDMovies.VideoDetails | engine/besthdmovies.go:191-196 | only downloadLink changes, to the source's src |
| BestHDMovies.OnVideo | engine/besthdmovies.go:191-196 | the movie of the request's index receives VideoDetails; nothing else changes |
| BestHDMovies.List | engine/besthdmovies.go:200-215 | ListMode, "page/N" joined onto the current list path, then a scrape |
| BestHDMovies.Search | engine/besthdmovies.go:218-232 | SearchMode, "s" set on the current query, RawQuery re-encoded, then a scrape |
| TvSeries.New | engine/tvseries.go:20-47 | the search path "/search.php" and the list path "/tv.php" on the parsed base URL |
| TvSeries.ParseAttrs | engine/tvseries.go:56-58 | ("body","div.mainbox") in every mode, never an error |
| TvSeries.FileLink | engine/tvseries.go:81-82 | the href resolved against the page with "&ftype=2" appended |
| TvSeries.SmallFields | engine/tvseries.go:71-80 | with at least two texts: the first trimmed as title, the second trimmed as description unless the last is strictly longer in bytes, then the last; with fewer, both empty |
| TvSeries.TwoSmalls | engine/tvseries.go:71-80 | with exactly two (already trimmed) texts they are title and description |
| TvSeries.ParseSingleMovie | engine/tvseries.go:60-90 | a movie, not a series: the absolute cover, SmallFields as title and description, the file link |
| TvSeries.DiscoversEveryItem | engine/tvseries.go:60-90 | parseSingleMovie never fails, so discovery keeps every item under its own ordinal |
| TvSeries.EpisodeDetails | engine/tvseries.go:94-113 | only title, description and link change: the first "b" text and the last "small" text when each has more than one, the episode's file link when it leads elsewhere |
| TvSeries.OnEpisode | engine/tvseries.go:94-113 | the movie receives EpisodeDetails; the new link is visited, with a fresh context, exactly when the episode leads elsewhere |
| TvSeries.EpisodeWithoutHref | engine/tvseries.go:103 | an episode without an href resolves to the page itself: the link is kept and nothing is visited |
| TvSeries.DirectDetails | engine/tvseries.go:130-138 | only downloadLink changes, to the resolved href |
| TvSeries.OnDirectLink | engine/tvseries.go:128-143 | the movie receives DirectDetails; the link is visited exactly when it does not end in "mp4" |
| TvSeries.VideoEndsTheChain | engine/tvseries.go:139-141 | an href whose part before "#" names an mp4 file, and which url.Parse accepts, resolves to a link ending in "mp4", so it is not visited |
| TvSeries.FileSize | engine/tvseries.go:148-149 | the match of `(.* MB)` ends with " MB" and stays on one line |
| TvSeries.PreferredLink | engine/tvseries.go:150-160 | a non-empty flink1 href, else a non-empty filelink value, else the link as it was |
| TvSeries.PreferredLinkNeverEmpty | engine/tvseries.go:152-158 | an empty link never overwrites a set one |
| TvSeries.FileDetails | engine/tvseries.go:146-162 | only the link and the size change: PreferredLink and the " MB" match; a text without one panics |
| TvSeries.SizeOfLine | engine/tvseries.go:148-149 | a one-line text "<n> MB" is the size as it is |
| TvSeries.SizeWhereMB | engine/tvseries.go:149 | the size exists as soon as " MB" occurs in the text |
| TvSeries.OnFileDownload | engine/tvseries.go:146-162 | the movie of the request's index receives FileDetails; nothing else changes |
| TvSeries.PageQuery | engine/tvseries.go:171-173 | "alpha" is "AtoZ" and "pg" the page; every other parameter kept |
| TvSeries.List | engine/tvseries.go:166-181 | ListMode, PageQuery on the list URL, RawQuery re-encoded, then a scrape |
| TvSeries.SearchQuery | engine/tvseries.go:190-197 | search, beginsearch, vsearch and by set; pg set only when a second parameter exists; every other parameter kept |
| TvSeries.Search | engine/tvseries.go:184-204 | SearchMode, SearchQuery on the search URL, RawQuery re-encoded, then a scrape |
| FzMovies.New | engine/fzmovies.go:21-48 | the search path "/csearch.php", the list path "/movieslist.php" and an empty description |
| FzMovies.ModeURL | engine/fzmovies.go:63-70 | the URL exists exactly for "search" and "list", the search and list URL; any other mode gives "Invalid mode <mode>" |
| FzMovies.Scrape | engine/fzmovies.go:58-169 | the run of the chosen URL and no error for the two modes; no movies and the mode error otherwise |
| FzMovies.ItemTitleOf | engine/fzmovies.go:94 | the title followed by "<more>" is the bold text when it had the marker, and the title is the bold text otherwise |
| FzMovies.MoreAloneIsNoTitle | engine/fzmovies.go:94 | a bold text that is only the marker leaves the item without a title |
| FzMovies.ParseItemFields | engine/fzmovies.go:85-104 | the counter as Index, the engine's name, the cover, the second and fourth small texts as upload date and description, the title and the joined link; nothing else is set |
| FzMovies.Titled | engine/fzmovies.go:105-111 | the kept items are a subsequence, no more than the items |
| FzMovies.TitledAreParsable | engine/fzmovies.go:93-105 | every kept item has four small texts and a title |
| FzMovies.TitledSnoc | engine/fzmovies.go:105 | one more item is kept exactly when it can be read and has a title |
| FzMovies.KeepsTitled | engine/fzmovies.go:84-112 | when every item can be read and has a title, all are kept, in order |
| FzMovies.DropsUntitled | engine/fzmovies.go:105 | an item without a title is dropped |
| FzMovies.ListedIntoSnoc | engine/fzmovies.go:105-110 | appending the next kept item's movie extends the listing |
| FzMovies.ListedTitlesAndIndexes | engine/fzmovies.go:84-112 | every movie a listing adds has a title and sits at its own counter value |
| FzMovies.LastLinked | engine/fzmovies.go:127-132 | the last position whose download link prints as the URL, none after it; none when no movie has it |
| FzMovies.TagOf | engine/fzmovies.go:125-133 | a request gets a "movieIndex" exactly when some movie has its URL, the last such position |
| FzMovies.AppendedIsTagged | engine/fzmovies.go:106-109 | the movie just appended is the one its own download request is tied to |
| FzMovies.TaggedAtLeast | engine/fzmovies.go:127-132 | a request is tied to the position holding its URL or to a later one |
| FzMovies.DistinctLinksTagExactly | engine/fzmovies.go:127-132 | with distinct download links each request is tied to its own movie |
| FzMovies.LastLinkedStep | engine/fzmovies.go:127-132 | one more movie of the range loop takes the tag exactly when its link matches |
| FzMovies.FilesLink | engine/fzmovies.go:143-144 | the link ends with "&pt=jRGarGzOo2"; without "download1.php" it is the href and that suffix |
| FzMovies.FilesLinkRewrites | engine/fzmovies.go:143 | only the first "download1.php" becomes "download.php"; the text around it is kept |
| FzMovies.CounterSize | engine/fzmovies.go:150-152 | the size ends with " MB" |
| FzMovies.CounterSizeFound | engine/fzmovies.go:151 | a counter text with a " MB" has a size |
| FzMovies.CounterMatch | engine/fzmovies.go:150-151 | `(.* MB)` on "(<n> MB<rest>" with no " MB" in the rest is "(<n> MB" |
| FzMovies.CounterSizeOf | engine/fzmovies.go:150-152 | such a counter gives the size "<n> MB" |
| FzMovies.FilesDetails | engine/fzmovies.go:141-154 | only the link and the size change: FilesLink of the href and the counter size; a counter without one panics |
| FzMovies.VideoLink | engine/fzmovies.go:157-165 | a link exactly when the input's trimmed value ends in "mp4", and then that value |
| FzMovies.ScrapeState.constructor | engine/fzmovies.go:72-81 | the slice starts empty with the counter at zero |
| FzMovies.ScrapeState.Store | engine/fzmovies.go:142-149 | a write through a *Movie replaces one position and keeps the counter |
| FzMovies.ScrapeState.Append | engine/fzmovies.go:106-110 | the movie is appended, the counter advances, and every earlier movie stays |
| FzMovies.ScrapeState.OnItem | engine/fzmovies.go:84-112 | an item with a title is appended under the counter and its download page visited; one without changes nothing and visits nothing |
| FzMovies.ScrapeState.ListItem | engine/fzmovies.go:84-112 | one more item of the ForEach extends the listing of the items before it |
| FzMovies.ScrapeState.OnBody | engine/fzmovies.go:83-113 | the slice keeps what it held and grows by exactly the titled items, in order under the counter; their pages are visited in that order |
| FzMovies.ScrapeState.Tag | engine/fzmovies.go:125-133 | the request's "movieIndex" is TagOf the movies and its URL |
| FzMovies.ScrapeState.OnFiles | engine/fzmovies.go:141-154 | the tied movie receives FilesDetails and its new file link is visited |
| FzMovies.ScrapeState.OnParagraph | engine/fzmovies.go:157-165 | the slice changes only when the input names an mp4 file, and then only the tied movie's link |
| FzMovies.TagAddresses | engine/fzmovies.go:125-142 | a tagged request reads back as the position of a movie whose Index is that position |
| FzMovies.PageQuery | engine/fzmovies.go:176-179 | catID "2", by "date" and pg the page; every other parameter kept |
| FzMovies.List | engine/fzmovies.go:172-187 | PageQuery on the list URL, RawQuery re-encoded, then Scrape("list"); the mode is not touched |
| FzMovies.Search | engine/fzmovies.go:190-203 | "searchname" set on the current query, RawQuery re-encoded, then Scrape("search") |
| LegacyScraper.EpisodesAt | pkg/scraper/scraper.go:55-57 | one link per anchor, in anchor order, each the href with "/download" |
| LegacyScraper.OnHit | pkg/scraper/scraper.go:38-58 | no callback touches the index, title, picture or description |
| LegacyScraper.OnHitEpisodes | pkg/scraper/scraper.go:53-58 | a hit appends exactly its episode links to the movie's |
| LegacyScraper.AfterHitsKeeps | pkg/scraper/scraper.go:38-58 | after any hits the index, title, picture and description are the same |
| LegacyScraper.AfterHitsEpisodes | pkg/scraper/scraper.go:53-58 | episode links are only ever appended: the earlier ones stay, in hit order |
| LegacyScraper.AfterHitsSeries | pkg/scraper/scraper.go:53-54 | a series afterwards exactly when it was one or a latest-episodes block fired |
| LegacyScraper.OnHitSeries | pkg/scraper/scraper.go:53-54 | one hit marks a series exactly when it is a latest-episodes block |
| LegacyScraper.PrefixHas | pkg/scraper/scraper.go:53-54 | a latest-episodes hit is among the first n+1 exactly when it is among the first n or is the next |
| LegacyScraper.AfterHitsLink | pkg/scraper/scraper.go:42-50 | without a download anchor or a "Direct Download" row the link stays |
| LegacyScraper.Prepared | pkg/scraper/scraper.go:33-64 | a link under the series prefix marks a series; the visit of the page being answered is refused, so the link is unchanged and the size becomes "Unknown" |
| LegacyScraper.Visited | pkg/scraper/scraper.go:33-127 | getdownloadlink and then the callbacks on the page keep the index and the title |
| LegacyScraper.VisitedSeries | pkg/scraper/scraper.go:35-37 | on an answered visit (the OnResponse path) a link under the series prefix always yields a series |
| LegacyScraper.VisitedEpisodes | pkg/scraper/scraper.go:53-58 | the page's episode links are appended to the movie's, in anchor order |
| LegacyScraper.AfterHitsSize | pkg/scraper/scraper.go:38-45 | the size after the hits is the last one reported, or the size before |
| LegacyScraper.VisitedSize | pkg/scraper/scraper.go:38-63 | the size is the last one the page reports, or "Unknown" |
| LegacyScraper.VisitedWithoutLink | pkg/scraper/scraper.go:42-50 | a page without a download anchor or a direct-download row leaves the link |
| LegacyScraper.SizeAfterSilent | pkg/scraper/scraper.go:61-63 | a page that reports no size leaves it "Unknown" |
| LegacyScraper.AppendEpisodes | pkg/scraper/scraper.go:55-57 | the ForEach appends exactly Episodes of the anchors |
| LegacyScraper.GetDownloadLink | pkg/scraper/scraper.go:33-64 | getdownloadlink on one movie gives Prepared of it |
| LegacyScraper.FireCallbacks | pkg/scraper/scraper.go:38-58 | the registered callbacks, firing in the order given, give AfterHits |
| LegacyScraper.SearchUrl | pkg/scraper/scraper.go:81-83 | the query sits between the fixed head and tail character for character, each space a "+" |
| LegacyScraper.SpacesToPlus | pkg/scraper/scraper.go:81 | ReplaceAll of spaces keeps the length and turns exactly the spaces into "+" |
| LegacyScraper.ResultMovie | pkg/scraper/scraper.go:90-106 | a result before it is kept: index 0, no size, not a series, no episodes, its link ends in "/download" |
| LegacyScraper.Respond | pkg/scraper/scraper.go:121-127 | a response keeps the number of movies |
| LegacyScraper.RespondAt | pkg/scraper/scraper.go:121-127 | a response changes only the last movie, which takes the response URL and is refined by the page |
| LegacyScraper.AfterHitsIndex | pkg/scraper/scraper.go:38-58 | the callbacks never read the index |
| LegacyScraper.VisitedIndex | pkg/scraper/scraper.go:33-64 | getdownloadlink never reads the index |
| LegacyScraper.Fetch | pkg/scraper/scraper.go:110 | a link that is not an absolute http or https URL brings no response; any other is answered as the servers answer, possibly not at all |
| LegacyScraper.Refined | pkg/scraper/scraper.go:121-127 | a visit without a response leaves the movie as it was; an answered one gives the last reported size or "Unknown", a series exactly when it was one, the final URL lies under the series prefix or a latest-episodes block fired, and the page's episode links appended |
| LegacyScraper.RefinedIndex | pkg/scraper/scraper.go:121-127 | neither path reads the index |
| LegacyScraper.Found | pkg/scraper/scraper.go:100-127 | a result after the visit of its link keeps its title; without a response it is the result as listed, with one its size is the page's |
| LegacyScraper.FoundUnanswered | pkg/scraper/scraper.go:100-110 | a result whose visit brings no response keeps the href with "/download", size "", not a series, no episodes |
| LegacyScraper.RelativeHrefUnanswered | pkg/scraper/scraper.go:103-110 | a relative or empty href is never fetched, so its result stays as listed |
| LegacyScraper.SlashLedUnfetchable | pkg/scraper/scraper.go:110 | a link starting with "/" has no scheme and is never sent |
| LegacyScraper.FoundSeries | pkg/scraper/scraper.go:121-125 | a detail page whose final URL, after any redirect, lies under the series prefix yields a series |
| LegacyScraper.AllFound | pkg/scraper/scraper.go:89-113 | every result after the visit of its link, answered or not, in result order |
| LegacyScraper.SearchStep | pkg/scraper/scraper.go:107-112 | a titled result adds one movie, an untitled one changes nothing |
| LegacyScraper.SearchStepAppends | pkg/scraper/scraper.go:107-111 | a titled result keeps the movies before it and is appended with the running index |
| LegacyScraper.RespondToAppended | pkg/scraper/scraper.go:109-127 | appending a numbered result and answering its visit appends its refined, numbered form |
| LegacyScraper.SearchUpTo | pkg/scraper/scraper.go:89-113 | the movies after n results are never fewer than before |
| LegacyScraper.SearchUpToStep | pkg/scraper/scraper.go:89-113 | the step to n+1 results numbers the next by the count appended so far |
| LegacyScraper.SearchUpToLength | pkg/scraper/scraper.go:107-112 | exactly the titled results are appended |
| LegacyScraper.SearchUpToKeeps | pkg/scraper/scraper.go:109 | none of the movies there before the search changes |
| LegacyScraper.SearchUpToIndexes | pkg/scraper/scraper.go:107-111 | each appended movie has a title and carries its position among the appended ones as its index |
| LegacyScraper.NetNaijaSite.constructor | pkg/scraper/scraper.go:74-77 | an empty title and no movies |
| LegacyScraper.NetNaijaSite.OnResponse | pkg/scraper/scraper.go:121-127 | the movies become Respond of them |
| LegacyScraper.NetNaijaSite.Keep | pkg/scraper/scraper.go:107-112 | after result i the movies are SearchUpTo i+1, over the results as their visits left them, and the running index counts the appended movies |
| LegacyScraper.NetNaijaSite.OnMain | pkg/scraper/scraper.go:88-115 | every result in order, each titled one appended with the running index and refined by its visit only when that visit brought a response, at the final URL |
| LegacyScraper.NetNaijaSite.Search | pkg/scraper/scraper.go:80-130 | the title is "Search Results for <query>"; without a response to the search visit nothing else changes; with one, its final URL and hits refine the previously last movie and then the results are appended |
| LegacyScraper.TfpdlUrl | pkg/scraper/scraper.go:134-137 | the query formatted in after the fixed head, each space a "+" |
| LegacyScraper.ListedMovie | pkg/scraper/scraper.go:148-161 | the index, trimmed name, picture and permalink; description and SafeTxtLink empty without a page entry |
| LegacyScraper.Listed | pkg/scraper/scraper.go:147-165 | one movie per listed item, numbered by its position, with its own permalink's entry |
| LegacyScraper.ListedAt | pkg/scraper/scraper.go:147-165 | every item is recorded at its position with its own permalink and page entry |
| LegacyScraper.TfpdlSite.constructor | pkg/scraper/scraper.go:67-71 | the query given, an empty page title and no movies |
| LegacyScraper.TfpdlSite.OnPageTitle | pkg/scraper/scraper.go:141-143 | the last match's trimmed text is the page title; none leaves it |
| LegacyScraper.TfpdlSite.OnPostListing | pkg/scraper/scraper.go:145-166 | the movies gain Listed of the items |
| LegacyScraper.TfpdlSite.SafetextlinkSearch | pkg/scraper/scraper.go:133-170 | the query is kept, the page title and the movies are set as the two callbacks say |
| Text.TrimSpace | engine/kdramahood.go:69-73 | strings.TrimSpace: the result has no white space at either end |
| Text.TrimSpaceFramed | engine/kdramahood.go:69-73 | what TrimSpace drops is white space before and after the result, nothing else |
| Text.TrimSpaceIdempotent | engine/takanimelist.go:79-85 | trimming twice is trimming once, so TrimSpace on colly's already trimmed ChildText changes nothing |
| Text.TrimPrefix | engine/besthdmovies.go:105 | strings.TrimPrefix: one copy of the prefix removed when present, the string unchanged otherwise |
| Text.TrimPrefixRestores | engine/besthdmovies.go:105 | the prefix put back gives the original string |
| Text.TrimSuffix | engine/fzmovies.go:94 | strings.TrimSuffix: one copy of the suffix removed when present, the string unchanged otherwise |
| Text.TrimSuffixRestores | engine/coolmoviez.go:69-71 | the suffix put back gives the original string |
| Text.Split | engine/nkiri.go:93 | strings.Split: at least one piece; the whole string without a separator, otherwise the text before the first one first |
| Text.JoinSplit | engine/nkiri.go:93 | joining the pieces with the separator gives the string back |
| Text.SplitPiecesFree | engine/nkiri.go:93 | no piece contains the separator |
| Text.ReplaceFirstAt | engine/fzmovies.go:143 | strings.Replace with n = 1 rewrites the first occurrence and keeps the text around it |
| Text.ReplaceChar | engine/mycoolmoviez.go:121 | strings.Replace(-1) of one character leaves none of it when the replacement lacks it, and nothing to change when absent |
| Text.ToLower | engine/takanimelist.go:107 | strings.ToLower keeps the length and lowers each character |
| Text.ToLowerConcat | engine/engines.go:237 | case folding works piece by piece |
| Text.LexLessTotal | engine/besthdmovies.go:98 | Go's string order is total: of two different strings one is smaller |
| Text.LexLessTransitive | engine/besthdmovies.go:98 | Go's string order is transitive |
| Text.Utf8Len | engine/tvseries.go:77 | Go's len on a string counts UTF-8 bytes, never fewer than the characters |
| Text.NatToString | engine/takanimelist.go:141 | decimal digits without leading zeros |
| Text.ItoaInjective | engine/takanimelist.go:127 | distinct ints have distinct strconv.Itoa forms, so stringified ordinals are unique keys |
| Text.Atoi | engine/engines.go:246 | strconv.Atoi on 64 bits: a successful value is in range; on error the value is 0 or the nearest bound |
| Text.AtoiItoa | engine/engines.go:246 | Atoi inverts Itoa on the 64-bit range |
| Paths.Clean | engine/kdramahood.go:140 | path.Clean (without dot elements): "." for the empty path; otherwise the same elements in the same order and the same first character, so a rooted path stays rooted; no double slash and no trailing slash except for "/" |
| Paths.ElementsCollapse | engine/kdramahood.go:140 | collapsing slash runs keeps the path's elements |
| Paths.ElementsTrailingSlash | engine/kdramahood.go:140 | a trailing slash adds no element |
| Paths.JoinPair | engine/kdramahood.go:140 | path.Join of two elements, the first non-empty, is Clean of their slash-join |
| Paths.JoinSegment | engine/kdramahood.go:140 | joining a relative segment puts it after one slash at the end; on the empty path it is the segment |
| Paths.JoinTwice | engine/nkiri.go:180 | two joins put both segments at the end in order |
| Paths.JoinThree | engine/nkiri.go:180 | path.Join of a path and two relative segments puts both after the cleaned path, one slash apart |
| Paths.JoinTrailingSlash | engine/mycoolmoviez.go:142-143 | Join drops a trailing slash of the last element |
| Paths.SplitPath | engine/animeout.go:92 | path.Split: the two parts rebuild the path, the name has no slash, the directory ends in one or is empty |
| Paths.SplitPathOf | engine/animeout.go:92 | a directory ending in a slash and a slash-free name split back apart |
| Paths.Ext | engine/animeout.go:93 | path.Ext: empty, or a dot-led suffix of the string with no slash and no further dot |
| Paths.ExtOf | engine/animeout.go:93 | the extension of "name.e" with a dot- and slash-free e is ".e" |
| Urls.SplitOrigin | engine/engines.go:91-93 | origin and path rebuild the text, and a path after an origin starts with "/" |
| Urls.ParseUrl | engine/kdramahood.go:76 | the model's URL prints back as the text it read, and a path after an origin starts with "/" |
| Urls.QuerySplit | engine/kdramahood.go:156-158 | a URL split at its first "?" writes the text before it, the "?" and the query back |
| Urls.BeforeChar | engine/kdramahood.go:76 | the text before the first c: a c-free prefix followed by c or by the end |
| Urls.SchemeEndFrom | engine/kdramahood.go:76 | the scan of url.Parse's getScheme: a ':' after an unbroken run of scheme characters; when there is none, every ':' comes after a non-scheme character |
| Urls.SchemeEnd | engine/kdramahood.go:76 | getScheme: a scheme needs a leading letter and a ':' after an unbroken run of scheme characters, so it precedes the first "/", "?" and "#" |
| Urls.SchemeOf | engine/tvseries.go:81 | the scheme of a base URL is empty or starts with a letter and is followed by ":" in the origin |
| Urls.ResolveRef | engine/kdramahood.go:76 | base.Parse of a fragment-free href, printed: "" when url.Parse refuses it, the href itself when it has a scheme, the base's scheme before a "//host" reference, otherwise the base's origin before a text ending in the href |
| Urls.AbsoluteUrl | engine/kdramahood.go:76 | Request.AbsoluteURL: "" for an href starting with "#", the base for the empty href, otherwise the resolution of the href's text before its first "#" |
| Urls.BeforeCharConcat | engine/kdramahood.go:76 | the text before c of x + y for a c-free x is x followed by the text before c of y |
| Urls.BeforeCharFree | engine/kdramahood.go:76 | a c-free text is its own text before c |
| Urls.AbsoluteUrlFragmentFree | engine/kdramahood.go:76 | an href without "#" is resolved as it stands |
| Urls.AbsoluteUrlDropsFragment | engine/kdramahood.go:76 | an href's fragment plays no part in the resolved link |
| Urls.HttpsScheme | engine/tvseries.go:81 | an origin starting "https://" has the scheme "https" |
| Urls.ResolveNetworkPath | engine/tvseries.go:81 | a "//host/path" reference is written after the base's scheme and a ":" |
| Urls.NetworkPathTakesScheme | engine/tvseries.go:81 | "//host/path" found on an https page resolves to "https://host/path" |
| Urls.HostPathIsRelative | engine/dramacool.go:85 | an href starting with one "/" is resolved against the base's origin, whatever its query holds |
| Urls.ColonSegmentRefused | engine/dramacool.go:85 | a relative href whose first segment holds a ":" is refused, so the link is "" |
| Urls.SetThenGet | engine/kdramahood.go:156-157 | url.Values.Set stores the value under its key and leaves every other key |
| Urls.SortedKeyList | engine/kdramahood.go:158 | Encode's key order: exactly the keys, strictly increasing in Go's string order |
| Urls.EncodeTwo | engine/fzmovies.go:194-196 | two keys are encoded in key order whichever was set first |
| Escaping.EscapeChar | engine/kdramahood.go:158 | url.QueryEscape of one character is never empty |
| Escaping.QueryEscapeAlphabet | engine/kdramahood.go:158 | an escape holds only unreserved characters, "+" and "%", so no "&" or "=" and the pairs of an encoded query stay apart |
| Escaping.QueryUnescape | engine/animeout.go:94 | url.QueryUnescape: the result is never longer than the input |
| Escaping.QueryUnescapePlain | engine/animeout.go:94 | a name without "%" or "+" unescapes to itself |
| Escaping.UnescapeTriple | engine/animeout.go:94 | "%XY" unescapes to the character with code XY |
| Escaping.UnescapeEscape | engine/animeout.go:94 | QueryUnescape undoes QueryEscape on ASCII text |
| Escaping.EscapeUnreserved | engine/kdramahood.go:158 | a string of unreserved characters is its own escape |
| Patterns.Capture | engine/dramacool.go:125 | the first group of `open(.*)close`: a match exists exactly when some start and end match, and the group is its middle |
| Patterns.FindFromLeftmost | engine/dramacool.go:125 | the match found is the leftmost and, from its start, the greediest; none means no match starts later |
| Patterns.Parenthesised | engine/nkiri.go:81 | `\((.*)\)` captures text on one line |
| Patterns.FirstLineWith | engine/netnaija.go:204-220 | the line of the first occurrence of a newline-free w: its start, its last occurrence of w (none later on the line) and its end; None exactly when w does not occur |
| Patterns.FromLast | engine/netnaija.go:204-220 | `.*(w.*)`: from an occurrence of w with none later on its line to the line end; None exactly when w does not occur |
| Patterns.FirstLineWithOneLine | engine/netnaija.go:204-220 | on newline-free text the line found is the whole text and its last occurrence is the text's last |
| Patterns.FromLastOneLine | engine/netnaija.go:204-220 | on newline-free text `.*(w.*)` captures from the last w to the end |
| Patterns.FirstLineStart | engine/netnaija.go:201-211 | the line found starts the text or follows a newline, and no occurrence of w comes before it |
| Patterns.YearOf | engine/netnaija.go:87 | the year is in the int64 range; it is the Atoi of the parenthesised text whenever that parses, and otherwise 0 |
| Patterns.YearFromTitle | engine/netnaija.go:87 | a title ending in "(year)" with no other "(" yields that year |
| Patterns.NoYearWithoutParenthesis | engine/nkiri.go:81 | a title without "(" has no year |
| Patterns.AfterLabel | engine/dramacool.go:111 | `label(.+)` captures a non-empty rest of one line |
| Patterns.AfterLabelAndSpace | engine/coolmoviez.go:95 | `label\s+(.*)`: a one-line value not starting with white space; none exactly when no occurrence of the label is followed by white space |
| Patterns.AfterLabelAndSpaceWhole | engine/coolmoviez.go:116 | "label v" with v filling the line captures v |
| Patterns.FirstDigitRun | engine/besthdmovies.go:70 | `\d+` gives a non-empty digit run, none exactly when there is no digit |
| Patterns.FromFirstDigit | engine/nkiri.go:121 | `(\d.*)` runs from the first digit to the end of its line, none exactly when there is no digit |
| Patterns.FirstNumber | engine/coolmoviez.go:72-77 | the year is in the int64 range, and 0 without a digit |
| Patterns.FirstNumberOf | engine/coolmoviez.go:72-77 | digit-free text, a number, then a non-digit give that number |
| Patterns.DigitsMB | engine/mycoolmoviez.go:118-119 | a `(\d+)[\s]?MB` match starts with a digit and ends with "MB" |
| Patterns.DigitsMBOf | engine/mycoolmoviez.go:118-119 | digit-free text, digits, " MB" give the digits and " MB" |
| Patterns.ThroughLast | engine/tvseries.go:148-149 | `(.* MB)` matches one line ending in " MB" |
| Patterns.ThroughLastFinds | engine/fzmovies.go:150-151 | any occurrence of a one-line close literal makes `(.*close)` match |
| Patterns.ThroughLastOnLine | engine/fzmovies.go:150-151 | on one line the match runs to the end of the last occurrence |
| Patterns.WindowOpen | engine/takanimelist.go:102-105 | `window.open\(\.+\)` matches text starting "window" and ending ".)" |
| Patterns.WindowOpenNeedsDotParen | engine/takanimelist.go:102-105 | a text without ".)" has no match: only a call whose argument is dots matches |
| Patterns.WindowOpenOfDots | engine/takanimelist.go:102 | "window.open(" with dots and ")" is matched whole |
| Patterns.Prefixed | engine/besthdmovies.go:109-119 | the selected links are a subsequence |
| Patterns.PrefixedMembers | engine/besthdmovies.go:109-119 | the selection holds exactly the links with the prefix |
| Patterns.LastPrefixed | engine/mycoolmoviez.go:111-117 | the last link with the prefix carries it |
| Patterns.LastPrefixedIsLast | engine/mycoolmoviez.go:111-117 | it is the last link carrying the prefix |
| Patterns.LastPrefixedNone | engine/mycoolmoviez.go:111-117 | there is none exactly when no link carries the prefix |

## Left out

- Scheduling of colly's asynchronous collectors. The collectors are created with `colly.Async(true)` (engine/engines.go:60-68), and `Clone` keeps that setting. The model runs the callbacks of a visited page inside the visit, which is the order the code is written for. As written, a `Visit` made inside a callback only queues its request. So `TakanimeList.RetrieveSingle` returns "" for a link that is not a video file (`TakanimeList.FinalLinkAsWritten`, `TakanimeList.AsyncLosesPageLink`), and kdramahood copies its shared maps before any episode page has answered (`KDramaHood.AsyncVisitsRecordNothing`). Both are listed under Findings.
- colly's visited store, which refuses a second visit of a URL. A detail link repeated within one scrape, or an href that `retrieveSingle` has already fetched, is modelled as fetched again.
- LegacyScraper.Visited: the callbacks that getdownloadlink registers stay registered on the shared collector (pkg/scraper/scraper.go:38-58). Each later response fires all of them again, including those of earlier movies. The model applies to each movie only the hits of its own page, after the "Unknown" test, because the revisit inside OnResponse is refused.
- LegacyScraper.NetNaijaSite.OnMain: the `main` callback (pkg/scraper/scraper.go:88-113) is registered on the same collector as the detail visits, so it also fires on every detail page that answers, and a titled `article` there would be appended and visited in turn. The model runs `main` on the search page only, and takes a detail page's hits as those of the getdownloadlink callbacks.
- LegacyScraper.NetNaijaSite.Search: on a site that already holds movies, the callbacks that the search page's OnResponse registers fire on the search page after `main` (callbacks fire in registration order). They write through `&site.Movies[len(site.Movies)-1]`, taken before `main` appended, so a write is lost when append moved the slice. The model applies the search page's hits to the previously last movie before `main` runs. On the first search of a site the movies are empty, OnResponse changes nothing, and the two agree.
- LegacyScraper.Fetch: the servers' answers are an input (`pages`), which says for each requested URL whether a response reaches OnResponse (None covers a failed transport and an error status) and, if so, its final URL and the callback hits on it. colly's visited store for detail links repeated within one search is not modelled (see above).
- LegacyScraper.TfpdlSite.OnPostListing: numbers the items of one `div.post-listing` from 0. The source's counter lives across matches, so a second listing block would continue the count. A permalink listed twice is refused by the inner collector's visited store, but the model gives it its page entry again.
- Parser (in ChiaAnime, BestHDMovies, Nkiri and FzMovies): an item on which parseSingleMovie would panic yields no movie, and Scrape stays total. In Go such an item ends the program. The `DiscoversEveryItem` lemmas speak only of listings in which every item is parsable.
- Other panics are preconditions:
  - `ParseSingleMovie` for ChiaAnime, BestHDMovies and Nkiri;
  - a missing anchor text in TakanimeList.OnEntryContent;
  - fewer than three paragraphs in BestHDMovies.OnPost;
  - an input name without a value in BestHDMovies.OnFreeDownload and BestHDMovies.OnForm;
  - a size text without a match in TvSeries.OnFileDownload, FzMovies.ScrapeState.OnFiles and ChiaAnime.OnDownload;
  - a script without a match in TakanimeList.RetrieveSingle;
  - an unparsable "movieIndex" (log.Fatal) in Engines.MovieIndexFromCtx;
  - a sabishare URL without a token piece in NetNaija.Downloads.OnScraped;
  - an article without any anchor href in AnimeOut.OnArticle (the `[1:]` slice at engine/animeout.go:88).

  The program's behaviour on those inputs, which is to end, is not modelled.
- NetNaija.Downloads.OnScraped: the sabishare API call (engine/netnaija.go:152-176) is an input, `api`. It holds the direct link when the call answered status 200 with a decodable body, and None for any other answer. A call that fails outright leaves a nil response whose body engine/netnaija.go:167 dereferences. Go panics there, and that case is not among the model's inputs.
- Urls.AbsoluteUrl: dot segments ("." and "..") of a relative href are not removed as section 5.2.4 of RFC 3986 requires, and an HTML `<base>` element, which colly would take as the base, is not read. The scheme is not lowercased and the path is not re-escaped (see Urls.ParseUrl). Among url.Parse's refusals only the missing scheme before a leading ":" and the ":" in a first relative segment are modelled; a bad host, port or percent escape, or a control character, is not.
- Urls.ParseUrl: url.Parse lowercases the scheme, and URL.String re-escapes the path, so a space or a non-ASCII character comes back as %XX. The model's URL keeps the text as read. The round trips stated for the poster and cover links (PanelSites.PosterDetails and the covers of BestHDMovies, TvSeries and FzMovies) therefore hold in the model only; in Go they hold for lower-case schemes and paths that need no escaping.
- TvSeries.VideoEndsTheChain: stated for hrefs that url.Parse accepts. A refused href, such as "1:x.mp4", resolves to "", so the callback at engine/tvseries.go:139-141 visits "" rather than stopping; that case is not claimed.
- Paths.Join: BestHDMovies.PostLink and FzMovies.ParseItemFields join raw hrefs. Go's Clean resolves any "." and ".." elements in them, and the model keeps those elements, so on such hrefs its links differ from Go's.
- The adapters' updateDownloadProps functions declare their table as `movies *[]Movie` (engine/animeout.go:78), while the Engine interface and Scrape pass `*scraped`, whose movies field is a map from index to movie (engine/engines.go:48 and engine/engines.go:70-73). As written the adapters' method does not match the interface's signature. The model follows the interface: every callback updates the shared map and requires that its movie's entry exists (`HasEntry`).
- url.Parse errors: every URL the adapters build parses. The branches that log.Fatal, or that keep the old link on an error, are not reached in the model.
- Escaping.QueryUnescape: decodes each "%XX" to one character. Multi-byte UTF-8 sequences are not reassembled into a single character, so names with non-ASCII escapes are not modelled exactly.
- url.Values holds one value per key. The adapters only call Set on it, which replaces every value, and Get, which reads the first.
- Movie.sDownloadLink is a map from episode key to URL, as every adapter assigns it. engine/engines.go:157 declares a slice, and MarshalJSON ranges over it as a slice. The model follows the adapters, and `Engines.ToJson` keeps the keys.
- Text.ToLower: folds ASCII letters, U+0130 and U+212A, the case mappings into ASCII. Other non-ASCII letters keep their case; no engine name or file extension the code tests contains one.
- The mutex, goroutines and the cmd package. Logging, `prettyPrint`, `String()` and the JSON encoding beyond the projections `Engines.ToJson` and `Props.Props.ToJson` are also left out.
- Tfpdl.GetDownloadLinks (pkg/scraper/scraper.go:173-185): it only prints the page and the result of a POST.
- Follow-up requests issued with `Collector.Visit` or `Collector.Post` carry a fresh context (`Engines.CollectorVisit`). The callbacks on the pages they fetch read "movieIndex" as "", and in Go the program ends there. The model returns these requests but does not run the callbacks that would be fatal.

## Findings

| source | as written | input that shows it | evidently intended | confidence | as-written member | corrected member |
|---|---|---|---|---|---|---|
| engine/nkiri.go:94-96 | the guard is `len(titleSplit) >= 1`, then `titleSplit[1]` is read | an h2 "Foo (2020)" without " \| ": the split has one piece and the index panics | guard `len >= 2`; a heading without the separator is the title with no category | not executed; high | Nkiri.GuardAdmitsSinglePiece | Nkiri.CorrectedAgrees |
| engine/netnaija.go:135-139 | the og:url callback tests `e.Attr("href")` of a meta element | `<meta property="og:url" content="https://sabishare.com/x">`: the sabishare URL stays "" | test the `content` it then stores | not executed; high | NetNaija.OgUrlMissesContent | NetNaija.OgUrlCorrected |
| engine/chiaanime.go:115-117 | `[ Size : (\d+) MB ]` is a character class, so the match is one character | span "Size : 300 MB": Size becomes "S" | the size phrase `Size : (\d+) MB` | not executed; high | ChiaAnime.SizeClassKeepsOneLetter | ChiaAnime.DownloadDetailsCorrected |
| engine/chiaanime.go:136-138 | the "paged" query is set on a copy that is never stored | List(2) and List(3) scrape the same URL | store RawQuery = q.Encode() | not executed; high | ChiaAnime.List | ChiaAnime.PagesGiveDistinctQueries |
| engine/takanimelist.go:97-113 | on an asynchronous collector, Visit only queues the request and the function returns at once | a link "https://host/ep1" whose page has a window.open script comes back "", so the episode is not stored | wait for the page and return its match | not executed; medium | TakanimeList.AsyncLosesPageLink | TakanimeList.RetrieveSingle |
| engine/kdramahood.go:103-116 | the maps are copied right after the asynchronous visits are queued | any episode list: the movie receives two empty maps | copy after the visited pages have answered | not executed; medium | KDramaHood.AsyncVisitsRecordNothing | KDramaHood.Downloads.OnEpisodes |
| engine/coolmoviez.go:127 | follow-up pages are requested with `Collector.Visit`, whose request has a fresh context | the server page of any /file link: its a.dwnLink callback reads "movieIndex" as "" and log.Fatal ends the program | `e.Request.Visit`, which shares the context | not executed; medium | Engines.CollectorVisitLosesMovie | Engines.ContextVisitKeepsMovie |
