# Listing reconciliation of the vehicle price analyser, in Dafny

This project models the post-processing step of `analyzeVehicle` in the used-vehicle
price analyser. The step runs after the generative model has answered. It does three things:

- **Grounding sources.** It turns the response's grounding chunks into `{title, uri}` records.
  A chunk is kept only when both fields are present and not empty.
- **Response decoding.** It finds the JSON payload in the model's text. A fenced
  `` ```json `` block is tried first, then any fenced block. A non-empty block body is parsed
  and a parse failure is final. Otherwise the whole text is parsed.
- **Listing URL reconciliation.** For each proposed comparable listing it works out a final
  `url`. The evidence is:
  - the listing's own URL (only an `http` one, kept only when unmasked);
  - the grounding source whose title shares the most tokens with the listing's title, with
    bonuses for marketplace URIs;
  - a 9-10 digit listing identifier from the own URL, the best source's URI or the title.

  An identifier always becomes `https://www.sahibinden.com/ilan/<id>/detay`.

`JSON.parse` is the function parameter `parse: string -> Option<...>`, an opaque partial
function. The model call itself is represented by its outputs: the response text and the
grounding chunks, given as parameters of `Analysis.AnalyzeResponse`.

Modules, one per component:

- `Wrappers`: `Option` and `Result`.
- `Text`: the JavaScript string operations used.
  - `includes` and `startsWith`, over a substring search (`IndexFrom`) that also drives the
    lazy fence match.
  - ASCII `toLowerCase`.
  - `split` on one character, with its round trips against `join`.
- `ListingId`: the regular expression `/\b(\d{9,10})\b/`.
  - It is modelled twice: once the way the engine matches (`MatchLength`: ten digits first,
    then nine), once declaratively (`IsIdAt`).
  - Lemmas tie the two readings together and cover the canonical URL.
- `Types`: `GroundingSource` and `ComparableListing`.
- `Grounding`: the chunk filter.
- `Decoder`: the two fence patterns, both lazy, leftmost first, and the parse-or-fail decision.
- `Scoring`: the tokens, the score and the first-wins argmax.
  - `FirstMax` and `BestSource` are the functional specification.
  - `ScanSources` is the loop itself.
- `Reconcile`: the per-listing logic.
  - `Resolve` is written imperatively over the locals `finalUrl` and `foundId`.
  - `ResolveAll` is the loop over listings.
  - The specification function `ResolvedUrl` is built from four step functions.
  - Lemmas state the precedence rules.
- `Analysis`: the payload and the whole post-processing.
  - `FixComparableListings` rewrites the `comparableListings` array and leaves anything else alone.
  - `AnalyzeResponse` goes from the response to the result.

Points of the code's behaviour that the model keeps exactly:

- The own URL's identifier is captured only for a URL that starts with `http`
  (geminiService.ts:154-156). It is captured whether or not the URL is masked.
- The best source's URI is copied verbatim when no own URL was kept and it has no identifier
  (geminiService.ts:184). A resolved URL can therefore be a source URI; `ResolvedUrlRange`
  states the full range.
- An identifier in an `http` own URL comes before the title's identifier, with or without
  sources (geminiService.ts:154-156). See `OwnIdUsedEvenWhenMasked`. The title is searched
  only when no identifier was found (geminiService.ts:188); see `TitleIdFallback`.
- Titles are tokenised by splitting on a single space `' '` (geminiService.ts:163). Other
  whitespace stays inside tokens.
- The regular expression's `\b` rejects a letter, a digit or `_` next to the run of digits,
  not only a digit.
- A fenced body that fails to parse is an error, with no fallback to the whole text. An empty
  body in a tagged block skips the untagged pattern altogether and parses the whole text
  (geminiService.ts:128-144).

## Model

| member | source | states |
|---|---|---|
| `Text.IndexFrom` | geminiService.ts:157 | the index found is the first occurrence at or after the start; none is found exactly when the pattern occurs nowhere from there |
| `Text.ToLower` | geminiService.ts:163-170 | same length; each ASCII capital becomes its own lower-case letter; every other character is unchanged |
| `Text.ToLowerIdempotent` | geminiService.ts:163-170 | lower-casing twice is lower-casing once |
| `Text.Split` | geminiService.ts:163 | a split has at least one piece, also for the empty string; `JoinSplit` and `SplitJoin` make `Join` its inverse |
| `Text.Contains` | geminiService.ts:171-173 | `includes` holds exactly when the pattern occurs at some position |
| `Text.JoinSplit` | geminiService.ts:163 | joining the pieces of `split(' ')` with the separator gives back the string |
| `Text.SplitJoin` | geminiService.ts:163 | splitting a join of separator-free pieces gives back the pieces, so `split` keeps empty pieces |
| `Text.SplitOmitsSeparator` | geminiService.ts:163 | no piece of a split contains the separator |
| `ListingId.MatchLength` | geminiService.ts:152 | the engine's attempt at a position succeeds, with capture length n, exactly when a run of 9 or 10 digits with no word character on either side starts there |
| `ListingId.ExtractId` | geminiService.ts:155-156 | a captured identifier is 9 or 10 digits and nothing else |
| `ListingId.ExtractIdIsLeftmost` | geminiService.ts:152 | the capture is the leftmost identifier in the string, and there is none exactly when the string holds no identifier |
| `ListingId.LongDigitRunHasNoId` | geminiService.ts:152 | no identifier starts anywhere inside a run of 11 or more digits, wherever the run lies in the string |
| `ListingId.AllDigitsHasNoId` | geminiService.ts:152 | a string of 11 or more digits yields no identifier |
| `ListingId.CanonicalUrl` | geminiService.ts:194 | the canonical URL starts with `http` and is the template's length plus the identifier's; `CanonicalUrlRoundTrip` is its inverse |
| `ListingId.CanonicalUrlRoundTrip` | geminiService.ts:194 | the identifier extracted from a canonical URL is the one it was built from |
| `Grounding.FilterSources` | geminiService.ts:120-125 | no more sources than chunks, and every source has a non-empty title and URI |
| `Grounding.IsUsable` | geminiService.ts:121 | a usable chunk has a `web` member with both `uri` and `title` present |
| `Grounding.ToSource` | geminiService.ts:122-125 | defined on usable chunks only; the source's title and URI are the chunk's own, both non-empty |
| `Grounding.FilterSourcesAppend` | geminiService.ts:120-125 | filtering distributes over concatenation, so kept chunks stay in their original order |
| `Grounding.FilterSourcesMembership` | geminiService.ts:121-124 | a source is produced exactly when some chunk with a present, non-empty `web.uri` and `web.title` maps to it |
| `Grounding.FilterSourcesKeepsUsable` | geminiService.ts:120-125 | when every chunk is usable, each one becomes a source, index for index |
| `Decoder.FenceBody` | geminiService.ts:128 | the body is the first lazy match of the tagged fence; only when no tagged pair exists, the first lazy match of the untagged fence; there is none only when neither fence occurs as a pair |
| `Decoder.NonEmptyBodyDecides` | geminiService.ts:132-138 | a non-empty body decides the outcome alone: its parse is the result, and a failure is `MalformedFencedJson` |
| `Decoder.LazyMatchIsLeftmostShortest` | geminiService.ts:128 | the fence capture comes from the leftmost opening that has a closing, ends at the first closing after it, and is absent exactly when no such pair exists |
| `Decoder.FirstFenceFound` | geminiService.ts:128 | an opening with no earlier opening and no closing inside gives exactly its body |
| `Decoder.TaggedFenceFirst` | geminiService.ts:128 | when a tagged JSON block exists, the untagged pattern is never consulted |
| `Decoder.TaggedBlockBody` | geminiService.ts:128 | a tagged block after text without backticks, with a body without backticks, yields exactly that body |
| `Decoder.Decode` | geminiService.ts:130-145 | a successful decode is the parse of the whole text or of the fence body |
| `Decoder.MalformedFenceHasNoFallback` | geminiService.ts:132-138 | a non-empty fence body that fails to parse is an error whatever the whole text would parse to |
| `Decoder.WholeTextParsedOnlyWithoutBody` | geminiService.ts:132-145 | without a body or with an empty one, the result is the parse of the whole text; each error arises only on its own path |
| `Decoder.NoBacktickMeansWholeText` | geminiService.ts:139-144 | text without backticks has no fence and decodes as the parse of the whole text, failing when that fails |
| `Decoder.TaggedExample` | geminiService.ts:128-138 | `prefix ```json\n{"a":1}\n``` suffix` decodes as the parse of `{"a":1}` |
| `Scoring.LongWords` | geminiService.ts:163 | no more words than given; every word kept is longer than three characters and one of the given words |
| `Scoring.Tokens` | geminiService.ts:163 | every token is longer than three characters and contains no space |
| `Scoring.Overlap` | geminiService.ts:171 | the overlap is at most the number of tokens; `OverlapAppend` and `OverlapExtremes` pin it down |
| `Scoring.DomainBonus` | geminiService.ts:172-173 | the bonus is 0, 5 or 20; `DomainBonusZeroIff` says which |
| `Scoring.BestSource` | geminiService.ts:164-179 | a winner is an index into the sources, with a positive score that is its own score |
| `Scoring.LongWordsCount` | geminiService.ts:163 | each word longer than three characters is kept as often as it occurs; no other word is kept |
| `Scoring.TokensAreLongPieces` | geminiService.ts:163 | tokens are the lower-cased title's pieces between single spaces that are longer than three characters, with multiplicity |
| `Scoring.OverlapAppend` | geminiService.ts:171 | the overlap count is additive, so duplicate tokens count separately |
| `Scoring.OverlapExtremes` | geminiService.ts:171 | the overlap is every token when all occur in the title and zero when none does |
| `Scoring.DomainBonusZeroIff` | geminiService.ts:172-173 | no bonus exactly when the URI lacks the marketplace name; at most the small bonus exactly when it lacks the listing path |
| `Scoring.Score` | geminiService.ts:168-173 | the score lies between the domain bonus and the bonus plus the number of tokens |
| `Scoring.FirstMax` | geminiService.ts:175-178 | a winner has a positive score and is reported with its own score |
| `Scoring.FirstMaxIsFirstMaximum` | geminiService.ts:164-179 | the scan picks the first strictly maximal positive score; it picks none exactly when all scores are 0 |
| `Scoring.FirstMaximumIsChosen` | geminiService.ts:175-178 | conversely, the first maximal positive score is the one picked |
| `Scoring.BestSourceIsFirstMaximum` | geminiService.ts:167-179 | the best source scores above every earlier source and at least as high as every later one; ties keep the earlier source |
| `Scoring.ListingPathDominates` | geminiService.ts:172-179 | with fewer than 15 tokens, the only source whose URI holds the listing path wins |
| `Scoring.ScoreSource` | geminiService.ts:168-173 | the loop over the tokens plus the bonus computes the source's score |
| `Scoring.ScanSources` | geminiService.ts:164-179 | `bestMatch` and `maxScore` after the loop are the best source and its score |
| `Reconcile.Resolve` | geminiService.ts:150-197 | the result is the input listing with only `url` replaced by the resolved URL; title, price, advantage and description are unchanged |
| `Reconcile.ResolveAll` | geminiService.ts:149-198 | same length and order; each element is its input listing with only `url` resolved |
| `Reconcile.OwnUrlEvidence` | geminiService.ts:154-160 | an identifier comes only from an `http` own URL and is its extracted one; a kept URL is that URL, unmasked and `http` |
| `Reconcile.SourceEvidence` | geminiService.ts:162-185 | the identifier changes only to the best source's identifier; the kept URL changes only from empty to the best source's URI when that has no identifier |
| `Reconcile.TitleEvidence` | geminiService.ts:188-191 | the kept URL is unchanged; an identifier already found is kept; otherwise the title's identifier is taken |
| `Reconcile.FinalUrl` | geminiService.ts:193-195 | with an identifier, the URL gives that identifier back; without one, the URL is the one kept |
| `Reconcile.Gathered` | geminiService.ts:150-191 | any identifier gathered is a listing identifier of 9 or 10 digits |
| `Reconcile.ResolvedUrl` | geminiService.ts:150-195 | when an identifier was found, the resolved URL carries it; otherwise it is the URL kept or copied |
| `Reconcile.ResolvedUrlRange` | geminiService.ts:150-194 | the final URL is empty, the unmasked `http` own URL verbatim, some source URI verbatim, or the canonical URL of an identifier |
| `Reconcile.IdentifierWins` | geminiService.ts:193-195 | any identifier found overrides a copied URL with the canonical one |
| `Reconcile.SourceIdOverridesOwnId` | geminiService.ts:181-183 | an identifier in the best source's URI decides the URL, whatever the own URL holds |
| `Reconcile.OwnIdUsedEvenWhenMasked` | geminiService.ts:154-157 | an `http` own URL's identifier is used even when the URL is masked, unless the best source has one |
| `Reconcile.NonHttpUrlIgnored` | geminiService.ts:154 | a URL not starting with `http` changes nothing compared with no URL |
| `Reconcile.TitleIdFallback` | geminiService.ts:188-191 | without an identifier from the own URL or the best source, the title's identifier decides the URL |
| `Reconcile.OwnUrlKeptVerbatim` | geminiService.ts:157-158 | without any identifier, an unmasked `http` own URL is kept verbatim, sources or not |
| `Reconcile.SourceUriAdoptedVerbatim` | geminiService.ts:184 | without any identifier or kept own URL, the best source's URI is adopted verbatim |
| `Reconcile.UnresolvedIffNoEvidence` | geminiService.ts:150-195 | with non-empty source URIs, the URL is empty exactly when there is no unmasked `http` URL, no positive source and no identifier in the own URL or the title |
| `Reconcile.NoEvidenceNoUrl` | geminiService.ts:150 | empty title, empty URL and no sources give the empty URL |
| `Reconcile.CanonicalUrlIsStable` | geminiService.ts:154-156 | with no sources, a listing whose URL is already canonical keeps it, whatever its title |
| `Reconcile.ResolveIsIdempotent` | geminiService.ts:150-197 | resolving a resolved listing again with the same sources leaves its URL unchanged |
| `Analysis.FixComparableListings` | geminiService.ts:148-199 | an array of listings is resolved element by element; an absent or non-array field and all other payload fields are untouched |
| `Analysis.AnalyzeResponse` | geminiService.ts:116-205 | a missing key fails first; a decode error becomes the result's error; otherwise the result holds the filtered sources and the payload with its listings resolved against them |

## Left out

- The Gemini SDK call, the prompt and system instruction, `async`/`await`, `console.error` and
  the re-throw at geminiService.ts:207-210 are not modelled. They are network, text and
  logging plumbing. The call is replaced by its outputs, passed as parameters.
- `process.env.API_KEY` is an empty-or-not string parameter. A missing key is the
  `MissingApiKey` error.
- `JSON.parse` is an opaque function parameter that yields the payload or fails. A payload of
  `null` would make line 148 throw a `TypeError`. This is not modelled: the parser's results
  are objects.
- Payload fields other than `comparableListings` are carried through unseen. This covers the
  prices, the verdict and the reasoning.
- List elements are assumed to be well-formed listings. A listing whose `title` is not a
  string would make lines 163 and 189 throw. This is not modelled.
- `Text.ToLower`: lower-cases only ASCII letters, because full Unicode case mapping (Turkish dotted and dotless i among others) is outside the model.
  The full mapping can change lengths and turn non-ASCII letters into ASCII ones, so token
  lengths and overlaps of non-ASCII titles may differ from the model's. Identifiers are not
  affected: the identifier pattern is matched only on the raw URL, URI and title, never on a
  lower-cased string (geminiService.ts:155, 182, 189).
- `Scoring.Tokens`: measures `w.length > 3` in Unicode characters, whereas JavaScript counts
  UTF-16 code units. The two differ only for characters outside the Basic Multilingual Plane.
- The reassignment of `resultJson.comparableListings` is modelled as returning an updated
  payload value. The parsed object is a fresh local that nothing else references, so no
  aliasing is lost.
- `Scoring.ListingPathDominates`: requires fewer than 15 tokens. Beyond that, overlap alone
  can outscore the listing-path bonus, and the code does not claim dominance there.
- AnalysisResult.tsx, VehicleForm.tsx, App.tsx and PriceChart.tsx are not part of this model.
  They are user interface and charting code.
