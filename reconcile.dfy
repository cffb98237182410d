/** Listing URL reconciliation: the URL FIX LOGIC of `analyzeVehicle`, which works out a
    final `url` for each comparable listing from its own URL, the best grounding source and
    the identifiers found in them and in the title. */
module Reconcile {
  import opened Wrappers
  import opened Text
  import opened Types
  import opened ListingId
  import opened Scoring

  const MASK_MARKER := "XXXX"
  const ELLIPSIS_MARKER := "..."

  /** The locals `finalUrl` and `foundId`; `""` and `None` stand for the source's `""` and `null`. */
  datatype Evidence = Evidence(finalUrl: string, foundId: Option<string>)

  /** Any identifier held is a listing identifier. */
  predicate HoldsListingId(e: Evidence) {
    e.foundId.Some? ==> IsListingId(e.foundId.value)
  }

  /** `listing.url && listing.url.startsWith('http')`. */
  predicate IsHttpUrl(url: Option<string>) {
    url.Some? && StartsWith(url.value, "http")
  }

  /** The URL carries one of the placeholder markers. */
  predicate IsMasked(url: string) {
    Contains(url, MASK_MARKER) || Contains(url, ELLIPSIS_MARKER)
  }

  /** The own-URL check: an `http` URL contributes its identifier, masked or not, and itself
      when it is not masked; any other URL contributes nothing. */
  function OwnUrlEvidence(url: Option<string>): (e: Evidence)
    ensures HoldsListingId(e)
    ensures e.foundId.Some? ==> IsHttpUrl(url) && e.foundId == ExtractId(url.value)
    ensures e.finalUrl != "" ==> IsHttpUrl(url) && !IsMasked(url.value) && e.finalUrl == url.value
  {
    if IsHttpUrl(url) then
      Evidence(if IsMasked(url.value) then "" else url.value, ExtractId(url.value))
    else Evidence("", None)
  }

  /** The source match: the best source's identifier replaces the current one; failing that,
      its URI is taken when no URL is kept yet. Nothing happens without sources or a winner. */
  function SourceEvidence(e: Evidence, tokens: seq<string>, sources: seq<GroundingSource>): (e': Evidence)
    ensures HoldsListingId(e) ==> HoldsListingId(e')
    ensures e'.foundId != e.foundId ==>
      && BestSource(tokens, sources).Match?
      && e'.foundId == ExtractId(sources[BestSource(tokens, sources).index].uri)
    ensures e'.finalUrl != e.finalUrl ==>
      && e.finalUrl == ""
      && BestSource(tokens, sources).Match?
      && e'.finalUrl == sources[BestSource(tokens, sources).index].uri
      && ExtractId(e'.finalUrl).None?
      && e'.foundId == e.foundId
  {
    if |sources| == 0 then e
    else match BestSource(tokens, sources)
      case NoMatch => e
      case Match(k, _) =>
        match ExtractId(sources[k].uri)
        case Some(id) => e.(foundId := Some(id))
        case None => if e.finalUrl == "" then e.(finalUrl := sources[k].uri) else e
  }

  /** The title fallback: the title is searched only when no identifier was found yet. */
  function TitleEvidence(e: Evidence, title: string): (e': Evidence)
    ensures HoldsListingId(e) ==> HoldsListingId(e')
    ensures e'.finalUrl == e.finalUrl
    ensures e.foundId.Some? ==> e'.foundId == e.foundId
    ensures e.foundId.None? ==> e'.foundId == ExtractId(title)
  {
    if e.foundId.None? then e.(foundId := ExtractId(title)) else e
  }

  /** The canonical rewrite: an identifier always becomes the canonical URL, from which
      the identifier can be read back. */
  function FinalUrl(e: Evidence): (url: string)
    requires HoldsListingId(e)
    ensures e.foundId.Some? ==> ExtractId(url) == e.foundId
    ensures e.foundId.None? ==> url == e.finalUrl
  {
    if e.foundId.Some? then CanonicalUrlRoundTrip(e.foundId.value); CanonicalUrl(e.foundId.value) else e.finalUrl
  }

  /** The evidence once all three streams have been consulted. */
  function Gathered(listing: ComparableListing, sources: seq<GroundingSource>): (e: Evidence)
    ensures HoldsListingId(e)
  {
    TitleEvidence(SourceEvidence(OwnUrlEvidence(listing.url), Tokens(listing.title), sources), listing.title)
  }

  /** The `url` the fix logic gives `listing`: when an identifier was found, the URL carries
      it, and otherwise the URL is the one kept or copied. */
  function ResolvedUrl(listing: ComparableListing, sources: seq<GroundingSource>): (url: string)
    ensures Gathered(listing, sources).foundId.Some? ==> ExtractId(url) == Gathered(listing, sources).foundId
    ensures Gathered(listing, sources).foundId.None? ==> url == Gathered(listing, sources).finalUrl
  {
    FinalUrl(Gathered(listing, sources))
  }

  /** The callback of the `map` over the comparable listings, step by step on the locals `finalUrl` and
      `foundId`. The result is the listing with only its `url` replaced. */
  method Resolve(listing: ComparableListing, sources: seq<GroundingSource>) returns (resolved: ComparableListing)
    ensures resolved == listing.(url := Some(ResolvedUrl(listing, sources)))
    ensures resolved.title == listing.title && resolved.price == listing.price
    ensures resolved.advantagePercentage == listing.advantagePercentage
    ensures resolved.description == listing.description
  {
    var finalUrl := "";
    var foundId: Option<string> := None;

    if listing.url.Some? && StartsWith(listing.url.value, "http") {
      var url := listing.url.value;
      var urlIdMatch := ExtractId(url);
      if urlIdMatch.Some? {
        foundId := urlIdMatch;
      }
      if !Contains(url, MASK_MARKER) && !Contains(url, ELLIPSIS_MARKER) {
        finalUrl := url;
      }
    }
    assert Evidence(finalUrl, foundId) == OwnUrlEvidence(listing.url);

    var words := Tokens(listing.title);
    if |sources| > 0 {
      var bestMatch, maxScore := ScanSources(words, sources);
      if bestMatch.Some? && maxScore >= 1 {
        var uriIdMatch := ExtractId(bestMatch.value.uri);
        if uriIdMatch.Some? {
          foundId := uriIdMatch;
        } else if finalUrl == "" {
          finalUrl := bestMatch.value.uri;
        }
      }
    }
    assert Evidence(finalUrl, foundId) == SourceEvidence(OwnUrlEvidence(listing.url), words, sources);

    if foundId.None? {
      var titleIdMatch := ExtractId(listing.title);
      if titleIdMatch.Some? {
        foundId := titleIdMatch;
      }
    }
    assert Evidence(finalUrl, foundId) == Gathered(listing, sources);

    if foundId.Some? {
      finalUrl := CanonicalUrl(foundId.value);
    }
    resolved := listing.(url := Some(finalUrl));
  }

  /** The `map` over all comparable listings: same length, same order, each listing
      resolved on its own. */
  method ResolveAll(listings: seq<ComparableListing>, sources: seq<GroundingSource>)
    returns (resolved: seq<ComparableListing>)
    ensures |resolved| == |listings|
    ensures forall i :: 0 <= i < |listings| ==>
      resolved[i] == listings[i].(url := Some(ResolvedUrl(listings[i], sources)))
  {
    resolved := [];
    for i := 0 to |listings|
      invariant |resolved| == i
      invariant forall j :: 0 <= j < i ==>
        resolved[j] == listings[j].(url := Some(ResolvedUrl(listings[j], sources)))
    {
      var r := Resolve(listings[i], sources);
      resolved := resolved + [r];
    }
  }

  // ---------------------------------------------------------------------------
  // Properties of the resolved URL

  /** The identifier found, if any, drawn from the own URL, the best source or the title. */
  function ChosenId(listing: ComparableListing, sources: seq<GroundingSource>): Option<string> {
    Gathered(listing, sources).foundId
  }

  /** The final URL is empty, the listing's own URL verbatim (an unmasked `http` one), a source
      URI verbatim, or the canonical URL of a listing identifier. */
  lemma ResolvedUrlRange(listing: ComparableListing, sources: seq<GroundingSource>)
    ensures var r := ResolvedUrl(listing, sources);
      || r == ""
      || (IsHttpUrl(listing.url) && !IsMasked(listing.url.value) && r == listing.url.value)
      || (exists k :: 0 <= k < |sources| && r == sources[k].uri)
      || (exists id :: IsListingId(id) && r == CanonicalUrl(id))
  {
    var e := Gathered(listing, sources);
    if e.foundId.Some? {
      assert IsListingId(e.foundId.value);
    } else if |sources| > 0 && BestSource(Tokens(listing.title), sources).Match? {
      var k := BestSource(Tokens(listing.title), sources).index;
      assert ResolvedUrl(listing, sources) == OwnUrlEvidence(listing.url).finalUrl
        || ResolvedUrl(listing, sources) == sources[k].uri;
    }
  }

  /** An identifier, wherever it was found, decides the URL. */
  lemma IdentifierWins(listing: ComparableListing, sources: seq<GroundingSource>)
    ensures ChosenId(listing, sources).Some? ==>
      ResolvedUrl(listing, sources) == CanonicalUrl(ChosenId(listing, sources).value)
    ensures ChosenId(listing, sources).Some? ==> IsListingId(ChosenId(listing, sources).value)
  {
  }

  /** An identifier in the best source's URI overrides the one in the listing's own URL. */
  lemma SourceIdOverridesOwnId(listing: ComparableListing, sources: seq<GroundingSource>, k: nat, id: string)
    requires BestSource(Tokens(listing.title), sources).Match?
    requires BestSource(Tokens(listing.title), sources).index == k
    requires ExtractId(sources[k].uri) == Some(id)
    ensures ResolvedUrl(listing, sources) == CanonicalUrl(id)
  {
  }

  /** The own URL's identifier is used even when the URL is masked, unless the best source's
      URI has one of its own. */
  lemma OwnIdUsedEvenWhenMasked(listing: ComparableListing, sources: seq<GroundingSource>, id: string)
    requires IsHttpUrl(listing.url) && ExtractId(listing.url.value) == Some(id)
    requires BestSource(Tokens(listing.title), sources).NoMatch?
      || ExtractId(sources[BestSource(Tokens(listing.title), sources).index].uri).None?
    ensures ResolvedUrl(listing, sources) == CanonicalUrl(id)
  {
  }

  /** A URL that does not start with `http` is as good as no URL: it yields neither a URL nor an identifier. */
  lemma NonHttpUrlIgnored(listing: ComparableListing, sources: seq<GroundingSource>)
    requires !IsHttpUrl(listing.url)
    ensures ResolvedUrl(listing, sources) == ResolvedUrl(listing.(url := None), sources)
  {
  }

  /** The title is searched only when neither the own URL nor the best source gave an
      identifier; then its identifier decides the URL. */
  lemma TitleIdFallback(listing: ComparableListing, sources: seq<GroundingSource>, id: string)
    requires !IsHttpUrl(listing.url) || ExtractId(listing.url.value).None?
    requires BestSource(Tokens(listing.title), sources).NoMatch?
      || ExtractId(sources[BestSource(Tokens(listing.title), sources).index].uri).None?
    requires ExtractId(listing.title) == Some(id)
    ensures ResolvedUrl(listing, sources) == CanonicalUrl(id)
  {
  }

  /** Without any identifier, an unmasked `http` URL of the listing is kept verbatim. */
  lemma OwnUrlKeptVerbatim(listing: ComparableListing, sources: seq<GroundingSource>)
    requires IsHttpUrl(listing.url) && !IsMasked(listing.url.value)
    requires ChosenId(listing, sources).None?
    ensures ResolvedUrl(listing, sources) == listing.url.value
  {
  }

  /** Without any identifier and any kept own URL, the best source's URI is adopted verbatim. */
  lemma SourceUriAdoptedVerbatim(listing: ComparableListing, sources: seq<GroundingSource>, k: nat)
    requires !IsHttpUrl(listing.url) || IsMasked(listing.url.value)
    requires BestSource(Tokens(listing.title), sources).Match?
    requires BestSource(Tokens(listing.title), sources).index == k
    requires ChosenId(listing, sources).None?
    ensures ResolvedUrl(listing, sources) == sources[k].uri
  {
  }

  /** With source URIs that are not empty (as the grounding filter guarantees), the URL stays
      empty exactly when there is no unmasked `http` URL, no positively scoring source and no
      identifier in the own URL or the title. */
  lemma UnresolvedIffNoEvidence(listing: ComparableListing, sources: seq<GroundingSource>)
    requires forall k :: 0 <= k < |sources| ==> sources[k].uri != ""
    ensures ResolvedUrl(listing, sources) == "" <==>
      && (!IsHttpUrl(listing.url) || (IsMasked(listing.url.value) && ExtractId(listing.url.value).None?))
      && BestSource(Tokens(listing.title), sources).NoMatch?
      && ExtractId(listing.title).None?
  {
    var e := Gathered(listing, sources);
    if e.foundId.Some? {
      assert |CanonicalUrl(e.foundId.value)| > 0;
    }
    if |sources| == 0 {
      assert BestSource(Tokens(listing.title), sources).NoMatch?;
    }
  }

  /** The worked case without any evidence: empty title, empty URL and no sources. */
  lemma NoEvidenceNoUrl(listing: ComparableListing)
    requires listing.title == "" && (listing.url == None || listing.url == Some(""))
    ensures ResolvedUrl(listing, []) == ""
  {
  }

  /** An already canonical URL survives a second pass without sources, whatever the title. */
  lemma CanonicalUrlIsStable(listing: ComparableListing, id: string)
    requires IsListingId(id) && listing.url == Some(CanonicalUrl(id))
    ensures ResolvedUrl(listing, []) == CanonicalUrl(id)
  {
    CanonicalUrlRoundTrip(id);
    assert CanonicalUrl(id)[..4] == "http";
  }

  /** Resolving a resolved listing again, against the same sources, changes nothing: a
      canonical URL yields its own identifier back, and a URL copied verbatim carried no
      identifier the first time either. */
  lemma ResolveIsIdempotent(listing: ComparableListing, sources: seq<GroundingSource>)
    ensures ResolvedUrl(listing.(url := Some(ResolvedUrl(listing, sources))), sources) == ResolvedUrl(listing, sources)
  {
    var tokens := Tokens(listing.title);
    var e := Gathered(listing, sources);
    var again := listing.(url := Some(FinalUrl(e)));
    assert Tokens(again.title) == tokens;
    if e.foundId.Some? {
      FoundIdIsStable(listing, sources, e.foundId.value);
    } else {
      CopiedUrlIsStable(listing, sources);
    }
  }

  /** Second pass when the first found identifier `id`: the canonical URL gives `id` back,
      and the best source either agrees or has none. */
  lemma FoundIdIsStable(listing: ComparableListing, sources: seq<GroundingSource>, id: string)
    requires Gathered(listing, sources).foundId == Some(id)
    ensures Gathered(listing.(url := Some(CanonicalUrl(id))), sources).foundId == Some(id)
  {
    CanonicalUrlRoundTrip(id);
    assert CanonicalUrl(id)[..4] == "http";
    var tokens := Tokens(listing.title);
    var own := OwnUrlEvidence(Some(CanonicalUrl(id)));
    assert own.foundId == Some(id);
    var first := SourceEvidence(OwnUrlEvidence(listing.url), tokens, sources);
    var second := SourceEvidence(own, tokens, sources);
    if |sources| > 0 && BestSource(tokens, sources).Match? {
      var k := BestSource(tokens, sources).index;
      if ExtractId(sources[k].uri).Some? {
        assert first.foundId == ExtractId(sources[k].uri);
        assert second.foundId == Some(id);
      } else {
        assert second.foundId == Some(id);
      }
    } else {
      assert second == own;
    }
  }

  /** Second pass when the first found no identifier: the URL kept or copied carries none. */
  lemma CopiedUrlIsStable(listing: ComparableListing, sources: seq<GroundingSource>)
    requires Gathered(listing, sources).foundId.None?
    ensures ResolvedUrl(listing.(url := Some(ResolvedUrl(listing, sources))), sources) == ResolvedUrl(listing, sources)
  {
    var tokens := Tokens(listing.title);
    var own1 := OwnUrlEvidence(listing.url);
    var src1 := SourceEvidence(own1, tokens, sources);
    assert Gathered(listing, sources) == TitleEvidence(src1, listing.title);
    assert src1.foundId.None? && ExtractId(listing.title).None?;
    var u := src1.finalUrl;
    assert ResolvedUrl(listing, sources) == u;
    var own2 := OwnUrlEvidence(Some(u));
    var src2 := SourceEvidence(own2, tokens, sources);
    assert Gathered(listing.(url := Some(u)), sources) == TitleEvidence(src2, listing.title);
    if |sources| > 0 && BestSource(tokens, sources).Match? {
      var k := BestSource(tokens, sources).index;
      assert ExtractId(sources[k].uri).None?;
      if own1.finalUrl == "" {
        assert u == sources[k].uri;
        assert own2.foundId.None?;
        assert own2.finalUrl == "" || own2.finalUrl == u;
      } else {
        assert u == own1.finalUrl && own2 == own1;
      }
      assert src2.finalUrl == u && src2.foundId.None?;
    } else {
      assert src1 == own1 && src2 == own2;
      assert u == own1.finalUrl;
      assert own2.finalUrl == u && own2.foundId.None?;
    }
  }
}
