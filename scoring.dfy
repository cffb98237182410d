/** Source matching: the token-overlap score of a grounding source against a listing
    title, and the choice of the best source. */
module Scoring {
  import opened Wrappers
  import opened Text
  import opened Types

  const LISTING_PATH_MARKER := "sahibinden.com/ilan"
  const MARKETPLACE_MARKER := "sahibinden"
  const LISTING_PATH_BONUS := 20
  const MARKETPLACE_BONUS := 5

  /** `.filter(w => w.length > 3)`: the words longer than three characters, in order. */
  function LongWords(ws: seq<string>): (r: seq<string>)
    ensures |r| <= |ws|
    ensures forall k :: 0 <= k < |r| ==> |r[k]| > 3 && r[k] in ws
    decreases |ws|
  {
    if ws == [] then []
    else (if |ws[0]| > 3 then [ws[0]] else []) + LongWords(ws[1..])
  }

  /** Every long word is kept as often as it occurs, and nothing else is kept. */
  lemma {:induction false} LongWordsCount(ws: seq<string>, w: string)
    ensures multiset(LongWords(ws))[w] == if |w| > 3 then multiset(ws)[w] else 0
    decreases |ws|
  {
    if ws != [] {
      LongWordsCount(ws[1..], w);
      assert ws == [ws[0]] + ws[1..];
      assert multiset(ws) == multiset([ws[0]]) + multiset(ws[1..]);
    }
  }

  /** `listing.title.toLowerCase().split(' ').filter(w => w.length > 3)`. */
  function Tokens(title: string): (tokens: seq<string>)
    ensures forall k :: 0 <= k < |tokens| ==> |tokens[k]| > 3 && ' ' !in tokens[k]
  {
    SplitOmitsSeparator(ToLower(title), ' ');
    LongWords(Split(ToLower(title), ' '))
  }

  /** A token is a lower-cased piece of the title between single spaces, longer than three
      characters; each such piece is a token as many times as it occurs. */
  lemma TokensAreLongPieces(title: string, w: string)
    ensures multiset(Tokens(title))[w] == if |w| > 3 then multiset(Split(ToLower(title), ' '))[w] else 0
    ensures w in Tokens(title) ==> |w| > 3 && ' ' !in w
  {
    var pieces := Split(ToLower(title), ' ');
    LongWordsCount(pieces, w);
    SplitOmitsSeparator(ToLower(title), ' ');
    if w in Tokens(title) {
      assert multiset(Tokens(title))[w] > 0;
      assert w in multiset(pieces);
    }
  }

  /** `listingWords.forEach(word => { if (sourceTitle.includes(word)) score++; })`:
      how many tokens (counted with repetition) occur in `text`. */
  function Overlap(tokens: seq<string>, text: string): (n: nat)
    ensures n <= |tokens|
    decreases |tokens|
  {
    if tokens == [] then 0
    else Overlap(tokens[..|tokens| - 1], text) + (if Contains(text, tokens[|tokens| - 1]) then 1 else 0)
  }

  /** The overlap of a concatenation is the sum of the overlaps: every occurrence of a token counts. */
  lemma {:induction false} OverlapAppend(a: seq<string>, b: seq<string>, text: string)
    ensures Overlap(a + b, text) == Overlap(a, text) + Overlap(b, text)
    decreases |b|
  {
    if b == [] {
      assert a + b == a;
    } else {
      assert (a + b)[..|a + b| - 1] == a + b[..|b| - 1];
      assert (a + b)[|a + b| - 1] == b[|b| - 1];
      OverlapAppend(a, b[..|b| - 1], text);
    }
  }

  /** Overlap is all the tokens when each occurs in `text`, and none when none does. */
  lemma {:induction false} OverlapExtremes(tokens: seq<string>, text: string)
    ensures (forall k :: 0 <= k < |tokens| ==> Contains(text, tokens[k])) ==> Overlap(tokens, text) == |tokens|
    ensures (forall k :: 0 <= k < |tokens| ==> !Contains(text, tokens[k])) ==> Overlap(tokens, text) == 0
    decreases |tokens|
  {
    if tokens != [] {
      var init := tokens[..|tokens| - 1];
      OverlapExtremes(init, text);
      assert forall k :: 0 <= k < |init| ==> init[k] == tokens[k];
    }
  }

  /** The domain bonus: 20 for the listing path, else 5 for the marketplace domain, else 0. */
  function DomainBonus(uri: string): (bonus: nat)
    ensures bonus == 0 || bonus == MARKETPLACE_BONUS || bonus == LISTING_PATH_BONUS
  {
    var lower := ToLower(uri);
    if Contains(lower, LISTING_PATH_MARKER) then LISTING_PATH_BONUS
    else if Contains(lower, MARKETPLACE_MARKER) then MARKETPLACE_BONUS
    else 0
  }

  /** No bonus exactly when the lower-cased URI does not mention the marketplace at all:
      the listing path contains the marketplace's name. */
  lemma DomainBonusZeroIff(uri: string)
    ensures DomainBonus(uri) == 0 <==> !Contains(ToLower(uri), MARKETPLACE_MARKER)
    ensures DomainBonus(uri) <= MARKETPLACE_BONUS <==> !Contains(ToLower(uri), LISTING_PATH_MARKER)
  {
    if Contains(ToLower(uri), LISTING_PATH_MARKER) {
      assert LISTING_PATH_MARKER[..10] == MARKETPLACE_MARKER;
      assert OccursAt(LISTING_PATH_MARKER, MARKETPLACE_MARKER, 0);
      ContainsThrough(ToLower(uri), LISTING_PATH_MARKER, MARKETPLACE_MARKER, 0);
    }
  }

  /** The score of a source against the listing's tokens: the overlap plus the domain bonus. */
  function Score(tokens: seq<string>, source: GroundingSource): (score: nat)
    ensures DomainBonus(source.uri) <= score <= DomainBonus(source.uri) + |tokens|
  {
    Overlap(tokens, ToLower(source.title)) + DomainBonus(source.uri)
  }

  /** The outcome of the scan: no source scored above 0, or the index and score of the winner. */
  datatype Choice = NoMatch | Match(index: nat, score: nat)

  /** `maxScore` after the scan. */
  function TopScore(c: Choice): nat {
    if c.Match? then c.score else 0
  }

  /** The scan of the scoring loop over a sequence of scores: the last score replaces the
      current winner only when it is strictly greater (`maxScore` starts at 0). */
  function FirstMax(scores: seq<nat>): (c: Choice)
    ensures c.Match? ==> c.index < |scores| && c.score == scores[c.index] && c.score > 0
    decreases |scores|
  {
    if scores == [] then NoMatch
    else
      var last := |scores| - 1;
      var prev := FirstMax(scores[..last]);
      if scores[last] > TopScore(prev) then Match(last, scores[last]) else prev
  }

  /** `scores[k]` is positive, strictly greater than every earlier score and at least every later one. */
  ghost predicate IsFirstMaximum(scores: seq<nat>, k: nat) {
    && k < |scores|
    && scores[k] > 0
    && (forall j :: 0 <= j < k ==> scores[j] < scores[k])
    && (forall j :: k < j < |scores| ==> scores[j] <= scores[k])
  }

  /** The scan picks the first maximal positive score, and picks none exactly when every score is 0. */
  lemma {:induction false} FirstMaxIsFirstMaximum(scores: seq<nat>)
    ensures FirstMax(scores).NoMatch? <==> forall j :: 0 <= j < |scores| ==> scores[j] == 0
    ensures FirstMax(scores).Match? ==> IsFirstMaximum(scores, FirstMax(scores).index)
    decreases |scores|
  {
    if scores != [] {
      var last := |scores| - 1;
      var init := scores[..last];
      FirstMaxIsFirstMaximum(init);
      assert forall j :: 0 <= j < last ==> init[j] == scores[j];
    }
  }

  /** Conversely, the first maximum is the one the scan picks. */
  lemma FirstMaximumIsChosen(scores: seq<nat>, k: nat)
    requires IsFirstMaximum(scores, k)
    ensures FirstMax(scores) == Match(k, scores[k])
  {
    FirstMaxIsFirstMaximum(scores);
  }

  /** The score of every source, in order. */
  function Scores(tokens: seq<string>, sources: seq<GroundingSource>): (scores: seq<nat>)
    ensures |scores| == |sources|
    ensures forall j :: 0 <= j < |sources| ==> scores[j] == Score(tokens, sources[j])
  {
    seq(|sources|, j requires 0 <= j < |sources| => Score(tokens, sources[j]))
  }

  /** The source the scan picks for the listing's tokens. */
  function BestSource(tokens: seq<string>, sources: seq<GroundingSource>): (c: Choice)
    ensures c.Match? ==> c.index < |sources| && c.score == Score(tokens, sources[c.index]) && c.score > 0
  {
    FirstMax(Scores(tokens, sources))
  }

  /** The best source is the first one of maximal positive score; there is none exactly when
      every source scores 0. Ties keep the earlier source. */
  lemma BestSourceIsFirstMaximum(tokens: seq<string>, sources: seq<GroundingSource>)
    ensures BestSource(tokens, sources).NoMatch? <==> forall j :: 0 <= j < |sources| ==> Score(tokens, sources[j]) == 0
    ensures BestSource(tokens, sources).Match? ==>
      var k := BestSource(tokens, sources).index;
      && (forall j :: 0 <= j < k ==> Score(tokens, sources[j]) < Score(tokens, sources[k]))
      && (forall j :: k < j < |sources| ==> Score(tokens, sources[j]) <= Score(tokens, sources[k]))
  {
    FirstMaxIsFirstMaximum(Scores(tokens, sources));
  }

  /** With fewer than 15 tokens, a source whose URI holds the listing path beats every source
      whose URI does not: its bonus alone exceeds any other score. */
  lemma ListingPathDominates(tokens: seq<string>, sources: seq<GroundingSource>, a: nat)
    requires |tokens| < 15
    requires a < |sources| && Contains(ToLower(sources[a].uri), LISTING_PATH_MARKER)
    requires forall j :: 0 <= j < |sources| && j != a ==> !Contains(ToLower(sources[j].uri), LISTING_PATH_MARKER)
    ensures BestSource(tokens, sources) == Match(a, Score(tokens, sources[a]))
  {
    var scores := Scores(tokens, sources);
    assert scores[a] >= LISTING_PATH_BONUS;
    forall j | 0 <= j < |sources| && j != a ensures scores[j] < scores[a] {
      DomainBonusZeroIff(sources[j].uri);
    }
    FirstMaximumIsChosen(scores, a);
  }

  /** The body of the scoring loop for one source. */
  method ScoreSource(words: seq<string>, source: GroundingSource) returns (score: nat)
    ensures score == Score(words, source)
  {
    score := 0;
    var sourceTitle := ToLower(source.title);
    var sourceUri := ToLower(source.uri);
    for k := 0 to |words|
      invariant score == Overlap(words[..k], sourceTitle)
    {
      assert words[..k + 1][..k] == words[..k];
      if Contains(sourceTitle, words[k]) {
        score := score + 1;
      }
    }
    assert words[..|words|] == words;
    if Contains(sourceUri, LISTING_PATH_MARKER) {
      score := score + LISTING_PATH_BONUS;
    } else if Contains(sourceUri, MARKETPLACE_MARKER) {
      score := score + MARKETPLACE_BONUS;
    }
  }

  /** The scoring loop, with `bestMatch` and `maxScore` as results. */
  method ScanSources(words: seq<string>, sources: seq<GroundingSource>)
    returns (bestMatch: Option<GroundingSource>, maxScore: nat)
    ensures maxScore == TopScore(BestSource(words, sources))
    ensures bestMatch == match BestSource(words, sources)
      case NoMatch => None
      case Match(k, _) => Some(sources[k])
  {
    ghost var scores := Scores(words, sources);
    bestMatch, maxScore := None, 0;
    for i := 0 to |sources|
      invariant maxScore == TopScore(FirstMax(scores[..i]))
      invariant bestMatch == match FirstMax(scores[..i])
        case NoMatch => None
        case Match(k, _) => Some(sources[k])
    {
      var source := sources[i];
      var score := ScoreSource(words, source);
      assert scores[..i + 1][..i] == scores[..i];
      if score > maxScore {
        maxScore := score;
        bestMatch := Some(source);
      }
    }
    assert scores[..|sources|] == scores;
  }
}
