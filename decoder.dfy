/** The response decoder: finding the JSON payload inside the model's text and parsing it,
    with `JSON.parse` taken as an opaque partial function `parse`. */
module Decoder {
  import opened Wrappers
  import opened Text

  const JSON_FENCE_OPEN := "```json\n"
  const JSON_FENCE_CLOSE := "\n```"
  const FENCE := "```"

  /** The two ways decoding fails, one per error the source throws. */
  datatype DecodeError =
    | MalformedFencedJson   // "AI yanıtı okunamadı (JSON hatası)."
    | UnexpectedFormat      // "AI yanıtı beklenen formatta değil."

  /** `open` starts at `p` and `close` starts at `q`, after the end of `open`. */
  predicate IsFenceAt(s: string, open: string, close: string, p: nat, q: nat) {
    OccursAt(s, open, p) && p + |open| <= q && OccursAt(s, close, q)
  }

  /** The capture of the first match, at or after `p`, of `/open([\s\S]*?)close/`:
      start positions are tried left to right and the lazy group stops at the
      first `close` after `open`. */
  function LazyMatchFrom(s: string, open: string, close: string, p: nat): (body: Option<string>)
    requires p <= |s|
    decreases |s| - p
  {
    var next := if p == |s| then None else LazyMatchFrom(s, open, close, p + 1);
    if OccursAt(s, open, p) then
      match IndexFrom(s, close, p + |open|)
      case Some(q) => Some(s[p + |open|..q])
      case None => next
    else next
  }

  /** No `open ... close` pair starts at or after `p`. */
  ghost predicate NoFenceFrom(s: string, open: string, close: string, p: nat) {
    forall p': nat, q: nat :: p <= p' ==> !IsFenceAt(s, open, close, p', q)
  }

  /** `(p', q)` is the pair the regular expression picks among those starting at or after
      `p`: the leftmost start, and for it the nearest `close`. */
  ghost predicate IsFirstFence(s: string, open: string, close: string, p: nat, p': nat, q: nat) {
    && p <= p'
    && IsFenceAt(s, open, close, p', q)
    && (forall r: nat, q': nat :: p <= r < p' ==> !IsFenceAt(s, open, close, r, q'))
    && (forall q': nat :: q' < q ==> !IsFenceAt(s, open, close, p', q'))
  }

  /** The match found is the leftmost one, with the shortest body; there is no match
      exactly when no `open ... close` pair exists. */
  lemma {:induction false} LazyMatchIsLeftmostShortest(s: string, open: string, close: string, p: nat)
    requires p <= |s|
    ensures LazyMatchFrom(s, open, close, p).None? <==> NoFenceFrom(s, open, close, p)
    ensures LazyMatchFrom(s, open, close, p).Some? ==>
      exists p': nat, q: nat :: IsFirstFence(s, open, close, p, p', q)
        && LazyMatchFrom(s, open, close, p).value == s[p' + |open|..q]
    decreases |s| - p
  {
    var here := if OccursAt(s, open, p) then IndexFrom(s, close, p + |open|) else None;
    if here.Some? {
      var q := here.value;
      assert IsFirstFence(s, open, close, p, p, q);
    } else {
      assert forall q: nat :: !IsFenceAt(s, open, close, p, q);
      if p == |s| {
        assert NoFenceFrom(s, open, close, p) by {
          forall p': nat, q: nat | p <= p' ensures !IsFenceAt(s, open, close, p', q) {
            if p' > p {
              assert !OccursAt(s, open, p');
            }
          }
        }
      } else {
        LazyMatchIsLeftmostShortest(s, open, close, p + 1);
        if LazyMatchFrom(s, open, close, p + 1).Some? {
          var p': nat, q: nat :| IsFirstFence(s, open, close, p + 1, p', q)
            && LazyMatchFrom(s, open, close, p + 1).value == s[p' + |open|..q];
          assert IsFirstFence(s, open, close, p, p', q);
        } else {
          assert NoFenceFrom(s, open, close, p);
        }
      }
    }
  }

  /** The first match of `/open([\s\S]*?)close/` in `s`. */
  function LazyMatch(s: string, open: string, close: string): Option<string> {
    LazyMatchFrom(s, open, close, 0)
  }

  /** `jsonMatch[1]`: the body of the first ```` ```json\n ... \n``` ```` block, or, only when
      there is none, the body of the first ```` ``` ... ``` ```` block. */
  function FenceBody(text: string): (body: Option<string>)
    ensures body.Some? ==> exists p: nat, q: nat ::
      || (IsFirstFence(text, JSON_FENCE_OPEN, JSON_FENCE_CLOSE, 0, p, q)
          && body.value == text[p + |JSON_FENCE_OPEN|..q])
      || (NoFenceFrom(text, JSON_FENCE_OPEN, JSON_FENCE_CLOSE, 0)
          && IsFirstFence(text, FENCE, FENCE, 0, p, q)
          && body.value == text[p + |FENCE|..q])
    ensures body.None? ==>
      NoFenceFrom(text, JSON_FENCE_OPEN, JSON_FENCE_CLOSE, 0) && NoFenceFrom(text, FENCE, FENCE, 0)
  {
    LazyMatchIsLeftmostShortest(text, JSON_FENCE_OPEN, JSON_FENCE_CLOSE, 0);
    LazyMatchIsLeftmostShortest(text, FENCE, FENCE, 0);
    match LazyMatch(text, JSON_FENCE_OPEN, JSON_FENCE_CLOSE)
    case Some(b) => Some(b)
    case None => LazyMatch(text, FENCE, FENCE)
  }

  /** The parse-or-fail decision: a non-empty fence body is parsed and its failure is final;
      otherwise the whole text is parsed. */
  function Decode<J>(text: string, parse: string -> Option<J>): (r: Result<J, DecodeError>)
    ensures r.Success? ==> parse(text) == Some(r.value) || (FenceBody(text).Some? && parse(FenceBody(text).value) == Some(r.value))
  {
    var body := FenceBody(text);
    if body.Some? && body.value != "" then
      match parse(body.value)
      case Some(j) => Success(j)
      case None => Failure(MalformedFencedJson)
    else
      match parse(text)
      case Some(j) => Success(j)
      case None => Failure(UnexpectedFormat)
  }

  /** A tagged JSON block wins over any untagged block, even one that comes earlier. */
  lemma TaggedFenceFirst(text: string, p: nat, q: nat)
    requires IsFenceAt(text, JSON_FENCE_OPEN, JSON_FENCE_CLOSE, p, q)
    ensures FenceBody(text) == LazyMatch(text, JSON_FENCE_OPEN, JSON_FENCE_CLOSE)
    ensures FenceBody(text).Some?
  {
    LazyMatchIsLeftmostShortest(text, JSON_FENCE_OPEN, JSON_FENCE_CLOSE, 0);
  }

  /** A non-empty block decides the outcome alone: its parse is the result, and its failure
      is an error, whatever parsing the whole text would give. */
  lemma NonEmptyBodyDecides<J>(text: string, parse: string -> Option<J>)
    requires FenceBody(text).Some? && FenceBody(text).value != ""
    ensures Decode(text, parse) ==
      (if parse(FenceBody(text).value).Some? then Success(parse(FenceBody(text).value).value)
       else Failure(MalformedFencedJson))
  {
  }

  /** A non-empty block that does not parse is an error, whatever parsing the whole text would give. */
  lemma MalformedFenceHasNoFallback<J>(text: string, parse: string -> Option<J>)
    requires FenceBody(text).Some? && FenceBody(text).value != ""
    requires parse(FenceBody(text).value).None?
    ensures Decode(text, parse) == Failure(MalformedFencedJson)
  {
  }

  /** The whole text is parsed only when no block matched or the captured body is empty;
      then the result is that of parsing the whole text. */
  lemma WholeTextParsedOnlyWithoutBody<J>(text: string, parse: string -> Option<J>)
    ensures (FenceBody(text).None? || FenceBody(text) == Some("")) ==>
      Decode(text, parse) == (if parse(text).Some? then Success(parse(text).value) else Failure(UnexpectedFormat))
    ensures Decode(text, parse) == Failure(UnexpectedFormat) ==>
      (FenceBody(text).None? || FenceBody(text) == Some("")) && parse(text).None?
    ensures Decode(text, parse) == Failure(MalformedFencedJson) ==>
      FenceBody(text).Some? && FenceBody(text).value != "" && parse(FenceBody(text).value).None?
  {
  }

  /** A text without any backtick has no block, so it decodes exactly as `JSON.parse(text)`. */
  lemma {:induction false} NoBacktickMeansWholeText<J>(text: string, parse: string -> Option<J>)
    requires '`' !in text
    ensures FenceBody(text) == None
    ensures Decode(text, parse) == (if parse(text).Some? then Success(parse(text).value) else Failure(UnexpectedFormat))
  {
    LazyMatchIsLeftmostShortest(text, JSON_FENCE_OPEN, JSON_FENCE_CLOSE, 0);
    LazyMatchIsLeftmostShortest(text, FENCE, FENCE, 0);
    forall p: nat ensures !OccursAt(text, JSON_FENCE_OPEN, p) && !OccursAt(text, FENCE, p) {
      NoBacktickNoFence(text, JSON_FENCE_OPEN, p);
      NoBacktickNoFence(text, FENCE, p);
    }
    assert NoFenceFrom(text, JSON_FENCE_OPEN, JSON_FENCE_CLOSE, 0);
    assert NoFenceFrom(text, FENCE, FENCE, 0);
  }

  /** A pattern that starts with a backtick occurs nowhere in a text without backticks. */
  lemma NoBacktickNoFence(text: string, pat: string, p: nat)
    requires '`' !in text
    requires |pat| > 0 && pat[0] == '`'
    ensures !OccursAt(text, pat, p)
  {
    if p + |pat| <= |text| {
      assert text[p] == text[p..p + |pat|][0];
      assert text[p] in text;
    }
  }

  /** A pair with no `open` before it and no `close` between is the one the regular expression picks. */
  lemma FirstFenceFound(s: string, open: string, close: string, p: nat, q: nat)
    requires IsFenceAt(s, open, close, p, q)
    requires forall r: nat :: r < p ==> !OccursAt(s, open, r)
    requires forall r: nat :: p + |open| <= r < q ==> !OccursAt(s, close, r)
    ensures LazyMatch(s, open, close) == Some(s[p + |open|..q])
  {
    LazyMatchIsLeftmostShortest(s, open, close, 0);
    var p': nat, q': nat :| IsFirstFence(s, open, close, 0, p', q')
        && LazyMatch(s, open, close).value == s[p' + |open|..q'];
    assert p' == p;
    assert q' == q;
  }

  /** The text of a tagged block between `pre` and `post`. */
  function TaggedBlock(pre: string, body: string, post: string): string {
    pre + JSON_FENCE_OPEN + body + JSON_FENCE_CLOSE + post
  }

  /** The block's own delimiters are where they were put. */
  lemma TaggedBlockDelimiters(pre: string, body: string, post: string)
    ensures IsFenceAt(TaggedBlock(pre, body, post), JSON_FENCE_OPEN, JSON_FENCE_CLOSE, |pre|, |pre| + |JSON_FENCE_OPEN| + |body|)
    ensures TaggedBlock(pre, body, post)[|pre| + |JSON_FENCE_OPEN|..|pre| + |JSON_FENCE_OPEN| + |body|] == body
  {
    var text := TaggedBlock(pre, body, post);
    var p, q := |pre|, |pre| + |JSON_FENCE_OPEN| + |body|;
    assert text[p..p + |JSON_FENCE_OPEN|] == JSON_FENCE_OPEN;
    assert text[p + |JSON_FENCE_OPEN|..q] == body;
    assert text[q..q + |JSON_FENCE_CLOSE|] == JSON_FENCE_CLOSE;
  }

  /** No block opens inside a prefix without backticks. */
  lemma NoOpenInPlainPrefix(pre: string, body: string, post: string, r: nat)
    requires '`' !in pre && r < |pre|
    ensures !OccursAt(TaggedBlock(pre, body, post), JSON_FENCE_OPEN, r)
  {
    var text := TaggedBlock(pre, body, post);
    assert text[r] == pre[r];
    assert JSON_FENCE_OPEN[0] == '`';
    assert r + |JSON_FENCE_OPEN| <= |text| ==> text[r..r + |JSON_FENCE_OPEN|][0] == text[r];
  }

  /** No closing starts inside a body without backticks. */
  lemma NoCloseInPlainBody(pre: string, body: string, post: string, r: nat)
    requires '`' !in body && |pre| + |JSON_FENCE_OPEN| <= r < |pre| + |JSON_FENCE_OPEN| + |body|
    ensures !OccursAt(TaggedBlock(pre, body, post), JSON_FENCE_CLOSE, r)
  {
    var text := TaggedBlock(pre, body, post);
    var q := |pre| + |JSON_FENCE_OPEN| + |body|;
    assert r + 1 < q ==> text[r + 1] == body[r + 1 - |pre| - |JSON_FENCE_OPEN|];
    assert text[q] == '\n';
    assert JSON_FENCE_CLOSE[1] == '`';
    assert r + |JSON_FENCE_CLOSE| <= |text| ==> text[r..r + |JSON_FENCE_CLOSE|][1] == text[r + 1];
  }

  /** A tagged block preceded by text without backticks and holding a body without
      backticks yields exactly that body. */
  lemma TaggedBlockBody(pre: string, body: string, post: string)
    requires '`' !in pre && '`' !in body
    ensures FenceBody(TaggedBlock(pre, body, post)) == Some(body)
  {
    var text := TaggedBlock(pre, body, post);
    var p, q := |pre|, |pre| + |JSON_FENCE_OPEN| + |body|;
    TaggedBlockDelimiters(pre, body, post);
    forall r: nat | r < p ensures !OccursAt(text, JSON_FENCE_OPEN, r) {
      NoOpenInPlainPrefix(pre, body, post, r);
    }
    forall r: nat | p + |JSON_FENCE_OPEN| <= r < q ensures !OccursAt(text, JSON_FENCE_CLOSE, r) {
      NoCloseInPlainBody(pre, body, post, r);
    }
    FirstFenceFound(text, JSON_FENCE_OPEN, JSON_FENCE_CLOSE, p, q);
  }

  /** The worked case: `"prefix ```json\n{\"a\":1}\n``` suffix"` yields the parse of `{"a":1}`. */
  lemma TaggedExample<J>(parse: string -> Option<J>)
    ensures Decode("prefix ```json\n{\"a\":1}\n``` suffix", parse) ==
      (if parse("{\"a\":1}").Some? then Success(parse("{\"a\":1}").value) else Failure(MalformedFencedJson))
  {
    var text := "prefix ```json\n{\"a\":1}\n``` suffix";
    assert text == TaggedBlock("prefix ", "{\"a\":1}", " suffix");
    TaggedBlockBody("prefix ", "{\"a\":1}", " suffix");
  }
}
