/** Grounding sources: the `filter`/`map` pipeline over the response's grounding chunks. */
module Grounding {
  import opened Wrappers
  import opened Types

  /** The `web` member of a grounding chunk; either field may be missing. */
  datatype WebInfo = WebInfo(uri: Option<string>, title: Option<string>)

  /** A grounding chunk, which may carry no `web` member at all. */
  datatype GroundingChunk = GroundingChunk(web: Option<WebInfo>)

  /** JavaScript truthiness of an optional string: present and not empty. */
  predicate Truthy(s: Option<string>) {
    s.Some? && s.value != ""
  }

  /** The filter `chunk.web?.uri && chunk.web?.title`. */
  predicate IsUsable(c: GroundingChunk)
    ensures IsUsable(c) ==> c.web.Some? && c.web.value.uri.Some? && c.web.value.title.Some?
  {
    c.web.Some? && Truthy(c.web.value.uri) && Truthy(c.web.value.title)
  }

  /** The map `({ title: chunk.web.title, uri: chunk.web.uri })`. */
  function ToSource(c: GroundingChunk): (source: GroundingSource)
    requires IsUsable(c)
    ensures source.title != "" && source.uri != ""
    ensures Some(source.title) == c.web.value.title && Some(source.uri) == c.web.value.uri
  {
    GroundingSource(c.web.value.title.value, c.web.value.uri.value)
  }

  /** The grounding sources built from the chunks. */
  function FilterSources(chunks: seq<GroundingChunk>): (sources: seq<GroundingSource>)
    ensures |sources| <= |chunks|
    ensures forall k :: 0 <= k < |sources| ==> sources[k].title != "" && sources[k].uri != ""
    decreases |chunks|
  {
    if chunks == [] then []
    else (if IsUsable(chunks[0]) then [ToSource(chunks[0])] else []) + FilterSources(chunks[1..])
  }

  /** Filtering keeps the original order: it distributes over concatenation. */
  lemma {:induction false} FilterSourcesAppend(a: seq<GroundingChunk>, b: seq<GroundingChunk>)
    ensures FilterSources(a + b) == FilterSources(a) + FilterSources(b)
    decreases |a|
  {
    if a == [] {
      assert a + b == b;
    } else {
      assert (a + b)[0] == a[0];
      assert (a + b)[1..] == a[1..] + b;
      FilterSourcesAppend(a[1..], b);
    }
  }

  /** A source is kept exactly when some usable chunk produces it. */
  lemma {:induction false} FilterSourcesMembership(chunks: seq<GroundingChunk>, s: GroundingSource)
    ensures s in FilterSources(chunks) <==>
      exists i :: 0 <= i < |chunks| && IsUsable(chunks[i]) && ToSource(chunks[i]) == s
    decreases |chunks|
  {
    if chunks != [] {
      FilterSourcesMembership(chunks[1..], s);
      if s in FilterSources(chunks[1..]) {
        var i :| 0 <= i < |chunks[1..]| && IsUsable(chunks[1..][i]) && ToSource(chunks[1..][i]) == s;
        assert chunks[i + 1] == chunks[1..][i];
      }
      if exists i :: 0 <= i < |chunks| && IsUsable(chunks[i]) && ToSource(chunks[i]) == s {
        var i :| 0 <= i < |chunks| && IsUsable(chunks[i]) && ToSource(chunks[i]) == s;
        if i > 0 {
          assert chunks[1..][i - 1] == chunks[i];
        }
      }
    }
  }

  /** When every chunk is usable, each one becomes a source, index for index. */
  lemma {:induction false} FilterSourcesKeepsUsable(chunks: seq<GroundingChunk>)
    requires forall k :: 0 <= k < |chunks| ==> IsUsable(chunks[k])
    ensures |FilterSources(chunks)| == |chunks|
    ensures forall k :: 0 <= k < |chunks| ==> FilterSources(chunks)[k] == ToSource(chunks[k])
    decreases |chunks|
  {
    if chunks != [] {
      FilterSourcesKeepsUsable(chunks[1..]);
      forall k | 0 <= k < |chunks| ensures FilterSources(chunks)[k] == ToSource(chunks[k]) {
        if k > 0 {
          assert chunks[1..][k - 1] == chunks[k];
        }
      }
    }
  }
}
