/** Listing identifiers: the regular expression `/\b(\d{9,10})\b/` of `analyzeVehicle`
    and the canonical detail-page URL an identifier is turned into. */
module ListingId {
  import opened Wrappers

  /** `\d`: an ASCII decimal digit. */
  predicate IsDigit(c: char) {
    '0' <= c <= '9'
  }

  /** `\w`, the characters `\b` separates from the others: `[A-Za-z0-9_]`. */
  predicate IsWordChar(c: char) {
    'a' <= c <= 'z' || 'A' <= c <= 'Z' || IsDigit(c) || c == '_'
  }

  /** `\b` at position `i`: exactly one of the characters around `i` is a word character. */
  predicate IsWordBoundary(s: string, i: nat)
    requires i <= |s|
  {
    (0 < i && IsWordChar(s[i - 1])) != (i < |s| && IsWordChar(s[i]))
  }

  /** `s[i..i + n]` exists and is all digits. */
  predicate DigitsAt(s: string, i: nat, n: nat) {
    i + n <= |s| && forall k :: i <= k < i + n ==> IsDigit(s[k])
  }

  /** A listing identifier: 9 or 10 digits. */
  predicate IsListingId(id: string) {
    9 <= |id| <= 10 && forall k :: 0 <= k < |id| ==> IsDigit(id[k])
  }

  /** Declarative reading of the pattern: `s[i..i + n]` is a run of 9 or 10 digits
      with no word character (letter, digit, underscore) immediately on either side. */
  predicate IsIdAt(s: string, i: nat, n: nat) {
    && 9 <= n <= 10
    && DigitsAt(s, i, n)
    && (i == 0 || !IsWordChar(s[i - 1]))
    && (i + n == |s| || !IsWordChar(s[i + n]))
  }

  /** The pattern tried at position `i` the way the regular expression engine does it:
      `\b`, then `\d{9,10}` greedily (ten digits first, then nine), then `\b`.
      The result is the length of the capture. */
  function MatchLength(s: string, i: nat): (r: Option<nat>)
    requires i <= |s|
    ensures r.Some? ==> IsIdAt(s, i, r.value)
    ensures r.None? ==> forall n :: !IsIdAt(s, i, n)
  {
    if !IsWordBoundary(s, i) then None
    else if DigitsAt(s, i, 10) && IsWordBoundary(s, i + 10) then Some(10)
    else if DigitsAt(s, i, 9) && IsWordBoundary(s, i + 9) then Some(9)
    else None
  }

  /** The first match of the pattern starting at or after `i`. */
  function ExtractIdFrom(s: string, i: nat): (r: Option<string>)
    requires i <= |s|
    ensures r.Some? ==> IsListingId(r.value)
    decreases |s| - i
  {
    match MatchLength(s, i)
    case Some(n) => Some(s[i..i + n])
    case None => if i == |s| then None else ExtractIdFrom(s, i + 1)
  }

  /** `s.match(idRegex)?.[1]`: the captured identifier of the first match, if any. */
  function ExtractId(s: string): (r: Option<string>)
    ensures r.Some? ==> IsListingId(r.value)
  {
    ExtractIdFrom(s, 0)
  }

  /** The identifier at `i` is the leftmost one in `s`. */
  ghost predicate IsFirstIdAt(s: string, i: nat, n: nat) {
    IsIdAt(s, i, n) && forall j: nat, m: nat :: j < i ==> !IsIdAt(s, j, m)
  }

  /** Scanning from `i` finds the leftmost identifier at or after `i`, and finds nothing
      exactly when there is none. */
  lemma {:induction false} ExtractIdFromIsLeftmost(s: string, i: nat)
    requires i <= |s|
    ensures ExtractIdFrom(s, i).None? <==> forall p: nat, n: nat :: i <= p ==> !IsIdAt(s, p, n)
    ensures ExtractIdFrom(s, i).Some? ==>
      exists p: nat, n: nat :: i <= p && IsIdAt(s, p, n) && ExtractIdFrom(s, i).value == s[p..p + n]
        && forall q: nat, m: nat :: i <= q < p ==> !IsIdAt(s, q, m)
    decreases |s| - i
  {
    match MatchLength(s, i)
    case Some(n) =>
      assert IsIdAt(s, i, n);
    case None =>
      if i == |s| {
        forall p: nat, n: nat | i <= p ensures !IsIdAt(s, p, n) {
          if p == i {
          }
        }
      } else {
        ExtractIdFromIsLeftmost(s, i + 1);
        if ExtractIdFrom(s, i + 1).Some? {
          var p: nat, n: nat :| i + 1 <= p && IsIdAt(s, p, n) && ExtractIdFrom(s, i + 1).value == s[p..p + n]
            && forall q: nat, m: nat :: i + 1 <= q < p ==> !IsIdAt(s, q, m);
          assert forall q: nat, m: nat :: i <= q < p ==> !IsIdAt(s, q, m);
        }
      }
  }

  /** `ExtractId` returns the leftmost identifier in `s`, and nothing exactly when `s` has none. */
  lemma ExtractIdIsLeftmost(s: string)
    ensures ExtractId(s).None? <==> forall p: nat, n: nat :: !IsIdAt(s, p, n)
    ensures ExtractId(s).Some? ==>
      exists p: nat, n: nat :: IsFirstIdAt(s, p, n) && ExtractId(s).value == s[p..p + n]
  {
    ExtractIdFromIsLeftmost(s, 0);
    if ExtractId(s).Some? {
      var p: nat, n: nat :| IsIdAt(s, p, n) && ExtractId(s).value == s[p..p + n]
        && forall q: nat, m: nat :: 0 <= q < p ==> !IsIdAt(s, q, m);
      assert IsFirstIdAt(s, p, n);
    }
  }

  /** No identifier starts inside a run of eleven or more digits, wherever the run is: a
      start after the run's first digit follows a digit, and a start at the first digit is
      followed by a digit after at most ten. */
  lemma LongDigitRunHasNoId(s: string, i: nat, m: nat)
    requires m >= 11 && DigitsAt(s, i, m)
    ensures forall p: nat, n: nat :: i <= p < i + m ==> !IsIdAt(s, p, n)
  {
    forall p: nat, n: nat | i <= p < i + m ensures !IsIdAt(s, p, n) {
      if p == i {
        if n <= 10 {
          assert IsDigit(s[i + n]);
        }
      } else {
        assert IsDigit(s[p - 1]);
      }
    }
  }

  /** A string of eleven or more digits holds no identifier at all. */
  lemma AllDigitsHasNoId(s: string)
    requires |s| >= 11
    requires forall k :: 0 <= k < |s| ==> IsDigit(s[k])
    ensures ExtractId(s) == None
  {
    LongDigitRunHasNoId(s, 0, |s|);
    forall p: nat, n: nat ensures !IsIdAt(s, p, n) {
      if p < |s| {
        assert 0 <= p < 0 + |s|;
      }
    }
    ExtractIdIsLeftmost(s);
  }

  /** A run of digits cannot start at a character that is not a digit. */
  lemma NonDigitStartsNoMatch(s: string, i: nat)
    requires i < |s| && !IsDigit(s[i])
    ensures MatchLength(s, i).None?
  {
    forall n: nat | 1 <= n ensures !DigitsAt(s, i, n) {
      assert i <= i < i + n;
    }
  }

  /** Characters that are not digits cannot start a match, so scanning skips them. */
  lemma {:induction false} SkipNonDigits(s: string, i: nat, j: nat)
    requires i <= j <= |s|
    requires forall k :: i <= k < j ==> !IsDigit(s[k])
    ensures ExtractIdFrom(s, i) == ExtractIdFrom(s, j)
    decreases j - i
  {
    if i < j {
      NonDigitStartsNoMatch(s, i);
      SkipNonDigits(s, i + 1, j);
    }
  }

  const CANONICAL_PREFIX := "https://www.sahibinden.com/ilan/"
  const CANONICAL_SUFFIX := "/detay"

  /** The canonical detail-page URL of a listing identifier. */
  function CanonicalUrl(id: string): (url: string)
    ensures |url| == |CANONICAL_PREFIX| + |id| + |CANONICAL_SUFFIX|
    ensures url[..4] == "http"
  {
    CANONICAL_PREFIX + id + CANONICAL_SUFFIX
  }

  /** The identifier extracted from a canonical URL is the one it was built from. */
  lemma CanonicalUrlRoundTrip(id: string)
    requires IsListingId(id)
    ensures ExtractId(CanonicalUrl(id)) == Some(id)
  {
    var u := CanonicalUrl(id);
    var p := |CANONICAL_PREFIX|;
    assert forall k :: 0 <= k < p ==> u[k] == CANONICAL_PREFIX[k];
    assert forall k :: 0 <= k < p ==> !IsDigit(CANONICAL_PREFIX[k]);
    SkipNonDigits(u, 0, p);
    assert u[p..p + |id|] == id;
    assert u[p - 1] == '/';
    assert u[p + |id|] == '/';
    assert IsIdAt(u, p, |id|);
  }
}
