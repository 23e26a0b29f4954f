/** Identifier resolution (`Get_Aid_From_BVid`): a numeric code is the id
    itself; any other code is looked up, and the id is the digit run of the
    first `"aid":<digits>,` in the lookup's response body. The HTTP request is
    not modelled: the response body is a parameter. */
module Resolver {
  import opened Optional
  import opened Digits

  /** The literal text `"aid":` that opens a match of the pattern. */
  const AidKey: string := "\"aid\":"

  /** Length of the run of ASCII digits at the start of `s`. */
  function LeadingDigits(s: string): (n: nat)
    ensures n <= |s|
    ensures AllDigits(s[..n])
    ensures n < |s| ==> !IsDigit(s[n])
  {
    if |s| > 0 && IsDigit(s[0]) then
      var n := 1 + LeadingDigits(s[1..]);
      assert s[..n] == [s[0]] + s[1..][..n - 1];
      n
    else 0
  }

  /** The pattern `"aid":(\d+),` matches at position `p` of `body`: the key,
      then a non-empty maximal run of digits, then a comma. Since `\d+` is
      greedy and a comma is not a digit, backtracking never yields a shorter
      run that could be followed by the comma. */
  predicate MatchAt(body: string, p: nat) {
    && p + |AidKey| <= |body|
    && body[p..p + |AidKey|] == AidKey
    && var rest := body[p + |AidKey|..];
       var d := LeadingDigits(rest);
       0 < d < |rest| && rest[d] == ','
  }

  /** The captured digit run of the match at `p`, as a number. */
  function AidAt(body: string, p: nat): nat
    requires MatchAt(body, p)
  {
    var rest := body[p + |AidKey|..];
    Value(rest[..LeadingDigits(rest)])
  }

  /** The leftmost match at or after `from`, which is where `re.findall`
      puts its first result. */
  function FirstMatch(body: string, from: nat): (r: Option<nat>)
    decreases |body| - from
    ensures r.Some? ==> from <= r.value && MatchAt(body, r.value)
    ensures r.Some? ==> forall q :: from <= q < r.value ==> !MatchAt(body, q)
    ensures r.None? ==> forall q :: from <= q ==> !MatchAt(body, q)
  {
    if from >= |body| then None
    else if MatchAt(body, from) then Some(from)
    else FirstMatch(body, from + 1)
  }

  /** `re.findall(r'"aid":(\d+),', body)[0]`: the id from the first match, or
      None where the source raises IndexError because nothing matched. */
  function ExtractAid(body: string): (r: Option<nat>)
    ensures r.Some? <==> exists p :: MatchAt(body, p)
    ensures r.Some? ==> exists p :: && MatchAt(body, p)
                                    && (forall q :: q < p ==> !MatchAt(body, q))
                                    && r.value == AidAt(body, p)
  {
    match FirstMatch(body, 0)
    case Some(p) => Some(AidAt(body, p))
    case None => None
  }

  /** `Get_Aid_From_BVid(code)`, with `body` standing for the text of the
      lookup response that a non-numeric code causes to be fetched. */
  function Resolve(code: string, body: string): Option<nat> {
    if IsDigits(code) then Some(Value(code)) else ExtractAid(body)
  }

  /** A numeric code resolves to its own value whatever the lookup would have
      returned: no lookup takes part in the answer. */
  lemma NumericCodeNeedsNoLookup(code: string, body1: string, body2: string)
    requires IsDigits(code)
    ensures Resolve(code, body1) == Resolve(code, body2) == Some(Value(code))
  {
  }

  /** Round trip: the decimal rendering of an id resolves back to that id. */
  lemma {:induction false} RenderedIdResolves(id: nat, body: string)
    ensures Resolve(Render(id), body) == Some(id)
  {
    RenderValue(id);
  }

  /** For a non-numeric code, resolution succeeds exactly when the body holds
      a match, and then yields the digits of the leftmost one. */
  lemma LookupUsesFirstMatch(code: string, body: string)
    requires !IsDigits(code)
    ensures Resolve(code, body).Some? <==> exists p :: MatchAt(body, p)
    ensures Resolve(code, body).Some? ==>
              exists p :: && MatchAt(body, p)
                          && (forall q :: q < p ==> !MatchAt(body, q))
                          && Resolve(code, body).value == AidAt(body, p)
  {
  }

  /** The field `"aid":<id>,` as the lookup service writes it. */
  function AidField(id: nat): string {
    AidKey + Render(id) + ","
  }

  lemma {:induction false} LeadingDigitsStopAtNonDigit(ds: string, c: char, tail: string)
    requires AllDigits(ds) && !IsDigit(c)
    ensures LeadingDigits(ds + [c] + tail) == |ds|
  {
    if |ds| > 0 {
      assert (ds + [c] + tail)[1..] == ds[1..] + [c] + tail;
      LeadingDigitsStopAtNonDigit(ds[1..], c, tail);
    }
  }

  /** The digit run of a concatenation: the run of `a`, continued into `b`
      only when all of `a` is digits. */
  lemma {:induction false} LeadingDigitsAppend(a: string, b: string)
    ensures LeadingDigits(a + b) ==
              if LeadingDigits(a) < |a| then LeadingDigits(a) else |a| + LeadingDigits(b)
  {
    if |a| > 0 {
      assert (a + b)[0] == a[0];
      if IsDigit(a[0]) {
        assert (a + b)[1..] == a[1..] + b;
        LeadingDigitsAppend(a[1..], b);
      }
    } else {
      assert a + b == b;
    }
  }

  /** A match in `prefix + field + tail` that starts inside `prefix` would
      already be a match of `prefix` alone: the field opens with `"aid":`,
      which can neither complete a key begun in the prefix nor continue a
      digit run, and it is not a comma. */
  lemma NoMatchAcrossField(prefix: string, id: nat, tail: string, q: nat)
    requires q < |prefix| && !MatchAt(prefix, q)
    ensures !MatchAt(prefix + AidField(id) + tail, q)
  {
    var body := prefix + AidField(id) + tail;
    var p := |prefix|;
    var k := |AidKey|;
    assert body[p..p + k] == AidKey;
    if q + k > p && q + k <= |body| {
      var d := p - q;
      if d == 4 {
        assert body[q..q + k][5] == body[p + 1] == 'a';
      } else {
        assert body[q..q + k][d] == body[p] == '"';
      }
      assert body[q..q + k] != AidKey;
    } else if q + k <= p {
      assert body[q..q + k] == prefix[q..q + k];
      var restP := prefix[q + k..];
      var restB := body[q + k..];
      assert restB == restP + (AidField(id) + tail);
      LeadingDigitsAppend(restP, AidField(id) + tail);
      var field := AidField(id) + tail;
      assert field[0] == '"';
      assert LeadingDigits(field) == 0;
      var d := LeadingDigits(restP);
      if d < |restP| {
        assert restB[d] == restP[d];
      } else {
        assert restB[d] == '"';
      }
    }
  }

  /** The field `"aid":<id>,` placed at position `p` is a match there, and its
      captured digits are `id`. */
  lemma {:induction false} AidFieldMatches(body: string, p: nat, id: nat, tail: string)
    requires p <= |body| && body[p..] == AidField(id) + tail
    ensures MatchAt(body, p) && AidAt(body, p) == id
  {
    var digits := Render(id);
    assert body[p..][..|AidKey|] == AidKey;
    assert body[p..p + |AidKey|] == AidKey;
    var rest := body[p + |AidKey|..];
    assert rest == body[p..][|AidKey|..];
    assert rest == digits + [','] + tail;
    LeadingDigitsStopAtNonDigit(digits, ',', tail);
    assert rest[..|digits|] == digits;
    RenderValue(id);
  }

  /** A response whose first `"aid":` field carries `id` resolves a
      non-numeric code to `id`, provided the text before the field holds no
      match of its own. */
  lemma {:induction false} LookupFindsAidField(code: string, prefix: string, id: nat, tail: string)
    requires !IsDigits(code)
    requires forall q: nat :: !MatchAt(prefix, q)
    ensures Resolve(code, prefix + AidField(id) + tail) == Some(id)
  {
    var body := prefix + AidField(id) + tail;
    var p := |prefix|;
    assert body[p..] == AidField(id) + tail;
    AidFieldMatches(body, p, id, tail);
    forall q: nat | q < p
      ensures !MatchAt(body, q)
    {
      NoMatchAcrossField(prefix, id, tail, q);
    }
  }
}
