/** The page loop of `fetch_and_analyze_comments` as a state machine fed by
    the service's responses: `pages[i]` is the response to the request for
    page number `i + 1`. */
module Paginator {
  import opened Records
  import opened Participants

  /** Page numbers start at 1. */
  type PageNumber = n: int | 1 <= n witness 1

  /** The status code of a reply-listing response, decoded once. */
  datatype FetchStatus = Success | RateLimited | OtherFailure(code: int)

  const SuccessCode: int := 0
  const RateLimitedCode: int := -412

  function Classify(code: int): (s: FetchStatus)
    ensures s.Success? <==> code == SuccessCode
    ensures s.RateLimited? <==> code == RateLimitedCode
    ensures s.OtherFailure? ==> s.code == code
  {
    if code == SuccessCode then Success
    else if code == RateLimitedCode then RateLimited
    else OtherFailure(code)
  }

  /** The code a status stands for. */
  function Code(s: FetchStatus): int {
    match s
    case Success => SuccessCode
    case RateLimited => RateLimitedCode
    case OtherFailure(c) => c
  }

  /** Decoding loses nothing: every code is recovered from its status, and
      every status whose failure code is not one of the two named codes is
      recovered from its code. */
  lemma ClassifyRoundTrip(code: int, s: FetchStatus)
    ensures Code(Classify(code)) == code
    ensures (s.OtherFailure? ==> s.code != SuccessCode && s.code != RateLimitedCode)
            ==> Classify(Code(s)) == s
  {
  }

  /** The loop variables: the next page to request, `commentnum` and
      `all_usernames`. */
  datatype Session = Session(pagenum: PageNumber, commentnum: nat, allUsernames: seq<string>)

  const Start: Session := Session(1, 0, [])

  /** The count the loop keeps agrees with the names it keeps. */
  predicate Consistent(s: Session) {
    s.commentnum == |s.allUsernames|
  }

  /** What one response does to the loop. */
  datatype Transition = Continue(next: Session) | Stop | Abort(code: int)

  /** One iteration: any non-zero status (the rate limit -412 included) ends
      the run with that code; a success with no replies ends the loop
      normally; otherwise the replies are counted and their authors
      appended, and the next page number is requested. */
  function Step(s: Session, page: Page): (r: Transition)
    ensures r.Abort? <==> page.code != SuccessCode
    ensures r.Abort? ==> r.code == page.code
    ensures r.Stop? <==> page.code == SuccessCode && |page.replies| == 0
    ensures r.Continue? ==> && r.next.pagenum == s.pagenum + 1
                            && r.next.commentnum - s.commentnum == |page.replies| > 0
                            && s.allUsernames <= r.next.allUsernames
                            && SetOf(r.next.allUsernames) == SetOf(s.allUsernames) + SetOf(Unames(page.replies))
                            && (Consistent(s) ==> Consistent(r.next))
  {
    match Classify(page.code)
    case OtherFailure(c) => Abort(c)
    case RateLimited => Abort(RateLimitedCode)
    case Success =>
      if |page.replies| == 0 then Stop
      else
        var names := s.allUsernames + Unames(page.replies);
        Continue(Session(s.pagenum + 1, s.commentnum + |page.replies|, names))
  }

  /** How a run over a finite supply of responses ends: aborted with the
      offending status code, finished with the distinct user names and the
      raw comment count, or out of responses before either happened (the
      source would go on to request page `pagesRead + 1`). */
  datatype FetchResult =
    | Aborted(code: int)
    | Done(users: set<string>, commentnum: nat)
    | OutOfPages(pagesRead: nat)

  /** The `while True` loop, from session `s` on. */
  function Loop(pages: seq<Page>, s: Session): FetchResult
    decreases |pages| + 1 - s.pagenum
  {
    if s.pagenum > |pages| then OutOfPages(|pages|)
    else
      match Step(s, pages[s.pagenum - 1])
      case Abort(c) => Aborted(c)
      case Stop => Done(SetOf(s.allUsernames), s.commentnum)
      case Continue(next) => Loop(pages, next)
  }

  /** A whole fetch session, starting at page 1 with nothing collected. */
  function Paginate(pages: seq<Page>): FetchResult {
    Loop(pages, Start)
  }

  // ----- reference definition -----

  /** A response after which the loop requests another page. */
  predicate Continues(p: Page) {
    p.code == SuccessCode && |p.replies| > 0
  }

  /** The index of the first response that does not continue the loop, or
      `|pages|` when every response does. */
  function StopIndex(pages: seq<Page>): (k: nat)
    ensures k <= |pages|
    ensures forall i :: 0 <= i < k ==> Continues(pages[i])
    ensures k < |pages| ==> !Continues(pages[k])
  {
    if |pages| == 0 || !Continues(pages[0]) then 0
    else 1 + StopIndex(pages[1..])
  }

  /** The outcome stated directly: the first response that does not continue
      decides it; its status, if non-zero, is the abort code; otherwise the
      run is done with what the responses before it carried. */
  function Expected(pages: seq<Page>): FetchResult {
    var k := StopIndex(pages);
    if k == |pages| then OutOfPages(|pages|)
    else if pages[k].code != SuccessCode then Aborted(pages[k].code)
    else Done(SetOf(AllNames(pages[..k])), TotalReplies(pages[..k]))
  }

  /** A session is on track when it has read exactly the first
      `pagenum - 1` responses, all of which continued, and holds what they
      carried. */
  predicate OnTrack(pages: seq<Page>, s: Session) {
    var read := s.pagenum - 1;
    && read <= StopIndex(pages)
    && s.commentnum == TotalReplies(pages[..read])
    && s.allUsernames == AllNames(pages[..read])
  }

  lemma {:induction false} LoopMeetsSpec(pages: seq<Page>, s: Session)
    requires OnTrack(pages, s)
    ensures Loop(pages, s) == Expected(pages)
    decreases |pages| + 1 - s.pagenum
  {
    var read := s.pagenum - 1;
    var k := StopIndex(pages);
    if read < |pages| {
      var page := pages[read];
      if read < k {
        assert Continues(page);
        var next := Step(s, page).next;
        assert pages[..read + 1] == pages[..read] + [page];
        assert pages[..read + 1][..read] == pages[..read];
        LoopMeetsSpec(pages, next);
      }
    }
  }

  /** The loop computes the reference outcome. */
  lemma PaginateMeetsSpec(pages: seq<Page>)
    ensures Paginate(pages) == Expected(pages)
  {
    assert pages[..0] == [];
    LoopMeetsSpec(pages, Start);
  }

  // ----- properties of a fetch session -----

  /** A run aborts exactly when the first response that does not continue
      the loop carries a non-zero status, and it reports that status; the
      rate limit -412 is one such status. No users and no count are
      returned on that path. */
  lemma AbortIffFailureStatus(pages: seq<Page>)
    ensures var k := StopIndex(pages);
            Paginate(pages).Aborted? <==> k < |pages| && pages[k].code != SuccessCode
    ensures Paginate(pages).Aborted? ==>
              && Paginate(pages).code == pages[StopIndex(pages)].code
              && Paginate(pages).code != SuccessCode
  {
    PaginateMeetsSpec(pages);
  }

  /** A run finishes normally exactly when the first response that does not
      continue is a success with an empty reply list. */
  lemma DoneIffEmptyPage(pages: seq<Page>)
    ensures var k := StopIndex(pages);
            Paginate(pages).Done? <==>
              k < |pages| && pages[k].code == SuccessCode && |pages[k].replies| == 0
  {
    PaginateMeetsSpec(pages);
  }

  lemma {:induction false} StopIndexAppend(pages: seq<Page>, extra: seq<Page>)
    requires StopIndex(pages) < |pages|
    ensures StopIndex(pages + extra) == StopIndex(pages)
  {
    if Continues(pages[0]) {
      assert (pages + extra)[1..] == pages[1..] + extra;
      StopIndexAppend(pages[1..], extra);
    }
  }

  /** Once a run has ended (normally or by abort), responses for later page
      numbers are never read: appending any further responses changes
      nothing. */
  lemma LaterPagesUnread(pages: seq<Page>, extra: seq<Page>)
    requires !Paginate(pages).OutOfPages?
    ensures Paginate(pages + extra) == Paginate(pages)
  {
    PaginateMeetsSpec(pages);
    PaginateMeetsSpec(pages + extra);
    var k := StopIndex(pages);
    StopIndexAppend(pages, extra);
    assert (pages + extra)[..k] == pages[..k];
    assert (pages + extra)[k] == pages[k];
  }

  /** On normal termination the count is the number of replies on the pages
      before the empty one, which is also the number of collected names;
      the users are exactly those names, so there are at most as many users
      as comments, and exactly as many precisely when no author commented
      twice. */
  lemma DoneCountsAndUsers(pages: seq<Page>)
    requires Paginate(pages).Done?
    ensures var k := StopIndex(pages);
            var names := AllNames(pages[..k]);
            && Paginate(pages).commentnum == TotalReplies(pages[..k]) == |names|
            && Paginate(pages).users == SetOf(names)
            && |Paginate(pages).users| <= Paginate(pages).commentnum
            && (|Paginate(pages).users| == Paginate(pages).commentnum <==> Distinct(names))
  {
    PaginateMeetsSpec(pages);
    var k := StopIndex(pages);
    CountMatchesNames(pages[..k]);
    DedupSize(AllNames(pages[..k]));
  }

  /** Two pages with comments followed by an empty one: exactly the two pages
      are accumulated, whatever follows. */
  lemma TwoPagesThenEmpty(p1: Page, p2: Page, p3: Page, rest: seq<Page>)
    requires Continues(p1) && Continues(p2)
    requires p3.code == SuccessCode && |p3.replies| == 0
    ensures Paginate([p1, p2, p3] + rest) ==
              Done(SetOf(Unames(p1.replies) + Unames(p2.replies)), |p1.replies| + |p2.replies|)
  {
    var pages := [p1, p2, p3] + rest;
    PaginateMeetsSpec(pages);
    assert pages[1..] == [p2, p3] + rest;
    assert pages[1..][1..] == [p3] + rest;
    assert StopIndex(pages[1..][1..]) == 0;
    assert StopIndex(pages[1..]) == 1;
    assert StopIndex(pages) == 2;
    var before := pages[..2];
    assert before == [p1, p2];
    assert before[..1] == [p1];
    assert before[..1][..0] == [];
    assert AllNames(before[..1]) == AllNames([]) + Unames(p1.replies) == Unames(p1.replies);
    assert TotalReplies(before[..1]) == |p1.replies|;
    assert AllNames(before) == Unames(p1.replies) + Unames(p2.replies);
    assert TotalReplies(before) == |p1.replies| + |p2.replies|;
  }

  /** An abort on page 2 discards what page 1 carried: the run fails as a
      whole, whatever follows. */
  lemma AbortOnSecondPage(p1: Page, p2: Page, rest: seq<Page>)
    requires Continues(p1) && p2.code != SuccessCode
    ensures Paginate([p1, p2] + rest) == Aborted(p2.code)
  {
    var pages := [p1, p2] + rest;
    PaginateMeetsSpec(pages);
    assert pages[1..] == [p2] + rest;
    assert StopIndex(pages) == 1;
  }
}
