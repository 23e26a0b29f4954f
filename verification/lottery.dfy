/** `fetch_and_analyze_comments` end to end: resolve the code, run the page
    loop, deduplicate, and draw three winners. Printing and `exit(0)` become
    the variants of a typed outcome. */
module Lottery {
  import opened Optional
  import opened Records
  import opened Participants
  import Resolver
  import Paginator
  import Sampler

  /** The number of winners the source always draws. */
  const WinnerCount: nat := 3

  datatype LotteryOutcome =
    | Unresolved
    | FetchFailed(code: int)
    | Unfinished(pagesRead: nat)
    | Drawn(users: set<string>, commentnum: nat, winners: seq<string>)

  /** `pages` are the reply-listing responses for the resolved id and
      `lookupBody` the response a non-numeric code's lookup returns. The id
      is resolved before the first request; it fails only where the source
      raises IndexError. */
  method FetchAndAnalyzeComments(code: string, lookupBody: string, pages: seq<Page>)
    returns (r: LotteryOutcome)
    ensures r.Unresolved? <==> Resolver.Resolve(code, lookupBody).None?
    ensures r.FetchFailed? ==> && Resolver.Resolve(code, lookupBody).Some?
                               && Paginator.Paginate(pages) == Paginator.Aborted(r.code)
                               && r.code != Paginator.SuccessCode
    ensures r.Unfinished? ==> Paginator.Paginate(pages) == Paginator.OutOfPages(r.pagesRead)
    ensures r.Drawn? ==> && Resolver.Resolve(code, lookupBody).Some?
                         && Paginator.Paginate(pages) == Paginator.Done(r.users, r.commentnum)
                         && |r.winners| == Sampler.Min(WinnerCount, |r.users|)
                         && (forall i :: 0 <= i < |r.winners| ==> r.winners[i] in r.users)
                         && Distinct(r.winners)
    ensures Resolver.Resolve(code, lookupBody).Some? ==>
              (r.Drawn? <==> Paginator.Paginate(pages).Done?)
  {
    var oid := Resolver.Resolve(code, lookupBody);
    if oid.None? {
      return Unresolved;
    }
    var fetched := Paginator.Paginate(pages);
    Paginator.AbortIffFailureStatus(pages);
    match fetched
    case Aborted(c) =>
      r := FetchFailed(c);
    case OutOfPages(n) =>
      r := Unfinished(n);
    case Done(users, commentnum) =>
      var winners := Sampler.DrawWinners(users, WinnerCount);
      r := Drawn(users, commentnum, winners.GetOr([]));
  }
}
