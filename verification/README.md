# Bilibili comment lottery — Dafny model

This project models the comment-lottery pipeline of `Bilibili_lottery.py`:

- **Identifier resolution** (`Get_Aid_From_BVid`). A non-empty all-digit code is the video's aid. Any other code is looked up, and the aid is the digit run of the first `"aid":<digits>,` in the lookup response.
- **The page loop** of `fetch_and_analyze_comments`. Pages 1, 2, 3, … are requested in order:
  - any non-zero status code aborts the whole run, including the rate limit -412;
  - a success with an empty reply list ends the loop;
  - any other page is counted, and its authors are appended to `all_usernames`.
- **Deduplication** of the author names into a set.
- **Winner sampling** (`draw_winners`): `min(k, n)` distinct names, drawn without replacement.

HTTP and JSON are abstracted away:

- the lookup response is a string parameter;
- the reply-listing responses are a finite sequence of decoded pages, where `pages[i]` answers the request for page `i + 1`;
- the random draw is a nondeterministic choice.

When the supplied responses run out before the loop has ended, the result is `OutOfPages`. The source would go on to request the next page in that case.

Modules, one per component:
- `Optional`: an option type for results that the source raises on.
- `Digits`: ASCII digit strings, `int(s)` and the decimal rendering.
- `Resolver`: identifier resolution.
- `Records`: the reply and page values.
- `Participants`: names, counts and deduplication.
- `Paginator`: the loop as a state machine, plus a reference definition it is proved equal to.
- `Sampler`: winner sampling.
- `Lottery`: the whole `fetch_and_analyze_comments`.

Modelling choices:
- Resolution fails only when the lookup body holds no match (the source's IndexError). Network failures are not modelled.
- The rate-limit code is not retried. Like every other non-zero code, it ends the run with no participant set.
- `draw_winners` accepts any integer count. A negative count makes `random.sample` raise a ValueError, which the model returns as `None`.

## Model

| member | source | states |
|---|---|---|
| Digits.RenderValue | Bilibili_lottery.py:19-20 | `int` of the decimal rendering of n is n |
| Digits.ValueRender | Bilibili_lottery.py:19-20 | a canonical digit string is the rendering of its own value, so parsing loses nothing on canonical codes |
| Resolver.NumericCodeNeedsNoLookup | Bilibili_lottery.py:19-20 | a non-empty all-digit code resolves to its integer value, whatever the lookup response is (no lookup takes part) |
| Resolver.RenderedIdResolves | Bilibili_lottery.py:19-20 | round trip: the decimal text of any id resolves back to that id |
| Resolver.FirstMatch | Bilibili_lottery.py:27 | returns the leftmost position from `from` on where `"aid":(\d+),` matches, and None exactly when no position matches |
| Resolver.ExtractAid | Bilibili_lottery.py:27-29 | succeeds iff the body holds a match; the id is the digit run of the leftmost match (`aid[0]`), and there is no id when `aid` is empty |
| Resolver.LookupUsesFirstMatch | Bilibili_lottery.py:19-29 | for a non-numeric code, resolution succeeds iff the body has a match and yields the leftmost match's digits |
| Resolver.LookupFindsAidField | Bilibili_lottery.py:22-29 | a response `prefix + "aid":<id>, + tail` whose prefix holds no match of its own resolves any non-numeric code to id (a match cannot straddle into the field) |
| Digits.Value | Bilibili_lottery.py:20 | `int(code)` on a digit string; its contract is carried by `Digits.RenderValue` and `Digits.ValueRender`, which make it the inverse of the decimal rendering |
| Resolver.Resolve | Bilibili_lottery.py:19-29 | `Get_Aid_From_BVid`; its contract is carried by `Resolver.NumericCodeNeedsNoLookup` (numeric code, no lookup), `Resolver.LookupUsesFirstMatch` and `Resolver.LookupFindsAidField` (first `"aid"` match) |
| Participants.AllNames | Bilibili_lottery.py:99 | `all_usernames` after the pages; `Participants.CountMatchesNames` ties its length to the count and `Participants.AllNamesAppend` makes it concatenate over runs of pages |
| Participants.TotalReplies | Bilibili_lottery.py:103 | `commentnum` after the pages; `Participants.CountMatchesNames` and `Participants.TotalRepliesAppend` state it |
| Paginator.Loop | Bilibili_lottery.py:55-103 | the `while True` loop; `Paginator.LoopMeetsSpec` proves it reaches the reference outcome from every on-track session |
| Paginator.Paginate | Bilibili_lottery.py:49-103 | the loop from page 1 with nothing collected; `Paginator.PaginateMeetsSpec` proves it equal to the reference outcome |
| Participants.Unames | Bilibili_lottery.py:83-84 | one name per reply, in reply order, each the reply's author name |
| Participants.CountMatchesNames | Bilibili_lottery.py:99-103 | the raw comment count equals the length of `all_usernames` over any pages |
| Participants.DedupSize | Bilibili_lottery.py:107-110 | the set of names is no larger than the name list, and equal in size iff no name repeats |
| Participants.ReprocessingKeepsParticipants | Bilibili_lottery.py:99-110 | processing the same pages twice doubles the count and leaves the distinct users unchanged |
| Paginator.Classify | Bilibili_lottery.py:68-75 | a code decodes to Success iff it is 0 and to RateLimited iff it is -412; any other failure keeps its code |
| Paginator.ClassifyRoundTrip | Bilibili_lottery.py:68-75 | decoding a status code loses nothing, and every canonical status is recovered from its code |
| Paginator.Step | Bilibili_lottery.py:68-103 | an iteration aborts iff the code is non-zero, carrying the code. It stops iff the code is 0 and the reply list is empty. Otherwise it requests the next page number, extends the name list, adds the page's authors to the users, and keeps count and names in step |
| Paginator.StopIndex | Bilibili_lottery.py:68-80 | the first response that does not continue the loop: every earlier one is a success with replies |
| Paginator.LoopMeetsSpec | Bilibili_lottery.py:55-103 | from any session that has read only continuing pages, the loop reaches the reference outcome |
| Paginator.PaginateMeetsSpec | Bilibili_lottery.py:49-103 | the run from page 1 equals the reference outcome, which the first non-continuing response decides |
| Paginator.AbortIffFailureStatus | Bilibili_lottery.py:68-75 | the run aborts iff the deciding response has a non-zero code (-412 and every other non-zero code alike), and it reports that code |
| Paginator.DoneIffEmptyPage | Bilibili_lottery.py:78-80 | the run ends normally iff the deciding response is a success with no replies |
| Paginator.LaterPagesUnread | Bilibili_lottery.py:49-102 | once the run has ended, responses for later page numbers do not affect the outcome |
| Paginator.DoneCountsAndUsers | Bilibili_lottery.py:83-112 | on normal end: `commentnum` = replies before the empty page = length of `all_usernames`; users = set of those names; users ≤ count, with equality iff names are distinct |
| Paginator.TwoPagesThenEmpty | Bilibili_lottery.py:55-103 | two pages with comments then an empty page accumulate exactly those two pages |
| Paginator.AbortOnSecondPage | Bilibili_lottery.py:68-75 | a failure status on page 2 fails the run and keeps nothing from page 1 |
| Sampler.DrawWinners | Bilibili_lottery.py:114-128 | exactly `min(k, n)` winners, all members of the user set, none repeated; a negative k is rejected |
| Lottery.FetchAndAnalyzeComments | Bilibili_lottery.py:32-112 | fails to resolve iff resolution fails. Otherwise the outcome follows the loop: a failure code, or the users and count with at most 3 distinct winners drawn from the users |

## Left out

- HTTP requests, request headers, `response.encoding` and `json.loads`: each response is given as an already-decoded value.
- Missing keys in a response (`comment['data']['replies']` on a body without them): the source raises. The model assumes well-formed responses. A JSON null reply list is an empty list.
- The per-comment `userdict` and `commentlist`: they are built but never used. `Reply` keeps the fields, but only the author name is used.
- Printing and `exit(0)`: these are replaced by the typed outcomes `Aborted`, `FetchFailed` and `Unresolved`.
- The repeated `Get_Aid_From_BVid` call on every loop iteration: the lookup response is a fixed parameter, so the id is resolved once.
- The id resolved for a non-numeric code is a nat in the model. The source returns the digit string itself on that path and an `int` on the numeric path.
- Resolver.ExtractAid: treats only ASCII '0'–'9' as digits. Python's `\d` and `str.isdigit` also accept other Unicode digits.
- Sampler.DrawWinners: states the size, membership and distinctness of the draw. It does not state that `random.sample` is uniform over subsets.
- Lottery.FetchAndAnalyzeComments: exposes the winners it draws. The source prints them and returns only the user set and the count.
- The `__main__` entry point.
