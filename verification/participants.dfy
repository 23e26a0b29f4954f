/** Accumulation and deduplication of commenters (the body of the page loop
    and `set(all_usernames)`): names in arrival order, the raw comment count,
    and the set of distinct names. */
module Participants {
  import opened Records

  /** The author names of one page's replies, in order. */
  function Unames(replies: seq<Reply>): (names: seq<string>)
    ensures |names| == |replies|
    ensures forall i :: 0 <= i < |replies| ==> names[i] == replies[i].uname
  {
    if |replies| == 0 then []
    else Unames(replies[..|replies| - 1]) + [replies[|replies| - 1].uname]
  }

  /** `all_usernames` after the given pages: every author name, page by page
      and in arrival order within a page. */
  function AllNames(pages: seq<Page>): seq<string> {
    if |pages| == 0 then []
    else AllNames(pages[..|pages| - 1]) + Unames(pages[|pages| - 1].replies)
  }

  /** `commentnum` after the given pages: the sum of their reply counts. */
  function TotalReplies(pages: seq<Page>): nat {
    if |pages| == 0 then 0
    else TotalReplies(pages[..|pages| - 1]) + |pages[|pages| - 1].replies|
  }

  /** `set(xs)`: the distinct elements of a sequence. */
  function SetOf(xs: seq<string>): set<string> {
    set x | x in xs
  }

  /** No element occurs twice. */
  predicate Distinct(xs: seq<string>) {
    forall i, j :: 0 <= i < j < |xs| ==> xs[i] != xs[j]
  }

  /** The raw count always equals the number of collected names. */
  lemma {:induction false} CountMatchesNames(pages: seq<Page>)
    ensures |AllNames(pages)| == TotalReplies(pages)
  {
    if |pages| > 0 {
      CountMatchesNames(pages[..|pages| - 1]);
    }
  }

  /** Collecting over consecutive runs of pages concatenates their names. */
  lemma {:induction false} AllNamesAppend(a: seq<Page>, b: seq<Page>)
    ensures AllNames(a + b) == AllNames(a) + AllNames(b)
  {
    if |b| > 0 {
      var b' := b[..|b| - 1];
      assert (a + b)[..|a + b| - 1] == a + b';
      AllNamesAppend(a, b');
    } else {
      assert a + b == a;
    }
  }

  /** Counting over consecutive runs of pages adds their counts. */
  lemma {:induction false} TotalRepliesAppend(a: seq<Page>, b: seq<Page>)
    ensures TotalReplies(a + b) == TotalReplies(a) + TotalReplies(b)
  {
    if |b| > 0 {
      var b' := b[..|b| - 1];
      assert (a + b)[..|a + b| - 1] == a + b';
      TotalRepliesAppend(a, b');
    } else {
      assert a + b == a;
    }
  }

  /** Deduplication never produces more names than comments, and produces
      exactly as many precisely when no name occurs twice. */
  lemma {:induction false} DedupSize(xs: seq<string>)
    ensures |SetOf(xs)| <= |xs|
    ensures |SetOf(xs)| == |xs| <==> Distinct(xs)
  {
    if |xs| > 0 {
      var init := xs[..|xs| - 1];
      var last := xs[|xs| - 1];
      DedupSize(init);
      assert xs == init + [last];
      assert SetOf(xs) == SetOf(init) + {last};
      if last in init {
        assert SetOf(xs) == SetOf(init);
        var k :| 0 <= k < |init| && init[k] == last;
        assert xs[k] == xs[|xs| - 1];
      } else {
        assert |SetOf(xs)| == |SetOf(init)| + 1;
        if Distinct(init) {
          forall i, j | 0 <= i < j < |xs|
            ensures xs[i] != xs[j]
          {
            if j < |xs| - 1 {
              assert xs[i] == init[i] && xs[j] == init[j];
            } else {
              assert xs[i] == init[i];
            }
          }
        } else {
          var i, j :| 0 <= i < j < |init| && init[i] == init[j];
          assert xs[i] == xs[j];
        }
      }
    }
  }

  /** Feeding the same pages twice doubles the raw count but leaves the set
      of distinct participants unchanged. */
  lemma ReprocessingKeepsParticipants(pages: seq<Page>)
    ensures TotalReplies(pages + pages) == 2 * TotalReplies(pages)
    ensures SetOf(AllNames(pages + pages)) == SetOf(AllNames(pages))
  {
    TotalRepliesAppend(pages, pages);
    AllNamesAppend(pages, pages);
  }
}
