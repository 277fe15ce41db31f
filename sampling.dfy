/**
 * `sample_pagerank`: estimate PageRank by counting the pages a random
 * surfer visits in `n` steps.
 */
module Sampling {
  import opened Sums
  import opened Graph
  import opened Transition

  /** How many times the walk is on page `k`. */
  function Visits(walk: seq<Page>, k: Page): nat
  {
    if walk == [] then 0
    else Visits(walk[..|walk| - 1], k) + (if walk[|walk| - 1] == k then 1 else 0)
  }

  /** The total number of visits of `walk` to the keys `ks`. */
  function Tally(ks: seq<Page>, walk: seq<Page>): nat
  {
    if ks == [] then 0 else Visits(walk, ks[0]) + Tally(ks[1..], walk)
  }

  /**
   * The estimate the sampler returns for a walk: each page of the corpus
   * gets the number of times the walk visited it, divided by `n`.
   */
  function Frequencies(c: Corpus, walk: seq<Page>, n: int): map<Page, real>
    requires n != 0
  {
    map k | k in c.links :: Visits(walk, k) as real / n as real
  }

  /**
   * The random choices are supplied as `picks`: `picks[0]` is the page the
   * walk starts on, `picks[i + 1]` the page drawn after the i-th visit. A
   * negative `n` makes no step and divides the zero counts by `n`; `n == 0`
   * would divide by zero. Every visited page must have a link, because
   * the transition model is computed for it.
   */
  method SamplePageRank(c: Corpus, d: real, n: int, picks: seq<Page>) returns (res: map<Page, real>)
    requires c.Valid() && c.pages != []
    requires n != 0
    requires |picks| == (if n > 0 then n else 0) + 1
    requires forall i | 0 <= i < |picks| :: picks[i] in c.links
    requires forall i | 0 <= i < |picks| - 1 :: c.links[picks[i]] != {}
    ensures res == Frequencies(c, picks[..|picks| - 1], n)
    ensures n > 0 ==> Sum(c.pages, res) == 1.0 && forall k | k in res :: 0.0 <= res[k] <= 1.0
    ensures n < 0 ==> forall k | k in res :: res[k] == 0.0
  {
    var walk := picks[..|picks| - 1];
    var counts := CountVisits(c, d, picks);
    res := Normalise(c, counts, n);
    assert res == Frequencies(c, walk, n);
    if n > 0 {
      FrequenciesAreDistribution(c, walk);
    }
  }

  /**
   * Lines 81-95: every page starts at zero; then the walk visits
   * `picks[0]`, `picks[1]`, ... and each visit adds one to the page's count.
   */
  method CountVisits(c: Corpus, d: real, picks: seq<Page>) returns (counts: map<Page, nat>)
    requires c.Valid() && picks != []
    requires forall i | 0 <= i < |picks| :: picks[i] in c.links
    requires forall i | 0 <= i < |picks| - 1 :: c.links[picks[i]] != {}
    ensures counts.Keys == c.links.Keys
    ensures forall k | k in counts :: counts[k] == Visits(picks[..|picks| - 1], k)
  {
    counts := ZeroCounts(c);
    var page := picks[0];
    for i := 0 to |picks| - 1
      invariant page == picks[i]
      invariant counts.Keys == c.links.Keys
      invariant forall k | k in counts :: counts[k] == Visits(picks[..i], k)
    {
      counts := counts[page := counts[page] + 1];
      VisitsStep(picks, i);
      var trans := TransitionModel(c, page, d);
      page := picks[i + 1];
    }
  }

  /** Extending the walk by one step counts one more visit to the page it steps on. */
  lemma VisitsStep(picks: seq<Page>, i: nat)
    requires i < |picks|
    ensures forall k :: Visits(picks[..i + 1], k) == Visits(picks[..i], k) + (if picks[i] == k then 1 else 0)
  {
    assert picks[..i + 1][..i] == picks[..i];
  }

  /** Lines 81-83: every page of the corpus starts with a count of zero. */
  method ZeroCounts(c: Corpus) returns (counts: map<Page, nat>)
    requires c.Valid()
    ensures counts.Keys == c.links.Keys
    ensures forall k | k in counts :: counts[k] == 0
  {
    counts := map[];
    for i := 0 to |c.pages|
      invariant counts.Keys == set k | k in c.pages[..i]
      invariant forall k | k in counts :: counts[k] == 0
    {
      counts := counts[c.pages[i] := 0];
    }
    assert c.pages[..|c.pages|] == c.pages;
  }

  /** Lines 97-98: each count is replaced by its share of the `n` samples. */
  method Normalise(c: Corpus, counts: map<Page, nat>, n: int) returns (res: map<Page, real>)
    requires c.Valid() && n != 0
    requires counts.Keys == c.links.Keys
    ensures res.Keys == c.links.Keys
    ensures forall k | k in res :: res[k] == counts[k] as real / n as real
  {
    res := map[];
    for i := 0 to |c.pages|
      invariant res.Keys == set k | k in c.pages[..i]
      invariant forall k | k in res :: res[k] == counts[k] as real / n as real
    {
      var k := c.pages[i];
      res := res[k := counts[k] as real / n as real];
    }
    assert c.pages[..|c.pages|] == c.pages;
  }

  /** One more step on `x` adds one to the tally exactly when `x` is a key. */
  lemma {:induction false} TallyStep(ks: seq<Page>, walk: seq<Page>, x: Page)
    requires Distinct(ks)
    ensures Tally(ks, walk + [x]) == Tally(ks, walk) + (if x in ks then 1 else 0)
  {
    assert (walk + [x])[..|walk|] == walk;
    if ks != [] {
      TallyStep(ks[1..], walk, x);
    }
  }

  /** Over the distinct pages of the corpus, the visit counts of a walk add up to its length. */
  lemma {:induction false} TallyOfWalk(ks: seq<Page>, walk: seq<Page>)
    requires Distinct(ks)
    requires forall i | 0 <= i < |walk| :: walk[i] in ks
    ensures Tally(ks, walk) == |walk|
  {
    if walk == [] {
      TallyOfNothing(ks);
    } else {
      var front := walk[..|walk| - 1];
      var last := walk[|walk| - 1];
      assert walk == front + [last];
      TallyOfWalk(ks, front);
      TallyStep(ks, front, last);
    }
  }

  lemma {:induction false} TallyOfNothing(ks: seq<Page>)
    ensures Tally(ks, []) == 0
  {
    if ks != [] {
      TallyOfNothing(ks[1..]);
    }
  }

  /** Dividing each count by `n` divides their total by `n`. */
  lemma {:induction false} SumOfFrequencies(ks: seq<Page>, m: map<Page, real>, walk: seq<Page>, n: nat)
    requires n > 0
    requires forall k | k in ks :: k in m && m[k] == Visits(walk, k) as real / n as real
    ensures Sum(ks, m) == Tally(ks, walk) as real / n as real
  {
    if ks != [] {
      SumOfFrequencies(ks[1..], m, walk, n);
      AddFractions(Visits(walk, ks[0]) as real, Tally(ks[1..], walk) as real, n as real);
    }
  }

  lemma AddFractions(a: real, b: real, n: real)
    requires n > 0.0
    ensures a / n + b / n == (a + b) / n
  {
  }

  /** The frequencies of a walk of n > 0 steps over the corpus add up to one. */
  lemma FrequenciesSumToOne(c: Corpus, walk: seq<Page>)
    requires c.Valid()
    requires walk != []
    requires forall i | 0 <= i < |walk| :: walk[i] in c.links
    ensures Sum(c.pages, Frequencies(c, walk, |walk|)) == 1.0
  {
    var n: nat := |walk|;
    var freq := Frequencies(c, walk, n);
    var total := Tally(c.pages, walk);
    assert Sum(c.pages, freq) == total as real / n as real by {
      SumOfFrequencies(c.pages, freq, walk, n);
    }
    assert total == n by {
      TallyOfWalk(c.pages, walk);
    }
    var r: real := n as real;
    DivideBySelf(r);
  }

  lemma DivideBySelf(x: real)
    requires x > 0.0
    ensures x / x == 1.0
  {
  }

  /** The frequencies of a walk over the corpus form a probability distribution. */
  lemma FrequenciesAreDistribution(c: Corpus, walk: seq<Page>)
    requires c.Valid()
    requires walk != []
    requires forall i | 0 <= i < |walk| :: walk[i] in c.links
    ensures Sum(c.pages, Frequencies(c, walk, |walk|)) == 1.0
    ensures forall k | k in c.links :: 0.0 <= Frequencies(c, walk, |walk|)[k] <= 1.0
  {
    FrequenciesSumToOne(c, walk);
    forall k | k in c.links
      ensures 0.0 <= Frequencies(c, walk, |walk|)[k] <= 1.0
    {
      FrequencyBounded(c, walk, k);
    }
  }

  /** No page is visited more often than the walk is long. */
  lemma {:induction false} VisitsBounded(walk: seq<Page>, k: Page)
    ensures Visits(walk, k) <= |walk|
  {
    if walk != [] {
      VisitsBounded(walk[..|walk| - 1], k);
    }
  }

  /** Each frequency of a walk of n > 0 steps lies in [0, 1]. */
  lemma FrequencyBounded(c: Corpus, walk: seq<Page>, k: Page)
    requires walk != [] && k in c.links
    ensures 0.0 <= Frequencies(c, walk, |walk|)[k] <= 1.0
  {
    VisitsBounded(walk, k);
    var v: real := Visits(walk, k) as real;
    var n: real := |walk| as real;
    FractionAtMostOne(v, n);
  }

  lemma FractionAtMostOne(v: real, n: real)
    requires 0.0 <= v <= n && n > 0.0
    ensures 0.0 <= v / n <= 1.0
  {
    var q := v / n;
    assert q * n == v;
  }
}
