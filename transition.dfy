/**
 * `transition_model`: the distribution of the random surfer's next page,
 * given the page it is on.
 */
module Transition {
  import opened Sums
  import opened Graph

  /**
   * The next-page distribution from `page` with damping factor `d`: every
   * page of the corpus gets the teleport share (1 - d) / N, and each page
   * that `page` links to gets d · (1 / L) on top, where N is the number of
   * pages and L the number of links of `page`. There is no rule for a page
   * without links: the division by L fails there, so such a page is
   * excluded by the precondition.
   */
  function Distribution(c: Corpus, page: Page, d: real): map<Page, real>
    requires page in c.links && c.links[page] != {}
  {
    var teleport := (1.0 - d) / |c.links| as real;
    var follow := d * (1.0 / |c.links[page]| as real);
    map k | k in c.links :: if k in c.links[page] then teleport + follow else teleport
  }

  /** Builds the distribution one page at a time, in the corpus's key order. */
  method TransitionModel(c: Corpus, page: Page, d: real) returns (res: map<Page, real>)
    requires c.Valid()
    requires page in c.links && c.links[page] != {}
    ensures res == Distribution(c, page, d)
  {
    var dfInv := 1.0 - d;
    var probAnyPage := dfInv / |c.links| as real;
    var nextPageProb := d * (1.0 / |c.links[page]| as real);
    res := map[];
    for i := 0 to |c.pages|
      invariant res.Keys == set k | k in c.pages[..i]
      invariant forall k | k in res :: res[k] == if k in c.links[page] then probAnyPage + nextPageProb else probAnyPage
    {
      var key := c.pages[i];
      res := res[key := probAnyPage];
      if key in c.links[page] {
        res := res[key := res[key] + nextPageProb];
      }
    }
    assert c.pages[..|c.pages|] == c.pages;
    IsDistribution(c, page, d, res);
  }

  /** A map over the corpus's pages holding the shares of `Distribution` is that distribution. */
  lemma IsDistribution(c: Corpus, page: Page, d: real, res: map<Page, real>)
    requires c.Valid()
    requires page in c.links && c.links[page] != {}
    requires res.Keys == set k | k in c.pages
    requires var teleport := (1.0 - d) / |c.links| as real;
             var follow := d * (1.0 / |c.links[page]| as real);
             forall k | k in res :: res[k] == if k in c.links[page] then teleport + follow else teleport
    ensures res == Distribution(c, page, d)
  {
    var dist := Distribution(c, page, d);
    DistributionKeys(c, page, d);
    assert res.Keys == c.links.Keys;
    assert forall k | k in res :: res[k] == dist[k];
  }

  /** The keys of the distribution are exactly the pages of the corpus. */
  lemma DistributionKeys(c: Corpus, page: Page, d: real)
    requires page in c.links && c.links[page] != {}
    ensures Distribution(c, page, d).Keys == c.links.Keys
  {
  }

  /** A linked page gets (1 - d) / N + d / L, any other page of the corpus (1 - d) / N. */
  lemma DistributionValues(c: Corpus, page: Page, d: real, k: Page)
    requires page in c.links && c.links[page] != {} && k in c.links
    ensures var n := |c.links| as real;
            var l := |c.links[page]| as real;
            Distribution(c, page, d)[k] == if k in c.links[page] then (1.0 - d) / n + d / l else (1.0 - d) / n
  {
  }

  /**
   * When every link of `page` leads to a page of the corpus, the
   * distribution adds up to one, whatever the damping factor.
   */
  lemma DistributionSumsToOne(c: Corpus, page: Page, d: real)
    requires c.Valid()
    requires page in c.links && c.links[page] != {}
    requires c.links[page] <= c.links.Keys
    ensures Sum(c.pages, Distribution(c, page, d)) == 1.0
  {
    var n: nat := |c.links|;
    var l: nat := |c.links[page]|;
    var teleport := (1.0 - d) / n as real;
    var follow := d * (1.0 / l as real);
    var dist := Distribution(c, page, d);
    assert Sum(c.pages, dist) == Repeat(n, teleport) + Repeat(l, follow) by {
      SumAsRepeats(c.pages, dist, teleport, follow, c.links[page]);
      KeyCount(c);
      CountInCovered(c.pages, c.links[page]);
    }
    SharesAddUp(n, l, d);
  }

  /** N teleport shares and L link shares add up to one. */
  lemma SharesAddUp(n: nat, l: nat, d: real)
    requires n > 0 && l > 0
    ensures Repeat(n, (1.0 - d) / n as real) + Repeat(l, d * (1.0 / l as real)) == 1.0
  {
    RepeatIsProduct(n, (1.0 - d) / n as real);
    RepeatIsProduct(l, d * (1.0 / l as real));
    assert n as real * ((1.0 - d) / n as real) == 1.0 - d;
    assert l as real * (d * (1.0 / l as real)) == d * (l as real * (1.0 / l as real));
  }

  /** With 0 <= d <= 1 every value is a probability. */
  lemma DistributionBounds(c: Corpus, page: Page, d: real, k: Page)
    requires 0.0 <= d <= 1.0
    requires page in c.links && c.links[page] != {} && k in c.links
    ensures 0.0 <= Distribution(c, page, d)[k] <= 1.0
  {
    var n := |c.links| as real;
    var l := |c.links[page]| as real;
    assert n >= 1.0 && l >= 1.0;
    assert (1.0 - d) / n <= 1.0 - d;
    assert d * (1.0 / l) <= d;
  }

  /** With d > 0 a linked page is strictly more likely than a page that is not linked. */
  lemma LinkedBeatsUnlinked(c: Corpus, page: Page, d: real, linked: Page, other: Page)
    requires d > 0.0
    requires page in c.links && c.links[page] != {}
    requires linked in c.links[page] && linked in c.links
    requires other !in c.links[page] && other in c.links
    ensures Distribution(c, page, d)[linked] > Distribution(c, page, d)[other]
  {
    assert 1.0 / |c.links[page]| as real > 0.0;
  }
}
