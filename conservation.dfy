/**
 * What the in-place sweep of `iterate_pagerank` conserves: at a fixed
 * point of the sweep, in a corpus where every page has links and every
 * link stays inside the corpus, the ranks add up to one.
 *
 * Away from a fixed point the total can drift (see `Scenarios`), and the
 * loop stops at a threshold rather than at a fixed point, so this is a
 * statement about the limit the loop is meant to approach.
 */
module Conservation {
  import opened Sums
  import opened Graph
  import opened Iteration

  /** A corpus in which every page has links and every link stays inside the corpus. */
  predicate Conserving(c: Corpus)
  {
    c.Valid() && Closed(c) && c.links != map[] && forall p | p in c.links :: c.links[p] != {}
  }

  /** The rank that page `q` passes to page `k`: its share when it links to `k`, nothing otherwise. */
  function Flow(c: Corpus, pr: map<Page, real>): (Page, Page) -> real
  {
    (q: Page, k: Page) => if q in c.links && k in c.links[q] then Share(c, pr, q) else 0.0
  }

  /** The flow as line 130 weighs it, damped by d. */
  function Damped(c: Corpus, d: real, pr: map<Page, real>): (Page, Page) -> real
  {
    (q: Page, k: Page) => d * Flow(c, pr)(q, k)
  }

  /** When the whole sweep leaves the ranks as they were, so did every prefix of it. */
  lemma {:induction false} FixedPrefix(order: seq<Page>, update: (map<Page, real>, Page) -> real,
                                       pr: map<Page, real>, i: nat)
    requires Distinct(order) && Covers(order, pr) && i <= |order|
    requires InPlace(order, update, pr, |order|) == pr
    ensures InPlace(order, update, pr, i) == pr
  {
    if i > 0 {
      FixedPrefix(order, update, pr, i - 1);
      InPlaceStep(order, update, pr, i - 1);
      InPlaceFrame(order, update, pr, |order|, i - 1);
    }
  }

  /** When the whole sweep leaves the ranks as they were, every update left its own page's rank as it was. */
  lemma FixedStep(order: seq<Page>, update: (map<Page, real>, Page) -> real, pr: map<Page, real>, k: Page)
    requires Distinct(order) && Covers(order, pr) && k in order && k in pr
    requires InPlace(order, update, pr, |order|) == pr
    ensures pr[k] == update(pr, k)
  {
    var j := IndexOf(order, k);
    FixedPrefix(order, update, pr, j);
    FixedPrefix(order, update, pr, j + 1);
    InPlaceStep(order, update, pr, j);
  }

  /** Ranks over the pages of a corpus that one sweep leaves as they were. */
  ghost predicate FixedPoint(c: Corpus, d: real, pr: map<Page, real>)
  {
    c.Valid() && c.links != map[] && pr.Keys == c.links.Keys && Swept(c, d, pr) == pr
  }

  /** At a fixed point of the in-place sweep every rank satisfies line 130 read from the ranks themselves. */
  lemma FixedPointRule(c: Corpus, d: real, pr: map<Page, real>, k: Page)
    requires FixedPoint(c, d, pr) && k in pr
    ensures pr[k] == Rule(c, d)(pr, k)
  {
    RanksFollowOrder(c, pr);
    FixedStep(c.pages, Rule(c, d), pr, k);
  }

  /** The inflow from the sources of `k` among `rows`, each listed once, is the column of the flow into `k`. */
  lemma {:induction false} InflowIsColumn(c: Corpus, pr: map<Page, real>, rows: seq<Page>, s: set<Page>, k: Page)
    requires Distinct(rows) && forall q | q in s :: q in rows
    requires forall q | q in rows :: q in s <==> q in c.links && k in c.links[q]
    ensures Inflow(c, pr, s) == ColumnTotal(rows, k, Flow(c, pr))
  {
    if rows == [] {
      assert s == {};
    } else {
      var r0, rest := rows[0], rows[1..];
      assert rows == [r0] + rest;
      if r0 in s {
        InflowRemove(c, pr, s, r0);
        InflowIsColumn(c, pr, rest, s - {r0}, k);
      } else {
        InflowIsColumn(c, pr, rest, s, k);
      }
    }
  }

  /** Damping the flow into `k` damps its column. */
  lemma DampedColumn(c: Corpus, d: real, pr: map<Page, real>, k: Page)
    ensures ColumnTotal(c.pages, k, Damped(c, d, pr)) == d * ColumnTotal(c.pages, k, Flow(c, pr))
  {
    ColumnScaled(c.pages, k, Flow(c, pr), Damped(c, d, pr), d);
  }

  /** What line 130 adds to the teleport share of page `k` is the damped flow into `k` summed over all pages. */
  lemma SourcesColumn(c: Corpus, d: real, pr: map<Page, real>, k: Page)
    requires c.Valid()
    ensures Inflow(c, pr, Sources(c, k)) * d == ColumnTotal(c.pages, k, Damped(c, d, pr))
  {
    InflowIsColumn(c, pr, c.pages, Sources(c, k), k);
    DampedColumn(c, d, pr, k);
  }

  /** A page with links inside the corpus passes on its whole rank: its row of the flow sums to its rank. */
  lemma RowIsRank(c: Corpus, pr: map<Page, real>, q: Page)
    requires c.Valid() && Closed(c)
    requires q in c.links && c.links[q] != {} && q in pr
    ensures RowTotal(q, c.pages, Flow(c, pr)) == pr[q]
  {
    var l := |c.links[q]|;
    assert Share(c, pr, q) == pr[q] / l as real;
    forall k | k in c.pages
      ensures Flow(c, pr)(q, k) == if k in c.links[q] then pr[q] / l as real else 0.0
    {
    }
    RowOfIndicator(q, c.pages, Flow(c, pr), c.links[q], pr[q] / l as real);
    CountInCovered(c.pages, c.links[q]);
    assert l as real * (pr[q] / l as real) == pr[q];
  }

  /** Each rank is the teleport share `t` plus the damped flow into its page. */
  ghost predicate Balanced(c: Corpus, d: real, pr: map<Page, real>, t: real)
  {
    forall k | k in pr :: pr[k] == t + ColumnTotal(c.pages, k, Damped(c, d, pr))
  }

  /** At a fixed point each rank is the teleport share plus the damped flow into its page. */
  lemma FixedPointColumns(c: Corpus, d: real, pr: map<Page, real>, t: real)
    requires FixedPoint(c, d, pr)
    requires t == (1.0 - d) / |c.links| as real
    ensures Balanced(c, d, pr, t)
  {
    forall k | k in pr
      ensures pr[k] == t + ColumnTotal(c.pages, k, Damped(c, d, pr))
    {
      FixedPointRule(c, d, pr, k);
      RuleValue(c, d, pr, k);
      SourcesColumn(c, d, pr, k);
    }
  }

  /** When every page passes on its whole rank, the whole flow is the total rank. */
  lemma FlowIsTotal(c: Corpus, pr: map<Page, real>)
    requires c.Valid() && Closed(c)
    requires forall p | p in c.links :: c.links[p] != {}
    requires pr.Keys == c.links.Keys
    ensures ByColumns(c.pages, c.pages, Flow(c, pr)) == Sum(c.pages, pr)
  {
    forall q | q in c.pages
      ensures q in pr && pr[q] == RowTotal(q, c.pages, Flow(c, pr))
    {
      RowIsRank(c, pr, q);
    }
    SumOfRows(c.pages, c.pages, Flow(c, pr), pr);
    RowsThenColumns(c.pages, c.pages, Flow(c, pr));
  }

  /** The whole damped flow is d times the whole flow. */
  lemma DampedTotal(c: Corpus, d: real, pr: map<Page, real>)
    ensures ByColumns(c.pages, c.pages, Damped(c, d, pr)) == d * ByColumns(c.pages, c.pages, Flow(c, pr))
  {
    ByColumnsScaled(c.pages, c.pages, Flow(c, pr), Damped(c, d, pr), d);
  }

  /**
   * A fixed point of the sweep, in a corpus where every page has links
   * and all links stay inside the corpus, is a distribution: with
   * d != 1 its ranks add up to one.
   */
  lemma FixedPointSumsToOne(c: Corpus, d: real, pr: map<Page, real>)
    requires c.Valid() && Closed(c) && c.links != map[] && d != 1.0
    requires forall p | p in c.links :: c.links[p] != {}
    requires pr.Keys == c.links.Keys && Swept(c, d, pr) == pr
    ensures Sum(c.pages, pr) == 1.0
  {
    assert Conserving(c) && FixedPoint(c, d, pr);
    var t := (1.0 - d) / |c.links| as real;
    FixedPointColumns(c, d, pr, t);
    BalancedSumsToOne(c, d, pr, t);
  }

  /** Ranks that each equal the teleport share `t` plus their damped inflow, with no rank lost, add up to one. */
  lemma BalancedSumsToOne(c: Corpus, d: real, pr: map<Page, real>, t: real)
    requires Conserving(c) && d != 1.0 && pr.Keys == c.links.Keys
    requires t == (1.0 - d) / |c.links| as real
    requires Balanced(c, d, pr, t)
    ensures Sum(c.pages, pr) == 1.0
  {
    SumOfColumns(c.pages, c.pages, Damped(c, d, pr), pr, t);
    FlowIsTotal(c, pr);
    KeyCount(c);
    Balance(c, d, pr, t);
  }

  /**
   * N teleport shares (1 - d) / N plus d times the total is the total
   * only when the total is one.
   */
  lemma Balance(c: Corpus, d: real, pr: map<Page, real>, t: real)
    requires c.Valid() && c.links != map[] && d != 1.0 && pr.Keys == c.links.Keys
    requires |c.pages| == |c.links| && t == (1.0 - d) / |c.links| as real
    requires Sum(c.pages, pr) == Repeat(|c.pages|, t) + ByColumns(c.pages, c.pages, Damped(c, d, pr))
    requires ByColumns(c.pages, c.pages, Flow(c, pr)) == Sum(c.pages, pr)
    ensures Sum(c.pages, pr) == 1.0
  {
    DampedTotal(c, d, pr);
    TeleportTotal(|c.pages|, |c.links|, d, t);
    Rebalance(Sum(c.pages, pr), d);
  }

  /** N shares of (1 - d) / N add up to 1 - d. */
  lemma TeleportTotal(n: nat, m: nat, d: real, t: real)
    requires n == m && m > 0 && t == (1.0 - d) / m as real
    ensures Repeat(n, t) == 1.0 - d
  {
    RepeatIsProduct(n, t);
  }

  /** The only total that equals 1 - d plus d times itself, for d != 1, is one. */
  lemma Rebalance(total: real, d: real)
    requires d != 1.0 && total == (1.0 - d) + d * total
    ensures total == 1.0
  {
    var x, e := total - 1.0, 1.0 - d;
    assert x * e == 0.0;
    // a product of two non-zero reals is non-zero: split on the signs
    if x > 0.0 && e > 0.0 {
    } else if x > 0.0 {
    } else if x < 0.0 && e > 0.0 {
    } else if x < 0.0 {
    }
  }
}
