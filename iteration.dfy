/**
 * `iterate_pagerank`: estimate PageRank by sweeping over the pages and
 * recomputing each page's rank from the pages that link to it, until a
 * whole sweep moves no rank by more than the threshold.
 */
module Iteration {
  import opened Sums
  import opened Graph

  /** A sweep has converged when no page's rank moved by more than this. */
  const Threshold: real := 0.001

  function Abs(x: real): real
  {
    if x < 0.0 then -x else x
  }

  /** The pages that link to `p`. */
  function Sources(c: Corpus, p: Page): set<Page>
  {
    set q | q in c.links && p in c.links[q]
  }

  /** Reading `linking[p]` from a `defaultdict(set)`: a missing key reads as the empty set. */
  function Lookup(linking: map<Page, set<Page>>, p: Page): set<Page>
  {
    if p in linking then linking[p] else {}
  }

  /** `linking` reverses the links of the corpus: q is listed under p exactly when q links to p. */
  ghost predicate IsReverseIndex(c: Corpus, linking: map<Page, set<Page>>)
  {
    forall p, q :: q in Lookup(linking, p) <==> q in c.links && p in c.links[q]
  }

  /** Every page starts with rank 1 / N. */
  function Initial(c: Corpus): (r: map<Page, real>)
    ensures r.Keys == c.links.Keys
  {
    map k | k in c.links :: 1.0 / |c.links| as real
  }

  // ---------------------------------------------------------------------
  // Building the reverse index and the initial ranks (lines 113-119)

  /** `for page in v: linking[page].add(k)`, over the links `v` of page `k`, in any order. */
  method AddSource(linking: map<Page, set<Page>>, k: Page, v: set<Page>) returns (linking': map<Page, set<Page>>)
    ensures forall p, q :: q in Lookup(linking', p) <==> q in Lookup(linking, p) || (q == k && p in v)
  {
    linking' := linking;
    var rest := v;
    while rest != {}
      invariant rest <= v
      invariant forall p, q :: q in Lookup(linking', p) <==> q in Lookup(linking, p) || (q == k && p in v - rest)
      decreases rest
    {
      var page :| page in rest;
      ghost var before := linking';
      linking' := linking'[page := Lookup(linking', page) + {k}];
      rest := rest - {page};
      forall p, q
        ensures q in Lookup(linking', p) <==> q in Lookup(linking, p) || (q == k && p in v - rest)
      {
        if p == page {
          assert Lookup(linking', p) == Lookup(before, p) + {k};
        } else {
          assert Lookup(linking', p) == Lookup(before, p);
        }
      }
    }
  }

  /** Lines 113-119: one pass over the corpus fills the reverse index and sets every rank to 1 / N. */
  method BuildIndex(c: Corpus) returns (linking: map<Page, set<Page>>, pr: map<Page, real>)
    requires c.Valid()
    ensures IsReverseIndex(c, linking)
    ensures pr == Initial(c)
  {
    linking := map[];
    pr := map[];
    var n := |c.links|;
    // `1/n` is only evaluated inside the loop, which an empty corpus never enters.
    var share := if n == 0 then 0.0 else 1.0 / n as real;
    for i := 0 to |c.pages|
      invariant pr.Keys == set k | k in c.pages[..i]
      invariant forall k | k in pr :: pr[k] == share
      invariant forall p, q :: q in Lookup(linking, p) <==> q in c.pages[..i] && p in c.links[q]
    {
      var k := c.pages[i];
      assert c.pages[..i + 1] == c.pages[..i] + [k];
      pr := pr[k := share];
      linking := AddSource(linking, k, c.links[k]);
    }
    assert c.pages[..|c.pages|] == c.pages;
  }

  /** The index lists exactly the sources of each page. */
  lemma IndexIsSources(c: Corpus, linking: map<Page, set<Page>>, p: Page)
    requires IsReverseIndex(c, linking)
    ensures Lookup(linking, p) == Sources(c, p)
  {
  }

  /** A page listed in the index has at least one link, so the division at line 130 is defined. */
  lemma IndexedPagesHaveLinks(c: Corpus, linking: map<Page, set<Page>>, p: Page, q: Page)
    requires IsReverseIndex(c, linking)
    requires q in Lookup(linking, p)
    ensures q in c.links && |c.links[q]| >= 1
  {
  }

  /** The initial ranks add up to one. */
  lemma InitialSumsToOne(c: Corpus)
    requires c.Valid() && c.pages != []
    ensures Sum(c.pages, Initial(c)) == 1.0
  {
    assert c.pages[0] in c.links;
    var n: nat := |c.links|;
    var share := 1.0 / n as real;
    assert Sum(c.pages, Initial(c)) == Repeat(n, share) + Repeat(0, 0.0) by {
      SumAsRepeats(c.pages, Initial(c), share, 0.0, {});
      KeyCount(c);
      CountInCovered(c.pages, {});
    }
    RepeatIsProduct(n, share);
    assert n as real * share == 1.0;
  }

  // ---------------------------------------------------------------------
  // The rank of one page (line 130)

  /** `pr[page] / len(corpus[page])`: the part of page `q`'s rank that goes along each of its links. */
  function Share(c: Corpus, pr: map<Page, real>, q: Page): real
  {
    if q in pr && q in c.links && c.links[q] != {} then pr[q] / |c.links[q]| as real else 0.0
  }

  /** The sum of the shares of the pages in `s`; a set has no order, and none is needed. */
  ghost function Inflow(c: Corpus, pr: map<Page, real>, s: set<Page>): real
    decreases s
  {
    if s == {} then 0.0
    else
      var q :| q in s;
      Share(c, pr, q) + Inflow(c, pr, s - {q})
  }

  /** Any member of the set can be taken out first. */
  lemma {:induction false} InflowRemove(c: Corpus, pr: map<Page, real>, s: set<Page>, x: Page)
    requires x in s
    ensures Inflow(c, pr, s) == Share(c, pr, x) + Inflow(c, pr, s - {x})
    decreases s
  {
    var y :| y in s && Inflow(c, pr, s) == Share(c, pr, y) + Inflow(c, pr, s - {y});
    if y != x {
      InflowRemove(c, pr, s - {y}, x);
      InflowRemove(c, pr, s - {x}, y);
      assert s - {y} - {x} == s - {x} - {y};
    }
  }

  /** Every page of `s` has a rank and at least one link. */
  ghost predicate Feeds(c: Corpus, pr: map<Page, real>, s: set<Page>)
  {
    forall q | q in s :: q in pr && q in c.links && c.links[q] != {}
  }

  /** The sources of a page all have ranks and links. */
  lemma SourcesFeed(c: Corpus, pr: map<Page, real>, k: Page)
    requires pr.Keys == c.links.Keys
    ensures Feeds(c, pr, Sources(c, k))
  {
  }

  /** `sum(pr[page] / len(corpus[page]) for page in s)`, one member at a time. */
  method SumInflow(c: Corpus, pr: map<Page, real>, s: set<Page>) returns (total: real)
    requires Feeds(c, pr, s)
    ensures total == Inflow(c, pr, s)
  {
    total := 0.0;
    var rest := s;
    while rest != {}
      invariant rest <= s
      invariant total + Inflow(c, pr, rest) == Inflow(c, pr, s)
      decreases rest
    {
      var q :| q in rest;
      InflowRemove(c, pr, rest, q);
      total := total + pr[q] / |c.links[q]| as real;
      rest := rest - {q};
    }
  }

  /**
   * Line 130 as a rule: the rank of page `k`, read from the ranks `m`, is
   * the teleport share (1 - d) / N plus d times the inflow from its sources.
   */
  ghost function Rule(c: Corpus, d: real): (map<Page, real>, Page) -> real
    requires c.links != map[]
  {
    var probOfAnyPage := (1.0 - d) / |c.links| as real;
    (m: map<Page, real>, k: Page) => probOfAnyPage + Inflow(c, m, Sources(c, k)) * d
  }

  /** The rule's value, spelled out. */
  lemma RuleValue(c: Corpus, d: real, m: map<Page, real>, k: Page)
    requires c.links != map[]
    ensures Rule(c, d)(m, k) == (1.0 - d) / |c.links| as real + Inflow(c, m, Sources(c, k)) * d
  {
  }

  // ---------------------------------------------------------------------
  // A sweep in place (lines 126-133)

  /** Every key of `order` has a value in `pr`. */
  predicate Covers(order: seq<Page>, pr: map<Page, real>)
  {
    order == [] || (order[0] in pr && Covers(order[1..], pr))
  }

  lemma {:induction false} CoversAt(order: seq<Page>, pr: map<Page, real>, j: nat)
    requires Covers(order, pr) && j < |order|
    ensures order[j] in pr
  {
    if j > 0 {
      CoversAt(order[1..], pr, j - 1);
    }
  }

  lemma {:induction false} CoversAll(order: seq<Page>, pr: map<Page, real>)
    ensures Covers(order, pr) <==> forall k | k in order :: k in pr
  {
    if order != [] {
      CoversAll(order[1..], pr);
      assert order == [order[0]] + order[1..];
    }
  }

  /** The pages of a valid corpus are the keys of any ranking over it, each listed once. */
  lemma RanksFollowOrder(c: Corpus, pr: map<Page, real>)
    requires c.Valid() && pr.Keys == c.links.Keys
    ensures Distinct(c.pages) && Covers(c.pages, pr) && forall k | k in pr :: k in c.pages
  {
    CoversAll(c.pages, pr);
  }

  /**
   * The map after the first `i` keys of `order` have been overwritten in
   * place, each with `update` applied to the map as the sweep has left it
   * so far.
   */
  ghost function InPlace(order: seq<Page>, update: (map<Page, real>, Page) -> real,
                         pr: map<Page, real>, i: nat): (r: map<Page, real>)
    requires i <= |order| && Covers(order, pr)
    ensures r.Keys == pr.Keys
  {
    if i == 0 then pr
    else
      var m := InPlace(order, update, pr, i - 1);
      CoversAt(order, pr, i - 1);
      m[order[i - 1] := update(m, order[i - 1])]
  }

  /** The j-th update of the sweep moved its key by at most the threshold. */
  ghost predicate SmallStep(order: seq<Page>, update: (map<Page, real>, Page) -> real,
                            pr: map<Page, real>, j: nat)
    requires j < |order| && Covers(order, pr)
  {
    CoversAt(order, pr, j);
    Abs(InPlace(order, update, pr, j)[order[j]] - InPlace(order, update, pr, j + 1)[order[j]]) <= Threshold
  }

  /** The first `i` updates each moved their key by at most the threshold. */
  ghost predicate StableUpTo(order: seq<Page>, update: (map<Page, real>, Page) -> real, pr: map<Page, real>, i: nat)
    requires i <= |order| && Covers(order, pr)
  {
    i == 0 || (StableUpTo(order, update, pr, i - 1) && SmallStep(order, update, pr, i - 1))
  }

  lemma {:induction false} StableUpToAll(order: seq<Page>, update: (map<Page, real>, Page) -> real,
                                         pr: map<Page, real>, i: nat)
    requires i <= |order| && Covers(order, pr)
    ensures StableUpTo(order, update, pr, i) <==> forall j | 0 <= j < i :: SmallStep(order, update, pr, j)
  {
    if i > 0 {
      StableUpToAll(order, update, pr, i - 1);
    }
  }

  /** The ranks at the end of one sweep of line 130 over the corpus, in its key order. */
  ghost function Swept(c: Corpus, d: real, pr: map<Page, real>): (r: map<Page, real>)
    requires c.Valid() && c.links != map[] && pr.Keys == c.links.Keys
    ensures r.Keys == pr.Keys
  {
    RanksFollowOrder(c, pr);
    InPlace(c.pages, Rule(c, d), pr, |c.pages|)
  }

  /** A sweep from `pr` leaves `converged` set: each of its updates, in turn, was small. */
  ghost predicate Converges(c: Corpus, d: real, pr: map<Page, real>)
    requires c.Valid() && c.links != map[] && pr.Keys == c.links.Keys
  {
    RanksFollowOrder(c, pr);
    StableUpTo(c.pages, Rule(c, d), pr, |c.pages|)
  }

  /** Line 130 for page `k`: the teleport share plus the damped sum over the index entry of `k`. */
  method Recompute(c: Corpus, d: real, probOfAnyPage: real, linking: map<Page, set<Page>>,
                   pr: map<Page, real>, k: Page) returns (v: real)
    requires c.links != map[] && probOfAnyPage == (1.0 - d) / |c.links| as real
    requires IsReverseIndex(c, linking) && pr.Keys == c.links.Keys
    ensures v == Rule(c, d)(pr, k)
  {
    IndexIsSources(c, linking, k);
    SourcesFeed(c, pr, k);
    var inflow := SumInflow(c, pr, Lookup(linking, k));
    v := probOfAnyPage + inflow * d;
    RuleValue(c, d, pr, k);
  }

  /**
   * One pass of the `while True` loop: every page, in corpus order, gets
   * its new rank in place, and `converged` records whether every change
   * stayed within the threshold.
   */
  method Sweep(c: Corpus, d: real, linking: map<Page, set<Page>>, pr: map<Page, real>)
      returns (next: map<Page, real>, converged: bool)
    requires c.Valid() && c.links != map[]
    requires IsReverseIndex(c, linking)
    requires pr.Keys == c.links.Keys
    ensures next == Swept(c, d, pr)
    ensures converged == Converges(c, d, pr)
    ensures converged <==> forall k | k in pr :: Abs(pr[k] - next[k]) <= Threshold
  {
    RanksFollowOrder(c, pr);
    next, converged := SweepInPlace(c, d, linking, pr);
    SweepOutcome(c, d, pr, next, converged);
  }

  /** The loop of a sweep, stated update by update. */
  method SweepInPlace(c: Corpus, d: real, linking: map<Page, set<Page>>, pr: map<Page, real>)
      returns (next: map<Page, real>, converged: bool)
    requires c.links != map[] && IsReverseIndex(c, linking)
    requires pr.Keys == c.links.Keys && Covers(c.pages, pr)
    ensures next == InPlace(c.pages, Rule(c, d), pr, |c.pages|)
    ensures converged == StableUpTo(c.pages, Rule(c, d), pr, |c.pages|)
  {
    var probOfAnyPage := (1.0 - d) / |c.links| as real;
    next := pr;
    converged := true;
    for i := 0 to |c.pages|
      invariant next == InPlace(c.pages, Rule(c, d), pr, i)
      invariant converged == StableUpTo(c.pages, Rule(c, d), pr, i)
    {
      next, converged := UpdatePage(c, d, probOfAnyPage, linking, pr, i, next, converged);
    }
  }

  /** What stays fixed during a sweep: the index, the teleport share and the keys of the ranks. */
  ghost predicate Ready(c: Corpus, d: real, probOfAnyPage: real, linking: map<Page, set<Page>>, pr: map<Page, real>)
  {
    && c.links != map[]
    && probOfAnyPage == (1.0 - d) / |c.links| as real
    && IsReverseIndex(c, linking)
    && pr.Keys == c.links.Keys
    && Covers(c.pages, pr)
  }

  /** Lines 129-133: page i gets its new rank, and the flag drops if the rank moved too far. */
  method UpdatePage(c: Corpus, d: real, probOfAnyPage: real, linking: map<Page, set<Page>>,
                    pr: map<Page, real>, i: nat, next: map<Page, real>, converged: bool)
      returns (next': map<Page, real>, converged': bool)
    requires Ready(c, d, probOfAnyPage, linking, pr) && i < |c.pages|
    requires next == InPlace(c.pages, Rule(c, d), pr, i)
    requires converged == StableUpTo(c.pages, Rule(c, d), pr, i)
    ensures next' == InPlace(c.pages, Rule(c, d), pr, i + 1)
    ensures converged' == StableUpTo(c.pages, Rule(c, d), pr, i + 1)
  {
    var k := c.pages[i];
    CoversAt(c.pages, pr, i);
    var prev := next[k];
    var v := Recompute(c, d, probOfAnyPage, linking, next, k);
    InPlaceStep(c.pages, Rule(c, d), pr, i);
    next' := next[k := v];
    converged' := converged;
    if Abs(prev - next'[k]) > Threshold {
      converged' := false;
    }
  }

  /** Step i of a sweep overwrites key i with the update applied to the map as it stands. */
  lemma InPlaceStep(order: seq<Page>, update: (map<Page, real>, Page) -> real, pr: map<Page, real>, i: nat)
    requires i < |order| && Covers(order, pr)
    ensures InPlace(order, update, pr, i + 1)
         == InPlace(order, update, pr, i)[order[i] := update(InPlace(order, update, pr, i), order[i])]
  {
  }

  /** What the loop of a sweep leaves behind is the whole sweep and its flag. */
  lemma SweepOutcome(c: Corpus, d: real, pr: map<Page, real>, next: map<Page, real>, converged: bool)
    requires c.Valid() && c.links != map[] && pr.Keys == c.links.Keys
    requires Covers(c.pages, pr)
    requires next == InPlace(c.pages, Rule(c, d), pr, |c.pages|)
    requires converged == StableUpTo(c.pages, Rule(c, d), pr, |c.pages|)
    ensures next == Swept(c, d, pr)
    ensures converged == Converges(c, d, pr)
    ensures converged <==> forall k | k in pr :: Abs(pr[k] - next[k]) <= Threshold
  {
    RanksFollowOrder(c, pr);
    FlagOfSweep(c.pages, Rule(c, d), pr, next, converged);
  }

  /** The flag accumulated update by update says that no value moved by more than the threshold. */
  lemma FlagOfSweep(order: seq<Page>, update: (map<Page, real>, Page) -> real,
                    pr: map<Page, real>, next: map<Page, real>, converged: bool)
    requires Distinct(order) && Covers(order, pr) && (forall k | k in pr :: k in order)
    requires next == InPlace(order, update, pr, |order|)
    requires converged == StableUpTo(order, update, pr, |order|)
    ensures converged <==> forall k | k in pr :: Abs(pr[k] - next[k]) <= Threshold
  {
    StableIffSmallChanges(order, update, pr);
  }

  /** Position `j` is written once, at step j: before that it holds its old value, after that its new one. */
  lemma {:induction false} InPlaceFrame(order: seq<Page>, update: (map<Page, real>, Page) -> real,
                                        pr: map<Page, real>, i: nat, j: nat)
    requires Distinct(order) && Covers(order, pr) && i <= |order| && j < |order|
    ensures order[j] in pr
    ensures InPlace(order, update, pr, i)[order[j]]
         == if j < i then InPlace(order, update, pr, j + 1)[order[j]] else pr[order[j]]
  {
    CoversAt(order, pr, j);
    if i > 0 {
      InPlaceFrame(order, update, pr, i - 1, j);
      if j != i - 1 {
        DistinctAt(order, j, i - 1);
      }
    }
  }

  /** Step j moved key j by exactly as much as the whole sweep did. */
  lemma StepChange(order: seq<Page>, update: (map<Page, real>, Page) -> real, pr: map<Page, real>, j: nat)
    requires Distinct(order) && Covers(order, pr) && j < |order|
    ensures order[j] in pr
    ensures SmallStep(order, update, pr, j)
        <==> Abs(pr[order[j]] - InPlace(order, update, pr, |order|)[order[j]]) <= Threshold
  {
    InPlaceFrame(order, update, pr, j, j);
    InPlaceFrame(order, update, pr, |order|, j);
  }

  /**
   * The flag the sweep computes from each update's own before and after
   * is the same as comparing every value before the sweep with its value
   * after it.
   */
  lemma StableIffSmallChanges(order: seq<Page>, update: (map<Page, real>, Page) -> real, pr: map<Page, real>)
    requires Distinct(order) && Covers(order, pr) && (forall k | k in pr :: k in order)
    ensures StableUpTo(order, update, pr, |order|)
        <==> forall k | k in pr :: Abs(pr[k] - InPlace(order, update, pr, |order|)[k]) <= Threshold
  {
    StableUpToAll(order, update, pr, |order|);
    if StableUpTo(order, update, pr, |order|) {
      SmallStepsSmallChanges(order, update, pr);
    } else {
      var j :| 0 <= j < |order| && !SmallStep(order, update, pr, j);
      BigStepBigChange(order, update, pr, j);
    }
  }

  /** An update that moved its key by more than the threshold leaves that key moved as much at the end. */
  lemma BigStepBigChange(order: seq<Page>, update: (map<Page, real>, Page) -> real, pr: map<Page, real>, j: nat)
    requires Distinct(order) && Covers(order, pr) && j < |order|
    requires !SmallStep(order, update, pr, j)
    ensures exists k | k in pr :: Abs(pr[k] - InPlace(order, update, pr, |order|)[k]) > Threshold
  {
    StepChange(order, update, pr, j);
  }

  /** When every update moved its key by at most the threshold, so did the sweep as a whole. */
  lemma SmallStepsSmallChanges(order: seq<Page>, update: (map<Page, real>, Page) -> real, pr: map<Page, real>)
    requires Distinct(order) && Covers(order, pr) && (forall k | k in pr :: k in order)
    requires forall j | 0 <= j < |order| :: SmallStep(order, update, pr, j)
    ensures forall k | k in pr :: Abs(pr[k] - InPlace(order, update, pr, |order|)[k]) <= Threshold
  {
    forall k | k in pr
      ensures Abs(pr[k] - InPlace(order, update, pr, |order|)[k]) <= Threshold
    {
      var j := IndexOf(order, k);
      StepChange(order, update, pr, j);
    }
  }

  // ---------------------------------------------------------------------
  // The `while True` loop (lines 124-138)

  /** The ranks after `t` sweeps from the initial ranks. */
  ghost function Iterated(c: Corpus, d: real, t: nat): (r: map<Page, real>)
    requires c.Valid() && c.links != map[]
    ensures r.Keys == c.links.Keys
  {
    if t == 0 then Initial(c) else Swept(c, d, Iterated(c, d, t - 1))
  }

  /** Sweep number t + 1, the one that starts from `Iterated(c, d, t)`, sets `converged`. */
  ghost predicate ConvergesAt(c: Corpus, d: real, t: nat)
    requires c.Valid() && c.links != map[]
  {
    Converges(c, d, Iterated(c, d, t))
  }

  /**
   * `iterate_pagerank`: build the index, then sweep until a sweep leaves
   * `converged` set. The source loops for as long as that takes; `fuel`
   * bounds the number of sweeps, and `converged` is false only when the
   * bound was reached first. The result is the ranks after the last sweep,
   * and the last sweep is the first one that set the flag.
   */
  method IteratePageRank(c: Corpus, d: real, fuel: nat) returns (pr: map<Page, real>, sweeps: nat, converged: bool)
    requires c.Valid() && c.links != map[]
    ensures sweeps <= fuel && (!converged ==> sweeps == fuel)
    ensures pr == Iterated(c, d, sweeps)
    ensures converged ==> sweeps > 0
    ensures forall t | 0 <= t < sweeps :: ConvergesAt(c, d, t) <==> converged && t == sweeps - 1
    ensures converged ==> Settled(c, d, sweeps)
  {
    var linking, initial := BuildIndex(c);
    pr, sweeps, converged := SweepUntilConverged(c, d, linking, initial, fuel);
  }

  /** After sweep number n, no rank is more than the threshold away from its value before that sweep. */
  ghost predicate Settled(c: Corpus, d: real, n: nat)
    requires c.Valid() && c.links != map[]
  {
    n > 0 && forall k | k in Iterated(c, d, n) :: Abs(Iterated(c, d, n - 1)[k] - Iterated(c, d, n)[k]) <= Threshold
  }

  /** The sweep that ends the loop moved no rank by more than the threshold. */
  lemma LastSweepMovedLittle(c: Corpus, d: real, n: nat)
    requires c.Valid() && c.links != map[] && n > 0
    requires ConvergesAt(c, d, n - 1)
    ensures Settled(c, d, n)
  {
    var before := Iterated(c, d, n - 1);
    RanksFollowOrder(c, before);
    StableIffSmallChanges(c.pages, Rule(c, d), before);
  }

  /** The `while True` loop itself, continuing from the initial ranks. */
  method SweepUntilConverged(c: Corpus, d: real, linking: map<Page, set<Page>>, initial: map<Page, real>, fuel: nat)
      returns (pr: map<Page, real>, sweeps: nat, converged: bool)
    requires c.Valid() && c.links != map[] && IsReverseIndex(c, linking)
    requires initial == Initial(c)
    ensures sweeps <= fuel && (!converged ==> sweeps == fuel)
    ensures pr == Iterated(c, d, sweeps)
    ensures converged ==> sweeps > 0
    ensures forall t | 0 <= t < sweeps :: ConvergesAt(c, d, t) <==> converged && t == sweeps - 1
    ensures converged ==> Settled(c, d, sweeps)
  {
    ghost var convergesAt := (t: nat) => ConvergesAt(c, d, t);
    pr := initial;
    sweeps := 0;
    converged := false;
    while sweeps < fuel && !converged
      invariant sweeps <= fuel
      invariant pr == Iterated(c, d, sweeps)
      invariant converged ==> sweeps > 0 && convergesAt(sweeps - 1)
      invariant NoneBefore(convergesAt, if converged then sweeps - 1 else sweeps)
      decreases fuel - sweeps
    {
      pr, converged := Sweep(c, d, linking, pr);
      assert converged == convergesAt(sweeps);
      sweeps := sweeps + 1;
    }
    FirstConvergence(c, d, convergesAt, sweeps, converged);
  }

  /** The flag history the loop keeps, restated in terms of `ConvergesAt`. */
  lemma FirstConvergence(c: Corpus, d: real, convergesAt: nat -> bool, n: nat, found: bool)
    requires c.Valid() && c.links != map[]
    requires forall t: nat :: convergesAt(t) == ConvergesAt(c, d, t)
    requires found ==> n > 0 && convergesAt(n - 1)
    requires NoneBefore(convergesAt, if found then n - 1 else n)
    ensures forall t | 0 <= t < n :: ConvergesAt(c, d, t) <==> found && t == n - 1
    ensures found ==> Settled(c, d, n)
  {
    FirstTrue(convergesAt, n, found);
    if found {
      LastSweepMovedLittle(c, d, n);
    }
  }

  /** `f` holds for none of 0, ..., t - 1. */
  ghost predicate NoneBefore(f: nat -> bool, t: nat)
  {
    t == 0 || (NoneBefore(f, t - 1) && !f(t - 1))
  }

  /**
   * When `f` holds for none of the first n - 1 numbers and, if `found`, for
   * n - 1 as well, then n - 1 is the first number for which it holds.
   */
  lemma {:induction false} FirstTrue(f: nat -> bool, n: nat, found: bool)
    requires found ==> n > 0 && f(n - 1)
    requires NoneBefore(f, if found then n - 1 else n)
    ensures forall t | 0 <= t < n :: f(t) <==> found && t == n - 1
  {
    var m: nat := if found then n - 1 else n;
    NoneBeforeAll(f, m);
  }

  lemma {:induction false} NoneBeforeAll(f: nat -> bool, t: nat)
    ensures NoneBefore(f, t) <==> forall s | 0 <= s < t :: !f(s)
  {
    if t > 0 {
      NoneBeforeAll(f, t - 1);
    }
  }

  // ---------------------------------------------------------------------
  // Properties of a sweep

  /** Every value of `m` is at least `lo`. */
  ghost predicate AtLeast(m: map<Page, real>, lo: real)
  {
    forall k | k in m :: m[k] >= lo
  }

  /** A lower bound that the update respects is kept by a sweep. */
  lemma {:induction false} InPlaceAtLeast(order: seq<Page>, update: (map<Page, real>, Page) -> real,
                                          pr: map<Page, real>, i: nat, lo: real)
    requires i <= |order| && Covers(order, pr)
    requires AtLeast(pr, lo)
    requires forall m: map<Page, real>, k: Page | AtLeast(m, lo) :: update(m, k) >= lo
    ensures AtLeast(InPlace(order, update, pr, i), lo)
  {
    if i > 0 {
      InPlaceAtLeast(order, update, pr, i - 1, lo);
    }
  }

  /** The inflow from pages with non-negative ranks is non-negative. */
  lemma {:induction false} InflowNonNegative(c: Corpus, pr: map<Page, real>, s: set<Page>)
    requires AtLeast(pr, 0.0)
    ensures Inflow(c, pr, s) >= 0.0
    decreases s
  {
    if s != {} {
      var q :| q in s;
      InflowRemove(c, pr, s, q);
      InflowNonNegative(c, pr, s - {q});
    }
  }

  /** With 0 <= d <= 1, a page whose sources have non-negative ranks gets at least the teleport share. */
  lemma RuleAtLeastTeleport(c: Corpus, d: real, m: map<Page, real>, k: Page)
    requires c.links != map[] && 0.0 <= d <= 1.0
    requires AtLeast(m, (1.0 - d) / |c.links| as real)
    ensures Rule(c, d)(m, k) >= (1.0 - d) / |c.links| as real
  {
    var n: nat := |c.links|;
    assert (1.0 - d) / n as real >= 0.0;
    assert AtLeast(m, 0.0);
    InflowNonNegative(c, m, Sources(c, k));
    RuleValue(c, d, m, k);
  }

  /** With 0 <= d <= 1, the rule keeps the teleport share as a lower bound. */
  lemma RuleKeepsTeleport(c: Corpus, d: real)
    requires c.links != map[] && 0.0 <= d <= 1.0
    ensures forall m: map<Page, real>, k: Page | AtLeast(m, (1.0 - d) / |c.links| as real)
              :: Rule(c, d)(m, k) >= (1.0 - d) / |c.links| as real
  {
    forall m: map<Page, real>, k: Page | AtLeast(m, (1.0 - d) / |c.links| as real)
      ensures Rule(c, d)(m, k) >= (1.0 - d) / |c.links| as real
    {
      RuleAtLeastTeleport(c, d, m, k);
    }
  }

  /**
   * With 0 <= d <= 1, every rank stays at or above the teleport share
   * (1 - d) / N, and so never goes negative, however many sweeps run.
   */
  lemma {:induction false} IteratedAtLeastTeleport(c: Corpus, d: real, t: nat)
    requires c.Valid() && c.links != map[] && 0.0 <= d <= 1.0
    ensures AtLeast(Iterated(c, d, t), (1.0 - d) / |c.links| as real)
  {
    var n: nat := |c.links|;
    var lo := (1.0 - d) / n as real;
    if t == 0 {
      assert lo <= 1.0 / n as real;
    } else {
      IteratedAtLeastTeleport(c, d, t - 1);
      var before := Iterated(c, d, t - 1);
      RanksFollowOrder(c, before);
      RuleKeepsTeleport(c, d);
      InPlaceAtLeast(c.pages, Rule(c, d), before, |c.pages|, lo);
    }
  }

  /** A sweep that changes nothing sets `converged`. */
  lemma FixedPointConverges(c: Corpus, d: real, pr: map<Page, real>)
    requires c.Valid() && c.links != map[] && pr.Keys == c.links.Keys
    requires Swept(c, d, pr) == pr
    ensures Converges(c, d, pr)
  {
    RanksFollowOrder(c, pr);
    StableIffSmallChanges(c.pages, Rule(c, d), pr);
  }

  /** A page that no page links to gets exactly the teleport share from a sweep. */
  lemma UnlinkedGetsTeleport(c: Corpus, d: real, pr: map<Page, real>, k: Page)
    requires c.Valid() && c.links != map[] && pr.Keys == c.links.Keys
    requires k in c.links && Sources(c, k) == {}
    ensures Swept(c, d, pr)[k] == (1.0 - d) / |c.links| as real
  {
    RanksFollowOrder(c, pr);
    var j := IndexOf(c.pages, k);
    InPlaceFrame(c.pages, Rule(c, d), pr, |c.pages|, j);
    InPlaceStep(c.pages, Rule(c, d), pr, j);
    RuleValue(c, d, InPlace(c.pages, Rule(c, d), pr, j), k);
  }

  /** With d = 0 a sweep gives every page 1 / N, whatever the ranks before it. */
  lemma ZeroDampingUniform(c: Corpus, pr: map<Page, real>)
    requires c.Valid() && c.links != map[] && pr.Keys == c.links.Keys
    ensures Swept(c, 0.0, pr) == Initial(c)
  {
    var after := Swept(c, 0.0, pr);
    forall k | k in c.links
      ensures after[k] == 1.0 / |c.links| as real
    {
      RanksFollowOrder(c, pr);
      var j := IndexOf(c.pages, k);
      InPlaceFrame(c.pages, Rule(c, 0.0), pr, |c.pages|, j);
      InPlaceStep(c.pages, Rule(c, 0.0), pr, j);
      RuleValue(c, 0.0, InPlace(c.pages, Rule(c, 0.0), pr, j), k);
    }
  }

  /** A position of a key that occurs in `s`. */
  function IndexOf(s: seq<Page>, k: Page): (j: nat)
    requires k in s
    ensures j < |s| && s[j] == k
  {
    if s[0] == k then 0 else 1 + IndexOf(s[1..], k)
  }
}
