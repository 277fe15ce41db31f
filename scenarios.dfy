/**
 * Small corpora worked through one sweep of `iterate_pagerank` with the
 * program's damping factor 0.85.
 */
module Scenarios {
  import opened Sums
  import opened Graph
  import opened Iteration

  const Damping: real := 0.85

  const A: Page := "a.html"
  const B: Page := "b.html"

  lemma TwoNames()
    ensures A != B && Distinct([A, B])
  {
    assert A[0] != B[0];
    assert [A, B][1..] == [B];
    assert [B][1..] == [];
  }

  /** "a.html" links to "b.html", which links nowhere. */
  function Dangling(): (c: Corpus)
    ensures c.Valid() && c.links.Keys == {A, B}
  {
    TwoNames();
    Corpus([A, B], map[A := {B}, B := {}])
  }

  /** "a.html" and "b.html" link to each other. */
  function Cycle(): (c: Corpus)
    ensures c.Valid() && c.links.Keys == {A, B}
  {
    TwoNames();
    Corpus([A, B], map[A := {B}, B := {A}])
  }

  /** The initial ranks of a two-page corpus. */
  const Half: map<Page, real> := map[A := 0.5, B := 0.5]

  /** Every page of a two-page corpus starts at 1/2. */
  lemma HalfEach(c: Corpus)
    requires c.links.Keys == {A, B}
    ensures |c.links| == 2 && Initial(c) == Half
  {
    TwoNames();
    assert c.links.Keys == {A} + {B};
  }

  /** The sum of the shares of a one-page set is that page's share. */
  lemma InflowOfOne(c: Corpus, pr: map<Page, real>, q: Page)
    ensures Inflow(c, pr, {q}) == Share(c, pr, q)
  {
    InflowRemove(c, pr, {q}, q);
    assert {q} - {q} == {};
  }

  /** The rule on a two-page corpus, for a page whose only source is `q`, or that has none. */
  lemma RuleOnTwo(c: Corpus, m: map<Page, real>, k: Page, q: Page, sourced: bool)
    requires |c.links| == 2
    requires Sources(c, k) == if sourced then {q} else {}
    ensures Rule(c, Damping)(m, k) == 0.075 + (if sourced then Share(c, m, q) * Damping else 0.0)
  {
    RuleValue(c, Damping, m, k);
    if sourced {
      InflowOfOne(c, m, q);
    }
  }

  /** A sweep over "a.html" then "b.html": the second update already reads the first one's result. */
  lemma SweepOfTwo(c: Corpus, pr: map<Page, real>)
    requires c.Valid() && c.pages == [A, B] && c.links.Keys == {A, B} && pr.Keys == {A, B}
    ensures var m1 := pr[A := Rule(c, Damping)(pr, A)];
            Swept(c, Damping, pr) == m1[B := Rule(c, Damping)(m1, B)]
  {
    RanksFollowOrder(c, pr);
    InPlaceStep(c.pages, Rule(c, Damping), pr, 0);
    InPlaceStep(c.pages, Rule(c, Damping), pr, 1);
  }

  lemma DanglingFirstUpdate()
    ensures Rule(Dangling(), Damping)(Half, A) == 0.075
  {
    var c := Dangling();
    HalfEach(c);
    assert Sources(c, A) == {};
    RuleOnTwo(c, Half, A, A, false);
  }

  lemma DanglingSecondUpdate()
    ensures Rule(Dangling(), Damping)(Half[A := 0.075], B) == 0.13875
  {
    var c := Dangling();
    HalfEach(c);
    assert Sources(c, B) == {A};
    var m := Half[A := 0.075];
    RuleOnTwo(c, m, B, A, true);
    assert c.links[A] == {B} && |c.links[A]| == 1 && m[A] == 0.075;
    assert Share(c, m, A) == 0.075;
  }

  /**
   * The rank that reaches a page without links is never passed on: from
   * 1/2 each, the sweep gives "a.html" only the teleport share 0.075, and
   * "b.html" 0.075 plus 0.85 times the new rank of "a.html", so the ranks
   * add up to 0.21375 rather than one.
   */
  lemma DanglingRankLeaks()
    ensures Swept(Dangling(), Damping, Initial(Dangling())) == map[A := 0.075, B := 0.13875]
    ensures Sum(Dangling().pages, Swept(Dangling(), Damping, Initial(Dangling()))) == 0.21375
  {
    var c := Dangling();
    HalfEach(c);
    SweepOfTwo(c, Half);
    DanglingFirstUpdate();
    DanglingSecondUpdate();
    assert Half[A := 0.075][B := 0.13875] == map[A := 0.075, B := 0.13875];
    SumOfTwo(map[A := 0.075, B := 0.13875]);
  }

  lemma CycleUpdate(k: Page, q: Page)
    requires (k, q) == (A, B) || (k, q) == (B, A)
    ensures Rule(Cycle(), Damping)(Half, k) == 0.5
  {
    var c := Cycle();
    HalfEach(c);
    TwoNames();
    assert Sources(c, k) == {q};
    RuleOnTwo(c, Half, k, q, true);
    assert Share(c, Half, q) == 0.5;
  }

  /**
   * On two pages that link to each other the initial ranks are already a
   * fixed point: the first sweep changes nothing, so it is the one that
   * sets `converged`, and the loop stops after one sweep.
   */
  lemma CycleSettlesAtOnce()
    ensures Iterated(Cycle(), Damping, 1) == Initial(Cycle())
    ensures ConvergesAt(Cycle(), Damping, 0)
  {
    var c := Cycle();
    HalfEach(c);
    SweepOfTwo(c, Half);
    CycleUpdate(A, B);
    assert Half[A := 0.5] == Half;
    CycleUpdate(B, A);
    assert Half[B := 0.5] == Half;
    FixedPointConverges(c, Damping, Half);
  }

  lemma SumOfTwo(m: map<Page, real>)
    requires A in m && B in m
    ensures Sum([A, B], m) == m[A] + m[B]
  {
    assert [A, B][1..] == [B];
    assert [B][1..] == [];
    assert Sum([B], m) == m[B] + Sum([], m);
  }

  const H: Page := "h.html"
  const X: Page := "x.html"
  const Y: Page := "y.html"

  lemma ThreeNames()
    ensures H != X && H != Y && X != Y && Distinct([H, X, Y])
  {
    assert H[0] != X[0] && H[0] != Y[0] && X[0] != Y[0];
    assert [H, X, Y][1..] == [X, Y];
    assert [X, Y][1..] == [Y];
    assert [Y][1..] == [];
    assert Distinct([Y]);
    assert Distinct([X, Y]);
  }

  /** "h.html" links to "x.html" and "y.html", and both link back to it: no page lacks links. */
  function Hub(): (c: Corpus)
    ensures c.Valid() && c.links.Keys == {H, X, Y}
    ensures forall p | p in c.links :: c.links[p] != {}
  {
    ThreeNames();
    Corpus([H, X, Y], map[H := {X, Y}, X := {H}, Y := {H}])
  }

  /** The initial ranks of a three-page corpus. */
  const Third: map<Page, real> := map[H := 1.0 / 3.0, X := 1.0 / 3.0, Y := 1.0 / 3.0]

  lemma ThirdEach(c: Corpus)
    requires c.links.Keys == {H, X, Y}
    ensures |c.links| == 3 && Initial(c) == Third
  {
    ThreeNames();
    assert c.links.Keys == {H} + {X} + {Y};
  }

  /** The rule on a three-page corpus: teleport share 0.05. */
  lemma RuleOnThree(c: Corpus, m: map<Page, real>, k: Page)
    requires |c.links| == 3
    ensures Rule(c, Damping)(m, k) == 0.05 + Inflow(c, m, Sources(c, k)) * Damping
  {
    RuleValue(c, Damping, m, k);
  }

  /** A sweep over "h.html", "x.html", then "y.html". */
  lemma SweepOfThree(c: Corpus, pr: map<Page, real>)
    requires c.Valid() && c.pages == [H, X, Y] && c.links.Keys == {H, X, Y} && pr.Keys == {H, X, Y}
    ensures var m1 := pr[H := Rule(c, Damping)(pr, H)];
            var m2 := m1[X := Rule(c, Damping)(m1, X)];
            Swept(c, Damping, pr) == m2[Y := Rule(c, Damping)(m2, Y)]
  {
    RanksFollowOrder(c, pr);
    InPlaceStep(c.pages, Rule(c, Damping), pr, 0);
    InPlaceStep(c.pages, Rule(c, Damping), pr, 1);
    InPlaceStep(c.pages, Rule(c, Damping), pr, 2);
  }

  /** Who links where in the hub corpus, and how many links each page has. */
  lemma HubShape()
    ensures |Hub().links| == 3
    ensures Hub().links[H] == {X, Y} && |Hub().links[H]| == 2
    ensures Hub().links[X] == {H} && |Hub().links[X]| == 1
    ensures Hub().links[Y] == {H} && |Hub().links[Y]| == 1
    ensures Sources(Hub(), H) == {X, Y} && Sources(Hub(), X) == {H} && Sources(Hub(), Y) == {H}
  {
    ThirdEach(Hub());
    ThreeNames();
  }

  /** The sum of the shares of a two-page set. */
  lemma InflowOfTwo(c: Corpus, pr: map<Page, real>, p: Page, q: Page)
    requires p != q
    ensures Inflow(c, pr, {p, q}) == Share(c, pr, p) + Share(c, pr, q)
  {
    InflowRemove(c, pr, {p, q}, p);
    assert {p, q} - {p} == {q};
    InflowOfOne(c, pr, q);
  }

  lemma HubFirstUpdate()
    ensures Rule(Hub(), Damping)(Third, H) == 37.0 / 60.0
  {
    var c := Hub();
    HubShape();
    ThreeNames();
    RuleOnThree(c, Third, H);
    InflowOfTwo(c, Third, X, Y);
    assert Share(c, Third, X) == 1.0 / 3.0;
    assert Share(c, Third, Y) == 1.0 / 3.0;
  }

  /** "x.html" and "y.html" each read the new rank of "h.html", their only source. */
  lemma HubSpokeUpdate(m: map<Page, real>, k: Page)
    requires k == X || k == Y
    requires H in m && m[H] == 37.0 / 60.0
    ensures Rule(Hub(), Damping)(m, k) == 749.0 / 2400.0
  {
    var c := Hub();
    HubShape();
    RuleOnThree(c, m, k);
    InflowOfOne(c, m, H);
    assert Share(c, m, H) == 37.0 / 120.0;
  }

  /** The three updates of the first sweep over the hub corpus. */
  lemma HubSweep()
    ensures var r := Swept(Hub(), Damping, Initial(Hub()));
            r.Keys == {H, X, Y} && r[H] == 37.0 / 60.0 && r[X] == 749.0 / 2400.0 && r[Y] == 749.0 / 2400.0
  {
    var c := Hub();
    ThirdEach(c);
    SweepOfThree(c, Third);
    HubFirstUpdate();
    var m1 := Third[H := 37.0 / 60.0];
    HubSpokeUpdate(m1, X);
    HubSpokeUpdate(m1[X := 749.0 / 2400.0], Y);
    ThreeNames();
  }

  /**
   * The in-place sweep does not conserve the total even when every page
   * has links: from 1/3 each, "h.html" collects 37/60, and then
   * "x.html" and "y.html" each take half of that new rank, so the ranks
   * add up to 1489/1200, more than one.
   */
  lemma HubOvershoots()
    ensures Sum(Hub().pages, Swept(Hub(), Damping, Initial(Hub()))) == 1489.0 / 1200.0 > 1.0
  {
    HubSweep();
    SumOfThree(Swept(Hub(), Damping, Initial(Hub())));
  }

  lemma SumOfThree(m: map<Page, real>)
    requires H in m && X in m && Y in m
    ensures Sum([H, X, Y], m) == m[H] + m[X] + m[Y]
  {
    assert [H, X, Y][1..] == [X, Y];
    assert [X, Y][1..] == [Y];
    assert [Y][1..] == [];
    assert Sum([Y], m) == m[Y] + Sum([], m);
  }
}
