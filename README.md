# PageRank estimators, modelled in Dafny

This project models the PageRank engine of `pagerank/pagerank.py` and proves properties of the model. The engine has two estimators over a corpus of HTML pages, where each page has a set of links to other pages of the corpus:

- **Crawl link filter.** Each page loses its link to itself. Then every link whose target is not a page of the corpus is dropped. This is `Graph.Crawl`.
- **Transition model.** From a page, the random surfer's next page follows a distribution. Every page gets the teleport share (1 − d) / N. Each of the current page's L links gets d / L on top. This is `Transition.Distribution`, built page by page by `Transition.TransitionModel`.
- **Sampling estimator.** A walk of `n` steps counts how often it visits each page. Each count is then divided by `n`. This is `Sampling.SamplePageRank`.
- **Iterative estimator.** Its steps are:
  - Every rank starts at 1 / N.
  - A reverse index `linking` lists, for each page, the pages that link to it.
  - The ranks are swept repeatedly. Each page, in corpus order, gets (1 − d) / N plus d times the sum of `rank(q) / links(q)` over the pages `q` that link to it.
  - Stopping rule: the loop stops after the first sweep in which no page's rank moved by more than 0.001.
  - This is `Iteration.IteratePageRank`.

A corpus is the program's dictionary. `Corpus.links` holds its entries. `Corpus.pages` is the order in which the dictionary yields its keys. The order matters because the sweep updates the ranks in place: a page updated later reads the new ranks of the pages updated before it. The model fixes that order and proves results for every order.

Modules:

- `Sums`: sums and counts over key sequences.
- `Graph`: the corpus and the crawl filter.
- `Transition`: the transition model.
- `Sampling`: the sampling estimator.
- `Iteration`: the iterative estimator.
- `Conservation`: what the sweep conserves at a fixed point.
- `Scenarios`: three small corpora worked through one sweep.

Ranks and probabilities are Dafny `real`s.

## Where the code and the design disagree

The design description of this engine asks for several behaviours that the code does not implement. The model follows the code in each case:

- **Pages without links.** The design says the surfer leaves such a page uniformly, to every page with 1 / N. The code has no such case:
  - `transition_model` divides by zero for a page without links (line 63). The model therefore makes it a precondition, and `sample_pagerank` inherits it for every page its walk visits.
  - In `iterate_pagerank`, a page without links never appears in `linking`, so the rank that reaches it is never passed on. `Scenarios.DanglingRankLeaks` computes one sweep where the ranks fall to a total of 0.21375.
- **Ranks do not sum to one.** The design and the docstring (lines 108-110) promise ranks that add up to one. For the iterative estimator the model proves when this holds and shows two ways it fails:
  - The initial ranks add up to one. With d = 0 every sweep sets every rank to 1 / N, so the total stays one (`Iteration.ZeroDampingUniform`).
  - Rank that reaches a page without links is lost (see above).
  - The in-place sweep does not conserve the total even when every page has links. In the corpus h → {x, y}, x → h, y → h with d = 0.85, one sweep from 1/3 each gives a total of 1489/1200 (`Scenarios.HubOvershoots`). The model therefore does not claim that a rank stays at most one either.
  - At a fixed point of the sweep the total is one, provided d ≠ 1, every page has links, and all links stay inside the corpus (`Conservation.FixedPointSumsToOne`). The loop stops at a threshold, not at a fixed point, so this is a statement about the limit it approaches.
  - With 0 ≤ d ≤ 1, every rank stays at least (1 − d) / N after any number of sweeps.
- **In-place sweep.** The design asks for a synchronous sweep, with all ranks replaced at once. The code overwrites `pr[k]` in place (line 130), so the result depends on the corpus order. The model is the in-place sweep. The stopping flag compares each page's rank just before and just after its own update. The model proves that this is the same as comparing each rank before the sweep with its value after the sweep (`Iteration.StableIffSmallChanges`).
- **No iteration ceiling.** The design asks for a ceiling that reports failure when exceeded. The code loops with `while True` and no bound. The model bounds the number of sweeps with a `fuel` argument, and reports `converged == false` only when the fuel ran out.
- **Empty corpus and empty walk.** `iterate_pagerank` divides by `n` at line 121 and so fails on an empty corpus, and `transition_model` fails too. `sample_pagerank` raises `IndexError` at line 85 when the corpus is empty, because `random.choice` gets an empty list. It also divides by zero at line 98 when `n == 0`. All of these are preconditions in the model, of `Iteration.IteratePageRank`, `Transition.TransitionModel` and `Sampling.SamplePageRank`.

## Model

| member | source | states |
|---|---|---|
| Graph.Crawl | pagerank/pagerank.py:40-47 | Keeps the pages and their order. Page p links to q exactly when q was found in p, q ≠ p, and q is a page of the corpus. The result has no self-links and only links inside the corpus. |
| Graph.CrawlKeepsWellFormed | pagerank/pagerank.py:43-47 | The filter changes nothing in a corpus that already has no self-links and links only inside itself. |
| Graph.CrawlIdempotent | pagerank/pagerank.py:40-47 | Filtering twice gives the same corpus as filtering once. |
| Transition.TransitionModel | pagerank/pagerank.py:61-69 | The page-by-page construction yields exactly the distribution: (1 − d)/N for every page, plus d/L for the pages linked from the current page. |
| Transition.DistributionKeys | pagerank/pagerank.py:65-66 | The distribution has an entry for every page of the corpus and no other. |
| Transition.DistributionValues | pagerank/pagerank.py:61-68 | A linked page gets (1 − d)/N + d/L, and any other page gets (1 − d)/N. |
| Transition.DistributionSumsToOne | pagerank/pagerank.py:61-69 | For a page with links, all inside the corpus, the probabilities add up to one for every damping factor. |
| Transition.DistributionBounds | pagerank/pagerank.py:61-69 | With 0 ≤ d ≤ 1 every value lies in [0, 1]. |
| Transition.LinkedBeatsUnlinked | pagerank/pagerank.py:66-68 | With d > 0, a linked page is strictly more likely than a page that is not linked. |
| Sampling.SamplePageRank | pagerank/pagerank.py:72-100 | The result is each page's visit count over the first n pages of the walk, divided by n. For n > 0 these frequencies add up to one and each lies in [0, 1]. For negative n they are all zero. |
| Sampling.ZeroCounts | pagerank/pagerank.py:81-83 | Every page of the corpus starts with count zero. |
| Sampling.CountVisits | pagerank/pagerank.py:85-95 | After the walk, each page's count is the number of times the walk was on it. The transition model is computed at each step, as the code does. |
| Sampling.Normalise | pagerank/pagerank.py:97-98 | Each count is replaced by count / n, for every page of the corpus. |
| Sampling.TallyOfWalk | pagerank/pagerank.py:87-88 | Over the distinct pages of the corpus, the visit counts of a walk add up to its length. |
| Sampling.FrequenciesSumToOne | pagerank/pagerank.py:77-79 | The estimate of a walk of n > 0 steps adds up to one, as the docstring promises. |
| Sampling.FrequenciesAreDistribution | pagerank/pagerank.py:77-79 | The estimate adds up to one, and every value lies between 0 and 1. |
| Sampling.FrequencyBounded | pagerank/pagerank.py:97-98 | No frequency exceeds one, since no page is visited more often than the walk is long. |
| Iteration.Initial | pagerank/pagerank.py:115-117 | The initial ranks have one entry per page of the corpus. |
| Iteration.InitialSumsToOne | pagerank/pagerank.py:115-117 | The initial ranks 1/N add up to one. |
| Iteration.AddSource | pagerank/pagerank.py:118-119 | Adding page k under each of its links adds k to exactly those pages' entries and leaves every other entry alone. Missing keys read as the empty set. |
| Iteration.BuildIndex | pagerank/pagerank.py:113-119 | One pass over the corpus gives a reverse index, in which q is listed under p exactly when q links to p. It also sets every rank to 1/N. |
| Iteration.IndexIsSources | pagerank/pagerank.py:116-119 | The index entry of a page is exactly the set of pages that link to it. |
| Iteration.IndexedPagesHaveLinks | pagerank/pagerank.py:130 | Every page found in an index entry has at least one link, so the division by its link count at line 130 is defined. |
| Iteration.SumInflow | pagerank/pagerank.py:130 | Summing rank/links over a set of pages, taken in any order, gives the order-free total. |
| Iteration.Recompute | pagerank/pagerank.py:130 | The new rank of page k is (1 − d)/N plus d times the inflow from its sources, read from the ranks as they stand. |
| Iteration.UpdatePage | pagerank/pagerank.py:129-133 | After page i's update, the ranks are those of the in-place sweep after i + 1 updates. The flag records whether each of those updates moved its page by at most the threshold. |
| Iteration.SweepInPlace | pagerank/pagerank.py:126-133 | The loop over the corpus leaves the ranks of the whole in-place sweep and the flag of all its updates. |
| Iteration.Sweep | pagerank/pagerank.py:126-133 | One pass of the `while True` body produces the in-place sweep. `converged` holds exactly when no page's final rank differs from its rank before the sweep by more than 0.001. |
| Iteration.InPlaceFrame | pagerank/pagerank.py:128-130 | During a sweep each page is written once, at its own step. Before that step it keeps its old rank, and afterwards it keeps its new one. |
| Iteration.StableIffSmallChanges | pagerank/pagerank.py:126-133 | The flag built from each update's own before and after value equals "every rank moved by at most the threshold over the whole sweep". |
| Iteration.SweepUntilConverged | pagerank/pagerank.py:124-136 | The loop returns the ranks after its last sweep, and that sweep is the first to set `converged`. When it converged, every returned rank is within 0.001 of its value before that last sweep. Without convergence, it stops only after `fuel` sweeps. |
| Iteration.IteratePageRank | pagerank/pagerank.py:103-138 | It builds the index and the initial ranks and then sweeps. The result is the ranks after the first sweep that left every rank within 0.001 of its previous value, and every returned rank is within 0.001 of the ranks before that sweep. |
| Iteration.FirstConvergence | pagerank/pagerank.py:135-136 | The loop breaks at the first sweep that sets `converged`: no earlier sweep set it, and the ranks it returns moved by at most 0.001 in that sweep. |
| Iteration.LastSweepMovedLittle | pagerank/pagerank.py:126-136 | A sweep that sets `converged` leaves every rank within 0.001 of its value before the sweep. |
| Iteration.IteratedAtLeastTeleport | pagerank/pagerank.py:121-130 | With 0 ≤ d ≤ 1 every rank stays at least (1 − d)/N, and so is never negative, after any number of sweeps. |
| Iteration.FixedPointConverges | pagerank/pagerank.py:124-136 | A sweep that leaves the ranks unchanged sets `converged`, so the loop stops at a fixed point. |
| Iteration.UnlinkedGetsTeleport | pagerank/pagerank.py:121-130 | A page that no page links to gets exactly (1 − d)/N from every sweep. |
| Iteration.ZeroDampingUniform | pagerank/pagerank.py:121-130 | With d = 0 a sweep sets every rank to 1/N, whatever the ranks were. |
| Scenarios.DanglingRankLeaks | pagerank/pagerank.py:126-133 | Corpus a → b, where b has no links, with d = 0.85. One sweep from 1/2 each gives a = 0.075 and b = 0.13875, which add up to 0.21375, not one. |
| Scenarios.HubSweep | pagerank/pagerank.py:126-133 | Corpus h → {x, y}, x → h, y → h with d = 0.85 and order h, x, y. One sweep from 1/3 each gives h = 37/60, then x = y = 749/2400, because x and y read the new rank of h. |
| Scenarios.HubOvershoots | pagerank/pagerank.py:126-133 | In that corpus, where every page has links, the swept ranks add up to 1489/1200, more than one. |
| Conservation.FixedPrefix | pagerank/pagerank.py:128-130 | If a whole sweep leaves the ranks unchanged, so does every prefix of it. |
| Conservation.FixedStep | pagerank/pagerank.py:128-130 | If a whole sweep leaves the ranks unchanged, each page's update, read from those ranks, gives back its own rank. |
| Conservation.FixedPointRule | pagerank/pagerank.py:126-133 | At a fixed point of the sweep every rank equals (1 − d)/N plus d times the inflow from its sources, all read from the ranks themselves. |
| Conservation.SourcesColumn | pagerank/pagerank.py:130 | The damped inflow of line 130 into page k equals the damped flow into k summed over every page of the corpus. |
| Conservation.RowIsRank | pagerank/pagerank.py:130 | A page with links inside the corpus passes on its whole rank: the shares it sends out add up to its rank. |
| Conservation.FlowIsTotal | pagerank/pagerank.py:130 | When every page has links inside the corpus, all flow between pages adds up to the total rank. |
| Conservation.FixedPointColumns | pagerank/pagerank.py:121-130 | At a fixed point each rank is (1 − d)/N plus the damped flow into its page. |
| Conservation.BalancedSumsToOne | pagerank/pagerank.py:121-130 | Ranks that each equal (1 − d)/N plus their damped inflow, in a corpus where every page has links inside it, add up to one when d ≠ 1. |
| Conservation.FixedPointSumsToOne | pagerank/pagerank.py:103-138 | The promise of the docstring at lines 108-110 holds at a fixed point of the sweep: with d ≠ 1, every page having links and all links inside the corpus, the ranks add up to one. |
| Scenarios.CycleSettlesAtOnce | pagerank/pagerank.py:124-136 | Corpus a ↔ b with d = 0.85. The initial ranks 1/2 each are a fixed point, so the first sweep sets `converged` and the result is 0.5 for both pages. |

## Left out

- `main`, the command line and the printing of results (lines 11-22 and 141-145) are not modelled.
- `Graph.Crawl` takes, for each page file, the link targets found in it. Listing the directory, reading the files and the regular expression that extracts `href` targets (lines 34-39) are file I/O and text matching, and are not modelled.
- Sampling.SamplePageRank: the random choices are an input, `picks`: the first page and the page drawn after each visit. The model does not constrain them to follow the weights of the transition model. Properties that hold in expectation or in the limit are therefore not stated.
- Sampling.SamplePageRank: for negative `n` the source divides the zero counts by `n` and so yields negative zeros. The model's reals give plain zero.
- Sampling.CountVisits: the model computes the transition model at each step, as the source does, but does not use its result. The choice it feeds is `picks`.
- Iteration.IteratePageRank and Iteration.SweepUntilConverged: `while True` has no bound, so the model adds `fuel`. When it runs out, the result reports `converged == false`. Termination and convergence of the unbounded loop are not claimed.
- Iteration.IteratePageRank: the ranks it returns need not add up to one or stay at most one, with or without pages lacking links, because the in-place sweep does not conserve the total (`Scenarios.HubOvershoots`). The model proves the total is one only at a fixed point of the sweep (`Conservation.FixedPointSumsToOne`), which the loop approaches but, stopping at a threshold, need not reach.
- Ranks and probabilities are exact reals. Floating-point rounding is not modelled, so the order in which line 130 sums over a set of pages does not matter in the model, although it can change the last bits of a float.
- Python's dictionary order is represented by `Corpus.pages`, which is given as part of the input. The model does not model how `os.listdir` orders files.
- `shopping/shopping.py` is not part of this model.
