/**
 * The link graph ("corpus") that both PageRank estimators read, and the
 * link-filtering step of `crawl` that produces it from the links found in
 * each page of a directory.
 */
module Graph {
  import opened Sums

  /** A page is named by its file name. */
  type Page = string

  /**
   * A corpus as the program's dictionary from page to the set of pages it
   * links to. `pages` is the order in which the dictionary's keys are
   * visited (insertion order); `links` holds the entries.
   */
  datatype Corpus = Corpus(pages: seq<Page>, links: map<Page, set<Page>>)
  {
    /** `pages` lists every key of `links` exactly once. */
    predicate Valid()
    {
      && Distinct(pages)
      && (forall p | p in pages :: p in links)
      && (forall p | p in links :: p in pages)
    }
  }

  /** No page links to itself. */
  predicate NoSelfLinks(c: Corpus)
  {
    forall p | p in c.links :: p !in c.links[p]
  }

  /** Every link target is itself a page of the corpus. */
  predicate Closed(c: Corpus)
  {
    forall p | p in c.links :: c.links[p] <= c.links.Keys
  }

  /** The shape of every corpus `crawl` returns. */
  predicate WellFormed(c: Corpus)
  {
    c.Valid() && NoSelfLinks(c) && Closed(c)
  }

  /**
   * The link-filtering part of `crawl`. `found` holds, for each page file
   * in directory-listing order, the link targets extracted from it. Each
   * page first loses its link to itself, then every link whose target is
   * not a page of the corpus.
   */
  function Crawl(found: Corpus): (c: Corpus)
    requires found.Valid()
    ensures c.pages == found.pages && c.links.Keys == found.links.Keys
    ensures WellFormed(c)
    ensures forall p | p in c.links :: c.links[p] <= found.links[p]
    ensures forall p, q | p in found.links && q in found.links[p] ::
              q in c.links[p] <==> q != p && q in found.links
  {
    var trimmed := map p | p in found.links :: found.links[p] - {p};
    Corpus(found.pages, map p | p in trimmed :: set q | q in trimmed[p] && q in trimmed)
  }

  /** Filtering leaves a corpus that already has the shape of a crawled one unchanged. */
  lemma CrawlKeepsWellFormed(c: Corpus)
    requires WellFormed(c)
    ensures Crawl(c) == c
  {
    var r := Crawl(c);
    forall p | p in c.links
      ensures r.links[p] == c.links[p]
    {
      assert r.links[p] <= c.links[p];
      forall q | q in c.links[p]
        ensures q in r.links[p]
      {
        assert q != p && q in c.links;
      }
    }
  }

  /** Filtering twice is filtering once. */
  lemma CrawlIdempotent(found: Corpus)
    requires found.Valid()
    ensures Crawl(Crawl(found)) == Crawl(found)
  {
    CrawlKeepsWellFormed(Crawl(found));
  }

  /** In a valid corpus the number of dictionary keys is the length of the key order. */
  lemma KeyCount(c: Corpus)
    requires c.Valid()
    ensures |c.links| == |c.pages|
  {
    CountInCovered(c.pages, c.links.Keys);
    assert CountIn(c.pages, c.links.Keys) == |c.pages| by {
      AllCounted(c.pages, c.links.Keys);
    }
  }
}
