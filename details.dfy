/**
 * The enrichment pass of index.js, `crawlDetails`: every listing still
 * pending has its detail page opened, its website and email read, and is
 * marked crawled.
 */
module Details {
  import opened Wrappers
  import opened Store

  /** What a detail page shows: the text of the website link and of the email
    * link, `None` where the link is not visible. */
  datatype DetailPage = DetailPage(website: Option<string>, email: Option<string>)

  /** `{...result, website, email, status: 'detail-crawled'}`, where a link
    * that is not visible leaves the empty string; the other fields are kept. */
  function Enriched(l: Listing, page: DetailPage): (r: Listing)
    ensures r.status == DetailCrawled && r.website.Some? && r.email.Some?
    ensures page.website.Some? ==> r.website == page.website
    ensures page.website.None? ==> r.website == Some("")
    ensures page.email.Some? ==> r.email == page.email
    ensures page.email.None? ==> r.email == Some("")
    ensures r.(website := l.website, email := l.email, status := l.status) == l
  {
    l.(website := Some(page.website.GetOr("")),
       email := Some(page.email.GetOr("")),
       status := DetailCrawled)
  }

  /** The ids of the pending listings. */
  function PendingIds(m: map<string, Listing>): set<string> {
    set id | id in m && m[id].status == DetailCrawlPending
  }

  /** The store after the pass: pending listings enriched from the page at
    * their link, the others as they were. The pass never adds or removes a
    * listing, leaves nothing pending, always fills website and email of what
    * it enriches, and changes no other field. */
  function EnrichAll(m: map<string, Listing>, detailAt: string -> DetailPage): (r: map<string, Listing>)
    ensures r.Keys == m.Keys
    ensures forall id :: id in r ==> r[id].status == DetailCrawled
    ensures forall id :: id in m && m[id].status == DetailCrawled ==> r[id] == m[id]
    ensures forall id :: id in m && m[id].status == DetailCrawlPending ==>
      r[id].website.Some? && r[id].email.Some?
      && r[id].(website := m[id].website, email := m[id].email, status := m[id].status) == m[id]
  {
    map id | id in m :: if m[id].status == DetailCrawlPending then Enriched(m[id], detailAt(m[id].link)) else m[id]
  }

  /** `results.filter((result) => result.status === 'detail-crawl-pending')`. */
  function Pending(rs: seq<Listing>): (r: seq<Listing>)
    ensures forall i :: 0 <= i < |r| ==> r[i].status == DetailCrawlPending && r[i] in rs
    ensures forall i :: 0 <= i < |rs| && rs[i].status == DetailCrawlPending ==> rs[i] in r
    ensures DistinctIds(rs) ==> DistinctIds(r)
  {
    if rs == [] then []
    else
      var rest := Pending(rs[1..]);
      assert forall x :: x in rest ==> x in rs[1..];
      if rs[0].status == DetailCrawlPending then
        assert DistinctIds(rs) ==> forall x :: x in rest ==> x.id != rs[0].id;
        [rs[0]] + rest
      else
        rest
  }

  /** Nothing pending: the pass changes nothing. */
  lemma NothingPendingNoChange(m: map<string, Listing>, detailAt: string -> DetailPage)
    requires PendingIds(m) == {}
    ensures EnrichAll(m, detailAt) == m
  {
    forall id | id in m
      ensures m[id].status == DetailCrawled
    {
      assert id !in PendingIds(m);
    }
  }

  /** A second pass finds nothing to do. */
  lemma EnrichAllIdempotent(m: map<string, Listing>, detailAt: string -> DetailPage)
    ensures EnrichAll(EnrichAll(m, detailAt), detailAt) == EnrichAll(m, detailAt)
  {
    var once := EnrichAll(m, detailAt);
    assert PendingIds(once) == {};
    NothingPendingNoChange(once, detailAt);
  }

  /** The pass keeps the number of listings, so the stored count stays right. */
  lemma EnrichAllKeepsCount(m: map<string, Listing>, detailAt: string -> DetailPage)
    ensures |EnrichAll(m, detailAt)| == |m|
  {
    assert EnrichAll(m, detailAt).Keys == m.Keys;
  }

  /** The store part-way through the pass: the listings in `done` enriched. */
  ghost function PartlyEnriched(m: map<string, Listing>, detailAt: string -> DetailPage, done: set<string>): map<string, Listing> {
    map id | id in m :: if id in done then Enriched(m[id], detailAt(m[id].link)) else m[id]
  }

  /** Enriching part of the store keeps its keys, its size and each listing
    * under its own id. */
  lemma PartlyEnrichedValid(m: map<string, Listing>, detailAt: string -> DetailPage, done: set<string>)
    requires forall id :: id in m ==> m[id].id == id
    ensures PartlyEnriched(m, detailAt, done).Keys == m.Keys
    ensures |PartlyEnriched(m, detailAt, done)| == |m|
    ensures forall id :: id in PartlyEnriched(m, detailAt, done) ==> PartlyEnriched(m, detailAt, done)[id].id == id
  {
    assert PartlyEnriched(m, detailAt, done).Keys == m.Keys;
  }

  /** `crawlDetails`: walk the pending listings, read each detail page and
    * write the enriched listing back under its id. Returns the listings whose
    * pages were opened: each pending listing exactly once. */
  method Enrich(store: ResultStore, detailAt: string -> DetailPage) returns (visited: seq<Listing>)
    requires store.Valid()
    modifies store
    ensures store.Valid()
    ensures store.results == EnrichAll(old(store.results), detailAt)
    ensures Ids(visited) == PendingIds(old(store.results)) && DistinctIds(visited)
    ensures forall i :: 0 <= i < |visited| ==>
      visited[i].id in old(store.results) && visited[i] == old(store.results)[visited[i].id]
  {
    var results := store.GetResults();
    visited := Pending(results);
    PendingFacts(store.results, results, visited);
    ghost var start := store.results;
    VisitAll(store, detailAt, visited);
    PartlyEnrichedValid(start, detailAt, Ids(visited));
    AllPendingDone(start, detailAt);
  }

  /** The `for` loop over the pending listings. */
  method VisitAll(store: ResultStore, detailAt: string -> DetailPage, pending: seq<Listing>)
    requires DistinctIds(pending)
    requires forall k :: 0 <= k < |pending| ==> pending[k].id in store.results && store.results[pending[k].id] == pending[k]
    modifies store
    ensures store.results == PartlyEnriched(old(store.results), detailAt, Ids(pending))
    ensures store.resultCount == old(store.resultCount)
  {
    ghost var start := store.results;
    var i := 0;
    while i < |pending|
      invariant 0 <= i <= |pending|
      invariant store.resultCount == old(store.resultCount)
      invariant store.results == PartlyEnriched(start, detailAt, Ids(pending[..i]))
    {
      var result := pending[i];
      var page := detailAt(result.link);
      var website := "";
      if page.website.Some? { website := page.website.value; }
      var email := "";
      if page.email.Some? { email := page.email.value; }
      assert website == page.website.GetOr("") && email == page.email.GetOr("");
      EnrichStep(start, detailAt, pending, i);
      store.UpdateResult(result.id, result.(website := Some(website), email := Some(email), status := DetailCrawled));
      i := i + 1;
    }
    assert pending[..i] == pending;
  }

  /** Enriching exactly the pending listings is the whole pass. */
  lemma AllPendingDone(m: map<string, Listing>, detailAt: string -> DetailPage)
    ensures PartlyEnriched(m, detailAt, PendingIds(m)) == EnrichAll(m, detailAt)
  {
  }

  /** What the filtered list is, given what `getResults` promises. */
  lemma PendingFacts(m: map<string, Listing>, results: seq<Listing>, pending: seq<Listing>)
    requires Ids(results) == m.Keys && DistinctIds(results)
    requires forall i :: 0 <= i < |results| ==> results[i].id in m && m[results[i].id] == results[i]
    requires pending == Pending(results)
    ensures Ids(pending) == PendingIds(m) && DistinctIds(pending)
    ensures forall i :: 0 <= i < |pending| ==> pending[i].id in m && m[pending[i].id] == pending[i]
  {
    forall id | id in PendingIds(m)
      ensures id in Ids(pending)
    {
      var j :| 0 <= j < |results| && results[j].id == id;
      var k :| 0 <= k < |pending| && pending[k] == results[j];
    }
  }

  /** One step of the walk: enriching the next listing extends the enriched
    * set by its id. */
  lemma EnrichStep(start: map<string, Listing>, detailAt: string -> DetailPage, pending: seq<Listing>, i: int)
    requires 0 <= i < |pending| && DistinctIds(pending)
    requires forall k :: 0 <= k < |pending| ==> pending[k].id in start && start[pending[k].id] == pending[k]
    ensures var r := pending[i];
      var page := detailAt(r.link);
      PartlyEnriched(start, detailAt, Ids(pending[..i]))[r.id := r.(website := Some(page.website.GetOr("")), email := Some(page.email.GetOr("")), status := DetailCrawled)]
        == PartlyEnriched(start, detailAt, Ids(pending[..i + 1]))
  {
    assert pending[..i + 1] == pending[..i] + [pending[i]];
    IdsSnoc(pending[..i], pending[i]);
  }
}
