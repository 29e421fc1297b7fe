/**
 * The result store of index.js: the JSON database's `/results` object, keyed
 * by listing id, and its `/resultCount` scalar, with the helpers
 * `resultCount`, `storeResult`, `getResults`, `getResult` and `updateResult`.
 */
module Store {
  import opened Wrappers
  import opened Utils

  /** The two values the source writes into `status`:
    * `'detail-crawl-pending'` and `'detail-crawled'`. */
  datatype Status = DetailCrawlPending | DetailCrawled

  /** One directory entry as the source stores it. */
  datatype Listing = Listing(
    id: string,
    name: string,
    link: string,
    category: string,
    address: Option<Address>,
    numbers: seq<Option<ContactNumber>>,
    website: Option<string>,
    email: Option<string>,
    provider: string,
    status: Status)

  /** The ids of a list of listings. */
  function Ids(rs: seq<Listing>): set<string> {
    set i | 0 <= i < |rs| :: rs[i].id
  }

  lemma IdsSnoc(rs: seq<Listing>, x: Listing)
    ensures Ids(rs + [x]) == Ids(rs) + {x.id}
  {
    var ext := rs + [x];
    assert forall i :: 0 <= i < |rs| ==> ext[i] == rs[i];
    assert ext[|rs|] == x;
  }

  predicate DistinctIds(rs: seq<Listing>) {
    forall i, j :: 0 <= i < j < |rs| ==> rs[i].id != rs[j].id
  }

  /** Appending a listing with a new id keeps the ids distinct. */
  lemma DistinctSnoc(rs: seq<Listing>, x: Listing)
    requires DistinctIds(rs) && x.id !in Ids(rs)
    ensures DistinctIds(rs + [x]) && Ids(rs + [x]) == Ids(rs) + {x.id}
    ensures forall i :: 0 <= i < |rs| ==> (rs + [x])[i] == rs[i]
  {
    IdsSnoc(rs, x);
    var ext := rs + [x];
    forall i, j | 0 <= i < j < |ext| ensures ext[i].id != ext[j].id {
      if j == |rs| {
        assert ext[i] == rs[i];
      }
    }
  }

  /** A list with distinct ids has as many ids as entries. */
  lemma {:induction false} DistinctIdsCount(rs: seq<Listing>)
    requires DistinctIds(rs)
    ensures |Ids(rs)| == |rs|
  {
    if rs != [] {
      var init := rs[..|rs| - 1];
      assert DistinctIds(init);
      DistinctIdsCount(init);
      assert rs == init + [rs[|rs| - 1]];
      IdsSnoc(init, rs[|rs| - 1]);
      assert rs[|rs| - 1].id !in Ids(init);
    }
  }

  /** The listings of a map filed by id, each once, in an order the model
    * leaves open. */
  method Listings(m: map<string, Listing>) returns (rs: seq<Listing>)
    requires forall id :: id in m ==> m[id].id == id
    ensures Ids(rs) == m.Keys
    ensures DistinctIds(rs)
    ensures forall i :: 0 <= i < |rs| ==> rs[i].id in m && m[rs[i].id] == rs[i]
  {
    rs := [];
    var left := m.Keys;
    while left != {}
      invariant left <= m.Keys
      invariant Ids(rs) !! left && Ids(rs) + left == m.Keys
      invariant DistinctIds(rs)
      invariant forall i :: 0 <= i < |rs| ==> rs[i].id in m && m[rs[i].id] == rs[i]
      decreases left
    {
      var id :| id in left;
      var x := m[id];
      assert x.id == id && id !in Ids(rs);
      DistinctSnoc(rs, x);
      rs := rs + [x];
      left := left - {id};
    }
  }

  /** A list holding each key of `m` exactly once is as long as `m`. */
  lemma ListedOnce(rs: seq<Listing>, m: map<string, Listing>)
    requires Ids(rs) == m.Keys && DistinctIds(rs)
    ensures |rs| == |m|
  {
    DistinctIdsCount(rs);
    assert |m.Keys| == |m|;
  }

  class ResultStore {
    /** `/results`: listing id to listing. */
    var results: map<string, Listing>
    /** `/resultCount`. */
    var resultCount: int

    /** Every listing is filed under its own id. */
    ghost predicate KeysAreIds()
      reads this
    {
      forall id :: id in results ==> results[id].id == id
    }

    /** The store's invariant: ids as keys and a count equal to the number of
      * distinct ids. */
    ghost predicate Valid()
      reads this
    {
      KeysAreIds() && resultCount == |results|
    }

    /** Opens the database file with whatever an earlier run left in it. */
    constructor Open(saved: map<string, Listing>, savedCount: int)
      ensures results == saved && resultCount == savedCount
    {
      results := saved;
      resultCount := savedCount;
    }

    /** Start-up: the count is set to 0 and the results to `{}`, so every run
      * begins from an empty store. */
    method Reset()
      modifies this
      ensures Valid()
      ensures results == map[] && resultCount == 0
    {
      resultCount := 0;
      results := map[];
    }

    /** `resultCount()`: the stored count, which is the number of stored ids. */
    method ResultCount() returns (n: int)
      requires Valid()
      ensures n == |results|
    {
      n := resultCount;
    }

    /** `storeResult`: upsert by id, then recount. */
    method StoreResult(r: Listing)
      requires Valid()
      modifies this
      ensures Valid()
      ensures results == old(results)[r.id := r]
      ensures resultCount == if r.id in old(results) then old(resultCount) else old(resultCount) + 1
    {
      results := results[r.id := r];
      var all := GetResults();
      resultCount := |all|;
    }

    /** `getResults()`: every stored listing once, in an order the model
      * leaves open. */
    method GetResults() returns (rs: seq<Listing>)
      requires KeysAreIds()
      ensures Ids(rs) == results.Keys
      ensures DistinctIds(rs)
      ensures |rs| == |results|
      ensures forall i :: 0 <= i < |rs| ==> rs[i].id in results && results[rs[i].id] == rs[i]
    {
      rs := Listings(results);
      ListedOnce(rs, results);
    }

    /** `getResult(id)`: the listing filed under `id`; the database's
      * missing-path error is `None`. */
    method GetResult(id: string) returns (r: Option<Listing>)
      ensures r.Some? <==> id in results
      ensures r.Some? ==> r.value == results[id]
    {
      if id in results {
        r := Some(results[id]);
      } else {
        r := None;
      }
    }

    /** `updateResult`: overwrite the listing under `id`; the count is not
      * touched. */
    method UpdateResult(id: string, r: Listing)
      modifies this
      ensures results == old(results)[id := r]
      ensures resultCount == old(resultCount)
    {
      results := results[id := r];
    }
  }

  // ---------------------------------------------------------------- a run of storeResult calls

  /** The results after `storeResult` of each record of `records`, in order:
    * no stored id is lost, and the last record is kept under its id. */
  function StoreAll(m: map<string, Listing>, records: seq<Listing>): (r: map<string, Listing>)
    ensures m.Keys <= r.Keys
    ensures records != [] ==> var l := records[|records| - 1]; l.id in r && r[l.id] == l
  {
    if records == [] then m
    else
      var l := records[|records| - 1];
      StoreAll(m, records[..|records| - 1])[l.id := l]
  }

  /** The position of the last record with id `id`, or -1. */
  function LastFor(records: seq<Listing>, id: string): (j: int)
    ensures -1 <= j < |records|
    ensures j >= 0 ==> records[j].id == id
    ensures forall k :: j < k < |records| ==> records[k].id != id
  {
    if records == [] then -1
    else if records[|records| - 1].id == id then |records| - 1
    else LastFor(records[..|records| - 1], id)
  }

  lemma StoreAllSnoc(m: map<string, Listing>, records: seq<Listing>, l: Listing)
    ensures StoreAll(m, records + [l]) == StoreAll(m, records)[l.id := l]
  {
    assert (records + [l])[..|records|] == records;
  }

  /** Storing is an upsert by id: a key is present exactly when it was before
    * or some record has it as id, the last such record wins, and every other
    * entry is untouched. */
  lemma {:induction false} StoreAllLookup(m: map<string, Listing>, records: seq<Listing>, id: string)
    ensures id in StoreAll(m, records) <==> id in m || LastFor(records, id) >= 0
    ensures LastFor(records, id) >= 0 ==> StoreAll(m, records)[id] == records[LastFor(records, id)]
    ensures LastFor(records, id) < 0 && id in m ==> StoreAll(m, records)[id] == m[id]
  {
    if records != [] {
      var init := records[..|records| - 1];
      StoreAllLookup(m, init, id);
      if records[|records| - 1].id != id {
        assert LastFor(records, id) == LastFor(init, id);
        if LastFor(init, id) >= 0 {
          assert records[LastFor(init, id)] == init[LastFor(init, id)];
        }
      }
    }
  }

  /** The keys after storing are the old keys and the records' ids, so the
    * count `storeResult` writes counts records sharing an id once. */
  lemma StoreAllKeys(m: map<string, Listing>, records: seq<Listing>)
    ensures StoreAll(m, records).Keys == m.Keys + Ids(records)
  {
    forall id
      ensures id in StoreAll(m, records) <==> id in m || id in Ids(records)
    {
      StoreAllLookup(m, records, id);
      if id in Ids(records) {
        var j :| 0 <= j < |records| && records[j].id == id;
        assert LastFor(records, id) >= j;
      }
    }
  }

  /** Every stored record is filed under its own id, as long as the records
    * already there are. */
  lemma StoreAllKeysAreIds(m: map<string, Listing>, records: seq<Listing>)
    requires forall id :: id in m ==> m[id].id == id
    ensures forall id :: id in StoreAll(m, records) ==> StoreAll(m, records)[id].id == id
  {
    forall id | id in StoreAll(m, records)
      ensures StoreAll(m, records)[id].id == id
    {
      StoreAllLookup(m, records, id);
    }
  }

  /** Storing the same records twice leaves the store as storing them once. */
  lemma StoreAllIdempotent(m: map<string, Listing>, records: seq<Listing>)
    ensures StoreAll(StoreAll(m, records), records) == StoreAll(m, records)
  {
    var once := StoreAll(m, records);
    var twice := StoreAll(once, records);
    StoreAllKeys(m, records);
    StoreAllKeys(once, records);
    forall id | id in twice
      ensures twice[id] == once[id]
    {
      StoreAllLookup(m, records, id);
      StoreAllLookup(once, records, id);
    }
  }

  /** Storing `a` and then `b` is storing `a + b`. */
  lemma {:induction false} StoreAllConcat(m: map<string, Listing>, a: seq<Listing>, b: seq<Listing>)
    ensures StoreAll(StoreAll(m, a), b) == StoreAll(m, a + b)
  {
    if b == [] {
      assert a + b == a;
    } else {
      var init, l := b[..|b| - 1], b[|b| - 1];
      assert b == init + [l];
      assert a + b == (a + init) + [l];
      calc {
        StoreAll(StoreAll(m, a), b);
        { StoreAllSnoc(StoreAll(m, a), init, l); }
        StoreAll(StoreAll(m, a), init)[l.id := l];
        { StoreAllConcat(m, a, init); }
        StoreAll(m, a + init)[l.id := l];
        { StoreAllSnoc(m, a + init, l); }
        StoreAll(m, a + b);
      }
    }
  }
}
