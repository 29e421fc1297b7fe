/**
 * The program's top level: start-up wipes the store, then the discovery pass
 * and the enrichment pass run one after the other with the shipped
 * configuration.
 */
module Program {
  import opened Store
  import opened Crawler
  import opened Discovery
  import opened Details

  /** The blocks a run reads, page after page, with the page advance the
    * source means (which, for the shipped limits, visits the same pages as
    * the one it wrote). */
  function RunBlocks(probe: string -> string, fetchPage: string -> seq<RawBlock>): seq<RawBlock> {
    PagesBlocks(SourceConfig, VisitedOffsets(SourceConfig, IntendedStride(SourceConfig), probe), fetchPage)
  }

  /** The start-up sequence and both passes. Returns the offsets visited: at
    * most one page, and exactly the ones the code as written visits. */
  method Run(store: ResultStore, probe: string -> string, fetchPage: string -> seq<RawBlock>,
             detailAt: string -> DetailPage, idOf: string -> string)
    returns (offsets: seq<int>)
    modifies store
    ensures store.Valid()
    ensures offsets == VisitedOffsets(SourceConfig, StrideAsWritten(SourceConfig), probe) && |offsets| <= 1
    ensures store.results == EnrichAll(StoreAll(map[], Records(RunBlocks(probe, fetchPage), idOf)), detailAt)
    ensures store.resultCount == |BlockIds(RunBlocks(probe, fetchPage), idOf)|
  {
    store.Reset();
    offsets := Discover(store, SourceConfig, IntendedStride(SourceConfig), probe, fetchPage, idOf);
    var visited := Enrich(store, detailAt);
    SourceStridesAgree(ParseInt(probe(ProbeUrl(SourceConfig))));
    AsWrittenVisitsOnePage(SourceConfig, ParseInt(probe(ProbeUrl(SourceConfig))));
    RunOutcome(RunBlocks(probe, fetchPage), idOf, detailAt);
  }

  /** After a run every stored listing comes from a block read in it, is filed
    * under its own id, is crawled and has its website and email filled in;
    * there is one listing per distinct link hash. */
  lemma RunOutcome(blocks: seq<RawBlock>, idOf: string -> string, detailAt: string -> DetailPage)
    ensures var m := EnrichAll(StoreAll(map[], Records(blocks, idOf)), detailAt);
      m.Keys == BlockIds(blocks, idOf)
      && |m| == |BlockIds(blocks, idOf)|
      && forall id :: id in m ==>
        m[id].id == id && m[id].status == DetailCrawled && m[id].website.Some? && m[id].email.Some?
  {
    var stored := StoreAll(map[], Records(blocks, idOf));
    var m := EnrichAll(stored, detailAt);
    DiscoveredKeys(map[], blocks, idOf);
    assert m.Keys == BlockIds(blocks, idOf);
    forall id | id in stored
      ensures stored[id].id == id && stored[id].status == DetailCrawlPending
    {
      var j :| 0 <= j < |blocks| && idOf(blocks[j].link) == id;
      RediscoveryResets(map[], blocks, idOf, j);
    }
  }
}
