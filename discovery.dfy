/**
 * The discovery pass of index.js, `crawlDasOertliche`: probe the result
 * count, walk the result pages and store a pending listing for every result
 * block.
 *
 * The browser is not modelled. `probe` maps a URL to the text of the
 * result-count element, `fetchPage` maps a result-page URL to the result
 * blocks on it, and `idOf` is the MD5 hex digest of a link.
 */
module Discovery {
  import opened Wrappers
  import opened Text
  import opened Utils
  import opened Store
  import opened Crawler

  // ---------------------------------------------------------------- result blocks

  /** What the discovery pass reads from one `#hitwrap > .hit` element: the
    * heading's text and link, the category text, the address text (lines
    * separated by `\n`) and the text of each contact-number block. */
  datatype RawBlock = RawBlock(
    name: string,
    link: string,
    category: string,
    addressText: string,
    contactTexts: seq<string>)

  /** `lines.filter((line) => line !== '')`. */
  function NonEmptyLines(lines: seq<string>): (r: seq<string>)
    ensures forall i :: 0 <= i < |r| ==> r[i] != [] && r[i] in lines
    ensures forall i :: 0 <= i < |lines| && lines[i] != [] ==> lines[i] in r
  {
    if lines == [] then []
    else (if lines[0] != [] then [lines[0]] else []) + NonEmptyLines(lines[1..])
  }

  /** Filtering a concatenation filters each part: the kept lines stay in
    * their order and keep their number. */
  lemma {:induction false} NonEmptyLinesConcat(a: seq<string>, b: seq<string>)
    ensures NonEmptyLines(a + b) == NonEmptyLines(a) + NonEmptyLines(b)
  {
    if a != [] {
      assert (a + b)[1..] == a[1..] + b;
      NonEmptyLinesConcat(a[1..], b);
    } else {
      assert a + b == b;
    }
  }

  /** A single line is kept exactly when it is not empty. */
  lemma NonEmptyLinesOne(line: string)
    ensures NonEmptyLines([line]) == if line != [] then [line] else []
  {
    assert [line][1..] == [];
  }

  /** The address text with its empty lines dropped and the others joined
    * with `|`, the form `parseAddress` reads; it is empty exactly when every
    * line is. */
  function AddressText(text: string): (r: string)
    ensures '\n' !in r
    ensures r == [] <==> NonEmptyLines(Split(text, '\n')) == []
  {
    var lines := NonEmptyLines(Split(text, '\n'));
    JoinAvoids(lines, '|', '\n');
    Join(lines, '|')
  }

  /** When the address text has no `|` of its own, `parseAddress` sees exactly
    * its non-empty lines; with none at all it yields `null`. */
  lemma AddressTextLines(text: string)
    requires '|' !in text
    ensures var lines := NonEmptyLines(Split(text, '\n'));
      (lines != [] ==> Split(AddressText(text), '|') == lines)
      && (lines == [] <==> ParseAddress(Some(AddressText(text))) == None)
  {
    var lines := NonEmptyLines(Split(text, '\n'));
    JoinSplit(text, '\n');
    forall i | 0 <= i < |lines|
      ensures '|' !in lines[i]
    {
      var whole := Split(text, '\n');
      var k :| 0 <= k < |whole| && whole[k] == lines[i];
      SplitAvoids(text, '\n', '|', k);
    }
    if lines != [] {
      SplitJoin(lines, '|');
      assert lines[0] != [];
      assert AddressText(text) != [];
    }
  }

  /** One `parseContactNumber` result per contact block, in order. */
  function NumbersOf(texts: seq<string>): seq<Option<ContactNumber>> {
    seq(|texts|, i requires 0 <= i < |texts| => ParseContactNumber(Some(texts[i])))
  }

  /** The loop that fills `numbers`: one parsed number per contact text, in
    * document order. */
  method ParseNumbers(texts: seq<string>) returns (numbers: seq<Option<ContactNumber>>)
    ensures |numbers| == |texts|
    ensures forall i :: 0 <= i < |texts| ==> numbers[i] == ParseContactNumber(Some(texts[i]))
  {
    numbers := [];
    var i := 0;
    while i < |texts|
      invariant 0 <= i <= |texts|
      invariant |numbers| == i
      invariant forall k :: 0 <= k < i ==> numbers[k] == ParseContactNumber(Some(texts[k]))
    {
      numbers := numbers + [ParseContactNumber(Some(texts[i]))];
      i := i + 1;
    }
  }

  /** The record the discovery pass stores for a block: filed under the hash
    * of its link, pending, without website or email, one number per contact
    * block, and an address exactly when the address has a non-empty line. */
  function ListingOf(b: RawBlock, idOf: string -> string): (r: Listing)
    ensures r.id == idOf(b.link) && r.name == b.name && r.link == b.link && r.category == b.category
    ensures r.status == DetailCrawlPending && r.website == None && r.email == None
    ensures r.provider == "dasoertliche"
    ensures |r.numbers| == |b.contactTexts|
    ensures r.address.None? <==> NonEmptyLines(Split(b.addressText, '\n')) == []
  {
    Listing(
      idOf(b.link), b.name, b.link, b.category,
      ParseAddress(Some(AddressText(b.addressText))),
      NumbersOf(b.contactTexts),
      None, None, "dasoertliche", DetailCrawlPending)
  }

  /** `f` applied to each element, in order. */
  function Mapped<A, B>(f: A -> B, xs: seq<A>): (r: seq<B>)
    ensures |r| == |xs|
  {
    if xs == [] then [] else Mapped(f, xs[..|xs| - 1]) + [f(xs[|xs| - 1])]
  }

  lemma {:induction false} MappedAt<A, B>(f: A -> B, xs: seq<A>, i: int)
    requires 0 <= i < |xs|
    ensures Mapped(f, xs)[i] == f(xs[i])
  {
    var init := xs[..|xs| - 1];
    if i < |init| {
      MappedAt(f, init, i);
      assert Mapped(f, xs)[i] == Mapped(f, init)[i];
    }
  }

  lemma MappedSnoc<A, B>(f: A -> B, xs: seq<A>, x: A)
    ensures Mapped(f, xs + [x]) == Mapped(f, xs) + [f(x)]
  {
    assert (xs + [x])[..|xs|] == xs;
  }

  lemma {:induction false} MappedConcat<A, B>(f: A -> B, xs: seq<A>, ys: seq<A>)
    ensures Mapped(f, xs + ys) == Mapped(f, xs) + Mapped(f, ys)
  {
    if ys == [] {
      assert xs + ys == xs;
    } else {
      var init, y := ys[..|ys| - 1], ys[|ys| - 1];
      assert ys == init + [y];
      assert xs + ys == (xs + init) + [y];
      MappedConcat(f, xs, init);
      MappedSnoc(f, xs + init, y);
      MappedSnoc(f, init, y);
    }
  }

  /** The records for a list of blocks, in order. */
  function Records(blocks: seq<RawBlock>, idOf: string -> string): (r: seq<Listing>)
    ensures |r| == |blocks|
  {
    Mapped(b => ListingOf(b, idOf), blocks)
  }

  /** The record at position `i` is the one built from block `i`. */
  lemma RecordAt(blocks: seq<RawBlock>, idOf: string -> string, i: int)
    requires 0 <= i < |blocks|
    ensures Records(blocks, idOf)[i] == ListingOf(blocks[i], idOf)
  {
    MappedAt(b => ListingOf(b, idOf), blocks, i);
  }

  lemma RecordsSnoc(blocks: seq<RawBlock>, b: RawBlock, idOf: string -> string)
    ensures Records(blocks + [b], idOf) == Records(blocks, idOf) + [ListingOf(b, idOf)]
  {
    MappedSnoc(b => ListingOf(b, idOf), blocks, b);
  }

  lemma RecordsConcat(a: seq<RawBlock>, b: seq<RawBlock>, idOf: string -> string)
    ensures Records(a + b, idOf) == Records(a, idOf) + Records(b, idOf)
  {
    MappedConcat(b => ListingOf(b, idOf), a, b);
  }

  /** The link hashes of a list of blocks. */
  function BlockIds(blocks: seq<RawBlock>, idOf: string -> string): set<string> {
    set j | 0 <= j < |blocks| :: idOf(blocks[j].link)
  }

  /** A record's id depends only on its link: the records' ids are the
    * blocks' link hashes. */
  lemma RecordIds(blocks: seq<RawBlock>, idOf: string -> string)
    ensures Ids(Records(blocks, idOf)) == BlockIds(blocks, idOf)
  {
    var r := Records(blocks, idOf);
    forall j | 0 <= j < |blocks| ensures r[j].id == idOf(blocks[j].link) {
      RecordAt(blocks, idOf, j);
    }
  }

  /** Storing the blocks' records adds exactly the blocks' link hashes as
    * keys, so blocks sharing a link are stored once. */
  lemma DiscoveredKeys(m: map<string, Listing>, blocks: seq<RawBlock>, idOf: string -> string)
    ensures StoreAll(m, Records(blocks, idOf)).Keys == m.Keys + BlockIds(blocks, idOf)
  {
    StoreAllKeys(m, Records(blocks, idOf));
    RecordIds(blocks, idOf);
  }

  /** A rediscovered listing is written afresh: pending, filed under its own
    * id, with no website and no email, whatever it held before. */
  lemma RediscoveryResets(m: map<string, Listing>, blocks: seq<RawBlock>, idOf: string -> string, j: int)
    requires 0 <= j < |blocks|
    ensures idOf(blocks[j].link) in StoreAll(m, Records(blocks, idOf))
    ensures var l := StoreAll(m, Records(blocks, idOf))[idOf(blocks[j].link)];
      l.id == idOf(blocks[j].link) && l.status == DetailCrawlPending
      && l.website == None && l.email == None && l.provider == "dasoertliche"
  {
    var r := Records(blocks, idOf);
    var id := idOf(blocks[j].link);
    RecordAt(blocks, idOf, j);
    StoreAllLookup(m, r, id);
    var k := LastFor(r, id);
    assert k >= j;
    RecordAt(blocks, idOf, k);
  }

  /** The URL of the probe search; a template without `{{search}}` is used as
    * it stands. */
  function ProbeUrl(c: Config): (r: string)
    ensures !Occurs(c.provider.resultProbeUrl, Placeholder("search")) ==> r == c.provider.resultProbeUrl
  {
    ResolveAll(c.provider.resultProbeUrl, [("search", c.search)])
  }

  /** `String(n)`: an optional minus sign and the decimal digits. */
  function NumberText(n: int): (r: string)
    ensures BraceFree(r)
  {
    if n < 0 then "-" + Decimal(-n) else Decimal(n)
  }

  /** Distinct numbers print differently. */
  lemma NumberTextInjective(x: int, y: int)
    ensures NumberText(x) == NumberText(y) ==> x == y
  {
    if NumberText(x) == NumberText(y) {
      var dx, dy := if x < 0 then Decimal(-x) else Decimal(x), if y < 0 then Decimal(-y) else Decimal(y);
      assert (x < 0) == (y < 0) by {
        assert NumberText(x)[0] == '-' <==> x < 0;
        assert NumberText(y)[0] == '-' <==> y < 0;
      }
      assert dx == dy by {
        if x < 0 { assert dx == NumberText(x)[1..]; assert dy == NumberText(y)[1..]; }
      }
      DecimalRoundTrip(if x < 0 then -x else x);
      DecimalRoundTrip(if y < 0 then -y else y);
    }
  }

  /** The URL of the result page that starts at `from`; a template without
    * either placeholder is used as it stands. */
  function PageUrl(c: Config, from: int): (r: string)
    ensures (!Occurs(c.provider.resultUrl, Placeholder("search"))
             && !Occurs(c.provider.resultUrl, Placeholder("resultsFrom"))) ==> r == c.provider.resultUrl
  {
    ResolveAll(c.provider.resultUrl, [("search", c.search), ("resultsFrom", NumberText(from))])
  }

  /** A probe template `<a>{{search}}` gives `<a>` followed by the search term. */
  lemma ProbeUrlOf(c: Config, a: string)
    requires c.provider.resultProbeUrl == a + Placeholder("search")
    requires BraceFree(a) && BraceFree(c.search)
    ensures ProbeUrl(c) == a + c.search
  {
    OneSlot(a, "search", c.search);
  }

  /** A page template `<a>{{search}}<b>{{resultsFrom}}` gives `<a>`, the search
    * term, `<b>` and the offset printed in decimal. */
  lemma PageUrlOf(c: Config, a: string, b: string, from: int)
    requires c.provider.resultUrl == a + Placeholder("search") + b + Placeholder("resultsFrom")
    requires BraceFree(a) && BraceFree(b) && BraceFree(c.search)
    ensures PageUrl(c, from) == a + c.search + b + NumberText(from)
  {
    TwoSlots(a, "search", c.search, b, "resultsFrom", NumberText(from));
  }

  /** With such a template, distinct offsets give distinct page URLs. */
  lemma DistinctPageUrls(c: Config, a: string, b: string, x: int, y: int)
    requires c.provider.resultUrl == a + Placeholder("search") + b + Placeholder("resultsFrom")
    requires BraceFree(a) && BraceFree(b) && BraceFree(c.search)
    ensures x != y ==> PageUrl(c, x) != PageUrl(c, y)
  {
    PageUrlOf(c, a, b, x);
    PageUrlOf(c, a, b, y);
    var prefix := a + c.search + b;
    if PageUrl(c, x) == PageUrl(c, y) {
      assert NumberText(x) == (prefix + NumberText(x))[|prefix|..];
      assert NumberText(y) == (prefix + NumberText(y))[|prefix|..];
      NumberTextInjective(x, y);
    }
  }

  /** The blocks of the pages at `offsets`, page after page. */
  function PagesBlocks(c: Config, offsets: seq<int>, fetchPage: string -> seq<RawBlock>): seq<RawBlock> {
    if offsets == [] then []
    else PagesBlocks(c, offsets[..|offsets| - 1], fetchPage) + fetchPage(PageUrl(c, offsets[|offsets| - 1]))
  }

  lemma PagesBlocksSnoc(c: Config, offsets: seq<int>, v: int, fetchPage: string -> seq<RawBlock>)
    ensures PagesBlocks(c, offsets + [v], fetchPage) == PagesBlocks(c, offsets, fetchPage) + fetchPage(PageUrl(c, v))
  {
    assert (offsets + [v])[..|offsets|] == offsets;
  }

  /** The offsets a discovery pass with `stride` visits. */
  function VisitedOffsets(c: Config, stride: JsNumber, probe: string -> string): seq<int>
    requires Advances(stride)
  {
    Offsets(Finite(1), stride, ParseInt(probe(ProbeUrl(c))), c.crawling.maxResults)
  }

  /** The body of the block loop: read name, link, category, address and
    * contact numbers and build the pending record. */
  method ParseBlock(b: RawBlock, idOf: string -> string) returns (listing: Listing)
    ensures listing == ListingOf(b, idOf)
  {
    var numbers := ParseNumbers(b.contactTexts);
    var address := ParseAddress(Some(AddressText(b.addressText)));
    listing := Listing(idOf(b.link), b.name, b.link, b.category, address, numbers,
                       None, None, "dasoertliche", DetailCrawlPending);
  }

  /** The loop over one page's blocks: parse each block and store its record. */
  method StoreBlocks(store: ResultStore, blocks: seq<RawBlock>, idOf: string -> string)
    requires store.Valid()
    modifies store
    ensures store.Valid()
    ensures store.results == StoreAll(old(store.results), Records(blocks, idOf))
  {
    ghost var start := store.results;
    var j := 0;
    while j < |blocks|
      invariant 0 <= j <= |blocks|
      invariant store.Valid()
      invariant store.results == StoreAll(start, Records(blocks[..j], idOf))
    {
      var listing := ParseBlock(blocks[j], idOf);
      store.StoreResult(listing);
      StoredOneMore(start, blocks, j, idOf);
      j := j + 1;
    }
    assert blocks[..j] == blocks;
  }

  /** Storing the next block's record extends the stored prefix by one. */
  lemma StoredOneMore(start: map<string, Listing>, blocks: seq<RawBlock>, j: int, idOf: string -> string)
    requires 0 <= j < |blocks|
    ensures StoreAll(start, Records(blocks[..j + 1], idOf))
      == StoreAll(start, Records(blocks[..j], idOf))[ListingOf(blocks[j], idOf).id := ListingOf(blocks[j], idOf)]
  {
    assert blocks[..j + 1] == blocks[..j] + [blocks[j]];
    RecordsSnoc(blocks[..j], blocks[j], idOf);
    StoreAllSnoc(start, Records(blocks[..j], idOf), ListingOf(blocks[j], idOf));
  }

  /** One pass of the page loop: open the result page at `from` and store its
    * blocks. */
  method CrawlPage(store: ResultStore, c: Config, from: int, fetchPage: string -> seq<RawBlock>,
                   idOf: string -> string)
    requires store.Valid()
    modifies store
    ensures store.Valid()
    ensures store.results == StoreAll(old(store.results), Records(fetchPage(PageUrl(c, from)), idOf))
  {
    var url := ResolvePlaceholder(c.provider.resultUrl, [("search", c.search), ("resultsFrom", NumberText(from))]);
    var blocks := fetchPage(url);
    StoreBlocks(store, blocks, idOf);
  }

  /** `crawlDasOertliche`: probe the result count, then visit result pages
    * from offset 1 while the offset is within the count and the limit, and
    * store a pending record for every block. */
  method Discover(store: ResultStore, c: Config, stride: JsNumber, probe: string -> string,
                  fetchPage: string -> seq<RawBlock>, idOf: string -> string)
    returns (offsets: seq<int>)
    requires store.Valid()
    requires Advances(stride)
    modifies store
    ensures store.Valid()
    ensures offsets == VisitedOffsets(c, stride, probe)
    ensures store.results == StoreAll(old(store.results), Records(PagesBlocks(c, offsets, fetchPage), idOf))
  {
    var probeUrl := ResolvePlaceholder(c.provider.resultProbeUrl, [("search", c.search)]);
    var resultAmount := ParseInt(probe(probeUrl));
    offsets := PageLoop(store, c, stride, resultAmount, fetchPage, idOf);
  }

  /** Storing one more page extends the stored blocks by that page's. */
  lemma PageStored(start: map<string, Listing>, c: Config, offsets: seq<int>, v: int,
                   fetchPage: string -> seq<RawBlock>, idOf: string -> string)
    ensures StoreAll(StoreAll(start, Records(PagesBlocks(c, offsets, fetchPage), idOf)), Records(fetchPage(PageUrl(c, v)), idOf))
      == StoreAll(start, Records(PagesBlocks(c, offsets + [v], fetchPage), idOf))
  {
    var done, page := PagesBlocks(c, offsets, fetchPage), fetchPage(PageUrl(c, v));
    StoreAllConcat(start, Records(done, idOf), Records(page, idOf));
    RecordsConcat(done, page, idOf);
    PagesBlocksSnoc(c, offsets, v, fetchPage);
  }

  lemma NextOffset(offsets: seq<int>, from: JsNumber, stride: JsNumber, amount: JsNumber, maxResults: int)
    requires Advances(stride)
    requires AtMost(from, amount) && AtMost(from, Finite(maxResults))
    ensures offsets + Offsets(from, stride, amount, maxResults)
      == (offsets + [from.value]) + Offsets(Plus(from, stride), stride, amount, maxResults)
  {
    OffsetsStep(from, stride, amount, maxResults);
  }

  /** The `while` loop of the discovery pass, for a probed `resultAmount`. */
  method PageLoop(store: ResultStore, c: Config, stride: JsNumber, resultAmount: JsNumber,
                  fetchPage: string -> seq<RawBlock>, idOf: string -> string)
    returns (offsets: seq<int>)
    requires store.Valid()
    requires Advances(stride)
    modifies store
    ensures store.Valid()
    ensures offsets == Offsets(Finite(1), stride, resultAmount, c.crawling.maxResults)
    ensures store.results == StoreAll(old(store.results), Records(PagesBlocks(c, offsets, fetchPage), idOf))
  {
    var resultsFrom := Finite(1);
    var maxResults := c.crawling.maxResults;
    ghost var all := Offsets(resultsFrom, stride, resultAmount, maxResults);
    ghost var start := store.results;
    offsets := [];
    assert [] + all == all;
    while AtMost(resultsFrom, resultAmount) && AtMost(resultsFrom, Finite(maxResults))
      invariant store.Valid()
      invariant offsets + Offsets(resultsFrom, stride, resultAmount, maxResults) == all
      invariant store.results == StoreAll(start, Records(PagesBlocks(c, offsets, fetchPage), idOf))
      decreases |Offsets(resultsFrom, stride, resultAmount, maxResults)|
    {
      CrawlPage(store, c, resultsFrom.value, fetchPage, idOf);
      PageStored(start, c, offsets, resultsFrom.value, fetchPage, idOf);
      NextOffset(offsets, resultsFrom, stride, resultAmount, maxResults);
      offsets := offsets + [resultsFrom.value];
      resultsFrom := Plus(resultsFrom, stride);
    }
    OffsetsStop(resultsFrom, stride, resultAmount, maxResults);
    assert offsets + [] == offsets;
  }
}
