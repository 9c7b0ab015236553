/** The scheduled price-check pass (`price-check.ts`): scan the price table,
    fetch every row's page, extract the current price with the row's
    selector, and write back, as a full row, every row whose price text
    changed.

    The page fetcher and the price extractor are parameters: `fetch` gives a
    page body or fails, `extract` gives the text a selector matches in a body
    (the empty string when it matches nothing) or fails. */
module PriceCheck {

  import opened Common
  import opened Rows

  /** `fetch(url).then(response => response.text())`; `None` is a rejection. */
  type Fetcher = string -> Option<string>

  /** `cheerio.load(body)(selector).text()`; `None` is a thrown error. */
  type Extractor = (string, string) -> Option<string>

  // ---------------------------------------------------------------------
  // The decision, as functions of the scanned rows.

  /** `Promise.all(items.map(({url}) => fetch(url)...))`: every row's page
      is requested; the result is all the bodies, in row order, or a failure
      as soon as any one request fails. */
  function FetchAll(items: seq<PriceRow>, fetch: Fetcher): (bodies: Option<seq<string>>)
    ensures bodies.Some? <==> forall i :: 0 <= i < |items| ==> fetch(items[i].url).Some?
    ensures bodies.Some? ==> |bodies.value| == |items|
    ensures bodies.Some? ==> forall i :: 0 <= i < |items| ==> fetch(items[i].url) == Some(bodies.value[i])
  {
    if |items| == 0 then Some([])
    else
      match fetch(items[0].url)
      case None => None
      case Some(body) =>
        match FetchAll(items[1..], fetch)
        case None => None
        case Some(more) => Some([body] + more)
  }

  /** The extraction half of the `reduce` callback: row i's price is read
      from body i with row i's own selector; the pass fails if any
      extraction throws. */
  function ExtractPrices(items: seq<PriceRow>, bodies: seq<string>, extract: Extractor): (prices: Option<seq<string>>)
    requires |bodies| == |items|
    ensures prices.Some? <==> forall i :: 0 <= i < |items| ==> extract(bodies[i], items[i].selector).Some?
    ensures prices.Some? ==> |prices.value| == |items|
    ensures prices.Some? ==> forall i :: 0 <= i < |items| ==> extract(bodies[i], items[i].selector) == Some(prices.value[i])
  {
    if |items| == 0 then Some([])
    else
      match extract(bodies[0], items[0].selector)
      case None => None
      case Some(price) =>
        match ExtractPrices(items[1..], bodies[1..], extract)
        case None => None
        case Some(more) => Some([price] + more)
  }

  /** The comparison half of the `reduce`: folding left over the rows, a row
      whose extracted price equals its stored price (as strings) adds
      nothing; any other row adds a copy of itself with only `price`
      replaced. */
  function Diff(items: seq<PriceRow>, prices: seq<string>): (diff: seq<PriceRow>)
    requires |prices| == |items|
    ensures |diff| <= |items|
  {
    if |items| == 0 then []
    else
      var n := |items| - 1;
      var acc := Diff(items[..n], prices[..n]);
      if prices[n] == items[n].price then acc else acc + [items[n].(price := prices[n])]
  }

  /** The positions of the rows whose price changed, in increasing order:
      each position at most once, and exactly the positions whose extracted
      price differs from the stored one. */
  function ChangedIndices(items: seq<PriceRow>, prices: seq<string>): (idx: seq<nat>)
    requires |prices| == |items|
    ensures forall k :: 0 <= k < |idx| ==> idx[k] < |items|
    ensures forall j, k :: 0 <= j < k < |idx| ==> idx[j] < idx[k]
    ensures forall i :: 0 <= i < |items| ==> (i in idx <==> prices[i] != items[i].price)
  {
    if |items| == 0 then []
    else
      var n := |items| - 1;
      var acc := ChangedIndices(items[..n], prices[..n]);
      if prices[n] == items[n].price then acc else acc + [n]
  }

  /** What the pass would write for a given scan: `None` when a fetch or an
      extraction fails (nothing is written then), no rows for an empty scan,
      and otherwise the diff. */
  function PlannedWrites(items: seq<PriceRow>, fetch: Fetcher, extract: Extractor): (writes: Option<seq<PriceRow>>)
    ensures writes.Some? ==> |writes.value| <= |items|
  {
    if |items| == 0 then Some([])
    else
      match FetchAll(items, fetch)
      case None => None
      case Some(bodies) =>
        match ExtractPrices(items, bodies, extract)
        case None => None
        case Some(prices) => Some(Diff(items, prices))
  }

  /** The URLs requested for a scan. */
  function Urls(items: seq<PriceRow>): seq<string> {
    seq(|items|, i requires 0 <= i < |items| => items[i].url)
  }

  // ---------------------------------------------------------------------
  // The table, as a map from partition key to row.

  /** Every row is stored under its own `id`. */
  predicate KeyedById(rows: map<string, PriceRow>) {
    forall k :: k in rows ==> rows[k].id == k
  }

  /** `items` lists the table: every row exactly once, in some order. */
  predicate IsListing(items: seq<PriceRow>, rows: map<string, PriceRow>) {
    && (forall i :: 0 <= i < |items| ==> items[i].id in rows && rows[items[i].id] == items[i])
    && (forall i, j :: 0 <= i < j < |items| ==> items[i].id != items[j].id)
    && (forall k :: k in rows ==> exists i :: 0 <= i < |items| && items[i].id == k)
  }

  /** The table after a sequence of full-row puts, applied in order. */
  function ApplyPuts(rows: map<string, PriceRow>, puts: seq<PriceRow>): map<string, PriceRow> {
    if |puts| == 0 then rows
    else
      var last := puts[|puts| - 1];
      ApplyPuts(rows, puts[..|puts| - 1])[last.id := last]
  }

  /** The puts among `puts` that the table acknowledged. */
  function Accepted(puts: seq<PriceRow>, acks: seq<bool>): seq<PriceRow>
    requires |acks| == |puts|
  {
    if |puts| == 0 then []
    else
      var n := |puts| - 1;
      Accepted(puts[..n], acks[..n]) + (if acks[n] then [puts[n]] else [])
  }

  /** A row's stored price is what its page shows now. */
  predicate Current(row: PriceRow, fetch: Fetcher, extract: Extractor) {
    fetch(row.url).Some? && extract(fetch(row.url).value, row.selector) == Some(row.price)
  }

  // ---------------------------------------------------------------------
  // Properties of the diff.

  /** The diff is the changed rows, picked out in their original order,
      each with only `price` replaced by the extracted text. */
  lemma {:induction false} DiffSelectsChanged(items: seq<PriceRow>, prices: seq<string>)
    requires |prices| == |items|
    ensures var diff, idx := Diff(items, prices), ChangedIndices(items, prices);
      && |diff| == |idx|
      && forall k :: 0 <= k < |diff| ==> diff[k] == items[idx[k]].(price := prices[idx[k]])
  {
    if |items| > 0 {
      var n := |items| - 1;
      DiffSelectsChanged(items[..n], prices[..n]);
      assert forall k :: 0 <= k < n ==> items[..n][k] == items[k] && prices[..n][k] == prices[k];
    }
  }

  /** No row changed if and only if the diff is empty. */
  lemma DiffEmptyIffUnchanged(items: seq<PriceRow>, prices: seq<string>)
    requires |prices| == |items|
    ensures Diff(items, prices) == [] <==> forall i :: 0 <= i < |items| ==> prices[i] == items[i].price
  {
    DiffSelectsChanged(items, prices);
    var idx := ChangedIndices(items, prices);
    if Diff(items, prices) != [] {
      assert idx[0] in idx;
    }
  }

  /** Two rows, one whose page still shows the stored price and one whose
      page shows a new one: the diff is the second row alone, repriced. */
  lemma TwoRowsOneChanged(same: PriceRow, moved: PriceRow, newPrice: string)
    requires newPrice != moved.price
    ensures Diff([same, moved], [same.price, newPrice]) == [moved.(price := newPrice)]
  {
    assert [same, moved][..1] == [same];
    assert [same.price, newPrice][..1] == [same.price];
    assert [same][..0] == [];
  }

  // ---------------------------------------------------------------------
  // Properties of writing the diff back.

  /** Puts that each change only the price of an existing row keep the
      table's keys, change nothing but prices, and leave every row that no
      put names as it was. */
  lemma {:induction false} PricePutsChangeOnlyPrices(rows: map<string, PriceRow>, puts: seq<PriceRow>)
    requires forall p :: p in puts ==> p.id in rows && p == rows[p.id].(price := p.price)
    ensures var after := ApplyPuts(rows, puts);
      && after.Keys == rows.Keys
      && (forall k :: k in rows ==> after[k] == rows[k].(price := after[k].price))
      && (forall k :: k in rows && (forall p :: p in puts ==> p.id != k) ==> after[k] == rows[k])
  {
    if |puts| > 0 {
      var n := |puts| - 1;
      assert forall p :: p in puts[..n] ==> p in puts;
      PricePutsChangeOnlyPrices(rows, puts[..n]);
      assert puts[n] in puts;
    }
  }

  /** Accepted puts are some of the issued ones. */
  lemma {:induction false} AcceptedAreIssued(puts: seq<PriceRow>, acks: seq<bool>)
    requires |acks| == |puts|
    ensures forall p :: p in Accepted(puts, acks) ==> p in puts
  {
    if |puts| > 0 {
      var n := |puts| - 1;
      AcceptedAreIssued(puts[..n], acks[..n]);
      assert forall p :: p in puts[..n] ==> p in puts;
    }
  }

  /** When every put is acknowledged, every put was applied. */
  lemma {:induction false} AllAcked(puts: seq<PriceRow>, acks: seq<bool>)
    requires |acks| == |puts| && forall i :: 0 <= i < |acks| ==> acks[i]
    ensures Accepted(puts, acks) == puts
  {
    if |puts| > 0 {
      var n := |puts| - 1;
      AllAcked(puts[..n], acks[..n]);
      assert puts[..n] + [puts[n]] == puts;
    }
  }

  /** Each diff entry is its table row with only the price replaced. */
  lemma DiffEntriesArePricePuts(rows: map<string, PriceRow>, items: seq<PriceRow>, prices: seq<string>)
    requires |prices| == |items|
    requires forall i :: 0 <= i < |items| ==> items[i].id in rows && rows[items[i].id] == items[i]
    ensures forall p :: p in Diff(items, prices) ==> p.id in rows && p == rows[p.id].(price := p.price)
  {
    DiffSelectsChanged(items, prices);
  }

  /** Putting one more row updates the table under that row's key. */
  lemma ApplyPutsAppend(rows: map<string, PriceRow>, puts: seq<PriceRow>, row: PriceRow)
    ensures ApplyPuts(rows, puts + [row]) == ApplyPuts(rows, puts)[row.id := row]
  {
    assert (puts + [row])[..|puts|] == puts;
  }

  /** The step of `WriteBackPrefix`: once the first m - 1 listed rows hold
      their extracted prices, writing row m - 1's extracted price makes the
      first m hold theirs. */
  lemma SetLastPrice(rows: map<string, PriceRow>, before: map<string, PriceRow>,
                     items: seq<PriceRow>, prices: seq<string>, m: nat)
    requires |prices| == |items| && 0 < m <= |items|
    requires forall i :: 0 <= i < |items| ==> items[i].id in rows
    requires forall i, j :: 0 <= i < j < |items| ==> items[i].id != items[j].id
    requires before.Keys == rows.Keys
    requires forall i :: 0 <= i < m - 1 ==> before[items[i].id] == items[i].(price := prices[i])
    requires forall k :: k in rows && (forall i :: 0 <= i < m - 1 ==> items[i].id != k) ==> before[k] == rows[k]
    ensures var after := before[items[m - 1].id := items[m - 1].(price := prices[m - 1])];
      && after.Keys == rows.Keys
      && (forall i :: 0 <= i < m ==> after[items[i].id] == items[i].(price := prices[i]))
      && (forall k :: k in rows && (forall i :: 0 <= i < m ==> items[i].id != k) ==> after[k] == rows[k])
  {
  }

  /** `WriteBackSetsExtractedPrices` for the diff of the first m rows. */
  lemma {:induction false} WriteBackPrefix(rows: map<string, PriceRow>, items: seq<PriceRow>, prices: seq<string>, m: nat)
    requires |prices| == |items| && m <= |items|
    requires forall i :: 0 <= i < |items| ==> items[i].id in rows && rows[items[i].id] == items[i]
    requires forall i, j :: 0 <= i < j < |items| ==> items[i].id != items[j].id
    ensures var after := ApplyPuts(rows, Diff(items[..m], prices[..m]));
      && after.Keys == rows.Keys
      && (forall i :: 0 <= i < m ==> after[items[i].id] == items[i].(price := prices[i]))
      && (forall k :: k in rows && (forall i :: 0 <= i < m ==> items[i].id != k) ==> after[k] == rows[k])
  {
    if m > 0 {
      WriteBackPrefix(rows, items, prices, m - 1);
      assert items[..m][..m - 1] == items[..m - 1] && prices[..m][..m - 1] == prices[..m - 1];
      var earlier := Diff(items[..m - 1], prices[..m - 1]);
      var before := ApplyPuts(rows, earlier);
      var last := items[m - 1];
      if prices[m - 1] != last.price {
        ApplyPutsAppend(rows, earlier, last.(price := prices[m - 1]));
      } else {
        // The last row is named by no earlier row, so it is still as scanned.
        assert before[last.id] == last;
      }
      SetLastPrice(rows, before, items, prices, m);
    }
  }

  /** Writing the whole diff of a listing of the table back leaves row i of
      the listing with exactly the price extracted for it, whether it was in
      the diff or not, and with its other fields as they were. */
  lemma {:induction false} WriteBackSetsExtractedPrices(rows: map<string, PriceRow>, items: seq<PriceRow>, prices: seq<string>)
    requires |prices| == |items|
    requires forall i :: 0 <= i < |items| ==> items[i].id in rows && rows[items[i].id] == items[i]
    requires forall i, j :: 0 <= i < j < |items| ==> items[i].id != items[j].id
    ensures var after := ApplyPuts(rows, Diff(items, prices));
      && after.Keys == rows.Keys
      && (forall i :: 0 <= i < |items| ==> after[items[i].id] == items[i].(price := prices[i]))
      && (forall k :: k in rows && (forall i :: 0 <= i < |items| ==> items[i].id != k) ==> after[k] == rows[k])
  {
    WriteBackPrefix(rows, items, prices, |items|);
    assert items[..|items|] == items && prices[..|prices|] == prices;
  }

  // ---------------------------------------------------------------------
  // Idempotence.

  /** When every stored price is what its page shows, a pass over any
      listing of the table plans no writes. */
  lemma CurrentTableNeedsNoWrites(rows: map<string, PriceRow>, items: seq<PriceRow>, fetch: Fetcher, extract: Extractor)
    requires IsListing(items, rows)
    requires forall k :: k in rows ==> Current(rows[k], fetch, extract)
    ensures PlannedWrites(items, fetch, extract) == Some([])
  {
    if |items| > 0 {
      assert forall i :: 0 <= i < |items| ==> Current(items[i], fetch, extract);
      var bodies := FetchAll(items, fetch).value;
      var prices := ExtractPrices(items, bodies, extract).value;
      DiffEmptyIffUnchanged(items, prices);
    }
  }

  /** A pass whose fetches, extractions and puts all succeed leaves every
      row of the table current. */
  lemma PassLeavesTableCurrent(rows: map<string, PriceRow>, items: seq<PriceRow>, fetch: Fetcher, extract: Extractor)
    requires IsListing(items, rows)
    requires PlannedWrites(items, fetch, extract).Some?
    ensures var after := ApplyPuts(rows, PlannedWrites(items, fetch, extract).value);
      && after.Keys == rows.Keys
      && forall k :: k in after ==> Current(after[k], fetch, extract)
  {
    if |items| > 0 {
      var bodies := FetchAll(items, fetch).value;
      var prices := ExtractPrices(items, bodies, extract).value;
      WriteBackSetsExtractedPrices(rows, items, prices);
      var after := ApplyPuts(rows, Diff(items, prices));
      forall k | k in after
        ensures Current(after[k], fetch, extract)
      {
        var i :| 0 <= i < |items| && items[i].id == k;
        assert after[k] == items[i].(price := prices[i]);
      }
    }
  }

  /** Running the pass again against unchanged pages, over any listing of
      the table the first pass left behind, writes nothing. */
  lemma SecondPassWritesNothing(rows: map<string, PriceRow>, items: seq<PriceRow>, again: seq<PriceRow>,
                                fetch: Fetcher, extract: Extractor)
    requires IsListing(items, rows)
    requires PlannedWrites(items, fetch, extract).Some?
    requires IsListing(again, ApplyPuts(rows, PlannedWrites(items, fetch, extract).value))
    ensures PlannedWrites(again, fetch, extract) == Some([])
  {
    PassLeavesTableCurrent(rows, items, fetch, extract);
    CurrentTableNeedsNoWrites(ApplyPuts(rows, PlannedWrites(items, fetch, extract).value), again, fetch, extract);
  }

  // ---------------------------------------------------------------------
  // The table client and the handler.

  /** The DynamoDB table the handler's client talks to. A scan or a put may
      fail for reasons outside the model (network, throttling, permissions);
      which one fails is left open. */
  class ItemStore {
    var rows: map<string, PriceRow>

    ghost predicate Valid()
      reads this
    {
      KeyedById(rows)
    }

    constructor (initial: map<string, PriceRow>)
      requires KeyedById(initial)
      ensures Valid() && rows == initial
    {
      rows := initial;
    }

    /** `ScanCommand`: every row once, in an order the table chooses, or a
        failure. */
    method Scan() returns (page: Option<seq<PriceRow>>)
      requires Valid()
      ensures page.Some? ==> IsListing(page.value, rows)
    {
      var failed: bool := *;
      if failed {
        return None;
      }
      var items: seq<PriceRow> := [];
      var left := rows.Keys;
      while left != {}
        invariant left <= rows.Keys
        invariant forall i :: 0 <= i < |items| ==> items[i].id in rows && items[i].id !in left && rows[items[i].id] == items[i]
        invariant forall i, j :: 0 <= i < j < |items| ==> items[i].id != items[j].id
        invariant forall k :: k in rows && k !in left ==> exists i :: 0 <= i < |items| && items[i].id == k
        decreases left
      {
        var k :| k in left;
        ghost var before := items;
        items := items + [rows[k]];
        assert items[|items| - 1].id == k;
        assert forall i :: 0 <= i < |before| ==> items[i] == before[i];
        left := left - {k};
      }
      page := Some(items);
    }

    /** `PutItemCommand`: replaces the whole row stored under `row.id`, or
        fails and changes nothing. */
    method Put(row: PriceRow) returns (ok: bool)
      requires Valid()
      modifies this
      ensures Valid()
      ensures rows == if ok then old(rows)[row.id := row] else old(rows)
    {
      ok := *;
      if ok {
        rows := rows[row.id := row];
      }
    }
  }

  /** `Promise.all(diff.map(item => dbClient.send(new PutItemCommand(...))))`:
      one full-row put per diff entry, in diff order, each applied when the
      table acknowledges it. */
  method WriteBack(db: ItemStore, diff: seq<PriceRow>) returns (acks: seq<bool>)
    requires db.Valid()
    modifies db
    ensures db.Valid()
    ensures |acks| == |diff|
    ensures db.rows == ApplyPuts(old(db.rows), Accepted(diff, acks))
  {
    acks := [];
    var i := 0;
    while i < |diff|
      invariant 0 <= i <= |diff| && |acks| == i
      invariant db.Valid()
      invariant db.rows == ApplyPuts(old(db.rows), Accepted(diff[..i], acks))
    {
      ghost var applied := Accepted(diff[..i], acks);
      var ok := db.Put(diff[i]);
      assert diff[..i + 1][..i] == diff[..i];
      acks := acks + [ok];
      assert acks[..i] == acks[..i + 1][..i];
      if ok {
        assert Accepted(diff[..i + 1], acks) == applied + [diff[i]];
        assert (applied + [diff[i]])[..|applied|] == applied;
      } else {
        assert Accepted(diff[..i + 1], acks) == applied + [] == applied;
      }
      i := i + 1;
    }
    assert diff[..i] == diff;
  }

  /** The table after the puts of a pass that got as far as its diff:
      prices change and nothing else does; if every put was acknowledged,
      every row is current. */
  lemma PassEffect(rows: map<string, PriceRow>, items: seq<PriceRow>, fetch: Fetcher, extract: Extractor, acks: seq<bool>)
    requires IsListing(items, rows)
    requires PlannedWrites(items, fetch, extract).Some?
    requires |acks| == |PlannedWrites(items, fetch, extract).value|
    ensures var after := ApplyPuts(rows, Accepted(PlannedWrites(items, fetch, extract).value, acks));
      && after.Keys == rows.Keys
      && (forall k :: k in after ==> after[k] == rows[k].(price := after[k].price))
      && ((forall j :: 0 <= j < |acks| ==> acks[j]) ==> forall k :: k in after ==> Current(after[k], fetch, extract))
  {
    var writes := PlannedWrites(items, fetch, extract).value;
    if |items| > 0 {
      var bodies := FetchAll(items, fetch).value;
      var prices := ExtractPrices(items, bodies, extract).value;
      DiffEntriesArePricePuts(rows, items, prices);
    }
    AcceptedAreIssued(writes, acks);
    PricePutsChangeOnlyPrices(rows, Accepted(writes, acks));
    if forall j :: 0 <= j < |acks| ==> acks[j] {
      AllAcked(writes, acks);
      PassLeavesTableCurrent(rows, items, fetch, extract);
    }
  }

  /** What one pass did: the rows it scanned (`None` when the scan failed),
      the URLs it requested, the puts it issued with the table's answer to
      each, and how the invocation ended. */
  datatype PassReport = PassReport(
    scanned: Option<seq<PriceRow>>,
    fetched: seq<string>,
    issued: seq<PriceRow>,
    acks: seq<bool>,
    outcome: Outcome)

  /** The scheduled handler. All puts of the diff are issued (the source
      starts them all before awaiting any); the pass fails with "Uuuups!" if
      any step fails, and only acknowledged puts change the table. */
  method Handler(db: ItemStore, fetch: Fetcher, extract: Extractor) returns (report: PassReport)
    requires db.Valid()
    modifies db
    ensures db.Valid()
    ensures report.outcome == Returned || report.outcome == Rethrown
    ensures |report.acks| == |report.issued|
    ensures db.rows == ApplyPuts(old(db.rows), Accepted(report.issued, report.acks))
    ensures db.rows.Keys == old(db.rows).Keys
    ensures forall k :: k in db.rows ==> db.rows[k] == old(db.rows)[k].(price := db.rows[k].price)
    ensures report.scanned.None? ==> report.outcome == Rethrown && report.fetched == [] && report.issued == []
    ensures report.scanned.Some? ==> IsListing(report.scanned.value, old(db.rows))
    ensures report.scanned == Some([]) ==> report.outcome == Returned && report.fetched == [] && report.issued == []
    ensures report.scanned.Some? && report.scanned.value != [] ==> report.fetched == Urls(report.scanned.value)
    ensures report.scanned.Some? ==>
      report.issued == match PlannedWrites(report.scanned.value, fetch, extract)
                       case Some(writes) => writes
                       case None => []
    ensures report.outcome == Returned <==>
      && report.scanned.Some?
      && PlannedWrites(report.scanned.value, fetch, extract).Some?
      && forall i :: 0 <= i < |report.acks| ==> report.acks[i]
    ensures report.outcome == Returned ==> forall k :: k in db.rows ==> Current(db.rows[k], fetch, extract)
  {
    var scanned := db.Scan();
    if scanned.None? {
      return PassReport(None, [], [], [], Rethrown);
    }
    var items := scanned.value;
    if |items| == 0 {
      return PassReport(scanned, [], [], [], Returned);
    }
    var bodies := FetchAll(items, fetch);
    if bodies.None? {
      return PassReport(scanned, Urls(items), [], [], Rethrown);
    }
    var prices := ExtractPrices(items, bodies.value, extract);
    if prices.None? {
      return PassReport(scanned, Urls(items), [], [], Rethrown);
    }
    var diff := Diff(items, prices.value);
    var acks: seq<bool> := [];
    if |diff| > 0 {
      acks := WriteBack(db, diff);
    }
    var allAcked := forall j :: 0 <= j < |acks| ==> acks[j];
    PassEffect(old(db.rows), items, fetch, extract, acks);
    report := PassReport(scanned, Urls(items), diff, acks, if allAcked then Returned else Rethrown);
  }
}
