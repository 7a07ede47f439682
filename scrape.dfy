/** The scraping side of `scrape_and_send`: pairing each stock element's
    name and quantity, building the three-category payload and handing it
    to the cache's upload. The page is abstracted to its sections. */
module Scrape {
  import opened StockCache

  datatype Option<T> = None | Some(value: T)

  /** One `.stock-item` element: the text of its `.item-name` and of its
      `.item-quantity` child, each absent when the child is missing. */
  datatype StockElement = StockElement(name: Option<string>, quantity: Option<string>)

  /** The rendered page: element id to the `.stock-item` elements of that
      section, in document order; an id that is not on the page is absent. */
  type Document = map<string, seq<StockElement>>

  /** A stock element yields an item only when it has both children. */
  predicate Complete(e: StockElement)
  {
    e.name.Some? && e.quantity.Some?
  }

  function ItemOf(e: StockElement): Item
    requires Complete(e)
  {
    Item(e.name.value, e.quantity.value)
  }

  /** The items of the complete elements, in order. */
  function Paired(elems: seq<StockElement>): (r: seq<Item>)
    ensures |r| <= |elems|
  {
    if elems == [] then []
    else
      var last := elems[|elems| - 1];
      Paired(elems[..|elems| - 1]) + (if Complete(last) then [ItemOf(last)] else [])
  }

  /** Pairing works element by element, so it keeps source order. */
  lemma {:induction false} PairedAppend(a: seq<StockElement>, b: seq<StockElement>)
    ensures Paired(a + b) == Paired(a) + Paired(b)
  {
    if b != [] {
      var front := b[..|b| - 1];
      assert (a + b)[..|a + b| - 1] == a + front;
      PairedAppend(a, front);
    } else {
      assert a + b == a;
    }
  }

  /** An item is extracted exactly when some complete element carries it. */
  lemma {:induction false} PairedMembership(elems: seq<StockElement>, x: Item)
    ensures x in Paired(elems) <==> exists i | 0 <= i < |elems| :: Complete(elems[i]) && ItemOf(elems[i]) == x
  {
    if elems != [] {
      var front := elems[..|elems| - 1];
      PairedMembership(front, x);
      if x in Paired(front) {
        var i :| 0 <= i < |front| && Complete(front[i]) && ItemOf(front[i]) == x;
        assert elems[i] == front[i];
      }
      if exists i | 0 <= i < |elems| :: Complete(elems[i]) && ItemOf(elems[i]) == x {
        var i :| 0 <= i < |elems| && Complete(elems[i]) && ItemOf(elems[i]) == x;
        if i < |front| {
          assert front[i] == elems[i];
        }
      }
    }
  }

  /** Nothing is extracted exactly when no element is complete; when every
      element is complete, each one yields its item at its own position. */
  lemma {:induction false} PairedExtremes(elems: seq<StockElement>)
    ensures Paired(elems) == [] <==> forall i | 0 <= i < |elems| :: !Complete(elems[i])
    ensures (forall i | 0 <= i < |elems| :: Complete(elems[i])) ==>
              |Paired(elems)| == |elems| &&
              forall i | 0 <= i < |elems| :: Paired(elems)[i] == ItemOf(elems[i])
  {
    if elems != [] {
      var front := elems[..|elems| - 1];
      PairedExtremes(front);
      assert forall i | 0 <= i < |front| :: front[i] == elems[i];
    }
  }

  /** What `extract_items(id)` returns, as a value. */
  function SectionItems(doc: Document, sectionId: string): (r: seq<Item>)
    ensures sectionId !in doc ==> r == []
    ensures sectionId in doc ==> |r| <= |doc[sectionId]|
  {
    if sectionId in doc then Paired(doc[sectionId]) else []
  }

  /** `extract_items`: walks the section's stock elements and appends an
      item for each one that has both a name and a quantity. */
  method ExtractItems(doc: Document, sectionId: string) returns (items: seq<Item>)
    ensures items == SectionItems(doc, sectionId)
    ensures sectionId !in doc ==> items == []
    ensures sectionId in doc ==> |items| <= |doc[sectionId]|
  {
    items := [];
    if sectionId in doc {
      var stockItems := doc[sectionId];
      var i := 0;
      while i < |stockItems|
        invariant 0 <= i <= |stockItems|
        invariant items == Paired(stockItems[..i])
      {
        var e := stockItems[i];
        assert stockItems[..i + 1][..i] == stockItems[..i];
        if e.name.Some? && e.quantity.Some? {
          items := items + [Item(e.name.value, e.quantity.value)];
        }
        i := i + 1;
      }
      assert stockItems[..i] == stockItems;
    }
  }

  /** The ids of the three sections and the keys they are posted under. */
  const GearSection: string := "gear-section"
  const SeedsSection: string := "seeds-section"
  const EggsSection: string := "eggs-section"

  /** The payload `scrape_and_send` posts, as a value. */
  function ScrapedPayload(doc: Document): (r: Payload)
    ensures r.Keys == {"gears", "seeds", "eggs"}
  {
    map["gears" := SectionItems(doc, GearSection),
        "seeds" := SectionItems(doc, SeedsSection),
        "eggs" := SectionItems(doc, EggsSection)]
  }

  /** Builds the three-key payload from the three sections, with one
      `extract_items` call per section, as `scrape_and_send` does. */
  method ScrapePayload(doc: Document) returns (data: Payload)
    ensures data == ScrapedPayload(doc)
    ensures data.Keys == {"gears", "seeds", "eggs"}
  {
    var gears := ExtractItems(doc, GearSection);
    var seeds := ExtractItems(doc, SeedsSection);
    var eggs := ExtractItems(doc, EggsSection);
    data := map["gears" := gears, "seeds" := seeds, "eggs" := eggs];
  }

  /** A scrape is turned away by the upload gate exactly when none of the
      three sections has an element with both a name and a quantity. */
  lemma ScrapedPayloadEmptyIff(doc: Document)
    ensures IsEmpty(ScrapedPayload(doc)) <==>
              forall id, i | id in [GearSection, SeedsSection, EggsSection] && id in doc && 0 <= i < |doc[id]| ::
                !Complete(doc[id][i])
  {
    var p := ScrapedPayload(doc);
    forall id | id in doc
      ensures Paired(doc[id]) == [] <==> forall i | 0 <= i < |doc[id]| :: !Complete(doc[id][i])
    {
      PairedExtremes(doc[id]);
    }
    assert p["gears"] == SectionItems(doc, GearSection);
    assert p["seeds"] == SectionItems(doc, SeedsSection);
    assert p["eggs"] == SectionItems(doc, EggsSection);
  }

  /** One cycle of `scrape_and_send` with the POST replaced by a direct call
      to the upload: the cache takes the scraped payload through the gate. */
  method ScrapeAndSend(cache: Cache, doc: Document) returns (receivedItems: nat)
    modifies cache
    ensures cache.State() == Ingest(old(cache.State()), ScrapedPayload(doc))
    ensures receivedItems == 3
  {
    var data := ScrapePayload(doc);
    receivedItems := cache.Upload(data);
  }

  /** The payloads posted over a run of scrape cycles, oldest first. A cycle
      whose page could not be scraped (`None`) posts nothing. */
  function Posted(pages: seq<Option<Document>>): (r: seq<Payload>)
    ensures |r| <= |pages|
  {
    if pages == [] then []
    else
      var last := pages[|pages| - 1];
      Posted(pages[..|pages| - 1]) + (if last.Some? then [ScrapedPayload(last.value)] else [])
  }

  /** Posting works cycle by cycle, oldest first: a scraped page posts its
      payload and a failed cycle posts nothing. */
  lemma {:induction false} PostedAppend(a: seq<Option<Document>>, b: seq<Option<Document>>)
    ensures Posted(a + b) == Posted(a) + Posted(b)
    ensures forall doc: Document :: Posted([Some(doc)]) == [ScrapedPayload(doc)]
    ensures Posted([Option<Document>.None]) == []
  {
    if b != [] {
      var front := b[..|b| - 1];
      assert (a + b)[..|a + b| - 1] == a + front;
      PostedAppend(a, front);
    } else {
      assert a + b == a;
    }
    forall doc: Document
      ensures Posted([Some(doc)]) == [ScrapedPayload(doc)]
    {
      assert [Some(doc)][..0] == [];
    }
    var failed: seq<Option<Document>> := [None];
    assert failed[..0] == [];
  }

  /** A run in which every scrape failed posts nothing. */
  lemma {:induction false} PostedAllFailed(pages: seq<Option<Document>>)
    requires forall i | 0 <= i < |pages| :: pages[i].None?
    ensures Posted(pages) == []
  {
    if pages != [] {
      PostedAllFailed(pages[..|pages| - 1]);
    }
  }

  /** `periodic_scrape` over a finite run of cycles: each cycle whose page was
      scraped uploads its payload, a failed cycle leaves the cache alone, so
      the cache ends as the replay of the posted payloads. */
  method PeriodicScrape(cache: Cache, pages: seq<Option<Document>>)
    modifies cache
    ensures cache.State() == Replay(old(cache.State()), Posted(pages))
    ensures (forall i | 0 <= i < |pages| :: pages[i].None?) ==> cache.State() == old(cache.State())
  {
    var i := 0;
    while i < |pages|
      invariant 0 <= i <= |pages|
      invariant cache.State() == Replay(old(cache.State()), Posted(pages[..i]))
    {
      ghost var sent := Posted(pages[..i]);
      assert pages[..i + 1][..i] == pages[..i];
      if pages[i].Some? {
        ghost var payload := ScrapedPayload(pages[i].value);
        assert Posted(pages[..i + 1]) == sent + [payload];
        assert (sent + [payload])[..|sent|] == sent;
        var _ := ScrapeAndSend(cache, pages[i].value);
      } else {
        assert Posted(pages[..i + 1]) == sent;
      }
      i := i + 1;
    }
    assert pages[..i] == pages;
    if forall j | 0 <= j < |pages| :: pages[j].None? {
      PostedAllFailed(pages);
    }
  }
}
