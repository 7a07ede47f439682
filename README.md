# SeedScrape stock cache, modelled in Dafny

SeedScrape scrapes a game's stock page for three categories (gears, seeds,
eggs) and posts the result to its own `/api/upload` endpoint. The server
keeps two generations of stock data in memory: `stored_data`, the current
one, and `previous_data`, the one before the most recent accepted upload.
`/api/data` and `/view` serve the current generation unless it is empty,
and otherwise fall back to the previous one.

This project models that core in two modules:

- `StockCache` (`cache.dfy`) holds the emptiness test, the merge rule of an
  upload, and the read rule. `Cache` is a class whose `stored` and
  `previous` fields are the two slots. `Upload` reassigns them under the
  emptiness gate. `Read` selects between them.
  The same rules appear as functions on values (`Merge`, `Ingest`, `Serve`,
  and `Replay` for a history of uploads), and the lemmas are stated over
  these functions.
- `Scrape` (`scrape.dfy`) holds the item-pairing loop `extract_items` and the
  three-key payload built from it. The page is abstracted as a map from
  section id to that section's stock elements. Each element has an optional
  name text and an optional quantity text.

Notes on the encoding:

- A category value is a list of items. Its truthiness is `|v| > 0`.
- An upload body is a `map<string, seq<Item>>` with arbitrary keys.
- The code does no alias normalisation (`gear` vs `gears`), does not force
  the three keys to be present in an upload, and has no weather feed, so the
  model has none of them either.
- The merge policy is the code's per-key merge, not a whole-payload replace.

## Model

| member | source | states |
|---|---|---|
| `StockCache.IsEmpty` | main.py:18-19 | `is_empty`: a payload is empty iff none of its values is truthy, i.e. every category list is empty; `{}` is empty |
| `StockCache.Updates` | main.py:28-30 | the comprehension handed to `update` has exactly the payload's keys; a truthy incoming value is taken as is; an empty incoming value is replaced by the stored value, or `[]` for a key not stored; so a key's value has items iff the payload's value has items or the stored value had |
| `StockCache.Merge` | main.py:28-30 | after an accepted upload the key set is the old keys united with the payload's keys; a truthy incoming value replaces the stored one; an empty incoming value keeps the stored one, or is `[]` for a new key; keys not in the payload are unchanged; a key has items afterwards iff it had items before or the payload gave it items |
| `StockCache.Ingest` | main.py:26-30 | one upload as a value: an empty payload leaves both slots as they were; an accepted one puts the old current slot into the previous slot; the current slot never loses a key; afterwards the current slot holds data iff the payload or the old current slot did |
| `StockCache.Serve` | main.py:34-40 | the read returns the current slot when it is non-empty and the previous slot otherwise; the result is empty only when both slots are empty |
| `StockCache.ServeInitial` | main.py:12-13 | both slots start as `{}`, which counts as empty, so a fresh server serves `{}` |
| `StockCache.IngestKeys` | main.py:26-30 | the current slot never loses a key: an accepted upload makes its key set the union of the old keys and the payload's keys, an ignored one leaves it as it was |
| `StockCache.IngestRepeat` | main.py:26-30 | posting the same payload twice leaves the current slot as after the first post; if the payload is accepted, the second post only makes the previous slot a copy of the current one |
| `StockCache.IngestKeepsData` | main.py:26-30 | after a non-empty upload the current slot is non-empty, and a non-empty current slot stays non-empty under any upload |
| `StockCache.ServeAfterIngest` | main.py:26-36 | after a non-empty upload, or whenever the current slot already had data, the read returns the current slot; an empty upload never changes what is read |
| `StockCache.MergeIdempotent` | main.py:28-30 | merging the same payload twice gives the same slot as merging it once |
| `StockCache.MergeTwice` | main.py:28-30 | of two accepted uploads, a category the second leaves empty or omits keeps the first's items, and every category the second fills takes the second's items |
| `StockCache.Replay` | main.py:21-32 | the slots after successive uploads, oldest first; over any history the current slot never loses a key |
| `StockCache.ReplayEmptyHistory` | main.py:26 | any number of empty uploads leaves both slots exactly as they were |
| `StockCache.ReplayKeepsData` | main.py:26-36 | once any upload in a history was accepted, the current slot is non-empty at the end and the read serves it |
| `StockCache.ReplayFromInitialServesCurrent` | main.py:12-40 | starting from the fresh cache, after any history of uploads the read serves the current slot, so the previous slot is never served while it holds data |
| `StockCache.ReplaySnapshot` | main.py:26-30 | after a history, the previous slot equals the current slot as it was just before the last accepted upload, and the current slot is that value merged with the accepted payload |
| `StockCache.Cache.constructor` | main.py:12-13 | both slots start as `{}` |
| `StockCache.Cache.Upload` | main.py:21-32 | the slots change exactly as `Ingest` says (the gate, the snapshot, the merge); once the current slot holds data it never becomes empty again; after an accepted upload the read returns the current slot; `received_items` is the number of keys in the body, accepted or not |
| `StockCache.Cache.Read` | main.py:34-40 | the read is the current slot when it holds data and the previous slot otherwise; an empty read means both slots are empty |
| `Scrape.Paired` | main.py:90-101 | the pairing never yields more items than there are stock elements |
| `Scrape.PairedAppend` | main.py:93-100 | pairing works element by element: the items of a concatenation are the items of each part, in order, so source order is kept |
| `Scrape.PairedMembership` | main.py:93-100 | an item is extracted iff some stock element has both a name and a quantity and yields it |
| `Scrape.PairedExtremes` | main.py:93-100 | nothing is extracted iff no element has both children; when all have both, the i-th item comes from the i-th element |
| `Scrape.SectionItems` | main.py:88-101 | the value `extract_items` returns: `[]` for a section missing from the page, and never more items than the section has stock elements |
| `Scrape.ExtractItems` | main.py:88-101 | the loop returns exactly the items of the complete elements in source order, `[]` when the section is missing, and never more items than stock elements |
| `Scrape.ScrapedPayload` | main.py:103-107 | the scraped payload has exactly the keys `gears`, `seeds` and `eggs` |
| `Scrape.ScrapePayload` | main.py:103-107 | the payload is built from the `gear-section`, `seeds-section` and `eggs-section` sections and has exactly the three keys |
| `Scrape.ScrapedPayloadEmptyIff` | main.py:88-107 | the upload gate turns a scrape away iff none of the three sections has an element with both a name and a quantity |
| `Scrape.ScrapeAndSend` | main.py:103-115 | one scrape cycle changes the cache as an upload of the scraped payload does, and the response reports 3 received keys |
| `Scrape.Posted` | main.py:117-123 | a run of cycles posts at most one payload per cycle |
| `Scrape.PostedAppend` | main.py:117-123 | posting works cycle by cycle, oldest first: a run's payloads are those of its parts in order; a scraped page posts exactly its scraped payload and a failed cycle posts nothing |
| `Scrape.PostedAllFailed` | main.py:117-123 | a run in which every scrape failed posts nothing |
| `Scrape.PeriodicScrape` | main.py:120-123 | repeated cycles leave the cache as the replay of the posted payloads through the upload rule, oldest first; if every cycle failed the cache is unchanged |

## Left out

- Browser launch, navigation and selector waits (main.py:75-84): foreign calls and I/O. A failed cycle is a `None` page that posts nothing.
- HTML parsing and `get_text(strip=True)`: the page is an abstract map from section id to stock elements whose name and quantity are already text. Whitespace stripping is not modelled.
- The HTTP POST to `/api/upload` and HTTP transport in general: `ScrapeAndSend` calls `Upload` directly.
- The endless `periodic_scrape` loop, its 10-second sleep and the startup task: async scheduling. `PeriodicScrape` runs the loop over a finite list of page snapshots, one per cycle.
- The `except Exception` handler around a scrape cycle only logs; a failed cycle is a `None` page that posts nothing. A failure after the POST was sent is not distinguished.
- Route registration, `request.json()` decoding, and the HTML rendering of `/view` (`render_column` and the page template): presentation code. `/view` is modelled only through the data it selects (`Read`).
- Upload bodies that are not JSON objects, and category values that are not lists: the code raises or applies Python truthiness to other JSON types. The model types the body as a map of item lists. List elements are fixed to `Item(name, quantity)`, although the endpoint accepts elements of any JSON shape; nothing is lost by this, because the upload and read rules only test whether a list is empty and never look inside an element.
- `API_URL` configuration and the logging `print` calls.
- scraper.py: a standalone copy of the same scrape pipeline; its pairing and payload logic is the same as main.py:88-107.
- Concurrency between reads and uploads: the code runs on one event loop with no locking. `Upload` is modelled as one atomic step.
