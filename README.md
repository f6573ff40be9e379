# Visit counter over a document container

This project models the two HTTP-triggered visit counters of the repository
and the document container they write to, and proves what each request does
to the container and what it reports.

* `code/__init__.py` keeps a **daily count and a cached all-time total**. A
  request reads the day's count and the total, adds one to each and upserts
  two documents: the day's (id = the date, property `visitorCount`) and the
  total's (id `"totalCount"`, property `totalVisitorCount`, written with
  `visitDate` `"all-time"`). The total is read back from item `"totalCount"`
  in partition `"totalCount"`, defaulting to 0 when it is missing, lacks the
  property, or the read fails.
* `__init__.py` keeps **one document per date**. A request looks for a
  document whose `visitDate` is today. If one exists, its `visitCount` goes
  up by one and it is upserted back. Otherwise a document with a freshly
  generated id, today's date and `visitCount` 1 is created.

The container (module `Cosmos`) is a class whose state is a map from
addresses to documents. An address is the pair (partition value, id). The
partition value is the value of the container's partition-key property,
which is a parameter of the container (`partitionField`). A document lacking
that property goes to the "undefined" partition. Upsert is replace-by-key,
and a point read looks up one address.

Making the partition-key property a parameter settles a question the code
leaves open. The total is written with `visitDate: "all-time"` but read at
partition `"totalCount"`. The lemmas prove that the written total is read
back **exactly when the container is partitioned on `id`**
(`TotalCounter.TotalReadBack`, `TotalCounter.TotalAdvancesIff`). With any
other partition key, every request reports the same total, one above
whatever sat at the read address (`TotalCounter.RunPartitionedOtherwise`).
Likewise, `__init__.py` keeps its "one document per date" invariant and
"one visit per request" sum for every partition key except `visitCount`
itself. With `visitCount` as the partition key, an increment moves the
document to another partition, and the upsert creates a second document for
the same date (`DateVisits.CountPartitionDuplicatesDate`).

Facts about the code that the model keeps as they are:
* The total is written with `visitDate` `"all-time"` and read at partition
  `"totalCount"`.
* In `__init__.py` the per-date document's id is generated, not the date.
* The code checks nothing about the date format. Lemmas that need a date to
  differ from the sentinel id `"totalCount"` say so in a `requires`.

Each handler is an imperative method that takes the container as a
parameter and updates its documents (`CountVisit`, `RecordVisit`). Each is
proved equal to a pure function of the old store (`Visit`, `Record`), and
the properties are proved about those functions.
Store failures are boolean parameters (`Faults`). The clock's date and the
generated id are parameters too. The count returned by `get_visitor_count`,
whose source is not part of this model, is the parameter `priorDaily`.

## Model

| member | source | states |
|---|---|---|
| `Cosmos.Upserted` | code/__init__.py:21-32 | an upsert keeps every stored document at its own (partition, id) address |
| `Cosmos.UpsertReplacesByKey` | code/__init__.py:21-32 | upsert is replace-by-key: the document sits at its own address afterwards, and every other address keeps what it held |
| `Cosmos.Container.Upsert` | __init__.py:37-44 | `upsert_item` raises when the store rejects the call or the document has no string id; otherwise the container becomes `Upserted` of the old one |
| `Cosmos.UpsertIdempotent` | code/__init__.py:21-25 | writing the same document twice leaves the container as one write did |
| `Cosmos.Read` | code/__init__.py:58 | `read_item` fails exactly on a store failure; it finds a document exactly when the address is occupied, and returns that document |
| `Cosmos.ReadAfterUpsert` | code/__init__.py:55-59 | a read at the upserted document's address returns it (unless the read fails); a read at any other address is unaffected by the upsert |
| `TotalCounter.GetTotalCount` | code/__init__.py:55-65 | returns the stored `totalVisitorCount` when the document at item/partition `"totalCount"` has one; returns 0 when that document lacks the property, is absent, or the read fails; never raises |
| `TotalCounter.Visit` | code/__init__.py:9-53 | a request, as a function of the store before it, keeps every document at its own address |
| `TotalCounter.VisitResponse` | code/__init__.py:13-53 | status is 200 exactly when both upserts succeed and the total read is a number; the counts are then prior daily + 1 and prior total + 1; otherwise the status is 500 with an error body |
| `TotalCounter.VisitWrites` | code/__init__.py:21-42 | after a success, the daily document (id = the date) holds the reported daily count and the total document holds the reported total |
| `TotalCounter.VisitFrame` | code/__init__.py:21-32 | every address other than the daily document's and, when the total read was a number, the total document's is unchanged, in every partition, and no document appears anywhere else |
| `TotalCounter.VisitPartialFailure` | code/__init__.py:21-53 | a non-numeric total or a rejected daily upsert leaves the store as it was; a rejected total upsert answers 500 and leaves the daily write in place |
| `TotalCounter.CountVisit` | code/__init__.py:1-53 | the handler's response and the container afterwards are exactly `Visit` of the container before |
| `TotalCounter.TotalReadBack` | code/__init__.py:28-32 | after the total document is upserted, `get_total_count` returns the written total when the container is partitioned on `id`, and otherwise returns exactly what it returned before |
| `TotalCounter.VisitReadAddress` | code/__init__.py:21-32 | after a successful request on a real date, the next total read sees the reported total (partitioned on `id`) or the same value as before the request (any other partition key) |
| `TotalCounter.TotalAdvancesIff` | code/__init__.py:13-18 | of two successful requests in a row, the second reports a total one above the first if and only if the container is partitioned on `id` |
| `TotalCounter.RunPartitionedById` | code/__init__.py:13-42 | partitioned on `id`, the i-th of a run of fault-free requests succeeds and reports the starting total plus i + 1, and the stored total ends up the run's length above the start |
| `TotalCounter.RunPartitionedOtherwise` | code/__init__.py:13-42 | with any other partition key, every request of a fault-free run reports the starting total plus one, and the stored total never changes |
| `DateVisits.Record` | __init__.py:20-53 | fails with no write on a query or upsert error (500), with a KeyError when the matched document lacks `visitCount` and a TypeError when it is not a number; succeeds (200) exactly otherwise; on success with a match, exactly that document's `visitCount` goes up by one at the same address (so it keeps its id) and nothing else changes; with no match, exactly one document with the fresh id, today's date and count 1 is added at an address not used before |
| `DateVisits.RecordVisit` | __init__.py:14-53 | the handler picks some stored document on today's date (any, since result order is unspecified) or none if there is none, and its reply and the container afterwards are exactly `Record` of the container before |
| `DateVisits.RecordKeepsOnePerDate` | __init__.py:26-44 | a request preserves "at most one document per `visitDate`" |
| `DateVisits.RecordSize` | __init__.py:34-44 | the number of documents grows by one exactly when a new document is created, and is unchanged otherwise |
| `DateVisits.RecordAddsOneVisit` | __init__.py:34-44 | the sum of `visitCount` over all documents grows by exactly one on success and not at all on failure |
| `DateVisits.FreshIdExists` | __init__.py:41 | an id that no stored document carries always exists, so the generated-id parameter can always be supplied |
| `DateVisits.CountPartitionDuplicatesDate` | __init__.py:36-37 | for every valid store partitioned on `visitCount` and every matched document with a numeric count, a fault-free request succeeds, the matched document stays unchanged at its old address, and the store no longer has at most one document per date |

## Left out

- Client and container construction (`CosmosClient`, `get_database_client`, `get_container_client`) and the environment settings: the container is a parameter of each handler.
- The clock: the date string is a parameter; its `YYYY-MM-DD` format is not modelled.
- `uuid.uuid4()`: the generated id is a parameter, and the model requires that no stored document carries it.
- `get_visitor_count`: it is not part of this model; the daily count it returns is the parameter `priorDaily`.
- Store failures are inputs (`Faults`), not behaviour: which calls fail is not modelled, only what happens when they do.
- The SQL text and the cross-partition query engine: the query's first result is any stored document on the date, since the result order is unspecified.
- Logging, the text of messages and errors, and JSON encoding: responses are a status plus counts or an error kind.
- System properties that the store adds to documents (`_rid`, `_etag`, `_ts`), nested partition-key paths and hierarchical partition keys.
- JSON values other than numbers and strings (floats, booleans, null, arrays, objects): Python's `+= 1` accepts some of them.
- Concurrent requests and the lost-update race between read and upsert: each request is modelled as one atomic step.
- The signed REST client, aggregation queries and visitor tracking: they are not part of this model.
- `DateVisits.Record`: the in-place increment is stated for containers not partitioned on `visitCount`, because with that partition key the upsert lands at a new address.
