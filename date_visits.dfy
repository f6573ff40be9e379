/** The per-date create-or-increment handler: a request looks for a document
    whose "visitDate" is today's date; if one exists its "visitCount" goes up
    by one and it is upserted back, otherwise a document with a freshly
    generated id, today's date and a count of 1 is created.  Each request
    changes at most one document, keeps at most one document per date and
    adds exactly one visit to the sum of all counts, provided the container
    is not partitioned on the count itself. */
module DateVisits {
  import opened Cosmos

  predicate OnDate(doc: Doc, visitDate: string) {
    "visitDate" in doc && doc["visitDate"] == Str(visitDate)
  }

  /** The first result of the query for documents on `visitDate`, when the
      query engine may return them in any order: some stored document on
      that date, or none when there is no such document. */
  ghost predicate IsFirstMatch(store: Store, visitDate: string, matched: Option<Key>) {
    match matched
    case None => forall k | k in store :: !OnDate(store[k], visitDate)
    case Some(k) => k in store && OnDate(store[k], visitDate)
  }

  /** A generated id that no stored document carries. */
  ghost predicate IdFresh(store: Store, id: string) {
    forall k | k in store :: k.id != id
  }

  /** The document created for the first visit of a day. */
  function NewDoc(id: string, visitDate: string): Doc {
    map["id" := Str(id), "visitDate" := Str(visitDate), "visitCount" := Num(1)]
  }

  /** The exception caught: from the store, a missing "visitCount"
      property, or a "visitCount" that is not a number. */
  datatype Failure = StoreError | KeyError | TypeError

  datatype Reply = Updated(visitDate: string) | Failed(error: Failure) {
    function Status(): nat {
      if Updated? then 200 else 500
    }
  }

  /** Whether the query and whether the upsert raise a store error. */
  datatype Faults = Faults(query: bool, upsert: bool)

  datatype Outcome = Outcome(reply: Reply, store: Store)

  /** The property a document contributes to the visit sum. */
  function VisitCountOf(doc: Doc): int {
    if "visitCount" in doc && doc["visitCount"].Num? then doc["visitCount"].n else 0
  }

  /** One request, given the query's first result `matched` and the id the
      generator would produce.  It fails without writing anything, or it
      either increments the matched document or adds a new one. */
  function Record(partitionField: string, store: Store, visitDate: string, matched: Option<Key>, newId: string, faults: Faults): (r: Outcome)
    requires StoreValid(partitionField, store)
    requires IsFirstMatch(store, visitDate, matched)
    requires IdFresh(store, newId)
    ensures StoreValid(partitionField, r.store)
    ensures r.reply.Failed? ==> r.store == store
    ensures r.reply.Updated? <==>
      !faults.query && !faults.upsert &&
      (matched.Some? ==> "visitCount" in store[matched.value] && store[matched.value]["visitCount"].Num?)
    ensures r.reply.Updated? ==> r.reply.visitDate == visitDate
    ensures r.reply.Failed? && !faults.query && matched.Some? && "visitCount" !in store[matched.value] ==>
      r.reply.error == KeyError
    ensures r.reply.Failed? && !faults.query && matched.Some? && "visitCount" in store[matched.value] &&
            !store[matched.value]["visitCount"].Num? ==>
      r.reply.error == TypeError
    ensures r.reply.Updated? && matched.Some? && partitionField != "visitCount" ==>
      var k := matched.value;
      r.store == store[k := store[k]["visitCount" := Num(store[k]["visitCount"].n + 1)]]
    ensures r.reply.Updated? && matched.None? ==>
      var k := KeyOf(partitionField, NewDoc(newId, visitDate));
      k !in store && r.store == store[k := NewDoc(newId, visitDate)]
  {
    if faults.query then Outcome(Failed(StoreError), store)
    else match matched
      case None =>
        if faults.upsert then Outcome(Failed(StoreError), store)
        else Outcome(Updated(visitDate), Upserted(partitionField, store, NewDoc(newId, visitDate)))
      case Some(k) =>
        var item := store[k];
        if "visitCount" !in item then Outcome(Failed(KeyError), store)
        else if !item["visitCount"].Num? then Outcome(Failed(TypeError), store)
        else if faults.upsert then Outcome(Failed(StoreError), store)
        else
          var incremented := item["visitCount" := Num(item["visitCount"].n + 1)];
          assert KeyOf(partitionField, item) == k;
          assert partitionField != "visitCount" ==> KeyOf(partitionField, incremented) == k;
          Outcome(Updated(visitDate), Upserted(partitionField, store, incremented))
  }

  /** The handler.  `newId` is what the id generator returns; `matched` is
      the document the query yielded first. */
  method RecordVisit(c: Container, visitDate: string, newId: string, faults: Faults) returns (reply: Reply, ghost matched: Option<Key>)
    requires c.Valid()
    requires IdFresh(c.docs, newId)
    modifies c
    ensures c.Valid()
    ensures IsFirstMatch(old(c.docs), visitDate, matched)
    ensures Outcome(reply, c.docs) == Record(c.partitionField, old(c.docs), visitDate, matched, newId, faults)
  {
    var existing: Option<Key> := None;
    if exists k :: k in c.docs && OnDate(c.docs[k], visitDate) {
      var k :| k in c.docs && OnDate(c.docs[k], visitDate);
      existing := Some(k);
    }
    matched := existing;
    if faults.query {
      return Failed(StoreError), matched;
    }
    match existing
    case Some(k) =>
      var item := c.docs[k];
      if "visitCount" !in item {
        return Failed(KeyError), matched;
      }
      if !item["visitCount"].Num? {
        return Failed(TypeError), matched;
      }
      item := item["visitCount" := Num(item["visitCount"].n + 1)];
      var ok := c.Upsert(item, faults.upsert);
      reply := if ok then Updated(visitDate) else Failed(StoreError);
    case None =>
      var ok := c.Upsert(NewDoc(newId, visitDate), faults.upsert);
      reply := if ok then Updated(visitDate) else Failed(StoreError);
  }

  /** At most one document per "visitDate". */
  ghost predicate OnePerDate(store: Store) {
    forall k1, k2 | k1 in store && k2 in store && "visitDate" in store[k1] && "visitDate" in store[k2] &&
      store[k1]["visitDate"] == store[k2]["visitDate"] :: k1 == k2
  }

  /** A request keeps at most one document per date. */
  lemma RecordKeepsOnePerDate(partitionField: string, store: Store, visitDate: string, matched: Option<Key>, newId: string, faults: Faults)
    requires StoreValid(partitionField, store)
    requires IsFirstMatch(store, visitDate, matched)
    requires IdFresh(store, newId)
    requires partitionField != "visitCount"
    requires OnePerDate(store)
    ensures OnePerDate(Record(partitionField, store, visitDate, matched, newId, faults).store)
  {
  }

  /** Replacing a stored document keeps the number of documents; adding one
      at a new address raises it by one. */
  lemma SizeAfterUpdate(store: Store, k: Key, doc: Doc)
    ensures |store[k := doc]| == if k in store then |store| else |store| + 1
  {
    if k in store {
      assert store[k := doc].Keys == store.Keys;
    } else {
      assert store[k := doc].Keys == store.Keys + {k};
    }
  }

  /** The number of documents goes up by one exactly when a new one is
      created; an increment keeps it. */
  lemma RecordSize(partitionField: string, store: Store, visitDate: string, matched: Option<Key>, newId: string, faults: Faults)
    requires StoreValid(partitionField, store)
    requires IsFirstMatch(store, visitDate, matched)
    requires IdFresh(store, newId)
    requires partitionField != "visitCount"
    ensures var r := Record(partitionField, store, visitDate, matched, newId, faults);
      |r.store| == if r.reply.Updated? && matched.None? then |store| + 1 else |store|
  {
    var r := Record(partitionField, store, visitDate, matched, newId, faults);
    if r.reply.Updated? {
      match matched
      case None =>
        var k := KeyOf(partitionField, NewDoc(newId, visitDate));
        SizeAfterUpdate(store, k, NewDoc(newId, visitDate));
      case Some(k) =>
        SizeAfterUpdate(store, k, r.store[k]);
    }
  }

  /** The sum of "visitCount" over all stored documents (a document without
      a numeric count contributes nothing). */
  ghost function VisitSum(store: Store): int
    decreases |store|
  {
    if store == map[] then 0
    else
      var k :| k in store;
      VisitCountOf(store[k]) + VisitSum(store - {k})
  }

  lemma {:induction false} VisitSumRemove(store: Store, k: Key)
    requires k in store
    ensures VisitSum(store) == VisitCountOf(store[k]) + VisitSum(store - {k})
    decreases |store|
  {
    var j :| j in store && VisitSum(store) == VisitCountOf(store[j]) + VisitSum(store - {j});
    if j != k {
      var rest := store - {j};
      VisitSumRemove(rest, k);
      VisitSumRemove(store - {k}, j);
      assert rest - {k} == (store - {k}) - {j};
    }
  }

  /** Replacing or adding one document changes the sum by the difference of
      the two counts. */
  lemma VisitSumUpdate(store: Store, k: Key, doc: Doc)
    ensures VisitSum(store[k := doc]) ==
      VisitSum(store) - (if k in store then VisitCountOf(store[k]) else 0) + VisitCountOf(doc)
  {
    VisitSumRemove(store[k := doc], k);
    assert store[k := doc] - {k} == store - {k};
    if k in store {
      VisitSumRemove(store, k);
    } else {
      assert store - {k} == store;
    }
  }

  /** Every successful request adds exactly one visit to the sum of all
      counts; a failed one adds none. */
  lemma RecordAddsOneVisit(partitionField: string, store: Store, visitDate: string, matched: Option<Key>, newId: string, faults: Faults)
    requires StoreValid(partitionField, store)
    requires IsFirstMatch(store, visitDate, matched)
    requires IdFresh(store, newId)
    requires partitionField != "visitCount"
    ensures var r := Record(partitionField, store, visitDate, matched, newId, faults);
      VisitSum(r.store) == VisitSum(store) + if r.reply.Updated? then 1 else 0
  {
    var r := Record(partitionField, store, visitDate, matched, newId, faults);
    if r.reply.Updated? {
      match matched
      case None =>
        VisitSumUpdate(store, KeyOf(partitionField, NewDoc(newId, visitDate)), NewDoc(newId, visitDate));
      case Some(k) =>
        VisitSumUpdate(store, k, r.store[k]);
    }
  }

  /** An id that no stored document carries always exists: one longer than
      every stored id. */
  lemma {:induction false} IdLengthBound(keys: set<Key>) returns (n: nat)
    ensures forall k | k in keys :: |k.id| < n
    decreases keys
  {
    if keys == {} {
      n := 0;
    } else {
      var k :| k in keys;
      var m := IdLengthBound(keys - {k});
      n := if m > |k.id| then m else |k.id| + 1;
    }
  }

  lemma FreshIdExists(store: Store)
    ensures exists id :: IdFresh(store, id)
  {
    var n := IdLengthBound(store.Keys);
    var id := seq(n, _ => 'u');
    assert IdFresh(store, id);
  }

  /** With the container partitioned on "visitCount", incrementing moves the
      document to another partition: the upsert creates a second document
      for the same date and the old one stays as it was. */
  lemma CountPartitionDuplicatesDate(store: Store, visitDate: string, k: Key, newId: string)
    requires StoreValid("visitCount", store)
    requires IsFirstMatch(store, visitDate, Some(k))
    requires IdFresh(store, newId)
    requires "visitCount" in store[k] && store[k]["visitCount"].Num?
    ensures var r := Record("visitCount", store, visitDate, Some(k), newId, Faults(false, false));
      r.reply.Updated? && k in r.store && r.store[k] == store[k] && !OnePerDate(r.store)
  {
    var r := Record("visitCount", store, visitDate, Some(k), newId, Faults(false, false));
    var inc := store[k]["visitCount" := Num(store[k]["visitCount"].n + 1)];
    var moved := KeyOf("visitCount", inc);
    assert moved.partition == Part(Num(store[k]["visitCount"].n + 1));
    assert k.partition == Part(store[k]["visitCount"]);
    assert moved != k;
    assert r.store == store[moved := inc];
    assert moved in r.store && r.store[moved]["visitDate"] == r.store[k]["visitDate"];
  }
}
