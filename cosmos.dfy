/** The document container both handlers talk to.  A container holds JSON
    documents; each is addressed by the value of the container's
    partition-key property and by its "id".  Upsert replaces whatever sits at
    that address, or creates it; a point read fetches one address. */
module Cosmos {

  datatype Option<T> = None | Some(value: T)

  /** A JSON property value, as far as the handlers inspect it: a number or
      a string (a string where a number is expected is what makes `+= 1`
      raise). */
  datatype Value = Num(n: int) | Str(s: string)

  /** A stored document: its properties by name; "id" is one of them. */
  type Doc = map<string, Value>

  /** The partition a document is routed to: the value of the partition-key
      property, or the "undefined" partition when the document lacks it. */
  datatype Partition = Undefined | Part(v: Value)

  /** The address of a document: at most one document per (partition, id). */
  datatype Key = Key(partition: Partition, id: string)

  type Store = map<Key, Doc>

  predicate HasId(doc: Doc) {
    "id" in doc && doc["id"].Str?
  }

  function PartitionOf(partitionField: string, doc: Doc): Partition {
    if partitionField in doc then Part(doc[partitionField]) else Undefined
  }

  /** Where an upsert of `doc` lands. */
  function KeyOf(partitionField: string, doc: Doc): Key
    requires HasId(doc)
  {
    Key(PartitionOf(partitionField, doc), doc["id"].s)
  }

  /** Every stored document has a string id and sits at its own address. */
  ghost predicate StoreValid(partitionField: string, store: Store) {
    forall k | k in store :: HasId(store[k]) && KeyOf(partitionField, store[k]) == k
  }

  /** The store after an upsert of `doc`: every document stays at its own
      address. */
  function Upserted(partitionField: string, store: Store, doc: Doc): (r: Store)
    requires HasId(doc)
    ensures StoreValid(partitionField, store) ==> StoreValid(partitionField, r)
  {
    store[KeyOf(partitionField, doc) := doc]
  }

  /** Replace-by-key: the document lands at its own address, every other
      address keeps what it held. */
  lemma UpsertReplacesByKey(partitionField: string, store: Store, doc: Doc)
    requires HasId(doc)
    ensures var r := Upserted(partitionField, store, doc);
      KeyOf(partitionField, doc) in r && r[KeyOf(partitionField, doc)] == doc &&
      forall k | k != KeyOf(partitionField, doc) :: (k in r <==> k in store) && (k in store ==> r[k] == store[k])
  {
  }

  /** Upsert is idempotent: writing the same document twice leaves the
      store as one write left it. */
  lemma UpsertIdempotent(partitionField: string, store: Store, doc: Doc)
    requires HasId(doc)
    ensures Upserted(partitionField, Upserted(partitionField, store, doc), doc) == Upserted(partitionField, store, doc)
  {
  }

  datatype ReadResult = Found(doc: Doc) | NotFound | ReadFailed

  /** A point read of item `id` in partition `partition`; `fails` stands for
      any failure other than "not found" (network, throttling, auth). */
  function Read(store: Store, id: string, partition: Partition, fails: bool): (r: ReadResult)
    ensures r.ReadFailed? <==> fails
    ensures r.Found? <==> !fails && Key(partition, id) in store
    ensures r.Found? ==> r.doc == store[Key(partition, id)]
  {
    if fails then ReadFailed
    else if Key(partition, id) in store then Found(store[Key(partition, id)])
    else NotFound
  }

  /** Read-after-write: a read addressed at a document's own partition
      value and id returns what the last upsert wrote there; a read at any
      other address is not affected by the upsert. */
  lemma ReadAfterUpsert(partitionField: string, store: Store, doc: Doc, id: string, partition: Partition, fails: bool)
    requires HasId(doc)
    ensures Key(partition, id) == KeyOf(partitionField, doc) ==>
      Read(Upserted(partitionField, store, doc), id, partition, fails) == if fails then ReadFailed else Found(doc)
    ensures Key(partition, id) != KeyOf(partitionField, doc) ==>
      Read(Upserted(partitionField, store, doc), id, partition, fails) == Read(store, id, partition, fails)
  {
  }

  /** A container: its partition-key property, fixed when it is created, and
      the documents it holds. */
  class Container {
    const partitionField: string
    var docs: Store

    ghost predicate Valid()
      reads this
    {
      StoreValid(partitionField, docs)
    }

    constructor (partitionField: string)
      ensures this.partitionField == partitionField && docs == map[]
      ensures Valid()
    {
      this.partitionField := partitionField;
      docs := map[];
    }

    /** `upsert_item`: fails (raises) when the store rejects the request or
        the document has no string id; otherwise replaces by key. */
    method Upsert(doc: Doc, fails: bool) returns (ok: bool)
      requires Valid()
      modifies this
      ensures Valid()
      ensures ok <==> !fails && HasId(doc)
      ensures docs == if ok then Upserted(partitionField, old(docs), doc) else old(docs)
    {
      ok := !fails && HasId(doc);
      if ok {
        docs := Upserted(partitionField, docs, doc);
      }
    }
  }
}
