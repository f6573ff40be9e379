/** The daily-and-total visit counter: each request reads the day's count
    and the cached all-time total, adds one to both, and upserts two
    documents, the day's (id = the date) and the total's (id "totalCount",
    written with visitDate "all-time").  The total is read back from item
    "totalCount" in partition "totalCount"; whether that is where it was
    written depends on the container's partition-key property, and the
    lemmas at the end of this module settle exactly when it is. */
module TotalCounter {
  import opened Cosmos

  const TotalId := "totalCount"
  const AllTime := "all-time"

  /** The address `get_total_count` reads: item "totalCount" in partition "totalCount". */
  const TotalReadKey := Key(Part(Str(TotalId)), TotalId)

  /** The daily document as written by the handler. */
  function DailyDoc(visitDate: string, count: int): Doc {
    map["id" := Str(visitDate), "visitDate" := Str(visitDate), "visitorCount" := Num(count)]
  }

  /** The total document as written by the handler. */
  function TotalDoc(count: int): Doc {
    map["id" := Str(TotalId), "visitDate" := Str(AllTime), "totalVisitorCount" := Num(count)]
  }

  /** `get_total_count`: the stored "totalVisitorCount" of the document at
      the read address, or 0 when the document is missing, the property is
      absent, or the read fails for any other reason.  It never raises. */
  function GetTotalCount(store: Store, readFails: bool): (v: Value)
    ensures !readFails && TotalReadKey in store && "totalVisitorCount" in store[TotalReadKey] ==>
      v == store[TotalReadKey]["totalVisitorCount"]
    ensures !readFails && TotalReadKey in store && "totalVisitorCount" !in store[TotalReadKey] ==> v == Num(0)
    ensures readFails || TotalReadKey !in store ==> v == Num(0)
  {
    match Read(store, TotalId, Part(Str(TotalId)), readFails)
    case Found(item) => if "totalVisitorCount" in item then item["totalVisitorCount"] else Num(0)
    case NotFound => Num(0)
    case ReadFailed => Num(0)
  }

  /** What the caught exception was: a store call raised, or `+= 1` met a
      total that is not a number. */
  datatype Failure = StoreError | TypeError

  datatype Body = Counts(dailyCount: int, totalCount: int) | ErrorBody(error: Failure)

  datatype Response = Response(status: nat, body: Body)

  /** The outcome of the store calls that a request makes: whether the
      total read fails (swallowed), and whether each upsert is rejected. */
  datatype Faults = Faults(totalRead: bool, dailyWrite: bool, totalWrite: bool)

  datatype Outcome = Outcome(response: Response, store: Store)

  /** Every address outside `written` holds what it held, and no document
      has appeared there. */
  ghost predicate UnchangedExcept(before: Store, after: Store, written: set<Key>) {
    forall k: Key | k !in written ::
      (k in after <==> k in before) && (k in before ==> after[k] == before[k])
  }

  /** One request, as a function of the store before it: `priorDaily` is
      what the day's count read returned.  The lemmas below say what it
      reports and what it leaves in the store. */
  function Visit(partitionField: string, store: Store, visitDate: string, priorDaily: nat, faults: Faults): (r: Outcome)
    requires StoreValid(partitionField, store)
    ensures StoreValid(partitionField, r.store)
  {
    var daily := priorDaily + 1;
    var total := GetTotalCount(store, faults.totalRead);
    if !total.Num? then Outcome(Response(500, ErrorBody(TypeError)), store)
    else if faults.dailyWrite then Outcome(Response(500, ErrorBody(StoreError)), store)
    else
      var afterDaily := Upserted(partitionField, store, DailyDoc(visitDate, daily));
      if faults.totalWrite then Outcome(Response(500, ErrorBody(StoreError)), afterDaily)
      else Outcome(Response(200, Counts(daily, total.n + 1)), Upserted(partitionField, afterDaily, TotalDoc(total.n + 1)))
  }

  /** A request succeeds exactly when both upserts go through and the total
      read is a number; it then reports both counts one above what was read.
      Otherwise it answers 500 with an error body. */
  lemma VisitResponse(partitionField: string, store: Store, visitDate: string, priorDaily: nat, faults: Faults)
    requires StoreValid(partitionField, store)
    ensures var r := Visit(partitionField, store, visitDate, priorDaily, faults);
      (r.response.status == 200 <==>
        !faults.dailyWrite && !faults.totalWrite && GetTotalCount(store, faults.totalRead).Num?) &&
      (r.response.status == 200 ==>
        r.response.body == Counts(priorDaily + 1, GetTotalCount(store, faults.totalRead).n + 1)) &&
      (r.response.status != 200 ==> r.response.status == 500 && r.response.body.ErrorBody?)
  {
  }

  /** After a successful request the daily document (id = the date) holds
      the reported daily count and the total document the reported total. */
  lemma VisitWrites(partitionField: string, store: Store, visitDate: string, priorDaily: nat, faults: Faults)
    requires StoreValid(partitionField, store)
    requires visitDate != TotalId
    requires Visit(partitionField, store, visitDate, priorDaily, faults).response.status == 200
    ensures var r := Visit(partitionField, store, visitDate, priorDaily, faults);
      var daily := KeyOf(partitionField, DailyDoc(visitDate, r.response.body.dailyCount));
      var total := KeyOf(partitionField, TotalDoc(r.response.body.totalCount));
      daily in r.store && r.store[daily] == DailyDoc(visitDate, r.response.body.dailyCount) &&
      total in r.store && r.store[total] == TotalDoc(r.response.body.totalCount)
  {
  }

  /** Only the two written addresses change: the daily document's, and the
      total document's when the total read was a number.  Every other
      address, in whatever partition, is untouched, and nothing appears. */
  lemma VisitFrame(partitionField: string, store: Store, visitDate: string, priorDaily: nat, faults: Faults)
    requires StoreValid(partitionField, store)
    ensures var t := GetTotalCount(store, faults.totalRead);
      var daily := KeyOf(partitionField, DailyDoc(visitDate, priorDaily + 1));
      var written := if t.Num? then {daily, KeyOf(partitionField, TotalDoc(t.n + 1))} else {daily};
      UnchangedExcept(store, Visit(partitionField, store, visitDate, priorDaily, faults).store, written)
  {
  }

  /** Nothing is undone: a request that fails before the daily upsert, or
      at it, leaves the store as it was; one whose total upsert is rejected
      leaves the daily write in place. */
  lemma VisitPartialFailure(partitionField: string, store: Store, visitDate: string, priorDaily: nat, faults: Faults)
    requires StoreValid(partitionField, store)
    ensures var r := Visit(partitionField, store, visitDate, priorDaily, faults);
      (faults.dailyWrite || !GetTotalCount(store, faults.totalRead).Num? ==> r.store == store) &&
      (!faults.dailyWrite && faults.totalWrite && GetTotalCount(store, faults.totalRead).Num? ==>
        r.response.status == 500 &&
        r.store == Upserted(partitionField, store, DailyDoc(visitDate, priorDaily + 1)))
  {
  }

  /** The handler: read both counts, add one to each, upsert the daily
      document, then the total document; any exception becomes a 500 and
      nothing already written is undone. */
  method CountVisit(c: Container, visitDate: string, priorDaily: nat, faults: Faults) returns (response: Response)
    requires c.Valid()
    modifies c
    ensures c.Valid()
    ensures Outcome(response, c.docs) == Visit(c.partitionField, old(c.docs), visitDate, priorDaily, faults)
  {
    var daily := priorDaily;
    var total := GetTotalCount(c.docs, faults.totalRead);
    daily := daily + 1;
    if !total.Num? {
      return Response(500, ErrorBody(TypeError));
    }
    total := Num(total.n + 1);
    var ok := c.Upsert(DailyDoc(visitDate, daily), faults.dailyWrite);
    if !ok {
      return Response(500, ErrorBody(StoreError));
    }
    ok := c.Upsert(TotalDoc(total.n), faults.totalWrite);
    if !ok {
      return Response(500, ErrorBody(StoreError));
    }
    response := Response(200, Counts(daily, total.n));
  }

  /** The written total is read back exactly when the container is
      partitioned on "id": then the read address is the written one;
      otherwise the total document lands elsewhere and the read address
      keeps whatever it held. */
  lemma TotalReadBack(partitionField: string, store: Store, count: int, readFails: bool)
    ensures partitionField == "id" ==>
      GetTotalCount(Upserted(partitionField, store, TotalDoc(count)), readFails) == if readFails then Num(0) else Num(count)
    ensures partitionField != "id" ==>
      GetTotalCount(Upserted(partitionField, store, TotalDoc(count)), readFails) == GetTotalCount(store, readFails)
  {
    var written := KeyOf(partitionField, TotalDoc(count));
    if partitionField == "id" {
      assert written == TotalReadKey;
    } else {
      assert written.partition != Part(Str(TotalId));
      assert written != TotalReadKey;
    }
  }

  /** A request never touches the read address unless it writes the total
      there: the day's document has another id. */
  lemma VisitReadAddress(partitionField: string, store: Store, visitDate: string, priorDaily: nat, faults: Faults, readFails: bool)
    requires StoreValid(partitionField, store)
    requires visitDate != TotalId
    requires Visit(partitionField, store, visitDate, priorDaily, faults).response.status == 200
    ensures var r := Visit(partitionField, store, visitDate, priorDaily, faults);
      GetTotalCount(r.store, readFails) ==
        if partitionField != "id" then GetTotalCount(store, readFails)
        else if readFails then Num(0)
        else Num(r.response.body.totalCount)
  {
    var r := Visit(partitionField, store, visitDate, priorDaily, faults);
    var total := GetTotalCount(store, faults.totalRead);
    var daily := DailyDoc(visitDate, priorDaily + 1);
    var afterDaily := Upserted(partitionField, store, daily);
    assert r == Outcome(Response(200, Counts(priorDaily + 1, total.n + 1)), Upserted(partitionField, afterDaily, TotalDoc(total.n + 1)));
    assert GetTotalCount(afterDaily, readFails) == GetTotalCount(store, readFails) by {
      assert KeyOf(partitionField, daily) != TotalReadKey;
      ReadAfterUpsert(partitionField, store, daily, TotalId, Part(Str(TotalId)), readFails);
    }
    TotalReadBack(partitionField, afterDaily, total.n + 1, readFails);
  }

  /** A fault-free request on a real date, when the total reads as a number:
      what it reports and what the next total read sees. */
  lemma VisitStep(partitionField: string, store: Store, call: Call, start: int)
    requires StoreValid(partitionField, store)
    requires call.visitDate != TotalId
    requires GetTotalCount(store, false) == Num(start)
    ensures var r := Visit(partitionField, store, call.visitDate, call.priorDaily, Faults(false, false, false));
      r.response == Response(200, Counts(call.priorDaily + 1, start + 1)) &&
      GetTotalCount(r.store, false) == if partitionField == "id" then Num(start + 1) else Num(start)
  {
    VisitReadAddress(partitionField, store, call.visitDate, call.priorDaily, Faults(false, false, false), false);
  }

  /** Two successful requests in a row, on days that are real dates (never
      the sentinel id): the second reports a total one above the first
      exactly when the container is partitioned on "id". */
  lemma TotalAdvancesIff(partitionField: string, store: Store, day1: string, daily1: nat, day2: string, daily2: nat)
    requires StoreValid(partitionField, store)
    requires day1 != TotalId && day2 != TotalId
    requires Visit(partitionField, store, day1, daily1, Faults(false, false, false)).response.status == 200
    requires Visit(partitionField, Visit(partitionField, store, day1, daily1, Faults(false, false, false)).store,
                   day2, daily2, Faults(false, false, false)).response.status == 200
    ensures var first := Visit(partitionField, store, day1, daily1, Faults(false, false, false));
      var second := Visit(partitionField, first.store, day2, daily2, Faults(false, false, false));
      second.response.body.totalCount == first.response.body.totalCount + 1 <==> partitionField == "id"
  {
    VisitReadAddress(partitionField, store, day1, daily1, Faults(false, false, false), false);
  }

  /** A request in a sequence of requests with no store failures. */
  datatype Call = Call(visitDate: string, priorDaily: nat)

  datatype Trace = Trace(responses: seq<Response>, store: Store)

  function Run(partitionField: string, store: Store, calls: seq<Call>): (t: Trace)
    requires StoreValid(partitionField, store)
    ensures StoreValid(partitionField, t.store)
    ensures |t.responses| == |calls|
    decreases |calls|
  {
    if calls == [] then Trace([], store)
    else
      var first := Visit(partitionField, store, calls[0].visitDate, calls[0].priorDaily, Faults(false, false, false));
      var rest := Run(partitionField, first.store, calls[1..]);
      Trace([first.response] + rest.responses, rest.store)
  }

  /** Every response of a run is a success reporting the day's count one
      above what was read and, as total, `start` plus one plus (when the
      total advances) the response's position. */
  ghost predicate Reports(responses: seq<Response>, calls: seq<Call>, start: int, advancing: bool) {
    |responses| == |calls| &&
    forall i | 0 <= i < |calls| ::
      responses[i] == Response(200, Counts(calls[i].priorDaily + 1, if advancing then start + i + 1 else start + 1))
  }

  lemma ReportsCons(r: Response, rest: seq<Response>, calls: seq<Call>, start: int, advancing: bool)
    requires calls != []
    requires r == Response(200, Counts(calls[0].priorDaily + 1, start + 1))
    requires Reports(rest, calls[1..], if advancing then start + 1 else start, advancing)
    ensures Reports([r] + rest, calls, start, advancing)
  {
    forall i | 0 <= i < |calls|
      ensures ([r] + rest)[i] == Response(200, Counts(calls[i].priorDaily + 1, if advancing then start + i + 1 else start + 1))
    {
      if i > 0 {
        assert ([r] + rest)[i] == rest[i - 1];
        assert calls[1..][i - 1] == calls[i];
      }
    }
  }

  /** With the container partitioned on "id", the i-th of a run of
      requests reports the starting total plus i + 1, and the stored total
      ends |calls| above where it started. */
  lemma {:induction false} RunPartitionedById(store: Store, calls: seq<Call>, start: int)
    requires StoreValid("id", store)
    requires forall i | 0 <= i < |calls| :: calls[i].visitDate != TotalId
    requires GetTotalCount(store, false) == Num(start)
    ensures GetTotalCount(Run("id", store, calls).store, false) == Num(start + |calls|)
    ensures Reports(Run("id", store, calls).responses, calls, start, true)
    decreases |calls|
  {
    if calls != [] {
      var first := Visit("id", store, calls[0].visitDate, calls[0].priorDaily, Faults(false, false, false));
      var rest := Run("id", first.store, calls[1..]);
      assert Run("id", store, calls) == Trace([first.response] + rest.responses, rest.store);
      VisitStep("id", store, calls[0], start);
      RunPartitionedById(first.store, calls[1..], start + 1);
      ReportsCons(first.response, rest.responses, calls, start, true);
      assert |calls[1..]| == |calls| - 1;
    } else {
      assert Run("id", store, calls) == Trace([], store);
    }
  }

  /** With any other partition-key property the total never advances: every
      request of a run reports the total it started from plus one. */
  lemma {:induction false} RunPartitionedOtherwise(partitionField: string, store: Store, calls: seq<Call>, start: int)
    requires StoreValid(partitionField, store)
    requires partitionField != "id"
    requires forall i | 0 <= i < |calls| :: calls[i].visitDate != TotalId
    requires GetTotalCount(store, false) == Num(start)
    ensures GetTotalCount(Run(partitionField, store, calls).store, false) == Num(start)
    ensures Reports(Run(partitionField, store, calls).responses, calls, start, false)
    decreases |calls|
  {
    if calls != [] {
      var first := Visit(partitionField, store, calls[0].visitDate, calls[0].priorDaily, Faults(false, false, false));
      var rest := Run(partitionField, first.store, calls[1..]);
      assert Run(partitionField, store, calls) == Trace([first.response] + rest.responses, rest.store);
      VisitStep(partitionField, store, calls[0], start);
      RunPartitionedOtherwise(partitionField, first.store, calls[1..], start);
      ReportsCons(first.response, rest.responses, calls, start, false);
      assert |calls[1..]| == |calls| - 1;
    } else {
      assert Run(partitionField, store, calls) == Trace([], store);
    }
  }
}
