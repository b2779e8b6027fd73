/** The web client's bucket-id registry (`getOrCreateS3BucketId.js`): on
    every request it tries to claim the single DynamoDB record with a fresh
    uuid, reads the record back when someone else claimed it first, and
    records the winning id as the application's `s3Bucket`. The conditional
    put is one atomic step; the table's failures (a table still being
    created, throttling, a failed read) come from an oracle, one answer per
    call. */
module BucketRegistry {
  import opened Js
  import opened Json

  /** The key of the one record the table is meant to hold. */
  const RecordId: string := "1"

  const ConditionalCheckFailed: string := "ConditionalCheckFailedException"
  const ResourceNotFound: string := "ResourceNotFoundException"

  /** The table's record map: `id` to `s3BucketId`. */
  type Table = map<string, string>

  /** A DynamoDB call the handler makes. `PutItem` carries the condition
      `attribute_not_exists(id)`. */
  datatype Call = PutItem(tableName: string, id: string, s3BucketId: string) | GetItem(tableName: string, id: string)

  /** How the handler ends: `next()`, or a 500 with a JSON error. */
  datatype Exit = Proceed | Fail(status: int, body: Json)

  /** The new table and `s3Bucket`, how the handler ended, and the calls it
      made in order. */
  datatype Effect = Effect(table: Table, s3Bucket: Option<string>, exit: Exit, calls: seq<Call>)

  /** The error DynamoDB reports when the condition of a put fails. */
  function ConditionalCheckFailedError(): JsError {
    ServiceError(400, ConditionalCheckFailed, "The conditional request failed")
  }

  /** How the conditional put fails, if it does: an injected fault, or the
      record already existing. */
  function PutError(table: Table, putFault: Option<JsError>): (r: Option<JsError>)
    ensures putFault.None? ==> (r.Some? <==> RecordId in table)
    ensures putFault.None? && r.Some? ==> r.value.code == Some(ConditionalCheckFailed)
  {
    if putFault.Some? then putFault
    else if RecordId in table then Some(ConditionalCheckFailedError())
    else None
  }

  /** What the oracle lets the read of the record see. The `getItem` asks
      for no consistent read, so just after another request's put it may
      still see a table without the record. */
  datatype ReadView = Current | Stale | ReadFault(error: JsError)

  /** What the read of the record returns: its `s3BucketId`, if the read
      sees a record, or the injected fault. */
  function GetAnswer(table: Table, read: ReadView): (r: Result<Option<string>, JsError>)
    ensures read.Current? ==> r.Ok? && (r.value.Some? <==> RecordId in table)
    ensures read.Current? && RecordId in table ==> r.value == Some(table[RecordId])
    ensures read.Stale? ==> r == Ok(None)
    ensures read.ReadFault? ==> r == Err(read.error)
  {
    match read
    case ReadFault(e) => Err(e)
    case Stale => Ok(None)
    case Current => Ok(if RecordId in table then Some(table[RecordId]) else None)
  }

  /** The 500 answer for an error that reaches the final handler. */
  function ErrorExit(e: JsError): Exit {
    Fail(500, JObj([Member("code", e.code), Member("message", e.message)]))
  }

  /** A put failure that is neither a conflict nor a missing table is
      passed on as it is; a missing table gets a hint that it may still be
      initializing. */
  function PutFailure(tableName: string, e: JsError): (x: Exit)
    ensures x.Fail? && x.status == 500 && x.body.JObj?
    ensures e.code == Some(ResourceNotFound) ==> x.body.members == [
      Member("code", Some(ResourceNotFound)),
      Member("message", Some(Interpolate(e.message) + " - the DynamoDB " + tableName + " table may still be initializing"))]
    ensures e.code != Some(ResourceNotFound) ==> x.body.members == [Member("code", e.code), Member("message", e.message)]
  {
    if e.code == Some(ResourceNotFound) then
      ErrorExit(JsError(None, Some(ResourceNotFound),
        Some(Interpolate(e.message) + " - the DynamoDB " + tableName + " table may still be initializing"), None, None, None))
    else ErrorExit(e)
  }

  /** One run of the handler against the table, with this call's fresh uuid
      and the oracle's answers for the put and the read. */
  function Step(table: Table, s3Bucket: Option<string>, tableName: string, uuid: string,
                putFault: Option<JsError>, read: ReadView): (e: Effect)
    ensures RecordId in table ==> e.table == table
    ensures e.table == table || (RecordId !in table && e.table == table[RecordId := uuid])
    ensures |e.calls| == 1 || |e.calls| == 2
    ensures e.calls[0] == PutItem(tableName, RecordId, uuid)
    ensures |e.calls| == 2 <==> PutError(table, putFault).Some? && PutError(table, putFault).value.code == Some(ConditionalCheckFailed)
    ensures |e.calls| == 2 ==> e.calls[1] == GetItem(tableName, RecordId)
    ensures e.exit.Fail? ==> e.s3Bucket == s3Bucket && e.exit.status == 500
    ensures e.exit.Proceed? && RecordId in e.table && !read.Stale? ==> e.s3Bucket == Some(e.table[RecordId])
    ensures |e.calls| == 2 && read.Stale? ==> e.exit == Proceed && e.s3Bucket == Some(uuid)
  {
    var put := PutItem(tableName, RecordId, uuid);
    match PutError(table, putFault)
    case None => Effect(table[RecordId := uuid], Some(uuid), Proceed, [put])
    case Some(err) =>
      if err.code == Some(ConditionalCheckFailed) then
        var calls := [put, GetItem(tableName, RecordId)];
        match GetAnswer(table, read)
        case Err(g) => Effect(table, s3Bucket, ErrorExit(g), calls)
        case Ok(None) => Effect(table, Some(uuid), Proceed, calls)
        case Ok(Some(stored)) => Effect(table, Some(stored), Proceed, calls)
      else
        Effect(table, s3Bucket, PutFailure(tableName, err), [put])
  }

  /** The handler as it runs in the application: the table and the
      application-wide `s3Bucket` are state it updates. */
  class Registry {
    const tableName: string
    var table: Table
    var s3Bucket: Option<string>

    /** The table holds at most the one record, as every writer of the
        table intends. */
    predicate Valid()
      reads this
    {
      table.Keys <= {RecordId}
    }

    constructor (tableName: string)
      ensures Valid()
      ensures this.tableName == tableName && table == map[] && s3Bucket == None
    {
      this.tableName := tableName;
      table := map[];
      s3Bucket := None;
    }

    method GetOrCreate(uuid: string, putFault: Option<JsError>, read: ReadView) returns (exit: Exit, calls: seq<Call>)
      requires Valid()
      modifies this
      ensures Valid()
      ensures var e := Step(old(table), old(s3Bucket), tableName, uuid, putFault, read);
        table == e.table && s3Bucket == e.s3Bucket && exit == e.exit && calls == e.calls
      ensures exit.Proceed? && NoSpuriousConflict(putFault) && !read.Stale? ==> s3Bucket.Some? && table == map[RecordId := s3Bucket.value]
    {
      calls := [PutItem(tableName, RecordId, uuid)];
      var putErr := PutError(table, putFault);
      if putErr.None? {
        table := table[RecordId := uuid];
        s3Bucket := Some(uuid);
        exit := Proceed;
        return;
      }
      var err := putErr.value;
      if err.code == Some(ConditionalCheckFailed) {
        calls := calls + [GetItem(tableName, RecordId)];
        var got := GetAnswer(table, read);
        if got.Err? {
          exit := ErrorExit(got.error);
        } else {
          s3Bucket := if got.value.Some? then got.value else Some(uuid);
          exit := Proceed;
        }
      } else {
        exit := PutFailure(tableName, err);
      }
    }
  }

  // ---------------------------------------------------------------------
  // Properties of the handler

  /** Into an empty table: the fresh uuid is stored and becomes `s3Bucket`,
      and nothing is read. */
  lemma FirstClaimWins(table: Table, s3Bucket: Option<string>, tableName: string, uuid: string, read: ReadView)
    requires RecordId !in table
    ensures var e := Step(table, s3Bucket, tableName, uuid, None, read);
      && e.table == table[RecordId := uuid]
      && e.s3Bucket == Some(uuid)
      && e.exit == Proceed
      && e.calls == [PutItem(tableName, RecordId, uuid)]
  {
  }

  /** Once claimed: the put fails on its condition, the record is read, and
      its stored id becomes `s3Bucket`; the fresh uuid is discarded. */
  lemma ConflictReadsRecord(table: Table, s3Bucket: Option<string>, tableName: string, uuid: string)
    requires RecordId in table
    ensures var e := Step(table, s3Bucket, tableName, uuid, None, Current);
      && e.table == table
      && e.s3Bucket == Some(table[RecordId])
      && e.exit == Proceed
      && e.calls == [PutItem(tableName, RecordId, uuid), GetItem(tableName, RecordId)]
  {
  }

  /** A table being created: a 500 with the hint, `s3Bucket` untouched, no
      read. */
  lemma MissingTableHint(table: Table, s3Bucket: Option<string>, tableName: string, uuid: string, putFault: JsError, read: ReadView)
    requires putFault.code == Some(ResourceNotFound)
    ensures var e := Step(table, s3Bucket, tableName, uuid, Some(putFault), read);
      && e.table == table
      && e.s3Bucket == s3Bucket
      && e.calls == [PutItem(tableName, RecordId, uuid)]
      && e.exit == Fail(500, JObj([
           Member("code", Some(ResourceNotFound)),
           Member("message", Some(Interpolate(putFault.message) + " - the DynamoDB " + tableName + " table may still be initializing"))]))
  {
  }

  /** Any other put failure: a 500 carrying the error's own code and
      message, `s3Bucket` untouched, no read. */
  lemma OtherPutFailure(table: Table, s3Bucket: Option<string>, tableName: string, uuid: string, putFault: JsError, read: ReadView)
    requires putFault.code != Some(ResourceNotFound) && putFault.code != Some(ConditionalCheckFailed)
    ensures var e := Step(table, s3Bucket, tableName, uuid, Some(putFault), read);
      && e.table == table
      && e.s3Bucket == s3Bucket
      && e.calls == [PutItem(tableName, RecordId, uuid)]
      && e.exit == Fail(500, JObj([Member("code", putFault.code), Member("message", putFault.message)]))
  {
  }

  /** A failed read after a conflict: a 500 carrying the read error's own
      code and message, `s3Bucket` untouched, the table unchanged. */
  lemma ReadFailure(table: Table, s3Bucket: Option<string>, tableName: string, uuid: string, g: JsError)
    requires RecordId in table
    ensures var e := Step(table, s3Bucket, tableName, uuid, None, ReadFault(g));
      && e.table == table
      && e.s3Bucket == s3Bucket
      && e.calls == [PutItem(tableName, RecordId, uuid), GetItem(tableName, RecordId)]
      && e.exit == Fail(500, JObj([Member("code", g.code), Member("message", g.message)]))
  {
  }

  /** A put failure that this model's atomic put can raise only for an
      existing record; a fault claiming a conflict is left out of the
      agreement properties below. */
  predicate NoSpuriousConflict(putFault: Option<JsError>) {
    putFault.None? || putFault.value.code != Some(ConditionalCheckFailed)
  }

  /** An eventually consistent read can break the agreement: with the
      record claimed as "A", a request whose read comes back empty adopts
      its own uuid "B", which is never stored, and the next request takes
      "A" again. */
  lemma StaleReadDisagrees(tableName: string)
    ensures var e1 := Step(map[RecordId := "A"], None, tableName, "B", None, Stale);
      var e2 := Step(e1.table, e1.s3Bucket, tableName, "C", None, Current);
      && e1.exit == Proceed && e1.s3Bucket == Some("B") && e1.table == map[RecordId := "A"]
      && e2.exit == Proceed && e2.s3Bucket == Some("A")
  {
  }

  /** Once a call reaches `next()`, the next call leaves `s3Bucket` as it
      is, whether it proceeds or fails, as long as neither read is stale. */
  lemma SuccessiveCallsAgree(table: Table, s3Bucket: Option<string>, tableName: string,
                             u1: string, p1: Option<JsError>, g1: ReadView,
                             u2: string, p2: Option<JsError>, g2: ReadView)
    requires NoSpuriousConflict(p1) && NoSpuriousConflict(p2)
    requires !g1.Stale? && !g2.Stale?
    ensures var e1 := Step(table, s3Bucket, tableName, u1, p1, g1);
      var e2 := Step(e1.table, e1.s3Bucket, tableName, u2, p2, g2);
      e1.exit.Proceed? ==> e1.s3Bucket == e2.s3Bucket
  {
    var e1 := Step(table, s3Bucket, tableName, u1, p1, g1);
    if e1.exit.Proceed? {
      assert RecordId in e1.table;
    }
  }

  /** One request's uuid and the oracle's answers for it. */
  datatype Attempt = Attempt(uuid: string, putFault: Option<JsError>, read: ReadView)

  /** The effects of handling the attempts one after another: each is the
      `Step` of the table and `s3Bucket` the one before it left. */
  function Run(table: Table, s3Bucket: Option<string>, tableName: string, attempts: seq<Attempt>): (es: seq<Effect>)
    ensures |es| == |attempts|
    ensures |es| > 0 ==>
      es[0] == Step(table, s3Bucket, tableName, attempts[0].uuid, attempts[0].putFault, attempts[0].read)
    ensures forall k :: 0 < k < |es| ==>
      es[k] == Step(es[k - 1].table, es[k - 1].s3Bucket, tableName, attempts[k].uuid, attempts[k].putFault, attempts[k].read)
    decreases |attempts|
  {
    if attempts == [] then []
    else
      var a := attempts[0];
      var e := Step(table, s3Bucket, tableName, a.uuid, a.putFault, a.read);
      [e] + Run(e.table, e.s3Bucket, tableName, attempts[1..])
  }

  /** Once the record exists, the table never changes; every request that
      proceeds takes the stored id, unless its read was stale, and then it
      takes its own uuid. */
  lemma {:induction false} RunAfterClaim(table: Table, s3Bucket: Option<string>, tableName: string, attempts: seq<Attempt>)
    requires RecordId in table
    ensures var es := Run(table, s3Bucket, tableName, attempts);
      forall k :: 0 <= k < |es| ==>
        && es[k].table == table
        && (es[k].exit.Proceed? && !attempts[k].read.Stale? ==> es[k].s3Bucket == Some(table[RecordId]))
        && (es[k].exit.Proceed? && attempts[k].read.Stale? ==> es[k].s3Bucket == Some(attempts[k].uuid))
    decreases |attempts|
  {
    if attempts != [] {
      var a := attempts[0];
      var e := Step(table, s3Bucket, tableName, a.uuid, a.putFault, a.read);
      RunAfterClaim(e.table, e.s3Bucket, tableName, attempts[1..]);
      var es := Run(table, s3Bucket, tableName, attempts);
      var rest := Run(e.table, e.s3Bucket, tableName, attempts[1..]);
      assert es == [e] + rest;
      assert e.table == table;
      forall k | 1 <= k < |es|
        ensures es[k] == rest[k - 1] && attempts[k] == attempts[1..][k - 1]
      {
      }
    }
  }

  /** Once the record exists and no read is stale, every request that
      proceeds takes the stored id. */
  lemma ClaimedRunAgrees(table: Table, s3Bucket: Option<string>, tableName: string, attempts: seq<Attempt>)
    requires RecordId in table
    requires forall k :: 0 <= k < |attempts| ==> !attempts[k].read.Stale?
    ensures forall e :: e in Run(table, s3Bucket, tableName, attempts) && e.exit.Proceed? ==>
      e.s3Bucket == Some(table[RecordId])
  {
    RunAfterClaim(table, s3Bucket, tableName, attempts);
  }

  /** However many requests run one after another, all that proceed agree on
      `s3Bucket`. */
  lemma {:induction false} RunAgrees(table: Table, s3Bucket: Option<string>, tableName: string, attempts: seq<Attempt>)
    requires forall k :: 0 <= k < |attempts| ==> NoSpuriousConflict(attempts[k].putFault) && !attempts[k].read.Stale?
    ensures forall e1, e2 ::
      (e1 in Run(table, s3Bucket, tableName, attempts) && e2 in Run(table, s3Bucket, tableName, attempts)
       && e1.exit.Proceed? && e2.exit.Proceed?) ==> e1.s3Bucket == e2.s3Bucket
    decreases |attempts|
  {
    if attempts != [] {
      if RecordId in table {
        ClaimedRunAgrees(table, s3Bucket, tableName, attempts);
      } else {
        var a := attempts[0];
        var e := Step(table, s3Bucket, tableName, a.uuid, a.putFault, a.read);
        var rest := Run(e.table, e.s3Bucket, tableName, attempts[1..]);
        assert Run(table, s3Bucket, tableName, attempts) == [e] + rest;
        if RecordId in e.table {
          assert forall k :: 0 <= k < |attempts[1..]| ==> attempts[1..][k] == attempts[k + 1];
          ClaimedRunAgrees(e.table, e.s3Bucket, tableName, attempts[1..]);
        } else {
          // The first request failed and left the table without a record.
          assert a.putFault.Some? && NoSpuriousConflict(attempts[0].putFault);
          assert e.exit.Fail?;
          assert forall k :: 0 <= k < |attempts[1..]| ==> attempts[1..][k] == attempts[k + 1];
          RunAgrees(e.table, e.s3Bucket, tableName, attempts[1..]);
        }
      }
    }
  }
}
