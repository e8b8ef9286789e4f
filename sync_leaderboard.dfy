/** The `POST /api/sync-leaderboard` handler: a guarded entry (method, then
    shared secret), then fetch, transform and a batched upsert of the sale
    rows into the `sales` table. */
module SyncLeaderboard {
  import opened Wrappers
  import opened JsBuiltins
  import opened Activity
  import opened MagicEden
  import opened SalesStore

  const CollectionSymbol: string := "vibe_knights"
  const FetchLimit: int := 10000
  const BatchSize: nat := 100

  // ---------------------------------------------------------------------
  // Batches
  // ---------------------------------------------------------------------

  /** The batches the upsert loop sends: consecutive slices of at most
      `BatchSize` rows, `rows.slice(i, i + BatchSize)` for i = 0, 100, ... */
  function Batches<T>(rows: seq<T>): (r: seq<seq<T>>)
    ensures forall k :: 0 <= k < |r| ==> 1 <= |r[k]| <= BatchSize
    ensures |r| <= |rows|
    decreases |rows|
  {
    if rows == [] then []
    else
      var n := Min(BatchSize, |rows|);
      [rows[..n]] + Batches(rows[n..])
  }

  /** The batches cover the rows exactly once, in order, and each holds
      between one and `BatchSize` rows. */
  lemma {:induction false} BatchesCover<T>(rows: seq<T>)
    ensures Flatten(Batches(rows)) == rows
    ensures forall k :: 0 <= k < |Batches(rows)| ==> 1 <= |Batches(rows)[k]| <= BatchSize
    decreases |rows|
  {
    if rows != [] {
      var n := Min(BatchSize, |rows|);
      var bs := Batches(rows);
      BatchesCover(rows[n..]);
      assert bs[1..] == Batches(rows[n..]);
      assert rows == rows[..n] + rows[n..];
    }
  }

  /** There are as many batches as `BatchSize`-sized slices needed to
      cover the rows. */
  lemma {:induction false} BatchCount<T>(rows: seq<T>)
    ensures |Batches(rows)| == (|rows| + BatchSize - 1) / BatchSize
    decreases |rows|
  {
    if rows != [] {
      BatchCount(rows[Min(BatchSize, |rows|)..]);
    }
  }

  /** Batch `k` is the slice of rows starting at `k * BatchSize`. */
  lemma {:induction false} BatchAt<T>(rows: seq<T>, k: nat)
    requires k < |Batches(rows)|
    ensures BatchSize * k < |rows|
    ensures Batches(rows)[k] == rows[BatchSize * k .. Min(BatchSize * k + BatchSize, |rows|)]
    decreases k
  {
    var n := Min(BatchSize, |rows|);
    if k > 0 {
      var tail := rows[n..];
      assert Batches(rows)[k] == Batches(tail)[k - 1];
      BatchAt(tail, k - 1);
      assert n == BatchSize;
      var lo := BatchSize * (k - 1);
      var hi := Min(lo + BatchSize, |tail|);
      assert BatchSize * k == lo + BatchSize;
      SliceOfSuffix(rows, n, lo, hi);
    }
  }

  /** A slice of a suffix is a slice of the whole, shifted. */
  lemma SliceOfSuffix<T>(rows: seq<T>, n: nat, lo: nat, hi: nat)
    requires n <= |rows| && lo <= hi <= |rows| - n
    ensures rows[n..][lo..hi] == rows[n + lo..n + hi]
  {
    forall i | 0 <= i < hi - lo
      ensures rows[n..][lo..hi][i] == rows[n + lo..n + hi][i]
    {
      assert rows[n..][lo + i] == rows[n + lo + i];
    }
  }

  /** The first `k` batches hold exactly the first `k * BatchSize` rows. */
  lemma {:induction false} BatchesPrefix<T>(rows: seq<T>, k: nat)
    requires k <= |Batches(rows)|
    ensures Flatten(Batches(rows)[..k]) == rows[..Min(BatchSize * k, |rows|)]
    decreases k
  {
    if k > 0 {
      var n := Min(BatchSize, |rows|);
      var bs := Batches(rows);
      BatchesPrefix(rows[n..], k - 1);
      assert bs[..k] == [rows[..n]] + Batches(rows[n..])[..k - 1];
      assert bs[..k][1..] == Batches(rows[n..])[..k - 1];
      assert rows[..n] + rows[n..][..Min(BatchSize * (k - 1), |rows| - n)] == rows[..Min(BatchSize * k, |rows|)];
    }
  }

  // ---------------------------------------------------------------------
  // The store's answers
  // ---------------------------------------------------------------------

  /** The error the store reports for the `k`-th upsert request of a run;
      requests past the end of `faults` succeed. */
  function FaultAt(faults: seq<Option<string>>, k: nat): Option<string>
  {
    if k < |faults| then faults[k] else None
  }

  /** The first of the requests `from`, ..., `count - 1` that fails. */
  function FirstFault(faults: seq<Option<string>>, from: nat, count: nat): (r: Option<nat>)
    ensures r.Some? ==> from <= r.value < count && FaultAt(faults, r.value).Some?
    ensures r.Some? ==> forall j :: from <= j < r.value ==> FaultAt(faults, j).None?
    ensures r.None? ==> forall j :: from <= j < count ==> FaultAt(faults, j).None?
    decreases count - from
  {
    if from >= count then None
    else if FaultAt(faults, from).Some? then Some(from)
    else FirstFault(faults, from + 1, count)
  }

  // ---------------------------------------------------------------------
  // The entry checks
  // ---------------------------------------------------------------------

  datatype Request = Request(httpMethod: string, authorization: Option<string>)

  /** The environment the handler reads: `SYNC_SECRET_KEY` and
      `SUPABASE_SERVICE_ROLE_KEY`. */
  datatype Env = Env(syncSecretKey: Option<string>, serviceRoleKey: Option<string>)

  /** The header the handler expects, as written: the template literal
      turns a missing secret into the text `undefined`. */
  function ExpectedAuthAsWritten(secret: Option<string>): (r: string)
    ensures |r| >= 7 && r[..7] == "Bearer "
    ensures secret.Some? ==> r[7..] == secret.value
    ensures secret.None? ==> r == "Bearer undefined"
  {
    "Bearer " + (if secret.Some? then secret.value else "undefined")
  }

  /** The secret check the handler makes: the header equals the expected
      text exactly, so it starts with `Bearer `. */
  predicate AuthorizedAsWritten(header: Option<string>, secret: Option<string>)
    ensures AuthorizedAsWritten(header, secret) ==>
      header.Some? && |header.value| >= 7 && header.value[..7] == "Bearer "
  {
    header == Some(ExpectedAuthAsWritten(secret))
  }

  /** With no secret configured, the header `Bearer undefined` passes the
      check as written. */
  lemma UnsetSecretAdmitsBearerUndefined()
    ensures AuthorizedAsWritten(Some("Bearer undefined"), None)
    ensures AuthorizedAsWritten(Some("Bearer "), Some(""))
    ensures Admitted(Request("POST", Some("Bearer undefined")), Env(None, None))
  {
    assert "Bearer " + "undefined" == "Bearer undefined";
    assert "Bearer " + "" == "Bearer ";
  }

  /** The check as intended: a configured, non-empty secret, sent back as
      a bearer token. */
  predicate Authorized(header: Option<string>, secret: Option<string>)
    ensures Authorized(header, secret) ==> Truthy(secret) && AuthorizedAsWritten(header, secret)
  {
    Truthy(secret) && header == Some("Bearer " + secret.value)
  }

  /** The intended check agrees with the written one whenever the secret is
      configured, and admits nobody when it is not. */
  lemma AuthorizedAgreesWhenConfigured(header: Option<string>, secret: Option<string>)
    ensures Truthy(secret) ==> (Authorized(header, secret) <==> AuthorizedAsWritten(header, secret))
    ensures !Truthy(secret) ==> !Authorized(header, secret)
  {
  }

  /** Past both entry checks, as the handler makes them. */
  predicate Admitted(req: Request, env: Env)
    ensures Admitted(req, env) ==> req.httpMethod == "POST" && req.authorization.Some?
    ensures Truthy(env.syncSecretKey) ==>
      (Admitted(req, env) <==> req.httpMethod == "POST" && Authorized(req.authorization, env.syncSecretKey))
    ensures env.syncSecretKey.None? ==>
      (Admitted(req, env) <==> req == Request("POST", Some("Bearer undefined")))
  {
    req.httpMethod == "POST" && AuthorizedAsWritten(req.authorization, env.syncSecretKey)
  }

  // ---------------------------------------------------------------------
  // The handler
  // ---------------------------------------------------------------------

  /** The JSON bodies the handler answers with. */
  datatype Json = ErrorJson(error: string) | MessageJson(message: string) | SuccessJson(message: string)

  datatype Response = Response(status: nat, body: Json)

  const MissingServiceKey: string := "SUPABASE_SERVICE_ROLE_KEY is not defined"

  /** The sale rows a successful fetch turns into. */
  function SaleEvents(activities: seq<RawActivity>): seq<SaleRecord>
  {
    ProcessActivitiesForDB(activities, CollectionSymbol)
  }

  /** The fetch the handler makes. */
  function Fetch(server: map<nat, PageReply>): Crawl
  {
    Paginate(server, FetchLimit, 0, [], 0)
  }

  /** Step 5 of the handler: the `for` loop that upserts `salesEvents` in
      batches of `BatchSize`, stopping at the first batch the store
      refuses. Returns the number of rows sent in accepted batches and the
      store's error, if any. */
  method UpsertInBatches(table: SalesTable, salesEvents: seq<SaleRecord>, faults: seq<Option<string>>)
    returns (insertedCount: nat, error: Option<string>)
    modifies table
    ensures FirstFault(faults, 0, |Batches(salesEvents)|).None? ==>
      && error.None? && insertedCount == |salesEvents|
      && table.requests == old(table.requests) + Batches(salesEvents)
      && table.rows == Upserted(old(table.rows), salesEvents)
    ensures FirstFault(faults, 0, |Batches(salesEvents)|).Some? ==>
      var k := FirstFault(faults, 0, |Batches(salesEvents)|).value;
      && error == faults[k] && insertedCount == BatchSize * k
      && table.requests == old(table.requests) + Batches(salesEvents)[..k + 1]
      && table.rows == Upserted(old(table.rows), Flatten(Batches(salesEvents)[..k]))
  {
    ghost var batches := Batches(salesEvents);
    ghost var k;
    insertedCount, error, k := SendBatches(table, salesEvents, faults);
    if error.None? {
      assert batches[..k] == batches;
      BatchesCover(salesEvents);
      FirstFaultNone(faults, |batches|);
    } else {
      FirstFaultAt(faults, |batches|, k);
    }
  }

  /** The loop itself: batches go out in order until the store refuses
      one, which is batch `k`, or until all `k` of them are accepted. */
  method SendBatches(table: SalesTable, salesEvents: seq<SaleRecord>, faults: seq<Option<string>>)
    returns (insertedCount: nat, error: Option<string>, ghost k: nat)
    modifies table
    ensures k <= |Batches(salesEvents)|
    ensures AllAccepted(faults, k)
    ensures error.None? ==>
      && k == |Batches(salesEvents)| && insertedCount == |salesEvents|
      && table.requests == old(table.requests) + Batches(salesEvents)[..k]
      && table.rows == Upserted(old(table.rows), Flatten(Batches(salesEvents)[..k]))
    ensures error.Some? ==>
      && k < |Batches(salesEvents)| && error == FaultAt(faults, k) && insertedCount == BatchSize * k
      && table.requests == old(table.requests) + Batches(salesEvents)[..k + 1]
      && table.rows == Upserted(old(table.rows), Flatten(Batches(salesEvents)[..k]))
  {
    ghost var batches := Batches(salesEvents);
    ghost var rows0, log0 := table.rows, table.requests;
    k := 0;
    BatchBounds(salesEvents);
    insertedCount, error := 0, None;
    var i := 0;
    while i < |salesEvents|
      invariant k <= |batches| && i == BatchSize * k
      invariant AllAccepted(faults, k)
      invariant insertedCount == Min(i, |salesEvents|)
      invariant table.requests == log0 + batches[..k]
      invariant table.rows == Upserted(rows0, Flatten(batches[..k]))
      decreases |salesEvents| - i
    {
      var batch, failure := SendBatch(table, salesEvents, faults, i, k);
      PrefixSnoc(batches, k);
      if failure.Some? {
        error := failure;
        return;
      }
      CommitBatch(rows0, batches, k);
      AcceptedNext(faults, k);
      assert insertedCount == i;
      insertedCount := insertedCount + |batch|;
      i := i + BatchSize;
      k := k + 1;
    }
  }

  /** The store accepted each of the first `k` requests. */
  predicate AllAccepted(faults: seq<Option<string>>, k: nat)
  {
    forall j :: 0 <= j < k ==> FaultAt(faults, j).None?
  }

  /** One more accepted request extends the accepted prefix. */
  lemma AcceptedNext(faults: seq<Option<string>>, k: nat)
    requires AllAccepted(faults, k) && FaultAt(faults, k).None?
    ensures AllAccepted(faults, k + 1)
  {
  }

  lemma PrefixSnoc<T>(s: seq<T>, k: nat)
    requires k < |s|
    ensures s[..k] + [s[k]] == s[..k + 1]
  {
  }

  /** One pass of the loop: slice out the batch starting at row `i` and
      upsert it, with the store's answer for that request. */
  method SendBatch(table: SalesTable, salesEvents: seq<SaleRecord>, faults: seq<Option<string>>, i: nat, ghost k: nat)
    returns (batch: seq<SaleRecord>, failure: Option<string>)
    requires i == BatchSize * k && k < |Batches(salesEvents)|
    modifies table
    ensures batch == Batches(salesEvents)[k]
    ensures |batch| == Min(i + BatchSize, |salesEvents|) - i
    ensures table.requests == old(table.requests) + [batch]
    ensures failure == FaultAt(faults, k)
    ensures failure.None? ==> table.rows == Upserted(old(table.rows), batch)
    ensures failure.Some? ==> table.rows == old(table.rows)
  {
    batch := Slice(salesEvents, i, i + BatchSize);
    NextBatch(salesEvents, k);
    BatchIndex(k);
    failure := table.Upsert(batch, FaultAt(faults, i / BatchSize));
  }

  lemma BatchIndex(k: nat)
    ensures (BatchSize * k) / BatchSize == k
  {
  }

  /** The loop's `k`-th pass slices out batch `k`; the rows before it fill
      `k` whole batches; and a further pass is made exactly when there is a
      further batch. */
  lemma NextBatch<T>(rows: seq<T>, k: nat)
    requires k < |Batches(rows)|
    ensures Slice(rows, BatchSize * k, BatchSize * k + BatchSize) == Batches(rows)[k]
    ensures |Batches(rows)[k]| == Min(BatchSize * (k + 1), |rows|) - BatchSize * k
  {
    BatchAt(rows, k);
  }

  /** The batches, `BatchSize` rows each, reach just past the last row. */
  lemma BatchBounds<T>(rows: seq<T>)
    ensures |rows| <= BatchSize * |Batches(rows)| < |rows| + BatchSize
  {
    BatchCount(rows);
  }

  /** Committing one more batch extends the committed rows by that batch. */
  lemma CommitBatch(table: Table, batches: seq<seq<SaleRecord>>, k: nat)
    requires k < |batches|
    ensures Flatten(batches[..k + 1]) == Flatten(batches[..k]) + batches[k]
    ensures Upserted(Upserted(table, Flatten(batches[..k])), batches[k]) == Upserted(table, Flatten(batches[..k + 1]))
  {
    assert batches[..k + 1] == batches[..k] + [batches[k]];
    FlattenAppend(batches[..k], [batches[k]]);
    assert Flatten([batches[k]]) == batches[k] + Flatten([]);
    UpsertedAppend(table, Flatten(batches[..k]), batches[k]);
  }

  /** What the handler answers, and what the store then holds, once past
      its entry checks: `rows0` and `log0` are the table's rows and request
      log before, `rows` and `log` after. */
  ghost predicate SyncOutcome(server: map<nat, PageReply>, faults: seq<Option<string>>,
                              rows0: Table, log0: seq<seq<SaleRecord>>,
                              res: Response, requested: seq<nat>, rows: Table, log: seq<seq<SaleRecord>>)
  {
    // The fetch runs once.
    && requested == Fetch(server).requested
    && (Fetch(server).result.Err? ==>
          && res == Response(500, ErrorJson("Failed to fetch data from Magic Eden: " + ErrorMessage(Fetch(server).result.error)))
          && rows == rows0 && log == log0)
    && (Fetch(server).result.Ok? ==>
          Reported(SaleEvents(Fetch(server).result.value), faults, rows0, log0, res, rows, log))
  }

  /** What the handler answers, and what the store then holds, for the sale
      rows `events` of a successful fetch. */
  ghost predicate Reported(events: seq<SaleRecord>, faults: seq<Option<string>>,
                           rows0: Table, log0: seq<seq<SaleRecord>>,
                           res: Response, rows: Table, log: seq<seq<SaleRecord>>)
  {
    var batches := Batches(events);
    // No rows: nothing is sent.
    && (events == [] ==>
          res == Response(200, MessageJson("No new sales found")) && rows == rows0 && log == log0)
    // Every batch accepted: all rows upserted, in batches, and counted.
    && (events != [] && FirstFault(faults, 0, |batches|).None? ==>
          && res == Response(200, SuccessJson("Synced " + Decimal(|events|) + " sales events"))
          && log == log0 + batches
          && rows == Upserted(rows0, events))
    // Batch k refused: it was the last one sent, and the batches before it
    // stay committed.
    && (events != [] && FirstFault(faults, 0, |batches|).Some? ==>
          var k := FirstFault(faults, 0, |batches|).value;
          && res == Response(500, ErrorJson("Internal Server Error: Supabase Error: " + faults[k].value))
          && log == log0 + batches[..k + 1]
          && rows == Upserted(rows0, Flatten(batches[..k])))
  }

  /** `handler(req, res)`. `server` answers the marketplace's page requests,
      `faults` gives the store's answer to each upsert request in turn, and
      `table` is the `sales` table. Returns the response and the offsets of
      the page requests made. */
  method Handle(req: Request, env: Env, server: map<nat, PageReply>, faults: seq<Option<string>>, table: SalesTable)
    returns (res: Response, requested: seq<nat>)
    modifies table
    // The method check comes first, then the secret, then the service key;
    // none of them fetches or touches the store.
    ensures req.httpMethod != "POST" ==> res == Response(405, ErrorJson("Method not allowed"))
    ensures req.httpMethod == "POST" && !AuthorizedAsWritten(req.authorization, env.syncSecretKey) ==>
              res == Response(401, ErrorJson("Unauthorized"))
    ensures Admitted(req, env) && !Truthy(env.serviceRoleKey) ==>
              res == Response(500, ErrorJson("Internal Server Error: " + MissingServiceKey))
    ensures !Admitted(req, env) || !Truthy(env.serviceRoleKey) ==>
              requested == [] && table.rows == old(table.rows) && table.requests == old(table.requests)
    ensures Admitted(req, env) && Truthy(env.serviceRoleKey) ==>
              SyncOutcome(server, faults, old(table.rows), old(table.requests), res, requested, table.rows, table.requests)
  {
    requested := [];
    if req.httpMethod != "POST" {
      return Response(405, ErrorJson("Method not allowed")), requested;
    }
    if !AuthorizedAsWritten(req.authorization, env.syncSecretKey) {
      return Response(401, ErrorJson("Unauthorized")), requested;
    }
    // getSupabaseAdmin()
    if !Truthy(env.serviceRoleKey) {
      return Response(500, ErrorJson("Internal Server Error: " + MissingServiceKey)), requested;
    }
    res, requested := Sync(server, faults, table);
  }

  /** The handler past its entry checks: fetch, transform, upsert, report. */
  method Sync(server: map<nat, PageReply>, faults: seq<Option<string>>, table: SalesTable)
    returns (res: Response, requested: seq<nat>)
    modifies table
    ensures SyncOutcome(server, faults, old(table.rows), old(table.requests), res, requested, table.rows, table.requests)
  {
    var fetched;
    fetched, requested := FetchCollectionActivities(server, FetchLimit);
    if fetched.Err? {
      return Response(500, ErrorJson("Failed to fetch data from Magic Eden: " + ErrorMessage(fetched.error))), requested;
    }
    var salesEvents := ProcessActivitiesForDB(fetched.value, CollectionSymbol);
    res := Report(salesEvents, faults, table);
  }

  /** Steps 4 and 5 of the handler: upsert the sale rows, if any, and answer. */
  method Report(salesEvents: seq<SaleRecord>, faults: seq<Option<string>>, table: SalesTable) returns (res: Response)
    modifies table
    ensures Reported(salesEvents, faults, old(table.rows), old(table.requests), res, table.rows, table.requests)
  {
    if |salesEvents| == 0 {
      return Response(200, MessageJson("No new sales found"));
    }
    var insertedCount, error := UpsertInBatches(table, salesEvents, faults);
    if error.Some? {
      return Response(500, ErrorJson("Internal Server Error: Supabase Error: " + error.value));
    }
    return Response(200, SuccessJson("Synced " + Decimal(insertedCount) + " sales events"));
  }

  /** With every request succeeding, no request is the first to fail. */
  lemma FirstFaultNone(faults: seq<Option<string>>, count: nat)
    requires forall j :: 0 <= j < count ==> FaultAt(faults, j).None?
    ensures FirstFault(faults, 0, count).None?
  {
  }

  /** The first failing request is the one that fails after only successes. */
  lemma {:induction false} FirstFaultAt(faults: seq<Option<string>>, count: nat, k: nat)
    requires k < count && FaultAt(faults, k).Some?
    requires forall j :: 0 <= j < k ==> FaultAt(faults, j).None?
    ensures FirstFault(faults, 0, count) == Some(k)
  {
    FirstFaultFromAt(faults, 0, count, k);
  }

  lemma {:induction false} FirstFaultFromAt(faults: seq<Option<string>>, from: nat, count: nat, k: nat)
    requires from <= k < count && FaultAt(faults, k).Some?
    requires forall j :: from <= j < k ==> FaultAt(faults, j).None?
    ensures FirstFault(faults, from, count) == Some(k)
    decreases k - from
  {
    if from < k {
      FirstFaultFromAt(faults, from + 1, count, k);
    }
  }
}
