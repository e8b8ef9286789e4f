/** The marketplace client: the paginated activity fetch, the string
    sanitiser and the transformation of activities into sale rows. */
module MagicEden {
  import opened Wrappers
  import opened JsBuiltins
  import opened Activity

  // ---------------------------------------------------------------------
  // Sanitising strings
  // ---------------------------------------------------------------------

  /** Printable ASCII: space (0x20) through tilde (0x7E). */
  predicate IsPrintableAscii(c: char)
  {
    ' ' <= c <= '~'
  }

  predicate AllPrintable(s: string)
  {
    forall i :: 0 <= i < |s| ==> IsPrintableAscii(s[i])
  }

  /** `a` is `b` with some characters deleted, the rest kept in order. */
  predicate IsSubsequence(a: string, b: string)
    decreases |b|
  {
    if a == [] then true
    else if b == [] then false
    else if a[0] == b[0] then IsSubsequence(a[1..], b[1..])
    else IsSubsequence(a, b[1..])
  }

  /** `String(str).replace(/[^\x20-\x7E]/g, '')`. */
  function StripNonPrintable(s: string): (r: string)
    ensures AllPrintable(r)
    ensures |r| <= |s|
  {
    if s == [] then []
    else (if IsPrintableAscii(s[0]) then [s[0]] else []) + StripNonPrintable(s[1..])
  }

  /** `sanitizeString`: a falsy value is returned as it is; anything else
      loses every character outside printable ASCII. */
  function SanitizeString(str: Option<string>): (r: Option<string>)
    ensures !Truthy(str) ==> r == str
    ensures r.Some? <==> str.Some?
    ensures r.Some? ==> AllPrintable(r.value) && IsSubsequence(r.value, str.value)
  {
    if !Truthy(str) then str
    else
      StripIsSubsequence(str.value);
      Some(StripNonPrintable(str.value))
  }

  lemma {:induction false} StripIsSubsequence(s: string)
    ensures IsSubsequence(StripNonPrintable(s), s)
  {
    if s != [] {
      StripIsSubsequence(s[1..]);
      var rest := StripNonPrintable(s[1..]);
      if !IsPrintableAscii(s[0]) {
        assert StripNonPrintable(s) == rest;
        assert rest != [] ==> rest[0] != s[0];
      } else {
        assert StripNonPrintable(s) == [s[0]] + rest;
        assert ([s[0]] + rest)[1..] == rest;
      }
    }
  }

  /** Exactly the printable characters survive, each as often as in the input. */
  lemma {:induction false} StripKeepsPrintableCounts(s: string, c: char)
    ensures multiset(StripNonPrintable(s))[c] == if IsPrintableAscii(c) then multiset(s)[c] else 0
  {
    if s != [] {
      StripKeepsPrintableCounts(s[1..], c);
      var head: string := if IsPrintableAscii(s[0]) then [s[0]] else [];
      var rest := StripNonPrintable(s[1..]);
      assert multiset(StripNonPrintable(s)) == multiset(head) + multiset(rest);
      assert s == [s[0]] + s[1..];
      assert multiset(s) == multiset{s[0]} + multiset(s[1..]);
    }
  }

  /** A string is left unchanged by the sanitiser if and only if it is
      already printable ASCII. */
  lemma {:induction false} StripFixedPointIff(s: string)
    ensures StripNonPrintable(s) == s <==> AllPrintable(s)
  {
    if s != [] {
      StripFixedPointIff(s[1..]);
      if AllPrintable(s) {
        assert AllPrintable(s[1..]);
        assert StripNonPrintable(s) == [s[0]] + s[1..];
      }
    }
  }

  lemma SanitizeIdempotent(str: Option<string>)
    ensures SanitizeString(SanitizeString(str)) == SanitizeString(str)
  {
    if Truthy(str) {
      var r := StripNonPrintable(str.value);
      StripFixedPointIff(r);
    }
  }

  lemma SanitizeKeepsPrintable(str: Option<string>)
    requires str.Some? && AllPrintable(str.value)
    ensures SanitizeString(str) == str
  {
    StripFixedPointIff(str.value);
  }

  // ---------------------------------------------------------------------
  // Activities to sale rows
  // ---------------------------------------------------------------------

  /** When the sale happened: the source's epoch seconds, or, when it gave
      none, the moment of ingestion. The ISO-8601 rendering is not modelled. */
  datatype BlockTime = EpochSeconds(seconds: int) | IngestionTime

  /** A row of the `sales` table. */
  datatype SaleRecord = SaleRecord(
    signature: string,
    collectionSymbol: Option<string>,
    buyer: string,
    seller: Option<string>,
    price: real,
    blockTime: BlockTime,
    source: string)

  const SourceTag: string := "magiceden"

  /** The filter of `processActivitiesForDB`: a realised trade with a buyer
      and a signature. */
  predicate IsRecordable(a: RawActivity)
    ensures IsRecordable(a) ==> a.buyer.Some? && a.signature.Some?
    ensures !IsRealisedKind(a.kind) ==> !IsRecordable(a)
    ensures IsRecordable(a) ==> a.buyer.value != "" && a.signature.value != ""
  {
    IsRealisedKind(a.kind) && Truthy(a.buyer) && Truthy(a.signature)
  }

  function ToSaleRecord(a: RawActivity, symbol: string): (row: SaleRecord)
    requires IsRecordable(a)
    ensures Some(row.signature) == SanitizeString(a.signature)
    ensures Some(row.buyer) == SanitizeString(a.buyer)
    ensures row.seller == SanitizeString(a.seller)
    ensures row.collectionSymbol == SanitizeString(Some(symbol))
    ensures row.price == PriceOrZero(a.price) && row.source == SourceTag
    ensures row.blockTime == if a.blockTime.Some? && a.blockTime.value != 0
                             then EpochSeconds(a.blockTime.value) else IngestionTime
  {
    SaleRecord(
      SanitizeString(a.signature).value,
      SanitizeString(Some(symbol)),
      SanitizeString(a.buyer).value,
      SanitizeString(a.seller),
      PriceOrZero(a.price),
      if a.blockTime.Some? && a.blockTime.value != 0 then EpochSeconds(a.blockTime.value) else IngestionTime,
      SourceTag)
  }

  /** `processActivitiesForDB(activities, symbol)`. */
  function ProcessActivitiesForDB(activities: seq<RawActivity>, symbol: string): (rows: seq<SaleRecord>)
    ensures |rows| <= |activities|
    ensures forall row :: row in rows ==> row.source == SourceTag && AllPrintable(row.signature) && AllPrintable(row.buyer)
  {
    if activities == [] then []
    else
      var rest := ProcessActivitiesForDB(activities[1..], symbol);
      if IsRecordable(activities[0]) then [ToSaleRecord(activities[0], symbol)] + rest else rest
  }

  /** Processing distributes over concatenation, so input order is kept. */
  lemma {:induction false} ProcessAppend(a: seq<RawActivity>, b: seq<RawActivity>, symbol: string)
    ensures ProcessActivitiesForDB(a + b, symbol) == ProcessActivitiesForDB(a, symbol) + ProcessActivitiesForDB(b, symbol)
  {
    if a == [] {
      assert a + b == b;
    } else {
      assert (a + b)[1..] == a[1..] + b;
      ProcessAppend(a[1..], b, symbol);
    }
  }

  /** One activity yields one row when it is recordable, and none otherwise. */
  lemma ProcessOne(a: RawActivity, symbol: string)
    ensures ProcessActivitiesForDB([a], symbol) == if IsRecordable(a) then [ToSaleRecord(a, symbol)] else []
  {
    assert [a][1..] == [];
  }

  /** Every row comes from a recordable activity, and every recordable
      activity gives a row. */
  lemma {:induction false} ProcessSoundAndComplete(activities: seq<RawActivity>, symbol: string)
    ensures forall row :: row in ProcessActivitiesForDB(activities, symbol) ==>
              exists i :: 0 <= i < |activities| && IsRecordable(activities[i]) && row == ToSaleRecord(activities[i], symbol)
    ensures forall i :: 0 <= i < |activities| && IsRecordable(activities[i]) ==>
              ToSaleRecord(activities[i], symbol) in ProcessActivitiesForDB(activities, symbol)
  {
    if activities != [] {
      var tail := activities[1..];
      ProcessSoundAndComplete(tail, symbol);
      forall row | row in ProcessActivitiesForDB(activities, symbol)
        ensures exists i :: 0 <= i < |activities| && IsRecordable(activities[i]) && row == ToSaleRecord(activities[i], symbol)
      {
        if row in ProcessActivitiesForDB(tail, symbol) {
          var j :| 0 <= j < |tail| && IsRecordable(tail[j]) && row == ToSaleRecord(tail[j], symbol);
          assert activities[j + 1] == tail[j];
        } else {
          assert IsRecordable(activities[0]) && row == ToSaleRecord(activities[0], symbol);
        }
      }
      forall i | 0 <= i < |activities| && IsRecordable(activities[i])
        ensures ToSaleRecord(activities[i], symbol) in ProcessActivitiesForDB(activities, symbol)
      {
        if i > 0 {
          assert activities[i] == tail[i - 1];
        }
      }
    }
  }

  // ---------------------------------------------------------------------
  // Paginated fetch
  // ---------------------------------------------------------------------

  const PageSize: nat := 500
  const MaxIterations: nat := 50
  const DefaultLimit: int := 10000

  /** The listing as the server serves it: the reply to a page request at
      each offset. An offset the map leaves out lies past the end of the
      listing, where the server answers with an empty list. */
  function Reply(server: map<nat, PageReply>, offset: nat): PageReply
  {
    if offset in server then server[offset] else HttpReply(200, Items([]))
  }

  /** What one page request brings back: the request itself may fail (a
      network error, carrying its message), or the server answers with a
      status and a body. */
  datatype PageReply = NetworkFailure(message: string) | HttpReply(status: nat, body: Body<RawActivity>)

  /** The errors a page request raises. */
  datatype FetchError = ApiError(status: nat) | InvalidJson | NetworkError(message: string)

  /** The message of the `Error` that is thrown. */
  function ErrorMessage(e: FetchError): (m: string)
    ensures e.ApiError? ==> |m| > 10 && m[..10] == "API Error " && AllDigits(m[10..]) && DecimalValue(m[10..]) == e.status
    ensures e.InvalidJson? ==> m == "Invalid JSON"
    ensures e.NetworkError? ==> m == e.message
  {
    match e
    case ApiError(status) =>
      DecimalRoundTrip(status);
      assert ("API Error " + Decimal(status))[10..] == Decimal(status);
      "API Error " + Decimal(status)
    case InvalidJson => "Invalid JSON"
    case NetworkError(message) => message
  }

  /** How the loop reads a reply: a failure, the end of the listing (an
      empty or non-list body), or a non-empty page of items. */
  datatype PageOutcome = Failed(error: FetchError) | Exhausted | Page(items: seq<RawActivity>)

  function Classify(reply: PageReply): (o: PageOutcome)
    ensures o.Page? ==> o.items != []
    ensures o.Failed? <==> reply.NetworkFailure? || reply.status >= 400 || reply.body.Unparseable?
  {
    match reply
    case NetworkFailure(message) => Failed(NetworkError(message))
    case HttpReply(status, body) =>
      if status >= 400 then Failed(ApiError(status))
      else match body
        case Unparseable => Failed(InvalidJson)
        case NotAList => Exhausted
        case Items(items) => if items == [] then Exhausted else Page(items)
  }

  /** The items a reply contributes: those of a page, and nothing otherwise. */
  function PageItems(reply: PageReply): seq<RawActivity>
  {
    match Classify(reply)
    case Page(items) => items
    case _ => []
  }

  /** Everything the pages at the given offsets contribute, in request order. */
  function Gathered(server: map<nat, PageReply>, offsets: seq<nat>): (r: seq<RawActivity>)
  {
    if offsets == [] then [] else PageItems(Reply(server, offsets[0])) + Gathered(server, offsets[1..])
  }

  /** A finished fetch: the outcome and the offsets requested, in order. */
  datatype Crawl = Crawl(result: Result<seq<RawActivity>, FetchError>, requested: seq<nat>)

  /** The loop goes on past the reply at `offset`: it brought a full page
      and the running total stays below `limit`. */
  predicate Continues(server: map<nat, PageReply>, limit: int, offset: nat, fetched: seq<RawActivity>)
  {
    var page := Classify(Reply(server, offset));
    page.Page? && |page.items| >= PageSize && |fetched + page.items| < limit
  }

  /** Reference definition of the pagination, by recursion on the pages
      still allowed: `server` answers the request made at each offset,
      `fetched` is what earlier pages brought. */
  function Paginate(server: map<nat, PageReply>, limit: int, offset: nat, fetched: seq<RawActivity>, iterations: nat): (c: Crawl)
    requires iterations <= MaxIterations
    ensures |c.requested| <= MaxIterations - iterations
    ensures iterations < MaxIterations ==> c.requested != [] && c.requested[0] == offset
    decreases MaxIterations - iterations
  {
    if iterations == MaxIterations then Crawl(Ok(fetched), [])
    else match Classify(Reply(server, offset))
      case Failed(e) => Crawl(if |fetched| > 0 then Ok(fetched) else Err(e), [offset])
      case Exhausted => Crawl(Ok(fetched), [offset])
      case Page(items) =>
        var all := fetched + items;
        if |items| < PageSize || |all| >= limit then Crawl(Ok(all), [offset])
        else After([offset], Paginate(server, limit, offset + |items|, all, iterations + 1))
  }

  /** The crawl `c` preceded by the requests at `earlier`. */
  function After(earlier: seq<nat>, c: Crawl): Crawl
  {
    Crawl(c.result, earlier + c.requested)
  }

  lemma StepFails(server: map<nat, PageReply>, limit: int, offset: nat, fetched: seq<RawActivity>, iterations: nat, earlier: seq<nat>)
    requires iterations < MaxIterations && Classify(Reply(server, offset)).Failed?
    ensures After(earlier, Paginate(server, limit, offset, fetched, iterations))
         == Crawl(if |fetched| > 0 then Ok(fetched) else Err(Classify(Reply(server, offset)).error), earlier + [offset])
  {
  }

  lemma StepEnds(server: map<nat, PageReply>, limit: int, offset: nat, fetched: seq<RawActivity>, iterations: nat, earlier: seq<nat>, all: seq<RawActivity>)
    requires iterations < MaxIterations
    requires var page := Classify(Reply(server, offset));
      (page.Exhausted? && all == fetched) ||
      (page.Page? && all == fetched + page.items && (|page.items| < PageSize || |all| >= limit))
    ensures After(earlier, Paginate(server, limit, offset, fetched, iterations)) == Crawl(Ok(all), earlier + [offset])
  {
  }

  lemma StepContinues(server: map<nat, PageReply>, limit: int, offset: nat, fetched: seq<RawActivity>, iterations: nat, earlier: seq<nat>)
    requires iterations < MaxIterations
    requires var page := Classify(Reply(server, offset));
      page.Page? && |page.items| >= PageSize && |fetched + page.items| < limit
    ensures var items := Classify(Reply(server, offset)).items;
      After(earlier, Paginate(server, limit, offset, fetched, iterations))
      == After(earlier + [offset], Paginate(server, limit, offset + |items|, fetched + items, iterations + 1))
  {
    var items := Classify(Reply(server, offset)).items;
    var next := Paginate(server, limit, offset + |items|, fetched + items, iterations + 1);
    assert earlier + ([offset] + next.requested) == earlier + [offset] + next.requested;
  }

  lemma AfterNothing(c: Crawl)
    ensures After([], c) == c
  {
    assert [] + c.requested == c.requested;
  }

  /** `fetchCollectionActivities(symbol, {limit})`, against a `server` that
      answers the page request at each offset. Returns what the call
      returns or throws, and the offsets it requested. */
  method FetchCollectionActivities(server: map<nat, PageReply>, limit: int)
    returns (result: Result<seq<RawActivity>, FetchError>, requested: seq<nat>)
    ensures Crawl(result, requested) == Paginate(server, limit, 0, [], 0)
    ensures 1 <= |requested| <= MaxIterations && requested[0] == 0
  {
    var allActivities: seq<RawActivity> := [];
    var offset: nat := 0;
    var keepFetching := true;
    var iterations: nat := 0;
    requested := [];
    ghost var whole := Paginate(server, limit, 0, [], 0);
    AfterNothing(whole);
    while keepFetching && iterations < MaxIterations
      invariant iterations <= MaxIterations
      invariant keepFetching ==> whole == After(requested, Paginate(server, limit, offset, allActivities, iterations))
      invariant !keepFetching ==> whole == Crawl(Ok(allActivities), requested)
      decreases MaxIterations - iterations, if keepFetching then 1 else 0
    {
      ghost var earlier := requested;
      requested := requested + [offset];
      var failure;
      failure, keepFetching, offset, allActivities, iterations := FetchBatch(server, limit, offset, allActivities, iterations, earlier);
      // The `catch` block.
      if failure.Some? {
        if |allActivities| > 0 {
          return Ok(allActivities), requested;
        }
        return Err(failure.value), requested;
      }
    }
    result := Ok(allActivities);
  }

  /** The `try` block of one pass of the loop: request the page at
      `offset` and read it. A failure is handed to the `catch` block with the
      state unchanged; otherwise the new state is returned, and whether the
      loop is to go on. */
  method FetchBatch(server: map<nat, PageReply>, limit: int, offset: nat, allActivities: seq<RawActivity>, iterations: nat, ghost earlier: seq<nat>)
    returns (failure: Option<FetchError>, keepFetching: bool, offset': nat, allActivities': seq<RawActivity>, iterations': nat)
    requires iterations < MaxIterations
    ensures iterations <= iterations' <= MaxIterations
    ensures failure.Some? ==>
      && allActivities' == allActivities
      && After(earlier, Paginate(server, limit, offset, allActivities, iterations))
         == Crawl(if |allActivities| > 0 then Ok(allActivities) else Err(failure.value), earlier + [offset])
    ensures failure.None? && keepFetching ==>
      && iterations' == iterations + 1
      && After(earlier, Paginate(server, limit, offset, allActivities, iterations))
         == After(earlier + [offset], Paginate(server, limit, offset', allActivities', iterations'))
    ensures failure.None? && !keepFetching ==>
      After(earlier, Paginate(server, limit, offset, allActivities, iterations)) == Crawl(Ok(allActivities'), earlier + [offset])
  {
    var page := Classify(Reply(server, offset));
    if page.Failed? {
      StepFails(server, limit, offset, allActivities, iterations, earlier);
      return Some(page.error), true, offset, allActivities, iterations;
    }
    if page.Exhausted? {
      // `break`, without counting the pass
      StepEnds(server, limit, offset, allActivities, iterations, earlier, allActivities);
      return None, false, offset, allActivities, iterations;
    }
    failure, offset' := None, offset;
    allActivities' := allActivities + page.items;
    if |page.items| < PageSize || |allActivities'| >= limit {
      StepEnds(server, limit, offset, allActivities, iterations, earlier, allActivities');
      keepFetching := false;
    } else {
      StepContinues(server, limit, offset, allActivities, iterations, earlier);
      keepFetching := true;
      offset' := offset + |page.items|;
    }
    iterations' := iterations + 1;
  }

  // ---------------------------------------------------------------------
  // What the pagination promises
  // ---------------------------------------------------------------------

  function Last(s: seq<nat>): nat
    requires s != []
  {
    s[|s| - 1]
  }

  lemma GatheredCons(server: map<nat, PageReply>, offset: nat, rest: seq<nat>)
    ensures Gathered(server, [offset] + rest) == PageItems(Reply(server, offset)) + Gathered(server, rest)
  {
    assert ([offset] + rest)[1..] == rest;
  }

  /** Every request but the last brought a full page, and the next request
      asked for the offset just past it. */
  predicate AdvancesByFullPages(server: map<nat, PageReply>, requested: seq<nat>)
  {
    |requested| <= 1 ||
    (var first := Reply(server, requested[0]);
     && Classify(first).Page? && |PageItems(first)| >= PageSize
     && requested[1] == requested[0] + |PageItems(first)|
     && AdvancesByFullPages(server, requested[1..]))
  }

  lemma AdvanceStep(server: map<nat, PageReply>, offset: nat, rest: seq<nat>)
    requires Classify(Reply(server, offset)).Page? && |PageItems(Reply(server, offset))| >= PageSize
    requires rest != [] && rest[0] == offset + |PageItems(Reply(server, offset))|
    requires AdvancesByFullPages(server, rest)
    ensures AdvancesByFullPages(server, [offset] + rest)
  {
    assert ([offset] + rest)[1..] == rest;
  }

  lemma {:induction false} PaginateOffsetsAdvance(server: map<nat, PageReply>, limit: int, offset: nat, fetched: seq<RawActivity>, iterations: nat)
    requires iterations <= MaxIterations
    ensures AdvancesByFullPages(server, Paginate(server, limit, offset, fetched, iterations).requested)
    decreases MaxIterations - iterations
  {
    if iterations < MaxIterations {
      if Continues(server, limit, offset, fetched) {
        var items := PageItems(Reply(server, offset));
        var rest := Paginate(server, limit, offset + |items|, fetched + items, iterations + 1).requested;
        if iterations + 1 < MaxIterations {
          PaginateOffsetsAdvance(server, limit, offset + |items|, fetched + items, iterations + 1);
          AdvanceStep(server, offset, rest);
        }
        UnfoldContinues(server, limit, offset, fetched, iterations);
        assert Paginate(server, limit, offset, fetched, iterations).requested == [offset] + rest;
        assert iterations + 1 == MaxIterations ==> [offset] + rest == [offset];
      } else {
        UnfoldStops(server, limit, offset, fetched, iterations);
      }
    }
  }

  /** A request that continues the loop is followed by the rest of the crawl. */
  lemma UnfoldContinues(server: map<nat, PageReply>, limit: int, offset: nat, fetched: seq<RawActivity>, iterations: nat)
    requires iterations < MaxIterations && Continues(server, limit, offset, fetched)
    ensures var items := PageItems(Reply(server, offset));
      Paginate(server, limit, offset, fetched, iterations)
      == After([offset], Paginate(server, limit, offset + |items|, fetched + items, iterations + 1))
  {
  }

  /** A request that does not continue the loop is the last one. */
  lemma UnfoldStops(server: map<nat, PageReply>, limit: int, offset: nat, fetched: seq<RawActivity>, iterations: nat)
    requires iterations < MaxIterations && !Continues(server, limit, offset, fetched)
    ensures Paginate(server, limit, offset, fetched, iterations).requested == [offset]
    ensures var page := Classify(Reply(server, offset));
      page.Page? ==> Paginate(server, limit, offset, fetched, iterations).result == Ok(fetched + page.items)
  {
  }

  lemma CollectsStep(server: map<nat, PageReply>, offset: nat, fetched: seq<RawActivity>, rest: seq<nat>, value: seq<RawActivity>)
    requires value == fetched + PageItems(Reply(server, offset)) + Gathered(server, rest)
    ensures value == fetched + Gathered(server, [offset] + rest)
  {
    GatheredCons(server, offset, rest);
  }

  /** A successful fetch returns everything it had plus the items of every
      page it requested, in request order. */
  lemma {:induction false} PaginateCollects(server: map<nat, PageReply>, limit: int, offset: nat, fetched: seq<RawActivity>, iterations: nat)
    requires iterations <= MaxIterations
    ensures var c := Paginate(server, limit, offset, fetched, iterations);
      c.result.Ok? ==> c.result.value == fetched + Gathered(server, c.requested)
    decreases MaxIterations - iterations
  {
    var c := Paginate(server, limit, offset, fetched, iterations);
    if iterations == MaxIterations {
      assert fetched + [] == fetched;
    } else if c.result.Ok? {
      if Continues(server, limit, offset, fetched) {
        var items := PageItems(Reply(server, offset));
        var rest := Paginate(server, limit, offset + |items|, fetched + items, iterations + 1);
        PaginateCollects(server, limit, offset + |items|, fetched + items, iterations + 1);
        CollectsStep(server, offset, fetched, rest.requested, c.result.value);
      } else {
        CollectsStep(server, offset, fetched, [], c.result.value);
        assert [offset] + [] == c.requested;
      }
    }
  }

  /** A fetch fails only when its first request fails and nothing had been
      fetched before it. */
  lemma {:induction false} PaginateFailsOnlyAtFirst(server: map<nat, PageReply>, limit: int, offset: nat, fetched: seq<RawActivity>, iterations: nat)
    requires iterations <= MaxIterations
    ensures var c := Paginate(server, limit, offset, fetched, iterations);
      c.result.Err? ==> fetched == [] && c.requested == [offset] && Classify(Reply(server, offset)) == Failed(c.result.error)
    decreases MaxIterations - iterations
  {
    if iterations < MaxIterations {
      if Continues(server, limit, offset, fetched) {
        var items := PageItems(Reply(server, offset));
        PaginateFailsOnlyAtFirst(server, limit, offset + |items|, fetched + items, iterations + 1);
      }
    }
  }

  /** Pagination goes on only while the running total is below `limit`, so
      a result can pass `limit` only through its last page, which is kept
      whole. */
  lemma {:induction false} PaginateOvershootsOnlyByLastPage(server: map<nat, PageReply>, limit: int, offset: nat, fetched: seq<RawActivity>, iterations: nat)
    requires iterations < MaxIterations
    ensures var c := Paginate(server, limit, offset, fetched, iterations);
      c.result.Ok? && |c.requested| >= 2 ==> |c.result.value| < limit + |PageItems(Reply(server, Last(c.requested)))|
    decreases MaxIterations - iterations
  {
    var c := Paginate(server, limit, offset, fetched, iterations);
    var items := PageItems(Reply(server, offset));
    if !Continues(server, limit, offset, fetched) {
      UnfoldStops(server, limit, offset, fetched, iterations);
    } else {
      var next := offset + |items|;
      var rest := Paginate(server, limit, next, fetched + items, iterations + 1);
      if iterations + 1 < MaxIterations && rest.result.Ok? {
        if |rest.requested| == 1 {
          PaginateCollects(server, limit, next, fetched + items, iterations + 1);
          GatheredCons(server, next, []);
          assert rest.requested == [next] + [];
          assert |rest.result.value| == |fetched + items| + |PageItems(Reply(server, next))|;
        } else {
          PaginateOvershootsOnlyByLastPage(server, limit, next, fetched + items, iterations + 1);
        }
      }
      UnfoldContinues(server, limit, offset, fetched, iterations);
      assert c == Crawl(rest.result, [offset] + rest.requested);
      if rest.requested != [] {
        assert Last(c.requested) == Last(rest.requested);
      }
    }
  }

  /** Fewer than `budget` requests in `c` means its last one ended the
      listing, failed, came back short or brought the total to `limit`. */
  predicate EndedEarlyForCause(server: map<nat, PageReply>, limit: int, c: Crawl, budget: nat)
  {
    c.requested != [] && |c.requested| < budget ==>
      var last := Reply(server, Last(c.requested));
      !Classify(last).Page? || |PageItems(last)| < PageSize || (c.result.Ok? && |c.result.value| >= limit)
  }

  lemma EndedEarlyAfter(server: map<nat, PageReply>, limit: int, c: Crawl, offset: nat, budget: nat)
    requires c.requested != [] && EndedEarlyForCause(server, limit, c, budget)
    ensures EndedEarlyForCause(server, limit, After([offset], c), budget + 1)
  {
    assert Last([offset] + c.requested) == Last(c.requested);
  }

  /** When fewer requests were made than allowed, the last one ended the
      listing, failed, came back short or brought the total to `limit`. */
  lemma {:induction false} PaginateLastRequestEnds(server: map<nat, PageReply>, limit: int, offset: nat, fetched: seq<RawActivity>, iterations: nat)
    requires iterations < MaxIterations
    ensures EndedEarlyForCause(server, limit, Paginate(server, limit, offset, fetched, iterations), MaxIterations - iterations)
    decreases MaxIterations - iterations
  {
    var items := PageItems(Reply(server, offset));
    if Continues(server, limit, offset, fetched) {
      var rest := Paginate(server, limit, offset + |items|, fetched + items, iterations + 1);
      UnfoldContinues(server, limit, offset, fetched, iterations);
      if iterations + 1 < MaxIterations {
        PaginateLastRequestEnds(server, limit, offset + |items|, fetched + items, iterations + 1);
        EndedEarlyAfter(server, limit, rest, offset, MaxIterations - iterations - 1);
      }
    } else {
      var c := Paginate(server, limit, offset, fetched, iterations);
      UnfoldStops(server, limit, offset, fetched, iterations);
      assert Last(c.requested) == offset;
      var page := Classify(Reply(server, offset));
      if page.Page? && |items| >= PageSize {
        assert items == page.items;
        assert |fetched + items| >= limit;
      }
    }
  }

  /** The fetch raises an error exactly when the very first page request fails. */
  lemma FetchFailsIffFirstPageFails(server: map<nat, PageReply>, limit: int)
    ensures Paginate(server, limit, 0, [], 0).result.Err? <==> Classify(Reply(server, 0)).Failed?
  {
    PaginateFailsOnlyAtFirst(server, limit, 0, [], 0);
  }

  /** With a page size of 500 and `limit` 150, one full page ends the fetch,
      and all 500 of its items are returned. */
  lemma OneFullPageOvershootsLimit(server: map<nat, PageReply>, page: seq<RawActivity>)
    requires |page| == 500 && Reply(server, 0) == HttpReply(200, Items(page))
    ensures Paginate(server, 150, 0, [], 0) == Crawl(Ok(page), [0])
  {
    assert [] + page == page;
  }

  /** A full first page followed by a failing second request: the items of
      the first page are returned instead of an error. */
  lemma PartialSuccess(server: map<nat, PageReply>, page: seq<RawActivity>, message: string)
    requires |page| == 500 && Reply(server, 0) == HttpReply(200, Items(page))
    requires Reply(server, 500) == NetworkFailure(message)
    ensures Paginate(server, DefaultLimit, 0, [], 0) == Crawl(Ok(page), [0, 500])
  {
    assert [] + page == page;
    assert Paginate(server, DefaultLimit, 500, page, 1) == Crawl(Ok(page), [500]);
  }
}
