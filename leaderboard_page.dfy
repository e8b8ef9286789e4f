/** The leaderboard page: how it shortens a wallet address for display,
    which rows it shows for what `/api/leaderboard` answers, and the
    placeholder rows it starts from. */
module LeaderboardPage {
  import opened Wrappers
  import opened JsBuiltins
  import opened Activity
  import opened LeaderboardApi

  /** `formatAddress`: `Unknown` for a missing or empty address, otherwise
      the first six characters, `...` and the last four (`slice(0, 6)` and
      `slice(-4)`, so a short address shows up twice). */
  function FormatAddress(address: Option<string>): (r: string)
    ensures !Truthy(address) ==> r == "Unknown"
    ensures Truthy(address) ==>
      var a, n := address.value, |address.value|;
      r == a[..Min(6, n)] + "..." + a[n - Min(4, n)..]
  {
    if !Truthy(address) then "Unknown"
    else
      var a := address.value;
      Slice(a, 0, 6) + "..." + SliceFrom(a, -4)
  }

  /** The shortened address is the three dots flanked by at most six and at
      most four characters of the address: a prefix and a suffix of it. */
  lemma FormatAddressShape(a: string)
    requires a != []
    ensures var r, n := FormatAddress(Some(a)), |a|;
      && |r| == Min(6, n) + 3 + Min(4, n)
      && r[..Min(6, n)] <= a
      && r[Min(6, n)..Min(6, n) + 3] == "..."
      && r[Min(6, n) + 3..] == a[n - Min(4, n)..]
  {
    var r, n := FormatAddress(Some(a)), |a|;
    var head, tail := a[..Min(6, n)], a[n - Min(4, n)..];
    assert r == head + "..." + tail;
    assert r[..Min(6, n)] == head;
    assert r[Min(6, n)..Min(6, n) + 3] == "...";
    assert r[Min(6, n) + 3..] == tail;
  }

  /** Two addresses of ten characters or more that agree on their first six
      and last four are displayed alike: the display does not tell them
      apart. */
  lemma FormatAddressCollides(a: string, b: string)
    requires |a| >= 10 && |b| >= 10
    requires a[..6] == b[..6] && a[|a| - 4..] == b[|b| - 4..]
    ensures FormatAddress(Some(a)) == FormatAddress(Some(b))
  {
  }

  /** A long address keeps six characters in front and four behind. */
  lemma FormatAddressLongExample()
    ensures FormatAddress(Some("darkknight.sol")) == "darkkn....sol"
  {
    var d := "darkknight.sol";
    assert |d| == 14;
    assert Slice(d, 0, 6) == d[0..6] == "darkkn";
    assert SliceFrom(d, -4) == d[10..14] == ".sol";
  }

  /** An address of four characters or fewer appears whole on both sides
      of the dots: `abc` is shown as `abc...abc`. */
  lemma FormatAddressShort(a: string)
    requires 0 < |a| <= 4
    ensures FormatAddress(Some(a)) == a + "..." + a
  {
    assert Truthy(Some(a)) && Min(6, |a|) == |a| && |a| - Min(4, |a|) == 0;
    assert a[..|a|] == a && a[0..] == a;
  }

  /** The rows the page shows once its request settles. A reply whose body
      is a JSON array is shown as it is, whatever its status; any other
      body, a body that does not parse and a request that throws all show
      an empty table. */
  function DisplayedData(reply: Upstream<LeaderboardEntry>): (data: seq<LeaderboardEntry>)
    ensures reply.Replied? && reply.body.Items? ==> data == reply.body.items
    ensures !(reply.Replied? && reply.body.Items?) ==> data == []
  {
    match reply
    case Unreachable => []
    case Replied(_, _, body) =>
      match body
      case Items(items) => items
      case _ => []
  }

  /** What the page's `fetch` sees for a response of the leaderboard
      handler: the rows as an array, an error object as something else. */
  function Served(res: LeaderboardResponse): (reply: Upstream<LeaderboardEntry>)
    ensures reply.Replied? && reply.status == res.status
    ensures reply.body.Items? <==> res.body.Rows?
  {
    Replied(200 <= res.status < 300, res.status,
      match res.body
      case Rows(rows) => Items(rows)
      case ErrorBody(_) => NotAList)
  }

  /** End to end: the page shows the handler's rows, and an empty table when
      the handler failed. */
  lemma DisplayedFromHandler(res: LeaderboardResponse)
    ensures res.body.Rows? ==> DisplayedData(Served(res)) == res.body.rows
    ensures res.body.ErrorBody? ==> DisplayedData(Served(res)) == []
  {
  }

  /** The page's placeholder rows. */
  const MockAllTime: seq<LeaderboardEntry> := [
    LeaderboardEntry("darkknight.sol", 150000.0, "ZM", Some(1)),
    LeaderboardEntry("HN7cABqLq46Es1jh92dQQisAq662SmxELLLsHHe4YWrx", 125000.0, "CR", Some(2)),
    LeaderboardEntry("satoshi.sol", 98000.0, "SS", Some(3)),
    LeaderboardEntry("Gv2W...9zXy", 85000.0, "BW", Some(4)),
    LeaderboardEntry("phantom.sol", 72000.0, "ES", Some(5))
  ]

  const MockMonthly: seq<LeaderboardEntry> := [
    LeaderboardEntry("HN7cABqLq46Es1jh92dQQisAq662SmxELLLsHHe4YWrx", 45000.0, "CR", Some(1)),
    LeaderboardEntry("darkknight.sol", 38000.0, "ZM", Some(2)),
    LeaderboardEntry("wave.sol", 22000.0, "NW", Some(3)),
    LeaderboardEntry("satoshi.sol", 18000.0, "SS", Some(4)),
    LeaderboardEntry("trader.sol", 15000.0, "TJ", Some(5))
  ]

  const MockDaily: seq<LeaderboardEntry> := [
    LeaderboardEntry("wave.sol", 5000.0, "NW", Some(1)),
    LeaderboardEntry("daytrader.sol", 4200.0, "DT", Some(2)),
    LeaderboardEntry("HN7cABqLq46Es1jh92dQQisAq662SmxELLLsHHe4YWrx", 3800.0, "CR", Some(3)),
    LeaderboardEntry("darkknight.sol", 3100.0, "ZM", Some(4)),
    LeaderboardEntry("fast.sol", 2500.0, "QF", Some(5))
  ]

  /** The table the page shows before its first request settles. */
  const InitialData: seq<LeaderboardEntry> := MockAllTime

  /** Ranks 1 to n in order, volumes strictly falling. */
  predicate RankedStrictly(rows: seq<LeaderboardEntry>)
  {
    && (forall i :: 0 <= i < |rows| ==> rows[i].rank == Some(i + 1))
    && (forall i, j :: 0 <= i < j < |rows| ==> rows[i].volume > rows[j].volume)
  }

  /** Strictly falling volumes are in the order the handler sorts to. */
  lemma RankedStrictlyByVolume(rows: seq<LeaderboardEntry>)
    requires RankedStrictly(rows)
    ensures ByVolume(rows)
  {
  }

  /** Before its first request settles, the page shows the all-time
      placeholder: ranked, and in the order the handler sorts to. */
  lemma InitialDataRanked()
    ensures |InitialData| == 5 && RankedStrictly(InitialData) && ByVolume(InitialData)
  {
    MockAllTimeRanked();
    RankedStrictlyByVolume(InitialData);
  }

  /** Each placeholder list has five rows ranked 1 to 5 with strictly
      falling volume. */
  lemma MockAllTimeRanked()
    ensures |MockAllTime| == 5 && RankedStrictly(MockAllTime)
  {
  }

  lemma MockMonthlyRanked()
    ensures |MockMonthly| == 5 && RankedStrictly(MockMonthly)
  {
  }

  lemma MockDailyRanked()
    ensures |MockDaily| == 5 && RankedStrictly(MockDaily)
  {
  }
}
