/** `GET /api/leaderboard`: the top 50 wallets of the collection by traded
    volume, read from one page of 100 marketplace activities. Every realised
    trade credits its whole price to its buyer and, again, to its seller. */
module LeaderboardApi {
  import opened Wrappers
  import opened JsBuiltins
  import opened Activity

  const ActivitiesUrl: string := "https://api-mainnet.magiceden.dev/v2/collections/vibe_knights/activities?limit=100"
  const TopCount: nat := 50

  // ---------------------------------------------------------------------
  // What the aggregation means
  // ---------------------------------------------------------------------

  /** `wallet` takes part in the realised trade `a` as its buyer or its seller. */
  predicate Party(a: RawActivity, wallet: string)
  {
    IsRealisedKind(a.kind)
    && ((Truthy(a.buyer) && a.buyer.value == wallet) || (Truthy(a.seller) && a.seller.value == wallet))
  }

  /** `wallet` takes part in some realised trade of the listing. */
  predicate Touched(activities: seq<RawActivity>, wallet: string)
  {
    exists i :: 0 <= i < |activities| && Party(activities[i], wallet)
  }

  /** What one activity credits to `wallet`: its price once as the buyer and
      once more as the seller. */
  function Credit(a: RawActivity, wallet: string): real
  {
    if !IsRealisedKind(a.kind) then 0.0
    else
      (if Truthy(a.buyer) && a.buyer.value == wallet then PriceOrZero(a.price) else 0.0)
      + (if Truthy(a.seller) && a.seller.value == wallet then PriceOrZero(a.price) else 0.0)
  }

  /** The volume the listing credits to `wallet`. */
  function CreditOf(activities: seq<RawActivity>, wallet: string): real
  {
    if activities == [] then 0.0
    else CreditOf(activities[..|activities| - 1], wallet) + Credit(activities[|activities| - 1], wallet)
  }

  /** How many wallets a realised trade credits: one for a truthy buyer, one
      for a truthy seller. */
  function PartyCount(a: RawActivity): nat
  {
    if !IsRealisedKind(a.kind) then 0
    else (if Truthy(a.buyer) then 1 else 0) + (if Truthy(a.seller) then 1 else 0)
  }

  /** What one trade credits in all: its price times the number of wallets
      it credits. */
  function TradeValue(a: RawActivity): (v: real)
    ensures v == PartyCount(a) as real * PriceOrZero(a.price)
  {
    if !IsRealisedKind(a.kind) then 0.0
    else
      (if Truthy(a.buyer) then PriceOrZero(a.price) else 0.0)
      + (if Truthy(a.seller) then PriceOrZero(a.price) else 0.0)
  }

  /** The volume the listing credits in all. */
  function TradeTotal(activities: seq<RawActivity>): real
  {
    if activities == [] then 0.0
    else TradeTotal(activities[..|activities| - 1]) + TradeValue(activities[|activities| - 1])
  }

  // ---------------------------------------------------------------------
  // The `walletVolumes` object
  // ---------------------------------------------------------------------

  /** A plain object from wallet to volume: its values, and its keys in the
      order `Object.entries` lists them (the order they were added). */
  datatype WalletVolumes = WalletVolumes(volumes: map<string, real>, keys: seq<string>)

  /** `walletVolumes[wallet] || 0`. */
  function VolumeOf(o: WalletVolumes, wallet: string): (v: real)
    ensures wallet !in o.volumes ==> v == 0.0
    ensures wallet in o.volumes ==> v == o.volumes[wallet]
  {
    if wallet in o.volumes then o.volumes[wallet] else 0.0
  }

  /** `walletVolumes[wallet] = (walletVolumes[wallet] || 0) + amount`. */
  function Add(o: WalletVolumes, wallet: string, amount: real): (r: WalletVolumes)
    ensures r.volumes.Keys == o.volumes.Keys + {wallet}
    ensures VolumeOf(r, wallet) == VolumeOf(o, wallet) + amount
    ensures forall w :: w != wallet ==> VolumeOf(r, w) == VolumeOf(o, w)
    ensures r.keys == (if wallet in o.volumes then o.keys else o.keys + [wallet])
  {
    WalletVolumes(
      o.volumes[wallet := VolumeOf(o, wallet) + amount],
      if wallet in o.volumes then o.keys else o.keys + [wallet])
  }

  /** The body of the handler's `forEach` for one activity. */
  function Record(o: WalletVolumes, a: RawActivity): (r: WalletVolumes)
    ensures |o.keys| <= |r.keys| <= |o.keys| + 2 && r.keys[..|o.keys|] == o.keys
  {
    if !(a.kind == BuyNow || a.kind == AcceptBid) then o
    else
      var price := PriceOrZero(a.price);
      var afterBuyer := if Truthy(a.buyer) then Add(o, a.buyer.value, price) else o;
      if Truthy(a.seller) then Add(afterBuyer, a.seller.value, price) else afterBuyer
  }

  /** One activity adds to `wallet` exactly what it credits it, and gives
      it a key exactly when the wallet is a party to the trade. */
  lemma RecordCredits(o: WalletVolumes, a: RawActivity, wallet: string)
    ensures VolumeOf(Record(o, a), wallet) == VolumeOf(o, wallet) + Credit(a, wallet)
    ensures wallet in Record(o, a).volumes <==> wallet in o.volumes || Party(a, wallet)
  {
  }

  /** The object once the `forEach` has run over `activities`. */
  function Tally(activities: seq<RawActivity>): (o: WalletVolumes)
    ensures forall w :: w in o.volumes <==> w in o.keys
    ensures |o.keys| <= 2 * |activities|
  {
    if activities == [] then WalletVolumes(map[], [])
    else Record(Tally(activities[..|activities| - 1]), activities[|activities| - 1])
  }

  /** The `forEach` that fills `walletVolumes`. */
  method AggregateVolumes(activities: seq<RawActivity>) returns (walletVolumes: WalletVolumes)
    ensures walletVolumes == Tally(activities)
  {
    walletVolumes := WalletVolumes(map[], []);
    for i := 0 to |activities|
      invariant walletVolumes == Tally(activities[..i])
    {
      var activity := activities[i];
      if activity.kind == BuyNow || activity.kind == AcceptBid {
        var price := PriceOrZero(activity.price);
        if Truthy(activity.buyer) {
          walletVolumes := Add(walletVolumes, activity.buyer.value, price);
        }
        if Truthy(activity.seller) {
          walletVolumes := Add(walletVolumes, activity.seller.value, price);
        }
      }
      assert activities[..i + 1][..i] == activities[..i];
    }
    assert activities[..|activities|] == activities;
  }

  predicate Distinct(keys: seq<string>)
  {
    forall i, j :: 0 <= i < j < |keys| ==> keys[i] != keys[j]
  }

  /** The keys list every wallet with a volume, each once. */
  ghost predicate WellFormed(o: WalletVolumes)
  {
    Distinct(o.keys) && forall w :: w in o.volumes <==> w in o.keys
  }

  lemma AddWellFormed(o: WalletVolumes, wallet: string, amount: real)
    requires WellFormed(o)
    ensures WellFormed(Add(o, wallet, amount))
  {
  }

  /** Every wallet's volume is what the listing credits to it, and a wallet
      nothing credits reads as 0. */
  lemma {:induction false} TallyCredit(activities: seq<RawActivity>, wallet: string)
    ensures VolumeOf(Tally(activities), wallet) == CreditOf(activities, wallet)
  {
    if activities != [] {
      TallyCredit(activities[..|activities| - 1], wallet);
      RecordCredits(Tally(activities[..|activities| - 1]), activities[|activities| - 1], wallet);
    }
  }

  /** A wallet has a volume exactly when a realised trade credits it. */
  lemma {:induction false} TallyTouched(activities: seq<RawActivity>, wallet: string)
    ensures wallet in Tally(activities).volumes <==> Touched(activities, wallet)
  {
    if activities != [] {
      var n := |activities| - 1;
      TallyTouched(activities[..n], wallet);
      RecordCredits(Tally(activities[..n]), activities[n], wallet);
      TouchedLast(activities, wallet);
    }
  }

  /** A wallet takes part in a listing exactly when it takes part in all but
      the last activity, or in the last one. */
  lemma TouchedLast(activities: seq<RawActivity>, wallet: string)
    requires activities != []
    ensures var n := |activities| - 1;
      Touched(activities, wallet) <==> Touched(activities[..n], wallet) || Party(activities[n], wallet)
  {
    var n := |activities| - 1;
    var before := activities[..n];
    if Touched(before, wallet) {
      var i :| 0 <= i < n && Party(before[i], wallet);
      assert Party(activities[i], wallet);
    }
    if Touched(activities, wallet) && !Party(activities[n], wallet) {
      var i :| 0 <= i < |activities| && Party(activities[i], wallet);
      assert Party(before[i], wallet);
    }
  }

  /** The volumes of `keys`, added up. */
  function SumOver(o: WalletVolumes, keys: seq<string>): real
  {
    if keys == [] then 0.0
    else SumOver(o, keys[..|keys| - 1]) + VolumeOf(o, keys[|keys| - 1])
  }

  /** Adding `amount` to one wallet adds `amount` to the sum of all. */
  lemma AddSum(o: WalletVolumes, wallet: string, amount: real)
    requires WellFormed(o)
    ensures SumOver(Add(o, wallet, amount), Add(o, wallet, amount).keys) == SumOver(o, o.keys) + amount
  {
    if wallet in o.volumes {
      SumBump(o, o.keys, wallet, amount);
    } else {
      SumUnrelated(o, o.keys, wallet, amount);
      assert (o.keys + [wallet])[..|o.keys|] == o.keys;
    }
  }

  lemma {:induction false} SumBump(o: WalletVolumes, keys: seq<string>, wallet: string, amount: real)
    requires Distinct(keys) && wallet in keys
    ensures SumOver(Add(o, wallet, amount), keys) == SumOver(o, keys) + amount
  {
    var n := |keys| - 1;
    if keys[n] == wallet {
      assert wallet !in keys[..n];
      SumUnrelated(o, keys[..n], wallet, amount);
    } else {
      SumBump(o, keys[..n], wallet, amount);
    }
  }

  lemma {:induction false} SumUnrelated(o: WalletVolumes, keys: seq<string>, wallet: string, amount: real)
    requires wallet !in keys
    ensures SumOver(Add(o, wallet, amount), keys) == SumOver(o, keys)
  {
    if keys != [] {
      SumUnrelated(o, keys[..|keys| - 1], wallet, amount);
    }
  }

  /** One activity adds its price once per wallet it credits. */
  lemma RecordSum(o: WalletVolumes, a: RawActivity)
    requires WellFormed(o)
    ensures WellFormed(Record(o, a))
    ensures SumOver(Record(o, a), Record(o, a).keys) == SumOver(o, o.keys) + TradeValue(a)
  {
    var price := PriceOrZero(a.price);
    if a.kind == BuyNow || a.kind == AcceptBid {
      var afterBuyer := if Truthy(a.buyer) then Add(o, a.buyer.value, price) else o;
      if Truthy(a.buyer) {
        AddSum(o, a.buyer.value, price);
        AddWellFormed(o, a.buyer.value, price);
      }
      if Truthy(a.seller) {
        AddSum(afterBuyer, a.seller.value, price);
        AddWellFormed(afterBuyer, a.seller.value, price);
      }
    }
  }

  /** The object stays well formed. */
  lemma {:induction false} TallyWellFormed(activities: seq<RawActivity>)
    ensures WellFormed(Tally(activities))
  {
    if activities != [] {
      var n := |activities| - 1;
      TallyWellFormed(activities[..n]);
      RecordSum(Tally(activities[..n]), activities[n]);
    }
  }

  /** Before the cut, the volumes add up to the traded total: each realised
      trade's price times the number of wallets it credits. */
  lemma {:induction false} TallyTotal(activities: seq<RawActivity>)
    ensures SumOver(Tally(activities), Tally(activities).keys) == TradeTotal(activities)
  {
    if activities != [] {
      var n := |activities| - 1;
      TallyTotal(activities[..n]);
      TallyWellFormed(activities[..n]);
      RecordSum(Tally(activities[..n]), activities[n]);
    }
  }

  // ---------------------------------------------------------------------
  // Entries, the sort, the cut and the ranks
  // ---------------------------------------------------------------------

  /** One row of the leaderboard; `rank` is absent until ranks are given. */
  datatype LeaderboardEntry = LeaderboardEntry(address: string, volume: real, avatar: string, rank: Option<nat>)

  /** `address.slice(0, 2).toUpperCase()`: the first two characters,
      upper-cased. */
  function Avatar(address: string): (r: string)
    ensures |r| == Min(2, |address|)
    ensures forall i :: 0 <= i < |r| ==> r[i] == UpperAscii(address[i])
  {
    ToUpperAscii(Slice(address, 0, 2))
  }

  /** `Object.entries(walletVolumes).map(...)`. */
  function Entries(o: WalletVolumes): (entries: seq<LeaderboardEntry>)
    ensures |entries| == |o.keys|
    ensures forall i :: 0 <= i < |entries| ==> entries[i].address == o.keys[i]
    ensures forall e :: e in entries ==>
      e.address in o.keys && e.volume == VolumeOf(o, e.address) && e.avatar == Avatar(e.address) && e.rank.None?
  {
    seq(|o.keys|, i requires 0 <= i < |o.keys| =>
      LeaderboardEntry(o.keys[i], VolumeOf(o, o.keys[i]), Avatar(o.keys[i]), None))
  }

  predicate ByVolume(s: seq<LeaderboardEntry>)
  {
    forall i, j :: 0 <= i < j < |s| ==> s[i].volume >= s[j].volume
  }

  /** `x` placed after every entry with at least its volume. */
  function Insert(s: seq<LeaderboardEntry>, x: LeaderboardEntry): (r: seq<LeaderboardEntry>)
    ensures |r| == |s| + 1
    ensures x in r
  {
    if s == [] then [x]
    else if s[0].volume >= x.volume then [s[0]] + Insert(s[1..], x)
    else [x] + s
  }

  /** `.sort((a, b) => b.volume - a.volume)`: a stable sort by
      non-increasing volume, written as an insertion sort. */
  function SortByVolume(s: seq<LeaderboardEntry>): (r: seq<LeaderboardEntry>)
    ensures |r| == |s|
  {
    if s == [] then [] else Insert(SortByVolume(s[..|s| - 1]), s[|s| - 1])
  }

  lemma {:induction false} InsertSorted(s: seq<LeaderboardEntry>, x: LeaderboardEntry)
    requires ByVolume(s)
    ensures multiset(Insert(s, x)) == multiset(s) + multiset{x}
    ensures ByVolume(Insert(s, x))
  {
    if s == [] {
    } else if s[0].volume >= x.volume {
      InsertSorted(s[1..], x);
      InsertBelow(s[1..], x, s[0].volume);
      BeforeSorted(s[0], Insert(s[1..], x));
      assert s == [s[0]] + s[1..];
    } else {
      BeforeSorted(x, s);
    }
  }

  /** Inserting an entry of volume at most `v` among entries of volume at
      most `v` keeps every volume at most `v`. */
  lemma {:induction false} InsertBelow(s: seq<LeaderboardEntry>, x: LeaderboardEntry, v: real)
    requires forall k :: 0 <= k < |s| ==> s[k].volume <= v
    requires x.volume <= v
    ensures forall k :: 0 <= k < |Insert(s, x)| ==> Insert(s, x)[k].volume <= v
  {
    if s != [] && s[0].volume >= x.volume {
      InsertBelow(s[1..], x, v);
      var rest := Insert(s[1..], x);
      forall k | 0 <= k < |[s[0]] + rest|
        ensures ([s[0]] + rest)[k].volume <= v
      {
        if k > 0 {
          assert ([s[0]] + rest)[k] == rest[k - 1];
        }
      }
    }
  }

  /** An entry with at least every volume of a sorted list may go first. */
  lemma BeforeSorted(e: LeaderboardEntry, s: seq<LeaderboardEntry>)
    requires ByVolume(s) && forall k :: 0 <= k < |s| ==> e.volume >= s[k].volume
    ensures ByVolume([e] + s)
  {
    forall i, j | 0 <= i < j < |[e] + s|
      ensures ([e] + s)[i].volume >= ([e] + s)[j].volume
    {
      if i > 0 {
        assert ([e] + s)[i] == s[i - 1];
      }
      assert ([e] + s)[j] == s[j - 1];
    }
  }

  /** The sort orders by non-increasing volume and keeps every entry. */
  lemma {:induction false} SortByVolumeSorts(s: seq<LeaderboardEntry>)
    ensures multiset(SortByVolume(s)) == multiset(s)
    ensures ByVolume(SortByVolume(s))
  {
    if s != [] {
      var n := |s| - 1;
      SortByVolumeSorts(s[..n]);
      InsertSorted(SortByVolume(s[..n]), s[n]);
      SplitLast(s);
    }
  }

  /** The entries of `s` with volume `v`, in order. */
  function WithVolume(s: seq<LeaderboardEntry>, v: real): seq<LeaderboardEntry>
  {
    if s == [] then []
    else (if s[0].volume == v then [s[0]] else []) + WithVolume(s[1..], v)
  }

  lemma {:induction false} WithVolumeAppend(a: seq<LeaderboardEntry>, b: seq<LeaderboardEntry>, v: real)
    ensures WithVolume(a + b, v) == WithVolume(a, v) + WithVolume(b, v)
  {
    if a == [] {
      assert a + b == b;
    } else {
      var head := if a[0].volume == v then [a[0]] else [];
      assert (a + b)[0] == a[0];
      assert (a + b)[1..] == a[1..] + b;
      WithVolumeAppend(a[1..], b, v);
      assert WithVolume(a + b, v) == head + (WithVolume(a[1..], v) + WithVolume(b, v));
      assert head + (WithVolume(a[1..], v) + WithVolume(b, v)) == (head + WithVolume(a[1..], v)) + WithVolume(b, v);
    }
  }

  lemma {:induction false} WithVolumeNone(s: seq<LeaderboardEntry>, v: real)
    requires forall k :: 0 <= k < |s| ==> s[k].volume < v
    ensures WithVolume(s, v) == []
  {
    if s != [] {
      WithVolumeNone(s[1..], v);
    }
  }

  lemma {:induction false} InsertStable(s: seq<LeaderboardEntry>, x: LeaderboardEntry, v: real)
    requires ByVolume(s)
    ensures WithVolume(Insert(s, x), v) == WithVolume(s, v) + (if x.volume == v then [x] else [])
  {
    var tail: seq<LeaderboardEntry> := if x.volume == v then [x] else [];
    if s == [] {
    } else if s[0].volume >= x.volume {
      var head: seq<LeaderboardEntry> := if s[0].volume == v then [s[0]] else [];
      SortedTail(s);
      InsertStable(s[1..], x, v);
      var r := Insert(s, x);
      assert r[0] == s[0] && r[1..] == Insert(s[1..], x);
      assert WithVolume(r, v) == head + (WithVolume(s[1..], v) + tail);
      assert head + (WithVolume(s[1..], v) + tail) == (head + WithVolume(s[1..], v)) + tail;
    } else {
      var r := Insert(s, x);
      assert r[0] == x && r[1..] == s;
      if x.volume == v {
        forall k | 0 <= k < |s|
          ensures s[k].volume < v
        {
        }
        WithVolumeNone(s, v);
      }
    }
  }

  lemma SortedTail(s: seq<LeaderboardEntry>)
    requires s != [] && ByVolume(s)
    ensures ByVolume(s[1..])
  {
    forall i, j | 0 <= i < j < |s| - 1
      ensures s[1..][i].volume >= s[1..][j].volume
    {
      assert s[1..][i] == s[i + 1] && s[1..][j] == s[j + 1];
    }
  }

  /** The sort is stable: entries of equal volume keep their order. */
  lemma {:induction false} SortByVolumeStable(s: seq<LeaderboardEntry>, v: real)
    ensures WithVolume(SortByVolume(s), v) == WithVolume(s, v)
  {
    if s != [] {
      var n := |s| - 1;
      var front, x := s[..n], s[n];
      SortByVolumeStable(front, v);
      assert ByVolume(SortByVolume(front)) by {
        SortByVolumeSorts(front);
      }
      InsertStable(SortByVolume(front), x, v);
      SplitLast(s);
      WithVolumeAppend(front, [x], v);
      assert WithVolume([x], v) == (if x.volume == v then [x] else []) by {
        assert [x][1..] == [];
      }
    }
  }

  /** No wallet has two entries in `s`. */
  predicate DistinctAddresses(s: seq<LeaderboardEntry>)
  {
    forall i, j :: 0 <= i < j < |s| ==> s[i].address != s[j].address
  }

  /** Insertion adds `x` and keeps every other entry. */
  lemma {:induction false} InsertMembers(s: seq<LeaderboardEntry>, x: LeaderboardEntry)
    ensures forall e :: e in Insert(s, x) <==> e in s || e == x
  {
    if s != [] && s[0].volume >= x.volume {
      InsertMembers(s[1..], x);
      assert s == [s[0]] + s[1..];
    }
  }

  /** Inserting the entry of a new wallet keeps the wallets distinct. */
  lemma {:induction false} InsertDistinct(s: seq<LeaderboardEntry>, x: LeaderboardEntry)
    requires DistinctAddresses(s)
    requires forall k :: 0 <= k < |s| ==> s[k].address != x.address
    ensures DistinctAddresses(Insert(s, x))
  {
    if s == [] {
    } else if s[0].volume >= x.volume {
      var rest := Insert(s[1..], x);
      InsertDistinct(s[1..], x);
      InsertMembers(s[1..], x);
      forall k | 0 <= k < |rest|
        ensures rest[k].address != s[0].address
      {
        assert rest[k] in rest;
        if rest[k] != x {
          var m :| 0 <= m < |s[1..]| && s[1..][m] == rest[k];
          assert s[m + 1] == rest[k];
        }
      }
      forall i, j | 0 <= i < j < |[s[0]] + rest|
        ensures ([s[0]] + rest)[i].address != ([s[0]] + rest)[j].address
      {
        assert ([s[0]] + rest)[j] == rest[j - 1];
        if i > 0 {
          assert ([s[0]] + rest)[i] == rest[i - 1];
        }
      }
    } else {
      forall i, j | 0 <= i < j < |[x] + s|
        ensures ([x] + s)[i].address != ([x] + s)[j].address
      {
        assert ([x] + s)[j] == s[j - 1];
        if i > 0 {
          assert ([x] + s)[i] == s[i - 1];
        }
      }
    }
  }

  /** A wallet absent from `s` is absent from its sorted copy. */
  lemma SortedAbsent(s: seq<LeaderboardEntry>, wallet: string)
    requires forall k :: 0 <= k < |s| ==> s[k].address != wallet
    ensures forall k :: 0 <= k < |SortByVolume(s)| ==> SortByVolume(s)[k].address != wallet
  {
    SortByVolumeSorts(s);
    forall k | 0 <= k < |SortByVolume(s)|
      ensures SortByVolume(s)[k].address != wallet
    {
      assert SortByVolume(s)[k] in multiset(s);
    }
  }

  /** Sorting keeps the wallets distinct. */
  lemma {:induction false} SortDistinct(s: seq<LeaderboardEntry>)
    requires DistinctAddresses(s)
    ensures DistinctAddresses(SortByVolume(s))
  {
    if s != [] {
      var n := |s| - 1;
      var front := s[..n];
      assert DistinctAddresses(front) by {
        forall i, j | 0 <= i < j < |front|
          ensures front[i].address != front[j].address
        {
          assert front[i] == s[i] && front[j] == s[j];
        }
      }
      assert forall k :: 0 <= k < |front| ==> front[k].address != s[n].address by {
        forall k | 0 <= k < |front|
          ensures front[k].address != s[n].address
        {
          assert front[k] == s[k];
        }
      }
      SortDistinct(front);
      SortedAbsent(front, s[n].address);
      InsertDistinct(SortByVolume(front), s[n]);
    }
  }

  /** `leaderboard.forEach((item, index) => { item.rank = index + 1 })`. */
  method AssignRanks(leaderboard: array<LeaderboardEntry>)
    modifies leaderboard
    ensures forall i :: 0 <= i < leaderboard.Length ==> leaderboard[i] == old(leaderboard[i]).(rank := Some(i + 1))
  {
    for index := 0 to leaderboard.Length
      invariant forall i :: 0 <= i < index ==> leaderboard[i] == old(leaderboard[i]).(rank := Some(i + 1))
      invariant forall i :: index <= i < leaderboard.Length ==> leaderboard[i] == old(leaderboard[i])
    {
      leaderboard[index] := leaderboard[index].(rank := Some(index + 1));
    }
  }

  /** The entries `top`, ranked 1, 2, ... in order. */
  function Ranked(top: seq<LeaderboardEntry>): (rows: seq<LeaderboardEntry>)
    ensures |rows| == |top|
    ensures forall i :: 0 <= i < |rows| ==> rows[i].rank == Some(i + 1) && rows[i].(rank := top[i].rank) == top[i]
  {
    seq(|top|, i requires 0 <= i < |top| => top[i].(rank := Some(i + 1)))
  }

  /** The body of a successful reply. */
  function Leaderboard(activities: seq<RawActivity>): (rows: seq<LeaderboardEntry>)
    ensures |rows| <= TopCount
    ensures forall i :: 0 <= i < |rows| ==> rows[i].rank == Some(i + 1)
  {
    Ranked(Slice(SortByVolume(Entries(Tally(activities))), 0, TopCount))
  }

  datatype LeaderboardJson = Rows(rows: seq<LeaderboardEntry>) | ErrorBody(error: string)

  datatype LeaderboardResponse = LeaderboardResponse(status: nat, body: LeaderboardJson)

  const LeaderboardFailed: LeaderboardResponse := LeaderboardResponse(500, ErrorBody("Failed to fetch leaderboard data"))

  /** The handler, given what the marketplace answers for the collection's
      listing. A failed request, a reply that is not ok, a body that does
      not parse and one that is not a list (its `forEach` throws) all end in
      500. `requested` is the URL fetched, whatever the outcome. */
  method Handle(upstream: Upstream<RawActivity>) returns (res: LeaderboardResponse, requested: string)
    ensures requested == ActivitiesUrl
    ensures upstream.Replied? && upstream.ok && upstream.body.Items? ==>
      res == LeaderboardResponse(200, Rows(Leaderboard(upstream.body.items)))
    ensures !(upstream.Replied? && upstream.ok && upstream.body.Items?) ==> res == LeaderboardFailed
  {
    requested := ActivitiesUrl;
    if upstream.Unreachable? || !upstream.ok || !upstream.body.Items? {
      return LeaderboardFailed, requested;
    }
    var walletVolumes := AggregateVolumes(upstream.body.items);
    var top := Slice(SortByVolume(Entries(walletVolumes)), 0, TopCount);
    var leaderboard := new LeaderboardEntry[|top|](i requires 0 <= i < |top| => top[i]);
    assert leaderboard[..] == top;
    AssignRanks(leaderboard);
    assert leaderboard[..] == Ranked(top);
    res := LeaderboardResponse(200, Rows(leaderboard[..]));
  }

  // ---------------------------------------------------------------------
  // What the board means
  // ---------------------------------------------------------------------

  /** An entry for `wallet` as the listing credits it. */
  predicate Faithful(activities: seq<RawActivity>, e: LeaderboardEntry)
  {
    Touched(activities, e.address)
    && e.volume == CreditOf(activities, e.address)
    && e.avatar == Avatar(e.address)
  }

  /** Before the sort, there is one entry per credited wallet, each with the
      wallet's credited volume and its avatar. */
  lemma EntriesMeaning(activities: seq<RawActivity>)
    ensures forall e :: e in Entries(Tally(activities)) ==> Faithful(activities, e)
    ensures forall w :: Touched(activities, w) ==>
      exists e :: e in Entries(Tally(activities)) && e.address == w
  {
    var o := Tally(activities);
    var entries := Entries(o);
    TallyWellFormed(activities);
    forall e | e in entries
      ensures Faithful(activities, e)
    {
      var i :| 0 <= i < |entries| && entries[i] == e;
      TallyTouched(activities, o.keys[i]);
      TallyCredit(activities, o.keys[i]);
    }
    forall w | Touched(activities, w)
      ensures exists e :: e in entries && e.address == w
    {
      TallyTouched(activities, w);
      var i :| 0 <= i < |o.keys| && o.keys[i] == w;
      assert entries[i] in entries;
    }
  }

  /** The entries that survive the cut: at most `TopCount`, sorted, each
      one faithful to the listing. */
  lemma TopEntries(activities: seq<RawActivity>)
    ensures var top := Slice(SortByVolume(Entries(Tally(activities))), 0, TopCount);
      && |top| <= TopCount && ByVolume(top)
      && forall i :: 0 <= i < |top| ==> Faithful(activities, top[i])
  {
    var sorted := SortByVolume(Entries(Tally(activities)));
    SortedFaithful(activities);
    var top := Slice(sorted, 0, TopCount);
    assert top == sorted[..Min(TopCount, |sorted|)];
    forall i | 0 <= i < |top|
      ensures Faithful(activities, top[i])
    {
      assert top[i] == sorted[i];
    }
  }

  /** The sort keeps the entries, so every sorted entry is faithful too. */
  lemma SortedFaithful(activities: seq<RawActivity>)
    ensures ByVolume(SortByVolume(Entries(Tally(activities))))
    ensures forall i :: 0 <= i < |SortByVolume(Entries(Tally(activities)))| ==>
      Faithful(activities, SortByVolume(Entries(Tally(activities)))[i])
  {
    var entries := Entries(Tally(activities));
    var sorted := SortByVolume(entries);
    EntriesMeaning(activities);
    SortByVolumeSorts(entries);
    forall i | 0 <= i < |sorted|
      ensures Faithful(activities, sorted[i])
    {
      assert sorted[i] in multiset(sorted);
      assert sorted[i] in entries;
    }
  }

  /** The rows are ranked 1, 2, ... in order, sorted by non-increasing
      volume, at most `TopCount` of them, and each is a wallet some
      realised trade credits, with its credited volume and avatar. */
  lemma LeaderboardRows(activities: seq<RawActivity>)
    ensures |Leaderboard(activities)| <= TopCount
    ensures forall i :: 0 <= i < |Leaderboard(activities)| ==> Leaderboard(activities)[i].rank == Some(i + 1)
    ensures ByVolume(Leaderboard(activities))
    ensures forall i :: 0 <= i < |Leaderboard(activities)| ==> Faithful(activities, Leaderboard(activities)[i])
  {
    TopEntries(activities);
    RankedRows(activities, Slice(SortByVolume(Entries(Tally(activities))), 0, TopCount));
  }

  /** Ranking changes nothing but the rank. */
  lemma RankedRows(activities: seq<RawActivity>, top: seq<LeaderboardEntry>)
    requires ByVolume(top) && forall i :: 0 <= i < |top| ==> Faithful(activities, top[i])
    ensures |Ranked(top)| == |top|
    ensures forall i :: 0 <= i < |top| ==> Ranked(top)[i].rank == Some(i + 1)
    ensures ByVolume(Ranked(top))
    ensures forall i :: 0 <= i < |top| ==> Faithful(activities, Ranked(top)[i])
  {
    var rows := Ranked(top);
    forall i | 0 <= i < |rows|
      ensures Faithful(activities, rows[i])
    {
      assert Faithful(activities, top[i]);
      assert rows[i] == top[i].(rank := Some(i + 1));
    }
  }

  /** No wallet appears twice on the board. */
  lemma LeaderboardDistinct(activities: seq<RawActivity>)
    ensures DistinctAddresses(Leaderboard(activities))
  {
    var o := Tally(activities);
    var entries := Entries(o);
    TallyWellFormed(activities);
    assert DistinctAddresses(entries);
    SortDistinct(entries);
    var sorted := SortByVolume(entries);
    var top := Slice(sorted, 0, TopCount);
    assert top == sorted[..Min(TopCount, |sorted|)];
    var rows := Leaderboard(activities);
    forall i, j | 0 <= i < j < |rows|
      ensures rows[i].address != rows[j].address
    {
      assert rows[i].address == sorted[i].address && rows[j].address == sorted[j].address;
    }
  }

  /** Nobody is left out who outranks a listed wallet: a credited wallet not
      on the board only exists when the board is full, and then its volume
      is at most that of every row. */
  lemma LeaderboardComplete(activities: seq<RawActivity>, wallet: string)
    requires Touched(activities, wallet)
    ensures (exists i :: 0 <= i < |Leaderboard(activities)| && Leaderboard(activities)[i].address == wallet)
      || (|Leaderboard(activities)| == TopCount
          && forall i :: 0 <= i < TopCount ==> Leaderboard(activities)[i].volume >= CreditOf(activities, wallet))
  {
    var sorted := SortByVolume(Entries(Tally(activities)));
    var k := SortedPosition(activities, wallet);
    var m := Min(TopCount, |sorted|);
    var rows := Leaderboard(activities);
    assert Slice(sorted, 0, TopCount) == sorted[..m];
    if k < m {
      assert rows[k].address == wallet;
    } else {
      forall i | 0 <= i < TopCount
        ensures rows[i].volume >= CreditOf(activities, wallet)
      {
        assert rows[i].volume == sorted[i].volume;
      }
    }
  }

  /** A credited wallet has a place in the sorted entries, and everyone
      before it has at least its volume. */
  lemma SortedPosition(activities: seq<RawActivity>, wallet: string) returns (k: nat)
    requires Touched(activities, wallet)
    ensures var sorted := SortByVolume(Entries(Tally(activities)));
      k < |sorted| && sorted[k].address == wallet
      && forall i :: 0 <= i < k ==> sorted[i].volume >= CreditOf(activities, wallet)
  {
    var e := EntryOf(activities, wallet);
    k := PositionAfterSort(Entries(Tally(activities)), e);
  }

  /** A credited wallet has an entry, with its credited volume. */
  lemma EntryOf(activities: seq<RawActivity>, wallet: string) returns (e: LeaderboardEntry)
    requires Touched(activities, wallet)
    ensures e in Entries(Tally(activities)) && e.address == wallet && e.volume == CreditOf(activities, wallet)
  {
    EntriesMeaning(activities);
    e :| e in Entries(Tally(activities)) && e.address == wallet;
  }

  /** An entry has a place in the sorted list, behind only entries of at
      least its volume. */
  lemma PositionAfterSort(s: seq<LeaderboardEntry>, e: LeaderboardEntry) returns (k: nat)
    requires e in s
    ensures k < |SortByVolume(s)| && SortByVolume(s)[k] == e
    ensures forall i :: 0 <= i < k ==> SortByVolume(s)[i].volume >= e.volume
  {
    SortByVolumeSorts(s);
    assert e in multiset(SortByVolume(s));
    k :| 0 <= k < |SortByVolume(s)| && SortByVolume(s)[k] == e;
  }
}
