/** `GET /api/volume?address=...`: the purchase volume of one wallet, summed
    over a single page of at most 500 of its marketplace activities. */
module VolumeApi {
  import opened Wrappers
  import opened Activity

  /** The listing the handler asks for, for the wallet `address`. */
  function ActivitiesUrl(address: string): string
  {
    "https://api-mainnet.magiceden.dev/v2/wallets/" + address + "/activities?limit=500"
  }

  /** What one activity adds to the total. The handler's outer test lets
      `buyNow`, `bid` and `list` through and its inner test `buyNow` and
      `acceptBid`; only a `buyNow` passes both. */
  function Contribution(a: RawActivity): (c: real)
    ensures a.kind != BuyNow ==> c == 0.0
    ensures a.kind == BuyNow ==> c == PriceOrZero(a.price)
    ensures a.price.None? ==> c == 0.0
  {
    if a.kind == BuyNow then PriceOrZero(a.price) else 0.0
  }

  /** No activity of the listing carries a negative price. */
  predicate PricesNonNegative(activities: seq<RawActivity>)
  {
    forall i :: 0 <= i < |activities| ==> PriceOrZero(activities[i].price) >= 0.0
  }

  /** The total of `price || 0` over the `buyNow` activities. */
  function BuyNowVolume(activities: seq<RawActivity>): (v: real)
    ensures PricesNonNegative(activities) ==> v >= 0.0
  {
    if activities == [] then 0.0
    else BuyNowVolume(activities[..|activities| - 1]) + Contribution(activities[|activities| - 1])
  }

  /** The summing loop of the handler. */
  method TotalVolume(activities: seq<RawActivity>) returns (totalVolume: real)
    ensures totalVolume == BuyNowVolume(activities)
  {
    totalVolume := 0.0;
    for i := 0 to |activities|
      invariant totalVolume == BuyNowVolume(activities[..i])
    {
      var activity := activities[i];
      if activity.kind == BuyNow || activity.kind == "bid" || activity.kind == "list" {
        if activity.kind == BuyNow || activity.kind == AcceptBid {
          totalVolume := totalVolume + PriceOrZero(activity.price);
        }
      }
      assert activities[..i + 1][..i] == activities[..i];
    }
    assert activities[..|activities|] == activities;
  }

  /** The volume of two runs of activities is the sum of their volumes. */
  lemma {:induction false} BuyNowVolumeAppend(a: seq<RawActivity>, b: seq<RawActivity>)
    ensures BuyNowVolume(a + b) == BuyNowVolume(a) + BuyNowVolume(b)
    decreases |b|
  {
    if b == [] {
      assert a + b == a;
    } else {
      var n := |b| - 1;
      assert (a + b)[..|a + b| - 1] == a + b[..n];
      BuyNowVolumeAppend(a, b[..n]);
    }
  }

  /** A wallet without a single `buyNow` has no volume, however many bids it
      accepted, listed or placed. */
  lemma {:induction false} NoPurchaseNoVolume(activities: seq<RawActivity>)
    requires forall i :: 0 <= i < |activities| ==> activities[i].kind != BuyNow
    ensures BuyNowVolume(activities) == 0.0
  {
    if activities != [] {
      NoPurchaseNoVolume(activities[..|activities| - 1]);
    }
  }

  /** Taking one activity out of the listing lowers the volume by exactly
      its contribution. */
  lemma RemoveOne(activities: seq<RawActivity>, i: nat)
    requires i < |activities|
    ensures BuyNowVolume(activities) ==
      BuyNowVolume(activities[..i] + activities[i + 1..]) + Contribution(activities[i])
  {
    var front, x, back := activities[..i], activities[i], activities[i + 1..];
    SplitAround(activities, i);
    BuyNowVolumeAppend(front + [x], back);
    BuyNowVolumeAppend(front, [x]);
    BuyNowVolumeAppend(front, back);
    BuyNowVolumeOne(x);
  }

  /** A single activity's volume is its contribution. */
  lemma BuyNowVolumeOne(x: RawActivity)
    ensures BuyNowVolume([x]) == Contribution(x)
  {
    assert [x][..0] == [];
  }

  /** The volume does not depend on the order of the listing. */
  lemma {:induction false} VolumeOrderIndependent(a: seq<RawActivity>, b: seq<RawActivity>)
    requires multiset(a) == multiset(b)
    ensures BuyNowVolume(a) == BuyNowVolume(b)
    decreases |a|
  {
    if a == [] {
      assert |b| == |multiset(b)| == 0;
    } else {
      var n := |a| - 1;
      var x := a[n];
      var j := IndexOf(b, x);
      var rest := b[..j] + b[j + 1..];
      assert multiset(a[..n]) == multiset(rest) by {
        MultisetRemove(b, j);
        MultisetRemove(a, n);
        assert a[..n] + a[n + 1..] == a[..n];
      }
      VolumeOrderIndependent(a[..n], rest);
      RemoveOne(b, j);
      assert BuyNowVolume(a) == BuyNowVolume(a[..n]) + Contribution(x);
    }
  }

  /** A position at which an element of the multiset of `s` occurs. */
  lemma IndexOf<T>(s: seq<T>, x: T) returns (j: nat)
    requires x in multiset(s)
    ensures j < |s| && s[j] == x
  {
    j :| 0 <= j < |s| && s[j] == x;
  }

  lemma MultisetRemove<T>(s: seq<T>, j: nat)
    requires j < |s|
    ensures multiset(s[..j] + s[j + 1..]) == multiset(s) - multiset{s[j]}
  {
    assert s == s[..j] + [s[j]] + s[j + 1..];
  }

  datatype VolumeJson = VolumeBody(volume: real) | ErrorBody(error: string)

  datatype VolumeResponse = VolumeResponse(status: nat, body: VolumeJson)

  const AddressRequired: VolumeResponse := VolumeResponse(400, ErrorBody("Address is required"))
  const VolumeFailed: VolumeResponse := VolumeResponse(500, ErrorBody("Failed to fetch volume data"))

  /** The handler. `address` is the `address` query parameter and `upstream`
      what the marketplace answers for that wallet; `requested` is the URL
      fetched, if any. A reply that is not ok, a body that does not parse and
      a body that is not a list (its `forEach` throws) all end in 500. */
  method Handle(address: Option<string>, upstream: Upstream<RawActivity>)
    returns (res: VolumeResponse, requested: Option<string>)
    ensures !Truthy(address) ==> res == AddressRequired && requested == None
    ensures Truthy(address) ==> requested == Some(ActivitiesUrl(address.value))
    ensures Truthy(address) && upstream.Replied? && upstream.ok && upstream.body.Items? ==>
      res == VolumeResponse(200, VolumeBody(BuyNowVolume(upstream.body.items)))
    ensures Truthy(address) && !(upstream.Replied? && upstream.ok && upstream.body.Items?) ==>
      res == VolumeFailed
  {
    if !Truthy(address) {
      return AddressRequired, None;
    }
    requested := Some(ActivitiesUrl(address.value));
    if upstream.Unreachable? || !upstream.ok || !upstream.body.Items? {
      return VolumeFailed, requested;
    }
    var totalVolume := TotalVolume(upstream.body.items);
    res := VolumeResponse(200, VolumeBody(totalVolume));
  }
}
