/** The marketplace's activity records as they arrive at the trust boundary:
    every field may be missing, so each is optional. */
module Activity {
  import opened Wrappers

  /** One item of the marketplace's activity listing. `kind` is the JSON
      field `type` (`buyNow`, `acceptBid`, `list`, `delist`, `bid`, ...). */
  datatype RawActivity = RawActivity(
    kind: string,
    signature: Option<string>,
    buyer: Option<string>,
    seller: Option<string>,
    price: Option<real>,
    blockTime: Option<int>)

  /** What a JSON body turned out to be once parsed. */
  datatype Body<T> = Unparseable | NotAList | Items(items: seq<T>)

  /** A reply to a `fetch(...)` call: the call itself may throw, and a reply
      carries the `ok` flag, the status and the body. */
  datatype Upstream<T> = Unreachable | Replied(ok: bool, status: nat, body: Body<T>)

  const BuyNow: string := "buyNow"
  const AcceptBid: string := "acceptBid"

  /** JavaScript truthiness of an optional string: present and non-empty. */
  predicate Truthy(s: Option<string>)
  {
    s.Some? && s.value != ""
  }

  /** `activity.price || 0`. */
  function PriceOrZero(p: Option<real>): (r: real)
    ensures p.None? ==> r == 0.0
    ensures p.Some? ==> r == p.value
  {
    if p.Some? && p.value != 0.0 then p.value else 0.0
  }

  /** A completed purchase: a direct buy or an accepted bid. */
  predicate IsRealisedKind(kind: string)
  {
    kind == BuyNow || kind == AcceptBid
  }
}
