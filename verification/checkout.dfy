/**
  The subscription route: `GET` lists the tier catalog; `POST` turns (signed-in user, tier id)
  into a hosted checkout request at the payment provider and answers with its URL.
 */
module Checkout {
  import opened Wrappers
  import opened Schema
  import Decimal

  /** The signed-in user as the session exposes it; ids are strings there. */
  datatype SessionUser = SessionUser(id: string, email: Option<string>)

  datatype Interval = Month
  datatype Mode = Subscription

  datatype LineItem = LineItem(
    currency: string,
    productName: string,
    productDescription: Option<string>,
    unitAmount: int,
    interval: Interval,
    quantity: nat)

  /** The checkout-session parameters sent to the payment provider. */
  datatype CheckoutRequest = CheckoutRequest(
    paymentMethodTypes: seq<string>,
    lineItems: seq<LineItem>,
    mode: Mode,
    successUrl: string,
    cancelUrl: string,
    customerEmail: Option<string>,
    metadata: map<string, string>)

  /** What the provider call does: creates a session (whose URL may be null) or throws. */
  datatype ProviderResult = Created(url: Option<string>) | Threw

  datatype Reply = CheckoutUrl(url: Option<string>) | Unauthorized | TierNotFound | Failed {
    function StatusCode(): nat {
      match this
      case CheckoutUrl(_) => 200
      case Unauthorized => 401
      case TierNotFound => 404
      case Failed => 500
    }
  }

  /** The reply, together with the request the provider was asked for, if it was asked at all. */
  datatype Initiation = Initiation(sent: Option<CheckoutRequest>, reply: Reply)

  /** `x || undefined` for an optional string. */
  function NonEmpty(s: Option<string>): (r: Option<string>)
    ensures r.Some? <==> s.Some? && s.value != ""
    ensures r.Some? ==> r.value == s.value
  {
    if s.Some? && s.value != "" then s else None
  }

  /** The tier lookup by id: the tier with that id, or `None` when the catalog has none. */
  function FindTier(catalog: seq<Tier>, id: int): (r: Option<Tier>)
    ensures r.Some? ==> r.value in catalog && r.value.id == id
    ensures r.None? <==> forall i :: 0 <= i < |catalog| ==> catalog[i].id != id
  {
    if |catalog| == 0 then None
    else if catalog[0].id == id then Some(catalog[0])
    else FindTier(catalog[1..], id)
  }

  /** The line item's price in cents: exactly one hundred times the tier's monthly amount. */
  function UnitAmount(tier: Tier): (cents: int)
    ensures cents as real == 100.0 * tier.monthlyAmount.Value()
  {
    tier.monthlyAmount.hundredths
  }

  /**
    The checkout request for `tier`: one monthly line item at the tier's price, subscription
    mode, and metadata from which the webhook can read back the user and the tier.
   */
  function BuildRequest(user: SessionUser, tier: Tier, appUrl: string): (req: CheckoutRequest)
    ensures |req.lineItems| == 1
    ensures req.lineItems[0].quantity == 1 && req.lineItems[0].interval == Month
    ensures req.lineItems[0].currency == "usd" && req.lineItems[0].productName == tier.name
    ensures req.lineItems[0].unitAmount as real == 100.0 * tier.monthlyAmount.Value()
    ensures req.mode == Subscription
    ensures req.metadata.Keys == {"userId", "tierId"}
    ensures req.metadata["userId"] == user.id
    ensures req.metadata["tierId"] != "" && Decimal.ParseInt(req.metadata["tierId"]) == Some(tier.id)
  {
    Decimal.ParseIntOfIntToString(tier.id);
    CheckoutRequest(
      ["card"],
      [LineItem("usd", tier.name, NonEmpty(tier.description), UnitAmount(tier), Month, 1)],
      Subscription,
      appUrl + "/subscription/success?session_id={CHECKOUT_SESSION_ID}",
      appUrl + "/subscription/cancel",
      NonEmpty(user.email),
      map["userId" := user.id, "tierId" := Decimal.IntToString(tier.id)])
  }

  /**
    The route's `POST`. `user` is the session's user, `tierId` the body's tier id (`None` when
    the body cannot be read), `provider` what the checkout-session call does. A tier id the
    `integer` id column cannot take makes the lookup throw, which answers 500.
   */
  function Initiate(user: Option<SessionUser>, tierId: Option<int>, catalog: seq<Tier>, appUrl: string,
                    provider: ProviderResult): (r: Initiation)
    ensures user.None? ==> r == Initiation(None, Unauthorized)
    ensures user.Some? && tierId.None? ==> r == Initiation(None, Failed)
    ensures user.Some? && tierId.Some? && !IsInt4(tierId.value) ==> r == Initiation(None, Failed)
    ensures user.Some? && tierId.Some? && IsInt4(tierId.value) && FindTier(catalog, tierId.value).None? ==>
      r == Initiation(None, TierNotFound)
    ensures r.sent.Some? <==> user.Some? && tierId.Some? && IsInt4(tierId.value) && exists i :: 0 <= i < |catalog| && catalog[i].id == tierId.value
    ensures r.sent.Some? ==> r.sent.value == BuildRequest(user.value, FindTier(catalog, tierId.value).value, appUrl)
    ensures r.sent.Some? ==> r.sent.value.metadata["userId"] == user.value.id
    ensures r.sent.Some? ==> Decimal.ParseInt(r.sent.value.metadata["tierId"]) == tierId
    ensures r.sent.Some? ==> r.reply == (if provider.Created? then CheckoutUrl(provider.url) else Failed)
    ensures r.reply.CheckoutUrl? ==> r.sent.Some? && provider == Created(r.reply.url)
  {
    if user.None? then Initiation(None, Unauthorized)
    else if tierId.None? then Initiation(None, Failed)
    else if !IsInt4(tierId.value) then Initiation(None, Failed)
    else
      match FindTier(catalog, tierId.value)
      case None => Initiation(None, TierNotFound)
      case Some(tier) =>
        var req := BuildRequest(user.value, tier, appUrl);
        match provider
        case Created(url) => Initiation(Some(req), CheckoutUrl(url))
        case Threw => Initiation(Some(req), Failed)
  }

  datatype Listing = Tiers(tiers: seq<Tier>) | ListFailed {
    function StatusCode(): nat {
      if Tiers? then 200 else 500
    }
  }

  /** The route's `GET`: every stored tier, in stored order, or 500 when the read throws. */
  function ListTiers(read: Option<seq<Tier>>): (r: Listing)
    ensures r.StatusCode() == 200 <==> read.Some?
    ensures r.Tiers? ==> r.tiers == read.value
  {
    match read
    case Some(tiers) => Tiers(tiers)
    case None => ListFailed
  }
}
