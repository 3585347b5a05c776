/**
  The two routes together: the metadata the checkout route attaches is what the webhook reads
  back, so a completed checkout records an order for the user and tier that started it.
 */
module EndToEnd {
  import opened Wrappers
  import opened Schema
  import Decimal
  import Checkout
  import Webhook

  /**
    When the session's user id is the decimal text of a user id, and the provider later echoes
    the checkout's metadata in a verified completion event, exactly one active order for that
    user and the requested tier is appended.
   */
  lemma CheckoutMetadataRoundTrips(user: Checkout.SessionUser, userId: int, tierId: int, catalog: seq<Tier>,
                                   appUrl: string, url: Option<string>, req: Webhook.Request, store: Store)
    requires user.id == Decimal.IntToString(userId) && IsInt4(userId) && IsInt4(tierId)
    requires exists i :: 0 <= i < |catalog| && catalog[i].id == tierId
    requires Webhook.Authenticated(req)
    ensures var init := Checkout.Initiate(Some(user), Some(tierId), catalog, appUrl, Checkout.Created(url));
      && init.sent.Some?
      && init.reply == Checkout.CheckoutUrl(url)
      && var delivery := req.(verdict := Some(Webhook.RawEvent(Webhook.CheckoutCompletedType, Some(init.sent.value.metadata))));
         Webhook.Handle(delivery, store) == Webhook.Outcome(Webhook.Received, Webhook.AppendActive(store, userId, tierId))
  {
    var init := Checkout.Initiate(Some(user), Some(tierId), catalog, appUrl, Checkout.Created(url));
    var meta := init.sent.value.metadata;
    Decimal.ParseIntOfIntToString(userId);
    assert Webhook.NamesInt4(meta, "userId", userId);
    assert Webhook.NamesInt4(meta, "tierId", tierId);
  }
}
