/**
  The payment-provider webhook: authenticate the delivery, classify the event and apply it
  to the order store. A rejected delivery never touches the store.
 */
module Webhook {
  import opened Wrappers
  import opened Schema
  import Decimal

  /** Correlation metadata as the provider echoes it: string keys to string values. */
  type Metadata = map<string, string>

  /** What the signature verifier hands back once it accepts the raw body. */
  datatype RawEvent = RawEvent(eventType: string, metadata: Option<Metadata>)

  const CheckoutCompletedType: string := "checkout.session.completed"
  const SubscriptionDeletedType: string := "customer.subscription.deleted"

  /** The event as a tagged union; an absent metadata object reads as an empty one. */
  datatype Event =
    | CheckoutCompleted(meta: Metadata)
    | SubscriptionDeleted(meta: Metadata)
    | Other(eventType: string)

  /**
    One delivery. `verdict` is the outcome of the provider library's verification over the
    raw body: `None` when it throws (signature mismatch or unparsable body).
   */
  datatype Request = Request(signature: Option<string>, secret: Option<string>, verdict: Option<RawEvent>)

  datatype Response = Received | MissingSignatureOrSecret | HandlerFailed {
    function StatusCode(): nat {
      if Received? then 200 else 400
    }
  }

  datatype Outcome = Outcome(response: Response, store: Store)

  /** JavaScript truthiness of an optional string: present and non-empty. */
  predicate Truthy(s: Option<string>) {
    s.Some? && s.value != ""
  }

  /** A metadata value read with destructuring, kept only when truthy. */
  function Field(meta: Metadata, key: string): (r: Option<string>)
    ensures r.Some? <==> key in meta && meta[key] != ""
    ensures r.Some? ==> r.value == meta[key]
  {
    if key in meta && meta[key] != "" then Some(meta[key]) else None
  }

  function Classify(raw: RawEvent): (e: Event)
    ensures e.Other? <==> raw.eventType != CheckoutCompletedType && raw.eventType != SubscriptionDeletedType
    ensures e.CheckoutCompleted? <==> raw.eventType == CheckoutCompletedType
    ensures !e.Other? ==> e.meta == raw.metadata.GetOr(map[])
  {
    var meta := raw.metadata.GetOr(map[]);
    if raw.eventType == CheckoutCompletedType then CheckoutCompleted(meta)
    else if raw.eventType == SubscriptionDeletedType then SubscriptionDeleted(meta)
    else Other(raw.eventType)
  }

  /**
    `parseInt(text)` bound as a parameter for an `integer` column. `None` when the statement
    fails: `NaN`, or a value outside the column's range.
   */
  function BindInt4(text: string): (r: Option<int>)
    ensures r.Some? <==> Decimal.ParseInt(text).Some? && IsInt4(Decimal.ParseInt(text).value)
    ensures r.Some? ==> r.value == Decimal.ParseInt(text).value
  {
    match Decimal.ParseInt(text)
    case Some(n) => if IsInt4(n) then Some(n) else None
    case None => None
  }

  /** Insert one order with status active; the serial sequence issues its id. */
  function AppendActive(store: Store, userId: int, tierId: int): (r: Store)
    ensures |r.orders| == |store.orders| + 1
    ensures r.orders[..|store.orders|] == store.orders
    ensures r.orders[|store.orders|] == Order(store.nextId, userId, tierId, Active)
    ensures WellFormed(store) ==> WellFormed(r)
  {
    Store(store.orders + [Order(store.nextId, userId, tierId, Active)], store.nextId + 1)
  }

  /** The rows the cancellation update is meant to select: this user's active orders. */
  predicate Cancels(o: Order, userId: int) {
    o.userId == userId && o.status == Active
  }

  function CancelOrder(o: Order, userId: int): Order {
    if Cancels(o, userId) then o.(status := Cancelled) else o
  }

  /**
    `UPDATE orders SET status = 'cancelled' WHERE user_id = userId AND status = 'active'`:
    exactly the selected rows change, only in their status, and afterwards none is selected.
   */
  function CancelActive(orders: seq<Order>, userId: int): (r: seq<Order>)
    ensures |r| == |orders|
    ensures forall i :: 0 <= i < |r| ==>
      r[i].id == orders[i].id && r[i].userId == orders[i].userId && r[i].tierId == orders[i].tierId
    ensures forall i :: 0 <= i < |r| ==> (r[i] != orders[i] <==> Cancels(orders[i], userId))
    ensures forall i :: 0 <= i < |r| ==> !Cancels(r[i], userId)
  {
    if |orders| == 0 then []
    else [CancelOrder(orders[0], userId)] + CancelActive(orders[1..], userId)
  }

  /** The switch over the event type, after authentication. */
  function Dispatch(e: Event, store: Store): (r: Outcome)
    ensures r.response != MissingSignatureOrSecret
    ensures r.response == HandlerFailed ==> r.store == store
    ensures WellFormed(store) ==> WellFormed(r.store)
  {
    match e
    case CheckoutCompleted(meta) =>
      var userId := Field(meta, "userId");
      var tierId := Field(meta, "tierId");
      if userId.None? || tierId.None? then Outcome(Received, store)
      else
        (match (BindInt4(userId.value), BindInt4(tierId.value))
         case (Some(u), Some(t)) => Outcome(Received, AppendActive(store, u, t))
         case _ => Outcome(HandlerFailed, store))
    case SubscriptionDeleted(meta) =>
      var userId := Field(meta, "userId");
      if userId.None? then Outcome(Received, store)
      else
        (match BindInt4(userId.value)
         case Some(u) => Outcome(Received, store.(orders := CancelActive(store.orders, u)))
         case None => Outcome(HandlerFailed, store))
    case Other(_) => Outcome(Received, store)
  }

  /**
    The webhook's `POST`. Missing credentials are refused first; a delivery the verifier
    rejects fails next; only then is the event applied. No refusal mutates the store.
   */
  function Handle(req: Request, store: Store): (r: Outcome)
    ensures r.response != Received ==> r.store == store
    ensures !Authenticated(req) ==> r.response == MissingSignatureOrSecret
    ensures Authenticated(req) && req.verdict.None? ==> r.response == HandlerFailed
    ensures |store.orders| <= |r.store.orders| <= |store.orders| + 1
    ensures WellFormed(store) ==> WellFormed(r.store)
  {
    if !Authenticated(req) then Outcome(MissingSignatureOrSecret, store)
    else
      match req.verdict
      case None => Outcome(HandlerFailed, store)
      case Some(raw) => Dispatch(Classify(raw), store)
  }

  /** Both credentials of a delivery are present and non-empty. */
  predicate Authenticated(req: Request) {
    Truthy(req.signature) && Truthy(req.secret)
  }

  /** A verified delivery carrying `raw`. */
  predicate Delivers(req: Request, raw: RawEvent) {
    Authenticated(req) && req.verdict == Some(raw)
  }

  /** A metadata value that names an integer the `integer` column accepts. */
  predicate NamesInt4(meta: Metadata, key: string, n: int) {
    key in meta && Decimal.ParseInt(meta[key]) == Some(n) && IsInt4(n)
  }

  /** A completed checkout with both ids appends exactly one active order and keeps the rest. */
  lemma CheckoutCompletedAppendsOne(req: Request, meta: Metadata, store: Store, userId: int, tierId: int)
    requires Delivers(req, RawEvent(CheckoutCompletedType, Some(meta)))
    requires NamesInt4(meta, "userId", userId) && NamesInt4(meta, "tierId", tierId)
    ensures Handle(req, store).response == Received
    ensures Handle(req, store).store.orders == store.orders + [Order(store.nextId, userId, tierId, Active)]
  {
  }

  /** A completed checkout without both ids (or without metadata) is acknowledged and ignored. */
  lemma CheckoutCompletedWithoutIdsIgnored(req: Request, metadata: Option<Metadata>, store: Store)
    requires Delivers(req, RawEvent(CheckoutCompletedType, metadata))
    requires metadata.None? || Field(metadata.value, "userId").None? || Field(metadata.value, "tierId").None?
    ensures Handle(req, store) == Outcome(Received, store)
  {
  }

  /**
    A completed checkout whose ids are both present but one of which the `integer` column
    cannot take (`NaN`, or out of range) makes the insert throw: 400, store unchanged.
   */
  lemma CheckoutCompletedUnbindableIdFails(req: Request, meta: Metadata, store: Store)
    requires Delivers(req, RawEvent(CheckoutCompletedType, Some(meta)))
    requires Field(meta, "userId").Some? && Field(meta, "tierId").Some?
    requires BindInt4(meta["userId"]).None? || BindInt4(meta["tierId"]).None?
    ensures Handle(req, store) == Outcome(HandlerFailed, store)
  {
  }

  /** `parseInt` reads back every `integer` the routes render, so binding it succeeds. */
  lemma BindInt4OfIntToString(n: int)
    requires IsInt4(n)
    ensures BindInt4(Decimal.IntToString(n)) == Some(n)
  {
    Decimal.ParseIntOfIntToString(n);
  }

  /** Nothing deduplicates: the same completed checkout delivered twice yields two active orders. */
  lemma RedeliveredCheckoutInsertsTwice(req: Request, meta: Metadata, store: Store, userId: int, tierId: int)
    requires Delivers(req, RawEvent(CheckoutCompletedType, Some(meta)))
    requires NamesInt4(meta, "userId", userId) && NamesInt4(meta, "tierId", tierId)
    requires WellFormed(store)
    ensures var twice := Handle(req, Handle(req, store).store).store;
      && |twice.orders| == |store.orders| + 2
      && twice.orders[..|store.orders|] == store.orders
      && twice.orders[|store.orders|].userId == twice.orders[|store.orders| + 1].userId == userId
      && twice.orders[|store.orders|].tierId == twice.orders[|store.orders| + 1].tierId == tierId
      && twice.orders[|store.orders|].status == twice.orders[|store.orders| + 1].status == Active
      && twice.orders[|store.orders|].id != twice.orders[|store.orders| + 1].id
      && forall k :: 0 <= k < |store.orders| ==>
           store.orders[k].id != twice.orders[|store.orders|].id &&
           store.orders[k].id != twice.orders[|store.orders| + 1].id
  {
    var once := Handle(req, store).store;
    CheckoutCompletedAppendsOne(req, meta, store, userId, tierId);
    CheckoutCompletedAppendsOne(req, meta, once, userId, tierId);
  }

  /**
    A subscription deletion for a user cancels all and only that user's active orders; the
    store keeps its length and every other row.
   */
  lemma SubscriptionDeletedCancelsUsersActive(req: Request, meta: Metadata, store: Store, userId: int)
    requires Delivers(req, RawEvent(SubscriptionDeletedType, Some(meta)))
    requires NamesInt4(meta, "userId", userId)
    ensures var r := Handle(req, store);
      && r.response == Received
      && r.store.nextId == store.nextId
      && |r.store.orders| == |store.orders|
      && (forall i :: 0 <= i < |store.orders| && Cancels(store.orders[i], userId) ==>
            r.store.orders[i] == store.orders[i].(status := Cancelled))
      && (forall i :: 0 <= i < |store.orders| && !Cancels(store.orders[i], userId) ==>
            r.store.orders[i] == store.orders[i])
  {
    var r := Handle(req, store);
    forall i | 0 <= i < |store.orders| && Cancels(store.orders[i], userId)
      ensures r.store.orders[i] == store.orders[i].(status := Cancelled)
    {
      assert r.store.orders[i].status != Active;
    }
  }

  /**
    A subscription deletion whose user id the `integer` column cannot take makes the update
    throw: 400, store unchanged.
   */
  lemma SubscriptionDeletedUnbindableIdFails(req: Request, meta: Metadata, store: Store)
    requires Delivers(req, RawEvent(SubscriptionDeletedType, Some(meta)))
    requires Field(meta, "userId").Some? && BindInt4(meta["userId"]).None?
    ensures Handle(req, store) == Outcome(HandlerFailed, store)
  {
  }

  /** Cancelling twice is cancelling once. */
  lemma CancelActiveIdempotent(orders: seq<Order>, userId: int)
    ensures CancelActive(CancelActive(orders, userId), userId) == CancelActive(orders, userId)
  {
  }

  /** Redelivering a subscription deletion leaves the outcome of the first delivery. */
  lemma SubscriptionDeletedIdempotent(req: Request, meta: Metadata, store: Store)
    requires Delivers(req, RawEvent(SubscriptionDeletedType, Some(meta)))
    ensures Handle(req, Handle(req, store).store) == Handle(req, store)
  {
    var u := Field(meta, "userId");
    if u.Some? && BindInt4(u.value).Some? {
      CancelActiveIdempotent(store.orders, BindInt4(u.value).value);
    }
  }

  /** A subscription deletion for a user with no active order is a successful no-op. */
  lemma SubscriptionDeletedWithoutMatchIsNoOp(req: Request, meta: Metadata, store: Store, userId: int)
    requires Delivers(req, RawEvent(SubscriptionDeletedType, Some(meta)))
    requires NamesInt4(meta, "userId", userId)
    requires forall i :: 0 <= i < |store.orders| ==> !Cancels(store.orders[i], userId)
    ensures Handle(req, store) == Outcome(Received, store)
  {
    var r := CancelActive(store.orders, userId);
    assert r == store.orders;
  }

  /** Any other event type is acknowledged without touching the store. */
  lemma OtherEventIgnored(req: Request, raw: RawEvent, store: Store)
    requires Delivers(req, raw)
    requires raw.eventType != CheckoutCompletedType && raw.eventType != SubscriptionDeletedType
    ensures Handle(req, store) == Outcome(Received, store)
  {
  }

  /**
    The cancellation as the source chains it: when the query builder keeps only the last of
    two `where` calls, the update selects every active order, whoever owns it.
   */
  function CancelEveryActive(orders: seq<Order>): (r: seq<Order>)
    ensures |r| == |orders|
    ensures forall i :: 0 <= i < |r| ==> r[i] == orders[i].(status := Cancelled)
  {
    if |orders| == 0 then []
    else [orders[0].(status := Cancelled)] + CancelEveryActive(orders[1..])
  }

  /** Under that reading, user 7's cancellation also cancels user 8's active order. */
  lemma CancelEveryActiveReachesOtherUsers()
    ensures var orders := [Order(1, 8, 2, Active)];
      && CancelEveryActive(orders)[0].status == Cancelled
      && CancelActive(orders, 7) == orders
  {
  }
}
