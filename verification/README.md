# Coffee subscription: order reconciliation, checkout initiation and the preferences quiz

A Dafny model of the decision logic of a coffee-subscription site. Everything else in the
site is page markup, static catalog data, table declarations and I/O. The model has three
parts:

- **Webhook reconciler** (`Webhook`, `webhook.dfy`). The payment provider's webhook turns a
  signed delivery into a change to the `orders` table. A delivery without a signature header
  or without a configured secret is refused with 400. So is a delivery the provider's
  verifier rejects. After verification, the event type is dispatched:
  - a completed checkout whose metadata carries `userId` and `tierId` inserts one active order;
  - a deleted subscription whose metadata carries `userId` cancels that user's active orders;
  - any other type is acknowledged and ignored.

  No refusal touches the store. The store is a sequence of orders plus the next value of the
  `serial` id sequence.
- **Checkout initiation** (`Checkout`, `checkout.dfy`). `POST` checks that a user is signed
  in (401 otherwise), looks up the tier (404 if it does not exist) and builds the hosted
  checkout request. That request has one monthly line item priced in cents, quantity 1,
  subscription mode, and metadata `{userId, tierId}`. The reply carries the provider session's
  URL, or 500 when the provider call throws. `GET` lists the tiers, or answers 500.
- **Preferences quiz** (`Quiz`, `quiz.dfy`). The quiz is a step counter over four questions
  plus a map of answers per step. The model covers the `handleAnswer`, `handleNext` and
  `handleBack` transitions and the values the view derives: progress, the enabling of the
  Back and Next buttons, and the Next/Complete label.

Supporting modules:

- `Decimal` (`decimal.dfy`): integer `toString()` and `parseInt`. The checkout route writes
  the tier id as text with `toString()`; the webhook reads it back with `parseInt`.
- `Schema` (`schema.dfy`): the `orders` and `subscription_tiers` row shapes. The tier's
  `decimal(10, 2)` monthly amount is held exactly, as a whole number of hundredths.
- `EndToEnd` (`end_to_end.dfy`): the two routes composed.
- `Wrappers` (`wrappers.dfy`): `Option`.

Modelling assumptions:

- Signature verification is an opaque verdict, `Request.verdict`. `None` means the
  provider's verifier threw, either because the signature did not match or because the body
  did not parse. `Some(raw)` is the event it returned.
- A database statement whose integer parameter is `NaN`, or lies outside the range of a
  PostgreSQL `integer`, is taken to throw. The handler's `catch` then answers 400 and nothing
  is written (`Webhook.CheckoutCompletedUnbindableIdFails`,
  `Webhook.SubscriptionDeletedUnbindableIdFails`).
- The cancellation chains two `.where(...)` calls. The handler is modelled with their
  evident intent, `user_id = u AND status = 'active'`. The other reading is recorded under
  Findings.
- The database, the session lookup, the payment provider and the environment's URLs are
  inputs. The store and catalog are passed in as values. The provider's reply is a
  `ProviderResult`, and the application URL is a string parameter.

Response codes and redelivery, as the code has them:

- Both webhook refusals answer 400 (app/api/webhooks/stripe/route.ts:13-17 and 59-64).
- A failing provider call during checkout answers 500 (app/api/subscription/route.ts:76-81).
- A redelivered completed checkout is inserted again.

## Model

| member | source | states |
|---|---|---|
| Webhook.Handle | app/api/webhooks/stripe/route.ts:8-66 | missing signature or secret gives the missing-credentials 400; a rejected verification gives the handler-failed 400; every non-200 outcome leaves the store unchanged; the store grows by at most one order and its id invariant is preserved |
| Webhook.Dispatch | app/api/webhooks/stripe/route.ts:27-58 | after verification the answer is never the credentials error; a failed statement leaves the store unchanged; ids stay unique and below the sequence value |
| Webhook.Classify | app/api/webhooks/stripe/route.ts:27-56 | each of the two recognised type strings selects its own event kind, carrying the metadata or an empty map when there is none; an event is "other" exactly when its type is neither |
| Webhook.AppendActive | app/api/webhooks/stripe/route.ts:33-38 | the insert adds exactly one active order with the given user and tier, keeps every existing order, and keeps ids unique |
| Webhook.CancelActive | app/api/webhooks/stripe/route.ts:48-52 | the update keeps the length, ids, users and tiers of every order; an order changes exactly when it is an active order of the user; afterwards that user has no active order |
| Webhook.CheckoutCompletedAppendsOne | app/api/webhooks/stripe/route.ts:28-41 | a verified completed checkout with both ids gives 200 and the store plus one active order carrying the parsed user and tier ids |
| Webhook.CheckoutCompletedWithoutIdsIgnored | app/api/webhooks/stripe/route.ts:30-32 | a completed checkout missing metadata, or missing either id, is acknowledged with 200 and leaves the store unchanged |
| Webhook.CheckoutCompletedUnbindableIdFails | app/api/webhooks/stripe/route.ts:32-38 | a completed checkout with both ids present, one of which `parseInt` turns into `NaN` or a value outside the `integer` range, makes the insert throw: 400 from the catch, store unchanged |
| Webhook.BindInt4OfIntToString | app/api/webhooks/stripe/route.ts:34-35 | every `integer` value, written as decimal text, binds back to itself as a statement parameter |
| Webhook.RedeliveredCheckoutInsertsTwice | app/api/webhooks/stripe/route.ts:33-38 | nothing deduplicates: the same completed checkout delivered twice appends two active orders for the same user and tier, with ids distinct from each other and from every existing order |
| Webhook.SubscriptionDeletedCancelsUsersActive | app/api/webhooks/stripe/route.ts:43-54 | a verified deletion for a user gives 200; exactly that user's active orders become cancelled; every other order, the store length and the id sequence are untouched |
| Webhook.SubscriptionDeletedUnbindableIdFails | app/api/webhooks/stripe/route.ts:47-53 | a deletion whose user id `parseInt` turns into `NaN` or a value outside the `integer` range makes the update throw: 400 from the catch, store unchanged |
| Webhook.CancelActiveIdempotent | app/api/webhooks/stripe/route.ts:48-52 | applying the cancellation update twice gives the same orders as applying it once |
| Webhook.SubscriptionDeletedIdempotent | app/api/webhooks/stripe/route.ts:47-58 | redelivering a deletion event gives the same response and the same store as the first delivery |
| Webhook.SubscriptionDeletedWithoutMatchIsNoOp | app/api/webhooks/stripe/route.ts:47-58 | a deletion for a user with no active order is acknowledged with 200 and changes nothing |
| Webhook.OtherEventIgnored | app/api/webhooks/stripe/route.ts:27-58 | any verified event of another type is acknowledged with 200 and changes nothing |
| Webhook.CancelEveryActive | app/api/webhooks/stripe/route.ts:48-52 | the update as chained, if only the last `where` applies: every order, whoever owns it, ends up cancelled, with its id, user and tier kept |
| Webhook.CancelEveryActiveReachesOtherUsers | app/api/webhooks/stripe/route.ts:51-52 | counterexample: user 7's deletion event cancels user 8's active order under that reading, while the intended update leaves it |
| Decimal.NatToString | app/api/subscription/route.ts:71 | the text of a natural number is non-empty, all decimal digits, and starts with `0` only for zero |
| Decimal.IntToString | app/api/subscription/route.ts:71 | the text of an integer of magnitude below 2^53 is non-empty and starts with `-` exactly for negative numbers |
| Decimal.ParseInt | app/api/webhooks/stripe/route.ts:34-35 | `parseInt` yields a number exactly when a digit follows the optional sign; the number is negative only after a `-` sign |
| Decimal.ParseIntOfIntToStringThen | app/api/webhooks/stripe/route.ts:34-35 | `parseInt` reads back the integer that `toString` wrote, even when non-digit text follows it |
| Decimal.ParseIntOfIntToString | app/api/subscription/route.ts:69-72 | reading back the decimal text of an integer gives that integer, so the tier id written into the metadata is the one the webhook parses |
| Checkout.FindTier | app/api/subscription/route.ts:35-38 | the lookup returns a catalog tier with the requested id, and returns none exactly when no tier has that id |
| Checkout.UnitAmount | app/api/subscription/route.ts:57 | the line item's cents are exactly 100 times the tier's monthly amount |
| Checkout.BuildRequest | app/api/subscription/route.ts:47-73 | one line item, in usd, named after the tier, quantity 1, monthly, priced at 100 times the monthly amount, subscription mode; metadata has exactly `userId` (the session user's id) and `tierId`, which is non-empty text that `parseInt` reads back as the tier's id |
| Checkout.Initiate | app/api/subscription/route.ts:21-83 | no user gives 401 and no provider request; a signed-in user whose body cannot be read, or whose tier id lies outside the `integer` range, gets 500 and no provider request; an unknown tier id within that range gives 404 and no provider request; a provider request is made exactly when the user is signed in and the tier exists; the reply is the session's URL, or 500 when the provider throws; a URL is returned only from a created session |
| Checkout.ListTiers | app/api/subscription/route.ts:8-19 | 200 exactly when the read succeeds, and then the stored tiers unchanged and in order; otherwise 500 |
| EndToEnd.CheckoutMetadataRoundTrips | app/api/subscription/route.ts:69-72 | when the provider echoes the checkout's metadata in a verified completion event, the webhook appends exactly one active order for the signed-in user and the requested tier |
| Quiz.Answer | components/ui/coffee-preferences-quiz.tsx:107-109 | the current step's answer becomes the chosen value; the step and every other step's answer are unchanged; answers stay within the questions |
| Quiz.Next | components/ui/coffee-preferences-quiz.tsx:111-118 | answers are untouched; before the last step the step advances by one; on the last step nothing changes; the step stays in range |
| Quiz.Back | components/ui/coffee-preferences-quiz.tsx:120-124 | answers are untouched; after the first step the step goes back by one; on step 0 nothing changes; the step stays in range |
| Quiz.Progress | components/ui/coffee-preferences-quiz.tsx:105 | progress times the number of steps is (step + 1) times 100; it lies in (0, 100] and is 100 exactly on the last step |
| Quiz.BackDisabled | components/ui/coffee-preferences-quiz.tsx:170 | Back is disabled exactly on the first step, which is exactly where pressing Back would change nothing |
| Quiz.NextDisabled | components/ui/coffee-preferences-quiz.tsx:176 | Next is disabled exactly when the current step has no non-empty answer; pressing an enabled Next therefore keeps every passed step answered |
| Quiz.NextLabel | components/ui/coffee-preferences-quiz.tsx:178 | the label is "Complete" exactly where progress reaches 100 and exactly where Next no longer advances; "Next" on every other step |
| Quiz.RunStaysValid | components/ui/coffee-preferences-quiz.tsx:103-124 | under any sequence of answer, next and back calls, the step stays within the questions, and answers are recorded only for questions |
| Quiz.ClickKeepsAnsweredSoFar | components/ui/coffee-preferences-quiz.tsx:166-179 | one page input (picking an option, or pressing an enabled button) keeps every passed step answered |
| Quiz.ClicksAnswerEveryPassedStep | components/ui/coffee-preferences-quiz.tsx:166-179 | under any sequence of page inputs, every step before the current one keeps a non-empty answer |
| Quiz.FreshQuizNeverSkipsAQuestion | components/ui/coffee-preferences-quiz.tsx:102-179 | starting from a fresh quiz, the page never shows a step past a question that has no answer |
| Quiz.NextThenBack | components/ui/coffee-preferences-quiz.tsx:111-124 | Next followed by Back, from any step before the last, restores the state |
| Quiz.BackThenNext | components/ui/coffee-preferences-quiz.tsx:111-124 | Back followed by Next, from any step after the first, restores the state |
| Quiz.PickingAnOptionEnablesNext | components/ui/coffee-preferences-quiz.tsx:141-176 | choosing any option offered at the current step enables Next |

## Left out

- Signature cryptography: the provider library's verifier is a foreign call. It is the opaque `Request.verdict`, and its `None` also covers an unparsable body.
- Database, session and provider I/O: these are not executed. The store, the catalog, the session user and the provider's result are inputs.
- Decimal.IntToString: writes every integer in full decimal. JavaScript writes magnitudes from 10^21 up in exponent form and loses integers above 2^53; ids are `integer` values, far below both.
- Decimal.ParseInt: does not model `parseInt`'s skipping of leading whitespace or its `0x` hexadecimal prefix. The metadata the checkout route writes never has either.
- Foreign keys of `orders`: the model has no `users` table. An insert that the `user_id` or `subscription_tier_id` foreign key would refuse is modelled as succeeding.
- Timestamps: `order_date`, `created_at` and `updated_at` take the wall clock and carry no behaviour.
- The float conversion `Math.round(Number(amount) * 100)` is replaced by exact integer hundredths. For a `decimal(10, 2)` value the rounding recovers the same integer.
- Checkout.Initiate: a failing session lookup, or a tier query that fails for a reason other than an out-of-range id (both would answer 500), is not modelled. A body that cannot be read is the `None` tier id, which answers 500. A body without a `tierId` key is not distinguished from an unreadable one. The tier id is taken to be a JSON integer; a tier id of another JSON type (a numeric string, a fraction, a boolean, `null`) is not modelled.
- Checkout.ListTiers: the failing read is an input; there is no database.
- Quiz: the completion branch of `handleNext` only logs the answers. It is modelled as leaving the state unchanged. The question texts, labels and descriptions are static content.
- Concurrency, redelivery ordering and atomicity: the source has no coordination of its own. Each handler is one transition over the store.
- Deduplication of redelivered completed checkouts: the source does not deduplicate. The model proves that it does not (`Webhook.RedeliveredCheckoutInsertsTwice`) rather than adding it.

## Findings

| source | as written | input that shows it | evidently intended | confidence | as-written member | corrected member |
|---|---|---|---|---|---|---|
| app/api/webhooks/stripe/route.ts:48-52 | the update chains `.where(userId = u)` and then `.where(status = 'active')`; if the query builder keeps only the last `where`, it cancels every active order in the table; the dropped `user_id` condition also drops its `parseInt` parameter, so under that reading even a deletion whose `userId` is not a number (`"abc"`) answers 200 and cancels every active order, and `Webhook.SubscriptionDeletedUnbindableIdFails` holds only under the intended reading | user 7's subscription deletion with an active order `(1, user 8, tier 2)` in the store: that order is cancelled as well | cancel only the rows where `user_id = u AND status = 'active'` | not executed; medium, since it rests on the query builder replacing an earlier `where` | Webhook.CancelEveryActiveReachesOtherUsers | Webhook.CancelActive |
