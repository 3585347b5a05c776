/**
  Row shapes of the two tables the core touches: `orders` and `subscription_tiers`.
  Timestamps, delivery date and tracking number carry no behaviour and are not modelled.
 */
module Schema {
  import opened Wrappers

  /** The values the reconciler writes into `orders.status`. */
  datatype Status = Active | Cancelled

  datatype Order = Order(id: int, userId: int, tierId: int, status: Status)

  /** The `orders` table together with the next value of its `serial` id sequence. */
  datatype Store = Store(orders: seq<Order>, nextId: int)

  /** Order ids are positive, distinct and all issued before the sequence's next value. */
  predicate WellFormed(store: Store) {
    && 1 <= store.nextId
    && (forall i :: 0 <= i < |store.orders| ==> 1 <= store.orders[i].id < store.nextId)
    && (forall i, j :: 0 <= i < j < |store.orders| ==> store.orders[i].id != store.orders[j].id)
  }

  /** Range of a PostgreSQL `integer` column. */
  const Int4Min: int := -0x8000_0000
  const Int4Max: int := 0x7fff_ffff

  predicate IsInt4(n: int) {
    Int4Min <= n <= Int4Max
  }

  /** A `decimal(10, 2)` value, held exactly as a whole number of hundredths. */
  datatype Numeric = Numeric(hundredths: int) {
    function Value(): real {
      hundredths as real / 100.0
    }
  }

  datatype Tier = Tier(
    id: int,
    name: string,
    description: Option<string>,
    monthlyAmount: Numeric,
    coffeeGrams: int,
    features: seq<string>,
    stripeProductId: Option<string>)
}
