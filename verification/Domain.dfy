/** Values shared by every component: identifiers, decimals, money, products and snapshots.

Identifiers are naturals. The program stores a UUID as its canonical fixed-width
lower-case hexadecimal text, so comparing texts and comparing the numbers agree.
Timestamps are UTC instants and calendar dates are day numbers. */
module Domain {
  datatype Option<+T> = None | Some(value: T)

  datatype Result<+T, +E> = Ok(value: T) | Err(error: E) {
    function Or(default: T): T {
      if Ok? then value else default
    }
  }

  /** How a writing call on the database ends. The connection is closed after the commit, so a call can
  raise although what it wrote stays. */
  datatype Ending = Returns | RaisesBeforeCommit | RaisesAfterCommit {
    predicate Commits() {
      !RaisesBeforeCommit?
    }
  }

  type ProductId = nat
  type ProviderId = nat
  type Timestamp = int
  type Date = int
  type Url = string

  datatype Currency = CZK | EUR | USD | PLN

  datatype RuleType = PriceDrop | BackInStock

  /** A finite non-negative decimal. 10.0 and 10.00 are different values of this type. */
  datatype Decimal = Decimal(coefficient: nat, exponent: int)

  /** n followed by k zeros. */
  function Times10(n: nat, k: nat): nat {
    if k == 0 then n else 10 * Times10(n, k - 1)
  }

  /** v moved k decimal places down. */
  function Tenth(v: real, k: nat): (r: real)
    ensures v >= 0.0 ==> r >= 0.0
    decreases k
  {
    if k == 0 then v else Tenth(v / 10.0, k - 1)
  }

  /** The number a decimal denotes: coefficient times ten to the exponent. */
  function Value(d: Decimal): (v: real)
    ensures v >= 0.0
  {
    if d.exponent >= 0 then Times10(d.coefficient, d.exponent) as real
    else Tenth(d.coefficient as real, -d.exponent)
  }

  datatype Money = Money(amount: Decimal, currency: Currency)

  /** `foldedName` is the case-folded name, the form in which names are compared. */
  datatype Product = Product(
    id: ProductId,
    providerId: ProviderId,
    foldedName: string,
    currentPrice: Money,
    originalPrice: Option<Money>,
    discount: real,
    url: Url,
    available: bool)

  /** The constructor's invariants: one currency, and a percentage between 0 and 100. */
  predicate ValidProduct(p: Product) {
    && (p.originalPrice.Some? ==> p.originalPrice.value.currency == p.currentPrice.currency)
    && 0.0 <= p.discount <= 100.0
  }

  datatype Snapshot = Snapshot(product: Product, timestamp: Timestamp)
}
