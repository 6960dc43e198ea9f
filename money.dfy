/** Fixed-point money (`commonv1.Money`) and the ledger's arithmetic on it:
    `addMoney`, `substractMoney`, `isZero` and `normalizeMoney`. */
module MoneyMath {
  import opened Grpc

  /** `units + nanos / 10^9` of `currency`. Go stores units as int64 and nanos as
      int32; here both are unbounded integers. */
  datatype Money = Money(currency: string, units: int, nanos: int)

  const NanosPerUnit: int := 1_000_000_000

  /** The amount in nanos. */
  function Value(m: Money): int
  {
    m.units * NanosPerUnit + m.nanos
  }

  /** The canonical form normalization produces: nanos in [0, 10^9). */
  predicate IsNormalized(m: Money)
  {
    0 <= m.nanos < NanosPerUnit
  }

  /** Go's `a / 1_000_000_000`: the quotient truncated toward zero (Dafny's `/` is
      Euclidean, which differs for a negative `a`). */
  function TruncDiv(a: int): (q: int)
    ensures 0 <= a ==> 0 <= q * NanosPerUnit <= a && a - q * NanosPerUnit < NanosPerUnit
    ensures a < 0 ==> a <= q * NanosPerUnit <= 0 && q * NanosPerUnit - a < NanosPerUnit
  {
    if a >= 0 then a / NanosPerUnit else -((-a) / NanosPerUnit)
  }

  /** Go's `a % 1_000_000_000`: the remainder takes the sign of the dividend. */
  function TruncMod(a: int): (r: int)
    ensures a == TruncDiv(a) * NanosPerUnit + r
    ensures 0 <= a ==> 0 <= r < NanosPerUnit
    ensures a < 0 ==> -NanosPerUnit < r <= 0
  {
    if a >= 0 then a % NanosPerUnit else -((-a) % NanosPerUnit)
  }

  /** `normalizeMoney`: carry whole units out of `nanos` with Go's truncating `/` and
      `%`, then borrow one unit when `nanos` is still negative. The Go function writes
      both steps into its argument before copying it; every caller passes a value it
      has just built, so that write is not observable and the model computes a value. */
  function NormalizeMoney(m: Money): (r: Money)
    ensures IsNormalized(r)
    ensures Value(r) == Value(m)
    ensures r.currency == m.currency
  {
    var (units1, nanos1) :=
      if m.nanos >= NanosPerUnit || m.nanos <= -NanosPerUnit
      then (m.units + TruncDiv(m.nanos), TruncMod(m.nanos))
      else (m.units, m.nanos);
    var (units2, nanos2) :=
      if nanos1 < 0 then (units1 - 1, nanos1 + NanosPerUnit) else (units1, nanos1);
    Money(m.currency, units2, nanos2)
  }

  /** Reference definition of the canonical form, by floor division of the value. */
  function Canonical(m: Money): Money
  {
    Money(m.currency, Value(m) / NanosPerUnit, Value(m) % NanosPerUnit)
  }

  /** A canonical amount is determined by its currency and value. */
  lemma NormalizedUnique(x: Money, y: Money)
    requires IsNormalized(x) && IsNormalized(y)
    requires x.currency == y.currency && Value(x) == Value(y)
    ensures x == y
  {
  }

  /** The two truncating steps land on the floor-division canonical form. */
  lemma NormalizeIsCanonical(m: Money)
    ensures NormalizeMoney(m) == Canonical(m)
  {
    var c := Canonical(m);
    assert IsNormalized(c) && Value(c) == Value(m);
    NormalizedUnique(NormalizeMoney(m), c);
  }

  /** Normalizing leaves a canonical amount as it is; hence normalizing is idempotent. */
  lemma NormalizeKeepsNormalized(m: Money)
    requires IsNormalized(m)
    ensures NormalizeMoney(m) == m
  {
    NormalizedUnique(NormalizeMoney(m), m);
  }

  lemma NormalizeIdempotent(m: Money)
    ensures NormalizeMoney(NormalizeMoney(m)) == NormalizeMoney(m)
  {
    NormalizeKeepsNormalized(NormalizeMoney(m));
  }

  /** `isZero`: when `a` is absent, `b` (absent too if both are); when only `b` is
      absent, `a`; when both are present, `None`. */
  function IsZero(a: Option<Money>, b: Option<Money>): (r: Option<Money>)
    ensures r.None? <==> (a.Some? && b.Some?) || (a.None? && b.None?)
    ensures r.Some? ==> (a.None? && r == b) || (b.None? && r == a)
  {
    if a.None? then b
    else if b.None? then a
    else None
  }

  /** `addMoney`. Both operands absent is a nil dereference in Go, hence the requires. */
  function AddMoney(a: Option<Money>, b: Option<Money>): (r: Result<Money>)
    requires a.Some? || b.Some?
    ensures a.None? ==> r == Ok(b.value)
    ensures a.Some? && b.None? ==> r == Ok(a.value)
    ensures a.Some? && b.Some? && a.value.currency != b.value.currency ==>
              r == Err(Status(InvalidArgument, "currency mismatch"))
    ensures a.Some? && b.Some? && a.value.currency == b.value.currency ==>
              && r.Ok?
              && r.value.currency == a.value.currency
              && IsNormalized(r.value)
              && Value(r.value) == Value(a.value) + Value(b.value)
  {
    var m := IsZero(a, b);
    if m.Some? then Ok(m.value)
    else if a.value.currency != b.value.currency then
      Err(Status(InvalidArgument, "currency mismatch"))
    else
      Ok(NormalizeMoney(Money(a.value.currency,
                              a.value.units + b.value.units,
                              a.value.nanos + b.value.nanos)))
  }

  /** The order `substractMoney` compares by: units first, then nanos. */
  predicate LexLess(a: Money, b: Money)
  {
    a.units < b.units || (a.units == b.units && a.nanos < b.nanos)
  }

  /** `substractMoney`. Its error code for a currency mismatch is FailedPrecondition,
      unlike AddMoney's InvalidArgument. */
  function SubtractMoney(a: Money, b: Money): (r: Result<Money>)
    ensures a.currency != b.currency ==>
              r == Err(Status(FailedPrecondition, "currency mismatch"))
    ensures a.currency == b.currency && LexLess(a, b) ==>
              r == Err(Status(FailedPrecondition, "insufficient balance"))
    ensures a.currency == b.currency && !LexLess(a, b) ==>
              && r.Ok?
              && r.value.currency == a.currency
              && IsNormalized(r.value)
              && Value(r.value) == Value(a) - Value(b)
  {
    if a.currency != b.currency then
      Err(Status(FailedPrecondition, "currency mismatch"))
    else if LexLess(a, b) then
      Err(Status(FailedPrecondition, "insufficient balance"))
    else
      Ok(NormalizeMoney(Money(a.currency, a.units - b.units, a.nanos - b.nanos)))
  }

  /** On canonical amounts the lexicographic order is the order of values. */
  lemma LexLessIsValueLess(a: Money, b: Money)
    requires IsNormalized(a) && IsNormalized(b)
    ensures LexLess(a, b) <==> Value(a) < Value(b)
  {
  }

  /** A withdrawal between canonical amounts of one currency succeeds exactly when it
      does not overdraw, and then leaves a non-negative amount. */
  lemma SubtractSucceedsIff(a: Money, b: Money)
    requires IsNormalized(a) && IsNormalized(b) && a.currency == b.currency
    ensures SubtractMoney(a, b).Ok? <==> Value(a) >= Value(b)
    ensures SubtractMoney(a, b).Ok? ==> Value(SubtractMoney(a, b).value) >= 0
  {
    LexLessIsValueLess(a, b);
  }

  /** Subtracting what was just added gives back the normalized first operand, when
      the addend is canonical and the first operand is not negative. */
  lemma AddThenSubtract(a: Money, b: Money)
    requires a.currency == b.currency && IsNormalized(b) && Value(a) >= 0
    ensures AddMoney(Some(a), Some(b)).Ok?
    ensures SubtractMoney(AddMoney(Some(a), Some(b)).value, b) == Ok(NormalizeMoney(a))
  {
    var s := AddMoney(Some(a), Some(b)).value;
    LexLessIsValueLess(s, b);
    NormalizedUnique(SubtractMoney(s, b).value, NormalizeMoney(a));
  }

  /** Adding back what a successful subtraction took gives the normalized minuend. */
  lemma SubtractThenAdd(a: Money, b: Money)
    requires SubtractMoney(a, b).Ok?
    ensures AddMoney(Some(SubtractMoney(a, b).value), Some(b)) == Ok(NormalizeMoney(a))
  {
    var d := SubtractMoney(a, b).value;
    NormalizedUnique(AddMoney(Some(d), Some(b)).value, NormalizeMoney(a));
  }

  /** Without the side conditions the round trip fails: a negative first operand makes
      the subtraction report insufficient balance. */
  lemma AddThenSubtractNegative()
    ensures SubtractMoney(AddMoney(Some(Money("USD", -5, 0)), Some(Money("USD", 3, 0))).value,
                          Money("USD", 3, 0))
            == Err(Status(FailedPrecondition, "insufficient balance"))
  {
  }

  /** Nothing forbids a negative subtrahend: subtracting it increases the amount. */
  lemma SubtractNegativeIncreases(a: Money, b: Money)
    requires IsNormalized(a) && IsNormalized(b) && a.currency == b.currency
    requires Value(a) >= 0 && Value(b) < 0
    ensures SubtractMoney(a, b).Ok? && Value(SubtractMoney(a, b).value) > Value(a)
  {
    LexLessIsValueLess(a, b);
  }

  /** Adding two present amounts of one currency does not depend on their order. */
  lemma AddMoneyCommutes(a: Money, b: Money)
    requires a.currency == b.currency
    ensures AddMoney(Some(a), Some(b)) == AddMoney(Some(b), Some(a))
  {
    NormalizedUnique(AddMoney(Some(a), Some(b)).value, AddMoney(Some(b), Some(a)).value);
  }

  /** Two deposits of one currency applied one after the other give the same balance
      in either order. */
  lemma AddMoneyReorder(x: Money, a: Money, b: Money)
    requires x.currency == a.currency == b.currency
    ensures AddMoney(Some(AddMoney(Some(x), Some(a)).value), Some(b))
         == AddMoney(Some(AddMoney(Some(x), Some(b)).value), Some(a))
  {
    var xa := AddMoney(Some(x), Some(a)).value;
    var xb := AddMoney(Some(x), Some(b)).value;
    NormalizedUnique(AddMoney(Some(xa), Some(b)).value, AddMoney(Some(xb), Some(a)).value);
  }
}
