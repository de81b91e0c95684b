// Exact decimal money. An amount is an integer number of ten-thousandths of a
// kobo, so an amount with too many decimal places can be represented and refused.
module Money {
  type Amount = int

  const UNIT: Amount := 10_000 // one kobo

  /** No more than two decimal places of naira. */
  predicate WholeKobo(a: Amount) {
    a % UNIT == 0
  }

  /** What the ledger lets through: positive and at most two decimal places. */
  predicate Payable(a: Amount) {
    a > 0 && WholeKobo(a)
  }

  /** Banker's rounding to whole kobo, the decimal context's default for quantize. */
  function ToKobo(a: Amount): int {
    var q, r := a / UNIT, a % UNIT;
    if 2 * r < UNIT || (2 * r == UNIT && q % 2 == 0) then q else q + 1
  }

  function FromKobo(kobo: int): Amount {
    kobo * UNIT
  }

  /** Converting to kobo and back returns the amount exactly when the amount
      had no more than two decimal places; otherwise it is off by at most half a
      kobo, and a half goes to the even side. */
  lemma KoboRoundTrip(a: Amount)
    ensures FromKobo(ToKobo(a)) == a <==> WholeKobo(a)
    ensures -UNIT <= 2 * (FromKobo(ToKobo(a)) - a) <= UNIT
    ensures forall kobo: int :: ToKobo(FromKobo(kobo)) == kobo
    ensures 2 * (a % UNIT) == UNIT ==> ToKobo(a) % 2 == 0
  {
    assert a == (a / UNIT) * UNIT + a % UNIT;
    forall kobo: int
      ensures ToKobo(FromKobo(kobo)) == kobo
    {
      assert (kobo * UNIT) / UNIT == kobo && (kobo * UNIT) % UNIT == 0;
    }
  }

  /** The database's rounding to two decimals: to the nearest, halves away from zero. */
  function RoundHalfAway(a: Amount): Amount {
    FromKobo(if a >= 0 then (2 * a + UNIT) / (2 * UNIT) else -((UNIT - 2 * a) / (2 * UNIT)))
  }

  /** It returns the amount exactly when there is nothing to round, is off by at
      most half a kobo, leaves zero on the side of a half, and becomes negative
      only from half a kobo below zero. */
  lemma RoundedHalfAway(a: Amount)
    ensures WholeKobo(RoundHalfAway(a))
    ensures RoundHalfAway(a) == a <==> WholeKobo(a)
    ensures -UNIT <= 2 * (RoundHalfAway(a) - a) <= UNIT
    ensures 2 * (RoundHalfAway(a) - a) == UNIT ==> a > 0
    ensures 2 * (RoundHalfAway(a) - a) == -UNIT ==> a < 0
    ensures RoundHalfAway(a) < 0 <==> 2 * a <= -UNIT
  {
  }
}
