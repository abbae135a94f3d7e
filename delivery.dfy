/**
 * Delivery quotes: `estimate_distance_and_fee` checks that both ends have
 * coordinates, then derives an ETA in whole minutes and a fee in whole
 * currency units from the great-circle distance, rounding with Decimal's
 * default ROUND_HALF_EVEN. Decimal values are modelled exactly as `real`.
 */
module Delivery {
  import opened Wrappers
  import Farms
  import Addresses

  // ---------------------------------------------------------------------------
  // Decimal.quantize(Decimal("1")) under ROUND_HALF_EVEN
  // ---------------------------------------------------------------------------

  /** Rounds to the nearest integer; an exact tie goes to the even neighbour. */
  function RoundHalfEven(x: real): (n: int)
    ensures n as real - x <= 0.5 && x - n as real <= 0.5
    ensures (n as real - x == 0.5 || x - n as real == 0.5) ==> n % 2 == 0
  {
    var f := x.Floor;
    var frac := x - f as real;
    if frac < 0.5 then f
    else if frac > 0.5 then f + 1
    else if f % 2 == 0 then f
    else f + 1
  }

  /** Half-even rounding is the only integer rule with the two properties above. */
  lemma RoundHalfEvenUnique(x: real, n: int)
    requires n as real - x <= 0.5 && x - n as real <= 0.5
    requires (n as real - x == 0.5 || x - n as real == 0.5) ==> n % 2 == 0
    ensures n == RoundHalfEven(x)
  {
  }

  /** Rounding never reverses the order of two values. */
  lemma RoundHalfEvenMonotone(x: real, y: real)
    requires x <= y
    ensures RoundHalfEven(x) <= RoundHalfEven(y)
  {
  }

  /** A whole number is its own rounding. */
  lemma RoundHalfEvenOfInt(k: int)
    ensures RoundHalfEven(k as real) == k
  {
    RoundHalfEvenUnique(k as real, k);
  }

  // ---------------------------------------------------------------------------
  // ETA and fee
  // ---------------------------------------------------------------------------

  /** Average speed the ETA assumes, in km/h. */
  const AvgSpeedKmh: real := 25.0
  /** Fee charged whatever the distance, when the caller gives none. */
  const DefaultBaseFee: real := 50.0
  /** Fee per kilometre, when the caller gives none. */
  const DefaultPerKmFee: real := 10.0

  /** Minutes at the average speed, rounded half-even and raised to at least one minute. */
  function EtaMinutes(distanceKm: real): (eta: int)
    requires distanceKm >= 0.0
    ensures eta >= 1
    ensures distanceKm == 0.0 ==> eta == 1
    ensures distanceKm * 60.0 / AvgSpeedKmh <= 0.5 ==> eta == 1
    ensures var minutes := distanceKm * 60.0 / AvgSpeedKmh;
            minutes > 0.5 ==>
              && eta as real - minutes <= 0.5 && minutes - eta as real <= 0.5
              && ((eta as real - minutes == 0.5 || minutes - eta as real == 0.5) ==> eta % 2 == 0)
  {
    var etaHours := if distanceKm > 0.0 then distanceKm / AvgSpeedKmh else 0.0;
    var minutes := RoundHalfEven(etaHours * 60.0);
    if minutes < 1 then 1 else minutes
  }

  /** A longer trip never gets a shorter ETA. */
  lemma EtaMonotone(d1: real, d2: real)
    requires 0.0 <= d1 <= d2
    ensures EtaMinutes(d1) <= EtaMinutes(d2)
  {
    var h1 := if d1 > 0.0 then d1 / AvgSpeedKmh else 0.0;
    var h2 := if d2 > 0.0 then d2 / AvgSpeedKmh else 0.0;
    RoundHalfEvenMonotone(h1 * 60.0, h2 * 60.0);
  }

  /** `base + distance_km * per_km`, rounded half-even to a whole amount. */
  function QuotedFee(base: real, perKm: real, distanceKm: real): (fee: int)
    ensures fee as real - (base + distanceKm * perKm) <= 0.5
    ensures (base + distanceKm * perKm) - fee as real <= 0.5
    ensures (fee as real - (base + distanceKm * perKm) == 0.5 || (base + distanceKm * perKm) - fee as real == 0.5) ==>
              fee % 2 == 0
  {
    RoundHalfEven(base + distanceKm * perKm)
  }

  /** With a non-negative rate per kilometre, a longer trip never costs less. */
  lemma FeeMonotone(base: real, perKm: real, d1: real, d2: real)
    requires perKm >= 0.0 && d1 <= d2
    ensures QuotedFee(base, perKm, d1) <= QuotedFee(base, perKm, d2)
  {
    assert d2 * perKm - d1 * perKm == (d2 - d1) * perKm >= 0.0;
    RoundHalfEvenMonotone(base + d1 * perKm, base + d2 * perKm);
  }

  /** Whole amounts and whole kilometres give the exact sum, with no rounding. */
  lemma FeeOfWholeAmounts(base: int, perKm: int, distanceKm: int)
    ensures QuotedFee(base as real, perKm as real, distanceKm as real) == base + distanceKm * perKm
  {
    assert base as real + distanceKm as real * perKm as real == (base + distanceKm * perKm) as real;
    RoundHalfEvenOfInt(base + distanceKm * perKm);
  }

  // ---------------------------------------------------------------------------
  // estimate_distance_and_fee
  // ---------------------------------------------------------------------------

  /** `value if value is not None else default` */
  function Given(value: Option<real>, default: real): (r: real)
    ensures value.Some? ==> r == value.value
    ensures value.None? ==> r == default
  {
    if value.Some? then value.value else default
  }

  /** Distance in km (two decimals), ETA in minutes, fee in whole units. */
  datatype Quote = Quote(distanceKm: real, etaMinutes: int, quotedFee: int)

  /** The two `ValueError`s the estimate raises. */
  datatype EstimateError = FarmMissingCoordinates | AddressMissingCoordinates

  /**
   * The quote for carrying from `farm` to `address`. `haversineHundredths`
   * stands for `round(_haversine_km(...), 2)` and gives the distance in
   * hundredths of a kilometre; it is consulted only once both ends have
   * coordinates.
   */
  function EstimateDistanceAndFee(
    farm: Farms.Farm,
    address: Addresses.Address,
    haversineHundredths: (real, real, real, real) -> nat,
    baseFee: Option<real>,
    perKmFee: Option<real>): (r: Result<Quote, EstimateError>)
    ensures (r == Failure(FarmMissingCoordinates)) <==> (farm.latitude.None? || farm.longitude.None?)
    ensures (r == Failure(AddressMissingCoordinates)) <==>
              (farm.latitude.Some? && farm.longitude.Some? && (address.latitude.None? || address.longitude.None?))
    ensures r.Success? ==>
              && farm.latitude.Some? && farm.longitude.Some? && address.latitude.Some? && address.longitude.Some?
              && r.value.distanceKm == haversineHundredths(farm.latitude.value, farm.longitude.value,
                                                           address.latitude.value, address.longitude.value) as real / 100.0
    ensures r.Success? ==> r.value.distanceKm >= 0.0 && r.value.etaMinutes >= 1
    ensures r.Success? ==> r.value.etaMinutes == EtaMinutes(r.value.distanceKm)
    ensures r.Success? && r.value.distanceKm == 0.0 ==> r.value.etaMinutes == 1
    ensures r.Success? ==>
              r.value.quotedFee == QuotedFee(Given(baseFee, DefaultBaseFee), Given(perKmFee, DefaultPerKmFee), r.value.distanceKm)
  {
    if farm.latitude.None? || farm.longitude.None? then
      Failure(FarmMissingCoordinates)
    else if address.latitude.None? || address.longitude.None? then
      Failure(AddressMissingCoordinates)
    else
      var hundredths := haversineHundredths(
        farm.latitude.value, farm.longitude.value, address.latitude.value, address.longitude.value);
      var distanceKm := hundredths as real / 100.0;
      var base := Given(baseFee, DefaultBaseFee);
      var perKm := Given(perKmFee, DefaultPerKmFee);
      Success(Quote(distanceKm, EtaMinutes(distanceKm), QuotedFee(base, perKm, distanceKm)))
  }

  /**
   * Under the default tariff, a farther destination (same farm) gets an ETA
   * and a fee that are no smaller.
   */
  lemma FartherCostsNoLess(
    farm: Farms.Farm,
    near: Addresses.Address,
    far: Addresses.Address,
    haversineHundredths: (real, real, real, real) -> nat)
    requires EstimateDistanceAndFee(farm, near, haversineHundredths, None, None).Success?
    requires EstimateDistanceAndFee(farm, far, haversineHundredths, None, None).Success?
    requires EstimateDistanceAndFee(farm, near, haversineHundredths, None, None).value.distanceKm
          <= EstimateDistanceAndFee(farm, far, haversineHundredths, None, None).value.distanceKm
    ensures var q1 := EstimateDistanceAndFee(farm, near, haversineHundredths, None, None).value;
            var q2 := EstimateDistanceAndFee(farm, far, haversineHundredths, None, None).value;
            q1.etaMinutes <= q2.etaMinutes && q1.quotedFee <= q2.quotedFee
  {
    var q1 := EstimateDistanceAndFee(farm, near, haversineHundredths, None, None).value;
    var q2 := EstimateDistanceAndFee(farm, far, haversineHundredths, None, None).value;
    EtaMonotone(q1.distanceKm, q2.distanceKm);
    FeeMonotone(DefaultBaseFee, DefaultPerKmFee, q1.distanceKm, q2.distanceKm);
  }

  /** Same place: one minute, and the base fee alone (50 by default). */
  lemma ZeroDistanceQuote(
    farm: Farms.Farm,
    address: Addresses.Address,
    haversineHundredths: (real, real, real, real) -> nat,
    baseFee: Option<real>,
    perKmFee: Option<real>)
    requires farm.latitude.Some? && farm.longitude.Some?
    requires address.latitude.Some? && address.longitude.Some?
    requires haversineHundredths(farm.latitude.value, farm.longitude.value,
                                 address.latitude.value, address.longitude.value) == 0
    ensures var r := EstimateDistanceAndFee(farm, address, haversineHundredths, baseFee, perKmFee);
            r.Success? && r.value.distanceKm == 0.0 && r.value.etaMinutes == 1
            && (baseFee.None? ==> r.value.quotedFee == 50)
  {
    assert DefaultBaseFee + 0.0 * Given(perKmFee, DefaultPerKmFee) == 50 as real;
    RoundHalfEvenOfInt(50);
  }
}
