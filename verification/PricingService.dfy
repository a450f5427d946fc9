/** services/PricingService.js and services/PricingStrategy.js: the hourly rate table per vehicle type. */
module Pricing {
  import opened Wrappers
  import opened Errors
  import opened VehicleEntity

  /** The price checks of `addPrice` and `setSpotNewPrice`: 0 is "missing", a negative price is refused. */
  function PriceCheck(price: real): (r: Outcome<Error>)
    ensures r == Pass <==> price > 0.0
    ensures price == 0.0 ==> r == Fail(PriceRequired)
    ensures price < 0.0 ==> r == Fail(PriceNotPositive)
  {
    if price == 0.0 then Fail(PriceRequired)
    else if price <= 0.0 then Fail(PriceNotPositive)
    else Pass
  }

  /** The checked rate table of services/PricingService.js. A type may be missing from the table given
      to the constructor, and a rate of 0 counts as unset. */
  class PricingService {
    var pricing: map<VehicleType, real>

    /** The constructor replaces the whole table with the one given. */
    constructor (spotPricing: map<VehicleType, real>)
      ensures pricing == spotPricing
    {
      pricing := spotPricing;
    }

    /** `calculateCharge`: rate times duration; an absent or zero rate fails as "pricing not found". */
    function CalculateCharge(vehicleType: VehicleType, duration: real): (r: Result<real, Error>)
      reads this
      ensures r.Failure? <==> vehicleType !in pricing || pricing[vehicleType] == 0.0
      ensures r.Failure? ==> r.error == PricingNotFound
      ensures r.Success? ==> r.value == pricing[vehicleType] * duration
      ensures r.Success? && duration == 0.0 ==> r.value == 0.0
      ensures r.Success? && pricing[vehicleType] > 0.0 && duration >= 0.0 ==> r.value >= 0.0
    {
      if vehicleType !in pricing || pricing[vehicleType] == 0.0 then Failure(PricingNotFound)
      else Success(pricing[vehicleType] * duration)
    }

    /** `checkPrice`: the charge for one hour, after rejecting an empty or unknown type name. */
    function CheckPrice(vehicleType: string): (r: Result<real, Error>)
      reads this
      ensures vehicleType == "" ==> r == Failure(SpotSizeRequired)
      ensures vehicleType != "" && VehicleTypeNamed(vehicleType).None? ==> r == Failure(VehicleTypeInvalid)
      ensures VehicleTypeNamed(vehicleType).Some? ==>
                r == CalculateCharge(VehicleTypeNamed(vehicleType).value, 1.0)
      ensures r.Success? ==> VehicleTypeNamed(vehicleType).Some? && r.value == pricing[VehicleTypeNamed(vehicleType).value]
    {
      if vehicleType == "" then Failure(SpotSizeRequired)
      else match VehicleTypeNamed(vehicleType)
        case None => Failure(VehicleTypeInvalid)
        case Some(t) => CalculateCharge(t, 1.0)
    }

    /** `setSpotPrice`: rejects an unknown type name; otherwise replaces only that type's rate. A
        positive rate set this way is what `CheckPrice` then reports. */
    method SetSpotPrice(vehicleType: string, newPrice: real) returns (r: Outcome<Error>)
      modifies this
      ensures r.Fail? <==> VehicleTypeNamed(vehicleType).None?
      ensures r.Fail? ==> r.error == VehicleTypeInvalid && pricing == old(pricing)
      ensures r.Pass? ==> pricing == old(pricing)[VehicleTypeNamed(vehicleType).value := newPrice]
      ensures r.Pass? && newPrice != 0.0 ==> CheckPrice(vehicleType) == Success(newPrice)
    {
      match VehicleTypeNamed(vehicleType)
      case None =>
        return Fail(VehicleTypeInvalid);
      case Some(t) =>
        pricing := pricing[t := newPrice];
        return Pass;
    }
  }

  /** The unchecked rate table of services/PricingStrategy.js. The constructor is always given a rate
      for every type (the field's initial table of zeros is overwritten before any use). */
  class PricingStrategy {
    var pricing: map<VehicleType, real>

    /** Every type has a rate. */
    ghost predicate Valid()
      reads this
    {
      forall t: VehicleType :: t in pricing
    }

    /** The constructor replaces the whole table with the one given. */
    constructor (spotPricing: map<VehicleType, real>)
      requires forall t: VehicleType :: t in spotPricing
      ensures Valid() && pricing == spotPricing
    {
      pricing := spotPricing;
    }

    /** `calculateCharge`: rate times duration, with no check that the rate is set; a stay of no
        duration costs nothing and an hour costs the rate. */
    function CalculateCharge(vehicleType: VehicleType, duration: real): (r: real)
      requires Valid()
      reads this
      ensures duration == 0.0 ==> r == 0.0
      ensures duration == 1.0 ==> r == pricing[vehicleType]
    {
      pricing[vehicleType] * duration
    }

    /** `setSpotPrice`: overwrites exactly that type's rate, with no validation. */
    method SetSpotPrice(vehicleType: VehicleType, newPrice: real)
      requires Valid()
      modifies this
      ensures Valid() && pricing == old(pricing)[vehicleType := newPrice]
      ensures CalculateCharge(vehicleType, 1.0) == newPrice
    {
      pricing := pricing[vehicleType := newPrice];
    }
  }
}
