/**
 * The price request: reading and validating the two costs, the markup
 * formula and the conversion into the local currency. Amounts are exact
 * `real`s.
 */
module Pricing {
  import opened Wrappers
  import opened RateText

  /** Added to every local-currency price after conversion. */
  const HandlingFee: real := 5000.0

  /** `calculate_selling_cost`: `(2x + (0.35x + x)) / 2`, a 67.5% markup. */
  function CalculateSellingCost(acquisitionCost: real): (y: real)
    ensures y == 1.675 * acquisitionCost
  {
    var x := acquisitionCost;
    (2.0 * x + (0.35 * x + x)) / 2.0
  }

  /** One field of the request's JSON body: missing, a number (or boolean), a string, or anything else (null, list, object). */
  datatype Field = Absent | Number(n: real) | Str(s: string) | OtherJson

  /** The JSON body: an object with the two fields, or some other JSON value. */
  datatype Request = Body(costPrice: Field, shippingCost: Field) | NotAnObject

  /**
   * Why a request fails: a missing key (`KeyError`), a string that is no
   * number (`ValueError`), a negative cost, an exchange-rate failure, or
   * any other exception (`TypeError`, ...).
   */
  datatype Fault = MissingFields | InvalidNumberFormat | NegativeCosts | RateUnavailable | Unexpected

  datatype Costs = Costs(costPrice: real, shippingCost: real)

  datatype Quote = Quote(usdPrice: real, nairaPrice: real, exchangeRate: real)

  datatype Response = Priced(quote: Quote) | Error(status: int, fault: Fault)

  /** The HTTP status each fault is answered with. */
  function Status(f: Fault): (code: int)
    ensures code == 400 <==> f in {MissingFields, InvalidNumberFormat, NegativeCosts}
    ensures code == 400 || code == 500
  {
    match f
    case MissingFields => 400
    case InvalidNumberFormat => 400
    case NegativeCosts => 400
    case RateUnavailable => 500
    case Unexpected => 500
  }

  /** `float(data[key])`. */
  function ReadField(f: Field): (r: Result<real, Fault>)
    ensures r.Failure? ==> r.error in {MissingFields, InvalidNumberFormat, Unexpected}
    ensures r == Failure(MissingFields) <==> f.Absent?
    ensures f.Number? ==> r == Success(f.n)
    ensures f.Str? ==> r == (if ParseFloat(f.s).Some? then Success(ParseFloat(f.s).value) else Failure(InvalidNumberFormat))
    ensures f.OtherJson? ==> r == Failure(Unexpected)
  {
    match f
    case Absent => Failure(MissingFields)
    case Number(n) => Success(n)
    case Str(s) =>
      (match ParseFloat(s)
       case None => Failure(InvalidNumberFormat)
       case Some(v) => Success(v))
    case OtherJson => Failure(Unexpected)
  }

  /**
   * The checks made before any rate lookup: both costs read in order
   * (cost price first), then both must be non-negative.
   */
  function ValidateRequest(req: Request): (r: Result<Costs, Fault>)
    ensures r.Success? <==>
      req.Body? && ReadField(req.costPrice).Success? && ReadField(req.shippingCost).Success? &&
      ReadField(req.costPrice).value >= 0.0 && ReadField(req.shippingCost).value >= 0.0
    ensures r.Success? ==> r.value == Costs(ReadField(req.costPrice).value, ReadField(req.shippingCost).value)
    ensures r == Failure(NegativeCosts) <==>
      req.Body? && ReadField(req.costPrice).Success? && ReadField(req.shippingCost).Success? &&
      (ReadField(req.costPrice).value < 0.0 || ReadField(req.shippingCost).value < 0.0)
    ensures r.Failure? ==> r.error != RateUnavailable
    ensures req.NotAnObject? ==> r == Failure(Unexpected)
    ensures req.Body? && ReadField(req.costPrice).Failure? ==> r == Failure(ReadField(req.costPrice).error)
    ensures req.Body? && ReadField(req.costPrice).Success? && ReadField(req.shippingCost).Failure? ==>
      r == Failure(ReadField(req.shippingCost).error)
  {
    match req
    case NotAnObject => Failure(Unexpected)
    case Body(costField, shippingField) =>
      match ReadField(costField)
      case Failure(e) => Failure(e)
      case Success(costPrice) =>
        match ReadField(shippingField)
        case Failure(e) => Failure(e)
        case Success(shippingCost) =>
          if costPrice < 0.0 || shippingCost < 0.0 then Failure(NegativeCosts)
          else Success(Costs(costPrice, shippingCost))
  }

  /** The USD selling price and its local-currency price at `rate`. */
  function ComputePrices(costs: Costs, rate: real): (q: Quote)
    ensures q.usdPrice == 1.675 * (costs.costPrice + costs.shippingCost)
    ensures q.nairaPrice == q.usdPrice * rate + HandlingFee
    ensures q.exchangeRate == rate
  {
    var acquisitionCost := costs.costPrice + costs.shippingCost;
    var usd := CalculateSellingCost(acquisitionCost);
    Quote(usd, usd * rate + HandlingFee, rate)
  }

  /**
   * The answer to a field that cannot be read: a missing key is a 400
   * "missing", a string that is no number a 400 "invalid format", and a
   * null, list or object value, or a body that is no object, a 500.
   */
  lemma UnreadableFieldAnswers(f: Field, other: Field, x: real)
    ensures f.Absent? ==>
      ValidateRequest(Body(f, other)) == Failure(MissingFields) &&
      ValidateRequest(Body(Number(x), f)) == Failure(MissingFields) && Status(MissingFields) == 400
    ensures f.Str? && ParseFloat(f.s).None? ==>
      ValidateRequest(Body(f, other)) == Failure(InvalidNumberFormat) &&
      ValidateRequest(Body(Number(x), f)) == Failure(InvalidNumberFormat) && Status(InvalidNumberFormat) == 400
    ensures f.OtherJson? ==>
      ValidateRequest(Body(f, other)) == Failure(Unexpected) &&
      ValidateRequest(Body(Number(x), f)) == Failure(Unexpected) && Status(Unexpected) == 500
    ensures ValidateRequest(NotAnObject) == Failure(Unexpected)
  {
  }

  /** A request with a negative cost is refused the same way whatever the rate would have been. */
  lemma NegativeCostRejected(c: real, s: real)
    requires c < 0.0 || s < 0.0
    ensures ValidateRequest(Body(Number(c), Number(s))) == Failure(NegativeCosts)
    ensures Status(NegativeCosts) == 400
  {
  }

  /**
   * With non-negative costs and rate, the USD price covers the acquisition
   * cost, the local price covers the fee, and both grow with either cost.
   */
  lemma PricesMonotone(a: Costs, b: Costs, rate: real)
    requires 0.0 <= a.costPrice <= b.costPrice && 0.0 <= a.shippingCost <= b.shippingCost && rate >= 0.0
    ensures ComputePrices(a, rate).usdPrice >= a.costPrice + a.shippingCost
    ensures ComputePrices(a, rate).nairaPrice >= HandlingFee
    ensures ComputePrices(a, rate).usdPrice <= ComputePrices(b, rate).usdPrice
    ensures ComputePrices(a, rate).nairaPrice <= ComputePrices(b, rate).nairaPrice
  {
    var ua, ub := ComputePrices(a, rate).usdPrice, ComputePrices(b, rate).usdPrice;
    assert 0.0 <= ua <= ub;
    assert ua * rate <= ub * rate by {
      assert (ub - ua) * rate >= 0.0;
    }
  }

  /** A cost of 100 with 20 shipping sells for 201 dollars. */
  lemma PriceOfHundredPlusTwenty(rate: real)
    ensures ComputePrices(Costs(100.0, 20.0), rate) == Quote(201.0, 201.0 * rate + 5000.0, rate)
  {
  }
}
