/** Turning a supplier cost into a store price, over exact decimals. */
module Pricing {
  import opened Wrappers

  datatype Mode = Cent | FiveCents | TenCents | NinetyNine

  function StepOf(mode: Mode): (step: real)
    ensures step > 0.0
  {
    match mode
    case FiveCents => 0.05
    case TenCents => 0.10
    case _ => 0.01
  }

  /** ROUND_HALF_UP: to the nearest integer, halves away from zero. */
  function HalfUp(x: real): int {
    if x >= 0.0 then (x + 0.5).Floor else -(-x + 0.5).Floor
  }

  /** The default rounding of quantize: halves to the even neighbour. */
  function HalfEven(x: real): int {
    var below := x.Floor;
    var rest := x - below as real;
    if rest < 0.5 || (rest == 0.5 && below % 2 == 0) then below else below + 1
  }

  function MaxReal(a: real, b: real): real {
    if a >= b then a else b
  }

  function MinReal(a: real, b: real): real {
    if a <= b then a else b
  }

  /** The whole amount that .99 pricing takes a cent from. */
  function WholeFor(value: real): int {
    if HalfUp(value) as real < value then HalfUp(value) + 1 else HalfUp(value)
  }

  function Round(value: real, mode: Mode): real {
    if mode.NinetyNine? then
      MaxReal(0.99, WholeFor(value) as real - 0.01)
    else
      HalfUp(value / StepOf(mode)) as real * StepOf(mode)
  }

  function Quantize(value: real): real {
    HalfEven(value * 100.0) as real / 100.0
  }

  predicate WholeCents(x: real) {
    x * 100.0 == (x * 100.0).Floor as real
  }

  datatype Product = Product(cost: real, fixedPrice: Option<real>, limitMin: Option<real>, limitMax: Option<real>)

  function Raw(cost: real, rate: real, markup: real): real {
    cost * rate * (1.0 + markup / 100.0)
  }

  /** A limit that is missing or not positive does not apply. */
  predicate Applies(limit: Option<real>) {
    limit.Some? && limit.value > 0.0
  }

  function Price(p: Product, rate: real, markup: real, floor: real, mode: Mode): real {
    if p.fixedPrice.Some? then Round(p.fixedPrice.value, mode)
    else
      var rounded := Round(Raw(p.cost, rate, markup), mode);
      var floored := if rounded < floor then floor else rounded;
      var raised := if Applies(p.limitMin) && floored < p.limitMin.value then p.limitMin.value else floored;
      var capped := if Applies(p.limitMax) && raised > p.limitMax.value then p.limitMax.value else raised;
      Quantize(capped)
  }

  /******* Rounding *******/

  lemma FloorIs(x: real, n: int)
    requires n as real <= x < (n + 1) as real
    ensures x.Floor == n
  {
  }

  lemma HalfUpIs(x: real, n: int)
    requires x >= 0.0 && n as real - 0.5 <= x < n as real + 0.5
    ensures HalfUp(x) == n
  {
    FloorIs(x + 0.5, n);
  }

  lemma HalfUpNear(x: real)
    ensures x - 0.5 <= HalfUp(x) as real <= x + 0.5
    ensures x == x.Floor as real ==> HalfUp(x) == x.Floor
  {
  }

  lemma HalfUpIsMonotone(x: real, y: real)
    requires x <= y
    ensures HalfUp(x) <= HalfUp(y)
  {
    HalfUpNear(x);
    HalfUpNear(y);
    if x >= 0.0 {
      FloorIsMonotone(x + 0.5, y + 0.5);
    } else if y < 0.0 {
      FloorIsMonotone(-y + 0.5, -x + 0.5);
    } else {
      FloorIsMonotone(0.5, -x + 0.5);
      FloorIsMonotone(0.5, y + 0.5);
    }
  }

  lemma FloorIsMonotone(x: real, y: real)
    requires x <= y
    ensures x.Floor <= y.Floor
  {
    assert x.Floor as real < y.Floor as real + 1.0;
  }

  /** Rounding stays within half a step; .99 pricing goes at most one cent below, and not
      for prices under 0.99. */
  lemma RoundIsNear(value: real, mode: Mode)
    ensures !mode.NinetyNine? ==> value - StepOf(mode) / 2.0 <= Round(value, mode) <= value + StepOf(mode) / 2.0
    ensures mode.NinetyNine? ==> value - 0.01 <= Round(value, mode) < MaxReal(1.0, value + 1.0)
  {
    HalfUpNear(value);
    if !mode.NinetyNine? {
      StepsNear(value, mode);
    }
  }

  lemma StepsNear(value: real, mode: Mode)
    requires !mode.NinetyNine?
    ensures var step := StepOf(mode); value - step / 2.0 <= HalfUp(value / step) as real * step <= value + step / 2.0
  {
    HalfUpNear(value / StepOf(mode));
    match mode { case Cent => case FiveCents => case TenCents => }
  }

  lemma WholeForIsMonotone(a: real, b: real)
    requires a <= b
    ensures WholeFor(a) <= WholeFor(b)
  {
    HalfUpIsMonotone(a, b);
    HalfUpNear(a);
    HalfUpNear(b);
    if HalfUp(a) == HalfUp(b) {
      assert HalfUp(a) as real < a ==> HalfUp(b) as real < b;
    }
  }

  lemma RoundIsMonotone(a: real, b: real, mode: Mode)
    requires a <= b
    ensures Round(a, mode) <= Round(b, mode)
  {
    if mode.NinetyNine? {
      WholeForIsMonotone(a, b);
    } else {
      HalfUpIsMonotone(a / StepOf(mode), b / StepOf(mode));
      var m, n := HalfUp(a / StepOf(mode)), HalfUp(b / StepOf(mode));
      assert m as real <= n as real;
    }
  }

  lemma RoundIsIdempotent(value: real, mode: Mode)
    ensures Round(Round(value, mode), mode) == Round(value, mode) && WholeCents(Round(value, mode))
  {
    if mode.NinetyNine? {
      NinetyNineIsIdempotent(value);
    } else {
      Cents(HalfUp(value / StepOf(mode)), mode);
    }
  }

  lemma NinetyNineIsIdempotent(value: real)
    ensures var r := Round(value, NinetyNine); Round(r, NinetyNine) == r && WholeCents(r)
  {
    var n := if WholeFor(value) < 1 then 1 else WholeFor(value);
    assert Round(value, NinetyNine) == n as real - 0.01;
    WholeLessACent(n);
  }

  lemma WholeLessACent(n: int)
    requires n >= 1
    ensures Round(n as real - 0.01, NinetyNine) == n as real - 0.01 && WholeCents(n as real - 0.01)
  {
    HalfUpIs(n as real - 0.01, n);
    assert (n as real - 0.01) * 100.0 == (100 * n - 1) as real;
    FloorIs((n as real - 0.01) * 100.0, 100 * n - 1);
  }

  lemma Cents(n: int, mode: Mode)
    requires !mode.NinetyNine?
    ensures WholeCents(n as real * StepOf(mode)) && Round(n as real * StepOf(mode), mode) == n as real * StepOf(mode)
  {
    var k := match mode { case FiveCents => 5 case TenCents => 10 case _ => 1 };
    assert n as real * StepOf(mode) * 100.0 == (n * k) as real;
    FloorIs(n as real * StepOf(mode) * 100.0, n * k);
    StepsDivide(n, mode);
    HalfUpNear(n as real);
    FloorIs(n as real, n);
  }

  lemma StepsDivide(n: int, mode: Mode)
    requires !mode.NinetyNine?
    ensures n as real * StepOf(mode) / StepOf(mode) == n as real
  {
    match mode { case Cent => case FiveCents => case TenCents => }
  }

  /******* The last rounding *******/

  function Ceil(x: real): int {
    -(-x).Floor
  }

  lemma QuantizeKeepsCents(x: real)
    requires WholeCents(x)
    ensures Quantize(x) == x
  {
  }

  lemma QuantizeIsNear(x: real)
    ensures x - 0.005 <= Quantize(x) <= x + 0.005 && WholeCents(Quantize(x))
  {
    HundredthsAreCents(HalfEven(x * 100.0));
  }

  lemma HundredthsAreCents(n: int)
    ensures WholeCents(n as real / 100.0)
  {
    assert n as real / 100.0 * 100.0 == n as real;
    FloorIs(n as real / 100.0 * 100.0, n);
  }

  lemma QuantizeIsMonotone(x: real, y: real)
    requires x <= y
    ensures Quantize(x) <= Quantize(y)
  {
    FloorIsMonotone(x * 100.0, y * 100.0);
    assert HalfEven(x * 100.0) <= HalfEven(y * 100.0);
  }

  /** Halves to the even neighbour: when the integer nearest to `y` reaches `n`. */
  predicate EvenReaches(y: real, n: int) {
    y > n as real - 0.5 || (y == n as real - 0.5 && n % 2 == 0)
  }

  predicate EvenStays(y: real, n: int) {
    y < n as real + 0.5 || (y == n as real + 0.5 && n % 2 == 0)
  }

  lemma HalfEvenIff(y: real, n: int)
    ensures HalfEven(y) >= n <==> EvenReaches(y, n)
    ensures HalfEven(y) <= n <==> EvenStays(y, n)
  {
  }

  /** Halves away from zero. */
  predicate UpReaches(y: real, n: int) {
    y > n as real - 0.5 || (y == n as real - 0.5 && n > 0)
  }

  predicate UpStays(y: real, n: int) {
    y < n as real + 0.5 || (y == n as real + 0.5 && n < 0)
  }

  lemma HalfUpIff(y: real, n: int)
    ensures HalfUp(y) >= n <==> UpReaches(y, n)
    ensures HalfUp(y) <= n <==> UpStays(y, n)
  {
  }

  lemma CeilIff(x: real, n: int)
    ensures n as real >= x <==> n >= Ceil(x)
    ensures n as real <= x <==> n <= x.Floor
  {
  }

  /** When the price after the last rounding is at least, and at most, a bound. */
  lemma QuantizeMeetsIff(x: real, bound: real)
    ensures Quantize(x) >= bound <==> EvenReaches(x * 100.0, Ceil(bound * 100.0))
    ensures Quantize(x) <= bound <==> EvenStays(x * 100.0, (bound * 100.0).Floor)
  {
    var n := HalfEven(x * 100.0);
    CeilIff(bound * 100.0, n);
    HalfEvenIff(x * 100.0, Ceil(bound * 100.0));
    HalfEvenIff(x * 100.0, (bound * 100.0).Floor);
    assert n as real / 100.0 >= bound <==> n as real >= bound * 100.0;
    assert n as real / 100.0 <= bound <==> n as real <= bound * 100.0;
  }

  /** The part of `bound` below a cent is nothing or is rounded up. */
  predicate RoundedUp(bound: real) {
    var cents := bound * 100.0;
    var rest := cents - cents.Floor as real;
    rest == 0.0 || rest > 0.5 || (rest == 0.5 && cents.Floor % 2 == 1)
  }

  predicate RoundedDown(bound: real) {
    var cents := bound * 100.0;
    var rest := cents - cents.Floor as real;
    rest < 0.5 || (rest == 0.5 && cents.Floor % 2 == 0)
  }

  lemma QuantizedBoundIff(bound: real)
    ensures Quantize(bound) >= bound <==> RoundedUp(bound)
    ensures Quantize(bound) <= bound <==> RoundedDown(bound)
  {
  }

  /******* The price *******/

  predicate InCents(p: Product, floor: real) {
    && WholeCents(floor)
    && (p.limitMin.Some? ==> WholeCents(p.limitMin.value))
    && (p.limitMax.Some? ==> WholeCents(p.limitMax.value))
  }

  /** The price before the store's maximum: as high as the rounded price, the floor and the
      store's minimum. */
  function Raised(p: Product, rounded: real, floor: real): real {
    var low := MaxReal(rounded, floor);
    if Applies(p.limitMin) then MaxReal(low, p.limitMin.value) else low
  }

  function Bounded(p: Product, rounded: real, floor: real): real {
    var raised := Raised(p, rounded, floor);
    if Applies(p.limitMax) then MinReal(raised, p.limitMax.value) else raised
  }

  /** A price that is not fixed is the rounded raw price raised to the floor and the store's
      minimum and then capped by its maximum, to the nearest cent; it is that bound exactly,
      and within the limits, when the floor and the limits are in whole cents. */
  lemma PriceIsBounded(p: Product, rate: real, markup: real, floor: real, mode: Mode)
    requires p.fixedPrice.None?
    ensures var price := Price(p, rate, markup, floor, mode);
      var bounded := Bounded(p, Round(Raw(p.cost, rate, markup), mode), floor);
      && price == Quantize(bounded)
      && WholeCents(price) && bounded - 0.005 <= price <= bounded + 0.005
      && (InCents(p, floor) ==> price == bounded)
      && (InCents(p, floor) && Applies(p.limitMax) ==> price <= p.limitMax.value)
      && (InCents(p, floor) && Applies(p.limitMin) && (Applies(p.limitMax) ==> p.limitMin.value <= p.limitMax.value) ==>
            price >= p.limitMin.value)
  {
    var bounded := Bounded(p, Round(Raw(p.cost, rate, markup), mode), floor);
    QuantizeIsNear(bounded);
    RoundIsIdempotent(Raw(p.cost, rate, markup), mode);
    if InCents(p, floor) {
      QuantizeKeepsCents(bounded);
    }
  }

  lemma Multiply(a: real, a': real, b: real, b': real)
    requires 0.0 <= a <= a' && 0.0 <= b <= b'
    ensures 0.0 <= a * b <= a' * b'
  {
    assert a * b <= a * b';
    assert a * b' <= a' * b';
  }

  lemma RawIsMonotone(cost: real, cost': real, rate: real, rate': real, markup: real, markup': real)
    requires 0.0 <= cost <= cost' && 0.0 <= rate <= rate' && -100.0 <= markup <= markup'
    ensures 0.0 <= Raw(cost, rate, markup) <= Raw(cost', rate', markup')
  {
    Multiply(cost, cost', rate, rate');
    Multiply(cost * rate, cost' * rate', 1.0 + markup / 100.0, 1.0 + markup' / 100.0);
  }

  /** The price never falls when the cost, the rate or the markup rises. */
  lemma PriceIsMonotone(p: Product, cost': real, rate: real, rate': real, markup: real, markup': real,
                        floor: real, mode: Mode)
    requires p.fixedPrice.None?
    requires 0.0 <= p.cost <= cost' && 0.0 <= rate <= rate' && -100.0 <= markup <= markup'
    ensures Price(p, rate, markup, floor, mode) <= Price(p.(cost := cost'), rate', markup', floor, mode)
  {
    RawIsMonotone(p.cost, cost', rate, rate', markup, markup');
    RoundIsMonotone(Raw(p.cost, rate, markup), Raw(cost', rate', markup'), mode);
    PriceIsBounded(p, rate, markup, floor, mode);
    PriceIsBounded(p.(cost := cost'), rate', markup', floor, mode);
    QuantizeIsMonotone(Bounded(p, Round(Raw(p.cost, rate, markup), mode), floor),
                       Bounded(p, Round(Raw(cost', rate', markup'), mode), floor));
  }

  /** The rounded price is kept exactly when the store's maximum, to the cent, allows it;
      then the price is at most half a step below the raw price, or one cent with .99
      pricing. */
  lemma MarginIsKept(p: Product, rate: real, markup: real, floor: real, mode: Mode)
    requires p.fixedPrice.None?
    ensures var price, rounded := Price(p, rate, markup, floor, mode), Round(Raw(p.cost, rate, markup), mode);
      && (price >= rounded <==> (Applies(p.limitMax) ==> rounded <= Quantize(p.limitMax.value)))
      && var slack := if mode.NinetyNine? then 0.01 else StepOf(mode) / 2.0;
         (price >= rounded ==> price >= Raw(p.cost, rate, markup) - slack)
  {
    var rounded := Round(Raw(p.cost, rate, markup), mode);
    PriceIsBounded(p, rate, markup, floor, mode);
    RoundIsNear(Raw(p.cost, rate, markup), mode);
    RoundIsIdempotent(Raw(p.cost, rate, markup), mode);
    QuantizeKeepsCents(rounded);
    var bounded := Bounded(p, rounded, floor);
    if rounded <= bounded {
      QuantizeIsMonotone(rounded, bounded);
    }
    if Applies(p.limitMax) && rounded <= p.limitMax.value {
      QuantizeIsMonotone(rounded, p.limitMax.value);
    }
  }

  /** What rounding may take off, and what it may add. */
  function Slack(mode: Mode): real {
    match mode
    case Cent => 0.005
    case FiveCents => 0.025
    case TenCents => 0.05
    case NinetyNine => 0.01
  }

  lemma RawIsProportional(cost: real, rate: real, markup: real)
    ensures 100.0 * Raw(cost, rate, markup) == (cost * rate) * (100.0 + markup)
  {
    var base := cost * rate;
    Percent(base, markup);
  }

  lemma Percent(base: real, markup: real)
    ensures 100.0 * (base * (1.0 + markup / 100.0)) == base * (100.0 + markup)
  {
    assert 100.0 * (1.0 + markup / 100.0) == 100.0 + markup;
    var factor := 1.0 + markup / 100.0;
    assert 100.0 * (base * factor) == base * (100.0 * factor);
  }

  lemma NotLowered(p: Product, rate: real, markup: real, floor: real, mode: Mode)
    requires p.fixedPrice.None?
    requires p.limitMax.Some? && p.limitMax.value > 0.0 ==>
      Price(p, rate, markup, floor, mode) < p.limitMax.value - 0.005
    ensures Price(p, rate, markup, floor, mode) >= Round(Raw(p.cost, rate, markup), mode)
  {
    var rounded := Round(Raw(p.cost, rate, markup), mode);
    PriceIsBounded(p, rate, markup, floor, mode);
    RoundIsIdempotent(Raw(p.cost, rate, markup), mode);
    QuantizeKeepsCents(rounded);
    var bounded := Bounded(p, rounded, floor);
    if bounded >= rounded {
      QuantizeIsMonotone(rounded, bounded);
    }
  }

  lemma NotRaised(p: Product, rate: real, markup: real, floor: real, mode: Mode)
    requires p.fixedPrice.None? && Price(p, rate, markup, floor, mode) > floor + 0.005
    requires p.limitMin.Some? && p.limitMin.value > 0.0 ==>
      Price(p, rate, markup, floor, mode) > p.limitMin.value + 0.005
    ensures Price(p, rate, markup, floor, mode) <= Round(Raw(p.cost, rate, markup), mode)
  {
    var rounded := Round(Raw(p.cost, rate, markup), mode);
    PriceIsBounded(p, rate, markup, floor, mode);
    RoundIsIdempotent(Raw(p.cost, rate, markup), mode);
    QuantizeKeepsCents(rounded);
    var bounded := Bounded(p, rounded, floor);
    if bounded <= rounded {
      QuantizeIsMonotone(bounded, rounded);
    }
  }

  /** Main result: the cost in the store's currency plus `markup` percent is charged.  A price
      below the store's maximum is no lower than that, up to rounding; and one above the
      floor and the store's minimum is no higher. */
  lemma MarkupIsCharged(p: Product, rate: real, markup: real, floor: real, mode: Mode)
    requires p.fixedPrice.None?
    ensures var price, due := Price(p, rate, markup, floor, mode), (p.cost * rate) * (100.0 + markup);
      && ((p.limitMax.Some? && p.limitMax.value > 0.0 ==> price < p.limitMax.value - 0.005) ==>
            100.0 * price >= due - 100.0 * Slack(mode))
      && (price > floor + 0.005 && (p.limitMin.Some? && p.limitMin.value > 0.0 ==> price > p.limitMin.value + 0.005) ==>
            if mode.NinetyNine? then price <= 0.99 || 100.0 * price < due + 100.0
            else 100.0 * price <= due + 100.0 * Slack(mode))
  {
    var raw, price := Raw(p.cost, rate, markup), Price(p, rate, markup, floor, mode);
    RawIsProportional(p.cost, rate, markup);
    RoundIsNear(raw, mode);
    NinetyNineIsNear(raw);
    if p.limitMax.Some? && p.limitMax.value > 0.0 ==> price < p.limitMax.value - 0.005 {
      NotLowered(p, rate, markup, floor, mode);
    }
    if price > floor + 0.005 && (p.limitMin.Some? && p.limitMin.value > 0.0 ==> price > p.limitMin.value + 0.005) {
      NotRaised(p, rate, markup, floor, mode);
    }
  }

  lemma NinetyNineIsNear(value: real)
    ensures Round(value, NinetyNine) == 0.99 || Round(value, NinetyNine) < value + 1.0
  {
    HalfUpNear(value);
  }

  /** A limit of zero or less is no limit. */
  lemma ZeroLimitsDoNotApply(p: Product, rate: real, markup: real, floor: real, mode: Mode, limit: real)
    requires limit <= 0.0
    ensures Price(p.(limitMin := Some(limit)), rate, markup, floor, mode)
         == Price(p.(limitMin := None), rate, markup, floor, mode)
    ensures Price(p.(limitMax := Some(limit)), rate, markup, floor, mode)
         == Price(p.(limitMax := None), rate, markup, floor, mode)
  {
  }

  /** With a floor and limits in whole cents, the floor holds unless the store's maximum is
      lower, and so does the store's minimum; the maximum always holds. */
  lemma BoundsInCentsHold(p: Product, rate: real, markup: real, floor: real, mode: Mode)
    requires p.fixedPrice.None? && InCents(p, floor)
    ensures var price := Price(p, rate, markup, floor, mode);
      var most := if p.limitMax.Some? && p.limitMax.value > 0.0 then p.limitMax else None;
      && (most.Some? ==> price <= most.value)
      && (price >= floor || (most.Some? && price == most.value))
      && (p.limitMin.Some? && p.limitMin.value > 0.0 ==>
            price >= p.limitMin.value || (most.Some? && price == most.value))
  {
    PriceIsBounded(p, rate, markup, floor, mode);
  }

  /** For instance a cost of ten with a markup of twenty percent is sold for twelve. */
  lemma TwentyPercentOnTen()
    ensures Price(Product(10.0, None, None, None), 1.0, 20.0, 0.3, Cent) == 12.0
  {
    RoundIsNear(12.0, Cent);
    Cents(1200, Cent);
    assert Raw(10.0, 1.0, 20.0) == 12.0;
    FloorIs(1200.0, 1200);
  }

  /******* When the bounds are kept *******/

  /** Exactly when a price that is not fixed is at least, or at most, any bound: the floor,
      the store's minimum and its maximum among them. */
  lemma PriceMeetsIff(p: Product, rate: real, markup: real, floor: real, mode: Mode, bound: real)
    requires p.fixedPrice.None?
    ensures var cents := Bounded(p, Round(Raw(p.cost, rate, markup), mode), floor) * 100.0;
      && (Price(p, rate, markup, floor, mode) >= bound <==> EvenReaches(cents, Ceil(bound * 100.0)))
      && (Price(p, rate, markup, floor, mode) <= bound <==> EvenStays(cents, (bound * 100.0).Floor))
  {
    PriceIsBounded(p, rate, markup, floor, mode);
    QuantizeMeetsIff(Bounded(p, Round(Raw(p.cost, rate, markup), mode), floor), bound);
  }

  /** A price that was raised to the floor meets it after the last rounding exactly when the
      part of the floor below a cent is nothing or is rounded up, or the store's maximum,
      where that is lower, rounds up to it. */
  lemma RaisedPriceMeetsTheFloorIff(p: Product, rate: real, markup: real, floor: real, mode: Mode)
    requires p.fixedPrice.None? && Round(Raw(p.cost, rate, markup), mode) < floor
    requires Applies(p.limitMin) ==> p.limitMin.value <= floor
    ensures Price(p, rate, markup, floor, mode) >= floor <==>
      if Applies(p.limitMax) && p.limitMax.value < floor then EvenReaches(p.limitMax.value * 100.0, Ceil(floor * 100.0))
      else RoundedUp(floor)
  {
    PriceMeetsIff(p, rate, markup, floor, mode, floor);
    PriceIsBounded(p, rate, markup, floor, mode);
    QuantizedBoundIff(floor);
  }

  /** The same for a price that was raised to the store's minimum. */
  lemma RaisedPriceMeetsTheMinimumIff(p: Product, rate: real, markup: real, floor: real, mode: Mode)
    requires p.fixedPrice.None? && Applies(p.limitMin)
    requires MaxReal(Round(Raw(p.cost, rate, markup), mode), floor) < p.limitMin.value
    ensures var min := p.limitMin.value;
      Price(p, rate, markup, floor, mode) >= min <==>
        if Applies(p.limitMax) && p.limitMax.value < min then EvenReaches(p.limitMax.value * 100.0, Ceil(min * 100.0))
        else RoundedUp(min)
  {
    PriceMeetsIff(p, rate, markup, floor, mode, p.limitMin.value);
    PriceIsBounded(p, rate, markup, floor, mode);
    QuantizedBoundIff(p.limitMin.value);
  }

  /** A price that was lowered to the store's maximum is still under it after the last
      rounding exactly when the part of the maximum below a cent is rounded down. */
  lemma LoweredPriceMeetsTheMaximumIff(p: Product, rate: real, markup: real, floor: real, mode: Mode)
    requires p.fixedPrice.None? && Applies(p.limitMax)
    requires Raised(p, Round(Raw(p.cost, rate, markup), mode), floor) > p.limitMax.value
    ensures Price(p, rate, markup, floor, mode) <= p.limitMax.value <==> RoundedDown(p.limitMax.value)
  {
    PriceIsBounded(p, rate, markup, floor, mode);
    QuantizedBoundIff(p.limitMax.value);
  }

  /** Hence a minimum of 1.234 is published as 1.23, a maximum of 1.236 as 1.24, and a floor
      of 0.304 as 0.30. */
  lemma BoundsInTenthsOfACentAreMissed()
    ensures Price(Product(1.0, None, Some(1.234), None), 1.0, 0.0, 0.3, Cent) == 1.23
    ensures Price(Product(10.0, None, None, Some(1.236)), 1.0, 0.0, 0.3, Cent) == 1.24
    ensures Price(Product(0.1, None, None, None), 1.0, 0.0, 0.304, Cent) == 0.3
  {
    RoundIsNear(Raw(1.0, 1.0, 0.0), Cent);
    RoundIsNear(Raw(10.0, 1.0, 0.0), Cent);
    RoundIsNear(Raw(0.1, 1.0, 0.0), Cent);
    assert Raw(1.0, 1.0, 0.0) == 1.0 && Raw(10.0, 1.0, 0.0) == 10.0 && Raw(0.1, 1.0, 0.0) == 0.1;
    assert (1.234 * 100.0).Floor == 123 && (1.236 * 100.0).Floor == 123 && (0.304 * 100.0).Floor == 30;
  }

  /** When rounding a value to `mode` gives at least, and at most, a bound. */
  predicate RoundReaches(value: real, mode: Mode, bound: real) {
    if mode.NinetyNine? then bound <= 0.99 || value > (Ceil(bound + 0.01) - 1) as real
    else UpReaches(value / StepOf(mode), Ceil(bound / StepOf(mode)))
  }

  predicate RoundStays(value: real, mode: Mode, bound: real) {
    if mode.NinetyNine? then bound >= 0.99 && value <= (bound + 0.01).Floor as real
    else UpStays(value / StepOf(mode), (bound / StepOf(mode)).Floor)
  }

  lemma WholeForIsCeil(value: real)
    ensures WholeFor(value) == Ceil(value)
  {
    HalfUpNear(value);
  }

  lemma RoundMeetsIff(value: real, mode: Mode, bound: real)
    ensures Round(value, mode) >= bound <==> RoundReaches(value, mode, bound)
    ensures Round(value, mode) <= bound <==> RoundStays(value, mode, bound)
  {
    if mode.NinetyNine? {
      NinetyNineMeetsIff(value, bound);
    } else {
      StepsMeetIff(value / StepOf(mode), mode, bound);
    }
  }

  lemma StepsMeetIff(y: real, mode: Mode, bound: real)
    requires !mode.NinetyNine?
    ensures HalfUp(y) as real * StepOf(mode) >= bound <==> UpReaches(y, Ceil(bound / StepOf(mode)))
    ensures HalfUp(y) as real * StepOf(mode) <= bound <==> UpStays(y, (bound / StepOf(mode)).Floor)
  {
    HalfUpMeetsIff(y, bound / StepOf(mode));
    StepsCompare(HalfUp(y), mode, bound);
  }

  lemma HalfUpMeetsIff(y: real, bound: real)
    ensures HalfUp(y) as real >= bound <==> UpReaches(y, Ceil(bound))
    ensures HalfUp(y) as real <= bound <==> UpStays(y, bound.Floor)
  {
    HalfUpIff(y, Ceil(bound));
    HalfUpIff(y, bound.Floor);
    CeilIff(bound, HalfUp(y));
  }

  lemma NinetyNineMeetsIff(value: real, bound: real)
    ensures Round(value, NinetyNine) >= bound <==> RoundReaches(value, NinetyNine, bound)
    ensures Round(value, NinetyNine) <= bound <==> RoundStays(value, NinetyNine, bound)
  {
    WholeForIsCeil(value);
    CeilIff(bound + 0.01, Ceil(value));
    CeilIff(value, Ceil(bound + 0.01) - 1);
    CeilIff(value, (bound + 0.01).Floor);
  }

  lemma StepsCompare(n: int, mode: Mode, bound: real)
    requires !mode.NinetyNine?
    ensures n as real * StepOf(mode) >= bound <==> n as real >= bound / StepOf(mode)
    ensures n as real * StepOf(mode) <= bound <==> n as real <= bound / StepOf(mode)
  {
    match mode { case Cent => case FiveCents => case TenCents => }
  }

  /** A fixed price skips the floor and the limits: exactly when it nevertheless is at least,
      or at most, any of them. */
  lemma FixedPriceMeetsIff(p: Product, rate: real, markup: real, floor: real, mode: Mode, bound: real)
    requires p.fixedPrice.Some?
    ensures Price(p, rate, markup, floor, mode) >= bound <==> RoundReaches(p.fixedPrice.value, mode, bound)
    ensures Price(p, rate, markup, floor, mode) <= bound <==> RoundStays(p.fixedPrice.value, mode, bound)
  {
    RoundMeetsIff(p.fixedPrice.value, mode, bound);
  }

  /** Without .99 pricing, and for a positive bound that is a whole number of steps, that is
      within half a step of the bound. */
  lemma FixedPriceNearTheBoundIff(p: Product, rate: real, markup: real, floor: real, mode: Mode, steps: nat)
    requires p.fixedPrice.Some? && !mode.NinetyNine? && steps > 0
    ensures var step := StepOf(mode);
      var price, fixed, bound := Price(p, rate, markup, floor, mode), p.fixedPrice.value, steps as real * step;
      && (price >= bound <==> fixed >= bound - step / 2.0)
      && (price <= bound <==> fixed < bound + step / 2.0)
  {
    var step := StepOf(mode);
    var fixed := p.fixedPrice.value;
    FixedPriceMeetsIff(p, rate, markup, floor, mode, steps as real * step);
    StepsDivide(steps, mode);
    FloorIs(steps as real, steps);
    assert Ceil(steps as real) == steps;
    match mode { case Cent => case FiveCents => case TenCents => }
  }

  /** For instance ten cents stays ten cents under a floor of thirty and a store minimum of
      one euro. */
  lemma FixedPriceIgnoresTheLimits(rate: real, markup: real)
    ensures Price(Product(1.0, Some(0.1), Some(1.0), None), rate, markup, 0.3, Cent) == 0.1
  {
    HalfUpNear(0.1 / 0.01);
  }
}
