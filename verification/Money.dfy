/**
 * The money chain: a per-kilometre fare is priced per seat in inventory-service, summed by the
 * booking saga, sent to payment-service in paise and read back from the stored decimal string.
 * Amounts are exact: fares are ten-thousandths of a rupee (Decimal(10,4)), prices are paise.
 */
module Money {
  import opened Prelude
  import opened Decimals

  /** `Number(x.toFixed(2))` for a non-negative x in ten-thousandths of a rupee; the result is in paise. */
  function ToFixed2(tenThousandths: nat): (paise: nat) {
    (tenThousandths + 50) / 100
  }

  function Distance(x: int, y: int): nat {
    if x <= y then y - x else x - y
  }

  /** In hundredths, n is at least as near to x as m, and not the smaller of two equally near. */
  predicate Beats(x: nat, n: nat, m: nat) {
    && Distance(100 * n, x) <= Distance(100 * m, x)
    && (Distance(100 * n, x) == Distance(100 * m, x) ==> m <= n)
  }

  lemma RoundedBeats(x: nat, m: nat)
    ensures Beats(x, ToFixed2(x), m)
    ensures Beats(x, m, ToFixed2(x)) ==> m == ToFixed2(x)
  {
    var r := ToFixed2(x);
    assert 100 * r <= x + 50 < 100 * r + 100;
    if m < r {
      assert 100 * m + 100 <= 100 * r;
    } else if m > r {
      assert 100 * r + 100 <= 100 * m;
    }
  }

  /**
   * Section 21.1.3.3 of ECMA-262: the integer n for which n / 100 - x is as close to zero as possible,
   * and the larger one when there are two. The two conditions leave only one integer.
   */
  lemma ToFixed2IsNearest(x: nat, n: nat)
    ensures n == ToFixed2(x) <==> forall m: nat :: Beats(x, n, m)
  {
    forall m: nat ensures Beats(x, ToFixed2(x), m) {
      RoundedBeats(x, m);
    }
    RoundedBeats(x, n);
  }

  /** The fare of one seat: by distance when there is one, else the bare per-kilometre rate. */
  function SeatPrice(distance: nat, pricePerKm: nat): (paise: nat) {
    if distance > 0 then ToFixed2(distance * pricePerKm) else ToFixed2(pricePerKm)
  }

  /** The fare is so many kilometres at this rate, or the rate alone, to the nearest paisa. */
  ghost predicate IsFare(distance: nat, pricePerKm: nat, paise: nat) {
    if distance > 0 then forall m: nat :: Beats(distance * pricePerKm, paise, m)
    else forall m: nat :: Beats(pricePerKm, paise, m)
  }

  lemma SeatPriceIsFare(distance: nat, pricePerKm: nat, paise: nat)
    ensures paise == SeatPrice(distance, pricePerKm) <==> IsFare(distance, pricePerKm, paise)
  {
    ToFixed2IsNearest(if distance > 0 then distance * pricePerKm else pricePerKm, paise);
  }

  /** The price the seat map displays, in ten-thousandths of a rupee: unrounded when there is no distance. */
  function DisplayedPrice(distance: nat, pricePerKm: nat): nat {
    if distance > 0 then 100 * ToFixed2(distance * pricePerKm) else pricePerKm
  }

  /** The seat map shows the price that a hold charges exactly when it rounds the same amount. */
  lemma DisplayedPriceIsCharged(distance: nat, pricePerKm: nat)
    ensures DisplayedPrice(distance, pricePerKm) == 100 * SeatPrice(distance, pricePerKm)
            <==> distance > 0 || pricePerKm % 100 == 0
  {
  }

  /** At a rate of 1.2345 rupees the map shows 1.2345 and a hold charges 1.23, when both stops have one distance. */
  lemma UnroundedPriceIsShown()
    ensures DisplayedPrice(0, 12345) == 12345 && SeatPrice(0, 12345) == 123
  {
  }

  function Sum(prices: seq<nat>): nat {
    if prices == [] then 0 else Sum(prices[..|prices| - 1]) + prices[|prices| - 1]
  }

  // ---- From booking to payment and back ----

  /** `Math.round(x * 100)` for an amount x in rupees. */
  function RoundTimes100(rupees: real): int {
    (rupees * 100.0 + 0.5).Floor
  }

  /** The result of `Math.round` is the integer within half of the product, and the larger one of two. */
  lemma RoundsToNearest(rupees: real, n: int)
    ensures n == RoundTimes100(rupees) <==> n as real - 0.5 <= rupees * 100.0 < n as real + 0.5
  {
  }

  function Rupees(paise: nat): real {
    paise as real / 100.0
  }

  /** The running sum `reduce((sum, a) => sum + a.price, 0)` over prices in rupees. */
  function RupeeTotal(prices: seq<nat>): real {
    if prices == [] then 0.0 else RupeeTotal(prices[..|prices| - 1]) + Rupees(prices[|prices| - 1])
  }

  lemma {:induction false} RupeeTotalIsSum(prices: seq<nat>)
    ensures RupeeTotal(prices) == Rupees(Sum(prices))
  {
    if prices != [] {
      RupeeTotalIsSum(prices[..|prices| - 1]);
    }
  }

  /** The amount sent to payment-service for a booking total is the sum of its seats in paise. */
  lemma PaymentAmountIsSeatSum(prices: seq<nat>)
    ensures RoundTimes100(RupeeTotal(prices)) == Sum(prices)
  {
    RupeeTotalIsSum(prices);
  }

  /** `(amount / 100).toFixed(2)`: rupees, a point and exactly two digits. */
  function FormatPaise(paise: nat): string {
    Decimal(paise / 100) + "." + [DigitChar(paise / 10 % 10), DigitChar(paise % 10)]
  }

  /** `Number(text)` for texts of the shape digits or digits.digits; None for every other shape. */
  function ReadDecimal(text: string): Option<real> {
    var dot := IndexOf(text, '.');
    var whole := text[..dot];
    var fraction := if dot < |text| then text[dot + 1..] else [];
    ReadParts(whole, fraction)
  }

  /** The number moved n places behind the point. */
  function Shifted(x: real, n: nat): real
    decreases n
  {
    if n == 0 then x else Shifted(x / 10.0, n - 1)
  }

  function ReadParts(whole: string, fraction: string): Option<real> {
    if whole == [] || !AllDigits(whole) || !AllDigits(fraction) then None
    else Some(Value(whole) as real + Shifted(Value(fraction) as real, |fraction|))
  }

  /** A text with a point is read as what stands before and behind the first one. */
  lemma ReadAtPoint(whole: string, fraction: string)
    requires '.' !in whole
    ensures ReadDecimal(whole + "." + fraction) == ReadParts(whole, fraction)
  {
    var text := whole + ['.'] + fraction;
    IndexOfFirst(whole, '.', fraction);
    assert text[..|whole|] == whole && text[|whole| + 1..] == fraction;
    assert whole + "." + fraction == text;
  }

  lemma TwoDigitsValue(tens: nat, ones: nat)
    requires tens < 10 && ones < 10
    ensures var cents := [DigitChar(tens), DigitChar(ones)];
            AllDigits(cents) && Value(cents) == 10 * tens + ones
  {
    var cents := [DigitChar(tens), DigitChar(ones)];
    assert cents[..1] == [cents[0]] && [cents[0]][..0] == [];
    assert Value([cents[0]]) == tens;
  }

  lemma CentsValue(paise: nat)
    ensures var cents := [DigitChar(paise / 10 % 10), DigitChar(paise % 10)];
            AllDigits(cents) && Value(cents) == paise % 100
  {
    TwoDigitsValue(paise / 10 % 10, paise % 10);
  }

  lemma TwoPlaces(x: real, n: nat)
    requires n == 2
    ensures Shifted(x, n) == x / 100.0
  {
    assert Shifted(x, n) == Shifted(x / 10.0, n - 1) == Shifted(x / 10.0 / 10.0, n - 2);
  }

  lemma RupeesSplit(paise: nat)
    ensures (paise / 100) as real + (paise % 100) as real / 100.0 == Rupees(paise)
  {
    var whole, cents := paise / 100, paise % 100;
    assert paise == 100 * whole + cents;
    assert paise as real == 100.0 * whole as real + cents as real;
  }

  lemma NoPointInDigits(s: string)
    requires AllDigits(s)
    ensures '.' !in s
  {
  }

  lemma TwoPlacesRead(whole: string, cents: string)
    requires whole != [] && AllDigits(whole) && AllDigits(cents) && |cents| == 2
    ensures ReadParts(whole, cents) == Some(Value(whole) as real + Value(cents) as real / 100.0)
  {
    TwoPlaces(Value(cents) as real, |cents|);
  }

  /** Digits, a point and two digits denote whole rupees and cents. */
  lemma ReadsTwoDecimals(whole: string, cents: string)
    requires whole != [] && AllDigits(whole) && AllDigits(cents) && |cents| == 2
    ensures ReadDecimal(whole + "." + cents) == Some(Value(whole) as real + Value(cents) as real / 100.0)
  {
    NoPointInDigits(whole);
    ReadAtPoint(whole, cents);
    TwoPlacesRead(whole, cents);
  }

  /** The stored string denotes the exact amount it was made from. */
  lemma StoredAmountExact(paise: nat)
    ensures ReadDecimal(FormatPaise(paise)) == Some(Rupees(paise))
  {
    var whole, cents := Decimal(paise / 100), [DigitChar(paise / 10 % 10), DigitChar(paise % 10)];
    DecimalReadsBack(paise / 100);
    DecimalIsDigits(paise / 100);
    CentsValue(paise);
    ReadsTwoDecimals(whole, cents);
    RupeesSplit(paise);
  }

  /** What payment-service stores for an order reads back, in `getStatus`, as the paise it was created with. */
  lemma StoredAmountReadsBack(paise: nat)
    ensures var stored := ReadDecimal(FormatPaise(paise));
            stored.Some? && RoundTimes100(stored.value) == paise
  {
    StoredAmountExact(paise);
  }

  /** End to end: the prices of the seats, their total, the paise amount, the stored string and back. */
  lemma MoneyIsConserved(prices: seq<nat>)
    ensures var amount := RoundTimes100(RupeeTotal(prices));
            && amount == Sum(prices)
            && ReadDecimal(FormatPaise(amount)) == Some(RupeeTotal(prices))
  {
    PaymentAmountIsSeatSum(prices);
    StoredAmountExact(Sum(prices));
    RupeeTotalIsSum(prices);
  }
}
