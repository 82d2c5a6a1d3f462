/** Output statistics and historical prices: the spent status of an output,
    the price of bitcoin in one of the supported currencies, and the fiat
    metrics of an output. Prices come from the mempool price API, which is
    not part of this model: the price records are parameters. */
module FinanceModels {
  import opened Wrappers
  import opened Rationals

  /** The fiat currencies the application supports (its CURRENCIES setting). */
  const Currencies: seq<string> := ["USD", "EUR", "GBP", "CAD", "CHF", "AUD", "JPY"]

  /** What is known about one output. `spent` is None until it is known. */
  datatype OutputStat = OutputStat(
    typeRefHash: string,
    spent: Option<bool>,
    value: int,
    confirmedAtBlockHeight: int,
    confirmedAtBlockTime: int,
    network: string)

  datatype SpentStatus = Unconfirmed | Spent | Unspent

  /** `get_spent_status`. */
  function GetSpentStatus(o: OutputStat): (s: SpentStatus)
    ensures s == Unconfirmed <==> o.confirmedAtBlockTime == 0
    ensures s == Spent <==> o.confirmedAtBlockTime != 0 && o.spent == Some(true)
    ensures s == Unspent <==> o.confirmedAtBlockTime != 0 && o.spent != Some(true)
  {
    if o.confirmedAtBlockTime == 0 then Unconfirmed
    else if o.spent.Some? && o.spent.value then Spent
    else Unspent
  }

  /** The price of one bitcoin at one moment, in each currency. */
  datatype HistoricalPrice = HistoricalPrice(
    timestamp: int,
    usdPrice: Rat, eurPrice: Rat, gbpPrice: Rat, cadPrice: Rat,
    chfPrice: Rat, audPrice: Rat, jpyPrice: Rat)

  /** The price of a supported currency, read off the table directly. */
  function PriceIn(p: HistoricalPrice, code: string): Rat
    requires code in Currencies
  {
    if code == "USD" then p.usdPrice
    else if code == "EUR" then p.eurPrice
    else if code == "GBP" then p.gbpPrice
    else if code == "CAD" then p.cadPrice
    else if code == "CHF" then p.chfPrice
    else if code == "AUD" then p.audPrice
    else p.jpyPrice
  }

  /** `get_currency_price`: None for a code that is not supported (the call
      raises ValueError), otherwise the price field of that currency (the
      source reads the field named after the lower-cased code). */
  function GetCurrencyPrice(p: HistoricalPrice, currency: string): (r: Option<Rat>)
    ensures r.Some? <==> currency in Currencies
    ensures r.Some? ==> r.value == PriceIn(p, currency)
  {
    if currency !in Currencies then None else Some(PriceIn(p, currency))
  }

  /** A value in satoshis as bitcoin: `Decimal(value) / Decimal("100000000.0")`. */
  function Sats(value: int): Rat {
    FromDecimal(value, 8)
  }

  /** The currency `output_metrics_dict` reports in: USD when none is given. */
  function MetricsCurrency(fiatCurrency: string): (cur: string)
    ensures cur != "" && (fiatCurrency != "" ==> cur == fiatCurrency)
    ensures fiatCurrency == "" ==> cur == "USD"
  {
    if fiatCurrency == "" then "USD" else fiatCurrency
  }

  /** The fiat value the output is compared against: the tracked value when
      the output is unconfirmed or the value is positive, otherwise the
      output's value at the price of its confirmation time; None when that
      price lookup raises. */
  function OldValue(o: OutputStat, tracked: Rat, cur: string, pastPrice: Option<HistoricalPrice>): (v: Option<Rat>)
    requires o.confirmedAtBlockTime == 0 || pastPrice.Some?
    ensures v.None? <==> o.confirmedAtBlockTime != 0 && !Positive(tracked) && cur !in Currencies
    ensures v.Some? && (o.confirmedAtBlockTime == 0 || Positive(tracked)) ==> v.value == tracked
    ensures (v.Some? && o.confirmedAtBlockTime != 0 && !Positive(tracked))
      ==> v.value == Mul(Sats(o.value), PriceIn(pastPrice.value, cur))
  {
    if o.confirmedAtBlockTime == 0 || Positive(tracked) then Some(tracked)
    else match GetCurrencyPrice(pastPrice.value, cur)
      case None => None
      case Some(price) => Some(Mul(Sats(o.value), price))
  }

  /** The dictionary `output_metrics_dict` returns. */
  datatype Metrics = Metrics(
    value: int, typeRefHash: string, spent: Option<bool>,
    confirmedAtBlockHeight: int, confirmedAtBlockTime: int, network: string,
    fiatValueOld: Rat, fiatValue: Rat, fiatCur: string,
    performance: Rat, currentPrice: Rat, isTracked: bool)

  /** No price at the confirmation time (`{}` is returned), an exception, or
      the metrics. */
  datatype MetricsResult = NoPrice | Raised | Computed(m: Metrics)

  /** `output_metrics_dict`: `pastPrice` is the price record at the output's
      confirmation time and `nowPrice` the one at the current time, None
      when the price API gives none. */
  function OutputMetrics(o: OutputStat, tracked: Rat, fiatCurrency: string,
      pastPrice: Option<HistoricalPrice>, nowPrice: Option<HistoricalPrice>): (r: MetricsResult)
    ensures r == NoPrice <==> o.confirmedAtBlockTime != 0 && pastPrice.None?
    ensures ((o.confirmedAtBlockTime == 0 || pastPrice.Some?)
      && (nowPrice.None? || MetricsCurrency(fiatCurrency) !in Currencies)) ==> r == Raised
    ensures r.Computed? ==> r.m.fiatCur == MetricsCurrency(fiatCurrency) && r.m.fiatCur in Currencies
    ensures r.Computed? ==> (r.m.value == o.value && r.m.typeRefHash == o.typeRefHash && r.m.spent == o.spent
      && r.m.confirmedAtBlockHeight == o.confirmedAtBlockHeight
      && r.m.confirmedAtBlockTime == o.confirmedAtBlockTime && r.m.network == o.network)
    // a positive tracked value counts only for a confirmed output
    ensures r.Computed? ==> (r.m.isTracked <==> o.confirmedAtBlockTime != 0 && Positive(tracked))
    ensures r.Computed? ==> r.m.fiatValueOld == OldValue(o, tracked, r.m.fiatCur, pastPrice).value
    ensures r.Computed? ==> (r.m.fiatValue == r.m.currentPrice
      && r.m.currentPrice == Mul(Sats(o.value), PriceIn(nowPrice.value, r.m.fiatCur)))
    // performance: 0 when there is no current value, otherwise the percentage
    // change from the old value to the current one
    ensures r.Computed? && IsZero(r.m.currentPrice) ==> IsZero(r.m.performance)
    ensures r.Computed? && !IsZero(r.m.currentPrice) ==> (!IsZero(r.m.fiatValueOld)
      && Eq(Mul(r.m.performance, r.m.fiatValueOld), Mul(Sub(r.m.currentPrice, r.m.fiatValueOld), FromInt(100))))
    // the division by an old value of zero raises
    ensures (r == Raised && nowPrice.Some? && MetricsCurrency(fiatCurrency) in Currencies
      && OldValue(o, tracked, MetricsCurrency(fiatCurrency), pastPrice).Some?)
      ==> (IsZero(OldValue(o, tracked, MetricsCurrency(fiatCurrency), pastPrice).value)
        && !IsZero(Mul(Sats(o.value), PriceIn(nowPrice.value, MetricsCurrency(fiatCurrency)))))
  {
    var cur := MetricsCurrency(fiatCurrency);
    if o.confirmedAtBlockTime != 0 && pastPrice.None? then NoPrice
    else
      var isTracked := o.confirmedAtBlockTime != 0 && Positive(tracked);
      match OldValue(o, tracked, cur, pastPrice)
      case None => Raised
      case Some(oldValue) =>
        if nowPrice.None? then Raised
        else match GetCurrencyPrice(nowPrice.value, cur)
          case None => Raised
          case Some(price) =>
            var currentPrice := Mul(Sats(o.value), price);
            if IsZero(currentPrice) then
              Computed(Metrics(o.value, o.typeRefHash, o.spent, o.confirmedAtBlockHeight, o.confirmedAtBlockTime,
                o.network, oldValue, currentPrice, cur, FromInt(0), currentPrice, isTracked))
            else if IsZero(oldValue) then Raised
            else
              var performance := Mul(Div(Sub(currentPrice, oldValue), oldValue), FromInt(100));
              PercentChange(currentPrice, oldValue);
              Computed(Metrics(o.value, o.typeRefHash, o.spent, o.confirmedAtBlockHeight, o.confirmedAtBlockTime,
                o.network, oldValue, currentPrice, cur, performance, currentPrice, isTracked))
  }

  /** `((current - old) / old) * 100` times old is `(current - old) * 100`. */
  lemma PercentChange(current: Rat, oldValue: Rat)
    requires !IsZero(oldValue)
    ensures Eq(Mul(Mul(Div(Sub(current, oldValue), oldValue), FromInt(100)), oldValue),
      Mul(Sub(current, oldValue), FromInt(100)))
  {
    var d := Sub(current, oldValue);
    var a, b, c, e := d.num, d.den, oldValue.num, oldValue.den;
    if c > 0 {
      assert Div(d, oldValue) == Fraction(a * e, b * c);
      assert (a * e * 100) * c * b == (a * 100) * (b * c * e) by {
        assert (a * e * 100) * c * b == a * 100 * (e * c * b);
        assert (a * 100) * (b * c * e) == a * 100 * (e * c * b);
      }
    } else {
      assert Div(d, oldValue) == Fraction(-a * e, b * -c);
      assert (-a * e * 100) * c * b == (a * 100) * (b * -c * e) by {
        assert (-a * e * 100) * c * b == a * 100 * -(e * c * b);
        assert (a * 100) * (b * -c * e) == a * 100 * -(e * c * b);
      }
    }
  }
}
