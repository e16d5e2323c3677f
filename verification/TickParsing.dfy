/** One Dukascopy record to one tick: which fields are read, what skips a record, what stops the file. */
module TickParsing {
  import opened Options
  import opened Calendar

  /** A price, as a double holds it up to rounding; every comparison with `NaN` is false. */
  datatype Quote = NaN | Infinite(positive: bool) | Amount(value: real)

  /** A decoded JSON value. `Fraction` is a number written with a fraction or an exponent; `NotANumber` and `Infinity`
  are the literals that only the plain reader knows; `Text` carries what `float` reads in it, if anything; `true` and
  `false` count as the whole numbers one and zero. `strict` says that there is no such literal inside. */
  datatype Value =
    | Null
    | Whole(n: int)
    | Fraction(r: real)
    | NotANumber
    | Infinity(positive: bool)
    | Text(empty: bool, float: Option<Quote>)
    | Composite(empty: bool, strict: bool)

  datatype Record = Object(fields: map<string, Value>) | NotObject(strict: bool)

  datatype Tick = Tick(timestamp: int, bid: Quote, ask: Quote, symbol: string) // microseconds since 1970

  /** `Raised` is an exception that the parser does not catch, which ends the conversion. */
  datatype Parsed = Kept(tick: Tick) | Skipped | Raised

  /** A streaming reader delivers numbers with a fraction as `decimal.Decimal`, a plain one as `float`. Only the plain
  one knows the literals `NaN`, `Infinity` and `-Infinity`; on them the streaming one ends the conversion. */
  datatype Reader = Streaming | Plain

  /** An expression's value, or an exception that the parser catches or does not. */
  datatype Result<+T> = Value(value: T) | Caught | Uncaught

  predicate Truthy(v: Value) {
    match v
    case Null => false
    case Whole(n) => n != 0
    case Fraction(r) => r != 0.0
    case NotANumber => true
    case Infinity(_) => true
    case Text(empty, _) => !empty
    case Composite(empty, _) => !empty
  }

  predicate Strict(v: Value) { !v.NotANumber? && !v.Infinity? && (v.Composite? ==> v.strict) }

  predicate StrictRecord(record: Record) {
    match record
    case Object(fields) => forall key :: key in fields ==> Strict(fields[key])
    case NotObject(strict) => strict
  }

  function Get(fields: map<string, Value>, key: string, default: Value): Value {
    if key in fields then fields[key] else default
  }

  function Or(v: Value, w: Value): Value { if Truthy(v) then v else w }

  function PowerOfTwo(n: nat): (p: nat)
    ensures p > 0
  {
    if n == 0 then 1 else 2 * PowerOfTwo(n - 1)
  }

  // The least number that rounds beyond the largest double.
  const FLOAT_LIMIT := 0x3F_FFFF_FFFF_FFFF * PowerOfTwo(970)

  /** `float(v)`; a whole number too large for a double raises an `OverflowError`, which nobody catches. */
  function ToFloat(v: Value): Result<Quote> {
    match v
    case Null => Caught
    case Whole(n) => if -FLOAT_LIMIT < n < FLOAT_LIMIT then Value(Amount(n as real)) else Uncaught
    case Fraction(r) =>
      if r >= FLOAT_LIMIT as real then Value(Infinite(true))
      else if r <= -FLOAT_LIMIT as real then Value(Infinite(false))
      else Value(Amount(r))
    case NotANumber => Value(NaN)
    case Infinity(positive) => Value(Infinite(positive))
    case Text(_, float) => if float.Some? then Value(float.value) else Caught
    case Composite(_, _) => Caught
  }

  // Seconds outside these bounds overflow the C library's year and raise what the parser does not catch.
  const FIRST_SECOND := -67_768_040_609_740_800
  const LAST_SECOND := 67_768_036_191_676_799

  predicate BeyondClock(micros: int) { micros < FIRST_SECOND * 1_000_000 || (LAST_SECOND + 1) * 1_000_000 <= micros }

  predicate Representable(micros: int) { 1 <= Year(micros) <= 9999 }

  function Moment(micros: int): Result<int> {
    if BeyondClock(micros) then Uncaught else if Representable(micros) then Value(micros) else Caught
  }

  /** The milliseconds as microseconds; a `Decimal` cannot be divided by a `float`. */
  function Micros(v: Value, reader: Reader): Result<int> {
    match v
    case Whole(n) => Moment(1000 * n)
    case Fraction(r) => if reader.Plain? then Moment((r * 1000.0).Floor) else Caught
    case Infinity(_) => Uncaught
    case _ => Caught
  }

  predicate NotPositive(q: Quote) { (q.Amount? && q.value <= 0.0) || q == Infinite(false) }

  predicate Below(q: Quote, r: Quote) {
    match q
    case NaN => false
    case Infinite(positive) => !positive && !r.NaN? && r != Infinite(false)
    case Amount(x) => r == Infinite(true) || (r.Amount? && x < r.value)
  }

  function TimeOf(fields: map<string, Value>): Value { Or(Get(fields, "time", Null), Get(fields, "timestamp", Null)) }

  function Bid(fields: map<string, Value>): Result<Quote> {
    ToFloat(Or(Get(fields, "bidPrice", Null), Get(fields, "bid", Whole(0))))
  }

  function Ask(fields: map<string, Value>): Result<Quote> {
    ToFloat(Or(Get(fields, "askPrice", Null), Get(fields, "ask", Whole(0))))
  }

  /** What becomes of a record whose time is `micros`; the bid is read before the ask. */
  function Priced(micros: int, bid: Result<Quote>, ask: Result<Quote>, symbol: string): Parsed {
    if bid.Uncaught? then Raised
    else if bid.Caught? then Skipped
    else if ask.Uncaught? then Raised
    else if ask.Caught? then Skipped
    else if NotPositive(bid.value) || NotPositive(ask.value) || Below(ask.value, bid.value) then Skipped
    else Kept(Tick(micros, bid.value, ask.value, symbol))
  }

  function Parse(record: Record, symbol: string, reader: Reader): Parsed {
    if record.NotObject? || (reader.Streaming? && !StrictRecord(record)) then Raised
    else
      match Micros(TimeOf(record.fields), reader)
      case Uncaught => Raised
      case Caught => Skipped
      case Value(micros) => Priced(micros, Bid(record.fields), Ask(record.fields), symbol)
  }

  predicate Sane(t: Tick) { !NotPositive(t.bid) && !NotPositive(t.ask) && !Below(t.ask, t.bid) }

  predicate HasNull(t: Tick) { t.bid.NaN? || t.ask.NaN? }

  predicate Positive(q: Quote) { q == Infinite(true) || (q.Amount? && q.value > 0.0) }

  /** The value found under the newer key unless it is falsy, otherwise the one under the older, or else the default. */
  predicate Found(fields: map<string, Value>, newer: string, older: string, default: Value, v: Value) {
    if newer in fields && Truthy(fields[newer]) then v == fields[newer]
    else if older in fields then v == fields[older]
    else v == default
  }

  /** What a value says as a price: a number stands for itself, but one too large for a double for an infinity. */
  predicate Says(v: Value, q: Quote) {
    match v
    case Whole(n) => q == Amount(n as real)
    case Fraction(r) =>
      if -FLOAT_LIMIT as real < r < FLOAT_LIMIT as real then q == Amount(r) else q == Infinite(r > 0.0)
    case NotANumber => q == NaN
    case Infinity(positive) => q == Infinite(positive)
    case Text(_, float) => float == Some(q)
    case _ => false
  }

  /** A kept tick carries what the record says under its keys: its milliseconds as microseconds, its bid and its ask;
  and the symbol asked for. */
  lemma KeptTickIsTheRecords(fields: map<string, Value>, symbol: string, reader: Reader, time: Value, bid: Value,
                             ask: Value)
    requires Parse(Object(fields), symbol, reader).Kept?
    requires Found(fields, "time", "timestamp", Null, time)
    requires Found(fields, "bidPrice", "bid", Whole(0), bid) && Found(fields, "askPrice", "ask", Whole(0), ask)
    ensures var t := Parse(Object(fields), symbol, reader).tick;
      && t.symbol == symbol && Says(bid, t.bid) && Says(ask, t.ask)
      && (time.Whole? || (time.Fraction? && reader.Plain?))
      && t.timestamp == if time.Whole? then 1000 * time.n else (1000.0 * time.r).Floor
  {
    FloatLimitIsPositive();
    assert time == TimeOf(fields) || (!Truthy(time) && time == Null);
    ReadsPrice(bid, Bid(fields));
    ReadsPrice(ask, Ask(fields));
  }

  lemma FloatLimitIsPositive()
    ensures FLOAT_LIMIT > 0
  {
  }

  lemma ReadsPrice(v: Value, read: Result<Quote>)
    requires read == ToFloat(v)
    ensures read.Value? ==> Says(v, read.value)
  {
    FloatLimitIsPositive();
  }

  /** And a record whose prices are numbers in range, as text or not, is kept exactly if its moment can be represented
  and its prices are positive and in order. */
  lemma NumericRecordKeptIff(fields: map<string, Value>, symbol: string, reader: Reader, ms: int, bidSaid: Value,
                             askSaid: Value, bid: real, ask: real)
    requires reader.Plain? || StrictRecord(Object(fields))
    requires Found(fields, "time", "timestamp", Null, Whole(ms))
    requires Found(fields, "bidPrice", "bid", Whole(0), bidSaid) && InRange(bidSaid) && Says(bidSaid, Amount(bid))
    requires Found(fields, "askPrice", "ask", Whole(0), askSaid) && InRange(askSaid) && Says(askSaid, Amount(ask))
    ensures Parse(Object(fields), symbol, reader) == Kept(Tick(1000 * ms, Amount(bid), Amount(ask), symbol))
       <==> !BeyondClock(1000 * ms) && 1 <= Year(1000 * ms) <= 9999 && 0.0 < bid <= ask
    ensures Parse(Object(fields), symbol, reader).Kept? ==> 0.0 < bid <= ask
  {
    ValuesFound(fields, ms, bidSaid, askSaid);
    ReadsNumber(bidSaid, bid);
    ReadsNumber(askSaid, ask);
    PricedIff(1000 * ms, bid, ask, symbol);
  }

  predicate InRange(v: Value) { v.Whole? ==> -FLOAT_LIMIT < v.n < FLOAT_LIMIT }

  lemma ValuesFound(fields: map<string, Value>, ms: int, bid: Value, ask: Value)
    requires Found(fields, "time", "timestamp", Null, Whole(ms))
    requires Found(fields, "bidPrice", "bid", Whole(0), bid) && Found(fields, "askPrice", "ask", Whole(0), ask)
    ensures TimeOf(fields) == Whole(ms) && Bid(fields) == ToFloat(bid) && Ask(fields) == ToFloat(ask)
  {
  }

  lemma ReadsNumber(v: Value, price: real)
    requires InRange(v) && Says(v, Amount(price))
    ensures ToFloat(v) == Value(Amount(price))
  {
  }

  lemma PricedIff(micros: int, bid: real, ask: real, symbol: string)
    ensures Priced(micros, Value(Amount(bid)), Value(Amount(ask)), symbol)
         == if 0.0 < bid <= ask then Kept(Tick(micros, Amount(bid), Amount(ask), symbol)) else Skipped
  {
  }

  /** A kept tick has positive prices in order, but for prices that are not numbers, which pass every test. */
  lemma KeptTicksAreSane(record: Record, symbol: string, reader: Reader)
    requires Parse(record, symbol, reader).Kept?
    ensures var t := Parse(record, symbol, reader).tick;
      Sane(t) && (HasNull(t) || (Positive(t.bid) && Positive(t.ask) && (t.bid == t.ask || Below(t.bid, t.ask))))
  {
  }

  /** The first moment of 1970 is lost under the key `time` and kept under the key `timestamp`: zero is falsy,
  but it is not `None`. Any other representable moment is kept under either. */
  lemma ZeroIsLostUnderTime(ms: int, bid: real, ask: real, symbol: string, reader: Reader)
    requires 0.0 < bid <= ask && Moment(1000 * ms).Value?
    ensures var prices := map["bidPrice" := Fraction(bid), "askPrice" := Fraction(ask)];
      && Parse(Object(prices["timestamp" := Whole(ms)]), symbol, reader).Kept?
      && (Parse(Object(prices["time" := Whole(ms)]), symbol, reader).Kept? <==> ms != 0)
  {
    var prices := map["bidPrice" := Fraction(bid), "askPrice" := Fraction(ask)];
    var early, late := prices["time" := Whole(ms)], prices["timestamp" := Whole(ms)];
    assert TimeOf(late) == Whole(ms);
    WellPriced(late, bid, ask, symbol, reader);
    assert TimeOf(early) == if ms != 0 then Whole(ms) else Null;
    WellPriced(early, bid, ask, symbol, reader);
  }

  lemma WellPriced(fields: map<string, Value>, bid: real, ask: real, symbol: string, reader: Reader)
    requires 0.0 < bid <= ask && (forall key :: key in fields ==> Strict(fields[key]))
    requires Get(fields, "bidPrice", Null) == Fraction(bid) && Get(fields, "askPrice", Null) == Fraction(ask)
    ensures Parse(Object(fields), symbol, reader).Kept? <==> Micros(TimeOf(fields), reader).Value?
  {
    PricesInOrder(bid, ask);
  }

  lemma PricesInOrder(bid: real, ask: real)
    requires 0.0 < bid <= ask
    ensures var b, a := ToFloat(Fraction(bid)), ToFloat(Fraction(ask));
      b.Value? && a.Value? && !NotPositive(b.value) && !NotPositive(a.value) && !Below(a.value, b.value)
  {
  }

  /** Empty text is no number. */
  predicate WellRead(v: Value) { v.Text? && v.empty ==> v.float == None }

  function Quotes(time: Value, prices: map<string, Value>): Record { Object(prices["time" := time]) }

  lemma Lookups(time: Value, bid: Value, ask: Value, otherBid: Value, otherAsk: Value)
    ensures var older := Quotes(time, map["bid" := bid, "ask" := ask]).fields;
      && TimeOf(older) == Or(time, Null)
      && Bid(older) == ToFloat(Or(Null, bid)) && Ask(older) == ToFloat(Or(Null, ask))
    ensures var newer := Quotes(time, map["bidPrice" := bid, "askPrice" := ask]).fields;
      && TimeOf(newer) == Or(time, Null)
      && Bid(newer) == ToFloat(Or(bid, Whole(0))) && Ask(newer) == ToFloat(Or(ask, Whole(0)))
    ensures var both :=
        Quotes(time, map["bidPrice" := bid, "askPrice" := ask, "bid" := otherBid, "ask" := otherAsk]).fields;
      && TimeOf(both) == Or(time, Null)
      && Bid(both) == ToFloat(Or(bid, otherBid)) && Ask(both) == ToFloat(Or(ask, otherAsk))
  {
  }

  /** No price is read: `None` under the older key, and falsy under the newer. */
  predicate Missing(v: Value) { !Truthy(v) && ToFloat(v).Caught? }

  /** The parser gets as far as the prices. */
  predicate ReadsPrices(time: Value, bid: Value, ask: Value, reader: Reader) {
    Micros(Or(time, Null), reader).Value? && (reader.Plain? || (Strict(time) && Strict(bid) && Strict(ask)))
  }

  /** The older key names mean the same as the newer ones, for any values, but for a missing bid next to an ask too
  large for a double: the newer bid falls back to zero, so that the ask is read and raises. */
  lemma OldKeysMeanTheSameIff(time: Value, bid: Value, ask: Value, symbol: string, reader: Reader)
    requires WellRead(bid) && WellRead(ask)
    ensures Parse(Quotes(time, map["bidPrice" := bid, "askPrice" := ask]), symbol, reader)
         == Parse(Quotes(time, map["bid" := bid, "ask" := ask]), symbol, reader)
       <==> !(ReadsPrices(time, bid, ask, reader) && Missing(bid) && ToFloat(ask).Uncaught?)
  {
    Lookups(time, bid, ask, Null, Null);
    Strictness(time, bid, ask, Null, Null);
    FalsyPrice(bid);
    FalsyPrice(ask);
  }

  /** Where a record has both, newer prices that are not falsy count. */
  lemma NewerKeysCount(time: Value, bid: Value, ask: Value, otherBid: Value, otherAsk: Value, symbol: string,
                       reader: Reader)
    requires Truthy(bid) && Truthy(ask) && (reader.Plain? || (Strict(otherBid) && Strict(otherAsk)))
    ensures Parse(Quotes(time, map["bidPrice" := bid, "askPrice" := ask, "bid" := otherBid, "ask" := otherAsk]),
                  symbol, reader)
         == Parse(Quotes(time, map["bidPrice" := bid, "askPrice" := ask]), symbol, reader)
  {
    Lookups(time, bid, ask, otherBid, otherAsk);
    Strictness(time, bid, ask, otherBid, otherAsk);
  }

  lemma Strictness(time: Value, bid: Value, ask: Value, otherBid: Value, otherAsk: Value)
    ensures var all := Strict(time) && Strict(bid) && Strict(ask);
      && StrictRecord(Quotes(time, map["bid" := bid, "ask" := ask])) == all
      && StrictRecord(Quotes(time, map["bidPrice" := bid, "askPrice" := ask])) == all
      && StrictRecord(Quotes(time, map["bidPrice" := bid, "askPrice" := ask, "bid" := otherBid, "ask" := otherAsk]))
         == (all && Strict(otherBid) && Strict(otherAsk))
  {
    var older := map["bid" := bid, "ask" := ask]["time" := time];
    var newer := map["bidPrice" := bid, "askPrice" := ask]["time" := time];
    var both := map["bidPrice" := bid, "askPrice" := ask, "bid" := otherBid, "ask" := otherAsk]["time" := time];
    assert older["bid"] == bid && older["ask"] == ask && older["time"] == time;
    assert newer["bidPrice"] == bid && newer["askPrice"] == ask && newer["time"] == time;
    assert both["bidPrice"] == bid && both["askPrice"] == ask && both["time"] == time;
    assert both["bid"] == otherBid && both["ask"] == otherAsk;
  }

  lemma FalsyPrice(v: Value)
    requires WellRead(v)
    ensures var older, newer := ToFloat(Or(Null, v)), ToFloat(Or(v, Whole(0)));
      if Missing(v) then older == Caught && newer == Value(Amount(0.0)) else older == newer
  {
  }

  /** A record that the two readers treat differently: one with a literal that only the plain one knows, unless that
  one raises too, or else one whose time has a fraction, unless the plain reader skips it. */
  predicate ReadApart(record: Record, symbol: string) {
    var plain := Parse(record, symbol, Plain);
    if !StrictRecord(record) then !plain.Raised?
    else record.Object? && TimeOf(record.fields).Fraction? && !plain.Skipped?
  }

  lemma ReadersDisagreeIff(record: Record, symbol: string)
    ensures Parse(record, symbol, Streaming) != Parse(record, symbol, Plain) <==> ReadApart(record, symbol)
    ensures ReadApart(record, symbol) ==>
      Parse(record, symbol, Streaming) == if StrictRecord(record) then Skipped else Raised
  {
  }

  // ---- what raises ----

  lemma {:induction false} PowersAdd(m: nat, n: nat)
    ensures PowerOfTwo(m + n) == PowerOfTwo(m) * PowerOfTwo(n)
  {
    if m > 0 {
      PowersAdd(m - 1, n);
      assert m + n - 1 == (m - 1) + n;
      assert (2 * PowerOfTwo(m - 1)) * PowerOfTwo(n) == 2 * (PowerOfTwo(m - 1) * PowerOfTwo(n));
    }
  }

  /** The largest double is 2 to the 1024 less 2 to the 971; what is half a step above it or more rounds beyond. */
  lemma FloatLimitIs()
    ensures FLOAT_LIMIT == PowerOfTwo(1024) - PowerOfTwo(970)
  {
    PowersAdd(54, 970);
    SmallPowers();
    var p := PowerOfTwo(970);
    assert PowerOfTwo(54) * p - p == (PowerOfTwo(54) - 1) * p;
  }

  lemma SmallPowers()
    ensures PowerOfTwo(54) == 0x40_0000_0000_0000
  {
    SmallerPowers();
    PowersAdd(27, 27);
  }

  lemma SmallerPowers()
    ensures PowerOfTwo(27) == 0x800_0000
  {
    assert PowerOfTwo(3) == 8;
    PowersAdd(3, 3);
    PowersAdd(6, 3);
    PowersAdd(9, 9);
    PowersAdd(18, 9);
  }

  /** Beyond the clock lie exactly the years that the C library's 32-bit count from 1900 cannot hold. */
  lemma BeyondClockIff(micros: int)
    ensures BeyondClock(micros) <==> !(-0x8000_0000 <= Year(micros) - 1900 <= 0x7FFF_FFFF)
  {
    var day := micros / MICROS_PER_DAY;
    assert micros == day * MICROS_PER_DAY + micros % MICROS_PER_DAY;
    var first, last := 1900 - 0x8000_0000, 1900 + 0x7FFF_FFFF;
    assert (DaysBefore(first) - EPOCH_DAYS) * 86400 == FIRST_SECOND;
    assert (DaysBefore(last + 1) - EPOCH_DAYS) * 86400 == LAST_SECOND + 1;
    var day2 := EPOCH_DAYS + day;
    assert DaysBefore(Year(micros)) <= day2 < DaysBefore(Year(micros) + 1);
    if Year(micros) < first && Year(micros) + 1 < first { YearStartsGrow(Year(micros) + 1, first); }
    if first < Year(micros) { YearStartsGrow(first, Year(micros)); }
    if Year(micros) < last { YearStartsGrow(Year(micros) + 1, last + 1); }
    if last + 1 < Year(micros) { YearStartsGrow(last + 1, Year(micros)); }
  }

  predicate TooLarge(n: int) { n <= -FLOAT_LIMIT || FLOAT_LIMIT <= n }

  /** A whole number of milliseconds so far away, or a price that is a whole number too large for a double, raises what
  ends the conversion; a moment outside the years 1 to 9999 is only skipped. */
  lemma WholeNumbersRaiseIff(ms: int, bid: int, ask: int, symbol: string, reader: Reader)
    ensures var record := Object(map["timestamp" := Whole(ms), "bidPrice" := Whole(bid), "askPrice" := Whole(ask)]);
      Parse(record, symbol, reader).Raised? <==>
        || BeyondClock(1000 * ms)
        || (1 <= Year(1000 * ms) <= 9999 && (TooLarge(bid) || TooLarge(ask)))
  {
    var fields := map["timestamp" := Whole(ms), "bidPrice" := Whole(bid), "askPrice" := Whole(ask)];
    assert TimeOf(fields) == Whole(ms);
    WholePrice(fields, bid, "bidPrice", "bid");
    WholePrice(fields, ask, "askPrice", "ask");
    assert forall key :: key in fields ==> Strict(fields[key]);
    WholePricedRaisesIff(1000 * ms, bid, ask, symbol);
  }

  lemma WholePricedRaisesIff(micros: int, bid: int, ask: int, symbol: string)
    ensures Priced(micros, ToFloat(Whole(bid)), ToFloat(Whole(ask)), symbol).Raised? <==> TooLarge(bid) || TooLarge(ask)
  {
  }

  lemma WholePrice(fields: map<string, Value>, n: int, newer: string, older: string)
    requires newer in fields && fields[newer] == Whole(n) && older !in fields
    ensures Or(Get(fields, newer, Null), Get(fields, older, Whole(0))) == Whole(n)
  {
  }
}
