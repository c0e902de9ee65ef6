/**
 * The converter between the wire records and the model: the accept/reject
 * rules for a submitted transaction, and the rounding of a statistic for the
 * response.
 */
module Converter {
  import opened Wrappers
  import opened Decimal
  import opened Statistics

  /** The distinct ways a conversion fails; `NullInput` is `requireNonNull`'s exception. */
  datatype ConversionError = NullInput | Unparseable | Future | Stale

  /**
   * One string field of a request as the library parser sees it: null (the
   * parser throws a NullPointerException), text it rejects, or text it reads
   * as `value`.
   */
  datatype Field<+T> = Null | Malformed | Parsed(value: T)

  /**
   * A submitted transaction: `amount` as `new BigDecimal(amount)` reads it,
   * `timestamp` as the instant `ZonedDateTime.parse(timestamp)` denotes, in
   * exact seconds since the epoch.
   */
  datatype TransactionDTO = TransactionDTO(amount: Field<real>, timestamp: Field<real>)

  /** The response record; each decimal stands for its two-digit string. */
  datatype StatisticDTO = StatisticDTO(sum: real, avg: real, max: real, min: real, count: int)

  /** The getters of a `Statistic` as the converter reads them, each possibly null. */
  datatype StatisticView = StatisticView(sum: Option<real>, avg: Option<real>, max: Option<real>, min: Option<real>, count: Option<int>)

  /** What the getters of a `Statistic` with the given value return. */
  function ViewOf(a: Agg): StatisticView {
    StatisticView(Some(a.sum), Some(a.avg), a.max, a.min, Some(a.count))
  }

  /** `roundBigDecimal`: `0.00` for null, otherwise the value rounded half-up to cents. */
  function RoundBigDecimal(initial: Option<real>): (r: real)
    ensures IsCents(r)
    ensures initial.None? ==> r == 0.0
    ensures initial.Some? ==> r == RoundHalfUp2(initial.value) && -0.005 <= r - initial.value <= 0.005
  {
    if initial.None? then 0.0
    else
      RoundHalfUp2Error(initial.value);
      RoundHalfUp2(initial.value)
  }

  /**
   * `asStatisticDTO`: rounds avg, max, min and sum independently and maps a
   * null count to 0; a null statistic is an error.
   */
  function AsStatisticDTO(statistic: Option<StatisticView>): (r: Result<StatisticDTO, ConversionError>)
    ensures statistic.None? <==> r == Failure(NullInput)
    ensures r.Success? ==> IsCents(r.value.sum) && IsCents(r.value.avg) && IsCents(r.value.max) && IsCents(r.value.min)
    ensures r.Success? ==>
              && r.value.sum == RoundBigDecimal(statistic.value.sum)
              && r.value.avg == RoundBigDecimal(statistic.value.avg)
              && r.value.max == RoundBigDecimal(statistic.value.max)
              && r.value.min == RoundBigDecimal(statistic.value.min)
    ensures r.Success? ==> r.value.count == if statistic.value.count.None? then 0 else statistic.value.count.value
  {
    if statistic.None? then Failure(NullInput)
    else
      var s := statistic.value;
      Success(StatisticDTO(
        sum := RoundBigDecimal(s.sum),
        avg := RoundBigDecimal(s.avg),
        max := RoundBigDecimal(s.max),
        min := RoundBigDecimal(s.min),
        count := if s.count.None? then 0 else s.count.value))
  }

  /** A fresh `Statistic` is reported as all zeros: sum "0.00" and count 0. */
  lemma EmptyStatisticDTO()
    ensures AsStatisticDTO(Some(ViewOf(Zero()))) == Success(StatisticDTO(0.0, 0.0, 0.0, 0.0, 0))
  {
    RoundHalfUp2OfCents(0.0);
  }

  /**
   * A well-formed statistic is reported with its own count and average (the
   * average already has two digits), and with its sum and extrema rounded.
   */
  lemma WellFormedStatisticDTO(a: Agg)
    requires WellFormed(a)
    ensures var r := AsStatisticDTO(Some(ViewOf(a)));
            && r.Success?
            && r.value.count == a.count
            && r.value.avg == a.avg
            && r.value.sum == RoundHalfUp2(a.sum)
            && (a.count == 0 ==> r.value.max == 0.0 && r.value.min == 0.0)
            && (a.count > 0 ==> r.value.max == RoundHalfUp2(a.max.value) && r.value.min == RoundHalfUp2(a.min.value))
  {
    if a.count > 0 {
      RoundHalfUp2Idempotent(a.sum / a.count as real);
    } else {
      RoundHalfUp2OfCents(0.0);
    }
  }

  /** `checkFutureTransaction`: an instant strictly after `now` is rejected. */
  function CheckFutureTransaction(dateTime: real, now: real): (r: Option<ConversionError>)
    ensures r.Some? <==> dateTime > now
    ensures r.Some? ==> r.value == Future
  {
    if dateTime > now then Some(Future) else None
  }

  /** `checkPastTransaction`: an instant strictly before `now - timeToKeepAlive` is rejected. */
  function CheckPastTransaction(dateTime: real, now: real, timeToKeepAlive: int): (r: Option<ConversionError>)
    ensures r.Some? <==> dateTime < now - timeToKeepAlive as real
    ensures r.Some? ==> r.value == Stale
  {
    if dateTime < now - timeToKeepAlive as real then Some(Stale) else None
  }

  /**
   * `parseToDateTimeLong`: a null timestamp fails with the parser's
   * NullPointerException, an unparseable one as Unparseable, then a future
   * one, then a stale one, in that order; an accepted one becomes its epoch
   * second, truncated towards the past.
   */
  function ParseToDateTimeLong(datetime: Field<real>, now: real, timeToKeepAlive: int): (r: Result<int, ConversionError>)
    ensures datetime.Null? ==> r == Failure(NullInput)
    ensures datetime.Malformed? ==> r == Failure(Unparseable)
    ensures datetime.Parsed? && datetime.value > now ==> r == Failure(Future)
    ensures datetime.Parsed? && datetime.value <= now && datetime.value < now - timeToKeepAlive as real ==> r == Failure(Stale)
    ensures r.Success? <==> datetime.Parsed? && now - timeToKeepAlive as real <= datetime.value <= now
    ensures r.Success? ==> r.value as real <= datetime.value < r.value as real + 1.0
  {
    match datetime
    case Null => Failure(NullInput)
    case Malformed => Failure(Unparseable)
    case Parsed(dateTime) =>
      var future := CheckFutureTransaction(dateTime, now);
      if future.Some? then Failure(future.value)
      else
        var past := CheckPastTransaction(dateTime, now, timeToKeepAlive);
        if past.Some? then Failure(past.value)
        else Success(dateTime.Floor)
  }

  /** `parseToBigDecimal`: a null amount fails with the parser's NullPointerException, bad text as Unparseable. */
  function ParseToBigDecimal(amount: Field<real>): (r: Result<real, ConversionError>)
    ensures amount.Null? <==> r == Failure(NullInput)
    ensures amount.Malformed? <==> r == Failure(Unparseable)
    ensures amount.Parsed? <==> r.Success?
    ensures amount.Parsed? ==> r == Success(amount.value)
  {
    match amount
    case Null => Failure(NullInput)
    case Malformed => Failure(Unparseable)
    case Parsed(value) => Success(value)
  }

  /**
   * `asTrasanctionEntity`: a null record is an error; the amount is parsed
   * first, so its error is reported whatever the timestamp is; then the
   * timestamp rules apply.
   */
  function AsTransactionEntity(transactionDTO: Option<TransactionDTO>, now: real, timeToKeepAlive: int): (r: Result<Transaction, ConversionError>)
    ensures transactionDTO.None? ==> r == Failure(NullInput)
    ensures transactionDTO.Some? && !transactionDTO.value.amount.Parsed? ==>
              r == Failure(ParseToBigDecimal(transactionDTO.value.amount).error)
    ensures transactionDTO.Some? && transactionDTO.value.amount.Parsed? ==>
              var parsed := ParseToDateTimeLong(transactionDTO.value.timestamp, now, timeToKeepAlive);
              (r.Failure? <==> parsed.Failure?) && (parsed.Failure? ==> r.Failure? && r.error == parsed.error)
    ensures r.Success? <==>
              && transactionDTO.Some?
              && transactionDTO.value.amount.Parsed?
              && transactionDTO.value.timestamp.Parsed?
              && now - timeToKeepAlive as real <= transactionDTO.value.timestamp.value <= now
    ensures r.Success? ==>
              && r.value.amount == transactionDTO.value.amount.value
              && r.value.timestamp as real <= transactionDTO.value.timestamp.value < r.value.timestamp as real + 1.0
  {
    if transactionDTO.None? then Failure(NullInput)
    else
      var amount := ParseToBigDecimal(transactionDTO.value.amount);
      if amount.Failure? then Failure(amount.error)
      else
        var timestamp := ParseToDateTimeLong(transactionDTO.value.timestamp, now, timeToKeepAlive);
        if timestamp.Failure? then Failure(timestamp.error)
        else Success(Transaction(amount.value, timestamp.value))
  }

  /** Both window edges are accepted: a timestamp equal to `now` or to `now - timeToKeepAlive`. */
  lemma WindowEdgesAccepted(amount: real, now: real, timeToKeepAlive: int)
    requires timeToKeepAlive >= 0
    ensures AsTransactionEntity(Some(TransactionDTO(Parsed(amount), Parsed(now))), now, timeToKeepAlive)
         == Success(Transaction(amount, now.Floor))
    ensures AsTransactionEntity(Some(TransactionDTO(Parsed(amount), Parsed(now - timeToKeepAlive as real))), now, timeToKeepAlive).Success?
  {
  }

  /**
   * Under a 60-second window: 61 seconds ahead is Future, 61 seconds back is
   * Stale, bad text in either field is Unparseable, and a null record is a
   * NullPointerException. The amount is checked before the timestamp.
   */
  lemma RejectionClasses(amount: real, now: real)
    ensures AsTransactionEntity(Some(TransactionDTO(Parsed(amount), Parsed(now + 61.0))), now, 60) == Failure(Future)
    ensures AsTransactionEntity(Some(TransactionDTO(Parsed(amount), Parsed(now - 61.0))), now, 60) == Failure(Stale)
    ensures AsTransactionEntity(Some(TransactionDTO(Malformed, Parsed(now))), now, 60) == Failure(Unparseable)
    ensures AsTransactionEntity(Some(TransactionDTO(Parsed(amount), Malformed)), now, 60) == Failure(Unparseable)
    ensures AsTransactionEntity(Some(TransactionDTO(Malformed, Parsed(now + 61.0))), now, 60) == Failure(Unparseable)
    ensures AsTransactionEntity(Some(TransactionDTO(Null, Malformed)), now, 60) == Failure(NullInput)
    ensures AsTransactionEntity(None, now, 60) == Failure(NullInput)
  {
  }

  /**
   * The bucket key of an accepted transaction is at most `timeToKeepAlive`
   * seconds behind the current second and never ahead of it.
   */
  lemma AcceptedKeyAge(dto: TransactionDTO, now: real, timeToKeepAlive: int)
    requires AsTransactionEntity(Some(dto), now, timeToKeepAlive).Success?
    ensures var key := AsTransactionEntity(Some(dto), now, timeToKeepAlive).value.timestamp;
            0 <= now.Floor - key <= timeToKeepAlive
  {
    var t := dto.timestamp.value;
    var key := t.Floor;
    assert key <= now.Floor;
    assert (now - timeToKeepAlive as real).Floor == now.Floor - timeToKeepAlive;
  }
}
