/** JSON values as `json.loads` returns them. */
module Json {

  /** A decoded JSON value; objects keep their key order (the loaders use an OrderedDict hook). */
  datatype Json =
    | JNull
    | JBool(b: bool)
    | JInt(i: int)
    | JFloat(f: real)
    | JNaN                          // `NaN`, which `json.loads` accepts
    | JInfinity(negative: bool)     // `Infinity` and `-Infinity`
    | JStr(s: string)
    | JArr(items: seq<Json>)
    | JObj(fields: seq<(string, Json)>)
}

/**
 * The Python standard-library conversions the code calls, kept abstract: how `float()`,
 * `datetime` and `json` read and write text is not part of this model, only the order in
 * which the code tries them. Times are integer microseconds since the epoch.
 */
module Formats {
  import opened Results
  import opened Json

  const SecondMicros: int := 1_000_000

  /** What `float()` gives for text it accepts: a finite number (as a point in time), an infinity or NaN. */
  datatype Float = Finite(t: int) | PosInf | NegInf | NaN

  datatype Codec = Codec(
    number: string -> Option<Float>,    // float(s); None for a ValueError
    inRange: int -> bool,               // datetime.fromtimestamp(t) accepts a finite time
    isoLenient: string -> Option<int>,  // datetime.fromisoformat(s).timestamp()
    isoStrict: string -> Option<int>,   // datetime.strptime(s, '%Y-%m-%dT%H:%M:%S.%f').timestamp()
    isoFormat: int -> string,           // datetime.now().isoformat() at a given time
    showTime: int -> string,            // str(datetime) of a time
    showValue: Json -> string,          // str(value) of a decoded JSON value
    decode: string -> Option<Json>      // json.loads(s); None for a JSONDecodeError
  )

  /** Python's `cutoff > x` for a float: an infinity compares as usual, NaN compares false. */
  predicate Below(x: Float, cutoff: int)
  {
    match x
    case Finite(t) => cutoff > t
    case NegInf => true
    case PosInf => false
    case NaN => false
  }

  /** How delete_entries_older_than_x_days reads a key: float() first, then fromisoformat. */
  function ParseForPrune(c: Codec, key: string): Option<Float>
  {
    match c.number(key)
    case Some(x) => Some(x)
    case None =>
      match c.isoLenient(key)
      case Some(t) => Some(Finite(t))
      case None => None
  }

  /**
   * str_to_datetime, used by every scan: `fromtimestamp(float(s))` first, then the strict
   * microsecond format. A number that fromtimestamp refuses (an infinity, NaN, or a time out
   * of its range) fails: either its error propagates, or its ValueError hands the key to
   * strptime, which cannot match the text of a number.
   */
  function StrToDatetime(c: Codec, key: string): Option<int>
  {
    match c.number(key)
    case Some(x) => FromTimestamp(c, x)
    case None => c.isoStrict(key)
  }

  /** datetime.fromtimestamp of what float() gave: only a finite time in range is placed. */
  function FromTimestamp(c: Codec, x: Float): Option<int>
  {
    if x.Finite? && c.inRange(x.t) then Some(x.t) else None
  }

  /**
   * A key that float() reads is that number for pruning, and a time for scanning exactly
   * when it is finite and datetime can place it; then both agree. The ISO readers are
   * consulted only for keys that are not numbers: fromisoformat when pruning, the strict
   * format when scanning.
   */
  lemma ParseOrder(c: Codec, key: string)
    ensures c.number(key).Some? ==> ParseForPrune(c, key) == c.number(key)
    ensures c.number(key).Some? ==>
              (StrToDatetime(c, key).Some? <==> c.number(key).value.Finite? && c.inRange(c.number(key).value.t))
    ensures c.number(key).Some? && StrToDatetime(c, key).Some? ==>
              ParseForPrune(c, key) == Some(Finite(StrToDatetime(c, key).value))
    ensures c.number(key).None? ==>
              (ParseForPrune(c, key).Some? <==> c.isoLenient(key).Some?)
              && (ParseForPrune(c, key).Some? ==> ParseForPrune(c, key) == Some(Finite(c.isoLenient(key).value)))
              && StrToDatetime(c, key) == c.isoStrict(key)
  {
  }

  /**
   * A key such as "inf", "nan" or "1e20" is read by the pruning parser but refused by
   * str_to_datetime.
   */
  lemma UnplaceableNumber(c: Codec, key: string)
    requires c.number(key).Some?
    requires !c.number(key).value.Finite? || !c.inRange(c.number(key).value.t)
    ensures ParseForPrune(c, key).Some? && StrToDatetime(c, key).None?
  {
  }

  /**
   * `isoformat()` leaves out the fraction when the microseconds are zero. Such a stamp is
   * read back by the pruning parser but refused by the strict scanning format.
   */
  lemma WholeSecondStamp(c: Codec, t: int)
    requires c.number(c.isoFormat(t)) == None
    requires c.isoLenient(c.isoFormat(t)) == Some(t)
    requires c.isoStrict(c.isoFormat(t)) == None
    ensures ParseForPrune(c, c.isoFormat(t)) == Some(Finite(t))
    ensures StrToDatetime(c, c.isoFormat(t)) == None
  {
  }
}
