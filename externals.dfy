/**
 * The third-party functions the pipeline calls and whose code is not part of this
 * model (dayjs, numeral, the number/string conversions of the JavaScript runtime and the
 * repository's own helpers `cleanFlow` and `roundNToXDecimals`).  They are passed in as
 * total functions, so every property proved holds whatever they compute.
 */
module Externals {
  import opened Wrappers
  import opened Rows

  datatype Env = Env(
    /** `dayjs(x).isValid()` (for a missing value dayjs uses the current time). */
    isValidDate: Option<Value> -> bool,
    /** `dayjs(x).year()`, `.month()` (0-based) and `.week()` (weekOfYear plugin). */
    yearOf: Option<Value> -> int,
    monthOf: Option<Value> -> int,
    weekOf: Option<Value> -> int,
    /** `dayjs(x).format('ddd DD MMM YYYY')`, the scrape job's day label. */
    formatDay: Option<Value> -> string,
    /** `dayjs(x).format('ddd DD MMM YY')`, the charts' axis label. */
    formatTick: Option<Value> -> string,
    /** `dayjs.utc(x).hour(17).toDate()`, as milliseconds. */
    closeOfBusiness: Option<Value> -> int,
    /** `new Date(x).getTime()`. */
    timeOf: Option<Value> -> int,
    /** `numeral(s).value()`; `None` for null or NaN. */
    numeral: string -> Option<real>,
    /** `Number(s)` on a string; `None` for NaN. */
    numberOf: string -> Option<real>,
    /** `String(n)` on a number. */
    numberToString: real -> string,
    /** `cleanFlow(x)`: a cell to a finite number. */
    cleanFlow: Option<Value> -> real,
    /** `roundNToXDecimals(x)` and `roundNToXDecimals(x, 2)`. */
    roundDefault: real -> real,
    round2: real -> real
  )

  /** JavaScript `String(value)`. */
  function ToStr(v: Value, env: Env): string {
    match v
    case Str(s) => s
    case Num(x) => env.numberToString(x)
    case Null => "null"
  }

  /** `isNaN(Number(x)) ? 0 : Number(x)`. */
  function Clean(env: Env, v: Option<Value>): real {
    match ToNumber(v, env.numberOf)
    case None => 0.0
    case Some(x) => x
  }
}
