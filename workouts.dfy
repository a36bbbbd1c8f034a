/**
 * The data the handler works on: the request envelope, parsed JSON values,
 * the workout record and its store key, the response envelope, and the
 * library behaviours (JSON decoding and Python's `str`, `int` and
 * `Decimal(str(...))` conversions) that the handler calls but does not define.
 */
module Workouts {

  /** A JSON value as `json.loads` returns it; a number keeps its numeral text. */
  datatype Json =
    | JNull
    | JBool(b: bool)
    | JNum(numeral: string)
    | JStr(s: string)
    | JArr(elems: seq<Json>)
    | JObj(fields: map<string, Json>)

  /** An exact decimal number: `coefficient * 10^exponent`. */
  datatype Decimal = Decimal(coefficient: int, exponent: int)

  /** A persisted workout; every stored record has all seven attributes. */
  datatype Workout = Workout(
    userId: string,
    workoutId: string,
    exercise: string,
    reps: int,
    weight: Decimal,
    notes: string,
    createdAt: string)

  /** The store's two-part key: partition key `userId`, sort key `workoutId`. */
  datatype Key = Key(userId: string, workoutId: string)

  function KeyOf(w: Workout): Key {
    Key(w.userId, w.workoutId)
  }

  /**
   * An exception the handler raises and the outermost boundary turns into a
   * 500 response. The text of library messages is whatever the library says.
   */
  datatype Fault =
    | LibraryFault(message: string)  // raised by json.loads, int(...) or Decimal(...)
    | NotIterable(value: Json)       // `key in value` on a number, boolean or null
    | NotSubscriptable(value: Json)  // `value["key"]` on an array or a string

  datatype Result<T> = Ok(value: T) | Err(fault: Fault)

  /**
   * The library behaviours the handler calls: `json.loads`, `str(x)`,
   * `int(x)` and `Decimal(str(x))`. Each may fail except `str`.
   */
  datatype Runtime = Runtime(
    decode: string -> Result<Json>,
    str: Json -> string,
    toInt: Json -> Result<int>,
    toDecimal: Json -> Result<Decimal>)

  /**
   * The request envelope, with each field the handler reads made explicit:
   * `requestContext.http.method`, `rawPath`, `path`, `requestContext.stage`,
   * `queryStringParameters` and `body`. `None` is an absent field.
   */
  datatype Event = Event(
    httpMethod: Option<string>,
    rawPath: Option<string>,
    path: Option<string>,
    stage: Option<string>,
    query: Option<map<string, string>>,
    body: Option<string>)

  datatype Option<T> = None | Some(value: T) {
    function GetOr(default: T): T {
      if Some? then value else default
    }
  }

  /** The structured body of a response, before JSON serialisation. */
  datatype Body =
    | HealthReport(ok: bool, service: string)
    | Created(message: string, item: Workout)
    | Listing(count: int, items: seq<Workout>)
    | Deleted(message: string, workoutId: string)
    | RouteNotFound(error: string, path: string, httpMethod: string)
    | ClientError(error: string)
    | ServerError(fault: Fault)

  datatype Response = Response(statusCode: int, headers: map<string, string>, body: Body)
}
