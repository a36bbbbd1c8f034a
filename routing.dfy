/**
 * The pure decisions of the handler: the response envelope, the fixed route
 * table, the query-parameter and delete-id extraction, and the validation and
 * construction of a new workout on create.
 */
module Routing {
  import opened PyStr
  import opened Workouts

  const ContentType := "Content-Type"
  const AllowOrigin := "Access-Control-Allow-Origin"
  const Service := "secure-fitness-api"
  const WorkoutsPath := "/workouts"
  const WorkoutsPrefix := "/workouts/"
  const ProvideUserId := "Provide ?userId=..."

  /** `response`: the status, the two fixed headers, and the body. */
  function MakeResponse(status: int, body: Body): (r: Response)
    ensures r.statusCode == status && r.body == body
    ensures r.headers.Keys == {ContentType, AllowOrigin}
    ensures r.headers[ContentType] == "application/json" && r.headers[AllowOrigin] == "*"
  {
    Response(status, map[ContentType := "application/json", AllowOrigin := "*"], body)
  }

  /** The headers every response carries. */
  predicate HasStandardHeaders(r: Response) {
    && r.headers.Keys == {ContentType, AllowOrigin}
    && r.headers[ContentType] == "application/json"
    && r.headers[AllowOrigin] == "*"
  }

  datatype Route = Health | CreateWorkout | ListWorkouts | DeleteWorkout(workoutId: string) | NoRoute

  /**
   * The route table, matched by literal, case-sensitive comparison: four
   * routes, of which only DELETE matches a path prefix, and a fallback.
   */
  function RouteOf(httpMethod: string, path: string): (r: Route)
    ensures r == Health <==> path == "/health" && httpMethod == "GET"
    ensures r == CreateWorkout <==> path == WorkoutsPath && httpMethod == "POST"
    ensures r == ListWorkouts <==> path == WorkoutsPath && httpMethod == "GET"
    ensures r.DeleteWorkout? <==> StartsWith(path, WorkoutsPrefix) && httpMethod == "DELETE"
    ensures r.DeleteWorkout? ==> r.workoutId == Strip(Before(path[|WorkoutsPrefix|..], WorkoutsPrefix))
    ensures r == NoRoute <==>
      && !(path == "/health" && httpMethod == "GET")
      && !(path == WorkoutsPath && (httpMethod == "POST" || httpMethod == "GET"))
      && !(StartsWith(path, WorkoutsPrefix) && httpMethod == "DELETE")
  {
    if path == "/health" && httpMethod == "GET" then Health
    else if path == WorkoutsPath && httpMethod == "POST" then CreateWorkout
    else if path == WorkoutsPath && httpMethod == "GET" then ListWorkouts
    else if StartsWith(path, WorkoutsPrefix) && httpMethod == "DELETE" then DeleteWorkout(DeleteId(path))
    else NoRoute
  }

  /**
   * `path.split("/workouts/")[1].strip()`: the text after the leading
   * `/workouts/` up to the next `/workouts/` (or the end), without surrounding
   * whitespace.
   */
  function DeleteId(path: string): (id: string)
    requires StartsWith(path, WorkoutsPrefix)
    ensures id == Strip(Before(path[|WorkoutsPrefix|..], WorkoutsPrefix))
  {
    SplitSecondPiece(path, WorkoutsPrefix);
    Strip(Split(path, WorkoutsPrefix)[1])
  }

  /**
   * `(event.get("queryStringParameters") or {}).get("userId")`, kept only
   * when it is a non-empty string.
   */
  function UserIdParam(e: Event): (u: Option<string>)
    ensures u.Some? <==> e.query.Some? && "userId" in e.query.value && e.query.value["userId"] != ""
    ensures u.Some? ==> u.value == e.query.value["userId"]
  {
    var qs := e.query.GetOr(map[]);
    if "userId" in qs && qs["userId"] != "" then Some(qs["userId"]) else None
  }

  /** The keys a create request must carry, in the order they are reported. */
  const Required: seq<string> := ["userId", "exercise", "reps", "weight"]

  /** `json.loads(event.get("body") or "{}")` */
  function DecodeBody(e: Event, rt: Runtime): (r: Result<Json>)
    ensures e.body.None? || e.body.value == "" ==> r == Ok(JObj(map[]))
    ensures e.body.Some? && e.body.value != "" ==> r == rt.decode(e.body.value)
  {
    if e.body.None? || e.body.value == "" then Ok(JObj(map[])) else rt.decode(e.body.value)
  }

  /** The values on which Python's `key in value` is defined. */
  predicate IsContainer(v: Json) {
    v.JObj? || v.JArr? || v.JStr?
  }

  /** `key in v` for a container: a key of an object, an element of an array, a substring of a string. */
  predicate Has(v: Json, key: string)
    requires IsContainer(v)
  {
    match v
    case JObj(fields) => key in fields
    case JArr(elems) => JStr(key) in elems
    case JStr(s) => Contains(s, key)
  }

  /**
   * Python's `key in v` on a decoded body: it raises on a number, a boolean
   * or null; otherwise it asks for a key of an object, an element of an array
   * or a substring of a string.
   */
  lemma InOperator(v: Json, key: string)
    ensures !IsContainer(v) <==> v.JNum? || v.JBool? || v.JNull?
    ensures v.JObj? ==> (Has(v, key) <==> key in v.fields)
    ensures v.JArr? ==> (Has(v, key) <==> exists i :: 0 <= i < |v.elems| && v.elems[i] == JStr(key))
    ensures v.JStr? ==> (Has(v, key) <==> exists x, y :: v.s == x + key + y)
  {
    if v.JStr? { ContainsIsSubstring(v.s, key); }
  }

  /** `[k for k in keys if k not in v]`, where `in` raises on a non-container. */
  function Missing(v: Json, keys: seq<string>): (r: Result<seq<string>>)
    ensures keys != [] ==> (r.Ok? <==> IsContainer(v))
    ensures r.Err? ==> r.fault == NotIterable(v)
    ensures r.Ok? ==> forall k :: k in r.value <==> k in keys && !Has(v, k)
    ensures r.Ok? ==> IsSubsequence(r.value, keys)
  {
    if keys == [] then Ok([])
    else if !IsContainer(v) then Err(NotIterable(v))
    else
      match Missing(v, keys[1..])
      case Err(f) => Err(f)
      case Ok(rest) => Ok(if Has(v, keys[0]) then rest else [keys[0]] + rest)
  }

  /** `a` is `b` with some elements left out, in the same order. */
  predicate IsSubsequence<T(==)>(a: seq<T>, b: seq<T>) {
    if a == [] then true
    else if b == [] then false
    else if a[0] == b[0] then IsSubsequence(a[1..], b[1..])
    else IsSubsequence(a, b[1..])
  }

  /** The 400 message: `f"Missing fields: {missing}"`, with Python's list display. */
  function MissingMessage(missing: seq<string>): (m: string)
    ensures StartsWith(m, "Missing fields: [") && m[|m| - 1] == ']'
  {
    "Missing fields: [" + Join(Quoted(missing), ", ") + "]"
  }

  /** The 400 message names every missing key, in quotes. */
  lemma MissingMessageNamesEach(missing: seq<string>)
    ensures forall k :: k in missing ==> Contains(MissingMessage(missing), "'" + k + "'")
  {
    var listed := Join(Quoted(missing), ", ");
    forall k | k in missing ensures Contains(MissingMessage(missing), "'" + k + "'") {
      var i :| 0 <= i < |missing| && missing[i] == k;
      JoinContains(Quoted(missing), ", ", i);
      ContainsWithin("Missing fields: [", listed, "]", "'" + k + "'");
    }
  }

  /** Each key in single quotes, as Python's `repr` of a plain `str` shows it. */
  function Quoted(keys: seq<string>): (q: seq<string>)
    ensures |q| == |keys|
    ensures forall i :: 0 <= i < |keys| ==> q[i] == "'" + keys[i] + "'"
  {
    if keys == [] then [] else ["'" + keys[0] + "'"] + Quoted(keys[1..])
  }

  /**
   * The item built from a body holding every required key: the server's
   * `workoutId` and `createdAt`, `userId`, `exercise` and `notes` through
   * `str`, `reps` through `int`, `weight` through `Decimal(str(...))`, with
   * `notes` defaulting to "". The first failing conversion is raised.
   */
  function BuildItem(fields: map<string, Json>, rt: Runtime, workoutId: string, now: string): (r: Result<Workout>)
    requires forall k :: k in Required ==> k in fields
    ensures r.Ok? <==> rt.toInt(fields["reps"]).Ok? && rt.toDecimal(fields["weight"]).Ok?
    ensures rt.toInt(fields["reps"]).Err? ==> r == Err(rt.toInt(fields["reps"]).fault)
    ensures rt.toInt(fields["reps"]).Ok? && rt.toDecimal(fields["weight"]).Err? ==>
      r == Err(rt.toDecimal(fields["weight"]).fault)
    ensures r.Ok? ==>
      && KeyOf(r.value) == Key(rt.str(fields["userId"]), workoutId)
      && r.value.exercise == rt.str(fields["exercise"])
      && rt.toInt(fields["reps"]) == Ok(r.value.reps)
      && rt.toDecimal(fields["weight"]) == Ok(r.value.weight)
      && r.value.notes == (if "notes" in fields then rt.str(fields["notes"]) else "")
      && r.value.createdAt == now
  {
    match rt.toInt(fields["reps"])
    case Err(f) => Err(f)
    case Ok(reps) =>
      match rt.toDecimal(fields["weight"])
      case Err(f) => Err(f)
      case Ok(weight) =>
        var notes := if "notes" in fields then rt.str(fields["notes"]) else "";
        Ok(Workout(rt.str(fields["userId"]), workoutId, rt.str(fields["exercise"]), reps, weight, notes, now))
  }

  /** What a create request leads to, short of touching the store. */
  datatype CreatePlan = Reject(missing: seq<string>) | Insert(item: Workout)

  /**
   * The create route up to the `put_item`: decode the body, report every
   * missing required key, else build the item; any exception on the way is
   * the result's fault.
   */
  function PlanCreate(e: Event, rt: Runtime, workoutId: string, now: string): (r: Result<CreatePlan>)
    ensures DecodeBody(e, rt).Err? ==> r == Err(DecodeBody(e, rt).fault)
    ensures DecodeBody(e, rt).Ok? && !IsContainer(DecodeBody(e, rt).value) ==>
      r == Err(NotIterable(DecodeBody(e, rt).value))
    ensures r.Ok? && r.value.Reject? ==>
      && DecodeBody(e, rt).Ok?
      && var body := DecodeBody(e, rt).value;
      && IsContainer(body)
      && r.value.missing != []
      && (forall k :: k in r.value.missing <==> k in Required && !Has(body, k))
      && IsSubsequence(r.value.missing, Required)
    ensures r.Ok? && r.value.Insert? ==>
      && DecodeBody(e, rt).Ok? && DecodeBody(e, rt).value.JObj?
      && var fields := DecodeBody(e, rt).value.fields;
      && (forall k :: k in Required ==> k in fields)
      && BuildItem(fields, rt, workoutId, now) == Ok(r.value.item)
    ensures DecodeBody(e, rt).Ok? && DecodeBody(e, rt).value.JObj? ==>
      var fields := DecodeBody(e, rt).value.fields;
      ((forall k :: k in Required ==> k in fields) <==> !(r.Ok? && r.value.Reject?))
    ensures DecodeBody(e, rt).Ok? ==>
      var body := DecodeBody(e, rt).value;
      body.JObj? && (forall k :: k in Required ==> k in body.fields) ==>
        var b := BuildItem(body.fields, rt, workoutId, now);
        && (r.Ok? <==> b.Ok?)
        && (b.Ok? ==> r.value == Insert(b.value))
        && (b.Err? ==> r.fault == b.fault)
    ensures DecodeBody(e, rt).Ok? ==>
      var body := DecodeBody(e, rt).value;
      IsContainer(body) && (exists k :: k in Required && !Has(body, k)) ==> r.Ok? && r.value.Reject?
    ensures DecodeBody(e, rt).Ok? ==>
      var body := DecodeBody(e, rt).value;
      (body.JArr? || body.JStr?) && (forall k :: k in Required ==> Has(body, k)) ==>
        r == Err(NotSubscriptable(body))
  {
    match DecodeBody(e, rt)
    case Err(f) => Err(f)
    case Ok(body) =>
      match Missing(body, Required)
      case Err(f) => Err(f)
      case Ok(missing) =>
        if missing != [] then
          assert missing[0] in missing;
          Ok(Reject(missing))
        else
          match body
          case JObj(fields) =>
            assert forall k :: k in Required ==> k in fields by {
              forall k | k in Required ensures k in fields { assert k !in missing; }
            }
            (match BuildItem(fields, rt, workoutId, now)
             case Err(f) => Err(f)
             case Ok(item) => Ok(Insert(item)))
          case _ => Err(NotSubscriptable(body))
  }

  /** A body that is an object misses exactly its absent required keys, in order. */
  lemma {:induction false} MissingFromObject(fields: map<string, Json>, keys: seq<string>)
    ensures Missing(JObj(fields), keys) == Ok(AbsentKeys(fields, keys))
  {
    if keys != [] { MissingFromObject(fields, keys[1..]); }
  }

  /** The keys of `keys` that `fields` lacks, in order. */
  function AbsentKeys(fields: map<string, Json>, keys: seq<string>): seq<string> {
    if keys == [] then []
    else if keys[0] in fields then AbsentKeys(fields, keys[1..])
    else [keys[0]] + AbsentKeys(fields, keys[1..])
  }

  lemma {:induction false} NothingPresent(keys: seq<string>)
    ensures AbsentKeys(map[], keys) == keys
  {
    if keys != [] { NothingPresent(keys[1..]); }
  }

  lemma QuotedRequired()
    ensures Quoted(Required) == ["'userId'", "'exercise'", "'reps'", "'weight'"]
  {
    var k1, k2, k3 := Required[1..], Required[2..], Required[3..];
    assert k3[1..] == [] && k3[0] == "weight" && k2[1..] == k3 && k2[0] == "reps" && k1[1..] == k2 && k1[0] == "exercise";
    assert Quoted(k3[1..]) == [];
    assert "'" + k3[0] + "'" == "'weight'";
    assert "'" + k2[0] + "'" == "'reps'";
    assert "'" + k1[0] + "'" == "'exercise'";
    assert "'" + Required[0] + "'" == "'userId'";
  }

  lemma JoinWeight()
    ensures Join(["'reps'", "'weight'"], ", ") == "'reps', 'weight'"
  {
    var q: seq<string> := ["'reps'", "'weight'"];
    assert q[1..] == ["'weight'"];
  }

  lemma JoinExercise()
    ensures Join(["'exercise'", "'reps'", "'weight'"], ", ") == "'exercise', 'reps', 'weight'"
  {
    var q: seq<string> := ["'exercise'", "'reps'", "'weight'"];
    assert q[1..] == ["'reps'", "'weight'"];
    JoinWeight();
  }

  lemma JoinQuotedRequired()
    ensures Join(["'userId'", "'exercise'", "'reps'", "'weight'"], ", ") == "'userId', 'exercise', 'reps', 'weight'"
  {
    var q: seq<string> := ["'userId'", "'exercise'", "'reps'", "'weight'"];
    assert q[1..] == ["'exercise'", "'reps'", "'weight'"];
    JoinExercise();
  }

  /** An empty body misses all four required keys. */
  lemma EmptyBodyMissesAll()
    ensures Missing(JObj(map[]), Required) == Ok(Required)
  {
    MissingFromObject(map[], Required);
    NothingPresent(Required);
  }

  /** The four missing keys are reported together, in Python's list display. */
  lemma MissingMessageOfAll()
    ensures MissingMessage(Required) == "Missing fields: [" + "'userId', 'exercise', 'reps', 'weight'" + "]"
  {
    QuotedRequired();
    JoinQuotedRequired();
  }
}
