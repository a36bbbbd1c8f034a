/**
 * `lambda_handler`: normalises the request, dispatches on the route table,
 * runs the route against the workouts table, and turns any exception raised
 * on the way into a 500 response.
 */
module Handler {
  import opened PyStr
  import opened Workouts
  import opened Normalize
  import opened Routing
  import opened Store
  import opened Ordering

  /**
   * POST /workouts: a 400 listing every missing key, or the new item stored
   * under `(str(userId), workoutId)` and echoed with 201. A fault leaves the
   * table as it was.
   */
  method CreateWorkoutRoute(table: Table, e: Event, rt: Runtime, workoutId: string, now: string)
    returns (r: Result<Response>)
    requires table.Valid()
    modifies table
    ensures table.Valid()
    ensures PlanCreate(e, rt, workoutId, now).Err? ==>
      r == Err(PlanCreate(e, rt, workoutId, now).fault) && table.items == old(table.items)
    ensures PlanCreate(e, rt, workoutId, now).Ok? && PlanCreate(e, rt, workoutId, now).value.Reject? ==>
      && r == Ok(MakeResponse(400, ClientError(MissingMessage(PlanCreate(e, rt, workoutId, now).value.missing))))
      && table.items == old(table.items)
    ensures PlanCreate(e, rt, workoutId, now).Ok? && PlanCreate(e, rt, workoutId, now).value.Insert? ==>
      var item := PlanCreate(e, rt, workoutId, now).value.item;
      && r == Ok(MakeResponse(201, Created("Workout created successfully", item)))
      && table.items == old(table.items)[KeyOf(item) := item]
  {
    var plan := PlanCreate(e, rt, workoutId, now);
    match plan
    case Err(f) =>
      r := Err(f);
    case Ok(Reject(missing)) =>
      r := Ok(MakeResponse(400, ClientError(MissingMessage(missing))));
    case Ok(Insert(item)) =>
      table.PutItem(item);
      r := Ok(MakeResponse(201, Created("Workout created successfully", item)));
  }

  /**
   * GET /workouts: a 400 without a non-empty `userId`, else every stored
   * record of that user once, most recent first, with its count.
   */
  method ListWorkoutsRoute(table: Table, e: Event) returns (resp: Response)
    requires table.Valid()
    ensures UserIdParam(e).None? ==> resp == MakeResponse(400, ClientError(ProvideUserId))
    ensures UserIdParam(e).Some? ==>
      && HasStandardHeaders(resp) && resp.statusCode == 200 && resp.body.Listing?
      && resp.body.count == |resp.body.items| == |Partition(table.items, UserIdParam(e).value)|
      && SortedDesc(resp.body.items)
      && multiset(resp.body.items) == multiset(Partition(table.items, UserIdParam(e).value).Values)
  {
    var userId := UserIdParam(e);
    if userId.None? {
      return MakeResponse(400, ClientError(ProvideUserId));
    }
    var found := table.Query(userId.value);
    var a := new Workout[|found|](i requires 0 <= i < |found| => found[i]);
    assert a[..] == found;
    SortByCreatedAtDesc(a);
    var items := a[..];
    ListsPartition(table.items, userId.value, items);
    resp := MakeResponse(200, Listing(|items|, items));
  }

  /**
   * DELETE /workouts/{id}: a 400 without a non-empty `userId`, else the key
   * `(userId, workoutId)` is gone and every other entry is untouched; 200 in
   * both cases whether or not the key was there.
   */
  method DeleteWorkoutRoute(table: Table, e: Event, workoutId: string) returns (resp: Response)
    requires table.Valid()
    modifies table
    ensures table.Valid()
    ensures UserIdParam(e).None? ==>
      resp == MakeResponse(400, ClientError(ProvideUserId)) && table.items == old(table.items)
    ensures UserIdParam(e).Some? ==>
      && resp == MakeResponse(200, Deleted("Workout deleted", workoutId))
      && table.items == old(table.items) - {Key(UserIdParam(e).value, workoutId)}
  {
    var userId := UserIdParam(e);
    if userId.None? {
      return MakeResponse(400, ClientError(ProvideUserId));
    }
    table.DeleteItem(Key(userId.value, workoutId));
    resp := MakeResponse(200, Deleted("Workout deleted", workoutId));
  }

  /**
   * The handler. `workoutId` and `now` stand for `str(uuid.uuid4())` and the
   * current UTC time in ISO-8601, which the create route consumes.
   */
  method LambdaHandler(table: Table, e: Event, rt: Runtime, workoutId: string, now: string)
    returns (resp: Response)
    requires table.Valid()
    modifies table
    ensures table.Valid()
    ensures HasStandardHeaders(resp)
    ensures resp.statusCode in {200, 201, 400, 404, 500}
    ensures resp.statusCode in {400, 404, 500} ==> table.items == old(table.items)
    ensures resp.statusCode == 500 ==> resp.body.ServerError?
    ensures var (m, p) := MethodAndPath(e);
      RouteOf(m, p) == Health ==>
        resp == MakeResponse(200, HealthReport(true, Service)) && table.items == old(table.items)
    ensures var (m, p) := MethodAndPath(e);
      RouteOf(m, p) == NoRoute ==>
        resp == MakeResponse(404, RouteNotFound("Route not found", p, m)) && table.items == old(table.items)
    ensures var (m, p) := MethodAndPath(e);
      RouteOf(m, p) == CreateWorkout ==>
        match PlanCreate(e, rt, workoutId, now)
        case Err(f) => resp == MakeResponse(500, ServerError(f)) && table.items == old(table.items)
        case Ok(Reject(missing)) =>
          resp == MakeResponse(400, ClientError(MissingMessage(missing))) && table.items == old(table.items)
        case Ok(Insert(item)) =>
          && resp == MakeResponse(201, Created("Workout created successfully", item))
          && table.items == old(table.items)[KeyOf(item) := item]
          && (KeyOf(item) !in old(table.items) ==> |table.items| == |old(table.items)| + 1)
    ensures var (m, p) := MethodAndPath(e);
      RouteOf(m, p) == ListWorkouts ==>
        && table.items == old(table.items)
        && (UserIdParam(e).None? ==> resp == MakeResponse(400, ClientError(ProvideUserId)))
        && (UserIdParam(e).Some? ==>
          && resp.statusCode == 200 && resp.body.Listing?
          && resp.body.count == |resp.body.items| == |Partition(table.items, UserIdParam(e).value)|
          && SortedDesc(resp.body.items)
          && multiset(resp.body.items) == multiset(Partition(table.items, UserIdParam(e).value).Values))
    ensures var (m, p) := MethodAndPath(e);
      RouteOf(m, p).DeleteWorkout? ==>
        && (UserIdParam(e).None? ==>
          resp == MakeResponse(400, ClientError(ProvideUserId)) && table.items == old(table.items))
        && (UserIdParam(e).Some? ==>
          && resp == MakeResponse(200, Deleted("Workout deleted", RouteOf(m, p).workoutId))
          && table.items == old(table.items) - {Key(UserIdParam(e).value, RouteOf(m, p).workoutId)})
  {
    var (m, p) := MethodAndPath(e);
    var outcome: Result<Response>;
    match RouteOf(m, p) {
    case Health =>
      outcome := Ok(MakeResponse(200, HealthReport(true, Service)));
    case CreateWorkout =>
      outcome := CreateWorkoutRoute(table, e, rt, workoutId, now);
    case ListWorkouts =>
      var r := ListWorkoutsRoute(table, e);
      outcome := Ok(r);
    case DeleteWorkout(id) =>
      var r := DeleteWorkoutRoute(table, e, id);
      outcome := Ok(r);
    case NoRoute =>
      outcome := Ok(MakeResponse(404, RouteNotFound("Route not found", p, m)));
    }
    resp := match outcome
      case Ok(r) => r
      case Err(f) => MakeResponse(500, ServerError(f));
  }

  /** The body `{"userId": "u1", "exercise": "squat", "reps": 5, "weight": 100.5}` as decoded. */
  function SquatFields(): map<string, Json> {
    map["userId" := JStr("u1"), "exercise" := JStr("squat"), "reps" := JNum("5"), "weight" := JNum("100.5")]
  }

  /** Conversions that behave as Python's on the values of the squat body. */
  predicate ConvertsSquat(rt: Runtime, body: string) {
    && body != ""
    && rt.decode(body) == Ok(JObj(SquatFields()))
    && rt.str(JStr("u1")) == "u1" && rt.str(JStr("squat")) == "squat"
    && rt.toInt(JNum("5")) == Ok(5) && rt.toDecimal(JNum("100.5")) == Ok(Decimal(1005, -1))
  }

  lemma SquatPlan(rt: Runtime, body: string, workoutId: string, now: string)
    requires ConvertsSquat(rt, body)
    ensures var post := Event(Some("POST"), Some("/workouts"), None, None, None, Some(body));
      && RouteOf(MethodAndPath(post).0, MethodAndPath(post).1) == CreateWorkout
      && PlanCreate(post, rt, workoutId, now) ==
         Ok(Insert(Workout("u1", workoutId, "squat", 5, Decimal(1005, -1), "", now)))
  {
  }

  /** A table holding one record lists exactly that record for its user. */
  lemma ListsSingle(m: map<Key, Workout>, w: Workout, items: seq<Workout>)
    requires m == map[KeyOf(w) := w]
    requires multiset(items) == multiset(Partition(m, w.userId).Values)
    ensures items == [w]
  {
    assert Partition(m, w.userId) == m;
    assert m.Values == {w};
    assert |items| == 1 && items[0] in multiset(items);
  }

  /**
   * POST /workouts with the squat body on an empty table, then
   * GET /workouts?userId=u1: the listing holds exactly the created item, as
   * the conversions produced it.
   */
  method CreateThenList(rt: Runtime, body: string, workoutId: string, now: string)
    returns (created: Response, listed: Response)
    requires ConvertsSquat(rt, body)
    ensures created.statusCode == 201 && created.body.Created?
    ensures created.body.item == Workout("u1", workoutId, "squat", 5, Decimal(1005, -1), "", now)
    ensures listed.statusCode == 200 && listed.body == Listing(1, [created.body.item])
  {
    var table := new Table();
    var post := Event(Some("POST"), Some("/workouts"), None, None, None, Some(body));
    SquatPlan(rt, body, workoutId, now);
    created := LambdaHandler(table, post, rt, workoutId, now);
    var w := Workout("u1", workoutId, "squat", 5, Decimal(1005, -1), "", now);
    var get := Event(Some("GET"), Some("/workouts"), None, None, Some(map["userId" := "u1"]), None);
    assert MethodAndPath(get) == ("GET", "/workouts");
    listed := LambdaHandler(table, get, rt, workoutId, now);
    ListsSingle(table.items, w, listed.body.items);
  }
}
