/** The request checks of `POST /faculty` and `POST /schedules`: required
    fields tested for JavaScript truthiness, the role whitelist and the
    six-boolean `days` object. */
module Validation {
  import opened Wrappers
  import opened Days

  /** A value of a parsed JSON request body. Numbers are kept as exact
      reals: only whether they are zero matters here. */
  datatype Json = Null | Bool(b: bool) | Num(n: real) | Str(s: string) | Arr(items: seq<Json>) | Obj(fields: map<string, Json>)

  /** A request body: the members of the JSON object Express parsed. */
  type Body = map<string, Json>

  /** Destructuring `req.body`: a missing member reads as `undefined` (`None`). */
  function Field(body: Body, key: string): (v: Option<Json>)
    ensures v.Some? <==> key in body
    ensures v.Some? ==> v.value == body[key]
  {
    if key in body then Some(body[key]) else None
  }

  /** JavaScript truthiness: `undefined`, `null`, `false`, `0` and `""`
      are falsy, everything else (objects and arrays included) is truthy. */
  predicate Truthy(v: Option<Json>) {
    match v
    case None => false
    case Some(Null) => false
    case Some(Bool(b)) => b
    case Some(Num(n)) => n != 0.0
    case Some(Str(s)) => s != ""
    case Some(Arr(_)) => true
    case Some(Obj(_)) => true
  }

  /** Exactly five values are falsy. */
  lemma FalsyValues(v: Option<Json>)
    ensures !Truthy(v) <==>
      v == None || v == Some(Null) || v == Some(Bool(false)) || v == Some(Num(0.0)) || v == Some(Str(""))
  {
  }

  /** Why a request was refused with status 400. */
  datatype Rejection = MissingFields | InvalidRole | InvalidDays

  /** The two handlers whose checks are modelled. */
  datatype Endpoint = CreateFaculty | CreateSchedule

  /** The status and message a handler answers a refusal with. */
  function Reply(at: Endpoint, r: Rejection): (reply: (int, string))
    ensures reply.0 == 400
  {
    match r
    case MissingFields =>
      if at == CreateFaculty then (400, "Please provide all required fields, including role")
      else (400, "Please provide all required fields including semester dates and days.")
    case InvalidRole => (400, "Invalid role.")
    case InvalidDays => (400, "Invalid days format.")
  }

  /** The message of each refusal the two handlers send. */
  lemma ReplyMessages()
    ensures Reply(CreateFaculty, MissingFields) == (400, "Please provide all required fields, including role")
    ensures Reply(CreateFaculty, InvalidRole) == (400, "Invalid role.")
    ensures Reply(CreateSchedule, MissingFields)
      == (400, "Please provide all required fields including semester dates and days.")
    ensures Reply(CreateSchedule, InvalidDays) == (400, "Invalid days format.")
  {
  }

  // ------------------------------------------------------------ POST /faculty

  /** The members `POST /faculty` requires; `middle_name` is optional. */
  const FacultyRequired: seq<string> := ["last_name", "first_name", "username", "email", "password", "role"]

  /** The roles an account may be created with. */
  const ValidRoles: seq<string> := ["superadmin", "instructor", "programchairperson", "dean"]

  /** `validRoles.includes(role)`: strict equality with one of the strings,
      so only a string value can be accepted. */
  predicate RoleAccepted(role: Option<Json>) {
    role.Some? && role.value.Str? && role.value.s in ValidRoles
  }

  /** Some required member is falsy. */
  predicate AnyMissing(body: Body, keys: seq<string>) {
    exists k :: k in keys && !Truthy(Field(body, k))
  }

  /** The checks of `POST /faculty` before any database access: `None`
      when the request goes on to the duplicate checks. */
  function CheckFaculty(body: Body): (r: Option<Rejection>)
    ensures r == Some(MissingFields) <==> exists k :: k in FacultyRequired && !Truthy(Field(body, k))
    ensures r == Some(InvalidRole) <==>
      (forall k :: k in FacultyRequired ==> Truthy(Field(body, k))) && !RoleAccepted(Field(body, "role"))
    ensures r.None? <==>
      (forall k :: k in FacultyRequired ==> Truthy(Field(body, k))) && RoleAccepted(Field(body, "role"))
  {
    if AnyMissing(body, FacultyRequired) then Some(MissingFields)
    else if !RoleAccepted(Field(body, "role")) then Some(InvalidRole)
    else None
  }

  /** The role check accepts exactly the four role strings. */
  lemma RoleWhitelist(role: string)
    ensures RoleAccepted(Some(Str(role))) <==>
      role == "superadmin" || role == "instructor" || role == "programchairperson" || role == "dean"
  {
  }

  /** A body holding every required member as a non-empty string passes the
      checks exactly when its role is one of the four. */
  lemma {:induction false} FacultyOfStrings(body: Body)
    requires forall k :: k in FacultyRequired ==> k in body && body[k].Str? && body[k].s != ""
    ensures CheckFaculty(body).None? <==> body["role"].s in ValidRoles
    ensures CheckFaculty(body) != Some(MissingFields)
  {
    assert "role" in FacultyRequired;
  }

  /** A body without `role` is refused for a missing field, never for its role. */
  lemma NoRoleIsMissing(body: Body)
    requires "role" !in body
    ensures CheckFaculty(body) == Some(MissingFields)
  {
    assert "role" in FacultyRequired;
  }

  // ---------------------------------------------------------- POST /schedules

  /** The members `POST /schedules` requires. */
  const ScheduleRequired: seq<string> := [
    "courseTitle", "courseCode", "instructor", "room", "startTime", "endTime",
    "days", "semesterStartDate", "semesterEndDate", "section"]

  /** The six keys of a `days` object. */
  const DayKeys: seq<string> := ["mon", "tue", "wed", "thu", "fri", "sat"]

  /** `days[day]` for one of the six day keys: the member of an object. A
      string, number, boolean or array has no property with any of these
      names, so it reads as `undefined`. */
  function Property(v: Json, key: string): (p: Option<Json>)
    ensures p.Some? <==> v.Obj? && key in v.fields
  {
    if v.Obj? && key in v.fields then Some(v.fields[key]) else None
  }

  /** `validDays.every(day => typeof days[day] === "boolean")`. */
  predicate DaysValid(days: Json) {
    forall k :: k in DayKeys ==> Property(days, k).Some? && Property(days, k).value.Bool?
  }

  /** The request's `days` member is present and passes the check. */
  predicate DaysMemberValid(body: Body) {
    "days" in body && DaysValid(body["days"])
  }

  /** The checks of `POST /schedules` before the record is saved: the
      required members first, then the shape of `days`. */
  function CheckSchedule(body: Body): (r: Option<Rejection>)
    ensures r == Some(MissingFields) <==> exists k :: k in ScheduleRequired && !Truthy(Field(body, k))
    ensures r == Some(InvalidDays) <==>
      (forall k :: k in ScheduleRequired ==> Truthy(Field(body, k))) && !DaysMemberValid(body)
    ensures r.None? <==>
      (forall k :: k in ScheduleRequired ==> Truthy(Field(body, k))) && DaysMemberValid(body)
    ensures r != Some(InvalidRole)
  {
    if AnyMissing(body, ScheduleRequired) then Some(MissingFields)
    else
      assert "days" in ScheduleRequired;
      if !DaysValid(body["days"]) then Some(InvalidDays)
      else None
  }

  /** A `days` object is accepted exactly when each of the six keys holds a
      boolean, whatever other members it has. */
  lemma DaysValidExactly(fields: map<string, Json>)
    ensures DaysValid(Obj(fields)) <==>
      && "mon" in fields && fields["mon"].Bool? && "tue" in fields && fields["tue"].Bool?
      && "wed" in fields && fields["wed"].Bool? && "thu" in fields && fields["thu"].Bool?
      && "fri" in fields && fields["fri"].Bool? && "sat" in fields && fields["sat"].Bool?
  {
    assert "mon" in DayKeys && "tue" in DayKeys && "wed" in DayKeys;
    assert "thu" in DayKeys && "fri" in DayKeys && "sat" in DayKeys;
  }

  /** A string, a number or an array is never a valid `days` value. */
  lemma DaysMustBeObject(days: Json)
    requires !days.Obj?
    ensures !DaysValid(days)
  {
    assert "mon" in DayKeys;
  }

  /** A mask as the JSON object the parser's drafts carry. */
  function DaysJson(m: DayMask): Json {
    Obj(map["mon" := Bool(m.mon), "tue" := Bool(m.tue), "wed" := Bool(m.wed),
            "thu" := Bool(m.thu), "fri" := Bool(m.fri), "sat" := Bool(m.sat)])
  }

  /** The mask an accepted `days` object stands for. */
  function MaskOf(days: Json): DayMask
    requires DaysValid(days)
  {
    assert "mon" in DayKeys && "tue" in DayKeys && "wed" in DayKeys;
    assert "thu" in DayKeys && "fri" in DayKeys && "sat" in DayKeys;
    DayMask(days.fields["mon"].b, days.fields["tue"].b, days.fields["wed"].b,
            days.fields["thu"].b, days.fields["fri"].b, days.fields["sat"].b)
  }

  /** Every mask the decoder builds passes the `days` check, and reads back
      as the same mask. */
  lemma DaysJsonAccepted(m: DayMask)
    ensures DaysValid(DaysJson(m)) && MaskOf(DaysJson(m)) == m
  {
  }

  /** An accepted `days` object agrees with the JSON of its mask on the six keys. */
  lemma AcceptedDaysAreAMask(days: Json)
    requires DaysValid(days)
    ensures forall k :: k in DayKeys ==> days.fields[k] == DaysJson(MaskOf(days)).fields[k]
  {
  }
}
