/** utils/validators.py: the user payload projections. The input is the
    keyword dictionary a handler passes (`from_user.__dict__`); the output is
    `model_dump()` of UserCreate, or `model_dump(exclude_unset=True)` of
    UserUpdate. */
module Validators {
  import opened Results
  import opened Values
  import opened Exceptions

  const CreateFields: set<string> := {"id", "username", "first_name", "last_name"}
  const UpdateFields: set<string> := {"username", "first_name", "last_name"}

  /** An `Optional[str]` field: absent, a string, or None. */
  predicate OptionalString(data: map<string, Value>, key: string) {
    key !in data || data[key].StrVal? || data[key].NoneVal?
  }

  /** A required `str` field. */
  predicate RequiredString(data: map<string, Value>, key: string) {
    key in data && data[key].StrVal?
  }

  /** What UserCreate accepts: an int `id`, a str `first_name`, optional str
      `username` and `last_name`; other keys are ignored. */
  predicate CreateAccepts(data: map<string, Value>) {
    && "id" in data && data["id"].IntVal?
    && RequiredString(data, "first_name")
    && OptionalString(data, "username")
    && OptionalString(data, "last_name")
  }

  /** What UserUpdate accepts: like UserCreate without `id`. */
  predicate UpdateAccepts(data: map<string, Value>) {
    && RequiredString(data, "first_name")
    && OptionalString(data, "username")
    && OptionalString(data, "last_name")
  }

  /** A complete user record: what a successful create projection holds. */
  predicate IsUserRecord(d: map<string, Value>) {
    && d.Keys == CreateFields
    && d["id"].IntVal?
    && d["first_name"].StrVal?
    && (d["username"].StrVal? || d["username"].NoneVal?)
    && (d["last_name"].StrVal? || d["last_name"].NoneVal?)
  }

  /** A partial update: a subset of the update fields, well typed. */
  predicate IsUserPatch(p: map<string, Value>) {
    && p.Keys <= UpdateFields
    && ("first_name" in p ==> p["first_name"].StrVal?)
    && OptionalString(p, "username")
    && OptionalString(p, "last_name")
  }

  function ValidateUserDataCreate(data: map<string, Value>): (r: Result<map<string, Value>, Error>)
    ensures r.Ok? <==> CreateAccepts(data)
    ensures r.Err? ==> r.error == ValidationError
    ensures r.Ok? ==> IsUserRecord(r.value)
    ensures r.Ok? ==> forall k | k in r.value && k in data :: r.value[k] == data[k]
    ensures r.Ok? ==> forall k | k in r.value && k !in data :: r.value[k] == NoneVal
  {
    if CreateAccepts(data) then
      Ok(map k | k in CreateFields :: if k in data then data[k] else NoneVal)
    else
      Err(ValidationError)
  }

  function ValidateUserDataUpdate(data: map<string, Value>): (r: Result<map<string, Value>, Error>)
    ensures r.Ok? <==> UpdateAccepts(data)
    ensures r.Err? ==> r.error == ValidationError
    ensures r.Ok? ==> IsUserPatch(r.value) && "id" !in r.value && "first_name" in r.value
    ensures r.Ok? ==> r.value.Keys == data.Keys * UpdateFields
    ensures r.Ok? ==> forall k | k in r.value :: r.value[k] == data[k]
  {
    if UpdateAccepts(data) then
      Ok(map k | k in UpdateFields && k in data :: data[k])
    else
      Err(ValidationError)
  }

  /** Keys outside the model are ignored: adding one changes nothing. */
  lemma ExtraKeysIgnored(data: map<string, Value>, key: string, v: Value)
    requires key !in CreateFields
    ensures ValidateUserDataCreate(data[key := v]) == ValidateUserDataCreate(data)
    ensures ValidateUserDataUpdate(data[key := v]) == ValidateUserDataUpdate(data)
  {
    var d := data[key := v];
    assert CreateAccepts(d) == CreateAccepts(data);
    assert UpdateAccepts(d) == UpdateAccepts(data);
    if CreateAccepts(data) {
      assert ValidateUserDataCreate(d).value == ValidateUserDataCreate(data).value;
    }
    if UpdateAccepts(data) {
      assert ValidateUserDataUpdate(d).value == ValidateUserDataUpdate(data).value;
    }
  }

  /** Validating a projection again gives it back unchanged. */
  lemma ProjectionsIdempotent(data: map<string, Value>)
    ensures CreateAccepts(data) ==>
      ValidateUserDataCreate(ValidateUserDataCreate(data).value) == ValidateUserDataCreate(data)
    ensures UpdateAccepts(data) ==>
      ValidateUserDataUpdate(ValidateUserDataUpdate(data).value) == ValidateUserDataUpdate(data)
  {
    if CreateAccepts(data) {
      var once := ValidateUserDataCreate(data).value;
      assert ValidateUserDataCreate(once).value == once;
    }
    if UpdateAccepts(data) {
      var once := ValidateUserDataUpdate(data).value;
      assert ValidateUserDataUpdate(once).value == once;
    }
  }

  /** Whatever create accepts, update accepts too, and the update projection
      is the create projection restricted to the keys actually supplied,
      without `id`. */
  lemma UpdateIsRestrictedCreate(data: map<string, Value>)
    requires CreateAccepts(data)
    ensures UpdateAccepts(data)
    ensures var c := ValidateUserDataCreate(data).value;
            var u := ValidateUserDataUpdate(data).value;
            u.Keys == c.Keys * data.Keys - {"id"} && forall k | k in u :: u[k] == c[k]
  {
  }
}
