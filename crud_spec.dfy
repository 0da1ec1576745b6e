/** db/crud.py as functions on a snapshot of the four tables. Each operation
    gives its result (a record or the error it raises) and the tables after
    the call; an operation that fails returns the tables it was given, which
    is what the source's rollback restores. */
module CrudSpec {
  import opened Results
  import opened Values
  import opened Exceptions
  import opened Models
  import opened Validators

  /** The database: four tables and the next auto-increment score id. */
  datatype Db = Db(
    users: map<int, User>,
    subjects: map<string, Subject>,
    subscriptions: map<SubKey, Subscription>,
    scores: map<int, ScoreRow>,
    nextScoreId: int)

  /** Table keys agree with their rows; every subscription names a subject
      that exists (subjects are never deleted and are checked before a
      subscription is written); every score id lies below the counter. */
  predicate WellFormed(db: Db) {
    && UsersKeyed(db.users)
    && SubjectsKeyed(db.subjects)
    && SubscriptionsKeyed(db.subscriptions)
    && (forall k | k in db.subscriptions :: k.1 in db.subjects)
    && ScoresKeyed(db.scores)
    && (forall k | k in db.scores :: k < db.nextScoreId)
  }

  const EmptyDb := Db(map[], map[], map[], map[], 1)

  /** The result of one call and the tables after it. */
  datatype Step<T> = Step(result: Result<T, Error>, db: Db)

  /** `try: ... except IntegrityError: rollback; raise CrudError(message)`. */
  function Fail<T>(db: Db, e: Error): Step<T> {
    Step(Err(e), db)
  }

  /** The Value an int id is passed as. */
  function Id(i: int): Value {
    IntVal(i)
  }

  function OptStr(v: Value): Option<string> {
    if v.StrVal? then Some(v.s) else None
  }

  /** `User(**user_data)` for a validated create projection. */
  function UserRow(d: map<string, Value>): (u: User)
    requires IsUserRecord(d)
    ensures Id(u.id) == d["id"] && StrVal(u.firstName) == d["first_name"]
  {
    User(d["id"].i, OptStr(d["username"]), d["first_name"].s, OptStr(d["last_name"]))
  }

  /** `UPDATE users SET <patch>`: the supplied columns change, the rest stay. */
  function PatchUser(u: User, p: map<string, Value>): User
    requires IsUserPatch(p)
  {
    u.(username := if "username" in p then OptStr(p["username"]) else u.username,
       firstName := if "first_name" in p then p["first_name"].s else u.firstName,
       lastName := if "last_name" in p then OptStr(p["last_name"]) else u.lastName)
  }

  // ---------------------------------------------------------------- users

  /** create_user: validate, insert, and on a duplicate key roll back and
      raise UserAlreadyExistsError with the given id. */
  function CreateUser(db: Db, data: map<string, Value>): Step<User> {
    match ValidateUserDataCreate(data)
    case Err(e) => Fail(db, e)
    case Ok(d) =>
      var u := UserRow(d);
      if u.id in db.users then Fail(db, UserAlreadyExistsError(d["id"]))
      else Step(Ok(u), db.(users := db.users[u.id := u]))
  }

  /** get_user_by_id. The id is a Value because update_user passes
      `update_data.get("id")`, which may be None; a non-integer id matches no
      row. */
  function GetUserById(db: Db, id: Value): Result<User, Error> {
    if id.IntVal? && id.i in db.users then Ok(db.users[id.i]) else Err(UserNotFoundError(id))
  }

  /** The write half of update_user (the UPDATE ... RETURNING and its
      handler). A row missing at this point raises UserNotFoundError inside
      the `try`, which `except SQLAlchemyError` turns into a CrudError. */
  function UpdateUserWrite(db: Db, id: int, p: map<string, Value>): Step<User>
    requires IsUserPatch(p)
  {
    if id in db.users then
      var u := PatchUser(db.users[id], p);
      Step(Ok(u), db.(users := db.users[id := u]))
    else
      Fail(db, RewrapStorageError(UserNotFoundError(Id(id)), "Failed to update user"))
  }

  /** update_user: the existence check first, then the validation, then the
      write. */
  function UpdateUser(db: Db, data: map<string, Value>): Step<User> {
    var id := if "id" in data then data["id"] else NoneVal;
    match GetUserById(db, id)
    case Err(e) => Fail(db, e)
    case Ok(_) =>
      match ValidateUserDataUpdate(data)
      case Err(e) => Fail(db, e)
      case Ok(p) => UpdateUserWrite(db, id.i, p)
  }

  /** create_or_update_user: insert, and on UserAlreadyExistsError update
      with the same payload. */
  function CreateOrUpdateUser(db: Db, data: map<string, Value>): Step<User> {
    var created := CreateUser(db, data);
    if created.result.Err? && Catches(UserAlreadyExists, created.result.error) then
      if "id" !in data then Fail(created.db, ValueError("id is required for update"))
      else UpdateUser(created.db, data)
    else created
  }

  /** delete_user: only the user row goes; database-level cascades are not
      part of this model. */
  function DeleteUser(db: Db, id: int): Step<()> {
    if id !in db.users then Fail(db, UserNotFoundError(Id(id)))
    else Step(Ok(()), db.(users := db.users - {id}))
  }

  // --------------------------------------------------------------- scores

  function GetScoreById(db: Db, scoreId: int): Result<ScoreRow, Error> {
    if scoreId in db.scores then Ok(db.scores[scoreId]) else Err(ScoreNotFoundError(Id(scoreId)))
  }

  /** Insert a score row: a NOT NULL violation is an IntegrityError, rolled
      back and raised as a CrudError; otherwise the row gets the next id.
      Foreign keys are not checked. */
  function InsertScore(db: Db, d: ScoreDraft, now: int): Step<ScoreRow> {
    if !SatisfiesNotNull(d) then Fail(db, CrudError("Failed to add score"))
    else
      var row := Stored(d, db.nextScoreId, now);
      Step(Ok(row), db.(scores := db.scores[row.id := row], nextScoreId := db.nextScoreId + 1))
  }

  /** add_score as written: `Scores(user_id=id, subject_id=subject_id,
      score=score)` leaves the required subject_name unset. */
  function AddScore(db: Db, id: int, subjectId: string, score: int, now: int): Step<ScoreRow> {
    InsertScore(db, PlainScoreDraft(id, subjectId, None, score), now)
  }

  /** add_score with the subject name passed through, as its callers expect. */
  function AddScoreNamed(db: Db, id: int, subjectId: string, subjectName: string, score: int, now: int): Step<ScoreRow> {
    InsertScore(db, PlainScoreDraft(id, subjectId, Some(subjectName), score), now)
  }

  /** edit_existing_score as written: there is no existence check, so a
      missing id raises ScoreNotFoundError inside the `try`, which
      `except SQLAlchemyError` turns into a CrudError. */
  function EditExistingScore(db: Db, scoreId: int, value: int): Step<ScoreRow> {
    if scoreId in db.scores then
      var row := db.scores[scoreId].(score := value);
      Step(Ok(row), db.(scores := db.scores[scoreId := row]))
    else
      Fail(db, RewrapStorageError(ScoreNotFoundError(Id(scoreId)), "Failed to update score"))
  }

  /** edit_existing_score with the ScoreNotFoundError it raises reaching the
      caller. */
  function EditExistingScoreIntended(db: Db, scoreId: int, value: int): Step<ScoreRow> {
    if scoreId in db.scores then
      var row := db.scores[scoreId].(score := value);
      Step(Ok(row), db.(scores := db.scores[scoreId := row]))
    else
      Fail(db, ScoreNotFoundError(Id(scoreId)))
  }

  function DeleteScoreById(db: Db, scoreId: int): Step<()> {
    match GetScoreById(db, scoreId)
    case Err(e) => Fail(db, e)
    case Ok(_) => Step(Ok(()), db.(scores := db.scores - {scoreId}))
  }

  /** The subject filter applies only when subject_id is truthy. */
  predicate ScoreMatches(row: ScoreRow, id: int, subjectId: Option<string>) {
    row.userId == id && (subjectId.Some? && subjectId.value != "" ==> row.subjectId == subjectId.value)
  }

  function MatchingScores(db: Db, id: int, subjectId: Option<string>): set<ScoreRow> {
    set k | k in db.scores && ScoreMatches(db.scores[k], id, subjectId) :: db.scores[k]
  }

  predicate Distinct<T(==)>(s: seq<T>) {
    forall i, j | 0 <= i < j < |s| :: s[i] != s[j]
  }

  /** get_all_scores_for_user: the query has no ORDER BY, so the result is any
      listing of the matching rows, each once; an empty result raises
      ScoreNotFoundError() with no identifier. */
  predicate IsScoresForUser(db: Db, id: int, subjectId: Option<string>, r: Result<seq<ScoreRow>, Error>) {
    if id !in db.users then r == Err(UserNotFoundError(Id(id)))
    else if MatchingScores(db, id, subjectId) == {} then r == Err(ScoreNotFoundError(NoneVal))
    else r.Ok? && Distinct(r.value) && (set x | x in r.value) == MatchingScores(db, id, subjectId)
  }

  // ------------------------------------------------------------- subjects

  predicate DistinctIds(catalog: seq<(string, string)>) {
    forall i, j | 0 <= i < j < |catalog| :: catalog[i].0 != catalog[j].0
  }

  /** `Subject(id=subject_id, name=name)` per catalog entry, max_score 100. */
  function CatalogSubjects(catalog: seq<(string, string)>): seq<Subject> {
    seq(|catalog|, i requires 0 <= i < |catalog| => Subject(catalog[i].0, catalog[i].1, DefaultMaxScore))
  }

  function CatalogTable(catalog: seq<(string, string)>): map<string, Subject>
    requires DistinctIds(catalog)
  {
    map i | 0 <= i < |catalog| :: catalog[i].0 := Subject(catalog[i].0, catalog[i].1, DefaultMaxScore)
  }

  /** create_subjects: one commit for the whole catalog; a catalog id already
      stored makes it fail as a whole. */
  function CreateSubjects(db: Db, catalog: seq<(string, string)>): Step<seq<Subject>>
    requires DistinctIds(catalog)
  {
    if exists i | 0 <= i < |catalog| :: catalog[i].0 in db.subjects then
      Fail(db, CrudError("Failed to create subjects"))
    else
      Step(Ok(CatalogSubjects(catalog)), db.(subjects := db.subjects + CatalogTable(catalog)))
  }

  function GetSubjectById(db: Db, subjectId: string): Result<Subject, Error> {
    if subjectId in db.subjects then Ok(db.subjects[subjectId]) else Err(SubjectNotFoundError(StrVal(subjectId)))
  }

  /** The existence checks that run, in this order, before any write on a
      subscription. */
  function CheckUserAndSubject(db: Db, userId: int, subjectId: string): Option<Error> {
    if userId !in db.users then Some(UserNotFoundError(Id(userId)))
    else if subjectId !in db.subjects then Some(SubjectNotFoundError(StrVal(subjectId)))
    else None
  }

  /** add_subject_to_user: a second row for the same pair violates the
      primary key and is reported as a CrudError. */
  function AddSubjectToUser(db: Db, userId: int, subjectId: string): Step<Subscription> {
    match CheckUserAndSubject(db, userId, subjectId)
    case Some(e) => Fail(db, e)
    case None =>
      if (userId, subjectId) in db.subscriptions then Fail(db, CrudError("Failed to add subject to user"))
      else
        var a := Subscription(userId, subjectId, None);
        Step(Ok(a), db.(subscriptions := db.subscriptions[(userId, subjectId) := a]))
  }

  /** The subject ids a user is subscribed to. */
  function SubscribedIds(db: Db, userId: int): set<string> {
    set k | k in db.subscriptions && k.0 == userId :: k.1
  }

  /** get_user_subjects: the subjects joined through the user's
      subscriptions (an inner join, so only stored subjects), in no
      particular order, each once. */
  predicate IsUserSubjects(db: Db, userId: int, r: Result<seq<Subject>, Error>) {
    if userId !in db.users then r == Err(UserNotFoundError(Id(userId)))
    else
      r.Ok? && Distinct(r.value)
      && (set x | x in r.value) == set s | s in SubscribedIds(db, userId) && s in db.subjects :: db.subjects[s]
  }

  /** remove_subject_from_user: deleting a pair that is absent is not an
      error. */
  function RemoveSubjectFromUser(db: Db, userId: int, subjectId: string): Step<()> {
    match CheckUserAndSubject(db, userId, subjectId)
    case Some(e) => Fail(db, e)
    case None => Step(Ok(()), db.(subscriptions := db.subscriptions - {(userId, subjectId)}))
  }

  function Forget<T>(s: Step<T>): Step<()> {
    Step(if s.result.Ok? then Ok(()) else Err(s.result.error), s.db)
  }

  /** switch_subject_for_user: remove when subscribed, add otherwise. The
      subscription test goes through get_user_subject_ids, which raises
      UserNotFoundError for an unknown user. */
  function SwitchSubjectForUser(db: Db, userId: int, subjectId: string): Step<()> {
    if userId !in db.users then Fail(db, UserNotFoundError(Id(userId)))
    else if subjectId in SubscribedIds(db, userId) then RemoveSubjectFromUser(db, userId, subjectId)
    else Forget(AddSubjectToUser(db, userId, subjectId))
  }

  /** set_desired_score: create the subscription carrying the goal, or
      overwrite the goal of the existing one. */
  function SetDesiredScore(db: Db, userId: int, subjectId: string, desired: int): Step<Subscription> {
    match CheckUserAndSubject(db, userId, subjectId)
    case Some(e) => Fail(db, e)
    case None =>
      var key := (userId, subjectId);
      var a := if key in db.subscriptions then db.subscriptions[key].(desiredScore := Some(desired))
               else Subscription(userId, subjectId, Some(desired));
      Step(Ok(a), db.(subscriptions := db.subscriptions[key := a]))
  }
}
