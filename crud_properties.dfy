/** What db/crud.py promises, proved about the table functions of CrudSpec. */
module CrudProperties {
  import opened Results
  import opened Values
  import opened Exceptions
  import opened Models
  import opened Validators
  import opened CrudSpec

  // ------------------------------------------------------------- the upsert

  /** create_user on a taken id raises UserAlreadyExistsError and, through the
      rollback, leaves every table as it was. */
  lemma CreateUserTakenId(db: Db, data: map<string, Value>)
    requires CreateAccepts(data) && data["id"].i in db.users
    ensures CreateUser(db, data) == Step(Err(UserAlreadyExistsError(data["id"])), db)
  {
  }

  /** A create projection patched with the update projection of the same
      payload is unchanged. */
  lemma PatchOfCreatedRow(data: map<string, Value>)
    requires CreateAccepts(data)
    ensures var u := UserRow(ValidateUserDataCreate(data).value);
            PatchUser(u, ValidateUserDataUpdate(data).value) == u
  {
  }

  /** Applying the same patch twice is applying it once. */
  lemma PatchIdempotent(u: User, p: map<string, Value>)
    requires IsUserPatch(p)
    ensures PatchUser(PatchUser(u, p), p) == PatchUser(u, p)
  {
  }

  /** create_or_update_user on a valid payload: an absent id is inserted from
      the create projection; a present id keeps its row, with exactly the
      supplied non-id fields overwritten. Nothing else changes. */
  lemma {:induction false} UpsertEffect(db: Db, data: map<string, Value>)
    requires WellFormed(db) && CreateAccepts(data)
    ensures var id := data["id"].i;
            var s := CreateOrUpdateUser(db, data);
            && s.result.Ok? && s.result.value.id == id
            && s.db == db.(users := s.db.users)
            && id in s.db.users && s.db.users[id] == s.result.value
            && (id !in db.users ==>
                  s.db.users == db.users[id := UserRow(ValidateUserDataCreate(data).value)])
            && (id in db.users ==>
                  s.db.users == db.users[id := PatchUser(db.users[id], ValidateUserDataUpdate(data).value)])
  {
    var id := data["id"].i;
    var created := CreateUser(db, data);
    UpdateIsRestrictedCreate(data);
    if id in db.users {
      var p := ValidateUserDataUpdate(data).value;
      CreateUserTakenId(db, data);
      assert Catches(UserAlreadyExists, created.result.error);
      assert CreateOrUpdateUser(db, data) == UpdateUser(db, data);
      assert GetUserById(db, data["id"]) == Ok(db.users[id]);
      assert UpdateUser(db, data) == UpdateUserWrite(db, id, p);
    }
  }

  /** The upsert keeps the tables well formed. */
  lemma UpsertWellFormed(db: Db, data: map<string, Value>)
    requires WellFormed(db) && CreateAccepts(data)
    ensures WellFormed(CreateOrUpdateUser(db, data).db)
  {
    UpsertEffect(db, data);
  }

  /** Calling create_or_update_user twice with the same payload is the same as
      calling it once: same result, same tables. */
  lemma {:induction false} UpsertIdempotent(db: Db, data: map<string, Value>)
    requires WellFormed(db) && CreateAccepts(data)
    ensures var once := CreateOrUpdateUser(db, data);
            CreateOrUpdateUser(once.db, data) == once
  {
    var id := data["id"].i;
    var once := CreateOrUpdateUser(db, data);
    UpsertEffect(db, data);
    UpsertWellFormed(db, data);
    UpsertEffect(once.db, data);
    var p := ValidateUserDataUpdate(data).value;
    if id in db.users {
      PatchIdempotent(db.users[id], p);
    } else {
      PatchOfCreatedRow(data);
    }
    assert once.db.users[id := PatchUser(once.db.users[id], p)] == once.db.users;
  }

  /** Two upserts for the same id with different names leave exactly one row
      with that id, carrying the latest name. */
  lemma {:induction false} UpsertLatestWins(db: Db, first: map<string, Value>, second: map<string, Value>)
    requires WellFormed(db) && CreateAccepts(first) && CreateAccepts(second)
    requires first["id"] == second["id"]
    ensures var id := first["id"].i;
            var after := CreateOrUpdateUser(CreateOrUpdateUser(db, first).db, second).db;
            && (set k | k in after.users && after.users[k].id == id) == {id}
            && after.users[id].firstName == second["first_name"].s
  {
    var id := first["id"].i;
    var mid := CreateOrUpdateUser(db, first).db;
    UpsertEffect(db, first);
    UpsertWellFormed(db, first);
    UpsertEffect(mid, second);
    UpsertWellFormed(mid, second);
    UpdateIsRestrictedCreate(second);
    var after := CreateOrUpdateUser(mid, second).db;
    var rows := set k | k in after.users && after.users[k].id == id;
    assert id in after.users && after.users[id].id == id;
    assert forall k | k in rows :: k == id;
    assert rows == {id};
  }

  // ------------------------------------------------------------- update_user

  /** update_user on an unknown id fails in its existence check, before the
      payload is validated. */
  lemma UpdateUserUnknownId(db: Db, data: map<string, Value>)
    requires var id := if "id" in data then data["id"] else NoneVal;
             !(id.IntVal? && id.i in db.users)
    ensures var id := if "id" in data then data["id"] else NoneVal;
            UpdateUser(db, data) == Step(Err(UserNotFoundError(id)), db)
  {
  }

  /** If the row is gone by the time of the UPDATE (deleted between the check
      and the write), the UserNotFoundError raised there is caught by the
      surrounding `except SQLAlchemyError` and surfaces as a generic
      CrudError, not as a not-found error. */
  lemma {:induction false} UpdateOfVanishedRow(db: Db, id: int, p: map<string, Value>)
    requires IsUserPatch(p) && id !in db.users
    ensures UpdateUserWrite(db, id, p) == Step(Err(CrudError("Failed to update user")), db)
    ensures !Catches(NotFound, UpdateUserWrite(db, id, p).result.error)
  {
    NotFoundIsRewrapped(UserNotFoundError(Id(id)), "Failed to update user");
    Hierarchy(Crud);
  }

  // --------------------------------------------------------- subscriptions

  /** add_subject_to_user, remove_subject_from_user and set_desired_score
      check the user first and the subject second, and fail before writing
      anything. */
  lemma ChecksBeforeWrite(db: Db, userId: int, subjectId: string, desired: int)
    ensures userId !in db.users ==>
      && AddSubjectToUser(db, userId, subjectId) == Step(Err(UserNotFoundError(Id(userId))), db)
      && RemoveSubjectFromUser(db, userId, subjectId) == Step(Err(UserNotFoundError(Id(userId))), db)
      && SetDesiredScore(db, userId, subjectId, desired) == Step(Err(UserNotFoundError(Id(userId))), db)
    ensures userId in db.users && subjectId !in db.subjects ==>
      && AddSubjectToUser(db, userId, subjectId) == Step(Err(SubjectNotFoundError(StrVal(subjectId))), db)
      && RemoveSubjectFromUser(db, userId, subjectId) == Step(Err(SubjectNotFoundError(StrVal(subjectId))), db)
      && SetDesiredScore(db, userId, subjectId, desired) == Step(Err(SubjectNotFoundError(StrVal(subjectId))), db)
  {
  }

  /** One toggle flips the membership of the pair and touches nothing else;
      a new subscription carries no goal. */
  lemma {:induction false} SwitchFlips(db: Db, userId: int, subjectId: string)
    requires WellFormed(db) && userId in db.users && subjectId in db.subjects
    ensures var s := SwitchSubjectForUser(db, userId, subjectId);
            var key := (userId, subjectId);
            && s.result.Ok?
            && s.db == db.(subscriptions := s.db.subscriptions)
            && (key in s.db.subscriptions <==> key !in db.subscriptions)
            && (key in s.db.subscriptions ==> s.db.subscriptions[key].desiredScore == None)
            && s.db.subscriptions - {key} == db.subscriptions - {key}
            && WellFormed(s.db)
  {
    var key := (userId, subjectId);
    assert key in db.subscriptions <==> subjectId in SubscribedIds(db, userId);
  }

  /** Toggling a subject twice restores whether the user is subscribed to it
      and every other subscription; the goal it carried is lost, because the
      second toggle re-creates the subscription without one. */
  lemma {:induction false} SwitchTwice(db: Db, userId: int, subjectId: string)
    requires WellFormed(db) && userId in db.users && subjectId in db.subjects
    ensures var once := SwitchSubjectForUser(db, userId, subjectId).db;
            var twice := SwitchSubjectForUser(once, userId, subjectId).db;
            var key := (userId, subjectId);
            && (key in twice.subscriptions <==> key in db.subscriptions)
            && twice.subscriptions - {key} == db.subscriptions - {key}
            && (key in twice.subscriptions ==> twice.subscriptions[key] == Subscription(userId, subjectId, None))
            && twice == db.(subscriptions := twice.subscriptions)
  {
    SwitchFlips(db, userId, subjectId);
    var once := SwitchSubjectForUser(db, userId, subjectId).db;
    SwitchFlips(once, userId, subjectId);
  }

  /** A toggle, failing or not, keeps the store well formed. */
  lemma SwitchWellFormed(db: Db, userId: int, subjectId: string)
    requires WellFormed(db)
    ensures WellFormed(SwitchSubjectForUser(db, userId, subjectId).db)
  {
    if userId in db.users && subjectId in db.subjects {
      SwitchFlips(db, userId, subjectId);
    } else if userId in db.users {
      SwitchUnknownSubject(db, userId, subjectId);
    }
  }

  /** A toggle, failing or not, leaves the users as they were. */
  lemma SwitchKeepsUsers(db: Db, userId: int, subjectId: string)
    requires WellFormed(db)
    ensures SwitchSubjectForUser(db, userId, subjectId).db.users == db.users
  {
    if userId in db.users && subjectId in db.subjects {
      SwitchFlips(db, userId, subjectId);
    } else if userId in db.users {
      SwitchUnknownSubject(db, userId, subjectId);
    }
  }

  /** Toggling an unknown subject for a known user raises SubjectNotFoundError
      and writes nothing. */
  lemma SwitchUnknownSubject(db: Db, userId: int, subjectId: string)
    requires WellFormed(db) && userId in db.users && subjectId !in db.subjects
    ensures SwitchSubjectForUser(db, userId, subjectId) == Step(Err(SubjectNotFoundError(StrVal(subjectId))), db)
  {
    assert subjectId !in SubscribedIds(db, userId);
  }

  /** set_desired_score creates the pair's subscription with the goal when it
      is absent and otherwise overwrites only its goal; every other
      subscription and every other table is unchanged. */
  lemma SetDesiredScoreUpserts(db: Db, userId: int, subjectId: string, desired: int)
    requires WellFormed(db) && userId in db.users && subjectId in db.subjects
    ensures var s := SetDesiredScore(db, userId, subjectId, desired);
            var key := (userId, subjectId);
            && s.result == Ok(Subscription(userId, subjectId, Some(desired)))
            && s.db == db.(subscriptions := db.subscriptions[key := s.result.value])
            && s.db.subscriptions.Keys == db.subscriptions.Keys + {key}
            && WellFormed(s.db)
  {
  }

  // ----------------------------------------------------------------- scores

  /** get_all_scores_for_user never returns an empty list: an unknown user
      and a user without matching scores fail with different errors, and a
      success lists exactly the user's matching scores. */
  lemma {:induction false} ScoresForUserOutcomes(db: Db, id: int, subjectId: Option<string>, r: Result<seq<ScoreRow>, Error>)
    requires IsScoresForUser(db, id, subjectId, r)
    ensures r.Ok? ==> |r.value| > 0 && forall x | x in r.value :: x in db.scores.Values && ScoreMatches(x, id, subjectId)
    ensures r.Err? ==> (r.error.kind == UserNotFound <==> id !in db.users)
    ensures r.Err? ==> (r.error.kind == ScoreNotFound <==> id in db.users)
  {
    if r.Ok? {
      assert r.value != [] by {
        var x :| x in MatchingScores(db, id, subjectId);
        assert x in (set y | y in r.value);
      }
      forall x | x in r.value
        ensures x in db.scores.Values && ScoreMatches(x, id, subjectId)
      {
        assert x in (set y | y in r.value);
        assert x in MatchingScores(db, id, subjectId);
        var k :| k in db.scores && ScoreMatches(db.scores[k], id, subjectId) && db.scores[k] == x;
      }
    }
  }

  /** add_score as written can never store a row: the model it builds leaves
      the non-nullable subject_name unset, so every commit fails and is rolled
      back. */
  lemma AddScoreAlwaysFails(db: Db, id: int, subjectId: string, score: int, now: int)
    ensures AddScore(db, id, subjectId, score, now) == Step(Err(CrudError("Failed to add score")), db)
  {
  }

  /** With the subject name supplied, the score is stored under a fresh id with
      the given user, subject and value (no range is enforced), every earlier
      row stays, and get_all_scores_for_user then lists it. */
  lemma {:induction false} AddScoreNamedStores(db: Db, id: int, subjectId: string, subjectName: string, score: int, now: int)
    requires WellFormed(db)
    ensures var s := AddScoreNamed(db, id, subjectId, subjectName, score, now);
            && s.result.Ok?
            && var row := s.result.value;
            && row.id !in db.scores
            && row.userId == id && row.subjectId == subjectId && row.subjectName == subjectName
            && row.score == score && !row.isFinal && row.examDate == None
            && s.db == db.(scores := db.scores[row.id := row], nextScoreId := s.db.nextScoreId)
            && WellFormed(s.db)
  {
  }

  lemma {:induction false} AddedScoreRetrievable(db: Db, id: int, subjectId: string, subjectName: string, score: int, now: int,
                                                 r: Result<seq<ScoreRow>, Error>)
    requires WellFormed(db) && id in db.users
    requires IsScoresForUser(AddScoreNamed(db, id, subjectId, subjectName, score, now).db, id, Some(subjectId), r)
    ensures r.Ok? && AddScoreNamed(db, id, subjectId, subjectName, score, now).result.value in r.value
  {
    var s := AddScoreNamed(db, id, subjectId, subjectName, score, now);
    AddScoreNamedStores(db, id, subjectId, subjectName, score, now);
    var row := s.result.value;
    assert row == s.db.scores[row.id];
    assert row in MatchingScores(s.db, id, Some(subjectId));
    assert row in (set x | x in r.value);
  }

  /** delete_score_by_id raises ScoreNotFoundError for an unknown id and
      otherwise removes that row only. */
  lemma DeleteScoreEffect(db: Db, scoreId: int)
    ensures scoreId !in db.scores ==>
      DeleteScoreById(db, scoreId) == Step(Err(ScoreNotFoundError(Id(scoreId))), db)
    ensures scoreId in db.scores ==>
      DeleteScoreById(db, scoreId) == Step(Ok(()), db.(scores := db.scores - {scoreId}))
    ensures WellFormed(db) ==> WellFormed(DeleteScoreById(db, scoreId).db)
  {
  }

  /** delete_user raises UserNotFoundError for an unknown id and otherwise
      removes that user's row only. With no cascade, the user's
      subscriptions and scores stay in their tables, and the store stays
      well formed, since no table's invariant refers to users. */
  lemma DeleteUserEffect(db: Db, id: int)
    ensures id !in db.users ==> DeleteUser(db, id) == Step(Err(UserNotFoundError(Id(id))), db)
    ensures id in db.users ==>
      var s := DeleteUser(db, id);
      && s.result == Ok(())
      && id !in s.db.users
      && (forall other | other in db.users && other != id :: other in s.db.users && s.db.users[other] == db.users[other])
      && s.db.users.Keys == db.users.Keys - {id}
      && s.db.subscriptions == db.subscriptions
      && s.db.scores == db.scores
      && s.db.subjects == db.subjects
      && s.db.nextScoreId == db.nextScoreId
    ensures WellFormed(db) ==> WellFormed(DeleteUser(db, id).db)
  {
  }

  /** edit_existing_score as written reports an unknown score id as a generic
      CrudError; reporting it as ScoreNotFoundError differs only there. */
  lemma {:induction false} EditScoreHidesNotFound(db: Db, scoreId: int, value: int)
    ensures scoreId !in db.scores ==>
      && EditExistingScore(db, scoreId, value) == Step(Err(CrudError("Failed to update score")), db)
      && EditExistingScoreIntended(db, scoreId, value) == Step(Err(ScoreNotFoundError(Id(scoreId))), db)
    ensures scoreId in db.scores ==>
      && EditExistingScore(db, scoreId, value) == EditExistingScoreIntended(db, scoreId, value)
      && EditExistingScore(db, scoreId, value).db.scores == db.scores[scoreId := db.scores[scoreId].(score := value)]
  {
    if scoreId !in db.scores {
      NotFoundIsRewrapped(ScoreNotFoundError(Id(scoreId)), "Failed to update score");
    }
  }

  /** The intended edit: an unknown id surfaces as a ScoreNotFoundError, which
      `except NotFoundError` catches, and writes nothing; a known score reads
      back with the new value and every other score is untouched. */
  lemma EditScoreIntendedReports(db: Db, scoreId: int, value: int)
    ensures var s := EditExistingScoreIntended(db, scoreId, value);
      && (scoreId !in db.scores ==>
            s.result.Err? && Catches(NotFound, s.result.error) && s.db == db)
      && (scoreId in db.scores ==>
            && GetScoreById(s.db, scoreId) == Ok(db.scores[scoreId].(score := value))
            && s.db.scores.Keys == db.scores.Keys
            && forall k | k in db.scores && k != scoreId :: s.db.scores[k] == db.scores[k])
  {
    Hierarchy(ScoreNotFound);
  }

  // ---------------------------------------------------------------- catalog

  /** The table create_subjects adds: one row per catalog entry, under its id. */
  lemma CatalogTableRows(catalog: seq<(string, string)>)
    requires DistinctIds(catalog)
    ensures var table := CatalogTable(catalog);
            && table.Keys == (set i | 0 <= i < |catalog| :: catalog[i].0)
            && (forall i | 0 <= i < |catalog| ::
                  table[catalog[i].0] == Subject(catalog[i].0, catalog[i].1, DefaultMaxScore))
            && SubjectsKeyed(table)
  {
    var table := CatalogTable(catalog);
    forall i | 0 <= i < |catalog|
      ensures catalog[i].0 in table && table[catalog[i].0] == Subject(catalog[i].0, catalog[i].1, DefaultMaxScore)
    {
    }
  }

  /** create_subjects is all-or-nothing: it fails and writes nothing when any
      catalog id is already stored, and otherwise adds every entry, under its
      id, with its name and a maximum score of 100. */
  lemma {:induction false} CreateSubjectsAllOrNothing(db: Db, catalog: seq<(string, string)>)
    requires WellFormed(db) && DistinctIds(catalog)
    ensures var s := CreateSubjects(db, catalog);
            && (s.result.Ok? <==> forall i | 0 <= i < |catalog| :: catalog[i].0 !in db.subjects)
            && (s.result.Err? ==> s == Step(Err(CrudError("Failed to create subjects")), db))
            && (s.result.Ok? ==>
                  && |s.result.value| == |catalog|
                  && s.db == db.(subjects := db.subjects + CatalogTable(catalog))
                  && s.db.subjects.Keys == db.subjects.Keys + (set i | 0 <= i < |catalog| :: catalog[i].0)
                  && (forall i | 0 <= i < |catalog| ::
                        s.db.subjects[catalog[i].0] == Subject(catalog[i].0, catalog[i].1, DefaultMaxScore))
                  && WellFormed(s.db))
  {
    CatalogTableRows(catalog);
  }
}
