/** db/crud.py as a store whose four tables are fields that its methods
    change. A method stages its write and assigns the tables only when the
    commit would succeed, so a failing call leaves them as they were (the
    source's rollback). Every method is proved equal to its CrudSpec
    function. */
module Crud {
  import opened Results
  import opened Values
  import opened Exceptions
  import opened Models
  import opened Validators
  import CrudSpec
  import CrudProperties

  /** One more catalog entry adds one subject to the list and one row to the
      staged table. */
  lemma CatalogPrefix(catalog: seq<(string, string)>, i: int)
    requires CrudSpec.DistinctIds(catalog) && 0 <= i < |catalog|
    ensures CrudSpec.DistinctIds(catalog[..i + 1])
    ensures CrudSpec.CatalogSubjects(catalog[..i + 1])
         == CrudSpec.CatalogSubjects(catalog[..i]) + [Subject(catalog[i].0, catalog[i].1, DefaultMaxScore)]
    ensures CrudSpec.CatalogTable(catalog[..i + 1])
         == CrudSpec.CatalogTable(catalog[..i])[catalog[i].0 := Subject(catalog[i].0, catalog[i].1, DefaultMaxScore)]
  {
    assert CrudSpec.DistinctIds(catalog[..i + 1]);
    assert CrudSpec.DistinctIds(catalog[..i]);
    CatalogTablePrefix(catalog, i);
  }

  lemma CatalogTablePrefix(catalog: seq<(string, string)>, i: int)
    requires 0 <= i < |catalog|
    requires CrudSpec.DistinctIds(catalog[..i + 1]) && CrudSpec.DistinctIds(catalog[..i])
    ensures CrudSpec.CatalogTable(catalog[..i + 1])
         == CrudSpec.CatalogTable(catalog[..i])[catalog[i].0 := Subject(catalog[i].0, catalog[i].1, DefaultMaxScore)]
  {
    var t := CrudSpec.CatalogTable(catalog[..i + 1]);
    var u := CrudSpec.CatalogTable(catalog[..i])[catalog[i].0 := Subject(catalog[i].0, catalog[i].1, DefaultMaxScore)];
    CatalogKeysPrefix(catalog, i);
    CatalogValuesPrefix(catalog, i);
    assert t.Keys == u.Keys;
  }

  lemma CatalogKeysPrefix(catalog: seq<(string, string)>, i: int)
    requires 0 <= i < |catalog|
    requires CrudSpec.DistinctIds(catalog[..i + 1]) && CrudSpec.DistinctIds(catalog[..i])
    ensures CrudSpec.CatalogTable(catalog[..i + 1]).Keys
         == CrudSpec.CatalogTable(catalog[..i]).Keys + {catalog[i].0}
  {
    var longer, shorter := catalog[..i + 1], catalog[..i];
    var t, v := CrudSpec.CatalogTable(longer), CrudSpec.CatalogTable(shorter);
    forall s | s in t ensures s in v || s == catalog[i].0 {
      var j :| 0 <= j < |longer| && longer[j].0 == s;
      if j < i {
        assert shorter[j] == longer[j];
        assert s in v;
      }
    }
    forall s | s in v ensures s in t {
      var j :| 0 <= j < |shorter| && shorter[j].0 == s;
      assert longer[j].0 == s;
    }
    assert longer[i].0 == catalog[i].0;
  }

  lemma CatalogValuesPrefix(catalog: seq<(string, string)>, i: int)
    requires 0 <= i < |catalog|
    requires CrudSpec.DistinctIds(catalog[..i + 1]) && CrudSpec.DistinctIds(catalog[..i])
    ensures var t := CrudSpec.CatalogTable(catalog[..i + 1]);
            var u := CrudSpec.CatalogTable(catalog[..i])[catalog[i].0 := Subject(catalog[i].0, catalog[i].1, DefaultMaxScore)];
            forall s | s in t && s in u :: t[s] == u[s]
  {
    var longer, shorter := catalog[..i + 1], catalog[..i];
    var t, v := CrudSpec.CatalogTable(longer), CrudSpec.CatalogTable(shorter);
    forall s | s in t && (s in v || s == catalog[i].0)
      ensures t[s] == v[catalog[i].0 := Subject(catalog[i].0, catalog[i].1, DefaultMaxScore)][s]
    {
      var j :| 0 <= j < |longer| && longer[j].0 == s;
      if s == catalog[i].0 {
        assert longer[i].0 == s;
      } else {
        var k :| 0 <= k < |shorter| && shorter[k].0 == s;
        assert longer[k] == shorter[k];
      }
    }
  }

  class Store {
    var users: map<int, User>
    var subjects: map<string, Subject>
    var subscriptions: map<SubKey, Subscription>
    var scores: map<int, ScoreRow>
    var nextScoreId: int

    function Snapshot(): CrudSpec.Db
      reads this
    {
      CrudSpec.Db(users, subjects, subscriptions, scores, nextScoreId)
    }

    ghost predicate Valid()
      reads this
    {
      CrudSpec.WellFormed(Snapshot())
    }

    constructor ()
      ensures Valid() && Snapshot() == CrudSpec.EmptyDb
    {
      users, subjects, subscriptions, scores := map[], map[], map[], map[];
      nextScoreId := 1;
    }

    // ---------------------------------------------------------------- users

    method CreateUser(data: map<string, Value>) returns (r: Result<User, Error>)
      requires Valid()
      modifies this
      ensures Valid()
      ensures CrudSpec.Step(r, Snapshot()) == CrudSpec.CreateUser(old(Snapshot()), data)
    {
      var validated := ValidateUserDataCreate(data);
      if validated.Err? {
        return Err(validated.error);
      }
      var user := CrudSpec.UserRow(validated.value);
      if user.id in users {
        // the primary key rejects the insert at commit; rollback
        return Err(UserAlreadyExistsError(validated.value["id"]));
      }
      users := users[user.id := user];
      r := Ok(user);
    }

    method GetUserById(id: Value) returns (r: Result<User, Error>)
      ensures r == CrudSpec.GetUserById(Snapshot(), id)
      ensures r.Ok? <==> id.IntVal? && id.i in users
      ensures r.Err? ==> r.error == UserNotFoundError(id)
    {
      if id.IntVal? && id.i in users {
        r := Ok(users[id.i]);
      } else {
        r := Err(UserNotFoundError(id));
      }
    }

    method UpdateUser(data: map<string, Value>) returns (r: Result<User, Error>)
      requires Valid()
      modifies this
      ensures Valid()
      ensures CrudSpec.Step(r, Snapshot()) == CrudSpec.UpdateUser(old(Snapshot()), data)
    {
      var id := if "id" in data then data["id"] else NoneVal;
      var found := GetUserById(id);
      if found.Err? {
        return Err(found.error);
      }
      var validated := ValidateUserDataUpdate(data);
      if validated.Err? {
        return Err(validated.error);
      }
      // UPDATE users SET ... WHERE id = :id RETURNING users
      if id.i !in users {
        var raised := UserNotFoundError(id);
        return Err(RewrapStorageError(raised, "Failed to update user"));
      }
      var updated := CrudSpec.PatchUser(users[id.i], validated.value);
      users := users[id.i := updated];
      r := Ok(updated);
    }

    method CreateOrUpdateUser(data: map<string, Value>) returns (r: Result<User, Error>)
      requires Valid()
      modifies this
      ensures Valid()
      ensures CrudSpec.Step(r, Snapshot()) == CrudSpec.CreateOrUpdateUser(old(Snapshot()), data)
    {
      r := CreateUser(data);
      if r.Err? && Catches(UserAlreadyExists, r.error) {
        if "id" !in data {
          return Err(ValueError("id is required for update"));
        }
        r := UpdateUser(data);
      }
    }

    method DeleteUser(id: int) returns (r: Result<(), Error>)
      requires Valid()
      modifies this
      ensures Valid()
      ensures CrudSpec.Step(r, Snapshot()) == CrudSpec.DeleteUser(old(Snapshot()), id)
    {
      var found := GetUserById(IntVal(id));
      if found.Err? {
        return Err(found.error);
      }
      users := users - {id};
      r := Ok(());
    }

    // --------------------------------------------------------------- scores

    method GetScoreById(scoreId: int) returns (r: Result<ScoreRow, Error>)
      ensures r == CrudSpec.GetScoreById(Snapshot(), scoreId)
      ensures r.Ok? <==> scoreId in scores
      ensures r.Ok? ==> r.value == scores[scoreId]
    {
      if scoreId in scores {
        r := Ok(scores[scoreId]);
      } else {
        r := Err(ScoreNotFoundError(IntVal(scoreId)));
      }
    }

    /** db.add + commit of one score row. */
    method InsertScore(d: ScoreDraft, now: int) returns (r: Result<ScoreRow, Error>)
      requires Valid()
      modifies this
      ensures Valid()
      ensures CrudSpec.Step(r, Snapshot()) == CrudSpec.InsertScore(old(Snapshot()), d, now)
    {
      if !SatisfiesNotNull(d) {
        // IntegrityError at commit; rollback
        return Err(CrudError("Failed to add score"));
      }
      var row := Stored(d, nextScoreId, now);
      scores := scores[row.id := row];
      nextScoreId := nextScoreId + 1;
      r := Ok(row);
    }

    method AddScore(id: int, subjectId: string, score: int, now: int) returns (r: Result<ScoreRow, Error>)
      requires Valid()
      modifies this
      ensures Valid()
      ensures CrudSpec.Step(r, Snapshot()) == CrudSpec.AddScore(old(Snapshot()), id, subjectId, score, now)
    {
      r := InsertScore(PlainScoreDraft(id, subjectId, None, score), now);
    }

    method AddScoreNamed(id: int, subjectId: string, subjectName: string, score: int, now: int)
      returns (r: Result<ScoreRow, Error>)
      requires Valid()
      modifies this
      ensures Valid()
      ensures CrudSpec.Step(r, Snapshot()) == CrudSpec.AddScoreNamed(old(Snapshot()), id, subjectId, subjectName, score, now)
    {
      r := InsertScore(PlainScoreDraft(id, subjectId, Some(subjectName), score), now);
    }

    method EditExistingScore(scoreId: int, value: int) returns (r: Result<ScoreRow, Error>)
      requires Valid()
      modifies this
      ensures Valid()
      ensures CrudSpec.Step(r, Snapshot()) == CrudSpec.EditExistingScore(old(Snapshot()), scoreId, value)
    {
      // UPDATE scores SET score = :value WHERE id = :id RETURNING scores
      if scoreId !in scores {
        var raised := ScoreNotFoundError(IntVal(scoreId));
        return Err(RewrapStorageError(raised, "Failed to update score"));
      }
      var row := scores[scoreId].(score := value);
      scores := scores[scoreId := row];
      r := Ok(row);
    }

    method DeleteScoreById(scoreId: int) returns (r: Result<(), Error>)
      requires Valid()
      modifies this
      ensures Valid()
      ensures CrudSpec.Step(r, Snapshot()) == CrudSpec.DeleteScoreById(old(Snapshot()), scoreId)
    {
      var found := GetScoreById(scoreId);
      if found.Err? {
        return Err(found.error);
      }
      scores := scores - {scoreId};
      r := Ok(());
    }

    /** The SELECT has no ORDER BY: rows are listed in whatever order the
        table yields them. */
    method GetAllScoresForUser(id: int, subjectId: Option<string>) returns (r: Result<seq<ScoreRow>, Error>)
      requires Valid()
      ensures CrudSpec.IsScoresForUser(Snapshot(), id, subjectId, r)
    {
      var found := GetUserById(IntVal(id));
      if found.Err? {
        return Err(found.error);
      }
      var filtered := subjectId.Some? && subjectId.value != "";
      var remaining := scores.Items;
      ghost var seen: set<(int, ScoreRow)> := {};
      var rows: seq<ScoreRow> := [];
      while remaining != {}
        invariant remaining !! seen && remaining + seen == scores.Items
        invariant forall i, j | 0 <= i < j < |rows| :: rows[i].id != rows[j].id
        invariant forall x | x in rows :: (x.id, x) in seen && CrudSpec.ScoreMatches(x, id, subjectId)
        invariant forall e | e in seen && CrudSpec.ScoreMatches(e.1, id, subjectId) :: e.1 in rows
        decreases remaining
      {
        var entry :| entry in remaining;
        var row := entry.1;
        assert entry.0 in scores && scores[entry.0] == row && row.id == entry.0;
        if row.userId == id && (!filtered || row.subjectId == subjectId.value) {
          rows := rows + [row];
        }
        remaining, seen := remaining - {entry}, seen + {entry};
      }
      ghost var matching := CrudSpec.MatchingScores(Snapshot(), id, subjectId);
      assert (set x | x in rows) == matching by {
        forall x | x in matching ensures x in rows {
          var k :| k in scores && CrudSpec.ScoreMatches(scores[k], id, subjectId) && scores[k] == x;
          assert (k, x) in scores.Items;
        }
        forall x | x in rows ensures x in matching {
          assert (x.id, x) in scores.Items;
        }
      }
      if rows == [] {
        assert forall x | x in matching :: x in rows;
        return Err(ScoreNotFoundError(NoneVal));
      }
      assert rows[0] in matching;
      r := Ok(rows);
    }

    // ------------------------------------------------------------- subjects

    /** Stages one Subject per catalog entry, then commits them together. */
    method CreateSubjects(catalog: seq<(string, string)>) returns (r: Result<seq<Subject>, Error>)
      requires Valid() && CrudSpec.DistinctIds(catalog)
      modifies this
      ensures Valid()
      ensures CrudSpec.Step(r, Snapshot()) == CrudSpec.CreateSubjects(old(Snapshot()), catalog)
    {
      var added: seq<Subject> := [];
      var staged: map<string, Subject> := map[];
      for i := 0 to |catalog|
        modifies {}
        invariant CrudSpec.DistinctIds(catalog[..i])
        invariant added == CrudSpec.CatalogSubjects(catalog[..i])
        invariant staged == CrudSpec.CatalogTable(catalog[..i])
      {
        var subject := Subject(catalog[i].0, catalog[i].1, DefaultMaxScore);
        CatalogPrefix(catalog, i);
        added := added + [subject];
        staged := staged[subject.id := subject];
      }
      assert catalog[..|catalog|] == catalog;
      // a duplicate primary key raises IntegrityError at commit; rollback
      if exists i | 0 <= i < |catalog| :: catalog[i].0 in subjects {
        return Err(CrudError("Failed to create subjects"));
      }
      CrudProperties.CreateSubjectsAllOrNothing(Snapshot(), catalog);
      subjects := subjects + staged;
      r := Ok(added);
    }

    method GetSubjectById(subjectId: string) returns (r: Result<Subject, Error>)
      ensures r == CrudSpec.GetSubjectById(Snapshot(), subjectId)
      ensures r.Ok? <==> subjectId in subjects
    {
      if subjectId in subjects {
        r := Ok(subjects[subjectId]);
      } else {
        r := Err(SubjectNotFoundError(StrVal(subjectId)));
      }
    }

    method AddSubjectToUser(userId: int, subjectId: string) returns (r: Result<Subscription, Error>)
      requires Valid()
      modifies this
      ensures Valid()
      ensures CrudSpec.Step(r, Snapshot()) == CrudSpec.AddSubjectToUser(old(Snapshot()), userId, subjectId)
    {
      var user := GetUserById(IntVal(userId));
      if user.Err? {
        return Err(user.error);
      }
      var subject := GetSubjectById(subjectId);
      if subject.Err? {
        return Err(subject.error);
      }
      var a := Subscription(userId, subjectId, None);
      if (userId, subjectId) in subscriptions {
        // duplicate composite key at commit; rollback
        return Err(CrudError("Failed to add subject to user"));
      }
      subscriptions := subscriptions[(userId, subjectId) := a];
      r := Ok(a);
    }

    /** The join of subjects with the user's subscriptions, in no particular
        order. */
    method GetUserSubjects(userId: int) returns (r: Result<seq<Subject>, Error>)
      requires Valid()
      ensures CrudSpec.IsUserSubjects(Snapshot(), userId, r)
    {
      var user := GetUserById(IntVal(userId));
      if user.Err? {
        return Err(user.error);
      }
      var remaining := subscriptions.Keys;
      ghost var seen: set<SubKey> := {};
      var found: seq<Subject> := [];
      while remaining != {}
        invariant remaining !! seen && remaining + seen == subscriptions.Keys
        invariant forall i, j | 0 <= i < j < |found| :: found[i].id != found[j].id
        invariant forall x | x in found :: (userId, x.id) in seen && subjects[x.id] == x
        invariant forall k | k in seen && k.0 == userId :: subjects[k.1] in found
        decreases remaining
      {
        var k :| k in remaining;
        if k.0 == userId {
          found := found + [subjects[k.1]];
        }
        remaining, seen := remaining - {k}, seen + {k};
      }
      ghost var db := Snapshot();
      ghost var expected := set s | s in CrudSpec.SubscribedIds(db, userId) && s in subjects :: subjects[s];
      assert (set x | x in found) == expected by {
        forall x | x in found ensures x in expected {
          assert x.id in CrudSpec.SubscribedIds(db, userId);
        }
        forall x | x in expected ensures x in found {
          var s :| s in CrudSpec.SubscribedIds(db, userId) && s in subjects && x == subjects[s];
          var k :| k in subscriptions && k.0 == userId && k.1 == s;
        }
      }
      r := Ok(found);
    }

    method GetUserSubjectsIds(userId: int) returns (r: Result<seq<string>, Error>)
      requires Valid()
      ensures r.Err? <==> userId !in users
      ensures r.Err? ==> r.error == UserNotFoundError(IntVal(userId))
      ensures r.Ok? ==> CrudSpec.Distinct(r.value) && (set s | s in r.value) == CrudSpec.SubscribedIds(Snapshot(), userId)
    {
      var subjectsOfUser := GetUserSubjects(userId);
      if subjectsOfUser.Err? {
        return Err(subjectsOfUser.error);
      }
      var list := subjectsOfUser.value;
      var ids := seq(|list|, i requires 0 <= i < |list| => list[i].id);
      ghost var db := Snapshot();
      ghost var subscribed := CrudSpec.SubscribedIds(db, userId);
      ghost var listed := set x | x in list;
      assert listed == set s | s in subscribed && s in subjects :: subjects[s];
      assert forall i | 0 <= i < |list| :: list[i].id in subscribed && subjects[list[i].id] == list[i] by {
        forall i | 0 <= i < |list|
          ensures list[i].id in subscribed && subjects[list[i].id] == list[i]
        {
          assert list[i] in listed;
          var s :| s in subscribed && s in subjects && list[i] == subjects[s];
        }
      }
      forall s | s in subscribed
        ensures s in ids
      {
        assert subjects[s] in listed;
        var i :| 0 <= i < |list| && list[i] == subjects[s];
        assert ids[i] == s;
      }
      r := Ok(ids);
    }

    method RemoveSubjectFromUser(userId: int, subjectId: string) returns (r: Result<(), Error>)
      requires Valid()
      modifies this
      ensures Valid()
      ensures CrudSpec.Step(r, Snapshot()) == CrudSpec.RemoveSubjectFromUser(old(Snapshot()), userId, subjectId)
    {
      var user := GetUserById(IntVal(userId));
      if user.Err? {
        return Err(user.error);
      }
      var subject := GetSubjectById(subjectId);
      if subject.Err? {
        return Err(subject.error);
      }
      subscriptions := subscriptions - {(userId, subjectId)};
      r := Ok(());
    }

    method SwitchSubjectForUser(userId: int, subjectId: string) returns (r: Result<(), Error>)
      requires Valid()
      modifies this
      ensures Valid()
      ensures CrudSpec.Step(r, Snapshot()) == CrudSpec.SwitchSubjectForUser(old(Snapshot()), userId, subjectId)
    {
      var ids := GetUserSubjectsIds(userId);
      if ids.Err? {
        return Err(ids.error);
      }
      if subjectId in ids.value {
        r := RemoveSubjectFromUser(userId, subjectId);
      } else {
        var added := AddSubjectToUser(userId, subjectId);
        r := if added.Ok? then Ok(()) else Err(added.error);
      }
    }

    method SetDesiredScore(userId: int, subjectId: string, desired: int) returns (r: Result<Subscription, Error>)
      requires Valid()
      modifies this
      ensures Valid()
      ensures CrudSpec.Step(r, Snapshot()) == CrudSpec.SetDesiredScore(old(Snapshot()), userId, subjectId, desired)
    {
      var user := GetUserById(IntVal(userId));
      if user.Err? {
        return Err(user.error);
      }
      var subject := GetSubjectById(subjectId);
      if subject.Err? {
        return Err(subject.error);
      }
      var key := (userId, subjectId);
      var a: Subscription;
      if key !in subscriptions {
        a := Subscription(userId, subjectId, Some(desired));
      } else {
        a := subscriptions[key].(desiredScore := Some(desired));
      }
      subscriptions := subscriptions[key := a];
      r := Ok(a);
    }
  }
}
