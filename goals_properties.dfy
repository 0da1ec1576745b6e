/** Properties of the goal and subject conversation. */
module GoalsProperties {
  import opened Results
  import opened Values
  import opened Exceptions
  import opened Models
  import opened Validators
  import opened Decimal
  import opened Payloads
  import opened Keyboard
  import opened Catalog
  import opened CrudSpec
  import opened CrudProperties
  import opened Goals

  /** create_or_update_user succeeds on a well-formed store exactly when the
      payload passes the create validation; it then registers the payload's
      id, keeps the store well formed and touches no table but users. */
  lemma {:induction false} EnterRegisters(s: Session, u: Update)
    requires WellFormed(s.db)
    ensures Enter(s, u).result.Ok? <==> CreateAccepts(u.from)
    ensures Enter(s, u).db == s.db.(users := Enter(s, u).db.users)
    ensures Enter(s, u).result.Ok? ==>
              && Enter(s, u).result.value.id == u.from["id"].i
              && u.from["id"].i in Enter(s, u).db.users
              && WellFormed(Enter(s, u).db)
  {
    var created := CreateUser(s.db, u.from);
    if CreateAccepts(u.from) {
      UpsertEffect(s.db, u.from);
      UpsertWellFormed(s.db, u.from);
    } else {
      assert created.result == Err(ValidationError);
    }
  }

  /** A reply that is not a number, or a number outside 0..100, gets the
      matching retry prompt; only the sender's upsert is written, and the
      pending subject and the bot state stay as they were. */
  lemma BadReplyKeepsConversation(flow: Flow, s: Session, u: Update, catalog: seq<(string, string)>, now: int)
    requires Enter(s, u).result.Ok?
    requires ParseInt(u.text).None? || !InRange(ParseInt(u.text).value)
    ensures var o := ValueReplyStep(flow, s, u, catalog);
            && o.reply == (if ParseInt(u.text).None? then RetryNotInt else RetryRange)
            && o.session == s.(db := Enter(s, u).db)
    ensures ScoreReplyIntended(s, u, catalog, now) == ValueReplyStep(ScoreFlow, s, u, catalog)
  {
  }

  /** A valid number with no pending subject, or an empty one, gets the
      restart prompt and changes nothing beyond the upsert: in particular the
      bot state is not cleared. */
  lemma MissingPendingRestarts(flow: Flow, s: Session, u: Update, catalog: seq<(string, string)>, now: int)
    requires Enter(s, u).result.Ok?
    requires ParseInt(u.text).Some? && InRange(ParseInt(u.text).value)
    requires var userId := Enter(s, u).result.value.id;
             userId !in s.pending || s.pending[userId] == ""
    ensures ValueReplyStep(flow, s, u, catalog) == Outcome(Restart(flow), s.(db := Enter(s, u).db))
    ensures ScoreReplyIntended(s, u, catalog, now) == Outcome(Restart(ScoreFlow), s.(db := Enter(s, u).db))
  {
  }

  /** Once the number is valid and a subject is pending, the pending entry and
      the bot state are both removed before the store is written, so they are
      gone whatever the write then does. */
  lemma ClearedBeforePersist(flow: Flow, s: Session, u: Update, catalog: seq<(string, string)>, now: int)
    requires Enter(s, u).result.Ok?
    requires ParseInt(u.text).Some? && InRange(ParseInt(u.text).value)
    requires var userId := Enter(s, u).result.value.id;
             userId in s.pending && s.pending[userId] != ""
    ensures var userId := Enter(s, u).result.value.id;
            var o := ValueReplyStep(flow, s, u, catalog);
            && o.session.pending == s.pending - {userId}
            && o.session.states == s.states - {userId}
            && StateOf(o.session.states, userId) == Idle
    ensures var userId := Enter(s, u).result.value.id;
            var o := ScoreReplyIntended(s, u, catalog, now);
            && o.session.pending == s.pending - {userId}
            && o.session.states == s.states - {userId}
  {
  }

  /** The goal reply saves the goal on the pending subject when that subject
      is stored, and otherwise answers with the generic failure and writes
      nothing more. */
  lemma {:induction false} GoalReplyOutcome(s: Session, u: Update, catalog: seq<(string, string)>)
    requires WellFormed(s.db) && CreateAccepts(u.from)
    requires ParseInt(u.text).Some? && InRange(ParseInt(u.text).value)
    requires var userId := u.from["id"].i;
             userId in s.pending && s.pending[userId] != ""
    ensures var userId, value := u.from["id"].i, ParseInt(u.text).value;
            var subjectId := s.pending[userId];
            var entered := Enter(s, u).db;
            var o := ValueReplyStep(GoalFlow, s, u, catalog);
            && (subjectId in s.db.subjects ==>
                  && o.reply == GoalSaved(value, Lookup(catalog, subjectId))
                  && (userId, subjectId) in o.session.db.subscriptions
                  && o.session.db.subscriptions[(userId, subjectId)].desiredScore == Some(value)
                  && o.session.db == entered.(subscriptions := o.session.db.subscriptions)
                  && WellFormed(o.session.db))
            && (subjectId !in s.db.subjects ==> o.reply == SaveFailed && o.session.db == entered)
  {
    EnterRegisters(s, u);
    var userId, value := u.from["id"].i, ParseInt(u.text).value;
    var entered := Enter(s, u).db;
    var subjectId := s.pending[userId];
    if subjectId in s.db.subjects {
      SetDesiredScoreUpserts(entered, userId, subjectId, value);
    }
  }

  /** The score reply as written never stores a score and never reports one
      saved: add_score is called with keywords it does not take, the call
      raises before reaching the store, and the handler's catch-all turns
      that into the generic failure. */
  lemma {:induction false} ScoreReplyNeverStores(s: Session, u: Update, catalog: seq<(string, string)>)
    requires WellFormed(s.db)
    ensures var o := ValueReplyStep(ScoreFlow, s, u, catalog);
            && o.session.db.scores == s.db.scores
            && o.session.db.nextScoreId == s.db.nextScoreId
            && !o.reply.ScoreSaved?
  {
    EnterRegisters(s, u);
  }

  /** The score reply with add_score called as intended stores the score under
      a fresh id whenever the pending subject has a catalog name; without one
      the NOT NULL subject_name still makes the insert fail. */
  lemma {:induction false} ScoreReplyIntendedOutcome(s: Session, u: Update, catalog: seq<(string, string)>, now: int)
    requires WellFormed(s.db) && CreateAccepts(u.from)
    requires ParseInt(u.text).Some? && InRange(ParseInt(u.text).value)
    requires var userId := u.from["id"].i;
             userId in s.pending && s.pending[userId] != ""
    ensures var userId, value := u.from["id"].i, ParseInt(u.text).value;
            var subjectId := s.pending[userId];
            var name := Lookup(catalog, subjectId);
            var entered := Enter(s, u).db;
            var o := ScoreReplyIntended(s, u, catalog, now);
            && (name.Some? ==>
                  && o.reply == ScoreSaved(value, name)
                  && entered.nextScoreId !in entered.scores
                  && o.session.db.scores == entered.scores[entered.nextScoreId :=
                       ScoreRow(entered.nextScoreId, userId, subjectId, name.value, value, None, false, now)]
                  && WellFormed(o.session.db))
            && (name.None? ==> o.reply == SaveFailed && o.session.db == entered)
  {
    EnterRegisters(s, u);
    var userId, value := u.from["id"].i, ParseInt(u.text).value;
    var subjectId := s.pending[userId];
    var name := Lookup(catalog, subjectId);
    var entered := Enter(s, u).db;
    if name.Some? {
      AddScoreNamedStores(entered, userId, subjectId, name.value, value, now);
      assert InsertScore(entered, PlainScoreDraft(userId, subjectId, name, value), now)
          == AddScoreNamed(entered, userId, subjectId, name.value, value, now);
    }
  }

  /** A user with no subscriptions who opens a goal or score menu is told to
      choose subjects first; the pending subject and the bot state are
      untouched. */
  lemma EmptyMenuKeepsConversation(flow: Flow, s: Session, u: Update, catalog: seq<(string, string)>)
    requires Enter(s, u).result.Ok? && !IsPick(flow, u)
    ensures MenuStep(flow, s, u, catalog, []) == Outcome(ChooseSubjectsFirst, s.(db := Enter(s, u).db))
  {
  }

  /** Picking a subject, from the picker handler or from the menu handler
      entered with a picker payload, waits for that flow's number and
      remembers the subject, replacing any earlier pending subject of the
      user; other users are unaffected. */
  lemma PickRemembers(flow: Flow, s: Session, u: Update, catalog: seq<(string, string)>, id: string, listing: seq<Subject>)
    requires Enter(s, u).result.Ok?
    requires u.isCallback && u.text == PickPrefix(flow) + id
    ensures var userId := Enter(s, u).result.value.id;
            var o := PickStep(flow, s, u, catalog);
            && o == MenuStep(flow, s, u, catalog, listing)
            && o.reply == AskValue(flow, Lookup(catalog, id))
            && o.session.pending[userId] == id
            && StateOf(o.session.states, userId) == Awaiting(flow)
            && (forall other | other != userId ::
                  && (other in o.session.pending <==> other in s.pending)
                  && (other in s.pending ==> o.session.pending[other] == s.pending[other])
                  && StateOf(o.session.states, other) == StateOf(s.states, other))
  {
    PickRoundTrip(PickPrefix(flow), id);
  }

  /** Every picker button leads back to its subject: pressed, it reaches the
      picker handler (unless the id begins with "menu_") and leaves that
      subject pending. */
  lemma {:induction false} PickerButtonsLeadBack(flow: Flow, s: Session, u: Update, catalog: seq<(string, string)>,
                                                 listing: seq<Subject>, i: int, press: Update)
    requires WellFormed(s.db) && Enter(s, u).result.Ok? && !IsPick(flow, u) && 0 <= i < |listing|
    requires var o := MenuStep(flow, s, u, catalog, listing);
             press == Update(true, o.reply.buttons[i].payload, u.from)
    ensures var o := MenuStep(flow, s, u, catalog, listing);
            && o.reply.SubjectPicker? && |o.reply.buttons| == |listing|
            && o.reply.buttons[i].text == listing[i].name
            && RouteCallback(press.text) == (
                 if StartsWith(listing[i].id, "menu_") then (if flow == GoalFlow then ToDesiredScoreMenu else ToAddScoreMenu)
                 else (if flow == GoalFlow then ToDesiredScorePick else ToAddScorePick))
            && var after := PickStep(flow, o.session, press, catalog);
            && after.reply == AskValue(flow, Lookup(catalog, listing[i].id))
            && after.session.pending[Enter(s, u).result.value.id] == listing[i].id
  {
    var o := MenuStep(flow, s, u, catalog, listing);
    assert o.session == s.(db := Enter(s, u).db);
    RouteOfPayloads(listing[i].id);
    PickRoundTrip(PickPrefix(flow), listing[i].id);
    EnterRegisters(s, u);
    UpsertIdempotent(s.db, u.from);
    assert Enter(o.session, press) == Enter(s, u);
  }

  /** The subjects menu lists every catalog entry once, in catalog order, two
      to a row, and marks exactly the subjects the user is subscribed to
      after the optional toggle. */
  lemma {:induction false} SubjectsMenuMarks(s: Session, u: Update, catalog: seq<(string, string)>, listing: seq<Subject>)
    requires WellFormed(s.db) && SubjectsQuery(s, u).Some?
    requires var q := SubjectsQuery(s, u).value;
             IsUserSubjects(q.1, q.0, Ok(listing))
    ensures var q := SubjectsQuery(s, u).value;
            var o := SubjectsMenuStep(s, u, catalog, listing);
            && o.reply.SubjectsMenu?
            && o.session == s.(db := q.1)
            && |o.reply.chosen| == |listing|
            && Flatten(o.reply.rows) == seq(|catalog|, i requires 0 <= i < |catalog| => SubjectButton(catalog[i], SubscribedIds(q.1, q.0)))
            && |o.reply.rows| == (|catalog| + 1) / 2
            && WellFormed(q.1)
  {
    var q := SubjectsQuery(s, u).value;
    var userId, db := q.0, q.1;
    EnterRegisters(s, u);
    var entered := Enter(s, u).db;
    if IsToggle(u) {
      SwitchWellFormed(entered, userId, ToggledSubject(u.text));
    }
    assert WellFormed(db);
    ListingIds(db, userId, listing);
    var buttons := seq(|catalog|, i requires 0 <= i < |catalog| => SubjectButton(catalog[i], SubscribedIds(db, userId)));
    LayoutShape(buttons);
  }

  /** The ids of the subjects query's listing are the user's subscribed ids. */
  lemma ListingIds(db: Db, userId: int, listing: seq<Subject>)
    requires WellFormed(db) && IsUserSubjects(db, userId, Ok(listing))
    ensures (set x | x in listing :: x.id) == SubscribedIds(db, userId)
  {
    var chosen := set x | x in listing :: x.id;
    var joined := set x | x in SubscribedIds(db, userId) && x in db.subjects :: db.subjects[x];
    assert (set x | x in listing) == joined;
    forall x | x in listing ensures x.id in SubscribedIds(db, userId) {
      assert x in joined;
    }
    forall k | k in SubscribedIds(db, userId) ensures k in chosen {
      assert db.subjects[k] in joined;
      assert db.subjects[k] in (set x | x in listing);
    }
  }

  /** The session a pick leaves on a well-formed store. */
  lemma PickSession(flow: Flow, s: Session, pick: Update, catalog: seq<(string, string)>, id: string)
    requires WellFormed(s.db) && CreateAccepts(pick.from)
    requires pick.isCallback && pick.text == PickPrefix(flow) + id
    ensures var middle := PickStep(flow, s, pick, catalog).session;
            && WellFormed(middle.db) && middle.db.subjects == s.db.subjects
            && middle.pending[pick.from["id"].i] == id
  {
    EnterRegisters(s, pick);
    PickRemembers(flow, s, pick, catalog, id, []);
  }

  /** Choosing a subject for a goal and then replying with a number in range
      saves that number as the goal of the chosen subject and ends the
      conversation. */
  lemma {:induction false} PickThenGoalReply(s: Session, pick: Update, reply: Update, catalog: seq<(string, string)>, id: string)
    requires WellFormed(s.db) && CreateAccepts(pick.from) && reply.from == pick.from
    requires pick.isCallback && pick.text == DesiredScorePrefix + id && id != "" && id in s.db.subjects
    requires ParseInt(reply.text).Some? && InRange(ParseInt(reply.text).value)
    ensures var userId, value := pick.from["id"].i, ParseInt(reply.text).value;
            var middle := PickStep(GoalFlow, s, pick, catalog).session;
            var o := ValueReplyStep(GoalFlow, middle, reply, catalog);
            && o.reply == GoalSaved(value, Lookup(catalog, id))
            && (userId, id) in o.session.db.subscriptions
            && o.session.db.subscriptions[(userId, id)].desiredScore == Some(value)
            && userId !in o.session.pending
            && StateOf(o.session.states, userId) == Idle
  {
    var userId, value := pick.from["id"].i, ParseInt(reply.text).value;
    var middle := PickStep(GoalFlow, s, pick, catalog).session;
    assert WellFormed(middle.db) && id in middle.db.subjects && middle.pending[userId] == id by {
      PickSession(GoalFlow, s, pick, catalog, id);
    }
    var o := ValueReplyStep(GoalFlow, middle, reply, catalog);
    assert o.reply == GoalSaved(value, Lookup(catalog, id))
        && (userId, id) in o.session.db.subscriptions
        && o.session.db.subscriptions[(userId, id)].desiredScore == Some(value) by {
      GoalReplyOutcome(middle, reply, catalog);
    }
    assert userId !in o.session.pending && StateOf(o.session.states, userId) == Idle by {
      EnterRegisters(middle, reply);
      ClearedBeforePersist(GoalFlow, middle, reply, catalog, 0);
    }
  }

  /** The state a pick sets decides who handles the sender's next text
      message: it goes to the reply handler of the flow that was picked. */
  lemma {:induction false} PickThenMessage(flow: Flow, s: Session, pick: Update, text: Update, catalog: seq<(string, string)>)
    requires WellFormed(s.db) && CreateAccepts(pick.from) && SenderId(text) == SenderId(pick)
    ensures var middle := PickStep(flow, s, pick, catalog).session;
            MessageStep(middle, text, catalog) == ValueReplyStep(flow, middle, text, catalog)
  {
    EnterRegisters(s, pick);
  }

  /** A text message from a sender with no awaiting state reaches no handler:
      nothing is replied and the session, store included, stays as it was. */
  lemma IdleMessageIgnored(s: Session, u: Update, catalog: seq<(string, string)>)
    requires SenderId(u).None? || StateOf(s.states, SenderId(u).value) == Idle
    ensures MessageStep(s, u, catalog) == Outcome(Unhandled, s)
  {
  }

  /** A reply that reaches the persistence call ends the conversation: the
      sender's next text message, whatever the save did, reaches no handler.
      A reply that is refused keeps the state, so the next message goes to
      the same handler again. */
  lemma {:induction false} ReplyEndsConversation(flow: Flow, s: Session, u: Update, next: Update, catalog: seq<(string, string)>)
    requires WellFormed(s.db) && CreateAccepts(u.from) && SenderId(next) == SenderId(u)
    requires StateOf(s.states, u.from["id"].i) == Awaiting(flow)
    ensures var o := MessageStep(s, u, catalog);
            var userId := u.from["id"].i;
            if ParseInt(u.text).Some? && InRange(ParseInt(u.text).value) && userId in s.pending && s.pending[userId] != ""
            then MessageStep(o.session, next, catalog).reply == Unhandled
            else MessageStep(o.session, next, catalog) == ValueReplyStep(flow, o.session, next, catalog)
  {
    EnterRegisters(s, u);
    var userId := u.from["id"].i;
    var o := MessageStep(s, u, catalog);
    assert o == ValueReplyStep(flow, s, u, catalog);
    if ParseInt(u.text).Some? && InRange(ParseInt(u.text).value) && userId in s.pending && s.pending[userId] != "" {
      ClearedBeforePersist(flow, s, u, catalog, 0);
    } else {
      assert o.session.states == s.states;
    }
  }
}
