/** The handlers of handlers/goals_and_subjects.py over a store and the
    conversation state they keep: the module-level map of pending subjects
    and the bot's per-user state, both changed in place. Each handler is
    proved equal to its Goals step function. */
module Handlers {
  import opened Results
  import opened Models
  import opened Decimal
  import opened Payloads
  import opened Keyboard
  import opened Catalog
  import opened Goals
  import CrudSpec
  import Crud
  import CrudProperties
  import GoalsProperties

  class Conversation {
    /** `pending_user_subjects`: the subject a user is about to send a number
        for. */
    var pending: map<int, string>
    /** The bot state storage, keyed by user; no entry means Idle. */
    var states: map<int, ConvState>
    /** The subject catalog (id, display name) in its own order. */
    const catalog: seq<(string, string)>

    constructor (catalog: seq<(string, string)>)
      ensures this.catalog == catalog && pending == map[] && states == map[]
    {
      this.catalog := catalog;
      pending, states := map[], map[];
    }

    /** The session these fields and the store make up. */
    function At(db: Crud.Store): Session
      reads this, db
    {
      Session(db.Snapshot(), pending, states)
    }

    /** set_subjects_handler: upsert the sender, apply a toggle payload, then
        show the catalog with the user's subjects marked. */
    method SetSubjects(db: Crud.Store, u: Update) returns (reply: Reply, ghost listing: seq<Subject>)
      requires db.Valid()
      modifies db
      ensures db.Valid()
      ensures var q := SubjectsQuery(old(At(db)), u);
              q.Some? ==> CrudSpec.IsUserSubjects(q.value.1, q.value.0, Ok(listing))
      ensures Outcome(reply, At(db)) == SubjectsMenuStep(old(At(db)), u, catalog, listing)
    {
      ghost var before := At(db);
      var entered := db.CreateOrUpdateUser(u.from);
      if entered.Err? {
        return Raised(entered.error), [];
      }
      var userId := entered.value.id;
      GoalsProperties.EnterRegisters(before, u);
      if u.isCallback && u.text != "" {
        if StartsWith(u.text, SetSubjectPrefix) || StartsWith(u.text, UnsetSubjectPrefix) {
          ghost var untoggled := db.Snapshot();
          var toggled := db.SwitchSubjectForUser(userId, ToggledSubject(u.text));
          if toggled.Err? {
            return Raised(toggled.error), [];
          }
          CrudProperties.SwitchKeepsUsers(untoggled, userId, ToggledSubject(u.text));
        }
      }
      assert userId in db.users;
      var subjects := db.GetUserSubjects(userId);
      var mine := subjects.value;
      listing := mine;
      reply := MenuReply(mine);
    }

    /** The keyboard set_subjects_handler builds for the user's subjects. */
    method MenuReply(mine: seq<Subject>) returns (reply: Reply)
      ensures reply == SubjectsMenuOf(catalog, mine)
    {
      var chosen := set x | x in mine :: x.id;
      var buttons := BuildSubjectButtons(catalog, chosen);
      var rows := LayoutRows(buttons);
      var names := seq(|mine|, i requires 0 <= i < |mine| => mine[i].name);
      assert buttons == seq(|catalog|, i requires 0 <= i < |catalog| => SubjectButton(catalog[i], chosen));
      reply := SubjectsMenu(names, rows);
    }

    /** set_desired_score_menu_handler (GoalFlow) and add_score_menu_handler
        (ScoreFlow): a picker payload goes straight to the number prompt;
        otherwise the user's subjects become picker buttons. */
    method OpenMenu(flow: Flow, db: Crud.Store, u: Update) returns (reply: Reply, ghost listing: seq<Subject>)
      requires db.Valid()
      modifies this, db
      ensures db.Valid()
      ensures var q := MenuQuery(flow, old(At(db)), u);
              q.Some? ==> CrudSpec.IsUserSubjects(q.value.1, q.value.0, Ok(listing))
      ensures Outcome(reply, At(db)) == MenuStep(flow, old(At(db)), u, catalog, listing)
    {
      ghost var before := At(db);
      var entered := db.CreateOrUpdateUser(u.from);
      if entered.Err? {
        return Raised(entered.error), [];
      }
      var userId := entered.value.id;
      GoalsProperties.EnterRegisters(before, u);
      var prefix := PickPrefix(flow);
      if u.isCallback && StartsWith(u.text, prefix) {
        var subjectId := Drop(u.text, |prefix|);
        var name := Lookup(catalog, subjectId);
        states := states[userId := Awaiting(flow)];
        pending := pending[userId := subjectId];
        return AskValue(flow, name), [];
      }
      var subjects := db.GetUserSubjects(userId);
      var mine := subjects.value;
      listing := mine;
      if |mine| == 0 {
        return ChooseSubjectsFirst, listing;
      }
      var buttons := BuildPickerButtons(mine, prefix);
      assert buttons == seq(|mine|, i requires 0 <= i < |mine| => PickerButton(mine[i], prefix));
      reply := SubjectPicker(flow, buttons);
    }

    /** set_desired_score_callback_handler (GoalFlow) and
        add_score_callback_handler (ScoreFlow). */
    method Pick(flow: Flow, db: Crud.Store, u: Update) returns (reply: Reply)
      requires db.Valid()
      modifies this, db
      ensures db.Valid()
      ensures Outcome(reply, At(db)) == PickStep(flow, old(At(db)), u, catalog)
    {
      var entered := db.CreateOrUpdateUser(u.from);
      if entered.Err? {
        return Raised(entered.error);
      }
      var userId := entered.value.id;
      var subjectId := Drop(u.text, |PickPrefix(flow)|);
      var name := Lookup(catalog, subjectId);
      states := states[userId := Awaiting(flow)];
      pending := pending[userId := subjectId];
      reply := AskValue(flow, name);
    }

    /** insert_desired_score_handler (GoalFlow) and insert_score_handler
        (ScoreFlow), as written. */
    method InsertValue(flow: Flow, db: Crud.Store, u: Update) returns (reply: Reply)
      requires db.Valid()
      modifies this, db
      ensures db.Valid()
      ensures Outcome(reply, At(db)) == ValueReplyStep(flow, old(At(db)), u, catalog)
    {
      var entered := db.CreateOrUpdateUser(u.from);
      if entered.Err? {
        return Raised(entered.error);
      }
      var userId := entered.value.id;
      var parsed := ParseInt(u.text);
      if parsed.None? {
        return RetryNotInt;
      }
      var value := parsed.value;
      if !(0 <= value <= 100) {
        return RetryRange;
      }
      if userId !in pending || pending[userId] == "" {
        return Restart(flow);
      }
      var subjectId := pending[userId];
      var name := Lookup(catalog, subjectId);
      pending := pending - {userId};
      states := states - {userId};
      if flow == GoalFlow {
        var saved := db.SetDesiredScore(userId, subjectId, value);
        reply := if saved.Ok? then GoalSaved(value, name) else SaveFailed;
      } else {
        // add_score is called with keywords it does not declare: the call
        // raises TypeError before the store is reached, and `except
        // Exception` answers with the generic failure.
        reply := SaveFailed;
      }
    }

    /** A text message that no command handler claims: the state filter
        hands it to the reply handler of the sender's awaiting state, or to
        no handler when the sender has none. */
    method HandleMessage(db: Crud.Store, u: Update) returns (reply: Reply)
      requires db.Valid()
      modifies this, db
      ensures db.Valid()
      ensures Outcome(reply, At(db)) == MessageStep(old(At(db)), u, catalog)
    {
      var state := Idle;
      if "id" in u.from && u.from["id"].IntVal? && u.from["id"].i in states {
        state := states[u.from["id"].i];
      }
      match state
      case Idle => reply := Unhandled;
      case AwaitingDesiredScore => reply := InsertValue(GoalFlow, db, u);
      case WaitingForScoreInput => reply := InsertValue(ScoreFlow, db, u);
    }

    /** insert_score_handler with add_score called as its parameters allow:
        the score is stored under the pending subject with the catalog
        name. `now` is the database clock. */
    method InsertScoreValue(db: Crud.Store, u: Update, now: int) returns (reply: Reply)
      requires db.Valid()
      modifies this, db
      ensures db.Valid()
      ensures Outcome(reply, At(db)) == ScoreReplyIntended(old(At(db)), u, catalog, now)
    {
      var entered := db.CreateOrUpdateUser(u.from);
      if entered.Err? {
        return Raised(entered.error);
      }
      var userId := entered.value.id;
      var parsed := ParseInt(u.text);
      if parsed.None? {
        return RetryNotInt;
      }
      var value := parsed.value;
      if !(0 <= value <= 100) {
        return RetryRange;
      }
      if userId !in pending || pending[userId] == "" {
        return Restart(ScoreFlow);
      }
      var subjectId := pending[userId];
      var name := Lookup(catalog, subjectId);
      pending := pending - {userId};
      states := states - {userId};
      var added := db.InsertScore(PlainScoreDraft(userId, subjectId, name, value), now);
      reply := if added.Ok? then ScoreSaved(value, name) else SaveFailed;
    }
  }
}
