/** The conversation of handlers/goals_and_subjects.py as functions of a
    session: the store, the module-level map of pending subjects and the
    per-user bot state. Each handler step returns the bot's reply and the
    session after it. */
module Goals {
  import opened Results
  import opened Values
  import opened Exceptions
  import opened Models
  import opened Decimal
  import opened Payloads
  import opened Keyboard
  import opened Catalog
  import CrudSpec

  /** The bot state of one user; a user with no stored state is Idle. */
  datatype ConvState = Idle | AwaitingDesiredScore | WaitingForScoreInput

  /** The two pick-then-reply conversations: a goal (desired score) and a
      score (exam result). */
  datatype Flow = GoalFlow | ScoreFlow

  function PickPrefix(flow: Flow): string {
    if flow == GoalFlow then DesiredScorePrefix else AddScorePrefix
  }

  function Awaiting(flow: Flow): ConvState {
    if flow == GoalFlow then AwaitingDesiredScore else WaitingForScoreInput
  }

  /** A message or a callback query, reduced to what the handlers read:
      whether it is a callback, its text or payload, and the sender's
      attributes as passed to create_or_update_user. */
  datatype Update = Update(isCallback: bool, text: string, from: map<string, Value>)

  datatype Reply =
    | SubjectsMenu(chosen: seq<string>, rows: seq<Row>)
    | ChooseSubjectsFirst
    | SubjectPicker(flow: Flow, buttons: seq<Button>)
    | AskValue(flow: Flow, subjectName: Option<string>)
    | RetryNotInt
    | RetryRange
    | Restart(flow: Flow)
    | GoalSaved(value: int, subjectName: Option<string>)
    | ScoreSaved(value: int, subjectName: Option<string>)
    | SaveFailed
      /** The exception leaves the handler: nothing is sent. */
    | Raised(error: Error)
      /** No handler takes the message: nothing is sent or written. */
    | Unhandled

  datatype Session = Session(db: CrudSpec.Db, pending: map<int, string>, states: map<int, ConvState>)

  datatype Outcome = Outcome(reply: Reply, session: Session)

  function StateOf(states: map<int, ConvState>, userId: int): ConvState {
    if userId in states then states[userId] else Idle
  }

  /** The accepted range of goals and scores, both ends included. */
  predicate InRange(value: int) {
    0 <= value <= 100
  }

  /** The upsert of the sender that opens every handler. */
  function Enter(s: Session, u: Update): CrudSpec.Step<User> {
    CrudSpec.CreateOrUpdateUser(s.db, u.from)
  }

  // ------------------------------------------------------------- subjects

  /** A subjects-menu callback asks to toggle a subject. */
  predicate IsToggle(u: Update) {
    u.isCallback && u.text != ""
    && (StartsWith(u.text, SetSubjectPrefix) || StartsWith(u.text, UnsetSubjectPrefix))
  }

  /** Where set_subjects_handler queries the user's subjects: the user and the
      store after the optional toggle; None when an exception left first. */
  function SubjectsQuery(s: Session, u: Update): Option<(int, CrudSpec.Db)> {
    var entered := Enter(s, u);
    if entered.result.Err? then None
    else
      var userId := entered.result.value.id;
      if IsToggle(u) then
        var toggled := CrudSpec.SwitchSubjectForUser(entered.db, userId, ToggledSubject(u.text));
        if toggled.result.Err? then None else Some((userId, toggled.db))
      else Some((userId, entered.db))
  }

  /** set_subjects_handler, given the listing its subjects query returned. */
  function SubjectsMenuStep(s: Session, u: Update, catalog: seq<(string, string)>, listing: seq<Subject>): Outcome {
    var entered := Enter(s, u);
    if entered.result.Err? then Outcome(Raised(entered.result.error), s.(db := entered.db))
    else
      var userId := entered.result.value.id;
      var toggled :=
        if IsToggle(u) then CrudSpec.SwitchSubjectForUser(entered.db, userId, ToggledSubject(u.text))
        else CrudSpec.Step(Ok(()), entered.db);
      if toggled.result.Err? then Outcome(Raised(toggled.result.error), s.(db := toggled.db))
      else Outcome(SubjectsMenuOf(catalog, listing), s.(db := toggled.db))
  }

  /** The subjects menu: the listed names, and every catalog entry as a
      button marked when the user has that subject. */
  function SubjectsMenuOf(catalog: seq<(string, string)>, listing: seq<Subject>): Reply {
    var chosen := set x | x in listing :: x.id;
    var buttons := seq(|catalog|, i requires 0 <= i < |catalog| => SubjectButton(catalog[i], chosen));
    var names := seq(|listing|, i requires 0 <= i < |listing| => listing[i].name);
    SubjectsMenu(names, Layout(buttons))
  }

  // ------------------------------------------------------ goal/score menus

  /** The goal or score menu was entered through one of its picker payloads. */
  predicate IsPick(flow: Flow, u: Update) {
    u.isCallback && StartsWith(u.text, PickPrefix(flow))
  }

  /** Remember the picked subject and wait for the user's number. */
  function Pick(flow: Flow, s: Session, db: CrudSpec.Db, userId: int, subjectId: string,
                catalog: seq<(string, string)>): Outcome
  {
    Outcome(AskValue(flow, Lookup(catalog, subjectId)),
            Session(db, s.pending[userId := subjectId], s.states[userId := Awaiting(flow)]))
  }

  /** Where a menu handler queries the user's subjects; None when it does not
      reach the query. */
  function MenuQuery(flow: Flow, s: Session, u: Update): Option<(int, CrudSpec.Db)> {
    var entered := Enter(s, u);
    if entered.result.Err? || IsPick(flow, u) then None
    else Some((entered.result.value.id, entered.db))
  }

  /** set_desired_score_menu_handler (GoalFlow) and add_score_menu_handler
      (ScoreFlow), given the listing their subjects query returned. */
  function MenuStep(flow: Flow, s: Session, u: Update, catalog: seq<(string, string)>, listing: seq<Subject>): Outcome {
    var entered := Enter(s, u);
    if entered.result.Err? then Outcome(Raised(entered.result.error), s.(db := entered.db))
    else
      var userId := entered.result.value.id;
      if IsPick(flow, u) then
        Pick(flow, s, entered.db, userId, Drop(u.text, |PickPrefix(flow)|), catalog)
      else if listing == [] then
        Outcome(ChooseSubjectsFirst, s.(db := entered.db))
      else
        var buttons := seq(|listing|, i requires 0 <= i < |listing| => PickerButton(listing[i], PickPrefix(flow)));
        Outcome(SubjectPicker(flow, buttons), s.(db := entered.db))
  }

  /** set_desired_score_callback_handler (GoalFlow) and
      add_score_callback_handler (ScoreFlow). */
  function PickStep(flow: Flow, s: Session, u: Update, catalog: seq<(string, string)>): Outcome {
    var entered := Enter(s, u);
    if entered.result.Err? then Outcome(Raised(entered.result.error), s.(db := entered.db))
    else Pick(flow, s, entered.db, entered.result.value.id, Drop(u.text, |PickPrefix(flow)|), catalog)
  }

  // -------------------------------------------------------- value replies

  /** The part the two reply handlers share, up to the persistence call: the
      parse, the range check, the pending lookup and the clean-up. Done(o)
      ends the handler with o; Persist carries the user, subject, value and
      the session the persistence call starts from. */
  datatype Prelude = Done(outcome: Outcome) | Persist(userId: int, subjectId: string, value: int, cleared: Session)

  function ReplyPrelude(flow: Flow, s: Session, u: Update): Prelude {
    var entered := Enter(s, u);
    if entered.result.Err? then Done(Outcome(Raised(entered.result.error), s.(db := entered.db)))
    else
      var userId := entered.result.value.id;
      var kept := s.(db := entered.db);
      match ParseInt(u.text)
      case None => Done(Outcome(RetryNotInt, kept))
      case Some(value) =>
        if !InRange(value) then Done(Outcome(RetryRange, kept))
        else if userId !in s.pending || s.pending[userId] == "" then Done(Outcome(Restart(flow), kept))
        else
          Persist(userId, s.pending[userId], value,
                  Session(entered.db, s.pending - {userId}, s.states - {userId}))
  }

  /** insert_desired_score_handler (GoalFlow) and insert_score_handler
      (ScoreFlow) as written. The score handler's call to add_score raises
      before reaching the store, and the handler's `except Exception` turns
      that into the generic failure reply. */
  function ValueReplyStep(flow: Flow, s: Session, u: Update, catalog: seq<(string, string)>): Outcome {
    match ReplyPrelude(flow, s, u)
    case Done(o) => o
    case Persist(userId, subjectId, value, cleared) =>
      var name := Lookup(catalog, subjectId);
      if flow == GoalFlow then
        var saved := CrudSpec.SetDesiredScore(cleared.db, userId, subjectId, value);
        Outcome(if saved.result.Ok? then GoalSaved(value, name) else SaveFailed, cleared.(db := saved.db))
      else
        Outcome(SaveFailed, cleared)
  }

  /** insert_score_handler with add_score called as its parameters allow and
      the catalog name passed through. */
  function ScoreReplyIntended(s: Session, u: Update, catalog: seq<(string, string)>, now: int): Outcome {
    match ReplyPrelude(ScoreFlow, s, u)
    case Done(o) => o
    case Persist(userId, subjectId, value, cleared) =>
      var name := Lookup(catalog, subjectId);
      var added := CrudSpec.InsertScore(cleared.db, PlainScoreDraft(userId, subjectId, name, value), now);
      Outcome(if added.result.Ok? then ScoreSaved(value, name) else SaveFailed, cleared.(db := added.db))
  }

  // ------------------------------------------------------ state dispatch

  /** The sender's id, under which the bot state storage keeps the state
      (`message.from_user.id`); None when the sender carries no int id. */
  function SenderId(u: Update): Option<int> {
    if "id" in u.from && u.from["id"].IntVal? then Some(u.from["id"].i) else None
  }

  /** A text message that no command handler claims. The state filter gives
      it to insert_desired_score_handler in AWAITING_USER_DESIRED_SCORE and
      to insert_score_handler in WAITING_FOR_SCORE_INPUT; in any other state
      no handler runs, so not even the sender's upsert happens. */
  function MessageStep(s: Session, u: Update, catalog: seq<(string, string)>): Outcome {
    var state := if SenderId(u).Some? then StateOf(s.states, SenderId(u).value) else Idle;
    match state
    case Idle => Outcome(Unhandled, s)
    case AwaitingDesiredScore => ValueReplyStep(GoalFlow, s, u, catalog)
    case WaitingForScoreInput => ValueReplyStep(ScoreFlow, s, u, catalog)
  }
}
