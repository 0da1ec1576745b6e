# EGE scores bot: a Dafny model of its data layer, goal and score dialogues, and statistics

The bot helps a student preparing for the Russian unified state exam (EGE)
keep track of their subjects, a goal score per subject, and the scores of
practice attempts. This project models three parts of it in Dafny.

- **Storage layer** (`db/crud.py`, `db/models.py`, `db/exceptions.py`,
  `utils/validators.py`). The tables are users, subjects, user–subject
  subscriptions with an optional goal, and scores.
  - `CrudSpec` states each CRUD function as a pure function of the tables,
    returning a result and the new tables (`Step`). Error paths are
    explicit: a `Result` carries the Python exception as `Error(kind,
    message)`. The exception class hierarchy is in `Exceptions`.
  - `Crud.Store` is a class whose fields are the tables. Each method is
    proved to produce exactly the `CrudSpec` step and to keep the key
    constraints (`Valid`).
  - `CrudProperties` proves what the functions promise: upsert semantics,
    toggling, all-or-nothing catalog creation, and the error cases.
- **Goal and score dialogues** (`handlers/goals_and_subjects.py`).
  - `Payloads`: callback payloads (`set_subject_<id>`, …) with Python's
    `startswith`, slicing and `split("_", 2)[-1]`, and which registered
    handler a payload reaches.
  - `Keyboard`: the subjects menu and the subject pickers.
  - `Goals`: every handler as a step function over a `Session` (the
    store, the module-level `pending_user_subjects` map and the per-user
    bot state). `MessageStep` is the state filter: it reads the sender's
    state to decide which reply handler, if any, gets a text message.
  - `GoalsProperties`: the conversation properties.
  - `Handlers.Conversation`: a class holding the pending map and the
    states. Its methods drive a `Crud.Store` and are proved equal to the
    step functions.
- **Aggregation** (`utils/stats.py` and the per-subject loop of
  `utils/simple_charts.py`).
  - `Grouping`: the insertion-ordered dictionary of lists that
    `data[key].append(value)` builds.
  - `Stats`: the chart series and the counts and maximum behind the
    statistics message.
  - `TimeSort`: the stable timestamp sort, both as a function and in
    place on an array.
  - `Charts`: the colour table, the label fallback, and the legend loop
    over in-place-sorted arrays.

Timestamps are integers. The database clock is a `now` parameter. The
subject catalog (`utils/subjects.py`, which is not part of this model) is a
parameter everywhere: an ordered sequence of (id, name) pairs.

A score reply of "78" after a subject is picked is meant to store a score
row: the handler's success branch confirms the save and reads the stored
scores back (`handlers/goals_and_subjects.py:331-338`). As written, the code
never stores one (second finding below), and the model follows the code as
written, with the corrected call modelled beside it. The subject list of a user is an inner join of subscriptions and
subjects, as `db/crud.py:214` queries it.

## Model

| member | source | states |
|---|---|---|
| Decimal.NatToStringRoundTrip | handlers/goals_and_subjects.py:255 | the digits of a natural number read back to that number |
| Decimal.IntToStringRoundTrip | handlers/goals_and_subjects.py:255 | `int()` of the decimal text of any integer, sign included, gives the integer back |
| Decimal.IntToStringInjective | handlers/goals_and_subjects.py:303 | distinct integers have distinct decimal texts |
| Exceptions.Hierarchy | db/exceptions.py:3-39 | over the table of direct base classes (`Exceptions.Base`, one entry per `class X(Y)`), every class of the module is a CrudError and hence a SQLAlchemyError; the NotFoundErrors are exactly NotFound and its three subclasses |
| Exceptions.RewrapStorageError | db/crud.py:121-123 | an error an `except SQLAlchemyError` catches becomes CrudError(message); any other error passes unchanged |
| Exceptions.NotFoundIsRewrapped | db/crud.py:115-123 | a not-found error raised inside that `try` leaves as a CrudError of a different class |
| Exceptions.NotFoundMessageShape | db/exceptions.py:8-16 | "<entity> not found" without an identifier, "<entity> with identifier <id> not found" with one |
| Exceptions.AlreadyExistsMessage | db/exceptions.py:26-30 | a falsy id (0 or None) is left out of the message; any other id is printed in it |
| Models.PlainScoreDraft | db/crud.py:99 | the score add_score builds has no exam date and is not final |
| Models.Stored | db/models.py:48-58 | a stored score keeps the draft's fields and gets the database's id and creation time |
| Validators.ValidateUserDataCreate | utils/validators.py:4-24 | accepted iff `id` is an int and `first_name` a str, with optional str fields; the result is exactly the model's fields, missing optionals set to None, others copied |
| Validators.ValidateUserDataUpdate | utils/validators.py:15-28 | accepted iff `first_name` is a str and the optionals are str or None; the result keeps only the update fields that were given, unchanged, never `id` |
| Validators.ExtraKeysIgnored | utils/validators.py:4-20 | adding a key outside the model changes neither validation |
| Validators.ProjectionsIdempotent | utils/validators.py:22-28 | validating an accepted projection again returns it unchanged |
| Validators.UpdateIsRestrictedCreate | utils/validators.py:4-28 | data the create model accepts is accepted by the update model, and its update projection is the create projection restricted to the given keys other than `id` |
| CrudSpec.UserRow | db/crud.py:15 | the row built from a create projection carries its id and fields |
| CrudProperties.CreateUserTakenId | db/crud.py:13-23 | create_user on a taken id raises UserAlreadyExistsError and writes nothing |
| CrudProperties.PatchOfCreatedRow | db/crud.py:41-59 | patching a row with the update projection of the payload it was created from gives the same row |
| CrudProperties.PatchIdempotent | db/crud.py:47 | applying an update patch twice equals applying it once |
| CrudProperties.UpsertEffect | db/crud.py:63-71 | on an accepted payload, create_or_update_user inserts an absent id or patches the present row, returns the row under that id, and changes only the users table |
| CrudProperties.UpsertWellFormed | db/crud.py:63-71 | the upsert keeps every table keyed by its rows' ids |
| CrudProperties.UpsertIdempotent | db/crud.py:63-71 | a second upsert of the same payload changes nothing and returns the same user |
| CrudProperties.UpsertLatestWins | db/crud.py:63-71 | two upserts for one id leave exactly one row with that id |
| CrudProperties.UpdateUserUnknownId | db/crud.py:40-43 | update_user on an unknown id raises UserNotFoundError before validating and writes nothing |
| CrudProperties.UpdateOfVanishedRow | db/crud.py:47-59 | a row gone before the UPDATE gives UserNotFoundError, re-raised as CrudError("Failed to update user") |
| CrudProperties.ChecksBeforeWrite | db/crud.py:185-290 | add, remove and set-goal raise UserNotFoundError for an unknown user, then SubjectNotFoundError for an unknown subject, writing nothing |
| CrudProperties.SwitchFlips | db/crud.py:248-253 | a toggle of a known pair flips whether it is subscribed and changes nothing else |
| CrudProperties.SwitchTwice | db/crud.py:248-253 | toggling twice restores the subscription of the pair |
| CrudProperties.SwitchWellFormed | db/crud.py:248-253 | a toggle, failing or not, keeps the tables well formed |
| CrudProperties.SwitchUnknownSubject | db/crud.py:248-253 | toggling an unknown subject for a known user raises SubjectNotFoundError and writes nothing |
| CrudProperties.SwitchKeepsUsers | db/crud.py:248-253 | a toggle, failing or not, leaves the users table as it was |
| CrudProperties.SetDesiredScoreUpserts | db/crud.py:256-290 | set_desired_score creates the subscription with the goal or updates the goal of the existing one |
| CrudProperties.ScoresForUserOutcomes | db/crud.py:140-156 | get_all_scores_for_user raises UserNotFoundError for an unknown user, ScoreNotFoundError when nothing matches, and otherwise returns each matching row once |
| CrudProperties.AddScoreAlwaysFails | db/crud.py:98-107 | add_score as written always raises CrudError("Failed to add score") and stores nothing |
| CrudProperties.AddScoreNamedStores | db/crud.py:98-107 | with the subject name supplied, the score is stored under a fresh id and nothing else changes |
| CrudProperties.AddedScoreRetrievable | db/crud.py:140-156 | a score just stored is among those get_all_scores_for_user returns for its user and subject |
| CrudProperties.DeleteScoreEffect | db/crud.py:126-137 | deleting an unknown score raises ScoreNotFoundError; a known one is removed, nothing else changes, and the store stays well formed |
| CrudProperties.DeleteUserEffect | db/crud.py:74-86 | deleting an unknown user raises UserNotFoundError with nothing written; a known one loses exactly its own row, while its subscriptions and scores stay in their tables (no cascade), and the store stays well formed |
| CrudProperties.EditScoreHidesNotFound | db/crud.py:110-123 | edit_existing_score reports an unknown id as CrudError("Failed to update score") and agrees with the intended edit on known ids |
| CrudProperties.EditScoreIntendedReports | db/crud.py:110-123 | the intended edit raises a catchable ScoreNotFoundError for an unknown id, writing nothing; a known score reads back with the new value and the other scores are untouched |
| CrudProperties.CatalogTableRows | db/crud.py:158-164 | create_subjects adds one row per catalog entry under its id, with the default maximum score |
| CrudProperties.CreateSubjectsAllOrNothing | db/crud.py:158-173 | with any catalog id already present, create_subjects fails and writes nothing; otherwise it adds every entry |
| Crud.Store.constructor | db/models.py:9-58 | a new store has empty tables |
| Crud.Store.CreateUser | db/crud.py:13-23 | validates, then inserts a new user or raises UserAlreadyExistsError, as CrudSpec.CreateUser |
| Crud.Store.GetUserById | db/crud.py:26-33 | returns the user iff the id is an int present in the table, else UserNotFoundError |
| Crud.Store.UpdateUser | db/crud.py:36-59 | existence check, then validation, then the patch, as CrudSpec.UpdateUser |
| Crud.Store.CreateOrUpdateUser | db/crud.py:63-71 | create, falling back to update on a taken id, as CrudSpec.CreateOrUpdateUser |
| Crud.Store.DeleteUser | db/crud.py:74-86 | removes a present user or raises UserNotFoundError |
| Crud.Store.GetScoreById | db/crud.py:90-96 | returns the score with that id or ScoreNotFoundError |
| Crud.Store.InsertScore | db/crud.py:99-107 | stores a draft satisfying the NOT NULL columns under the next counter id, else CrudError("Failed to add score") |
| Crud.Store.AddScore | db/crud.py:98-107 | add_score as written, as CrudSpec.AddScore |
| Crud.Store.AddScoreNamed | db/crud.py:98-107 | add_score with the subject name supplied |
| Crud.Store.EditExistingScore | db/crud.py:110-123 | replaces the value of a known score; an unknown id gives the re-wrapped CrudError |
| Crud.Store.DeleteScoreById | db/crud.py:126-137 | removes a known score or raises ScoreNotFoundError |
| Crud.Store.GetAllScoresForUser | db/crud.py:140-156 | a loop over the scores table whose result satisfies CrudSpec.IsScoresForUser: the matching rows, each once, or the two errors |
| Crud.Store.CreateSubjects | db/crud.py:158-173 | a loop over the catalog staging one row per entry, committed all or nothing |
| Crud.Store.GetSubjectById | db/crud.py:176-182 | returns the subject or SubjectNotFoundError |
| Crud.Store.AddSubjectToUser | db/crud.py:185-204 | after the two checks, subscribes the pair without a goal, or raises CrudError on an existing pair |
| Crud.Store.GetUserSubjects | db/crud.py:207-217 | a loop over the subscriptions whose result satisfies CrudSpec.IsUserSubjects: each subscribed catalog subject once, or UserNotFoundError |
| Crud.Store.GetUserSubjectsIds | db/crud.py:220-223 | the distinct ids of the user's subscribed subjects, or UserNotFoundError |
| Crud.Store.RemoveSubjectFromUser | db/crud.py:225-245 | after the two checks, removes the pair's subscription |
| Crud.Store.SwitchSubjectForUser | db/crud.py:248-253 | removes a subscribed pair, adds an unsubscribed one |
| Crud.Store.SetDesiredScore | db/crud.py:256-290 | after the two checks, creates or updates the pair's goal |
| Catalog.Lookup | handlers/goals_and_subjects.py:135 | None exactly when no entry has the id; a name only from an entry with that id |
| Catalog.LookupEntry | handlers/goals_and_subjects.py:269 | with distinct ids, the lookup of an entry's id gives that entry's name |
| Payloads.Drop | handlers/goals_and_subjects.py:133 | `s[k:]` is |s| − k long, or empty past the end |
| Payloads.Find | handlers/goals_and_subjects.py:89 | a found index lies inside the string and holds the separator |
| Payloads.FindAbsent | handlers/goals_and_subjects.py:89 | nothing is found exactly when the separator does not occur |
| Payloads.FindIsFirst | handlers/goals_and_subjects.py:89 | the index found is the first occurrence |
| Payloads.Split | handlers/goals_and_subjects.py:89 | `split(sep, maxsplit)` gives between 1 and maxsplit + 1 pieces |
| Payloads.SplitPieces | handlers/goals_and_subjects.py:89 | no piece but the last holds the separator, nor the last when fewer cuts were made |
| Payloads.SplitJoin | handlers/goals_and_subjects.py:89 | joining the pieces with the separator gives the input back |
| Payloads.SplitTwoWords | handlers/goals_and_subjects.py:89 | after two separator-free words, the rest comes back whole even when it holds separators |
| Payloads.ToggleRoundTrip | handlers/goals_and_subjects.py:87-113 | the id put into a set or unset payload is what `split("_", 2)[-1]` reads back |
| Payloads.ToggledSubjectOf | handlers/goals_and_subjects.py:89 | the id comes back out of any verb_subject_id payload whose verb has no separator |
| Payloads.PickRoundTrip | handlers/goals_and_subjects.py:155-171 | a picker payload starts with its prefix and slicing the prefix off gives the id |
| Payloads.RouteCallback | handlers/goals_and_subjects.py:24-63 | the first registered callback filter that accepts a payload; unrouted exactly when none does |
| Payloads.RouteOfPayloads | handlers/goals_and_subjects.py:24-63 | set/unset payloads reach the subjects handler; a picker payload reaches its picker unless its id starts with "menu_", when the menu handler takes it |
| Keyboard.SubjectButtonToggles | handlers/goals_and_subjects.py:104-115 | every menu button carries its entry's id back, reaches the subjects handler, is an unset payload exactly when the subject is chosen, and is marked then |
| Keyboard.BuildSubjectButtons | handlers/goals_and_subjects.py:102-115 | one button per catalog entry, in catalog order |
| Keyboard.LayoutShape | handlers/goals_and_subjects.py:117-118 | the rows keep every button in order, number ceil(n/2), and only the last of an odd count is single |
| Keyboard.LayoutRows | handlers/goals_and_subjects.py:117-118 | the stepping loop builds exactly that layout |
| Keyboard.BuildPickerButtons | handlers/goals_and_subjects.py:151-157 | one button per subscribed subject in query order, labelled with its name, whose payload gives back its id |
| GoalsProperties.EnterRegisters | handlers/goals_and_subjects.py:84 | the opening upsert succeeds iff the sender's attributes validate, changes only the users table, and registers the sender's id |
| GoalsProperties.BadReplyKeepsConversation | handlers/goals_and_subjects.py:254-262 | a non-number or out-of-range reply gets a retry prompt and keeps the pending subject and the state |
| GoalsProperties.MissingPendingRestarts | handlers/goals_and_subjects.py:264-267 | a valid number with no or an empty pending subject asks the user to start over and changes nothing else |
| GoalsProperties.ClearedBeforePersist | handlers/goals_and_subjects.py:271-272 | once a valid number meets a pending subject, the pending entry and the state are gone whatever the save does |
| GoalsProperties.GoalReplyOutcome | handlers/goals_and_subjects.py:274-295 | the goal reply stores the goal on the pending subject and confirms it when user and subject exist, and answers with the failure text otherwise |
| GoalsProperties.ScoreReplyNeverStores | handlers/goals_and_subjects.py:322-329 | the score reply as written never stores a score and never confirms one |
| GoalsProperties.ScoreReplyIntendedOutcome | handlers/goals_and_subjects.py:322-342 | with add_score called as its parameters allow, the score is stored under the pending subject with the catalog name and confirmed |
| GoalsProperties.EmptyMenuKeepsConversation | handlers/goals_and_subjects.py:144-149 | a user with no subjects opening a menu is told to choose subjects and nothing else changes |
| GoalsProperties.PickRemembers | handlers/goals_and_subjects.py:132-142 | a picked subject becomes pending and the state awaits a number, from either the menu or the picker handler |
| GoalsProperties.PickerButtonsLeadBack | handlers/goals_and_subjects.py:151-184 | pressing a picker button makes its own subject pending |
| GoalsProperties.SubjectsMenuMarks | handlers/goals_and_subjects.py:92-118 | the menu shows each catalog entry once, in order, two per row, marked exactly when subscribed after the toggle |
| GoalsProperties.PickSession | handlers/goals_and_subjects.py:165-184 | after a pick the sender exists and the picked subject is pending with the awaiting state |
| GoalsProperties.PickThenMessage | handlers/goals_and_subjects.py:65-75 | after a pick, the sender's next text message is handled by the reply handler of the flow that was picked |
| GoalsProperties.IdleMessageIgnored | handlers/goals_and_subjects.py:65-75 | a text message from a sender in no awaiting state reaches no handler: no reply, and the store, pending map and states stay as they were |
| GoalsProperties.ReplyEndsConversation | handlers/goals_and_subjects.py:65-75 | a reply that reaches the save leaves the sender's next message unhandled; a refused reply keeps the state, so the next message goes to the same handler |
| GoalsProperties.PickThenGoalReply | handlers/goals_and_subjects.py:165-295 | picking a known subject for a goal and then replying with a number in range stores that goal and returns the user to idle |
| Handlers.Conversation.constructor | handlers/goals_and_subjects.py:17 | no pending subjects and no states |
| Handlers.Conversation.SetSubjects | handlers/goals_and_subjects.py:78-120 | upsert, toggle, query and render exactly as Goals.SubjectsMenuStep, the listing being what the subjects query returns |
| Handlers.Conversation.OpenMenu | handlers/goals_and_subjects.py:123-162 | both menu handlers as Goals.MenuStep |
| Handlers.Conversation.Pick | handlers/goals_and_subjects.py:165-184 | both picker handlers as Goals.PickStep |
| Handlers.Conversation.HandleMessage | handlers/goals_and_subjects.py:65-75 | the state filter as Goals.MessageStep: AWAITING_USER_DESIRED_SCORE goes to the goal reply, WAITING_FOR_SCORE_INPUT to the score reply, any other state to no handler |
| Handlers.Conversation.InsertValue | handlers/goals_and_subjects.py:250-350 | both reply handlers as written, as Goals.ValueReplyStep |
| Handlers.Conversation.InsertScoreValue | handlers/goals_and_subjects.py:298-342 | the corrected score reply, as Goals.ScoreReplyIntended |
| Grouping.GroupByContents | utils/stats.py:8-13 | the dictionary has one key per distinct input key, each list is that key's values in input order and non-empty |
| Grouping.GroupByFirstSeen | utils/stats.py:23-27 | keys are listed in the order of their first occurrence |
| Grouping.GroupBySizes | utils/stats.py:10-11 | the list sizes add up to the input length |
| Grouping.GroupInOrder | utils/stats.py:10-11 | the append loop builds exactly the grouped dictionary |
| Stats.PrepareSimpleChartData | utils/stats.py:7-13 | one entry per subject id that occurs, in first-seen order, each listing that subject's (created_at, score) pairs in input order; sizes sum to the input length |
| Stats.MaxScore | utils/stats.py:21 | a score that occurs and is at least every score |
| Stats.NameGroups | utils/stats.py:23-27 | grouping by subject name lists each name that occurs once, in first-seen order, with as many scores as carry it |
| Stats.CountLines | utils/stats.py:35-37 | one line per grouped name, in order, with its group's size |
| Stats.SubjectLines | utils/stats.py:23-37 | per subject name, in first-seen order, its number of attempts; the counts sum to the number of scores |
| Stats.GetSimpleStats | utils/stats.py:15-39 | no data exactly for an empty history; otherwise the attempt count, the best score, and the per-name counts |
| TimeSort.SortByTimeSorts | utils/simple_charts.py:37 | the sort gives an ascending permutation of its input |
| TimeSort.SortByTimeStable | utils/simple_charts.py:37 | points with the same timestamp keep their relative order |
| TimeSort.InsertInPlace | utils/simple_charts.py:37 | one pass of the in-place insertion sort inserts the next point into the sorted prefix |
| TimeSort.SortSeries | utils/simple_charts.py:37 | the in-place sort leaves the array holding the stable sort of its old contents |
| Charts.ColorOfIsHex | utils/simple_charts.py:8-41 | every colour is a "#RRGGBB" string, and black exactly for a subject the table does not know |
| Charts.LabelOfEntries | utils/simple_charts.py:50 | the label is the catalog name of a known subject and the id itself otherwise |
| Charts.LegendEntries | utils/simple_charts.py:33-52 | one legend entry per non-empty series; each draws that series in date order, in its colour, under its label |
| Charts.DrawOne | utils/simple_charts.py:34-52 | an empty series is skipped; otherwise sorted in place and given one handle and one label |
| Charts.DrawSeries | utils/simple_charts.py:33-52 | every series array ends up sorted and the handles and labels are exactly the legend of the old contents |

## Left out

- Telegram transport: sending, deleting and editing messages, chat ids, the `TelegramEvent` wrapper, and command-message routing by keyword. Replies are datatype values, not texts.
- Message texts and their formatting. This includes the average and maximum that the corrected score reply appends after a successful save (`handlers/goals_and_subjects.py:334-338`).
- Floating-point averages (`utils/stats.py:20,36`). Only counts and maxima are modelled.
- All matplotlib calls, figure layout and PNG export (`utils/simple_charts.py:28-32, 43-47, 54-74`).
- Python's `int()` grammar beyond ASCII digits with an optional sign: surrounding whitespace, underscores and non-ASCII digits are not accepted by `Decimal.ParseInt`.
- pydantic type coercion (for example "5" accepted as an int): the validators accept only values already of the declared type.
- Foreign keys and `ON DELETE CASCADE`: their enforcement depends on the database engine, so deleting a user does not remove their scores or subscriptions here.
- `User.created_at` and the server clock: a score's creation time is the `now` parameter.
- Crud.Store.GetUserById: a non-int id matches no row, where SQLite's integer affinity would match the string "5" to user 5. Every caller passes an int or None, so the difference is not reachable from the bot.
- Crud.Store.InsertScore: score ids come from a counter that never goes back, where SQLite, with a plain INTEGER PRIMARY KEY and no AUTOINCREMENT, gives max(id)+1 and so reuses the id of a deleted top row. No bot flow deletes scores, and no property depends on ids never being reused.
- Crud.Store.GetAllScoresForUser: returns the rows in an unspecified order, because the query has no ORDER BY; the contract states membership and distinctness, not order.
- Crud.Store.GetUserSubjects: as above, the order of the subjects is unspecified.
- Handlers.Conversation.HandleMessage: only text messages that no command handler claims are dispatched by state; a command sent while a reply is awaited reaches its command handler, which is the keyword routing left out above.
- Handlers.Conversation: the bot state is keyed by user only, while the bot library keys it by user and chat.
- Handlers.Conversation.InsertValue: the TypeError of the mismatched keyword call is modelled by its outcome (the generic failure reply) rather than by the call.
- Payloads.RouteCallback: a callback whose data is None is not modelled, since payloads are strings.
- Concurrency between handlers and database sessions: each step runs alone.
- The None cell of an odd last keyboard row is a `None` option in `Keyboard.Row`. How the keyboard library renders it is not modelled.
- Charts.DrawSeries: the series are distinct arrays; aliasing between the lists of one dictionary is not modelled.

## Findings

| source | as written | input that shows it | evidently intended | confidence | as-written member | corrected member |
|---|---|---|---|---|---|---|
| db/crud.py:98-107 | add_score builds a score without `subject_name`, a NOT NULL column, so every commit fails | any call, e.g. add_score(db, 1, "math", 80) on a store holding user 1 | the score is stored with its subject's name | not executed | CrudProperties.AddScoreAlwaysFails | CrudProperties.AddScoreNamedStores |
| handlers/goals_and_subjects.py:322-329 | insert_score_handler calls add_score with `user_id=` and `subject_name=`, which it does not declare; the TypeError ends in the generic failure reply after the pending subject was already cleared | a reply "78" after picking a subject | the score is stored under the pending subject and confirmed | not executed | GoalsProperties.ScoreReplyNeverStores | GoalsProperties.ScoreReplyIntendedOutcome |
| db/crud.py:110-123 | ScoreNotFoundError is raised inside the `try` and re-wrapped by `except SQLAlchemyError` into CrudError("Failed to update score") | edit_existing_score(db, 999, 50) with no score 999 | the caller sees ScoreNotFoundError, as delete_score_by_id raises it | not executed | CrudProperties.EditScoreHidesNotFound | CrudProperties.EditScoreIntendedReports |
