/** The stored records of db/models.py and the key constraints of their
    tables. Nullable columns are `Option`s; a non-nullable column is a plain
    field. Timestamps and dates are integers (seconds, day numbers). */
module Models {
  import opened Results

  /** A user, keyed by the chat platform's id. */
  datatype User = User(id: int, username: Option<string>, firstName: string, lastName: Option<string>)

  /** A subscription of a user to a subject, with an optional goal. */
  datatype Subscription = Subscription(userId: int, subjectId: string, desiredScore: Option<int>)

  /** The composite primary key of a subscription. */
  type SubKey = (int, string)

  /** A catalog entry. */
  datatype Subject = Subject(id: string, name: string, maxScore: int)

  /** The column default of `Subject.max_score`. */
  const DefaultMaxScore := 100

  /** A stored score. `subjectName` is a snapshot of the subject's name taken
      when the row is written. No column bounds `score`. */
  datatype ScoreRow = ScoreRow(
    id: int,
    userId: int,
    subjectId: string,
    subjectName: string,
    score: int,
    examDate: Option<int>,
    isFinal: bool,
    createdAt: int)

  /** A score row before it is inserted: the id and creation time are filled in
      by the database, and a column the caller did not set is None. */
  datatype ScoreDraft = ScoreDraft(
    userId: int,
    subjectId: string,
    subjectName: Option<string>,
    score: int,
    examDate: Option<int>,
    isFinal: bool)

  /** `Scores(user_id=..., subject_id=..., score=...)` with the column defaults:
      no subject name, no exam date, `is_final` False. */
  function PlainScoreDraft(userId: int, subjectId: string, subjectName: Option<string>, score: int): (d: ScoreDraft)
    ensures d.examDate == None && !d.isFinal
  {
    ScoreDraft(userId, subjectId, subjectName, score, None, false)
  }

  /** The NOT NULL constraints a draft can violate: `subject_name` is the only
      non-nullable column a caller can leave unset. */
  predicate SatisfiesNotNull(d: ScoreDraft) {
    d.subjectName.Some?
  }

  /** The stored row for a draft that passed its constraints. */
  function Stored(d: ScoreDraft, id: int, createdAt: int): (r: ScoreRow)
    requires SatisfiesNotNull(d)
    ensures r.id == id && r.userId == d.userId && r.subjectId == d.subjectId
    ensures Some(r.subjectName) == d.subjectName && r.score == d.score && r.createdAt == createdAt
  {
    ScoreRow(id, d.userId, d.subjectId, d.subjectName.value, d.score, d.examDate, d.isFinal, createdAt)
  }

  /** An exam date entry (declared, used by no operation). */
  datatype Exam = Exam(id: int, subjectId: string, subjectName: string, examDate: Option<int>, createdAt: int)

  predicate UsersKeyed(users: map<int, User>) {
    forall k | k in users :: users[k].id == k
  }

  predicate SubjectsKeyed(subjects: map<string, Subject>) {
    forall k | k in subjects :: subjects[k].id == k
  }

  /** The composite key (user_id, subject_id) allows one row per pair. */
  predicate SubscriptionsKeyed(subs: map<SubKey, Subscription>) {
    forall k | k in subs :: subs[k].userId == k.0 && subs[k].subjectId == k.1
  }

  predicate ScoresKeyed(scores: map<int, ScoreRow>) {
    forall k | k in scores :: scores[k].id == k
  }
}
