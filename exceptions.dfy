/** The persistence layer's error taxonomy (db/exceptions.py) together with
    the foreign exceptions the core lets through. An error is its Python
    class and its message; `except C` catches an error whose class is C or a
    subclass of C. */
module Exceptions {
  import opened Results
  import opened Values
  import Decimal

  /** Exception classes: the module's own, and the library ones the core
      raises or catches (SQLAlchemy's IntegrityError, pydantic's
      ValidationError, the builtin ValueError and TypeError). */
  datatype Kind =
    | PyException
    | SqlAlchemy
    | Integrity
    | Crud
    | NotFound
    | Conflict
    | UserNotFound
    | ScoreNotFound
    | SubjectNotFound
    | UserAlreadyExists
    | BadValue
    | Validation
    | BadCall

  /** Height of a class in the hierarchy; it strictly drops towards the root. */
  function Depth(k: Kind): nat {
    match k
    case PyException => 0
    case SqlAlchemy | BadValue | BadCall => 1
    case Integrity | Crud | Validation => 2
    case NotFound | Conflict => 3
    case UserNotFound | ScoreNotFound | SubjectNotFound | UserAlreadyExists => 4
  }

  /** The direct base class; `PyException` is the root. */
  function Base(k: Kind): (b: Option<Kind>)
    ensures b.Some? ==> Depth(b.value) < Depth(k)
  {
    match k
    case PyException => None
    case SqlAlchemy | BadValue | BadCall => Some(PyException)
    case Integrity | Crud => Some(SqlAlchemy)
    case Validation => Some(BadValue)
    case NotFound | Conflict => Some(Crud)
    case UserNotFound | ScoreNotFound | SubjectNotFound => Some(NotFound)
    case UserAlreadyExists => Some(Conflict)
  }

  /** `issubclass(k, c)`. */
  predicate IsA(k: Kind, c: Kind)
    decreases Depth(k)
  {
    k == c || (Base(k).Some? && IsA(Base(k).value, c))
  }

  datatype Error = Error(kind: Kind, message: string)

  /** Whether `except c:` catches e. */
  predicate Catches(c: Kind, e: Error) {
    IsA(e.kind, c)
  }

  const DefaultCrudMessage := "An error occurred during a CRUD operation"
  const DefaultConflictMessage := "Conflict occurred during a CRUD operation"

  function CrudError(message: string): Error {
    Error(Crud, message)
  }

  /** The message every NotFoundError builds from its entity and identifier. */
  function NotFoundMessage(entity: string, identifier: Value): string {
    if identifier == NoneVal then entity + " not found"
    else entity + " with identifier " + Str(identifier) + " not found"
  }

  function NotFoundError(entity: string, identifier: Value): Error {
    Error(NotFound, NotFoundMessage(entity, identifier))
  }

  function ConflictError(message: string): Error {
    Error(Conflict, message)
  }

  function UserNotFoundError(id: Value): Error {
    Error(UserNotFound, NotFoundMessage("User", id))
  }

  function ScoreNotFoundError(scoreId: Value): Error {
    Error(ScoreNotFound, NotFoundMessage("Score", scoreId))
  }

  function SubjectNotFoundError(subjectId: Value): Error {
    Error(SubjectNotFound, NotFoundMessage("Subject", subjectId))
  }

  /** The id appears in the message only when it is truthy. */
  function UserAlreadyExistsError(id: Value): Error {
    Error(UserAlreadyExists,
          if Truthy(id) then "User with ID " + Str(id) + " already exists" else "User already exists")
  }

  /** pydantic's ValidationError; its message text is not modelled. */
  const ValidationError := Error(Validation, "validation error")

  function ValueError(message: string): Error {
    Error(BadValue, message)
  }

  /** `try: ... except SQLAlchemyError: rollback; raise CrudError(message)`:
      what leaves such a block when e was raised inside it. */
  function RewrapStorageError(e: Error, message: string): (r: Error)
    ensures Catches(SqlAlchemy, e) ==> r == CrudError(message)
    ensures !Catches(SqlAlchemy, e) ==> r == e
  {
    if Catches(SqlAlchemy, e) then CrudError(message) else e
  }

  /** Every class of db/exceptions.py is a CrudError and so a SQLAlchemyError;
      pydantic's and the builtin errors are neither. */
  lemma {:induction false} Hierarchy(k: Kind)
    ensures IsA(k, Crud) <==> k in {Crud, NotFound, Conflict, UserNotFound, ScoreNotFound, SubjectNotFound, UserAlreadyExists}
    ensures IsA(k, SqlAlchemy) <==> IsA(k, Crud) || k in {SqlAlchemy, Integrity}
    ensures IsA(k, NotFound) <==> k in {NotFound, UserNotFound, ScoreNotFound, SubjectNotFound}
  {
    match k
    case PyException =>
    case SqlAlchemy =>
      assert IsA(k, SqlAlchemy);
    case BadValue =>
    case BadCall =>
    case Integrity =>
      assert IsA(SqlAlchemy, SqlAlchemy);
    case Crud =>
      assert IsA(SqlAlchemy, SqlAlchemy);
    case Validation =>
      assert !IsA(BadValue, Crud) && !IsA(BadValue, SqlAlchemy);
    case NotFound =>
      assert IsA(Crud, SqlAlchemy);
    case Conflict =>
      assert IsA(Crud, SqlAlchemy);
    case UserNotFound =>
      assert IsA(NotFound, Crud) && IsA(Crud, SqlAlchemy);
    case ScoreNotFound =>
      assert IsA(NotFound, Crud) && IsA(Crud, SqlAlchemy);
    case SubjectNotFound =>
      assert IsA(NotFound, Crud) && IsA(Crud, SqlAlchemy);
    case UserAlreadyExists =>
      assert IsA(Conflict, Crud) && IsA(Crud, SqlAlchemy);
  }

  /** A not-found error raised inside `except SQLAlchemyError` does not leave
      the block as itself: it turns into the block's generic CrudError. */
  lemma NotFoundIsRewrapped(e: Error, message: string)
    requires e.kind in {UserNotFound, ScoreNotFound, SubjectNotFound}
    ensures RewrapStorageError(e, message) == CrudError(message)
    ensures RewrapStorageError(e, message).kind != e.kind
  {
    Hierarchy(e.kind);
  }

  /** The message names the identifier exactly when one is given, and the
      identifier can be read back from it. */
  lemma {:induction false} NotFoundMessageShape(entity: string, identifier: Value)
    ensures identifier == NoneVal ==> NotFoundMessage(entity, identifier) == entity + " not found"
    ensures identifier != NoneVal ==>
      var m := NotFoundMessage(entity, identifier);
      var start := |entity| + |" with identifier "|;
      |m| == start + |Str(identifier)| + |" not found"|
      && m[..|entity|] == entity
      && m[start..start + |Str(identifier)|] == Str(identifier)
  {
    if identifier != NoneVal {
      var m := NotFoundMessage(entity, identifier);
      var start := |entity| + |" with identifier "|;
      assert m == entity + " with identifier " + Str(identifier) + " not found";
      assert m[start..start + |Str(identifier)|] == Str(identifier);
    }
  }

  /** An id of 0 (or None, or any falsy value) is dropped from the message;
      a non-zero integer id can be read back from it. */
  lemma {:induction false} AlreadyExistsMessage(id: int)
    ensures id == 0 ==> UserAlreadyExistsError(IntVal(id)).message == "User already exists"
    ensures UserAlreadyExistsError(NoneVal).message == "User already exists"
    ensures id != 0 ==>
      var m := UserAlreadyExistsError(IntVal(id)).message;
      var digits := Decimal.IntToString(id);
      |m| == |"User with ID "| + |digits| + |" already exists"|
      && Decimal.ParseInt(m[|"User with ID "|..|"User with ID "| + |digits|]) == Some(id)
  {
    if id != 0 {
      var m := UserAlreadyExistsError(IntVal(id)).message;
      var digits := Decimal.IntToString(id);
      assert m == "User with ID " + digits + " already exists";
      assert m[|"User with ID "|..|"User with ID "| + |digits|] == digits;
      Decimal.IntToStringRoundTrip(id);
    }
  }
}
