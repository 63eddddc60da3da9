/** Rows of the seven tables the workout tracker keeps in MySQL, the error kinds its
    handlers answer with, and the small SQL idioms shared by every route: a `WHERE`
    filter and the `x || null` conversion that stores falsy request values as NULL. */
module Schema {

  /** Row ids, user ids and URL parameters. Auto-increment ids are positive, but a
      parameter taken from a URL may be any number. */
  type Id = int

  /** An abstract timestamp (`NOW()`, `DATETIME` columns); only its order matters. */
  type Time = int

  datatype Option<T> = None | Some(value: T)

  /** The HTTP error answers of the handlers: 404, 403 and 400. */
  datatype Error = NotFound | Forbidden | InvalidState | BadRequest

  datatype Result<T> = Ok(value: T) | Err(error: Error)

  datatype ExerciseType = Strength | Cardio | Bodyweight

  /** `exercises`: `createdBy == None` is a global exercise, visible to everyone. */
  datatype Exercise = Exercise(
    id: Id, name: string, muscleGroup: string, exerciseType: ExerciseType,
    createdBy: Option<Id>)

  /** `workout_templates` */
  datatype Template = Template(
    id: Id, userId: Id, name: string, notes: Option<string>, updatedAt: Time)

  /** `template_exercises` */
  datatype TemplateExercise = TemplateExercise(
    id: Id, templateId: Id, exerciseId: Id, orderIndex: int, notes: Option<string>)

  /** `workout_sessions`: Active while `dateCompleted == None`, Completed after. */
  datatype Session = Session(
    id: Id, userId: Id, templateId: Option<Id>, name: string, dateStarted: Time,
    dateCompleted: Option<Time>, durationMinutes: Option<int>, notes: Option<string>)

  /** `session_exercises`: one occurrence of an exercise inside a session. */
  datatype SessionExercise = SessionExercise(
    id: Id, sessionId: Id, exerciseId: Id, orderIndex: int, notes: Option<string>)

  /** `exercise_sets` */
  datatype ExerciseSet = ExerciseSet(
    id: Id, sessionExerciseId: Id, setNumber: int, reps: Option<int>,
    weightKg: Option<real>, durationSeconds: Option<int>, notes: Option<string>)

  /** `personal_records` */
  datatype PersonalRecord = PersonalRecord(
    id: Id, userId: Id, exerciseId: Id, maxWeight: real, achievedAt: Time, sessionId: Id)

  /** `n || null` for a numeric request field or an optional foreign key such as
      `template_id`: a missing value and 0 both become NULL. */
  function IntOrNull(x: Option<int>): (r: Option<int>)
    ensures r == None <==> x == None || x == Some(0)
    ensures r.Some? ==> r == x
  {
    if x == Some(0) then None else x
  }

  /** `w || null` for a weight: 0 kg is stored as NULL. */
  function WeightOrNull(x: Option<real>): (r: Option<real>)
    ensures r == None <==> x == None || x == Some(0.0)
    ensures r.Some? ==> r == x
  {
    if x == Some(0.0) then None else x
  }

  /** `s || null` for a text field: the empty string is stored as NULL. */
  function TextOrNull(x: Option<string>): (r: Option<string>)
    ensures r == None <==> x == None || x == Some("")
    ensures r.Some? ==> r == x
  {
    if x == Some("") then None else x
  }

  /** SQL `WHERE p`: the rows satisfying `p`, in table order. */
  function Where<T>(s: seq<T>, p: T -> bool): seq<T>
  {
    if s == [] then []
    else Where(s[..|s| - 1], p) + (if p(s[|s| - 1]) then [s[|s| - 1]] else [])
  }

  /** A row survives the filter exactly when it is in the table and satisfies `p`. */
  lemma {:induction false} WhereMembers<T>(s: seq<T>, p: T -> bool, x: T)
    ensures x in Where(s, p) <==> x in s && p(x)
  {
    if s != [] {
      assert s == s[..|s| - 1] + [s[|s| - 1]];
      WhereMembers(s[..|s| - 1], p, x);
    }
  }

  /** The filter neither invents nor duplicates rows. */
  lemma {:induction false} WhereMultiset<T>(s: seq<T>, p: T -> bool)
    ensures multiset(Where(s, p)) <= multiset(s)
  {
    if s != [] {
      assert s == s[..|s| - 1] + [s[|s| - 1]];
      WhereMultiset(s[..|s| - 1], p);
    }
  }

  /** Filtering a concatenation filters each part. */
  lemma {:induction false} WhereConcat<T>(a: seq<T>, b: seq<T>, p: T -> bool)
    ensures Where(a + b, p) == Where(a, p) + Where(b, p)
    decreases |b|
  {
    if b == [] {
      assert a + b == a;
    } else {
      var b', x := b[..|b| - 1], b[|b| - 1];
      var ab := a + b;
      assert ab[..|ab| - 1] == a + b' && ab[|ab| - 1] == x;
      WhereConcat(a, b', p);
      var tail := if p(x) then [x] else [];
      assert Where(ab, p) == Where(a, p) + Where(b', p) + tail;
      assert Where(b, p) == Where(b', p) + tail;
    }
  }

  /** The primary key of each table, as a function for `IdsFresh`. */
  function IdOfExercise(e: Exercise): Id { e.id }
  function IdOfTemplate(t: Template): Id { t.id }
  function IdOfItem(t: TemplateExercise): Id { t.id }
  function IdOfSession(s: Session): Id { s.id }
  function IdOfEntry(e: SessionExercise): Id { e.id }
  function IdOfSet(s: ExerciseSet): Id { s.id }

  /** An `AUTO_INCREMENT` primary key: every id is positive, below the next id to be
      handed out, and no two rows share one. */
  ghost predicate IdsFresh<T>(rows: seq<T>, id: T -> Id, next: Id)
  {
    && next > 0
    && (forall i | 0 <= i < |rows| :: 0 < id(rows[i]) < next)
    && (forall i, j | 0 <= i < j < |rows| :: id(rows[i]) != id(rows[j]))
  }

  /** A table with a primary key holds each of its rows exactly once. */
  lemma {:induction false} StoredOnce<T>(rows: seq<T>, id: T -> Id, next: Id, x: T)
    requires IdsFresh(rows, id, next) && x in rows
    ensures multiset(rows)[x] == 1
  {
    var rest, last := rows[..|rows| - 1], rows[|rows| - 1];
    assert rows == rest + [last];
    if x == last {
      assert x !in rest;
    } else {
      assert x in rest;
      assert IdsFresh(rest, id, next) by {
        assert forall i | 0 <= i < |rest| :: rest[i] == rows[i];
      }
      StoredOnce(rest, id, next, x);
    }
  }

  /** An insert takes the next id and moves the counter past it. */
  lemma Append<T>(rows: seq<T>, id: T -> Id, next: Id, x: T)
    requires IdsFresh(rows, id, next) && id(x) == next
    ensures IdsFresh(rows + [x], id, next + 1)
  {
  }

  /** A `DELETE ... WHERE` keeps the key valid. */
  lemma {:induction false} WhereKeepsIds<T>(rows: seq<T>, id: T -> Id, next: Id, p: T -> bool)
    requires IdsFresh(rows, id, next)
    ensures IdsFresh(Where(rows, p), id, next)
  {
    if rows != [] {
      var rest := rows[..|rows| - 1];
      var last := rows[|rows| - 1];
      WhereKeepsIds(rest, id, next, p);
      var d := Where(rest, p);
      forall x | x in d ensures id(x) != id(last) {
        WhereMembers(rest, p, x);
        var i :| 0 <= i < |rest| && rest[i] == x;
      }
      var r := d + (if p(last) then [last] else []);
      forall i, j | 0 <= i < j < |r| ensures id(r[i]) != id(r[j]) {
        if j == |d| {
          assert r[i] in d;
        }
      }
      forall i | 0 <= i < |r| ensures 0 < id(r[i]) < next {
        if i < |d| {
          assert r[i] in d;
        }
      }
    }
  }

  /** An `UPDATE` that leaves every row's id alone keeps the key valid. */
  lemma SameIds<T>(rows: seq<T>, updated: seq<T>, id: T -> Id, next: Id)
    requires IdsFresh(rows, id, next)
    requires |updated| == |rows| && forall i | 0 <= i < |rows| :: id(updated[i]) == id(rows[i])
    ensures IdsFresh(updated, id, next)
  {
  }
}
