/** The exercise catalog (routes/exercises.js): global exercises (`created_by` NULL)
    and exercises private to the user who created them. A user sees the global ones
    and their own; only the creator may change or delete an exercise. */
module Catalog {
  import opened Schema
  import opened Ordering

  /** `created_by IS NULL OR created_by = ?` */
  predicate Visible(e: Exercise, user: Id)
  {
    e.createdBy == None || e.createdBy == Some(user)
  }

  /** `SELECT ... FROM exercises WHERE id = ?`, first row. */
  function ExerciseById(exercises: seq<Exercise>, id: Id): (r: Option<Exercise>)
    ensures r.Some? ==> r.value in exercises && r.value.id == id
    ensures r.None? ==> forall e | e in exercises :: e.id != id
  {
    if exercises == [] then None
    else if exercises[0].id == id then Some(exercises[0])
    else
      assert exercises == [exercises[0]] + exercises[1..];
      ExerciseById(exercises[1..], id)
  }

  /** The sort key of `ORDER BY created_by IS NULL DESC, name ASC`. */
  function ListingKey(e: Exercise): seq<int>
  {
    [if e.createdBy == None then 0 else 1] + Chars(e.name)
  }

  /** `name ASC`, compared by code point. */
  predicate NameLe(a: string, b: string)
  {
    LexLe(Chars(a), Chars(b))
  }

  /** Global exercises first; within each group, names ascending. */
  ghost predicate ListedInOrder(r: seq<Exercise>)
  {
    forall i, j | 0 <= i < j < |r| ::
      && (r[j].createdBy == None ==> r[i].createdBy == None)
      && (r[i].createdBy.None? == r[j].createdBy.None? ==> NameLe(r[i].name, r[j].name))
  }

  lemma ListingKeyOrder(r: seq<Exercise>)
    requires SortedBy(r, ListingKey)
    ensures ListedInOrder(r)
  {
    forall i, j | 0 <= i < j < |r|
      ensures r[j].createdBy == None ==> r[i].createdBy == None
      ensures r[i].createdBy.None? == r[j].createdBy.None? ==> NameLe(r[i].name, r[j].name)
    {
      LexLeCons(if r[i].createdBy == None then 0 else 1, Chars(r[i].name),
                if r[j].createdBy == None then 0 else 1, Chars(r[j].name));
    }
  }

  /** GET /exercises: the exercises the user may see, global ones first, by name. */
  function VisibleTo(user: Id): Exercise -> bool
  {
    (e: Exercise) => Visible(e, user)
  }

  function ListVisible(exercises: seq<Exercise>, user: Id): (r: seq<Exercise>)
    ensures multiset(r) == multiset(Where(exercises, VisibleTo(user)))
    ensures forall e | e in r :: Visible(e, user)
    ensures forall e | e in exercises && Visible(e, user) :: e in r
    ensures ListedInOrder(r)
  {
    var r := Select(exercises, VisibleTo(user), ListingKey);
    ListingKeyOrder(r);
    r
  }

  /** GET /exercises/muscle/:group: the visible exercises of exactly that muscle group. */
  function VisibleIn(user: Id, group: string): Exercise -> bool
  {
    (e: Exercise) => e.muscleGroup == group && Visible(e, user)
  }

  function ListByMuscle(exercises: seq<Exercise>, user: Id, group: string): (r: seq<Exercise>)
    ensures multiset(r) == multiset(Where(exercises, VisibleIn(user, group)))
    ensures forall e | e in r :: Visible(e, user) && e.muscleGroup == group
    ensures forall e | e in exercises && Visible(e, user) && e.muscleGroup == group :: e in r
    ensures ListedInOrder(r)
  {
    var r := Select(exercises, VisibleIn(user, group), ListingKey);
    ListingKeyOrder(r);
    r
  }

  /** GET /exercises/:id: the exercise when it exists and is visible, NotFound otherwise. */
  function GetExercise(exercises: seq<Exercise>, id: Id, user: Id): (r: Result<Exercise>)
    ensures r.Ok? ==> r.value in exercises && r.value.id == id && Visible(r.value, user)
    ensures r.Err? ==> r.error == NotFound
    ensures r.Err? ==> forall e | e in exercises :: !(e.id == id && Visible(e, user))
  {
    var p := (e: Exercise) => e.id == id && Visible(e, user);
    var rows := Where(exercises, p);
    if rows == [] then
      assert forall e | e in exercises :: !p(e) by {
        forall e | e in exercises ensures !p(e) { WhereMembers(exercises, p, e); }
      }
      Err(NotFound)
    else
      WhereMembers(exercises, p, rows[0]);
      Ok(rows[0])
  }

  /** The ownership check of PUT and DELETE /exercises/:id: NotFound when no row has
      the id, Forbidden when the row is not the caller's (a global exercise included). */
  function Authorize(exercises: seq<Exercise>, id: Id, user: Id): (r: Result<Exercise>)
    ensures r.Err? && r.error == NotFound <==> forall e | e in exercises :: e.id != id
    ensures r.Err? && r.error == Forbidden <==>
      exists e | e in exercises :: e.id == id && ExerciseById(exercises, id) == Some(e) && e.createdBy != Some(user)
    ensures r.Ok? ==> r.value in exercises && r.value.id == id && r.value.createdBy == Some(user)
    ensures r.Ok? ==> ExerciseById(exercises, id) == Some(r.value)
    ensures r.Err? ==> r.error == NotFound || r.error == Forbidden
  {
    match ExerciseById(exercises, id)
    case None => Err(NotFound)
    case Some(e) => if e.createdBy != Some(user) then Err(Forbidden) else Ok(e)
  }

  /** `UPDATE exercises SET name = ?, muscle_group = ?, exercise_type = ? WHERE id = ?` */
  function Rename(exercises: seq<Exercise>, id: Id, name: string, group: string, kind: ExerciseType)
    : seq<Exercise>
  {
    seq(|exercises|, i requires 0 <= i < |exercises| =>
      if exercises[i].id == id then exercises[i].(name := name, muscleGroup := group, exerciseType := kind)
      else exercises[i])
  }

  function NotExercise(id: Id): Exercise -> bool
  {
    (e: Exercise) => e.id != id
  }

  /** `DELETE FROM exercises WHERE id = ?` */
  function DeleteRow(exercises: seq<Exercise>, id: Id): seq<Exercise>
  {
    Where(exercises, NotExercise(id))
  }

  /** The `exercises` table. Global rows are created by the administrative routes,
      which are not part of this model; the constructor takes them as existing rows. */
  class ExerciseCatalog {
    var exercises: seq<Exercise>
    var nextId: Id

    ghost predicate Valid()
      reads this
    {
      IdsFresh(exercises, IdOfExercise, nextId)
    }

    constructor (rows: seq<Exercise>, nextId: Id)
      requires IdsFresh(rows, IdOfExercise, nextId)
      ensures Valid() && exercises == rows && this.nextId == nextId
    {
      exercises := rows;
      this.nextId := nextId;
    }

    /** POST /exercises: a new exercise owned by the caller. Name and muscle group
        arrive trimmed; an empty one is answered with 400 and nothing is stored. */
    method Create(user: Id, name: string, group: string, kind: ExerciseType) returns (r: Result<Exercise>)
      requires Valid()
      modifies this
      ensures Valid()
      ensures r.Err? <==> name == "" || group == ""
      ensures r.Err? ==> r.error == BadRequest && exercises == old(exercises) && nextId == old(nextId)
      ensures r.Ok? ==> r.value == Exercise(old(nextId), name, group, kind, Some(user))
      ensures r.Ok? ==> exercises == old(exercises) + [r.value] && nextId == old(nextId) + 1
    {
      if name == "" || group == "" {
        return Err(BadRequest);
      }
      var e := Exercise(nextId, name, group, kind, Some(user));
      Append(exercises, IdOfExercise, nextId, e);
      exercises := exercises + [e];
      nextId := nextId + 1;
      r := Ok(e);
    }

    /** PUT /exercises/:id: the request is validated first (400), then only the
        creator may change name, muscle group and type (404, 403). */
    method Update(id: Id, user: Id, name: string, group: string, kind: ExerciseType)
      returns (r: Result<Exercise>)
      requires Valid()
      modifies this
      ensures Valid() && nextId == old(nextId)
      ensures r.Err? ==> exercises == old(exercises)
      ensures (name == "" || group == "") ==> r == Err(BadRequest)
      ensures name != "" && group != "" && r.Err? ==> Authorize(old(exercises), id, user) == r
      ensures r.Ok? <==> name != "" && group != "" && Authorize(old(exercises), id, user).Ok?
      ensures r.Ok? ==> exercises == Rename(old(exercises), id, name, group, kind)
      ensures r.Ok? ==> r.value == Authorize(old(exercises), id, user).value.(name := name, muscleGroup := group, exerciseType := kind)
    {
      if name == "" || group == "" {
        return Err(BadRequest);
      }
      var check := Authorize(exercises, id, user);
      if check.Err? {
        return Err(check.error);
      }
      var before := exercises;
      exercises := Rename(exercises, id, name, group, kind);
      SameIds(before, exercises, IdOfExercise, nextId);
      var k :| 0 <= k < |before| && before[k] == check.value;
      r := Ok(exercises[k]);
    }

    /** DELETE /exercises/:id: only the creator may delete; exactly that row goes. */
    method Delete(id: Id, user: Id) returns (r: Result<()>)
      requires Valid()
      modifies this
      ensures Valid() && nextId == old(nextId)
      ensures r.Err? ==> Authorize(old(exercises), id, user) == Err(r.error) && exercises == old(exercises)
      ensures r.Ok? <==> Authorize(old(exercises), id, user).Ok?
      ensures r.Ok? ==> exercises == DeleteRow(old(exercises), id)
      ensures r.Ok? ==> forall e | e in old(exercises) :: e in exercises <==> e.id != id
    {
      var check := Authorize(exercises, id, user);
      if check.Err? {
        return Err(check.error);
      }
      WhereKeepsIds(exercises, IdOfExercise, nextId, NotExercise(id));
      forall e | e in exercises ensures e in DeleteRow(exercises, id) <==> e.id != id {
        WhereMembers(exercises, NotExercise(id), e);
      }
      exercises := DeleteRow(exercises, id);
      r := Ok(());
    }
  }

  /** A user's new exercise is listed for that user and for nobody else. */
  lemma CreatedVisibleOnlyToCreator(exercises: seq<Exercise>, e: Exercise, creator: Id, user: Id)
    requires e.createdBy == Some(creator)
    ensures e in ListVisible(exercises + [e], user) <==> user == creator
  {
    assert e in exercises + [e];
  }
}
