/** Workout templates (routes/templates.js): named exercise lists a user keeps to
    start sessions from. Every route acts for the authenticated user and answers
    404 for templates of other users; the exercise catalog is read, never written. */
module Templates {
  import opened Schema
  import opened Ordering
  import opened Catalog

  /** An exercise of a template joined to its catalog row. */
  datatype ItemView = ItemView(item: TemplateExercise, exercise: Exercise)

  /** GET /templates/:id: the template with its exercises. */
  datatype TemplateView = TemplateView(template: Template, items: seq<ItemView>)

  function UpdatedDesc(t: Template): seq<int>
  {
    [-t.updatedAt]
  }

  /** GET /templates: the user's templates, most recently updated first. */
  function TemplateOf(user: Id): Template -> bool
  {
    (t: Template) => t.userId == user
  }

  function ListTemplates(templates: seq<Template>, user: Id): (r: seq<Template>)
    ensures multiset(r) == multiset(Where(templates, TemplateOf(user)))
    ensures forall t | t in r :: t.userId == user
    ensures forall t | t in templates && t.userId == user :: t in r
    ensures forall i, j | 0 <= i < j < |r| :: r[i].updatedAt >= r[j].updatedAt
  {
    var r := Select(templates, TemplateOf(user), UpdatedDesc);
    assert forall i, j | 0 <= i < j < |r| :: r[i].updatedAt >= r[j].updatedAt by {
      forall i, j | 0 <= i < j < |r| ensures r[i].updatedAt >= r[j].updatedAt {
        LexLeSingle(-r[i].updatedAt, -r[j].updatedAt);
      }
    }
    r
  }

  /** `SELECT ... FROM workout_templates WHERE id = ? AND user_id = ?`, first row. */
  function OwnedTemplate(templates: seq<Template>, id: Id, user: Id): (r: Option<Template>)
    ensures r.Some? ==> r.value in templates && r.value.id == id && r.value.userId == user
    ensures r.None? ==> forall t | t in templates :: !(t.id == id && t.userId == user)
  {
    if templates == [] then None
    else if templates[0].id == id && templates[0].userId == user then Some(templates[0])
    else
      assert templates == [templates[0]] + templates[1..];
      OwnedTemplate(templates[1..], id, user)
  }

  /** `SELECT ... FROM workout_templates WHERE id = ?`, first row. */
  function TemplateById(templates: seq<Template>, id: Id): (r: Option<Template>)
    ensures r.Some? ==> r.value in templates && r.value.id == id
    ensures r.None? ==> forall t | t in templates :: t.id != id
  {
    if templates == [] then None
    else if templates[0].id == id then Some(templates[0])
    else
      assert templates == [templates[0]] + templates[1..];
      TemplateById(templates[1..], id)
  }

  /** `template_exercises te JOIN exercises e ON te.exercise_id = e.id WHERE te.template_id = ?` */
  function ItemJoinable(exercises: seq<Exercise>, tid: Id): TemplateExercise -> bool
  {
    (it: TemplateExercise) => it.templateId == tid && ExerciseById(exercises, it.exerciseId).Some?
  }

  function ItemsWithExercise(items: seq<TemplateExercise>, exercises: seq<Exercise>, tid: Id): (r: seq<ItemView>)
    ensures |r| == |Where(items, ItemJoinable(exercises, tid))|
    ensures forall i | 0 <= i < |r| ::
      r[i].item == Where(items, ItemJoinable(exercises, tid))[i]
      && Some(r[i].exercise) == ExerciseById(exercises, r[i].item.exerciseId)
    ensures forall v | v in r ::
      v.item in items && v.item.templateId == tid && ExerciseById(exercises, v.item.exerciseId) == Some(v.exercise)
    ensures forall it | it in items && it.templateId == tid && ExerciseById(exercises, it.exerciseId).Some? ::
      ItemView(it, ExerciseById(exercises, it.exerciseId).value) in r
  {
    if items == [] then []
    else
      var it := items[|items| - 1];
      assert items == items[..|items| - 1] + [it];
      ItemsWithExercise(items[..|items| - 1], exercises, tid)
        + (if it.templateId == tid && ExerciseById(exercises, it.exerciseId).Some?
           then [ItemView(it, ExerciseById(exercises, it.exerciseId).value)] else [])
  }

  function ItemOrderAsc(v: ItemView): seq<int>
  {
    [v.item.orderIndex]
  }

  /** The exercises of template `tid`, `ORDER BY te.order_index ASC`: exactly its
      items whose exercise exists, each with that exercise. */
  function TemplateItems(items: seq<TemplateExercise>, exercises: seq<Exercise>, tid: Id): (r: seq<ItemView>)
    ensures multiset(r) == multiset(ItemsWithExercise(items, exercises, tid))
    ensures forall v | v in r ::
      v.item in items && v.item.templateId == tid && ExerciseById(exercises, v.item.exerciseId) == Some(v.exercise)
    ensures forall it | it in items && it.templateId == tid && ExerciseById(exercises, it.exerciseId).Some? ::
      ItemView(it, ExerciseById(exercises, it.exerciseId).value) in r
    ensures forall i, j | 0 <= i < j < |r| :: r[i].item.orderIndex <= r[j].item.orderIndex
  {
    var joined := ItemsWithExercise(items, exercises, tid);
    var r := SortBy(joined, ItemOrderAsc);
    forall v | v in r ensures v in joined {
      SortByMembers(joined, ItemOrderAsc, v);
    }
    forall v | v in joined ensures v in r {
      SortByMembers(joined, ItemOrderAsc, v);
    }
    forall i, j | 0 <= i < j < |r| ensures r[i].item.orderIndex <= r[j].item.orderIndex {
      LexLeSingle(r[i].item.orderIndex, r[j].item.orderIndex);
    }
    r
  }

  /** GET /templates/:id: NotFound unless the template is the user's; then the
      template with its exercises in `order_index` order. */
  function GetTemplate(templates: seq<Template>, items: seq<TemplateExercise>, exercises: seq<Exercise>,
                       id: Id, user: Id): (r: Result<TemplateView>)
    ensures r.Err? <==> forall t | t in templates :: !(t.id == id && t.userId == user)
    ensures r.Err? ==> r.error == NotFound
    ensures r.Ok? ==> r.value.template in templates && r.value.template.id == id && r.value.template.userId == user
    ensures r.Ok? ==> r.value.items == TemplateItems(items, exercises, id)
  {
    match OwnedTemplate(templates, id, user)
    case None => Err(NotFound)
    case Some(t) => Ok(TemplateView(t, TemplateItems(items, exercises, id)))
  }

  /** `SELECT ... FROM template_exercises te JOIN exercises e ON te.exercise_id = e.id
      WHERE te.id = ?`, first row: the read-back of PUT /templates/:id/exercises/:exId
      as written, keyed by the item id alone. */
  function ReadItemById(items: seq<TemplateExercise>, exercises: seq<Exercise>, exId: Id): (r: Option<ItemView>)
    ensures r.Some? ==> r.value.item in items && r.value.item.id == exId
    ensures r.Some? ==> ExerciseById(exercises, r.value.item.exerciseId) == Some(r.value.exercise)
    ensures r.None? ==> forall it | it in items && it.id == exId :: ExerciseById(exercises, it.exerciseId).None?
  {
    if items == [] then None
    else if items[0].id == exId && ExerciseById(exercises, items[0].exerciseId).Some? then
      Some(ItemView(items[0], ExerciseById(exercises, items[0].exerciseId).value))
    else
      assert items == [items[0]] + items[1..];
      ReadItemById(items[1..], exercises, exId)
  }

  /** The read-back scoped like the update it follows, `WHERE te.id = ? AND
      te.template_id = ?`: it can only return an item of the template named in the
      request. */
  function ReadItemScoped(items: seq<TemplateExercise>, exercises: seq<Exercise>, exId: Id, tid: Id)
    : (r: Option<ItemView>)
    ensures r.Some? ==> r.value.item in items && r.value.item.id == exId && r.value.item.templateId == tid
    ensures r.Some? ==> ExerciseById(exercises, r.value.item.exerciseId) == Some(r.value.exercise)
    ensures r.None? ==> forall it | it in items && it.id == exId && it.templateId == tid ::
      ExerciseById(exercises, it.exerciseId).None?
  {
    if items == [] then None
    else if items[0].id == exId && items[0].templateId == tid && ExerciseById(exercises, items[0].exerciseId).Some? then
      Some(ItemView(items[0], ExerciseById(exercises, items[0].exerciseId).value))
    else
      assert items == [items[0]] + items[1..];
      ReadItemScoped(items[1..], exercises, exId, tid)
  }

  /** `UPDATE template_exercises SET order_index = ?, notes = ? WHERE id = ? AND template_id = ?` */
  function SetItem(items: seq<TemplateExercise>, exId: Id, tid: Id, order: int, notes: Option<string>)
    : seq<TemplateExercise>
  {
    seq(|items|, i requires 0 <= i < |items| =>
      if items[i].id == exId && items[i].templateId == tid then items[i].(orderIndex := order, notes := notes)
      else items[i])
  }

  /** The item update touches only the row matching both the item id and the
      template id, and only its order and notes. */
  lemma SetItemScoped(items: seq<TemplateExercise>, exId: Id, tid: Id, order: int, notes: Option<string>)
    ensures var r := SetItem(items, exId, tid, order, notes);
      && |r| == |items|
      && (forall i | 0 <= i < |r| ::
            r[i].id == items[i].id && r[i].templateId == items[i].templateId && r[i].exerciseId == items[i].exerciseId)
      && (forall i | 0 <= i < |r| && !(items[i].id == exId && items[i].templateId == tid) :: r[i] == items[i])
      && (forall i | 0 <= i < |r| && items[i].id == exId && items[i].templateId == tid ::
            r[i].orderIndex == order && r[i].notes == notes)
  {
  }

  /** An item id that is not in the template leaves the table as it was. */
  lemma SetItemMismatchIsNoop(items: seq<TemplateExercise>, exId: Id, tid: Id, order: int, notes: Option<string>)
    requires forall it | it in items :: !(it.id == exId && it.templateId == tid)
    ensures SetItem(items, exId, tid, order, notes) == items
  {
    var r := SetItem(items, exId, tid, order, notes);
    forall i | 0 <= i < |items| ensures r[i] == items[i] {
      assert items[i] in items;
    }
  }

  function NotItem(exId: Id, tid: Id): TemplateExercise -> bool
  {
    (it: TemplateExercise) => !(it.id == exId && it.templateId == tid)
  }

  /** `DELETE FROM template_exercises WHERE id = ? AND template_id = ?` */
  function DropItem(items: seq<TemplateExercise>, exId: Id, tid: Id): seq<TemplateExercise>
  {
    Where(items, NotItem(exId, tid))
  }

  function NotTemplate(id: Id): Template -> bool
  {
    (t: Template) => t.id != id
  }

  /** `DELETE FROM workout_templates WHERE id = ?` */
  function DropTemplate(templates: seq<Template>, id: Id): seq<Template>
  {
    Where(templates, NotTemplate(id))
  }

  /** The `workout_templates` and `template_exercises` tables with their counters. */
  class TemplateStore {
    var templates: seq<Template>
    var items: seq<TemplateExercise>
    var nextTemplateId: Id
    var nextItemId: Id

    ghost predicate Valid()
      reads this
    {
      IdsFresh(templates, IdOfTemplate, nextTemplateId) && IdsFresh(items, IdOfItem, nextItemId)
    }

    constructor ()
      ensures Valid() && templates == [] && items == []
    {
      templates, items := [], [];
      nextTemplateId, nextItemId := 1, 1;
    }

    /** POST /templates: a new template of the caller (400 for an empty name), read
        back by its new id. */
    method Create(user: Id, name: string, notes: Option<string>, now: Time) returns (r: Result<Template>)
      requires Valid()
      modifies this
      ensures Valid() && items == old(items) && nextItemId == old(nextItemId)
      ensures r.Err? <==> name == ""
      ensures r.Err? ==> r.error == BadRequest && templates == old(templates) && nextTemplateId == old(nextTemplateId)
      ensures r.Ok? ==> r.value == Template(old(nextTemplateId), user, name, TextOrNull(notes), now)
      ensures r.Ok? ==> templates == old(templates) + [r.value] && nextTemplateId == old(nextTemplateId) + 1
    {
      if name == "" {
        return Err(BadRequest);
      }
      var t := Template(nextTemplateId, user, name, TextOrNull(notes), now);
      Append(templates, IdOfTemplate, nextTemplateId, t);
      templates := templates + [t];
      nextTemplateId := nextTemplateId + 1;
      var back := TemplateById(templates, t.id);
      assert back == Some(t) by {
        assert t in templates;
      }
      r := Ok(back.value);
    }

    /** PUT /templates/:id: 400 for an empty name, NotFound unless the template is the
        caller's; otherwise its name and notes change and it is read back. */
    method Update(id: Id, user: Id, name: string, notes: Option<string>) returns (r: Result<Template>)
      requires Valid()
      modifies this
      ensures Valid() && items == old(items) && nextTemplateId == old(nextTemplateId) && nextItemId == old(nextItemId)
      ensures name == "" ==> r == Err(BadRequest)
      ensures name != "" && OwnedTemplate(old(templates), id, user).None? ==> r == Err(NotFound)
      ensures r.Ok? <==> name != "" && OwnedTemplate(old(templates), id, user).Some?
      ensures r.Err? ==> templates == old(templates)
      ensures r.Ok? ==> r.value == OwnedTemplate(old(templates), id, user).value.(name := name, notes := TextOrNull(notes))
      ensures r.Ok? ==> |templates| == |old(templates)|
      ensures r.Ok? ==> forall i | 0 <= i < |templates| ::
        templates[i] == if old(templates)[i].id == id then r.value else old(templates)[i]
    {
      if name == "" {
        return Err(BadRequest);
      }
      var owned := OwnedTemplate(templates, id, user);
      if owned.None? {
        return Err(NotFound);
      }
      var updated := owned.value.(name := name, notes := TextOrNull(notes));
      var before := templates;
      templates := seq(|before|, i requires 0 <= i < |before| => if before[i].id == id then updated else before[i]);
      SameIds(before, templates, IdOfTemplate, nextTemplateId);
      var k :| 0 <= k < |before| && before[k] == owned.value;
      forall i | 0 <= i < |before| && before[i].id == id ensures before[i] == owned.value {
        assert i == k;
      }
      var back := TemplateById(templates, id);
      assert back == Some(updated) by {
        assert templates[k] == updated;
      }
      r := Ok(back.value);
    }

    /** DELETE /templates/:id: NotFound unless the template is the caller's; then
        exactly that template row goes. */
    method Delete(id: Id, user: Id) returns (r: Result<()>)
      requires Valid()
      modifies this
      ensures Valid() && items == old(items) && nextTemplateId == old(nextTemplateId) && nextItemId == old(nextItemId)
      ensures r.Err? <==> OwnedTemplate(old(templates), id, user).None?
      ensures r.Err? ==> r.error == NotFound && templates == old(templates)
      ensures r.Ok? ==> templates == DropTemplate(old(templates), id)
      ensures r.Ok? ==> forall t | t in old(templates) :: t in templates <==> t.id != id
    {
      if OwnedTemplate(templates, id, user).None? {
        return Err(NotFound);
      }
      WhereKeepsIds(templates, IdOfTemplate, nextTemplateId, NotTemplate(id));
      forall t | t in templates ensures t in DropTemplate(templates, id) <==> t.id != id {
        WhereMembers(templates, NotTemplate(id), t);
      }
      templates := DropTemplate(templates, id);
      r := Ok(());
    }

    /** POST /templates/:id/exercises: NotFound unless the template is the caller's
        and the exercise is visible to the caller; the order index is stored as
        given. */
    method AddItem(id: Id, user: Id, exercises: seq<Exercise>, exerciseId: Id, order: int, notes: Option<string>)
      returns (r: Result<ItemView>)
      requires Valid()
      modifies this
      ensures Valid() && templates == old(templates) && nextTemplateId == old(nextTemplateId)
      ensures r.Ok? <==> (OwnedTemplate(old(templates), id, user).Some? && GetExercise(exercises, exerciseId, user).Ok?)
      ensures r.Err? ==> r.error == NotFound && items == old(items) && nextItemId == old(nextItemId)
      ensures r.Ok? ==> r.value.item == TemplateExercise(old(nextItemId), id, exerciseId, order, TextOrNull(notes))
      ensures r.Ok? ==> r.value.exercise.id == exerciseId && r.value.exercise in exercises
      ensures r.Ok? ==> items == old(items) + [r.value.item] && nextItemId == old(nextItemId) + 1
    {
      if OwnedTemplate(templates, id, user).None? {
        return Err(NotFound);
      }
      if GetExercise(exercises, exerciseId, user).Err? {
        return Err(NotFound);
      }
      var it := TemplateExercise(nextItemId, id, exerciseId, order, TextOrNull(notes));
      Append(items, IdOfItem, nextItemId, it);
      items := items + [it];
      nextItemId := nextItemId + 1;
      assert ExerciseById(exercises, exerciseId).Some?;
      r := Ok(ItemView(it, ExerciseById(exercises, exerciseId).value));
    }

    /** PUT /templates/:id/exercises/:exId: NotFound unless the template is the
        caller's; otherwise the item matching both ids gets the new order and notes
        (none matching is a silent no-op) and is read back within the template. */
    method UpdateItem(id: Id, user: Id, exercises: seq<Exercise>, exId: Id, order: int, notes: Option<string>)
      returns (r: Result<Option<ItemView>>)
      requires Valid()
      modifies this
      ensures Valid() && templates == old(templates)
      ensures nextTemplateId == old(nextTemplateId) && nextItemId == old(nextItemId)
      ensures r.Err? <==> OwnedTemplate(old(templates), id, user).None?
      ensures r.Err? ==> r.error == NotFound && items == old(items)
      ensures r.Ok? ==> items == SetItem(old(items), exId, id, order, TextOrNull(notes))
      ensures r.Ok? ==> r.value == ReadItemScoped(items, exercises, exId, id)
      ensures r.Ok? && r.value.Some? ==> r.value.value.item.templateId == id
      ensures r.Ok? && r.value.Some? ==> OwnedTemplate(templates, r.value.value.item.templateId, user).Some?
    {
      if OwnedTemplate(templates, id, user).None? {
        return Err(NotFound);
      }
      var before := items;
      items := SetItem(items, exId, id, order, TextOrNull(notes));
      SameIds(before, items, IdOfItem, nextItemId);
      r := Ok(ReadItemScoped(items, exercises, exId, id));
    }

    /** DELETE /templates/:id/exercises/:exId: NotFound unless the template is the
        caller's; otherwise the item matching both ids goes, and nothing else. */
    method RemoveItem(id: Id, user: Id, exId: Id) returns (r: Result<()>)
      requires Valid()
      modifies this
      ensures Valid() && templates == old(templates)
      ensures nextTemplateId == old(nextTemplateId) && nextItemId == old(nextItemId)
      ensures r.Err? <==> OwnedTemplate(old(templates), id, user).None?
      ensures r.Err? ==> r.error == NotFound && items == old(items)
      ensures r.Ok? ==> items == DropItem(old(items), exId, id)
      ensures r.Ok? ==> forall it | it in old(items) :: it in items <==> !(it.id == exId && it.templateId == id)
    {
      if OwnedTemplate(templates, id, user).None? {
        return Err(NotFound);
      }
      WhereKeepsIds(items, IdOfItem, nextItemId, NotItem(exId, id));
      forall it | it in items ensures it in DropItem(items, exId, id) <==> !(it.id == exId && it.templateId == id) {
        WhereMembers(items, NotItem(exId, id), it);
      }
      items := DropItem(items, exId, id);
      r := Ok(());
    }
  }

  /** The read-back as written answers a request on one template with an item of
      another: user 1 owns template 1, user 2 owns template 2 holding item 7; user 1's
      PUT /templates/1/exercises/7 updates nothing, yet reads back user 2's item. */
  lemma ReadBackLeaksOtherTemplate()
    ensures var ex := [Exercise(5, "Squat", "legs", Strength, None)];
      var templates := [Template(1, 1, "A", None, 0), Template(2, 2, "B", None, 0)];
      var items := [TemplateExercise(7, 2, 5, 1, None)];
      && OwnedTemplate(templates, 1, 1).Some?
      && SetItem(items, 7, 1, 3, None) == items
      && ReadItemById(SetItem(items, 7, 1, 3, None), ex, 7).Some?
      && ReadItemById(SetItem(items, 7, 1, 3, None), ex, 7).value.item.templateId == 2
      && OwnedTemplate(templates, 2, 1).None?
      && ReadItemScoped(SetItem(items, 7, 1, 3, None), ex, 7, 1).None?
  {
    var ex := [Exercise(5, "Squat", "legs", Strength, None)];
    var items := [TemplateExercise(7, 2, 5, 1, None)];
    SetItemMismatchIsNoop(items, 7, 1, 3, None);
    assert ExerciseById(ex, 5) == Some(ex[0]);
  }

  /** A user's new template is listed for that user and for nobody else. */
  lemma CreatedListedForOwnerOnly(templates: seq<Template>, t: Template, user: Id)
    ensures t in ListTemplates(templates + [t], user) <==> user == t.userId
  {
    assert t in templates + [t];
  }
}
