/** Workout sessions (routes/sessions.js): a session is started (optionally seeded
    with exercises), exercises and sets are logged against it, and completing it
    stamps the completion time and derives personal records from its sets. Every
    route acts for the authenticated user and answers 404 for rows of other users. */
module Sessions {
  import opened Schema
  import opened Ordering
  import opened Joins
  import opened PersonalRecords
  import opened Catalog

  /** An element of the `exercises` array of a start request. */
  datatype Seed = Seed(exerciseId: Id, notes: Option<string>)

  /** An exercise of a session as the read routes return it: the session exercise,
      its exercise row and its sets. */
  datatype EntryView = EntryView(entry: SessionExercise, exercise: Exercise, sets: seq<ExerciseSet>)

  /** GET /sessions/:id: the session with its exercises. */
  datatype SessionView = SessionView(session: Session, exercises: seq<EntryView>)

  /** `SELECT ... FROM workout_sessions WHERE id = ? AND user_id = ?`, first row. */
  function OwnedSession(sessions: seq<Session>, id: Id, user: Id): (r: Option<Session>)
    ensures r.Some? ==> r.value in sessions && r.value.id == id && r.value.userId == user
    ensures r.None? ==> forall s | s in sessions :: !(s.id == id && s.userId == user)
  {
    if sessions == [] then None
    else if sessions[0].id == id && sessions[0].userId == user then Some(sessions[0])
    else
      assert sessions == [sessions[0]] + sessions[1..];
      OwnedSession(sessions[1..], id, user)
  }

  function StartedDesc(s: Session): seq<int>
  {
    [-s.dateStarted]
  }

  /** GET /sessions: the user's sessions, latest start first. */
  function StartedBy(user: Id): Session -> bool
  {
    (s: Session) => s.userId == user
  }

  function ListSessions(sessions: seq<Session>, user: Id): (r: seq<Session>)
    ensures multiset(r) == multiset(Where(sessions, StartedBy(user)))
    ensures forall s | s in r :: s.userId == user
    ensures forall s | s in sessions && s.userId == user :: s in r
    ensures forall i, j | 0 <= i < j < |r| :: r[i].dateStarted >= r[j].dateStarted
  {
    var r := Select(sessions, StartedBy(user), StartedDesc);
    assert forall i, j | 0 <= i < j < |r| :: r[i].dateStarted >= r[j].dateStarted by {
      forall i, j | 0 <= i < j < |r| ensures r[i].dateStarted >= r[j].dateStarted {
        LexLeSingle(-r[i].dateStarted, -r[j].dateStarted);
      }
    }
    r
  }

  /** `session_exercises se JOIN exercises e ON se.exercise_id = e.id WHERE se.session_id = ?`:
      the exercise primary key makes the join a lookup. */
  function Joinable(exercises: seq<Exercise>, sid: Id): SessionExercise -> bool
  {
    (e: SessionExercise) => e.sessionId == sid && ExerciseById(exercises, e.exerciseId).Some?
  }

  function EntriesWithExercise(entries: seq<SessionExercise>, exercises: seq<Exercise>, sid: Id)
    : (r: seq<(SessionExercise, Exercise)>)
    ensures |r| == |Where(entries, Joinable(exercises, sid))|
    ensures forall i | 0 <= i < |r| ::
      r[i].0 == Where(entries, Joinable(exercises, sid))[i] && Some(r[i].1) == ExerciseById(exercises, r[i].0.exerciseId)
    ensures forall p | p in r ::
      p.0 in entries && p.0.sessionId == sid && ExerciseById(exercises, p.0.exerciseId) == Some(p.1)
    ensures forall e | e in entries && e.sessionId == sid && ExerciseById(exercises, e.exerciseId).Some? ::
      (e, ExerciseById(exercises, e.exerciseId).value) in r
  {
    if entries == [] then []
    else
      var e := entries[|entries| - 1];
      assert entries == entries[..|entries| - 1] + [e];
      EntriesWithExercise(entries[..|entries| - 1], exercises, sid)
        + (if e.sessionId == sid && ExerciseById(exercises, e.exerciseId).Some?
           then [(e, ExerciseById(exercises, e.exerciseId).value)] else [])
  }

  function OrderAsc(p: (SessionExercise, Exercise)): seq<int>
  {
    [p.0.orderIndex]
  }

  function SetNumberAsc(s: ExerciseSet): seq<int>
  {
    [s.setNumber]
  }

  /** `SELECT ... FROM exercise_sets WHERE session_exercise_id = ? ORDER BY set_number ASC` */
  function SetOf(seId: Id): ExerciseSet -> bool
  {
    (s: ExerciseSet) => s.sessionExerciseId == seId
  }

  function SetsOfEntry(sets: seq<ExerciseSet>, seId: Id): (r: seq<ExerciseSet>)
    ensures multiset(r) == multiset(Where(sets, SetOf(seId)))
    ensures forall s | s in r :: s.sessionExerciseId == seId
    ensures forall s | s in sets && s.sessionExerciseId == seId :: s in r
    ensures forall i, j | 0 <= i < j < |r| :: r[i].setNumber <= r[j].setNumber
  {
    var r := Select(sets, SetOf(seId), SetNumberAsc);
    assert forall i, j | 0 <= i < j < |r| :: r[i].setNumber <= r[j].setNumber by {
      forall i, j | 0 <= i < j < |r| ensures r[i].setNumber <= r[j].setNumber {
        LexLeSingle(r[i].setNumber, r[j].setNumber);
      }
    }
    r
  }

  /** Each joined row with its sets. */
  function ViewsOf(rows: seq<(SessionExercise, Exercise)>, sets: seq<ExerciseSet>): (r: seq<EntryView>)
    ensures |r| == |rows|
    ensures forall i | 0 <= i < |r| :: r[i].entry == rows[i].0 && r[i].exercise == rows[i].1
    ensures forall i | 0 <= i < |r| :: r[i].sets == SetsOfEntry(sets, rows[i].0.id)
  {
    seq(|rows|, i requires 0 <= i < |rows| => EntryView(rows[i].0, rows[i].1, SetsOfEntry(sets, rows[i].0.id)))
  }

  /** The joined rows of a listing, without their sets. */
  function Pairs(vs: seq<EntryView>): seq<(SessionExercise, Exercise)>
  {
    seq(|vs|, i requires 0 <= i < |vs| => (vs[i].entry, vs[i].exercise))
  }

  /** The exercises of session `sid` in `order_index` order, each with its sets. */
  function EntryViews(entries: seq<SessionExercise>, sets: seq<ExerciseSet>, exercises: seq<Exercise>, sid: Id)
    : (r: seq<EntryView>)
    ensures multiset(Pairs(r)) == multiset(EntriesWithExercise(entries, exercises, sid))
    ensures forall i, j | 0 <= i < j < |r| :: r[i].entry.orderIndex <= r[j].entry.orderIndex
    ensures forall v | v in r ::
      && v.entry in entries && v.entry.sessionId == sid
      && ExerciseById(exercises, v.entry.exerciseId) == Some(v.exercise)
      && v.sets == SetsOfEntry(sets, v.entry.id)
  {
    var joined := EntriesWithExercise(entries, exercises, sid);
    var rows := SortBy(joined, OrderAsc);
    var r := ViewsOf(rows, sets);
    SortedViews(rows, sets);
    assert Pairs(r) == rows;
    forall p | p in rows ensures p in joined {
      SortByMembers(joined, OrderAsc, p);
    }
    ViewsMembers(rows, sets, entries, exercises, sid);
    r
  }

  /** Every exercise of the session whose catalog row exists is listed. */
  lemma EntryViewsCovers(entries: seq<SessionExercise>, sets: seq<ExerciseSet>, exercises: seq<Exercise>,
                         sid: Id, e: SessionExercise)
    requires e in entries && e.sessionId == sid && ExerciseById(exercises, e.exerciseId).Some?
    ensures exists v | v in EntryViews(entries, sets, exercises, sid) :: v.entry == e
  {
    var joined := EntriesWithExercise(entries, exercises, sid);
    var rows := SortBy(joined, OrderAsc);
    assert EntryViews(entries, sets, exercises, sid) == ViewsOf(rows, sets);
    var p := (e, ExerciseById(exercises, e.exerciseId).value);
    assert p in joined;
    SortByMembers(joined, OrderAsc, p);
    var i :| 0 <= i < |rows| && rows[i] == p;
    assert ViewsOf(rows, sets)[i].entry == e;
  }

  lemma SortedViews(rows: seq<(SessionExercise, Exercise)>, sets: seq<ExerciseSet>)
    requires SortedBy(rows, OrderAsc)
    ensures var r := ViewsOf(rows, sets);
      forall i, j | 0 <= i < j < |r| :: r[i].entry.orderIndex <= r[j].entry.orderIndex
  {
    forall i, j | 0 <= i < j < |rows| ensures rows[i].0.orderIndex <= rows[j].0.orderIndex {
      LexLeSingle(rows[i].0.orderIndex, rows[j].0.orderIndex);
    }
  }

  /** Every listed exercise is one of the session's, with its catalog row and its sets. */
  lemma ViewsMembers(rows: seq<(SessionExercise, Exercise)>, sets: seq<ExerciseSet>,
                     entries: seq<SessionExercise>, exercises: seq<Exercise>, sid: Id)
    requires forall p | p in rows ::
      p.0 in entries && p.0.sessionId == sid && ExerciseById(exercises, p.0.exerciseId) == Some(p.1)
    ensures forall v | v in ViewsOf(rows, sets) ::
      && v.entry in entries && v.entry.sessionId == sid
      && ExerciseById(exercises, v.entry.exerciseId) == Some(v.exercise)
      && v.sets == SetsOfEntry(sets, v.entry.id)
  {
    var r := ViewsOf(rows, sets);
    forall v | v in r
      ensures v.entry in entries && v.entry.sessionId == sid
      ensures ExerciseById(exercises, v.entry.exerciseId) == Some(v.exercise)
      ensures v.sets == SetsOfEntry(sets, v.entry.id)
    {
      var k :| 0 <= k < |r| && r[k] == v;
      assert rows[k] in rows;
    }
  }

  /** GET /sessions/:id: NotFound unless the session is the user's; then the session
      with its exercises by `order_index` and each exercise's sets by `set_number`. */
  function GetSession(sessions: seq<Session>, entries: seq<SessionExercise>, sets: seq<ExerciseSet>,
                      exercises: seq<Exercise>, id: Id, user: Id): (r: Result<SessionView>)
    ensures r.Err? <==> forall s | s in sessions :: !(s.id == id && s.userId == user)
    ensures r.Err? ==> r.error == NotFound
    ensures r.Ok? ==> r.value.session in sessions && r.value.session.id == id && r.value.session.userId == user
    ensures r.Ok? ==> r.value.exercises == EntryViews(entries, sets, exercises, id)
  {
    match OwnedSession(sessions, id, user)
    case None => Err(NotFound)
    case Some(s) => Ok(SessionView(s, EntryViews(entries, sets, exercises, id)))
  }

  predicate FromTemplate(s: Session, user: Id, templateId: Id)
  {
    s.userId == user && s.templateId == Some(templateId) && s.dateCompleted.Some?
  }

  function CompletedDesc(s: Session): seq<int>
  {
    [-(if s.dateCompleted.Some? then s.dateCompleted.value else 0)]
  }

  /** The session picked by `WHERE user_id = ? AND template_id = ? AND date_completed IS NOT NULL
      ORDER BY date_completed DESC LIMIT 1`. */
  function LatestFromTemplate(sessions: seq<Session>, user: Id, templateId: Id): (r: Option<Session>)
    ensures r.None? <==> forall s | s in sessions :: !FromTemplate(s, user, templateId)
    ensures r.Some? ==> r.value in sessions && FromTemplate(r.value, user, templateId)
    ensures r.Some? ==> forall s | s in sessions && FromTemplate(s, user, templateId) ::
      s.dateCompleted.value <= r.value.dateCompleted.value
  {
    var sorted := Select(sessions, Done(user, templateId), CompletedDesc);
    if sorted == [] then None
    else
      FirstIsLatest(sessions, user, templateId, sorted);
      Some(sorted[0])
  }

  function Done(user: Id, templateId: Id): Session -> bool
  {
    (s: Session) => FromTemplate(s, user, templateId)
  }

  /** The first row of the `date_completed DESC` ordering completed last. */
  lemma FirstIsLatest(sessions: seq<Session>, user: Id, templateId: Id, sorted: seq<Session>)
    requires sorted == Select(sessions, Done(user, templateId), CompletedDesc) && sorted != []
    ensures sorted[0] in sessions && FromTemplate(sorted[0], user, templateId)
    ensures forall s | s in sessions && FromTemplate(s, user, templateId) ::
      s.dateCompleted.value <= sorted[0].dateCompleted.value
  {
    assert sorted[0] in sorted;
    forall s | s in sessions && FromTemplate(s, user, templateId)
      ensures s.dateCompleted.value <= sorted[0].dateCompleted.value
    {
      assert Done(user, templateId)(s);
      var j :| 0 <= j < |sorted| && sorted[j] == s;
      if j > 0 {
        LexLeSingle(CompletedDesc(sorted[0])[0], CompletedDesc(sorted[j])[0]);
      }
    }
  }

  /** GET /sessions/template/:id/last: the exercises and sets of the user's most
      recently completed session from the template, or None when there is none. */
  function LastForTemplate(sessions: seq<Session>, entries: seq<SessionExercise>, sets: seq<ExerciseSet>,
                           exercises: seq<Exercise>, templateId: Id, user: Id): (r: Option<seq<EntryView>>)
    ensures r.None? <==> forall s | s in sessions :: !FromTemplate(s, user, templateId)
    ensures r.Some? ==> exists s | s in sessions && FromTemplate(s, user, templateId) ::
      && r.value == EntryViews(entries, sets, exercises, s.id)
      && forall s' | s' in sessions && FromTemplate(s', user, templateId) ::
           s'.dateCompleted.value <= s.dateCompleted.value
  {
    match LatestFromTemplate(sessions, user, templateId)
    case None => None
    case Some(s) => Some(EntryViews(entries, sets, exercises, s.id))
  }

  /** `COALESCE(MAX(order_index), 0)` over the exercises of session `sid`, with None
      standing for an empty group. */
  function MaxOrder(entries: seq<SessionExercise>, sid: Id): (r: Option<int>)
    ensures r.None? <==> forall e | e in entries :: e.sessionId != sid
    ensures r.Some? ==> exists e | e in entries :: e.sessionId == sid && e.orderIndex == r.value
    ensures r.Some? ==> forall e | e in entries && e.sessionId == sid :: e.orderIndex <= r.value
  {
    if entries == [] then None
    else
      var e := entries[|entries| - 1];
      assert entries == entries[..|entries| - 1] + [e];
      var m := MaxOrder(entries[..|entries| - 1], sid);
      if e.sessionId != sid then m
      else if m.Some? && m.value >= e.orderIndex then m
      else Some(e.orderIndex)
  }

  /** `(max_order || 0) + 1`: one past the largest order index of the session, 1 for
      a session without exercises. */
  function NextOrder(entries: seq<SessionExercise>, sid: Id): (r: int)
    ensures forall e | e in entries && e.sessionId == sid :: e.orderIndex < r
    ensures (forall e | e in entries :: e.sessionId != sid) ==> r == 1
  {
    match MaxOrder(entries, sid)
    case None => 1
    case Some(m) => m + 1
  }

  /** Below the next order index sits an existing exercise of the session, when it has any. */
  lemma NextOrderFollowsLast(entries: seq<SessionExercise>, sid: Id, x: SessionExercise)
    requires x in entries && x.sessionId == sid
    ensures exists e | e in entries :: e.sessionId == sid && e.orderIndex == NextOrder(entries, sid) - 1
  {
  }

  /** The `session_exercises` rows of a start request: the i-th seed gets order index
      i + 1 and the i-th id after `firstId`. */
  function SeedRows(sid: Id, firstId: Id, seeds: seq<Seed>): seq<SessionExercise>
  {
    seq(|seeds|, i requires 0 <= i < |seeds| =>
      SessionExercise(firstId + i, sid, seeds[i].exerciseId, i + 1, TextOrNull(seeds[i].notes)))
  }

  /** `UPDATE workout_sessions SET date_completed = NOW(), duration_minutes = ? WHERE id = ?` */
  function Finish(sessions: seq<Session>, id: Id, now: Time, duration: int): seq<Session>
  {
    seq(|sessions|, i requires 0 <= i < |sessions| =>
      if sessions[i].id == id then sessions[i].(dateCompleted := Some(now), durationMinutes := Some(duration))
      else sessions[i])
  }

  /** A completed session reads back completed at `now` with the given duration,
      everything else about it unchanged, so it then refuses new exercises. */
  lemma {:induction false} FinishCompletes(sessions: seq<Session>, id: Id, user: Id, now: Time, duration: int)
    requires OwnedSession(sessions, id, user).Some?
    ensures OwnedSession(Finish(sessions, id, now, duration), id, user)
      == Some(OwnedSession(sessions, id, user).value.(dateCompleted := Some(now), durationMinutes := Some(duration)))
  {
    if !(sessions[0].id == id && sessions[0].userId == user) {
      assert Finish(sessions, id, now, duration)[1..] == Finish(sessions[1..], id, now, duration);
      FinishCompletes(sessions[1..], id, user, now, duration);
    }
  }

  /** The ownership check of the set routes: the set joined to its session exercise
      and session, `WHERE es.id = ? AND ws.user_id = ?`. */
  predicate SetOwned(sessions: seq<Session>, entries: seq<SessionExercise>, sets: seq<ExerciseSet>, setId: Id, user: Id)
  {
    exists t | t in Join(sessions, entries, sets) :: t.exerciseSet.id == setId && t.session.userId == user
  }

  /** `UPDATE exercise_sets SET set_number = ?, reps = ?, weight_kg = ?, duration_seconds = ?,
      notes = ? WHERE id = ?` with the values already converted. */
  function Overwrite(sets: seq<ExerciseSet>, setId: Id, setNumber: int, reps: Option<int>, weight: Option<real>,
                     duration: Option<int>, notes: Option<string>): seq<ExerciseSet>
  {
    seq(|sets|, i requires 0 <= i < |sets| =>
      if sets[i].id == setId then ExerciseSet(setId, sets[i].sessionExerciseId, setNumber, reps, weight, duration, notes)
      else sets[i])
  }

  function NotSet(setId: Id): ExerciseSet -> bool
  {
    (s: ExerciseSet) => s.id != setId
  }

  /** `DELETE FROM exercise_sets WHERE id = ?` */
  function DropSet(sets: seq<ExerciseSet>, setId: Id): seq<ExerciseSet>
  {
    Where(sets, NotSet(setId))
  }

  /** A foreign key into `workout_sessions` that resolves. */
  predicate HasSession(sessions: seq<Session>, id: Id)
  {
    exists s | s in sessions :: s.id == id
  }

  /** A foreign key into `session_exercises` that resolves. */
  predicate HasEntry(entries: seq<SessionExercise>, id: Id)
  {
    exists e | e in entries :: e.id == id
  }

  /** `SELECT id FROM session_exercises WHERE id = ? AND session_id = ?` finds a row. */
  predicate EntryIn(entries: seq<SessionExercise>, seId: Id, sid: Id)
  {
    exists e | e in entries :: e.id == seId && e.sessionId == sid
  }

  /** Weights are stored through `weight_kg || null`, so no stored weight is zero. */
  ghost predicate NoZeroWeight(sets: seq<ExerciseSet>)
  {
    forall s | s in sets :: s.weightKg != Some(0.0)
  }

  /** After completing session `sid`, every weighted set of it is covered by the
      user's record for its exercise. */
  ghost predicate RecordsCover(records: seq<PersonalRecord>, user: Id, entries: seq<SessionExercise>,
                               sets: seq<ExerciseSet>, sid: Id)
  {
    forall se, es | se in entries && es in sets && es.sessionExerciseId == se.id && se.sessionId == sid
      && es.weightKg.Some? ::
      Holds(records, user, se.exerciseId, es.weightKg.value)
  }

  /** Completing a session leaves a personal record at least as heavy as each of its
      weighted sets: the heaviest weight of each exercise is a stored, hence nonzero,
      weight, and the upsert loop covers every nonzero candidate. */
  lemma CompletionRecordsEveryWeight(t: PrTable, user: Id, entries: seq<SessionExercise>,
                                     sets: seq<ExerciseSet>, sid: Id, now: Time)
    requires PrValid(t) && NoZeroWeight(sets)
    ensures RecordsCover(UpsertAll(t, user, SessionMaxima(entries, sets, sid), now, sid).rows, user, entries, sets, sid)
  {
    var cs := SessionMaxima(entries, sets, sid);
    var u := UpsertAll(t, user, cs, now, sid);
    UpsertAllCovers(t, user, cs, now, sid);
    forall se, es | se in entries && es in sets && es.sessionExerciseId == se.id && se.sessionId == sid
      && es.weightKg.Some?
      ensures Holds(u.rows, user, se.exerciseId, es.weightKg.value)
    {
      var g := CandidateFor(entries, sets, sid, se, es);
      var i :| 0 <= i < |u.rows| && u.rows[i].userId == user && u.rows[i].exerciseId == g.exerciseId
        && u.rows[i].maxWeight >= g.maxWeight;
    }
  }

  /** A weighted set of the session has a nonzero candidate for its exercise that
      is at least as heavy. */
  lemma CandidateFor(entries: seq<SessionExercise>, sets: seq<ExerciseSet>, sid: Id,
                     se: SessionExercise, es: ExerciseSet) returns (g: Candidate)
    requires NoZeroWeight(sets)
    requires se in entries && es in sets && es.sessionExerciseId == se.id && se.sessionId == sid
    requires es.weightKg.Some?
    ensures g in SessionMaxima(entries, sets, sid) && g.maxWeight != 0.0
    ensures g.exerciseId == se.exerciseId && g.maxWeight >= es.weightKg.value
  {
    var pairs := EntrySets(entries, sets);
    var ws := Weights(pairs, sid);
    EntrySetsMembers(entries, sets, EntrySet(se, es));
    var w := Candidate(se.exerciseId, es.weightKg.value);
    WeightsMembers(pairs, sid, w);
    var cs := GroupMax(ws);
    GroupMaxSpec(ws);
    g :| g in cs && g.exerciseId == w.exerciseId;
    assert HeaviestOf(ws, g);
    WeightsMembers(pairs, sid, g);
    var q :| q in pairs && q.entry.sessionId == sid && q.entry.exerciseId == g.exerciseId
      && q.exerciseSet.weightKg == Some(g.maxWeight);
    EntrySetsMembers(entries, sets, q);
  }

  /** In a list ordered by `order_index`, a view whose index exceeds every other
      view's comes last. */
  lemma GreatestComesLast(v: seq<EntryView>, e: SessionExercise)
    requires forall i, j | 0 <= i < j < |v| :: v[i].entry.orderIndex <= v[j].entry.orderIndex
    requires forall k | 0 <= k < |v| && v[k].entry != e :: v[k].entry.orderIndex < e.orderIndex
    ensures forall i, j | 0 <= i < |v| && 0 <= j < |v| && v[i].entry != e && v[j].entry == e :: i < j
  {
  }

  /** A newly added exercise is listed after every other exercise of its session. */
  lemma AddedListedLast(entries: seq<SessionExercise>, sets: seq<ExerciseSet>, exercises: seq<Exercise>,
                        e: SessionExercise)
    requires e.orderIndex == NextOrder(entries, e.sessionId)
    ensures var v := EntryViews(entries + [e], sets, exercises, e.sessionId);
      forall i, j | 0 <= i < |v| && 0 <= j < |v| && v[i].entry != e && v[j].entry == e :: i < j
  {
    var sid := e.sessionId;
    var v := EntryViews(entries + [e], sets, exercises, sid);
    forall k | 0 <= k < |v| && v[k].entry != e ensures v[k].entry.orderIndex < e.orderIndex {
      assert v[k] in v;
      var x := v[k].entry;
      assert x in entries + [e] && x.sessionId == sid;
      assert x in entries;
    }
    GreatestComesLast(v, e);
  }

  /** The `session_exercises` table: fresh keys, and every row's session exists. */
  ghost predicate EntriesOk(entries: seq<SessionExercise>, nextId: Id, sessions: seq<Session>)
  {
    && IdsFresh(entries, IdOfEntry, nextId)
    && forall e | e in entries :: HasSession(sessions, e.sessionId)
  }

  /** The `exercise_sets` table: fresh keys, every row's session exercise exists,
      and no weight is zero. */
  ghost predicate SetsOk(sets: seq<ExerciseSet>, nextId: Id, entries: seq<SessionExercise>)
  {
    && IdsFresh(sets, IdOfSet, nextId)
    && (forall s | s in sets :: HasEntry(entries, s.sessionExerciseId))
    && NoZeroWeight(sets)
  }

  lemma AddSession(sessions: seq<Session>, nextId: Id, entries: seq<SessionExercise>, entryId: Id, s: Session)
    requires IdsFresh(sessions, IdOfSession, nextId) && EntriesOk(entries, entryId, sessions) && s.id == nextId
    ensures IdsFresh(sessions + [s], IdOfSession, nextId + 1) && EntriesOk(entries, entryId, sessions + [s])
    ensures HasSession(sessions + [s], s.id)
  {
    Append(sessions, IdOfSession, nextId, s);
    forall e | e in entries ensures HasSession(sessions + [s], e.sessionId) {
      var w :| w in sessions && w.id == e.sessionId;
      assert w in sessions + [s];
    }
    assert s in sessions + [s];
  }

  lemma AddEntry(entries: seq<SessionExercise>, nextId: Id, sessions: seq<Session>,
                 sets: seq<ExerciseSet>, setId: Id, e: SessionExercise)
    requires EntriesOk(entries, nextId, sessions) && SetsOk(sets, setId, entries)
    requires e.id == nextId && HasSession(sessions, e.sessionId)
    ensures EntriesOk(entries + [e], nextId + 1, sessions) && SetsOk(sets, setId, entries + [e])
  {
    Append(entries, IdOfEntry, nextId, e);
    forall s | s in sets ensures HasEntry(entries + [e], s.sessionExerciseId) {
      var w :| w in entries && w.id == s.sessionExerciseId;
      assert w in entries + [e];
    }
  }

  lemma AddSet(sets: seq<ExerciseSet>, nextId: Id, entries: seq<SessionExercise>, x: ExerciseSet)
    requires SetsOk(sets, nextId, entries)
    requires x.id == nextId && HasEntry(entries, x.sessionExerciseId) && x.weightKg != Some(0.0)
    ensures SetsOk(sets + [x], nextId + 1, entries)
  {
    Append(sets, IdOfSet, nextId, x);
  }

  lemma OverwriteKeeps(sets: seq<ExerciseSet>, nextId: Id, entries: seq<SessionExercise>, setId: Id,
                       setNumber: int, reps: Option<int>, weight: Option<real>, duration: Option<int>,
                       notes: Option<string>)
    requires SetsOk(sets, nextId, entries) && weight != Some(0.0)
    ensures SetsOk(Overwrite(sets, setId, setNumber, reps, weight, duration, notes), nextId, entries)
  {
    var u := Overwrite(sets, setId, setNumber, reps, weight, duration, notes);
    SameIds(sets, u, IdOfSet, nextId);
    forall s | s in u ensures HasEntry(entries, s.sessionExerciseId) && s.weightKg != Some(0.0) {
      var i :| 0 <= i < |u| && u[i] == s;
      assert sets[i] in sets;
    }
  }

  lemma DropKeeps(sets: seq<ExerciseSet>, nextId: Id, entries: seq<SessionExercise>, setId: Id)
    requires SetsOk(sets, nextId, entries)
    ensures SetsOk(DropSet(sets, setId), nextId, entries)
  {
    WhereKeepsIds(sets, IdOfSet, nextId, NotSet(setId));
    forall x | x in DropSet(sets, setId) ensures x in sets {
      WhereMembers(sets, NotSet(setId), x);
    }
  }

  lemma FinishKeeps(sessions: seq<Session>, nextId: Id, entries: seq<SessionExercise>, entryId: Id,
                    id: Id, now: Time, duration: int)
    requires IdsFresh(sessions, IdOfSession, nextId) && EntriesOk(entries, entryId, sessions)
    ensures var f := Finish(sessions, id, now, duration);
      IdsFresh(f, IdOfSession, nextId) && EntriesOk(entries, entryId, f)
  {
    var f := Finish(sessions, id, now, duration);
    SameIds(sessions, f, IdOfSession, nextId);
    forall e | e in entries ensures HasSession(f, e.sessionId) {
      var w :| w in sessions && w.id == e.sessionId;
      var i :| 0 <= i < |sessions| && sessions[i] == w;
      assert f[i] in f;
    }
  }

  /** `SELECT ... FROM exercise_sets WHERE id = ?`, first row. */
  function SetById(sets: seq<ExerciseSet>, setId: Id): (r: Option<ExerciseSet>)
    ensures r.Some? ==> r.value in sets && r.value.id == setId
    ensures r.None? ==> forall s | s in sets :: s.id != setId
  {
    if sets == [] then None
    else if sets[0].id == setId then Some(sets[0])
    else
      assert sets == [sets[0]] + sets[1..];
      SetById(sets[1..], setId)
  }

  /** A set the user owns is a row of the table. */
  lemma OwnedSetExists(sessions: seq<Session>, entries: seq<SessionExercise>, sets: seq<ExerciseSet>, setId: Id, user: Id)
    requires SetOwned(sessions, entries, sets, setId, user)
    ensures SetById(sets, setId).Some?
  {
    var t :| t in Join(sessions, entries, sets) && t.exerciseSet.id == setId && t.session.userId == user;
    JoinMembers(sessions, entries, sets, t);
  }

  /** Reading a set back after the update yields the values just written. */
  lemma {:induction false} OverwriteRead(sets: seq<ExerciseSet>, setId: Id, setNumber: int, reps: Option<int>,
                                        weight: Option<real>, duration: Option<int>, notes: Option<string>)
    requires SetById(sets, setId).Some?
    ensures SetById(Overwrite(sets, setId, setNumber, reps, weight, duration, notes), setId)
      == Some(ExerciseSet(setId, SetById(sets, setId).value.sessionExerciseId, setNumber, reps, weight, duration, notes))
  {
    var u := Overwrite(sets, setId, setNumber, reps, weight, duration, notes);
    if sets[0].id != setId {
      assert u[1..] == Overwrite(sets[1..], setId, setNumber, reps, weight, duration, notes);
      OverwriteRead(sets[1..], setId, setNumber, reps, weight, duration, notes);
    }
  }

  /** The running personal-record loop: one more candidate is one more upsert. */
  lemma UpsertAllSnoc(t: PrTable, user: Id, cs: seq<Candidate>, c: Candidate, now: Time, sid: Id)
    ensures UpsertAll(t, user, cs + [c], now, sid) == Upsert(UpsertAll(t, user, cs, now, sid), user, c, now, sid)
  {
    assert (cs + [c])[..|cs|] == cs;
  }

  /** The session tables and their counters. The exercise catalog is read through
      the `exercises` parameters of the read functions. */
  class SessionStore {
    var sessions: seq<Session>
    var entries: seq<SessionExercise>
    var sets: seq<ExerciseSet>
    var records: seq<PersonalRecord>
    var nextSessionId: Id
    var nextEntryId: Id
    var nextSetId: Id
    var nextRecordId: Id

    /** Fresh primary keys, foreign keys that resolve (sets to session exercises,
        session exercises to sessions), no stored zero weight, and at most one
        personal record per user and exercise. */
    ghost predicate Valid()
      reads this
    {
      && IdsFresh(sessions, IdOfSession, nextSessionId)
      && EntriesOk(entries, nextEntryId, sessions)
      && SetsOk(sets, nextSetId, entries)
      && PrValid(PrTable(records, nextRecordId))
    }

    constructor ()
      ensures Valid()
      ensures sessions == [] && entries == [] && sets == [] && records == []
    {
      sessions, entries, sets, records := [], [], [], [];
      nextSessionId, nextEntryId, nextSetId, nextRecordId := 1, 1, 1, 1;
    }

    /** POST /sessions/start: a new active session of the user (400 for an empty
        name), then one session exercise per seed, in order, numbered from 1. */
    method Start(user: Id, name: string, templateId: Option<Id>, notes: Option<string>, seeds: seq<Seed>, now: Time)
      returns (r: Result<Session>)
      requires Valid()
      modifies this
      ensures Valid()
      ensures sets == old(sets) && records == old(records)
      ensures nextSetId == old(nextSetId) && nextRecordId == old(nextRecordId)
      ensures r.Err? <==> name == ""
      ensures r.Err? ==> r.error == BadRequest && unchanged(this)
      ensures r.Ok? ==> r.value == Session(old(nextSessionId), user, IntOrNull(templateId), name, now, None, None, TextOrNull(notes))
      ensures r.Ok? ==> sessions == old(sessions) + [r.value] && nextSessionId == old(nextSessionId) + 1
      ensures r.Ok? ==> entries == old(entries) + SeedRows(r.value.id, old(nextEntryId), seeds)
      ensures r.Ok? ==> nextEntryId == old(nextEntryId) + |seeds|
    {
      if name == "" {
        return Err(BadRequest);
      }
      var s := Session(nextSessionId, user, IntOrNull(templateId), name, now, None, None, TextOrNull(notes));
      AddSession(sessions, nextSessionId, entries, nextEntryId, s);
      sessions := sessions + [s];
      nextSessionId := nextSessionId + 1;
      var firstId := nextEntryId;
      var i := 0;
      while i < |seeds|
        invariant 0 <= i <= |seeds|
        invariant EntriesOk(entries, nextEntryId, sessions) && SetsOk(sets, nextSetId, entries)
        invariant sessions == old(sessions) + [s] && nextSessionId == old(nextSessionId) + 1
        invariant sets == old(sets) && records == old(records)
        invariant nextSetId == old(nextSetId) && nextRecordId == old(nextRecordId)
        invariant entries == old(entries) + SeedRows(s.id, firstId, seeds[..i])
        invariant nextEntryId == firstId + i
      {
        var row := SessionExercise(nextEntryId, s.id, seeds[i].exerciseId, i + 1, TextOrNull(seeds[i].notes));
        AddEntry(entries, nextEntryId, sessions, sets, nextSetId, row);
        entries := entries + [row];
        nextEntryId := nextEntryId + 1;
        assert SeedRows(s.id, firstId, seeds[..i + 1]) == SeedRows(s.id, firstId, seeds[..i]) + [row];
        i := i + 1;
      }
      assert seeds[..i] == seeds;
      r := Ok(s);
    }

    /** POST /sessions/:id/exercises: NotFound unless the session is the user's,
        InvalidState once it is completed; otherwise the exercise goes after the
        session's existing ones. */
    method AddExercise(id: Id, user: Id, exerciseId: Id, notes: Option<string>) returns (r: Result<SessionExercise>)
      requires Valid()
      modifies this
      ensures Valid()
      ensures sessions == old(sessions) && sets == old(sets) && records == old(records)
      ensures nextSessionId == old(nextSessionId) && nextSetId == old(nextSetId) && nextRecordId == old(nextRecordId)
      ensures OwnedSession(old(sessions), id, user).None? ==> r == Err(NotFound)
      ensures OwnedSession(old(sessions), id, user).Some? && OwnedSession(old(sessions), id, user).value.dateCompleted.Some?
        ==> r == Err(InvalidState)
      ensures r.Ok? <==> OwnedSession(old(sessions), id, user).Some? && OwnedSession(old(sessions), id, user).value.dateCompleted.None?
      ensures r.Err? ==> entries == old(entries) && nextEntryId == old(nextEntryId)
      ensures r.Ok? ==> r.value == SessionExercise(old(nextEntryId), id, exerciseId, NextOrder(old(entries), id), TextOrNull(notes))
      ensures r.Ok? ==> entries == old(entries) + [r.value] && nextEntryId == old(nextEntryId) + 1
      ensures r.Ok? ==> forall e | e in old(entries) && e.sessionId == id :: e.orderIndex < r.value.orderIndex
    {
      var s := OwnedSession(sessions, id, user);
      if s.None? {
        return Err(NotFound);
      }
      if s.value.dateCompleted.Some? {
        return Err(InvalidState);
      }
      var e := SessionExercise(nextEntryId, id, exerciseId, NextOrder(entries, id), TextOrNull(notes));
      AddEntry(entries, nextEntryId, sessions, sets, nextSetId, e);
      entries := entries + [e];
      nextEntryId := nextEntryId + 1;
      r := Ok(e);
    }

    /** POST /sessions/:id/sets: NotFound unless the session is the user's and the
        session exercise belongs to it; a completed session still takes sets.
        Zero and empty values are stored as NULL. */
    method LogSet(id: Id, user: Id, seId: Id, setNumber: int, reps: Option<int>, weight: Option<real>,
                  duration: Option<int>, notes: Option<string>) returns (r: Result<ExerciseSet>)
      requires Valid()
      modifies this
      ensures Valid()
      ensures sessions == old(sessions) && entries == old(entries) && records == old(records)
      ensures nextSessionId == old(nextSessionId) && nextEntryId == old(nextEntryId) && nextRecordId == old(nextRecordId)
      ensures r.Ok? <==> OwnedSession(old(sessions), id, user).Some? && EntryIn(old(entries), seId, id)
      ensures r.Err? ==> r.error == NotFound && sets == old(sets) && nextSetId == old(nextSetId)
      ensures r.Ok? ==> r.value == ExerciseSet(old(nextSetId), seId, setNumber, IntOrNull(reps),
        WeightOrNull(weight), IntOrNull(duration), TextOrNull(notes))
      ensures r.Ok? ==> sets == old(sets) + [r.value] && nextSetId == old(nextSetId) + 1
    {
      if OwnedSession(sessions, id, user).None? {
        return Err(NotFound);
      }
      if !EntryIn(entries, seId, id) {
        return Err(NotFound);
      }
      var s := ExerciseSet(nextSetId, seId, setNumber, IntOrNull(reps), WeightOrNull(weight), IntOrNull(duration), TextOrNull(notes));
      AddSet(sets, nextSetId, entries, s);
      sets := sets + [s];
      nextSetId := nextSetId + 1;
      r := Ok(s);
    }

    /** PUT /sessions/sets/:setId: NotFound unless the set is in one of the user's
        sessions; otherwise its fields are overwritten (falsy values as NULL) and
        the row is read back. */
    method UpdateSet(setId: Id, user: Id, setNumber: int, reps: Option<int>, weight: Option<real>,
                     duration: Option<int>, notes: Option<string>) returns (r: Result<ExerciseSet>)
      requires Valid()
      modifies this
      ensures Valid()
      ensures sessions == old(sessions) && entries == old(entries) && records == old(records)
      ensures nextSessionId == old(nextSessionId) && nextEntryId == old(nextEntryId)
      ensures nextSetId == old(nextSetId) && nextRecordId == old(nextRecordId)
      ensures r.Ok? <==> SetOwned(old(sessions), old(entries), old(sets), setId, user)
      ensures r.Err? ==> r.error == NotFound && sets == old(sets)
      ensures r.Ok? ==> sets == Overwrite(old(sets), setId, setNumber, IntOrNull(reps), WeightOrNull(weight),
        IntOrNull(duration), TextOrNull(notes))
      ensures r.Ok? ==> SetById(old(sets), setId).Some?
      ensures r.Ok? ==> r.value == ExerciseSet(setId, SetById(old(sets), setId).value.sessionExerciseId, setNumber,
        IntOrNull(reps), WeightOrNull(weight), IntOrNull(duration), TextOrNull(notes))
    {
      if !SetOwned(sessions, entries, sets, setId, user) {
        return Err(NotFound);
      }
      var reps', weight', duration', notes' := IntOrNull(reps), WeightOrNull(weight), IntOrNull(duration), TextOrNull(notes);
      OwnedSetExists(sessions, entries, sets, setId, user);
      OverwriteRead(sets, setId, setNumber, reps', weight', duration', notes');
      OverwriteKeeps(sets, nextSetId, entries, setId, setNumber, reps', weight', duration', notes');
      sets := Overwrite(sets, setId, setNumber, reps', weight', duration', notes');
      r := Ok(SetById(sets, setId).value);
    }

    /** DELETE /sessions/sets/:setId: NotFound unless the set is in one of the user's
        sessions; otherwise exactly that set is removed. */
    method DeleteSet(setId: Id, user: Id) returns (r: Result<()>)
      requires Valid()
      modifies this
      ensures Valid()
      ensures sessions == old(sessions) && entries == old(entries) && records == old(records)
      ensures nextSessionId == old(nextSessionId) && nextEntryId == old(nextEntryId)
      ensures nextSetId == old(nextSetId) && nextRecordId == old(nextRecordId)
      ensures r.Ok? <==> SetOwned(old(sessions), old(entries), old(sets), setId, user)
      ensures r.Err? ==> r.error == NotFound && sets == old(sets)
      ensures r.Ok? ==> sets == DropSet(old(sets), setId)
      ensures r.Ok? ==> forall s | s in old(sets) :: s in sets <==> s.id != setId
    {
      if !SetOwned(sessions, entries, sets, setId, user) {
        return Err(NotFound);
      }
      DropKeeps(sets, nextSetId, entries, setId);
      forall x | x in sets ensures x in DropSet(sets, setId) <==> x.id != setId {
        WhereMembers(sets, NotSet(setId), x);
      }
      sets := DropSet(sets, setId);
      r := Ok(());
    }

    /** The loop over the candidates of a completed session: skip a zero maximum,
        insert a record when the user has none for the exercise, raise it when the
        candidate is strictly heavier. */
    method OfferRecords(user: Id, cands: seq<Candidate>, now: Time, sid: Id)
      requires PrValid(PrTable(records, nextRecordId))
      modifies this`records, this`nextRecordId
      ensures PrTable(records, nextRecordId) == UpsertAll(PrTable(old(records), old(nextRecordId)), user, cands, now, sid)
      ensures PrValid(PrTable(records, nextRecordId))
      ensures Grows(PrTable(old(records), old(nextRecordId)), PrTable(records, nextRecordId))
    {
      ghost var start := PrTable(records, nextRecordId);
      var i := 0;
      while i < |cands|
        invariant 0 <= i <= |cands|
        invariant PrTable(records, nextRecordId) == UpsertAll(start, user, cands[..i], now, sid)
      {
        var c := cands[i];
        ghost var before := PrTable(records, nextRecordId);
        // `if (!ex.max_weight) continue;`
        if c.maxWeight != 0.0 {
          var existing := PrFor(records, user, c.exerciseId);
          if existing.None? {
            records := records + [PersonalRecord(nextRecordId, user, c.exerciseId, c.maxWeight, now, sid)];
            nextRecordId := nextRecordId + 1;
          } else if c.maxWeight > existing.value.maxWeight {
            records := Raise(records, existing.value.id, c.maxWeight, now, sid);
          }
        }
        assert PrTable(records, nextRecordId) == Upsert(before, user, c, now, sid);
        UpsertAllSnoc(start, user, cands[..i], c, now, sid);
        assert cands[..i + 1] == cands[..i] + [c];
        i := i + 1;
      }
      assert cands[..i] == cands;
      UpsertAllValid(start, user, cands, now, sid);
    }

    /** POST /sessions/:id/complete: NotFound unless the session is the user's;
        otherwise it is stamped completed (again, if it already was) and each
        exercise's heaviest weight in it is offered to the user's records. */
    method Complete(id: Id, user: Id, duration: int, now: Time) returns (r: Result<()>)
      requires Valid()
      modifies this
      ensures Valid()
      ensures entries == old(entries) && sets == old(sets)
      ensures nextSessionId == old(nextSessionId) && nextEntryId == old(nextEntryId) && nextSetId == old(nextSetId)
      ensures r.Err? <==> OwnedSession(old(sessions), id, user).None?
      ensures r.Err? ==> r.error == NotFound && sessions == old(sessions)
      ensures r.Err? ==> records == old(records) && nextRecordId == old(nextRecordId)
      ensures r.Ok? ==> sessions == Finish(old(sessions), id, now, duration)
      ensures r.Ok? ==>
        PrTable(records, nextRecordId) == UpsertAll(PrTable(old(records), old(nextRecordId)), user, SessionMaxima(entries, sets, id), now, id)
      ensures r.Ok? ==> RecordsCover(records, user, entries, sets, id)
      ensures r.Ok? ==> Grows(PrTable(old(records), old(nextRecordId)), PrTable(records, nextRecordId))
    {
      if OwnedSession(sessions, id, user).None? {
        return Err(NotFound);
      }
      FinishKeeps(sessions, nextSessionId, entries, nextEntryId, id, now, duration);
      sessions := Finish(sessions, id, now, duration);
      ghost var kept := IdsFresh(sessions, IdOfSession, nextSessionId) && EntriesOk(entries, nextEntryId, sessions)
        && SetsOk(sets, nextSetId, entries);
      assert kept;
      var cands := SessionMaxima(entries, sets, id);
      OfferRecords(user, cands, now, id);
      assert kept == (IdsFresh(sessions, IdOfSession, nextSessionId) && EntriesOk(entries, nextEntryId, sessions)
        && SetsOk(sets, nextSetId, entries));
      CompletionRecordsEveryWeight(old(PrTable(records, nextRecordId)), user, entries, sets, id, now);
      r := Ok(());
    }
  }
}
