/** The statistics routes (routes/stats.js): read-only aggregates over a user's
    completed sessions, the weekly summary and the monthly progress series. The
    window start (seven days or six months before now) and the `YYYY-MM` month of a
    timestamp are parameters; a month is an integer key whose order is the order of
    the `YYYY-MM` strings. */
module Stats {
  import opened Schema
  import opened Ordering
  import opened Joins
  import opened Catalog

  /** The `user_id` query parameter as `Number(...)` reads it: absent (or empty),
      a number, or a string that is not a number (NaN). */
  datatype QueryParam = Absent | Numeric(n: int) | NotANumber

  /** The user the weekly summary is about: the one named in the query when the
      caller is an admin and names one, the caller otherwise; 400 for a falsy result
      (0 or NaN). */
  function TargetUser(isAdmin: bool, query: QueryParam, caller: Id): (r: Result<Id>)
    ensures r.Err? ==> r.error == BadRequest
    ensures r.Ok? ==> r.value != 0
    ensures r.Ok? && r.value != caller ==> isAdmin && query == Numeric(r.value)
    ensures isAdmin && query.Numeric? && query.n != 0 ==> r == Ok(query.n)
    ensures isAdmin && query.NotANumber? ==> r == Err(BadRequest)
    ensures (!isAdmin || query.Absent?) ==> (r.Ok? <==> caller != 0)
    ensures isAdmin && !query.Absent? ==> (r.Ok? <==> query.Numeric? && query.n != 0)
  {
    var target := if isAdmin && !query.Absent? then query else Numeric(caller);
    match target
    case Numeric(n) => if n == 0 then Err(BadRequest) else Ok(n)
    case _ => Err(BadRequest)
  }

  /** `user_id = ? AND date_completed >= ?`: a NULL completion date never compares,
      so an active session is never in a window. */
  predicate CompletedSince(s: Session, user: Id, since: Time)
  {
    s.userId == user && s.dateCompleted.Some? && s.dateCompleted.value >= since
  }

  function InWindow(user: Id, since: Time): Session -> bool
  {
    (s: Session) => CompletedSince(s, user, since)
  }

  /** `COALESCE(SUM(duration_minutes), 0)`: NULL durations add nothing. */
  function Minutes(sessions: seq<Session>): int
  {
    if sessions == [] then 0
    else
      var last := sessions[|sessions| - 1];
      Minutes(sessions[..|sessions| - 1]) + (if last.durationMinutes.Some? then last.durationMinutes.value else 0)
  }

  /** `COALESCE(SUM(f), 0)` over rows whose terms are never NULL. */
  function Total<T>(rows: seq<T>, f: T -> real): real
  {
    if rows == [] then 0.0 else Total(rows[..|rows| - 1], f) + f(rows[|rows| - 1])
  }

  /** `es.reps * es.weight_kg`: the product is NULL, and adds nothing to the sum,
      when either factor is NULL. */
  function SetVolume(t: SetRow): real
  {
    var s := t.exerciseSet;
    if s.reps.Some? && s.weightKg.Some? then s.reps.value as real * s.weightKg.value else 0.0
  }

  /** `ws.user_id = ? AND ws.date_completed >= ? AND es.weight_kg IS NOT NULL` */
  predicate Weighed(t: SetRow, user: Id, since: Time)
  {
    CompletedSince(t.session, user, since) && t.exerciseSet.weightKg.Some?
  }

  function WeighedIn(user: Id, since: Time): SetRow -> bool
  {
    (t: SetRow) => Weighed(t, user, since)
  }

  /** `workoutsCount`: the user's sessions completed in the window. */
  function WorkoutsCount(sessions: seq<Session>, user: Id, since: Time): nat
  {
    |Where(sessions, InWindow(user, since))|
  }

  /** `totalMinutes`: their summed durations. */
  function TotalMinutes(sessions: seq<Session>, user: Id, since: Time): int
  {
    Minutes(Where(sessions, InWindow(user, since)))
  }

  /** `totalVolume`: reps times weight summed over the weighted sets of those sessions. */
  function TotalVolume(sessions: seq<Session>, entries: seq<SessionExercise>, sets: seq<ExerciseSet>,
                       user: Id, since: Time): real
  {
    Total(Where(Join(sessions, entries, sets), WeighedIn(user, since)), SetVolume)
  }

  /** An element of `newPRs`: the record with its exercise's name. */
  datatype NewRecord = NewRecord(record: PersonalRecord, exerciseName: string)

  /** `newPRs`: `personal_records pr JOIN exercises e ON pr.exercise_id = e.id
      WHERE pr.user_id = ? AND pr.achieved_at >= ?`, in table order. */
  function RecordJoinable(exercises: seq<Exercise>, user: Id, since: Time): PersonalRecord -> bool
  {
    (p: PersonalRecord) => p.userId == user && p.achievedAt >= since && ExerciseById(exercises, p.exerciseId).Some?
  }

  function NewRecords(records: seq<PersonalRecord>, exercises: seq<Exercise>, user: Id, since: Time)
    : (r: seq<NewRecord>)
    ensures |r| <= |records|
    ensures |r| == |Where(records, RecordJoinable(exercises, user, since))|
    ensures forall i | 0 <= i < |r| :: r[i].record == Where(records, RecordJoinable(exercises, user, since))[i]
    ensures forall n | n in r ::
      && n.record in records && n.record.userId == user && n.record.achievedAt >= since
      && ExerciseById(exercises, n.record.exerciseId).Some?
      && ExerciseById(exercises, n.record.exerciseId).value.name == n.exerciseName
  {
    if records == [] then []
    else
      var p := records[|records| - 1];
      assert records == records[..|records| - 1] + [p];
      NewRecords(records[..|records| - 1], exercises, user, since)
        + (if p.userId == user && p.achievedAt >= since && ExerciseById(exercises, p.exerciseId).Some?
           then [NewRecord(p, ExerciseById(exercises, p.exerciseId).value.name)] else [])
  }

  /** Every record of the user achieved in the window whose exercise exists is listed. */
  lemma {:induction false} NewRecordsCover(records: seq<PersonalRecord>, exercises: seq<Exercise>, user: Id,
                                           since: Time, p: PersonalRecord)
    requires p in records && p.userId == user && p.achievedAt >= since
    requires ExerciseById(exercises, p.exerciseId).Some?
    ensures NewRecord(p, ExerciseById(exercises, p.exerciseId).value.name) in NewRecords(records, exercises, user, since)
  {
    var last := records[|records| - 1];
    if p != last {
      assert records == records[..|records| - 1] + [last];
      NewRecordsCover(records[..|records| - 1], exercises, user, since, p);
    }
  }

  /** The body of a weekly summary. */
  datatype Summary = Summary(workoutsCount: nat, totalMinutes: int, totalVolume: real, newPRs: seq<NewRecord>)

  /** GET /stats/weekly-summary: 400 when there is no target user, otherwise the
      four figures of the target user since `since` (seven days before now). */
  function WeeklySummary(sessions: seq<Session>, entries: seq<SessionExercise>, sets: seq<ExerciseSet>,
                         records: seq<PersonalRecord>, exercises: seq<Exercise>,
                         isAdmin: bool, query: QueryParam, caller: Id, since: Time): (r: Result<Summary>)
    ensures r.Err? <==> TargetUser(isAdmin, query, caller).Err?
    ensures r.Err? ==> r.error == BadRequest
    ensures r.Ok? ==> r.value.workoutsCount == WorkoutsCount(sessions, TargetUser(isAdmin, query, caller).value, since)
    ensures r.Ok? ==> r.value.totalMinutes == TotalMinutes(sessions, TargetUser(isAdmin, query, caller).value, since)
    ensures r.Ok? ==> r.value.totalVolume == TotalVolume(sessions, entries, sets, TargetUser(isAdmin, query, caller).value, since)
    ensures r.Ok? ==> r.value.newPRs == NewRecords(records, exercises, TargetUser(isAdmin, query, caller).value, since)
  {
    match TargetUser(isAdmin, query, caller)
    case Err(e) => Err(e)
    case Ok(u) => Ok(Summary(WorkoutsCount(sessions, u, since), TotalMinutes(sessions, u, since),
                             TotalVolume(sessions, entries, sets, u, since), NewRecords(records, exercises, u, since)))
  }

  /** A filter that keeps no row yields the empty list. */
  lemma WhereNone<T>(rows: seq<T>, p: T -> bool)
    requires forall x | x in rows :: !p(x)
    ensures Where(rows, p) == []
  {
    if Where(rows, p) != [] {
      WhereMembers(rows, p, Where(rows, p)[0]);
    }
  }

  /** The count is zero exactly when no session of the user completed in the window,
      and then the minutes are zero too. */
  lemma NoWorkouts(sessions: seq<Session>, user: Id, since: Time)
    ensures WorkoutsCount(sessions, user, since) == 0 <==> forall s | s in sessions :: !CompletedSince(s, user, since)
    ensures WorkoutsCount(sessions, user, since) == 0 ==> TotalMinutes(sessions, user, since) == 0
  {
    var w := Where(sessions, InWindow(user, since));
    if w != [] {
      WhereMembers(sessions, InWindow(user, since), w[0]);
    } else {
      forall s | s in sessions ensures !CompletedSince(s, user, since) {
        WhereMembers(sessions, InWindow(user, since), s);
      }
    }
  }

  /** The volume is zero when no weighted set of the user's sessions completed in the
      window exists. */
  lemma NoVolume(sessions: seq<Session>, entries: seq<SessionExercise>, sets: seq<ExerciseSet>, user: Id, since: Time)
    requires forall s, e, x | s in sessions && e in entries && x in sets ::
      !(x.sessionExerciseId == e.id && e.sessionId == s.id && CompletedSince(s, user, since) && x.weightKg.Some?)
    ensures TotalVolume(sessions, entries, sets, user, since) == 0.0
  {
    var rows := Join(sessions, entries, sets);
    forall t | t in rows ensures !Weighed(t, user, since) {
      JoinMembers(sessions, entries, sets, t);
    }
    WhereNone(rows, WeighedIn(user, since));
  }

  /** Removing a row the filter rejects leaves the filtered rows as they were. */
  lemma WhereSkips<T>(a: seq<T>, x: T, b: seq<T>, p: T -> bool)
    requires !p(x)
    ensures Where(a + [x] + b, p) == Where(a + b, p)
  {
    WhereConcat(a + [x], b, p);
    WhereConcat(a, [x], p);
    WhereConcat(a, b, p);
    WhereNone([x], p);
  }

  /** A session that is not the user's or did not complete in the window (an active
      one in particular) changes neither the count nor the minutes, wherever it sits
      in the table. */
  lemma OutsideWindowIgnored(a: seq<Session>, s: Session, b: seq<Session>, user: Id, since: Time)
    requires !CompletedSince(s, user, since)
    ensures WorkoutsCount(a + [s] + b, user, since) == WorkoutsCount(a + b, user, since)
    ensures TotalMinutes(a + [s] + b, user, since) == TotalMinutes(a + b, user, since)
  {
    WhereSkips(a, s, b, InWindow(user, since));
  }

  /** Nor does such a session change the volume, whatever sets it holds. */
  lemma OutsideWindowNoVolume(a: seq<Session>, s: Session, b: seq<Session>, entries: seq<SessionExercise>,
                              sets: seq<ExerciseSet>, user: Id, since: Time)
    requires !CompletedSince(s, user, since)
    ensures TotalVolume(a + [s] + b, entries, sets, user, since) == TotalVolume(a + b, entries, sets, user, since)
  {
    var pairs := EntrySets(entries, sets);
    var q := WeighedIn(user, since);
    var ja, js, jb := JoinSessions(a, pairs), RowsOf(s, pairs), JoinSessions(b, pairs);
    JoinSessionsConcat(a + [s], b, pairs);
    JoinSessionsConcat(a, [s], pairs);
    JoinSessionsConcat(a, b, pairs);
    assert JoinSessions([s], pairs) == js by {
      assert [s][..0] == [];
    }
    assert Join(a + [s] + b, entries, sets) == ja + js + jb;
    assert Join(a + b, entries, sets) == ja + jb;
    forall t | t in js ensures !q(t) {
      RowsOfMembers(s, pairs, t);
    }
    WhereNone(js, q);
    WhereConcat(ja + js, jb, q);
    WhereConcat(ja, js, q);
    WhereConcat(ja, jb, q);
    assert Where(ja + js, q) == Where(ja, q);
    assert Where(ja + js + jb, q) == Where(ja + jb, q);
  }

  /** One entry of `monthlyWorkouts` and of `monthlyVolume`. */
  datatype MonthCount = MonthCount(month: int, count: nat)
  datatype MonthVolume = MonthVolume(month: int, volume: real)

  /** The group key of every row satisfying `p`. */
  function KeysOf<T>(rows: seq<T>, p: T -> bool, key: T -> int): seq<int>
  {
    if rows == [] then []
    else
      var last := rows[|rows| - 1];
      KeysOf(rows[..|rows| - 1], p, key) + (if p(last) then [key(last)] else [])
  }

  lemma {:induction false} KeysOfMembers<T>(rows: seq<T>, p: T -> bool, key: T -> int, k: int)
    ensures k in KeysOf(rows, p, key) <==> exists x | x in rows :: p(x) && key(x) == k
  {
    if rows != [] {
      var last := rows[|rows| - 1];
      assert rows == rows[..|rows| - 1] + [last];
      KeysOfMembers(rows[..|rows| - 1], p, key, k);
    }
  }

  /** The rows of one group: `p` holds and the key is `k`. */
  function InGroup<T>(p: T -> bool, key: T -> int, k: int): T -> bool
  {
    (x: T) => p(x) && key(x) == k
  }

  /** `DATE_FORMAT(date_completed, '%Y-%m')` of a completed session. */
  function CompletionMonth(monthOf: Time -> int): Session -> int
  {
    (s: Session) => if s.dateCompleted.Some? then monthOf(s.dateCompleted.value) else 0
  }

  function RowMonth(monthOf: Time -> int): SetRow -> int
  {
    (t: SetRow) => if t.session.dateCompleted.Some? then monthOf(t.session.dateCompleted.value) else 0
  }

  /** The months of `monthlyWorkouts`: `GROUP BY month ORDER BY month ASC`. */
  function WorkoutMonths(sessions: seq<Session>, user: Id, since: Time, monthOf: Time -> int): seq<int>
  {
    SortedKeys(KeysOf(sessions, InWindow(user, since), CompletionMonth(monthOf)))
  }

  /** GET /stats/progress, `monthlyWorkouts`: per month, the sessions completed in the
      window (six months before now) in that month. */
  function MonthlyWorkouts(sessions: seq<Session>, user: Id, since: Time, monthOf: Time -> int): (r: seq<MonthCount>)
    ensures forall i, j | 0 <= i < j < |r| :: r[i].month < r[j].month
    ensures forall i | 0 <= i < |r| ::
      r[i].count == |Where(sessions, InGroup(InWindow(user, since), CompletionMonth(monthOf), r[i].month))|
  {
    var ks := WorkoutMonths(sessions, user, since, monthOf);
    seq(|ks|, i requires 0 <= i < |ks| =>
      MonthCount(ks[i], |Where(sessions, InGroup(InWindow(user, since), CompletionMonth(monthOf), ks[i]))|))
  }

  /** A month is listed exactly when some session of the user completed in it within
      the window, and then with a positive count: months without a workout are left
      out, not listed as zero. */
  lemma MonthlyWorkoutsMonths(sessions: seq<Session>, user: Id, since: Time, monthOf: Time -> int, m: int)
    ensures (exists i | 0 <= i < |MonthlyWorkouts(sessions, user, since, monthOf)| ::
               MonthlyWorkouts(sessions, user, since, monthOf)[i].month == m)
        <==> exists s | s in sessions :: CompletedSince(s, user, since) && monthOf(s.dateCompleted.value) == m
    ensures forall c | c in MonthlyWorkouts(sessions, user, since, monthOf) :: c.count > 0
  {
    var p := InWindow(user, since);
    var key := CompletionMonth(monthOf);
    var ks := WorkoutMonths(sessions, user, since, monthOf);
    var r := MonthlyWorkouts(sessions, user, since, monthOf);
    KeysOfMembers(sessions, p, key, m);
    if exists i | 0 <= i < |r| :: r[i].month == m {
      var i :| 0 <= i < |r| && r[i].month == m;
      assert ks[i] in ks;
    }
    if exists s | s in sessions :: CompletedSince(s, user, since) && monthOf(s.dateCompleted.value) == m {
      assert m in ks;
      var i :| 0 <= i < |ks| && ks[i] == m;
      assert r[i].month == m;
    }
    forall c | c in r ensures c.count > 0 {
      var i :| 0 <= i < |r| && r[i] == c;
      KeysOfMembers(sessions, p, key, ks[i]);
      var s :| s in sessions && p(s) && key(s) == ks[i];
      WhereMembers(sessions, InGroup(p, key, ks[i]), s);
    }
  }

  /** The per-month volumes, one entry per month of `ks`. */
  function VolumesFor(rows: seq<SetRow>, p: SetRow -> bool, key: SetRow -> int, ks: seq<int>): (r: seq<MonthVolume>)
    ensures |r| == |ks|
    ensures forall i | 0 <= i < |r| :: r[i].month == ks[i]
    ensures forall i | 0 <= i < |r| :: r[i].volume == Total(Where(rows, InGroup(p, key, ks[i])), SetVolume)
  {
    if ks == [] then []
    else [MonthVolume(ks[0], Total(Where(rows, InGroup(p, key, ks[0])), SetVolume))] + VolumesFor(rows, p, key, ks[1..])
  }

  /** The months of `monthlyVolume`. */
  function VolumeMonths(rows: seq<SetRow>, user: Id, since: Time, monthOf: Time -> int): seq<int>
  {
    SortedKeys(KeysOf(rows, WeighedIn(user, since), RowMonth(monthOf)))
  }

  /** GET /stats/progress, `monthlyVolume`: per month, the volume of the weighted sets
      of sessions completed in the window in that month, months ascending. */
  function MonthlyVolume(sessions: seq<Session>, entries: seq<SessionExercise>, sets: seq<ExerciseSet>,
                         user: Id, since: Time, monthOf: Time -> int): (r: seq<MonthVolume>)
    ensures forall i, j | 0 <= i < j < |r| :: r[i].month < r[j].month
    ensures forall i | 0 <= i < |r| ::
      r[i].volume == Total(Where(Join(sessions, entries, sets), InGroup(WeighedIn(user, since), RowMonth(monthOf), r[i].month)), SetVolume)
  {
    var rows := Join(sessions, entries, sets);
    VolumesFor(rows, WeighedIn(user, since), RowMonth(monthOf), VolumeMonths(rows, user, since, monthOf))
  }

  /** `SUM(volume)` over the series. */
  function SeriesTotal(r: seq<MonthVolume>): real
  {
    if r == [] then 0.0 else r[0].volume + SeriesTotal(r[1..])
  }

  /** Splitting the rows by a group key and summing each group: the groups of keys
      `ks`, summed. */
  function SumGroups<T>(rows: seq<T>, p: T -> bool, key: T -> int, f: T -> real, ks: seq<int>): real
  {
    if ks == [] then 0.0 else Total(Where(rows, InGroup(p, key, ks[0])), f) + SumGroups(rows, p, key, f, ks[1..])
  }

  lemma {:induction false} SeriesIsGroups(rows: seq<SetRow>, p: SetRow -> bool, key: SetRow -> int, ks: seq<int>)
    ensures SeriesTotal(VolumesFor(rows, p, key, ks)) == SumGroups(rows, p, key, SetVolume, ks)
  {
    if ks != [] {
      SeriesIsGroups(rows, p, key, ks[1..]);
    }
  }

  lemma {:induction false} SumGroupsEmpty<T>(p: T -> bool, key: T -> int, f: T -> real, ks: seq<int>)
    ensures SumGroups([], p, key, f, ks) == 0.0
  {
    if ks != [] {
      SumGroupsEmpty(p, key, f, ks[1..]);
    }
  }

  /** One more row adds its term to exactly the group of its key, if that key is listed. */
  lemma {:induction false} SumGroupsSnoc<T>(rows: seq<T>, x: T, p: T -> bool, key: T -> int, f: T -> real, ks: seq<int>)
    requires StrictlyAscending(ks)
    ensures SumGroups(rows + [x], p, key, f, ks)
      == SumGroups(rows, p, key, f, ks) + (if p(x) && key(x) in ks then f(x) else 0.0)
  {
    if ks != [] {
      var rx := rows + [x];
      assert rx[..|rx| - 1] == rows && rx[|rx| - 1] == x;
      var g := InGroup(p, key, ks[0]);
      assert Where(rx, g) == Where(rows, g) + (if g(x) then [x] else []);
      assert Total(Where(rx, g), f) == Total(Where(rows, g), f) + (if g(x) then f(x) else 0.0) by {
        if g(x) {
          var w := Where(rows, g) + [x];
          assert w[..|w| - 1] == Where(rows, g) && w[|w| - 1] == x;
        } else {
          assert Where(rx, g) == Where(rows, g);
        }
      }
      assert StrictlyAscending(ks[1..]);
      SumGroupsSnoc(rows, x, p, key, f, ks[1..]);
      assert key(x) in ks <==> key(x) == ks[0] || key(x) in ks[1..];
      if key(x) == ks[0] {
        assert key(x) !in ks[1..];
      }
    }
  }

  /** Summing each group of the rows satisfying `p` gives the sum over all of them,
      when every such row's key is listed once. */
  lemma {:induction false} PartitionSum<T>(rows: seq<T>, p: T -> bool, key: T -> int, f: T -> real, ks: seq<int>)
    requires StrictlyAscending(ks)
    requires forall x | x in rows && p(x) :: key(x) in ks
    ensures SumGroups(rows, p, key, f, ks) == Total(Where(rows, p), f)
  {
    if rows == [] {
      SumGroupsEmpty(p, key, f, ks);
    } else {
      var rest, x := rows[..|rows| - 1], rows[|rows| - 1];
      assert rows == rest + [x];
      PartitionSum(rest, p, key, f, ks);
      SumGroupsSnoc(rest, x, p, key, f, ks);
      if p(x) {
        var w := Where(rest, p) + [x];
        assert Where(rows, p) == w;
        assert w[..|w| - 1] == Where(rest, p) && w[|w| - 1] == x;
      } else {
        assert Where(rows, p) == Where(rest, p);
      }
    }
  }

  /** The monthly volumes add up to the volume of the whole window. */
  lemma MonthlyVolumeTotal(sessions: seq<Session>, entries: seq<SessionExercise>, sets: seq<ExerciseSet>,
                           user: Id, since: Time, monthOf: Time -> int)
    ensures SeriesTotal(MonthlyVolume(sessions, entries, sets, user, since, monthOf))
      == TotalVolume(sessions, entries, sets, user, since)
  {
    var rows := Join(sessions, entries, sets);
    var p, key := WeighedIn(user, since), RowMonth(monthOf);
    var ks := VolumeMonths(rows, user, since, monthOf);
    SeriesIsGroups(rows, p, key, ks);
    forall x | x in rows && p(x) ensures key(x) in ks {
      KeysOfMembers(rows, p, key, key(x));
    }
    PartitionSum(rows, p, key, SetVolume, ks);
  }

  /** A month is listed in `monthlyVolume` exactly when the user has a weighted set in
      a session completed in that month within the window. */
  lemma MonthlyVolumeMonths(sessions: seq<Session>, entries: seq<SessionExercise>, sets: seq<ExerciseSet>,
                            user: Id, since: Time, monthOf: Time -> int, m: int)
    ensures (exists i | 0 <= i < |MonthlyVolume(sessions, entries, sets, user, since, monthOf)| ::
               MonthlyVolume(sessions, entries, sets, user, since, monthOf)[i].month == m)
        <==> exists t | t in Join(sessions, entries, sets) :: Weighed(t, user, since) && monthOf(t.session.dateCompleted.value) == m
  {
    var rows := Join(sessions, entries, sets);
    var ks := VolumeMonths(rows, user, since, monthOf);
    var r := MonthlyVolume(sessions, entries, sets, user, since, monthOf);
    KeysOfMembers(rows, WeighedIn(user, since), RowMonth(monthOf), m);
    if exists i | 0 <= i < |r| :: r[i].month == m {
      var i :| 0 <= i < |r| && r[i].month == m;
      assert ks[i] in ks;
    }
    if t :| t in rows && Weighed(t, user, since) && monthOf(t.session.dateCompleted.value) == m {
      assert WeighedIn(user, since)(t) && RowMonth(monthOf)(t) == m;
      assert m in ks;
      var i :| 0 <= i < |ks| && ks[i] == m;
      assert r[i].month == m;
    }
  }
}
