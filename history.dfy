/** The exercise history projection (scripts/testHistory.mjs): the sets a user did
    of one exercise in completed sessions, newest session first, at most a clamped
    limit of them. Reading only, so every table is a parameter and nothing changes. */
module History {
  import opened Schema
  import opened Ordering
  import opened Joins

  /** `Math.max(1, Math.min(1000, Math.floor(limit)))` */
  function SafeLimit(limit: real): (r: int)
    ensures 1 <= r <= 1000
    ensures limit < 1.0 ==> r == 1
    ensures limit >= 1000.0 ==> r == 1000
    ensures 1.0 <= limit < 1000.0 ==> r as real <= limit < r as real + 1.0
  {
    var f := limit.Floor;
    if f < 1 then 1 else if f > 1000 then 1000 else f
  }

  /** A limit already in range is kept. */
  lemma SafeLimitKeeps(n: int)
    requires 1 <= n <= 1000
    ensures SafeLimit(n as real) == n
  {
  }

  /** One command-line argument after `Number(...)`. */
  datatype Arg = Missing | Num(x: real) | NotANumber

  /** `Number(a) || d`: a missing, zero or NaN argument takes the default. */
  function OrDefault(a: Arg, d: real): (r: real)
    ensures a.Num? && a.x != 0.0 ==> r == a.x
    ensures !(a.Num? && a.x != 0.0) ==> r == d
  {
    if a.Num? && a.x != 0.0 then a.x else d
  }

  function ArgAt(args: seq<Arg>, i: nat): Arg
  {
    if i < |args| then args[i] else Missing
  }

  /** The arguments `run` is called with: exercise, user and limit. */
  datatype Invocation = Invocation(exerciseId: real, userId: real, limit: real)

  /** `run(args[0] || 1, args[1] || 1, args[2] || 20)` */
  function FromCommandLine(args: seq<Arg>): (r: Invocation)
    ensures |args| == 0 ==> r == Invocation(1.0, 1.0, 20.0)
    ensures ArgAt(args, 2) == Num(0.0) ==> r.limit == 20.0
    ensures forall i | 0 <= i < |args| && i < 3 && args[i].Num? && args[i].x != 0.0 ::
      [r.exerciseId, r.userId, r.limit][i] == args[i].x
    ensures forall i | 0 <= i < 3 && !(ArgAt(args, i).Num? && ArgAt(args, i).x != 0.0) ::
      [r.exerciseId, r.userId, r.limit][i] == [1.0, 1.0, 20.0][i]
  {
    Invocation(OrDefault(ArgAt(args, 0), 1.0), OrDefault(ArgAt(args, 1), 1.0), OrDefault(ArgAt(args, 2), 20.0))
  }

  /** A limit of 0 on the command line gives 20 rows at most, not 1: the default
      replaces the zero before the clamp sees it. */
  lemma ZeroLimitMeansTwenty(args: seq<Arg>)
    requires ArgAt(args, 2) == Num(0.0)
    ensures SafeLimit(FromCommandLine(args).limit) == 20
  {
  }

  /** One output row: `es.reps, es.weight_kg, es.duration_seconds, es.set_number,
      ws.id as session_id, ws.date_completed`. */
  datatype HistoryRow = HistoryRow(reps: Option<int>, weightKg: Option<real>, durationSeconds: Option<int>,
                                   setNumber: int, sessionId: Id, dateCompleted: Time)

  /** `se.exercise_id = ? AND ws.user_id = ? AND ws.date_completed IS NOT NULL` */
  predicate Eligible(t: SetRow, exerciseId: Id, userId: Id)
  {
    t.entry.exerciseId == exerciseId && t.session.userId == userId && t.session.dateCompleted.Some?
  }

  function EligibleFor(exerciseId: Id, userId: Id): SetRow -> bool
  {
    (t: SetRow) => Eligible(t, exerciseId, userId)
  }

  /** `ORDER BY ws.date_completed DESC, ws.id DESC, es.set_number ASC` */
  function HistoryKey(t: SetRow): seq<int>
  {
    [-(if t.session.dateCompleted.Some? then t.session.dateCompleted.value else 0), -t.session.id,
     t.exerciseSet.setNumber]
  }

  function Project(t: SetRow): HistoryRow
    requires t.session.dateCompleted.Some?
  {
    HistoryRow(t.exerciseSet.reps, t.exerciseSet.weightKg, t.exerciseSet.durationSeconds,
               t.exerciseSet.setNumber, t.session.id, t.session.dateCompleted.value)
  }

  /** The query without its `LIMIT`. */
  function Ordered(sessions: seq<Session>, entries: seq<SessionExercise>, sets: seq<ExerciseSet>,
                   exerciseId: Id, userId: Id): seq<SetRow>
  {
    Select(Join(sessions, entries, sets), EligibleFor(exerciseId, userId), HistoryKey)
  }

  /** `row i comes no later than row j` in the output order. */
  predicate NoLater(a: HistoryRow, b: HistoryRow)
  {
    || a.dateCompleted > b.dateCompleted
    || (a.dateCompleted == b.dateCompleted && a.sessionId > b.sessionId)
    || (a.dateCompleted == b.dateCompleted && a.sessionId == b.sessionId && a.setNumber <= b.setNumber)
  }

  function Min(a: int, b: int): int
  {
    if a <= b then a else b
  }

  /** `run`: the first `SafeLimit(limit)` rows of the ordered query, projected. */
  function History(sessions: seq<Session>, entries: seq<SessionExercise>, sets: seq<ExerciseSet>,
                   exerciseId: Id, userId: Id, limit: real): (r: seq<HistoryRow>)
    ensures |r| == Min(SafeLimit(limit), |Where(Join(sessions, entries, sets), EligibleFor(exerciseId, userId))|)
    ensures |r| <= 1000
    ensures forall i, j | 0 <= i < j < |r| :: NoLater(r[i], r[j])
  {
    var o := Ordered(sessions, entries, sets, exerciseId, userId);
    SelectLength(Join(sessions, entries, sets), EligibleFor(exerciseId, userId), HistoryKey);
    var n := Min(SafeLimit(limit), |o|);
    forall i | 0 <= i < n ensures o[i].session.dateCompleted.Some? {
      assert o[i] in o;
    }
    var r := seq(n, i requires 0 <= i < n => Project(o[i]));
    forall i, j | 0 <= i < j < n ensures NoLater(r[i], r[j]) {
      KeyOrder(o[i], o[j]);
    }
    r
  }

  /** Comparing history keys compares completion (later first), then session (higher
      id first), then set number. */
  lemma KeyOrder(a: SetRow, b: SetRow)
    requires a.session.dateCompleted.Some? && b.session.dateCompleted.Some?
    requires LexLe(HistoryKey(a), HistoryKey(b))
    ensures NoLater(Project(a), Project(b))
  {
    var ka, kb := HistoryKey(a), HistoryKey(b);
    assert ka == [ka[0]] + ([ka[1]] + [ka[2]]) && kb == [kb[0]] + ([kb[1]] + [kb[2]]);
    LexLeCons(ka[0], [ka[1]] + [ka[2]], kb[0], [kb[1]] + [kb[2]]);
    LexLeCons(ka[1], [ka[2]], kb[1], [kb[2]]);
    LexLeSingle(ka[2], kb[2]);
  }

  /** Each output row is the projection of the row at the same place in the full
      ordered query, and that row is a set of the exercise in one of the user's
      completed sessions. */
  lemma HistoryRows(sessions: seq<Session>, entries: seq<SessionExercise>, sets: seq<ExerciseSet>,
                    exerciseId: Id, userId: Id, limit: real)
    ensures var r := History(sessions, entries, sets, exerciseId, userId, limit);
      var o := Ordered(sessions, entries, sets, exerciseId, userId);
      |r| <= |o| && forall i | 0 <= i < |r| ::
        && o[i] in Join(sessions, entries, sets) && Eligible(o[i], exerciseId, userId)
        && r[i] == Project(o[i])
  {
    var r := History(sessions, entries, sets, exerciseId, userId, limit);
    var o := Ordered(sessions, entries, sets, exerciseId, userId);
    SelectLength(Join(sessions, entries, sets), EligibleFor(exerciseId, userId), HistoryKey);
    forall i | 0 <= i < |r| ensures o[i] in Join(sessions, entries, sets) && Eligible(o[i], exerciseId, userId) {
      assert o[i] in o;
    }
  }

  /** A smaller limit returns a prefix of what a larger one returns. */
  lemma HistoryPrefix(sessions: seq<Session>, entries: seq<SessionExercise>, sets: seq<ExerciseSet>,
                      exerciseId: Id, userId: Id, small: real, large: real)
    requires SafeLimit(small) <= SafeLimit(large)
    ensures var a := History(sessions, entries, sets, exerciseId, userId, small);
      var b := History(sessions, entries, sets, exerciseId, userId, large);
      |a| <= |b| && a == b[..|a|]
  {
    HistoryRows(sessions, entries, sets, exerciseId, userId, small);
    HistoryRows(sessions, entries, sets, exerciseId, userId, large);
  }
}
