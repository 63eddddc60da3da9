/** The join that the statistics, the history script and PR derivation all run:
    `exercise_sets es JOIN session_exercises se ON es.session_exercise_id = se.id
     JOIN workout_sessions ws ON se.session_id = ws.id`.
    Rows come out grouped by session, then by session exercise; every consumer
    either sums them or sorts them, so the grouping does not show. */
module Joins {
  import opened Schema

  /** One row of `session_exercises JOIN exercise_sets`. */
  datatype EntrySet = EntrySet(entry: SessionExercise, exerciseSet: ExerciseSet)

  /** One row of the three-table join. */
  datatype SetRow = SetRow(session: Session, entry: SessionExercise, exerciseSet: ExerciseSet)

  /** The sets of one session exercise, paired with it. */
  function SetsOf(se: SessionExercise, sets: seq<ExerciseSet>): seq<EntrySet>
  {
    if sets == [] then []
    else
      var last := sets[|sets| - 1];
      SetsOf(se, sets[..|sets| - 1]) + (if last.sessionExerciseId == se.id then [EntrySet(se, last)] else [])
  }

  /** `session_exercises se JOIN exercise_sets es ON se.id = es.session_exercise_id` */
  function EntrySets(entries: seq<SessionExercise>, sets: seq<ExerciseSet>): seq<EntrySet>
  {
    if entries == [] then []
    else
      var last := entries[|entries| - 1];
      EntrySets(entries[..|entries| - 1], sets) + SetsOf(last, sets)
  }

  /** The pairs that belong to session `ws`, widened to three-table rows. */
  function RowsOf(ws: Session, pairs: seq<EntrySet>): seq<SetRow>
  {
    if pairs == [] then []
    else
      var last := pairs[|pairs| - 1];
      RowsOf(ws, pairs[..|pairs| - 1])
        + (if last.entry.sessionId == ws.id then [SetRow(ws, last.entry, last.exerciseSet)] else [])
  }

  /** The three-table join over already joined set rows. */
  function JoinSessions(sessions: seq<Session>, pairs: seq<EntrySet>): seq<SetRow>
  {
    if sessions == [] then []
    else
      var last := sessions[|sessions| - 1];
      JoinSessions(sessions[..|sessions| - 1], pairs) + RowsOf(last, pairs)
  }

  /** `exercise_sets JOIN session_exercises JOIN workout_sessions`. */
  function Join(sessions: seq<Session>, entries: seq<SessionExercise>, sets: seq<ExerciseSet>): seq<SetRow>
  {
    JoinSessions(sessions, EntrySets(entries, sets))
  }

  /** A pair is in `SetsOf(se, sets)` exactly when it pairs `se` with one of its sets. */
  lemma {:induction false} SetsOfMembers(se: SessionExercise, sets: seq<ExerciseSet>, p: EntrySet)
    ensures p in SetsOf(se, sets) <==> p.entry == se && p.exerciseSet in sets && p.exerciseSet.sessionExerciseId == se.id
  {
    if sets != [] {
      var last := sets[|sets| - 1];
      assert sets == sets[..|sets| - 1] + [last];
      SetsOfMembers(se, sets[..|sets| - 1], p);
    }
  }

  /** A pair is in the two-table join exactly when both rows exist and the key matches. */
  lemma {:induction false} EntrySetsMembers(entries: seq<SessionExercise>, sets: seq<ExerciseSet>, p: EntrySet)
    ensures p in EntrySets(entries, sets) <==>
      p.entry in entries && p.exerciseSet in sets && p.exerciseSet.sessionExerciseId == p.entry.id
  {
    if entries != [] {
      var last := entries[|entries| - 1];
      assert entries == entries[..|entries| - 1] + [last];
      EntrySetsMembers(entries[..|entries| - 1], sets, p);
      SetsOfMembers(last, sets, p);
    }
  }

  lemma {:induction false} RowsOfMembers(ws: Session, pairs: seq<EntrySet>, t: SetRow)
    ensures t in RowsOf(ws, pairs) <==>
      t.session == ws && EntrySet(t.entry, t.exerciseSet) in pairs && t.entry.sessionId == ws.id
  {
    if pairs != [] {
      var last := pairs[|pairs| - 1];
      assert pairs == pairs[..|pairs| - 1] + [last];
      RowsOfMembers(ws, pairs[..|pairs| - 1], t);
    }
  }

  lemma {:induction false} JoinSessionsMembers(sessions: seq<Session>, pairs: seq<EntrySet>, t: SetRow)
    ensures t in JoinSessions(sessions, pairs) <==> t.session in sessions && t in RowsOf(t.session, pairs)
  {
    if sessions != [] {
      var last := sessions[|sessions| - 1];
      assert sessions == sessions[..|sessions| - 1] + [last];
      JoinSessionsMembers(sessions[..|sessions| - 1], pairs, t);
      RowsOfMembers(last, pairs, t);
      RowsOfMembers(t.session, pairs, t);
    }
  }

  /** A row is in the join exactly when its three parts are rows of their tables
      and the two foreign keys match. */
  lemma JoinMembers(sessions: seq<Session>, entries: seq<SessionExercise>, sets: seq<ExerciseSet>, t: SetRow)
    ensures t in Join(sessions, entries, sets) <==>
      t.session in sessions && t.entry in entries && t.exerciseSet in sets
      && t.exerciseSet.sessionExerciseId == t.entry.id && t.entry.sessionId == t.session.id
  {
    var pairs := EntrySets(entries, sets);
    JoinSessionsMembers(sessions, pairs, t);
    RowsOfMembers(t.session, pairs, t);
    EntrySetsMembers(entries, sets, EntrySet(t.entry, t.exerciseSet));
  }

  /** Joining a concatenation of session tables joins each part. */
  lemma {:induction false} JoinSessionsConcat(a: seq<Session>, b: seq<Session>, pairs: seq<EntrySet>)
    ensures JoinSessions(a + b, pairs) == JoinSessions(a, pairs) + JoinSessions(b, pairs)
    decreases |b|
  {
    if b == [] {
      assert a + b == a;
    } else {
      var b', x := b[..|b| - 1], b[|b| - 1];
      var ab := a + b;
      assert ab[..|ab| - 1] == a + b' && ab[|ab| - 1] == x;
      assert JoinSessions(ab, pairs) == JoinSessions(a + b', pairs) + RowsOf(x, pairs);
      assert JoinSessions(b, pairs) == JoinSessions(b', pairs) + RowsOf(x, pairs);
      JoinSessionsConcat(a, b', pairs);
    }
  }

  lemma MulSucc(c: int, b: bool, m: int)
    ensures (c + (if b then 1 else 0)) * m == c * m + (if b then m else 0)
  {
  }

  /** A pair occurs in `SetsOf(se, sets)` as often as its set is stored, when it
      pairs `se` with one of its sets, and not at all otherwise. */
  lemma {:induction false} SetsOfCount(se: SessionExercise, sets: seq<ExerciseSet>, e: SessionExercise, x: ExerciseSet)
    ensures multiset(SetsOf(se, sets))[EntrySet(e, x)]
      == if e == se && x.sessionExerciseId == se.id then multiset(sets)[x] else 0
  {
    if sets != [] {
      var rest, last := sets[..|sets| - 1], sets[|sets| - 1];
      assert sets == rest + [last];
      SetsOfCount(se, rest, e, x);
    }
  }

  /** A pair occurs in the two-table join as often as its two rows are stored
      (multiplied), when the key matches, and not at all otherwise. */
  lemma {:induction false} EntrySetsCount(entries: seq<SessionExercise>, sets: seq<ExerciseSet>,
                                          e: SessionExercise, x: ExerciseSet)
    ensures multiset(EntrySets(entries, sets))[EntrySet(e, x)]
      == if x.sessionExerciseId == e.id then multiset(entries)[e] * multiset(sets)[x] else 0
  {
    if entries != [] {
      var rest, last := entries[..|entries| - 1], entries[|entries| - 1];
      assert entries == rest + [last];
      var p := EntrySet(e, x);
      assert EntrySets(entries, sets) == EntrySets(rest, sets) + SetsOf(last, sets);
      EntrySetsCount(rest, sets, e, x);
      SetsOfCount(last, sets, e, x);
      if x.sessionExerciseId == e.id {
        var c, m := multiset(rest)[e], multiset(sets)[x];
        assert multiset(entries)[e] == c + (if last == e then 1 else 0);
        assert multiset(EntrySets(entries, sets))[p] == c * m + (if last == e then m else 0);
        MulSucc(c, last == e, m);
      }
    }
  }

  lemma {:induction false} RowsOfCount(ws: Session, pairs: seq<EntrySet>, s: Session, e: SessionExercise, x: ExerciseSet)
    ensures multiset(RowsOf(ws, pairs))[SetRow(s, e, x)]
      == if s == ws && e.sessionId == ws.id then multiset(pairs)[EntrySet(e, x)] else 0
  {
    if pairs != [] {
      var rest, last := pairs[..|pairs| - 1], pairs[|pairs| - 1];
      assert pairs == rest + [last];
      RowsOfCount(ws, rest, s, e, x);
    }
  }

  lemma {:induction false} JoinSessionsCount(sessions: seq<Session>, pairs: seq<EntrySet>,
                                             s: Session, e: SessionExercise, x: ExerciseSet)
    ensures multiset(JoinSessions(sessions, pairs))[SetRow(s, e, x)]
      == if e.sessionId == s.id then multiset(sessions)[s] * multiset(pairs)[EntrySet(e, x)] else 0
  {
    if sessions != [] {
      var rest, last := sessions[..|sessions| - 1], sessions[|sessions| - 1];
      assert sessions == rest + [last];
      var t := SetRow(s, e, x);
      assert JoinSessions(sessions, pairs) == JoinSessions(rest, pairs) + RowsOf(last, pairs);
      JoinSessionsCount(rest, pairs, s, e, x);
      RowsOfCount(last, pairs, s, e, x);
      if e.sessionId == s.id {
        var c, m := multiset(rest)[s], multiset(pairs)[EntrySet(e, x)];
        assert multiset(sessions)[s] == c + (if last == s then 1 else 0);
        assert multiset(JoinSessions(sessions, pairs))[t] == c * m + (if last == s then m else 0);
        MulSucc(c, last == s, m);
      }
    }
  }

  /** A row occurs in the three-table join as often as its three parts are stored
      (multiplied), when both foreign keys match, and not at all otherwise: the join
      neither drops nor duplicates a set. */
  lemma JoinCount(sessions: seq<Session>, entries: seq<SessionExercise>, sets: seq<ExerciseSet>, t: SetRow)
    ensures multiset(Join(sessions, entries, sets))[t]
      == if t.exerciseSet.sessionExerciseId == t.entry.id && t.entry.sessionId == t.session.id
         then multiset(sessions)[t.session] * (multiset(entries)[t.entry] * multiset(sets)[t.exerciseSet])
         else 0
  {
    assert t == SetRow(t.session, t.entry, t.exerciseSet);
    JoinSessionsCount(sessions, EntrySets(entries, sets), t.session, t.entry, t.exerciseSet);
    EntrySetsCount(entries, sets, t.entry, t.exerciseSet);
  }

  /** Over tables with primary keys, every set whose two foreign keys resolve occurs
      in the join exactly once. */
  lemma JoinOnce(sessions: seq<Session>, ns: Id, entries: seq<SessionExercise>, ne: Id,
                 sets: seq<ExerciseSet>, nx: Id, t: SetRow)
    requires IdsFresh(sessions, IdOfSession, ns) && IdsFresh(entries, IdOfEntry, ne) && IdsFresh(sets, IdOfSet, nx)
    requires t.session in sessions && t.entry in entries && t.exerciseSet in sets
    requires t.exerciseSet.sessionExerciseId == t.entry.id && t.entry.sessionId == t.session.id
    ensures multiset(Join(sessions, entries, sets))[t] == 1
  {
    JoinCount(sessions, entries, sets, t);
    StoredOnce(sessions, IdOfSession, ns, t.session);
    StoredOnce(entries, IdOfEntry, ne, t.entry);
    StoredOnce(sets, IdOfSet, nx, t.exerciseSet);
  }
}
