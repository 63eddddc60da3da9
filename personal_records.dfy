/** Personal-record derivation, run when a session is completed: the heaviest
    weight per exercise in the session (a `GROUP BY`), then, per exercise, an
    insert when the user has no record yet or an update when the new weight is
    strictly heavier. */
module PersonalRecords {
  import opened Schema
  import opened Ordering
  import opened Joins

  /** One row of the `GROUP BY se.exercise_id` query: an exercise and its heaviest weight. */
  datatype Candidate = Candidate(exerciseId: Id, maxWeight: real)

  /** The weighted sets of session `sid` as (exercise, weight) pairs:
      `WHERE se.session_id = ? AND es.weight_kg IS NOT NULL`. */
  function Weights(pairs: seq<EntrySet>, sid: Id): seq<Candidate>
  {
    if pairs == [] then []
    else
      var p := pairs[|pairs| - 1];
      Weights(pairs[..|pairs| - 1], sid)
        + (if p.entry.sessionId == sid && p.exerciseSet.weightKg.Some?
           then [Candidate(p.entry.exerciseId, p.exerciseSet.weightKg.value)] else [])
  }

  /** A weight is listed exactly when a weighted set of the session carries it. */
  lemma {:induction false} WeightsMembers(pairs: seq<EntrySet>, sid: Id, c: Candidate)
    ensures c in Weights(pairs, sid) <==> exists p | p in pairs ::
      p.entry.sessionId == sid && p.entry.exerciseId == c.exerciseId && p.exerciseSet.weightKg == Some(c.maxWeight)
  {
    if pairs != [] {
      var p := pairs[|pairs| - 1];
      assert pairs == pairs[..|pairs| - 1] + [p];
      WeightsMembers(pairs[..|pairs| - 1], sid, c);
    }
  }

  /** `g` is the heaviest of the weights of its exercise in `ws`. */
  ghost predicate HeaviestOf(ws: seq<Candidate>, g: Candidate)
  {
    g in ws && forall w | w in ws && w.exerciseId == g.exerciseId :: w.maxWeight <= g.maxWeight
  }

  /** `MAX(es.weight_kg)` over the weights of exercise `e`; `None` for an empty group. */
  function MaxWeightFor(ws: seq<Candidate>, e: Id): (r: Option<real>)
    ensures r.None? <==> forall w | w in ws :: w.exerciseId != e
    ensures r.Some? ==> HeaviestOf(ws, Candidate(e, r.value))
  {
    if ws == [] then None
    else
      var w := ws[|ws| - 1];
      assert ws == ws[..|ws| - 1] + [w];
      var m := MaxWeightFor(ws[..|ws| - 1], e);
      if w.exerciseId != e then m
      else if m.None? || m.value < w.maxWeight then Some(w.maxWeight)
      else m
  }

  /** The exercise of every weight, in order. */
  function ExerciseIds(ws: seq<Candidate>): seq<Id>
  {
    seq(|ws|, i requires 0 <= i < |ws| => ws[i].exerciseId)
  }

  lemma ExerciseIdsMembers(ws: seq<Candidate>, e: Id)
    ensures e in ExerciseIds(ws) <==> exists w | w in ws :: w.exerciseId == e
  {
    var r := ExerciseIds(ws);
    if e in r {
      var i :| 0 <= i < |r| && r[i] == e;
      assert ws[i] in ws;
    }
    if w :| w in ws && w.exerciseId == e {
      var i :| 0 <= i < |ws| && ws[i] == w;
      assert r[i] == e;
    }
  }

  /** `GROUP BY exercise_id` with `MAX(weight_kg)`: one candidate per exercise. */
  function GroupMax(ws: seq<Candidate>): seq<Candidate>
  {
    var keys := SortedKeys(ExerciseIds(ws));
    seq(|keys|, i requires 0 <= i < |keys| =>
      var m := MaxWeightFor(ws, keys[i]);
      Candidate(keys[i], if m.Some? then m.value else 0.0))
  }

  /** The groups come in ascending exercise order, each holds the heaviest weight of
      its exercise, and every exercise with a weight has a group. */
  lemma GroupMaxSpec(ws: seq<Candidate>)
    ensures var r := GroupMax(ws);
      && (forall i, j | 0 <= i < j < |r| :: r[i].exerciseId < r[j].exerciseId)
      && (forall g | g in r :: HeaviestOf(ws, g))
      && (forall w | w in ws :: exists g | g in r :: g.exerciseId == w.exerciseId)
  {
    var keys := SortedKeys(ExerciseIds(ws));
    var r := GroupMax(ws);
    forall g | g in r ensures HeaviestOf(ws, g) {
      var i :| 0 <= i < |r| && r[i] == g;
      assert keys[i] in ExerciseIds(ws);
      ExerciseIdsMembers(ws, keys[i]);
    }
    forall w | w in ws ensures exists g | g in r :: g.exerciseId == w.exerciseId {
      ExerciseIdsMembers(ws, w.exerciseId);
      assert w.exerciseId in keys;
      var i :| 0 <= i < |keys| && keys[i] == w.exerciseId;
      assert r[i] in r;
    }
  }

  /** The candidates of completing session `sid` (sessions.js, the query before the loop). */
  function SessionMaxima(entries: seq<SessionExercise>, sets: seq<ExerciseSet>, sid: Id): seq<Candidate>
  {
    GroupMax(Weights(EntrySets(entries, sets), sid))
  }

  /** `personal_records` with its auto-increment counter. */
  datatype PrTable = PrTable(rows: seq<PersonalRecord>, nextId: Id)

  predicate SamePair(p: PersonalRecord, q: PersonalRecord)
  {
    p.userId == q.userId && p.exerciseId == q.exerciseId
  }

  /** Ids are unique and below the counter, and there is at most one row per
      (user, exercise). */
  ghost predicate PrValid(t: PrTable)
  {
    && t.nextId > 0
    && (forall i | 0 <= i < |t.rows| :: 0 < t.rows[i].id < t.nextId)
    && (forall i, j | 0 <= i < j < |t.rows| :: t.rows[i].id != t.rows[j].id)
    && (forall i, j | 0 <= i < j < |t.rows| :: !SamePair(t.rows[i], t.rows[j]))
  }

  /** `SELECT id, max_weight FROM personal_records WHERE user_id = ? AND exercise_id = ?`,
      first row. */
  function PrFor(rows: seq<PersonalRecord>, user: Id, e: Id): (r: Option<PersonalRecord>)
    ensures r.Some? ==> r.value in rows && r.value.userId == user && r.value.exerciseId == e
    ensures r.None? ==> forall p | p in rows :: !(p.userId == user && p.exerciseId == e)
  {
    if rows == [] then None
    else if rows[0].userId == user && rows[0].exerciseId == e then Some(rows[0])
    else
      assert rows == [rows[0]] + rows[1..];
      PrFor(rows[1..], user, e)
  }

  /** `UPDATE personal_records SET max_weight = ?, achieved_at = NOW(), session_id = ? WHERE id = ?` */
  function Raise(rows: seq<PersonalRecord>, rid: Id, m: real, now: Time, sid: Id): (r: seq<PersonalRecord>)
    ensures |r| == |rows|
    ensures forall i | 0 <= i < |rows| :: r[i] == if rows[i].id == rid then rows[i].(maxWeight := m, achievedAt := now, sessionId := sid) else rows[i]
  {
    seq(|rows|, i requires 0 <= i < |rows| =>
      if rows[i].id == rid then rows[i].(maxWeight := m, achievedAt := now, sessionId := sid) else rows[i])
  }

  /** One pass of the loop in sessions.js for candidate `c` of `user`'s session `sid`. */
  function Upsert(t: PrTable, user: Id, c: Candidate, now: Time, sid: Id): PrTable
  {
    if c.maxWeight == 0.0 then t
    else
      match PrFor(t.rows, user, c.exerciseId)
      case None =>
        PrTable(t.rows + [PersonalRecord(t.nextId, user, c.exerciseId, c.maxWeight, now, sid)], t.nextId + 1)
      case Some(p) =>
        if c.maxWeight > p.maxWeight then PrTable(Raise(t.rows, p.id, c.maxWeight, now, sid), t.nextId)
        else t
  }

  /** The whole loop: the candidates in order. */
  function UpsertAll(t: PrTable, user: Id, cs: seq<Candidate>, now: Time, sid: Id): PrTable
  {
    if cs == [] then t
    else Upsert(UpsertAll(t, user, cs[..|cs| - 1], now, sid), user, cs[|cs| - 1], now, sid)
  }

  /** No row is removed or reordered, and no row's maximum decreases. */
  ghost predicate Grows(old_: PrTable, new_: PrTable)
  {
    && |old_.rows| <= |new_.rows|
    && forall i | 0 <= i < |old_.rows| ::
         && SamePair(new_.rows[i], old_.rows[i])
         && new_.rows[i].id == old_.rows[i].id
         && new_.rows[i].maxWeight >= old_.rows[i].maxWeight
  }

  lemma GrowsTrans(a: PrTable, b: PrTable, c: PrTable)
    requires Grows(a, b) && Grows(b, c)
    ensures Grows(a, c)
  {
  }

  /** Some row of `rows` is the user's record for exercise `e` and holds at least `w`. */
  ghost predicate Holds(rows: seq<PersonalRecord>, user: Id, e: Id, w: real)
  {
    exists i | 0 <= i < |rows| :: rows[i].userId == user && rows[i].exerciseId == e && rows[i].maxWeight >= w
  }

  /** What one upsert may change: a row changes only when it is the user's record for
      the candidate's exercise and the (nonzero) candidate is strictly heavier, and it
      then takes the candidate's weight, `now` and the session; a row is added only
      when the user has no record for the exercise, and it is that record. */
  ghost predicate StepFrame(t: PrTable, u: PrTable, user: Id, c: Candidate, now: Time, sid: Id)
  {
    && |t.rows| <= |u.rows|
    && (forall i | 0 <= i < |t.rows| && u.rows[i] != t.rows[i] ::
          && c.maxWeight != 0.0 && t.rows[i].userId == user && t.rows[i].exerciseId == c.exerciseId
          && c.maxWeight > t.rows[i].maxWeight
          && u.rows[i] == t.rows[i].(maxWeight := c.maxWeight, achievedAt := now, sessionId := sid))
    && (forall i | |t.rows| <= i < |u.rows| ::
          && c.maxWeight != 0.0 && PrFor(t.rows, user, c.exerciseId).None?
          && u.rows[i] == PersonalRecord(t.nextId, user, c.exerciseId, c.maxWeight, now, sid))
  }

  /** What one upsert does: the table stays valid and only grows, changes no more
      than `StepFrame` allows, ignores a zero candidate, and afterwards the user's
      record for the exercise holds at least a nonzero candidate. */
  ghost predicate StepSpec(t: PrTable, u: PrTable, user: Id, c: Candidate, now: Time, sid: Id)
  {
    && PrValid(u)
    && Grows(t, u)
    && StepFrame(t, u, user, c, now, sid)
    && (c.maxWeight == 0.0 ==> u == t)
    && (c.maxWeight != 0.0 ==> Holds(u.rows, user, c.exerciseId, c.maxWeight))
  }

  lemma InsertCase(t: PrTable, user: Id, c: Candidate, now: Time, sid: Id)
    requires PrValid(t) && c.maxWeight != 0.0 && PrFor(t.rows, user, c.exerciseId).None?
    ensures StepSpec(t, Upsert(t, user, c, now, sid), user, c, now, sid)
  {
    var u := Upsert(t, user, c, now, sid);
    var n := |t.rows|;
    assert u.rows == t.rows + [PersonalRecord(t.nextId, user, c.exerciseId, c.maxWeight, now, sid)];
    assert u.rows[n].userId == user && u.rows[n].exerciseId == c.exerciseId;
    forall i, j | 0 <= i < j < |u.rows| ensures !SamePair(u.rows[i], u.rows[j]) {
      if j == n {
        assert t.rows[i] in t.rows;
      }
    }
  }

  lemma RaiseCase(t: PrTable, user: Id, c: Candidate, p: PersonalRecord, now: Time, sid: Id)
    requires PrValid(t) && c.maxWeight != 0.0 && PrFor(t.rows, user, c.exerciseId) == Some(p)
    requires c.maxWeight > p.maxWeight
    ensures StepSpec(t, Upsert(t, user, c, now, sid), user, c, now, sid)
  {
    var u := Upsert(t, user, c, now, sid);
    var rs := Raise(t.rows, p.id, c.maxWeight, now, sid);
    assert u == PrTable(rs, t.nextId);
    var k :| 0 <= k < |t.rows| && t.rows[k] == p;
    assert forall i | 0 <= i < |t.rows| && t.rows[i].id == p.id :: i == k;
    RaisedValid(t, rs, p, k, c.maxWeight, now, sid);
    assert rs[k].maxWeight >= c.maxWeight;
  }

  /** Raising the record at index `k` keeps ids and pairs, so the table stays valid
      and only grows. */
  lemma RaisedValid(t: PrTable, rs: seq<PersonalRecord>, p: PersonalRecord, k: int, m: real, now: Time, sid: Id)
    requires PrValid(t) && 0 <= k < |t.rows| && t.rows[k] == p && m > p.maxWeight
    requires rs == Raise(t.rows, p.id, m, now, sid)
    ensures PrValid(PrTable(rs, t.nextId)) && Grows(t, PrTable(rs, t.nextId))
  {
    forall i | 0 <= i < |t.rows| ensures rs[i].id == t.rows[i].id && SamePair(rs[i], t.rows[i]) {
    }
    forall i, j | 0 <= i < j < |rs| ensures rs[i].id != rs[j].id && !SamePair(rs[i], rs[j]) {
      assert t.rows[i].id != t.rows[j].id && !SamePair(t.rows[i], t.rows[j]);
    }
    forall i | 0 <= i < |t.rows| ensures rs[i].maxWeight >= t.rows[i].maxWeight {
      if t.rows[i].id == p.id {
        assert i == k;
      }
    }
  }

  lemma {:induction false} UpsertStep(t: PrTable, user: Id, c: Candidate, now: Time, sid: Id)
    requires PrValid(t)
    ensures StepSpec(t, Upsert(t, user, c, now, sid), user, c, now, sid)
  {
    if c.maxWeight != 0.0 {
      match PrFor(t.rows, user, c.exerciseId)
      case None =>
        InsertCase(t, user, c, now, sid);
      case Some(p) =>
        if c.maxWeight > p.maxWeight {
          RaiseCase(t, user, c, p, now, sid);
        } else {
          var k :| 0 <= k < |t.rows| && t.rows[k] == p;
          assert t.rows[k].maxWeight >= c.maxWeight;
        }
    }
  }

  /** The exercises the loop can touch: those with a nonzero candidate. */
  ghost predicate Touched(cs: seq<Candidate>, e: Id)
  {
    exists c | c in cs :: c.maxWeight != 0.0 && c.exerciseId == e
  }

  /** Over the whole loop the table stays valid and only grows. */
  lemma {:induction false} UpsertAllValid(t: PrTable, user: Id, cs: seq<Candidate>, now: Time, sid: Id)
    requires PrValid(t)
    ensures PrValid(UpsertAll(t, user, cs, now, sid)) && Grows(t, UpsertAll(t, user, cs, now, sid))
  {
    if cs != [] {
      var v := UpsertAll(t, user, cs[..|cs| - 1], now, sid);
      UpsertAllValid(t, user, cs[..|cs| - 1], now, sid);
      UpsertStep(v, user, cs[|cs| - 1], now, sid);
      GrowsTrans(t, v, UpsertAll(t, user, cs, now, sid));
    }
  }

  /** Over the whole loop, rows of other users and of exercises without a nonzero
      candidate are untouched, and every added row is the user's, for a touched
      exercise. */
  lemma {:induction false} UpsertAllFrame(t: PrTable, user: Id, cs: seq<Candidate>, now: Time, sid: Id)
    requires PrValid(t)
    ensures var u := UpsertAll(t, user, cs, now, sid);
      && |t.rows| <= |u.rows|
      && (forall i | 0 <= i < |t.rows| && (t.rows[i].userId != user || !Touched(cs, t.rows[i].exerciseId)) ::
            u.rows[i] == t.rows[i])
      && (forall i | |t.rows| <= i < |u.rows| :: u.rows[i].userId == user && Touched(cs, u.rows[i].exerciseId))
  {
    if cs != [] {
      var cs' := cs[..|cs| - 1];
      var c := cs[|cs| - 1];
      assert cs == cs' + [c];
      UpsertAllFrame(t, user, cs', now, sid);
      UpsertAllValid(t, user, cs', now, sid);
      var v := UpsertAll(t, user, cs', now, sid);
      var u := Upsert(v, user, c, now, sid);
      UpsertStep(v, user, c, now, sid);
      forall i | 0 <= i < |t.rows| && (t.rows[i].userId != user || !Touched(cs, t.rows[i].exerciseId))
        ensures u.rows[i] == t.rows[i]
      {
        assert forall d | d in cs' :: d in cs;
        assert c in cs;
        assert v.rows[i] == t.rows[i];
      }
      forall i | |t.rows| <= i < |u.rows| ensures u.rows[i].userId == user && Touched(cs, u.rows[i].exerciseId) {
        if i < |v.rows| {
          assert Touched(cs', v.rows[i].exerciseId);
          assert SamePair(u.rows[i], v.rows[i]);
          var c' :| c' in cs' && c'.maxWeight != 0.0 && c'.exerciseId == v.rows[i].exerciseId;
          assert c' in cs;
        } else {
          assert c in cs;
        }
      }
    }
  }

  /** A record that holds at least `w` still does after the table grows. */
  lemma HoldsGrows(t: PrTable, u: PrTable, user: Id, e: Id, w: real)
    requires Holds(t.rows, user, e, w) && Grows(t, u)
    ensures Holds(u.rows, user, e, w)
  {
    var i :| 0 <= i < |t.rows| && t.rows[i].userId == user && t.rows[i].exerciseId == e && t.rows[i].maxWeight >= w;
    assert SamePair(u.rows[i], t.rows[i]);
  }

  /** After the whole loop, for every nonzero candidate, the user's record for its
      exercise holds at least the candidate's weight. */
  lemma {:induction false} UpsertAllCovers(t: PrTable, user: Id, cs: seq<Candidate>, now: Time, sid: Id)
    requires PrValid(t)
    ensures forall c | c in cs && c.maxWeight != 0.0 ::
      Holds(UpsertAll(t, user, cs, now, sid).rows, user, c.exerciseId, c.maxWeight)
  {
    if cs != [] {
      var cs' := cs[..|cs| - 1];
      var c := cs[|cs| - 1];
      assert cs == cs' + [c];
      UpsertAllCovers(t, user, cs', now, sid);
      UpsertAllValid(t, user, cs', now, sid);
      var v := UpsertAll(t, user, cs', now, sid);
      var u := Upsert(v, user, c, now, sid);
      UpsertStep(v, user, c, now, sid);
      forall d | d in cs && d.maxWeight != 0.0 ensures Holds(u.rows, user, d.exerciseId, d.maxWeight) {
        if d != c {
          assert d in cs';
          HoldsGrows(v, u, user, d.exerciseId, d.maxWeight);
        }
      }
    }
  }

  /** Session `sid` has a set of exercise `e` with a weight. */
  ghost predicate HasWeightedSet(entries: seq<SessionExercise>, sets: seq<ExerciseSet>, sid: Id, e: Id)
  {
    exists se, es | se in entries && es in sets ::
      se.sessionId == sid && se.exerciseId == e && es.sessionExerciseId == se.id && es.weightKg.Some?
  }

  /** Only exercises with a weighted set in the session get a candidate. */
  lemma TouchedHasWeightedSet(entries: seq<SessionExercise>, sets: seq<ExerciseSet>, sid: Id, e: Id)
    requires Touched(SessionMaxima(entries, sets, sid), e)
    ensures HasWeightedSet(entries, sets, sid, e)
  {
    var pairs := EntrySets(entries, sets);
    var ws := Weights(pairs, sid);
    GroupMaxSpec(ws);
    var c :| c in GroupMax(ws) && c.maxWeight != 0.0 && c.exerciseId == e;
    assert HeaviestOf(ws, c);
    WeightsMembers(pairs, sid, c);
    var p :| p in pairs && p.entry.sessionId == sid && p.entry.exerciseId == e && p.exerciseSet.weightKg == Some(c.maxWeight);
    EntrySetsMembers(entries, sets, p);
  }

  /** Completing session `sid` changes no record of another user, nor one of an
      exercise without a weighted set in the session; the records it adds are the
      user's, for exercises with such a set. */
  lemma CompletionFrame(t: PrTable, user: Id, entries: seq<SessionExercise>, sets: seq<ExerciseSet>, sid: Id, now: Time)
    requires PrValid(t)
    ensures var u := UpsertAll(t, user, SessionMaxima(entries, sets, sid), now, sid);
      && |t.rows| <= |u.rows|
      && (forall i | 0 <= i < |t.rows| && (t.rows[i].userId != user || !HasWeightedSet(entries, sets, sid, t.rows[i].exerciseId)) ::
            u.rows[i] == t.rows[i])
      && (forall i | |t.rows| <= i < |u.rows| :: u.rows[i].userId == user && HasWeightedSet(entries, sets, sid, u.rows[i].exerciseId))
  {
    var cs := SessionMaxima(entries, sets, sid);
    var u := UpsertAll(t, user, cs, now, sid);
    UpsertAllFrame(t, user, cs, now, sid);
    forall i | 0 <= i < |t.rows| && t.rows[i].userId == user && !HasWeightedSet(entries, sets, sid, t.rows[i].exerciseId)
      ensures !Touched(cs, t.rows[i].exerciseId)
    {
      if Touched(cs, t.rows[i].exerciseId) {
        TouchedHasWeightedSet(entries, sets, sid, t.rows[i].exerciseId);
      }
    }
    forall i | |t.rows| <= i < |u.rows| ensures HasWeightedSet(entries, sets, sid, u.rows[i].exerciseId) {
      TouchedHasWeightedSet(entries, sets, sid, u.rows[i].exerciseId);
    }
  }
}
