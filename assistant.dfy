/** The workout-plan assistant (`pages/api/assistant/generate.js`): it checks
    the requested target muscle against the exercise catalogue, picks up to
    ten matching exercises, derives sets and repetitions from the body-mass
    index and the muscle, and stores the plan as a new day in the record
    store. */
module Assistant {
  import opened Wrappers
  import opened Seqs
  import opened Strings
  import opened RecordStore
  import Auth
  import AdminCatalog

  /** The most exercises a generated plan holds. */
  const MaxChosen: nat := 10

  /** The name every generated day gets. */
  const PlanName: string := "Exercicio Personalizado"

  // --------------------------------------------------------------- input

  /** `computeImc`: nothing when the weight or the height is missing or
      zero, otherwise the weight over the square of the height in metres. */
  function ComputeImc(weight: Option<real>, height: Option<real>): (r: Option<real>)
    ensures r.None? <==> weight.None? || weight.value == 0.0 || height.None? || height.value == 0.0
    ensures r.Some? ==> r.value * ((height.value / 100.0) * (height.value / 100.0)) == weight.value
  {
    if weight.None? || weight.value == 0.0 || height.None? || height.value == 0.0 then None
    else
      var m := height.value / 100.0;
      SquareNonZero(m);
      Some(weight.value / (m * m))
  }

  lemma SquareNonZero(m: real)
    requires m != 0.0
    ensures m * m > 0.0
  {
  }

  /** `(body.muscle || '').trim() || null`. */
  function MuscleOf(muscle: Option<string>): (r: Option<string>)
    ensures r.None? <==> muscle.None? || AllSpace(muscle.value)
    ensures r.Some? ==> r.value == Trim(muscle.value) && r.value != []
  {
    var t := Trim(muscle.GetOr(""));
    assert muscle.Some? ==> (t == [] <==> AllSpace(muscle.value)) by {
      if muscle.Some? {
        TrimEmptyIffBlank(muscle.value);
      }
    }
    if t == [] then None else Some(t)
  }

  // ---------------------------------------------------------- selection

  /** The lower-cased target muscle of an exercise, `''` when it has none. */
  function MuscleKey(e: AdminCatalog.Exercise): string
  {
    Lower(e.targetMuscle.GetOr(""))
  }

  /** `new Set(allExercises.map(e => (e.targetMuscle || '').toLowerCase()).filter(Boolean))`. */
  function MuscleSet(catalog: seq<AdminCatalog.Exercise>): (r: set<string>)
    ensures forall m :: m in r <==> m != [] && exists e :: e in catalog && MuscleKey(e) == m
  {
    if catalog == [] then {}
    else
      var rest := MuscleSet(catalog[1..]);
      assert forall e :: e in catalog <==> e == catalog[0] || e in catalog[1..];
      if MuscleKey(catalog[0]) != [] then {MuscleKey(catalog[0])} + rest else rest
  }

  /** The requested muscle is, ignoring case, some catalogue exercise's
      target muscle. */
  predicate KnownMuscle(catalog: seq<AdminCatalog.Exercise>, muscle: string)
  {
    Lower(muscle) in MuscleSet(catalog)
  }

  /** The filter of `matched`: a non-empty target muscle that contains the
      requested one, ignoring case. */
  function Targets(muscle: string): AdminCatalog.Exercise -> bool
  {
    (e: AdminCatalog.Exercise) => e.targetMuscle.Some? && e.targetMuscle.value != []
      && Contains(MuscleKey(e), Lower(muscle))
  }

  /** `matched`: the catalogue exercises aimed at the muscle, in catalogue order. */
  function Matched(catalog: seq<AdminCatalog.Exercise>, muscle: string): (r: seq<AdminCatalog.Exercise>)
    ensures forall e :: e in r <==> e in catalog && Targets(muscle)(e)
    ensures IsSubsequence(r, catalog)
    ensures forall e :: multiset(r)[e] == if Targets(muscle)(e) then multiset(catalog)[e] else 0
  {
    FilterIsSubsequence(catalog, Targets(muscle));
    FilterCounts(catalog, Targets(muscle));
    Filter(catalog, Targets(muscle))
  }

  /** `matched.slice(0, Math.min(10, matched.length))`: the first matches, at
      most ten. */
  function Chosen(catalog: seq<AdminCatalog.Exercise>, muscle: string): (r: seq<AdminCatalog.Exercise>)
    ensures |r| == if |Matched(catalog, muscle)| < MaxChosen then |Matched(catalog, muscle)| else MaxChosen
    ensures r == Matched(catalog, muscle)[..|r|]
  {
    var matched := Matched(catalog, muscle);
    var count := if MaxChosen < |matched| then MaxChosen else |matched|;
    matched[..count]
  }

  /** A known muscle always has at least one exercise to choose: the one
      whose target muscle it names. */
  lemma KnownMuscleHasChoice(catalog: seq<AdminCatalog.Exercise>, muscle: string)
    requires muscle != [] && KnownMuscle(catalog, muscle)
    ensures Chosen(catalog, muscle) != []
  {
    var e :| e in catalog && MuscleKey(e) == Lower(muscle);
    assert StartsWith(MuscleKey(e), Lower(muscle));
    assert e.targetMuscle.Some? && e.targetMuscle.value != [] by {
      assert MuscleKey(e) != [];
    }
    assert Targets(muscle)(e);
    assert e in Matched(catalog, muscle);
  }

  /** `imc && imc >= 30 ? 2 : 3`. */
  function SetsFor(imc: Option<real>): (r: int)
    ensures r == 2 <==> imc.Some? && imc.value >= 30.0
    ensures r == 2 || r == 3
  {
    if imc.Some? && imc.value != 0.0 && imc.value >= 30.0 then 2 else 3
  }

  /** `muscle.toLowerCase().includes('perna') ? 6 : 10`: fewer repetitions
      for legs. */
  function RepsFor(muscle: string): (r: int)
    ensures r == 6 <==> Contains(Lower(muscle), "perna")
    ensures r == 6 || r == 10
  {
    if Contains(Lower(muscle), "perna") then 6 else 10
  }

  /** The workout the loop stores for one chosen exercise. */
  function Planned(id: int, dayId: int, e: AdminCatalog.Exercise, sets: int, reps: int): Workout
  {
    Workout(id, dayId, e.name.GetOr(""), sets, reps, None, None)
  }

  /** The workouts stored for the chosen exercises, numbered on from `lastId`. */
  function PlannedAll(lastId: int, dayId: int, chosen: seq<AdminCatalog.Exercise>, sets: int, reps: int): (r: seq<Workout>)
    ensures |r| == |chosen|
    ensures forall k :: 0 <= k < |r| ==> r[k] == Planned(lastId + k + 1, dayId, chosen[k], sets, reps)
  {
    seq(|chosen|, k requires 0 <= k < |chosen| => Planned(lastId + k + 1, dayId, chosen[k], sets, reps))
  }

  // ------------------------------------------------------------ handler

  datatype Response = Error(status: nat) | Plan(day: Day, workouts: seq<Workout>)

  /** The creation loop: one `addWorkout` per chosen exercise, in order,
      each with the same sets and repetitions; `created` is what the loop
      collects. */
  method CreateWorkouts(db: Db, dayId: int, chosen: seq<AdminCatalog.Exercise>, sets: int, reps: int)
    returns (created: seq<Workout>)
    requires db.Valid()
    modifies db
    ensures db.Valid()
    ensures db.days == old(db.days) && db.logs == old(db.logs)
    ensures db.dayIds == old(db.dayIds) && db.logIds == old(db.logIds)
    ensures db.workoutIds == old(db.workoutIds) + |chosen|
    ensures db.workouts == old(db.workouts) + created
    ensures created == PlannedAll(old(db.workoutIds), dayId, chosen, sets, reps)
  {
    created := [];
    var i := 0;
    while i < |chosen|
      invariant 0 <= i <= |chosen|
      invariant db.Valid()
      invariant db.days == old(db.days) && db.logs == old(db.logs)
      invariant db.dayIds == old(db.dayIds) && db.logIds == old(db.logIds)
      invariant db.workoutIds == old(db.workoutIds) + i
      invariant db.workouts == old(db.workouts) + created
      invariant |created| == i && forall k :: 0 <= k < i ==>
        created[k] == Planned(old(db.workoutIds) + k + 1, dayId, chosen[k], sets, reps)
    {
      var w := db.AddWorkout(dayId, chosen[i].name.GetOr(""), Some(sets), Some(reps), None);
      created := created + [w];
      i := i + 1;
    }
  }

  /** The handler. `httpMethod`, the cookie and the body fields come from the
      request, `verify` stands for token verification and `catalog` for what
      the exercise catalogue holds. Every rejection happens before the store
      changes; an accepted request adds one day and one workout per chosen
      exercise, each with the same sets and repetitions. */
  method Generate(db: Db, httpMethod: string, cookie: Option<string>,
                  verify: string -> Option<Auth.Payload>,
                  weight: Option<real>, height: Option<real>, muscleField: Option<string>,
                  catalog: seq<AdminCatalog.Exercise>) returns (res: Response)
    requires db.Valid()
    modifies db
    ensures db.Valid()
    ensures res.Error? ==>
      db.days == old(db.days) && db.workouts == old(db.workouts)
      && db.dayIds == old(db.dayIds) && db.workoutIds == old(db.workoutIds)
    ensures db.logs == old(db.logs) && db.logIds == old(db.logIds)
    ensures httpMethod != "POST" ==> res == Error(405)
    ensures httpMethod == "POST" && Auth.RequireAuth<Auth.Payload>(cookie, verify, None).None? ==> res == Error(401)
    ensures httpMethod == "POST" && Auth.RequireAuth<Auth.Payload>(cookie, verify, None).Some? ==>
      (MuscleOf(muscleField).None? ==> res == Error(400))
      && (MuscleOf(muscleField).Some? && !KnownMuscle(catalog, MuscleOf(muscleField).value) ==> res == Error(400))
    ensures res.Plan? ==>
      var muscle := MuscleOf(muscleField).value;
      var chosen := Chosen(catalog, muscle);
      var sets := SetsFor(ComputeImc(weight, height));
      var reps := RepsFor(muscle);
      && httpMethod == "POST" && Auth.RequireAuth<Auth.Payload>(cookie, verify, None).Some?
      && KnownMuscle(catalog, muscle) && chosen != []
      && res.day == Day(db.dayIds, PlanName) && db.dayIds == old(db.dayIds) + 1
      && db.days == old(db.days) + [res.day]
      && db.workoutIds == old(db.workoutIds) + |chosen|
      && db.workouts == old(db.workouts) + PlannedAll(old(db.workoutIds), res.day.id, chosen, sets, reps)
      && res.workouts == db.GetWorkoutsByDay(res.day.id)
    ensures (httpMethod == "POST" && Auth.RequireAuth<Auth.Payload>(cookie, verify, None).Some?
      && MuscleOf(muscleField).Some? && KnownMuscle(catalog, MuscleOf(muscleField).value)) ==> res.Plan?
  {
    if httpMethod != "POST" {
      return Error(405);
    }
    // `lib/db.js` has no `getUserById`, so the payload itself is the user.
    var user := Auth.RequireAuth<Auth.Payload>(cookie, verify, None);
    if user.None? {
      return Error(401);
    }
    var muscleOpt := MuscleOf(muscleField);
    var imc := ComputeImc(weight, height);
    if muscleOpt.None? {
      return Error(400);
    }
    var muscle := muscleOpt.value;
    if !KnownMuscle(catalog, muscle) {
      return Error(400);
    }
    var chosen := Chosen(catalog, muscle);
    KnownMuscleHasChoice(catalog, muscle);
    var sets := SetsFor(imc);
    var reps := RepsFor(muscle);

    ghost var before := db.workouts;
    var day := db.AddDay(PlanName);
    var created := CreateWorkouts(db, day.id, chosen, sets, reps);
    res := Plan(day, db.GetWorkoutsByDay(day.id));
  }
}
