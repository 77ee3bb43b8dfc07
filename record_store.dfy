/** The in-memory record store of `lib/db.js`: three tables (training days,
    the workouts planned on each day, and the logged sets of each workout),
    each numbered by its own counter. Ids arrive already converted with
    `Number(...)`, and dates are millisecond timestamps. */
module RecordStore {
  import opened Wrappers
  import opened Seqs
  import opened Sorting

  datatype Day = Day(id: int, name: string)

  datatype Workout = Workout(
    id: int,
    dayId: int,
    name: string,
    plannedSets: int,
    plannedReps: int,
    youtube: Option<string>,
    currentWeight: Option<real>)

  /** `series`, `reps` and `weight` are `Number(...)` of what the client
      sent; `None` is the `NaN` that a missing field turns into. */
  datatype Log = Log(
    id: int,
    workoutId: int,
    series: Option<int>,
    reps: Option<int>,
    weight: Option<real>,
    date: int)

  function DayId(d: Day): int { d.id }
  function WorkoutId(w: Workout): int { w.id }
  function LogId(l: Log): int { l.id }
  function LogDate(l: Log): int { l.date }

  function OnDay(dayId: int): Workout -> bool { (w: Workout) => w.dayId == dayId }
  function HasId(id: int): Workout -> bool { (w: Workout) => w.id == id }
  function ForWorkout(workoutId: int): Log -> bool { (l: Log) => l.workoutId == workoutId }
  function NotForWorkout(workoutId: int): Log -> bool { (l: Log) => l.workoutId != workoutId }

  /** The ids of a table increase in storage order and lie in `1..counter`. */
  predicate IdsWithin<T>(s: seq<T>, id: T -> int, counter: nat)
  {
    StrictlyIncreasing(s, id) && forall i :: 0 <= i < |s| ==> 1 <= id(s[i]) <= counter
  }

  /** `youtube || null`: the empty link is stored as no link. */
  function LinkOrNone(youtube: Option<string>): (r: Option<string>)
    ensures r.Some? <==> youtube.Some? && youtube.value != ""
    ensures r.Some? ==> r == youtube
  {
    if youtube == Some("") then None else youtube
  }

  lemma AppendFresh<T>(s: seq<T>, x: T, id: T -> int, counter: nat)
    requires IdsWithin(s, id, counter)
    requires id(x) == counter + 1
    ensures IdsWithin(s + [x], id, counter + 1)
    ensures forall y :: y in s ==> id(y) != id(x)
  {
    var r := s + [x];
    forall i, j | 0 <= i < j < |r| ensures id(r[i]) < id(r[j]) {
      if j < |s| {
        assert r[i] == s[i] && r[j] == s[j];
      } else {
        assert r[i] == s[i];
      }
    }
  }

  lemma RemoveKeepsIds<T>(s: seq<T>, k: nat, id: T -> int, counter: nat)
    requires k < |s| && IdsWithin(s, id, counter)
    ensures IdsWithin(s[..k] + s[k + 1..], id, counter)
  {
    var r := s[..k] + s[k + 1..];
    forall i | 0 <= i < |r| ensures r[i] == s[if i < k then i else i + 1] { }
  }

  lemma FilterKeepsIds<T(!new)>(s: seq<T>, p: T -> bool, id: T -> int, counter: nat)
    requires IdsWithin(s, id, counter)
    ensures IdsWithin(Filter(s, p), id, counter)
  {
    FilterKeepsIncreasing(s, p, id);
    var r := Filter(s, p);
    forall i | 0 <= i < |r| ensures 1 <= id(r[i]) <= counter {
      assert r[i] in s;
    }
  }

  /** Increasing ids are distinct, so the first element with an id is the only one. */
  lemma IdsUnique<T>(s: seq<T>, id: T -> int, counter: nat, k: nat)
    requires IdsWithin(s, id, counter) && k < |s|
    ensures forall j :: 0 <= j < |s| && j != k ==> id(s[j]) != id(s[k])
  {
  }

  class Db {
    var days: seq<Day>
    var workouts: seq<Workout>
    var logs: seq<Log>
    /** `_ids.days`, `_ids.workouts`, `_ids.logs`: the last id handed out. */
    var dayIds: nat
    var workoutIds: nat
    var logIds: nat

    ghost predicate Valid()
      reads this
    {
      IdsWithin(days, DayId, dayIds)
      && IdsWithin(workouts, WorkoutId, workoutIds)
      && IdsWithin(logs, LogId, logIds)
    }

    /** The store `load` creates when there is no data file: empty tables and
        counters at 0. */
    constructor ()
      ensures Valid()
      ensures days == [] && workouts == [] && logs == []
      ensures dayIds == 0 && workoutIds == 0 && logIds == 0
    {
      days, workouts, logs := [], [], [];
      dayIds, workoutIds, logIds := 0, 0, 0;
    }

    /** `getDays`: a copy of the days in stored order. */
    function GetDays(): (r: seq<Day>)
      reads this
      ensures |r| == |days| && forall i :: 0 <= i < |r| ==> r[i] == days[i]
    {
      days
    }

    method AddDay(name: string) returns (d: Day)
      requires Valid()
      modifies this
      ensures Valid()
      ensures dayIds == old(dayIds) + 1
      ensures d == Day(dayIds, name)
      ensures days == old(days) + [d]
      ensures forall e :: e in old(days) ==> e.id != d.id
      ensures workouts == old(workouts) && logs == old(logs)
      ensures workoutIds == old(workoutIds) && logIds == old(logIds)
    {
      dayIds := dayIds + 1;
      d := Day(dayIds, name);
      AppendFresh(days, d, DayId, dayIds - 1);
      days := days + [d];
    }

    /** `getWorkoutsByDay`: exactly the workouts of that day, in stored order. */
    function GetWorkoutsByDay(dayId: int): (r: seq<Workout>)
      reads this
      ensures forall w :: w in r <==> w in workouts && w.dayId == dayId
      ensures IsSubsequence(r, workouts)
    {
      FilterIsSubsequence(workouts, OnDay(dayId));
      Filter(workouts, OnDay(dayId))
    }

    /** `addWorkout`: `plannedSets || 0` and `plannedReps || 0` turn a missing
        count into 0, an empty link becomes no link, and no weight is set yet. */
    method AddWorkout(dayId: int, name: string, plannedSets: Option<int>, plannedReps: Option<int>,
                      youtube: Option<string>) returns (w: Workout)
      requires Valid()
      modifies this
      ensures Valid()
      ensures workoutIds == old(workoutIds) + 1
      ensures w.id == workoutIds && w.dayId == dayId && w.name == name
      ensures w.plannedSets == plannedSets.GetOr(0) && w.plannedReps == plannedReps.GetOr(0)
      ensures w.youtube == LinkOrNone(youtube) && w.currentWeight == None
      ensures workouts == old(workouts) + [w]
      ensures forall v :: v in old(workouts) ==> v.id != w.id
      ensures days == old(days) && logs == old(logs)
      ensures dayIds == old(dayIds) && logIds == old(logIds)
    {
      workoutIds := workoutIds + 1;
      w := Workout(workoutIds, dayId, name, plannedSets.GetOr(0), plannedReps.GetOr(0),
                   LinkOrNone(youtube), None);
      AppendFresh(workouts, w, WorkoutId, workoutIds - 1);
      workouts := workouts + [w];
    }

    /** `setCurrentWeight`: `None` for an unknown workout, with nothing changed;
        otherwise only that workout's `currentWeight` changes. */
    method SetCurrentWeight(workoutId: int, weight: Option<real>) returns (r: Option<Workout>)
      requires Valid()
      modifies this
      ensures Valid()
      ensures IndexWhere(old(workouts), HasId(workoutId)).None? ==> r == None && workouts == old(workouts)
      ensures IndexWhere(old(workouts), HasId(workoutId)).Some? ==>
        var k := IndexWhere(old(workouts), HasId(workoutId)).value;
        workouts == old(workouts)[k := old(workouts)[k].(currentWeight := weight)]
        && r == Some(workouts[k])
      ensures r.Some? ==> r.value.id == workoutId && r.value.currentWeight == weight
      ensures days == old(days) && logs == old(logs)
      ensures dayIds == old(dayIds) && workoutIds == old(workoutIds) && logIds == old(logIds)
    {
      var found := IndexWhere(workouts, HasId(workoutId));
      match found {
        case None =>
          r := None;
        case Some(k) =>
          var w := workouts[k].(currentWeight := weight);
          workouts := workouts[k := w];
          r := Some(w);
      }
    }

    /** `addLog`: the date given, or `now` (the clock reading) when none was. */
    method AddLog(workoutId: int, series: Option<int>, reps: Option<int>, weight: Option<real>,
                  date: Option<int>, now: int) returns (l: Log)
      requires Valid()
      modifies this
      ensures Valid()
      ensures logIds == old(logIds) + 1
      ensures l == Log(logIds, workoutId, series, reps, weight, date.GetOr(now))
      ensures date.None? ==> l.date == now
      ensures logs == old(logs) + [l]
      ensures forall m :: m in old(logs) ==> m.id != l.id
      ensures days == old(days) && workouts == old(workouts)
      ensures dayIds == old(dayIds) && workoutIds == old(workoutIds)
    {
      logIds := logIds + 1;
      l := Log(logIds, workoutId, series, reps, weight, date.GetOr(now));
      AppendFresh(logs, l, LogId, logIds - 1);
      logs := logs + [l];
    }

    /** `getLogsByWorkout`: the logs of one workout, latest first; logs with
        the same date keep their stored order. */
    function GetLogsByWorkout(workoutId: int): (r: seq<Log>)
      reads this
      ensures forall l :: l in r <==> l in logs && l.workoutId == workoutId
      ensures multiset(r) == multiset(Filter(logs, ForWorkout(workoutId)))
      ensures SortedDesc(r, LogDate)
      ensures forall t :: Filter(r, KeyIs(LogDate, t)) == Filter(Filter(logs, ForWorkout(workoutId)), KeyIs(LogDate, t))
    {
      var mine := Filter(logs, ForWorkout(workoutId));
      var r := SortDesc(mine, LogDate);
      assert forall l :: l in r <==> l in mine by {
        forall l ensures l in r <==> l in mine {
          assert l in r <==> multiset(r)[l] > 0;
          assert l in mine <==> multiset(mine)[l] > 0;
        }
      }
      assert forall t :: Filter(r, KeyIs(LogDate, t)) == Filter(mine, KeyIs(LogDate, t)) by {
        forall t ensures Filter(r, KeyIs(LogDate, t)) == Filter(mine, KeyIs(LogDate, t)) {
          SortStable(mine, LogDate, t);
        }
      }
      r
    }

    /** `getWorkout`: the workout with that id, or `None`. */
    function GetWorkout(id: int): (r: Option<Workout>)
      reads this
      ensures r.None? <==> forall w :: w in workouts ==> w.id != id
      ensures r.Some? ==> r.value in workouts && r.value.id == id
    {
      match IndexWhere(workouts, HasId(id))
      case None => None
      case Some(k) => Some(workouts[k])
    }

    /** `deleteWorkout`: `false` and no change for an unknown workout;
        otherwise that one workout and every log of it are removed, and the
        other workouts and logs stay, in order. */
    method DeleteWorkout(workoutId: int) returns (ok: bool)
      requires Valid()
      modifies this
      ensures Valid()
      ensures ok <==> exists w :: w in old(workouts) && w.id == workoutId
      ensures !ok ==> workouts == old(workouts) && logs == old(logs)
      ensures ok ==>
        var k := IndexWhere(old(workouts), HasId(workoutId)).value;
        workouts == old(workouts)[..k] + old(workouts)[k + 1..]
      ensures ok ==> logs == Filter(old(logs), NotForWorkout(workoutId))
      ensures forall w :: w in workouts ==> w.id != workoutId
      ensures ok ==> forall l :: l in logs ==> l.workoutId != workoutId
      ensures days == old(days)
      ensures dayIds == old(dayIds) && workoutIds == old(workoutIds) && logIds == old(logIds)
    {
      var found := IndexWhere(workouts, HasId(workoutId));
      match found {
        case None =>
          ok := false;
        case Some(k) =>
          IdsUnique(workouts, WorkoutId, workoutIds, k);
          RemoveKeepsIds(workouts, k, WorkoutId, workoutIds);
          FilterKeepsIds(logs, NotForWorkout(workoutId), LogId, logIds);
          ghost var before := workouts;
          workouts := workouts[..k] + workouts[k + 1..];
          assert forall w :: w in workouts ==> w.id != workoutId by {
            forall w | w in workouts ensures w.id != workoutId {
              var i :| 0 <= i < |workouts| && workouts[i] == w;
              assert w == before[if i < k then i else i + 1];
            }
          }
          logs := Filter(logs, NotForWorkout(workoutId));
          ok := true;
      }
    }
  }
}
