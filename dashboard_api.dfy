/** The aggregation done by the dashboard endpoint (`pages/api/dashboard.js`):
    day counts, total volume and last training date, the seven daily buckets
    of the last week, the six most recent days and the average session
    length. Timestamps are milliseconds; the local-time "start of day" is a
    parameter `sod`. */
module Dashboard {
  import opened Wrappers
  import opened Seqs
  import opened Sorting
  import opened RecordStore

  const OneDay: int := 24 * 3600 * 1000
  const RecentLimit: nat := 6

  /** A training day as the day listing returns it. */
  datatype DayRow = DayRow(
    id: int,
    name: string,
    subtitle: Option<string>,
    completed: bool,
    startedAt: Option<int>,
    createdAt: Option<int>,
    finishedAt: Option<int>,
    durationSeconds: Option<int>)

  // ---------------------------------------------------------------- counts

  function IsCompleted(d: DayRow): bool { d.completed }

  /** `days.filter(d => !!d.completed).length`. */
  function CompletedDays(days: seq<DayRow>): (n: nat)
    ensures n <= |days|
    ensures n == 0 <==> forall d :: d in days ==> !d.completed
    ensures n == |days| <==> forall d :: d in days ==> d.completed
  {
    FilterExtremes(days, IsCompleted);
    |Filter(days, IsCompleted)|
  }

  /** `[].concat(...workoutsNested).length`: the day-by-day workout lists
      laid end to end. */
  function TotalWorkouts(workoutsNested: seq<seq<Workout>>): (n: nat)
    ensures n == SumLengths(workoutsNested)
  {
    FlattenLength(workoutsNested);
    |Flatten(workoutsNested)|
  }

  // ------------------------------------------------- volume and last date

  /** `(Number(l.weight) || 0) * (Number(l.reps) || 0)`. */
  function LogVolume(l: Log): (v: real)
    ensures l.weight.None? || l.reps.None? ==> v == 0.0
  {
    l.weight.GetOr(0.0) * (l.reps.GetOr(0) as real)
  }

  /** The volume of a sequence of logs, added up in order. */
  function VolumeOf(logs: seq<Log>): real
  {
    if logs == [] then 0.0 else VolumeOf(logs[..|logs| - 1]) + LogVolume(logs[|logs| - 1])
  }

  lemma {:induction false} VolumeOfAppend(a: seq<Log>, b: seq<Log>)
    ensures VolumeOf(a + b) == VolumeOf(a) + VolumeOf(b)
  {
    if b == [] {
      assert a + b == a;
    } else {
      var c := b[..|b| - 1];
      assert (a + b)[..|a + b| - 1] == a + c;
      VolumeOfAppend(a, c);
    }
  }

  /** The first loop of the handler: the total volume, and the latest log
      date (`None` when there are no logs). */
  method Totals(logs: seq<Log>) returns (totalVolume: real, lastWorkoutDate: Option<int>)
    ensures totalVolume == VolumeOf(logs)
    ensures lastWorkoutDate.None? <==> logs == []
    ensures lastWorkoutDate.Some? ==>
      (exists l :: l in logs && l.date == lastWorkoutDate.value)
      && forall l :: l in logs ==> l.date <= lastWorkoutDate.value
  {
    totalVolume := 0.0;
    lastWorkoutDate := None;
    var i := 0;
    while i < |logs|
      invariant 0 <= i <= |logs|
      invariant totalVolume == VolumeOf(logs[..i])
      invariant lastWorkoutDate.None? <==> i == 0
      invariant lastWorkoutDate.Some? ==>
        (exists j :: 0 <= j < i && logs[j].date == lastWorkoutDate.value)
        && forall j :: 0 <= j < i ==> logs[j].date <= lastWorkoutDate.value
    {
      var l := logs[i];
      assert logs[..i + 1][..i] == logs[..i];
      totalVolume := totalVolume + LogVolume(l);
      if lastWorkoutDate.None? || l.date > lastWorkoutDate.value {
        lastWorkoutDate := Some(l.date);
      }
      i := i + 1;
    }
    assert logs[..i] == logs;
  }

  // --------------------------------------------------------- weekly buckets

  /** One day of the weekly summary: its start timestamp, the volume and the
      number of logs of that day. The `YYYY-MM-DD` label is a rendering of
      `day` and is not modelled. */
  datatype Bucket = Bucket(day: int, volume: real, sessions: nat)

  /** The starts of today and the six days before, oldest first. */
  function WindowStarts(now: int, sod: int -> int): (r: seq<int>)
    ensures |r| == 7
  {
    seq(7, j => sod(now - (6 - j) * OneDay))
  }

  /** `s` without repeats, each value where it first occurs: the key order of
      a JavaScript object whose keys are assigned in the order of `s`. */
  function Dedup(s: seq<int>): (r: seq<int>)
    ensures |r| <= |s|
    ensures forall x :: x in r <==> x in s
    ensures forall i, j :: 0 <= i < j < |r| ==> r[i] != r[j]
  {
    if s == [] then []
    else
      var d := Dedup(s[..|s| - 1]);
      assert forall x :: x in s <==> x in s[..|s| - 1] || x == s[|s| - 1] by {
        assert s == s[..|s| - 1] + [s[|s| - 1]];
      }
      if s[|s| - 1] in d then d else d + [s[|s| - 1]]
  }

  /** The bucket keys, in `Object.values` order. */
  function WindowKeys(now: int, sod: int -> int): (r: seq<int>)
    ensures |r| <= 7
  {
    Dedup(WindowStarts(now, sod))
  }

  function StartsOn(sod: int -> int, day: int): Log -> bool
  {
    (l: Log) => sod(l.date) == day
  }

  /** What the bucket of `day` holds once `logs` have been counted. */
  function BucketOf(day: int, logs: seq<Log>, sod: int -> int): Bucket
  {
    var mine := Filter(logs, StartsOn(sod, day));
    Bucket(day, VolumeOf(mine), |mine|)
  }

  lemma BucketStep(day: int, logs: seq<Log>, n: nat, sod: int -> int)
    requires n < |logs|
    ensures BucketOf(day, logs[..n + 1], sod)
         == var b := BucketOf(day, logs[..n], sod);
            if sod(logs[n].date) == day then Bucket(day, b.volume + LogVolume(logs[n]), b.sessions + 1) else b
  {
    var p := StartsOn(sod, day);
    assert logs[..n + 1] == logs[..n] + [logs[n]];
    FilterAppend(logs[..n], [logs[n]], p);
    FilterSingleton(logs[n], p);
    var f := Filter(logs[..n], p);
    if p(logs[n]) {
      assert (f + [logs[n]])[..|f + [logs[n]]| - 1] == f;
    } else {
      assert f + [] == f;
    }
  }

  /** The buckets after counting the log `l` into `m`: only the bucket of
      that log's day changes, when there is one. */
  function CountInto(m: map<int, Bucket>, l: Log, sod: int -> int): (r: map<int, Bucket>)
    ensures r.Keys == m.Keys
  {
    var d := sod(l.date);
    if d in m then m[d := m[d].(volume := m[d].volume + LogVolume(l), sessions := m[d].sessions + 1)] else m
  }

  /** The buckets once `logs` have been counted, in order, into `init`. */
  function Tally(init: map<int, Bucket>, logs: seq<Log>, sod: int -> int): (r: map<int, Bucket>)
    ensures r.Keys == init.Keys
    decreases |logs|
  {
    if logs == [] then init else CountInto(Tally(init, logs[..|logs| - 1], sod), logs[|logs| - 1], sod)
  }

  /** Counting into empty buckets leaves under each key exactly the logs of
      that day: their number and their volume. */
  lemma {:induction false} TallyCounts(init: map<int, Bucket>, logs: seq<Log>, sod: int -> int)
    requires forall k :: k in init ==> init[k] == Bucket(k, 0.0, 0)
    ensures forall k :: k in Tally(init, logs, sod) ==> Tally(init, logs, sod)[k] == BucketOf(k, logs, sod)
  {
    if logs != [] {
      var n := |logs| - 1;
      TallyCounts(init, logs[..n], sod);
      forall k | k in Tally(init, logs, sod) ensures Tally(init, logs, sod)[k] == BucketOf(k, logs, sod) {
        BucketStep(k, logs, n, sod);
        assert logs[..n + 1] == logs;
      }
    }
  }

  /** The weekly summary: one bucket per distinct start of day in the window,
      oldest first; each counts exactly the logs whose start of day is its
      key, so logs outside the window count nowhere. */
  method WeeklyBuckets(logs: seq<Log>, now: int, sod: int -> int) returns (weekly: seq<Bucket>)
    ensures |weekly| == |WindowKeys(now, sod)|
    ensures forall j :: 0 <= j < |weekly| ==> weekly[j] == BucketOf(WindowKeys(now, sod)[j], logs, sod)
  {
    var empty, order := EmptyBuckets(now, sod);
    var daysMap := CountLogs(empty, logs, sod);
    TallyCounts(empty, logs, sod);
    ReadOut(daysMap, order, logs, sod);
    weekly := seq(|order|, j requires 0 <= j < |order| => daysMap[order[j]]);
  }

  /** The second loop of the weekly summary: each log counted into the bucket
      of its day, when there is one. */
  method CountLogs(init: map<int, Bucket>, logs: seq<Log>, sod: int -> int) returns (daysMap: map<int, Bucket>)
    ensures daysMap == Tally(init, logs, sod)
  {
    daysMap := init;
    var n := 0;
    while n < |logs|
      invariant 0 <= n <= |logs|
      invariant daysMap == Tally(init, logs[..n], sod)
    {
      assert logs[..n + 1][..n] == logs[..n];
      var dayTs := sod(logs[n].date);
      if dayTs in daysMap {
        var b := daysMap[dayTs];
        daysMap := daysMap[dayTs := b.(volume := b.volume + LogVolume(logs[n]), sessions := b.sessions + 1)];
      }
      n := n + 1;
    }
    assert logs[..n] == logs;
  }

  /** Every key of the object's key order has its bucket. */
  lemma ReadOut(daysMap: map<int, Bucket>, order: seq<int>, logs: seq<Log>, sod: int -> int)
    requires forall k :: k in order ==> k in daysMap
    requires forall k :: k in daysMap ==> daysMap[k] == BucketOf(k, logs, sod)
    ensures forall j :: 0 <= j < |order| ==> order[j] in daysMap && daysMap[order[j]] == BucketOf(order[j], logs, sod)
  {
    forall j | 0 <= j < |order|
      ensures order[j] in daysMap && daysMap[order[j]] == BucketOf(order[j], logs, sod)
    {
      var k := order[j];
      assert k in order;
      assert k in daysMap;
    }
  }

  /** An empty bucket under each key. */
  ghost function Zeros(keys: seq<int>): map<int, Bucket>
  {
    map k | k in keys :: Bucket(k, 0.0, 0)
  }

  lemma ZerosStep(keys: seq<int>, ts: int)
    ensures Zeros(keys)[ts := Bucket(ts, 0.0, 0)] == Zeros(if ts in keys then keys else keys + [ts])
  {
    var next := if ts in keys then keys else keys + [ts];
    assert forall k :: k in next <==> k in keys || k == ts;
  }

  /** One more element either repeats an earlier one or is appended. */
  lemma DedupStep(s: seq<int>, n: nat)
    requires n < |s|
    ensures Dedup(s[..n + 1]) == if s[n] in Dedup(s[..n]) then Dedup(s[..n]) else Dedup(s[..n]) + [s[n]]
  {
    assert s[..n + 1][..n] == s[..n];
  }

  /** The first loop of the weekly summary: an empty bucket under each start
      of day of the window; `order` is the object's key order. */
  method EmptyBuckets(now: int, sod: int -> int) returns (daysMap: map<int, Bucket>, order: seq<int>)
    ensures order == WindowKeys(now, sod)
    ensures forall k :: k in daysMap <==> k in order
    ensures forall k :: k in daysMap ==> daysMap[k] == Bucket(k, 0.0, 0)
  {
    daysMap := map[];
    order := [];
    ghost var starts := WindowStarts(now, sod);
    var i := 6;
    while i >= 0
      invariant -1 <= i <= 6
      invariant order == Dedup(starts[..6 - i])
      invariant daysMap == Zeros(order)
    {
      var ts := sod(now - i * OneDay);
      assert starts[6 - i] == ts;
      DedupStep(starts, 6 - i);
      ZerosStep(order, ts);
      if ts !in daysMap {
        order := order + [ts];
      }
      daysMap := daysMap[ts := Bucket(ts, 0.0, 0)];
      i := i - 1;
    }
    assert starts[..7] == starts;
  }

  /** Midnight in UTC, for which the seven window days are all distinct. */
  function UtcDayStart(t: int): int
  {
    t - t % OneDay
  }

  lemma UtcDayStartShift(now: int, i: int)
    ensures UtcDayStart(now - i * OneDay) == UtcDayStart(now) - i * OneDay
  {
    var q, r := now / OneDay, now % OneDay;
    assert now == q * OneDay + r;
    assert now - i * OneDay == (q - i) * OneDay + r;
    assert (now - i * OneDay) % OneDay == r;
  }

  lemma {:induction false} DedupIncreasing(s: seq<int>)
    requires forall i, j :: 0 <= i < j < |s| ==> s[i] < s[j]
    ensures Dedup(s) == s
  {
    if s != [] {
      var t := s[..|s| - 1];
      DedupIncreasing(t);
      assert s[|s| - 1] !in t;
      assert s == t + [s[|s| - 1]];
    }
  }

  /** With UTC midnights the summary has exactly seven buckets, one day
      apart and oldest first. */
  lemma UtcWindowIsSevenDays(now: int)
    ensures WindowKeys(now, UtcDayStart) == seq(7, j => UtcDayStart(now) - (6 - j) * OneDay)
  {
    UtcWindowStarts(now);
    DedupIncreasing(WindowStarts(now, UtcDayStart));
  }

  lemma UtcWindowStarts(now: int)
    ensures WindowStarts(now, UtcDayStart) == seq(7, j => UtcDayStart(now) - (6 - j) * OneDay)
  {
    var s := WindowStarts(now, UtcDayStart);
    forall j | 0 <= j < 7 ensures s[j] == UtcDayStart(now) - (6 - j) * OneDay {
      UtcDayStartShift(now, 6 - j);
    }
  }

  lemma {:induction false} DedupOfNondecreasing(s: seq<int>)
    requires forall i, j :: 0 <= i < j < |s| ==> s[i] <= s[j]
    ensures forall i, j :: 0 <= i < j < |Dedup(s)| ==> Dedup(s)[i] < Dedup(s)[j]
  {
    if s != [] {
      var t := s[..|s| - 1];
      var x := s[|s| - 1];
      DedupOfNondecreasing(t);
      var d := Dedup(t);
      if x !in d {
        forall i | 0 <= i < |d| ensures d[i] < x {
          assert d[i] in t;
        }
      }
    }
  }

  /** Whatever the time zone, a start-of-day that never goes backwards puts
      the buckets in chronological order. */
  lemma WindowChronological(now: int, sod: int -> int)
    requires forall a, b :: a <= b ==> sod(a) <= sod(b)
    ensures forall i, j :: 0 <= i < j < |WindowKeys(now, sod)| ==> WindowKeys(now, sod)[i] < WindowKeys(now, sod)[j]
  {
    var s := WindowStarts(now, sod);
    forall i, j | 0 <= i < j < 7 ensures s[i] <= s[j] {
      assert now - (6 - i) * OneDay <= now - (6 - j) * OneDay;
    }
    DedupOfNondecreasing(s);
  }

  // ------------------------------------------------------------ recent days

  /** `startedAt`, else `createdAt`, else 0. */
  function StartKey(d: DayRow): int
  {
    if d.startedAt.Some? then d.startedAt.value
    else if d.createdAt.Some? then d.createdAt.value
    else 0
  }

  datatype RecentDay = RecentDay(id: int, name: string, subtitle: Option<string>, completed: bool)

  /** The at most six latest days, latest first: every day left out started
      no later than every day shown, and days that share a start keep their
      stored order, the earliest stored of them shown first. */
  function Latest(days: seq<DayRow>): (top: seq<DayRow>)
    ensures |top| == if |days| < RecentLimit then |days| else RecentLimit
    ensures SortedDesc(top, StartKey)
    ensures multiset(top) <= multiset(days)
    ensures forall x, y :: x in multiset(days) - multiset(top) && y in top ==> StartKey(x) <= StartKey(y)
    ensures forall k :: Filter(top, KeyIs(StartKey, k)) <= Filter(days, KeyIs(StartKey, k))
  {
    var s := SortDesc(days, StartKey);
    var n := if |days| < RecentLimit then |days| else RecentLimit;
    SortedPrefixTop(s, n, StartKey);
    SortedPrefixStable(days, n, StartKey);
    s[..n]
  }

  /** `recentDays`: the latest days projected to their id, name, subtitle
      and completion flag. */
  function RecentDays(days: seq<DayRow>): (r: seq<RecentDay>)
    ensures |r| <= RecentLimit && |r| == |Latest(days)|
    ensures forall j :: 0 <= j < |r| ==>
      var d := Latest(days)[j]; r[j] == RecentDay(d.id, d.name, d.subtitle, d.completed)
  {
    var top := Latest(days);
    seq(|top|, j requires 0 <= j < |top| => RecentDay(top[j].id, top[j].name, top[j].subtitle, top[j].completed))
  }

  // ----------------------------------------------------------- durations

  /** `Math.round(a / b)` for integers: the nearest integer, halves rounded up. */
  function RoundDiv(a: int, b: int): (r: int)
    requires b > 0
    ensures 2 * a - b < 2 * b * r <= 2 * a + b
  {
    var q := (2 * a + b) / (2 * b);
    var m := (2 * a + b) % (2 * b);
    assert 2 * b * q + m == 2 * a + b;
    q
  }

  /** The length in seconds of one day: its recorded `durationSeconds`
      (0 included), else the rounded time from start to finish when it
      finished after it started, else none. */
  function DayDuration(d: DayRow): (r: Option<int>)
    ensures d.durationSeconds.Some? ==> r == d.durationSeconds
    ensures d.durationSeconds.None? ==>
      (r.Some? <==> d.startedAt.Some? && d.finishedAt.Some? && d.finishedAt.value > d.startedAt.value)
    ensures d.durationSeconds.None? && r.Some? ==>
      var ms := d.finishedAt.value - d.startedAt.value;
      0 <= r.value && 2 * ms - 1000 < 2000 * r.value <= 2 * ms + 1000
  {
    if d.durationSeconds.Some? then d.durationSeconds
    else if d.startedAt.Some? && d.finishedAt.Some? && d.finishedAt.value > d.startedAt.value then
      Some(RoundDiv(d.finishedAt.value - d.startedAt.value, 1000))
    else None
  }

  /** The durations the days contribute, in day order. */
  function Durations(days: seq<DayRow>): (r: seq<int>)
    ensures |r| <= |days|
    ensures r == [] <==> forall d :: d in days ==> DayDuration(d).None?
  {
    if days == [] then []
    else
      var init := days[..|days| - 1];
      var last := days[|days| - 1];
      assert days == init + [last];
      assert forall d :: d in days <==> d in init || d == last;
      match DayDuration(last)
      case None => Durations(init)
      case Some(v) => Durations(init) + [v]
  }

  /** The rounded mean of the collected durations, none when there are none. */
  method AvgDuration(days: seq<DayRow>) returns (avg: Option<int>)
    ensures avg.None? <==> forall d :: d in days ==> DayDuration(d).None?
    ensures avg.Some? ==>
      var ds := Durations(days);
      2 * SumInt(ds) - |ds| < 2 * |ds| * avg.value <= 2 * SumInt(ds) + |ds|
  {
    var durations := CollectDurations(days);
    if |durations| > 0 {
      avg := Some(RoundDiv(SumInt(durations), |durations|));
    } else {
      avg := None;
    }
  }

  /** The loop collecting the durations. */
  method CollectDurations(days: seq<DayRow>) returns (durations: seq<int>)
    ensures durations == Durations(days)
  {
    durations := [];
    var i := 0;
    while i < |days|
      invariant 0 <= i <= |days|
      invariant durations == Durations(days[..i])
    {
      var d := days[i];
      assert days[..i + 1][..i] == days[..i];
      if d.durationSeconds.Some? {
        durations := durations + [d.durationSeconds.value];
      } else if d.startedAt.Some? && d.finishedAt.Some? {
        var s := d.startedAt.value;
        var f := d.finishedAt.value;
        if f > s {
          durations := durations + [RoundDiv(f - s, 1000)];
        }
      }
      i := i + 1;
    }
    assert days[..i] == days;
  }


  lemma {:induction false} SumIntBounds(ds: seq<int>, lo: int, hi: int)
    requires forall x :: x in ds ==> lo <= x <= hi
    ensures |ds| * lo <= SumInt(ds) <= |ds| * hi
  {
    if ds != [] {
      var t := ds[1..];
      assert ds[0] in ds;
      forall x | x in t ensures lo <= x <= hi {
        assert x in ds;
      }
      SumIntBounds(t, lo, hi);
      var n := |t|;
      assert |ds| == n + 1;
      assert (n + 1) * lo == n * lo + lo;
      assert (n + 1) * hi == n * hi + hi;
    }
  }

  /** The rounded mean of integers lies between their least and greatest. */
  lemma RoundedMeanWithin(ds: seq<int>, lo: int, hi: int)
    requires ds != []
    requires forall x :: x in ds ==> lo <= x <= hi
    ensures lo <= RoundDiv(SumInt(ds), |ds|) <= hi
  {
    SumIntBounds(ds, lo, hi);
    RoundWithin(SumInt(ds), |ds|, lo, hi);
  }

  lemma RoundWithin(sum: int, n: int, lo: int, hi: int)
    requires n > 0 && n * lo <= sum <= n * hi
    ensures lo <= RoundDiv(sum, n) <= hi
  {
    var r := RoundDiv(sum, n);
    assert 2 * n * r - 2 * n * lo == 2 * n * (r - lo);
    assert 2 * n * r - 2 * n * hi == 2 * n * (r - hi);
    assert 2 * n * lo <= 2 * sum <= 2 * n * hi;
    MulSign(2 * n, r - lo);
    MulSign(2 * n, r - hi);
  }

  lemma MulSign(k: int, q: int)
    requires k > 0
    ensures q < 0 ==> k * q <= -k
    ensures q > 0 ==> k * q >= k
  {
    if q < 0 {
      MulMonotone(k, q, -1);
    }
    if q > 0 {
      MulMonotone(k, 1, q);
    }
  }

  lemma MulMonotone(k: int, a: int, b: int)
    requires k >= 0 && a <= b
    ensures k * a <= k * b
  {
    assert k * b - k * a == k * (b - a);
  }

  // ------------------------------------------------------------- handler

  datatype Summary = Summary(
    totalDays: nat,
    completedDays: nat,
    totalWorkouts: nat,
    totalVolume: real,
    lastWorkoutDate: Option<int>,
    weekly: seq<Bucket>,
    recentDays: seq<RecentDay>,
    avgDurationSeconds: Option<int>)

  /** The body of the handler once the user is known: `workoutsNested` is
      the per-day workout lists and `logsNested` the per-workout log lists
      the parallel fetches return; `now` is the clock reading. */
  method Summarize(days: seq<DayRow>, workoutsNested: seq<seq<Workout>>, logsNested: seq<seq<Log>>,
                   now: int, sod: int -> int) returns (r: Summary)
    ensures r.totalDays == |days| && r.completedDays == CompletedDays(days)
    ensures r.totalWorkouts == SumLengths(workoutsNested)
    ensures r.totalVolume == VolumeOf(Flatten(logsNested))
    ensures r.lastWorkoutDate.None? <==> Flatten(logsNested) == []
    ensures r.lastWorkoutDate.Some? ==>
      (exists l :: l in Flatten(logsNested) && l.date == r.lastWorkoutDate.value)
      && forall l :: l in Flatten(logsNested) ==> l.date <= r.lastWorkoutDate.value
    ensures |r.weekly| == |WindowKeys(now, sod)|
    ensures forall j :: 0 <= j < |r.weekly| ==> r.weekly[j] == BucketOf(WindowKeys(now, sod)[j], Flatten(logsNested), sod)
    ensures r.recentDays == RecentDays(days)
    ensures r.avgDurationSeconds.None? <==> forall d :: d in days ==> DayDuration(d).None?
    ensures r.avgDurationSeconds.Some? ==>
      var ds := Durations(days);
      2 * SumInt(ds) - |ds| < 2 * |ds| * r.avgDurationSeconds.value <= 2 * SumInt(ds) + |ds|
  {
    var logs := Flatten(logsNested);
    var totalVolume, lastWorkoutDate := Totals(logs);
    var weekly := WeeklyBuckets(logs, now, sod);
    var avg := AvgDuration(days);
    r := Summary(|days|, CompletedDays(days), TotalWorkouts(workoutsNested), totalVolume,
                 lastWorkoutDate, weekly, RecentDays(days), avg);
  }
}
