/**
  The weight-log actions: storing a weight with its body-fat estimate, listing a
  user's weights through a date window, deleting one, and the body summary that
  resolves "the weight of the day".
*/
module WeightLogs {

  import opened Wrappers
  import opened DateTimes
  import opened Seqs
  import opened Sorting
  import opened Records
  import opened Metrics

  /** A listed weight: id, date, time of day (`"--"` when absent), weight and body fat. */
  datatype WeightRow = WeightRow(id: int, date: Ticks, time: string, weight: real, bodyFat: Option<real>)

  /** The body summary: current weight, height, BMR, the day's body fat and BMI. */
  datatype BodyInfo = BodyInfo(weight: real, height: real, bmr: real, bodyFat: Option<real>, bmi: real)

  /** The user's height is recorded and positive, so BMI is available. */
  predicate HasHeight(user: User) {
    user.height.Some? && user.height.value > 0.0
  }

  /**
    The log as it is stored: with the body-fat estimate for the user's BMI when
    the user's height is known, and otherwise exactly as supplied.
  */
  function WithBodyFat(user: User, log: WeightLog): (r: WeightLog)
    ensures r.(bodyFat := log.bodyFat) == log
    ensures HasHeight(user) ==>
              r.bodyFat == Some(BodyFat(Bmi(log.weight, user.height.value), user.age, user.gender))
    ensures !HasHeight(user) ==> r == log
  {
    if HasHeight(user) then
      log.(bodyFat := Some(BodyFat(Bmi(log.weight, user.height.value), user.age, user.gender)))
    else log
  }

  /**
    `AddWeightLog`: an unknown user gives NotFound and stores nothing; otherwise
    the log is appended with its id assigned by the store, a default date replaced
    by `now`, and the body-fat estimate filled in when the height is known.
  */
  function AddWeightLog(users: seq<User>, logs: seq<WeightLog>, log: WeightLog, newId: int, now: Ticks)
    : (r: (Response<()>, seq<WeightLog>))
    ensures r.0.NotFound? <==> FindUser(users, log.userId).None?
    ensures r.0.NotFound? ==> r.1 == logs
    ensures !r.0.NotFound? ==> r.0.Ok? && |r.1| == |logs| + 1 && r.1[..|logs|] == logs
    ensures r.0.Ok? ==>
              var stored := r.1[|logs|];
              && stored.logId == newId
              && stored.userId == log.userId
              && stored.weight == log.weight
              && stored.timeOfDay == log.timeOfDay
              && stored.date == (if log.date == 0 then now else log.date)
              && var user := FindUser(users, log.userId).value;
              && (HasHeight(user) ==>
                    stored.bodyFat == Some(BodyFat(Bmi(log.weight, user.height.value), user.age, user.gender)))
              && (!HasHeight(user) ==> stored.bodyFat == log.bodyFat)
  {
    match FindUser(users, log.userId)
    case None => (NotFound, logs)
    case Some(user) =>
      var dated := log.(logId := newId, date := if log.date == 0 then now else log.date);
      var stored := WithBodyFat(user, dated);
      assert (logs + [stored])[..|logs|] == logs;
      (Ok(()), logs + [stored])
  }

  /** The log belongs to `userId` and renders to the same `"yyyy-MM-dd"` day as `day`. */
  predicate OnDay(l: WeightLog, userId: int, day: Ticks) {
    l.userId == userId && SameDay(l.date, day)
  }

  /**
    `OrderByDescending(w => w.LogId).FirstOrDefault()` over the user's logs of
    that day: a log of that day with the greatest id (the earliest stored one on
    a tie), or none when the day has no log.
  */
  function LatestOnDay(logs: seq<WeightLog>, userId: int, day: Ticks): (r: Option<WeightLog>)
    ensures r.None? <==> forall l :: l in logs ==> !OnDay(l, userId, day)
    ensures r.Some? ==> r.value in logs && OnDay(r.value, userId, day)
    ensures r.Some? ==> forall l :: l in logs && OnDay(l, userId, day) ==> l.logId <= r.value.logId
    decreases |logs|
  {
    if logs == [] then None
    else
      assert logs == [logs[0]] + logs[1..];
      var later := LatestOnDay(logs[1..], userId, day);
      if !OnDay(logs[0], userId, day) then later
      else if later.Some? && later.value.logId > logs[0].logId then later
      else Some(logs[0])
  }

  /** The weight of the day: the latest same-day log's, else the initial weight, else 0. */
  function DayWeight(user: User, logs: seq<WeightLog>, day: Ticks): (r: real)
    ensures (forall l :: l in logs ==> !OnDay(l, user.userId, day)) ==> r == user.initialWeight.GetOr(0.0)
    ensures (exists l :: l in logs && OnDay(l, user.userId, day)) ==>
              exists l :: l in logs && OnDay(l, user.userId, day) && r == l.weight
                          && forall m :: m in logs && OnDay(m, user.userId, day) ==> m.logId <= l.logId
  {
    match LatestOnDay(logs, user.userId, day)
    case Some(l) => l.weight
    case None => user.initialWeight.GetOr(0.0)
  }

  /**
    `GetBodyInfo`: NotFound for an unknown user; otherwise the weight of the day
    `now` falls on, the height (0 if absent), the BMR and BMI computed from them,
    and the body fat stored with that day's latest log (none without one).
  */
  function GetBodyInfo(users: seq<User>, logs: seq<WeightLog>, userId: int, now: Ticks): (r: Response<BodyInfo>)
    ensures r.NotFound? <==> FindUser(users, userId).None?
    ensures !r.BadRequest?
    ensures r.Ok? ==>
              var user := FindUser(users, userId).value;
              var info := r.value;
              && info.height == user.height.GetOr(0.0)
              && info.weight == DayWeight(user, logs, now)
              && info.bmi == Bmi(info.weight, info.height)
              && info.bmr == Bmr(info.weight, info.height, AgeOrDefault(user.age), user.gender)
              && ((forall l :: l in logs ==> !OnDay(l, userId, now)) ==>
                    info.weight == user.initialWeight.GetOr(0.0) && info.bodyFat.None?)
              && ((exists l :: l in logs && OnDay(l, userId, now)) ==>
                    exists l :: l in logs && OnDay(l, userId, now)
                                && (forall m :: m in logs && OnDay(m, userId, now) ==> m.logId <= l.logId)
                                && info.weight == l.weight && info.bodyFat == l.bodyFat)
  {
    match FindUser(users, userId)
    case None => NotFound
    case Some(user) =>
      var height := user.height.GetOr(0.0);
      var latest := LatestOnDay(logs, userId, now);
      var weight := if latest.Some? then latest.value.weight else user.initialWeight.GetOr(0.0);
      var bodyFat := if latest.Some? then latest.value.bodyFat else None;
      Ok(BodyInfo(weight, height, Bmr(weight, height, AgeOrDefault(user.age), user.gender), bodyFat, Bmi(weight, height)))
  }

  /**
    The listing's date window: an explicit inclusive range when both bounds are
    given, else the last 7 days for "week", else the last month for "month"
    (`monthAgo` is `now.AddMonths(-1)`), else every date.
  */
  predicate InWindow(date: Ticks, mode: string, start: Option<Ticks>, end: Option<Ticks>, now: int, monthAgo: int) {
    if start.Some? && end.Some? then start.value <= date <= end.value
    else if mode == "week" then date >= now - 7 * TicksPerDay
    else if mode == "month" then date >= monthAgo
    else true
  }

  /** The user's logs inside the window, in store order. */
  function Selected(logs: seq<WeightLog>, userId: int, mode: string, start: Option<Ticks>, end: Option<Ticks>,
                    now: int, monthAgo: int): seq<WeightLog>
  {
    Filter(logs, (l: WeightLog) => l.userId == userId && InWindow(l.date, mode, start, end, now, monthAgo))
  }

  function ToRow(l: WeightLog): WeightRow {
    WeightRow(l.logId, l.date, l.timeOfDay.GetOr("--"), l.weight, l.bodyFat)
  }

  function ByDateDescending(row: WeightRow): Rank {
    Rank(-(row.date as int), 0)
  }

  /**
    `GetWeightLogs`: the rows of the user's logs inside the window, newest date
    first.
  */
  function GetWeightLogs(logs: seq<WeightLog>, userId: int, mode: string, start: Option<Ticks>, end: Option<Ticks>,
                         now: int, monthAgo: int): (r: seq<WeightRow>)
    ensures forall i, j :: 0 <= i < j < |r| ==> r[i].date >= r[j].date
    ensures multiset(r) == multiset(Map(Selected(logs, userId, mode, start, end, now, monthAgo), ToRow))
  {
    var rows := Map(Selected(logs, userId, mode, start, end, now, monthAgo), ToRow);
    var sorted := SortBy(rows, ByDateDescending);
    assert forall i, j :: 0 <= i < j < |sorted| ==> RankLe(ByDateDescending(sorted[i]), ByDateDescending(sorted[j]));
    sorted
  }

  /** Every listed row is the row of one of the user's logs inside the window, and every such log is listed. */
  lemma ListingMembership(logs: seq<WeightLog>, userId: int, mode: string, start: Option<Ticks>, end: Option<Ticks>,
                          now: int, monthAgo: int)
    ensures forall row :: row in GetWeightLogs(logs, userId, mode, start, end, now, monthAgo) <==>
              exists l :: l in logs && l.userId == userId && InWindow(l.date, mode, start, end, now, monthAgo)
                          && row == ToRow(l)
  {
    var sel := Selected(logs, userId, mode, start, end, now, monthAgo);
    var rows := Map(sel, ToRow);
    var r := GetWeightLogs(logs, userId, mode, start, end, now, monthAgo);
    forall row ensures row in r <==> row in rows {
      assert row in r <==> row in multiset(r);
      assert row in rows <==> row in multiset(rows);
    }
    forall row | row in rows
      ensures exists l :: l in logs && l.userId == userId && InWindow(l.date, mode, start, end, now, monthAgo)
                          && row == ToRow(l)
    {
      var i :| 0 <= i < |rows| && rows[i] == row;
      assert sel[i] in sel;
    }
    forall l | l in logs && l.userId == userId && InWindow(l.date, mode, start, end, now, monthAgo)
      ensures ToRow(l) in rows
    {
      assert l in sel;
      var i :| 0 <= i < |sel| && sel[i] == l;
      assert rows[i] == ToRow(l);
    }
  }

  /** With both bounds present the range decides the listing, whatever the mode. */
  lemma RangeOverridesMode(logs: seq<WeightLog>, userId: int, mode1: string, mode2: string, start: Ticks, end: Ticks,
                           now: int, monthAgo: int)
    ensures GetWeightLogs(logs, userId, mode1, Some(start), Some(end), now, monthAgo)
         == GetWeightLogs(logs, userId, mode2, Some(start), Some(end), now, monthAgo)
  {
    FilterExtensional(logs,
      (l: WeightLog) => l.userId == userId && InWindow(l.date, mode1, Some(start), Some(end), now, monthAgo),
      (l: WeightLog) => l.userId == userId && InWindow(l.date, mode2, Some(start), Some(end), now, monthAgo));
  }

  /** Without both bounds, a mode other than "week" or "month" lists every log of the user. */
  lemma OtherModesDoNotFilter(logs: seq<WeightLog>, userId: int, mode: string, start: Option<Ticks>, end: Option<Ticks>,
                              now: int, monthAgo: int)
    requires !(start.Some? && end.Some?)
    requires mode != "week" && mode != "month"
    ensures Selected(logs, userId, mode, start, end, now, monthAgo) == Filter(logs, (l: WeightLog) => l.userId == userId)
  {
    FilterExtensional(logs,
      (l: WeightLog) => l.userId == userId && InWindow(l.date, mode, start, end, now, monthAgo),
      (l: WeightLog) => l.userId == userId);
  }

  /** Without both bounds, "week" and "month" set only a lower bound: any later date passes. */
  lemma RollingWindowsHaveNoUpperBound(date: Ticks, later: Ticks, mode: string, start: Option<Ticks>, end: Option<Ticks>,
                                       now: int, monthAgo: int)
    requires !(start.Some? && end.Some?)
    requires mode == "week" || mode == "month"
    requires InWindow(date, mode, start, end, now, monthAgo)
    requires date <= later
    ensures InWindow(later, mode, start, end, now, monthAgo)
  {
  }

  /** `DeleteWeightLog`: removes the first log with that id and owner; NotFound leaves the store unchanged. */
  function DeleteWeightLog(logs: seq<WeightLog>, userId: int, logId: int): (r: (Response<()>, seq<WeightLog>))
    ensures r.0.NotFound? <==> forall l :: l in logs ==> !(l.logId == logId && l.userId == userId)
    ensures r.0.NotFound? ==> r.1 == logs
    ensures !r.0.NotFound? ==> r.0.Ok?
    ensures r.0.Ok? ==>
              exists i :: 0 <= i < |logs| && logs[i].logId == logId && logs[i].userId == userId
                          && r.1 == logs[..i] + logs[i + 1..]
  {
    match RemoveFirst(logs, (l: WeightLog) => l.logId == logId && l.userId == userId)
    case None => (NotFound, logs)
    case Some(rest) => (Ok(()), rest)
  }

  /**
    Deleting a freshly added log by its new id restores the store: the new id
    is unused, so the delete can only match the appended log.
  */
  lemma AddThenDeleteWeightLog(users: seq<User>, logs: seq<WeightLog>, log: WeightLog, newId: int, now: Ticks)
    requires FindUser(users, log.userId).Some?
    requires forall l :: l in logs ==> l.logId != newId
    ensures AddWeightLog(users, logs, log, newId, now).0.Ok?
    ensures DeleteWeightLog(AddWeightLog(users, logs, log, newId, now).1, log.userId, newId) == (Ok(()), logs)
  {
    var added := AddWeightLog(users, logs, log, newId, now).1;
    var r := DeleteWeightLog(added, log.userId, newId);
    assert added[|logs|].logId == newId && added[|logs|].userId == log.userId;
    assert r.0.Ok?;
    var i :| 0 <= i < |added| && added[i].logId == newId && added[i].userId == log.userId
             && r.1 == added[..i] + added[i + 1..];
    assert i == |logs| && added[i + 1..] == [];
    assert added[..i] == logs;
    assert r.1 == logs;
  }
}
