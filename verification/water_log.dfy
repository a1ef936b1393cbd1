/**
  The water-log listing and deletion: one day's drinks in time order, or the
  user's drinks grouped by date, newest date first and each day in time order.
*/
module WaterLogs {

  import opened Wrappers
  import opened DateTimes
  import opened Seqs
  import opened Sorting
  import opened Grouping
  import opened Records

  /** A drink as listed. */
  datatype WaterRecord = WaterRecord(id: int, time: Option<int>, drink: string, amount: real)

  /** The drinks of one date. */
  datatype WaterDay = WaterDay(date: int, records: seq<WaterRecord>)

  datatype WaterListing =
    | TodayWater(day: Ticks, records: seq<WaterRecord>)
    | WaterDays(days: seq<WaterDay>)

  /** The time-of-day sort key: the time's ticks, or 0 when no time was recorded. */
  function TimeKey(w: WaterLog): int {
    if w.time.Some? then w.time.value else 0
  }

  function RecordOf(w: WaterLog): (r: WaterRecord)
    ensures r.id == w.waterId && r.time == w.time && r.drink == w.waterType && r.amount == w.amount
  {
    WaterRecord(w.waterId, w.time, w.waterType, w.amount)
  }

  function DrunkOn(userId: int, day: Ticks): WaterLog -> bool {
    (w: WaterLog) => w.userId == userId && w.date == day
  }

  function ByTime(w: WaterLog): Rank {
    Rank(0, TimeKey(w))
  }

  /**
    The "today" logs: the user's logs dated exactly `date.Date`, earliest time
    first, and no other logs.
  */
  function TodayWaterLogs(logs: seq<WaterLog>, userId: int, date: Ticks): (r: seq<WaterLog>)
    ensures forall i, j :: 0 <= i < j < |r| ==> TimeKey(r[i]) <= TimeKey(r[j])
    ensures multiset(r) == multiset(Filter(logs, DrunkOn(userId, Midnight(date))))
  {
    SortBy(Filter(logs, DrunkOn(userId, Midnight(date))), ByTime)
  }

  /** A log is shown for the day exactly when it is the user's and dated at that day's midnight. */
  lemma TodayWaterMembership(logs: seq<WaterLog>, userId: int, date: Ticks)
    ensures forall w :: w in TodayWaterLogs(logs, userId, date) <==>
              w in logs && w.userId == userId && w.date == Midnight(date)
  {
    var day := Filter(logs, DrunkOn(userId, Midnight(date)));
    var r := TodayWaterLogs(logs, userId, date);
    forall w ensures w in r <==> w in day {
      assert w in r <==> w in multiset(r);
      assert w in day <==> w in multiset(day);
    }
  }

  /** A log dated within the day but after midnight is never shown for it. */
  lemma TodayNeedsMidnightDate(logs: seq<WaterLog>, userId: int, date: Ticks, w: WaterLog)
    requires w.date != Midnight(date)
    ensures w !in TodayWaterLogs(logs, userId, date)
  {
    TodayWaterMembership(logs, userId, date);
  }

  function WaterSelected(userId: int, mode: string, start: Option<Ticks>, end: Option<Ticks>): WaterLog -> bool {
    (w: WaterLog) => w.userId == userId && InModeRange(w.date, mode, start, end)
  }

  /** The user's logs the date-grouped listing covers, in store order. */
  function SelectedWater(logs: seq<WaterLog>, userId: int, mode: string, start: Option<Ticks>, end: Option<Ticks>)
    : seq<WaterLog>
  {
    Filter(logs, WaterSelected(userId, mode, start, end))
  }

  function WaterDate(w: WaterLog): int {
    w.date
  }

  /** `OrderByDescending(Date).ThenBy(time)`. */
  function NewestDayEarliestTime(w: WaterLog): Rank {
    Rank(-(w.date as int), TimeKey(w))
  }

  /** The covered logs, newest date first and by time within a date. */
  function SortedWater(logs: seq<WaterLog>, userId: int, mode: string, start: Option<Ticks>, end: Option<Ticks>)
    : (r: seq<WaterLog>)
    ensures SortedBy(r, NewestDayEarliestTime)
    ensures multiset(r) == multiset(SelectedWater(logs, userId, mode, start, end))
  {
    SortBy(SelectedWater(logs, userId, mode, start, end), NewestDayEarliestTime)
  }

  /**
    The covered logs grouped by date: newest date first, no group empty, and
    together exactly the covered logs.
  */
  function GroupedWater(logs: seq<WaterLog>, userId: int, mode: string, start: Option<Ticks>, end: Option<Ticks>)
    : (r: seq<Group<WaterLog>>)
    ensures KeysDescending(r)
    ensures forall i :: 0 <= i < |r| ==> |r[i].items| > 0
    ensures multiset(Flatten(r)) == multiset(SelectedWater(logs, userId, mode, start, end))
  {
    var sorted := SortedWater(logs, userId, mode, start, end);
    GroupKeysDescending(sorted, WaterDate, NewestDayEarliestTime);
    GroupingIsLossless(sorted, WaterDate);
    GroupBy(sorted, WaterDate)
  }

  /** Each date group holds only the user's covered logs of that date. */
  lemma GroupedWaterShareDate(logs: seq<WaterLog>, userId: int, mode: string, start: Option<Ticks>, end: Option<Ticks>)
    ensures var r := GroupedWater(logs, userId, mode, start, end);
            forall i, w :: 0 <= i < |r| && w in r[i].items ==>
              w.date == r[i].key && w.userId == userId && InModeRange(w.date, mode, start, end)
  {
    var selected := SelectedWater(logs, userId, mode, start, end);
    var sorted := SortedWater(logs, userId, mode, start, end);
    var r := GroupedWater(logs, userId, mode, start, end);
    assert r == GroupBy(sorted, WaterDate);
    GroupItemsHaveKey(sorted, WaterDate);
    forall i, w | 0 <= i < |r| && w in r[i].items
      ensures w.date == r[i].key && w.userId == userId && InModeRange(w.date, mode, start, end)
    {
      assert w in sorted;
      assert w in multiset(selected);
      assert w in selected;
    }
  }

  /** Every covered log's date has a group. */
  lemma GroupedWaterCoverDates(logs: seq<WaterLog>, userId: int, mode: string, start: Option<Ticks>, end: Option<Ticks>)
    ensures var r := GroupedWater(logs, userId, mode, start, end);
            forall w :: w in logs && w.userId == userId && InModeRange(w.date, mode, start, end) ==> HasGroup(r, w.date)
  {
    var selected := SelectedWater(logs, userId, mode, start, end);
    var sorted := SortedWater(logs, userId, mode, start, end);
    var r := GroupedWater(logs, userId, mode, start, end);
    assert r == GroupBy(sorted, WaterDate);
    GroupsCoverKeys(sorted, WaterDate);
    forall w | w in logs && w.userId == userId && InModeRange(w.date, mode, start, end)
      ensures HasGroup(r, w.date)
    {
      assert w in selected;
      assert w in multiset(sorted);
      assert WaterDate(w) == w.date;
    }
  }

  /** Within each date group the drinks are in time order. */
  lemma GroupedWaterInTimeOrder(logs: seq<WaterLog>, userId: int, mode: string, start: Option<Ticks>, end: Option<Ticks>)
    ensures var r := GroupedWater(logs, userId, mode, start, end);
            forall i, a, b :: 0 <= i < |r| && 0 <= a < b < |r[i].items| ==>
              TimeKey(r[i].items[a]) <= TimeKey(r[i].items[b])
  {
    var sorted := SortedWater(logs, userId, mode, start, end);
    var r := GroupedWater(logs, userId, mode, start, end);
    assert r == GroupBy(sorted, WaterDate);
    GroupItemsSorted(sorted, WaterDate, NewestDayEarliestTime);
    GroupItemsHaveKey(sorted, WaterDate);
    forall i, a, b | 0 <= i < |r| && 0 <= a < b < |r[i].items|
      ensures TimeKey(r[i].items[a]) <= TimeKey(r[i].items[b])
    {
      var x, y := r[i].items[a], r[i].items[b];
      assert x in r[i].items && y in r[i].items;
      assert x.date == y.date;
      assert RankLe(NewestDayEarliestTime(x), NewestDayEarliestTime(y));
    }
  }

  function RecordsOf(g: Group<WaterLog>): WaterDay {
    WaterDay(g.key, Map(g.items, RecordOf))
  }

  /**
    `GetWaterLogs`: the day's drinks in time order when the mode is "today" and a
    date is given; otherwise the date groups of the covered drinks.
  */
  function GetWaterLogs(logs: seq<WaterLog>, userId: int, mode: string, date: Option<Ticks>,
                        start: Option<Ticks>, end: Option<Ticks>): (r: WaterListing)
    ensures r.TodayWater? <==> mode == "today" && date.Some?
    ensures r.TodayWater? ==>
              var today := TodayWaterLogs(logs, userId, date.value);
              && SameDay(r.day, date.value)
              && |r.records| == |today|
              && forall i :: 0 <= i < |today| ==> r.records[i] == RecordOf(today[i])
    ensures r.WaterDays? ==>
              var groups := GroupedWater(logs, userId, mode, start, end);
              && |r.days| == |groups|
              && forall i :: 0 <= i < |groups| ==>
                   && r.days[i].date == groups[i].key
                   && |r.days[i].records| == |groups[i].items|
                   && forall j :: 0 <= j < |groups[i].items| ==> r.days[i].records[j] == RecordOf(groups[i].items[j])
  {
    if mode == "today" && date.Some? then
      TodayWater(date.value, Map(TodayWaterLogs(logs, userId, date.value), RecordOf))
    else
      WaterDays(Map(GroupedWater(logs, userId, mode, start, end), RecordsOf))
  }

  /** `DeleteWaterLog`: removes the first log with that id and owner; NotFound leaves the store unchanged. */
  function DeleteWaterLog(logs: seq<WaterLog>, userId: int, recordId: int): (r: (Response<()>, seq<WaterLog>))
    ensures r.0.NotFound? <==> forall w :: w in logs ==> !(w.waterId == recordId && w.userId == userId)
    ensures r.0.NotFound? ==> r.1 == logs
    ensures !r.0.NotFound? ==> r.0.Ok?
    ensures r.0.Ok? ==>
              exists i :: 0 <= i < |logs| && logs[i].waterId == recordId && logs[i].userId == userId
                          && r.1 == logs[..i] + logs[i + 1..]
  {
    match RemoveFirst(logs, (w: WaterLog) => w.waterId == recordId && w.userId == userId)
    case None => (NotFound, logs)
    case Some(rest) => (Ok(()), rest)
  }

  /** Water ids are the store's primary key. */
  predicate UniqueWaterIds(logs: seq<WaterLog>) {
    forall i, j :: 0 <= i < j < |logs| ==> logs[i].waterId != logs[j].waterId
  }

  /** With unique ids, a successful delete leaves no log with that id and keeps every other log. */
  lemma DeletedWaterIsGone(logs: seq<WaterLog>, userId: int, recordId: int)
    requires UniqueWaterIds(logs)
    ensures var r := DeleteWaterLog(logs, userId, recordId);
            r.0.Ok? ==>
              && (forall w :: w in r.1 ==> w.waterId != recordId)
              && (forall w :: w in logs && w.waterId != recordId ==> w in r.1)
  {
    var r := DeleteWaterLog(logs, userId, recordId);
    if r.0.Ok? {
      var i :| 0 <= i < |logs| && logs[i].waterId == recordId && logs[i].userId == userId
               && r.1 == logs[..i] + logs[i + 1..];
      forall w | w in r.1 ensures w.waterId != recordId {
        RemoveAtMembers(logs, i, w);
        var k :| 0 <= k < |logs| && k != i && logs[k] == w;
        assert logs[k].waterId != logs[i].waterId;
      }
      forall w | w in logs && w.waterId != recordId ensures w in r.1 {
        var k :| 0 <= k < |logs| && logs[k] == w;
        RemoveAtMembers(logs, i, w);
      }
    }
  }
}
