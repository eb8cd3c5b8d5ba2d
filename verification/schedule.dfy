/** The activity gate: whether an avatar may act at a given UTC weekday and hour. */
module Schedule {
  import opened Wrappers

  /** One value of a profile's `schedule` mapping; a key missing from it is `None`. */
  datatype ActivityWindow = ActivityWindow(days: Option<seq<int>>, startHour: Option<int>, endHour: Option<int>)

  /** The `schedule` items in mapping order: activity name and window. */
  type Entries = seq<(string, ActivityWindow)>

  /** Missing `days` is the empty list: it matches no day. */
  function Days(w: ActivityWindow): seq<int> { w.days.GetOr([]) }

  /** Missing `start_hour` is 0. */
  function StartHour(w: ActivityWindow): int { w.startHour.GetOr(0) }

  /** Missing `end_hour` is 24; the end hour itself is outside the window. */
  function EndHour(w: ActivityWindow): int { w.endHour.GetOr(24) }

  predicate Covers(w: ActivityWindow, day: int, hour: int) {
    day in Days(w) && StartHour(w) <= hour < EndHour(w)
  }

  predicate SomeWindowCovers(entries: Entries, day: int, hour: int) {
    exists j | 0 <= j < |entries| :: Covers(entries[j].1, day, hour)
  }

  /** The answer `is_avatar_active` gives. */
  predicate Active(schedule: Option<Entries>, day: int, hour: int) {
    schedule.None? || schedule.value == [] || SomeWindowCovers(schedule.value, day, hour)
  }

  /**
   * `is_avatar_active`: `day` is the weekday with Monday = 0 and `hour` the
   * hour of the current UTC time, both read from the clock by the caller.
   * A missing or empty schedule is always active; otherwise the entries are
   * searched in order and the first window that covers the time answers yes.
   */
  method IsAvatarActive(schedule: Option<Entries>, day: int, hour: int) returns (active: bool)
    ensures schedule == None || schedule == Some([]) ==> active
    ensures schedule.Some? && schedule.value != [] ==>
      (active <==> SomeWindowCovers(schedule.value, day, hour))
  {
    if schedule.None? || |schedule.value| == 0 {
      return true;
    }
    var entries := schedule.value;
    var i := 0;
    while i < |entries|
      invariant 0 <= i <= |entries|
      invariant forall j :: 0 <= j < i ==> !Covers(entries[j].1, day, hour)
    {
      var w := entries[i].1;
      var isDay := day in Days(w);
      var isHour := StartHour(w) <= hour < EndHour(w);
      if isDay && isHour {
        return true;
      }
      i := i + 1;
    }
    return false;
  }

  /** A window whose keys are all missing never covers; one with only `days` covers those whole days. */
  lemma WindowDefaults(ds: seq<int>, day: int, hour: int)
    ensures !Covers(ActivityWindow(None, None, None), day, hour)
    ensures Covers(ActivityWindow(Some(ds), None, None), day, hour) <==> day in ds && 0 <= hour < 24
  {
  }

  /** Adding an entry anywhere never turns an active schedule inactive. */
  lemma {:induction false} AddingEntryKeepsActive(entries: Entries, k: nat, e: (string, ActivityWindow), day: int, hour: int)
    requires k <= |entries|
    requires SomeWindowCovers(entries, day, hour)
    ensures SomeWindowCovers(entries[..k] + [e] + entries[k..], day, hour)
  {
    var j :| 0 <= j < |entries| && Covers(entries[j].1, day, hour);
    var grown := entries[..k] + [e] + entries[k..];
    var j' := if j < k then j else j + 1;
    assert grown[j'] == entries[j];
  }

  /** The Monday-to-Friday, 9-to-17 example: active on Wednesday at 10, not on Saturday at 10 or Wednesday at 17 or 20. */
  lemma WorkWeekExample()
    ensures var work := ActivityWindow(Some([0, 1, 2, 3, 4]), Some(9), Some(17));
      var entries := [("work", work)];
      SomeWindowCovers(entries, 2, 10) && !SomeWindowCovers(entries, 5, 10)
      && !SomeWindowCovers(entries, 2, 17) && !SomeWindowCovers(entries, 2, 20)
  {
    var work := ActivityWindow(Some([0, 1, 2, 3, 4]), Some(9), Some(17));
    assert Covers([("work", work)][0].1, 2, 10);
  }
}
