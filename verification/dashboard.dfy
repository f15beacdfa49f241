/** The parent dashboard (`/dashboard/{teen_id}`): one read of everything
    known about an owned teen. `today` is the server's local date as
    `YYYY-MM-DD`, supplied by the caller of the model. */
module Dashboard {
  import opened Common
  import opened Records
  import opened Query
  import opened Database
  import opened Usage
  import opened Tracking
  import opened Browsing

  /** Today's usage records read (`to_list(1000)`). */
  const TodayUsageCap: nat := 1000
  /** Locations shown, newest first (`limit(10)`). */
  const RecentLocationCount: nat := 10
  /** Web history shown, newest first (`limit(20)`). */
  const RecentHistoryCount: nat := 20
  /** Geofences read (`to_list(100)`). */
  const DashboardGeofenceCap: nat := 100
  /** Unread alerts read (`to_list(100)`). */
  const UnreadAlertCap: nat := 100

  datatype DashboardData = DashboardData(
    teen: Teen,
    screenTimeToday: int,
    appUsageToday: seq<AppUsage>,
    recentLocations: seq<Location>,
    recentWebHistory: seq<WebHistory>,
    geofences: seq<Geofence>,
    unreadAlerts: seq<Alert>)

  /** The total of the minutes reported in `us`: the dashboard's screen
      time for today. */
  function TotalMinutes(us: seq<AppUsage>): int {
    if |us| == 0 then 0 else us[0].usageTime + TotalMinutes(us[1..])
  }

  lemma {:induction false} TotalAppend(a: seq<AppUsage>, b: seq<AppUsage>)
    ensures TotalMinutes(a + b) == TotalMinutes(a) + TotalMinutes(b)
  {
    if |a| > 0 {
      assert (a + b)[1..] == a[1..] + b;
      TotalAppend(a[1..], b);
    } else {
      assert a + b == b;
    }
  }

  function UnreadFor(parentId: Id, teenId: Id): Alert -> bool {
    (a: Alert) => a.parentId == parentId && a.teenId == teenId && !a.isRead
  }

  /** Today's usage records of the teen, at most `TodayUsageCap`. */
  function TodayUsage(st: Store, teenId: Id, today: string): (r: seq<AppUsage>)
    ensures |r| == Min(TodayUsageCap, |Filter(st.appUsage, UsageOn(teenId, today))|)
    ensures r == Filter(st.appUsage, UsageOn(teenId, today))[..|r|]
    ensures forall u :: u in r ==> u in st.appUsage && u.teenId == teenId && u.date == today
    ensures |Filter(st.appUsage, UsageOn(teenId, today))| <= TodayUsageCap ==>
      r == Filter(st.appUsage, UsageOn(teenId, today))
  {
    Select(st.appUsage, UsageOn(teenId, today), TodayUsageCap)
  }

  /** The teen's `RecentLocationCount` newest locations, newest first. */
  function RecentLocations(st: Store, teenId: Id): (r: seq<Location>)
    ensures |r| == Min(RecentLocationCount, |Filter(st.locations, LocationOf(teenId))|)
    ensures Descending(r, LocationTime)
    ensures multiset(r) <= multiset(Filter(st.locations, LocationOf(teenId)))
    ensures |Filter(st.locations, LocationOf(teenId))| <= RecentLocationCount ==>
      multiset(r) == multiset(Filter(st.locations, LocationOf(teenId)))
    ensures forall l :: l in r ==> l in st.locations && l.teenId == teenId
    ensures forall x, y :: (x in multiset(Filter(st.locations, LocationOf(teenId))) - multiset(r) && y in r)
              ==> x.timestamp <= y.timestamp
  {
    var r := NewestMatching(st.locations, LocationOf(teenId), LocationTime, RecentLocationCount);
    assert forall l :: l in r ==> LocationOf(teenId)(l);
    r
  }

  /** The teen's `RecentHistoryCount` most recent visits, newest first. */
  function RecentHistory(st: Store, teenId: Id): (r: seq<WebHistory>)
    ensures |r| == Min(RecentHistoryCount, |Filter(st.webHistory, HistoryOf(teenId))|)
    ensures Descending(r, HistoryTime)
    ensures multiset(r) <= multiset(Filter(st.webHistory, HistoryOf(teenId)))
    ensures |Filter(st.webHistory, HistoryOf(teenId))| <= RecentHistoryCount ==>
      multiset(r) == multiset(Filter(st.webHistory, HistoryOf(teenId)))
    ensures forall h :: h in r ==> h in st.webHistory && h.teenId == teenId
    ensures forall x, y :: (x in multiset(Filter(st.webHistory, HistoryOf(teenId))) - multiset(r) && y in r)
              ==> x.timestamp <= y.timestamp
  {
    var r := NewestMatching(st.webHistory, HistoryOf(teenId), HistoryTime, RecentHistoryCount);
    assert forall h :: h in r ==> HistoryOf(teenId)(h);
    r
  }

  /** The caller's unread alerts about the teen, at most `UnreadAlertCap`. */
  function UnreadAlerts(st: Store, parentId: Id, teenId: Id): (r: seq<Alert>)
    ensures |r| == Min(UnreadAlertCap, |Filter(st.alerts, UnreadFor(parentId, teenId))|)
    ensures r == Filter(st.alerts, UnreadFor(parentId, teenId))[..|r|]
    ensures |Filter(st.alerts, UnreadFor(parentId, teenId))| <= UnreadAlertCap ==>
      r == Filter(st.alerts, UnreadFor(parentId, teenId))
    ensures forall a :: a in r ==> a in st.alerts && a.parentId == parentId && a.teenId == teenId && !a.isRead
    ensures |r| < UnreadAlertCap ==>
      forall a :: a in st.alerts && a.parentId == parentId && a.teenId == teenId && !a.isRead ==> a in r
  {
    Select(st.alerts, UnreadFor(parentId, teenId), UnreadAlertCap)
  }

  /** `get_dashboard_data`: 404 unless the caller owns the teen; otherwise
      the parts above, with screen time the total of today's usage shown. */
  function GetDashboard(st: Store, teenId: Id, parentId: Id, today: string): (r: Response<DashboardData>)
    ensures r.Err? <==> !Owns(st, parentId, teenId)
    ensures r.Err? ==> r == Err(404, TeenNotFound)
    ensures r.Ok? ==> r.body.teen in st.teens && r.body.teen.id == teenId && r.body.teen.parentId == parentId
    ensures r.Ok? ==> r.body.screenTimeToday == TotalMinutes(r.body.appUsageToday)
    // Each part is what the caller would read from the per-teen endpoint.
    ensures r.Ok? && today != "" ==> GetTeenAppUsage(st, teenId, parentId, Some(today)) == Ok(r.body.appUsageToday)
    ensures r.Ok? ==> GetTeenLocations(st, teenId, parentId, RecentLocationCount) == Ok(r.body.recentLocations)
    ensures r.Ok? ==> GetTeenWebHistory(st, teenId, parentId, RecentHistoryCount) == Ok(r.body.recentWebHistory)
    ensures r.Ok? ==> GetTeenGeofences(st, teenId, parentId) == Ok(r.body.geofences)
    ensures r.Ok? ==> r.body.unreadAlerts == UnreadAlerts(st, parentId, teenId)
  {
    match FindOwnedTeen(st, teenId, parentId)
    case None => Err(404, TeenNotFound)
    case Some(teen) =>
      var usage := TodayUsage(st, teenId, today);
      Ok(DashboardData(
        teen,
        TotalMinutes(usage),
        usage,
        RecentLocations(st, teenId),
        RecentHistory(st, teenId),
        Select(st.geofences, GeofenceOf(teenId), DashboardGeofenceCap),
        UnreadAlerts(st, parentId, teenId)))
  }

  /** A first report of an app for today adds its minutes to today's screen
      time. */
  lemma {:induction false} ScreenTimeAfterFirstReport(st: Store, parentId: Id, input: AppUsageCreate, newId: Id, now: Timestamp)
    requires Owns(st, parentId, input.teenId)
    requires !UsageRecorded(st, input.teenId, input.packageName, input.date)
    requires |Filter(st.appUsage, UsageOn(input.teenId, input.date))| < TodayUsageCap
    ensures var before := GetDashboard(st, input.teenId, parentId, input.date);
      var after := GetDashboard(CreateAppUsage(st, input, newId, now).store, input.teenId, parentId, input.date);
      && before.Ok? && after.Ok?
      && after.body.screenTimeToday == before.body.screenTimeToday + input.usageTime
  {
    var s := CreateAppUsage(st, input, newId, now);
    var p := UsageOn(input.teenId, input.date);
    var u := AppUsage(newId, input.teenId, input.appName, input.packageName, input.usageTime, input.date, now);
    assert s.store.appUsage == st.appUsage + [u];
    FilterAppend(st.appUsage, [u], p);
    assert Filter([u], p) == [u] by { assert [u][1..] == []; }
    TotalAppend(Filter(st.appUsage, p), [u]);
    assert s.store.teens == st.teens;
  }

  /** Replacing one matching record by another matching one changes the
      total of the matches by the difference of their minutes. */
  lemma {:induction false} TotalAfterReplace(s: seq<AppUsage>, p: AppUsage -> bool, k: nat, y: AppUsage)
    requires k < |s| && p(s[k]) && p(y)
    ensures |Filter(s[k := y], p)| == |Filter(s, p)|
    ensures TotalMinutes(Filter(s[k := y], p)) == TotalMinutes(Filter(s, p)) - s[k].usageTime + y.usageTime
  {
    var x := s[k];
    var a, b := s[..k], s[k + 1..];
    assert s == (a + [x]) + b;
    assert s[k := y] == (a + [y]) + b;
    FilterAppend(a + [x], b, p);
    FilterAppend(a, [x], p);
    FilterAppend(a + [y], b, p);
    FilterAppend(a, [y], p);
    assert Filter([x], p) == [x] by { assert [x][1..] == []; }
    assert Filter([y], p) == [y] by { assert [y][1..] == []; }
    TotalAppend(Filter(a, p) + [x], Filter(b, p));
    TotalAppend(Filter(a, p), [x]);
    TotalAppend(Filter(a, p) + [y], Filter(b, p));
    TotalAppend(Filter(a, p), [y]);
  }

  /** A repeated report of an app for today replaces that app's minutes in
      today's screen time instead of adding to them. */
  lemma {:induction false} ScreenTimeAfterRevision(st: Store, parentId: Id, input: AppUsageCreate, newId: Id, now: Timestamp, k: nat)
    requires Valid(st) && Owns(st, parentId, input.teenId)
    requires k < |st.appUsage| && UsageKey(st.appUsage[k]) == (input.teenId, input.packageName, input.date)
    requires |Filter(st.appUsage, UsageOn(input.teenId, input.date))| <= TodayUsageCap
    ensures var before := GetDashboard(st, input.teenId, parentId, input.date);
      var after := GetDashboard(CreateAppUsage(st, input, newId, now).store, input.teenId, parentId, input.date);
      && before.Ok? && after.Ok?
      && after.body.screenTimeToday == before.body.screenTimeToday - st.appUsage[k].usageTime + input.usageTime
  {
    var x := st.appUsage[k];
    var y := x.(usageTime := input.usageTime, lastUsed := now);
    AppUsageReplaces(st, input, newId, now, k);
    var s := CreateAppUsage(st, input, newId, now);
    assert s.store.teens == st.teens;
    assert s.store.appUsage == st.appUsage[k := y];
    TotalAfterReplace(st.appUsage, UsageOn(input.teenId, input.date), k, y);
  }
}
