/** Location reports and geofences (`/locations`, `/geofences` and the
    per-teen reads). The floating-point distance test of `create_location` is
    the parameter `within`: whether this fix lies inside a given geofence.
    The uuids the handler draws are `uuid(0)` (the location), then
    `uuid(1)`, `uuid(2)`, ... (one per alert, in geofence order). */
module Tracking {
  import opened Common
  import opened Records
  import opened Query
  import opened Database

  /** Geofences read per request (`to_list(100)`). */
  const GeofenceCap: nat := 100

  const GeofenceEnter := "geofence_enter"

  function LocationOf(teenId: Id): Location -> bool {
    (l: Location) => l.teenId == teenId
  }

  function GeofenceOf(teenId: Id): Geofence -> bool {
    (g: Geofence) => g.teenId == teenId
  }

  /** "<teen> entered <geofence>" */
  function EnterMessage(teenName: string, fenceName: string): string {
    teenName + " entered " + fenceName
  }

  /** The unread alert telling the parent `teen` entered `fence`. */
  function EnterAlert(teen: Teen, fence: Geofence, id: Id, now: Timestamp): Alert {
    Alert(id, teen.parentId, teen.id, GeofenceEnter, EnterMessage(teen.name, fence.name), false, now)
  }

  /** One alert per geofence of `fences` that the fix lies within, in order,
      numbered from `uuid(next)` on. */
  function GeofenceAlerts(teen: Teen, fences: seq<Geofence>, within: Geofence -> bool,
                          uuid: nat -> Id, next: nat, now: Timestamp): seq<Alert>
  {
    var hit := Filter(fences, within);
    seq(|hit|, i requires 0 <= i < |hit| => EnterAlert(teen, hit[i], uuid(next + i), now))
  }

  /** The alerts `create_location` raises for a fix of teen `teenId`. */
  function RaisedAlerts(st: Store, teenId: Id, within: Geofence -> bool, uuid: nat -> Id, now: Timestamp)
    : seq<Alert>
  {
    match FindTeen(st, teenId)
    case None => []
    case Some(teen) =>
      GeofenceAlerts(teen, Select(st.geofences, GeofenceOf(teenId), GeofenceCap), within, uuid, 1, now)
  }

  /** `create_location`: for a known teen, store the fix and append the
      alerts of `RaisedAlerts`; an unknown teen is 404 and nothing is stored. */
  function CreateLocation(st: Store, input: LocationCreate, within: Geofence -> bool,
                          uuid: nat -> Id, now: Timestamp): (s: Step<Id>)
    ensures s.response.Err? <==> !TeenExists(st, input.teenId)
    ensures s.response.Err? ==> s == Step(st, Err(404, TeenNotFound))
    ensures s.response.Ok? ==>
      && s.response.body == uuid(0)
      && s.store == st.(locations := s.store.locations, alerts := s.store.alerts)
      && s.store.locations == st.locations
           + [Location(uuid(0), input.teenId, input.latitude, input.longitude, input.accuracy, input.address, now)]
      && s.store.alerts == st.alerts + RaisedAlerts(st, input.teenId, within, uuid, now)
  {
    if FindTeen(st, input.teenId).None? then Step(st, Err(404, TeenNotFound))
    else
      var location := Location(uuid(0), input.teenId, input.latitude, input.longitude,
                               input.accuracy, input.address, now);
      var alerts := st.alerts + RaisedAlerts(st, input.teenId, within, uuid, now);
      Step(st.(locations := st.locations + [location], alerts := alerts), Ok(location.id))
  }

  /** What a location report raises: one alert per geofence, among the
      teen's first `GeofenceCap`, that the fix lies within, in geofence order;
      each is an unread `geofence_enter` alert for the parent of the teen
      found, carries the next uuid, and names the teen and the geofence. */
  lemma {:induction false} RaisedAlertsSpec(st: Store, teen: Teen, within: Geofence -> bool,
                                            uuid: nat -> Id, now: Timestamp)
    requires FindTeen(st, teen.id) == Some(teen)
    ensures var raised := RaisedAlerts(st, teen.id, within, uuid, now);
      var hit := Filter(Select(st.geofences, GeofenceOf(teen.id), GeofenceCap), within);
      && |raised| == |hit|
      && forall i :: 0 <= i < |raised| ==>
           && hit[i] in st.geofences && hit[i].teenId == teen.id && within(hit[i])
           && raised[i].id == uuid(i + 1) && raised[i].teenId == teen.id
           && raised[i].parentId == teen.parentId
           && raised[i].message == EnterMessage(teen.name, hit[i].name)
           && raised[i].kind == GeofenceEnter && !raised[i].isRead && raised[i].createdAt == now
  {
    var fences := Select(st.geofences, GeofenceOf(teen.id), GeofenceCap);
    var hit := Filter(fences, within);
    var raised := RaisedAlerts(st, teen.id, within, uuid, now);
    assert raised == GeofenceAlerts(teen, fences, within, uuid, 1, now);
    GeofenceAlertsSpec(teen, fences, within, uuid, 1, now);
    forall i | 0 <= i < |raised|
      ensures hit[i] in st.geofences && hit[i].teenId == teen.id && within(hit[i])
      ensures raised[i].id == uuid(i + 1) && raised[i].teenId == teen.id
      ensures raised[i].parentId == teen.parentId
      ensures raised[i].message == EnterMessage(teen.name, hit[i].name)
      ensures raised[i].kind == GeofenceEnter && !raised[i].isRead && raised[i].createdAt == now
    {
      assert raised[i] == EnterAlert(teen, hit[i], uuid(1 + i), now);
    }
  }

  lemma {:induction false} GeofenceAlertsSpec(teen: Teen, fences: seq<Geofence>, within: Geofence -> bool,
                                              uuid: nat -> Id, next: nat, now: Timestamp)
    ensures var raised := GeofenceAlerts(teen, fences, within, uuid, next, now);
      var hit := Filter(fences, within);
      && |raised| == |hit|
      && forall i :: 0 <= i < |raised| ==>
           && hit[i] in fences && within(hit[i])
           && raised[i].id == uuid(next + i) && raised[i].teenId == teen.id
           && raised[i].kind == GeofenceEnter && !raised[i].isRead && raised[i].createdAt == now
           && raised[i].parentId == teen.parentId
           && raised[i].message == EnterMessage(teen.name, hit[i].name)
  {
    var hit := Filter(fences, within);
    var raised := GeofenceAlerts(teen, fences, within, uuid, next, now);
    forall i | 0 <= i < |hit|
      ensures hit[i] in fences && within(hit[i])
      ensures raised[i] == EnterAlert(teen, hit[i], uuid(next + i), now)
    {
      assert hit[i] in hit;
    }
  }

  /** `get_teen_locations`: the teen's `limit` newest fixes, newest first. */
  function GetTeenLocations(st: Store, teenId: Id, parentId: Id, limit: nat): (r: Response<seq<Location>>)
    ensures r.Err? <==> !Owns(st, parentId, teenId)
    ensures r.Err? ==> r == Err(404, TeenNotFound)
    ensures r.Ok? ==>
      var mine := Filter(st.locations, LocationOf(teenId));
      && |r.body| == Min(limit, |mine|)
      && Descending(r.body, LocationTime)
      && multiset(r.body) <= multiset(mine)
      && (|mine| <= limit ==> multiset(r.body) == multiset(mine))
      && (forall l :: l in r.body ==> l in st.locations && l.teenId == teenId)
      && forall x, y :: x in multiset(mine) - multiset(r.body) && y in r.body ==> x.timestamp <= y.timestamp
  {
    if FindOwnedTeen(st, teenId, parentId).None? then Err(404, TeenNotFound)
    else
      Ok(NewestMatching(st.locations, LocationOf(teenId), LocationTime, limit))
  }

  /** `get_current_location`: the teen's newest fix; 404 when the caller does
      not own the teen, or when the teen has reported nothing. */
  function GetCurrentLocation(st: Store, teenId: Id, parentId: Id): (r: Response<Location>)
    ensures !Owns(st, parentId, teenId) <==> r == Err(404, TeenNotFound)
    ensures Owns(st, parentId, teenId) ==>
      (r == Err(404, NoLocation) <==> forall l :: l in st.locations ==> l.teenId != teenId)
    ensures r.Err? ==> r == Err(404, TeenNotFound) || r == Err(404, NoLocation)
    ensures r.Ok? ==>
      && r.body in st.locations && r.body.teenId == teenId
      && forall l :: l in st.locations && l.teenId == teenId ==> l.timestamp <= r.body.timestamp
  {
    if FindOwnedTeen(st, teenId, parentId).None? then Err(404, TeenNotFound)
    else
      var mine := Filter(st.locations, LocationOf(teenId));
      if |mine| == 0 then Err(404, NoLocation)
      else
        NewestIsFirst(mine, LocationTime);
        Ok(NewestFirst(mine, LocationTime, 1)[0])
  }

  /** `create_geofence`: store the geofence if the caller owns its teen. */
  function CreateGeofence(st: Store, parentId: Id, input: GeofenceCreate, newId: Id, now: Timestamp)
    : (s: Step<Geofence>)
    ensures s.response.Err? <==> !Owns(st, parentId, input.teenId)
    ensures s.response.Err? ==> s == Step(st, Err(404, TeenNotFound))
    ensures s.response.Ok? ==>
      && s.store == st.(geofences := st.geofences + [s.response.body])
      && s.response.body == Geofence(newId, input.teenId, input.name, input.latitude, input.longitude,
                                     input.radius, input.kind, input.notifyOnEnter, input.notifyOnExit, now)
  {
    if FindOwnedTeen(st, input.teenId, parentId).None? then Step(st, Err(404, TeenNotFound))
    else
      var fence := Geofence(newId, input.teenId, input.name, input.latitude, input.longitude,
                            input.radius, input.kind, input.notifyOnEnter, input.notifyOnExit, now);
      Step(st.(geofences := st.geofences + [fence]), Ok(fence))
  }

  /** `get_teen_geofences`: the owned teen's first `GeofenceCap` geofences. */
  function GetTeenGeofences(st: Store, teenId: Id, parentId: Id): (r: Response<seq<Geofence>>)
    ensures r.Err? <==> !Owns(st, parentId, teenId)
    ensures r.Err? ==> r == Err(404, TeenNotFound)
    ensures r.Ok? ==>
      var mine := Filter(st.geofences, GeofenceOf(teenId));
      && |r.body| == Min(GeofenceCap, |mine|)
      && r.body == mine[..|r.body|]
      && (|mine| <= GeofenceCap ==> r.body == mine)
    ensures r.Ok? ==> forall g :: g in r.body ==> g in st.geofences && g.teenId == teenId
    ensures r.Ok? && |r.body| < GeofenceCap ==>
      forall g :: g in st.geofences && g.teenId == teenId ==> g in r.body
  {
    if FindOwnedTeen(st, teenId, parentId).None? then Err(404, TeenNotFound)
    else Ok(Select(st.geofences, GeofenceOf(teenId), GeofenceCap))
  }

  /** The uuids drawn for alerts are distinct and new to the alerts collection. */
  ghost predicate FreshAlertIds(st: Store, uuid: nat -> Id) {
    && (forall i, j :: 1 <= i < j ==> uuid(i) != uuid(j))
    && (forall i, a :: 1 <= i && a in st.alerts ==> a.id != uuid(i))
  }

  /** Reporting a location keeps alert ids unique, and touches nothing else
      the invariant is about. */
  lemma {:induction false} CreateLocationKeepsValid(st: Store, input: LocationCreate, within: Geofence -> bool,
                                                    uuid: nat -> Id, now: Timestamp)
    requires Valid(st)
    requires FreshAlertIds(st, uuid)
    ensures Valid(CreateLocation(st, input, within, uuid, now).store)
  {
    var s := CreateLocation(st, input, within, uuid, now);
    if s.response.Ok? {
      var raised := RaisedAlerts(st, input.teenId, within, uuid, now);
      RaisedAlertsSpec(st, FindTeen(st, input.teenId).value, within, uuid, now);
      AppendFreshAlerts(st.alerts, raised, uuid);
    }
  }

  /** Appending alerts numbered `uuid(1)`, `uuid(2)`, ... keeps ids unique. */
  lemma {:induction false} AppendFreshAlerts(alerts: seq<Alert>, raised: seq<Alert>, uuid: nat -> Id)
    requires UniqueBy(alerts, AlertId)
    requires forall i :: 0 <= i < |raised| ==> raised[i].id == uuid(i + 1)
    requires forall i, j :: 1 <= i < j ==> uuid(i) != uuid(j)
    requires forall i, a :: 1 <= i && a in alerts ==> a.id != uuid(i)
    ensures UniqueBy(alerts + raised, AlertId)
  {
    var a := alerts + raised;
    var n := |alerts|;
    forall i, j | 0 <= i < j < |a|
      ensures AlertId(a[i]) != AlertId(a[j])
    {
      if j < n {
        assert a[i] == alerts[i] && a[j] == alerts[j];
      } else if i < n {
        assert a[i] in alerts;
        assert a[j] == raised[j - n];
      } else {
        assert a[i] == raised[i - n] && a[j] == raised[j - n];
      }
    }
  }
}
