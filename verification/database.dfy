/** The backend's MongoDB database as an immutable value: one sequence per
    collection, documents in insertion order. */
module Database {
  import opened Common
  import opened Records
  import opened Query

  datatype Store = Store(
    parents: seq<Parent>,
    teens: seq<Teen>,
    locations: seq<Location>,
    geofences: seq<Geofence>,
    appUsage: seq<AppUsage>,
    appControls: seq<AppControl>,
    webHistory: seq<WebHistory>,
    alerts: seq<Alert>)

  const Empty := Store([], [], [], [], [], [], [], [])

  /** The result of a writing endpoint: the database after it, and its reply. */
  datatype Step<+T> = Step(store: Store, response: Response<T>)

  datatype UpsertStatus = Created | Updated

  /** The reply of an upserting endpoint: whether a record was created or an
      existing one updated, and that record's id. */
  datatype Upserted = Upserted(status: UpsertStatus, id: Id)

  // Teen lookups shared by every handler

  function HasTeenId(teenId: Id): Teen -> bool {
    (t: Teen) => t.id == teenId
  }

  function OwnedTeen(teenId: Id, parentId: Id): Teen -> bool {
    (t: Teen) => t.id == teenId && t.parentId == parentId
  }

  ghost predicate TeenExists(st: Store, teenId: Id) {
    exists t :: t in st.teens && t.id == teenId
  }

  /** The parent `parentId` has a teen with id `teenId`. */
  ghost predicate Owns(st: Store, parentId: Id, teenId: Id) {
    exists t :: t in st.teens && t.id == teenId && t.parentId == parentId
  }

  /** The teen with that id, whoever owns it: the lookup the device-facing
      ingestion endpoints make. */
  function FindTeen(st: Store, teenId: Id): (r: Option<Teen>)
    ensures r.None? <==> !TeenExists(st, teenId)
    ensures r.Some? ==> r.value in st.teens && r.value.id == teenId
  {
    FindOne(st.teens, HasTeenId(teenId))
  }

  /** The teen with that id owned by that parent: the ownership check
      in front of every parent-facing endpoint about one teen. */
  function FindOwnedTeen(st: Store, teenId: Id, parentId: Id): (r: Option<Teen>)
    ensures r.None? <==> !Owns(st, parentId, teenId)
    ensures r.Some? ==> r.value in st.teens && r.value.id == teenId && r.value.parentId == parentId
  {
    FindOne(st.teens, OwnedTeen(teenId, parentId))
  }

  /** The uniqueness the handlers maintain: one parent per email, one record
      per lookup key in each upserted collection, and distinct ids wherever a
      document is updated through its id. */
  ghost predicate Valid(st: Store) {
    && UniqueBy(st.parents, ParentEmail)
    && UniqueBy(st.appUsage, UsageKey)
    && UniqueBy(st.appUsage, UsageId)
    && UniqueBy(st.appControls, ControlKey)
    && UniqueBy(st.appControls, ControlId)
    && UniqueBy(st.webHistory, HistoryKey)
    && UniqueBy(st.webHistory, HistoryId)
    && UniqueBy(st.alerts, AlertId)
  }

  lemma EmptyIsValid()
    ensures Valid(Empty)
  {
  }
}
