/** The stored documents and the request bodies of the backend, one datatype
    per pydantic model. Fields the server fills with `uuid4()` or
    `utcnow()` are ordinary fields here; the endpoints receive their values
    as parameters. Coordinates and radii are stored, never computed with, so
    they are kept as `real`. */
module Records {
  import opened Common

  datatype Parent = Parent(
    id: Id,
    email: string,
    passwordHash: string,
    name: string,
    createdAt: Timestamp)

  datatype Teen = Teen(
    id: Id,
    name: string,
    parentId: Id,
    deviceId: string,
    phoneNumber: Option<string>,
    age: Option<int>,
    screenTimeLimits: map<string, int>,
    bedtimeSchedule: map<string, string>,
    createdAt: Timestamp)

  datatype Location = Location(
    id: Id,
    teenId: Id,
    latitude: real,
    longitude: real,
    accuracy: Option<real>,
    address: Option<string>,
    timestamp: Timestamp)

  datatype Geofence = Geofence(
    id: Id,
    teenId: Id,
    name: string,
    latitude: real,
    longitude: real,
    radius: real,
    kind: string,
    notifyOnEnter: bool,
    notifyOnExit: bool,
    createdAt: Timestamp)

  /** Minutes spent in one app by one teen on one `YYYY-MM-DD` date. */
  datatype AppUsage = AppUsage(
    id: Id,
    teenId: Id,
    appName: string,
    packageName: string,
    usageTime: int,
    date: string,
    lastUsed: Timestamp)

  datatype AppControl = AppControl(
    id: Id,
    teenId: Id,
    packageName: string,
    isBlocked: bool,
    timeLimit: Option<int>,
    createdAt: Timestamp)

  datatype WebHistory = WebHistory(
    id: Id,
    teenId: Id,
    url: string,
    title: string,
    visitCount: int,
    timestamp: Timestamp)

  datatype Alert = Alert(
    id: Id,
    parentId: Id,
    teenId: Id,
    kind: string,
    message: string,
    isRead: bool,
    createdAt: Timestamp)

  // Request bodies

  datatype ParentCreate = ParentCreate(email: string, password: string, name: string)

  datatype ParentLogin = ParentLogin(email: string, password: string)

  datatype TeenCreate = TeenCreate(
    name: string,
    deviceId: string,
    phoneNumber: Option<string>,
    age: Option<int>)

  datatype LocationCreate = LocationCreate(
    teenId: Id,
    latitude: real,
    longitude: real,
    accuracy: Option<real>,
    address: Option<string>)

  datatype GeofenceCreate = GeofenceCreate(
    teenId: Id,
    name: string,
    latitude: real,
    longitude: real,
    radius: real,
    kind: string,
    notifyOnEnter: bool,
    notifyOnExit: bool)

  datatype AppUsageCreate = AppUsageCreate(
    teenId: Id,
    appName: string,
    packageName: string,
    usageTime: int,
    date: string)

  /** A body field with a default: `Unset` when the client left it out. The
      app-control update only writes the fields the client set. */
  datatype Field<T> = Unset | Set(value: T) {
    function GetOr(default: T): T {
      match this
      case Set(v) => v
      case Unset => default
    }
  }

  datatype AppControlCreate = AppControlCreate(
    teenId: Id,
    packageName: string,
    isBlocked: Field<bool>,
    timeLimit: Field<Option<int>>)

  datatype WebHistoryCreate = WebHistoryCreate(teenId: Id, url: string, title: string)

  // Lookup keys

  function ParentEmail(p: Parent): string { p.email }
  function UsageId(u: AppUsage): Id { u.id }
  function ControlId(c: AppControl): Id { c.id }
  function HistoryId(h: WebHistory): Id { h.id }
  function AlertId(a: Alert): Id { a.id }

  /** App usage is looked up by teen, package and date. */
  function UsageKey(u: AppUsage): (Id, string, string) { (u.teenId, u.packageName, u.date) }

  /** App controls are looked up by teen and package. */
  function ControlKey(c: AppControl): (Id, string) { (c.teenId, c.packageName) }

  /** Web history is looked up by teen and URL only; there is no date. */
  function HistoryKey(h: WebHistory): (Id, string) { (h.teenId, h.url) }

  function LocationTime(l: Location): nat { l.timestamp }
  function HistoryTime(h: WebHistory): nat { h.timestamp }
  function AlertTime(a: Alert): nat { a.createdAt }
}
