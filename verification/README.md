# Parental-monitoring backend: record-store model

This project models the REST backend of a parental-monitoring app
(`backend/server.py`, FastAPI over MongoDB). Parents register and log in.
They create profiles for their teens and read everything the teens'
devices report: locations, app usage and web history. They set geofences
and app controls, and they read and acknowledge alerts.

Every endpoint becomes a pure function over an immutable `Store`. The store
holds one sequence per Mongo collection, with documents in insertion order.
A writing endpoint returns a `Step`: the store after the call plus its
response. A reading endpoint returns a `Response`: a body, or the status and
detail of the `HTTPException` it raises.

The Mongo operations the handlers use are modelled in `Query`:

- `find_one` is the first matching document (`FindFirst`, `FindOne`).
- `find(...).to_list(n)` is the first `n` matches (`Select`).
- `update_one` rewrites the first match (`UpdateFirst`).
- `sort(key, -1).limit(n)` gives the `n` newest matches, newest first
  (`NewestFirst`, `NewestMatching`). Mongo leaves the order of equal
  timestamps open, and so do these contracts.

Values the server draws itself enter as parameters:

- the caller's parent id (what `get_current_parent` decodes from the bearer token);
- new uuids (`newId`, or `uuid: nat -> Id` for `create_location`, which draws several);
- the current instant `now` and the local date `today`;
- the password hash (`hash`, standing for SHA-256 hex);
- the geofence distance test (`within`).

`Database.Valid` is the uniqueness the handlers maintain. It requires:

- one parent per email;
- one app-usage record per (teen, package, date);
- one app control per (teen, package);
- one web-history record per (teen, URL);
- distinct ids wherever a document is updated through its id.

Every endpoint that writes a collection `Valid` constrains is proved to
preserve it, given that the uuids it draws are new. The upsert properties are proved under `Valid`.

Modules, in dependency order:

- `Common`: ids, timestamps, `Option`, `Response`, the error details.
- `Records`: the pydantic models and request bodies, and their lookup keys.
- `Query`: the Mongo operations.
- `Database`: the store, the teen lookups and `Valid`.
- `Auth`: register, login and `verify_password`.
- `Teens`: creating and reading teen profiles.
- `Tracking`: locations, geofences and geofence alerts.
- `Usage`: app usage and app controls.
- `Browsing`: web history.
- `Alerts`: listing and acknowledging alerts.
- `Dashboard`: the dashboard read.

## Model

| member | source | states |
|---|---|---|
| Query.Select | backend/server.py:262 | `to_list(cap)` gives the first `min(cap, matches)` matching documents, in insertion order, each stored and matching; when there are at most `cap` matches it gives all of them |
| Query.FindOne | backend/server.py:207 | `find_one` gives a stored matching document, and finds nothing exactly when no document matches |
| Query.FindFirst | backend/server.py:267 | the index `find_one` lands on: the first matching position, with no match before it; none exactly when nothing matches |
| Query.UpdateFirst | backend/server.py:376-379 | `update_one` keeps the length; only the first matching document is rewritten and every other one keeps its place and value |
| Query.FilterCounts | backend/server.py:321 | `find(query)` keeps each matching document exactly as often as it is stored and drops every other one |
| Query.SortByKey | backend/server.py:321 | `sort(key, -1)` returns a permutation of its input that is newest first |
| Query.NewestFirst | backend/server.py:321 | `sort(key, -1).limit(n)` gives `min(n, size)` documents, newest first, drawn from the input; every document left out is no newer than every one returned |
| Query.NewestMatching | backend/server.py:473 | `min(limit, matches)` of the matching documents, newest first, as a sub-multiset of the matches, so none appears more often than it is stored; all of the matches when there are at most `limit`; none left out newer than one returned |
| Query.NewestIsFirst | backend/server.py:331 | `find_one(..., sort=[(key, -1)])` gives a stored document no older than any other |
| Database.FindTeen | backend/server.py:276-278 | the device-side teen lookup finds nothing exactly when no teen has the id |
| Database.FindOwnedTeen | backend/server.py:267-269 | the ownership lookup finds nothing exactly when the caller has no teen with the id |
| Auth.Register | backend/server.py:204-228 | fails (400 "Email already registered", store unchanged) exactly when the email is already stored; otherwise appends one parent with the hashed password, changes no other collection, and returns a 7-day token and the parent's id, email and name |
| Auth.Login | backend/server.py:230-244 | every failure is 401 "Invalid credentials"; an unknown email fails; a success names a stored parent with that email whose hash verifies, and returns its token and summary |
| Auth.LoginSucceedsIff | backend/server.py:184-185 | with unique emails, login succeeds exactly when some stored parent has the email and the hash of the given password (`verify_password`) |
| Auth.RegisterKeepsValid | backend/server.py:207-209 | registration keeps emails unique |
| Auth.RegisterThenLogin | backend/server.py:204-244 | the credentials just registered log in and return a token for the new id |
| Auth.RegisterTwiceFails | backend/server.py:207-209 | a second registration with the same email is refused with 400 and changes nothing |
| Teens.CreateTeen | backend/server.py:247-258 | always succeeds and appends exactly the returned profile, owned by the caller, with the given fields and empty limits and schedule; nothing else changes |
| Teens.GetTeens | backend/server.py:260-263 | the first `min(100, n)` of the caller's `n` profiles, in insertion order; all of them when there are at most 100 |
| Teens.GetTeen | backend/server.py:265-271 | 404 "Teen not found" exactly when the caller owns no teen with the id; otherwise that owned profile |
| Teens.CreateThenGetTeen | backend/server.py:247-271 | a created profile with a new id reads back for its parent and is 404 for any other parent |
| Tracking.CreateLocation | backend/server.py:273-312 | 404 and nothing stored exactly when the teen does not exist, with no ownership check; otherwise the fix is appended with id `uuid(0)`, alerts are appended, and no other collection changes |
| Tracking.RaisedAlertsSpec | backend/server.py:284-299 | one alert per geofence, among the teen's first 100, that contains the fix, in order: unread, `geofence_enter`, for the teen's parent, message "<teen> entered <geofence>", ids `uuid(1)`, `uuid(2)`, ... |
| Tracking.GeofenceAlertsSpec | backend/server.py:285-299 | one alert per geofence that contains the fix, in geofence order, with consecutive uuids and the enter message |
| Tracking.CreateLocationKeepsValid | backend/server.py:292-299 | with new, distinct alert uuids, reporting a location keeps alert ids unique |
| Tracking.GetTeenLocations | backend/server.py:314-322 | 404 exactly when not owned; otherwise `min(limit, n)` of the teen's `n` fixes, newest first, no fix repeated beyond its stored copies, all of them when `n <= limit`, none left out newer than one shown |
| Tracking.GetCurrentLocation | backend/server.py:324-336 | 404 "Teen not found" exactly when not owned; for an owned teen, 404 "No location data found" exactly when it has no fixes; no other error; otherwise a fix of the teen no older than any other |
| Tracking.CreateGeofence | backend/server.py:338-347 | 404 with store unchanged exactly when not owned; otherwise appends exactly the returned geofence with the given fields |
| Tracking.GetTeenGeofences | backend/server.py:349-357 | 404 exactly when not owned; the first `min(100, n)` of the teen's `n` geofences, in insertion order; all of them when there are at most 100 |
| Usage.CreateAppUsage | backend/server.py:360-385 | 404 with store unchanged exactly when the teen does not exist; reports `updated` exactly when (teen, package, date) is already recorded, and then keeps the count and returns that record's id; otherwise appends the new record and reports `created` with the new id; only app usage changes |
| Usage.AppUsageReplaces | backend/server.py:374-379 | a repeated report overwrites the minutes of that record and does not add to them; it keeps the id and changes no other record |
| Usage.CreateAppUsageKeepsValid | backend/server.py:367-385 | the usage upsert keeps (teen, package, date) and ids unique |
| Usage.GetTeenAppUsage | backend/server.py:387-399 | 404 exactly when not owned; the first `min(1000, n)` of the teen's `n` records, in insertion order, filtered by date only when a non-empty date is given; all of them when there are at most 1000 |
| Usage.CreateAppControl | backend/server.py:402-427 | 404 exactly when not owned; an existing (teen, package) control is updated without growing the collection and keeps its id; otherwise a new control with defaults for unsent fields is appended; only app controls change |
| Usage.AppControlUpdatesInPlace | backend/server.py:415-422 | the existing control is rewritten in place: same id and creation time, sent fields overwrite, unsent fields stay, other controls unchanged, and the re-read control is returned |
| Usage.CreateAppControlKeepsValid | backend/server.py:409-427 | the control upsert keeps (teen, package) and ids unique |
| Usage.GetTeenAppControls | backend/server.py:429-437 | 404 exactly when not owned; the first `min(1000, n)` of the teen's `n` controls, in insertion order; all of them when there are at most 1000 |
| Browsing.CreateWebHistory | backend/server.py:440-464 | 404 with store unchanged exactly when the teen does not exist; `updated` exactly when (teen, URL) was visited before, whatever the day, and then the record's id is returned; otherwise a record with visit count 1 is appended; only web history changes |
| Browsing.RevisitCountsOne | backend/server.py:453-458 | a repeated visit adds exactly one to that record's count, sets its timestamp, keeps its id and title, and changes no other record |
| Browsing.CreateWebHistoryKeepsValid | backend/server.py:447-464 | the history upsert keeps (teen, URL) and ids unique |
| Browsing.TwoVisitsCountTwo | backend/server.py:440-464 | two visits to a new URL leave one record, with the first id and a count of 2 |
| Browsing.GetTeenWebHistory | backend/server.py:466-474 | 404 exactly when not owned; otherwise `min(limit, n)` of the teen's `n` visits, newest first, no record repeated beyond its stored copies, all of them when `n <= limit`, none left out newer than one shown |
| Alerts.GetAlerts | backend/server.py:477-484 | `min(100, n)` of the caller's `n` alerts (only unread ones when asked), newest first, no alert repeated beyond its stored copies, all of them when `n <= 100`, none left out newer than one shown |
| Alerts.MarkAlertRead | backend/server.py:486-494 | every failure is 404 "Alert not found" with the store unchanged; a success sets the read flag of an unread alert with that id owned by the caller; the call fails whenever the caller has no such unread alert |
| Alerts.MarkAlertReadExactly | backend/server.py:486-494 | with unique alert ids, it succeeds exactly when the caller has that alert unread, and only that alert's read flag changes |
| Alerts.MarkAlertReadKeepsValid | backend/server.py:488-491 | acknowledging an alert keeps alert ids unique |
| Alerts.MarkAlertReadTwice | backend/server.py:488-493 | acknowledging the same alert again modifies nothing and is answered 404 |
| Alerts.ReadAlertNotListedUnread | backend/server.py:477-494 | an acknowledged alert no longer appears in the unread listing |
| Dashboard.TodayUsage | backend/server.py:507 | the first `min(1000, n)` of the teen's `n` records dated today, in insertion order; all of them when there are at most 1000 |
| Dashboard.RecentLocations | backend/server.py:511 | `min(10, n)` of the teen's `n` fixes, newest first, no fix repeated beyond its stored copies, none left out newer than one shown: the 10 newest |
| Dashboard.RecentHistory | backend/server.py:514 | `min(20, n)` of the teen's `n` visits, newest first, no record repeated beyond its stored copies, none left out newer than one shown: the 20 most recent |
| Dashboard.UnreadAlerts | backend/server.py:520 | the first `min(100, n)` of the caller's `n` unread alerts about the teen, in insertion order; all of them when there are at most 100 |
| Dashboard.GetDashboard | backend/server.py:497-530 | 404 exactly when not owned; otherwise the owned teen, screen time as the total of the usage shown, and usage, locations, history and geofences equal to the answers of the per-teen endpoints |
| Dashboard.ScreenTimeAfterFirstReport | backend/server.py:507-508 | a first report of an app today adds its minutes to the dashboard's screen time |
| Dashboard.ScreenTimeAfterRevision | backend/server.py:507-508 | a repeated report of an app today changes screen time by the new minutes minus the old ones |
| Dashboard.TotalAfterReplace | backend/server.py:508 | replacing one of today's records by another of today's changes the total by the difference of their minutes |

## Left out

- JWT encoding and decoding: `get_current_parent` is the `parentId` parameter. The 401s for an expired or invalid token are not modelled. A token is modelled as its claims, the parent and the expiry.
- SHA-256 is not computed: `hash_password` is the parameter `hash`.
- Tracking.CreateLocation: the Euclidean degree distance times 111000, compared with the radius, is the oracle `within`. The floating-point arithmetic is not modelled.
- The websocket connection manager and the real-time `geofence_alert` push after each alert are left out: they are I/O. A push that succeeds, or finds the parent offline, leaves the store alone.
- Tracking.CreateLocation: always answers success with one alert per matching geofence. In the source, a push that raises (backend/server.py:301-310) ends the request with a 500 after the fix and the earlier alerts are stored, and the later geofences raise no alert. Failing pushes are not modelled.
- CORS, logging, the Mongo client setup and shutdown, the router wiring and pydantic validation of request bodies are left out. A body the handlers receive is taken to be well-formed.
- `uuid4()` and `datetime.utcnow()` are parameters. Timestamps are whole seconds; sub-second order is not modelled.
- Tracking.GetTeenLocations and Browsing.GetTeenWebHistory take `limit` as a count of documents to return. The driver's own readings of a zero or negative `limit` are not modelled. The query's default of 100 is the caller's to pass.
- Query.NewestFirst: for equal timestamps, the contracts do not fix which document comes first, and neither does MongoDB.
- Dashboard.GetDashboard: `today` is a parameter, the server's local date. The contract relates the unread alerts to `Dashboard.UnreadAlerts`, because no other endpoint filters alerts by teen.
- Concurrency between requests is not modelled. Each call is one atomic step, so races between the `find_one` and the `insert_one` of an upsert are out of scope. Those races could create duplicate keys.
- The properties of the `update_one`-by-id branches assume the `Valid` uniqueness. The functions themselves follow the code on any store.

## Notes on the source

- The web-history upsert looks records up by teen and URL only, although its comment speaks of "today". A URL visited on any later day increments the same record. The model follows the code (`Records.HistoryKey`, `Browsing.CreateWebHistory`).
- `mark_alert_read` answers 404 whenever `modified_count` is 0. That includes an alert the caller already acknowledged (`Alerts.MarkAlertReadTwice`).
- `create_location` raises a `geofence_enter` alert for every fix that lies inside a geofence, among the teen's first 100 geofences (backend/server.py:284). It does not remember earlier fixes, so a teen who stays inside a geofence raises one alert per report.
- The device-facing endpoints (`/locations`, `/app-usage`, `/web-history`) check only that the teen exists, not who calls.
