/** App usage reports and app controls (`/app-usage`, `/app-controls` and
    the per-teen reads). Both are upserts: usage on (teen, package, date),
    controls on (teen, package). */
module Usage {
  import opened Common
  import opened Records
  import opened Query
  import opened Database

  /** Usage records read per request (`to_list(1000)`). */
  const UsageListCap: nat := 1000

  /** App controls read per request (`to_list(1000)`). */
  const ControlListCap: nat := 1000

  // App usage

  function UsageWithKey(teenId: Id, packageName: string, date: string): AppUsage -> bool {
    (u: AppUsage) => u.teenId == teenId && u.packageName == packageName && u.date == date
  }

  function UsageWithId(id: Id): AppUsage -> bool {
    (u: AppUsage) => u.id == id
  }

  /** The `$set` of a repeated report: the new total replaces the old one. */
  function SetUsage(usageTime: int, now: Timestamp): AppUsage -> AppUsage {
    (u: AppUsage) => u.(usageTime := usageTime, lastUsed := now)
  }

  ghost predicate UsageRecorded(st: Store, teenId: Id, packageName: string, date: string) {
    exists u :: u in st.appUsage && UsageKey(u) == (teenId, packageName, date)
  }

  /** `create_app_usage`: for a known teen, overwrite the usage recorded for
      the same package and date, or insert a new record. */
  function CreateAppUsage(st: Store, input: AppUsageCreate, newId: Id, now: Timestamp): (s: Step<Upserted>)
    ensures s.response.Err? <==> !TeenExists(st, input.teenId)
    ensures s.response.Err? ==> s == Step(st, Err(404, TeenNotFound))
    ensures s.response.Ok? ==> s.store == st.(appUsage := s.store.appUsage)
    ensures s.response.Ok? ==>
      (s.response.body.status == Updated <==> UsageRecorded(st, input.teenId, input.packageName, input.date))
    ensures s.response.Ok? && s.response.body.status == Created ==>
      && s.response.body.id == newId
      && s.store.appUsage == st.appUsage
           + [AppUsage(newId, input.teenId, input.appName, input.packageName, input.usageTime, input.date, now)]
    ensures s.response.Ok? && s.response.body.status == Updated ==>
      && |s.store.appUsage| == |st.appUsage|
      && exists u :: && u in st.appUsage && u.id == s.response.body.id
                     && UsageKey(u) == (input.teenId, input.packageName, input.date)
  {
    if FindTeen(st, input.teenId).None? then Step(st, Err(404, TeenNotFound))
    else
      match FindOne(st.appUsage, UsageWithKey(input.teenId, input.packageName, input.date))
      case Some(existing) =>
        var usage := UpdateFirst(st.appUsage, UsageWithId(existing.id), SetUsage(input.usageTime, now));
        Step(st.(appUsage := usage), Ok(Upserted(Updated, existing.id)))
      case None =>
        var usage := AppUsage(newId, input.teenId, input.appName, input.packageName, input.usageTime, input.date, now);
        Step(st.(appUsage := st.appUsage + [usage]), Ok(Upserted(Created, newId)))
  }

  /** A repeated report for a recorded (teen, package, date) replaces that
      record's minutes (it does not add to them), keeps its id, and changes
      no other record. */
  lemma {:induction false} AppUsageReplaces(st: Store, input: AppUsageCreate, newId: Id, now: Timestamp, k: nat)
    requires Valid(st) && TeenExists(st, input.teenId)
    requires k < |st.appUsage| && UsageKey(st.appUsage[k]) == (input.teenId, input.packageName, input.date)
    ensures var s := CreateAppUsage(st, input, newId, now);
      && s.response == Ok(Upserted(Updated, st.appUsage[k].id))
      && s.store.appUsage == st.appUsage[k := st.appUsage[k].(usageTime := input.usageTime, lastUsed := now)]
  {
    var p := UsageWithKey(input.teenId, input.packageName, input.date);
    FindFirstOfUnique(st.appUsage, UsageKey, p, k);
    UpdateById(st.appUsage, UsageId, k, UsageWithId(st.appUsage[k].id), SetUsage(input.usageTime, now));
  }

  /** Upserting usage keeps (teen, package, date) and ids unique, given a
      new id for an inserted record. */
  lemma {:induction false} CreateAppUsageKeepsValid(st: Store, input: AppUsageCreate, newId: Id, now: Timestamp)
    requires Valid(st)
    requires forall u :: u in st.appUsage ==> u.id != newId
    ensures Valid(CreateAppUsage(st, input, newId, now).store)
  {
    var s := CreateAppUsage(st, input, newId, now);
    if s.response.Ok? {
      var p := UsageWithKey(input.teenId, input.packageName, input.date);
      match FindFirst(st.appUsage, p)
      case Some(k) =>
        UpdateById(st.appUsage, UsageId, k, UsageWithId(st.appUsage[k].id), SetUsage(input.usageTime, now));
        var u := st.appUsage[k];
        UniqueReplace(st.appUsage, UsageKey, k, SetUsage(input.usageTime, now)(u));
        UniqueReplace(st.appUsage, UsageId, k, SetUsage(input.usageTime, now)(u));
      case None =>
        var u := s.store.appUsage[|st.appUsage|];
        UniqueAppend(st.appUsage, UsageKey, u);
        UniqueAppend(st.appUsage, UsageId, u);
    }
  }

  /** `get_teen_app_usage`: the owned teen's usage records, only those of
      `date` when a non-empty date is given, at most `UsageListCap`. */
  function GetTeenAppUsage(st: Store, teenId: Id, parentId: Id, date: Option<string>): (r: Response<seq<AppUsage>>)
    ensures r.Err? <==> !Owns(st, parentId, teenId)
    ensures r.Err? ==> r == Err(404, TeenNotFound)
    ensures r.Ok? ==>
      var mine := Filter(st.appUsage, UsageQuery(teenId, date));
      && |r.body| == Min(UsageListCap, |mine|)
      && r.body == mine[..|r.body|]
      && (|mine| <= UsageListCap ==> r.body == mine)
    ensures r.Ok? ==> forall u :: u in r.body ==>
      && u in st.appUsage && u.teenId == teenId
      && (date.Some? && date.value != "" ==> u.date == date.value)
    ensures r.Ok? && |r.body| < UsageListCap ==> forall u :: u in st.appUsage && u.teenId == teenId ==>
      (date.None? || date.value == "" || u.date == date.value) ==> u in r.body
  {
    if FindOwnedTeen(st, teenId, parentId).None? then Err(404, TeenNotFound)
    else Ok(Select(st.appUsage, UsageQuery(teenId, date), UsageListCap))
  }

  /** The `get_teen_app_usage` query: the teen's records, only those of
      `date` when one is given; `if date:` treats an empty date as none. */
  function UsageQuery(teenId: Id, date: Option<string>): AppUsage -> bool {
    if date.Some? && date.value != "" then UsageOn(teenId, date.value) else UsageOf(teenId)
  }

  function UsageOf(teenId: Id): AppUsage -> bool {
    (u: AppUsage) => u.teenId == teenId
  }

  function UsageOn(teenId: Id, date: string): AppUsage -> bool {
    (u: AppUsage) => u.teenId == teenId && u.date == date
  }

  // App controls

  function ControlWithKey(teenId: Id, packageName: string): AppControl -> bool {
    (c: AppControl) => c.teenId == teenId && c.packageName == packageName
  }

  function ControlWithId(id: Id): AppControl -> bool {
    (c: AppControl) => c.id == id
  }

  /** `$set` of the fields the client sent (`exclude_unset=True`). */
  function ApplyControl(input: AppControlCreate): AppControl -> AppControl {
    (c: AppControl) => c.(teenId := input.teenId, packageName := input.packageName,
                          isBlocked := input.isBlocked.GetOr(c.isBlocked),
                          timeLimit := input.timeLimit.GetOr(c.timeLimit))
  }

  /** A new control: fields the client left out take their defaults (not
      blocked, no time limit). */
  function NewControl(input: AppControlCreate, newId: Id, now: Timestamp): AppControl {
    AppControl(newId, input.teenId, input.packageName, input.isBlocked.GetOr(false), input.timeLimit.GetOr(None), now)
  }

  ghost predicate ControlExists(st: Store, teenId: Id, packageName: string) {
    exists c :: c in st.appControls && ControlKey(c) == (teenId, packageName)
  }

  /** `create_app_control`: for an owned teen, update the control of the
      same package with the fields sent and return it re-read, or insert a
      new control. */
  function CreateAppControl(st: Store, parentId: Id, input: AppControlCreate, newId: Id, now: Timestamp)
    : (s: Step<AppControl>)
    ensures s.response.Err? <==> !Owns(st, parentId, input.teenId)
    ensures s.response.Err? ==> s == Step(st, Err(404, TeenNotFound))
    ensures s.response.Ok? ==> s.store == st.(appControls := s.store.appControls)
    ensures s.response.Ok? ==>
      && s.response.body in s.store.appControls
      && s.response.body.teenId == input.teenId && s.response.body.packageName == input.packageName
    ensures s.response.Ok? && !ControlExists(st, input.teenId, input.packageName) ==>
      && s.response.body == NewControl(input, newId, now)
      && s.store.appControls == st.appControls + [s.response.body]
    ensures s.response.Ok? && ControlExists(st, input.teenId, input.packageName) ==>
      && |s.store.appControls| == |st.appControls|
      && exists c :: && c in st.appControls && ControlKey(c) == (input.teenId, input.packageName)
                     && s.response.body.id == c.id
  {
    if FindOwnedTeen(st, input.teenId, parentId).None? then Step(st, Err(404, TeenNotFound))
    else
      match FindFirst(st.appControls, ControlWithKey(input.teenId, input.packageName))
      case Some(k) =>
        var existing := st.appControls[k];
        assert existing in st.appControls && ControlKey(existing) == (input.teenId, input.packageName);
        var controls := UpdateFirst(st.appControls, ControlWithId(existing.id), ApplyControl(input));
        FindAfterUpdate(st.appControls, ControlWithId(existing.id), ApplyControl(input));
        var j := FindFirst(controls, ControlWithId(existing.id)).value;
        assert controls[j] == ApplyControl(input)(st.appControls[j]);
        Step(st.(appControls := controls), Ok(controls[j]))
      case None =>
        var control := NewControl(input, newId, now);
        Step(st.(appControls := st.appControls + [control]), Ok(control))
  }

  /** An existing control for (teen, package) is updated in place: it keeps
      its id and creation time, takes the fields the client sent, keeps the
      others, and no other control changes. */
  lemma {:induction false} AppControlUpdatesInPlace(st: Store, parentId: Id, input: AppControlCreate, newId: Id,
                                                    now: Timestamp, k: nat)
    requires Valid(st) && Owns(st, parentId, input.teenId)
    requires k < |st.appControls| && ControlKey(st.appControls[k]) == (input.teenId, input.packageName)
    ensures var s := CreateAppControl(st, parentId, input, newId, now);
      var old_ := st.appControls[k];
      && s.response.Ok?
      && s.store.appControls == st.appControls[k := s.response.body]
      && s.response.body.id == old_.id && s.response.body.createdAt == old_.createdAt
      && ControlKey(s.response.body) == ControlKey(old_)
      && s.response.body.isBlocked == input.isBlocked.GetOr(old_.isBlocked)
      && s.response.body.timeLimit == input.timeLimit.GetOr(old_.timeLimit)
  {
    var p := ControlWithKey(input.teenId, input.packageName);
    FindFirstOfUnique(st.appControls, ControlKey, p, k);
    UpdateById(st.appControls, ControlId, k, ControlWithId(st.appControls[k].id), ApplyControl(input));
    var controls := st.appControls[k := ApplyControl(input)(st.appControls[k])];
    FindFirstOfUnique(controls, ControlId, ControlWithId(st.appControls[k].id), k) by {
      UniqueReplace(st.appControls, ControlId, k, controls[k]);
    }
  }

  /** Upserting a control keeps (teen, package) and ids unique, given a new
      id for an inserted control. */
  lemma {:induction false} CreateAppControlKeepsValid(st: Store, parentId: Id, input: AppControlCreate,
                                                      newId: Id, now: Timestamp)
    requires Valid(st)
    requires forall c :: c in st.appControls ==> c.id != newId
    ensures Valid(CreateAppControl(st, parentId, input, newId, now).store)
  {
    var s := CreateAppControl(st, parentId, input, newId, now);
    if s.response.Ok? {
      match FindFirst(st.appControls, ControlWithKey(input.teenId, input.packageName))
      case Some(k) =>
        AppControlUpdatesInPlace(st, parentId, input, newId, now, k);
        UniqueReplace(st.appControls, ControlKey, k, s.response.body);
        UniqueReplace(st.appControls, ControlId, k, s.response.body);
      case None =>
        UniqueAppend(st.appControls, ControlKey, s.response.body);
        UniqueAppend(st.appControls, ControlId, s.response.body);
    }
  }

  function ControlOf(teenId: Id): AppControl -> bool {
    (c: AppControl) => c.teenId == teenId
  }

  /** `get_teen_app_controls`: the owned teen's controls, at most `ControlListCap`. */
  function GetTeenAppControls(st: Store, teenId: Id, parentId: Id): (r: Response<seq<AppControl>>)
    ensures r.Err? <==> !Owns(st, parentId, teenId)
    ensures r.Err? ==> r == Err(404, TeenNotFound)
    ensures r.Ok? ==>
      var mine := Filter(st.appControls, ControlOf(teenId));
      && |r.body| == Min(ControlListCap, |mine|)
      && r.body == mine[..|r.body|]
      && (|mine| <= ControlListCap ==> r.body == mine)
    ensures r.Ok? ==> forall c :: c in r.body ==> c in st.appControls && c.teenId == teenId
    ensures r.Ok? && |r.body| < ControlListCap ==>
      forall c :: c in st.appControls && c.teenId == teenId ==> c in r.body
  {
    if FindOwnedTeen(st, teenId, parentId).None? then Err(404, TeenNotFound)
    else Ok(Select(st.appControls, ControlOf(teenId), ControlListCap))
  }
}
