/** Parent alerts (`/alerts` and `/alerts/{id}/read`). Alerts are raised by
    location updates (see `Tracking.CreateLocation`); a parent lists and
    acknowledges only its own. */
module Alerts {
  import opened Common
  import opened Records
  import opened Query
  import opened Database

  /** `get_alerts` reads at most this many alerts (`to_list(100)`). */
  const AlertListCap: nat := 100

  /** The status the handler answers a successful acknowledgement with. */
  const Success: string := "success"

  /** The `get_alerts` query: the parent's alerts, only unread ones when
      `unreadOnly`. */
  function AlertsFor(parentId: Id, unreadOnly: bool): Alert -> bool {
    (a: Alert) => a.parentId == parentId && (unreadOnly ==> !a.isRead)
  }

  /** The `mark_alert_read` query: that id, belonging to that parent. */
  function AlertOf(alertId: Id, parentId: Id): Alert -> bool {
    (a: Alert) => a.id == alertId && a.parentId == parentId
  }

  function MarkRead(a: Alert): Alert {
    a.(isRead := true)
  }

  ghost predicate HasUnread(st: Store, alertId: Id, parentId: Id) {
    exists a :: a in st.alerts && a.id == alertId && a.parentId == parentId && !a.isRead
  }

  /** `get_alerts`: the caller's alerts, newest first, at most
      `AlertListCap` of them. */
  function GetAlerts(st: Store, parentId: Id, unreadOnly: bool): (r: seq<Alert>)
    ensures |r| == Min(AlertListCap, |Filter(st.alerts, AlertsFor(parentId, unreadOnly))|)
    ensures Descending(r, AlertTime)
    ensures multiset(r) <= multiset(Filter(st.alerts, AlertsFor(parentId, unreadOnly)))
    ensures |Filter(st.alerts, AlertsFor(parentId, unreadOnly))| <= AlertListCap ==>
      multiset(r) == multiset(Filter(st.alerts, AlertsFor(parentId, unreadOnly)))
    ensures forall a :: a in r ==> a in st.alerts && a.parentId == parentId
    ensures unreadOnly ==> forall a :: a in r ==> !a.isRead
    ensures forall x, y :: x in multiset(Filter(st.alerts, AlertsFor(parentId, unreadOnly))) - multiset(r) && y in r
              ==> x.createdAt <= y.createdAt
  {
    var r := NewestMatching(st.alerts, AlertsFor(parentId, unreadOnly), AlertTime, AlertListCap);
    assert forall a :: a in r ==> AlertsFor(parentId, unreadOnly)(a);
    r
  }

  /** `mark_alert_read`: set `is_read` on the first alert with that id owned
      by the caller. The handler answers 404 whenever nothing was modified:
      when there is no such alert, and also when it was already read. */
  function MarkAlertRead(st: Store, alertId: Id, parentId: Id): (s: Step<string>)
    ensures s.response.Err? ==> s == Step(st, Err(404, AlertNotFound))
    ensures s.response.Ok? ==> s.response.body == Success && exists k ::
      && 0 <= k < |st.alerts|
      && st.alerts[k].id == alertId && st.alerts[k].parentId == parentId && !st.alerts[k].isRead
      && s.store == st.(alerts := st.alerts[k := st.alerts[k].(isRead := true)])
    ensures !HasUnread(st, alertId, parentId) ==> s.response.Err?
  {
    match FindFirst(st.alerts, AlertOf(alertId, parentId))
    case None => Step(st, Err(404, AlertNotFound))
    case Some(k) =>
      if st.alerts[k].isRead then Step(st, Err(404, AlertNotFound))
      else Step(st.(alerts := UpdateFirst(st.alerts, AlertOf(alertId, parentId), MarkRead)), Ok(Success))
  }

  /** With unique alert ids, acknowledgement succeeds exactly when the caller
      has that alert unread, and it changes that alert's read flag and no
      other alert. */
  lemma {:induction false} MarkAlertReadExactly(st: Store, alertId: Id, parentId: Id)
    requires Valid(st)
    ensures var s := MarkAlertRead(st, alertId, parentId);
      && (s.response.Ok? <==> HasUnread(st, alertId, parentId))
      && |s.store.alerts| == |st.alerts|
      && forall i :: 0 <= i < |st.alerts| ==>
           s.store.alerts[i] == if st.alerts[i].id == alertId && s.response.Ok?
                                then st.alerts[i].(isRead := true) else st.alerts[i]
  {
    if a :| a in st.alerts && a.id == alertId && a.parentId == parentId && !a.isRead {
      var k :| 0 <= k < |st.alerts| && st.alerts[k] == a;
      FindFirstOfUnique(st.alerts, AlertId, AlertOf(alertId, parentId), k);
    }
  }

  /** Acknowledgement keeps alert ids unique. */
  lemma {:induction false} MarkAlertReadKeepsValid(st: Store, alertId: Id, parentId: Id)
    requires Valid(st)
    ensures Valid(MarkAlertRead(st, alertId, parentId).store)
  {
    var s := MarkAlertRead(st, alertId, parentId);
    if s.response.Ok? {
      var k :| && 0 <= k < |st.alerts|
               && st.alerts[k].id == alertId && st.alerts[k].parentId == parentId && !st.alerts[k].isRead
               && s.store == st.(alerts := st.alerts[k := st.alerts[k].(isRead := true)]);
      UniqueReplace(st.alerts, AlertId, k, st.alerts[k].(isRead := true));
    }
  }

  /** Acknowledging twice: the second request finds nothing left to modify
      and is answered 404. */
  lemma {:induction false} MarkAlertReadTwice(st: Store, alertId: Id, parentId: Id)
    requires Valid(st)
    requires MarkAlertRead(st, alertId, parentId).response.Ok?
    ensures var s := MarkAlertRead(st, alertId, parentId);
      MarkAlertRead(s.store, alertId, parentId) == Step(s.store, Err(404, AlertNotFound))
  {
    var s := MarkAlertRead(st, alertId, parentId);
    MarkAlertReadExactly(st, alertId, parentId);
    forall a | a in s.store.alerts && a.id == alertId && a.parentId == parentId
      ensures a.isRead
    {
      var i :| 0 <= i < |s.store.alerts| && s.store.alerts[i] == a;
    }
  }

  /** An acknowledged alert drops out of the unread listing. */
  lemma {:induction false} ReadAlertNotListedUnread(st: Store, alertId: Id, parentId: Id)
    requires Valid(st)
    requires MarkAlertRead(st, alertId, parentId).response.Ok?
    ensures var s := MarkAlertRead(st, alertId, parentId);
      forall a :: a in GetAlerts(s.store, parentId, true) ==> a.id != alertId
  {
    var s := MarkAlertRead(st, alertId, parentId);
    MarkAlertReadTwice(st, alertId, parentId);
    MarkAlertReadKeepsValid(st, alertId, parentId);
    MarkAlertReadExactly(s.store, alertId, parentId);
    assert !HasUnread(s.store, alertId, parentId);
    var listed := GetAlerts(s.store, parentId, true);
    forall a | a in listed
      ensures a.id != alertId
    {
      assert a in s.store.alerts && a.parentId == parentId && !a.isRead;
    }
  }
}
