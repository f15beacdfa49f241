/** Web history (`/web-history` and the per-teen read). Visits are upserted
    on (teen, URL) alone: a URL visited again on any later day bumps the same
    record's count. */
module Browsing {
  import opened Common
  import opened Records
  import opened Query
  import opened Database

  function HistoryWithKey(teenId: Id, url: string): WebHistory -> bool {
    (h: WebHistory) => h.teenId == teenId && h.url == url
  }

  function HistoryWithId(id: Id): WebHistory -> bool {
    (h: WebHistory) => h.id == id
  }

  function HistoryOf(teenId: Id): WebHistory -> bool {
    (h: WebHistory) => h.teenId == teenId
  }

  /** A repeat visit: one more to the visit count and the timestamp set to
      now; the stored title is left as it was. */
  function Revisit(now: Timestamp): WebHistory -> WebHistory {
    (h: WebHistory) => h.(visitCount := h.visitCount + 1, timestamp := now)
  }

  ghost predicate Visited(st: Store, teenId: Id, url: string) {
    exists h :: h in st.webHistory && HistoryKey(h) == (teenId, url)
  }

  /** `create_web_history`: for a known teen, count one more visit of a URL
      already recorded, or record it with a count of one. */
  function CreateWebHistory(st: Store, input: WebHistoryCreate, newId: Id, now: Timestamp): (s: Step<Upserted>)
    ensures s.response.Err? <==> !TeenExists(st, input.teenId)
    ensures s.response.Err? ==> s == Step(st, Err(404, TeenNotFound))
    ensures s.response.Ok? ==> s.store == st.(webHistory := s.store.webHistory)
    ensures s.response.Ok? ==> (s.response.body.status == Updated <==> Visited(st, input.teenId, input.url))
    ensures s.response.Ok? && s.response.body.status == Created ==>
      && s.response.body.id == newId
      && s.store.webHistory == st.webHistory + [WebHistory(newId, input.teenId, input.url, input.title, 1, now)]
    ensures s.response.Ok? && s.response.body.status == Updated ==>
      && |s.store.webHistory| == |st.webHistory|
      && exists h :: h in st.webHistory && h.id == s.response.body.id && HistoryKey(h) == (input.teenId, input.url)
  {
    if FindTeen(st, input.teenId).None? then Step(st, Err(404, TeenNotFound))
    else
      match FindOne(st.webHistory, HistoryWithKey(input.teenId, input.url))
      case Some(existing) =>
        var history := UpdateFirst(st.webHistory, HistoryWithId(existing.id), Revisit(now));
        Step(st.(webHistory := history), Ok(Upserted(Updated, existing.id)))
      case None =>
        var visit := WebHistory(newId, input.teenId, input.url, input.title, 1, now);
        Step(st.(webHistory := st.webHistory + [visit]), Ok(Upserted(Created, newId)))
  }

  /** A repeated visit adds exactly one to that record's count, refreshes its
      timestamp, keeps its id and title, and changes no other record. */
  lemma {:induction false} RevisitCountsOne(st: Store, input: WebHistoryCreate, newId: Id, now: Timestamp, k: nat)
    requires Valid(st) && TeenExists(st, input.teenId)
    requires k < |st.webHistory| && HistoryKey(st.webHistory[k]) == (input.teenId, input.url)
    ensures var s := CreateWebHistory(st, input, newId, now);
      var h := st.webHistory[k];
      && s.response == Ok(Upserted(Updated, h.id))
      && s.store.webHistory == st.webHistory[k := h.(visitCount := h.visitCount + 1, timestamp := now)]
  {
    FindFirstOfUnique(st.webHistory, HistoryKey, HistoryWithKey(input.teenId, input.url), k);
    UpdateById(st.webHistory, HistoryId, k, HistoryWithId(st.webHistory[k].id), Revisit(now));
  }

  /** Recording visits keeps (teen, URL) and ids unique, given a new id for
      an inserted record. */
  lemma {:induction false} CreateWebHistoryKeepsValid(st: Store, input: WebHistoryCreate, newId: Id, now: Timestamp)
    requires Valid(st)
    requires forall h :: h in st.webHistory ==> h.id != newId
    ensures Valid(CreateWebHistory(st, input, newId, now).store)
  {
    var s := CreateWebHistory(st, input, newId, now);
    if s.response.Ok? {
      match FindFirst(st.webHistory, HistoryWithKey(input.teenId, input.url))
      case Some(k) =>
        RevisitCountsOne(st, input, newId, now, k);
        var h := st.webHistory[k];
        UniqueReplace(st.webHistory, HistoryKey, k, Revisit(now)(h));
        UniqueReplace(st.webHistory, HistoryId, k, Revisit(now)(h));
      case None =>
        var h := s.store.webHistory[|st.webHistory|];
        UniqueAppend(st.webHistory, HistoryKey, h);
        UniqueAppend(st.webHistory, HistoryId, h);
    }
  }

  /** Two visits of a new URL leave one record for it, counting two. */
  lemma {:induction false} TwoVisitsCountTwo(st: Store, input: WebHistoryCreate, id1: Id, id2: Id, t1: Timestamp, t2: Timestamp)
    requires Valid(st) && TeenExists(st, input.teenId)
    requires !Visited(st, input.teenId, input.url)
    requires forall h :: h in st.webHistory ==> h.id != id1
    ensures var s1 := CreateWebHistory(st, input, id1, t1);
      var s2 := CreateWebHistory(s1.store, input, id2, t2);
      && s1.response == Ok(Upserted(Created, id1))
      && s2.response == Ok(Upserted(Updated, id1))
      && s2.store.webHistory == st.webHistory + [WebHistory(id1, input.teenId, input.url, input.title, 2, t2)]
  {
    var s1 := CreateWebHistory(st, input, id1, t1);
    CreateWebHistoryKeepsValid(st, input, id1, t1);
    assert s1.store.teens == st.teens;
    var n := |st.webHistory|;
    assert s1.store.webHistory[n] == WebHistory(id1, input.teenId, input.url, input.title, 1, t1);
    RevisitCountsOne(s1.store, input, id2, t2, n);
  }

  /** `get_teen_web_history`: the owned teen's `limit` most recently visited
      URLs, newest first. */
  function GetTeenWebHistory(st: Store, teenId: Id, parentId: Id, limit: nat): (r: Response<seq<WebHistory>>)
    ensures r.Err? <==> !Owns(st, parentId, teenId)
    ensures r.Err? ==> r == Err(404, TeenNotFound)
    ensures r.Ok? ==>
      && |r.body| == Min(limit, |Filter(st.webHistory, HistoryOf(teenId))|)
      && Descending(r.body, HistoryTime)
      && multiset(r.body) <= multiset(Filter(st.webHistory, HistoryOf(teenId)))
      && (|Filter(st.webHistory, HistoryOf(teenId))| <= limit ==>
            multiset(r.body) == multiset(Filter(st.webHistory, HistoryOf(teenId))))
      && (forall h :: h in r.body ==> h in st.webHistory && h.teenId == teenId)
      && forall x, y :: x in multiset(Filter(st.webHistory, HistoryOf(teenId))) - multiset(r.body) && y in r.body
           ==> x.timestamp <= y.timestamp
  {
    if FindOwnedTeen(st, teenId, parentId).None? then Err(404, TeenNotFound)
    else Ok(NewestMatching(st.webHistory, HistoryOf(teenId), HistoryTime, limit))
  }
}
