/** Teen profiles (`/teens`): created under the calling parent and read back
    only by that parent. `parentId` is the parent the bearer token names. */
module Teens {
  import opened Common
  import opened Records
  import opened Query
  import opened Database

  /** `get_teens` reads at most this many profiles (`to_list(100)`). */
  const TeenListCap: nat := 100

  function OfParent(parentId: Id): Teen -> bool {
    (t: Teen) => t.parentId == parentId
  }

  /** `create_teen`: store a new profile owned by the caller, with empty
      screen-time limits and bedtime schedule. */
  function CreateTeen(st: Store, parentId: Id, input: TeenCreate, newId: Id, now: Timestamp): (s: Step<Teen>)
    ensures s.response.Ok?
    ensures s.store == st.(teens := st.teens + [s.response.body])
    ensures var t := s.response.body;
      && t.id == newId && t.parentId == parentId && t.createdAt == now
      && t.name == input.name && t.deviceId == input.deviceId
      && t.phoneNumber == input.phoneNumber && t.age == input.age
      && t.screenTimeLimits == map[] && t.bedtimeSchedule == map[]
  {
    var teen := Teen(newId, input.name, parentId, input.deviceId, input.phoneNumber, input.age, map[], map[], now);
    Step(st.(teens := st.teens + [teen]), Ok(teen))
  }

  /** `get_teens`: the caller's profiles, at most `TeenListCap` of them. */
  function GetTeens(st: Store, parentId: Id): (r: seq<Teen>)
    ensures |r| == Min(TeenListCap, |Filter(st.teens, OfParent(parentId))|)
    ensures r == Filter(st.teens, OfParent(parentId))[..|r|]
    ensures |Filter(st.teens, OfParent(parentId))| <= TeenListCap ==> r == Filter(st.teens, OfParent(parentId))
    ensures forall t :: t in r ==> t in st.teens && t.parentId == parentId
    ensures |r| < TeenListCap ==> forall t :: t in st.teens && t.parentId == parentId ==> t in r
  {
    Select(st.teens, OfParent(parentId), TeenListCap)
  }

  /** `get_teen`: the profile, or 404 unless the caller owns a teen with that id. */
  function GetTeen(st: Store, teenId: Id, parentId: Id): (r: Response<Teen>)
    ensures r.Err? <==> !Owns(st, parentId, teenId)
    ensures r.Err? ==> r == Err(404, TeenNotFound)
    ensures r.Ok? ==> r.body in st.teens && r.body.id == teenId && r.body.parentId == parentId
  {
    match FindOwnedTeen(st, teenId, parentId)
    case None => Err(404, TeenNotFound)
    case Some(t) => Ok(t)
  }

  /** A created profile (with a fresh id) reads back for its parent, and only
      for its parent. */
  lemma {:induction false} CreateThenGetTeen(st: Store, parentId: Id, input: TeenCreate, newId: Id, now: Timestamp, other: Id)
    requires !TeenExists(st, newId)
    requires other != parentId
    ensures var s := CreateTeen(st, parentId, input, newId, now);
      && GetTeen(s.store, newId, parentId) == s.response
      && GetTeen(s.store, newId, other) == Err(404, TeenNotFound)
  {
    var s := CreateTeen(st, parentId, input, newId, now);
    var n := |st.teens|;
    assert FindFirst(s.store.teens, OwnedTeen(newId, parentId)) == Some(n) by {
      forall j | 0 <= j < n
        ensures !OwnedTeen(newId, parentId)(s.store.teens[j])
      {
        assert s.store.teens[j] in st.teens;
      }
      assert OwnedTeen(newId, parentId)(s.store.teens[n]);
    }
  }
}
