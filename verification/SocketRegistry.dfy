/**
 * The registry of sockets as atomic steps under the global lock: sockets move from the open to the closed map and
 * are deleted by the collector, users hold them by a busy counter, and multiplexers count the sockets on them.
 */
module SocketRegistry {
  import opened Packets

  /** A socket object: its closed status, how many users hold it, its multiplexer, its accept queue and its listener. */
  datatype Sock = Sock(closed: bool, busy: nat, mux: Option<int>, queued: set<int>, listener: int)

  /**
   * The two maps, the sockets taken out of them and not yet deleted, the deleted ones, the multiplexers with their
   * counts, and what the collector has yet to remove; held is how often each socket is held by ID.
   */
  datatype Reg = Reg(open: map<int, Sock>, closed: map<int, Sock>, dying: map<int, Sock>, gone: set<int>,
                     mux: map<int, nat>, todo: seq<int>, held: multiset<int>)

  datatype RegStep =
    | New(id: int, listener: int)
    | Acquire(id: int)
    | Release(id: int)
    | BindNew(id: int)
    | BindTo(id: int, m: int)
    | Enqueue(id: int, q: int)
    | Dequeue(id: int, q: int)
    | MarkClosed(id: int)
    | Close(id: int)
    | Collect(broken: set<int>, remove: seq<int>)
    | Remove(idle: bool)
    | Delete(id: int)

  predicate Alive(r: Reg, id: int) {
    id in r.open || id in r.closed
  }

  predicate Known(r: Reg, id: int) {
    id in r.open || id in r.closed || id in r.dying || id in r.gone
  }

  function SockOf(r: Reg, id: int): Sock
    requires Alive(r, id)
  {
    if id in r.open then r.open[id] else r.closed[id]
  }

  /** The same object changed wherever it is registered. */
  function Put(r: Reg, id: int, s: Sock): Reg
    requires Alive(r, id)
  {
    if id in r.open then r.(open := r.open[id := s]) else r.(closed := r.closed[id := s])
  }

  predicate CanAcquire(r: Reg, id: int) {
    id in r.open && !r.open[id].closed
  }

  /** Moves open sockets to the closed map, as closed. */
  function MoveAll(r: Reg, ids: set<int>): Reg {
    r.(open := r.open - ids, closed := r.closed + map i | i in r.open && i in ids :: r.open[i].(closed := true))
  }

  /** Takes the given sockets out of the accept queues of their listeners. */
  function Pruned(m: map<int, Sock>, left: map<int, int>): map<int, Sock> {
    map i | i in m :: m[i].(queued := set q | q in m[i].queued && !(q in left && left[q] == i))
  }

  function Listeners(r: Reg, ids: set<int>): map<int, int> {
    map i | i in r.open && i in ids :: r.open[i].listener
  }

  function Collected(r: Reg, broken: set<int>): Reg {
    var r1 := MoveAll(r, broken);
    r1.(open := Pruned(r1.open, Listeners(r, broken)), closed := Pruned(r1.closed, Listeners(r, broken)))
  }

  /** Takes a closed socket out of the map; sockets still in its accept queue are closed with it. */
  function Removed(r: Reg, u: int): Reg
    requires u in r.closed
  {
    var s := r.closed[u];
    var r1 := MoveAll(r, s.queued);
    r1.(closed := r1.closed - {u}, dying := r1.dying[u := s])
  }

  /** One socket less on a multiplexer, which is destroyed with its last one. */
  function Unref(mux: map<int, nat>, mid: Option<int>): map<int, nat> {
    if mid.None? || mid.value !in mux || mux[mid.value] == 0 then mux
    else if mux[mid.value] == 1 then mux - {mid.value}
    else mux[mid.value := mux[mid.value] - 1]
  }

  /** Deletes a socket that was taken out and gives up its place on its multiplexer. */
  function Deleted(r: Reg, u: int): Reg
    requires u in r.dying
  {
    r.(dying := r.dying - {u}, gone := r.gone + {u}, mux := Unref(r.mux, r.dying[u].mux))
  }

  /** What a step needs: new IDs are unused, only holders release, a socket is bound once. */
  predicate Enabled(r: Reg, st: RegStep) {
    match st
    case New(id, _) => !Known(r, id)
    case Release(id) => id in r.held
    case BindNew(id) => Alive(r, id) && SockOf(r, id).mux.None?
    case BindTo(id, m) => Alive(r, id) && SockOf(r, id).mux.None? && m in r.mux
    case Enqueue(id, _) => Alive(r, id)
    case Dequeue(id, _) => Alive(r, id)
    case MarkClosed(id) => Alive(r, id)
    case Collect(broken, remove) =>
      broken <= r.open.Keys && forall k :: 0 <= k < |remove| ==>
        var r1 := Collected(r, broken); remove[k] in r1.closed && r1.closed[remove[k]].busy == 0
    case Remove(_) => r.todo != []
    case Delete(id) => id in r.dying
    case _ => true
  }

  function RegNext(r: Reg, st: RegStep): Reg
    requires Enabled(r, st)
  {
    match st
    case New(id, listener) => r.(open := r.open[id := Sock(false, 0, None, {}, listener)])
    case Acquire(id) =>
      if CanAcquire(r, id) then
        r.(open := r.open[id := r.open[id].(busy := r.open[id].busy + 1)], held := r.held + multiset{id})
      else r
    case Release(id) =>
      var r1 := r.(held := r.held - multiset{id});
      if Alive(r, id) && SockOf(r, id).busy > 0 then Put(r1, id, SockOf(r, id).(busy := SockOf(r, id).busy - 1)) else r1
    case BindNew(id) => Put(r, id, SockOf(r, id).(mux := Some(id))).(mux := r.mux[id := 1])
    case BindTo(id, m) => Put(r, id, SockOf(r, id).(mux := Some(m))).(mux := r.mux[m := r.mux[m] + 1])
    case Enqueue(id, q) => Put(r, id, SockOf(r, id).(queued := SockOf(r, id).queued + {q}))
    case Dequeue(id, q) => Put(r, id, SockOf(r, id).(queued := SockOf(r, id).queued - {q}))
    case MarkClosed(id) => Put(r, id, SockOf(r, id).(closed := true))
    case Close(id) => if CanAcquire(r, id) then MoveAll(r, {id}) else r
    case Collect(broken, remove) => Collected(r, broken).(todo := remove)
    case Remove(idle) =>
      var u, r1 := r.todo[0], r.(todo := r.todo[1..]);
      if u in r.closed && idle && r.closed[u].busy == 0 then Removed(r1, u) else r1
    case Delete(id) => Deleted(r, id)
  }

  // ------------------------------------------------------------------ what every step keeps

  /** A socket is in one place only. */
  predicate Parted(r: Reg) {
    && r.open.Keys !! r.closed.Keys && r.open.Keys !! r.dying.Keys && r.closed.Keys !! r.dying.Keys
    && r.gone !! r.open.Keys && r.gone !! r.closed.Keys && r.gone !! r.dying.Keys
  }

  /** Busy counters are exact, and what is held is registered. */
  predicate Counted(r: Reg) {
    && (forall i :: i in r.open ==> r.open[i].busy == r.held[i])
    && (forall i :: i in r.closed ==> r.closed[i].busy == r.held[i])
    && (forall i :: i in r.held ==> Alive(r, i))
  }

  /** Sockets that left the open map are closed. */
  predicate Shut(r: Reg) {
    (forall i :: i in r.closed ==> r.closed[i].closed) && (forall i :: i in r.dying ==> r.dying[i].closed)
  }

  /** The undeleted sockets, each with its multiplexer. */
  function Places(r: Reg): map<int, Option<int>> {
    map i | i in r.open.Keys + r.closed.Keys + r.dying.Keys ::
      if i in r.open then r.open[i].mux else if i in r.closed then r.closed[i].mux else r.dying[i].mux
  }

  /** The undeleted sockets on a multiplexer. */
  function Users(pl: map<int, Option<int>>, m: int): set<int> {
    set i | i in pl && pl[i] == Some(m)
  }

  /** Each multiplexer counts its sockets; one without sockets does not exist. */
  predicate Shared(pl: map<int, Option<int>>, mux: map<int, nat>) {
    && (forall m :: m in mux ==> mux[m] == |Users(pl, m)| && mux[m] > 0)
    && (forall i :: i in pl ==> if pl[i].Some? then pl[i].value in mux else i !in mux)
  }

  predicate Sorted(r: Reg) {
    Parted(r) && Counted(r) && Shut(r) && forall m :: m in r.mux ==> Known(r, m)
  }

  predicate RegInv(r: Reg) {
    Sorted(r) && Shared(Places(r), r.mux)
  }

  // ------------------------------------------------------------------ counting on multiplexers

  lemma NoUsers(pl: map<int, Option<int>>, mux: map<int, nat>, m: int)
    requires Shared(pl, mux) && m !in mux
    ensures Users(pl, m) == {}
  {
    assert forall i :: i in pl ==> pl[i] != Some(m);
  }

  lemma SharedNew(pl: map<int, Option<int>>, mux: map<int, nat>, id: int)
    requires Shared(pl, mux) && id !in pl && id !in mux
    ensures Shared(pl[id := None], mux)
  {
    forall m | m in mux
      ensures Users(pl[id := None], m) == Users(pl, m)
    {
    }
  }

  /** A socket joins a multiplexer. */
  lemma JoinUsers(pl: map<int, Option<int>>, id: int, m: int, n: int)
    requires id in pl && pl[id].None?
    ensures Users(pl[id := Some(m)], n) == if n == m then Users(pl, n) + {id} else Users(pl, n)
  {
  }

  lemma SharedJoin(pl: map<int, Option<int>>, mux: map<int, nat>, id: int, m: int)
    requires Shared(pl, mux) && id in pl && pl[id].None? && (m in mux || m == id)
    ensures Shared(pl[id := Some(m)], mux[m := if m in mux then mux[m] + 1 else 1])
  {
    hide Users;
    forall n
      ensures Users(pl[id := Some(m)], n) == if n == m then Users(pl, n) + {id} else Users(pl, n)
    {
      JoinUsers(pl, id, m, n);
    }
    NotUser(pl, id, m);
    if m !in mux {
      NoUsers(pl, mux, m);
    }
  }

  lemma NotUser(pl: map<int, Option<int>>, id: int, m: int)
    requires id in pl && pl[id] != Some(m)
    ensures id !in Users(pl, m)
  {
  }

  lemma OneLeft(s: set<int>, u: int)
    requires u in s
    ensures (|s| == 1 <==> s == {u}) && |s - {u}| == |s| - 1
  {
    if |s| == 1 {
      assert |s - {u}| == 0;
    }
  }

  /** The multiplexer loses this socket, and is destroyed if and only if it was the last one on it. */
  lemma SharedLeave(pl: map<int, Option<int>>, mux: map<int, nat>, u: int)
    requires Shared(pl, mux) && u in pl
    ensures Shared(pl - {u}, Unref(mux, pl[u]))
    ensures forall m :: m in mux ==> (m !in Unref(mux, pl[u]) <==> Users(pl, m) == {u})
  {
    forall m | m in mux
      ensures Users(pl - {u}, m) == Users(pl, m) - {u}
      ensures m !in Unref(mux, pl[u]) <==> Users(pl, m) == {u}
      ensures m in Unref(mux, pl[u]) ==> Unref(mux, pl[u])[m] == |Users(pl, m) - {u}|
    {
      assert Users(pl - {u}, m) == Users(pl, m) - {u};
      if pl[u] == Some(m) {
        OneLeft(Users(pl, m), u);
      } else {
        NotUser(pl, u, m);
        assert Users(pl, m) - {u} == Users(pl, m);
      }
    }
    LeaveRest(pl, mux, u);
  }

  lemma LeaveRest(pl: map<int, Option<int>>, mux: map<int, nat>, u: int)
    requires Shared(pl, mux) && u in pl
    ensures forall i :: i in pl - {u} ==>
            if pl[i].Some? then pl[i].value in Unref(mux, pl[u]) else i !in Unref(mux, pl[u])
  {
    forall i | i in pl - {u} && pl[i].Some? && pl[i] == pl[u]
      ensures pl[i].value in Unref(mux, pl[u])
    {
      var us := Users(pl, pl[u].value);
      assert {i, u} <= us;
      OneLeft(us, u);
    }
  }

  // ------------------------------------------------------------------ the steps

  lemma MovedParts(r: Reg, ids: set<int>)
    requires Parted(r) && Counted(r) && Shut(r)
    ensures var r' := MoveAll(r, ids);
      Parted(r') && Counted(r') && Shut(r') && r'.open.Keys + r'.closed.Keys == r.open.Keys + r.closed.Keys
  {
  }

  lemma MovedPlaces(r: Reg, ids: set<int>)
    requires Parted(r)
    ensures Places(MoveAll(r, ids)) == Places(r)
  {
    var r' := MoveAll(r, ids);
    assert r'.open.Keys + r'.closed.Keys == r.open.Keys + r.closed.Keys;
    forall i | i in Places(r)
      ensures i in Places(r') && Places(r')[i] == Places(r)[i]
    {
    }
    assert Places(r').Keys == Places(r).Keys;
  }

  lemma MoveKeeps(r: Reg, ids: set<int>)
    requires RegInv(r)
    ensures RegInv(MoveAll(r, ids))
  {
    MovedParts(r, ids);
    MovedPlaces(r, ids);
    hide Places, Shared, Counted, Shut;
  }

  lemma PutPlaces(r: Reg, id: int, s: Sock)
    requires Parted(r) && Alive(r, id)
    ensures Places(Put(r, id, s)) == Places(r)[id := s.mux]
  {
    var r' := Put(r, id, s);
    assert Places(r').Keys == Places(r).Keys;
  }

  lemma SamePlace(r: Reg, id: int)
    requires Parted(r) && Alive(r, id)
    ensures id in Places(r) && Places(r)[id] == SockOf(r, id).mux && Places(r)[id := SockOf(r, id).mux] == Places(r)
  {
  }

  /** Changing a socket in place, except for its multiplexer and what its holders count. */
  lemma PutKeeps(r: Reg, id: int, s: Sock)
    requires RegInv(r) && Alive(r, id) && s.busy == SockOf(r, id).busy && s.mux == SockOf(r, id).mux
    requires SockOf(r, id).closed ==> s.closed
    ensures RegInv(Put(r, id, s))
  {
    hide Places, Shared;
    PutPlaces(r, id, s);
    SamePlace(r, id);
  }

  lemma NewKeeps(r: Reg, id: int, listener: int)
    requires RegInv(r) && !Known(r, id)
    ensures RegInv(RegNext(r, New(id, listener)))
  {
    hide Shared, Counted, Shut;
    NewParts(r, id, listener);
    SharedNew(Places(r), r.mux, id);
    NewPlaces(r, RegNext(r, New(id, listener)), id);
  }

  lemma NewParts(r: Reg, id: int, listener: int)
    requires Sorted(r) && !Known(r, id)
    ensures Sorted(RegNext(r, New(id, listener)))
  {
  }

  lemma NewPlaces(r: Reg, r': Reg, id: int)
    requires !Known(r, id) && r' == r.(open := r'.open) && id in r'.open && r'.open == r.open[id := r'.open[id]]
    requires r'.open[id].mux.None?
    ensures Places(r') == Places(r)[id := None]
  {
    assert Places(r').Keys == Places(r).Keys + {id};
  }

  lemma AcquireKeeps(r: Reg, id: int)
    requires RegInv(r)
    ensures RegInv(RegNext(r, Acquire(id)))
  {
    hide Places, Shared;
    if CanAcquire(r, id) {
      PutPlaces(r, id, r.open[id].(busy := r.open[id].busy + 1));
      SamePlace(r, id);
      SameMaps(Put(r, id, r.open[id].(busy := r.open[id].busy + 1)), RegNext(r, Acquire(id)));
    }
  }

  lemma SameMaps(r: Reg, r': Reg)
    requires r'.open == r.open && r'.closed == r.closed && r'.dying == r.dying
    ensures Places(r') == Places(r)
  {
  }

  lemma ReleaseKeeps(r: Reg, id: int)
    requires RegInv(r) && id in r.held
    ensures RegInv(RegNext(r, Release(id)))
  {
    hide Places, Shared;
    var s := SockOf(r, id).(busy := SockOf(r, id).busy - 1);
    PutPlaces(r, id, s);
    SamePlace(r, id);
    SameMaps(Put(r, id, s), RegNext(r, Release(id)));
    ReleaseCounts(r, id);
  }

  lemma PutParted(r: Reg, id: int, s: Sock)
    requires Parted(r) && Shut(r) && Alive(r, id) && (SockOf(r, id).closed ==> s.closed)
    ensures Parted(Put(r, id, s)) && Shut(Put(r, id, s))
  {
    assert id in r.open ==> r.open[id := s].Keys == r.open.Keys;
    assert id in r.closed ==> r.closed[id := s].Keys == r.closed.Keys;
  }

  /** The busy counter of one socket follows a change of what is held of it. */
  lemma PutCounted(r: Reg, id: int, s: Sock, held: multiset<int>)
    requires Counted(r) && Alive(r, id) && (id in r.open ==> id !in r.closed) && s.busy == held[id]
    requires forall i :: i != id ==> held[i] == r.held[i]
    ensures Counted(Put(r, id, s).(held := held))
  {
    var r' := Put(r, id, s).(held := held);
    forall i | i in held
      ensures Alive(r', i)
    {
      assert i == id || i in r.held;
    }
  }

  lemma ReleaseIs(r: Reg, id: int)
    requires Parted(r) && Counted(r) && id in r.held
    ensures Alive(r, id) && (id in r.open ==> id !in r.closed) && SockOf(r, id).busy == r.held[id]
    ensures var s := SockOf(r, id).(busy := SockOf(r, id).busy - 1);
      RegNext(r, Release(id)) == Put(r, id, s).(held := r.held - multiset{id})
  {
  }

  lemma ReleaseCounts(r: Reg, id: int)
    requires Parted(r) && Counted(r) && Shut(r) && id in r.held
    ensures var r' := RegNext(r, Release(id)); Parted(r') && Counted(r') && Shut(r')
  {
    ReleaseIs(r, id);
    var s := SockOf(r, id).(busy := SockOf(r, id).busy - 1);
    var held := r.held - multiset{id};
    PutParted(r, id, s);
    hide RegNext, Put, Counted, Alive, SockOf;
    assert held[id] == r.held[id] - 1 && forall i :: i != id ==> held[i] == r.held[i];
    PutCounted(r, id, s, held);
  }

  lemma BindKeeps(r: Reg, id: int, m: int)
    requires RegInv(r) && Alive(r, id) && SockOf(r, id).mux.None? && (m == id || m in r.mux)
    ensures RegInv(RegNext(r, if m == id && m !in r.mux then BindNew(id) else BindTo(id, m)))
  {
    hide Places, Shared, Counted, Shut;
    var s := SockOf(r, id).(mux := Some(m));
    PutPlaces(r, id, s);
    SamePlace(r, id);
    SharedJoin(Places(r), r.mux, id, m);
    BindParts(r, id, m, r.mux[m := if m in r.mux then r.mux[m] + 1 else 1]);
    hide Sorted;
    SameMaps(Put(r, id, s), RegNext(r, if m == id && m !in r.mux then BindNew(id) else BindTo(id, m)));
  }

  lemma BindParts(r: Reg, id: int, m: int, mux: map<int, nat>)
    requires Sorted(r) && Alive(r, id) && (m == id || m in r.mux) && mux.Keys == r.mux.Keys + {m}
    ensures Sorted(Put(r, id, SockOf(r, id).(mux := Some(m))).(mux := mux))
  {
  }

  /** A socket that is not bound has no multiplexer of its own yet. */
  lemma OwnMuxNew(r: Reg, id: int)
    requires RegInv(r) && Alive(r, id) && SockOf(r, id).mux.None?
    ensures id !in r.mux
  {
    SamePlace(r, id);
    hide Places;
  }

  lemma CollectKeeps(r: Reg, broken: set<int>, remove: seq<int>)
    requires RegInv(r) && Enabled(r, Collect(broken, remove))
    ensures RegInv(RegNext(r, Collect(broken, remove)))
  {
    hide Places, Shared, MoveAll;
    MoveKeeps(r, broken);
    PruneKeeps(MoveAll(r, broken), Listeners(r, broken), remove);
  }

  lemma PruneKeeps(r: Reg, left: map<int, int>, remove: seq<int>)
    requires RegInv(r)
    ensures RegInv(r.(open := Pruned(r.open, left), closed := Pruned(r.closed, left), todo := remove))
  {
    hide Places, Shared, Sorted;
    PruneParts(r, left, remove);
    PrunePlaces(r, left, remove);
  }

  lemma PruneParts(r: Reg, left: map<int, int>, remove: seq<int>)
    requires Sorted(r)
    ensures Sorted(r.(open := Pruned(r.open, left), closed := Pruned(r.closed, left), todo := remove))
  {
  }

  lemma PrunePlaces(r: Reg, left: map<int, int>, remove: seq<int>)
    ensures Places(r.(open := Pruned(r.open, left), closed := Pruned(r.closed, left), todo := remove)) == Places(r)
  {
    assert Pruned(r.open, left).Keys == r.open.Keys && Pruned(r.closed, left).Keys == r.closed.Keys;
  }

  lemma RemoveKeeps(r: Reg, idle: bool)
    requires RegInv(r) && r.todo != []
    ensures RegInv(RegNext(r, Remove(idle)))
  {
    hide Places, Shared, MoveAll, Counted, Shut, Parted;
    var u, r1 := r.todo[0], r.(todo := r.todo[1..]);
    TodoKeeps(r, r.todo[1..]);
    if u in r.closed && idle && r.closed[u].busy == 0 {
      MoveKeeps(r1, r.closed[u].queued);
      ClosedStays(r1, r.closed[u].queued, u);
      TakeOutKeeps(MoveAll(r1, r.closed[u].queued), u);
    }
  }

  lemma TodoKeeps(r: Reg, todo: seq<int>)
    requires RegInv(r)
    ensures RegInv(r.(todo := todo))
  {
    SameMaps(r, r.(todo := todo));
    hide Places, Shared;
  }

  lemma ClosedStays(r: Reg, ids: set<int>, u: int)
    requires Parted(r) && u in r.closed
    ensures u in MoveAll(r, ids).closed && MoveAll(r, ids).closed[u] == r.closed[u]
  {
  }

  /** Taking out a closed socket that nobody holds. */
  lemma TakeOutKeeps(r: Reg, u: int)
    requires RegInv(r) && u in r.closed && r.closed[u].busy == 0
    ensures RegInv(r.(closed := r.closed - {u}, dying := r.dying[u := r.closed[u]]))
  {
    hide Places, Shared, Sorted;
    TakeOutParts(r, u);
    TakeOutPlaces(r, u);
  }

  lemma TakeOutParts(r: Reg, u: int)
    requires Sorted(r) && u in r.closed && r.closed[u].busy == 0
    ensures Sorted(r.(closed := r.closed - {u}, dying := r.dying[u := r.closed[u]]))
    ensures Parted(r)
  {
  }

  lemma TakeOutPlaces(r: Reg, u: int)
    requires Parted(r) && u in r.closed
    ensures Places(r.(closed := r.closed - {u}, dying := r.dying[u := r.closed[u]])) == Places(r)
  {
    var r' := r.(closed := r.closed - {u}, dying := r.dying[u := r.closed[u]]);
    assert Places(r').Keys == Places(r).Keys;
  }

  lemma DeleteKeeps(r: Reg, u: int)
    requires RegInv(r) && u in r.dying
    ensures RegInv(Deleted(r, u))
    ensures forall m :: m in r.mux ==> (m !in Deleted(r, u).mux <==> Users(Places(r), m) == {u})
  {
    hide Places, Shared, Sorted, Users, Unref;
    DeleteParts(r, u);
    DeletePlaces(r, u);
    SharedLeave(Places(r), r.mux, u);
  }

  lemma DeleteParts(r: Reg, u: int)
    requires Sorted(r) && u in r.dying
    ensures Sorted(Deleted(r, u)) && Parted(r)
  {
  }

  lemma DeletePlaces(r: Reg, u: int)
    requires Parted(r) && u in r.dying
    ensures Places(Deleted(r, u)) == Places(r) - {u} && u in Places(r) && Places(r)[u] == r.dying[u].mux
  {
    assert Places(Deleted(r, u)).Keys == Places(r).Keys - {u};
  }

  lemma RegStepKeeps(r: Reg, st: RegStep)
    requires RegInv(r) && Enabled(r, st)
    ensures RegInv(RegNext(r, st))
  {
    hide RegInv, MoveAll, Collected, Removed, Deleted;
    match st
    case New(id, listener) => NewKeeps(r, id, listener);
    case Acquire(id) => AcquireKeeps(r, id);
    case Release(id) => ReleaseKeeps(r, id);
    case BindNew(id) =>
      OwnMuxNew(r, id);
      BindKeeps(r, id, id);
    case BindTo(id, m) => BindKeeps(r, id, m);
    case Enqueue(id, q) => PutKeeps(r, id, SockOf(r, id).(queued := SockOf(r, id).queued + {q}));
    case Dequeue(id, q) => PutKeeps(r, id, SockOf(r, id).(queued := SockOf(r, id).queued - {q}));
    case MarkClosed(id) => PutKeeps(r, id, SockOf(r, id).(closed := true));
    case Close(id) => MoveKeeps(r, {id});
    case Collect(broken, remove) => CollectKeeps(r, broken, remove);
    case Remove(idle) => RemoveKeeps(r, idle);
    case Delete(id) => DeleteKeeps(r, id);
  }

  // ------------------------------------------------------------------ whole runs

  ghost predicate IsRegRun(rs: seq<Reg>, sts: seq<RegStep>) {
    |rs| == |sts| + 1 && forall i :: 0 <= i < |sts| ==> Enabled(rs[i], sts[i]) && rs[i + 1] == RegNext(rs[i], sts[i])
  }

  function EmptyReg(): Reg {
    Reg(map[], map[], map[], {}, map[], [], multiset{})
  }

  lemma EmptyInv()
    ensures RegInv(EmptyReg())
  {
  }

  lemma {:induction false} RegRunInv(rs: seq<Reg>, sts: seq<RegStep>, n: nat)
    requires IsRegRun(rs, sts) && rs[0] == EmptyReg() && n < |rs|
    ensures RegInv(rs[n])
  {
    hide RegInv, RegNext, Enabled;
    if n > 0 {
      RegRunInv(rs, sts, n - 1);
      RegStepKeeps(rs[n - 1], sts[n - 1]);
    } else {
      EmptyInv();
    }
  }

  /** Unknown, open, closed, taken out, deleted. */
  function Stage(r: Reg, id: int): nat {
    if id in r.open then 1 else if id in r.closed then 2 else if id in r.dying then 3 else if id in r.gone then 4 else 0
  }

  lemma MoveStage(r: Reg, ids: set<int>, id: int)
    requires Parted(r)
    ensures Stage(MoveAll(r, ids), id) == if id in r.open && id in ids then 2 else Stage(r, id)
  {
  }

  lemma PutStage(r: Reg, i: int, s: Sock, id: int)
    requires Alive(r, i)
    ensures Stage(Put(r, i, s), id) == Stage(r, id)
  {
  }

  lemma StageMaps(r: Reg, r': Reg, id: int)
    requires r'.open == r.open && r'.closed == r.closed && r'.dying == r.dying && r'.gone == r.gone
    ensures Stage(r', id) == Stage(r, id)
  {
  }

  lemma CollectStage(r: Reg, broken: set<int>, id: int)
    requires Parted(r)
    ensures Stage(Collected(r, broken), id) == if id in r.open && id in broken then 2 else Stage(r, id)
  {
    MoveStage(r, broken, id);
  }

  lemma RemoveStage(r: Reg, u: int, id: int)
    requires Parted(r) && u in r.closed
    ensures Stage(r, id) <= Stage(Removed(r, u), id) <= Stage(r, id) + 1
  {
    hide MoveAll;
    MoveStage(r, r.closed[u].queued, id);
    ClosedStays(r, r.closed[u].queued, u);
    MovedDisjoint(r, r.closed[u].queued);
  }

  lemma IsParted(r: Reg)
    requires RegInv(r)
    ensures Parted(r)
  {
  }

  /** No step moves a socket back, or past a stage. */
  lemma StageStep(r: Reg, st: RegStep, id: int)
    requires RegInv(r) && Enabled(r, st)
    ensures Stage(r, id) <= Stage(RegNext(r, st), id) <= Stage(r, id) + 1
  {
    hide RegInv, MoveAll, Unref, Put, Collected, Removed;
    IsParted(r);
    match st
    case New(i, _) =>
    case Acquire(i) =>
    case Release(i) =>
      if Alive(r, i) && SockOf(r, i).busy > 0 {
        PutStage(r.(held := r.held - multiset{i}), i, SockOf(r, i).(busy := SockOf(r, i).busy - 1), id);
      }
    case BindNew(i) => PutStage(r, i, SockOf(r, i).(mux := Some(i)), id);
    case BindTo(i, m) => PutStage(r, i, SockOf(r, i).(mux := Some(m)), id);
    case Enqueue(i, q) => PutStage(r, i, SockOf(r, i).(queued := SockOf(r, i).queued + {q}), id);
    case Dequeue(i, q) => PutStage(r, i, SockOf(r, i).(queued := SockOf(r, i).queued - {q}), id);
    case MarkClosed(i) => PutStage(r, i, SockOf(r, i).(closed := true), id);
    case Close(i) => MoveStage(r, {i}, id);
    case Collect(broken, _) => CollectStage(r, broken, id);
    case Remove(idle) =>
      var u, r1 := r.todo[0], r.(todo := r.todo[1..]);
      StageMaps(r, r1, id);
      if u in r.closed {
        RemoveStage(r1, u, id);
      }
    case Delete(i) =>
  }

  lemma MovedDisjoint(r: Reg, ids: set<int>)
    requires Parted(r)
    ensures Parted(MoveAll(r, ids))
  {
  }

  /** In every run a socket only goes from open to closed to deleted. */
  lemma {:induction false} OnlyForward(rs: seq<Reg>, sts: seq<RegStep>, m: nat, n: nat, id: int)
    requires IsRegRun(rs, sts) && rs[0] == EmptyReg() && m <= n < |rs|
    ensures Stage(rs[m], id) <= Stage(rs[n], id)
    decreases n - m
  {
    hide RegInv, Stage, RegNext, Enabled;
    if m < n {
      OnlyForward(rs, sts, m, n - 1, id);
      RegRunInv(rs, sts, n - 1);
      StageStep(rs[n - 1], sts[n - 1], id);
    }
  }

  /**
   * In every interleaving, at every release of the lock: a socket is in one of the two maps at most, one that was
   * acquired by ID and not released is in one of them, and a multiplexer exists for exactly as long as undeleted
   * sockets are on it.
   */
  lemma RegistrySafe(rs: seq<Reg>, sts: seq<RegStep>, n: nat, id: int)
    requires IsRegRun(rs, sts) && rs[0] == EmptyReg() && n < |rs|
    ensures !(id in rs[n].open && id in rs[n].closed)
    ensures id in rs[n].held ==> Alive(rs[n], id)
    ensures id in rs[n].mux <==> Users(Places(rs[n]), id) != {}
    ensures id in rs[n].mux ==> rs[n].mux[id] == |Users(Places(rs[n]), id)|
  {
    RegRunInv(rs, sts, n);
    var r := rs[n];
    hide Places, IsRegRun, Shared;
    MuxCounts(r, id);
  }

  // ------------------------------------------------------------------ holding, closing and sharing

  /** A release takes back an acquisition. */
  lemma ReleaseUndoes(r: Reg, id: int)
    requires RegInv(r) && CanAcquire(r, id)
    ensures var r' := RegNext(r, Acquire(id)); Enabled(r', Release(id)) && RegNext(r', Release(id)) == r
  {
    hide Places, Shared;
    var r' := RegNext(r, Acquire(id));
    assert r'.held - multiset{id} == r.held;
    assert r'.open[id := r.open[id]] == r.open;
  }

  lemma HeldStep(r: Reg, st: RegStep, id: int)
    requires Enabled(r, st) && id in r.held && st != Release(id)
    ensures id in RegNext(r, st).held
  {
    hide Unref, Pruned;
  }

  /** Whatever else happens, a socket that was acquired stays registered until it is released. */
  lemma {:induction false} HeldUntilReleased(rs: seq<Reg>, sts: seq<RegStep>, m: nat, n: nat, id: int)
    requires IsRegRun(rs, sts) && rs[0] == EmptyReg() && m <= n < |rs| && id in rs[m].held
    requires forall i :: m <= i < n ==> sts[i] != Release(id)
    ensures id in rs[n].held && Alive(rs[n], id)
    decreases n - m
  {
    hide RegInv, RegNext, Enabled;
    if m < n {
      HeldUntilReleased(rs, sts, m, n - 1, id);
      HeldStep(rs[n - 1], sts[n - 1], id);
    }
    RegRunInv(rs, sts, n);
    HeldAlive(rs[n], id);
  }

  lemma HeldAlive(r: Reg, id: int)
    requires RegInv(r)
    ensures id in r.held ==> Alive(r, id)
    ensures Alive(r, id) ==> SockOf(r, id).busy == r.held[id]
  {
    hide Places, Shared;
  }

  /** Binding adds the socket to the users of the multiplexer and to no others. */
  lemma BindUsers(r: Reg, id: int, m: int, n: int)
    requires RegInv(r) && Alive(r, id) && SockOf(r, id).mux.None? && (m == id || m in r.mux)
    ensures var r' := Put(r, id, SockOf(r, id).(mux := Some(m)));
      Users(Places(r'), n) == if n == m then Users(Places(r), n) + {id} else Users(Places(r), n)
  {
    hide Places, Shared, Users;
    PutPlaces(r, id, SockOf(r, id).(mux := Some(m)));
    SamePlace(r, id);
    JoinUsers(Places(r), id, m, n);
  }

  /** The count of a multiplexer is the number of sockets on it. */
  lemma MuxCounts(r: Reg, m: int)
    requires RegInv(r)
    ensures m in r.mux <==> Users(Places(r), m) != {}
    ensures m in r.mux ==> r.mux[m] == |Users(Places(r), m)|
  {
    hide Places, Sorted;
    if m !in r.mux {
      NoUsers(Places(r), r.mux, m);
    }
  }
}
