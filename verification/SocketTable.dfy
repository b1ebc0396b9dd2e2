/** The registry in place: the maps, the counters and the collector's passes over them. */
module SocketTable {
  import opened Packets
  import opened SocketRegistry

  lemma MoveMore(r: Reg, done: set<int>, q: int)
    ensures MoveAll(r, done + {q}) == MoveAll(MoveAll(r, done), {q})
  {
    var a, b := MoveAll(r, done + {q}), MoveAll(MoveAll(r, done), {q});
    assert a.open == b.open;
    forall i
      ensures i in a.closed <==> i in b.closed
      ensures i in a.closed ==> a.closed[i] == b.closed[i]
    {
    }
  }

  lemma Inhabited(s: set<int>)
    requires s != {}
    ensures exists x :: x in s
  {
    assert (forall x :: x !in s) ==> s == {};
  }

  /** left on the keys that are no longer to do. */
  function Done(left: map<int, int>, rest: set<int>): map<int, int> {
    left - rest
  }

  lemma DoneStep(left: map<int, int>, rest: set<int>, i: int)
    requires i in rest && rest <= left.Keys
    ensures i !in Done(left, rest) && Done(left, rest - {i}) == Done(left, rest)[i := left[i]]
  {
  }

  lemma DoneEnds(left: map<int, int>)
    ensures Done(left, {}) == left && Done(left, left.Keys) == map[]
  {
  }

  lemma MoveNone(r: Reg)
    ensures MoveAll(r, {}) == r
  {
    assert r.open - {} == r.open;
  }

  lemma MoveAbsent(r: Reg, q: int)
    requires q !in r.open
    ensures MoveAll(r, {q}) == r
  {
    assert r.open - {q} == r.open;
  }

  lemma PruneMore(m: map<int, Sock>, left: map<int, int>, i: int, l: int)
    requires i !in left
    ensures Pruned(m, left[i := l]) ==
      if l in m then Pruned(m, left)[l := Pruned(m, left)[l].(queued := Pruned(m, left)[l].queued - {i})]
        else Pruned(m, left)
  {
    var a, b := Pruned(m, left[i := l]), Pruned(m, left);
    forall j | j in m
      ensures a[j] == if j == l then b[j].(queued := b[j].queued - {i}) else b[j]
    {
      assert a[j].queued == if j == l then b[j].queued - {i} else b[j].queued;
    }
  }

  lemma PruneNone(m: map<int, Sock>)
    ensures Pruned(m, map[]) == m
  {
    forall j | j in m
      ensures Pruned(m, map[])[j] == m[j]
    {
      assert Pruned(m, map[])[j].queued == m[j].queued;
    }
  }

  lemma ReleaseLives(r: Reg, id: int)
    requires RegInv(r) && id in r.held
    ensures Alive(r, id) && SockOf(r, id).busy > 0 && Alive(RegNext(r, Release(id)), id)
  {
    hide Places, Shared;
  }

  lemma ReleaseFacts(r: Reg, id: int)
    requires RegInv(r) && id in r.held
    ensures Alive(r, id) && SockOf(r, id).busy > 0
    ensures var r' := RegNext(r, Release(id)); RegInv(r') && Alive(r', id) && SockOf(r', id).busy == r'.held[id]
  {
    hide RegInv, RegNext;
    RegStepKeeps(r, Release(id));
    ReleaseLives(r, id);
    HeldAlive(RegNext(r, Release(id)), id);
  }

  lemma BoundUsers(r: Reg, id: int, m: int)
    requires RegInv(r) && Alive(r, id) && SockOf(r, id).mux.None? && (m == id || m in r.mux)
    ensures var r' := RegNext(r, if m == id && m !in r.mux then BindNew(id) else BindTo(id, m));
      forall n :: Users(Places(r'), n) == if n == m then Users(Places(r), n) + {id} else Users(Places(r), n)
  {
    hide RegInv, Places, Users, Put;
    var s := SockOf(r, id).(mux := Some(m));
    SameMaps(Put(r, id, s), RegNext(r, if m == id && m !in r.mux then BindNew(id) else BindTo(id, m)));
    forall n
      ensures Users(Places(Put(r, id, s)), n) == if n == m then Users(Places(r), n) + {id} else Users(Places(r), n)
    {
      BindUsers(r, id, m, n);
    }
  }

  lemma CloseStages(r: Reg, id: int)
    requires RegInv(r)
    ensures var r' := RegNext(r, SocketRegistry.RegStep.Close(id));
      && !CanAcquire(r', id) && Alive(r', id) == Alive(r, id)
      && forall i :: i != id ==> Stage(r', i) == Stage(r, i)
  {
    IsParted(r);
    hide RegInv;
  }

  lemma DyingMux(r: Reg, u: int)
    requires RegInv(r) && u in r.dying && r.dying[u].mux.Some?
    ensures r.dying[u].mux.value in r.mux && r.mux[r.dying[u].mux.value] > 0
  {
    assert u in Places(r) && Places(r)[u] == r.dying[u].mux;
    hide Places;
    var m := r.dying[u].mux.value;
    assert m in r.mux;
  }

  lemma DeleteFacts(r: Reg, u: int)
    requires RegInv(r) && u in r.dying
    ensures RegInv(Deleted(r, u))
    ensures forall m :: m in r.mux ==> (m !in Deleted(r, u).mux <==> Users(Places(r), m) == {u})
    ensures r.dying[u].mux.Some? ==> r.dying[u].mux.value in r.mux && r.mux[r.dying[u].mux.value] > 0
  {
    hide RegInv, Places, Users, Deleted;
    DeleteKeeps(r, u);
    if r.dying[u].mux.Some? {
      DyingMux(r, u);
    }
  }

  class Table {
    var open: map<int, Sock>
    var closed: map<int, Sock>
    var dying: map<int, Sock>
    var mux: map<int, nat>
    var todo: seq<int>
    ghost var gone: set<int>
    ghost var held: multiset<int>

    ghost function View(): Reg
      reads this
    {
      Reg(open, closed, dying, gone, mux, todo, held)
    }

    /** What holds whenever the lock is free. */
    ghost predicate Valid()
      reads this
    {
      RegInv(View())
    }

    constructor ()
      ensures Valid() && View() == EmptyReg()
    {
      open, closed, dying, mux, todo, gone, held := map[], map[], map[], map[], [], {}, multiset{};
      new;
      EmptyInv();
    }

    /** The new socket can be found, nobody holds it, and no other socket changes its place. */
    method NewSocket(id: int, listener: int)
      requires Valid() && !Known(View(), id)
      modifies `open
      ensures Valid() && View() == RegNext(old(View()), New(id, listener))
      ensures CanAcquire(View(), id) && held[id] == 0
      ensures forall i :: i != id ==> Stage(View(), i) == Stage(old(View()), i)
    {
      hide RegInv;
      HeldAlive(View(), id);
      RegStepKeeps(View(), New(id, listener));
      open := open[id := Sock(false, 0, None, {}, listener)];
    }

    /** A socket is caught if and only if it is open and not closing; releasing it would undo that. */
    method LocateAcquire(id: int) returns (caught: bool)
      requires Valid()
      modifies `open, `held
      ensures Valid() && caught == CanAcquire(old(View()), id)
      ensures View() == RegNext(old(View()), SocketRegistry.RegStep.Acquire(id))
      ensures caught ==> Alive(View(), id) && held[id] == old(held)[id] + 1 == SockOf(View(), id).busy
      ensures caught ==> id in held && RegNext(View(), Release(id)) == old(View())
      ensures !caught ==> View() == old(View())
    {
      hide RegInv;
      RegStepKeeps(View(), SocketRegistry.RegStep.Acquire(id));
      caught := id in open && !open[id].closed;
      if caught {
        ReleaseUndoes(View(), id);
        HeldAlive(View(), id);
        open := open[id := open[id].(busy := open[id].busy + 1)];
        held := held + multiset{id};
      }
    }

    method Update(id: int, s: Sock)
      requires Alive(View(), id)
      modifies `open, `closed
      ensures View() == Put(old(View()), id, s)
    {
      if id in open {
        open := open[id := s];
      } else {
        closed := closed[id := s];
      }
    }

    /** One holder less; the socket is still registered, and its counter says how many are left. */
    method ApiRelease(id: int)
      requires Valid() && id in held
      modifies `open, `closed, `held
      ensures Valid() && View() == RegNext(old(View()), Release(id))
      ensures held == old(held) - multiset{id} && Alive(View(), id) && SockOf(View(), id).busy == held[id]
    {
      hide RegInv, Put;
      ReleaseFacts(View(), id);
      var s := if id in open then open[id] else closed[id];
      held := held - multiset{id};
      Update(id, s.(busy := s.busy - 1));
    }

    /** updateMux without a multiplexer to share: the socket is alone on the new one. */
    method CreateMux(id: int)
      requires Valid() && Enabled(View(), BindNew(id))
      modifies `open, `closed, `mux
      ensures Valid() && View() == RegNext(old(View()), BindNew(id))
      ensures Users(Places(View()), id) == {id} && mux[id] == 1
      ensures forall n :: n != id ==> Users(Places(View()), n) == Users(Places(old(View())), n)
    {
      hide RegInv, Places, Users;
      ghost var r := View();
      OwnMuxNew(r, id);
      RegStepKeeps(r, BindNew(id));
      MuxCounts(r, id);
      BoundUsers(r, id, id);
      mux := mux[id := 1];
      Update(id, (if id in open then open[id] else closed[id]).(mux := Some(id)));
    }

    /** updateMux and updateListenerMux with one that exists: one user more, counted. */
    method ShareMux(id: int, m: int)
      requires Valid() && Enabled(View(), BindTo(id, m))
      modifies `open, `closed, `mux
      ensures Valid() && View() == RegNext(old(View()), BindTo(id, m))
      ensures Users(Places(View()), m) == Users(Places(old(View())), m) + {id}
      ensures m in mux && mux[m] == |Users(Places(View()), m)|
      ensures forall n :: n != m ==> Users(Places(View()), n) == Users(Places(old(View())), n)
    {
      hide RegInv, Places, Users;
      ghost var r := View();
      RegStepKeeps(r, BindTo(id, m));
      BoundUsers(r, id, m);
      MuxCounts(RegNext(r, BindTo(id, m)), m);
      mux := mux[m := mux[m] + 1];
      Update(id, (if id in open then open[id] else closed[id]).(mux := Some(m)));
    }

    /** Closes one open socket and moves it. */
    method MoveOne(id: int)
      requires id in open
      modifies `open, `closed
      ensures View() == MoveAll(old(View()), {id})
    {
      var s := open[id].(closed := true);
      open := open - {id};
      closed := closed[id := s];
    }

    /** After this no one can acquire the socket, and whoever holds it still does. */
    method CloseSocket(id: int)
      requires Valid()
      modifies `open, `closed
      ensures Valid() && View() == RegNext(old(View()), SocketRegistry.RegStep.Close(id))
      ensures !CanAcquire(View(), id) && held == old(held) && Alive(View(), id) == Alive(old(View()), id)
      ensures forall i :: i != id ==> Stage(View(), i) == Stage(old(View()), i)
    {
      hide RegInv;
      RegStepKeeps(View(), SocketRegistry.RegStep.Close(id));
      CloseStages(View(), id);
      if id in open && !open[id].closed {
        MoveOne(id);
      }
    }

    method MoveEach(ids: set<int>)
      modifies `open, `closed
      ensures View() == MoveAll(old(View()), ids)
    {
      hide MoveAll;
      ghost var r := View();
      var rest := ids;
      MoveNone(r);
      assert ids - rest == {};
      while rest != {}
        invariant rest <= ids && View() == MoveAll(r, ids - rest)
        decreases |rest|
      {
        Inhabited(rest);
        var q :| q in rest;
        MoveMore(r, ids - rest, q);
        assert ids - (rest - {q}) == ids - rest + {q};
        if q in open {
          MoveOne(q);
        } else {
          MoveAbsent(View(), q);
        }
        rest := rest - {q};
      }
      assert rest == {} && ids - rest == ids;
    }

    /** Takes a socket out of its listener's accept queue. */
    method Unqueue(i: int, listener: int, ghost o: map<int, Sock>, ghost c: map<int, Sock>, ghost left: map<int, int>)
      requires open == Pruned(o, left) && closed == Pruned(c, left) && i !in left && o.Keys !! c.Keys
      modifies `open, `closed
      ensures open == Pruned(o, left[i := listener]) && closed == Pruned(c, left[i := listener])
    {
      PruneMore(o, left, i, listener);
      PruneMore(c, left, i, listener);
      hide Pruned;
      PruneKeys(o, left);
      PruneKeys(c, left);
      if listener in open {
        open := open[listener := open[listener].(queued := open[listener].queued - {i})];
      } else if listener in closed {
        closed := closed[listener := closed[listener].(queued := closed[listener].queued - {i})];
      }
    }

    method UnqueueEach(left: map<int, int>)
      requires open.Keys !! closed.Keys
      modifies `open, `closed
      ensures open == Pruned(old(open), left) && closed == Pruned(old(closed), left)
    {
      hide Pruned, Done;
      ghost var o, c := open, closed;
      var rest := left.Keys;
      PruneNone(o);
      PruneNone(c);
      DoneEnds(left);
      while rest != {}
        invariant rest <= left.Keys && open == Pruned(o, Done(left, rest)) && closed == Pruned(c, Done(left, rest))
        decreases |rest|
      {
        Inhabited(rest);
        var i :| i in rest;
        DoneStep(left, rest, i);
        Unqueue(i, left[i], o, c, Done(left, rest));
        rest := rest - {i};
      }
    }

    /** The closed sockets that nobody holds and whose time has come. */
    method ListIdle(timedOut: set<int>) returns (tbr: seq<int>)
      ensures forall k :: 0 <= k < |tbr| ==> tbr[k] in closed && closed[tbr[k]].busy == 0 && tbr[k] in timedOut
      ensures forall i :: i in closed && closed[i].busy == 0 && i in timedOut ==> i in tbr
    {
      tbr := [];
      var rest := closed.Keys;
      while rest != {}
        invariant rest <= closed.Keys
        invariant forall k :: 0 <= k < |tbr| ==> tbr[k] in closed && closed[tbr[k]].busy == 0 && tbr[k] in timedOut
        invariant forall i :: i in closed && i !in rest && closed[i].busy == 0 && i in timedOut ==> i in tbr
        decreases |rest|
      {
        Inhabited(rest);
        var i :| i in rest;
        if closed[i].busy == 0 && i in timedOut {
          tbr := tbr + [i];
        }
        rest := rest - {i};
      }
    }

    /**
     * One pass of the collector up to the removals; broken and timedOut are what it finds of the sockets' own state.
     */
    method CheckBroken(broken: set<int>, timedOut: set<int>)
      requires Valid() && broken <= open.Keys
      modifies `open, `closed, `todo
      ensures Valid() && held == old(held)
      ensures Enabled(old(View()), Collect(broken, todo)) && View() == RegNext(old(View()), Collect(broken, todo))
      ensures forall i :: i in closed && closed[i].busy == 0 && i in timedOut ==> i in todo
    {
      hide MoveAll, Pruned, RegInv;
      ghost var r := View();
      IsParted(r);
      var left := map i | i in open && i in broken :: open[i].listener;
      MovedDisjoint(r, broken);
      MoveEach(broken);
      assert left == Listeners(r, broken);
      UnqueueEach(left);
      todo := ListIdle(timedOut);
      RegStepKeeps(r, Collect(broken, todo));
    }

    /** removeSocket up to the release of the lock. */
    method RemoveNext(idle: bool) returns (u: int, out: bool)
      requires Valid() && todo != []
      modifies `open, `closed, `dying, `todo
      ensures Valid() && View() == RegNext(old(View()), Remove(idle))
      ensures u == old(todo)[0] && (out ==> u in dying && u !in held)
    {
      hide MoveAll, RegInv;
      IsParted(View());
      HeldAlive(View(), todo[0]);
      RegStepKeeps(View(), Remove(idle));
      u := todo[0];
      todo := todo[1..];
      out := u in closed && idle && closed[u].busy == 0;
      if out {
        var s := closed[u];
        ClosedStays(View(), s.queued, u);
        MoveEach(s.queued);
        closed := closed - {u};
        dying := dying[u := s];
      }
    }

    /** removeSocket after the lock was taken again. */
    method Finish(u: int)
      requires Valid() && u in dying
      modifies `dying, `gone, `mux
      ensures Valid() && View() == RegNext(old(View()), Delete(u))
      ensures forall m :: m in old(mux) ==> (m !in mux <==> Users(Places(old(View())), m) == {u})
    {
      hide RegInv, Places, Users;
      ghost var r := View();
      DeleteFacts(r, u);
      var mid := dying[u].mux;
      dying := dying - {u};
      gone := gone + {u};
      if mid.None? || mid.value !in mux {
        return;
      }
      var m := mid.value;
      mux := mux[m := mux[m] - 1];
      if mux[m] == 0 {
        mux := mux - {m};
        assert mux == r.mux - {m};
      }
      assert View() == Deleted(r, u);
    }
  }

  lemma PruneKeys(m: map<int, Sock>, left: map<int, int>)
    ensures Pruned(m, left).Keys == m.Keys
  {
  }
}
