/**
 * Socket IDs: counted down from a random value; once all values have been used, each new one is checked against
 * the sockets (or groups) that are registered.
 */
module SocketIds {
  import opened Packets

  const GROUP_MASK: int := 0x4000_0000
  const MAX_SOCKET_VAL: int := GROUP_MASK - 1

  predicate IdVal(v: int) {
    1 <= v <= MAX_SOCKET_VAL
  }

  /** k places below v, starting again at the top after 1. */
  function Down(v: int, k: nat): (r: int)
    ensures IdVal(r)
  {
    (v - 1 - k) % MAX_SOCKET_VAL + 1
  }

  /** The value as it is returned: groups have their own bit. */
  function Tagged(v: int, group: bool): int {
    if group then v + GROUP_MASK else v
  }

  lemma DownStep(v: int, k: nat)
    ensures Down(v, k + 1) == if Down(v, k) == 1 then MAX_SOCKET_VAL else Down(v, k) - 1
  {
  }

  /** Less than a full circle apart, places are different. */
  lemma DownDiffers(v: int, j: nat, k: nat)
    requires j < k < j + MAX_SOCKET_VAL
    ensures Down(v, j) != Down(v, k)
  {
    var a, b := v - 1 - j, v - 1 - k;
    var qa, qb := a / MAX_SOCKET_VAL, b / MAX_SOCKET_VAL;
    assert a - b == MAX_SOCKET_VAL * (qa - qb) + (a % MAX_SOCKET_VAL - b % MAX_SOCKET_VAL);
  }

  /** Every value is somewhere on the circle. */
  lemma DownReaches(v: int, x: int) returns (k: nat)
    requires IdVal(x)
    ensures k < MAX_SOCKET_VAL && Down(v, k) == x
  {
    k := (v - x) % MAX_SOCKET_VAL;
    var q := (v - x) / MAX_SOCKET_VAL;
    assert v - 1 - k == (x - 1) + MAX_SOCKET_VAL * q;
    ModAdd(x - 1, q);
  }

  lemma ModAdd(r: int, q: int)
    requires 0 <= r < MAX_SOCKET_VAL
    ensures (r + MAX_SOCKET_VAL * q) % MAX_SOCKET_VAL == r
  {
  }

  // ------------------------------------------------------------------ the generator

  /** The last value given out, and the value the count started from, which is 0 once all values have been used. */
  datatype Gen = Gen(last: int, start: int)

  predicate ValidGen(g: Gen) {
    1 <= g.last <= MAX_SOCKET_VAL + 1 && 0 <= g.start <= MAX_SOCKET_VAL
  }

  function NextVal(g: Gen): int {
    if g.last - 1 <= 0 then MAX_SOCKET_VAL else g.last - 1
  }

  predicate Wrapped(g: Gen) {
    g.start == 0 || NextVal(g) == g.start
  }

  /** x is the first value from v down that is not taken. */
  ghost predicate FirstFree(v: int, x: int, taken: set<int>, group: bool) {
    exists k: nat :: k < MAX_SOCKET_VAL && FreeAfter(v, k, x, taken, group)
  }

  ghost predicate FreeAfter(v: int, k: nat, x: int, taken: set<int>, group: bool) {
    x == Down(v, k) && Tagged(x, group) !in taken && TakenFrom(v, k, taken, group)
  }

  ghost predicate TakenFrom(v: int, k: nat, taken: set<int>, group: bool) {
    forall j: nat :: j < k ==> Tagged(Down(v, j), group) in taken
  }

  ghost predicate AllTaken(taken: set<int>, group: bool) {
    forall v :: IdVal(v) ==> Tagged(v, group) in taken
  }

  /** What a call gives and leaves behind. */
  ghost predicate Generates(g: Gen, group: bool, taken: set<int>, r: Option<int>, g': Gen) {
    var v := NextVal(g);
    if !Wrapped(g) then r == Some(Tagged(v, group)) && g' == Gen(v, g.start)
    else
      && g'.start == 0
      && (r.None? <==> AllTaken(taken, group))
      && (r.None? ==> g'.last == v + 1)
      && (r.Some? ==> r.value == Tagged(g'.last, group) && FirstFree(v, g'.last, taken, group))
  }

  class IdGenerator {
    var last: int
    var start: int

    ghost predicate Valid()
      reads this
    {
      ValidGen(View())
    }

    ghost function View(): Gen
      reads this
    {
      Gen(last, start)
    }

    constructor (random: int)
      requires IdVal(random)
      ensures Valid() && View() == Gen(random, random)
    {
      last, start := random, random;
    }

    /** taken are the IDs of the registered sockets, or of the registered groups. */
    method Generate(group: bool, taken: set<int>) returns (r: Option<int>)
      requires Valid()
      modifies this
      ensures Valid() && Generates(old(View()), group, taken, r, View())
    {
      var sockval := last - 1;
      if sockval <= 0 {
        last := MAX_SOCKET_VAL;
        sockval := MAX_SOCKET_VAL;
      }
      if sockval == start {
        start := 0;
      }
      if start == 0 {
        var x := Search(sockval, group, taken);
        if x.None? {
          last := sockval + 1;
          return None;
        }
        last := x.value;
      } else {
        last := sockval;
      }
      r := Some(if group then last + GROUP_MASK else last);
    }

    /** Rolls down until an unused value is found or the start is met again. */
    method Search(startval: int, group: bool, taken: set<int>) returns (r: Option<int>)
      requires IdVal(startval)
      ensures r.None? <==> AllTaken(taken, group)
      ensures r.Some? ==> IdVal(r.value) && FirstFree(startval, r.value, taken, group)
    {
      var sockval := startval;
      ghost var k: nat := 0;
      while true
        invariant k < MAX_SOCKET_VAL && IdVal(sockval) && sockval == Down(startval, k)
        invariant TakenFrom(startval, k, taken, group)
        decreases MAX_SOCKET_VAL - k
      {
        var inUse := Tagged(sockval, group) in taken;
        if !inUse {
          assert FreeAfter(startval, k, sockval, taken, group);
          return Some(sockval);
        }
        DownStep(startval, k);
        sockval := sockval - 1;
        if sockval <= 0 {
          sockval := MAX_SOCKET_VAL;
        }
        k := k + 1;
        if sockval == startval {
          FullCircle(startval, k, taken, group);
          return None;
        }
        NotYet(startval, k);
      }
    }
  }

  lemma FullCircle(v: int, k: nat, taken: set<int>, group: bool)
    requires IdVal(v) && 0 < k <= MAX_SOCKET_VAL && Down(v, k) == v && TakenFrom(v, k, taken, group)
    ensures AllTaken(taken, group)
  {
    if k < MAX_SOCKET_VAL {
      DownDiffers(v, 0, k);
    }
    forall x | IdVal(x)
      ensures Tagged(x, group) in taken
    {
      var j := DownReaches(v, x);
    }
  }

  lemma NotYet(v: int, k: nat)
    requires IdVal(v) && 0 < k <= MAX_SOCKET_VAL && Down(v, k) != v
    ensures k < MAX_SOCKET_VAL
  {
    assert k == MAX_SOCKET_VAL ==> v - 1 - k == (v - 1) + MAX_SOCKET_VAL * -1;
    ModAdd(v - 1, -1);
  }

  // ------------------------------------------------------------------ all sequences of calls

  /** The generator, every value it gave out, and what is registered at the moment. */
  datatype Ids = Ids(g: Gen, issued: seq<int>, sockets: set<int>, groups: set<int>)

  /** A call whose ID is registered at once, a call that fails, or an ID that is no longer registered. */
  datatype IdStep = Issue(group: bool, id: int) | Fail(group: bool) | Release(id: int)

  function Registered(s: Ids, group: bool): set<int> {
    if group then s.groups else s.sockets
  }

  ghost predicate IdNext(s: Ids, st: IdStep, s': Ids) {
    match st
    case Issue(group, id) =>
      && Generates(s.g, group, Registered(s, group), Some(id), s'.g) && s'.issued == s.issued + [s'.g.last]
      && s'.sockets == (if group then s.sockets else s.sockets + {id})
      && s'.groups == (if group then s.groups + {id} else s.groups)
    case Fail(group) =>
      Generates(s.g, group, Registered(s, group), None, s'.g) && s' == s.(g := s'.g)
    case Release(id) => s' == s.(sockets := s.sockets - {id}, groups := s.groups - {id})
  }

  /** Whatever is registered was issued; in the first cycle the values issued run down from the start without a gap. */
  ghost predicate IdInv(s: Ids) {
    && ValidGen(s.g)
    && (forall v :: v in s.sockets ==> v in s.issued) && (forall v :: v in s.groups ==> v - GROUP_MASK in s.issued)
    && (s.g.start != 0 ==> FirstCycle(s.g, s.issued))
  }

  ghost predicate FirstCycle(g: Gen, issued: seq<int>) {
    && |issued| < MAX_SOCKET_VAL && IdVal(g.start) && g.last == Down(g.start, |issued|)
    && (forall k :: 0 <= k < |issued| ==> issued[k] == Down(g.start, k + 1))
  }

  lemma NextInCycle(g: Gen, issued: seq<int>)
    requires FirstCycle(g, issued)
    ensures NextVal(g) == Down(g.start, |issued| + 1)
    ensures !Wrapped(g) ==> |issued| + 1 < MAX_SOCKET_VAL && NextVal(g) !in issued
  {
    DownStep(g.start, |issued|);
    if |issued| + 1 == MAX_SOCKET_VAL {
      assert g.start - 1 - (|issued| + 1) == (g.start - 1) + MAX_SOCKET_VAL * -1;
      ModAdd(g.start - 1, -1);
    } else {
      forall k | 0 <= k < |issued|
        ensures issued[k] != NextVal(g)
      {
        DownDiffers(g.start, k + 1, |issued| + 1);
      }
    }
  }

  lemma IdStepKeeps(s: Ids, st: IdStep, s': Ids)
    requires IdInv(s) && IdNext(s, st, s')
    ensures IdInv(s')
  {
    if !st.Release? {
      if s.g.start != 0 {
        NextInCycle(s.g, s.issued);
      }
      IssuedVal(s.g, st.group, Registered(s, st.group), if st.Issue? then Some(st.id) else None, s'.g);
    }
  }

  lemma IssuedVal(g: Gen, group: bool, taken: set<int>, r: Option<int>, g': Gen)
    requires ValidGen(g) && Generates(g, group, taken, r, g')
    ensures ValidGen(g') && (r.Some? ==> IdVal(g'.last) && r.value == Tagged(g'.last, group))
  {
  }

  ghost predicate IsIdRun(ss: seq<Ids>, sts: seq<IdStep>) {
    |ss| == |sts| + 1 && forall i :: 0 <= i < |sts| ==> IdNext(ss[i], sts[i], ss[i + 1])
  }

  lemma {:induction false} IdRunInv(ss: seq<Ids>, sts: seq<IdStep>, random: int, n: nat)
    requires IsIdRun(ss, sts) && IdVal(random) && ss[0] == Ids(Gen(random, random), [], {}, {}) && n < |ss|
    ensures IdInv(ss[n])
  {
    if n > 0 {
      IdRunInv(ss, sts, random, n - 1);
      hide IdInv, IdNext;
      assert IdNext(ss[n - 1], sts[n - 1], ss[n]);
      IdStepKeeps(ss[n - 1], sts[n - 1], ss[n]);
    } else {
      assert Down(random, 0) == random;
    }
  }

  /**
   * In every sequence of calls an ID that is given out lies in its range and no socket (or group) registered at the
   * moment has it, in the first cycle and after; a call fails only when every value is in use.
   */
  lemma IdsAreNew(ss: seq<Ids>, sts: seq<IdStep>, random: int, n: nat)
    requires IsIdRun(ss, sts) && IdVal(random) && ss[0] == Ids(Gen(random, random), [], {}, {}) && n < |sts|
    ensures sts[n].Issue? ==> exists v :: IdVal(v) && sts[n].id == Tagged(v, sts[n].group)
    ensures sts[n].Issue? ==> sts[n].id !in Registered(ss[n], sts[n].group)
    ensures sts[n].Fail? ==> AllTaken(Registered(ss[n], sts[n].group), sts[n].group)
  {
    IdRunInv(ss, sts, random, n);
    var s, st := ss[n], sts[n];
    assert IdNext(s, st, ss[n + 1]);
    if st.Issue? {
      IssuedVal(s.g, st.group, Registered(s, st.group), Some(st.id), ss[n + 1].g);
      if !Wrapped(s.g) {
        NextInCycle(s.g, s.issued);
      }
    }
  }
}
