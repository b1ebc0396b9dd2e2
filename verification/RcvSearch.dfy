/**
 * The search of updateFirstReadableOutOfOrder as a loop that may not end: it walks the ring until it has seen as many
 * order-clear packets as are counted. It ends if and only if there is one to see, and then it finds what FindOoo does.
 */
module RcvSearch {
  import opened RcvModel
  import opened RcvIntact

  // ------------------------------------------------------------------ what the search knows

  /** A run of order-clear packets of message m begins at its first packet f and is unfinished at k. */
  ghost predicate OpenRun(w: seq<Entry>, f: int, k: int, m: int) {
    && 0 <= f < k <= |w| && Has(w, f) && Pkt(w, f).first && Pkt(w, f).msgno == m
    && (forall g :: f <= g < k ==> Open1(w[g], m))
    && (forall g :: f < g < k ==> Open1(w[g], m) && !w[g].unit.value.packet.first)
  }

  predicate Open1(e: Entry, m: int) {
    e.unit.Some? && !e.unit.value.packet.inorder && e.unit.value.packet.msgno == m && !e.unit.value.packet.last
  }

  /**
   * What the search of updateFirstReadableOutOfOrder knows at offset k: nothing readable begins before, except
   * perhaps the open run.
   */
  ghost predicate Searching(w: seq<Entry>, f: int, k: int, m: int) {
    && 0 <= k <= |w|
    && (f == -1 ==> m == -1 && FindOoo(w, 0) == FindOoo(w, k))
    && (f != -1 ==> OpenRun(w, f, k, m) && FindOoo(w, 0) == FindOoo(w, f))
  }

  lemma {:induction false} OpenTail(w: seq<Entry>, f: int, k: int, m: int)
    requires 0 <= f < k <= |w| && (forall g :: f <= g < k ==> Open1(w[g], m))
    requires forall g :: f < g < k ==> Open1(w[g], m) && !w[g].unit.value.packet.first
    ensures OooTail(w, f, m) <==> Has(w, k) && !Pkt(w, k).first && OooTail(w, k, m)
    decreases k - f
  {
    assert Open1(w[f], m);
    if f + 1 < k {
      assert Open1(w[f + 1], m);
      OpenTail(w, f + 1, k, m);
    }
  }

  lemma {:induction false} SkipOoo(w: seq<Entry>, i: int, j: int)
    requires 0 <= i <= j <= |w| && forall g :: i <= g < j ==> !OooMessage(w, g)
    ensures FindOoo(w, i) == FindOoo(w, j)
    decreases j - i
  {
    if i < j {
      SkipOoo(w, i + 1, j);
    }
  }

  /** A run that cannot go on at k leaves nothing readable before k. */
  lemma RunDies(w: seq<Entry>, f: int, k: int, m: int)
    requires Searching(w, f, k, m) && !(Has(w, k) && !Pkt(w, k).first && OooTail(w, k, m))
    ensures FindOoo(w, 0) == FindOoo(w, k)
  {
    if f != -1 {
      OpenTail(w, f, k, m);
      forall g | f <= g < k
        ensures !OooMessage(w, g)
      {
        assert Open1(w[g], m);
      }
      SkipOoo(w, f, k);
    }
  }

  lemma SearchStart(w: seq<Entry>)
    ensures Searching(w, -1, 0, -1)
  {
  }

  lemma SearchBroken(w: seq<Entry>, f: int, k: int, m: int)
    requires Searching(w, f, k, m) && k < |w| && !IsClear(w[k])
    ensures Searching(w, -1, k + 1, -1)
  {
    RunDies(w, f, k, m);
    SkipOoo(w, k, k + 1);
  }

  lemma SearchClear(w: seq<Entry>, f: int, k: int, m: int)
    requires Searching(w, f, k, m) && k < |w| && IsClear(w[k])
    ensures var p := Pkt(w, k);
      && (p.first && p.last ==> FindOoo(w, 0) == k)
      && (p.first && !p.last ==> Searching(w, k, k + 1, p.msgno))
      && (!p.first && p.msgno != m ==> Searching(w, -1, k + 1, -1))
      && (!p.first && p.msgno == m ==> f != -1)
      && (!p.first && p.msgno == m && p.last ==> FindOoo(w, 0) == f)
      && (!p.first && p.msgno == m && !p.last ==> Searching(w, f, k + 1, m))
  {
    var p := Pkt(w, k);
    if p.first || p.msgno != m {
      RunDies(w, f, k, m);
      if !p.first {
        SkipOoo(w, k, k + 1);
      }
    } else if p.last {
      OpenTail(w, f, k, m);
    }
  }

  lemma {:induction false} NoClearAhead(w: seq<Entry>, k: int)
    requires 0 <= k <= |w| && CountIf(w[k..], IsClear) == 0
    ensures FindOoo(w, k) == -1 && (k < |w| ==> !IsClear(w[k]))
    decreases |w| - k
  {
    if k < |w| {
      assert w[k..][1..] == w[k + 1..];
      NoClearAhead(w, k + 1);
    }
  }

  lemma SearchOver(w: seq<Entry>, f: int, k: int, m: int)
    requires Searching(w, f, k, m) && CountIf(w[k..], IsClear) == 0
    ensures FindOoo(w, 0) == -1
  {
    NoClearAhead(w, k);
    RunDies(w, f, k, m);
  }

  lemma {:induction false} NoneAhead(w: seq<Entry>, k: int)
    requires 0 <= k <= |w| && forall g :: k <= g < |w| ==> w[g].unit.None?
    ensures CountIf(w[k..], IsClear) == 0
    decreases |w| - k
  {
    if k < |w| {
      assert w[k..][1..] == w[k + 1..];
      NoneAhead(w, k + 1);
    }
  }

  // ------------------------------------------------------------------ the loop

  /** At offset k with so many order-clear packets to come, and the message that may have begun; or at its end. */
  datatype Search = Going(k: nat, remain: int, first: int, msgno: int) | Ended(at: int)

  predicate InRing(w: seq<Entry>, s: Search) {
    s.Going? ==> s.k < |w|
  }

  function NextSlot(k: nat, size: nat): nat {
    if k + 1 == size then 0 else k + 1
  }

  /** One turn of the loop, with the test at its head. */
  function SearchStep(w: seq<Entry>, maxOff: int, s: Search): (r: Search)
    requires InRing(w, s)
    ensures InRing(w, r)
  {
    if s.Ended? then s
    else if s.remain == 0 then Ended(-1)
    else if !IsClear(w[s.k]) then Going(NextSlot(s.k, |w|), s.remain, -1, -1)
    else
      var p := w[s.k].unit.value.packet;
      var first, msgno := if p.first then s.k else s.first, if p.first then p.msgno else s.msgno;
      if p.msgno != msgno then Going(NextSlot(s.k, |w|), s.remain - 1, -1, -1)
      else if p.last then Ended(first)
      else if s.k == maxOff - 1 then Ended(-1)
      else Going(NextSlot(s.k, |w|), s.remain - 1, first, msgno)
  }

  function SearchN(w: seq<Entry>, maxOff: int, s: Search, n: nat): (r: Search)
    requires InRing(w, s)
    ensures InRing(w, r)
    decreases n
  {
    if n == 0 then s else SearchN(w, maxOff, SearchStep(w, maxOff, s), n - 1)
  }

  /** The guards at the beginning let the search be skipped. */
  predicate Skips(v: Rcv) {
    v.nonread != 0 || v.numOoo <= 0 || v.ooo >= 0 || v.maxOff == 0
  }

  function SearchBegin(v: Rcv): Search {
    Going(0, v.numOoo, -1, -1)
  }

  /** updateFirstReadableOutOfOrder returns. */
  ghost predicate Halts(v: Rcv) {
    Skips(v) || (|v.w| > 0 && exists n: nat :: SearchN(v.w, v.maxOff, SearchBegin(v), n).Ended?)
  }

  // ------------------------------------------------------------------ what it finds

  /** While it goes on: what is known, and either nothing is there to find or enough is left to look at. */
  ghost predicate OnTheWay(w: seq<Entry>, s: Search) {
    && InRing(w, s)
    && (s.Ended? ==> s.at == FindOoo(w, 0))
    && (s.Going? ==>
          && Searching(w, s.first, s.k, s.msgno)
          && (FindOoo(w, 0) == -1 || s.remain >= CountIf(w[s.k..], IsClear)))
  }

  /** Units lie below maxOff, and the last slot is free. */
  ghost predicate Below(w: seq<Entry>, maxOff: int) {
    && 0 < maxOff < |w| && w[|w| - 1] == EMPTY
    && forall k :: 0 <= k < |w| && w[k].unit.Some? ==> k < maxOff
  }

  /** The next turn begins at the slot after this one, or at the start again. */
  lemma WalksOn(w: seq<Entry>, s: Search, remain: int, f: int, m: int)
    requires s.Going? && s.k < |w| && w[|w| - 1] == EMPTY && Searching(w, f, s.k + 1, m)
    requires FindOoo(w, 0) == -1 || remain >= CountIf(w[s.k + 1..], IsClear)
    requires s.k + 1 == |w| ==> f == -1 && m == -1
    ensures OnTheWay(w, Going(NextSlot(s.k, |w|), remain, f, m))
  {
    if s.k + 1 == |w| {
      assert FindOoo(w, |w|) == -1;
      SearchStart(w);
    }
  }

  lemma StepOnTheWay(w: seq<Entry>, maxOff: int, s: Search)
    requires Below(w, maxOff) && OnTheWay(w, s) && s.Going?
    ensures OnTheWay(w, SearchStep(w, maxOff, s))
  {
    hide Searching, FindOoo, CountIf;
    if s.remain == 0 {
      if FindOoo(w, 0) != -1 {
        SearchOver(w, s.first, s.k, s.msgno);
      }
    } else {
      TailCount(w, s.k);
      if !IsClear(w[s.k]) {
        SearchBroken(w, s.first, s.k, s.msgno);
        WalksOn(w, s, s.remain, -1, -1);
      } else {
        ClearTurn(w, maxOff, s);
      }
    }
  }

  lemma TailCount(w: seq<Entry>, k: nat)
    requires k < |w|
    ensures CountIf(w[k..], IsClear) == (if IsClear(w[k]) then 1 else 0) + CountIf(w[k + 1..], IsClear)
  {
    assert w[k..][1..] == w[k + 1..];
  }

  lemma ClearTurn(w: seq<Entry>, maxOff: int, s: Search)
    requires Below(w, maxOff) && OnTheWay(w, s) && s.Going? && s.remain != 0 && IsClear(w[s.k])
    ensures OnTheWay(w, SearchStep(w, maxOff, s))
  {
    hide Searching, FindOoo, CountIf;
    TailCount(w, s.k);
    SearchClear(w, s.first, s.k, s.msgno);
    var p := w[s.k].unit.value.packet;
    var first, msgno := if p.first then s.k else s.first, if p.first then p.msgno else s.msgno;
    if p.msgno != msgno {
      WalksOn(w, s, s.remain - 1, -1, -1);
    } else if !p.last {
      if s.k == maxOff - 1 {
        NoneAhead(w, s.k + 1);
        SearchOver(w, first, s.k + 1, msgno);
      } else {
        WalksOn(w, s, s.remain - 1, first, msgno);
      }
    }
  }

  lemma {:induction false} SearchFinds(w: seq<Entry>, maxOff: int, s: Search, n: nat)
    requires Below(w, maxOff) && OnTheWay(w, s)
    ensures OnTheWay(w, SearchN(w, maxOff, s, n))
    decreases n
  {
    hide OnTheWay, Below, SearchStep;
    if n > 0 {
      if s.Going? {
        OnRing(w, s);
        StepOnTheWay(w, maxOff, s);
      } else {
        StaysEnded(w, maxOff, s);
      }
      SearchFinds(w, maxOff, SearchStep(w, maxOff, s), n - 1);
    }
  }

  lemma OnRing(w: seq<Entry>, s: Search)
    requires OnTheWay(w, s)
    ensures InRing(w, s)
  {
  }

  lemma StaysEnded(w: seq<Entry>, maxOff: int, s: Search)
    requires s.Ended?
    ensures SearchStep(w, maxOff, s) == s
  {
  }

  // ------------------------------------------------------------------ when it ends

  /** Slots from k to the order-clear packet at c, going round. */
  function Ahead(k: nat, c: nat, size: nat): int {
    if k <= c then c - k else size - k + c
  }

  /** Every time the walk comes by an order-clear packet there is one less to see. */
  lemma {:induction false} EndsFrom(w: seq<Entry>, maxOff: int, s: Search, c: nat) returns (n: nat)
    requires InRing(w, s) && c < |w| && IsClear(w[c]) && (s.Going? ==> s.remain >= 0)
    ensures SearchN(w, maxOff, s, n).Ended?
    decreases if s.Going? then s.remain + 1 else 0, if s.Going? then Ahead(s.k, c, |w|) else 0
  {
    if s.Ended? {
      n := 0;
    } else {
      n := EndsFrom(w, maxOff, SearchStep(w, maxOff, s), c);
      n := n + 1;
    }
  }

  /** Without an order-clear packet the count never goes down. */
  lemma {:induction false} GoesOn(w: seq<Entry>, maxOff: int, s: Search, n: nat)
    requires InRing(w, s) && s.Going? && s.remain != 0 && forall k :: 0 <= k < |w| ==> !IsClear(w[k])
    ensures SearchN(w, maxOff, s, n).Going?
    decreases n
  {
    if n > 0 {
      GoesOn(w, maxOff, SearchStep(w, maxOff, s), n - 1);
    }
  }

  lemma {:induction false} SomeClear(w: seq<Entry>) returns (c: nat)
    requires CountIf(w, IsClear) > 0
    ensures c < |w| && IsClear(w[c])
  {
    if IsClear(w[0]) {
      c := 0;
    } else {
      c := SomeClear(w[1..]);
      c := c + 1;
    }
  }

  lemma {:induction false} NoneClearAt(w: seq<Entry>, k: nat)
    requires CountIf(w, IsClear) == 0 && k < |w|
    ensures !IsClear(w[k])
  {
    if k > 0 {
      NoneClearAt(w[1..], k - 1);
    }
  }

  /**
   * The search returns if and only if a guard lets it be skipped or an order-clear packet is stored. Whenever it
   * ends, it has found what FindOoo finds, so UpdateOoo is what updateFirstReadableOutOfOrder does when it returns.
   */
  lemma HaltsIff(v: Rcv, x: nat)
    requires Intact(v, x)
    ensures Halts(v) <==> Skips(v) || CountIf(v.w, IsClear) > 0
    ensures |v.w| > 0 && forall n: nat ::
              !Skips(v) && SearchN(v.w, v.maxOff, SearchBegin(v), n).Ended? ==>
              SearchN(v.w, v.maxOff, SearchBegin(v), n).at == UpdateOoo(v).ooo
  {
    IntactSays(v, x);
    Untracked(v, x);
    hide Intact, FindOoo, CountIf, SearchN, SearchStep, OnTheWay;
    if !Skips(v) {
      if CountIf(v.w, IsClear) > 0 {
        var c := SomeClear(v.w);
        var n := EndsFrom(v.w, v.maxOff, SearchBegin(v), c);
      } else {
        forall k | 0 <= k < |v.w|
          ensures !IsClear(v.w[k])
        {
          NoneClearAt(v.w, k);
        }
        forall n: nat
          ensures SearchN(v.w, v.maxOff, SearchBegin(v), n).Going?
        {
          GoesOn(v.w, v.maxOff, SearchBegin(v), n);
        }
      }
      BeginsOnTheWay(v);
      forall n: nat | SearchN(v.w, v.maxOff, SearchBegin(v), n).Ended?
        ensures SearchN(v.w, v.maxOff, SearchBegin(v), n).at == FindOoo(v.w, 0)
      {
        SearchFinds(v.w, v.maxOff, SearchBegin(v), n);
        EndedFinds(v.w, SearchN(v.w, v.maxOff, SearchBegin(v), n));
      }
    }
  }

  lemma BeginsOnTheWay(v: Rcv)
    requires |v.w| > 0 && CountIf(v.w, IsClear) <= v.numOoo
    ensures OnTheWay(v.w, SearchBegin(v))
  {
    assert v.w[0..] == v.w;
    SearchStart(v.w);
  }

  /** What one turn does, case by case. */
  lemma SearchStepIs(w: seq<Entry>, maxOff: int, s: Search)
    requires s.Going? && s.k < |w| && s.remain != 0
    ensures var r, e, next := SearchStep(w, maxOff, s), w[s.k], NextSlot(s.k, |w|);
      && (!IsClear(e) ==> r == Going(next, s.remain, -1, -1))
      && (IsClear(e) ==>
            var p := e.unit.value.packet;
            var f, m := if p.first then s.k else s.first, if p.first then p.msgno else s.msgno;
            && (p.msgno != m ==> r == Going(next, s.remain - 1, -1, -1))
            && (p.msgno == m && p.last ==> r == Ended(f))
            && (p.msgno == m && !p.last && s.k == maxOff - 1 ==> r == Ended(-1))
            && (p.msgno == m && !p.last && s.k != maxOff - 1 ==> r == Going(next, s.remain - 1, f, m)))
  {
  }

  /** When nothing is left to see, there is nothing to find. */
  lemma SeenAll(w: seq<Entry>, s: Search, maxOff: int)
    requires Below(w, maxOff) && OnTheWay(w, s) && s.Going? && s.remain == 0
    ensures FindOoo(w, 0) == -1
  {
    StepOnTheWay(w, maxOff, s);
  }

  lemma EndedFinds(w: seq<Entry>, s: Search)
    requires OnTheWay(w, s) && s.Ended?
    ensures s.at == FindOoo(w, 0)
  {
  }

  /** Where order is not tracked, nothing is counted. */
  lemma Untracked(v: Rcv, x: nat)
    requires Intact(v, x)
    ensures !v.TracksOrder() ==> Skips(v)
  {
  }

  /** It fails to return only if something is counted that is not there. */
  lemma HangsOnExcess(v: Rcv, x: nat)
    requires Intact(v, x) && !Halts(v)
    ensures v.TracksOrder() && v.numOoo == x > 0 && CountIf(v.w, IsClear) == 0
  {
    HaltsIff(v, x);
    IntactSays(v, x);
    Untracked(v, x);
    hide Intact, CountIf, SearchN;
  }
}
