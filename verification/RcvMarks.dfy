/**
 * Which entries dropMessage marks, said without its two loops: the requested range except kept one-packet messages,
 * and before it what is stored of the message, back to its first packet.
 */
module RcvMarks {
  import opened RcvModel
  import opened RcvInvariant
  import opened RcvExamples

  predicate KeptEntry(e: Entry, keep: bool) {
    keep && e.unit.Some? && IsSolo(e.unit.value.packet)
  }

  /** The first packet of a message of several packets. */
  predicate Opens(e: Entry) {
    e.unit.Some? && e.unit.value.packet.first && !e.unit.value.packet.last
  }

  predicate InMarks(e: Entry, keep: bool) {
    e.status != Drop && !KeptEntry(e, keep)
  }

  predicate Shuts(e: Entry, keep: bool) {
    !KeptEntry(e, keep) && !Opens(e)
  }

  /** From i up to before end there is no kept message and no first packet of a longer one. */
  predicate AllShut(w: seq<Entry>, i: int, end: int, keep: bool)
    requires 0 <= i <= end <= |w|
  {
    forall k :: i <= k < end ==> Shuts(w[k], keep)
  }

  /** The range shows no kept message and no first packet, so the message may begin earlier. */
  predicate SearchesBack(w: seq<Entry>, lo: int, end: int, msgno: int, keep: bool)
    requires 0 <= lo <= end <= |w|
  {
    msgno > 0 && lo < end && AllShut(w, lo, end, keep)
  }

  /** From k up to before lo, every stored packet belongs to the message, and none after k begins it. */
  predicate BackMarks(w: seq<Entry>, k: int, lo: int, msgno: int, keep: bool)
    requires lo <= |w|
  {
    && 0 <= k < lo && w[k].unit.Some?
    && (forall j :: k <= j < lo && w[j].unit.Some? ==>
          w[j].unit.value.packet.msgno == msgno && !KeptEntry(w[j], keep) && (j == k || !Opens(w[j])))
  }

  /** Whether a dropMessage for the offsets from a to b marks the entry at offset k. */
  predicate Drops(w: seq<Entry>, a: int, b: int, msgno: int, keep: bool, k: int)
    requires a <= b && 0 <= b && a < |w|
  {
    0 <= k < |w| && DropsAt(w, Max(0, a), Min(|w| - 1, b + 1), msgno, keep, k)
  }

  predicate DropsAt(w: seq<Entry>, lo: int, end: int, msgno: int, keep: bool, k: int)
    requires 0 <= lo <= end <= |w|
  {
    || (lo <= k < end && InMarks(w[k], keep))
    || (SearchesBack(w, lo, end, msgno, keep) && BackMarks(w, k, lo, msgno, keep))
  }

  ghost predicate UnitsAvail(w: seq<Entry>) {
    forall k :: 0 <= k < |w| && w[k].unit.Some? ==> w[k].status == Avail
  }

  // ------------------------------------------------------------------ the two loops

  lemma {:induction false} RangeExact(d: DropMsg, i: int, end: int, keep: bool)
    requires 0 <= i <= end <= |d.v.w| && UnitsAvail(d.v.w)
    ensures var w, w' := d.v.w, DropRange(d, i, end, keep).v.w;
      && |w'| == |w| && UnitsAvail(w')
      && (forall k :: 0 <= k < |w| ==> w'[k] == if i <= k < end && InMarks(w[k], keep) then DROP else w[k])
    decreases end - i
  {
    if i < end {
      if d.v.w[i].status == Drop {
        RangeExact(d, i + 1, end, keep);
      } else if KeptSolo(d.v, i, keep) {
        assert KeptEntry(d.v.w[i], keep);
        RangeExact(d.(byMsgNo := false), i + 1, end, keep);
      } else {
        MarkDropIs(d.v, i);
        hide MarkDrop;
        assert !KeptEntry(d.v.w[i], keep);
        RangeExact(RangeStep(d, i), i + 1, end, keep);
      }
    }
  }

  /** The least offset noted is one that the range marks. */
  lemma {:induction false} RangeNotes(d: DropMsg, i: int, end: int, keep: bool)
    requires 0 <= i <= end <= |d.v.w| && -1 <= d.minOff
    ensures var m := DropRange(d, i, end, keep).minOff;
      m == d.minOff || (i <= m < end && InMarks(d.v.w[m], keep))
    decreases end - i
  {
    if i < end {
      if d.v.w[i].status == Drop {
        RangeNotes(d, i + 1, end, keep);
      } else if KeptSolo(d.v, i, keep) {
        RangeNotes(d.(byMsgNo := false), i + 1, end, keep);
      } else {
        MarkDropIs(d.v, i);
        hide MarkDrop;
        RangeNotes(RangeStep(d, i), i + 1, end, keep);
      }
    }
  }

  lemma ShutStep(w: seq<Entry>, i: int, end: int, keep: bool)
    requires 0 <= i < end <= |w|
    ensures AllShut(w, i, end, keep) <==> Shuts(w[i], keep) && AllShut(w, i + 1, end, keep)
    ensures AllShut(w[i := DROP], i + 1, end, keep) <==> AllShut(w, i + 1, end, keep)
  {
    assert forall k :: i + 1 <= k < end ==> w[i := DROP][k] == w[k];
  }

  lemma {:induction false} RangeShut(d: DropMsg, i: int, end: int, keep: bool)
    requires 0 <= i <= end <= |d.v.w| && UnitsAvail(d.v.w)
    ensures DropRange(d, i, end, keep).byMsgNo <==> d.byMsgNo && AllShut(d.v.w, i, end, keep)
    decreases end - i
  {
    if i < end {
      ShutStep(d.v.w, i, end, keep);
      hide AllShut;
      if d.v.w[i].status == Drop {
        RangeShut(d, i + 1, end, keep);
      } else if KeptSolo(d.v, i, keep) {
        assert !Shuts(d.v.w[i], keep);
        RangeShut(d.(byMsgNo := false), i + 1, end, keep);
      } else {
        MarkDropIs(d.v, i);
        hide MarkDrop;
        assert Shuts(d.v.w[i], keep) <==> !Opens(d.v.w[i]);
        RangeShut(RangeStep(d, i), i + 1, end, keep);
      }
    }
  }

  lemma {:induction false} BackExact(d: DropMsg, i: int, msgno: int, keep: bool)
    requires -1 <= i < |d.v.w| && UnitsAvail(d.v.w) && -1 <= d.minOff
    ensures var d' := DropBack(d, i, msgno, keep); var w, w' := d.v.w, d'.v.w;
      && |w'| == |w|
      && (forall k :: 0 <= k < |w| ==> w'[k] == if BackMarks(w, k, i + 1, msgno, keep) then DROP else w[k])
      && (d'.minOff == d.minOff || BackMarks(w, d'.minOff, i + 1, msgno, keep))
    decreases i + 1
  {
    var w := d.v.w;
    if i >= 0 {
      if !Has(w, i) {
        BackExact(d, i - 1, msgno, keep);
        BackSame(w, w, i, msgno, keep);
      } else if Pkt(w, i).msgno != msgno || KeptSolo(d.v, i, keep) {
        assert w[i].unit.Some?;
      } else {
        var d1 := BackStep(d, i);
        MarkDropIs(d.v, i);
        hide MarkDrop;
        if Opens(w[i]) {
          BackOpens(w, i, msgno, keep);
        } else {
          BackExact(d1, i - 1, msgno, keep);
          BackSame(w, d1.v.w, i, msgno, keep);
        }
      }
    }
  }

  /** An entry that stops no search at i may be left out of the condition on those before it. */
  lemma BackSame(w: seq<Entry>, w1: seq<Entry>, i: int, msgno: int, keep: bool)
    requires 0 <= i < |w| == |w1| && (forall k :: 0 <= k < i ==> w1[k] == w[k])
    requires w[i].unit.Some? ==> w[i].unit.value.packet.msgno == msgno && !KeptEntry(w[i], keep) && !Opens(w[i])
    ensures forall k :: 0 <= k < i ==> BackMarks(w1, k, i, msgno, keep) == BackMarks(w, k, i + 1, msgno, keep)
    ensures BackMarks(w, i, i + 1, msgno, keep) == w[i].unit.Some?
  {
  }

  lemma BackOpens(w: seq<Entry>, i: int, msgno: int, keep: bool)
    requires 0 <= i < |w| && Opens(w[i]) && w[i].unit.value.packet.msgno == msgno && !KeptEntry(w[i], keep)
    ensures BackMarks(w, i, i + 1, msgno, keep)
    ensures forall k :: 0 <= k < i && w[k].unit.Some? ==> !BackMarks(w, k, i + 1, msgno, keep)
  {
    assert w[i].unit.Some?;
  }

  lemma CoreUnits(v: Rcv)
    requires Core(v)
    ensures UnitsAvail(v.w) && |v.w| > 0
  {
  }

  lemma BackRange(w: seq<Entry>, w1: seq<Entry>, lo: int, msgno: int, keep: bool)
    requires 0 <= lo < |w| == |w1| && (forall k :: 0 <= k < lo ==> w1[k] == w[k]) && w1[lo].unit.None?
    ensures forall k :: BackMarks(w1, k, lo + 1, msgno, keep) == BackMarks(w, k, lo, msgno, keep)
    ensures forall k :: BackMarks(w, k, lo, msgno, keep) ==> 0 <= k < lo
  {
  }

  /** Both loops together, for a range that is not empty. */
  lemma BothExact(d0: DropMsg, lo: int, end: int, msgno: int, keep: bool)
    requires 0 <= lo < end < |d0.v.w| && UnitsAvail(d0.v.w) && d0.minOff == -1 && (d0.byMsgNo <==> msgno > 0)
    ensures var d1, w := DropRange(d0, lo, end, keep), d0.v.w;
      var d := if d1.byMsgNo then DropBack(d1, lo, msgno, keep) else d1;
      && |d.v.w| == |w|
      && (forall k :: 0 <= k < |w| ==> d.v.w[k] == if DropsAt(w, lo, end, msgno, keep, k) then DROP else w[k])
      && (d.minOff == -1 || (0 <= d.minOff < |w| && DropsAt(w, lo, end, msgno, keep, d.minOff)))
  {
    hide BackMarks, AllShut;
    RangeExact(d0, lo, end, keep);
    RangeNotes(d0, lo, end, keep);
    RangeShut(d0, lo, end, keep);
    var d := DropRange(d0, lo, end, keep);
    hide DropRange;
    if d.byMsgNo {
      ShutStep(d0.v.w, lo, end, keep);
      assert d.v.w[lo].status == Drop;
      BackExact(d, lo, msgno, keep);
      BackRange(d0.v.w, d.v.w, lo, msgno, keep);
      var m := DropBack(d, lo, msgno, keep).minOff;
      assert m == d.minOff || BackMarks(d0.v.w, m, lo, msgno, keep);
    }
  }

  /** dropMessage marks exactly the entries that Drops says, and the least offset it notes is one that it marked. */
  lemma MarksExact(v: Rcv, a: int, b: int, msgno: int, keep: bool)
    requires Core(v) && a <= b && 0 <= b && a < |v.w|
    ensures var d := DropMarks(v, a, b, msgno, keep);
      && |d.v.w| == |v.w|
      && (forall k :: 0 <= k < |v.w| ==> d.v.w[k] == if Drops(v.w, a, b, msgno, keep, k) then DROP else v.w[k])
      && (d.minOff == -1 || Drops(v.w, a, b, msgno, keep, d.minOff))
  {
    CoreUnits(v);
    hide Core, DropBack, BackMarks;
    var lo, end := Max(0, a), Min(|v.w| - 1, b + 1);
    if lo < end {
      BothExact(DropMsg(v, msgno > 0, 0, -1), lo, end, msgno, keep);
    }
  }
}
