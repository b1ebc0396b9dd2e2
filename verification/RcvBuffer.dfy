/**
 * The receiver buffer as the source keeps it: a fixed array used as a ring, positions that wrap, and loops
 * that walk the ring. Every method is proved to do to the window what the model says.
 */
module RcvBuffer {
  import opened SeqNo
  import opened Packets
  import opened RcvModel
  import opened RcvInvariant
  import opened RcvIntact
  import opened RcvRing
  import opened RcvRun
  import opened RcvSearch
  import opened RcvSound

  class ReceiverBuffer {
    const messageApi: bool
    const tsbpd: bool
    const entries: array<Entry>
    ghost const isn: nat
    ghost var base: nat
    ghost var excess: nat    // by how much numOutOfOrder exceeds the order-clear packets stored

    var startSeqNo: int
    var startPos: int
    var firstNonreadPos: int
    var maxPosOff: int
    var notch: int
    var numOutOfOrder: int
    var firstReadableOutOfOrder: int
    var bytesCount: int
    var pktsCount: int
    var taken: set<nat>      // the units of the unit queue that this buffer has made taken

    ghost predicate Positions()
      reads this
    {
      && IsPos(startPos, entries.Length)
      && IsPos(firstNonreadPos, entries.Length)
      && (firstReadableOutOfOrder == -1 || IsPos(firstReadableOutOfOrder, entries.Length))
    }

    ghost function View(): (v: Rcv)
      requires Positions()
      reads this, entries
    {
      Rcv(messageApi, tsbpd, isn, Rotated(entries[..], startPos), base,
          OffPos(startPos, firstNonreadPos, entries.Length), maxPosOff,
          if firstReadableOutOfOrder == -1 then -1 else OffPos(startPos, firstReadableOutOfOrder, entries.Length),
          numOutOfOrder, notch, bytesCount, pktsCount, taken)
    }

    ghost predicate Valid()
      reads this, entries
    {
      Positions() && startSeqNo == Wrap(isn + base) && Intact(View(), excess)
    }

    /** The call comes back: the search for a message to read out of order that it may begin ends. */
    ghost predicate WillReturn(op: Op)
      requires Positions()
      reads this, entries
    {
      Usable(View()) && Enabled(View(), op) && Returns(View(), op)
    }

    /** Every call comes back as long as the order-clear count is right. */
    lemma AlwaysReturns(op: Op)
      requires Valid() && excess == 0 && Enabled(View(), op)
      ensures WillReturn(op)
    {
      hide Sound, Intact, Returns, View;
      SoundIntact(View());
      SoundReturns(View(), op);
    }

    constructor (initSeqNo: nat, size: nat, messageApi: bool, tsbpd: bool)
      requires 0 < size < MAX_SEQNO && ValidSeqNo(initSeqNo)
      ensures Valid() && fresh(entries) && View() == Init(initSeqNo, size, messageApi, tsbpd) && excess == 0
    {
      this.messageApi, this.tsbpd := messageApi, tsbpd;
      entries := new Entry[size](_ => EMPTY);
      isn, base, excess := initSeqNo, 0, 0;
      startSeqNo, startPos, firstNonreadPos, maxPosOff, notch := initSeqNo, 0, 0, 0, 0;
      numOutOfOrder, firstReadableOutOfOrder := 0, -1;
      bytesCount, pktsCount, taken := 0, 0, {};
      new;
      InitStruct(initSeqNo, size, messageApi, tsbpd);
      StructSound(Init(initSeqNo, size, messageApi, tsbpd));
      SoundIntact(Init(initSeqNo, size, messageApi, tsbpd));
      hide Intact;
      assert Rotated(entries[..], 0) == seq(size, _ => EMPTY);
    }

    lemma SlotAt(pos: int)
      requires Positions() && IsPos(pos, entries.Length)
      ensures 0 <= OffPos(startPos, pos, entries.Length) < |View().w| == entries.Length
      ensures View().w[OffPos(startPos, pos, entries.Length)] == entries[pos]
    {
      RotatedAt(entries[..], startPos);
    }

    // ---------------------------------------------------------------- single-slot steps

    method SetEntry(pos: int, e: Entry)
      requires Positions() && IsPos(pos, entries.Length)
      modifies entries
      ensures Positions()
      ensures View() == old(View()).(w := old(View().w)[OffPos(startPos, pos, entries.Length) := e])
    {
      RotatedUpdate(entries[..], startPos, pos, e);
      entries[pos] := e;
      assert entries[..] == old(entries[..])[pos := e];
    }

    /** Moves the start position to the next slot. */
    method MoveStart()
      requires Positions()
      modifies this`startPos, this`base
      ensures Positions() && View() == Advance(old(View()))
      ensures startPos == IncPos(old(startPos), 1, entries.Length)
    {
      RotatedMove(entries[..], startPos);
      IncPosIs(startPos, 1, entries.Length);
      startPos := IncPos(startPos, 1, entries.Length);
      base := base + 1;
    }

    /** releaseUnitInPos: empties the slot and gives its unit back to the queue, which expects it to be taken. */
    method ReleaseUnitInPos(pos: int)
      requires Positions() && IsPos(pos, entries.Length)
      requires entries[pos].unit.Some? ==> entries[pos].unit.value.id in taken
      modifies entries, this`taken
      ensures Positions()
      ensures var u := old(entries[pos]).unit;
        View() == old(View()).(w := old(View().w)[OffPos(startPos, pos, entries.Length) := EMPTY],
                               taken := if u.Some? then old(taken) - {u.value.id} else old(taken))
    {
      var tmp := entries[pos].unit;
      SetEntry(pos, EMPTY);
      if tmp.Some? {
        taken := taken - {tmp.value.id};
      }
    }

    /** dropUnitInPos */
    method DropUnitInPos(pos: int) returns (dropped: bool)
      requires Positions() && IsPos(pos, entries.Length) && Loose(View(), excess)
      modifies entries, this`taken, this`numOutOfOrder, this`firstReadableOutOfOrder
      ensures Positions() && View() == DropAt(old(View()), OffPos(startPos, pos, entries.Length))
      ensures dropped == old(entries[pos]).unit.Some?
    {
      SlotAt(pos);
      if entries[pos].unit.None? {
        return false;
      }
      LooseStored(View(), OffPos(startPos, pos, entries.Length), excess);
      hide Loose;
      if tsbpd {
        // the TSBPD time base is updated here
      } else if messageApi && !entries[pos].unit.value.packet.inorder {
        numOutOfOrder := numOutOfOrder - 1;
        if pos == firstReadableOutOfOrder {
          firstReadableOutOfOrder := -1;
        }
      }
      ReleaseUnitInPos(pos);
      return true;
    }

    /** One iteration of releaseNextFillerEntries. */
    method ReleaseFirst()
      requires Positions() && startSeqNo == Wrap(isn + base) && entries[startPos].unit.None?
      modifies entries, this`taken, this`startPos, this`base, this`startSeqNo, this`maxPosOff
      ensures Positions() && startSeqNo == Wrap(isn + base)
      ensures View() == FillerFront(old(View()))
    {
      WrapInc(isn + base);
      startSeqNo := IncSeq(startSeqNo);
      ReleaseUnitInPos(startPos);
      MoveStart();
      maxPosOff := maxPosOff - 1;
      if maxPosOff < 0 {
        maxPosOff := 0;
      }
    }

    /** releaseNextFillerEntries */
    method ReleaseNextFillerEntries()
      requires Positions() && startSeqNo == Wrap(isn + base) && Loose(View(), excess)
      modifies entries, this`taken, this`startPos, this`base, this`startSeqNo, this`maxPosOff
      ensures Positions() && startSeqNo == Wrap(isn + base)
      ensures View() == ReleaseFillers(old(View()))
    {
      hide Loose, View, FillerFront;
      LooseRanged(View(), excess);
      SlotAt(startPos);
      while entries[startPos].status == Read || entries[startPos].status == Drop
        invariant Positions() && startSeqNo == Wrap(isn + base)
        invariant Loose(View(), excess) && |View().w| > 0 && View().w[0] == entries[startPos]
        invariant ReleaseFillers(View()) == ReleaseFillers(old(View()))
        decreases Lead(View().w)
      {
        ghost var v := View();
        LooseAvail(v, 0, excess);
        FillerFrontLoose(v, excess);
        LooseRanged(v, excess);
        LeadAfterPop(v.w);
        FillerWindow(v);
        ReleaseFirst();
        SlotAt(startPos);
      }
    }

    // ---------------------------------------------------------------- scans that change nothing

    /** The inner loop of updateNonreadPos: the position after the packet that ends the run at pos, or pos itself. */
    method ScanReadable(pos: int) returns (next: int)
      requires Positions() && IsPos(pos, entries.Length) && Intact(View(), excess) && entries[pos].unit.Some?
      ensures IsPos(next, entries.Length)
      ensures 0 <= Off(pos) < |View().w| == entries.Length
      ensures !messageApi ==> Off(next) == Off(pos) + 1
      ensures messageApi ==> Off(next) == (match RunEnd(View().w, Off(pos)) case None => Off(pos) case Some(e) => e)
    {
      hide Intact, Loose, View;
      ghost var w, k := View().w, Off(pos);
      SlotAt(pos);
      IntactFacts(View(), excess);
      ViewSize();
      var endPos := IncPos(startPos, maxPosOff, entries.Length);
      OffIncPos(startPos, maxPosOff, entries.Length);
      next := pos;
      var i := pos;
      while i != endPos
        invariant IsPos(i, entries.Length) && k <= Off(i) <= maxPosOff && next == pos
        invariant !messageApi ==> i == pos
        invariant messageApi ==> RunEnd(w, Off(i)) == RunEnd(w, k)
        decreases maxPosOff - Off(i)
      {
        SlotAt(i);
        SameOff(startPos, i, endPos, entries.Length);
        NextPos(startPos, i, entries.Length);
        if entries[i].unit.None? || entries[pos].status != Avail {
          LooseAvail(View(), k, excess);
          return pos;
        }
        if !messageApi || entries[i].unit.value.packet.last {
          return IncPos(i, 1, entries.Length);
        }
        i := IncPos(i, 1, entries.Length);
      }
      SlotAt(i);
    }

    ghost function Off(pos: int): int
      reads this
    {
      OffPos(startPos, pos, entries.Length)
    }

    lemma ViewSize()
      requires Positions()
      ensures |View().w| == entries.Length && View().maxOff == maxPosOff && View().nonread == Off(firstNonreadPos)
      ensures View().numOoo == numOutOfOrder && View().messageApi == messageApi && View().tsbpd == tsbpd
      ensures firstReadableOutOfOrder == -1 ==> View().ooo == -1
      ensures firstReadableOutOfOrder != -1 ==> View().ooo == Off(firstReadableOutOfOrder)
    {
    }

    method SetNonread(pos: int)
      requires Positions() && IsPos(pos, entries.Length)
      modifies this`firstNonreadPos
      ensures Positions() && View() == old(View()).(nonread := Off(pos)) && firstNonreadPos == pos
    {
      firstNonreadPos := pos;
    }

    /** updateNonreadPos */
    method UpdateNonreadPos()
      requires Positions() && Intact(View(), excess)
      modifies this`firstNonreadPos
      ensures Positions() && View() == UpdateNonread(old(View()))
    {
      hide Intact, Loose, View, RunEnd;
      ghost var v := View();
      IntactFacts(v, excess);
      ViewSize();
      SlotAt(firstNonreadPos);
      if maxPosOff == 0 {
        return;
      }
      var pos := firstNonreadPos;
      while entries[pos].unit.Some? && entries[pos].status == Avail
        invariant Positions() && pos == firstNonreadPos && View() == v.(nonread := Off(pos))
        invariant 0 <= Off(pos) < |v.w| && Extend(v.w, Off(pos), messageApi) == Extend(v.w, v.nonread, messageApi)
        invariant v.w[Off(pos)] == entries[pos]
        decreases entries.Length - Off(pos)
      {
        if messageApi && !entries[pos].unit.value.packet.first {
          break;
        }
        NonreadIntact(v, Off(pos), excess);
        var next := ScanReadable(pos);
        SlotAt(next);
        SameOff(startPos, pos, next, entries.Length);
        SetNonread(next);
        if pos == firstNonreadPos || entries[firstNonreadPos].unit.None? {
          break;
        }
        pos := firstNonreadPos;
      }
      LooseAvail(v, Off(pos), excess);
    }

    /** scanNotInOrderMessageRight: where the last packet of the message is, or -1 */
    method ScanNotInOrderMessageRight(from: int, msgNo: int) returns (r: int)
      requires Positions() && Intact(View(), excess) && IsPos(from, entries.Length) && entries[from].unit.Some?
      ensures -1 <= r
      ensures r > -1 <==> ScanRight(View().w, Off(from) + 1, msgNo)
    {
      hide Loose, View;
      ghost var w := View().w;
      IntactFacts(View(), excess);
      ViewSize();
      SlotAt(from);
      var lastPos := IncPos(startPos, maxPosOff - 1, entries.Length);
      OffIncPos(startPos, maxPosOff - 1, entries.Length);
      SameOff(startPos, from, lastPos, entries.Length);
      if from == lastPos {
        return -1;
      }
      var pos := from;
      while true
        invariant IsPos(pos, entries.Length) && Off(from) <= Off(pos) < maxPosOff
        invariant ScanRight(w, Off(from) + 1, msgNo) == ScanRight(w, Off(pos) + 1, msgNo)
        invariant w == View().w
        decreases maxPosOff - Off(pos)
      {
        NextPos(startPos, pos, entries.Length);
        pos := IncPos(pos, 1, entries.Length);
        SlotAt(pos);
        SameOff(startPos, pos, lastPos, entries.Length);
        if entries[pos].unit.None? {
          return -1;
        }
        if entries[pos].unit.value.packet.msgno != msgNo {
          return -1;
        }
        if entries[pos].unit.value.packet.last {
          return pos;
        }
        if pos == lastPos {
          return -1;
        }
      }
    }

    /** scanNotInOrderMessageLeft: where the first packet of the message is, or -1 */
    method ScanNotInOrderMessageLeft(from: int, msgNo: int) returns (r: int)
      requires Positions() && IsPos(from, entries.Length)
      ensures r == -1 || IsPos(r, entries.Length)
      ensures ScanLeft(View().w, Off(from) - 1, msgNo) == if r == -1 then -1 else Off(r)
    {
      hide View;
      ghost var w := View().w;
      SameOff(startPos, from, startPos, entries.Length);
      if from == startPos {
        return -1;
      }
      var pos := from;
      while true
        invariant IsPos(pos, entries.Length) && 0 < Off(pos)
        invariant ScanLeft(w, Off(from) - 1, msgNo) == ScanLeft(w, Off(pos) - 1, msgNo)
        invariant w == View().w
        decreases Off(pos)
      {
        pos := DecPos(pos, entries.Length);
        SlotAt(pos);
        SameOff(startPos, pos, startPos, entries.Length);
        if entries[pos].unit.None? {
          return -1;
        }
        if entries[pos].unit.value.packet.msgno != msgNo {
          return -1;
        }
        if entries[pos].unit.value.packet.first {
          return pos;
        }
        if pos == startPos {
          return -1;
        }
      }
    }

    method SetOutOfOrder(pos: int)
      requires Positions() && (pos == -1 || IsPos(pos, entries.Length))
      modifies this`firstReadableOutOfOrder
      ensures Positions() && View() == old(View()).(ooo := if pos == -1 then -1 else Off(pos))
    {
      firstReadableOutOfOrder := pos;
    }

    /** onInsertNotInOrderPacket */
    method OnInsertNotInOrderPacket(insertPos: int)
      requires Positions() && Intact(View(), excess) && IsPos(insertPos, entries.Length)
      requires entries[insertPos].unit.Some?
      modifies this`firstReadableOutOfOrder
      ensures 0 <= Off(insertPos) < |old(View()).w| && Has(old(View()).w, Off(insertPos))
      ensures Positions() && View() == OnInsert(old(View()), Off(insertPos))
    {
      hide Intact, View;
      ViewSize();
      SlotAt(insertPos);
      if numOutOfOrder == 0 {
        return;
      }
      if firstReadableOutOfOrder >= 0 {
        return;
      }
      var pkt := entries[insertPos].unit.value.packet;
      var msgNo := pkt.msgno;
      var hasLast := pkt.last;
      if !hasLast {
        var l := ScanNotInOrderMessageRight(insertPos, msgNo);
        hasLast := -1 < l;
      }
      if !hasLast {
        return;
      }
      var firstPktPos := insertPos;
      if !pkt.first {
        firstPktPos := ScanNotInOrderMessageLeft(insertPos, msgNo);
      }
      if firstPktPos < 0 {
        return;
      }
      SetOutOfOrder(firstPktPos);
    }

    /** checkFirstReadableOutOfOrder */
    method CheckFirstReadableOutOfOrder() returns (ok: bool)
      requires Positions() && Intact(View(), excess)
      ensures ok == CheckOoo(View())
    {
      hide Loose, View;
      ghost var v := View();
      ViewSize();
      IntactFacts(v, excess);
      if numOutOfOrder <= 0 || firstReadableOutOfOrder < 0 || maxPosOff == 0 {
        return false;
      }
      var endPos := IncPos(startPos, maxPosOff, entries.Length);
      OffIncPos(startPos, maxPosOff, entries.Length);
      var msgno: int := -1;
      var pos := firstReadableOutOfOrder;
      ghost var head := Off(pos);
      SlotAt(pos);
      while pos != endPos
        invariant IsPos(pos, entries.Length) && head <= Off(pos) && v == View()
        invariant msgno == -1 <==> Off(pos) == head
        invariant msgno != -1 ==> Off(pos) <= maxPosOff && Has(v.w, head) && msgno == Pkt(v.w, head).msgno
        invariant msgno != -1 ==> CheckRun(v.w, head, msgno) == CheckRun(v.w, Off(pos), msgno)
        decreases entries.Length - Off(pos)
      {
        SlotAt(pos);
        SameOff(startPos, pos, endPos, entries.Length);
        NextPos(startPos, pos, entries.Length);
        if entries[pos].unit.None? {
          return false;
        }
        var pkt := entries[pos].unit.value.packet;
        if pkt.inorder {
          return false;
        }
        if msgno == -1 {
          msgno := pkt.msgno;
        } else if msgno != pkt.msgno {
          return false;
        }
        if pkt.last {
          return true;
        }
        pos := IncPos(pos, 1, entries.Length);
      }
      SlotAt(pos);
      return false;
    }

    /**
     * updateFirstReadableOutOfOrder, where it returns. The loop goes round the ring: each time it comes by the
     * order-clear packet at c, one less is left to see.
     */
    method UpdateFirstReadableOutOfOrder()
      requires Positions() && Intact(View(), excess) && Halts(View())
      modifies this`firstReadableOutOfOrder
      ensures Positions() && View() == UpdateOoo(old(View()))
    {
      hide Intact, View, Halts, OnTheWay, FindOoo, CountIf, SearchStep;
      ghost var v := View();
      ghost var w := v.w;
      ViewSize();
      HaltsIff(v, excess);
      IntactSays(v, excess);
      SameOff(startPos, firstNonreadPos, startPos, entries.Length);
      if firstNonreadPos != startPos || numOutOfOrder <= 0 || firstReadableOutOfOrder >= 0 {
        return;
      }
      if maxPosOff == 0 {
        return;
      }
      ghost var c := SomeClear(w);
      Untracked(v, excess);
      BeginsOnTheWay(v);
      var remain := numOutOfOrder;
      var lastPos := IncPos(startPos, maxPosOff - 1, entries.Length);
      OffIncPos(startPos, maxPosOff - 1, entries.Length);
      var posFirst, msgNo: int := -1, -1;
      var pos := startPos;
      ghost var s := SearchBegin(v);
      SameOff(startPos, startPos, startPos, entries.Length);
      while remain != 0
        invariant Positions() && IsPos(pos, entries.Length) && View() == v && 0 <= remain
        invariant posFirst == -1 || IsPos(posFirst, entries.Length)
        invariant s == Going(Off(pos), remain, if posFirst == -1 then -1 else Off(posFirst), msgNo)
        invariant InRing(w, s) && OnTheWay(w, s)
        decreases remain, Ahead(Off(pos), c, |w|)
      {
        SlotAt(pos);
        SameOff(startPos, pos, lastPos, entries.Length);
        NextPos(startPos, pos, entries.Length);
        StepOnTheWay(w, maxPosOff, s);
        SearchStepIs(w, maxPosOff, s);
        s := SearchStep(w, maxPosOff, s);
        if entries[pos].unit.None? || entries[pos].unit.value.packet.inorder {
          posFirst, msgNo := -1, -1;
        } else {
          remain := remain - 1;
          var pkt := entries[pos].unit.value.packet;
          if pkt.first {
            posFirst, msgNo := pos, pkt.msgno;
          }
          if pkt.msgno != msgNo {
            posFirst, msgNo := -1, -1;
          } else {
            if pkt.last {
              EndedFinds(w, s);
              SetOutOfOrder(posFirst);
              return;
            }
            if pos == lastPos {
              EndedFinds(w, s);
              return;
            }
          }
        }
        pos := IncPos(pos, 1, entries.Length);
      }
      SeenAll(w, s, maxPosOff);
    }

    // ---------------------------------------------------------------- operations

    /** Stores a unit in an empty slot and counts it. */
    method Store(pos: int, u: Unit)
      requires Positions() && IsPos(pos, entries.Length) && u.id !in taken
      modifies entries, this`taken, this`bytesCount, this`pktsCount, this`numOutOfOrder
      ensures 0 <= Off(pos) < |old(View()).w|
      ensures Positions() && View() == Stored(old(View()), u, Off(pos)) && entries[pos] == Entry(Some(u), Avail)
    {
      SlotAt(pos);
      taken := taken + {u.id};
      SetEntry(pos, Entry(Some(u), Avail));
      SlotAt(pos);
      bytesCount := bytesCount + |u.packet.payload|;
      pktsCount := pktsCount + 1;
      if !tsbpd && messageApi && !u.packet.inorder {
        numOutOfOrder := numOutOfOrder + 1;
      }
    }

    /** The part of insert that runs once the slot is known to be empty. */
    method Accept(pos: int, u: Unit)
      requires Positions() && Intact(View(), excess) && IsPos(pos, entries.Length) && entries[pos].status == Empty
      requires Off(pos) < maxPosOff
      requires u.id !in taken && u.packet.seqno == Wrap(isn + base + Off(pos))
      modifies entries, this`taken, this`bytesCount, this`pktsCount, this`numOutOfOrder, this`firstReadableOutOfOrder,
               this`firstNonreadPos
      ensures 0 <= Off(pos) < |old(View()).w|
      ensures 0 <= Placed(old(View()), u, Off(pos)).nonread <= |Placed(old(View()), u, Off(pos)).w|
      ensures Positions() && View() == UpdateNonread(Placed(old(View()), u, Off(pos)))
    {
      hide View, Intact, Placed, Stored, OnInsert;
      ghost var v, k := View(), Off(pos);
      ViewSize();
      ViewSeq();
      SlotAt(pos);
      PlacedIntact(v, u, k, excess);
      PlacedVia(v, u, k);
      Store(pos, u);
      if !tsbpd && messageApi && !u.packet.inorder {
        OnInsertNotInOrderPacket(pos);
      }
      UpdateNonreadPos();
    }

    method Place(u: Unit) returns (ret: int)
      requires Positions() && Intact(View(), excess) && startSeqNo == Wrap(isn + base) && ValidSeqNo(u.packet.seqno)
      requires u.id !in taken
      modifies entries, this`taken, this`bytesCount, this`pktsCount, this`numOutOfOrder, this`firstReadableOutOfOrder,
               this`firstNonreadPos, this`maxPosOff
      ensures |old(View()).w| > 0 && 0 <= old(View()).nonread <= |old(View()).w|
      ensures Positions() && (View(), ret) == RcvModel.Insert(old(View()), u)
    {
      hide View, Intact, Placed, UpdateNonread, Wrap, IncPos, SeqOff;
      ghost var v := View();
      IntactFacts(v, excess);
      LooseRanged(v, excess);
      ViewSize();
      ViewSeq();
      var offset := SeqOff(startSeqNo, u.packet.seqno);
      if offset < 0 {
        return INSERT_BEHIND;
      }
      if offset >= entries.Length - 1 {
        return INSERT_AHEAD;
      }
      SeqOffLands(isn + base, u.packet.seqno);
      var pos := IncPos(startPos, offset, entries.Length);
      OffIncPos(startPos, offset, entries.Length);
      SlotAt(pos);
      HigherIntact(v, Max(maxPosOff, offset + 1), excess);
      if offset >= maxPosOff {
        SetMaxPosOff(offset + 1);
      }
      if entries[pos].status != Empty {
        return INSERT_DUPLICATE;
      }
      Accept(pos, u);
      return INSERT_OK;
    }

    /** insert: 0 on success, -1 if the slot is not empty, -2 if before the start, -3 if beyond the capacity */
    method Insert(u: Unit) returns (ret: int)
      requires Valid() && ValidSeqNo(u.packet.seqno) && u.id !in taken
      modifies this, entries
      ensures Valid() && excess == old(excess)
      ensures (View(), ret) == RcvModel.Insert(old(View()), u)
    {
      hide Intact, View, RcvModel.Insert;
      ViewSeq();
      InsertIntact(View(), u, excess);
      ret := Place(u);
    }

    /** One iteration of the loop of dropUpTo. */
    method DropFirst()
      requires Positions() && Loose(View(), excess)
      modifies entries, this`taken, this`numOutOfOrder, this`firstReadableOutOfOrder, this`startPos, this`base
      ensures |old(View()).w| > 0
      ensures Positions() && View() == DropFront(old(View())) && base == old(base) + 1
    {
      hide Loose;
      LooseRanged(View(), excess);
      var _ := DropUnitInPos(startPos);
      SlotAt(startPos);
      SetEntry(startPos, entries[startPos].(status := Empty));
      MoveStart();
    }

    /** The loop of dropUpTo: moves the start len slots ahead, counting missing and present packets. */
    method DropSlots(len: nat) returns (dropped: nat, discarded: nat)
      requires Positions() && Loose(View(), excess)
      modifies entries, this`taken, this`numOutOfOrder, this`firstReadableOutOfOrder, this`startPos, this`base
      ensures |old(View()).w| > 0
      ensures Positions() && DropUp(View(), dropped, discarded) == DropN(DropUp(old(View()), 0, 0), len)
      ensures base == old(base) + len
    {
      hide Loose, View, DropFront;
      dropped, discarded := 0, 0;
      var rest := len;
      LooseRanged(View(), excess);
      while rest > 0
        invariant Positions() && Loose(View(), excess) && |View().w| > 0
        invariant 0 <= rest <= len && base == old(base) + len - rest
        invariant DropN(DropUp(View(), dropped, discarded), rest) == DropN(DropUp(old(View()), 0, 0), len)
      {
        ghost var d := DropUp(View(), dropped, discarded);
        SlotAt(startPos);
        DropFrontLoose(View(), excess);
        if entries[startPos].status == Avail {
          discarded := discarded + 1;
        } else if entries[startPos].status == Empty {
          dropped := dropped + 1;
        }
        DropFirst();
        assert DropUp(View(), dropped, discarded) == DropStep(d);
        LooseRanged(View(), excess);
        rest := rest - 1;
      }
    }

    /** What dropUpTo does once the start has moved. */
    method SettleDrop()
      requires Positions() && startSeqNo == Wrap(isn + base) && Intact(View(), excess) && |View().w| > 0
      requires View().TracksOrder() ==> Halts(DropSettled(View()))
      modifies this, entries
      ensures Positions() && startSeqNo == Wrap(isn + base) && excess == old(excess)
      ensures View() == AfterDrop(old(View()))
    {
      hide Intact, View, Halts, ReleaseFillers, UpdateNonread, UpdateOoo;
      ghost var v := View();
      IntactFacts(v, excess);
      ReleasedIntact(v, excess);
      DropSettledIntact(v, excess);
      ReleaseNextFillerEntries();
      ghost var v1 := View();
      IntactFacts(v1, excess);
      ViewSize();
      IsInRangeIff(startPos, maxPosOff, entries.Length, firstNonreadPos);
      SameOff(startPos, startPos, startPos, entries.Length);
      NonreadIntact(v1, 0, excess);
      if !IsInRange(startPos, maxPosOff, entries.Length, firstNonreadPos) {
        SetNonread(startPos);
        UpdateNonreadPos();
      }
      if !tsbpd && messageApi {
        UpdateFirstReadableOutOfOrder();
      }
    }

    /** dropUpTo: numbers of missing and of discarded packets before seqno */
    method DropUpTo(seqno: int) returns (dropped: nat, discarded: nat)
      requires Valid() && ValidSeqNo(seqno) && WillReturn(OpDropUpTo(seqno))
      modifies this, entries
      ensures Valid() && excess == old(excess)
      ensures DropUp(View(), dropped, discarded) == RcvModel.DropUpTo(old(View()), seqno)
    {
      hide Intact, View, DropN, AfterDrop, RcvModel.DropUpTo, Halts;
      DropUpToIntact(View(), seqno, excess);
      dropped, discarded := DropTo(seqno);
    }

    method DropTo(seqno: int) returns (dropped: nat, discarded: nat)
      requires Positions() && Intact(View(), excess) && startSeqNo == Wrap(isn + base) && ValidSeqNo(seqno)
      requires Usable(View()) && (DropSearch(View(), seqno).Some? ==> Halts(DropSearch(View(), seqno).value))
      modifies this, entries
      ensures |old(View()).w| > 0
      ensures Positions() && startSeqNo == Wrap(isn + base) && excess == old(excess)
      ensures DropUp(View(), dropped, discarded) == RcvModel.DropUpTo(old(View()), seqno)
    {
      hide View, DropN, AfterDrop, Intact, Loose, Halts, DropSettled;
      ghost var v := View();
      ViewSize();
      ViewSeq();
      IntactFacts(v, excess);
      var len := SeqOff(startSeqNo, seqno);
      if len <= 0 {
        return 0, 0;
      }
      SeqOffLands(isn + base, seqno);
      PassedIntact(v, len, excess);
      LowerLoose(v, Max(0, v.maxOff - len), excess);
      SetMaxPosOff(maxPosOff - len);
      if maxPosOff < 0 {
        SetMaxPosOff(0);
      }
      dropped, discarded := DropSlots(len);
      SetStartSeqNo(seqno);
      SettleDrop();
    }

    /** dropAll */
    method DropAll() returns (n: nat)
      requires Valid() && WillReturn(OpDropAll)
      modifies this, entries
      ensures Valid() && excess == old(excess)
      ensures View() == RcvModel.DropAll(old(View())).v
      ensures n == RcvModel.DropAll(old(View())).dropped + RcvModel.DropAll(old(View())).discarded
    {
      hide Intact, Loose, View, RcvModel.DropUpTo, Halts, DropSearch;
      ViewSize();
      ViewSeq();
      IntactFacts(View(), excess);
      LooseRanged(View(), excess);
      if maxPosOff == 0 {
        return 0;
      }
      WrapIncBy(isn + base, maxPosOff);
      var endSeqNo := IncSeqBy(startSeqNo, maxPosOff);
      var dropped, discarded := DropUpTo(endSeqNo);
      return dropped + discarded;
    }

    /** Drops what a slot holds and marks it. */
    method MarkDropped(pos: int)
      requires Positions() && Loose(View(), excess) && IsPos(pos, entries.Length)
      modifies entries, this`taken, this`numOutOfOrder, this`firstReadableOutOfOrder
      ensures 0 <= Off(pos) < |old(View()).w|
      ensures Positions() && View() == MarkDrop(old(View()), Off(pos))
    {
      hide Loose;
      SlotAt(pos);
      var _ := DropUnitInPos(pos);
      SlotAt(pos);
      SetEntry(pos, entries[pos].(status := Drop));
    }

    /** The first loop of dropMessage. */
    method DropByRange(startOff: int, endOff: int, byMsgNo0: bool, keep: bool)
      returns (byMsgNo: bool, count: nat, minOff: int)
      requires Positions() && Loose(View(), excess) && 0 <= startOff <= endOff < entries.Length
      modifies entries, this`taken, this`numOutOfOrder, this`firstReadableOutOfOrder
      ensures |old(View()).w| == entries.Length
      ensures Positions() && Loose(View(), excess)
      ensures DropMsg(View(), byMsgNo, count, minOff) ==
              DropRange(DropMsg(old(View()), byMsgNo0, 0, -1), startOff, endOff, keep)
    {
      hide Loose, View, MarkDrop;
      ViewSize();
      byMsgNo, count, minOff := byMsgNo0, 0, -1;
      var i := IncPos(startPos, startOff, entries.Length);
      var endPos := IncPos(startPos, endOff, entries.Length);
      OffIncPos(startPos, startOff, entries.Length);
      OffIncPos(startPos, endOff, entries.Length);
      ghost var goal := DropRange(DropMsg(View(), byMsgNo0, 0, -1), startOff, endOff, keep);
      while i != endPos
        invariant Positions() && Loose(View(), excess) && IsPos(i, entries.Length) && 0 <= Off(i) <= endOff
        invariant |View().w| == entries.Length
        invariant goal == DropRange(DropMsg(View(), byMsgNo, count, minOff), Off(i), endOff, keep)
        decreases endOff - Off(i)
      {
        SlotAt(i);
        SameOff(startPos, i, endPos, entries.Length);
        NextPos(startPos, i, entries.Length);
        if entries[i].status != Drop {
          var skip := false;
          if entries[i].unit.Some? {
            var pkt := entries[i].unit.value.packet;
            if keep && pkt.first && pkt.last {
              byMsgNo := false;
              skip := true;
            } else if byMsgNo && pkt.first && !pkt.last {
              byMsgNo := false;
            }
          }
          if !skip {
            MarkDropLoose(View(), Off(i), excess);
            MarkDropIs(View(), Off(i));
            MarkDropped(i);
            count := count + 1;
            if minOff == -1 {
              minOff := OffPos(startPos, i, entries.Length);
            }
          }
        }
        i := IncPos(i, 1, entries.Length);
      }
      SameOff(startPos, i, endPos, entries.Length);
    }

    /** The second loop of dropMessage. */
    method DropByMessage(startOff: int, msgno: int, keep: bool, count0: nat, minOff0: int)
      returns (count: nat, minOff: int)
      requires Positions() && Loose(View(), excess) && 0 <= startOff < entries.Length - 1
      modifies entries, this`taken, this`numOutOfOrder, this`firstReadableOutOfOrder
      ensures |old(View()).w| == entries.Length
      ensures Positions()
      ensures DropMsg(View(), true, count, minOff) ==
              DropBack(DropMsg(old(View()), true, count0, minOff0), startOff, msgno, keep)
    {
      hide Loose, View, MarkDrop;
      ViewSize();
      count, minOff := count0, minOff0;
      var i := IncPos(startPos, startOff, entries.Length);
      OffIncPos(startPos, startOff, entries.Length);
      var stopPos := DecPos(startPos, entries.Length);
      ghost var k := startOff;
      ghost var goal := DropBack(DropMsg(View(), true, count0, minOff0), startOff, msgno, keep);
      while i != stopPos
        invariant Positions() && Loose(View(), excess) && IsPos(i, entries.Length) && -1 <= k < entries.Length - 1
        invariant Off(i) == if k == -1 then entries.Length - 1 else k
        invariant |View().w| == entries.Length
        invariant goal == DropBack(DropMsg(View(), true, count, minOff), k, msgno, keep)
        decreases k + 1
      {
        SlotAt(i);
        SameOff(startPos, i, stopPos, entries.Length);
        if entries[i].unit.Some? {
          var pkt := entries[i].unit.value.packet;
          if pkt.msgno != msgno {
            return;
          }
          if keep && pkt.first && pkt.last {
            return;
          }
          MarkDropLoose(View(), Off(i), excess);
          MarkDropIs(View(), Off(i));
          count := count + 1;
          MarkDropped(i);
          minOff := OffPos(startPos, i, entries.Length);
          if pkt.first && !pkt.last {
            return;
          }
        }
        i := DecPos(i, entries.Length);
        k := k - 1;
      }
    }

    /** The end of dropMessage, once the entries are marked. */
    method SettleMarks(needUpdate: bool)
      requires Positions() && startSeqNo == Wrap(isn + base) && Intact(View(), excess) && |View().w| > 0
      requires View().TracksOrder() ==> Halts(MarksSettled(View(), needUpdate))
      modifies this, entries
      ensures Positions() && startSeqNo == Wrap(isn + base) && excess == old(excess)
      ensures View() == AfterMarks(old(View()), needUpdate)
    {
      hide Intact, View, Halts, ReleaseFillers, UpdateNonread, UpdateOoo, CheckOoo;
      ghost var v := View();
      IntactFacts(v, excess);
      ReleasedIntact(v, excess);
      MarksSettledIntact(v, needUpdate, excess);
      ReleaseNextFillerEntries();
      ghost var v1 := View();
      IntactFacts(v1, excess);
      ViewSize();
      SameOff(startPos, startPos, startPos, entries.Length);
      NonreadIntact(v1, 0, excess);
      UpdateNonreadIntact(v1.(nonread := 0), excess);
      if needUpdate {
        SetNonread(startPos);
        UpdateNonreadPos();
      }
      if !tsbpd && messageApi {
        var ok := CheckFirstReadableOutOfOrder();
        if !ok {
          SetOutOfOrder(-1);
        }
        UpdateFirstReadableOutOfOrder();
      }
    }

    method DropMarked(a: int, b: int, msgno: int, keep: bool) returns (count: nat)
      requires Positions() && startSeqNo == Wrap(isn + base) && Intact(View(), excess)
      requires a <= b && 0 <= b && a < |View().w|
      requires View().TracksOrder() ==>
        var d := DropMarks(View(), a, b, msgno, keep);
        Halts(MarksSettled(d.v, d.minOff != -1 && d.minOff <= View().nonread))
      modifies this, entries
      ensures Positions() && startSeqNo == Wrap(isn + base) && excess == old(excess)
      ensures var d := DropMarks(old(View()), a, b, msgno, keep);
        View() == AfterMarks(d.v, d.minOff != -1 && d.minOff <= old(View()).nonread) && count == d.count
    {
      hide Intact, View, AfterMarks, MarksSettled, Halts;
      ghost var v := View();
      ViewSize();
      IntactFacts(v, excess);
      MarksIntact(v, a, b, msgno, keep, excess);
      var startOff := Max(0, a);
      var endOff := Min(entries.Length - 1, b + 1);
      var byMsgNo, cnt, minOff := DropByRange(startOff, endOff, msgno > 0, keep);
      ViewSize();
      SameOff(startPos, firstNonreadPos, startPos, entries.Length);
      if byMsgNo && startOff < entries.Length - 1 {
        cnt, minOff := DropByMessage(startOff, msgno, keep, cnt, minOff);
      }
      var needUpdate := minOff != -1 && minOff <= OffPos(startPos, firstNonreadPos, entries.Length);
      count := cnt;
      SettleMarks(needUpdate);
    }

    /** dropMessage: the number of entries newly marked as dropped */
    method DropMessage(seqnolo: int, seqnohi: int, msgno: int, keep: bool) returns (count: nat)
      requires Valid() && SeqOff(startSeqNo, seqnolo) <= SeqOff(startSeqNo, seqnohi)
      requires WillReturn(OpDropMessage(seqnolo, seqnohi, msgno, keep))
      modifies this, entries
      ensures Valid() && excess == old(excess)
      ensures (View(), count) == RcvModel.DropMessage(old(View()), seqnolo, seqnohi, msgno, keep)
    {
      hide Intact, View, DropMarks, AfterMarks, MarksSettled, Halts, Wrap, SeqOff;
      ghost var v := View();
      ViewSize();
      ViewSeq();
      DropMessageIntact(v, seqnolo, seqnohi, msgno, keep, excess);
      var offsetA := SeqOff(startSeqNo, seqnolo);
      var offsetB := SeqOff(startSeqNo, seqnohi);
      if offsetB < 0 || offsetA >= entries.Length {
        return 0;
      }
      count := DropMarked(offsetA, offsetB, msgno, keep);
    }

    // ---------------------------------------------------------------- reading

    /** The count of order-clear packets when one packet is read. */
    method CountRead(inorder: bool)
      requires Positions()
      modifies this`numOutOfOrder
      ensures Positions()
      ensures View() == old(View()).(
        numOoo := if old(numOutOfOrder) != 0 && !inorder then old(numOutOfOrder) - 1 else old(numOutOfOrder))
    {
      if numOutOfOrder != 0 && !inorder {
        numOutOfOrder := numOutOfOrder - 1;
      }
    }

    /** One iteration of the loop of readMessage at the start. */
    method TakeFirst()
      requires Positions() && Loose(View(), excess) && entries[startPos].unit.Some?
      modifies entries, this`taken, this`numOutOfOrder, this`startPos, this`base, this`maxPosOff, this`startSeqNo
      ensures |old(View()).w| > 0
      ensures Positions() && startSeqNo == Wrap(isn + base) && View() == ReadFront(old(View()))
    {
      hide Loose, View, Wrap, IncSeq;
      SlotAt(startPos);
      ViewSize();
      ViewSeq();
      LooseStored(View(), 0, excess);
      WrapInc(isn + base);
      var packet := entries[startPos].unit.value.packet;
      CountRead(packet.inorder);
      ReleaseUnitInPos(startPos);
      MoveStart();
      ViewSize();
      ViewSeq();
      SetMaxPosOff(maxPosOff - 1);
      SetStartSeqNo(IncSeq(packet.seqno));
    }

    /** One iteration of the loop of readMessage away from the start. */
    method TakeAt(pos: int)
      requires Positions() && Loose(View(), excess) && IsPos(pos, entries.Length) && entries[pos].unit.Some?
      modifies entries, this`taken, this`numOutOfOrder
      ensures 0 <= Off(pos) < |old(View()).w|
      ensures Positions() && View() == ReadAt(old(View()), Off(pos))
    {
      hide Loose, View;
      ViewSize();
      ViewSeq();
      SlotAt(pos);
      LooseStored(View(), Off(pos), excess);
      CountRead(entries[pos].unit.value.packet.inorder);
      ReleaseUnitInPos(pos);
      SlotAt(pos);
      SetEntry(pos, entries[pos].(status := Read));
    }

    /** The loop of readMessage when the start follows the reader. */
    method ReadFromStart(len: nat) returns (data: seq<Byte>, pktsRead: nat, bytes: nat, last: bool)
      requires Positions() && startSeqNo == Wrap(isn + base) && Loose(View(), excess)
      modifies entries, this`taken, this`numOutOfOrder, this`startPos, this`base, this`maxPosOff, this`startSeqNo
      ensures |old(View()).w| > 0
      ensures Positions() && startSeqNo == Wrap(isn + base)
      ensures FrontRead(old(View()), View(), len, data, pktsRead, bytes, last)
    {
      hide Loose, View, ReadFront, FrontProgress, FrontRead;
      ghost var v := View();
      LooseRanged(v, excess);
      ghost var got: seq<Byte> := [];
      data, pktsRead, bytes, last := [], 0, 0, false;
      FrontStart(v, len);
      SlotAt(startPos);
      while true
        invariant Positions() && startSeqNo == Wrap(isn + base) && Loose(View(), excess) && |View().w| > 0
        invariant View().w[0] == entries[startPos]
        invariant FrontProgress(v, View(), len, got, data, pktsRead, bytes)
        invariant !last
        decreases ReadEnd(View().w, 0)
      {
        if entries[startPos].unit.None? {
          FrontStops(v, View(), len, got, data, pktsRead, bytes);
          break;
        }
        ghost var u := View();
        var packet := entries[startPos].unit.value.packet;
        FrontStep(v, u, len, got, data, pktsRead, bytes);
        var unitsize := Min(len - |data|, |packet.payload|);
        data := data + packet.payload[..unitsize];
        pktsRead := pktsRead + 1;
        bytes := bytes + |packet.payload|;
        got := got + packet.payload;
        ReadFrontLoose(u, excess);
        TakeFirst();
        if packet.last {
          last := true;
          break;
        }
        LooseRanged(View(), excess);
        SlotAt(startPos);
      }
    }

    /** The loop of readMessage when reading out of order: packets are marked read where they are. */
    method ReadFrom(pos: int, len: nat) returns (data: seq<Byte>, pktsRead: nat, bytes: nat, last: bool)
      requires Positions() && Loose(View(), excess) && IsPos(pos, entries.Length)
      modifies entries, this`taken, this`numOutOfOrder
      ensures 0 <= Off(pos) < |old(View()).w|
      ensures Positions() && OutRead(old(View()), View(), Off(pos), len, data, pktsRead, bytes, last)
    {
      hide Loose, View, ReadAt, OutProgress, OutRead;
      ghost var v, r := View(), Off(pos);
      ViewSize();
      SlotAt(pos);
      ghost var got: seq<Byte> := [];
      data, pktsRead, bytes, last := [], 0, 0, false;
      OutStart(v, r, len);
      var i := pos;
      while true
        invariant Positions() && Loose(View(), excess) && |View().w| == entries.Length && IsPos(i, entries.Length)
        invariant 0 <= r <= Off(i) && OutProgress(v, View(), r, Off(i), len, got, data, pktsRead, bytes)
        invariant !last
        decreases entries.Length - Off(i)
      {
        SlotAt(i);
        if entries[i].unit.None? {
          OutStops(v, View(), r, Off(i), len, got, data, pktsRead, bytes);
          break;
        }
        ghost var u, k := View(), Off(i);
        var packet := entries[i].unit.value.packet;
        LooseStored(u, k, excess);
        OutStep(v, u, r, k, len, got, data, pktsRead, bytes);
        var unitsize := Min(len - |data|, |packet.payload|);
        data := data + packet.payload[..unitsize];
        pktsRead := pktsRead + 1;
        bytes := bytes + |packet.payload|;
        got := got + packet.payload;
        ReadAtLoose(u, k, excess);
        TakeAt(i);
        if packet.last {
          last := true;
          break;
        }
        NextPos(startPos, i, entries.Length);
        i := IncPos(i, 1, entries.Length);
      }
    }

    /** The end of readMessage: fillers, the first non-readable position, the out-of-order record. */
    method SettleRead()
      requires Positions() && startSeqNo == Wrap(isn + base) && Intact(View(), excess) && |View().w| > 0
      requires !tsbpd ==> Halts(ReadSettled(View()))
      modifies this, entries
      ensures Positions() && startSeqNo == Wrap(isn + base) && excess == old(excess)
      ensures View() == AfterRead(old(View()))
    {
      hide Intact, View, Halts, ReleaseFillers, UpdateOoo;
      ghost var v := View();
      ReleasedIntact(v, excess);
      ReadSettledIntact(v, excess);
      IntactFacts(v, excess);
      ReleaseNextFillerEntries();
      ghost var v1 := View();
      IntactFacts(v1, excess);
      ViewSize();
      IsInRangeIff(startPos, maxPosOff, entries.Length, firstNonreadPos);
      SameOff(startPos, startPos, startPos, entries.Length);
      if !IsInRange(startPos, maxPosOff, entries.Length, firstNonreadPos) {
        SetNonread(startPos);
      }
      if !tsbpd {
        UpdateFirstReadableOutOfOrder();
      }
    }

    method CountBytes(pkts: int, bytes: int)
      requires Positions()
      modifies this`bytesCount, this`pktsCount
      ensures Positions() && View() == old(View()).(bytes := old(View()).bytes + bytes, pkts := old(View()).pkts + pkts)
    {
      bytesCount := bytesCount + bytes;
      pktsCount := pktsCount + pkts;
    }

    /** The loop of readMessage from the given position on, and the counters after it. */
    method ConsumeAt(readPos: int, len: nat) returns (data: seq<Byte>)
      requires Positions() && startSeqNo == Wrap(isn + base) && Intact(View(), excess) && IsPos(readPos, entries.Length)
      modifies entries, this`taken, this`numOutOfOrder, this`startPos, this`base, this`maxPosOff, this`startSeqNo
      modifies this`firstReadableOutOfOrder, this`bytesCount, this`pktsCount
      ensures 0 <= old(Off(readPos)) < |old(View()).w|
      ensures Positions() && startSeqNo == Wrap(isn + base)
      ensures var v, r := old(View()), old(Off(readPos)); var e := ReadEnd(v.w, r);
        View() == Consumed(v, r, e) && data == Take(Payloads(v.w, r, e), len)
    {
      hide View, Intact, FrontRead, OutRead, ReadEnd, Payloads, Consumed;
      ghost var v, r := View(), Off(readPos);
      ViewSize();
      IntactFacts(v, excess);
      SlotAt(readPos);
      SameOff(startPos, startPos, startPos, entries.Length);
      SameOff(startPos, readPos, startPos, entries.Length);
      var wasOutOfOrder := readPos == firstReadableOutOfOrder;
      if firstReadableOutOfOrder >= 0 {
        SameOff(startPos, readPos, firstReadableOutOfOrder, entries.Length);
      }
      var pktsRead: int, bytes: int, last: bool;
      if readPos == startPos {
        data, pktsRead, bytes, last := ReadFromStart(len);
      } else {
        data, pktsRead, bytes, last := ReadFrom(readPos, len);
      }
      ConsumedBy(v, View(), r, len, data, pktsRead, bytes, last);
      if last && wasOutOfOrder {
        SetOutOfOrder(-1);
      }
      CountBytes(0 - pktsRead, 0 - bytes);
    }

    method ReadAny(len: nat) returns (data: seq<Byte>)
      requires Positions() && startSeqNo == Wrap(isn + base) && Intact(View(), excess)
      requires WillReturn(OpReadMessage(len))
      modifies this, entries
      ensures |old(View()).w| > 0 && -1 <= old(View()).ooo < |old(View()).w|
      ensures Positions() && startSeqNo == Wrap(isn + base) && excess == old(excess)
      ensures var r := RcvModel.ReadMessage(old(View()), len); View() == r.v && data == r.data
    {
      hide View, Intact, AfterRead, ReadSettled, Halts, ReadEnd, Payloads, Consumed;
      ghost var v := View();
      ViewSize();
      IntactFacts(v, excess);
      SameOff(startPos, firstNonreadPos, startPos, entries.Length);
      SameOff(startPos, startPos, startPos, entries.Length);
      var canReadInOrder := firstNonreadPos != startPos;
      if !canReadInOrder && firstReadableOutOfOrder < 0 {
        return [];
      }
      var readPos := if canReadInOrder then startPos else firstReadableOutOfOrder;
      ghost var r := Off(readPos);
      ConsumedIntact(v, r, ReadEnd(v.w, r), excess);
      ConsumedConfig(v, r, ReadEnd(v.w, r));
      data := ConsumeAt(readPos, len);
      SettleRead();
    }

    /** readMessage: the bytes of one message, cut to the length asked for; nothing if there is none to read */
    method ReadMessage(len: nat) returns (data: seq<Byte>)
      requires Valid() && WillReturn(OpReadMessage(len))
      modifies this, entries
      ensures Valid() && excess == old(excess)
      ensures var r := RcvModel.ReadMessage(old(View()), len); View() == r.v && data == r.data
    {
      hide Intact, View, RcvModel.ReadMessage, Returns;
      ReadMessageIntact(View(), len, excess);
      data := ReadAny(len);
    }

    /** One iteration of readBufferTo that reads the packet at the start to its end. */
    method FinishFirst()
      requires Positions() && startSeqNo == Wrap(isn + base) && Loose(View(), excess) && entries[startPos].unit.Some?
      modifies entries, this`taken, this`startPos, this`base, this`maxPosOff, this`startSeqNo, this`notch
      ensures Has(old(View()).w, 0)
      ensures Positions() && startSeqNo == Wrap(isn + base) && View() == FreeFront(old(View()))
    {
      hide Loose, View, Wrap, IncSeq;
      SlotAt(startPos);
      ViewSize();
      ViewSeq();
      LooseStored(View(), 0, excess);
      WrapInc(isn + base);
      ReleaseUnitInPos(startPos);
      MoveStart();
      ViewSize();
      ViewSeq();
      SetMaxPosOff(maxPosOff - 1);
      SetStartSeqNo(IncSeq(startSeqNo));
      SetNotch(0);
    }

    method SetNotch(n: int)
      requires Positions()
      modifies this`notch
      ensures Positions() && View() == old(View()).(notch := n)
    {
      notch := n;
    }

    /** What one iteration of readBufferTo copies from the packet at the start, and how it leaves the packet. */
    method CopyFirst(rs: int) returns (part: seq<Byte>, left: int)
      requires Positions() && startSeqNo == Wrap(isn + base) && Loose(View(), excess)
      requires entries[startPos].unit.Some? && rs > 0
      modifies entries, this`taken, this`startPos, this`base, this`maxPosOff, this`startSeqNo, this`notch
      ensures Positions() && startSeqNo == Wrap(isn + base)
      ensures Has(old(View()).w, 0) && 0 <= old(View()).notch
      ensures BufResult(View(), part, left) == BufStep(BufResult(old(View()), [], rs))
    {
      hide Loose, View, FreeFront;
      ghost var v := View();
      SlotAt(startPos);
      LooseRanged(v, excess);
      ViewNotch();
      var payload := entries[startPos].unit.value.packet.payload;
      var remainPktLen := |payload| - notch;
      if rs >= remainPktLen {
        part := if remainPktLen > 0 then payload[notch..] else [];
        assert [] + part == part;
        FinishFirst();
        left := rs - remainPktLen;
      } else {
        part := payload[notch..notch + rs];
        assert [] + part == part;
        SetNotch(notch + rs);
        left := 0;
      }
    }

    ghost method SetExcess(n: nat)
      requires Positions()
      modifies this`excess
      ensures Positions() && View() == old(View()) && excess == n
    {
      excess := n;
    }

    /** The loop of readBufferTo; it reports whether it met a slot without a unit. */
    method CopyOut(len: int, stop: nat) returns (data: seq<Byte>, rs: int, isNull: bool)
      requires Positions() && startSeqNo == Wrap(isn + base) && Intact(View(), excess)
      modifies entries, this`taken, this`startPos, this`base, this`maxPosOff, this`startSeqNo, this`notch, this`excess
      ensures Usable(old(View()))
      ensures Positions() && startSeqNo == Wrap(isn + base) && Intact(View(), excess) && Usable(View())
      ensures BufResult(View(), data, rs) == BufLoop(BufResult(old(View()), [], len), stop)
      ensures isNull == NullMet(BufResult(View(), data, rs))
    {
      hide View, Intact, Loose, BufStep, IncPos, Wrap;
      data, rs, isNull := [], len, false;
      var more := stop;
      IntactFacts(View(), excess);
      LooseRanged(View(), excess);
      ghost var goal := BufLoop(BufResult(View(), [], len), stop);
      ViewSize();
      SameOff(startPos, firstNonreadPos, startPos, entries.Length);
      SameOff(startPos, startPos, startPos, entries.Length);
      while startPos != firstNonreadPos && rs > 0
        invariant Positions() && startSeqNo == Wrap(isn + base) && Intact(View(), excess) && Usable(View()) && !isNull
        invariant goal == BufLoop(BufResult(View(), data, rs), more)
        invariant startPos == firstNonreadPos <==> View().nonread == 0
        decreases View().nonread, rs
      {
        ghost var b := BufResult(View(), data, rs);
        SlotAt(startPos);
        SameOff(startPos, startPos, startPos, entries.Length);
        if entries[startPos].unit.None? {
          isNull := true;
          return;
        }
        if more == 0 {
          return;
        }
        BufStepIntact(b, excess);
        BufStepIs(b);
        BufStepData(b);
        FreeFrontWindow(b.v);
        IntactFacts(b.v, excess);
        var part: seq<Byte>;
        part, rs := CopyFirst(rs);
        SetExcess(BufExcess(b, excess));
        data := data + part;
        more := more - 1;
        ViewSize();
        IntactFacts(View(), excess);
        LooseRanged(View(), excess);
        SameOff(startPos, firstNonreadPos, startPos, entries.Length);
        SameOff(startPos, startPos, startPos, entries.Length);
      }
    }

    lemma ViewNotch()
      requires Positions()
      ensures View().notch == notch
    {
    }

    /**
     * readBufferTo: the number of bytes read, or -1 at a null unit. It stops before packet number stop, which is not
     * yet due or cannot be written. The order-clear packets it releases in message mode stay counted.
     */
    method ReadBuffer(len: int, stop: nat) returns (ret: int, data: seq<Byte>)
      requires Valid()
      modifies this, entries
      ensures Valid() && BufRead(View(), data, ret) == RcvModel.ReadBuffer(old(View()), len, stop)
      ensures Usable(old(View())) && excess == old(excess) + Extra(old(View()), OpReadBuffer(len, stop))
    {
      hide Intact, View, BufLoop, NullMet, Extra;
      ghost var v, x := View(), excess;
      ViewSize();
      ReadBufferIntact(v, len, stop, x);
      ExtraIs(v, len, stop);
      data, ret := CopyAll(len, stop);
      OneExcess(View(), excess, x + Extra(v, OpReadBuffer(len, stop)));
    }

    /** What readBufferTo does after its loop. */
    method SettleCopy(bytes: int)
      requires Valid()
      modifies this`bytesCount, this`pktsCount, this`firstNonreadPos
      ensures Valid() && excess == old(excess)
      ensures var v := old(View()); View() == ClampNonread(v).(bytes := v.bytes - bytes, pkts := v.pkts - 1)
    {
      hide Intact, View;
      ghost var v := View();
      ViewSize();
      IntactFacts(v, excess);
      CountersIntact(v, v.bytes - bytes, v.pkts - 1, excess);
      CountBytes(-1, -bytes);
      ViewSize();
      IsInRangeIff(startPos, maxPosOff, entries.Length, firstNonreadPos);
      SameOff(startPos, startPos, startPos, entries.Length);
      NonreadIntact(View(), 0, excess);
      if !IsInRange(startPos, maxPosOff, entries.Length, firstNonreadPos) {
        SetNonread(startPos);
      }
    }

    method CopyAll(len: int, stop: nat) returns (data: seq<Byte>, ret: int)
      requires Valid()
      modifies this, entries
      ensures Usable(old(View()))
      ensures Valid() && BufRead(View(), data, ret) == RcvModel.ReadBuffer(old(View()), len, stop)
    {
      hide Intact, View, BufLoop, NullMet;
      ghost var v := View();
      ViewSize();
      var rs, isNull;
      data, rs, isNull := CopyOut(len, stop);
      if isNull {
        return data, -1;
      }
      SettleCopy(len - rs);
      ret := len - rs;
    }

    method SetStartSeqNo(seqno: int)
      requires Positions()
      modifies this`startSeqNo
      ensures Positions() && View() == old(View()) && startSeqNo == seqno
    {
      startSeqNo := seqno;
    }

    method SetMaxPosOff(n: int)
      requires Positions()
      modifies this`maxPosOff
      ensures Positions() && View() == old(View()).(maxOff := n) && maxPosOff == n
    {
      maxPosOff := n;
    }

    lemma ViewSeq()
      requires Positions()
      ensures View().StartSeqNo() == Wrap(isn + base) && View().isn == isn && View().base == base
      ensures View().taken == taken
    {
    }
  }
}
