/** Packets, entries and states from which the concrete runs of the receiver buffer are built. */
module RcvExamples {
  import opened Packets
  import opened RcvModel

  /** A message of one packet; message numbers follow the sequence numbers. */
  function Solo(j: nat, inorder: bool): Packet {
    Packet(j, true, true, inorder, j + 1, [])
  }

  function Slot(j: nat, inorder: bool): Entry {
    Entry(Some(Unit(j, Solo(j, inorder))), Avail)
  }

  const READ: Entry := Entry(None, Read)

  const DROP: Entry := Entry(None, Drop)

  /** A state of message mode without TSBPD. */
  function At(w: seq<Entry>, base: nat, nonread: int, maxOff: int, ooo: int, numOoo: int, pkts: int,
              taken: set<nat>): Rcv {
    Rcv(true, false, 0, w, base, nonread, maxOff, ooo, numOoo, 0, 0, pkts, taken)
  }

  /** A state of stream mode. */
  function InStream(w: seq<Entry>, base: nat, nonread: int, maxOff: int, notch: int, bytes: int, pkts: int,
                    taken: set<nat>): Rcv
  {
    Rcv(false, false, 0, w, base, nonread, maxOff, -1, 0, notch, bytes, pkts, taken)
  }

  /** A packet of a stream, with a payload. */
  function Data(j: nat, payload: seq<Byte>): Packet {
    Packet(j, true, true, true, j + 1, payload)
  }

  function Holding(j: nat, payload: seq<Byte>): Entry {
    Entry(Some(Unit(j, Data(j, payload))), Avail)
  }
}
