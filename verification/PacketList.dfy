// The list of packets that wait for an answer: a chain of nodes behind a sentinel, with
// a pointer to its last node. It refines a sequence of packets.
module PacketList {
  import opened Bits
  import opened Results
  import Abi

  // ---------------------------------------------------------------- the sequence it refines

  ghost predicate Distinct<T>(s: seq<T>) {
    forall i, j :: 0 <= i < j < |s| ==> s[i] != s[j]
  }

  function IndexOf<T(==)>(s: seq<T>, p: T): (k: nat)
    requires p in s
    ensures k < |s| && s[k] == p && p !in s[..k]
  {
    if s[0] == p then 0 else 1 + IndexOf(s[1..], p)
  }

  /** Appended; a packet that is already linked becomes the end of the list instead, and what followed it is gone. */
  function Pushed<T(==)>(s: seq<T>, p: T): seq<T> {
    if p in s then s[..IndexOf(s, p) + 1] else s + [p]
  }

  function Removed<T(==)>(s: seq<T>, p: T): seq<T> {
    if p in s then s[..IndexOf(s, p)] + s[IndexOf(s, p) + 1..] else s
  }

  /** What both do, by the position k of the packet. */
  lemma ListOpsMean<T>(s: seq<T>, p: T, k: nat)
    requires k < |s| && s[k] == p && p !in s[..k]
    ensures Pushed(s, p) == s[..k + 1] && Removed(s, p) == s[..k] + s[k + 1..]
    ensures forall q :: q !in s ==> Pushed(s, q) == s + [q] && Removed(s, q) == s
  {
    FirstIndex(s, p, k);
  }

  lemma {:induction false} FirstIndex<T>(s: seq<T>, p: T, k: nat)
    requires k < |s| && s[k] == p && p !in s[..k]
    ensures IndexOf(s, p) == k
  {
    if k > 0 {
      assert s[..k][0] == s[0];
      assert forall i :: 0 <= i < k - 1 ==> s[1..][i] == s[..k][i + 1];
      FirstIndex(s[1..], p, k - 1);
    }
  }

  /** Pushing keeps every packet exactly when the packet is not linked yet, or is the last one. */
  lemma PushKeepsAll<T>(s: seq<T>, p: T)
    requires Distinct(s)
    ensures (forall q :: q in s ==> q in Pushed(s, p)) <==> p !in s || s[|s| - 1] == p
  {
    if p in s {
      var k := IndexOf(s, p);
      if k + 1 < |s| {
        assert s[|s| - 1] in s && s[|s| - 1] !in s[..k + 1];
      } else {
        assert s[..k + 1] == s;
      }
    }
  }

  lemma PushLoses()
    ensures Pushed([1, 2], 1) == [1]
  {
    assert IndexOf([1, 2], 1) == 0;
  }

  lemma IndexIsUnique<T>(s: seq<T>, p: T, k: nat)
    requires Distinct(s) && k < |s| && s[k] == p
    ensures IndexOf(s, p) == k
  {
  }

  datatype Op<T> = Push(p: T) | Remove(p: T)

  function Apply<T(==)>(s: seq<T>, op: Op<T>): seq<T> {
    match op
    case Push(p) => Pushed(s, p)
    case Remove(p) => Removed(s, p)
  }

  function Run<T(==)>(s: seq<T>, ops: seq<Op<T>>): seq<T>
    decreases |ops|
  {
    if ops == [] then s else Run(Apply(s, ops[0]), ops[1..])
  }

  /** Every push is of a packet that is not linked at that moment. */
  ghost predicate PushesUnlinked<T>(s: seq<T>, ops: seq<Op<T>>)
    decreases |ops|
  {
    ops == [] || ((ops[0].Push? ==> ops[0].p !in s) && PushesUnlinked(Apply(s, ops[0]), ops[1..]))
  }

  lemma {:induction false} RunSplits<T>(s: seq<T>, op: Op<T>, ops: seq<Op<T>>, i: nat)
    requires i <= |ops|
    ensures Run(s, ([op] + ops)[..i + 1]) == Run(Apply(s, op), ops[..i])
  {
    assert ([op] + ops)[..i + 1][1..] == ops[..i];
  }

  /** Every pushed packet is unlinked after the operations before it. */
  lemma {:induction false} PushesUnlinkedMeans<T>(s: seq<T>, ops: seq<Op<T>>)
    ensures PushesUnlinked(s, ops) <==>
            forall i :: 0 <= i < |ops| && ops[i].Push? ==> ops[i].p !in Run(s, ops[..i])
    decreases |ops|
  {
    hide Apply;
    if ops != [] {
      var op, rest := ops[0], ops[1..];
      PushesUnlinkedMeans(Apply(s, op), rest);
      assert ops == [op] + rest && ops[..0] == [];
      forall i | 0 <= i < |rest| ensures Run(s, ops[..i + 1]) == Run(Apply(s, op), rest[..i]) && rest[i] == ops[i + 1] {
        RunSplits(s, op, rest, i);
      }
      assert forall i :: 1 <= i < |ops| ==> ops[i] == rest[i - 1] && ops[..i] == ops[..i - 1 + 1];
    }
  }

  function AllPushed<T(==)>(ops: seq<Op<T>>): multiset<T> {
    if ops == [] then multiset{}
    else AllPushed(ops[1..]) + if ops[0].Push? then multiset{ops[0].p} else multiset{}
  }

  /** The packets that removals took out. */
  function AllTaken<T(==)>(s: seq<T>, ops: seq<Op<T>>): multiset<T>
    decreases |ops|
  {
    if ops == [] then multiset{}
    else
      AllTaken(Apply(s, ops[0]), ops[1..])
      + if ops[0].Remove? && ops[0].p in s then multiset{ops[0].p} else multiset{}
  }

  lemma CutDistinct<T>(s: seq<T>, k: nat)
    requires Distinct(s) && k < |s|
    ensures Distinct(s[..k] + s[k + 1..]) && s[k] !in s[..k] + s[k + 1..]
  {
    var cut := s[..k] + s[k + 1..];
    forall i | 0 <= i < |cut| ensures cut[i] == s[if i < k then i else i + 1] {
    }
  }

  lemma CutContents<T>(s: seq<T>, k: nat)
    requires k < |s|
    ensures multiset(s[..k] + s[k + 1..]) + multiset{s[k]} == multiset(s)
  {
    assert s == s[..k] + [s[k]] + s[k + 1..];
  }

  lemma RemovedContents<T>(s: seq<T>, p: T)
    requires Distinct(s) && p in s
    ensures Distinct(Removed(s, p)) && p !in Removed(s, p)
    ensures multiset(Removed(s, p)) + multiset{p} == multiset(s)
  {
    hide IndexOf, Distinct;
    var k := IndexOf(s, p);
    CutDistinct(s, k);
    CutContents(s, k);
  }

  lemma StepConserves<T>(s: seq<T>, op: Op<T>)
    requires Distinct(s) && (op.Push? ==> op.p !in s)
    ensures Distinct(Apply(s, op))
    ensures multiset(Apply(s, op)) + (if op.Remove? && op.p in s then multiset{op.p} else multiset{})
         == multiset(s) + if op.Push? then multiset{op.p} else multiset{}
  {
    if op.Remove? && op.p in s { RemovedContents(s, op.p); }
  }

  /** Over every run that pushes only unlinked packets, packets stay distinct and none is lost or duplicated. */
  lemma {:induction false} NothingLost<T>(s: seq<T>, ops: seq<Op<T>>)
    requires Distinct(s) && PushesUnlinked(s, ops)
    ensures Distinct(Run(s, ops))
    ensures multiset(Run(s, ops)) + AllTaken(s, ops) == multiset(s) + AllPushed(ops)
    decreases |ops|
  {
    hide Apply, Distinct;
    if ops != [] {
      var t := Apply(s, ops[0]);
      StepConserves(s, ops[0]);
      NothingLost(t, ops[1..]);
      Chain(multiset(Run(t, ops[1..])), AllTaken(t, ops[1..]), multiset(t), AllPushed(ops[1..]), multiset(s),
            if ops[0].Remove? && ops[0].p in s then multiset{ops[0].p} else multiset{},
            if ops[0].Push? then multiset{ops[0].p} else multiset{});
    }
  }

  lemma Chain<T>(a: multiset<T>, b: multiset<T>, c: multiset<T>, d: multiset<T>, e: multiset<T>, t: multiset<T>,
                 p: multiset<T>)
    requires a + b == c + d && c + t == e + p
    ensures a + (b + t) == e + (d + p)
  {
    assert a + (b + t) == a + b + t == c + d + t == c + t + d == e + p + d;
  }

  // ---------------------------------------------------------------- nodes and packets

  const NO_ANSWER := -10
  const NO_ROOM := -5
  const EXTENDED: Byte := 252

  /** A received frame, or none. */
  type Frame = Option<Bytes>

  /** Little-endian, at most four bytes, as a signed 32-bit number; 0 for a bad range. */
  function ByteToInt(buf: Bytes, at: nat, n: nat): int {
    if n == 0 || n > 4 || |buf| < at + n then 0
    else var v := LeValue(buf[at..at + n]); if v < 0x8000_0000 then v else v - 0x1_0000_0000
  }

  /** Where the data of a frame starts, and how much there is. */
  function DataStart(buf: Bytes, off: nat): nat
    requires off + 6 < |buf|
  {
    off + 7 + if buf[off + 6] == EXTENDED then buf[off + 4] as int else 0
  }

  function DataLength(buf: Bytes, off: nat): int
    requires off + 6 < |buf|
  {
    if buf[off + 6] == EXTENDED then ByteToInt(buf, off + 7, buf[off + 4]) else buf[off + 4]
  }

  /** The bytes of a number, the lowest first; with four of them the highest bit is the sign. */
  lemma ByteToIntMeans(buf: Bytes, at: nat, n: nat)
    ensures n == 0 || n > 4 || |buf| < at + n ==> ByteToInt(buf, at, n) == 0
    ensures n == 1 && at + 1 <= |buf| ==> ByteToInt(buf, at, n) == buf[at]
    ensures n == 2 && at + 2 <= |buf| ==> ByteToInt(buf, at, n) == buf[at] as int + 0x100 * buf[at + 1] as int
    ensures n == 3 && at + 3 <= |buf| ==>
              ByteToInt(buf, at, n) == buf[at] as int + 0x100 * buf[at + 1] as int + 0x1_0000 * buf[at + 2] as int
    ensures n == 4 && at + 4 <= |buf| ==>
              var high := if buf[at + 3] < 128 then buf[at + 3] as int else buf[at + 3] as int - 256;
              ByteToInt(buf, at, n)
              == buf[at] as int + 0x100 * buf[at + 1] as int + 0x1_0000 * buf[at + 2] as int + 0x100_0000 * high
  {
    hide LeValue;
    if 0 < n <= 4 && at + n <= |buf| {
      DigitAt(buf, at, n, 0);
      DigitAt(buf, at, n, 1);
      DigitAt(buf, at, n, 2);
      DigitAt(buf, at, n, 3);
    }
  }

  lemma DigitAt(buf: Bytes, at: nat, n: nat, i: nat)
    requires at + n <= |buf|
    ensures i < n ==> LeValue(buf[at + i..at + n]) == buf[at + i] as int + 256 * LeValue(buf[at + i + 1..at + n])
    ensures i + 1 >= n ==> LeValue(buf[at + n..at + n]) == 0
  {
    hide LeValue;
    if i < n {
      Abi.LeValueMeans(buf[at + i..at + n]);
      assert buf[at + i..at + n][1..] == buf[at + i + 1..at + n];
    }
    Abi.LeValueMeans(buf[at + n..at + n]);
  }

  /** A plain answer has its data behind a seven-byte header; 252 marks one with a length field before the data. */
  lemma DataMeans(buf: Bytes, off: nat)
    requires off + 6 < |buf|
    ensures buf[off + 6] != 252 ==> DataStart(buf, off) == off + 7 && DataLength(buf, off) == buf[off + 4]
    ensures buf[off + 6] == 252 ==>
              && DataStart(buf, off) == off + 7 + buf[off + 4] as int
              && DataLength(buf, off) == ByteToInt(buf, off + 7, buf[off + 4])
  {
    hide ByteToInt;
  }

  method CopyInto(a: array<Byte>, at: nat, buf: Bytes, start: nat, n: nat)
    requires start + n <= |buf| && at + n <= a.Length
    modifies a
    ensures a[..] == old(a[..])[..at] + buf[start..start + n] + old(a[..])[at + n..]
  {
    for i := 0 to n
      invariant forall k :: at <= k < at + i ==> a[k] == buf[start + (k - at)]
      invariant forall k :: 0 <= k < at || at + i <= k < a.Length ==> a[k] == old(a[k])
    {
      a[at + i] := buf[start + i];
    }
    assert a[at..at + n] == buf[start..start + n];
    assert a[..] == a[..at] + a[at..at + n] + a[at + n..];
  }

  class Node {
    const isPacket: bool
    var next: Node?
    var fun: Byte
    var cmd: Byte
    var serial: Byte
    var recv: array?<Byte>
    var recvOffset: nat
    var dataLen: int
    var status: int
    var waiting: bool

    constructor (isPacket: bool)
      ensures this.isPacket == isPacket && next == null && !waiting && status == NO_ANSWER
    {
      this.isPacket := isPacket;
      next := null;
      fun, cmd, serial := 0, 0, 0;
      recv, recvOffset, dataLen := null, 0, 0;
      status, waiting := NO_ANSWER, false;
    }

    /** Arms the packet for one request. */
    method SetPacket(fun: Byte, cmd: Byte, serial: Byte, recv: array?<Byte>, recvOffset: nat)
      requires isPacket
      modifies this
      ensures waiting && status == -10 && dataLen == 0
      ensures this.fun == fun && this.cmd == cmd && this.serial == serial
      ensures this.recv == recv && this.recvOffset == recvOffset && next == old(next)
    {
      this.fun, this.cmd, this.serial := fun, cmd, serial;
      this.recv, this.recvOffset := recv, recvOffset;
      dataLen, status, waiting := 0, NO_ANSWER, true;
    }

    /** Every byte that the comparison looks at is in the frame. */
    predicate InReach(frame: Frame, off: nat)
      reads `waiting, `fun, `cmd
    {
      waiting && frame.Some? ==>
        && off + 1 < |frame.value|
        && (frame.value[off + 1] == fun ==>
              && off + 2 < |frame.value|
              && (frame.value[off + 2] == cmd ==> off + 3 < |frame.value|))
    }

    /** Does the frame at this offset answer the packet? */
    predicate Matches(frame: Frame, off: nat)
      reads `waiting, `fun, `cmd, `serial
    {
      && waiting && frame.Some? && off + 3 < |frame.value|
      && frame.value[off + 1] == fun && frame.value[off + 2] == cmd && frame.value[off + 3] == serial
    }

    method NotifyError(status: int)
      modifies this`status
      ensures this.status == if waiting then status else old(this.status)
    {
      if waiting { this.status := status; }
    }

    method NotifyErrorFrame(frame: Frame, off: nat, status: int) returns (ok: bool)
      requires InReach(frame, off)
      modifies this`status
      ensures ok == old(Matches(frame, off))
      ensures ok <==> waiting && frame.Some? && off + 3 < |frame.value|
                      && frame.value[off + 1] == fun && frame.value[off + 2] == cmd && frame.value[off + 3] == serial
      ensures this.status == if ok then status else old(this.status)
    {
      if !Matches(frame, off) { return false; }
      this.status := status;
      return true;
    }

    /**
     * The status byte is in the frame, the end of the data in the buffer is a 32-bit number, and the data that is to
     * be copied is in the frame: where this fails the code throws.
     */
    predicate CanTake(buf: Bytes, off: nat)
      reads `recv, `recvOffset
    {
      && off + 5 < |buf|
      && (recv != null ==>
            && off + 6 < |buf|
            && recvOffset + DataLength(buf, off) < 0x8000_0000
            && (recvOffset + DataLength(buf, off) <= recv.Length ==>
                  0 <= DataLength(buf, off) && DataStart(buf, off) + DataLength(buf, off) <= |buf|))
    }

    /** Takes the answer: its status, and its data if the receive buffer has room for it. */
    method NotifyPacket(frame: Frame, off: nat) returns (ok: bool)
      requires InReach(frame, off) && (Matches(frame, off) ==> CanTake(frame.value, off))
      modifies this`status, this`dataLen, if recv != null then {recv} else {}
      ensures ok == old(Matches(frame, off))
      ensures !ok ==> status == old(status) && dataLen == old(dataLen) && (recv != null ==> recv[..] == old(recv[..]))
      ensures ok ==> Answered(frame.value, off, if recv != null then old(recv[..]) else [], old(dataLen))
    {
      if !Matches(frame, off) { return false; }
      hide ByteToInt, DataStart, DataLength;
      status := -1 * frame.value[off + 5] as int;
      if recv == null { return true; }
      Store(frame.value, off);
      return true;
    }

    /** The state after an answer: its negated status, and the data in the buffer unless there is no room for it. */
    lemma AnsweredMeans(buf: Bytes, off: nat, before: Bytes, lenBefore: int)
      requires Answered(buf, off, before, lenBefore)
      ensures recv == null ==> status == -(buf[off + 5] as int) && dataLen == lenBefore
      ensures recv != null ==>
                var n, start := DataLength(buf, off), DataStart(buf, off);
                if recvOffset + n > recv.Length then status == -5 && dataLen == 0 && recv[..] == before
                else
                  && status == -(buf[off + 5] as int) && dataLen == n
                  && recv[..] == before[..recvOffset] + buf[start..start + n] + before[recvOffset + n..]
    {
      hide DataLength, DataStart;
    }

    /** The data goes to the receive buffer, if there is room. */
    method Store(buf: Bytes, off: nat)
      requires recv != null && CanTake(buf, off)
      modifies this`status, this`dataLen, recv
      ensures recvOffset + DataLength(buf, off) > recv.Length ==>
                status == NO_ROOM && dataLen == 0 && recv[..] == old(recv[..])
      ensures recvOffset + DataLength(buf, off) <= recv.Length ==>
                var n, start := DataLength(buf, off), DataStart(buf, off);
                && status == old(status) && dataLen == n
                && recv[..] == old(recv[..])[..recvOffset] + buf[start..start + n] + old(recv[..])[recvOffset + n..]
    {
      hide ByteToInt;
      var n := buf[off + 4];
      dataLen := n;
      var start := off + 7;
      if buf[off + 6] == EXTENDED {
        dataLen := ByteToInt(buf, start, n);
        start := start + n;
      }
      if recvOffset + dataLen > recv.Length {
        dataLen := 0;
        status := NO_ROOM;
        return;
      }
      CopyInto(recv, recvOffset, buf, start, dataLen);
    }

    /** The packet's state after an answer, given its receive buffer and data length before. */
    ghost predicate Answered(buf: Bytes, off: nat, before: Bytes, lenBefore: int)
      reads this, recv
    {
      if !CanTake(buf, off) then false
      else if recv == null then status == -1 * buf[off + 5] as int && dataLen == lenBefore
      else if recvOffset + DataLength(buf, off) > recv.Length then
        status == NO_ROOM && dataLen == 0 && recv[..] == before
      else
        var n, start := DataLength(buf, off), DataStart(buf, off);
        && status == -1 * buf[off + 5] as int && dataLen == n
        && |before| == recv.Length
        && recv[..] == before[..recvOffset] + buf[start..start + n] + before[recvOffset + n..]
    }
  }

  // ---------------------------------------------------------------- the list

  /** Without the element after k. */
  function Without<T>(s: seq<T>, k: nat): (r: seq<T>)
    requires k + 1 < |s|
    ensures |r| == |s| - 1
  {
    s[..k + 1] + s[k + 2..]
  }

  lemma RemovedBehindSentinel<T>(was: seq<T>, taken: T, k: nat)
    requires Distinct(was) && k + 1 < |was| && was[k + 1] == taken
    ensures taken in was[1..] && Removed(was[1..], taken) == Without(was, k)[1..]
  {
    var tail := was[1..];
    assert tail[k] == taken;
    IndexIsUnique(tail, taken, k);
    assert Without(was, k)[1..] == was[..k + 1][1..] + was[k + 2..];
    assert was[..k + 1][1..] == tail[..k];
    assert was[k + 2..] == tail[k + 1..];
  }

  lemma ShapeWithout<T>(was: seq<T>, k: nat)
    requires Distinct(was) && k + 1 < |was|
    ensures Distinct(Without(was, k)) && Without(was, k)[0] == was[0]
    ensures Without(was, k)[|was| - 2] == if k + 2 == |was| then was[k] else was[|was| - 1]
    ensures forall q :: q in Without(was, k)[1..] ==> q in was[1..]
  {
    var m := Without(was, k);
    forall i | 0 <= i < |m| ensures m[i] == was[if i <= k then i else i + 1] {
    }
  }

  lemma PushedBehindSentinel<T>(was: seq<T>, p: T)
    requires Distinct(was) && |was| > 0 && was[0] != p
    ensures Pushed(was, p)[1..] == Pushed(was[1..], p) && Distinct(Pushed(was, p))
    ensures |Pushed(was, p)| > 1 && Pushed(was, p)[0] == was[0] && Pushed(was, p)[|Pushed(was, p)| - 1] == p
    ensures forall q :: q in Pushed(was[1..], p) ==> q in was[1..] || q == p
    ensures p !in was ==> |Pushed(was, p)| == |was| + 1
    ensures p in was ==> |Pushed(was, p)| <= |was| && was[|Pushed(was, p)| - 1] == p
    ensures forall i :: 0 <= i < |Pushed(was, p)| - 1 ==> Pushed(was, p)[i] == was[i] != p
  {
    if p in was {
      var k := IndexOf(was, p);
      assert was[1..][k - 1] == p;
      IndexIsUnique(was[1..], p, k - 1);
    }
  }

  // ---------------------------------------------------------------- links

  ghost function After(s: seq<Node>, i: int): Node? {
    if 0 <= i + 1 < |s| then s[i + 1] else null
  }

  /** Each node points to the one after it, and the last to none. */
  ghost predicate Links(s: seq<Node>)
    reads s
  {
    forall i {:trigger After(s, i)} :: 0 <= i < |s| ==> s[i].next == After(s, i)
  }

  lemma OthersDiffer<T>(was: seq<T>, k: nat)
    requires Distinct(was) && k < |was|
    ensures forall i :: 0 <= i < |was| && i != k ==> was[i] != was[k]
    ensures k + 1 < |was| ==> forall i :: 0 <= i < |was| && i != k + 1 ==> was[i] != was[k + 1]
  {
  }

  lemma LinksAfterRemoval(was: seq<Node>, k: nat)
    requires k + 1 < |was| && was[k].next == After(was, k + 1)
    requires forall i {:trigger After(was, i)} :: 0 <= i < |was| && i != k && i != k + 1 ==>
               was[i].next == After(was, i)
    ensures Links(Without(was, k))
  {
    var s := Without(was, k);
    forall i | 0 <= i < |s| ensures s[i].next == After(s, i) {
      if i <= k {
        assert s[i] == was[i] && was[i].next == After(was, if i == k then k + 1 else i);
      } else {
        assert s[i] == was[i + 1] && was[i + 1].next == After(was, i + 1);
      }
    }
  }

  lemma LinksAfterPush(was: seq<Node>, p: Node)
    requires |was| > 0 && was[|was| - 1].next == (if was[|was| - 1] == p then null else p)
    requires forall i {:trigger After(was, i)} :: 0 <= i < |was| - 1 && was[i] != p ==> was[i].next == After(was, i)
    requires p.next == null
    ensures Links(Pushed(was, p))
  {
    var s := Pushed(was, p);
    forall i | 0 <= i < |s| ensures s[i].next == After(s, i) {
      if i == |s| - 1 {
        assert s[i] == p;
      } else {
        assert s[i] == was[i] && was[i] in was[..i + 1];
        assert was[i] != p;
        assert i < |was| - 1 ==> was[i].next == After(was, i);
      }
    }
  }

  class PacketList {
    const firstNode: Node
    var lastNode: Node
    ghost var nodes: seq<Node>

    ghost function Contents(): seq<Node>
      reads this
      requires |nodes| > 0
    {
      nodes[1..]
    }

    /** The chain from the sentinel runs through the nodes in order and ends at the tail pointer. */
    ghost predicate Valid()
      reads this, nodes
    {
      && |nodes| > 0 && nodes[0] == firstNode && nodes[|nodes| - 1] == lastNode
      && Distinct(nodes)
      && !firstNode.isPacket
      && (forall p :: p in Contents() ==> p.isPacket)
      && Links(nodes)
    }

    constructor ()
      ensures Valid() && Contents() == [] && fresh(nodes)
    {
      var node := new Node(false);
      firstNode, lastNode := node, node;
      nodes := [node];
    }

    method Push(packet: Node?) returns (ok: bool)
      requires Valid() && (packet != null ==> packet.isPacket)
      modifies this, nodes`next, (if packet == null then {} else {packet})`next
      ensures Valid() && ok == (packet != null)
      ensures Contents() == if packet == null then old(Contents()) else Pushed(old(Contents()), packet)
    {
      if packet == null { return false; }
      var p: Node := packet;
      ghost var was := nodes;
      PushedBehindSentinel(was, p);
      hide Pushed;
      lastNode.next := p;
      lastNode := p;
      p.next := null;
      nodes := Pushed(was, p);
      LinksAfterPush(was, p);
      return true;
    }

    /** The pointer writes: what follows the node is bypassed, and the tail pointer moves if it was the last. */
    method Bypass(node: Node) returns (taken: Node?)
      requires node.next != node
      modifies `lastNode, node`next, (if node.next == null then {} else {node.next})`next
      ensures taken == old(node.next)
      ensures taken == null ==> lastNode == old(lastNode) && node.next == null
      ensures taken != null ==> taken.next == null && node.next == old(node.next.next)
      ensures taken != null ==> lastNode == if old(node.next.next) == null then node else old(lastNode)
    {
      taken := node.next;
      if taken != null {
        node.next := taken.next;
        if taken.next == null {
          lastNode := node;
        } else {
          taken.next := null;
        }
      }
    }

    /** Unlinks what follows the given node, which is number k of the chain. */
    method RemoveNext(node: Node, ghost k: nat) returns (taken: Node?)
      requires Valid() && k < |nodes| && nodes[k] == node
      modifies this, nodes`next
      ensures Valid()
      ensures taken == null <==> k + 1 == old(|nodes|)
      ensures taken == null ==> Contents() == old(Contents())
      ensures taken != null ==> taken == old(nodes)[k + 1] && taken.next == null
      ensures taken != null ==> Contents() == Removed<Node>(old(Contents()), taken)
    {
      hide Removed, Without, Distinct, IndexOf;
      ghost var was := nodes;
      OthersDiffer(was, k);
      assert was[k].next == After(was, k);
      assert k + 1 < |was| ==> was[k + 1].next == After(was, k + 1);
      taken := Bypass(node);
      if taken == null { return; }
      nodes := Without(was, k);
      RemovedBehindSentinel<Node>(was, taken, k);
      ShapeWithout(was, k);
      LinksAfterRemoval(was, k);
    }

    /** Removes exactly its argument, if it is linked. */
    method Remove(packet: Node?) returns (ok: bool)
      requires Valid() && packet != firstNode
      modifies this, nodes`next
      ensures Valid()
      ensures ok <==> packet != null && packet in old(Contents())
      ensures Contents() == if ok then Removed<Node>(old(Contents()), packet) else old(Contents())
      ensures ok ==> packet.next == null
    {
      if packet != null {
        var node: Node? := firstNode;
        ghost var k := 0;
        while node != null && node.next != null
          invariant node != null && k < |nodes| && nodes[k] == node
          invariant packet !in nodes[..k + 1]
          decreases |nodes| - k
        {
          assert node.next == After(nodes, k);
          if node.next == packet {
            var _ := RemoveNext(node, k);
            return true;
          }
          node := node.next;
          k := k + 1;
        }
        assert node.next == After(nodes, k);
        assert nodes[..k + 1] == nodes;
      }
      return false;
    }

    method RemoveFirst() returns (taken: Node?)
      requires Valid()
      modifies this, nodes`next
      ensures Valid()
      ensures taken == null <==> old(Contents()) == []
      ensures taken == null ==> Contents() == []
      ensures taken != null ==> taken == old(Contents())[0] && Contents() == old(Contents())[1..] && taken.next == null
    {
      taken := RemoveNext(firstNode, 0);
    }

    ghost function Buffers(): set<object>
      reads this, nodes
    {
      set p | p in nodes && p.recv != null :: p.recv
    }

    /** The search for the frame's packet gets to packet i: none before it is answered. */
    ghost predicate Searched(frame: Frame, off: nat, i: nat)
      requires Valid()
      reads this, nodes
    {
      i < |Contents()| && forall j :: 0 <= j < i ==> !Contents()[j].Matches(frame, off)
    }

    /** Wherever the search gets to, the comparison stays in the frame. */
    ghost predicate SearchInReach(frame: Frame, off: nat)
      requires Valid()
      reads this, nodes
    {
      forall i: nat :: Searched(frame, off, i) ==> Contents()[i].InReach(frame, off)
    }

    /** The packet that the search ends with can take its answer. */
    ghost predicate FirstCanTake(frame: Frame, off: nat)
      requires Valid()
      reads this, nodes, Buffers()
    {
      forall i: nat :: Searched(frame, off, i) && Contents()[i].Matches(frame, off) ==>
        Contents()[i].CanTake(frame.value, off)
    }

    /** Takes out the first packet that the frame answers. */
    method GetPacket(frame: Frame, off: nat) returns (taken: Node?)
      requires Valid() && SearchInReach(frame, off)
      modifies this, nodes`next
      ensures Valid()
      ensures taken == null ==> Contents() == old(Contents())
      ensures taken == null ==> forall p :: p in old(Contents()) ==> !p.Matches(frame, off)
      ensures taken != null ==> taken in old(Contents()) && taken.Matches(frame, off) && taken.next == null
      ensures taken != null ==> old(Searched(frame, off, IndexOf<Node>(Contents(), taken)))
      ensures taken != null ==>
                forall p :: p in old(Contents())[..IndexOf<Node>(old(Contents()), taken)] ==> !p.Matches(frame, off)
      ensures taken != null ==> Contents() == Removed<Node>(old(Contents()), taken)
    {
      hide Removed;
      var node: Node? := firstNode;
      ghost var k := 0;
      while node != null && node.next != null
        invariant node != null && k < |nodes| && nodes[k] == node
        invariant forall i :: 0 <= i < k ==> !Contents()[i].Matches(frame, off)
        decreases |nodes| - k
      {
        assert node.next == After(nodes, k);
        assert Contents()[k] == node.next;
        if node.next.Matches(frame, off) {
          IndexIsUnique<Node>(Contents(), node.next, k);
          assert Searched(frame, off, IndexOf<Node>(Contents(), node.next));
          hide IndexOf;
          taken := RemoveNext(node, k);
          return;
        }
        node := node.next;
        k := k + 1;
      }
      assert node.next == After(nodes, k);
      return null;
    }

    /** The first packet the frame answers gets the error and leaves the list. */
    method NotifyErrorFrame(frame: Frame, off: nat, status: int) returns (ok: bool, ghost taken: Node?)
      requires Valid() && SearchInReach(frame, off)
      modifies this, nodes`next, nodes`status
      ensures Valid() && ok == (taken != null)
      ensures ok <==> exists p :: p in old(Contents()) && old(p.Matches(frame, off))
      ensures Contents() == if ok then Removed<Node>(old(Contents()), taken) else old(Contents())
      ensures ok ==> taken in old(Contents()) && taken.status == status
      ensures ok ==>
                forall p :: p in old(Contents())[..IndexOf<Node>(old(Contents()), taken)] ==>
                    !old(p.Matches(frame, off))
    {
      var packet := GetPacket(frame, off);
      taken := packet;
      if packet != null {
        ok := packet.NotifyErrorFrame(frame, off, status);
      } else {
        ok := false;
      }
    }

    /** The first packet the frame answers takes the answer and leaves the list. */
    method NotifyPacket(frame: Frame, off: nat) returns (ok: bool, ghost taken: Node?)
      requires Valid() && SearchInReach(frame, off)
      requires FirstCanTake(frame, off)
      modifies this, nodes`next, nodes`status, nodes`dataLen, Buffers()
      ensures Valid() && ok == (taken != null)
      ensures ok <==> exists p :: p in old(Contents()) && old(p.Matches(frame, off))
      ensures Contents() == if ok then Removed<Node>(old(Contents()), taken) else old(Contents())
      ensures taken != null ==> taken in old(Contents())
      ensures taken != null ==> frame.Some?
      ensures taken != null ==>
        taken.Answered(frame.value, off, if taken.recv != null then old(taken.recv[..]) else [], old(taken.dataLen))
    {
      hide Removed, IndexOf, Distinct, Node.Answered, DataLength, DataStart;
      var packet := GetPacket(frame, off);
      taken := packet;
      if packet != null {
        ok := packet.NotifyPacket(frame, off);
      } else {
        ok := false;
      }
    }

    /** Every waiting packet gets the status; the loop ends with the list empty. */
    method NotifyAll(status: int)
      requires Valid()
      modifies this, nodes`next, nodes`status
      ensures Valid() && Contents() == []
      ensures forall p :: p in old(Contents()) ==>
                p.next == null && p.status == if p.waiting then status else old(p.status)
    {
      ghost var all := Contents();
      ghost var n := 0;
      assert all[0..] == all;
      while true
        invariant Valid() && n <= |all| && Contents() == all[n..]
        invariant forall i :: 0 <= i < n ==> all[i].next == null
        invariant forall i :: 0 <= i < n ==> all[i].status == if all[i].waiting then status else old(all[i].status)
        invariant forall i :: n <= i < |all| ==> all[i].status == old(all[i].status)
        decreases |all| - n
      {
        var taken := RemoveFirst();
        if taken == null {
          return;
        }
        assert taken == all[n];
        taken.NotifyError(status);
        n := n + 1;
      }
    }
  }
}
