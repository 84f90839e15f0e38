/** Messages and the two drop-oldest rings of src/BLE/ble_fifo.c. */
module BleTypes {
  import opened Bytes

  const MAX_BLE_PAYLOAD_SIZE: nat := 256
  const BLE_FIFO_SIZE: nat := 20
  const BLE_HDR_SIZE: nat := 3
  const BLE_MAGIC: Byte := 0xA5

  /** A payload whose length fits the one-byte length field. */
  type Payload = p: seq<Byte> | |p| < 256

  type Buffer = b: seq<Byte> | |b| == MAX_BLE_PAYLOAD_SIZE witness seq(MAX_BLE_PAYLOAD_SIZE, _ => 0)

  /** A message as users of the rings see it. */
  datatype Msg = Msg(opcode: Byte, reqApp: Byte, payload: Payload)

  /** The C structure: a fixed buffer of which the first len bytes are the payload. */
  datatype MsgBuf = MsgBuf(opcode: Byte, reqApp: Byte, len: Byte, payload: Buffer)

  const EMPTY_BUF := MsgBuf(0, 0, 0, seq(MAX_BLE_PAYLOAD_SIZE, _ => 0))

  function Wire(m: MsgBuf): Msg {
    Msg(m.opcode, m.reqApp, m.payload[..m.len])
  }

  /** Header assignment and memcpy of the payload prefix: the rest of dst keeps its bytes. */
  function CopyMsg(dst: MsgBuf, src: MsgBuf): (r: MsgBuf)
    ensures Wire(r) == Wire(src)
  {
    MsgBuf(src.opcode, src.reqApp, src.len, src.payload[..src.len] + dst.payload[src.len..])
  }
}

module BleFifo {
  import opened BleTypes

  const CAPACITY: nat := BLE_FIFO_SIZE - 1

  /** Enqueueing on a bounded queue that drops its oldest message when full. */
  function PushTo(q: seq<Msg>, m: Msg): (r: seq<Msg>)
    ensures |q| <= CAPACITY ==> |r| <= CAPACITY
  {
    (if |q| == CAPACITY then q[1..] else q) + [m]
  }

  function Next(idx: nat): (r: nat)
    requires idx < BLE_FIFO_SIZE
    ensures r == if idx == BLE_FIFO_SIZE - 1 then 0 else idx + 1
  {
    (idx + 1) % BLE_FIFO_SIZE
  }

  predicate IsIndex(i: int) { 0 <= i < BLE_FIFO_SIZE }

  function Count(r: nat, w: nat): (n: nat)
    requires IsIndex(r) && IsIndex(w)
    ensures n <= CAPACITY
  {
    if w >= r then w - r else w + BLE_FIFO_SIZE - r
  }

  function At(r: nat, k: nat): (i: nat)
    requires IsIndex(r) && k < BLE_FIFO_SIZE
    ensures IsIndex(i)
  {
    if r + k < BLE_FIFO_SIZE then r + k else r + k - BLE_FIFO_SIZE
  }

  /** The messages in the ring, oldest first. */
  function QueueOf(ring: seq<MsgBuf>, r: nat, w: nat): (q: seq<Msg>)
    requires |ring| == BLE_FIFO_SIZE && IsIndex(r) && IsIndex(w)
    ensures |q| == Count(r, w)
  {
    seq(Count(r, w), k requires 0 <= k < Count(r, w) => Wire(ring[At(r, k)]))
  }

  /** Advancing the read index drops the oldest message. */
  lemma AdvanceRead(ring: seq<MsgBuf>, r: nat, w: nat)
    requires |ring| == BLE_FIFO_SIZE && IsIndex(r) && IsIndex(w) && r != w
    ensures QueueOf(ring, Next(r), w) == QueueOf(ring, r, w)[1..]
  {}

  /** Storing at the write index of a ring that is not full and advancing it appends. */
  lemma AdvanceWrite(ring: seq<MsgBuf>, r: nat, w: nat, m: MsgBuf)
    requires |ring| == BLE_FIFO_SIZE && IsIndex(r) && IsIndex(w) && Next(w) != r
    ensures QueueOf(ring[w := m], r, Next(w)) == QueueOf(ring, r, w) + [Wire(m)]
  {}

  /** One ring with its read and write index. */
  class Fifo {
    const ring: array<MsgBuf>
    var readIdx: nat
    var writeIdx: nat

    ghost predicate Valid()
      reads this
    {
      ring.Length == BLE_FIFO_SIZE && IsIndex(readIdx) && IsIndex(writeIdx)
    }

    ghost function Queue(): (q: seq<Msg>)
      requires Valid()
      reads this, ring
      ensures |q| == Count(readIdx, writeIdx)
    {
      QueueOf(ring[..], readIdx, writeIdx)
    }

    constructor ()
      ensures Valid() && fresh(ring) && Queue() == []
    {
      ring := new MsgBuf[BLE_FIFO_SIZE](_ => EMPTY_BUF);
      readIdx, writeIdx := 0, 0;
    }

    method IsFull() returns (b: bool)
      requires Valid()
      ensures b <==> |Queue()| == CAPACITY
    {
      b := Next(writeIdx) == readIdx;
    }

    method IsEmpty() returns (b: bool)
      requires Valid()
      ensures b <==> Queue() == []
    {
      b := writeIdx == readIdx;
    }

    /** add_ble_msg_to_queue on one ring. */
    method Add(msg: MsgBuf)
      requires Valid()
      modifies this, ring
      ensures Valid() && Queue() == PushTo(old(Queue()), Wire(msg))
    {
      var full := IsFull();
      if full {
        AdvanceRead(ring[..], readIdx, writeIdx);
        readIdx := Next(readIdx);
      }
      var stored := CopyMsg(ring[writeIdx], msg);
      ghost var before := ring[..];
      AdvanceWrite(before, readIdx, writeIdx, stored);
      ring[writeIdx] := stored;
      assert ring[..] == before[writeIdx := stored];
      writeIdx := Next(writeIdx);
    }

    /** get_next_ble_msg on one ring; `out` is the caller's buffer before and after. */
    method GetNext(into: MsgBuf) returns (ok: bool, out: MsgBuf)
      requires Valid()
      modifies this`readIdx
      ensures Valid()
      ensures ok <==> old(Queue()) != []
      ensures ok ==> Wire(out) == old(Queue())[0] && Queue() == old(Queue())[1..]
      ensures !ok ==> out == into && Queue() == old(Queue())
    {
      var empty := IsEmpty();
      if empty { return false, into; }
      out := CopyMsg(into, ring[readIdx]);
      AdvanceRead(ring[..], readIdx, writeIdx);
      readIdx := Next(readIdx);
      ok := true;
    }
  }

  // ---------------------------------------------------------------- histories

  datatype Op = Push(m: Msg) | Pop

  /** A queue with everything that ever happened to it. fates[k] tells whether the k-th
      pushed message left the queue by delivery or by eviction. */
  datatype Fate = Delivered | Evicted
  datatype History = History(
    queue: seq<Msg>, pushed: seq<Msg>, delivered: seq<Msg>, evicted: seq<Msg>, fates: seq<Fate>)

  const START := History([], [], [], [], [])

  function Do(h: History, op: Op): History {
    match op
    case Push(m) =>
      var h1 := h.(queue := PushTo(h.queue, m), pushed := h.pushed + [m]);
      if |h.queue| == CAPACITY then
        h1.(evicted := h.evicted + [h.queue[0]], fates := h.fates + [Evicted])
      else h1
    case Pop =>
      if h.queue == [] then h
      else h.(queue := h.queue[1..], delivered := h.delivered + [h.queue[0]],
              fates := h.fates + [Delivered])
  }

  function DoAll(h: History, ops: seq<Op>): History
    decreases |ops|
  {
    if ops == [] then h else DoAll(Do(h, ops[0]), ops[1..])
  }

  /** The messages of s whose fate is f, in order. */
  function Select(s: seq<Msg>, fates: seq<Fate>, f: Fate): seq<Msg>
    requires |s| == |fates|
    decreases |s|
  {
    if s == [] then []
    else
      var n := |s| - 1;
      Select(s[..n], fates[..n], f) + (if fates[n] == f then [s[n]] else [])
  }

  /** Every pushed message is exactly one of delivered, evicted, and queued; each group keeps
      push order, and the queued ones are the latest. */
  ghost predicate Sorted(h: History) {
    && |h.queue| <= CAPACITY
    && |h.fates| + |h.queue| == |h.pushed|
    && h.queue == h.pushed[|h.fates|..]
    && h.delivered == Select(h.pushed[..|h.fates|], h.fates, Delivered)
    && h.evicted == Select(h.pushed[..|h.fates|], h.fates, Evicted)
  }

  /** The oldest message leaves with fate f. */
  lemma SelectNext(h: History, f: Fate, g: Fate)
    requires Sorted(h) && h.queue != []
    ensures var n := |h.fates|;
      Select(h.pushed[..n + 1], h.fates + [f], g)
      == Select(h.pushed[..n], h.fates, g) + (if f == g then [h.queue[0]] else [])
  {
    var n := |h.fates|;
    var s, fs := h.pushed[..n + 1], h.fates + [f];
    assert s[..n] == h.pushed[..n] && fs[..n] == h.fates && s[n] == h.queue[0];
  }

  lemma DoKeepsSorted(h: History, op: Op)
    requires Sorted(h)
    ensures Sorted(Do(h, op))
  {
    var h', n := Do(h, op), |h.fates|;
    if h.queue != [] {
      forall f, g ensures
        Select(h.pushed[..n + 1], h.fates + [f], g)
        == Select(h.pushed[..n], h.fates, g) + (if f == g then [h.queue[0]] else []) {
        SelectNext(h, f, g);
      }
    }
    assert n <= |h.pushed| ==> h'.pushed[..n] == h.pushed[..n];
    assert n + 1 <= |h.pushed| ==> h'.pushed[..n + 1] == h.pushed[..n + 1];
  }

  /** The ring refines a bounded queue: over any run of pushes and pops every pushed message
      is exactly one of delivered, evicted as the oldest, and still queued. */
  lemma {:induction false} EveryMessageHasOneFate(h: History, ops: seq<Op>)
    requires Sorted(h)
    ensures Sorted(DoAll(h, ops))
    decreases |ops|
  {
    if ops != [] {
      DoKeepsSorted(h, ops[0]);
      EveryMessageHasOneFate(Do(h, ops[0]), ops[1..]);
    }
  }

  /** As long as nothing is evicted, deliveries are the pushes in order. */
  lemma {:induction false} SelectAll(s: seq<Msg>, fates: seq<Fate>)
    requires |s| == |fates| && Select(s, fates, Evicted) == []
    ensures Select(s, fates, Delivered) == s
    decreases |s|
  {
    if s != [] {
      var n := |s| - 1;
      SelectAll(s[..n], fates[..n]);
      assert s == s[..n] + [s[n]];
    }
  }
}
