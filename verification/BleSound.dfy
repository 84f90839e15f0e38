/** Every packet that ends on a header can be seen in the messages: what the receiver is left with
    never fits the stream again before the next packet with flag 0. */
module BleSound {
  import opened Bytes
  import opened BleTypes
  import opened BleFifo
  import opened BleTx
  import opened BleRx
  import opened BleLink
  import opened BleCut

  // ---------------------------------------------------------------- whole messages

  function Whole(m: Msg): seq<Byte> { Header(m) + m.payload }

  /** Messages one after the other. */
  function Stream(q: seq<Msg>): seq<Byte> {
    if q == [] then [] else Whole(q[0]) + Stream(q[1..])
  }

  /** A packet with room for exactly the queued messages takes them all. */
  lemma {:induction false} FillAll(q: seq<Msg>)
    ensures Fill(Idle, q, |Stream(q)|) == Filled(Stream(q), Idle, [])
  {
    if q != [] {
      var m, room := q[0], |Stream(q)|;
      assert Piece(m, 0, room) == Whole(m);
      assert Turn(Idle, q, room) == Go(Whole(m), Idle, q[1..]);
      FillAll(q[1..]);
    }
  }

  /** And it does not end on a header. */
  lemma {:induction false} NoCutAll(q: seq<Msg>)
    ensures !CutsQueue(q, |Stream(q)|)
  {
    if q != [] { NoCutAll(q[1..]); }
  }

  /** A whole message at a message boundary. */
  lemma WholeTaken(c: Rx, m: Msg, rest: seq<Byte>) returns (c': Rx)
    requires AtBoundary(c)
    ensures AtBoundary(c') && Parse(c, Whole(m) + rest) == Emit([m], Parse(c', rest))
  {
    hide Parse, Reading;
    assert Whole(m) + rest == Header(m) + (m.payload + rest);
    var c1 := HeaderTaken(c, m, m.payload + rest);
    if m.payload == [] {
      assert [] + rest == rest;
      c' := c1;
    } else {
      assert m.payload[0..] == m.payload;
      c' := PayloadCompletes(c1, m, 0, rest);
      EmitTwice([], [m], Parse(c', rest));
    }
  }

  /** The start of a message and then the end of the packet. */
  lemma PartTaken(c: Rx, m: Msg, n: nat)
    requires AtBoundary(c) && n < |m.payload|
    ensures Parse(c, Header(m) + m.payload[..n]).out == []
  {
    hide Parse, Reading;
    var c1 := HeaderTaken(c, m, m.payload[..n]);
    assert m.payload[0..n] == m.payload[..n];
    var c2 := PayloadContinues(c1, m, 0, n);
  }

  lemma {:induction false} GarbageBefore(c: Rx, g: seq<Byte>, rest: seq<Byte>)
    requires AtBoundary(c) && BLE_MAGIC !in g
    ensures Parse(c, g + rest) == Parse(c, rest)
    decreases |g|
  {
    if g == [] {
      assert g + rest == rest;
    } else {
      assert (g + rest)[1..] == g[1..] + rest;
      GarbageBefore(c, g[1..], rest);
    }
  }

  // ---------------------------------------------------------------- shifted by a few bytes

  /** The first L bytes repeat d bytes further on. */
  predicate Shifted(b: seq<Byte>, d: nat, L: nat)
    requires L + d <= |b|
  {
    forall i :: 0 <= i < L ==> b[i] == b[i + d]
  }

  /** Any d bytes of such a sequence hold a magic byte if it starts with one. */
  lemma {:induction false} MagicInEvery(b: seq<Byte>, d: nat, L: nat, t: nat) returns (j: nat)
    requires d > 0 && L + d <= |b| && Shifted(b, d, L) && b[0] == BLE_MAGIC && t <= L
    ensures j < d && b[t + j] == BLE_MAGIC
    decreases t
  {
    if t == 0 {
      j := 0;
    } else {
      var i := MagicInEvery(b, d, L, t - 1);
      if i > 0 {
        j := i - 1;
      } else {
        assert b[t - 1] == b[t - 1 + d];
        j := d - 1;
      }
    }
  }

  lemma {:induction false} FirstMagic(s: seq<Byte>) returns (a: nat)
    requires BLE_MAGIC in s
    ensures a < |s| && s[a] == BLE_MAGIC && BLE_MAGIC !in s[..a]
    decreases |s|
  {
    if s[0] == BLE_MAGIC {
      a := 0;
    } else {
      var n := FirstMagic(s[1..]);
      a := n + 1;
      assert s[..a] == [s[0]] + s[1..][..n];
    }
  }

  /** A message that cannot be found at a wrong place. */
  const MARK := Msg(0, 0, [0])

  lemma MarkNotShifted(y: seq<Byte>)
    requires 1 <= |y| <= HEADER
    ensures (y + Whole(MARK))[..|Whole(MARK)|] != Whole(MARK)
  {
    var w := Whole(MARK);
    assert w == [BLE_MAGIC, 0, 0, 1, 0];
    assert (y + w)[..5][|y|] == w[0] != w[|y|];
  }

  /** The message that a header found at the start of b announces, its payload filled up if b ends
      too early. */
  function Announced(b: seq<Byte>): Msg
    requires |b| >= HEADER
  {
    var n := b[3];
    Msg(b[1], b[2],
        if n <= |b| - HEADER then b[HEADER..HEADER + n]
        else b[HEADER..] + seq(n - (|b| - HEADER), _ => 0))
  }

  /** What the parser makes of bytes that start with a magic. */
  lemma FirstFound(c: Rx, b: seq<Byte>) returns (c': Rx)
    requires AtBoundary(c) && |b| >= HEADER && b[0] == BLE_MAGIC
    ensures var m := Announced(b); var L := |Whole(m)|;
      if L <= |b| then
        AtBoundary(c') && b[..L] == Whole(m) && Parse(c, b) == Emit([m], Parse(c', b[L..]))
      else Parse(c, b).out == []
  {
    hide Parse;
    var m := Announced(b);
    var L := |Whole(m)|;
    if L <= |b| {
      assert b == Whole(m) + b[L..];
      c' := WholeTaken(c, m, b[L..]);
    } else {
      var n := |b| - HEADER;
      assert b == Header(m) + m.payload[..n];
      PartTaken(c, m, n);
      c' := c;
    }
  }

  lemma EmitFirst(m: Msg, p: Parsed, q: seq<Msg>)
    requires q != []
    ensures Emit([m], p).out == q <==> m == q[0] && p.out == q[1..]
  {
    assert ([m] + p.out)[1..] == p.out;
    assert q == [q[0]] + q[1..];
  }

  /** What is left when m has been found d bytes too early: d bytes again, a magic among them. */
  lemma Left(y: seq<Byte>, m: Msg, rest: seq<Msg>) returns (y': seq<Byte>)
    requires y != [] && y[0] == BLE_MAGIC
    requires var b := y + (Whole(m) + Stream(rest)); b[..|Whole(m)|] == Whole(m)
    ensures var b := y + (Whole(m) + Stream(rest));
      |y'| == |y| && BLE_MAGIC in y' && b[|Whole(m)|..] == y' + Stream(rest)
  {
    var x, L, d := y + Whole(m), |Whole(m)|, |y|;
    var b := y + (Whole(m) + Stream(rest));
    assert b == x + Stream(rest);
    forall i | 0 <= i < L ensures x[i] == x[i + d] {
      assert x[i] == b[i] == b[..L][i] == Whole(m)[i];
    }
    var j := MagicInEvery(x, d, L, L);
    y' := x[L..];
    assert y'[j] == x[L + j];
    assert b[L..] == y' + Stream(rest);
  }

  lemma BehindMark(c: Rx, y: seq<Byte>)
    requires AtBoundary(c) && 1 <= |y| <= HEADER && y[0] == BLE_MAGIC
    ensures Parse(c, y + Stream([MARK])).out != [MARK]
  {
    hide Parse, Announced, Emit, AtBoundary;
    var b := y + Stream([MARK]);
    assert Stream([MARK]) == Whole(MARK) + [] == Whole(MARK);
    assert b[0] == BLE_MAGIC;
    var c' := FirstFound(c, b);
    MarkNotShifted(y);
    var m := Announced(b);
    if |Whole(m)| <= |b| { EmitFirst(m, Parse(c', b[|Whole(m)|..]), [MARK]); }
  }

  /** If the first message is found all the same, the receiver is behind the next one again. */
  lemma BehindNext(c: Rx, y: seq<Byte>, q: seq<Msg>) returns (c': Rx, y': seq<Byte>)
    requires AtBoundary(c) && 1 <= |y| <= HEADER && y[0] == BLE_MAGIC && |q| > 1
    ensures Parse(c, y + Stream(q)).out == q ==>
      && AtBoundary(c') && 1 <= |y'| <= HEADER && y'[0] == BLE_MAGIC
      && Parse(c', y' + Stream(q[1..])).out == q[1..]
  {
    hide Parse, Announced, Emit, AtBoundary;
    var b, rest := y + Stream(q), q[1..];
    assert b == y + (Whole(q[0]) + Stream(rest)) && b[0] == BLE_MAGIC;
    var m := Announced(b);
    c' := FirstFound(c, b);
    y' := y;
    if |Whole(m)| <= |b| {
      EmitFirst(m, Parse(c', b[|Whole(m)|..]), q);
      if m == q[0] {
        var left := Left(y, m, rest);
        var a := FirstMagic(left);
        y' := left[a..];
        assert left + Stream(rest) == left[..a] + (y' + Stream(rest));
        GarbageBefore(c', left[..a], y' + Stream(rest));
      }
    }
  }

  /** A receiver that is a few bytes behind the stream, with a magic first, does not find the
      messages of a stream that ends in the mark. */
  lemma {:induction false} Behind(c: Rx, y: seq<Byte>, q: seq<Msg>)
    requires AtBoundary(c) && 1 <= |y| <= HEADER && y[0] == BLE_MAGIC
    requires q != [] && q[|q| - 1] == MARK
    ensures Parse(c, y + Stream(q)).out != q
    decreases |q|
  {
    hide Parse, AtBoundary, Stream;
    if |q| == 1 {
      assert q == [MARK];
      BehindMark(c, y);
    } else {
      var c', y' := BehindNext(c, y, q);
      if Parse(c, y + Stream(q)).out == q { Behind(c', y', q[1..]); }
    }
  }

  // ---------------------------------------------------------------- after a cut

  /** The header and payload of a message whose payload is its header over and over: read from the
      end of the payload on, there is another magic. */
  lemma MagicLeft(m: Msg)
    requires m.payload != [] && Garbled(m, 1) == m
    ensures |Whole(m)| == |m.payload| + HEADER && BLE_MAGIC in Whole(m)[|m.payload|..]
  {
    var b, n := Whole(m), |m.payload|;
    assert Headers(m, 1) == Headers(m, 0) + Header(m) == Header(m);
    forall i | 0 <= i < n ensures b[i] == b[i + HEADER] { assert b[i] == b[..n][i] == m.payload[i]; }
    var j := MagicInEvery(b, HEADER, n, n);
    assert b[n..][j] == BLE_MAGIC;
  }

  lemma WholeLength(m: Msg)
    ensures |Whole(m)| == |m.payload| + HEADER
  {}

  lemma LeftBehind(c: Rx, left: seq<Byte>, q: seq<Msg>)
    requires AtBoundary(c) && |left| == HEADER && BLE_MAGIC in left
    requires q != [] && q[|q| - 1] == MARK
    ensures Parse(c, left + Stream(q)).out != q
  {
    hide Parse, Stream, AtBoundary;
    var a := FirstMagic(left);
    assert left + Stream(q) == left[..a] + (left[a..] + Stream(q));
    GarbageBefore(c, left[..a], left[a..] + Stream(q));
    Behind(c, left[a..], q);
  }

  lemma LagPayload(c: Rx, m: Msg)
    requires Lagging(Sending(m, 0), c, 0)
    ensures m.payload != []
  {}

  lemma LagWhole(c: Rx, m: Msg, rest: seq<Byte>) returns (c': Rx)
    requires Lagging(Sending(m, 0), c, 0)
    ensures AtBoundary(c')
    ensures Receive(c, [1] + (Whole(m) + rest)) == Emit([Garbled(m, 1)], Parse(c', Whole(m)[|m.payload|..] + rest))
  {
    hide Parse;
    var b, n := Whole(m) + rest, |m.payload|;
    assert ([1] + b)[1..] == b;
    assert Headers(m, 1) == Headers(m, 0) + Header(m) == Header(m);
    ParsePayload(c, b, n);
    var c1 := TakePayload(c, b[..n]);
    assert b[..n] == Whole(m)[..n] && b[n..] == Whole(m)[n..] + rest;
    assert Wire(c1.cur) == Garbled(m, 1);
    c' := Resync(c1);
  }

  /** The receiver has had m's header; the sender repeats it, and goes on with messages of which
      the last is the mark, in one packet. They do not all arrive. */
  lemma CutLosesOne(c: Rx, m: Msg, q: seq<Msg>)
    requires Lagging(Sending(m, 0), c, 0) && q != [] && q[|q| - 1] == MARK
    ensures Receive(c, [1] + (Whole(m) + Stream(q))).out != [m] + q
  {
    hide Parse, Lagging, Stream, AtBoundary, Garbled, Header, Headers, Whole, Receive;
    var n := |m.payload|;
    WholeLength(m);
    var left := Whole(m)[n..];
    var c' := LagWhole(c, m, Stream(q));
    EmitFirst(Garbled(m, 1), Parse(c', left + Stream(q)), [m] + q);
    assert ([m] + q)[1..] == q;
    if Garbled(m, 1) == m {
      LagPayload(c, m);
      MagicLeft(m);
      LeftBehind(c', left, q);
    }
  }

  // ---------------------------------------------------------------- on the link

  /** Where a packet that ended on m's header leaves the link. */
  predicate Cut(k: Link, m: Msg) {
    && k.tx == Sending(m, 0) && Lagging(k.tx, k.rx, 0)
    && k.received + ([m] + k.fifo.queue) == NotEvicted(k.fifo)
  }

  lemma CutLink(k: Link, mtu: nat)
    requires InStep(k) && EndsOnHeader(k.tx, k.fifo.queue, mtu)
    ensures var k1 := Happen(k, Packet(mtu));
      k1.tx.Sending? && Cut(k1, k1.tx.msg) && Sorted(k1.fifo)
  {
    hide Happen, InStep, EndsOnHeader, Lagging, Sorted;
    CutPacket(k, mtu);
  }

  lemma EnqueueMark(k: Link, m: Msg)
    requires Cut(k, m) && Sorted(k.fifo)
    ensures var k2 := Happen(k, Enqueue(MARK)); var q := k2.fifo.queue;
      Cut(k2, m) && Sorted(k2.fifo) && q != [] && q[|q| - 1] == MARK
  {
    hide Sorted, Lagging;
    DoKeepsSorted(k.fifo, Push(MARK));
    var q, h := k.fifo.queue, k.fifo;
    assert (k.received + [m]) + q == k.received + ([m] + q);
    CancelTail(k.received + [m], h.delivered, q);
    var q2 := PushTo(q, MARK);
    assert (k.received + [m]) + q2 == k.received + ([m] + q2);
  }

  /** The MTU at which one packet takes m and all of q. */
  function BigMtu(m: Msg, q: seq<Msg>): nat { 1 + |Stream([m] + q)| }

  lemma BigPacket(m: Msg, q: seq<Msg>)
    ensures BuildPacket(Sending(m, 0), q, BigMtu(m, q)) == Filled([1] + (Whole(m) + Stream(q)), Idle, [])
    ensures !EndsOnHeader(Sending(m, 0), q, BigMtu(m, q))
  {
    var room := |Stream([m] + q)|;
    assert ([m] + q)[1..] == q;
    assert Piece(m, 0, room) == Whole(m);
    assert Turn(Sending(m, 0), q, room) == Go(Whole(m), Idle, q);
    FillAll(q);
    NoCutAll([m] + q);
  }

  /** A message without payload, sent alone, always arrives. */
  lemma EmptyArrives(c: Rx, m: Msg)
    requires m.payload == []
    ensures BuildPacket(Idle, [m], 5) == Filled([0] + Header(m), Idle, [])
    ensures Receive(c, [0] + Header(m)).out == [m]
  {
    hide Parse;
    assert Piece(m, 0, 4) == Header(m) && [m][1..] == [];
    assert Turn(Idle, [m], 4) == Go(Header(m), Idle, []);
    assert Header(m) + [] == Header(m) && ([0] + Header(m))[1..] == Header(m);
    var c1 := HeaderTaken(Begin(c, 0), m, []);
    ParseNothing(c1, []);
  }

  lemma PrefixCancels(base: seq<Msg>, s: seq<Msg>, t: seq<Msg>)
    requires base + s <= base + t
    ensures s <= t
  {
    assert s == (base + s)[|base|..] && t == (base + t)[|base|..];
  }

  function Other(m: Msg): (o: Msg)
    ensures o != m && o.payload == []
  {
    Msg(if m.opcode == 0 then 1 else 0, 0, [])
  }

  /** The big packet either hands over wrong messages or loses one for good. */
  lemma BigPacketGained(k: Link, m: Msg)
    requires Cut(k, m) && Sorted(k.fifo)
    requires k.fifo.queue != [] && k.fifo.queue[|k.fifo.queue| - 1] == MARK
    ensures var k3 := Happen(k, Packet(BigMtu(m, k.fifo.queue)));
      && k3.tx == Idle && k3.fifo.queue == [] && NotEvicted(k3.fifo) == NotEvicted(k.fifo)
      && k.received <= k3.received && k3.received != NotEvicted(k.fifo)
  {
    hide Stream, Lagging, Receive, BuildPacket, Sorted;
    var q := k.fifo.queue;
    BigPacket(m, q);
    CutLosesOne(k.rx, m, q);
    PopNTakes(k.fifo, |q|);
    var out := Receive(k.rx, [1] + (Whole(m) + Stream(q))).out;
    if k.received + out == k.received + ([m] + q) {
      PrefixCancels(k.received, out, [m] + q);
      PrefixCancels(k.received, [m] + q, out);
    }
    assert k.fifo.delivered + q[..|q|] == NotEvicted(k.fifo);
  }

  /** Once a message is lost, another one that is sent next arrives in its place. */
  lemma LossIsSeen(k: Link)
    requires k.tx == Idle && k.fifo.queue == []
    requires k.received <= NotEvicted(k.fifo) && k.received != NotEvicted(k.fifo)
    ensures var lost := NotEvicted(k.fifo)[|k.received|];
      !Right(Happen(k, Enqueue(Other(lost))))
  {
    hide Receive, BuildPacket;
    var m := Other(NotEvicted(k.fifo)[|k.received|]);
    var k4 := Happen(k, Enqueue(m));
    EmptyArrives(k.rx, m);
    assert k4.fifo.queue == [m];
    var k5 := Happen(k4, Packet(5));
    assert k5.received == k.received + [m];
    assert NotEvicted(k4.fifo) == NotEvicted(k.fifo) + [m];
    assert k5.received[|k.received|] == m;
  }

  // ---------------------------------------------------------------- every run

  /** Whatever comes next without another cut, the messages stay right. */
  ghost predicate Safe(k: Link)
    requires TxOk(k.tx)
  {
    forall es :: NoCut(k, es) ==> Right(HappenAll(k, es))
  }

  lemma OneEvent(k: Link, e: Event)
    requires TxOk(k.tx)
    ensures HappenAll(k, [e]) == Happen(k, e)
    ensures NoCut(k, [e]) <==> (e.Packet? ==> !EndsOnHeader(k.tx, k.fifo.queue, e.mtu))
  {
    hide Happen, EndsOnHeader;
    assert [e][1..] == [] && HappenAll(Happen(k, e), []) == Happen(k, e);
  }

  lemma ThenRest(k: Link, e: Event, es: seq<Event>)
    requires TxOk(k.tx)
    ensures HappenAll(k, [e] + es) == HappenAll(Happen(k, e), es)
    ensures NoCut(k, [e] + es) <==>
      (e.Packet? ==> !EndsOnHeader(k.tx, k.fifo.queue, e.mtu)) && NoCut(Happen(k, e), es)
  {
    hide Happen, EndsOnHeader;
    assert ([e] + es)[1..] == es;
  }

  lemma NotRight(k: Link, mtu: nat)
    requires TxOk(k.tx) && !(Happen(k, Packet(mtu)).received <= NotEvicted(k.fifo))
    ensures !Right(k)
  {}

  lemma CutIsUnsafe(k: Link, m: Msg)
    requires Cut(k, m) && Sorted(k.fifo)
    ensures TxOk(k.tx) && !Safe(k)
  {
    hide Happen, HappenAll, NoCut, Right, EndsOnHeader, Sorted, Lagging, Stream, NotEvicted;
    EnqueueTx(k, MARK);
    EnqueueMark(k, m);
    var e1 := Enqueue(MARK);
    var k2 := Happen(k, e1);
    var e2 := Packet(BigMtu(m, k2.fifo.queue));
    var k3 := Happen(k2, e2);
    OneEvent(k, e1);
    BigPacketGained(k2, m);
    BigPacket(m, k2.fifo.queue);
    if k3.received <= NotEvicted(k2.fifo) {
      LossIsSeen(k3);
      var e3 := Enqueue(Other(NotEvicted(k3.fifo)[|k3.received|]));
      OneEvent(k3, e3);
      ThenRest(k2, e2, [e3]);
      ThenRest(k, e1, [e2] + [e3]);
      assert !Right(HappenAll(k, [e1] + ([e2] + [e3])));
    } else {
      NotRight(k2, BigMtu(m, k2.fifo.queue));
      assert !Right(HappenAll(k, [e1]));
    }
  }

  /** At every point of a run. */
  ghost predicate AlwaysSafe(k: Link, es: seq<Event>)
    requires TxOk(k.tx)
    decreases |es|
  {
    Safe(k) && (es == [] || AlwaysSafe(Happen(k, es[0]), es[1..]))
  }

  lemma StartsSafe(k: Link, es: seq<Event>)
    requires TxOk(k.tx)
    ensures AlwaysSafe(k, es) ==> Safe(k)
  {
    hide Safe;
  }

  lemma InStepIsSafe(k: Link)
    requires InStep(k)
    ensures TxOk(k.tx) && Safe(k)
  {
    hide InStep, Happen, HappenAll, NoCut, Right;
    StepCoupled(k);
    forall es | NoCut(k, es) ensures Right(HappenAll(k, es)) {
      InStepIff(k, es);
      EndsInStep(k, es);
      InStepIsRight(HappenAll(k, es));
    }
  }

  /** A run can only be continued with the right messages, at every point and in every way without
      another such packet, exactly if no packet of it ends on the header of a message with a
      payload: whatever the messages are. */
  lemma {:induction false} RunIsSafeIff(k: Link, es: seq<Event>)
    requires InStep(k)
    ensures TxOk(k.tx) && (AlwaysSafe(k, es) <==> NoCut(k, es))
    decreases |es|
  {
    hide InStep, Happen, EndsOnHeader, Safe, Cut, Sorted;
    InStepIsSafe(k);
    if es != [] {
      var e, k1 := es[0], Happen(k, es[0]);
      EventKeepsStepIff(k, e);
      if e.Packet? && EndsOnHeader(k.tx, k.fifo.queue, e.mtu) {
        CutLink(k, e.mtu);
        StartsSafe(k1, es[1..]);
        CutIsUnsafe(k1, k1.tx.msg);
      } else {
        RunIsSafeIff(k1, es[1..]);
      }
    }
  }

  /** The same of every run from a fresh link. */
  lemma MessagesSafeIff(es: seq<Event>)
    ensures AlwaysSafe(FRESH_LINK, es) <==> NoCut(FRESH_LINK, es)
  {
    FreshInStep();
    RunIsSafeIff(FRESH_LINK, es);
  }
}
