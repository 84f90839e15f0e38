/** Packets that end on a header: what arrives, and when the messages received are the right ones. */
module BleCut {
  import opened Bytes
  import opened BleTypes
  import opened BleFifo
  import opened BleTx
  import opened BleRx
  import opened BleLink

  // ---------------------------------------------------------------- headers as payload

  /** The payload is the message's own header over and over. */
  predicate Repeats(m: Msg) {
    forall i :: 0 <= i < |m.payload| ==> m.payload[i] == Header(m)[i % HEADER]
  }

  function Headers(m: Msg, j: nat): (s: seq<Byte>)
    ensures |s| == HEADER * j
    ensures forall i :: 0 <= i < |s| ==> s[i] == Header(m)[i % HEADER]
  {
    if j == 0 then [] else Headers(m, j - 1) + Header(m)
  }

  /** The message that j headers and then the payload make, read as payload. */
  function Garbled(m: Msg, j: nat): Msg {
    Msg(m.opcode, m.reqApp, (Headers(m, j) + m.payload)[..|m.payload|])
  }

  lemma {:induction false} PayloadRepeats(m: Msg, j: nat, i: nat)
    requires j > 0 && i < |m.payload| && Garbled(m, j) == m
    ensures m.payload[i] == Header(m)[i % HEADER]
  {
    var s := Headers(m, j) + m.payload;
    assert m.payload[i] == s[..|m.payload|][i] == s[i];
    if i >= HEADER * j {
      PayloadRepeats(m, j, i - HEADER * j);
      assert (i - HEADER * j) % HEADER == i % HEADER;
    }
  }

  /** However many headers came first, what arrives is the message itself exactly if its
      payload repeats its header. */
  lemma GarbledIff(m: Msg, j: nat)
    requires j > 0
    ensures Garbled(m, j) == m <==> Repeats(m)
  {
    if Garbled(m, j) == m {
      forall i | 0 <= i < |m.payload| ensures m.payload[i] == Header(m)[i % HEADER] { PayloadRepeats(m, j, i); }
    }
    if Repeats(m) {
      var s := Headers(m, j) + m.payload;
      forall i | 0 <= i < |m.payload| ensures s[i] == m.payload[i] {
        if i >= HEADER * j { assert (i - HEADER * j) % HEADER == i % HEADER; }
      }
      assert s[..|m.payload|] == m.payload;
    }
  }

  // ---------------------------------------------------------------- after a cut

  /** What the receiver has taken for payload of the message being sent: j headers and the
      payload bytes sent since. */
  function Taken(tx: Tx, j: nat): seq<Byte>
    requires tx.Sending? && TxOk(tx)
  {
    Headers(tx.msg, j) + tx.msg.payload[..tx.offset]
  }

  /** The receiver has had the header of the message being sent, and the sender has not
      counted it as sent. */
  predicate Lagging(tx: Tx, c: Rx, j: nat) {
    && tx.Sending? && TxOk(tx) && (j == 0 ==> tx.offset == 0)
    && c.state == ReadPayload && c.active
    && c.cur.opcode == tx.msg.opcode && c.cur.reqApp == tx.msg.reqApp && c.cur.len == |tx.msg.payload|
    && c.offset == |Taken(tx, j)| < c.cur.len
    && c.cur.payload[..c.offset] == Taken(tx, j)
  }

  lemma CutLags(tx: Tx, c: Rx)
    requires tx.Sending? && tx.offset == 0 && Reading(c, tx.msg, 0)
    ensures Lagging(tx, c, 0)
  {}

  function Sent(tx: Tx, j: nat): nat
    requires tx.Sending?
  {
    if tx.offset == 0 then j + 1 else j
  }

  /** A piece adds its bytes to what is taken for payload. */
  lemma PieceTaken(m: Msg, offset: nat, room: nat, j: nat)
    requires TxOk(Sending(m, offset)) && room > 0 && !Blocked(Sending(m, offset), room)
    ensures var end := offset + Chunk(m, offset, room);
      Taken(Sending(m, offset), j) + Piece(m, offset, room)
      == Headers(m, Sent(Sending(m, offset), j)) + m.payload[..end]
  {
    var end := offset + Chunk(m, offset, room);
    assert m.payload[..offset] + m.payload[offset..end] == m.payload[..end];
    if offset == 0 { assert m.payload[..0] == []; }
  }

  /** The packet that follows: the flag is 1, and then the piece. */
  lemma NextPiece(tx: Tx, q: seq<Msg>, mtu: nat)
    requires TxOk(tx) && tx.Sending? && Carries(BuildPacket(tx, q, mtu))
    ensures mtu > 1 && !Blocked(tx, mtu - 1)
    ensures var piece := Piece(tx.msg, tx.offset, mtu - 1);
      var tx' := Advance(tx.msg, tx.offset, Chunk(tx.msg, tx.offset, mtu - 1));
      var f := Fill(tx', q, mtu - 1 - |piece|);
      BuildPacket(tx, q, mtu) == Filled([1] + (piece + f.bytes), f.tx, f.q)
  {}

  /** The piece does not complete the message on the receiver's side. */
  lemma LagGoesOn(tx: Tx, q: seq<Msg>, mtu: nat, c: Rx, j: nat)
    requires Lagging(tx, c, j) && Carries(BuildPacket(tx, q, mtu))
    requires mtu > 1 && !Blocked(tx, mtu - 1)
    requires |Taken(tx, j) + Piece(tx.msg, tx.offset, mtu - 1)| < |tx.msg.payload|
    ensures var f := BuildPacket(tx, q, mtu); var p := Receive(c, f.bytes);
      p.out == [] && f.tx.Sending? && f.tx.msg == tx.msg && f.q == q && Lagging(f.tx, p.rx, Sent(tx, j))
  {
    hide Parse, BuildPacket, Turn;
    var m, offset, room := tx.msg, tx.offset, mtu - 1;
    var piece := Piece(m, offset, room);
    NextPiece(tx, q, mtu);
    PieceTaken(m, offset, room, j);
    UnfinishedPieceFills(m, offset, room);
    var tx' := Advance(m, offset, Chunk(m, offset, room));
    assert Fill(tx', q, 0) == Filled([], tx', q);
    assert piece + [] == piece && ([1] + piece)[1..] == piece;
    assert piece[..|piece|] == piece && piece[|piece|..] == [];
    ParsePayload(c, piece, |piece|);
    ParseNothing(TakePayload(c, piece), []);
    EmitTwice([], [], Parsed(TakePayload(c, piece), []));
  }

  lemma Arrives(m: Msg, taken: seq<Byte>, piece: seq<Byte>, more: seq<Byte>, n: nat, j: nat, end: nat)
    requires end <= |m.payload| && n <= |piece| && |taken| + n == |m.payload|
    requires taken + piece == Headers(m, j) + m.payload[..end]
    ensures taken + (piece + more)[..n] == Garbled(m, j).payload
  {
    var s, k := Headers(m, j) + m.payload, |m.payload|;
    assert (piece + more)[..n] == piece[..n];
    assert taken + piece[..n] == (taken + piece)[..k];
    assert (taken + piece)[..k] == (Headers(m, j) + m.payload[..end])[..k] == s[..k];
  }

  /** The piece completes it: what arrives is made of headers and payload. */
  lemma LagEnds(tx: Tx, q: seq<Msg>, mtu: nat, c: Rx, j: nat)
    requires Lagging(tx, c, j) && Carries(BuildPacket(tx, q, mtu))
    requires mtu > 1 && !Blocked(tx, mtu - 1)
    requires |Taken(tx, j) + Piece(tx.msg, tx.offset, mtu - 1)| >= |tx.msg.payload|
    ensures var p := Receive(c, BuildPacket(tx, q, mtu).bytes);
      p.out != [] && p.out[0] == Garbled(tx.msg, Sent(tx, j))
  {
    hide Parse, BuildPacket, Turn, Fill;
    var m, offset, room := tx.msg, tx.offset, mtu - 1;
    var piece := Piece(m, offset, room);
    NextPiece(tx, q, mtu);
    PieceTaken(m, offset, room, j);
    var more := Fill(Advance(m, offset, Chunk(m, offset, room)), q, room - |piece|).bytes;
    var rest, n := piece + more, |m.payload| - c.offset;
    assert ([1] + rest)[1..] == rest;
    ParsePayload(c, rest, n);
    var c1 := TakePayload(c, rest[..n]);
    Arrives(m, Taken(tx, j), piece, more, n, Sent(tx, j), offset + Chunk(m, offset, room));
    assert Wire(c1.cur) == Garbled(m, Sent(tx, j));
  }

  // ---------------------------------------------------------------- runs after a cut

  /** What arrived in place of m: right in its header, and right altogether exactly if m
      repeats its header. */
  predicate InPlaceOf(r: Msg, m: Msg) {
    && r.opcode == m.opcode && r.reqApp == m.reqApp && |r.payload| == |m.payload|
    && (r == m <==> Repeats(m))
  }

  /** `base` had been received when a packet ended on m's header. */
  ghost predicate SinceCut(k: Link, m: Msg, base: seq<Msg>) {
    && TxOk(k.tx)
    && base <= k.received
    && if |k.received| == |base| then k.tx.Sending? && k.tx.msg == m && exists j: nat :: Lagging(k.tx, k.rx, j)
       else InPlaceOf(k.received[|base|], m)
  }

  lemma GarbledInPlace(m: Msg, j: nat)
    requires j > 0
    ensures InPlaceOf(Garbled(m, j), m)
  {
    GarbledIff(m, j);
  }

  lemma LagBounds(tx: Tx, c: Rx, j: nat)
    requires Lagging(tx, c, j)
    ensures tx.Sending? && TxOk(tx) && Sent(tx, j) > 0
  {}

  /** One packet, received while lagging. */
  lemma LagPacket(tx: Tx, q: seq<Msg>, mtu: nat, c: Rx, j: nat)
    requires Lagging(tx, c, j) && Carries(BuildPacket(tx, q, mtu))
    ensures var f := BuildPacket(tx, q, mtu); var p := Receive(c, f.bytes);
      && (p.out == [] ==> f.tx.Sending? && f.tx.msg == tx.msg && Lagging(f.tx, p.rx, Sent(tx, j)))
      && (p.out != [] ==> InPlaceOf(p.out[0], tx.msg))
      && (mtu > HEADER + |tx.msg.payload| ==> p.out != [])
  {
    hide BuildPacket, Receive, Lagging, Garbled, InPlaceOf;
    LagBounds(tx, c, j);
    NextPiece(tx, q, mtu);
    var piece := Piece(tx.msg, tx.offset, mtu - 1);
    if |Taken(tx, j) + piece| < |tx.msg.payload| {
      LagGoesOn(tx, q, mtu, c, j);
    } else {
      LagEnds(tx, q, mtu, c, j);
      GarbledInPlace(tx.msg, Sent(tx, j));
    }
  }

  /** A packet that carries nothing leaves a message being sent as it is. */
  lemma NothingSent(tx: Tx, q: seq<Msg>, mtu: nat)
    requires TxOk(tx) && tx.Sending? && !Carries(BuildPacket(tx, q, mtu))
    ensures BuildPacket(tx, q, mtu).tx == tx
  {}

  lemma EventKeepsCut(k: Link, e: Event, m: Msg, base: seq<Msg>)
    requires SinceCut(k, m, base)
    ensures SinceCut(Happen(k, e), m, base)
  {
    hide BuildPacket, Receive, Lagging, InPlaceOf;
    match e
    case Enqueue(_) =>
    case Packet(mtu) =>
      if |k.received| == |base| {
        var j: nat :| Lagging(k.tx, k.rx, j);
        if Carries(BuildPacket(k.tx, k.fifo.queue, mtu)) { LagPacket(k.tx, k.fifo.queue, mtu, k.rx, j); }
        else { NothingSent(k.tx, k.fifo.queue, mtu); }
      }
  }

  lemma SinceCutTx(k: Link, m: Msg, base: seq<Msg>)
    requires SinceCut(k, m, base)
    ensures TxOk(k.tx)
  {}

  lemma {:induction false} RunKeepsCut(k: Link, es: seq<Event>, m: Msg, base: seq<Msg>)
    requires SinceCut(k, m, base)
    ensures SinceCut(HappenAll(k, es), m, base)
    decreases |es|
  {
    hide Happen, SinceCut;
    if es != [] {
      SinceCutTx(k, m, base);
      EventKeepsCut(k, es[0], m, base);
      RunKeepsCut(Happen(k, es[0]), es[1..], m, base);
    }
  }

  /** The messages queued and not evicted, in order. */
  function NotEvicted(h: History): seq<Msg> { h.delivered + h.queue }

  lemma StepCoupled(k: Link)
    requires InStep(k)
    ensures Coupled(k.tx, k.rx) && TxOk(k.tx)
  {}

  lemma SuffixOfSum(a: seq<Msg>, b: seq<Msg>)
    ensures IsSuffix(b, a + b)
  {}

  lemma StepBooks(k: Link)
    requires InStep(k)
    ensures Sorted(k.fifo) && k.received + Pending(k.tx, []) == k.fifo.delivered
  {}

  lemma Regroup(received: seq<Msg>, out: seq<Msg>, active: seq<Msg>, q: seq<Msg>, pending: seq<Msg>,
                delivered: seq<Msg>, q': seq<Msg>)
    requires out + pending == active + q && received + active == delivered && IsSuffix(q', q)
    ensures |q'| <= |q| && q' == q[|q| - |q'|..]
    ensures (received + out) + pending == delivered + q
    ensures (delivered + q[..|q| - |q'|]) + q' == delivered + q
  {
    assert (received + out) + pending == received + (out + pending);
    assert received + (active + q) == (received + active) + q;
  }

  lemma BuildTakesPrefix(tx: Tx, q: seq<Msg>, mtu: nat)
    requires TxOk(tx)
    ensures IsSuffix(BuildPacket(tx, q, mtu).q, q)
  {
    if mtu > 0 { FillTakesPrefix(tx, q, mtu - 1); } else { SuffixOfItself(q); }
  }

  /** A packet loses no message, whether it ends on a header or not. */
  lemma PacketKeepsAll(k: Link, mtu: nat)
    requires InStep(k)
    ensures var k1 := Happen(k, Packet(mtu));
      && Sorted(k1.fifo)
      && k1.received + Pending(k1.tx, k1.fifo.queue) == NotEvicted(k1.fifo) == NotEvicted(k.fifo)
      && IsSuffix(Pending(k1.tx, k1.fifo.queue), Pending(k.tx, k.fifo.queue))
      && k1.fifo.queue == BuildPacket(k.tx, k.fifo.queue, mtu).q
  {
    hide BuildPacket, Receive, Sorted, Coupled, EndsOnHeader, Pending, IsSuffix;
    StepCoupled(k);
    StepBooks(k);
    var q, f := k.fifo.queue, BuildPacket(k.tx, k.fifo.queue, mtu);
    BuildTakesPrefix(k.tx, q, mtu);
    PendingSplit(k.tx, q);
    var out := if Carries(f) then Receive(k.rx, f.bytes).out else [];
    if Carries(f) {
      PacketDelivers(k.tx, q, mtu, k.rx);
    } else {
      EmptyPacketDelivers(k.tx, q, mtu, k.rx);
      assert out + Pending(f.tx, f.q) == Pending(f.tx, f.q);
    }
    Regroup(k.received, out, Pending(k.tx, []), q, Pending(f.tx, f.q), k.fifo.delivered, f.q);
    PopNTakes(k.fifo, |q| - |f.q|);
    SuffixOfSum(out, Pending(f.tx, f.q));
    assert k.received + [] == k.received;
  }

  /** The packet that ends on a header. */
  lemma CutPacket(k: Link, mtu: nat)
    requires InStep(k) && EndsOnHeader(k.tx, k.fifo.queue, mtu)
    ensures var k1 := Happen(k, Packet(mtu));
      && k1.tx.Sending? && k1.tx.offset == 0 && Lagging(k1.tx, k1.rx, 0) && Sorted(k1.fifo)
      && k1.received + Pending(k1.tx, k1.fifo.queue) == NotEvicted(k1.fifo)
      && IsSuffix(Pending(k1.tx, k1.fifo.queue), Pending(k.tx, k.fifo.queue))
  {
    hide BuildPacket, Receive, EndsOnHeader, Reading, Lagging, Sorted, Coupled;
    StepCoupled(k);
    PacketKeepsAll(k, mtu);
    var q, f := k.fifo.queue, BuildPacket(k.tx, k.fifo.queue, mtu);
    if Carries(f) {
      PacketDelivers(k.tx, q, mtu, k.rx);
      CutLags(f.tx, Receive(k.rx, f.bytes).rx);
    } else {
      EmptyPacketDelivers(k.tx, q, mtu, k.rx);
    }
  }

  /** After a packet that ended on a header, whatever is queued and sent from then on and with
      whatever MTUs, the next message handed over stands for the cut one: it has its opcode,
      application and length, and its payload exactly if that repeats the header. */
  lemma CutMessageArrives(k: Link, mtu: nat, es: seq<Event>)
    requires InStep(k) && EndsOnHeader(k.tx, k.fifo.queue, mtu)
    ensures var k1 := Happen(k, Packet(mtu)); var k2 := HappenAll(k1, es);
      && k1.tx.Sending? && k1.received <= k2.received
      && (|k2.received| > |k1.received| ==> InPlaceOf(k2.received[|k1.received|], k1.tx.msg))
  {
    hide Happen, HappenAll, InPlaceOf, EndsOnHeader, Lagging;
    CutPacket(k, mtu);
    var k1 := Happen(k, Packet(mtu));
    RunKeepsCut(k1, es, k1.tx.msg, k1.received);
  }

  // ---------------------------------------------------------------- the right messages

  /** Whatever packet comes next, the messages received by then are the first of those queued
      and not evicted, in order. */
  ghost predicate Right(k: Link)
    requires TxOk(k.tx)
  {
    forall mtu: nat :: Happen(k, Packet(mtu)).received <= NotEvicted(k.fifo)
  }

  /** At every point of a run. */
  ghost predicate AlwaysRight(k: Link, es: seq<Event>)
    requires TxOk(k.tx)
    decreases |es|
  {
    Right(k) && (es == [] || AlwaysRight(Happen(k, es[0]), es[1..]))
  }

  lemma InStepIsRight(k: Link)
    requires InStep(k)
    ensures TxOk(k.tx) && Right(k)
  {
    hide Happen, InStep;
    StepCoupled(k);
    forall mtu: nat ensures Happen(k, Packet(mtu)).received <= NotEvicted(k.fifo) { PacketKeepsAll(k, mtu); }
  }

  /** A cut is seen in the messages, unless the cut message repeats its header. */
  lemma CutIsWrong(k: Link, mtu: nat)
    requires InStep(k) && EndsOnHeader(k.tx, k.fifo.queue, mtu)
    ensures var k1 := Happen(k, Packet(mtu));
      k1.tx.Sending? && (!Repeats(k1.tx.msg) ==> !Right(k1))
  {
    hide BuildPacket, Receive, EndsOnHeader, InStep, Lagging;
    StepCoupled(k);
    CutPacket(k, mtu);
    var k1 := Happen(k, Packet(mtu));
    var m, room := k1.tx.msg, 1 + HEADER + |k1.tx.msg.payload|;
    var q := k1.fifo.queue;
    PacketFits(k1.tx, q, room);
    LagPacket(k1.tx, q, room, k1.rx, 0);
    var k2 := Happen(k1, Packet(room));
    assert k2.received == k1.received + Receive(k1.rx, BuildPacket(k1.tx, q, room).bytes).out;
    assert NotEvicted(k1.fifo)[|k1.received|] == m;
  }

  predicate NoneRepeats(s: seq<Msg>) { forall i :: 0 <= i < |s| ==> !Repeats(s[i]) }

  lemma NoneInSuffix(s: seq<Msg>, t: seq<Msg>)
    requires IsSuffix(s, t) && NoneRepeats(t)
    ensures NoneRepeats(s)
  {}

  lemma EnqueuePending(k: Link, m: Msg)
    requires TxOk(k.tx) && NoneRepeats(Pending(k.tx, k.fifo.queue)) && !Repeats(m)
    ensures NoneRepeats(Pending(k.tx, Happen(k, Enqueue(m)).fifo.queue))
  {
    var q := k.fifo.queue;
    PendingSplit(k.tx, q);
    NoneInSuffix(q, Pending(k.tx, q));
  }

  lemma EnqueueTx(k: Link, m: Msg)
    requires TxOk(k.tx)
    ensures Happen(k, Enqueue(m)).tx == k.tx
  {}

  lemma ActivePending(tx: Tx, q: seq<Msg>)
    requires tx.Sending?
    ensures Pending(tx, q) != [] && Pending(tx, q)[0] == tx.msg
  {}

  lemma NextRight(k: Link, es: seq<Event>)
    requires TxOk(k.tx) && es != []
    ensures AlwaysRight(k, es) ==> Right(Happen(k, es[0]))
  {
    hide Right, Happen;
    var k1, rest := Happen(k, es[0]), es[1..];
    assert AlwaysRight(k1, rest) ==> Right(k1);
  }

  /** If no message repeats its header, a run hands over the right messages throughout exactly
      if no packet of it ends on the header of a message with a payload. */
  lemma {:induction false} RunIsRightIff(k: Link, es: seq<Event>)
    requires InStep(k) && NoneRepeats(Pending(k.tx, k.fifo.queue)) && NoneRepeats(Enqueued(es))
    ensures TxOk(k.tx) && (AlwaysRight(k, es) <==> NoCut(k, es))
    decreases |es|
  {
    hide Happen, EndsOnHeader, InStep, Right, Repeats, Pending;
    InStepIsRight(k);
    if es != [] {
      var e, k1 := es[0], Happen(k, es[0]);
      EventKeepsStepIff(k, e);
      assert Enqueued(es) == (if e.Enqueue? then [e.m] else []) + Enqueued(es[1..]);
      NoneInSuffix(Enqueued(es[1..]), Enqueued(es));
      match e {
        case Enqueue(m) =>
          assert Enqueued(es)[0] == m;
          EnqueuePending(k, m);
          EnqueueTx(k, m);
          RunIsRightIff(k1, es[1..]);
        case Packet(mtu) =>
          PacketKeepsAll(k, mtu);
          NoneInSuffix(Pending(k1.tx, k1.fifo.queue), Pending(k.tx, k.fifo.queue));
          if EndsOnHeader(k.tx, k.fifo.queue, mtu) {
            CutIsWrong(k, mtu);
            ActivePending(k1.tx, k1.fifo.queue);
            NextRight(k, es);
          } else {
            RunIsRightIff(k1, es[1..]);
          }
      }
    }
  }

  /** In one direction this needs nothing of the messages. */
  lemma {:induction false} NoCutIsRight(k: Link, es: seq<Event>)
    requires InStep(k)
    ensures TxOk(k.tx) && (NoCut(k, es) ==> AlwaysRight(k, es))
    decreases |es|
  {
    hide Happen, EndsOnHeader, InStep, Right;
    InStepIsRight(k);
    if es != [] && NoCut(k, es) {
      EventKeepsStepIff(k, es[0]);
      NoCutIsRight(Happen(k, es[0]), es[1..]);
    }
  }

  /** The same of every run from a fresh link. */
  lemma MessagesRightIff(es: seq<Event>)
    requires NoneRepeats(Enqueued(es))
    ensures AlwaysRight(FRESH_LINK, es) <==> NoCut(FRESH_LINK, es)
  {
    FreshInStep();
    RunIsRightIff(FRESH_LINK, es);
  }

  // ---------------------------------------------------------------- an example

  const A := Msg(1, 2, [0, 0, 0, 0, 0, 0, 0, 0, 0, 0, 0])
  const B := Msg(1, 2, [7])

  lemma FirstExamplePacket()
    ensures BuildPacket(Idle, [A, B], 20) == Filled([0] + ((Header(A) + A.payload) + Header(B)), Sending(B, 0), [])
    ensures EndsOnHeader(Idle, [A, B], 20)
  {
    assert Piece(B, 0, 4) == Header(B) && [B][1..] == [];
    assert Fill(Idle, [B], 4) == Prepend(Header(B), Filled([], Sending(B, 0), []));
    assert Header(B) + [] == Header(B);
    assert Piece(A, 0, 19) == Header(A) + A.payload && [A, B][1..] == [B];
    assert Fill(Idle, [A, B], 19) == Prepend(Header(A) + A.payload, Fill(Idle, [B], 4));
    assert CutsQueue([B], 4) && CutsQueue([A, B], 19);
    assert Pending(Idle, [A, B]) == [A, B];
  }

  lemma FirstExampleReceived()
    ensures var p := Receive(BleRx.FRESH, BuildPacket(Idle, [A, B], 20).bytes);
      p.out == [A] && Reading(p.rx, B, 0)
  {
    hide BuildPacket, Receive, Reading;
    FirstExamplePacket();
    PacketDelivers(Idle, [A, B], 20, BleRx.FRESH);
    var p := Receive(BleRx.FRESH, BuildPacket(Idle, [A, B], 20).bytes);
    assert Pending(Sending(B, 0), []) == [B] && Pending(Idle, [A, B]) == [A, B] == [A] + [B];
    CancelTail(p.out, [A], [B]);
  }

  lemma {:induction false} GarbageSkipped(c: Rx, rest: seq<Byte>)
    requires AtBoundary(c) && BLE_MAGIC !in rest
    ensures Parse(c, rest) == Parsed(c, [])
    decreases |rest|
  {
    if rest != [] { GarbageSkipped(c, rest[1..]); }
  }

  lemma SecondExamplePacket(c: Rx)
    requires Reading(c, B, 0)
    ensures BuildPacket(Sending(B, 0), [], 20) == Filled([1] + Header(B) + [7], Idle, [])
    ensures Receive(c, BuildPacket(Sending(B, 0), [], 20).bytes).out == [Msg(1, 2, [BLE_MAGIC])]
  {
    var rest := Header(B) + [7];
    assert Piece(B, 0, 19) == rest;
    assert Fill(Sending(B, 0), [], 19) == Prepend(rest, Filled([], Idle, []));
    assert rest + [] == rest && [1] + rest == [1] + Header(B) + [7];
    ParsePayload(c, rest, 1);
    var c1 := Resync(TakePayload(c, rest[..1]));
    assert rest[1..] == [1, 2, 1, 7];
    GarbageSkipped(c1, rest[1..]);
    assert Wire(TakePayload(c, rest[..1]).cur).payload == [BLE_MAGIC];
    assert ([1] + rest)[1..] == rest;
  }

  lemma PopNTwo(h: History)
    requires |h.queue| == 2
    ensures PopN(h, 2).queue == []
  {
    assert PopN(h, 2) == PopN(Do(h, Pop), 1) == PopN(Do(Do(h, Pop), Pop), 0);
  }

  lemma FourEvents(k: Link, e1: Event, e2: Event, e3: Event, e4: Event)
    requires TxOk(k.tx)
    ensures HappenAll(k, [e1, e2, e3, e4]) == Happen(Happen(Happen(Happen(k, e1), e2), e3), e4)
  {
    hide Happen;
    var k1 := Happen(k, e1);
    var k2 := Happen(k1, e2);
    var k3 := Happen(k2, e3);
    assert [e1, e2, e3, e4][1..] == [e2, e3, e4] && [e2, e3, e4][1..] == [e3, e4] && [e3, e4][1..] == [e4];
    assert HappenAll(k3, [e4]) == HappenAll(Happen(k3, e4), []);
    assert HappenAll(k2, [e3, e4]) == HappenAll(k3, [e4]);
    assert HappenAll(k1, [e2, e3, e4]) == HappenAll(k2, [e3, e4]);
  }

  /** A packet that ends on a header does break the round trip, with the smallest effective MTU
      that is exchanged, 20: messages with eleven bytes and with one fill a packet up to the second header,
      and the second message, whose payload is 7, arrives with the payload 0xA5. */
  lemma HeaderAtPacketEndBreaksRoundTrip()
    ensures HappenAll(FRESH_LINK, [Enqueue(A), Enqueue(B), Packet(20), Packet(20)]).received
         == [A, Msg(1, 2, [BLE_MAGIC])]
  {
    hide BuildPacket, Receive, Reading;
    var k1 := Happen(FRESH_LINK, Enqueue(A));
    var k2 := Happen(k1, Enqueue(B));
    assert k2.fifo.queue == [A, B];
    FirstExamplePacket();
    FirstExampleReceived();
    var k3 := Happen(k2, Packet(20));
    PopNTwo(k2.fifo);
    assert k3.received == [] + [A] == [A];
    SecondExamplePacket(k3.rx);
    var k4 := Happen(k3, Packet(20));
    FourEvents(FRESH_LINK, Enqueue(A), Enqueue(B), Packet(20), Packet(20));
  }
}
