/** The packet builder and the parser joined: a round trip across arbitrary packet boundaries. */
module BleLink {
  import opened Bytes
  import opened BleTypes
  import opened BleFifo
  import opened BleTx
  import opened BleRx

  /** The parser has taken m's header and the first `offset` bytes of its payload. */
  predicate Reading(c: Rx, m: Msg, offset: nat) {
    && c.state == ReadPayload && c.active
    && c.cur.opcode == m.opcode && c.cur.reqApp == m.reqApp && c.cur.len == |m.payload|
    && c.offset == offset < |m.payload|
    && c.cur.payload[..offset] == m.payload[..offset]
  }

  predicate AtBoundary(c: Rx) { c.state == WaitMagic && !c.active }

  /** The parser stands where the builder stands. A message whose header has not been sent,
      active or not, leaves the parser at a message boundary. */
  predicate Coupled(tx: Tx, c: Rx) {
    && TxOk(tx)
    && if tx.Sending? && tx.offset > 0 then Reading(c, tx.msg, tx.offset) else AtBoundary(c)
  }

  /** A packet with `room` bytes for these messages ends exactly on the header of one that
      has a payload. Only lengths matter. */
  predicate CutsQueue(q: seq<Msg>, room: nat)
    decreases |q|
  {
    q != [] &&
    if room == HEADER then q[0].payload != []
    else room > HEADER + |q[0].payload| && CutsQueue(q[1..], room - HEADER - |q[0].payload|)
  }

  predicate Cuts(tx: Tx, q: seq<Msg>, room: nat)
    requires TxOk(tx)
  {
    if tx.Sending? && tx.offset > 0 then
      var left := |tx.msg.payload| - tx.offset;
      room > left && CutsQueue(q, room - left)
    else CutsQueue(Pending(tx, q), room)
  }

  // ---------------------------------------------------------------- one piece

  /** The whole rest of the payload arrives, with more bytes behind it. */
  lemma PayloadCompletes(c: Rx, m: Msg, offset: nat, rest: seq<Byte>) returns (c': Rx)
    requires Reading(c, m, offset)
    ensures AtBoundary(c')
    ensures Parse(c, m.payload[offset..] + rest) == Emit([m], Parse(c', rest))
  {
    var bytes := m.payload[offset..];
    var chunk := |bytes|;
    assert (bytes + rest)[..chunk] == bytes && (bytes + rest)[chunk..] == rest;
    ParsePayload(c, bytes + rest, chunk);
    var c1 := TakePayload(c, bytes);
    assert c1.cur.payload[..c1.offset] == m.payload[..offset] + bytes == m.payload;
    c' := Resync(c1);
  }

  /** Only part of the payload arrives, and it ends the packet. */
  lemma PayloadContinues(c: Rx, m: Msg, offset: nat, end: nat) returns (c': Rx)
    requires Reading(c, m, offset) && offset <= end < |m.payload|
    ensures Reading(c', m, end)
    ensures Parse(c, m.payload[offset..end]) == Parsed(c', [])
  {
    var bytes := m.payload[offset..end];
    if bytes == [] {
      c' := c;
    } else {
      assert bytes[..|bytes|] == bytes && bytes[|bytes|..] == [];
      ParsePayload(c, bytes, |bytes|);
      c' := TakePayload(c, bytes);
      assert m.payload[..offset] + bytes == m.payload[..end];
    }
  }

  /** A header at a message boundary. */
  lemma HeaderTaken(c: Rx, m: Msg, rest: seq<Byte>) returns (c': Rx)
    requires AtBoundary(c)
    ensures m.payload == [] ==> AtBoundary(c')
    ensures m.payload != [] ==> Reading(c', m, 0)
    ensures Parse(c, Header(m) + rest) == Emit(if m.payload == [] then [m] else [], Parse(c', rest))
  {
    var bytes := Header(m) + rest;
    var c1 := c.(state := ReadHeader);
    c' := TakeHeader(c1, m.opcode, m.reqApp, |m.payload|);
    assert bytes[0] == BLE_MAGIC && bytes[1..][0] == m.opcode && bytes[1..][1] == m.reqApp && bytes[1..][2] == |m.payload|;
    assert bytes[1..][3..] == rest;
    assert Parse(c, bytes) == Parse(c1, bytes[1..]);
    assert m.payload == [] ==> Wire(c'.cur) == m;
    EmitTwice([], [], Parse(c', rest));
  }

  /** What the parser makes of one piece of the stream. */
  lemma PieceParsed(c: Rx, m: Msg, offset: nat, room: nat, rest: seq<Byte>) returns (c': Rx)
    requires Coupled(Sending(m, offset), c)
    requires room > 0 && !Blocked(Sending(m, offset), room)
    requires Chunk(m, offset, room) < |m.payload| - offset ==> rest == []
    ensures var tx := Advance(m, offset, Chunk(m, offset, room));
      && Parse(c, Piece(m, offset, room) + rest) == Emit(if tx.Idle? then [m] else [], Parse(c', rest))
      && (tx.Idle? ==> AtBoundary(c'))
      && (tx.Sending? ==> Reading(c', m, tx.offset))
  {
    var end := offset + Chunk(m, offset, room);
    var bytes := m.payload[offset..end];
    var c1 := c;
    if offset == 0 {
      assert Piece(m, offset, room) + rest == Header(m) + (bytes + rest);
      c1 := HeaderTaken(c, m, bytes + rest);
    } else {
      assert Piece(m, offset, room) + rest == bytes + rest;
    }
    EmitTwice([], [], Parse(c1, bytes + rest));
    if m.payload == [] {
      assert bytes + rest == rest;
      c' := c1;
    } else if end == |m.payload| {
      assert bytes == m.payload[offset..];
      c' := PayloadCompletes(c1, m, offset, rest);
      EmitTwice([], [m], Parse(c', rest));
    } else {
      assert bytes + rest == bytes;
      c' := PayloadContinues(c1, m, offset, end);
      ParseNothing(c', rest);
      EmitTwice([], [], Parsed(c', []));
    }
  }

  lemma UnfinishedPieceFills(m: Msg, offset: nat, room: nat)
    requires TxOk(Sending(m, offset)) && room > 0 && !Blocked(Sending(m, offset), room)
    ensures Advance(m, offset, Chunk(m, offset, room)).Sending? ==> |Piece(m, offset, room)| == room
  {}

  // ---------------------------------------------------------------- one packet

  lemma LoadCuts(tx: Tx, q: seq<Msg>, room: nat)
    requires TxOk(tx)
    ensures Cuts(Load(tx, q).0, Load(tx, q).1, room) == Cuts(tx, q, room)
  {
    if tx.Idle? && q != [] { assert Pending(tx, q) == Pending(Sending(q[0], 0), q[1..]) == q; }
  }

  lemma BlockedNoCut(tx: Tx, q: seq<Msg>, room: nat)
    requires TxOk(tx) && room > 0 && Blocked(tx, room) && (tx.Idle? ==> q == [])
    ensures !Cuts(tx, q, room)
  {}

  lemma PieceCuts(m: Msg, offset: nat, q: seq<Msg>, room: nat)
    requires TxOk(Sending(m, offset)) && room > 0 && !Blocked(Sending(m, offset), room)
    ensures var tx' := Advance(m, offset, Chunk(m, offset, room));
      Cuts(Sending(m, offset), q, room) ==
      if tx'.Idle? then Cuts(Idle, q, room - |Piece(m, offset, room)|) else tx'.offset == 0
  {
    assert Pending(Idle, q) == q;
    if offset == 0 { assert Pending(Sending(m, 0), q) == [m] + q && ([m] + q)[1..] == q; }
  }

  lemma SomethingToSend(tx: Tx, room: nat)
    requires !Blocked(tx, room)
    ensures tx.Sending?
  {}

  lemma CutsTurn(tx: Tx, q: seq<Msg>, room: nat)
    requires TxOk(tx) && room > 0
    ensures match Turn(tx, q, room)
      case Stop(_, _) => !Cuts(tx, q, room)
      case Go(piece, tx', q') =>
        Cuts(tx, q, room) ==
          if tx'.Idle? then Cuts(Idle, q', room - |piece|) else tx'.offset == 0
  {
    hide Cuts, Load, Blocked, Piece, Advance, Chunk;
    var (tx1, q1) := Load(tx, q);
    LoadCuts(tx, q, room);
    if Blocked(tx1, room) { BlockedNoCut(tx1, q1, room); }
    else { SomethingToSend(tx1, room); PieceCuts(tx1.msg, tx1.offset, q1, room); }
  }

  lemma NoRoomNoCut(tx: Tx, q: seq<Msg>)
    requires TxOk(tx)
    ensures !Cuts(tx, q, 0)
  {}

  /** Whatever the boundaries, nothing is lost within a packet; and the parser is left
      standing where the builder stands exactly when the packet does not end on a header. */
  lemma {:induction false} FillParsed(c: Rx, tx: Tx, q: seq<Msg>, room: nat)
    requires Coupled(tx, c)
    ensures var f := Fill(tx, q, room); var p := Parse(c, f.bytes);
      && p.out + Pending(f.tx, f.q) == Pending(tx, q)
      && (Coupled(f.tx, p.rx) <==> !Cuts(tx, q, room))
      && (Cuts(tx, q, room) ==> f.tx.Sending? && f.tx.offset == 0 && Reading(p.rx, f.tx.msg, 0))
    decreases room, 1
  {
    hide Parse, Piece, Chunk, Reading, CutsQueue;
    if room == 0 {
      ParseNothing(c, []);
      NoRoomNoCut(tx, q);
      assert Pending(tx, q) == [] + Pending(tx, q);
      return;
    }
    CutsTurn(tx, q, room);
    var (tx1, q1) := Load(tx, q);
    if Blocked(tx1, room) {
      ParseNothing(c, []);
      assert [] + Pending(tx1, q1) == Pending(tx, q);
      assert Fill(tx, q, room) == Filled([], tx1, q1) && !Cuts(tx, q, room) && Coupled(tx1, c);
      return;
    }
    var m, offset := tx1.msg, tx1.offset;
    var tx2, piece := Advance(m, offset, Chunk(m, offset, room)), Piece(m, offset, room);
    var f := Fill(tx2, q1, room - |piece|);
    assert Fill(tx, q, room) == Prepend(piece, f);
    if tx2.Idle? {
      FillParsedAfter(c, m, offset, q1, room);
    } else {
      UnfinishedPieceFills(m, offset, room);
      var c' := PieceParsed(c, m, offset, room, []);
      ParseNothing(c', []);
      EmitTwice([], [], Parsed(c', []));
      assert [] + Pending(tx2, q1) == Pending(tx, q);
    }
  }

  lemma {:induction false} FillParsedAfter(c: Rx, m: Msg, offset: nat, q: seq<Msg>, room: nat)
    requires Coupled(Sending(m, offset), c)
    requires room > 0 && !Blocked(Sending(m, offset), room)
    requires Advance(m, offset, Chunk(m, offset, room)).Idle?
    ensures var piece := Piece(m, offset, room);
      var f := Fill(Idle, q, room - |piece|); var p := Parse(c, piece + f.bytes);
      && p.out + Pending(f.tx, f.q) == [m] + q
      && (Coupled(f.tx, p.rx) <==> !Cuts(Idle, q, room - |piece|))
      && (Cuts(Idle, q, room - |piece|) ==> f.tx.Sending? && f.tx.offset == 0 && Reading(p.rx, f.tx.msg, 0))
    decreases room, 0
  {
    hide Parse, Fill, Piece, Chunk, Cuts, Reading, AtBoundary;
    var piece := Piece(m, offset, room);
    var f := Fill(Idle, q, room - |piece|);
    var c' := PieceParsed(c, m, offset, room, f.bytes);
    FillParsed(c', Idle, q, room - |piece|);
    var p := Parse(c', f.bytes);
    assert ([m] + p.out) + Pending(f.tx, f.q) == [m] + (p.out + Pending(f.tx, f.q));
  }

  /** The packet ends exactly on the header of a message with a payload. */
  predicate EndsOnHeader(tx: Tx, q: seq<Msg>, mtu: nat)
    requires TxOk(tx)
  {
    mtu >= 1 && Cuts(tx, q, mtu - 1)
  }

  /** One packet, built and received. The flag keeps the parser where the builder stands. */
  lemma PacketDelivers(tx: Tx, q: seq<Msg>, mtu: nat, c: Rx)
    requires Coupled(tx, c) && Carries(BuildPacket(tx, q, mtu))
    ensures var f := BuildPacket(tx, q, mtu); var p := Receive(c, f.bytes);
      && p.out + Pending(f.tx, f.q) == Pending(tx, q)
      && (Coupled(f.tx, p.rx) <==> !EndsOnHeader(tx, q, mtu))
      && (EndsOnHeader(tx, q, mtu) ==> f.tx.Sending? && f.tx.offset == 0 && Reading(p.rx, f.tx.msg, 0))
  {
    hide Parse, Fill, Cuts;
    var f := BuildPacket(tx, q, mtu);
    assert f.bytes[1..] == Fill(tx, q, mtu - 1).bytes;
    FillParsed(Begin(c, f.bytes[0]), tx, q, mtu - 1);
  }

  /** A packet that carries nothing is not sent; it may still load the next message. */
  lemma EmptyPacketDelivers(tx: Tx, q: seq<Msg>, mtu: nat, c: Rx)
    requires Coupled(tx, c) && !Carries(BuildPacket(tx, q, mtu))
    ensures var f := BuildPacket(tx, q, mtu);
      Pending(f.tx, f.q) == Pending(tx, q) && Coupled(f.tx, c) && !EndsOnHeader(tx, q, mtu)
  {
    if mtu > 1 { CutsTurn(tx, q, mtu - 1); } else { NoRoomNoCut(tx, q); }
  }

  // ---------------------------------------------------------------- runs

  /** What can happen on a link: a message is queued, or a packet is built with the MTU of
      the moment and, if it carries anything, received. */
  datatype Event = Enqueue(m: Msg) | Packet(mtu: nat)

  datatype Link = Link(fifo: History, tx: Tx, rx: Rx, received: seq<Msg>)

  const FRESH_LINK := Link(START, Idle, BleRx.FRESH, [])

  function PopN(h: History, n: nat): History
    decreases n
  {
    if n == 0 then h else PopN(Do(h, Pop), n - 1)
  }

  function Happen(k: Link, e: Event): (r: Link)
    requires TxOk(k.tx)
    ensures TxOk(r.tx)
  {
    match e
    case Enqueue(m) => k.(fifo := Do(k.fifo, Push(m)))
    case Packet(mtu) =>
      var q := k.fifo.queue;
      var f := BuildPacket(k.tx, q, mtu);
      var k1 := k.(tx := f.tx, fifo := PopN(k.fifo, if |f.q| <= |q| then |q| - |f.q| else 0));
      if Carries(f) then
        var p := Receive(k.rx, f.bytes);
        k1.(rx := p.rx, received := k.received + p.out)
      else k1
  }

  function HappenAll(k: Link, es: seq<Event>): (r: Link)
    requires TxOk(k.tx)
    ensures TxOk(r.tx)
    decreases |es|
  {
    if es == [] then k else HappenAll(Happen(k, es[0]), es[1..])
  }

  /** No packet of the run ends exactly on the header of a message with a payload. */
  predicate NoCut(k: Link, es: seq<Event>)
    requires TxOk(k.tx)
    decreases |es|
  {
    es == [] ||
    ((es[0].Packet? ==> !EndsOnHeader(k.tx, k.fifo.queue, es[0].mtu)) && NoCut(Happen(k, es[0]), es[1..]))
  }

  function Enqueued(es: seq<Event>): seq<Msg> {
    if es == [] then []
    else (if es[0].Enqueue? then [es[0].m] else []) + Enqueued(es[1..])
  }

  /** What was taken from the queue has been received, but for the message being sent. */
  ghost predicate InStep(k: Link) {
    && Sorted(k.fifo)
    && Coupled(k.tx, k.rx)
    && k.received + Pending(k.tx, []) == k.fifo.delivered
  }

  predicate IsSuffix(s: seq<Msg>, q: seq<Msg>) { |s| <= |q| && s == q[|q| - |s|..] }

  lemma SuffixOfSuffix(s: seq<Msg>, t: seq<Msg>, q: seq<Msg>)
    requires IsSuffix(s, t) && IsSuffix(t, q)
    ensures IsSuffix(s, q)
  {}

  lemma SuffixOfItself(q: seq<Msg>)
    ensures IsSuffix(q, q)
  {}

  lemma TurnTakesPrefix(tx: Tx, q: seq<Msg>, room: nat)
    requires TxOk(tx) && room > 0
    ensures IsSuffix(Turn(tx, q, room).q, q)
  {}

  lemma {:induction false} FillTakesPrefix(tx: Tx, q: seq<Msg>, room: nat)
    requires TxOk(tx)
    ensures IsSuffix(Fill(tx, q, room).q, q)
    decreases room
  {
    hide Turn, IsSuffix;
    SuffixOfItself(q);
    if room > 0 {
      TurnTakesPrefix(tx, q, room);
      var t := Turn(tx, q, room);
      if t.Go? {
        FillTakesPrefix(t.tx, t.q, room - |t.piece|);
        SuffixOfSuffix(Fill(t.tx, t.q, room - |t.piece|).q, t.q, q);
      }
    }
  }

  lemma {:induction false} PopNTakes(h: History, n: nat)
    requires Sorted(h) && n <= |h.queue|
    ensures Sorted(PopN(h, n)) && PopN(h, n).queue == h.queue[n..]
    ensures PopN(h, n).delivered == h.delivered + h.queue[..n]
    decreases n
  {
    if n > 0 {
      DoKeepsSorted(h, Pop);
      PopNTakes(Do(h, Pop), n - 1);
      assert h.queue[..n] == [h.queue[0]] + h.queue[1..][..n - 1];
    }
  }

  lemma PendingSplit(tx: Tx, q: seq<Msg>)
    ensures Pending(tx, q) == Pending(tx, []) + q
  {}

  lemma CancelTail(a: seq<Msg>, b: seq<Msg>, tail: seq<Msg>)
    requires a + tail == b + tail
    ensures a == b
  {
    assert |a + tail| == |b + tail|;
    assert a == (a + tail)[..|a|] && b == (b + tail)[..|b|];
  }

  lemma TakenAreReceived(tx: Tx, q: seq<Msg>, tx': Tx, q': seq<Msg>, out: seq<Msg>, received: seq<Msg>)
    requires IsSuffix(q', q)
    requires out + Pending(tx', q') == Pending(tx, q)
    ensures received + Pending(tx, []) + q[..|q| - |q'|] == (received + out) + Pending(tx', [])
  {
    hide Pending;
    var p, p', taken := Pending(tx, []), Pending(tx', []), q[..|q| - |q'|];
    PendingSplit(tx, q);
    PendingSplit(tx', q');
    assert q == taken + q';
    assert out + (p' + q') == (out + p') + q' && p + (taken + q') == (p + taken) + q';
    CancelTail(out + p', p + taken, q');
    assert received + (out + p') == (received + out) + p';
    assert received + (p + taken) == received + p + taken;
  }

  /** A packet keeps sender and receiver in step exactly if it does not end on a header. */
  lemma PacketKeepsStepIff(k: Link, mtu: nat)
    requires InStep(k)
    ensures InStep(Happen(k, Packet(mtu))) <==> !EndsOnHeader(k.tx, k.fifo.queue, mtu)
  {
    hide Parse, Fill, Cuts, Reading, Receive, Sorted;
    var q := k.fifo.queue;
    var f := BuildPacket(k.tx, q, mtu);
    if mtu > 0 { FillTakesPrefix(k.tx, q, mtu - 1); }
    var n := |q| - |f.q|;
    PopNTakes(k.fifo, n);
    var out: seq<Msg> := [];
    if Carries(f) {
      PacketDelivers(k.tx, q, mtu, k.rx);
      out := Receive(k.rx, f.bytes).out;
    } else {
      EmptyPacketDelivers(k.tx, q, mtu, k.rx);
    }
    TakenAreReceived(k.tx, q, f.tx, f.q, out, k.received);
  }

  lemma EnqueueKeepsStep(k: Link, m: Msg)
    requires InStep(k)
    ensures InStep(Happen(k, Enqueue(m)))
  {
    hide Sorted;
    DoKeepsSorted(k.fifo, Push(m));
  }

  lemma EventKeepsStepIff(k: Link, e: Event)
    requires InStep(k)
    ensures InStep(Happen(k, e)) <==> (e.Packet? ==> !EndsOnHeader(k.tx, k.fifo.queue, e.mtu))
  {
    hide Happen, EndsOnHeader, InStep;
    match e
    case Enqueue(m) => EnqueueKeepsStep(k, m);
    case Packet(mtu) => PacketKeepsStepIff(k, mtu);
  }

  ghost predicate AlwaysInStep(k: Link, es: seq<Event>)
    requires TxOk(k.tx)
    decreases |es|
  {
    InStep(k) && (es == [] || AlwaysInStep(Happen(k, es[0]), es[1..]))
  }

  /** Sender and receiver are in step throughout a run exactly if no packet of it ends on the
      header of a message with a payload. */
  lemma {:induction false} InStepIff(k: Link, es: seq<Event>)
    requires InStep(k)
    ensures AlwaysInStep(k, es) <==> NoCut(k, es)
    decreases |es|
  {
    hide Happen, EndsOnHeader, Sorted, Reading;
    if es != [] {
      EventKeepsStepIff(k, es[0]);
      if InStep(Happen(k, es[0])) { InStepIff(Happen(k, es[0]), es[1..]); }
    }
  }

  lemma {:induction false} EndsInStep(k: Link, es: seq<Event>)
    requires TxOk(k.tx) && AlwaysInStep(k, es)
    ensures InStep(HappenAll(k, es))
    decreases |es|
  {
    hide Happen, InStep;
    if es != [] { EndsInStep(Happen(k, es[0]), es[1..]); }
  }

  lemma {:induction false} PopNPushed(h: History, n: nat)
    ensures PopN(h, n).pushed == h.pushed
    decreases n
  {
    if n > 0 { PopNPushed(Do(h, Pop), n - 1); }
  }

  lemma EventPushes(k: Link, e: Event)
    requires TxOk(k.tx)
    ensures Happen(k, e).fifo.pushed == k.fifo.pushed + if e.Enqueue? then [e.m] else []
  {
    match e
    case Enqueue(_) =>
    case Packet(mtu) =>
      var q, f := k.fifo.queue, BuildPacket(k.tx, k.fifo.queue, mtu);
      PopNPushed(k.fifo, if |f.q| <= |q| then |q| - |f.q| else 0);
  }

  lemma {:induction false} RunPushes(k: Link, es: seq<Event>)
    requires TxOk(k.tx)
    ensures HappenAll(k, es).fifo.pushed == k.fifo.pushed + Enqueued(es)
    decreases |es|
  {
    hide Happen;
    if es != [] {
      EventPushes(k, es[0]);
      RunPushes(Happen(k, es[0]), es[1..]);
    }
  }

  lemma FreshInStep()
    ensures InStep(FRESH_LINK)
  {}

  lemma NothingEvicted(received: seq<Msg>, tx: Tx, q: seq<Msg>, sent: seq<Msg>, n: nat)
    requires n <= |sent| && q == sent[n..] && received + Pending(tx, []) == sent[..n]
    ensures received + Pending(tx, q) == sent
  {
    assert received + Pending(tx, q) == (received + Pending(tx, [])) + q;
  }

  /** End-to-end round trip. For every sequence of messages queued and packets sent, with any
      MTUs, in which no packet ends on the header of a message with a payload: the messages
      handed to the receiver's ring, followed by the one being sent, are those queued and not
      evicted, in order; and if the sender's ring never overflowed, the messages received, the
      one being sent and those still queued are all that were queued, in order. */
  lemma RoundTrip(es: seq<Event>)
    requires NoCut(FRESH_LINK, es)
    ensures var k := HappenAll(FRESH_LINK, es); var n := |k.fifo.fates|;
      && n <= |Enqueued(es)| && k.fifo.queue == Enqueued(es)[n..]
      && k.received + Pending(k.tx, []) == Select(Enqueued(es)[..n], k.fifo.fates, Delivered)
      && (k.fifo.evicted == [] ==> k.received + Pending(k.tx, k.fifo.queue) == Enqueued(es))
  {
    hide HappenAll, Coupled, NoCut, Enqueued, Select;
    var k := HappenAll(FRESH_LINK, es);
    FreshInStep();
    InStepIff(FRESH_LINK, es);
    EndsInStep(FRESH_LINK, es);
    RunPushes(FRESH_LINK, es);
    var sent, n := Enqueued(es), |k.fifo.fates|;
    assert k.fifo.pushed == sent;
    if k.fifo.evicted == [] {
      SelectAll(sent[..n], k.fifo.fates);
      NothingEvicted(k.received, k.tx, k.fifo.queue, sent, n);
    }
  }
}
