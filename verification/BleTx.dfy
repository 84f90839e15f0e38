/** The packet builder of src/BLE/ble_packet_handler.c and the drain loop of ble_manager.c. */
module BleTx {
  import opened Bytes
  import opened BleTypes
  import opened BleFifo

  const HEADER: nat := 1 + BLE_HDR_SIZE

  /** What the builder keeps between packets. An offset of 0 means that the header has not
      been sent, or that it was sent as the very end of a packet. */
  datatype Tx = Idle | Sending(msg: Msg, offset: nat)

  predicate TxOk(tx: Tx) {
    tx.Sending? ==> tx.offset == 0 || tx.offset < |tx.msg.payload|
  }

  /** The messages not yet completely sent. */
  function Pending(tx: Tx, q: seq<Msg>): seq<Msg> {
    (if tx.Sending? then [tx.msg] else []) + q
  }

  function Header(m: Msg): (h: seq<Byte>)
    ensures |h| == HEADER
  {
    [BLE_MAGIC, m.opcode, m.reqApp, |m.payload|]
  }

  /** Loads the next message if none is active. */
  function Load(tx: Tx, q: seq<Msg>): (r: (Tx, seq<Msg>))
    requires TxOk(tx)
    ensures TxOk(r.0) && Pending(r.0, r.1) == Pending(tx, q)
    ensures r.0.Idle? ==> r.1 == []
  {
    if tx.Idle? && q != [] then (Sending(q[0], 0), q[1..]) else (tx, q)
  }

  /** Nothing to send, or a header that does not fit. */
  predicate Blocked(tx: Tx, room: nat) {
    tx.Idle? || (tx.offset == 0 && room < HEADER)
  }

  function Chunk(m: Msg, offset: nat, room: nat): (n: nat)
    requires TxOk(Sending(m, offset)) && !Blocked(Sending(m, offset), room)
    ensures n <= |m.payload| - offset
  {
    var left := if offset == 0 then room - HEADER else room;
    if |m.payload| - offset < left then |m.payload| - offset else left
  }

  /** The header, if it is due, and as much payload as fits. */
  function Piece(m: Msg, offset: nat, room: nat): (bytes: seq<Byte>)
    requires TxOk(Sending(m, offset)) && !Blocked(Sending(m, offset), room) && room > 0
    ensures 0 < |bytes| <= room
  {
    var header := if offset == 0 then Header(m) else [];
    header + m.payload[offset..offset + Chunk(m, offset, room)]
  }

  function Advance(m: Msg, offset: nat, chunk: nat): (tx: Tx)
    requires TxOk(Sending(m, offset)) && chunk <= |m.payload| - offset
    ensures TxOk(tx)
  {
    if offset + chunk == |m.payload| then Idle else Sending(m, offset + chunk)
  }

  datatype Filled = Filled(bytes: seq<Byte>, tx: Tx, q: seq<Msg>)

  /** One turn of the builder's loop: it stops, or goes on after writing a piece. */
  datatype Turned = Stop(tx: Tx, q: seq<Msg>) | Go(piece: seq<Byte>, tx: Tx, q: seq<Msg>)

  function Turn(tx: Tx, q: seq<Msg>, room: nat): (t: Turned)
    requires TxOk(tx) && room > 0
    ensures TxOk(t.tx)
    ensures t.Go? ==> 0 < |t.piece| <= room
  {
    var (tx1, q1) := Load(tx, q);
    if Blocked(tx1, room) then Stop(tx1, q1)
    else
      Go(Piece(tx1.msg, tx1.offset, room),
         Advance(tx1.msg, tx1.offset, Chunk(tx1.msg, tx1.offset, room)), q1)
  }

  function Prepend(prefix: seq<Byte>, f: Filled): Filled { f.(bytes := prefix + f.bytes) }

  /** The message stream put into the remaining `room` bytes of a packet. */
  function Fill(tx: Tx, q: seq<Msg>, room: nat): (f: Filled)
    requires TxOk(tx)
    ensures TxOk(f.tx)
    ensures |f.bytes| <= room
    decreases room
  {
    if room == 0 then Filled([], tx, q)
    else
      match Turn(tx, q, room)
      case Stop(tx', q') => Filled([], tx', q')
      case Go(piece, tx', q') => Prepend(piece, Fill(tx', q', room - |piece|))
  }

  lemma FillGoes(prefix: seq<Byte>, tx: Tx, q: seq<Msg>, room: nat,
                 piece: seq<Byte>, tx': Tx, q': seq<Msg>, room': nat)
    requires TxOk(tx) && TxOk(tx') && room == |piece| + room' > 0
    requires Turn(tx, q, room) == Go(piece, tx', q')
    ensures Prepend(prefix, Fill(tx, q, room)) == Prepend(prefix + piece, Fill(tx', q', room'))
  {
    var rest := Fill(tx', q', room');
    assert Fill(tx, q, room) == Prepend(piece, rest);
    assert prefix + (piece + rest.bytes) == (prefix + piece) + rest.bytes;
  }

  lemma FillStops(prefix: seq<Byte>, tx: Tx, q: seq<Msg>, room: nat, tx': Tx, q': seq<Msg>)
    requires TxOk(tx) && room > 0 && Turn(tx, q, room) == Stop(tx', q')
    ensures Prepend(prefix, Fill(tx, q, room)) == Filled(prefix, tx', q')
  {
    assert prefix + [] == prefix;
  }

  /** One packet: the continuation flag, then the stream. */
  function BuildPacket(tx: Tx, q: seq<Msg>, mtu: nat): (f: Filled)
    requires TxOk(tx)
    ensures TxOk(f.tx)
  {
    var f := if mtu == 0 then Filled([], tx, q) else Fill(tx, q, mtu - 1);
    Prepend([if tx.Sending? then 1 else 0], f)
  }

  /** The packets that carry anything; the builder returns true for these. */
  predicate Carries(f: Filled) { |f.bytes| > 1 }

  /** A packet fits the MTU. From an MTU of 5 on the builder reports an empty packet exactly
      when there is nothing to send. */
  lemma PacketFits(tx: Tx, q: seq<Msg>, mtu: nat)
    requires TxOk(tx)
    ensures Carries(BuildPacket(tx, q, mtu)) ==> |BuildPacket(tx, q, mtu).bytes| <= mtu
    ensures mtu >= 1 + HEADER ==> (Carries(BuildPacket(tx, q, mtu)) <==> Pending(tx, q) != [])
  {}

  lemma TurnStops(tx: Tx, q: seq<Msg>, room: nat)
    requires TxOk(tx) && room > 0 && Turn(tx, q, room).Stop?
    ensures var t := Turn(tx, q, room);
      Pending(t.tx, t.q) == [] || (t.tx.Sending? && t.tx.offset == 0 && room < HEADER)
  {}

  /** Room is only left in a packet behind the last message, or where less than a header is left
      for the next one. */
  lemma {:induction false} FillIsFull(tx: Tx, q: seq<Msg>, room: nat)
    requires TxOk(tx)
    ensures var f := Fill(tx, q, room); var left := room - |f.bytes|;
      left > 0 ==> Pending(f.tx, f.q) == [] || (f.tx.Sending? && f.tx.offset == 0 && left < HEADER)
    decreases room
  {
    hide Turn, Pending;
    if room > 0 {
      match Turn(tx, q, room)
      case Stop(_, _) => TurnStops(tx, q, room);
      case Go(piece, tx', q') => FillIsFull(tx', q', room - |piece|);
    }
  }

  lemma PacketIsFull(tx: Tx, q: seq<Msg>, mtu: nat)
    requires TxOk(tx) && mtu > 0
    ensures var f := BuildPacket(tx, q, mtu);
      |f.bytes| < mtu ==>
        Pending(f.tx, f.q) == [] || (f.tx.Sending? && f.tx.offset == 0 && mtu - |f.bytes| < HEADER)
  {
    FillIsFull(tx, q, mtu - 1);
  }

  /** The bytes of a message that fits a packet by itself: flag, magic, opcode, application, length,
      payload. */
  lemma WholeMessagePacket(m: Msg, mtu: nat)
    requires mtu >= 5 + |m.payload|
    ensures BuildPacket(Idle, [m], mtu) == Filled([0, 0xA5, m.opcode, m.reqApp, |m.payload|] + m.payload, Idle, [])
  {
    var room := mtu - 1;
    var piece := Piece(m, 0, room);
    assert m.payload[0..] == m.payload;
    assert piece == Header(m) + m.payload;
    var rest := Fill(Idle, [], room - |piece|);
    assert rest == Filled([], Idle, []);
    assert Fill(Idle, [m], room) == Prepend(piece, rest);
    assert [0] + (piece + []) == [0, 0xA5, m.opcode, m.reqApp, |m.payload|] + m.payload;
  }

  /** The bytes of a packet that goes on with a payload longer than the packet. */
  lemma ContinuationPacket(m: Msg, offset: nat, q: seq<Msg>, mtu: nat)
    requires 0 < offset && 1 < mtu && offset + mtu - 1 < |m.payload|
    ensures BuildPacket(Sending(m, offset), q, mtu)
         == Filled([1] + m.payload[offset..offset + mtu - 1], Sending(m, offset + mtu - 1), q)
  {
    var piece := m.payload[offset..offset + mtu - 1];
    assert Piece(m, offset, mtu - 1) == piece;
    var tx' := Sending(m, offset + mtu - 1);
    assert Fill(Sending(m, offset), q, mtu - 1) == Prepend(piece, Filled([], tx', q));
    assert piece + [] == piece;
  }

  // ---------------------------------------------------------------- draining

  function Cost(q: seq<Msg>): nat {
    if q == [] then 0 else |q[0].payload| + 2 + Cost(q[1..])
  }

  /** Unsent bytes and messages. */
  function Unsent(tx: Tx, q: seq<Msg>): nat
    requires TxOk(tx)
  {
    Cost(q) + if tx.Sending? then |tx.msg.payload| - tx.offset + 1 else 0
  }

  /** The header goes out with none of its payload. */
  predicate HeaderOnly(tx: Tx, room: nat) {
    tx.Sending? && tx.offset == 0 && tx.msg.payload != [] && room == HEADER
  }

  lemma LoadSends(tx: Tx, q: seq<Msg>)
    requires TxOk(tx)
    ensures var (tx1, q1) := Load(tx, q);
      Unsent(tx1, q1) == Unsent(tx, q) - if tx.Idle? && q != [] then 1 else 0
  {}

  lemma AdvanceSends(m: Msg, offset: nat, q: seq<Msg>, room: nat)
    requires TxOk(Sending(m, offset)) && !Blocked(Sending(m, offset), room) && room > 0
    ensures var n := Chunk(m, offset, room);
      && Unsent(Advance(m, offset, n), q) <= Unsent(Sending(m, offset), q)
      && (!HeaderOnly(Sending(m, offset), room) ==> Unsent(Advance(m, offset, n), q) < Unsent(Sending(m, offset), q))
  {}

  lemma TurnSends(tx: Tx, q: seq<Msg>, room: nat)
    requires TxOk(tx) && room > 0
    ensures var t := Turn(tx, q, room);
      && Unsent(t.tx, t.q) <= Unsent(tx, q)
      && (t.Go? && !HeaderOnly(tx, room) ==> Unsent(t.tx, t.q) < Unsent(tx, q))
  {
    var (tx1, q1) := Load(tx, q);
    LoadSends(tx, q);
    if !Blocked(tx1, room) { AdvanceSends(tx1.msg, tx1.offset, q1, room); }
  }

  lemma {:induction false} FillSends(tx: Tx, q: seq<Msg>, room: nat)
    requires TxOk(tx)
    ensures var f := Fill(tx, q, room);
      && Unsent(f.tx, f.q) <= Unsent(tx, q)
      && (f.bytes != [] && !HeaderOnly(tx, room) ==> Unsent(f.tx, f.q) < Unsent(tx, q))
    decreases room
  {
    hide Turn, Unsent, HeaderOnly;
    if room > 0 {
      TurnSends(tx, q, room);
      match Turn(tx, q, room)
      case Stop(_, _) =>
      case Go(piece, tx', q') => FillSends(tx', q', room - |piece|);
    }
  }

  /** The one packet that makes no progress: at an MTU of 5 a header fills the packet, and the
      same header is built again for ever. */
  predicate Stuck(tx: Tx, mtu: nat) {
    mtu == 1 + HEADER && tx.Sending? && tx.offset == 0 && tx.msg.payload != []
  }

  /** Every packet that carries anything leaves less unsent, except the stuck one, which
      leaves everything as it was. */
  lemma PacketSends(tx: Tx, q: seq<Msg>, mtu: nat)
    requires TxOk(tx) && Carries(BuildPacket(tx, q, mtu))
    ensures var f := BuildPacket(tx, q, mtu);
      if Stuck(tx, mtu) then f.tx == tx && f.q == q else Unsent(f.tx, f.q) < Unsent(tx, q)
  {
    FillSends(tx, q, mtu - 1);
  }

  ghost predicate PayloadIn(q: seq<Msg>) { exists k :: 0 <= k < |q| && q[k].payload != [] }

  /** A header is still to be sent for a message that has a payload. */
  ghost predicate PayloadAhead(tx: Tx, q: seq<Msg>) {
    (tx.Sending? && tx.offset == 0 && tx.msg.payload != []) || PayloadIn(q)
  }

  lemma LoadKeepsAhead(tx: Tx, q: seq<Msg>)
    requires TxOk(tx)
    ensures PayloadAhead(Load(tx, q).0, Load(tx, q).1) <==> PayloadAhead(tx, q)
  {
    if tx.Idle? && PayloadIn(q) && q[0].payload == [] {
      var k :| 0 <= k < |q| && q[k].payload != [];
      assert q[1..][k - 1] == q[k];
    }
  }

  lemma TurnKeepsAhead(tx: Tx, q: seq<Msg>, room: nat)
    requires TxOk(tx) && 0 < room <= HEADER
    ensures PayloadAhead(Turn(tx, q, room).tx, Turn(tx, q, room).q) <==> PayloadAhead(tx, q)
  {
    hide PayloadIn, Load;
    LoadKeepsAhead(tx, q);
  }

  lemma {:induction false} FillKeepsAhead(tx: Tx, q: seq<Msg>, room: nat)
    requires TxOk(tx) && room <= HEADER
    ensures PayloadAhead(Fill(tx, q, room).tx, Fill(tx, q, room).q) <==> PayloadAhead(tx, q)
    decreases room
  {
    hide PayloadAhead, Turn;
    if room > 0 {
      TurnKeepsAhead(tx, q, room);
      match Turn(tx, q, room)
      case Stop(_, _) =>
      case Go(piece, tx', q') => FillKeepsAhead(tx', q', room - |piece|);
    }
  }

  /** Draining ends, except at an MTU of 5 with a payload still ahead. */
  ghost predicate Drains(tx: Tx, q: seq<Msg>, mtu: nat) { mtu == 1 + HEADER ==> !PayloadAhead(tx, q) }

  lemma PacketKeepsDrains(tx: Tx, q: seq<Msg>, mtu: nat)
    requires TxOk(tx)
    ensures Drains(BuildPacket(tx, q, mtu).tx, BuildPacket(tx, q, mtu).q, mtu) <==> Drains(tx, q, mtu)
    ensures Drains(tx, q, mtu) ==> !Stuck(tx, mtu)
  {
    hide Fill, PayloadIn;
    if mtu == 1 + HEADER { FillKeepsAhead(tx, q, HEADER); }
  }

  ghost function AfterPackets(tx: Tx, q: seq<Msg>, mtu: nat, n: nat): (r: (Tx, seq<Msg>))
    requires TxOk(tx)
    ensures TxOk(r.0)
    decreases n
  {
    if n == 0 then (tx, q)
    else var f := BuildPacket(tx, q, mtu); AfterPackets(f.tx, f.q, mtu, n - 1)
  }

  lemma SomethingAhead(tx: Tx, q: seq<Msg>, mtu: nat)
    requires !Drains(tx, q, mtu)
    ensures mtu == 1 + HEADER && Pending(tx, q) != []
  {}

  /** In the excluded case the builder never reports that nothing is left. */
  lemma {:induction false} NeverDrained(tx: Tx, q: seq<Msg>, mtu: nat, n: nat)
    requires TxOk(tx) && !Drains(tx, q, mtu)
    ensures var (tx', q') := AfterPackets(tx, q, mtu, n); Carries(BuildPacket(tx', q', mtu))
    decreases n
  {
    hide BuildPacket, Drains;
    if n == 0 {
      SomethingAhead(tx, q, mtu);
      PacketFits(tx, q, mtu);
    } else {
      PacketKeepsDrains(tx, q, mtu);
      var f := BuildPacket(tx, q, mtu);
      NeverDrained(f.tx, f.q, mtu, n - 1);
    }
  }

  /** The packets that the drain loop sends, until the builder returns false. */
  ghost function Drain(tx: Tx, q: seq<Msg>, mtu: nat): (r: (seq<seq<Byte>>, Tx, seq<Msg>))
    requires TxOk(tx) && Drains(tx, q, mtu)
    ensures TxOk(r.1)
    decreases Unsent(tx, q)
  {
    var f := BuildPacket(tx, q, mtu);
    PacketKeepsDrains(tx, q, mtu);
    if Carries(f) then
      PacketSends(tx, q, mtu);
      var r := Drain(f.tx, f.q, mtu);
      ([f.bytes] + r.0, r.1, r.2)
    else ([], f.tx, f.q)
  }

  ghost function Drained(packets: seq<seq<Byte>>, tx: Tx, q: seq<Msg>, mtu: nat): (seq<seq<Byte>>, Tx, seq<Msg>)
    requires TxOk(tx) && Drains(tx, q, mtu)
  {
    var d := Drain(tx, q, mtu); (packets + d.0, d.1, d.2)
  }

  lemma DrainTurn(packets: seq<seq<Byte>>, tx: Tx, q: seq<Msg>, mtu: nat)
    requires TxOk(tx) && Drains(tx, q, mtu)
    ensures var f := BuildPacket(tx, q, mtu);
      && Drains(f.tx, f.q, mtu)
      && Drained(packets, tx, q, mtu) ==
           (if Carries(f) then Drained(packets + [f.bytes], f.tx, f.q, mtu) else (packets, f.tx, f.q))
      && (Carries(f) ==> Unsent(f.tx, f.q) < Unsent(tx, q))
  {
    hide BuildPacket, Drains, Unsent;
    var f := BuildPacket(tx, q, mtu);
    PacketKeepsDrains(tx, q, mtu);
    if Carries(f) {
      PacketSends(tx, q, mtu);
      var rest := Drain(f.tx, f.q, mtu).0;
      assert packets + ([f.bytes] + rest) == (packets + [f.bytes]) + rest;
    } else {
      assert packets + [] == packets;
    }
  }

  lemma NothingCarried(tx: Tx, q: seq<Msg>, mtu: nat)
    requires TxOk(tx) && Pending(tx, q) == []
    ensures BuildPacket(tx, q, mtu).tx == Idle && BuildPacket(tx, q, mtu).q == []
  {}

  /** Draining leaves nothing unsent: with an MTU of at least 6 always, with 5 if it ends. */
  lemma {:induction false} DrainEmpties(tx: Tx, q: seq<Msg>, mtu: nat)
    requires TxOk(tx) && mtu >= 1 + HEADER && Drains(tx, q, mtu)
    ensures Drain(tx, q, mtu).1 == Idle && Drain(tx, q, mtu).2 == []
    decreases Unsent(tx, q)
  {
    hide Fill, Unsent, PayloadIn;
    var f := BuildPacket(tx, q, mtu);
    PacketFits(tx, q, mtu);
    PacketKeepsDrains(tx, q, mtu);
    if Carries(f) {
      PacketSends(tx, q, mtu);
      DrainEmpties(f.tx, f.q, mtu);
    } else {
      NothingCarried(tx, q, mtu);
    }
  }

  // ---------------------------------------------------------------- in place

  /** memcpy of src to position `at` of a buffer. */
  method CopyChunk(buffer: array<Byte>, at: nat, src: seq<Byte>)
    requires at + |src| <= buffer.Length
    modifies buffer
    ensures buffer[..at + |src|] == old(buffer[..at]) + src
  {
    for k := 0 to |src|
      invariant buffer[..at + k] == old(buffer[..at]) + src[..k]
    {
      buffer[at + k] := src[k];
    }
  }

  lemma SliceOfPrefix(s: seq<Byte>, n: nat, from: nat, to: nat)
    requires from <= to <= n <= |s|
    ensures s[..n][from..to] == s[from..to]
  {}

  class Builder {
    const fifo: Fifo      // the BLE_TX ring
    var curMsg: MsgBuf
    var offset: nat
    var active: bool

    ghost predicate Valid()
      reads this, fifo
    {
      fifo.Valid() && (active ==> offset == 0 || offset < curMsg.len)
    }

    ghost function View(): (tx: Tx)
      requires Valid()
      reads this, fifo
      ensures TxOk(tx)
    {
      if active then Sending(Wire(curMsg), offset) else Idle
    }

    constructor (fifo: Fifo)
      requires fifo.Valid()
      ensures Valid() && View() == Idle && this.fifo == fifo
    {
      this.fifo := fifo;
      curMsg, offset, active := EMPTY_BUF, 0, false;
    }

    /** tx_reset_context */
    method Reset()
      requires Valid()
      modifies this
      ensures Valid() && View() == Idle
    {
      active, offset := false, 0;
    }

    method LoadNext() returns (ok: bool)
      requires Valid()
      modifies this, fifo`readIdx
      ensures Valid() && (View(), fifo.Queue()) == Load(old(View()), old(fifo.Queue()))
      ensures ok == active
    {
      ok := true;
      if !active {
        ok, curMsg := fifo.GetNext(curMsg);
        if ok { offset, active := 0, true; }
      }
    }

    method WriteHeader(buffer: array<Byte>, i: nat) returns (j: nat)
      requires i + HEADER <= buffer.Length
      modifies buffer
      ensures j == i + HEADER && buffer[..j] == old(buffer[..i]) + Header(Wire(curMsg))
    {
      buffer[i], buffer[i + 1] := BLE_MAGIC, curMsg.opcode;
      buffer[i + 2], buffer[i + 3] := curMsg.reqApp, curMsg.len;
      j := i + 4;
    }

    /** Writes the due header and payload chunk of the active message at position i. */
    method WritePiece(buffer: array<Byte>, i: nat, mtu: nat) returns (chunk: nat, j: nat)
      requires Valid() && active && i < mtu <= buffer.Length && !Blocked(View(), mtu - i)
      modifies buffer
      ensures chunk == Chunk(Wire(curMsg), offset, mtu - i)
      ensures i <= j <= mtu
      ensures buffer[..j] == old(buffer[..i]) + Piece(Wire(curMsg), offset, mtu - i)
    {
      j := i;
      ghost var before := buffer[..i];
      var remainingMsg := curMsg.len - offset;
      if offset == 0 { j := WriteHeader(buffer, i); }
      ghost var header := if offset == 0 then Header(Wire(curMsg)) else [];
      assert buffer[..j] == before + header;
      var remainingPkt := mtu - j;
      chunk := if remainingMsg < remainingPkt then remainingMsg else remainingPkt;
      var bytes := curMsg.payload[offset..offset + chunk];
      CopyChunk(buffer, j, bytes);
      SliceOfPrefix(curMsg.payload, curMsg.len, offset, offset + chunk);
      assert (before + header) + bytes == before + (header + bytes);
      j := j + chunk;
    }

    method WriteMessage(buffer: array<Byte>, i: nat, mtu: nat) returns (j: nat)
      requires Valid() && active && i < mtu <= buffer.Length && !Blocked(View(), mtu - i)
      modifies this`offset, this`active, buffer
      ensures Valid() && i <= j <= mtu
      ensures var m, o := Wire(curMsg), old(offset);
        && buffer[..j] == old(buffer[..i]) + Piece(m, o, mtu - i)
        && View() == Advance(m, o, Chunk(m, o, mtu - i))
    {
      var chunk;
      chunk, j := WritePiece(buffer, i, mtu);
      offset := offset + chunk;
      if offset >= curMsg.len { active := false; }
    }

    /** One turn of the packet loop. */
    method BuilderTurn(buffer: array<Byte>, i: nat, mtu: nat) returns (more: bool, j: nat)
      requires Valid() && i < mtu <= buffer.Length
      modifies this, fifo`readIdx, buffer
      ensures Valid() && i <= j <= mtu
      ensures buffer[..j] == old(buffer[..i]) + buffer[i..j]
      ensures Turn(old(View()), old(fifo.Queue()), mtu - i)
           == if more then Go(buffer[i..j], View(), fifo.Queue()) else Stop(View(), fifo.Queue())
      ensures if more then i < j else i == j
    {
      j := i;
      more := LoadNext();
      if !more { return; }
      var remainingPkt := mtu - i;
      if offset == 0 && remainingPkt < 1 + BLE_HDR_SIZE {
        more := false;
        return;
      }
      j := WriteMessage(buffer, i, mtu);
    }

    /** What the packet will be: what is written, and what the turns to come will add. */
    ghost function Outcome(buffer: array<Byte>, i: nat, mtu: nat, more: bool): Filled
      requires Valid() && i <= mtu <= buffer.Length
      reads this, fifo, fifo.ring, buffer
    {
      if more then Prepend(buffer[..i], Fill(View(), fifo.Queue(), mtu - i))
      else Filled(buffer[..i], View(), fifo.Queue())
    }

    method StepPacket(buffer: array<Byte>, i: nat, mtu: nat) returns (more: bool, j: nat)
      requires Valid() && i < mtu <= buffer.Length
      modifies this, fifo`readIdx, buffer
      ensures Valid() && i <= j <= mtu && (more ==> i < j)
      ensures Outcome(buffer, j, mtu, more) == old(Outcome(buffer, i, mtu, true))
    {
      hide Turn, Fill, QueueOf;
      ghost var prefix, tx, q := buffer[..i], View(), fifo.Queue();
      more, j := BuilderTurn(buffer, i, mtu);
      if more { FillGoes(prefix, tx, q, mtu - i, buffer[i..j], View(), fifo.Queue(), mtu - j); }
      else { FillStops(prefix, tx, q, mtu - i, View(), fifo.Queue()); }
    }

    /** The loop of ble_build_next_packet, after the flag byte. */
    method FillPacket(buffer: array<Byte>, mtu: nat) returns (i: nat)
      requires Valid() && 1 <= mtu <= buffer.Length
      modifies this, fifo`readIdx, buffer
      ensures Valid() && 1 <= i <= mtu
      ensures Outcome(buffer, i, mtu, false) == old(Outcome(buffer, 1, mtu, true))
    {
      i := 1;
      var more := true;
      while more && i < mtu
        invariant Valid() && 1 <= i <= mtu
        invariant Outcome(buffer, i, mtu, more) == old(Outcome(buffer, 1, mtu, true))
        decreases more, mtu - i
      {
        more, i := StepPacket(buffer, i, mtu);
      }
      assert buffer[..i] + [] == buffer[..i];
    }

    /** ble_build_next_packet */
    method BuildNextPacket(buffer: array<Byte>, mtu: nat) returns (ok: bool, outLen: nat)
      requires Valid() && buffer.Length >= 1 && mtu <= buffer.Length
      modifies this, fifo`readIdx, buffer
      ensures Valid() && outLen <= buffer.Length
      ensures Filled(buffer[..outLen], View(), fifo.Queue()) == BuildPacket(old(View()), old(fifo.Queue()), mtu)
      ensures ok <==> outLen > 1
    {
      buffer[0] := if active then 1 else 0;
      outLen := 1;
      if mtu >= 1 { outLen := FillPacket(buffer, mtu); }
      ok := outLen > 1;
    }

    /** populate_tx_buffers, on a connection that stays up: the packets it notifies. The case
        shut out is the one in which the loop never ends; see NeverDrained. */
    method PopulateTxBuffers(buffer: array<Byte>, mtu: nat) returns (packets: seq<seq<Byte>>)
      requires Valid() && buffer.Length >= 1 && mtu <= buffer.Length
      requires Drains(View(), fifo.Queue(), mtu)
      modifies this, fifo`readIdx, buffer
      ensures Valid()
      ensures (packets, View(), fifo.Queue()) == Drained([], old(View()), old(fifo.Queue()), mtu)
    {
      hide BuildPacket, Drains, Unsent, QueueOf;
      packets := [];
      ghost var all := Drained([], View(), fifo.Queue(), mtu);
      var more := true;
      while more
        invariant Valid() && Drains(View(), fifo.Queue(), mtu)
        invariant all == if more then Drained(packets, View(), fifo.Queue(), mtu)
                                 else (packets, View(), fifo.Queue())
        decreases more, Unsent(View(), fifo.Queue())
      {
        DrainTurn(packets, View(), fifo.Queue(), mtu);
        var len;
        more, len := BuildNextPacket(buffer, mtu);
        if more { packets := packets + [buffer[..len]]; }
      }
    }
  }
}
