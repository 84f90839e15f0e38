/** The packet parser of src/BLE/ble_packet_handler.c. */
module BleRx {
  import opened Bytes
  import opened BleTypes
  import opened BleFifo

  datatype RxState = WaitMagic | ReadHeader | ReadPayload

  /** rx_ctx: the parser's state, kept across packets. */
  datatype Rx = Rx(state: RxState, cur: MsgBuf, offset: nat, active: bool)

  const FRESH := Rx(WaitMagic, EMPTY_BUF, 0, false)

  /** The result of a parse and the messages handed to the BLE_RX ring, in order. */
  datatype Parsed = Parsed(rx: Rx, out: seq<Msg>)

  function Resync(c: Rx): Rx { c.(state := WaitMagic, active := false) }

  /** The three header bytes after the magic. */
  function TakeHeader(c: Rx, opcode: Byte, reqApp: Byte, len: Byte): Rx {
    Rx(if len == 0 then WaitMagic else ReadPayload,
       c.cur.(opcode := opcode, reqApp := reqApp, len := len), 0, len != 0)
  }

  function Missing(c: Rx): nat
    requires c.offset <= c.cur.len
  {
    c.cur.len - c.offset
  }

  /** memcpy of payload bytes to the current offset. Nothing past the declared length is
      written, nor anything before the offset. */
  function TakePayload(c: Rx, bytes: seq<Byte>): (r: Rx)
    requires c.offset <= c.cur.len && |bytes| <= Missing(c)
    ensures r.offset <= r.cur.len == c.cur.len
    ensures r.cur.payload[..r.offset] == c.cur.payload[..c.offset] + bytes
    ensures r.cur.payload[r.offset..] == c.cur.payload[r.offset..]
  {
    var end := c.offset + |bytes|;
    c.(offset := end,
       cur := c.cur.(payload := c.cur.payload[..c.offset] + bytes + c.cur.payload[end..]))
  }

  /** The parser's loop over what is left of a packet. */
  function Parse(c: Rx, rest: seq<Byte>): Parsed
    decreases |rest|, if c.state == ReadPayload then 1 else 0
  {
    if rest == [] then Parsed(c, [])
    else match c.state
    case WaitMagic =>
      if rest[0] != BLE_MAGIC then Parse(c, rest[1..])
      else if |rest| < 1 + BLE_HDR_SIZE then Parsed(c, [])
      else Parse(c.(state := ReadHeader), rest[1..])
    case ReadHeader =>
      if |rest| < BLE_HDR_SIZE then Parsed(c, [])
      else
        var c1 := TakeHeader(c, rest[0], rest[1], rest[2]);
        var p := Parse(c1, rest[3..]);
        if rest[2] == 0 then p.(out := [Wire(c1.cur)] + p.out) else p
    case ReadPayload =>
      if c.offset > c.cur.len then Parse(Resync(c), rest)
      else
        var chunk := if Missing(c) < |rest| then Missing(c) else |rest|;
        var c1 := TakePayload(c, rest[..chunk]);
        if c1.offset == c1.cur.len then
          var p := Parse(Resync(c1), rest[chunk..]);
          p.(out := [Wire(c1.cur)] + p.out)
        else Parse(c1, rest[chunk..])
  }

  function Emit(out: seq<Msg>, p: Parsed): Parsed { p.(out := out + p.out) }

  lemma EmitTwice(a: seq<Msg>, b: seq<Msg>, p: Parsed)
    ensures Emit(a, Emit(b, p)) == Emit(a + b, p)
    ensures Emit([], p) == p
    ensures Emit(a, Parsed(p.rx, [])) == Parsed(p.rx, a)
  {
    assert a + [] == a;
    assert a + (b + p.out) == (a + b) + p.out;
    assert [] + p.out == p.out;
  }

  lemma ParseNothing(c: Rx, rest: seq<Byte>)
    requires rest == []
    ensures Parse(c, rest) == Parsed(c, [])
  {}

  lemma ParsePayload(c: Rx, rest: seq<Byte>, chunk: nat)
    requires c.state == ReadPayload && c.offset <= c.cur.len && rest != []
    requires chunk == if Missing(c) < |rest| then Missing(c) else |rest|
    ensures var c1 := TakePayload(c, rest[..chunk]);
      Parse(c, rest) ==
        if c1.offset >= c1.cur.len then Emit([Wire(c1.cur)], Parse(Resync(c1), rest[chunk..]))
        else Emit([], Parse(c1, rest[chunk..]))
  {
    EmitTwice([], [], Parse(TakePayload(c, rest[..chunk]), rest[chunk..]));
  }

  lemma ParseOverrun(c: Rx, rest: seq<Byte>)
    requires c.state == ReadPayload && c.offset > c.cur.len && rest != []
    ensures Parse(c, rest) == Emit([], Parse(Resync(c), rest))
  {
    EmitTwice([], [], Parse(Resync(c), rest));
  }

  /** What the continuation flag does to the parser. */
  function Begin(c: Rx, flag: Byte): Rx {
    if flag == 0 then Rx(WaitMagic, c.cur, 0, false)
    else if !c.active then c.(state := WaitMagic, offset := 0)
    else c
  }

  function Receive(c: Rx, packet: seq<Byte>): Parsed {
    if packet == [] then Parsed(c, []) else Parse(Begin(c, packet[0]), packet[1..])
  }

  function ReceiveAll(c: Rx, packets: seq<seq<Byte>>): Parsed
    decreases |packets|
  {
    if packets == [] then Parsed(c, [])
    else
      var p := Receive(c, packets[0]);
      var r := ReceiveAll(p.rx, packets[1..]);
      Parsed(r.rx, p.out + r.out)
  }

  // ---------------------------------------------------------------- between packets

  /** Waiting with no active message, or reading the payload of an active one. */
  predicate Settled(c: Rx) {
    || (c.state == WaitMagic && !c.active)
    || (c.state == ReadPayload && c.active && c.offset < c.cur.len)
  }

  lemma {:induction false} ParseSettles(c: Rx, rest: seq<Byte>)
    requires Settled(c) || (c.state == ReadHeader && !c.active && |rest| >= BLE_HDR_SIZE)
    ensures Settled(Parse(c, rest).rx)
    decreases |rest|, if c.state == ReadPayload then 1 else 0
  {
    if rest != [] {
      match c.state
      case WaitMagic =>
        if rest[0] != BLE_MAGIC { ParseSettles(c, rest[1..]); }
        else if |rest| >= 1 + BLE_HDR_SIZE { ParseSettles(c.(state := ReadHeader), rest[1..]); }
      case ReadHeader => ParseSettles(TakeHeader(c, rest[0], rest[1], rest[2]), rest[3..]);
      case ReadPayload =>
        var chunk := if Missing(c) < |rest| then Missing(c) else |rest|;
        var c1 := TakePayload(c, rest[..chunk]);
        ParseSettles(if c1.offset == c1.cur.len then Resync(c1) else c1, rest[chunk..]);
    }
  }

  /** Whatever packets arrive, the parser is settled after each of them. */
  lemma {:induction false} ReceiveAllSettles(c: Rx, packets: seq<seq<Byte>>)
    requires Settled(c)
    ensures Settled(ReceiveAll(c, packets).rx)
    decreases |packets|
  {
    if packets != [] {
      var packet := packets[0];
      if packet != [] { ParseSettles(Begin(c, packet[0]), packet[1..]); }
      ReceiveAllSettles(Receive(c, packet).rx, packets[1..]);
    }
  }

  /** Receiving packets is receiving them one after the other. */
  lemma {:induction false} ReceiveOneMore(c: Rx, packets: seq<seq<Byte>>, packet: seq<Byte>)
    ensures var before := ReceiveAll(c, packets); var p := Receive(before.rx, packet);
      ReceiveAll(c, packets + [packet]) == Parsed(p.rx, before.out + p.out)
    decreases |packets|
  {
    hide Receive;
    if packets == [] {
      assert packets + [packet] == [packet] && [packet][1..] == [];
    } else {
      assert (packets + [packet])[0] == packets[0] && (packets + [packet])[1..] == packets[1..] + [packet];
      ReceiveOneMore(Receive(c, packets[0]).rx, packets[1..], packet);
    }
  }

  // ---------------------------------------------------------------- fresh starts

  /** Two parsers that will treat all further bytes alike. */
  predicate Alike(c: Rx, d: Rx) {
    && c.state == d.state && c.active == d.active
    && (c.state == ReadPayload ==>
          && c.offset == d.offset <= c.cur.len
          && c.cur.(payload := d.cur.payload) == d.cur
          && c.cur.payload[..c.offset] == d.cur.payload[..d.offset])
  }

  lemma {:induction false} ParseAlike(c: Rx, d: Rx, rest: seq<Byte>)
    requires Alike(c, d)
    ensures Alike(Parse(c, rest).rx, Parse(d, rest).rx)
    ensures Parse(c, rest).out == Parse(d, rest).out
    decreases |rest|, if c.state == ReadPayload then 1 else 0
  {
    if rest != [] {
      match c.state
      case WaitMagic =>
        if rest[0] != BLE_MAGIC { ParseAlike(c, d, rest[1..]); }
        else if |rest| >= 1 + BLE_HDR_SIZE {
          ParseAlike(c.(state := ReadHeader), d.(state := ReadHeader), rest[1..]);
        }
      case ReadHeader =>
        if |rest| >= BLE_HDR_SIZE {
          ParseAlike(TakeHeader(c, rest[0], rest[1], rest[2]), TakeHeader(d, rest[0], rest[1], rest[2]), rest[3..]);
        }
      case ReadPayload =>
        var chunk := if Missing(c) < |rest| then Missing(c) else |rest|;
        var c1, d1 := TakePayload(c, rest[..chunk]), TakePayload(d, rest[..chunk]);
        if c1.offset == c1.cur.len {
          assert Wire(c1.cur) == Wire(d1.cur);
          ParseAlike(Resync(c1), Resync(d1), rest[chunk..]);
        } else {
          ParseAlike(c1, d1, rest[chunk..]);
        }
    }
  }

  lemma ReceiveAlike(c: Rx, d: Rx, packet: seq<Byte>)
    requires Alike(c, d) || (packet != [] && packet[0] == 0)
    ensures packet != [] || Alike(c, d)
    ensures Alike(Receive(c, packet).rx, Receive(d, packet).rx)
    ensures Receive(c, packet).out == Receive(d, packet).out
  {
    if packet != [] { ParseAlike(Begin(c, packet[0]), Begin(d, packet[0]), packet[1..]); }
  }

  lemma {:induction false} ReceiveAllAlike(c: Rx, d: Rx, packets: seq<seq<Byte>>)
    requires Alike(c, d)
    ensures ReceiveAll(c, packets).out == ReceiveAll(d, packets).out
    decreases |packets|
  {
    hide Alike, Receive;
    if packets != [] {
      ReceiveAlike(c, d, packets[0]);
      ReceiveAllAlike(Receive(c, packets[0]).rx, Receive(d, packets[0]).rx, packets[1..]);
    }
  }

  /** From a packet with flag 0 on, the messages handed over for it and for all packets after
      it do not depend on anything received before. */
  lemma FlagZeroStartsAfresh(c: Rx, d: Rx, packets: seq<seq<Byte>>)
    requires packets != [] && packets[0] != [] && packets[0][0] == 0
    ensures ReceiveAll(c, packets).out == ReceiveAll(d, packets).out
  {
    hide Alike, Receive;
    ReceiveAlike(c, d, packets[0]);
    ReceiveAllAlike(Receive(c, packets[0]).rx, Receive(d, packets[0]).rx, packets[1..]);
  }

  lemma BeginsAlike(c: Rx, d: Rx, flag: Byte)
    requires !c.active
    ensures Alike(Begin(c, flag), Begin(d, 0))
  {}

  /** So do they where no message is active, whatever the flag says. */
  lemma InactiveStartsAfresh(c: Rx, d: Rx, flag: Byte, rest: seq<Byte>, packets: seq<seq<Byte>>)
    requires !c.active
    ensures ReceiveAll(c, [[flag] + rest] + packets).out == ReceiveAll(d, [[0] + rest] + packets).out
  {
    hide Alike, Parse, Begin;
    var p, q := [flag] + rest, [0] + rest;
    assert p[1..] == rest == q[1..] && ([p] + packets)[1..] == packets == ([q] + packets)[1..];
    BeginsAlike(c, d, flag);
    ParseAlike(Begin(c, flag), Begin(d, 0), rest);
    ReceiveAllAlike(Receive(c, p).rx, Receive(d, q).rx, packets);
  }

  // ---------------------------------------------------------------- in place

  function PushAll(q: seq<Msg>, out: seq<Msg>): seq<Msg>
    decreases |out|
  {
    if out == [] then q else PushAll(PushTo(q, out[0]), out[1..])
  }

  lemma {:induction false} PushAllTwice(q: seq<Msg>, a: seq<Msg>, b: seq<Msg>)
    ensures PushAll(PushAll(q, a), b) == PushAll(q, a + b)
    decreases |a|
  {
    if a == [] {
      assert a + b == b;
    } else {
      assert (a + b)[1..] == a[1..] + b;
      PushAllTwice(PushTo(q, a[0]), a[1..], b);
    }
  }

  /** The ring keeps the latest messages, at most 19, in order. */
  lemma {:induction false} PushAllKeepsLatest(q: seq<Msg>, out: seq<Msg>)
    requires |q| <= CAPACITY
    ensures var all := q + out;
      PushAll(q, out) == if |all| <= 19 then all else all[|all| - 19..]
    decreases |out|
  {
    if out == [] {
      assert q + out == q;
    } else {
      assert q + out == (q + [out[0]]) + out[1..];
      PushAllKeepsLatest(PushTo(q, out[0]), out[1..]);
    }
  }

  class Parser {
    const fifo: Fifo      // the BLE_RX ring
    var ctx: Rx
    ghost var handed: seq<Msg>   // every message handed to the ring so far

    ghost predicate Valid()
      reads this, fifo
    {
      fifo.Valid()
    }

    constructor (fifo: Fifo)
      requires fifo.Valid()
      ensures Valid() && ctx == FRESH && handed == [] && this.fifo == fifo
    {
      this.fifo := fifo;
      ctx, handed := FRESH, [];
    }

    /** rx_reset_context */
    method Reset()
      modifies this`ctx
      ensures ctx == Rx(WaitMagic, old(ctx.cur), 0, false)
    {
      ctx := ctx.(state := WaitMagic, offset := 0, active := false);
    }

    method HandOver()
      requires Valid()
      modifies this`handed, fifo, fifo.ring
      ensures Valid() && fifo.Queue() == PushTo(old(fifo.Queue()), Wire(ctx.cur))
      ensures handed == old(handed) + [Wire(ctx.cur)]
    {
      fifo.Add(ctx.cur);
      handed := handed + [Wire(ctx.cur)];
    }

    /** case RX_WAIT_MAGIC */
    method WaitForMagic(pkt: array<Byte>, i: nat, len: nat) returns (more: bool, j: nat)
      requires i < len <= pkt.Length && ctx.state == WaitMagic
      modifies this`ctx
      ensures i <= j <= len && (more ==> i < j)
      ensures Parse(old(ctx), pkt[i..len]) == if more then Parse(ctx, pkt[j..len]) else Parsed(ctx, [])
    {
      assert pkt[i..len][1..] == pkt[i + 1..len];
      more, j := true, i + 1;
      if pkt[i] != BLE_MAGIC { return; }
      if i + 4 > len { return false, i; }
      ctx := ctx.(state := ReadHeader);
    }

    /** case RX_READ_HEADER. The length is a byte, so it never exceeds the buffer. */
    method ReadHeaderBytes(pkt: array<Byte>, i: nat, len: nat) returns (more: bool, j: nat, ghost out: seq<Msg>)
      requires Valid() && i < len <= pkt.Length && ctx.state == ReadHeader && pkt != fifo.ring as object
      modifies this`ctx, this`handed, fifo, fifo.ring
      ensures Valid() && i <= j <= len && (more ==> i < j)
      ensures handed == old(handed) + out && fifo.Queue() == PushAll(old(fifo.Queue()), out)
      ensures old(Parse(ctx, pkt[i..len])) == if more then Emit(out, Parse(ctx, pkt[j..len])) else Parsed(ctx, [])
      ensures !more ==> out == []
    {
      out := [];
      if i + 3 > len { return false, i, []; }
      assert pkt[i..len][3..] == pkt[i + 3..len];
      ctx := TakeHeader(ctx, pkt[i], pkt[i + 1], pkt[i + 2]);
      more, j := true, i + 3;
      if ctx.cur.len == 0 {
        HandOver();
        out := [Wire(ctx.cur)];
      }
    }

    /** case RX_READ_PAYLOAD */
    method ReadPayloadBytes(pkt: array<Byte>, i: nat, len: nat) returns (j: nat, ghost out: seq<Msg>)
      requires Valid() && i < len <= pkt.Length && ctx.state == ReadPayload && pkt != fifo.ring as object
      modifies this`ctx, this`handed, fifo, fifo.ring
      ensures Valid() && i <= j <= len && (i == j ==> ctx.state == WaitMagic)
      ensures handed == old(handed) + out && fifo.Queue() == PushAll(old(fifo.Queue()), out)
      ensures old(Parse(ctx, pkt[i..len])) == Emit(out, Parse(ctx, pkt[j..len]))
    {
      hide Parse, TakePayload, PushTo, QueueOf;
      j, out := i, [];
      if ctx.offset > ctx.cur.len {
        ParseOverrun(ctx, pkt[i..len]);
        ctx := Resync(ctx);
        return;
      }
      var remainingMsg, remainingPkt := ctx.cur.len - ctx.offset, len - i;
      var chunk := if remainingMsg < remainingPkt then remainingMsg else remainingPkt;
      ParsePayload(ctx, pkt[i..len], chunk);
      assert pkt[i..len][..chunk] == pkt[i..i + chunk] && pkt[i..len][chunk..] == pkt[i + chunk..len];
      ctx := TakePayload(ctx, pkt[i..i + chunk]);
      j := i + chunk;
      if ctx.offset >= ctx.cur.len {
        HandOver();
        out := [Wire(ctx.cur)];
        ctx := Resync(ctx);
      }
    }

    /** One turn of the parser's switch. */
    method ParserTurn(pkt: array<Byte>, i: nat, len: nat) returns (more: bool, j: nat, ghost out: seq<Msg>)
      requires Valid() && i < len <= pkt.Length && pkt != fifo.ring as object
      modifies this`ctx, this`handed, fifo, fifo.ring
      ensures Valid() && i <= j <= len
      ensures more && i == j ==> old(ctx.state) == ReadPayload && ctx.state != ReadPayload
      ensures handed == old(handed) + out && fifo.Queue() == PushAll(old(fifo.Queue()), out)
      ensures old(Parse(ctx, pkt[i..len])) == Emit(out, if more then Parse(ctx, pkt[j..len]) else Parsed(ctx, []))
    {
      hide Parse, TakePayload, TakeHeader, PushTo, QueueOf;
      out := [];
      match ctx.state {
        case WaitMagic =>
          more, j := WaitForMagic(pkt, i, len);
        case ReadHeader => more, j, out := ReadHeaderBytes(pkt, i, len);
        case ReadPayload =>
          more := true;
          j, out := ReadPayloadBytes(pkt, i, len);
      }
      EmitTwice([], [], if more then Parse(ctx, pkt[j..len]) else Parsed(ctx, []));
    }

    /** The parser's loop, after the flag byte. */
    method ParseLoop(pkt: array<Byte>, len: nat) returns (ghost sent: seq<Msg>)
      requires Valid() && 1 <= len <= pkt.Length && pkt != fifo.ring as object
      modifies this`ctx, this`handed, fifo, fifo.ring
      ensures Valid() && Parsed(ctx, sent) == old(Parse(ctx, pkt[1..len]))
      ensures handed == old(handed) + sent && fifo.Queue() == PushAll(old(fifo.Queue()), sent)
    {
      hide Parse, TakePayload, TakeHeader, PushTo, QueueOf;
      ghost var goal := Parse(ctx, pkt[1..len]);
      var i, more := 1, true;
      sent := [];
      EmitTwice([], [], goal);
      while more && i < len
        invariant Valid() && 1 <= i <= len
        invariant handed == old(handed) + sent && fifo.Queue() == PushAll(old(fifo.Queue()), sent)
        invariant goal == Emit(sent, if more then Parse(ctx, pkt[i..len]) else Parsed(ctx, []))
        decreases more, len - i, if ctx.state == ReadPayload then 1 else 0
      {
        ghost var out;
        more, i, out := ParserTurn(pkt, i, len);
        ghost var rest := if more then Parse(ctx, pkt[i..len]) else Parsed(ctx, []);
        EmitTwice(sent, out, rest);
        PushAllTwice(old(fifo.Queue()), sent, out);
        sent := sent + out;
      }
      if more { ParseNothing(ctx, pkt[i..len]); }
      EmitTwice(sent, [], Parsed(ctx, []));
    }

    /** ble_retrieve_packet */
    method RetrievePacket(pkt: array<Byte>, len: nat)
      requires Valid() && len <= pkt.Length && pkt != fifo.ring as object
      modifies this`ctx, this`handed, fifo, fifo.ring
      ensures var p := Receive(old(ctx), pkt[..len]);
        && Valid() && ctx == p.rx && handed == old(handed) + p.out
        && fifo.Queue() == PushAll(old(fifo.Queue()), p.out)
    {
      hide Parse, PushTo, QueueOf;
      if len == 0 { return; }
      assert pkt[..len][1..] == pkt[1..len];
      if pkt[0] == 0 { ctx := Rx(WaitMagic, ctx.cur, 0, false); }
      else if !ctx.active { ctx := ctx.(state := WaitMagic, offset := 0); }
      ghost var sent := ParseLoop(pkt, len);
    }
  }
}
