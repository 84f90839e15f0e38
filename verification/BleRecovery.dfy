/** The link after things went wrong: what a packet with flag 0 repairs. */
module BleRecovery {
  import opened BleTypes
  import opened BleFifo
  import opened BleTx
  import opened BleRx
  import opened BleLink
  import opened BleCut

  predicate SameSender(k: Link, d: Link) { k.fifo == d.fifo && k.tx == d.tx }

  /** What an event hands over. */
  function Gained(k: Link, e: Event): seq<Msg>
    requires TxOk(k.tx)
  {
    if e.Packet? && Carries(BuildPacket(k.tx, k.fifo.queue, e.mtu))
    then Receive(k.rx, BuildPacket(k.tx, k.fifo.queue, e.mtu).bytes).out else []
  }

  lemma EventGains(k: Link, e: Event)
    requires TxOk(k.tx)
    ensures Happen(k, e).received == k.received + Gained(k, e)
  {
    assert k.received + [] == k.received;
  }

  /** The receiver has no influence on the sender. */
  lemma EventSameSender(k: Link, d: Link, e: Event)
    requires TxOk(k.tx) && SameSender(k, d)
    ensures SameSender(Happen(k, e), Happen(d, e))
  {}

  lemma {:induction false} NoCutSameSender(k: Link, d: Link, es: seq<Event>)
    requires TxOk(k.tx) && SameSender(k, d)
    ensures NoCut(k, es) <==> NoCut(d, es)
    decreases |es|
  {
    hide Happen, EndsOnHeader;
    if es != [] {
      EventSameSender(k, d, es[0]);
      NoCutSameSender(Happen(k, es[0]), Happen(d, es[0]), es[1..]);
    }
  }

  /** Receivers that are alike hand over the same. */
  lemma EventAlike(k: Link, d: Link, e: Event)
    requires TxOk(k.tx) && SameSender(k, d) && Alike(k.rx, d.rx)
    ensures Alike(Happen(k, e).rx, Happen(d, e).rx) && Gained(k, e) == Gained(d, e)
  {
    hide Alike, BuildPacket, Receive;
    if e.Packet? { ReceiveAlike(k.rx, d.rx, BuildPacket(k.tx, k.fifo.queue, e.mtu).bytes); }
  }

  /** What was handed over since k. */
  function Since(k: Link, k': Link): seq<Msg>
    requires k.received <= k'.received
  {
    k'.received[|k.received|..]
  }

  lemma SinceJoins(k: Link, k1: Link, k2: Link, got: seq<Msg>)
    requires k1.received == k.received + got && k1.received <= k2.received
    ensures k.received <= k2.received && Since(k, k2) == got + Since(k1, k2)
  {
    assert k2.received == k1.received + Since(k1, k2);
    assert (k.received + got) + Since(k1, k2) == k.received + (got + Since(k1, k2));
  }

  lemma {:induction false} RunAlike(k: Link, d: Link, es: seq<Event>)
    requires TxOk(k.tx) && SameSender(k, d) && Alike(k.rx, d.rx)
    ensures var k', d' := HappenAll(k, es), HappenAll(d, es);
      && SameSender(k', d') && k.received <= k'.received && d.received <= d'.received
      && Since(k, k') == Since(d, d')
    decreases |es|
  {
    hide Happen, Alike, Gained;
    if es != [] {
      var k1, d1 := Happen(k, es[0]), Happen(d, es[0]);
      EventGains(k, es[0]);
      EventGains(d, es[0]);
      EventSameSender(k, d, es[0]);
      EventAlike(k, d, es[0]);
      RunAlike(k1, d1, es[1..]);
      SinceJoins(k, k1, HappenAll(k, es), Gained(k, es[0]));
      SinceJoins(d, d1, HappenAll(d, es), Gained(d, es[0]));
    }
  }

  lemma IdleFlag(q: seq<Msg>, mtu: nat)
    ensures BuildPacket(Idle, q, mtu).bytes != [] && BuildPacket(Idle, q, mtu).bytes[0] == 0
  {}

  /** The same sender with a receiver that has got everything sent so far. */
  function Repaired(k: Link): Link { Link(k.fifo, k.tx, Begin(k.rx, 0), k.fifo.delivered) }

  lemma RepairedInStep(k: Link)
    requires k.tx == Idle && Sorted(k.fifo)
    ensures InStep(Repaired(k))
  {
    assert Pending(Idle, []) == [] && k.fifo.delivered + [] == k.fifo.delivered;
  }

  lemma FirstPacketAlike(k: Link, mtu: nat)
    requires k.tx == Idle && Carries(BuildPacket(Idle, k.fifo.queue, mtu))
    ensures var d := Repaired(k); var e := Packet(mtu);
      Alike(Happen(k, e).rx, Happen(d, e).rx) && Gained(k, e) == Gained(d, e)
  {
    hide Alike, BuildPacket, Receive;
    IdleFlag(k.fifo.queue, mtu);
    ReceiveAlike(k.rx, Begin(k.rx, 0), BuildPacket(Idle, k.fifo.queue, mtu).bytes);
  }

  /** Recovery. Whatever state the receiver is in, from a packet built while no message is being
      sent on, and as long as no packet ends on a header: the messages handed over since and the one
      being sent are those taken from the sender's ring since, in order. */
  lemma RightAgain(k: Link, mtu: nat, es: seq<Event>)
    requires k.tx == Idle && Sorted(k.fifo)
    requires Carries(BuildPacket(Idle, k.fifo.queue, mtu)) && NoCut(k, [Packet(mtu)] + es)
    ensures var k' := HappenAll(k, [Packet(mtu)] + es);
      && k.received <= k'.received && k.fifo.delivered <= k'.fifo.delivered
      && Since(k, k') + Pending(k'.tx, []) == k'.fifo.delivered[|k.fifo.delivered|..]
  {
    hide Happen, Alike, Gained, InStep, EndsOnHeader, Sorted;
    var d, e, all := Repaired(k), Packet(mtu), [Packet(mtu)] + es;
    var k1, d1 := Happen(k, e), Happen(d, e);
    assert all[1..] == es;
    RepairedInStep(k);
    NoCutSameSender(k, d, all);
    InStepIff(d, all);
    EndsInStep(d, all);
    EventSameSender(k, d, e);
    FirstPacketAlike(k, mtu);
    EventGains(k, e);
    EventGains(d, e);
    RunAlike(k1, d1, es);
    var k', d' := HappenAll(k, all), HappenAll(d, all);
    assert k' == HappenAll(k1, es) && d' == HappenAll(d1, es);
    SinceJoins(k, k1, k', Gained(k, e));
    SinceJoins(d, d1, d', Gained(d, e));
    StepBooks(d');
    assert d'.received == d.received + Since(d, d');
    assert (d.received + Since(d, d')) + Pending(d'.tx, []) == d.received + (Since(d, d') + Pending(d'.tx, []));
  }
}
