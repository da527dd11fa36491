/** The downlink half of the target multiplexer (sel4/Mux/src/console_mux.c): the frame decoder, the
    ring buffer of each sink, the counters and the acknowledgements. */
module Downlink {
  import opened Bytes
  import opened Demux
  import opened Tokens
  import opened Proto
  import opened Outer
  import opened ConsoleMux

  const RING_SIZE: nat := 4088

  /** `console_mux_getchar_buffer_t`: one slot stays free. Only the producer moves `tail`, only the
      consumer moves `head`. */
  class Ring {
    var head: nat
    var tail: nat
    const buf: array<byte>

    ghost predicate Valid()
      reads this
    {
      buf.Length == RING_SIZE && head < RING_SIZE && tail < RING_SIZE
    }

    ghost function Contents(): (s: seq<byte>)
      requires Valid()
      reads this, buf
    {
      if head <= tail then buf[head..tail] else buf[head..] + buf[..tail]
    }

    constructor ()
      ensures Valid() && Contents() == [] && fresh(buf)
    {
      head, tail := 0, 0;
      buf := new byte[RING_SIZE](i => 0);
    }

    method Enqueue(b: byte) returns (ok: bool)
      requires Valid()
      modifies this`tail, buf
      ensures Valid()
      ensures ok <==> |old(Contents())| < RING_SIZE - 1
      ensures Contents() == if ok then old(Contents()) + [b] else old(Contents())
    {
      var next := (tail + 1) % RING_SIZE;
      Wraps(tail);
      if next == head {
        return false;
      }
      buf[tail] := b;
      tail := next;
      return true;
    }

    /** The consumer's side: take one byte and advance `head`. */
    method Dequeue() returns (b: byte)
      requires Valid() && Contents() != []
      modifies this`head
      ensures Valid() && old(Contents()) == [b] + Contents()
    {
      b := buf[head];
      var next := (head + 1) % RING_SIZE;
      Wraps(head);
      PopFront(buf[..], head, next, tail);
      assert head <= tail ==> buf[head..tail] == buf[..][head..tail];
      assert next <= tail ==> buf[next..tail] == buf[..][next..tail];
      head := next;
    }
  }

  lemma Wraps(i: nat)
    requires i < RING_SIZE
    ensures (i + 1) % RING_SIZE == if i + 1 == RING_SIZE then 0 else i + 1
  {
  }

  /** Taking the oldest byte out of a ring. */
  lemma PopFront(buf: seq<byte>, head: nat, next: nat, tail: nat)
    requires head < |buf| && tail < |buf| && head != tail && next == if head + 1 == |buf| then 0 else head + 1
    ensures head < tail ==> next <= tail && buf[head..tail] == [buf[head]] + buf[next..tail]
    ensures tail < head && next != 0 ==> buf[head..] + buf[..tail] == [buf[head]] + (buf[next..] + buf[..tail])
    ensures tail < head && next == 0 ==> buf[head..] + buf[..tail] == [buf[head]] + buf[0..tail]
  {
  }

  /** One entry of the generated sink table; a sink without buffer or emit function drops its bytes. */
  datatype Sink = Sink(stream: int, hasBuf: bool, hasEmit: bool)

  predicate Usable(s: Sink) {
    s.hasBuf && s.hasEmit
  }

  /** `console_mux_sink_for_stream`: the first entry, else -1. */
  function SinkFor(sinks: seq<Sink>, stream: int, i: nat := 0): (k: int)
    requires i <= |sinks|
    ensures k == -1 || (i <= k < |sinks| && sinks[k].stream == stream)
    ensures k >= 0 ==> forall j :: i <= j < k ==> sinks[j].stream != stream
    ensures k == -1 ==> forall j :: i <= j < |sinks| ==> sinks[j].stream != stream
    decreases |sinks| - i
  {
    if i == |sinks| then -1 else if sinks[i].stream == stream then i else SinkFor(sinks, stream, i + 1)
  }

  /** Decoder, rings and counters. `offered` lists every payload byte decoded while a stream was
      selected, with its stream; `accepted` and `taken` are what entered and left each ring. */
  datatype Down = Down(stream: int, esc: bool, rings: seq<seq<byte>>, offered: seq<(int, byte)>,
                       accepted: seq<seq<byte>>, taken: seq<seq<byte>>,
                       payload: nat, missing: nat, full: nat, unknown: nat, delivered: nat, acks: nat)

  function Enqueue(sinks: seq<Sink>, d: Down, b: byte): Down {
    var k := SinkFor(sinks, d.stream);
    var d1 := d.(offered := d.offered + [(d.stream, b)]);
    if k < 0 || !Usable(sinks[k]) || k >= |d.rings| || k >= |d.accepted| then d1.(missing := d.missing + 1)
    else if |d.rings[k]| >= RING_SIZE - 1 then d1.(full := d.full + 1)
    else d1.(rings := d.rings[k := d.rings[k] + [b]], accepted := d.accepted[k := d.accepted[k] + [b]],
             payload := d.payload + 1)
  }

  /** `console_mux_emit_stream_ready`. */
  function Ready(sinks: seq<Sink>, d: Down): Down {
    var k := SinkFor(sinks, d.stream);
    if k >= 0 && sinks[k].hasEmit then d.(delivered := d.delivered + 1) else d
  }

  function AckClosed(d: Down): Down {
    if ValidId(d.stream) then d.(acks := d.acks + 1) else d
  }

  /** The byte behind an escape. */
  function Command(sinks: seq<Sink>, d: Down, b: byte): Down {
    if b == DEFAULT then AckClosed(Ready(sinks, d)).(stream := -1)
    else if b == ESC then (if d.stream >= 0 then Enqueue(sinks, d, b) else d)
    else if b == CONTROL then Ready(sinks, d).(stream := -1)
    else if SinkFor(sinks, b) >= 0 then Ready(sinks, d).(stream := b)
    else Ready(sinks, d).(stream := -1, unknown := d.unknown + 1)
  }

  /** `console_mux_feed_downlink_byte`. */
  function FeedDown(sinks: seq<Sink>, d: Down, b: byte): Down {
    if d.esc then Command(sinks, d.(esc := false), b)
    else if b == ESC then d.(esc := true)
    else if d.stream >= 0 then Enqueue(sinks, d, b)
    else d
  }

  function FeedAll(sinks: seq<Sink>, d: Down, bs: seq<byte>): Down
    decreases bs
  {
    if bs == [] then d else FeedAll(sinks, FeedDown(sinks, d, bs[0]), bs[1..])
  }

  lemma {:induction false} FeedConcat(sinks: seq<Sink>, d: Down, a: seq<byte>, b: seq<byte>)
    ensures FeedAll(sinks, d, a + b) == FeedAll(sinks, FeedAll(sinks, d, a), b)
    decreases a
  {
    if a == [] {
      assert a + b == b;
    } else {
      assert (a + b)[1..] == a[1..] + b;
      FeedConcat(sinks, FeedDown(sinks, d, a[0]), a[1..], b);
    }
  }

  /** The decoder as the mux runs it, on real rings; acknowledgements go out through the uplink. */
  class Decoder {
    const sinks: seq<Sink>
    const rings: seq<Ring>
    const up: Uplink
    var stream: int
    var esc: bool
    var payload: nat
    var missing: nat
    var full: nat
    var unknown: nat
    var delivered: nat
    ghost var model: Down

    ghost predicate Valid()
      reads this, rings
    {
      && |rings| == |sinks| == |model.rings| == |model.accepted| == |model.taken|
      && (forall i :: 0 <= i < |rings| ==> rings[i].Valid())
      && (forall i, j :: 0 <= i < j < |rings| ==> rings[i] != rings[j] && rings[i].buf != rings[j].buf)
      && model.stream == stream && model.esc == esc && model.payload == payload && model.missing == missing
      && model.full == full && model.unknown == unknown && model.delivered == delivered
    }

    ghost predicate RingsMatch()
      requires Valid()
      reads this, rings, set r | r in rings :: r.buf
    {
      forall i :: 0 <= i < |rings| ==> rings[i].Contents() == model.rings[i]
    }

    constructor (sinks: seq<Sink>, rings: seq<Ring>, up: Uplink)
      requires |rings| == |sinks| && (forall i :: 0 <= i < |rings| ==> rings[i].Valid() && rings[i].Contents() == [])
      requires forall i, j :: 0 <= i < j < |rings| ==> rings[i] != rings[j] && rings[i].buf != rings[j].buf
      ensures Valid() && RingsMatch() && Conserved(sinks, model) && stream == -1 && !esc
      ensures this.sinks == sinks && this.rings == rings && this.up == up
    {
      this.sinks, this.rings, this.up := sinks, rings, up;
      stream, esc := -1, false;
      payload, missing, full, unknown, delivered := 0, 0, 0, 0, 0;
      var none := seq(|rings|, i => []);
      model := Down(-1, false, none, [], none, none, 0, 0, 0, 0, 0, 0);
      NothingSummed(none);
    }

    /** `console_mux_enqueue_stream_byte`. */
    method EnqueueByte(b: byte)
      requires Valid() && RingsMatch()
      modifies this`payload, this`missing, this`full, this`model, rings, set r | r in rings :: r.buf
      ensures Valid() && RingsMatch() && model == Enqueue(sinks, old(model), b)
    {
      var k := SinkFor(sinks, stream);
      if k < 0 || !Usable(sinks[k]) {
        missing := missing + 1;
        model := Enqueue(sinks, model, b);
        return;
      }
      EnqueueServed(k, b);
    }

    method EnqueueServed(k: nat, b: byte)
      requires Valid() && RingsMatch() && SinkFor(sinks, stream) == k && Serves(sinks, stream)
      modifies this`payload, this`full, this`model, rings, set r | r in rings :: r.buf
      ensures Valid() && RingsMatch() && model == Enqueue(sinks, old(model), b)
    {
      EnqueueFields(sinks, model, b);
      var ok := EnqueueAt(k, rings[k], b);
      if ok {
        payload := payload + 1;
      } else {
        full := full + 1;
      }
      model := Enqueue(sinks, model, b);
    }

    /** Into ring `k`; the other rings are disjoint from it. */
    method EnqueueAt(k: nat, r: Ring, b: byte) returns (ok: bool)
      requires Valid() && k < |rings| && r == rings[k]
      modifies r`tail, r.buf
      ensures Valid() && (ok <==> |old(rings[k].Contents())| < RING_SIZE - 1)
      ensures rings[k].Contents() == if ok then old(rings[k].Contents()) + [b] else old(rings[k].Contents())
      ensures forall i :: 0 <= i < |rings| && i != k ==> rings[i].Contents() == old(rings[i].Contents())
    {
      ok := r.Enqueue(b);
      forall i | 0 <= i < |rings| && i != k
        ensures rings[i].Valid() && rings[i].Contents() == old(rings[i].Contents())
      {
        var lo, hi := if i < k then i else k, if i < k then k else i;
        assert rings[lo] != rings[hi] && rings[lo].buf != rings[hi].buf;
      }
    }

    method EmitReady()
      modifies this`delivered
      ensures delivered == old(delivered) + Counted(sinks, stream, 1)
    {
      var k := SinkFor(sinks, stream);
      if k >= 0 && sinks[k].hasEmit {
        delivered := delivered + 1;
      }
    }

    /** The second byte of an escape pair, except the escaped 0xfe. */
    method FeedCommand(b: byte)
      requires Valid() && RingsMatch() && esc && b != ESC
      modifies this, up`calls
      ensures Valid() && RingsMatch() && model == FeedDown(sinks, old(model), b)
      ensures up.calls == old(up.calls) + if model.acks > old(model.acks) then [Print(Acked)] else []
    {
      ghost var was := model;
      EndsFrame(sinks, was, b);
      esc := false;
      EmitReady();
      var next: int := -1;
      if b == DEFAULT {
        up.EmitAck(stream);
      } else if b != CONTROL {
        if SinkFor(sinks, b) >= 0 {
          next := b;
        } else {
          unknown := unknown + 1;
        }
      }
      stream := next;
      model := FeedDown(sinks, was, b);
    }

    /** `console_mux_feed_downlink_byte`. */
    method Feed(b: byte)
      requires Valid() && RingsMatch()
      modifies this, up`calls, rings, set r | r in rings :: r.buf
      ensures Valid() && RingsMatch() && model == FeedDown(sinks, old(model), b)
      ensures up.calls == old(up.calls) + if model.acks > old(model.acks) then [Print(Acked)] else []
    {
      if esc && b != ESC {
        FeedCommand(b);
      } else if esc {
        esc := false;
        model := model.(esc := false);
        if stream >= 0 {
          EnqueueByte(b);
        }
      } else if b == ESC {
        esc := true;
        model := model.(esc := true);
      } else if stream >= 0 {
        EnqueueByte(b);
      }
    }

    /** The consumer of ring `k` asks for a byte: the oldest one, or -1 when the ring is empty. */
    method Consume(k: nat) returns (b: int)
      requires Valid() && RingsMatch() && k < |rings|
      modifies this`model, rings
      ensures Valid() && RingsMatch() && model == Happen(sinks, old(model), Event.Consume(k))
      ensures b == if old(model.rings[k]) == [] then -1 else old(model.rings[k])[0]
    {
      b := -1;
      if rings[k].head != rings[k].tail {
        b := DequeueAt(k, rings[k]);
      }
      model := Happen(sinks, model, Event.Consume(k));
    }

    /** Out of ring `k`; the other rings are disjoint from it. */
    method DequeueAt(k: nat, r: Ring) returns (b: byte)
      requires Valid() && k < |rings| && r == rings[k] && r.Contents() != []
      modifies r`head
      ensures Valid() && old(rings[k].Contents()) == [b] + rings[k].Contents()
      ensures forall i :: 0 <= i < |rings| && i != k ==> rings[i].Contents() == old(rings[i].Contents())
    {
      b := r.Dequeue();
      forall i | 0 <= i < |rings| && i != k
        ensures rings[i].Valid() && rings[i].Contents() == old(rings[i].Contents())
      {
        var lo, hi := if i < k then i else k, if i < k then k else i;
        assert rings[lo] != rings[hi];
      }
    }
  }

  /** A byte for a usable sink: what becomes of the fields of the decoder. */
  lemma EnqueueFields(sinks: seq<Sink>, d: Down, b: byte)
    requires |d.rings| == |d.accepted| == |sinks| && Serves(sinks, d.stream)
    ensures var k := SinkFor(sinks, d.stream);
            var d1 := d.(offered := d.offered + [(d.stream, b)]);
            Enqueue(sinks, d, b) ==
            if |d.rings[k]| >= RING_SIZE - 1 then d1.(full := d.full + 1)
            else d1.(rings := d.rings[k := d.rings[k] + [b]], accepted := d.accepted[k := d.accepted[k] + [b]],
                     payload := d.payload + 1)
  {
  }

  /** An escape pair other than the escaped 0xfe: what becomes of the fields of the decoder. */
  lemma EndsFrame(sinks: seq<Sink>, d: Down, b: byte)
    requires d.esc && b != ESC
    ensures FeedDown(sinks, d, b) ==
            d.(esc := false, stream := Selected(sinks, d.stream, Pair(b)),
               delivered := d.delivered + Counted(sinks, d.stream, 1),
               unknown := d.unknown + (if b != DEFAULT && b != CONTROL && SinkFor(sinks, b) < 0 then 1 else 0),
               acks := d.acks + if b == DEFAULT && ValidId(d.stream) then 1 else 0)
  {
  }

  lemma {:induction false} NothingSummed(ss: seq<seq<byte>>)
    requires forall i :: 0 <= i < |ss| ==> ss[i] == []
    ensures Sum(ss) == 0
  {
    if ss != [] {
      NothingSummed(ss[1..]);
    }
  }

  /** An escape pair other than the escaped 0xfe, in terms of the sink table: the frame of the stream selected
      before it is counted if the first sink of that stream has an emit function, a default escape acknowledges
      a valid stream, and afterwards a stream is selected only if the byte names one with a sink. */
  lemma PairEffect(sinks: seq<Sink>, d: Down, b: byte)
    requires !d.esc && b != ESC
    ensures var e := FeedAll(sinks, d, [ESC, b]);
            var named := exists k :: 0 <= k < |sinks| && sinks[k].stream == b;
            && !e.esc && e.rings == d.rings && e.offered == d.offered
            && e.stream == (if b != DEFAULT && b != CONTROL && named then b else -1)
            && e.unknown == d.unknown + (if b != DEFAULT && b != CONTROL && !named then 1 else 0)
            && e.acks == d.acks + (if b == DEFAULT && ValidId(d.stream) then 1 else 0)
            && ((exists k :: FirstFor(sinks, d.stream, k) && sinks[k].hasEmit) ==> e.delivered == d.delivered + 1)
            && (!(exists k :: FirstFor(sinks, d.stream, k) && sinks[k].hasEmit) ==> e.delivered == d.delivered)
  {
    FeedTwo(sinks, d, ESC, b);
    EndsFrame(sinks, d.(esc := true), b);
    var k := SinkFor(sinks, d.stream);
    if k >= 0 {
      assert FirstFor(sinks, d.stream, k);
    }
  }

  /** Entry `k` is the first one of its stream. */
  predicate FirstFor(sinks: seq<Sink>, stream: int, k: int) {
    0 <= k < |sinks| && sinks[k].stream == stream && forall j :: 0 <= j < k ==> sinks[j].stream != stream
  }

  // ---------------------------------------------------------------- interleaving with the consumers

  /** A UART byte arrives, or the consumer of ring `k` takes a byte. */
  datatype Event = Arrive(b: byte) | Consume(k: nat)

  function Happen(sinks: seq<Sink>, d: Down, e: Event): Down {
    match e
    case Arrive(b) => FeedDown(sinks, d, b)
    case Consume(k) =>
      if k < |d.rings| && k < |d.taken| && d.rings[k] != [] then
        d.(rings := d.rings[k := d.rings[k][1..]], taken := d.taken[k := d.taken[k] + [d.rings[k][0]]])
      else d
  }

  function HappenAll(sinks: seq<Sink>, d: Down, es: seq<Event>): Down
    decreases es
  {
    if es == [] then d else HappenAll(sinks, Happen(sinks, d, es[0]), es[1..])
  }

  function Arrived(es: seq<Event>): seq<byte> {
    if es == [] then [] else (if es[0].Arrive? then [es[0].b] else []) + Arrived(es[1..])
  }

  /** How many offers go to a stream without a usable sink. */
  function Unserved(sinks: seq<Sink>, offers: seq<(int, byte)>): nat {
    if offers == [] then 0
    else Unserved(sinks, offers[..|offers| - 1]) + if Serves(sinks, offers[|offers| - 1].0) then 0 else 1
  }

  predicate Serves(sinks: seq<Sink>, stream: int) {
    SinkFor(sinks, stream) >= 0 && Usable(sinks[SinkFor(sinks, stream)])
  }

  /** Nothing is lost or reordered in a ring, no ring ever holds more than 4087 bytes, every offered byte is
      counted exactly once, and the missing ones are those of streams without a usable sink. */
  ghost predicate Conserved(sinks: seq<Sink>, d: Down) {
    && |d.rings| == |d.accepted| == |d.taken| == |sinks|
    && (forall k :: 0 <= k < |d.rings| ==> d.taken[k] + d.rings[k] == d.accepted[k] && |d.rings[k]| <= RING_SIZE - 1)
    && d.payload + d.missing + d.full == |d.offered|
    && d.payload == Sum(d.accepted) && d.missing == Unserved(sinks, d.offered)
  }

  function Sum(ss: seq<seq<byte>>): nat {
    if ss == [] then 0 else |ss[0]| + Sum(ss[1..])
  }

  lemma {:induction false} SumUpdate(ss: seq<seq<byte>>, k: nat, b: byte)
    requires k < |ss|
    ensures Sum(ss[k := ss[k] + [b]]) == Sum(ss) + 1
  {
    if k == 0 {
      assert ss[0 := ss[0] + [b]][1..] == ss[1..];
    } else {
      SumUpdate(ss[1..], k - 1, b);
      assert ss[k := ss[k] + [b]][1..] == ss[1..][k - 1 := ss[k] + [b]];
    }
  }

  lemma EnqueueConserves(sinks: seq<Sink>, d: Down, b: byte)
    requires Conserved(sinks, d)
    ensures Conserved(sinks, Enqueue(sinks, d, b))
  {
    assert (d.offered + [(d.stream, b)])[..|d.offered|] == d.offered;
    if Serves(sinks, d.stream) {
      var k := SinkFor(sinks, d.stream);
      EnqueueFields(sinks, d, b);
      SumUpdate(d.accepted, k, b);
      assert d.taken[k] + (d.rings[k] + [b]) == d.accepted[k] + [b];
    }
  }

  /** The decoder's own state plays no part. */
  lemma DecoderIrrelevant(sinks: seq<Sink>, d: Down, e: Down)
    requires Conserved(sinks, d)
    requires d == e.(stream := d.stream, delivered := d.delivered, acks := d.acks, unknown := d.unknown)
    ensures Conserved(sinks, e)
  {
  }

  lemma CommandConserves(sinks: seq<Sink>, d: Down, b: byte)
    requires Conserved(sinks, d)
    ensures Conserved(sinks, Command(sinks, d, b))
  {
    if b == ESC {
      EnqueueConserves(sinks, d, b);
    } else {
      DecoderIrrelevant(sinks, d, Command(sinks, d, b));
    }
  }

  lemma ArriveConserves(sinks: seq<Sink>, d: Down, b: byte)
    requires Conserved(sinks, d)
    ensures Conserved(sinks, FeedDown(sinks, d, b))
  {
    if d.esc {
      CommandConserves(sinks, d.(esc := false), b);
    } else {
      EnqueueConserves(sinks, d, b);
    }
  }

  lemma ConsumeConserves(sinks: seq<Sink>, d: Down, k: nat)
    requires Conserved(sinks, d)
    ensures Conserved(sinks, Happen(sinks, d, Consume(k)))
  {
    if k < |d.rings| && d.rings[k] != [] {
      var r := d.rings[k];
      assert d.taken[k] + [r[0]] + r[1..] == d.taken[k] + r;
    }
  }

  lemma {:induction false} RunConserves(sinks: seq<Sink>, d: Down, es: seq<Event>)
    requires Conserved(sinks, d)
    ensures Conserved(sinks, HappenAll(sinks, d, es))
    decreases es
  {
    if es != [] {
      match es[0] {
        case Arrive(b) => ArriveConserves(sinks, d, b);
        case Consume(k) => ConsumeConserves(sinks, d, k);
      }
      RunConserves(sinks, Happen(sinks, d, es[0]), es[1..]);
    }
  }

  /** What the consumers cannot influence. */
  ghost predicate SameDecoding(d: Down, e: Down) {
    && d.stream == e.stream && d.esc == e.esc && d.offered == e.offered
    && d.delivered == e.delivered && d.acks == e.acks && d.unknown == e.unknown
  }

  lemma SameEnqueue(sinks: seq<Sink>, d: Down, e: Down, b: byte)
    requires SameDecoding(d, e)
    ensures SameDecoding(Enqueue(sinks, d, b), Enqueue(sinks, e, b))
  {
  }

  lemma SameCommand(sinks: seq<Sink>, d: Down, e: Down, b: byte)
    requires SameDecoding(d, e)
    ensures SameDecoding(Command(sinks, d, b), Command(sinks, e, b))
  {
    SameEnqueue(sinks, d, e, b);
  }

  lemma SameStep(sinks: seq<Sink>, d: Down, e: Down, ev: Event)
    requires SameDecoding(d, e)
    ensures SameDecoding(Happen(sinks, d, ev), if ev.Arrive? then FeedDown(sinks, e, ev.b) else e)
  {
    if ev.Arrive? {
      SameEnqueue(sinks, d, e, ev.b);
      SameCommand(sinks, d.(esc := false), e.(esc := false), ev.b);
    }
  }

  /** Whenever the consumers take their bytes, the decoder does the same. */
  lemma {:induction false} ConsumersInvisible(sinks: seq<Sink>, d: Down, e: Down, es: seq<Event>)
    requires SameDecoding(d, e)
    ensures SameDecoding(HappenAll(sinks, d, es), FeedAll(sinks, e, Arrived(es)))
    decreases es
  {
    if es != [] {
      SameStep(sinks, d, e, es[0]);
      if es[0].Arrive? {
        assert Arrived(es)[1..] == Arrived(es[1..]);
        ConsumersInvisible(sinks, Happen(sinks, d, es[0]), FeedDown(sinks, e, es[0].b), es[1..]);
      } else {
        assert [] + Arrived(es[1..]) == Arrived(es[1..]);
        ConsumersInvisible(sinks, Happen(sinks, d, es[0]), e, es[1..]);
      }
    }
  }

  // ---------------------------------------------------------------- what the downlink bytes mean

  /** The units of the downlink: a byte with an escape in front of it, or a byte alone. */
  datatype Unit = Pair(b: byte) | Lone(b: byte)

  /** The complete units of `bs`, read from behind an escape or not. */
  function Units(esc: bool, bs: seq<byte>): seq<Unit>
    decreases bs
  {
    if bs == [] then []
    else if esc then [Pair(bs[0])] + Units(false, bs[1..])
    else if bs[0] == ESC then Units(true, bs[1..])
    else [Lone(bs[0])] + Units(false, bs[1..])
  }

  /** The payload byte a unit stands for, if it is one. */
  function Literal(u: Unit): seq<byte> {
    if u.Lone? || u.b == ESC then [u.b] else []
  }

  /** Every escaped byte but 0xfe ends the frame of the stream selected before it. */
  predicate Ends(u: Unit) {
    u.Pair? && u.b != ESC
  }

  /** The stream selected behind a unit; -1 is none. */
  function Selected(sinks: seq<Sink>, stream: int, u: Unit): int {
    if !Ends(u) then stream
    else if u.b == DEFAULT || u.b == CONTROL || SinkFor(sinks, u.b) < 0 then -1 else u.b
  }

  function SelectedAfter(sinks: seq<Sink>, stream: int, us: seq<Unit>): int
    decreases us
  {
    if us == [] then stream else SelectedAfter(sinks, Selected(sinks, stream, us[0]), us[1..])
  }

  /** The payload bytes among the units, with the stream selected at each. */
  function Payload(sinks: seq<Sink>, stream: int, us: seq<Unit>): seq<(int, byte)>
    decreases us
  {
    if us == [] then [] else
    (if stream >= 0 then Offers(stream, Literal(us[0])) else []) +
    Payload(sinks, Selected(sinks, stream, us[0]), us[1..])
  }

  /** The frames the units end whose sink has an emit function. */
  function Finished(sinks: seq<Sink>, stream: int, us: seq<Unit>): nat
    decreases us
  {
    if us == [] then 0 else
    (if Ends(us[0]) then Counted(sinks, stream, 1) else 0) + Finished(sinks, Selected(sinks, stream, us[0]), us[1..])
  }

  /** The frames the units close with the default escape while a valid stream is selected. */
  function Closed(sinks: seq<Sink>, stream: int, us: seq<Unit>): nat
    decreases us
  {
    if us == [] then 0 else
    (if us[0] == Pair(DEFAULT) && ValidId(stream) then 1 else 0) +
    Closed(sinks, Selected(sinks, stream, us[0]), us[1..])
  }

  /** `e` is `d` after the units, as far as the decoder is concerned. */
  ghost predicate Means(sinks: seq<Sink>, d: Down, e: Down, us: seq<Unit>) {
    && e.stream == SelectedAfter(sinks, d.stream, us)
    && e.offered == d.offered + Payload(sinks, d.stream, us)
    && e.delivered == d.delivered + Finished(sinks, d.stream, us)
    && e.acks == d.acks + Closed(sinks, d.stream, us)
  }

  lemma UnitMeans(sinks: seq<Sink>, d: Down, u: Unit, e: Down)
    requires u.Pair? ==> e == Command(sinks, d, u.b)
    requires u.Lone? ==> e == if d.stream >= 0 then Enqueue(sinks, d, u.b) else d
    ensures e.stream == Selected(sinks, d.stream, u)
    ensures e.offered == d.offered + if d.stream >= 0 then Offers(d.stream, Literal(u)) else []
    ensures e.delivered == d.delivered + if Ends(u) then Counted(sinks, d.stream, 1) else 0
    ensures e.acks == d.acks + if u == Pair(DEFAULT) && ValidId(d.stream) then 1 else 0
  {
  }

  lemma MeansCons(sinks: seq<Sink>, d: Down, u: Unit, d1: Down, e: Down, us: seq<Unit>)
    requires d1.stream == Selected(sinks, d.stream, u)
    requires d1.offered == d.offered + if d.stream >= 0 then Offers(d.stream, Literal(u)) else []
    requires d1.delivered == d.delivered + if Ends(u) then Counted(sinks, d.stream, 1) else 0
    requires d1.acks == d.acks + if u == Pair(DEFAULT) && ValidId(d.stream) then 1 else 0
    requires Means(sinks, d1, e, us)
    ensures Means(sinks, d, e, [u] + us)
  {
    assert ([u] + us)[1..] == us;
  }

  /** The meaning of the target decoder, on every byte sequence: what it offers, counts and acknowledges are
      the payload, the ends and the closes of the complete units in the bytes. */
  lemma {:induction false} EveryDownlinkByte(sinks: seq<Sink>, d: Down, bs: seq<byte>)
    ensures Means(sinks, d, FeedAll(sinks, d, bs), Units(d.esc, bs))
    decreases bs
  {
    if bs == [] {
      assert d.offered + [] == d.offered;
    } else {
      var b, rest := bs[0], bs[1..];
      var d1 := FeedDown(sinks, d, b);
      EveryDownlinkByte(sinks, d1, rest);
      if d.esc || b != ESC {
        var u := if d.esc then Pair(b) else Lone(b);
        UnitMeans(sinks, d.(esc := false), u, d1);
        MeansCons(sinks, d, u, d1, FeedAll(sinks, d1, rest), Units(false, rest));
      }
    }
  }

  /** Conservation over every interleaving of arriving bytes and consumers, whatever the bytes: per ring,
      what was taken followed by what is queued is what was accepted, at most 4087 bytes are queued, and the
      three counters together grow by the payload bytes the arriving units carry for a selected stream. */
  lemma EveryRunConserves(sinks: seq<Sink>, d: Down, es: seq<Event>)
    requires Conserved(sinks, d)
    ensures var e := HappenAll(sinks, d, es);
            var us := Units(d.esc, Arrived(es));
            && Conserved(sinks, e) && Means(sinks, d, e, us)
            && e.payload + e.missing + e.full == d.payload + d.missing + d.full + |Payload(sinks, d.stream, us)|
            && e.missing == Unserved(sinks, d.offered + Payload(sinks, d.stream, us))
  {
    RunConserves(sinks, d, es);
    ConsumersInvisible(sinks, d, d, es);
    EveryDownlinkByte(sinks, d, Arrived(es));
  }

  // ---------------------------------------------------------------- delivery of host writes

  function Offers(stream: int, bs: seq<byte>): seq<(int, byte)> {
    seq(|bs|, i requires 0 <= i < |bs| => (stream, bs[i]))
  }

  lemma {:induction false} PayloadOffered(sinks: seq<Sink>, d: Down, bs: seq<byte>)
    requires d.stream >= 0 && !d.esc
    ensures SameDecoding(FeedAll(sinks, d, Stuffed(bs)), d.(offered := d.offered + Offers(d.stream, bs)))
    decreases |bs|
  {
    if bs == [] {
      assert d.offered + Offers(d.stream, []) == d.offered;
    } else {
      var init, b := bs[..|bs| - 1], bs[|bs| - 1];
      PayloadOffered(sinks, d, init);
      var e := FeedAll(sinks, d, Stuffed(init));
      var last := if b == ESC then [ESC, ESC] else [b];
      FeedConcat(sinks, d, Stuffed(init), last);
      if b == ESC {
        FeedTwo(sinks, e, ESC, ESC);
      } else {
        FeedOne(sinks, e, b);
      }
      assert d.offered + Offers(d.stream, bs) == d.offered + Offers(d.stream, init) + [(d.stream, b)];
    }
  }

  lemma FeedOne(sinks: seq<Sink>, d: Down, a: byte)
    ensures FeedAll(sinks, d, [a]) == FeedDown(sinks, d, a)
  {
    assert [a][1..] == [];
  }

  lemma FeedTwo(sinks: seq<Sink>, d: Down, a: byte, b: byte)
    ensures FeedAll(sinks, d, [a, b]) == FeedDown(sinks, FeedDown(sinks, d, a), b)
  {
    assert [a, b][1..] == [b];
    FeedOne(sinks, FeedDown(sinks, d, a), b);
  }

  /** Of `n` frames for a stream the target counts all or none as delivered: its sink must have an emit function. */
  function Counted(sinks: seq<Sink>, stream: int, n: nat): nat {
    var k := SinkFor(sinks, stream);
    if k >= 0 && sinks[k].hasEmit then n else 0
  }

  /** A frame for the stream is selected by the target. */
  predicate Selects(sinks: seq<Sink>, id: byte) {
    id != DEFAULT && SinkFor(sinks, id) >= 0
  }

  /** What `n` frames add to the delivered count. Every escape pair counts for the stream selected before it, so
      a sink registered for stream -1, which stands for none, is counted as well. */
  function CountedFrames(sinks: seq<Sink>, id: byte, n: nat): nat {
    Counted(sinks, -1, n) + if Selects(sinks, id) then Counted(sinks, id, n) else Counted(sinks, -1, n)
  }

  /** `e` is `d` after `data` arrived in `n` frames, as far as the decoder is concerned. A stream without a
      sink drops its frames, and each is counted as unknown. */
  ghost predicate Took(sinks: seq<Sink>, d: Down, e: Down, id: byte, data: seq<byte>, n: nat) {
    var d1 := d.(delivered := d.delivered + CountedFrames(sinks, id, n));
    if Selects(sinks, id) then SameDecoding(e, d1.(offered := d.offered + Offers(id, data), acks := d.acks + n))
    else SameDecoding(e, d1.(unknown := d.unknown + if id == DEFAULT then 0 else n))
  }

  lemma {:induction false} PayloadDropped(sinks: seq<Sink>, d: Down, bs: seq<byte>)
    requires d.stream == -1 && !d.esc
    ensures FeedAll(sinks, d, Stuffed(bs)) == d
    decreases |bs|
  {
    if bs != [] {
      var init, b := bs[..|bs| - 1], bs[|bs| - 1];
      PayloadDropped(sinks, d, init);
      var last := if b == ESC then [ESC, ESC] else [b];
      FeedConcat(sinks, d, Stuffed(init), last);
      if b == ESC {
        FeedTwo(sinks, d, ESC, ESC);
      } else {
        FeedOne(sinks, d, b);
      }
    }
  }

  /** One frame: its payload is offered to the stream's sink and one acknowledgement is sent, or it is dropped. */
  lemma FrameDelivered(sinks: seq<Sink>, d: Down, id: byte, bs: seq<byte>)
    requires d.stream == -1 && !d.esc && FrameId(id)
    ensures Took(sinks, d, FeedAll(sinks, d, DataFrame(id, bs)), id, bs, 1)
  {
    var d1 := FeedDown(sinks, FeedDown(sinks, d, ESC), id);
    FeedConcat(sinks, d, [ESC, id] + Stuffed(bs), [ESC, DEFAULT]);
    FeedConcat(sinks, d, [ESC, id], Stuffed(bs));
    FeedTwo(sinks, d, ESC, id);
    FeedTwo(sinks, FeedAll(sinks, d1, Stuffed(bs)), ESC, DEFAULT);
    if Selects(sinks, id) {
      PayloadOffered(sinks, d1, bs);
    } else {
      PayloadDropped(sinks, d1, bs);
    }
  }

  /** The number of frames a write of `n` bytes is cut into. */
  function Frames(n: nat): nat {
    (n + FRAGMENT - 1) / FRAGMENT
  }

  lemma TookBoth(sinks: seq<Sink>, d: Down, d1: Down, e: Down, id: byte, data: seq<byte>, cut: nat, n: nat)
    requires cut <= |data| && Took(sinks, d, d1, id, data[..cut], 1) && Took(sinks, d1, e, id, data[cut..], n)
    ensures Took(sinks, d, e, id, data, n + 1)
  {
    assert d.offered + Offers(id, data) == d.offered + Offers(id, data[..cut]) + Offers(id, data[cut..]);
  }

  /** The turns of the write loop. */
  function Turns(data: seq<byte>): nat
    decreases |data|
  {
    if data == [] then 0 else 1 + Turns(data[|Head(data)|..])
  }

  lemma {:induction false} TurnsExact(data: seq<byte>)
    ensures Turns(data) == Frames(|data|)
    decreases |data|
  {
    if data != [] {
      TurnsExact(data[|Head(data)|..]);
      FramesStep(|data|);
    }
  }

  lemma {:induction false} WriteDelivered(sinks: seq<Sink>, d: Down, id: byte, data: seq<byte>)
    requires d.stream == -1 && !d.esc && FrameId(id)
    ensures Took(sinks, d, FeedAll(sinks, d, Written(Raw, id, data)), id, data, Turns(data))
    decreases |data|
  {
    if data == [] {
      assert d.offered + Offers(id, []) == d.offered;
    } else {
      var cut := |Head(data)|;
      var rest := data[cut..];
      WrittenHead(Raw, id, data);
      assert Head(data) == data[..cut];
      FeedConcat(sinks, d, DataFrame(id, data[..cut]), Written(Raw, id, rest));
      FrameDelivered(sinks, d, id, data[..cut]);
      var d1 := FeedAll(sinks, d, DataFrame(id, data[..cut]));
      WriteDelivered(sinks, d1, id, rest);
      TookBoth(sinks, d, d1, FeedAll(sinks, d1, Written(Raw, id, rest)), id, data, cut, Turns(rest));
    }
  }

  lemma FramesStep(n: nat)
    requires n > 0
    ensures Frames(n) == 1 + Frames(if n <= FRAGMENT then 0 else n - FRAGMENT)
  {
  }

  /** One write of the host to a stream; 0 is the tag value of a built-in PTY. */
  datatype HostWrite = HostWrite(id: byte, data: seq<byte>)

  predicate WritesOk(ws: seq<HostWrite>) {
    forall w :: w in ws ==> FrameId(w.id)
  }

  /** The bytes of all writes in raw mode. */
  function AllWritten(ws: seq<HostWrite>): seq<byte> {
    if ws == [] then [] else AllWritten(ws[..|ws| - 1]) + Written(Raw, ws[|ws| - 1].id, ws[|ws| - 1].data)
  }

  /** What the writes offer to the sinks. */
  function OffersOf(sinks: seq<Sink>, ws: seq<HostWrite>): seq<(int, byte)> {
    if ws == [] then [] else
    var w := ws[|ws| - 1];
    OffersOf(sinks, ws[..|ws| - 1]) + if Selects(sinks, w.id) then Offers(w.id, w.data) else []
  }

  /** The writes to the streams of sink `k`, joined in order. */
  function DataFor(sinks: seq<Sink>, k: nat, ws: seq<HostWrite>): seq<byte> {
    if ws == [] then [] else
    var w := ws[|ws| - 1];
    DataFor(sinks, k, ws[..|ws| - 1]) + if w.id != DEFAULT && SinkFor(sinks, w.id) == k then w.data else []
  }

  /** The frames the writes are acknowledged for. */
  function AckedFor(sinks: seq<Sink>, ws: seq<HostWrite>): nat {
    if ws == [] then 0 else
    var w := ws[|ws| - 1];
    AckedFor(sinks, ws[..|ws| - 1]) + if Selects(sinks, w.id) then Frames(|w.data|) else 0
  }

  /** The frames the writes are counted as delivered for. */
  function CountedFor(sinks: seq<Sink>, ws: seq<HostWrite>): nat {
    if ws == [] then 0 else
    var w := ws[|ws| - 1];
    CountedFor(sinks, ws[..|ws| - 1]) + CountedFrames(sinks, w.id, Frames(|w.data|))
  }

  ghost predicate TookAll(sinks: seq<Sink>, d: Down, e: Down, ws: seq<HostWrite>) {
    && e.stream == -1 && !e.esc && e.offered == d.offered + OffersOf(sinks, ws)
    && e.delivered == d.delivered + CountedFor(sinks, ws) && e.acks == d.acks + AckedFor(sinks, ws)
  }

  lemma TookSnoc(sinks: seq<Sink>, d: Down, d1: Down, e: Down, prior: seq<HostWrite>, w: HostWrite, n: nat)
    requires TookAll(sinks, d, d1, prior) && Took(sinks, d1, e, w.id, w.data, n) && n == Frames(|w.data|)
    ensures TookAll(sinks, d, e, prior + [w])
  {
    assert (prior + [w])[..|prior|] == prior;
    if Selects(sinks, w.id) {
      assert d.offered + OffersOf(sinks, prior) + Offers(w.id, w.data) ==
          d.offered + (OffersOf(sinks, prior) + Offers(w.id, w.data));
    } else {
      assert OffersOf(sinks, prior) + [] == OffersOf(sinks, prior);
    }
  }

  lemma {:induction false} WritesDelivered(sinks: seq<Sink>, d: Down, ws: seq<HostWrite>)
    requires d.stream == -1 && !d.esc && WritesOk(ws)
    ensures TookAll(sinks, d, FeedAll(sinks, d, AllWritten(ws)), ws)
  {
    if ws == [] {
      assert d.offered + [] == d.offered;
    } else {
      var prior, w := ws[..|ws| - 1], ws[|ws| - 1];
      assert w in ws;
      WritesDelivered(sinks, d, prior);
      var d1 := FeedAll(sinks, d, AllWritten(prior));
      FeedConcat(sinks, d, AllWritten(prior), Written(Raw, w.id, w.data));
      WriteDelivered(sinks, d1, w.id, w.data);
      TurnsExact(w.data);
      TookSnoc(sinks, d, d1, FeedAll(sinks, d1, Written(Raw, w.id, w.data)), prior, w, Frames(|w.data|));
      assert prior + [w] == ws;
    }
  }

  /** The acknowledgements of `n` frames, on any wire, raise the host's count by `n`; beyond that only their
      copy in raw_ccplex shows. */
  lemma AcksReachHost(m: Mode, l: Link, wire: seq<byte>, n: nat)
    requires AtBoundary(l.host) && HostOk(l.host) && l.host.live && Brings(m, l, wire, PrintAll(Acks(n)))
    ensures LinkRun(m, l, wire).host == AddRaw(AddAcks(l.host, n), RawCopy(m, PrintAll(Acks(n))))
  {
    TokensRefined(l.host, Acks(n));
    DropAll(n);
    OnlyRegistryStops(l.host, Acks(n));
    AcksTransparent(l.host, Acks(n));
    LinkBrings(m, l, wire, PrintAll(Acks(n)));
  }

  /** Downlink delivery: whatever the consumers do meanwhile, any list of raw-mode host writes to any streams
      offers each sink the in-order concatenation of the writes to its stream, and it all enters the ring if
      the ring has the room; the writes are counted as ceil(n / 512) delivered frames per write to a sink
      with an emit function, and acknowledged that many times per write to a sink; the acknowledgements
      raise the host's count by the same number. */
  lemma DownlinkDelivery(sinks: seq<Sink>, d: Down, ws: seq<HostWrite>, es: seq<Event>, m: Mode, l: Link,
                         wire: seq<byte>)
    requires Conserved(sinks, d) && d.stream == -1 && !d.esc && WritesOk(ws)
    requires Arrived(es) == AllWritten(ws)
    requires AtBoundary(l.host) && HostOk(l.host) && l.host.live
    requires Brings(m, l, wire, PrintAll(Acks(AckedFor(sinks, ws))))
    ensures TookAll(sinks, d, HappenAll(sinks, d, es), ws)
    ensures forall k :: 0 <= k < |sinks| ==>
              For(sinks, k, HappenAll(sinks, d, es).offered) == For(sinks, k, d.offered) + DataFor(sinks, k, ws)
    ensures forall k ::
              0 <= k < |sinks| && Usable(sinks[k]) && |d.rings[k]| + |DataFor(sinks, k, ws)| <= RING_SIZE - 1 ==>
                EntersRing(sinks, d, es, k, DataFor(sinks, k, ws))
    ensures var n := AckedFor(sinks, ws);
            LinkRun(m, l, wire).host == AddRaw(AddAcks(l.host, n), RawCopy(m, PrintAll(Acks(n))))
  {
    TargetTakes(sinks, d, ws, es);
    EachSinkGets(sinks, d.offered, ws);
    forall k | 0 <= k < |sinks| && Usable(sinks[k]) && |d.rings[k]| + |DataFor(sinks, k, ws)| <= RING_SIZE - 1
      ensures EntersRing(sinks, d, es, k, DataFor(sinks, k, ws))
    {
      DueIs(sinks, d, es, k, DataFor(sinks, k, ws));
      NoLoss(sinks, d, es, k);
    }
    AcksReachHost(m, l, wire, AckedFor(sinks, ws));
  }

  lemma TargetTakes(sinks: seq<Sink>, d: Down, ws: seq<HostWrite>, es: seq<Event>)
    requires d.stream == -1 && !d.esc && WritesOk(ws) && Arrived(es) == AllWritten(ws)
    ensures TookAll(sinks, d, HappenAll(sinks, d, es), ws)
  {
    ConsumersInvisible(sinks, d, d, es);
    WritesDelivered(sinks, d, ws);
  }

  lemma EachSinkGets(sinks: seq<Sink>, before: seq<(int, byte)>, ws: seq<HostWrite>)
    ensures forall k :: 0 <= k < |sinks| ==>
              For(sinks, k, before + OffersOf(sinks, ws)) == For(sinks, k, before) + DataFor(sinks, k, ws)
  {
    forall k | 0 <= k < |sinks|
      ensures For(sinks, k, before + OffersOf(sinks, ws)) == For(sinks, k, before) + DataFor(sinks, k, ws)
    {
      ForConcat(sinks, k, before, OffersOf(sinks, ws));
      ForWrites(sinks, k, ws);
    }
  }

  /** The bytes among `offers` whose stream is served by sink `k`. */
  function For(sinks: seq<Sink>, k: int, offers: seq<(int, byte)>): seq<byte> {
    if offers == [] then []
    else For(sinks, k, offers[..|offers| - 1]) +
         if SinkFor(sinks, offers[|offers| - 1].0) == k then [offers[|offers| - 1].1] else []
  }

  lemma {:induction false} ForConcat(sinks: seq<Sink>, k: int, a: seq<(int, byte)>, b: seq<(int, byte)>)
    ensures For(sinks, k, a + b) == For(sinks, k, a) + For(sinks, k, b)
    decreases |b|
  {
    if b == [] {
      assert a + b == a;
    } else {
      assert (a + b)[..|a + b| - 1] == a + b[..|b| - 1];
      ForConcat(sinks, k, a, b[..|b| - 1]);
    }
  }

  lemma {:induction false} ForOffers(sinks: seq<Sink>, k: int, stream: int, bs: seq<byte>)
    ensures For(sinks, k, Offers(stream, bs)) == if SinkFor(sinks, stream) == k then bs else []
  {
    if bs != [] {
      var init := bs[..|bs| - 1];
      ForOffers(sinks, k, stream, init);
      assert Offers(stream, bs)[..|bs| - 1] == Offers(stream, init);
      assert bs == init + [bs[|bs| - 1]];
    }
  }

  lemma {:induction false} ForWrites(sinks: seq<Sink>, k: nat, ws: seq<HostWrite>)
    ensures For(sinks, k, OffersOf(sinks, ws)) == DataFor(sinks, k, ws)
  {
    if ws != [] {
      var prior, w := ws[..|ws| - 1], ws[|ws| - 1];
      ForWrites(sinks, k, prior);
      ForConcat(sinks, k, OffersOf(sinks, prior), if Selects(sinks, w.id) then Offers(w.id, w.data) else []);
      ForOffers(sinks, k, w.id, w.data);
    }
  }

  // ---------------------------------------------------------------- what enters a ring

  /** The payload bytes that the arriving units carry for the streams of sink `k`. */
  function Due(sinks: seq<Sink>, d: Down, es: seq<Event>, k: int): seq<byte> {
    For(sinks, k, Payload(sinks, d.stream, Units(d.esc, Arrived(es))))
  }

  /** Over the events, ring `k` takes in exactly `bs`. */
  ghost predicate EntersRing(sinks: seq<Sink>, d: Down, es: seq<Event>, k: nat, bs: seq<byte>) {
    var e := HappenAll(sinks, d, es);
    k < |d.accepted| && k < |e.accepted| && e.accepted[k] == d.accepted[k] + bs
  }

  predicate NeverConsumed(es: seq<Event>, k: nat) {
    forall e :: e in es ==> e != Consume(k)
  }

  /** What the bytes due are, told from the offers. */
  lemma DueIs(sinks: seq<Sink>, d: Down, es: seq<Event>, k: int, bs: seq<byte>)
    requires For(sinks, k, HappenAll(sinks, d, es).offered) == For(sinks, k, d.offered) + bs
    ensures Due(sinks, d, es, k) == bs
  {
    ConsumersInvisible(sinks, d, d, es);
    EveryDownlinkByte(sinks, d, Arrived(es));
    ForConcat(sinks, k, d.offered, Payload(sinks, d.stream, Units(d.esc, Arrived(es))));
    SameTail(For(sinks, k, d.offered), Due(sinks, d, es, k), bs);
  }

  lemma SameTail(a: seq<byte>, x: seq<byte>, y: seq<byte>)
    requires a + x == a + y
    ensures x == y
  {
    assert (a + x)[|a|..] == x && (a + y)[|a|..] == y;
  }

  lemma DueOffered(sinks: seq<Sink>, d: Down, es: seq<Event>, k: int)
    ensures For(sinks, k, HappenAll(sinks, d, es).offered) == For(sinks, k, d.offered) + Due(sinks, d, es, k)
  {
    ConsumersInvisible(sinks, d, d, es);
    EveryDownlinkByte(sinks, d, Arrived(es));
    ForConcat(sinks, k, d.offered, Payload(sinks, d.stream, Units(d.esc, Arrived(es))));
  }

  /** One byte more for ring `k`, or none: it enters the ring exactly if there is room. */
  ghost predicate RingStep(sinks: seq<Sink>, d: Down, e: Down, k: nat, x: seq<byte>, consumed: bool)
    requires k < |d.rings| && k < |d.accepted|
  {
    && k < |e.rings| && k < |e.accepted| && |x| <= 1
    && For(sinks, k, e.offered) == For(sinks, k, d.offered) + x
    && var y := if |d.rings[k]| < RING_SIZE - 1 then x else [];
       && e.accepted[k] == d.accepted[k] + y && |e.rings[k]| <= |d.rings[k]| + |y|
       && (!consumed ==> e.rings[k] == d.rings[k] + y)
  }

  lemma EnqueueAtRing(sinks: seq<Sink>, d: Down, b: byte, k: nat)
    requires k < |sinks| && Usable(sinks[k]) && |d.rings| == |d.accepted| == |sinks|
    ensures RingStep(sinks, d, Enqueue(sinks, d, b), k, if SinkFor(sinks, d.stream) == k then [b] else [], false)
  {
    ForSnoc(sinks, k, d.offered, d.stream, b);
    if SinkFor(sinks, d.stream) == k {
      EnqueueFields(sinks, d, b);
    } else {
      EnqueueElsewhere(sinks, d, b, k);
      assert d.accepted[k] + [] == d.accepted[k] && d.rings[k] + [] == d.rings[k];
    }
  }

  lemma EnqueueElsewhere(sinks: seq<Sink>, d: Down, b: byte, k: nat)
    requires k < |sinks| && |d.rings| == |d.accepted| == |sinks| && SinkFor(sinks, d.stream) != k
    ensures var e := Enqueue(sinks, d, b);
            && |e.rings| == |e.accepted| == |sinks| && e.rings[k] == d.rings[k] && e.accepted[k] == d.accepted[k]
            && e.offered == d.offered + [(d.stream, b)]
  {
  }

  lemma ForSnoc(sinks: seq<Sink>, k: int, offers: seq<(int, byte)>, stream: int, b: byte)
    ensures For(sinks, k, offers + [(stream, b)]) ==
              For(sinks, k, offers) + if SinkFor(sinks, stream) == k then [b] else []
  {
    assert (offers + [(stream, b)])[..|offers|] == offers;
  }

  lemma NothingAtRing(sinks: seq<Sink>, d: Down, e: Down, k: nat)
    requires k < |d.rings| && k < |d.accepted| && e.rings == d.rings && e.accepted == d.accepted
    requires e.offered == d.offered
    ensures RingStep(sinks, d, e, k, [], false)
  {
  }

  /** The byte an event brings for ring `k`. */
  function Brought(sinks: seq<Sink>, d: Down, e: Event, k: nat): seq<byte> {
    if e.Arrive? && (d.esc <==> e.b == ESC) && d.stream >= 0 && SinkFor(sinks, d.stream) == k then [e.b] else []
  }

  lemma EventAtRing(sinks: seq<Sink>, d: Down, e: Event, k: nat)
    requires k < |sinks| && Usable(sinks[k]) && |d.rings| == |d.accepted| == |d.taken| == |sinks|
    ensures var d1 := Happen(sinks, d, e);
            |d1.rings| == |d1.accepted| == |d1.taken| == |sinks| &&
            RingStep(sinks, d, d1, k, Brought(sinks, d, e, k), e == Consume(k))
  {
    if e.Consume? {
      ConsumeAtRing(sinks, d, e.k, k);
    } else if (d.esc <==> e.b == ESC) && d.stream >= 0 {
      EnqueueAtRing(sinks, d.(esc := false), e.b, k);
    } else {
      NothingAtRing(sinks, d, Happen(sinks, d, e), k);
    }
  }

  lemma ConsumeAtRing(sinks: seq<Sink>, d: Down, from: nat, k: nat)
    requires k < |sinks| && |d.rings| == |d.accepted| == |d.taken| == |sinks|
    ensures var d1 := Happen(sinks, d, Consume(from));
            |d1.rings| == |d1.accepted| == |d1.taken| == |sinks| && RingStep(sinks, d, d1, k, [], from == k)
  {
    assert For(sinks, k, d.offered) + [] == For(sinks, k, d.offered) && d.accepted[k] + [] == d.accepted[k];
    assert d.rings[k] + [] == d.rings[k];
  }

  /** The bytes due, first event first. */
  lemma DueCons(sinks: seq<Sink>, d: Down, es: seq<Event>, k: nat)
    requires es != [] && k < |sinks| && Usable(sinks[k]) && |d.rings| == |d.accepted| == |d.taken| == |sinks|
    ensures Due(sinks, d, es, k) == Brought(sinks, d, es[0], k) + Due(sinks, Happen(sinks, d, es[0]), es[1..], k)
  {
    var d1 := Happen(sinks, d, es[0]);
    EventAtRing(sinks, d, es[0], k);
    DueOffered(sinks, d1, es[1..], k);
    var x, rest := Brought(sinks, d, es[0], k), Due(sinks, d1, es[1..], k);
    assert For(sinks, k, d.offered) + x + rest == For(sinks, k, d.offered) + (x + rest);
    DueIs(sinks, d, es, k, x + rest);
  }

  /** No loss at one ring, on what is known beforehand: as long as the bytes queued and the bytes due together fit
      the ring, all bytes due enter it, whatever the consumers do and whatever happens at other sinks. */
  lemma {:induction false} NoLoss(sinks: seq<Sink>, d: Down, es: seq<Event>, k: nat)
    requires k < |sinks| && Usable(sinks[k]) && |d.rings| == |d.accepted| == |d.taken| == |sinks|
    requires |d.rings[k]| + |Due(sinks, d, es, k)| <= RING_SIZE - 1
    ensures EntersRing(sinks, d, es, k, Due(sinks, d, es, k))
    decreases es
  {
    if es == [] {
      assert d.accepted[k] + [] == d.accepted[k];
    } else {
      var d1 := Happen(sinks, d, es[0]);
      var x, rest := Brought(sinks, d, es[0], k), Due(sinks, d1, es[1..], k);
      EventAtRing(sinks, d, es[0], k);
      DueCons(sinks, d, es, k);
      NoLoss(sinks, d1, es[1..], k);
      assert d.accepted[k] + x + rest == d.accepted[k] + (x + rest);
    }
  }

  /** The first `n` bytes, or all if there are fewer. */
  function UpTo(bs: seq<byte>, n: nat): seq<byte> {
    if |bs| <= n then bs else bs[..n]
  }

  /** Without its consumer a ring takes exactly the bytes due that there is room for, and drops the others. */
  lemma {:induction false} FirstFit(sinks: seq<Sink>, d: Down, es: seq<Event>, k: nat)
    requires k < |sinks| && Usable(sinks[k]) && |d.rings| == |d.accepted| == |d.taken| == |sinks|
    requires NeverConsumed(es, k) && |d.rings[k]| <= RING_SIZE - 1
    ensures EntersRing(sinks, d, es, k, UpTo(Due(sinks, d, es, k), RING_SIZE - 1 - |d.rings[k]|))
    decreases es
  {
    if es == [] {
      assert d.accepted[k] + [] == d.accepted[k];
    } else {
      var d1 := Happen(sinks, d, es[0]);
      var x, rest := Brought(sinks, d, es[0], k), Due(sinks, d1, es[1..], k);
      assert es[0] in es;
      EventAtRing(sinks, d, es[0], k);
      DueCons(sinks, d, es, k);
      assert NeverConsumed(es[1..], k) by {
        assert forall e :: e in es[1..] ==> e in es;
      }
      FirstFit(sinks, d1, es[1..], k);
      FirstFitStep(sinks, d, d1, HappenAll(sinks, d1, es[1..]), k, x, rest);
    }
  }

  lemma FirstFitStep(sinks: seq<Sink>, d: Down, d1: Down, e: Down, k: nat, x: seq<byte>, rest: seq<byte>)
    requires k < |d.rings| && k < |d.accepted| && |d.rings[k]| <= RING_SIZE - 1 && RingStep(sinks, d, d1, k, x, false)
    requires |d1.rings[k]| <= RING_SIZE - 1 && k < |e.accepted|
    requires e.accepted[k] == d1.accepted[k] + UpTo(rest, RING_SIZE - 1 - |d1.rings[k]|)
    ensures e.accepted[k] == d.accepted[k] + UpTo(x + rest, RING_SIZE - 1 - |d.rings[k]|)
  {
    UpToCons(d.accepted[k], x, rest, RING_SIZE - 1 - |d.rings[k]|);
  }

  /** So it takes all bytes due if and only if they fit. */
  lemma TakesAllIffTheyFit(sinks: seq<Sink>, d: Down, es: seq<Event>, k: nat)
    requires k < |sinks| && Usable(sinks[k]) && |d.rings| == |d.accepted| == |d.taken| == |sinks|
    requires NeverConsumed(es, k) && |d.rings[k]| <= RING_SIZE - 1
    ensures EntersRing(sinks, d, es, k, Due(sinks, d, es, k)) <==>
              |d.rings[k]| + |Due(sinks, d, es, k)| <= RING_SIZE - 1
  {
    FirstFit(sinks, d, es, k);
    UpToCons(d.accepted[k], [], Due(sinks, d, es, k), RING_SIZE - 1 - |d.rings[k]|);
    assert [] + Due(sinks, d, es, k) == Due(sinks, d, es, k);
  }

  lemma UpToCons(before: seq<byte>, x: seq<byte>, rest: seq<byte>, n: nat)
    requires |x| <= 1
    ensures n > 0 ==> before + x + UpTo(rest, n - |x|) == before + UpTo(x + rest, n)
    ensures n == 0 ==> before + UpTo(rest, 0) == before + UpTo(x + rest, 0)
    ensures before + UpTo(x + rest, n) == before + (x + rest) <==> |x + rest| <= n
  {
    var all := x + rest;
    if |all| > n {
      assert |before + UpTo(all, n)| < |before + all|;
      if n > 0 {
        assert x + UpTo(rest, n - |x|) == UpTo(all, n);
      }
    }
  }

  /** A frame at a ring nobody empties is acknowledged once, however much of it the ring drops. */
  lemma DroppedYetAcknowledged(sinks: seq<Sink>, d: Down, es: seq<Event>, id: byte, bs: seq<byte>, k: nat)
    requires Conserved(sinks, d) && d.stream == -1 && !d.esc && ValidId(id)
    requires SinkFor(sinks, id) == k && k < |sinks| && Usable(sinks[k])
    requires Arrived(es) == DataFrame(id, bs) && NeverConsumed(es, k)
    ensures HappenAll(sinks, d, es).acks == d.acks + 1
    ensures EntersRing(sinks, d, es, k, UpTo(bs, RING_SIZE - 1 - |d.rings[k]|))
  {
    ConsumersInvisible(sinks, d, d, es);
    FrameDelivered(sinks, d, id, bs);
    ForConcat(sinks, k, d.offered, Offers(id, bs));
    ForOffers(sinks, k, id, bs);
    DueIs(sinks, d, es, k, bs);
    FirstFit(sinks, d, es, k);
  }
}
