/** Guest consoles on the target: each guest's bytes are batched in shared memory
    (sel4/GuestSink/src/guest_console_sink.c) and sent through the mux; and what reaches the host, for
    any interleaving of guests. */
module GuestSink {
  import opened Bytes
  import opened LineEnding
  import opened TagTable
  import opened Demux
  import opened Tokens
  import opened Proto
  import opened Outer
  import opened ConsoleMux

  const THRESHOLD: nat := 1024
  const COLON: byte := 58

  predicate FlushByte(b: byte) {
    b == LF || b == CR || b == COLON
  }

  /** A batch after one more byte, and what is handed to the mux: nothing, or the whole batch. */
  function Batched(pending: seq<byte>, b: byte): (seq<byte>, seq<byte>) {
    var p := pending + [b];
    if FlushByte(b) || |p| >= THRESHOLD then ([], p) else (p, [])
  }

  predicate PendingOk(p: seq<byte>) {
    |p| < THRESHOLD && forall b :: b in p ==> !FlushByte(b)
  }

  class Sink {
    const id: byte
    const batch: Batch
    const up: Uplink

    ghost predicate Valid()
      reads this, batch, batch.buf
    {
      && ValidId(id) && batch.buf.Length == BATCH_SIZE && batch.buf != up.frame && up.frame.Length == FRAME_SIZE
      && batch.head == 0 && batch.tail <= BATCH_SIZE
      && PendingOk(batch.buf[..batch.tail])
      && (batch.streamId != id ==> batch.tail == 0)
    }

    ghost function Pending(): seq<byte>
      requires batch.tail <= batch.buf.Length
      reads this, batch, batch.buf
    {
      batch.buf[..batch.tail]
    }

    constructor (id: byte, batch: Batch, up: Uplink)
      requires ValidId(id) && batch.buf.Length == BATCH_SIZE && batch.buf != up.frame && up.frame.Length == FRAME_SIZE
      requires batch.streamId == 0 && batch.head == 0 && batch.tail == 0
      ensures Valid() && Pending() == []
      ensures this.id == id && this.batch == batch && this.up == up
    {
      this.id, this.batch, this.up := id, batch, up;
    }

    /** `guest_console_sink_reset`. */
    method Reset()
      modifies batch
      ensures batch.streamId == id && batch.head == 0 && batch.tail == 0
    {
      batch.streamId, batch.head, batch.tail := id, 0, 0;
    }

    /** The batch as `guest_console_sink_flush` finds it: nothing to send, out of bounds, or a payload. */
    predicate Broken()
      reads batch
    {
      batch.tail < batch.head || batch.tail > batch.buf.Length
    }

    /** `guest_console_sink_flush` with reports off, on any batch. */
    method Flush()
      requires batch.buf != up.frame && up.frame.Length == FRAME_SIZE
      modifies batch, up, up.frame
      ensures old(batch.head) == old(batch.tail) ==>
                batch.streamId == old(batch.streamId) && batch.head == old(batch.head) && batch.tail == old(batch.tail)
      ensures old(batch.head) != old(batch.tail) ==> batch.streamId == id && batch.head == 0 && batch.tail == 0
      ensures old(batch.head == batch.tail || Broken() || !ValidId(batch.streamId)) ==>
                up.calls == old(up.calls) && up.emitted == old(up.emitted)
      ensures old(batch.head < batch.tail && !Broken() && ValidId(batch.streamId)) ==>
                up.emitted && up.calls == old(up.calls) +
                  EmitCalls(up.json, old(up.emitted), old(batch.streamId), old(batch.buf[batch.head..batch.tail]))
    {
      if batch.head == batch.tail {
        return;
      }
      if batch.tail < batch.head || batch.tail > batch.buf.Length {
        Reset();
        return;
      }
      up.BatchBatch(batch);
      Reset();
    }

    method AppendByte(b: byte) returns (ok: bool)
      modifies batch`tail, batch.buf
      ensures ok <==> old(batch.tail) < batch.buf.Length
      ensures ok ==> batch.tail == old(batch.tail) + 1 && batch.buf[..batch.tail] == old(batch.buf[..batch.tail]) + [b]
      ensures !ok ==> batch.tail == old(batch.tail)
    {
      if batch.tail >= batch.buf.Length {
        return false;
      }
      batch.buf[batch.tail] := b;
      batch.tail := batch.tail + 1;
      return true;
    }

    /** `guest_console_sink_emit_byte`. The buffer never overflows: the flush of the append is unreachable. */
    method PutChar(b: byte)
      requires Valid()
      modifies batch, batch.buf, up, up.frame
      ensures Valid() && Pending() == Batched(old(Pending()), b).0
      ensures Batched(old(Pending()), b).1 == [] ==> up.calls == old(up.calls) && up.emitted == old(up.emitted)
      ensures Batched(old(Pending()), b).1 != [] ==> up.emitted
      ensures Batched(old(Pending()), b).1 != [] ==>
                up.calls == old(up.calls) + EmitCalls(up.json, old(up.emitted), id, Batched(old(Pending()), b).1)
    {
      ghost var was := Pending();
      if batch.tail < batch.head || batch.tail > batch.buf.Length {
        assert false;
      }
      if batch.streamId != id {
        Reset();
        assert batch.buf[..batch.tail] == was;
      }
      var ok := AppendByte(b);
      if !ok {
        assert false;
      }
      if b == LF || b == CR || b == COLON || batch.tail >= THRESHOLD {
        assert batch.buf[0..batch.tail] == batch.buf[..batch.tail];
        Flush();
      }
    }
  }

  // ---------------------------------------------------------------- any interleaving of guests

  /** Batches, the bytes each sink has flushed so far, and the uplink calls. */
  datatype Guests = Guests(pending: seq<seq<byte>>, flushed: seq<seq<byte>>, calls: seq<seq<byte>>, emitted: bool)

  datatype Putchar = Putchar(sink: nat, b: byte)

  ghost function Step(ids: seq<byte>, json: seq<byte>, g: Guests, e: Putchar): Guests
    requires |g.pending| == |g.flushed| == |ids| && e.sink < |ids| && ValidId(ids[e.sink])
  {
    var (p, out) := Batched(g.pending[e.sink], e.b);
    var g1 := g.(pending := g.pending[e.sink := p]);
    if out == [] then g1 else
    g1.(flushed := g.flushed[e.sink := g.flushed[e.sink] + out], emitted := true,
        calls := g.calls + EmitCalls(json, g.emitted, ids[e.sink], out))
  }

  predicate IdsOk(ids: seq<byte>) {
    && (forall i :: 0 <= i < |ids| ==> ValidId(ids[i]))
    && (forall i, j :: 0 <= i < j < |ids| ==> ids[i] != ids[j])
  }

  predicate EventsOk(ids: seq<byte>, es: seq<Putchar>) {
    forall e :: e in es ==> e.sink < |ids|
  }

  function Quiet(n: nat): Guests {
    Guests(seq(n, i => []), seq(n, i => []), [], false)
  }

  ghost function RunGuests(ids: seq<byte>, json: seq<byte>, es: seq<Putchar>): (g: Guests)
    requires IdsOk(ids) && EventsOk(ids, es)
    ensures |g.pending| == |g.flushed| == |ids|
  {
    if es == [] then Quiet(|ids|)
    else Step(ids, json, RunGuests(ids, json, es[..|es| - 1]), es[|es| - 1])
  }

  /** All bytes put by sink `i`, in order. */
  function PutBy(es: seq<Putchar>, i: nat): seq<byte> {
    if es == [] then []
    else PutBy(es[..|es| - 1], i) + if es[|es| - 1].sink == i then [es[|es| - 1].b] else []
  }

  /** Bytes flushed followed by bytes pending are all bytes put, and what is pending is short and holds
      no newline, carriage return or colon. */
  lemma {:induction false} NothingLostInBatches(ids: seq<byte>, json: seq<byte>, es: seq<Putchar>)
    requires IdsOk(ids) && EventsOk(ids, es)
    ensures var g := RunGuests(ids, json, es);
            && (forall i :: 0 <= i < |ids| ==> g.flushed[i] + g.pending[i] == PutBy(es, i) && PendingOk(g.pending[i]))
            && (!g.emitted ==> g.calls == [] && forall i :: 0 <= i < |ids| ==> g.flushed[i] == [])
  {
    if es != [] {
      var prior, e := es[..|es| - 1], es[|es| - 1];
      NothingLostInBatches(ids, json, prior);
      var g := RunGuests(ids, json, prior);
      var g' := RunGuests(ids, json, es);
      forall i | 0 <= i < |ids|
        ensures g'.flushed[i] + g'.pending[i] == PutBy(es, i) && PendingOk(g'.pending[i])
      {
        if i == e.sink {
          assert g.flushed[i] + (g.pending[i] + [e.b]) == PutBy(prior, i) + [e.b];
        }
      }
    }
  }

  /** In every run the registry is the first call, once, if it fits, and never sent if not. */
  lemma {:induction false} RegistryOnce(ids: seq<byte>, json: seq<byte>, es: seq<Putchar>)
    requires IdsOk(ids) && EventsOk(ids, es)
    ensures var g := RunGuests(ids, json, es); RegistryFirst(json, g.calls) && (g.emitted <==> g.calls != [])
  {
    if es != [] {
      var prior, e := es[..|es| - 1], es[|es| - 1];
      RegistryOnce(ids, json, prior);
      var g := RunGuests(ids, json, prior);
      RegistryStaysFirst(json, g.calls, g.emitted, ids[e.sink], Batched(g.pending[e.sink], e.b).1);
    }
  }

  // ---------------------------------------------------------------- when a batch is sent

  /** The batches sink `i` has handed over, in order. */
  ghost function Handed(ids: seq<byte>, json: seq<byte>, es: seq<Putchar>, i: nat): seq<seq<byte>>
    requires IdsOk(ids) && EventsOk(ids, es)
  {
    if es == [] then [] else
    var prior, e := es[..|es| - 1], es[|es| - 1];
    var out := Batched(RunGuests(ids, json, prior).pending[e.sink], e.b).1;
    Handed(ids, json, prior, i) + if e.sink == i && out != [] then [out] else []
  }

  /** A batch is due when it ends with a newline, a carriage return or a colon, or is full. */
  predicate Due(batch: seq<byte>) {
    batch != [] && (batch[|batch| - 1] in [LF, CR, COLON] || |batch| >= THRESHOLD)
  }

  /** No earlier part of it was due. */
  predicate NotDueBefore(batch: seq<byte>) {
    forall n :: 0 <= n < |batch| ==> !Due(batch[..n])
  }

  lemma PendingNeverDue(p: seq<byte>, n: nat)
    requires PendingOk(p) && n <= |p|
    ensures !Due(p[..n])
  {
    if n > 0 {
      assert p[..n][n - 1] == p[n - 1] && p[n - 1] in p;
    }
  }

  /** A batch is handed over exactly when it is due: what a sink has put is its batches, each due for the first
      time at its last byte, and a pending rest of which no part is due. */
  lemma {:induction false} BatchesDue(ids: seq<byte>, json: seq<byte>, es: seq<Putchar>, i: nat)
    requires IdsOk(ids) && EventsOk(ids, es) && i < |ids|
    ensures var bs, p := Handed(ids, json, es, i), RunGuests(ids, json, es).pending[i];
            && PutBy(es, i) == Flatten(bs) + p
            && (forall b :: b in bs ==> Due(b) && NotDueBefore(b)) && NotDueBefore(p) && !Due(p)
  {
    NothingLostInBatches(ids, json, es);
    PendingNotDue(RunGuests(ids, json, es).pending[i]);
    if es != [] {
      var prior, e := es[..|es| - 1], es[|es| - 1];
      BatchesDue(ids, json, prior, i);
      NothingLostInBatches(ids, json, prior);
      MoreHanded(ids, json, es, i);
      if e.sink == i {
        BatchStep(Handed(ids, json, prior, i), RunGuests(ids, json, prior).pending[i], e.b);
      }
    }
  }

  lemma PendingNotDue(p: seq<byte>)
    requires PendingOk(p)
    ensures NotDueBefore(p) && !Due(p)
  {
    forall n | 0 <= n <= |p|
      ensures !Due(p[..n])
    {
      PendingNeverDue(p, n);
    }
    assert p[..|p|] == p;
  }

  /** What the last byte changes at sink `i`. */
  lemma MoreHanded(ids: seq<byte>, json: seq<byte>, es: seq<Putchar>, i: nat)
    requires IdsOk(ids) && EventsOk(ids, es) && i < |ids| && es != []
    ensures var prior, e := es[..|es| - 1], es[|es| - 1];
            var bs, p := Handed(ids, json, prior, i), RunGuests(ids, json, prior).pending[i];
            var (p', out) := Batched(p, e.b);
            && Handed(ids, json, es, i) == (if e.sink == i && out != [] then bs + [out] else bs)
            && RunGuests(ids, json, es).pending[i] == (if e.sink == i then p' else p)
            && PutBy(es, i) == if e.sink == i then PutBy(prior, i) + [e.b] else PutBy(prior, i)
  {
    var prior := es[..|es| - 1];
    assert Handed(ids, json, prior, i) + [] == Handed(ids, json, prior, i);
    assert PutBy(prior, i) + [] == PutBy(prior, i);
  }

  lemma BatchStep(bs: seq<seq<byte>>, p: seq<byte>, b: byte)
    requires PendingOk(p)
    ensures var (p', out) := Batched(p, b);
            && Flatten(bs) + p + [b] == Flatten(if out != [] then bs + [out] else bs) + p'
            && (out != [] ==> Due(out) && NotDueBefore(out))
  {
    var (p', out) := Batched(p, b);
    if out != [] {
      FlattenSnoc(bs, out);
      forall n | 0 <= n < |out|
        ensures !Due(out[..n])
      {
        PendingNeverDue(p, n);
        assert out[..n] == p[..n];
      }
    }
  }

  /** The host once the mux has sent its registry. */
  ghost function Registered(h: Host, json: seq<byte>): Host {
    Run(h, Flatten(RegistryCalls(json)))
  }

  /** The host knows every sink's id once the registry is in. */
  ghost predicate Knows(h: Host, ids: seq<byte>) {
    && AtBoundary(h) && HostOk(h) && h.live
    && forall i :: 0 <= i < |ids| ==> Find(h.core.table.tags, ids[i]) >= 0
  }

  /** The host `h0` after the registry, with `flushed` added to the sinks' PTYs and `raw` to raw_ccplex, and
      `n` acknowledgements counted. */
  ghost predicate HostHas(h: Host, h0: Host, raw: seq<byte>, n: nat, ids: seq<byte>, flushed: seq<seq<byte>>)
    requires |flushed| == |ids|
  {
    && AtBoundary(h) && HostOk(h) && h.live && h.core.table == h0.core.table && |h.core.ptys| == |h0.core.ptys|
    && h.core.patch == h0.core.patch && h.core.acks == h0.core.acks + n
    && h.core.ptys[0] == PutAll(h0.core.patch, h0.core.ptys[0], raw)
    && (forall i :: 0 <= i < |ids| && 0 <= Find(h0.core.table.tags, ids[i]) < |h.core.ptys| ==>
          var k := Find(h0.core.table.tags, ids[i]);
          h.core.ptys[k] == PutAll(h0.core.patch, h0.core.ptys[k], flushed[i]))
    && (forall k :: 1 <= k < |h.core.ptys| && (forall i :: 0 <= i < |ids| ==> Find(h0.core.table.tags, ids[i]) != k) ==>
          h.core.ptys[k] == h0.core.ptys[k])
  }

  lemma PayloadArrives(h: Host, h0: Host, ids: seq<byte>, flushed: seq<seq<byte>>, i: nat, out: seq<byte>)
    requires IdsOk(ids) && |flushed| == |ids| && i < |ids| && Knows(h0, ids) && HostHas(h, h0, [], 0, ids, flushed)
    ensures HostHas(Run(h, Flatten(PayloadCalls(ids[i], out))), h0, [], 0, ids, flushed[i := flushed[i] + out])
  {
    var k := Find(h0.core.table.tags, ids[i]);
    StreamedAsOneFrame(h, ids[i], out);
    DataFrameEffect(h, ids[i], out);
    RunOk(h, DataFrame(ids[i], out));
    StreamIndex(h, ids[i]);
    assert Deliver(Cursor(h.core, ids[i]), out).(cursor := -1) == WriteAll(h.core, k, out).(cursor := -1);
    MoreAt(h, h0, ids, flushed, i, k, out);
  }

  /** More bytes in the PTY of one sink. */
  lemma MoreAt(h: Host, h0: Host, ids: seq<byte>, flushed: seq<seq<byte>>, i: nat, k: nat, out: seq<byte>)
    requires IdsOk(ids) && |flushed| == |ids| && i < |ids| && HostHas(h, h0, [], 0, ids, flushed)
    requires k == Find(h0.core.table.tags, ids[i]) && 3 <= k < |h.core.ptys|
    requires HostOk(h.(core := WriteAll(h.core, k, out).(cursor := -1)))
    ensures HostHas(h.(core := WriteAll(h.core, k, out).(cursor := -1)), h0, [], 0, ids, flushed[i := flushed[i] + out])
  {
    PutAllConcat(h0.core.patch, h0.core.ptys[k], flushed[i], out);
    FoundElsewhere(h0.core.table, ids, i);
  }

  /** Distinct ids are found at distinct entries. */
  lemma FoundElsewhere(t: Table, ids: seq<byte>, i: nat)
    requires IdsOk(ids) && i < |ids| && Find(t.tags, ids[i]) >= 0
    ensures forall j :: 0 <= j < |ids| && j != i ==> Find(t.tags, ids[j]) != Find(t.tags, ids[i])
  {
    forall j | 0 <= j < |ids| && j != i
      ensures Find(t.tags, ids[j]) != Find(t.tags, ids[i])
    {
      var lo, hi := if i < j then i else j, if i < j then j else i;
      assert ids[lo] != ids[hi];
    }
  }

  lemma ThreeParts(h: Host, a: seq<seq<byte>>, b: seq<seq<byte>>, c: seq<seq<byte>>)
    ensures Run(h, Flatten(a + (b + c))) == Run(Run(Run(h, Flatten(a)), Flatten(b)), Flatten(c))
  {
    FlattenConcat(a, b + c);
    FlattenConcat(b, c);
    RunConcat(h, Flatten(a), Flatten(b + c));
    RunConcat(Run(h, Flatten(a)), Flatten(b), Flatten(c));
  }

  /** The guests' calls at the inner machine. */
  lemma {:induction false} InnerUplink(h: Host, ids: seq<byte>, json: seq<byte>, es: seq<Putchar>)
    requires IdsOk(ids) && EventsOk(ids, es) && Knows(Registered(h, json), ids) && AtBoundary(h)
    ensures var g := RunGuests(ids, json, es);
            && (g.emitted ==> HostHas(Run(h, Flatten(g.calls)), Registered(h, json), [], 0, ids, g.flushed))
            && (!g.emitted ==> Run(h, Flatten(g.calls)) == h)
            && (forall i :: 0 <= i < |ids| ==> g.flushed[i] + g.pending[i] == PutBy(es, i) && PendingOk(g.pending[i]))
  {
    NothingLostInBatches(ids, json, es);
    if es != [] {
      var prior, e := es[..|es| - 1], es[|es| - 1];
      InnerUplink(h, ids, json, prior);
      NothingLostInBatches(ids, json, prior);
      var g := RunGuests(ids, json, prior);
      var out := Batched(g.pending[e.sink], e.b).1;
      var h0 := Registered(h, json);
      if out != [] {
        var first := if g.emitted then [] else RegistryCalls(json);
        var calls := PayloadCalls(ids[e.sink], out);
        ThreeParts(h, g.calls, first, calls);
        var h2 := Run(Run(h, Flatten(g.calls)), Flatten(first));
        assert HostHas(h2, h0, [], 0, ids, g.flushed);
        PayloadArrives(h2, h0, ids, g.flushed, e.sink, out);
      }
    }
  }

  /** The copy in the raw PTY and the acknowledgements leave the rest as it is. */
  lemma RawKeepsHas(h: Host, h0: Host, raw: seq<byte>, n: nat, ids: seq<byte>, flushed: seq<seq<byte>>)
    requires |flushed| == |ids| && IdsOk(ids) && Knows(h0, ids) && HostHas(h, h0, [], 0, ids, flushed)
    ensures HostHas(AddRaw(AddAcks(h, n), raw), h0, raw, n, ids, flushed)
  {
    AddRawOk(AddAcks(h, n), raw);
    forall i | 0 <= i < |ids|
      ensures Find(h0.core.table.tags, ids[i]) >= 3
    {
      StreamIndex(h0, ids[i]);
    }
  }

  /** All calls of the guests are whole, and none of them is an acknowledgement. */
  lemma {:induction false} GuestCallsWhole(ids: seq<byte>, json: seq<byte>, es: seq<Putchar>)
    requires IdsOk(ids) && EventsOk(ids, es)
    ensures AllWhole(RunGuests(ids, json, es).calls) && ACK_CALL !in RunGuests(ids, json, es).calls
  {
    if es != [] {
      var prior, e := es[..|es| - 1], es[|es| - 1];
      var g := RunGuests(ids, json, prior);
      GuestCallsWhole(ids, json, prior);
      EmittedWhole(json, g.emitted, ids[e.sink], Batched(g.pending[e.sink], e.b).1);
    }
  }

  /** The host and the mux's calls on any wire: acknowledgements between them change nothing but the count. */
  lemma CallsArrive(m: Mode, l: Link, wire: seq<byte>, sent: seq<seq<byte>>)
    requires AtBoundary(l.host) && HostOk(l.host) && Brings(m, l, wire, Flatten(sent))
    requires AllWhole(OtherCalls(sent)) && Run(l.host, Flatten(OtherCalls(sent))).live
    ensures LinkRun(m, l, wire).host ==
            AddRaw(AddAcks(Run(l.host, Flatten(OtherCalls(sent))), AckCalls(sent)), RawCopy(m, Flatten(sent)))
  {
    AcksAmongCalls(l.host, sent);
    LinkBrings(m, l, wire, Flatten(sent));
  }

  /** The guests' side of the target, over any wire that brings what the mux sent to the host in raw or
      nvidia-tcu mode, and whatever acknowledgements are among it: for any interleaving of guests each guest's
      PTY holds what its sink has flushed, raw_ccplex holds the copy of everything sent, no other PTY changes,
      the acknowledgements are counted, and flushed plus pending is everything put. */
  lemma GuestUplink(m: Mode, l: Link, wire: seq<byte>, ids: seq<byte>, json: seq<byte>, es: seq<Putchar>,
                    sent: seq<seq<byte>>)
    requires IdsOk(ids) && EventsOk(ids, es) && Knows(Registered(l.host, json), ids) && AtBoundary(l.host)
    requires HostOk(l.host)
    requires OtherCalls(sent) == RunGuests(ids, json, es).calls && Brings(m, l, wire, Flatten(sent))
    ensures var g := RunGuests(ids, json, es);
            var h := LinkRun(m, l, wire).host;
            var n, raw := AckCalls(sent), RawCopy(m, Flatten(sent));
            && (if g.emitted then HostHas(h, Registered(l.host, json), raw, n, ids, g.flushed)
                else h == AddRaw(AddAcks(l.host, n), raw))
            && (forall i :: 0 <= i < |ids| ==> g.flushed[i] + g.pending[i] == PutBy(es, i) && PendingOk(g.pending[i]))
  {
    var g := RunGuests(ids, json, es);
    InnerUplink(l.host, ids, json, es);
    GuestCallsWhole(ids, json, es);
    if !l.host.live {
      RunStopped(l.host, Flatten(RegistryCalls(json)));
    }
    CallsArrive(m, l, wire, sent);
    if g.emitted {
      var inner := Run(l.host, Flatten(g.calls));
      RawKeepsHas(inner, Registered(l.host, json), RawCopy(m, Flatten(sent)), AckCalls(sent), ids, g.flushed);
    }
  }

  /** The registry record counts no acknowledgement. */
  lemma RegisteredAcks(h: Host, json: seq<byte>)
    requires AtBoundary(h)
    ensures Registered(h, json).core.acks == h.core.acks
  {
    if |json| + 5 <= FRAME_SIZE {
      FlattenSnoc([], Print(Reg(json)));
      assert [] + [Print(Reg(json))] == RegistryCalls(json) && Flatten<byte>([]) + Print(Reg(json)) == Print(Reg(json));
      TokenRefined(h, Reg(json));
      CoreAcks(h.core, 0, json, 0, []);
    }
  }
}
