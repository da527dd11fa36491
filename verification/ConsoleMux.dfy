/** The uplink half of the target multiplexer (sel4/Mux/src/console_mux.c): the streaming frame encoder
    over a fixed array, the registry record and the acknowledgement record. */
module ConsoleMux {
  import opened Bytes
  import opened TagTable
  import opened Demux
  import opened Tokens
  import opened Proto

  const FRAME_SIZE: nat := 4088
  const BATCH_SIZE: nat := 4084

  /** The tokens of each uplink call for one payload: a full array is sent as it is and the stream is
      selected again. */
  function Cuts(id: byte, payload: seq<byte>, used: nat, open: seq<Token>): seq<seq<Token>>
    requires used >= 2
    decreases |payload|, used
  {
    if payload == [] then [open + [Def]]
    else if used + 4 >= FRAME_SIZE then [open] + Cuts(id, payload, 2, [Sel(id)])
    else Cuts(id, payload[1..], used + Width(payload[0]), open + [PayloadToken(payload[0])])
  }

  ghost predicate ValidCalls(cs: seq<seq<Token>>) {
    forall c :: c in cs ==> ValidTokens(c)
  }

  function PrintEach(cs: seq<seq<Token>>): (bs: seq<seq<byte>>)
    requires forall c :: c in cs ==> ValidTokens(c)
    ensures |bs| == |cs|
  {
    seq(|cs|, i requires 0 <= i < |cs| => PrintAll(cs[i]))
  }

  lemma {:induction false} CutsValid(id: byte, payload: seq<byte>, used: nat, open: seq<Token>)
    requires used >= 2 && ValidId(id) && ValidTokens(open)
    ensures ValidCalls(Cuts(id, payload, used, open))
    decreases |payload|, used
  {
    if payload == [] {
    } else if used + 4 >= FRAME_SIZE {
      CutsValid(id, payload, 2, [Sel(id)]);
    } else {
      CutsValid(id, payload[1..], used + Width(payload[0]), open + [PayloadToken(payload[0])]);
    }
  }

  /** The bytes of each uplink call that sends one payload. */
  function PayloadCalls(id: byte, payload: seq<byte>): seq<seq<byte>>
    requires ValidId(id)
  {
    CutsValid(id, payload, 2, [Sel(id)]);
    PrintEach(Cuts(id, payload, 2, [Sel(id)]))
  }

  /** The registry record, unless it does not fit the array: then it is never sent. */
  function RegistryCalls(json: seq<byte>): seq<seq<byte>> {
    if |json| + 5 > FRAME_SIZE then [] else [Print(Reg(json))]
  }

  function EmitCalls(json: seq<byte>, emitted: bool, id: byte, payload: seq<byte>): seq<seq<byte>>
    requires ValidId(id)
  {
    (if emitted then [] else RegistryCalls(json)) + PayloadCalls(id, payload)
  }

  /** The shared memory between a guest console sink and the mux. */
  class Batch {
    var streamId: int
    var head: nat
    var tail: nat
    const buf: array<byte>

    constructor ()
      ensures streamId == 0 && head == 0 && tail == 0 && buf.Length == BATCH_SIZE && fresh(buf)
    {
      streamId, head, tail := 0, 0, 0;
      buf := new byte[BATCH_SIZE](i => 0);
    }
  }

  /** `calls` is what each `console_mux_uplink_bytes` call put on the UART, in order. */
  class Uplink {
    const json: seq<byte>
    const frame: array<byte>
    var emitted: bool
    var calls: seq<seq<byte>>

    constructor (json: seq<byte>)
      ensures !emitted && calls == [] && frame.Length == FRAME_SIZE && fresh(frame) && this.json == json
    {
      this.json := json;
      frame := new byte[FRAME_SIZE](i => 0);
      emitted, calls := false, [];
    }

    method UplinkBytes(n: nat)
      requires n <= frame.Length
      modifies this`calls
      ensures calls == old(calls) + [frame[..n]]
    {
      calls := calls + [frame[..n]];
    }

    /** `console_mux_emit_registry`. */
    method EmitRegistry()
      requires frame.Length == FRAME_SIZE
      modifies this`calls, frame
      ensures calls == old(calls) + RegistryCalls(json)
    {
      var len := |json|;
      if len > 0xffff || len + 5 > frame.Length {
        assert calls + [] == calls;
        return;
      }
      frame[0], frame[1], frame[2], frame[3], frame[4] := ESC, CONTROL, REGISTRY, Hi(len), Lo(len);
      var i := 0;
      while i < len
        invariant calls == old(calls)
        invariant i <= len && frame[..5 + i] == [ESC, CONTROL, REGISTRY, Hi(len), Lo(len)] + json[..i]
      {
        frame[5 + i] := json[i];
        i := i + 1;
      }
      assert json[..len] == json;
      assert frame[..5 + len] == Print(Reg(json));
      UplinkBytes(5 + len);
    }

    /** `console_mux_emit_downlink_ack`. */
    method EmitAck(stream: int)
      modifies this`calls
      ensures calls == old(calls) + if ValidId(stream) then [Print(Acked)] else []
    {
      if ValidId(stream) {
        calls := calls + [[ESC, CONTROL, ACK]];
      }
    }

    /** Start the array over with a stream selection. */
    method Open(stream: byte)
      requires frame.Length == FRAME_SIZE && ValidId(stream)
      modifies frame
      ensures frame[..2] == PrintAll([Sel(stream)])
    {
      frame[0], frame[1] := ESC, stream;
      PrintAllOne(Sel(stream));
    }

    method Append(b: byte, used: nat, ghost open: seq<Token>) returns (more: nat)
      requires used + 4 < frame.Length && ValidTokens(open) && frame[..used] == PrintAll(open)
      modifies frame
      ensures more == used + Width(b)
      ensures ValidTokens(open + [PayloadToken(b)]) && frame[..more] == PrintAll(open + [PayloadToken(b)])
    {
      PrintAllConcat(open, [PayloadToken(b)]);
      PrintAllOne(PayloadToken(b));
      more := used;
      if b == ESC {
        frame[more] := ESC;
        more := more + 1;
      }
      frame[more] := b;
      more := more + 1;
    }

    /** One turn of the encoder loop: a full array is sent first and started over. Every call sends whole
        tokens, so no flush splits an escape pair. */
    method PutByte(stream: byte, b: byte, used: nat, ghost open: seq<Token>) returns (out: nat)
      requires frame.Length == FRAME_SIZE && ValidId(stream) && 2 <= used && used + 2 < frame.Length
      requires ValidTokens(open) && frame[..used] == PrintAll(open)
      modifies this`calls, frame
      ensures var (sent, open', used') := AfterByte(stream, b, used, open);
              calls == old(calls) + PrintEach(sent) && out == used' && frame[..out] == PrintAll(open')
      ensures 2 <= out && out + 2 < frame.Length
    {
      ghost var todo := open;
      out := used;
      if out + 4 >= frame.Length {
        UplinkBytes(out);
        Open(stream);
        out, todo := 2, [Sel(stream)];
        assert PrintEach([open]) == [PrintAll(open)];
      }
      out := Append(b, out, todo);
    }

    /** The encoder loop of `console_mux_emit_framed_payload`. */
    method EncodePayload(stream: byte, buf: array<byte>, from: nat, n: nat)
      requires frame.Length == FRAME_SIZE && ValidId(stream) && from + n <= buf.Length && buf != frame
      modifies this`calls, frame
      ensures calls == old(calls) + PayloadCalls(stream, buf[from..from + n])
    {
      ghost var payload := buf[from..from + n];
      ghost var open := [Sel(stream)];
      CutsValid(stream, payload, 2, open);
      Open(stream);
      var out, i := 2, 0;
      assert payload[0..] == payload;
      while i < n
        invariant i <= n && 2 <= out && out + 2 < frame.Length && buf[from..from + n] == payload
        invariant ValidTokens(open) && frame[..out] == PrintAll(open)
        invariant ValidCalls(Cuts(stream, payload[i..], out, open))
        invariant old(calls) + PayloadCalls(stream, payload) == calls + PrintEach(Cuts(stream, payload[i..], out, open))
      {
        ByteCut(stream, payload, i, out, open, calls);
        ghost var next := AfterByte(stream, buf[from + i], out, open).1;
        out := PutByte(stream, buf[from + i], out, open);
        open := next;
        i := i + 1;
      }
      Finish(out, open);
      LastCut(stream, payload, out, open);
    }

    /** The closing pair. The array always has room for it: the second flush of the C code is never taken. */
    method Finish(out: nat, ghost open: seq<Token>)
      requires frame.Length == FRAME_SIZE && out + 2 < frame.Length && ValidTokens(open)
      requires frame[..out] == PrintAll(open)
      modifies this`calls, frame
      ensures ValidTokens(open + [Def]) && calls == old(calls) + [PrintAll(open + [Def])]
    {
      if out + 2 >= frame.Length {
        assert false;
      }
      PrintAllConcat(open, [Def]);
      PrintAllOne(Def);
      frame[out], frame[out + 1] := ESC, DEFAULT;
      assert frame[..out + 2] == PrintAll(open + [Def]);
      UplinkBytes(out + 2);
    }

    /** `console_mux_emit_framed_payload`. */
    method EmitFramed(stream: int, buf: array<byte>, from: nat, n: nat)
      requires frame.Length == FRAME_SIZE && from + n <= buf.Length && buf != frame
      modifies this, frame
      ensures ValidId(stream) ==>
                emitted && calls == old(calls) + EmitCalls(json, old(emitted), stream, buf[from..from + n])
      ensures ValidId(stream) && old(emitted) ==> calls == old(calls) + PayloadCalls(stream, buf[from..from + n])
      ensures ValidId(stream) && !old(emitted) ==>
                calls == old(calls) + RegistryCalls(json) + PayloadCalls(stream, buf[from..from + n])
      ensures !ValidId(stream) ==> emitted == old(emitted) && calls == old(calls)
    {
      if !ValidId(stream) {
        return;
      }
      ghost var first := if emitted then [] else RegistryCalls(json);
      ghost var second := PayloadCalls(stream, buf[from..from + n]);
      assert calls + [] == calls;
      if !emitted {
        EmitRegistry();
        emitted := true;
      }
      assert calls == old(calls) + first;
      EncodePayload(stream, buf, from, n);
      Regrouped(old(calls), first, second);
    }

    /** `mux_batch_batch`. The C code does not check `tail` against the buffer; its caller must. */
    method BatchBatch(batch: Batch)
      requires frame.Length == FRAME_SIZE && batch.tail <= batch.buf.Length && batch.buf != frame
      modifies this, frame, batch`head
      ensures ValidId(batch.streamId) && old(batch.head) < batch.tail ==>
                emitted && batch.head == batch.tail &&
                calls == old(calls) +
                  EmitCalls(json, old(emitted), batch.streamId, batch.buf[old(batch.head)..batch.tail])
      ensures !(ValidId(batch.streamId) && old(batch.head) < batch.tail) ==>
                emitted == old(emitted) && batch.head == old(batch.head) && calls == old(calls)
    {
      if !ValidId(batch.streamId) || batch.tail < batch.head {
        return;
      }
      var n := batch.tail - batch.head;
      if n == 0 {
        return;
      }
      EmitFramed(batch.streamId, batch.buf, batch.head, n);
      batch.head := batch.tail;
    }
  }

  function Width(b: byte): nat {
    if b == ESC then 2 else 1
  }

  /** The calls made for one byte, and the tokens and bytes then waiting in the array. */
  ghost function AfterByte(id: byte, b: byte, used: nat, open: seq<Token>): (r: (seq<seq<Token>>, seq<Token>, nat))
    requires ValidTokens(open) && ValidId(id)
    ensures ValidCalls(r.0) && ValidTokens(r.1)
  {
    if used + 4 >= FRAME_SIZE then ([open], [Sel(id), PayloadToken(b)], 2 + Width(b))
    else ([], open + [PayloadToken(b)], used + Width(b))
  }

  lemma ByteCut(id: byte, payload: seq<byte>, i: nat, used: nat, open: seq<Token>, calls: seq<seq<byte>>)
    requires used >= 2 && i < |payload| && ValidId(id) && ValidTokens(open)
    requires ValidCalls(Cuts(id, payload[i..], used, open))
    ensures var (sent, open', used') := AfterByte(id, payload[i], used, open);
            && used' >= 2 && ValidCalls(Cuts(id, payload[i + 1..], used', open'))
            && calls + PrintEach(Cuts(id, payload[i..], used, open)) ==
               calls + PrintEach(sent) + PrintEach(Cuts(id, payload[i + 1..], used', open'))
  {
    var rest := payload[i..];
    var (sent, open', used') := AfterByte(id, payload[i], used, open);
    assert rest[1..] == payload[i + 1..];
    CutsValid(id, payload[i + 1..], used', open');
    var later := Cuts(id, payload[i + 1..], used', open');
    if used + 4 >= FRAME_SIZE {
      assert [Sel(id)] + [PayloadToken(payload[i])] == open';
      assert Cuts(id, rest, 2, [Sel(id)]) == later;
    }
    assert Cuts(id, rest, used, open) == sent + later;
    assert PrintEach(sent + later) == PrintEach(sent) + PrintEach(later);
  }

  lemma LastCut(id: byte, payload: seq<byte>, used: nat, open: seq<Token>)
    requires used >= 2 && ValidTokens(open) && ValidTokens(open + [Def])
    requires ValidCalls(Cuts(id, payload[|payload|..], used, open))
    ensures PrintEach(Cuts(id, payload[|payload|..], used, open)) == [PrintAll(open + [Def])]
  {
  }

  // ---------------------------------------------------------------- what the host makes of it

  lemma {:induction false} FlattenPrinted(cs: seq<seq<Token>>)
    requires ValidCalls(cs)
    ensures ValidTokens(Flatten(cs)) && Flatten(PrintEach(cs)) == PrintAll(Flatten(cs))
  {
    if cs != [] {
      FlattenPrinted(cs[1..]);
      assert PrintEach(cs)[1..] == PrintEach(cs[1..]);
      PrintAllConcat(cs[0], Flatten(cs[1..]));
    }
  }

  /** Selecting the stream that is selected already changes nothing, so the cuts cannot be seen. */
  lemma {:induction false} CutsInvisible(h: Host, id: byte, payload: seq<byte>, used: nat, open: seq<Token>)
    requires used >= 2 && InterpAll(h, open).live
    requires InterpAll(h, open).core.cursor == Find(InterpAll(h, open).core.table.tags, id)
    ensures InterpAll(h, Flatten(Cuts(id, payload, used, open))) ==
              InterpAll(InterpAll(h, open), PayloadTokens(payload) + [Def])
    decreases |payload|, used
  {
    var g := InterpAll(h, open);
    if payload == [] {
      assert Flatten([open + [Def]]) == open + [Def] + Flatten<Token>([open + [Def]][1..]);
      assert PayloadTokens([]) + [Def] == [Def];
      assert open + [Def] + [] == open + [Def];
      InterpConcat(h, open, [Def]);
    } else if used + 4 >= FRAME_SIZE {
      var rest := Cuts(id, payload, 2, [Sel(id)]);
      assert ([open] + rest)[1..] == rest;
      InterpConcat(h, open, Flatten(rest));
      InterpOne(g, Sel(id));
      assert Interp(g, Sel(id)) == g;
      CutsInvisible(g, id, payload, 2, [Sel(id)]);
    } else {
      var t := PayloadToken(payload[0]);
      InterpConcat(h, open, [t]);
      InterpOne(g, t);
      CutsInvisible(h, id, payload[1..], used + Width(payload[0]), open + [t]);
      assert PayloadTokens(payload) + [Def] == [t] + (PayloadTokens(payload[1..]) + [Def]);
      InterpConcat(g, [t], PayloadTokens(payload[1..]) + [Def]);
    }
  }

  /** The streaming encoder refines the simple one: for every payload length and in every host state its
      calls decode exactly as one data frame of the payload does. */
  lemma StreamedAsOneFrame(h: Host, id: byte, payload: seq<byte>)
    requires AtBoundary(h) && ValidId(id)
    ensures Run(h, Flatten(PayloadCalls(id, payload))) == Run(h, DataFrame(id, payload))
  {
    if !h.live {
      RunStopped(h, Flatten(PayloadCalls(id, payload)));
      RunStopped(h, DataFrame(id, payload));
    } else {
      var cs := Cuts(id, payload, 2, [Sel(id)]);
      CutsValid(id, payload, 2, [Sel(id)]);
      FlattenPrinted(cs);
      TokensRefined(h, Flatten(cs));
      InterpOne(h, Sel(id));
      CutsInvisible(h, id, payload, 2, [Sel(id)]);
      DataFrameIsPrinted(id, payload);
      TokensRefined(h, DataTokens(id, payload));
      assert DataTokens(id, payload) == [Sel(id)] + (PayloadTokens(payload) + [Def]);
      InterpConcat(h, [Sel(id)], PayloadTokens(payload) + [Def]);
    }
  }

  // ---------------------------------------------------------------- acknowledgements between calls

  /** `n` acknowledgement records. */
  function Acks(n: nat): (ts: seq<Token>)
    ensures ValidTokens(ts)
  {
    seq(n, i => Acked)
  }

  /** The tokens on the wire when `ns[i]` acknowledgements slip in behind the i-th uplink call. */
  function WithAcks(cs: seq<seq<Token>>, ns: seq<nat>): seq<Token>
    requires |ns| == |cs|
  {
    if cs == [] then [] else cs[0] + Acks(ns[0]) + WithAcks(cs[1..], ns[1..])
  }

  function Total(ns: seq<nat>): nat {
    if ns == [] then 0 else ns[0] + Total(ns[1..])
  }

  lemma {:induction false} DropConcat(a: seq<Token>, b: seq<Token>)
    ensures DropAcks(a + b) == DropAcks(a) + DropAcks(b) && CountAcks(a + b) == CountAcks(a) + CountAcks(b)
  {
    if a == [] {
      assert a + b == b;
    } else {
      assert (a + b)[1..] == a[1..] + b;
      DropConcat(a[1..], b);
    }
  }

  lemma {:induction false} DropAll(n: nat)
    ensures DropAcks(Acks(n)) == [] && CountAcks(Acks(n)) == n
  {
    if n > 0 {
      assert Acks(n)[1..] == Acks(n - 1);
      DropAll(n - 1);
    }
  }

  lemma {:induction false} DropNone(ts: seq<Token>)
    requires forall t :: t in ts ==> !t.Acked?
    ensures DropAcks(ts) == ts && CountAcks(ts) == 0
  {
    if ts != [] {
      DropNone(ts[1..]);
    }
  }

  /** A call and the acknowledgements behind it. */
  lemma DropCall(c: seq<Token>, n: nat, rest: seq<Token>)
    requires forall t :: t in c ==> !t.Acked?
    ensures DropAcks(c + Acks(n) + rest) == c + DropAcks(rest) && CountAcks(c + Acks(n) + rest) == n + CountAcks(rest)
  {
    DropNone(c);
    DropAll(n);
    DropConcat(c, Acks(n));
    assert c + [] == c;
    DropConcat(c + Acks(n), rest);
  }

  lemma {:induction false} DropWoven(cs: seq<seq<Token>>, ns: seq<nat>)
    requires |ns| == |cs| && ValidCalls(cs) && forall c, t :: c in cs && t in c ==> !t.Acked?
    ensures ValidTokens(WithAcks(cs, ns)) && DropAcks(WithAcks(cs, ns)) == Flatten(cs)
    ensures CountAcks(WithAcks(cs, ns)) == Total(ns)
  {
    if cs != [] {
      DropWoven(cs[1..], ns[1..]);
      assert cs[0] in cs;
      DropCall(cs[0], ns[0], WithAcks(cs[1..], ns[1..]));
    }
  }

  lemma {:induction false} CutsHaveNoAcks(id: byte, payload: seq<byte>, used: nat, open: seq<Token>)
    requires used >= 2 && forall t :: t in open ==> !t.Acked?
    ensures forall c, t :: c in Cuts(id, payload, used, open) && t in c ==> !t.Acked?
    decreases |payload|, used
  {
    if payload == [] {
    } else if used + 4 >= FRAME_SIZE {
      CutsHaveNoAcks(id, payload, 2, [Sel(id)]);
    } else {
      CutsHaveNoAcks(id, payload[1..], used + Width(payload[0]), open + [PayloadToken(payload[0])]);
    }
  }

  /** Any number of acknowledgements between the uplink calls of a payload changes nothing at the host
      but the acknowledgement count. */
  lemma AcksBetweenCalls(h: Host, id: byte, payload: seq<byte>, ns: seq<nat>)
    requires AtBoundary(h) && h.live && ValidId(id) && |ns| == |Cuts(id, payload, 2, [Sel(id)])|
    ensures ValidTokens(WithAcks(Cuts(id, payload, 2, [Sel(id)]), ns))
    ensures Run(h, PrintAll(WithAcks(Cuts(id, payload, 2, [Sel(id)]), ns))) ==
              AddAcks(Run(h, DataFrame(id, payload)), Total(ns))
  {
    var cs := Cuts(id, payload, 2, [Sel(id)]);
    CutsValid(id, payload, 2, [Sel(id)]);
    CutsHaveNoAcks(id, payload, 2, [Sel(id)]);
    DropWoven(cs, ns);
    var ts := WithAcks(cs, ns);
    TokensRefined(h, ts);
    FlattenPrinted(cs);
    StreamedAsOneFrame(h, id, payload);
    TokensRefined(h, Flatten(cs));
    DataFrameEffect(h, id, payload);
    OnlyRegistryStops(h, ts);
    AcksTransparent(h, ts);
  }

  lemma {:induction false} OnlyRegistryStops(h: Host, ts: seq<Token>)
    requires h.live && InterpAll(h, DropAcks(ts)).live
    ensures InterpAll(h, ts).live
    decreases ts
  {
    if ts != [] {
      if ts[0].Acked? {
        assert [] + DropAcks(ts[1..]) == DropAcks(ts[1..]);
        AcksCommute(h, DropAcks(ts[1..]), 1);
        assert Interp(h, ts[0]) == AddAcks(h, 1);
      } else {
        assert ([ts[0]] + DropAcks(ts[1..]))[1..] == DropAcks(ts[1..]);
        if !Interp(h, ts[0]).live {
          StaysStopped(Interp(h, ts[0]), DropAcks(ts[1..]));
        }
      }
      OnlyRegistryStops(Interp(h, ts[0]), ts[1..]);
    }
  }

  // ---------------------------------------------------------------- acknowledgement calls among other calls

  const ACK_CALL: seq<byte> := [ESC, CONTROL, ACK]

  /** The uplink calls that are not acknowledgements, and the number of those that are. */
  function OtherCalls(calls: seq<seq<byte>>): seq<seq<byte>> {
    if calls == [] then [] else
    OtherCalls(calls[..|calls| - 1]) + if calls[|calls| - 1] == ACK_CALL then [] else [calls[|calls| - 1]]
  }

  function AckCalls(calls: seq<seq<byte>>): nat {
    if calls == [] then 0 else
    AckCalls(calls[..|calls| - 1]) + if calls[|calls| - 1] == ACK_CALL then 1 else 0
  }

  /** A call of whole tokens. */
  ghost predicate Whole(call: seq<byte>) {
    exists ts: seq<Token> :: ValidTokens(ts) && PrintAll(ts) == call
  }

  ghost predicate AllWhole(calls: seq<seq<byte>>) {
    forall c :: c in calls ==> Whole(c)
  }

  lemma WholeCall(h: Host, call: seq<byte>, n: nat)
    requires AtBoundary(h) && Whole(call)
    ensures AtBoundary(Run(h, call)) && Run(AddAcks(h, n), call) == AddAcks(Run(h, call), n)
  {
    var ts: seq<Token> :| ValidTokens(ts) && PrintAll(ts) == call;
    TokensRefined(h, ts);
    TokensRefined(AddAcks(h, n), ts);
    AcksCommute(h, ts, n);
  }

  lemma {:induction false} AllWholeKeepBoundary(h: Host, calls: seq<seq<byte>>)
    requires AtBoundary(h) && AllWhole(calls)
    ensures AtBoundary(Run(h, Flatten(calls)))
  {
    if calls != [] {
      var prior, c := calls[..|calls| - 1], calls[|calls| - 1];
      AllWholeKeepBoundary(h, prior);
      assert calls == prior + [c];
      FlattenSnoc(prior, c);
      RunConcat(h, Flatten(prior), c);
      WholeCall(Run(h, Flatten(prior)), c, 0);
    }
  }

  lemma OneAck(h: Host)
    requires AtBoundary(h) && h.live
    ensures Run(h, ACK_CALL) == AddAcks(h, 1)
  {
    RunThree(h, ESC, CONTROL, ACK);
  }

  /** Acknowledgement calls anywhere between calls of whole tokens change nothing at the host but the count. */
  lemma {:induction false} AcksAmongCalls(h: Host, calls: seq<seq<byte>>)
    requires AtBoundary(h) && AllWhole(OtherCalls(calls)) && Run(h, Flatten(OtherCalls(calls))).live
    ensures Run(h, Flatten(calls)) == AddAcks(Run(h, Flatten(OtherCalls(calls))), AckCalls(calls))
  {
    if calls != [] {
      var prior, c := calls[..|calls| - 1], calls[|calls| - 1];
      assert calls == prior + [c];
      FlattenSnoc(prior, c);
      RunConcat(h, Flatten(prior), c);
      var g := Run(h, Flatten(OtherCalls(prior)));
      if c == ACK_CALL {
        assert OtherCalls(calls) == OtherCalls(prior);
        AcksAmongCalls(h, prior);
        AllWholeKeepBoundary(h, OtherCalls(prior));
        OneAck(AddAcks(g, AckCalls(prior)));
      } else {
        OtherCall(h, prior, c);
        AcksAmongCalls(h, prior);
        AllWholeKeepBoundary(h, OtherCalls(prior));
        WholeCall(g, c, AckCalls(prior));
      }
    }
  }

  lemma OtherCall(h: Host, prior: seq<seq<byte>>, c: seq<byte>)
    requires AllWhole(OtherCalls(prior) + [c])
    requires Run(h, Flatten(OtherCalls(prior) + [c])).live
    ensures var g := Run(h, Flatten(OtherCalls(prior)));
            AllWhole(OtherCalls(prior)) && Whole(c) && g.live && Run(h, Flatten(OtherCalls(prior) + [c])) == Run(g, c)
  {
    var g := Run(h, Flatten(OtherCalls(prior)));
    FlattenSnoc(OtherCalls(prior), c);
    RunConcat(h, Flatten(OtherCalls(prior)), c);
    if !g.live {
      RunStopped(g, c);
    }
  }

  lemma {:induction false} CutsStart(id: byte, payload: seq<byte>, used: nat, open: seq<Token>)
    requires used >= 2 && open != [] && open[0] == Sel(id)
    ensures forall c :: c in Cuts(id, payload, used, open) ==> c != [] && c[0] == Sel(id)
    decreases |payload|, used
  {
    if payload == [] {
    } else if used + 4 >= FRAME_SIZE {
      CutsStart(id, payload, 2, [Sel(id)]);
    } else {
      CutsStart(id, payload[1..], used + Width(payload[0]), open + [PayloadToken(payload[0])]);
    }
  }

  /** The calls of a payload, registry included, are whole, and none of them is an acknowledgement. */
  lemma EmittedWhole(json: seq<byte>, emitted: bool, id: byte, payload: seq<byte>)
    requires ValidId(id)
    ensures AllWhole(EmitCalls(json, emitted, id, payload)) && ACK_CALL !in EmitCalls(json, emitted, id, payload)
  {
    PayloadWhole(id, payload);
    if |json| + 5 <= FRAME_SIZE {
      PrintAllOne(Reg(json));
      assert ValidTokens([Reg(json)]);
    }
  }

  lemma PayloadWhole(id: byte, payload: seq<byte>)
    requires ValidId(id)
    ensures AllWhole(PayloadCalls(id, payload)) && ACK_CALL !in PayloadCalls(id, payload)
  {
    var cs := Cuts(id, payload, 2, [Sel(id)]);
    CutsValid(id, payload, 2, [Sel(id)]);
    CutsStart(id, payload, 2, [Sel(id)]);
    forall c | c in PayloadCalls(id, payload)
      ensures Whole(c) && c != ACK_CALL
    {
      var i :| 0 <= i < |cs| && PayloadCalls(id, payload)[i] == c;
      assert cs[i] in cs && cs[i][0] == Sel(id);
      assert c == PrintAll(cs[i]) && c[1] == id;
    }
  }

  // ---------------------------------------------------------------- the registry is sent once, and first

  predicate IsRegistry(call: seq<byte>) {
    |call| >= 3 && call[0] == ESC && call[1] == CONTROL && call[2] == REGISTRY
  }

  predicate NoRegistry(calls: seq<seq<byte>>) {
    forall c :: c in calls ==> !IsRegistry(c)
  }

  /** A registry that fits the array is the first call and no later one is a registry; one that does not fit is
      never sent. */
  predicate RegistryFirst(json: seq<byte>, calls: seq<seq<byte>>) {
    if |json| + 5 > FRAME_SIZE then NoRegistry(calls)
    else
      calls == [] ||
      (calls[0] == [ESC, CONTROL, REGISTRY, |json| / 0x100, |json| % 0x100] + json && NoRegistry(calls[1..]))
  }

  lemma PayloadNoRegistry(id: byte, payload: seq<byte>)
    requires ValidId(id)
    ensures NoRegistry(PayloadCalls(id, payload)) && PayloadCalls(id, payload) != []
  {
    var cs := Cuts(id, payload, 2, [Sel(id)]);
    CutsValid(id, payload, 2, [Sel(id)]);
    CutsStart(id, payload, 2, [Sel(id)]);
    forall c | c in PayloadCalls(id, payload)
      ensures !IsRegistry(c)
    {
      var i :| 0 <= i < |cs| && PayloadCalls(id, payload)[i] == c;
      assert cs[i] in cs && cs[i][0] == Sel(id);
      assert c == PrintAll(cs[i]) && c[1] == id;
    }
    CutsSome(id, payload, 2, [Sel(id)]);
  }

  lemma {:induction false} CutsSome(id: byte, payload: seq<byte>, used: nat, open: seq<Token>)
    requires used >= 2
    ensures Cuts(id, payload, used, open) != []
    decreases |payload|, used
  {
    if payload != [] && used + 4 < FRAME_SIZE {
      CutsSome(id, payload[1..], used + Width(payload[0]), open + [PayloadToken(payload[0])]);
    }
  }

  /** The calls of one more payload; `emitted` tells whether there have been any before. */
  lemma RegistryStaysFirst(json: seq<byte>, calls: seq<seq<byte>>, emitted: bool, id: byte, payload: seq<byte>)
    requires ValidId(id) && RegistryFirst(json, calls) && (emitted <==> calls != [])
    ensures var more := calls + EmitCalls(json, emitted, id, payload); RegistryFirst(json, more) && more != []
  {
    PayloadNoRegistry(id, payload);
    var ps := PayloadCalls(id, payload);
    if emitted {
      assert [] + ps == ps;
      assert (calls + ps)[1..] == calls[1..] + ps;
    } else if |json| + 5 <= FRAME_SIZE {
      assert RegistryCalls(json) == [Print(Reg(json))];
      assert calls + (RegistryCalls(json) + ps) == [Print(Reg(json))] + ps;
    } else {
      assert calls + (RegistryCalls(json) + ps) == ps;
    }
  }

  // ---------------------------------------------------------------- the array is used up

  lemma PrintedLength(open: seq<Token>, b: byte)
    requires ValidTokens(open)
    ensures ValidTokens(open + [PayloadToken(b)])
    ensures |PrintAll(open + [PayloadToken(b)])| == |PrintAll(open)| + Width(b)
  {
    PrintAllConcat(open, [PayloadToken(b)]);
    PrintAllOne(PayloadToken(b));
  }

  /** Every call of a payload but the last fills the array up to its last four bytes, and none exceeds it. */
  lemma {:induction false} CallsFull(id: byte, payload: seq<byte>, used: nat, open: seq<Token>)
    requires ValidId(id) && ValidTokens(open) && 2 <= used == |PrintAll(open)| < FRAME_SIZE - 2
    ensures var cs := Cuts(id, payload, used, open);
            && ValidCalls(cs)
            && (forall i :: 0 <= i < |cs| ==> |PrintAll(cs[i])| < FRAME_SIZE)
            && (forall i :: 0 <= i < |cs| - 1 ==> |PrintAll(cs[i])| >= FRAME_SIZE - 4)
    decreases |payload|, used
  {
    CutsValid(id, payload, used, open);
    if payload == [] {
      PrintAllConcat(open, [Def]);
      PrintAllOne(Def);
    } else if used + 4 >= FRAME_SIZE {
      PrintAllOne(Sel(id));
      CallsFull(id, payload, 2, [Sel(id)]);
      var rest := Cuts(id, payload, 2, [Sel(id)]);
      assert forall i :: 0 < i <= |rest| ==> ([open] + rest)[i] == rest[i - 1];
    } else {
      PrintedLength(open, payload[0]);
      CallsFull(id, payload[1..], used + Width(payload[0]), open + [PayloadToken(payload[0])]);
    }
  }
}
