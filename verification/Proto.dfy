/** The two frame encoders of linux/virtioso-mux-proto, and what the host makes of their frames. */
module Proto {
  import opened Bytes
  import opened LineEnding
  import opened TagTable
  import opened Demux
  import opened Tokens

  /** Payload bytes with every 0xfe doubled. */
  function Stuffed(payload: seq<byte>): seq<byte> {
    if payload == [] then [] else
    var last := payload[|payload| - 1];
    Stuffed(payload[..|payload| - 1]) + if last == ESC then [ESC, ESC] else [last]
  }

  function DataFrame(id: byte, payload: seq<byte>): seq<byte> {
    [ESC, id] + Stuffed(payload) + [ESC, DEFAULT]
  }

  /** The record body is a 16-bit length at most: an over-long name is cut. */
  function CutName(name: seq<byte>): seq<byte> {
    if |name| <= 0xfffe then name else name[..0xfffe]
  }

  function ControlFrame(kind: byte, id: byte, name: seq<byte>): seq<byte> {
    var n := 1 + |CutName(name)|;
    [ESC, CONTROL, kind, Hi(n), Lo(n), id] + CutName(name)
  }

  /** A growable byte vector. */
  class Vec {
    var data: seq<byte>

    constructor ()
      ensures data == []
    {
      data := [];
    }

    method Push(b: byte)
      modifies this
      ensures data == old(data) + [b]
    {
      data := data + [b];
    }
  }

  method EncodeDataFrame(id: byte, payload: seq<byte>, out: Vec)
    modifies out
    ensures out.data == old(out.data) + DataFrame(id, payload)
  {
    out.Push(ESC);
    out.Push(id);
    for i := 0 to |payload|
      invariant out.data == old(out.data) + [ESC, id] + Stuffed(payload[..i])
    {
      var b := payload[i];
      if b == ESC {
        out.Push(ESC);
      }
      out.Push(b);
      assert payload[..i + 1][..i] == payload[..i];
    }
    assert payload[..|payload|] == payload;
    out.Push(ESC);
    out.Push(DEFAULT);
  }

  /** A name that fits is sent as it is, a longer one without its end. */
  method EncodeControlFrame(kind: byte, id: byte, name: seq<byte>, out: Vec)
    modifies out
    ensures out.data == old(out.data) + ControlFrame(kind, id, name)
    ensures |name| <= 0xfffe ==>
              out.data == old(out.data) + [ESC, CONTROL, kind, (1 + |name|) / 0x100, (1 + |name|) % 0x100, id] + name
    ensures |name| > 0xfffe ==> out.data == old(out.data) + [ESC, CONTROL, kind, 0xff, 0xff, id] + name[..0xfffe]
  {
    var payloadLen := 1 + |name|;
    if payloadLen > 0xffff {
      payloadLen := 0xffff;
    }
    out.Push(ESC);
    out.Push(CONTROL);
    out.Push(kind);
    out.Push(payloadLen / 0x100);
    out.Push(payloadLen % 0x100);
    out.Push(id);
    out.data := out.data + name[..payloadLen - 1];
    assert name[..payloadLen - 1] == CutName(name);
  }

  // ---------------------------------------------------------------- frames as tokens

  function PayloadToken(b: byte): Token {
    if b == ESC then LitEsc else Plain(b)
  }

  function PayloadTokens(payload: seq<byte>): (ts: seq<Token>)
    ensures |ts| == |payload| && ValidTokens(ts)
  {
    seq(|payload|, i requires 0 <= i < |payload| => PayloadToken(payload[i]))
  }

  function CursorToken(id: byte): Token {
    if id == DEFAULT then Def else Sel(id)
  }

  /** A frame for stream `id`; 0 is what an exhausted id pool hands out. */
  predicate FrameId(id: byte) {
    id == 0 || ValidId(id)
  }

  function DataTokens(id: byte, payload: seq<byte>): (ts: seq<Token>)
    requires FrameId(id)
    ensures ValidTokens(ts)
  {
    [CursorToken(id)] + PayloadTokens(payload) + [Def]
  }

  lemma {:induction false} StuffedIsPrinted(payload: seq<byte>)
    ensures Stuffed(payload) == PrintAll(PayloadTokens(payload))
  {
    if payload != [] {
      var init, last := payload[..|payload| - 1], payload[|payload| - 1];
      StuffedIsPrinted(init);
      assert PayloadTokens(payload) == PayloadTokens(init) + [PayloadToken(last)];
      PrintAllConcat(PayloadTokens(init), [PayloadToken(last)]);
      PrintAllOne(PayloadToken(last));
    }
  }

  lemma DataFrameIsPrinted(id: byte, payload: seq<byte>)
    requires FrameId(id)
    ensures DataFrame(id, payload) == PrintAll(DataTokens(id, payload))
  {
    StuffedIsPrinted(payload);
    var ts := PayloadTokens(payload);
    PrintAllCons(CursorToken(id), ts);
    PrintAllConcat([CursorToken(id)] + ts, [Def]);
    PrintAllOne(Def);
  }

  lemma ControlFrameIsPrinted(kind: byte, id: byte, name: seq<byte>)
    requires kind == CONNECTED || kind == DISCONNECTED
    ensures ValidToken(Ann(kind, [id] + CutName(name)))
    ensures ControlFrame(kind, id, name) == Print(Ann(kind, [id] + CutName(name)))
  {
  }

  // ---------------------------------------------------------------- what the host makes of them

  ghost function WriteAll(c: Core, i: int, bs: seq<byte>): Core {
    if 0 <= i < |c.ptys| then c.(ptys := c.ptys[i := PutAll(c.patch, c.ptys[i], bs)]) else c
  }

  /** Payload bytes under the current cursor: to the selected stream; without one to the unframed log,
      where escaped bytes are lost. */
  ghost function Deliver(c: Core, payload: seq<byte>): Core {
    if c.cursor >= 0 then WriteAll(c, c.cursor, payload) else WriteAll(c, UNFRAMED, Without(payload, ESC))
  }

  ghost function Cursor(c: Core, id: byte): Core {
    if id == DEFAULT then c.(cursor := -1) else Select(c, id)
  }

  lemma WriteAllCons(c: Core, i: int, b: byte, bs: seq<byte>)
    ensures WriteAll(WriteTo(c, i, b), i, bs) == WriteAll(c, i, [b] + bs)
  {
    assert ([b] + bs)[1..] == bs;
  }

  lemma WriteAllNone(c: Core, i: int)
    ensures WriteAll(c, i, []) == c
  {
  }

  lemma {:induction false} PayloadEffect(h: Host, payload: seq<byte>)
    requires h.live
    ensures InterpAll(h, PayloadTokens(payload)) == h.(core := Deliver(h.core, payload))
    decreases payload
  {
    if payload == [] {
      WriteAllNone(h.core, h.core.cursor);
      WriteAllNone(h.core, UNFRAMED);
    } else {
      var b, rest := payload[0], payload[1..];
      var h' := Interp(h, PayloadToken(b));
      assert PayloadTokens(payload)[1..] == PayloadTokens(rest);
      PayloadEffect(h', rest);
      assert payload == [b] + rest;
      if h.core.cursor >= 0 {
        WriteAllCons(h.core, h.core.cursor, b, rest);
      } else if b == ESC {
        assert [] + Without(rest, ESC) == Without(rest, ESC);
      } else {
        WriteAllCons(h.core, UNFRAMED, b, Without(rest, ESC));
      }
    }
  }

  lemma DataTokensEffect(h: Host, id: byte, payload: seq<byte>)
    requires FrameId(id) && h.live
    ensures InterpAll(h, DataTokens(id, payload)) == h.(core := Deliver(Cursor(h.core, id), payload).(cursor := -1))
  {
    var h1 := Interp(h, CursorToken(id));
    InterpConcat(h, [CursorToken(id)] + PayloadTokens(payload), [Def]);
    InterpConcat(h, [CursorToken(id)], PayloadTokens(payload));
    InterpOne(h, CursorToken(id));
    PayloadEffect(h1, payload);
    InterpOne(h1.(core := Deliver(h1.core, payload)), Def);
  }

  /** A data frame of any length delivers exactly its payload to the stream's PTY and leaves the cursor
      unframed; for an unknown stream and for id 0 the payload goes to the unframed log. */
  lemma DataFrameEffect(h: Host, id: byte, payload: seq<byte>)
    requires AtBoundary(h) && FrameId(id) && h.live
    ensures Run(h, DataFrame(id, payload)) == h.(core := Deliver(Cursor(h.core, id), payload).(cursor := -1))
  {
    DataFrameIsPrinted(id, payload);
    TokensRefined(h, DataTokens(id, payload));
    DataTokensEffect(h, id, payload);
  }

  /** Encoder and decoder compose to the identity on a registered stream (patch off). */
  lemma DataRoundTrip(h: Host, id: byte, payload: seq<byte>)
    requires AtBoundary(h) && HostOk(h) && ValidId(id) && h.live && !h.core.patch
    requires Find(h.core.table.tags, id) >= 0
    ensures var k := Find(h.core.table.tags, id);
            var c := Run(h, DataFrame(id, payload)).core;
            && |c.ptys| == |h.core.ptys| && k < |c.ptys| && c.cursor == -1 && c.table == h.core.table
            && c.ptys[k].log == h.core.ptys[k].log + payload
            && forall j :: 0 <= j < |c.ptys| && j != k ==> c.ptys[j] == h.core.ptys[j]
  {
    var k := Find(h.core.table.tags, id);
    DataFrameEffect(h, id, payload);
    UnpatchedIsVerbatim(h.core.ptys[k], payload);
  }

  /** A CONNECTED frame registers its id, unless it is known or the table is full, under the name cut to
      the host's 255 bytes and first NUL. A DISCONNECTED frame changes nothing. */
  lemma ControlFrameEffect(h: Host, kind: byte, id: byte, name: seq<byte>)
    requires AtBoundary(h) && HostOk(h) && h.live && (kind == CONNECTED || kind == DISCONNECTED)
    ensures Run(h, ControlFrame(kind, id, name)) ==
            if kind == DISCONNECTED || Find(h.core.table.tags, id) >= 0 || |h.core.table.tags| >= CAPACITY then h
            else h.(core := WithTable(h.core, Extend(h.core.table, Tag(HostName(name), id), false)))
    ensures Kept(name, HostName(name)) && (|name| <= 255 && 0 !in name ==> HostName(name) == Text(name))
  {
    ControlFrameIsPrinted(kind, id, name);
    TokenRefined(h, Ann(kind, [id] + CutName(name)));
    assert ([id] + CutName(name))[1..] == CutName(name);
    if |name| > 0xfffe {
      assert CutName(name)[..255] == name[..255];
    }
  }
}
