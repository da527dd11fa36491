/** The host's inner demultiplexer (`feed_virtioso_byte` in host/tcu_com.c) as a byte-at-a-time
    transition function over the escape flag, the control-record parser, the cursor, the stream
    table and the PTY logs. */
module Demux {
  import opened Bytes
  import opened LineEnding
  import opened TagTable

  /** The control-record parser: `control_state` with the length and buffer it needs. */
  datatype Control =
    | Idle
    | Cmd
    | RegistryHi
    | RegistryLo(hi: byte)
    | RegistryBody(want: nat, got: seq<byte>)
    | AnnounceHi(kind: byte)
    | AnnounceLo(kind: byte, hi: byte)
    | AnnounceBody(kind: byte, want: nat, got: seq<byte>)

  /** The state that outlives a token: stream table, PTYs, cursor (-1 is unframed), acknowledgements
      seen, and the registry text once one was accepted. */
  datatype Core = Core(table: Table, ptys: seq<Pty>, cursor: int, acks: nat, registry: Option<string>, patch: bool)

  /** The whole machine. `live` turns false when a byte makes the C function return an error, which
      ends the input thread. */
  datatype Host = Host(core: Core, esc: bool, ctrl: Control, live: bool)

  const UNFRAMED: nat := 2

  function Initial(patch: bool): Host {
    Host(Core(BUILTINS, [FRESH, FRESH, FRESH], -1, 0, None, patch), false, Idle, true)
  }

  /** Write one byte to PTY `i`. */
  function WriteTo(c: Core, i: int, b: byte): Core {
    if 0 <= i < |c.ptys| then c.(ptys := c.ptys[i := Put(c.patch, c.ptys[i], b)]) else c
  }

  /** An unescaped payload byte: to the selected stream, or to the unframed log. */
  function PlainByte(c: Core, b: byte): Core {
    WriteTo(c, if c.cursor < 0 then UNFRAMED else c.cursor, b)
  }

  /** An escaped 0xfe: to the selected stream, and dropped when there is none. */
  function LiteralEsc(c: Core): Core {
    if c.cursor >= 0 then WriteTo(c, c.cursor, ESC) else c
  }

  function Select(c: Core, id: byte): Core {
    c.(cursor := Find(c.table.tags, id))
  }

  /** A complete CONNECTED or DISCONNECTED record; only the former changes anything. */
  function Announce(c: Core, kind: byte, payload: seq<byte>): Core {
    if kind == CONNECTED && payload != [] then WithTable(c, Connect(c.table, payload)) else c
  }

  function Blank(n: nat): (ps: seq<Pty>)
    ensures |ps| == n && forall i :: 0 <= i < n ==> ps[i] == FRESH
  {
    seq(n, i => FRESH)
  }

  /** Install a longer table, opening a PTY for each new entry. */
  function WithTable(c: Core, t: Table): Core {
    if |t.tags| <= |c.ptys| then c.(table := t)
    else c.(table := t, ptys := c.ptys + Blank(|t.tags| - |c.ptys|))
  }

  /** A complete registry record: only the first one is applied. None is the fatal error. */
  ghost function Register(c: Core, json: seq<byte>): Option<Core> {
    if c.registry.Some? then Some(c) else
    match ApplyRegistry(c.table, CStr(Text(json)))
    case None => None
    case Some(t) => Some(WithTable(c.(registry := Some(CStr(Text(json)))), t))
  }

  lemma RegisterFirst(c: Core, json: seq<byte>, text: string, r: Option<Table>)
    requires c.registry.None? && CStr(Text(json)) == text && ApplyRegistry(c.table, text) == r
    ensures Register(c, json) == if r.Some? then Some(WithTable(c.(registry := Some(text)), r.value)) else None
  {
  }

  ghost function StepControl(h: Host, b: byte): Host {
    match h.ctrl
    case Idle => h
    case Cmd =>
      if b == REGISTRY then h.(ctrl := RegistryHi)
      else if b == ACK then h.(core := h.core.(acks := h.core.acks + 1), ctrl := Idle)
      else if b == CONNECTED || b == DISCONNECTED then h.(ctrl := AnnounceHi(b))
      else h.(ctrl := Idle)
    case RegistryHi => h.(ctrl := RegistryLo(b))
    case RegistryLo(hi) => h.(ctrl := if hi == 0 == b then Idle else RegistryBody(Word(hi, b), []))
    case RegistryBody(want, got) =>
      if |got| + 1 < want then h.(ctrl := RegistryBody(want, got + [b])) else
      (match Register(h.core, got + [b])
       case None => Host(h.core.(registry := Some(CStr(Text(got + [b])))), h.esc, Idle, false)
       case Some(c) => h.(core := c, ctrl := Idle))
    case AnnounceHi(kind) => h.(ctrl := AnnounceLo(kind, b))
    case AnnounceLo(kind, hi) => h.(ctrl := if hi == 0 == b then Idle else AnnounceBody(kind, Word(hi, b), []))
    case AnnounceBody(kind, want, got) =>
      if |got| + 1 < want then h.(ctrl := AnnounceBody(kind, want, got + [b]))
      else h.(core := Announce(h.core, kind, got + [b]), ctrl := Idle)
  }

  ghost function StepEscaped(h: Host, b: byte): Host {
    if b == DEFAULT then h.(core := h.core.(cursor := -1), esc := false)
    else if b == ESC then h.(core := LiteralEsc(h.core), esc := false)
    else if b == CONTROL then h.(esc := false, ctrl := Cmd)
    else h.(core := Select(h.core, b), esc := false)
  }

  ghost function Step(h: Host, b: byte): Host {
    if !h.live then h
    else if h.ctrl != Idle then StepControl(h, b)
    else if h.esc then StepEscaped(h, b)
    else if b == ESC then h.(esc := true)
    else h.(core := PlainByte(h.core, b))
  }

  ghost function Run(h: Host, bs: seq<byte>): Host
    decreases bs
  {
    if bs == [] then h else Run(Step(h, bs[0]), bs[1..])
  }

  lemma {:induction false} RunConcat(h: Host, a: seq<byte>, b: seq<byte>)
    ensures Run(h, a + b) == Run(Run(h, a), b)
    decreases a
  {
    if a == [] {
      assert a + b == b;
    } else {
      assert (a + b)[1..] == a[1..] + b;
      RunConcat(Step(h, a[0]), a[1..], b);
    }
  }

  lemma RunOne(h: Host, b: byte)
    ensures Run(h, [b]) == Step(h, b)
  {
    assert Run(Step(h, b), [b][1..]) == Step(h, b);
  }

  lemma RunCons(h: Host, b: byte, bs: seq<byte>)
    ensures Run(h, [b] + bs) == Run(Step(h, b), bs)
  {
    assert ([b] + bs)[1..] == bs;
  }

  lemma {:induction false} RunStopped(h: Host, bs: seq<byte>)
    requires !h.live
    ensures Run(h, bs) == h
    decreases bs
  {
    if bs != [] {
      RunStopped(h, bs[1..]);
    }
  }

  // ---------------------------------------------------------------- the invariant over every byte sequence

  /** Table, PTYs and cursor agree: as many PTYs as entries, and the cursor is -1 or a stream entry. */
  ghost predicate CoreOk(c: Core) {
    && TagTable.Valid(c.table)
    && |c.ptys| == |c.table.tags|
    && (c.cursor == -1 || 3 <= c.cursor < |c.table.tags|)
    && (forall i :: 0 <= i < |c.ptys| ==> !(c.ptys[i].seenN && c.ptys[i].seenR))
  }

  ghost predicate HostOk(h: Host) {
    && CoreOk(h.core)
    && (h.ctrl.RegistryBody? ==> |h.ctrl.got| < h.ctrl.want)
    && (h.ctrl.AnnounceBody? ==> |h.ctrl.got| < h.ctrl.want)
    && (h.esc ==> h.ctrl.Idle?)
  }

  /** What a step may do to the table: keep its entries, and the PTYs of the built-ins other than the unframed log. */
  ghost predicate Grows(c: Core, d: Core) {
    && c.table.tags <= d.table.tags
    && d.patch == c.patch
    && |c.ptys| >= 3 && |d.ptys| >= 3 && d.ptys[0] == c.ptys[0] && d.ptys[1] == c.ptys[1]
  }

  lemma WithTableOk(c: Core, t: Table)
    requires CoreOk(c) && TagTable.Valid(t) && c.table.tags <= t.tags
    ensures CoreOk(WithTable(c, t)) && Grows(c, WithTable(c, t))
  {
  }

  lemma StepControlOk(h: Host, b: byte)
    requires HostOk(h) && h.live && h.ctrl != Idle
    ensures HostOk(Step(h, b)) && Grows(h.core, Step(h, b).core)
  {
    if h.ctrl.AnnounceBody? {
      AnnounceOk(h.core, h.ctrl.kind, h.ctrl.got + [b]);
    }
    if h.ctrl.RegistryBody? {
      RegisterOk(h.core, h.ctrl.got + [b]);
    }
  }

  lemma AnnounceOk(c: Core, kind: byte, payload: seq<byte>)
    requires CoreOk(c)
    ensures CoreOk(Announce(c, kind, payload)) && Grows(c, Announce(c, kind, payload))
  {
    if kind == CONNECTED && payload != [] {
      UpdatesKeepTable(c.table, "", payload);
      WithTableOk(c, Connect(c.table, payload));
    }
  }

  lemma RegisterOk(c: Core, json: seq<byte>)
    requires CoreOk(c)
    ensures var r := Register(c, json); r.Some? ==> CoreOk(r.value) && Grows(c, r.value)
  {
    var text := CStr(Text(json));
    UpdatesKeepTable(c.table, text, [0]);
    var t := ApplyRegistry(c.table, text);
    if c.registry.None? && t.Some? {
      WithTableOk(c.(registry := Some(text)), t.value);
    }
  }

  lemma StepOk(h: Host, b: byte)
    requires HostOk(h)
    ensures HostOk(Step(h, b)) && Grows(h.core, Step(h, b).core)
  {
    if h.live {
      if h.ctrl != Idle {
        StepControlOk(h, b);
      } else if h.esc {
        if b != DEFAULT && b != ESC && b != CONTROL {
          var k := Find(h.core.table.tags, b);
          if k >= 0 {
            LookupUnique(h.core.table, b, k);
          }
        }
      }
    }
  }

  /** Over every byte sequence: distinct nonzero ids, one PTY per entry, a cursor that is -1 or a stream
      entry, entries never removed or renamed, and no byte ever written to the two reserved PTYs. */
  lemma {:induction false} RunOk(h: Host, bs: seq<byte>)
    requires HostOk(h)
    ensures HostOk(Run(h, bs)) && Grows(h.core, Run(h, bs).core)
    decreases bs
  {
    if bs != [] {
      StepOk(h, bs[0]);
      RunOk(Step(h, bs[0]), bs[1..]);
    }
  }

  /** The same from the initial state: whatever the bytes, the inner machine leaves the two reserved PTYs alone. */
  lemma ReachableOk(patch: bool, bs: seq<byte>)
    ensures var h := Run(Initial(patch), bs);
            HostOk(h) && h.core.patch == patch && h.core.ptys[..2] == [FRESH, FRESH]
  {
    RunOk(Initial(patch), bs);
  }
}
