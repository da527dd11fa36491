/** The host's link layer: the NVIDIA 0xff escape layer around VCMux in both directions
    (`feed_nvidia_outer_or_virtioso_raw` and `write_virtioso_data_to_uart` in host/tcu_com.c), and the
    round trip through both layers. */
module Outer {
  import opened Bytes
  import opened LineEnding
  import opened TagTable
  import opened Demux
  import opened Tokens
  import opened Proto
  import HM = HostMachine

  const OUTER_ESC: byte := 0xff
  const OUTER_RESET: byte := 0xfd
  const FRAGMENT: nat := 512

  /** `chip_tags`, by index. */
  const CHIP_TAGS: seq<byte> :=
    [0xe1, 0xe2, 0xe3, 0xe4, 0xe5, 0xe6, 0xe7, 0xe8, 0xea, 0xeb, 0xec, 0xed, 0xef, 0xf0, 0xe9]

  /** The position of a byte in `CHIP_TAGS`, or -1. */
  function ChipIndex(b: byte): int {
    if 0xe1 <= b <= 0xe8 then b - 0xe1
    else if 0xea <= b <= 0xed then b - 0xea + 8
    else if b == 0xef then 12 else if b == 0xf0 then 13 else if b == 0xe9 then 14 else -1
  }

  lemma ChipIndexMeaning(b: byte)
    ensures var k := ChipIndex(b); -1 <= k < |CHIP_TAGS|
    ensures ChipIndex(b) >= 0 ==> CHIP_TAGS[ChipIndex(b)] == b
    ensures forall i :: 0 <= i < |CHIP_TAGS| && CHIP_TAGS[i] == b ==> i == ChipIndex(b)
  {
  }

  method FindChip(b: byte) returns (k: int)
    ensures k == ChipIndex(b)
  {
    ChipIndexMeaning(b);
    for i := 0 to |CHIP_TAGS|
      invariant forall j :: 0 <= j < i ==> CHIP_TAGS[j] != b
    {
      if b == CHIP_TAGS[i] {
        return i;
      }
    }
    return -1;
  }

  /** `-O raw`, or `-O nvidia-tcu` with the index of the chip tag that carries VCMux traffic. */
  datatype Mode = Raw | Nvidia(carrier: int)

  datatype Link = Link(host: Host, esc: bool, tag: int)

  /** The state the input thread starts in. */
  function NewLink(patch: bool): Link {
    Link(Initial(patch), false, -1)
  }

  /** Bytes written to the raw_ccplex PTY. */
  ghost function AddRaw(h: Host, bs: seq<byte>): Host {
    h.(core := WriteAll(h.core, 0, bs))
  }

  ghost function LinkStep(m: Mode, l: Link, b: byte): Link {
    if !l.host.live then l
    else if m.Raw? then l.(host := Step(AddRaw(l.host, [b]), b))
    else if l.esc then
      if b == OUTER_ESC then
        (if l.tag == m.carrier then l.(esc := false, host := Step(l.host, OUTER_ESC)) else l.(esc := false))
      else if b == OUTER_RESET then Link(l.host.(esc := false, core := l.host.core.(cursor := -1)), false, -1)
      else if ChipIndex(b) >= 0 then l.(esc := false, tag := ChipIndex(b))
      else l.(esc := false)
    else if b == OUTER_ESC then l.(esc := true)
    else if l.tag == m.carrier then l.(host := Step(AddRaw(l.host, [b]), b))
    else l
  }

  ghost function LinkRun(m: Mode, l: Link, bs: seq<byte>): Link
    decreases bs
  {
    if bs == [] then l else LinkRun(m, LinkStep(m, l, bs[0]), bs[1..])
  }

  /** The decode loop of `tty_input_handler` in VCMux mode: feed bytes until one of them is fatal. */
  class Input {
    const mode: Mode
    const demux: HM.Demuxer
    var esc: bool
    var tag: int

    ghost function Now(): Link
      reads this, demux, demux.buffer
    {
      Link(demux.Now(), esc, tag)
    }

    constructor (mode: Mode, patch: bool)
      ensures fresh(demux) && demux.Valid() && Now() == Link(Initial(patch), false, -1)
      ensures this.mode == mode && demux.buffer == null
    {
      this.mode := mode;
      demux := new HM.Demuxer(patch);
      esc, tag := false, -1;
    }

    method FeedInner(ch: byte, raw: bool) returns (ok: bool)
      requires demux.Valid() && demux.live
      modifies demux, demux.buffer
      ensures demux.Valid() && ok == demux.live
      ensures demux.Now() == Step(if raw then AddRaw(old(demux.Now()), [ch]) else old(demux.Now()), ch)
      ensures demux.buffer == old(demux.buffer) || demux.buffer == null || fresh(demux.buffer)
    {
      if raw && 0 < demux.ptyMax {
        demux.Flush(0, ch);
        assert demux.Now() == AddRaw(old(demux.Now()), [ch]) by {
          assert PutAll(demux.patch, old(demux.ptys[0]), [ch]) ==
                 PutAll(demux.patch, Put(demux.patch, old(demux.ptys[0]), ch), [ch][1..]);
        }
      }
      ok := demux.Feed(ch);
    }

    /** A command behind an outer escape: reset, or select a chip tag. */
    method FeedCommand(ch: byte)
      requires demux.Valid() && demux.live && mode.Nvidia? && esc && ch != OUTER_ESC
      modifies this, demux`cursor, demux`inEscape
      ensures demux.Valid() && demux.live && Now() == LinkStep(mode, old(Now()), ch)
    {
      esc := false;
      if ch == OUTER_RESET {
        tag := -1;
        demux.Reset();
      } else {
        var k := FindChip(ch);
        if k >= 0 {
          tag := k;
        }
      }
    }

    /** `feed_nvidia_outer_or_virtioso_raw`. */
    method Feed(ch: byte) returns (ok: bool)
      requires demux.Valid() && demux.live
      modifies this, demux, demux.buffer
      ensures demux.Valid() && ok == demux.live && Now() == LinkStep(mode, old(Now()), ch)
      ensures demux.buffer == old(demux.buffer) || demux.buffer == null || fresh(demux.buffer)
    {
      ok := true;
      if mode.Raw? {
        ok := FeedInner(ch, true);
      } else if esc && ch != OUTER_ESC {
        FeedCommand(ch);
      } else if esc {
        esc := false;
        if tag == mode.carrier {
          ok := FeedInner(OUTER_ESC, false);
        }
      } else if ch == OUTER_ESC {
        esc := true;
      } else if tag == mode.carrier {
        ok := FeedInner(ch, true);
      }
    }

    method Decode(bytes: seq<byte>)
      requires demux.Valid()
      modifies this, demux, demux.buffer
      ensures demux.Valid() && Now() == LinkRun(mode, old(Now()), bytes)
    {
      var i := 0;
      while i < |bytes| && demux.live
        invariant i <= |bytes| && demux.Valid()
        invariant demux.buffer == old(demux.buffer) || demux.buffer == null || fresh(demux.buffer)
        invariant LinkRun(mode, Now(), bytes[i..]) == LinkRun(mode, old(Now()), bytes)
      {
        var ok := Feed(bytes[i]);
        assert bytes[i..][1..] == bytes[i + 1..];
        i := i + 1;
      }
      LinkStopped(mode, Now(), bytes[i..]);
    }
  }

  lemma {:induction false} LinkStopped(m: Mode, l: Link, bs: seq<byte>)
    requires !l.host.live || bs == []
    ensures LinkRun(m, l, bs) == l
    decreases bs
  {
    if bs != [] {
      LinkStopped(m, l, bs[1..]);
    }
  }

  lemma {:induction false} LinkConcat(m: Mode, l: Link, a: seq<byte>, b: seq<byte>)
    ensures LinkRun(m, l, a + b) == LinkRun(m, LinkRun(m, l, a), b)
    decreases a
  {
    if a == [] {
      assert a + b == b;
    } else {
      assert (a + b)[1..] == a[1..] + b;
      LinkConcat(m, LinkStep(m, l, a[0]), a[1..], b);
    }
  }

  /** An escape and the byte behind it, in nvidia-tcu mode: a doubled 0xff under the carrier's tag is one to the
      inner layer, 0xfd resets, the value of a chip tag selects it, and every other byte is dropped. */
  lemma OuterPair(m: Mode, l: Link, b: byte)
    requires m.Nvidia? && l.host.live && !l.esc
    ensures var l' := LinkRun(m, l, [OUTER_ESC, b]);
            && (b == OUTER_ESC ==> l' == if l.tag == m.carrier then l.(host := Step(l.host, OUTER_ESC)) else l)
            && (b == OUTER_RESET ==> l' == Link(l.host.(esc := false, core := l.host.core.(cursor := -1)), false, -1))
            && (forall k :: 0 <= k < |CHIP_TAGS| && b == CHIP_TAGS[k] ==> l' == l.(tag := k))
            && (b != OUTER_ESC && b != OUTER_RESET && b !in CHIP_TAGS ==> l' == l)
  {
    ChipIndexMeaning(b);
    assert [OUTER_ESC, b][1..] == [b] && [b][1..] == [];
    assert LinkRun(m, LinkStep(m, l, OUTER_ESC), [b]) == LinkRun(m, LinkStep(m, LinkStep(m, l, OUTER_ESC), b), []);
  }

  // ---------------------------------------------------------------- the inner machine ignores the raw log

  lemma AddRawCore(c: Core, bs: seq<byte>, i: int, b: byte)
    requires i != 0
    ensures WriteTo(WriteAll(c, 0, bs), i, b) == WriteAll(WriteTo(c, i, b), 0, bs)
  {
    var d := WriteAll(c, 0, bs);
    if 0 <= i < |c.ptys| {
      assert c.ptys[0 := PutAll(c.patch, c.ptys[0], bs)][i := Put(c.patch, c.ptys[i], b)]
          == c.ptys[i := Put(c.patch, c.ptys[i], b)][0 := PutAll(c.patch, c.ptys[0], bs)];
    }
  }

  lemma AddRawTable(c: Core, bs: seq<byte>, t: Table)
    requires |c.ptys| > 0
    ensures WithTable(WriteAll(c, 0, bs), t) == WriteAll(WithTable(c, t), 0, bs)
  {
    if |t.tags| > |c.ptys| {
      var more := Blank(|t.tags| - |c.ptys|);
      assert c.ptys[0 := PutAll(c.patch, c.ptys[0], bs)] + more == (c.ptys + more)[0 := PutAll(c.patch, c.ptys[0], bs)];
    }
  }

  lemma StepAddRaw(h: Host, bs: seq<byte>, b: byte)
    requires HostOk(h)
    ensures Step(AddRaw(h, bs), b) == AddRaw(Step(h, b), bs)
  {
    if h.live {
      if h.ctrl.AnnounceBody? && |h.ctrl.got| + 1 >= h.ctrl.want {
        AddRawTable(h.core, bs, Connect(h.core.table, h.ctrl.got + [b]));
      } else if h.ctrl.RegistryBody? && |h.ctrl.got| + 1 >= h.ctrl.want && h.core.registry.None? {
        var json := CStr(Text(h.ctrl.got + [b]));
        var t := ApplyRegistry(h.core.table, json);
        if t.Some? {
          AddRawTable(h.core.(registry := Some(json)), bs, t.value);
        }
      } else if h.ctrl == Idle {
        AddRawCore(h.core, bs, UNFRAMED, b);
        if h.core.cursor >= 0 {
          AddRawCore(h.core, bs, h.core.cursor, b);
        }
      }
    }
  }

  lemma {:induction false} RunAddRaw(h: Host, raw: seq<byte>, bs: seq<byte>)
    requires HostOk(h)
    ensures Run(AddRaw(h, raw), bs) == AddRaw(Run(h, bs), raw)
    decreases bs
  {
    if bs != [] {
      StepAddRaw(h, raw, bs[0]);
      StepOk(h, bs[0]);
      RunAddRaw(Step(h, bs[0]), raw, bs[1..]);
    }
  }

  lemma AddRawTwice(h: Host, a: seq<byte>, b: seq<byte>)
    ensures AddRaw(AddRaw(h, a), b) == AddRaw(h, a + b)
  {
    if |h.core.ptys| > 0 {
      PutAllConcat(h.core.patch, h.core.ptys[0], a, b);
    }
  }

  // ---------------------------------------------------------------- the downlink writer

  /** Every 0xff doubled. */
  function Doubled(bs: seq<byte>): seq<byte> {
    if bs == [] then []
    else Doubled(bs[..|bs| - 1]) + (if bs[|bs| - 1] == OUTER_ESC then [OUTER_ESC, OUTER_ESC] else [bs[|bs| - 1]])
  }

  lemma {:induction false} DoubledConcat(a: seq<byte>, b: seq<byte>)
    ensures Doubled(a + b) == Doubled(a) + Doubled(b)
    decreases b
  {
    if b == [] {
      assert a + b == a;
    } else {
      assert (a + b)[..|a + b| - 1] == a + b[..|b| - 1];
      DoubledConcat(a, b[..|b| - 1]);
    }
  }

  lemma DoubledOne(b: byte)
    ensures Doubled([b]) == if b == OUTER_ESC then [OUTER_ESC, OUTER_ESC] else [b]
  {
    assert [b][..0] == [];
  }

  /** One fragment on the wire. */
  function Wrapped(m: Mode, inner: seq<byte>): seq<byte>
    requires m.Raw? || 0 <= m.carrier < |CHIP_TAGS|
  {
    if m.Raw? then inner else [OUTER_ESC, CHIP_TAGS[m.carrier]] + Doubled(inner)
  }

  function Head(data: seq<byte>): seq<byte> {
    if |data| <= FRAGMENT then data else data[..FRAGMENT]
  }

  /** A write is cut into frames of at most 512 payload bytes; an empty write sends nothing. */
  function Written(m: Mode, id: byte, data: seq<byte>): seq<byte>
    requires m.Raw? || 0 <= m.carrier < |CHIP_TAGS|
    decreases |data|
  {
    if data == [] then [] else Wrapped(m, DataFrame(id, Head(data))) + Written(m, id, data[|Head(data)|..])
  }

  function Marked(b: byte, mark: byte): seq<byte> {
    if b == mark then [mark, b] else [b]
  }

  lemma StuffedSnoc(head: seq<byte>, chunk: seq<byte>, i: nat)
    requires i <= |chunk|
    ensures head + Stuffed(chunk[..0]) == head
    ensures i < |chunk| ==> head + Stuffed(chunk[..i + 1]) == head + Stuffed(chunk[..i]) + Marked(chunk[i], ESC)
  {
    if i < |chunk| {
      assert chunk[..i + 1][..i] == chunk[..i];
    }
  }

  lemma DoubledSnoc(head: seq<byte>, inner: seq<byte>, i: nat)
    requires i <= |inner|
    ensures head + Doubled(inner[..0]) == head
    ensures i < |inner| ==> head + Doubled(inner[..i + 1]) == head + Doubled(inner[..i]) + Marked(inner[i], OUTER_ESC)
  {
    if i < |inner| {
      assert inner[..i + 1][..i] == inner[..i];
    }
  }

  /** The VCMux writer; `physical` is the `-w` option. */
  class Writer {
    const mode: Mode
    const tags: seq<Tag>
    const physical: bool
    var tty: seq<byte>

    constructor (mode: Mode, tags: seq<Tag>, physical: bool)
      ensures this.mode == mode && this.tags == tags && this.physical == physical && tty == []
    {
      this.mode, this.tags, this.physical, tty := mode, tags, physical, [];
    }

    /** One byte into a buffer, doubled if it is `mark`. */
    static method PutMarked(buf: array<byte>, at: nat, b: byte, mark: byte) returns (used: nat)
      requires at + 2 <= buf.Length
      modifies buf
      ensures at < used <= at + 2 && buf[..used] == old(buf[..at]) + Marked(b, mark)
    {
      used := at;
      if b == mark {
        buf[used] := mark;
        used := used + 1;
      }
      buf[used] := b;
      used := used + 1;
    }

    /** The inner frame of one fragment, built in a buffer of twice its size plus four. */
    method FillInner(id: byte, data: seq<byte>, from: nat, n: nat, buf: array<byte>) returns (used: nat)
      requires from + n <= |data| && buf.Length == 2 * n + 4
      modifies buf
      ensures used <= buf.Length && buf[..used] == DataFrame(id, data[from..from + n])
    {
      ghost var chunk := data[from..from + n];
      buf[0], buf[1] := ESC, id;
      used := 2;
      StuffedSnoc([ESC, id], chunk, 0);
      var i := 0;
      while i < n
        invariant i <= n && 2 <= used <= 2 + 2 * i
        invariant buf[..used] == [ESC, id] + Stuffed(chunk[..i])
      {
        used := PutMarked(buf, used, data[from + i], ESC);
        StuffedSnoc([ESC, id], chunk, i);
        i := i + 1;
      }
      assert chunk[..n] == chunk;
      buf[used], buf[used + 1] := ESC, DEFAULT;
      used := used + 2;
    }

    method FillOuter(inner: seq<byte>, buf: array<byte>) returns (used: nat)
      requires buf.Length >= 2 * |inner| + 2
      requires mode.Nvidia? && 0 <= mode.carrier < |CHIP_TAGS|
      modifies buf
      ensures used <= buf.Length && buf[..used] == Wrapped(mode, inner)
      ensures buf[..used] == [OUTER_ESC, CHIP_TAGS[mode.carrier]] + Doubled(inner)
    {
      ghost var header := [OUTER_ESC, CHIP_TAGS[mode.carrier]];
      buf[0], buf[1] := OUTER_ESC, CHIP_TAGS[mode.carrier];
      used := 2;
      DoubledSnoc(header, inner, 0);
      var i := 0;
      while i < |inner|
        invariant i <= |inner| && 2 <= used <= 2 + 2 * i
        invariant buf[..used] == header + Doubled(inner[..i])
      {
        used := PutMarked(buf, used, inner[i], OUTER_ESC);
        DoubledSnoc(header, inner, i);
        i := i + 1;
      }
      assert inner[..i] == inner;
    }

    /** Bytes on the UART, behind the outer layer if there is one. */
    method Put(bytes: seq<byte>)
      requires mode.Raw? || 0 <= mode.carrier < |CHIP_TAGS|
      modifies this
      ensures tty == old(tty) + Wrapped(mode, bytes)
    {
      if mode.Nvidia? {
        var outer := new byte[2 * |bytes| + 2];
        var total := FillOuter(bytes, outer);
        tty := tty + outer[..total];
      } else {
        tty := tty + bytes;
      }
    }

    /** One turn of the write loop. */
    method SendFragment(id: byte, data: seq<byte>, from: nat, n: nat)
      requires from + n <= |data| && (mode.Raw? || 0 <= mode.carrier < |CHIP_TAGS|)
      modifies this
      ensures tty == old(tty) + Wrapped(mode, DataFrame(id, data[from..from + n]))
    {
      var inner := new byte[2 * n + 4];
      var used := FillInner(id, data, from, n, inner);
      Put(inner[..used]);
    }

    method SendAll(id: byte, data: seq<byte>)
      requires mode.Raw? || 0 <= mode.carrier < |CHIP_TAGS|
      modifies this
      ensures tty == old(tty) + Written(mode, id, data)
    {
      var processed := 0;
      while processed < |data|
        invariant processed <= |data|
        invariant old(tty) + Written(mode, id, data) == tty + Written(mode, id, data[processed..])
      {
        var n := if |data| - processed > FRAGMENT then FRAGMENT else |data| - processed;
        ghost var frame := Wrapped(mode, DataFrame(id, data[processed..processed + n]));
        ghost var tail := Written(mode, id, data[processed + n..]);
        WrittenStep(mode, id, data, processed, n);
        assert tty + (frame + tail) == (tty + frame) + tail;
        SendFragment(id, data, processed, n);
        processed := processed + n;
      }
    }

    /** `write_virtioso_data_to_uart`: -22 for a bad index; a write to a physical PTY goes out unframed with
        `-w` and not at all without; every other write is framed. */
    method Write(idx: nat, data: seq<byte>) returns (code: int)
      requires mode.Raw? || 0 <= mode.carrier < |CHIP_TAGS|
      modifies this
      ensures code == if idx >= |tags| then -22 else 0
      ensures tty == old(tty) +
                if idx >= |tags| || (Physical(idx) && !physical) then []
                else if Physical(idx) then Wrapped(mode, data)
                else Written(mode, tags[idx].value, data)
    {
      if idx >= |tags| {
        return -22;
      }
      if idx == 0 || idx == UNFRAMED {
        if physical {
          Put(data);
        }
        return 0;
      }
      SendAll(tags[idx].value, data);
      return 0;
    }
  }

  /** raw_ccplex and physical_uart_default. */
  predicate Physical(idx: nat) {
    idx == 0 || idx == UNFRAMED
  }

  lemma WrittenStep(m: Mode, id: byte, data: seq<byte>, from: nat, n: nat)
    requires m.Raw? || 0 <= m.carrier < |CHIP_TAGS|
    requires from < |data| && n == if |data| - from > FRAGMENT then FRAGMENT else |data| - from
    ensures Written(m, id, data[from..]) ==
              Wrapped(m, DataFrame(id, data[from..from + n])) + Written(m, id, data[from + n..])
  {
    var rest := data[from..];
    assert Head(rest) == data[from..from + n];
    assert rest[n..] == data[from + n..];
  }

  // ---------------------------------------------------------------- the round trip

  /** The tag behind an outer escape and `b`. */
  function Retag(tag: int, b: byte): int {
    if b == OUTER_RESET then -1 else if ChipIndex(b) >= 0 then ChipIndex(b) else tag
  }

  /** In nvidia-tcu mode: `b` is part of the outer layer, or belongs to another tag. */
  predicate Outside(m: Mode, esc: bool, tag: int, b: byte) {
    m.Nvidia? && (esc != (b == OUTER_ESC) || tag != m.carrier)
  }

  /** The outer state behind one byte. */
  function Behind(m: Mode, esc: bool, tag: int, b: byte): (bool, int) {
    if m.Raw? then (esc, tag)
    else if esc && b != OUTER_ESC then (false, Retag(tag, b))
    else (!esc && b == OUTER_ESC, tag)
  }

  /** What the outer layer passes on to the inner one: a byte, or an outer reset. */
  datatype Passed = In(b: byte) | Cut

  function PassedBy(m: Mode, esc: bool, tag: int, b: byte): seq<Passed> {
    if !Outside(m, esc, tag, b) then [In(b)] else if esc && b == OUTER_RESET then [Cut] else []
  }

  /** What a link in outer state (`esc`, `tag`) passes on. */
  function Passes(m: Mode, esc: bool, tag: int, wire: seq<byte>): seq<Passed>
    decreases wire
  {
    if wire == [] then [] else
    var (esc', tag') := Behind(m, esc, tag, wire[0]);
    PassedBy(m, esc, tag, wire[0]) + Passes(m, esc', tag', wire[1..])
  }

  function After(m: Mode, esc: bool, tag: int, wire: seq<byte>): (bool, int)
    decreases wire
  {
    if wire == [] then (esc, tag) else
    var (esc', tag') := Behind(m, esc, tag, wire[0]);
    After(m, esc', tag', wire[1..])
  }

  function Ins(bs: seq<byte>): seq<Passed> {
    seq(|bs|, i requires 0 <= i < |bs| => In(bs[i]))
  }

  function InBytes(ps: seq<Passed>): seq<byte> {
    if ps == [] then [] else (if ps[0].In? then [ps[0].b] else []) + InBytes(ps[1..])
  }

  /** An outer reset at the inner machine: the cursor and a pending escape go, the control parser stays. */
  ghost function Cleared(h: Host): Host {
    if h.live then h.(esc := false, core := h.core.(cursor := -1)) else h
  }

  ghost function Receive(h: Host, p: Passed): Host {
    match p
    case In(b) => Step(h, b)
    case Cut => Cleared(h)
  }

  ghost function RunPassed(h: Host, ps: seq<Passed>): Host
    decreases ps
  {
    if ps == [] then h else RunPassed(Receive(h, ps[0]), ps[1..])
  }

  /** What is received before the machine stops. */
  ghost function Heard(h: Host, ps: seq<Passed>): seq<Passed>
    decreases ps
  {
    if ps == [] || !h.live then [] else [ps[0]] + Heard(Receive(h, ps[0]), ps[1..])
  }

  /** Of the bytes passed on, those that are copied to the raw PTY: all in raw mode, all but 0xff in
      nvidia-tcu mode. */
  function RawCopy(m: Mode, inner: seq<byte>): seq<byte> {
    if m.Raw? then inner else Without(inner, OUTER_ESC)
  }

  lemma {:induction false} InBytesConcat(a: seq<Passed>, b: seq<Passed>)
    ensures InBytes(a + b) == InBytes(a) + InBytes(b)
  {
    if a == [] {
      assert a + b == b;
    } else {
      assert (a + b)[1..] == a[1..] + b;
      InBytesConcat(a[1..], b);
      Regrouped(if a[0].In? then [a[0].b] else [], InBytes(a[1..]), InBytes(b));
    }
  }

  lemma {:induction false} InBytesOfIns(bs: seq<byte>)
    ensures InBytes(Ins(bs)) == bs
  {
    if bs != [] {
      InBytesOfIns(bs[1..]);
      assert Ins(bs)[1..] == Ins(bs[1..]);
    }
  }

  lemma RawCopyConcat(m: Mode, a: seq<byte>, b: seq<byte>)
    ensures RawCopy(m, a) + RawCopy(m, b) == RawCopy(m, a + b)
  {
    WithoutConcat(a, b, OUTER_ESC);
  }

  lemma RawCopyOne(m: Mode, b: byte)
    ensures RawCopy(m, [b]) == (if m.Nvidia? && b == OUTER_ESC then [] else [b]) && RawCopy(m, []) == []
  {
    assert Without([b], OUTER_ESC) == (if b == OUTER_ESC then [] else [b]) + Without([b][1..], OUTER_ESC);
  }

  lemma ReceiveOk(h: Host, p: Passed)
    requires HostOk(h)
    ensures HostOk(Receive(h, p))
  {
    if p.In? {
      StepOk(h, p.b);
    }
  }

  lemma ReceiveAddRaw(h: Host, raw: seq<byte>, p: Passed)
    requires HostOk(h)
    ensures Receive(AddRaw(h, raw), p) == AddRaw(Receive(h, p), raw)
  {
    if p.In? {
      StepAddRaw(h, raw, p.b);
    }
  }

  lemma {:induction false} RunPassedAddRaw(h: Host, raw: seq<byte>, ps: seq<Passed>)
    requires HostOk(h)
    ensures RunPassed(AddRaw(h, raw), ps) == AddRaw(RunPassed(h, ps), raw) && Heard(AddRaw(h, raw), ps) == Heard(h, ps)
    decreases ps
  {
    if ps != [] {
      ReceiveOk(h, ps[0]);
      ReceiveAddRaw(h, raw, ps[0]);
      RunPassedAddRaw(Receive(h, ps[0]), raw, ps[1..]);
    }
  }

  lemma {:induction false} PassedStopped(h: Host, ps: seq<Passed>)
    requires !h.live
    ensures RunPassed(h, ps) == h && Heard(h, ps) == []
    decreases ps
  {
    if ps != [] {
      PassedStopped(h, ps[1..]);
    }
  }

  lemma LinkByte(m: Mode, l: Link, b: byte)
    requires HostOk(l.host) && l.host.live
    ensures var (esc, tag) := Behind(m, l.esc, l.tag, b);
            var ps := PassedBy(m, l.esc, l.tag, b);
            LinkStep(m, l, b) == Link(AddRaw(RunPassed(l.host, ps), RawCopy(m, InBytes(ps))), esc, tag)
  {
    RawCopyOne(m, b);
    if !Outside(m, l.esc, l.tag, b) {
      PassedOne(l.host, In(b));
      StepAddRaw(l.host, [b], b);
      assert AddRaw(Step(l.host, b), []) == Step(l.host, b);
    } else if l.esc && b == OUTER_RESET {
      PassedOne(l.host, Cut);
      assert AddRaw(Cleared(l.host), []) == Cleared(l.host);
    } else {
      assert AddRaw(l.host, []) == l.host;
    }
  }

  lemma PassedOne(h: Host, p: Passed)
    ensures RunPassed(h, [p]) == Receive(h, p) && InBytes([p]) == if p.In? then [p.b] else []
  {
    assert RunPassed(h, [p]) == RunPassed(Receive(h, p), [p][1..]);
    assert InBytes([p]) == (if p.In? then [p.b] else []) + InBytes([p][1..]);
  }

  /** What one byte passes on, in front of what the rest of the wire does. */
  lemma HeardFirst(h: Host, ps: seq<Passed>, rest: seq<Passed>)
    requires h.live && |ps| <= 1
    ensures RunPassed(h, ps + rest) == RunPassed(RunPassed(h, ps), rest)
    ensures Heard(h, ps + rest) == ps + Heard(RunPassed(h, ps), rest)
  {
    if ps == [] {
      assert ps + rest == rest;
    } else {
      assert ps == [ps[0]] && (ps + rest)[1..] == rest;
      assert RunPassed(h, ps) == RunPassed(Receive(h, ps[0]), ps[1..]);
    }
  }

  /** The link layer over every wire: the inner machine takes the bytes and resets passed on, in order, the
      raw PTY gets a copy of the bytes up to the one that stops the machine, and nothing else changes but
      the outer state. */
  lemma {:induction false} LinkCarries(m: Mode, l: Link, wire: seq<byte>)
    requires HostOk(l.host)
    ensures var ps := Passes(m, l.esc, l.tag, wire);
            var l' := LinkRun(m, l, wire);
            && l'.host == AddRaw(RunPassed(l.host, ps), RawCopy(m, InBytes(Heard(l.host, ps))))
            && (l'.host.live ==> (l'.esc, l'.tag) == After(m, l.esc, l.tag, wire))
    decreases wire
  {
    var ps := Passes(m, l.esc, l.tag, wire);
    if wire == [] || !l.host.live {
      PassedStoppedOrDone(l.host, ps);
      LinkStopped(m, l, wire);
      RawCopyOne(m, 0);
      assert AddRaw(l.host, []) == l.host;
    } else {
      var (esc, tag) := Behind(m, l.esc, l.tag, wire[0]);
      var first, rest := PassedBy(m, l.esc, l.tag, wire[0]), Passes(m, esc, tag, wire[1..]);
      LinkByte(m, l, wire[0]);
      HeardFirst(l.host, first, rest);
      var h, raw := RunPassed(l.host, first), RawCopy(m, InBytes(first));
      FirstOk(l.host, first);
      AddRawOk(h, raw);
      LinkCarries(m, Link(AddRaw(h, raw), esc, tag), wire[1..]);
      RunPassedAddRaw(h, raw, rest);
      AddRawTwice(RunPassed(h, rest), raw, RawCopy(m, InBytes(Heard(h, rest))));
      RawCopyConcat(m, InBytes(first), InBytes(Heard(h, rest)));
      InBytesConcat(first, Heard(h, rest));
    }
  }

  lemma PassedStoppedOrDone(h: Host, ps: seq<Passed>)
    requires !h.live || ps == []
    ensures RunPassed(h, ps) == h && Heard(h, ps) == []
  {
    if ps != [] {
      PassedStopped(h, ps);
    }
  }

  lemma FirstOk(h: Host, ps: seq<Passed>)
    requires HostOk(h) && |ps| <= 1
    ensures HostOk(RunPassed(h, ps))
  {
    if ps != [] {
      ReceiveOk(h, ps[0]);
      PassedOne(h, ps[0]);
      assert ps == [ps[0]];
    }
  }

  // ---------------------------------------------------------------- which outer resets can be seen

  /** No stream is selected and no escape pending. */
  ghost predicate Clear(h: Host) {
    h.live ==> !h.esc && h.core.cursor == -1
  }

  /** Every reset comes at a moment when it changes nothing. */
  ghost predicate Harmless(h: Host, ps: seq<Passed>)
    decreases ps
  {
    ps == [] || ((ps[0].Cut? ==> Clear(h)) && Harmless(Receive(h, ps[0]), ps[1..]))
  }

  lemma {:induction false} PassedConcat(h: Host, a: seq<Passed>, b: seq<Passed>)
    ensures RunPassed(h, a + b) == RunPassed(RunPassed(h, a), b)
    ensures Harmless(h, a + b) <==> Harmless(h, a) && Harmless(RunPassed(h, a), b)
    decreases a
  {
    if a == [] {
      assert a + b == b;
    } else {
      assert (a + b)[1..] == a[1..] + b;
      PassedConcat(Receive(h, a[0]), a[1..], b);
    }
  }

  lemma {:induction false} HarmlessRuns(h: Host, ps: seq<Passed>)
    requires Harmless(h, ps)
    ensures RunPassed(h, ps) == Run(h, InBytes(ps))
    decreases ps
  {
    if ps != [] {
      HarmlessRuns(Receive(h, ps[0]), ps[1..]);
      if ps[0].In? {
        RunCons(h, ps[0].b, InBytes(ps[1..]));
      } else {
        assert [] + InBytes(ps[1..]) == InBytes(ps[1..]);
      }
    }
  }

  lemma {:induction false} InsHarmless(h: Host, bs: seq<byte>)
    ensures Harmless(h, Ins(bs)) && RunPassed(h, Ins(bs)) == Run(h, bs)
    decreases bs
  {
    if bs != [] {
      assert Ins(bs)[1..] == Ins(bs[1..]);
      InsHarmless(Step(h, bs[0]), bs[1..]);
    }
  }

  /** Exactly when resets cannot be seen: at no moment of a run do they make a difference if and only if each
      of them comes while no stream is selected and no escape is pending. */
  lemma {:induction false} ResetsUnseenIff(h: Host, ps: seq<Passed>)
    ensures Harmless(h, ps) <==> forall n :: 0 <= n <= |ps| ==> RunPassed(h, ps[..n]) == Run(h, InBytes(ps[..n]))
    decreases |ps|
  {
    if Harmless(h, ps) {
      forall n | 0 <= n <= |ps|
        ensures RunPassed(h, ps[..n]) == Run(h, InBytes(ps[..n]))
      {
        assert ps[..n] + ps[n..] == ps;
        PassedConcat(h, ps[..n], ps[n..]);
        HarmlessRuns(h, ps[..n]);
      }
    } else {
      var n := SeenSomewhere(h, ps);
    }
  }

  /** The shortest prefix that ends in a reset which shows. */
  lemma {:induction false} SeenSomewhere(h: Host, ps: seq<Passed>) returns (n: nat)
    requires !Harmless(h, ps)
    ensures n <= |ps| && RunPassed(h, ps[..n]) != Run(h, InBytes(ps[..n]))
    decreases |ps|
  {
    var last := |ps| - 1;
    var init := ps[..last];
    assert ps == init + [ps[last]];
    PassedConcat(h, init, [ps[last]]);
    if !Harmless(h, init) {
      n := SeenSomewhere(h, init);
      assert init[..n] == ps[..n];
    } else {
      n := |ps|;
      var g := RunPassed(h, init);
      assert Harmless(Receive(g, ps[last]), [ps[last]][1..]);
      assert ps[last].Cut? && Cleared(g) != g;
      HarmlessRuns(h, init);
      InBytesConcat(init, [ps[last]]);
      PassedOne(g, ps[last]);
      assert InBytes(init) + [] == InBytes(init);
      assert ps[..n] == ps;
    }
  }

  /** The wire brings exactly `inner` to the host, whatever other tags' traffic is between its bytes, and its
      resets cannot be seen. */
  ghost predicate Brings(m: Mode, l: Link, wire: seq<byte>, inner: seq<byte>) {
    var ps := Passes(m, l.esc, l.tag, wire);
    InBytes(ps) == inner && Harmless(l.host, ps)
  }

  /** A wire that brings `inner` takes the inner machine where `inner` takes it. */
  lemma LinkBrings(m: Mode, l: Link, wire: seq<byte>, inner: seq<byte>)
    requires HostOk(l.host) && Brings(m, l, wire, inner) && Run(l.host, inner).live
    ensures var (esc, tag) := After(m, l.esc, l.tag, wire);
            LinkRun(m, l, wire) == Link(AddRaw(Run(l.host, inner), RawCopy(m, inner)), esc, tag)
  {
    var ps := Passes(m, l.esc, l.tag, wire);
    LinkCarries(m, l, wire);
    HarmlessRuns(l.host, ps);
    HeardAll(l.host, ps);
  }

  lemma {:induction false} HeardAll(h: Host, ps: seq<Passed>)
    requires RunPassed(h, ps).live
    ensures Heard(h, ps) == ps
    decreases ps
  {
    if !h.live {
      PassedStopped(h, ps);
    } else if ps != [] {
      HeardAll(Receive(h, ps[0]), ps[1..]);
    }
  }

  // ---------------------------------------------------------------- the writer's wire

  lemma {:induction false} PassesConcat(m: Mode, esc: bool, tag: int, a: seq<byte>, b: seq<byte>)
    ensures var (esc', tag') := After(m, esc, tag, a);
            && Passes(m, esc, tag, a + b) == Passes(m, esc, tag, a) + Passes(m, esc', tag', b)
            && After(m, esc, tag, a + b) == After(m, esc', tag', b)
    decreases a
  {
    if a == [] {
      assert a + b == b;
    } else {
      var (esc', tag') := Behind(m, esc, tag, a[0]);
      assert (a + b)[1..] == a[1..] + b;
      PassesConcat(m, esc', tag', a[1..], b);
      var (e, t) := After(m, esc', tag', a[1..]);
      Regrouped(PassedBy(m, esc, tag, a[0]), Passes(m, esc', tag', a[1..]), Passes(m, e, t, b));
    }
  }

  lemma InsConcat(a: seq<byte>, b: seq<byte>)
    ensures Ins(a) + Ins(b) == Ins(a + b)
  {
  }

  lemma PassesOne(m: Mode, esc: bool, tag: int, b: byte)
    ensures Passes(m, esc, tag, [b]) == PassedBy(m, esc, tag, b) && After(m, esc, tag, [b]) == Behind(m, esc, tag, b)
  {
    var (esc', tag') := Behind(m, esc, tag, b);
    assert Passes(m, esc', tag', [b][1..]) == [] && After(m, esc', tag', [b][1..]) == (esc', tag');
  }

  lemma PassesTwo(m: Mode, esc: bool, tag: int, a: byte, b: byte)
    ensures var (esc', tag') := Behind(m, esc, tag, a);
            && Passes(m, esc, tag, [a, b]) == PassedBy(m, esc, tag, a) + PassedBy(m, esc', tag', b)
            && After(m, esc, tag, [a, b]) == Behind(m, esc', tag', b)
  {
    PassesOne(m, esc, tag, a);
    var (esc', tag') := Behind(m, esc, tag, a);
    PassesOne(m, esc', tag', b);
    assert [a, b] == [a] + [b];
    PassesConcat(m, esc, tag, [a], [b]);
  }

  lemma {:induction false} PassesDoubled(m: Mode, inner: seq<byte>)
    requires m.Nvidia?
    ensures Passes(m, false, m.carrier, Doubled(inner)) == Ins(inner)
    ensures After(m, false, m.carrier, Doubled(inner)) == (false, m.carrier)
  {
    if inner != [] {
      var init, b := inner[..|inner| - 1], inner[|inner| - 1];
      PassesDoubled(m, init);
      if b == OUTER_ESC {
        PassesConcat(m, false, m.carrier, Doubled(init), [OUTER_ESC, OUTER_ESC]);
        PassesTwo(m, false, m.carrier, OUTER_ESC, OUTER_ESC);
      } else {
        PassesConcat(m, false, m.carrier, Doubled(init), [b]);
        PassesOne(m, false, m.carrier, b);
      }
      assert Ins(inner) == Ins(init) + [In(b)];
    }
  }

  lemma {:induction false} PassesRaw(esc: bool, tag: int, wire: seq<byte>)
    ensures Passes(Raw, esc, tag, wire) == Ins(wire) && After(Raw, esc, tag, wire) == (esc, tag)
  {
    if wire != [] {
      PassesRaw(esc, tag, wire[1..]);
      assert Ins(wire) == [In(wire[0])] + Ins(wire[1..]);
    }
  }

  /** One fragment on the wire passes on its inner bytes, from every outer state that is not escaped. */
  lemma PassesWrapped(m: Mode, tag: int, inner: seq<byte>)
    requires m.Raw? || 0 <= m.carrier < |CHIP_TAGS|
    ensures Passes(m, false, tag, Wrapped(m, inner)) == Ins(inner)
    ensures After(m, false, tag, Wrapped(m, inner)) == (false, if m.Raw? then tag else m.carrier)
  {
    if m.Raw? {
      PassesRaw(false, tag, inner);
    } else {
      var chip := CHIP_TAGS[m.carrier];
      ChipIndexMeaning(chip);
      PassesTwo(m, false, tag, OUTER_ESC, chip);
      PassesConcat(m, false, tag, [OUTER_ESC, chip], Doubled(inner));
      PassesDoubled(m, inner);
      assert [] + Ins(inner) == Ins(inner);
    }
  }

  lemma AddRawOk(h: Host, raw: seq<byte>)
    requires HostOk(h)
    ensures HostOk(AddRaw(h, raw))
  {
    NeverBothFlags(h.core.patch, h.core.ptys[0], raw);
  }

  lemma {:induction false} NeverBothFlags(patch: bool, p: Pty, bs: seq<byte>)
    requires !(p.seenN && p.seenR)
    ensures !(PutAll(patch, p, bs).seenN && PutAll(patch, p, bs).seenR)
    decreases bs
  {
    if bs != [] {
      NeverBothFlags(patch, Put(patch, p, bs[0]), bs[1..]);
    }
  }

  /** The inner bytes of a write, without the outer layer. */
  function Inner(id: byte, data: seq<byte>): seq<byte> {
    Written(Raw, id, data)
  }

  /** The host after a write to registered stream `k` arrives: the data is in that PTY, the cursor is
      unframed if anything was written. */
  ghost function Delivered(h: Host, k: int, data: seq<byte>): Host {
    if data == [] then h else h.(core := WriteAll(h.core, k, data).(cursor := -1))
  }

  lemma DeliveredTwice(h: Host, k: int, a: seq<byte>, b: seq<byte>)
    requires a != []
    ensures Delivered(Delivered(h, k, a), k, b) == Delivered(h, k, a + b)
  {
    if 0 <= k < |h.core.ptys| {
      PutAllConcat(h.core.patch, h.core.ptys[k], a, b);
    }
    if b == [] {
      assert a + b == a;
    }
  }

  lemma DeliveredOk(h: Host, k: int, data: seq<byte>)
    requires HostOk(h) && 0 <= k < |h.core.ptys|
    ensures HostOk(Delivered(h, k, data))
  {
    NeverBothFlags(h.core.patch, h.core.ptys[k], data);
  }

  /** Through the inner layer alone. */
  lemma {:induction false} InnerRoundTrip(h: Host, id: byte, data: seq<byte>)
    requires AtBoundary(h) && HostOk(h) && h.live && ValidId(id) && Find(h.core.table.tags, id) >= 0
    ensures Run(h, Inner(id, data)) == Delivered(h, Find(h.core.table.tags, id), data)
    decreases |data|
  {
    if data != [] {
      var k := Find(h.core.table.tags, id);
      var head, rest := Head(data), data[|Head(data)|..];
      RunConcat(h, DataFrame(id, head), Inner(id, rest));
      DataFrameEffect(h, id, head);
      DeliveredOk(h, k, head);
      InnerRoundTrip(Delivered(h, k, head), id, rest);
      DeliveredTwice(h, k, head, rest);
      assert head + rest == data;
    }
  }

  /** The bytes of a whole write pass on the inner bytes, fragment after fragment. */
  lemma {:induction false} PassesWritten(m: Mode, tag: int, id: byte, data: seq<byte>)
    requires m.Raw? || 0 <= m.carrier < |CHIP_TAGS|
    ensures Passes(m, false, tag, Written(m, id, data)) == Ins(Inner(id, data))
    ensures After(m, false, tag, Written(m, id, data)) == (false, if m.Raw? || data == [] then tag else m.carrier)
    decreases |data|
  {
    if data != [] {
      var frame, rest := DataFrame(id, Head(data)), data[|Head(data)|..];
      WrittenHead(m, id, data);
      WrittenHead(Raw, id, data);
      PassesWritten(m, if m.Raw? then tag else m.carrier, id, rest);
      PassesFrame(m, tag, frame, Written(m, id, rest), Inner(id, rest));
    }
  }

  lemma PassesFrame(m: Mode, tag: int, frame: seq<byte>, wire: seq<byte>, inner: seq<byte>)
    requires m.Raw? || 0 <= m.carrier < |CHIP_TAGS|
    requires Passes(m, false, if m.Raw? then tag else m.carrier, wire) == Ins(inner)
    ensures Passes(m, false, tag, Wrapped(m, frame) + wire) == Ins(frame + inner)
    ensures After(m, false, tag, Wrapped(m, frame) + wire) == After(m, false, if m.Raw? then tag else m.carrier, wire)
  {
    PassesWrapped(m, tag, frame);
    PassesConcat(m, false, tag, Wrapped(m, frame), wire);
    InsConcat(frame, inner);
  }

  /** Nested round trip, in both modes: whatever the writer sends, of any length and to any registered
      stream, arrives as exactly that data in that stream's PTY; the raw PTY gets the copy of the inner
      bytes; nothing else changes but the cursors. */
  lemma NestedRoundTrip(m: Mode, l: Link, id: byte, data: seq<byte>)
    requires (m.Raw? || 0 <= m.carrier < |CHIP_TAGS|) && !l.esc
    requires AtBoundary(l.host) && HostOk(l.host) && l.host.live
    requires ValidId(id) && Find(l.host.core.table.tags, id) >= 0
    ensures LinkRun(m, l, Written(m, id, data)) ==
            Link(AddRaw(Delivered(l.host, Find(l.host.core.table.tags, id), data), RawCopy(m, Inner(id, data))),
                 false, if m.Raw? || data == [] then l.tag else m.carrier)
  {
    InnerRoundTrip(l.host, id, data);
    PassesWritten(m, l.tag, id, data);
    InBytesOfIns(Inner(id, data));
    InsHarmless(l.host, Inner(id, data));
    LinkBrings(m, l, Written(m, id, data), Inner(id, data));
  }

  lemma StreamIndex(h: Host, id: byte)
    requires HostOk(h) && ValidId(id) && Find(h.core.table.tags, id) >= 0
    ensures 3 <= Find(h.core.table.tags, id) < |h.core.ptys|
  {
    LookupUnique(h.core.table, id, Find(h.core.table.tags, id));
  }

  lemma WrittenHead(m: Mode, id: byte, data: seq<byte>)
    requires (m.Raw? || 0 <= m.carrier < |CHIP_TAGS|) && data != []
    ensures Written(m, id, data) == Wrapped(m, DataFrame(id, Head(data))) + Written(m, id, data[|Head(data)|..])
    ensures data == Head(data) + data[|Head(data)|..]
  {
  }
}
