/** The legacy NVIDIA TCU mode of host/tcu_com.c: the chunked, header-once writer and the tag decoder. */
module Legacy {
  import opened Bytes
  import opened LineEnding
  import opened Demux
  import opened Outer

  const CHUNK: nat := 4096
  const ENCODED: nat := 4 * CHUNK + 16

  /** The tag a reset selects: the last one. */
  const DEFAULT_TAG := |CHIP_TAGS| - 1

  /** The index of the raw PTY, one past the chip tags. */
  const RAW := |CHIP_TAGS|

  /** Payload as it goes to the UART: as it is from the raw PTY, with every 0xff doubled from the others. */
  function Escaped(idx: nat, bs: seq<byte>): seq<byte> {
    if idx == RAW then bs else Doubled(bs)
  }

  function Header(idx: nat): seq<byte>
    requires idx <= RAW
  {
    if idx == RAW then [] else [OUTER_ESC, CHIP_TAGS[idx]]
  }

  /** What one write sends: the tag once, then the data; nothing for no data. */
  function Sent(idx: nat, data: seq<byte>): seq<byte>
    requires idx <= RAW
  {
    if data == [] then [] else Header(idx) + Escaped(idx, data)
  }

  /** What one chunk sends: the tag in front of the first one only. */
  function Piece(idx: nat, first: bool, chunk: seq<byte>): seq<byte>
    requires idx <= RAW
  {
    (if first then Header(idx) else []) + Escaped(idx, chunk)
  }

  /** The legacy writer; `physical` is the `-w` option. */
  class Writer {
    var tty: seq<byte>
    const physical: bool

    constructor (physical: bool)
      ensures tty == [] && this.physical == physical
    {
      tty, this.physical := [], physical;
    }

    /** One byte into the encode buffer, doubled if it is 0xff of a tagged PTY. */
    static method PutByte(buf: array<byte>, at: nat, idx: nat, b: byte) returns (code: int, used: nat)
      modifies buf
      ensures at + 2 <= buf.Length ==>
                code == 0 && at < used <= at + 2 &&
                buf[..used] == old(buf[..at]) + if b == OUTER_ESC && idx != RAW then [b, OUTER_ESC] else [b]
    {
      used := at;
      if used >= buf.Length {
        return -12, used;
      }
      buf[used] := b;
      used := used + 1;
      if b == OUTER_ESC && idx != RAW {
        if used >= buf.Length {
          return -12, used;
        }
        buf[used] := OUTER_ESC;
        used := used + 1;
      }
      code := 0;
    }

    /** The tag header of the first chunk of a tagged PTY. */
    static method PutHeader(idx: nat, first: bool, buf: array<byte>) returns (used: nat)
      requires idx <= RAW && buf.Length >= 2
      modifies buf
      ensures used <= 2 && buf[..used] == if first then Header(idx) else []
    {
      used := 0;
      if first && idx != RAW {
        buf[0], buf[1] := OUTER_ESC, CHIP_TAGS[idx];
        used := 2;
      }
    }

    /** The payload of a chunk behind what the buffer holds. */
    static method PutPayload(buf: array<byte>, at: nat, idx: nat, chunk: seq<byte>) returns (code: int, used: nat)
      requires at + 2 * |chunk| <= buf.Length
      modifies buf
      ensures code == 0 && used <= buf.Length && buf[..used] == old(buf[..at]) + Escaped(idx, chunk)
    {
      ghost var before := buf[..at];
      code, used := 0, at;
      NothingEscaped(idx, before, chunk);
      var i := 0;
      while i < |chunk|
        invariant i <= |chunk| && code == 0 && used <= at + 2 * i && buf[..used] == before + Escaped(idx, chunk[..i])
      {
        code, used := PutByte(buf, used, idx, chunk[i]);
        if code != 0 {
          return;
        }
        EscapedSnoc(idx, before, chunk, i);
        i := i + 1;
      }
      assert chunk[..i] == chunk;
    }

    /** One chunk into the encode buffer. The buffer always has room: -12, its overflow error, never comes back. */
    method EncodeChunk(idx: nat, first: bool, chunk: seq<byte>, buf: array<byte>) returns (code: int, used: nat)
      requires idx <= RAW && |chunk| <= CHUNK && buf.Length == ENCODED
      modifies buf
      ensures code == 0 && used <= buf.Length && buf[..used] == Piece(idx, first, chunk)
    {
      used := PutHeader(idx, first, buf);
      code, used := PutPayload(buf, used, idx, chunk);
    }

    /** `write_data_to_uart` outside VCMux mode: -22 for a bad index; the raw PTY sends only with `-w`. */
    method Write(idx: nat, data: seq<byte>) returns (code: int)
      modifies this`tty
      ensures code == if idx > RAW then -22 else 0
      ensures tty == old(tty) + if idx < RAW || (idx == RAW && physical) then Sent(idx, data) else []
    {
      if idx > RAW {
        return -22;
      }
      if idx == RAW && !physical {
        return 0;
      }
      SendAll(idx, data);
      code := 0;
    }

    /** One turn of the chunk loop. */
    method SendChunk(idx: nat, data: seq<byte>, from: nat, n: nat, buf: array<byte>, ghost before: seq<byte>)
      requires idx <= RAW && 0 < n <= CHUNK && from + n <= |data| && buf.Length == ENCODED
      requires tty == before + Sent(idx, data[..from])
      modifies this`tty, buf
      ensures tty == before + Sent(idx, data[..from + n])
    {
      var code, used := EncodeChunk(idx, from == 0, data[from..from + n], buf);
      SentGrows(idx, data, from, n, before);
      tty := tty + buf[..used];
    }

    /** The chunk loop. */
    method SendAll(idx: nat, data: seq<byte>)
      requires idx <= RAW
      modifies this`tty
      ensures tty == old(tty) + Sent(idx, data)
    {
      var buf := new byte[ENCODED];
      var processed := 0;
      NothingSent(idx, data, tty);
      while processed < |data|
        invariant processed <= |data|
        invariant tty == old(tty) + Sent(idx, data[..processed])
      {
        var n := if |data| - processed > CHUNK then CHUNK else |data| - processed;
        SendChunk(idx, data, processed, n, buf, old(tty));
        processed := processed + n;
      }
      Whole(data);
    }
  }

  lemma NothingSent(idx: nat, data: seq<byte>, before: seq<byte>)
    requires idx <= RAW
    ensures before == before + Sent(idx, data[..0])
  {
  }

  lemma Whole(data: seq<byte>)
    ensures data[..|data|] == data
  {
  }

  lemma NothingEscaped(idx: nat, header: seq<byte>, chunk: seq<byte>)
    ensures header == header + Escaped(idx, chunk[..0])
  {
    assert chunk[..0] == [];
  }

  lemma EscapedSnoc(idx: nat, header: seq<byte>, chunk: seq<byte>, i: nat)
    requires i < |chunk|
    ensures header + Escaped(idx, chunk[..i + 1]) ==
            header + Escaped(idx, chunk[..i]) +
              if chunk[i] == OUTER_ESC && idx != RAW then [OUTER_ESC, OUTER_ESC] else [chunk[i]]
  {
    assert chunk[..i + 1] == chunk[..i] + [chunk[i]];
    DoubledConcat(chunk[..i], [chunk[i]]);
    DoubledOne(chunk[i]);
  }

  /** Where the chunks are cut makes no difference. */
  lemma SentGrows(idx: nat, data: seq<byte>, from: nat, n: nat, before: seq<byte>)
    requires idx <= RAW && 0 < n && from + n <= |data|
    ensures before + Sent(idx, data[..from + n]) ==
            before + Sent(idx, data[..from]) + Piece(idx, from == 0, data[from..from + n])
  {
    assert data[..from + n] == data[..from] + data[from..from + n];
    SentJoin(idx, data[..from], data[from..from + n], before);
  }

  lemma SentJoin(idx: nat, a: seq<byte>, b: seq<byte>, before: seq<byte>)
    requires idx <= RAW && b != []
    ensures before + Sent(idx, a + b) == before + Sent(idx, a) + Piece(idx, a == [], b)
  {
    if a == [] {
      assert a + b == b && before + [] == before;
    } else {
      DoubledConcat(a, b);
      Regroup(before, Header(idx), Escaped(idx, a), Escaped(idx, b));
    }
  }

  lemma Regroup(before: seq<byte>, h: seq<byte>, x: seq<byte>, y: seq<byte>)
    ensures before + (h + (x + y)) == before + (h + x) + ([] + y)
  {
  }

  // ---------------------------------------------------------------- the decoder

  /** The current tag index, the escape flag and one PTY per chip tag. */
  datatype Tcu = Tcu(cur: nat, esc: bool, ptys: seq<Pty>, patch: bool)

  predicate TcuOk(t: Tcu) {
    |t.ptys| == |CHIP_TAGS| && t.cur < |CHIP_TAGS|
  }

  function Keep(t: Tcu, b: byte): Tcu {
    if t.cur < |t.ptys| then t.(ptys := t.ptys[t.cur := Put(t.patch, t.ptys[t.cur], b)]) else t
  }

  /** The decode loop of `tty_input_handler` in legacy mode; the reset selects the last tag. */
  function TcuStep(t: Tcu, b: byte): Tcu {
    if t.esc then
      var u := t.(esc := false);
      if b == OUTER_ESC then Keep(u, OUTER_ESC)
      else if b == OUTER_RESET then u.(cur := DEFAULT_TAG)
      else if ChipIndex(b) >= 0 then u.(cur := ChipIndex(b)) else u
    else if b == OUTER_ESC then t.(esc := true)
    else Keep(t, b)
  }

  function TcuRun(t: Tcu, bs: seq<byte>): Tcu
    decreases bs
  {
    if bs == [] then t else TcuRun(TcuStep(t, bs[0]), bs[1..])
  }

  lemma {:induction false} TcuConcat(t: Tcu, a: seq<byte>, b: seq<byte>)
    ensures TcuRun(t, a + b) == TcuRun(TcuRun(t, a), b)
    decreases a
  {
    if a == [] {
      assert a + b == b;
    } else {
      assert (a + b)[1..] == a[1..] + b;
      TcuConcat(TcuStep(t, a[0]), a[1..], b);
    }
  }

  lemma TcuTwo(t: Tcu, a: byte, b: byte)
    ensures TcuRun(t, [a, b]) == TcuStep(TcuStep(t, a), b)
  {
    assert [a, b][1..] == [b] && [b][1..] == [];
    assert TcuRun(TcuStep(t, a), [b]) == TcuRun(TcuStep(TcuStep(t, a), b), []);
  }

  lemma TcuOne(t: Tcu, a: byte)
    ensures TcuRun(t, [a]) == TcuStep(t, a)
  {
    assert [a][1..] == [];
  }

  function KeepAll(t: Tcu, bs: seq<byte>): Tcu {
    if t.cur < |t.ptys| then t.(ptys := t.ptys[t.cur := PutAll(t.patch, t.ptys[t.cur], bs)]) else t
  }

  lemma {:induction false} DataDecodes(t: Tcu, data: seq<byte>)
    requires TcuOk(t) && !t.esc
    ensures TcuRun(t, Doubled(data)) == KeepAll(t, data)
    decreases |data|
  {
    if data != [] {
      var init, b := data[..|data| - 1], data[|data| - 1];
      DataDecodes(t, init);
      var u := KeepAll(t, init);
      if b == OUTER_ESC {
        TcuConcat(t, Doubled(init), [OUTER_ESC, OUTER_ESC]);
        TcuTwo(u, OUTER_ESC, OUTER_ESC);
      } else {
        TcuConcat(t, Doubled(init), [b]);
        TcuOne(u, b);
      }
      assert data == init + [b];
      PutAllSnoc(t.patch, t.ptys[t.cur], init, b);
    }
  }

  lemma WriteDecodes(t: Tcu, idx: nat, data: seq<byte>)
    requires TcuOk(t) && !t.esc && idx < RAW && data != []
    ensures TcuRun(t, Sent(idx, data)) == KeepAll(t.(cur := idx), data)
  {
    TcuConcat(t, [OUTER_ESC, CHIP_TAGS[idx]], Doubled(data));
    TcuTwo(t, OUTER_ESC, CHIP_TAGS[idx]);
    ChipIndexMeaning(CHIP_TAGS[idx]);
    DataDecodes(t.(cur := idx), data);
  }

  /** The bytes meant for tag `i` from tag index `cur` on: literal bytes and doubled 0xff while it is selected. */
  function Heard(i: nat, cur: nat, esc: bool, bs: seq<byte>): seq<byte>
    decreases bs
  {
    if bs == [] then [] else
    var b := bs[0];
    (if esc == (b == OUTER_ESC) && cur == i then [b] else []) +
      Heard(i, if esc then Switched(cur, b) else cur, !esc && b == OUTER_ESC, bs[1..])
  }

  /** The tag behind an escape and `b`; the reset selects the default tag, the last one. */
  function Switched(cur: nat, b: byte): nat {
    if b == OUTER_RESET then DEFAULT_TAG else if ChipIndex(b) >= 0 then ChipIndex(b) else cur
  }

  /** The meaning of the legacy decoder, on every byte sequence. */
  lemma {:induction false} EveryLegacyByte(t: Tcu, bs: seq<byte>, i: nat)
    requires TcuOk(t) && i < RAW
    ensures TcuOk(TcuRun(t, bs)) && TcuRun(t, bs).patch == t.patch
    ensures TcuRun(t, bs).ptys[i] == PutAll(t.patch, t.ptys[i], Heard(i, t.cur, t.esc, bs))
    decreases bs
  {
    if bs != [] {
      var b, rest := bs[0], bs[1..];
      ChipIndexMeaning(b);
      var u := TcuStep(t, b);
      EveryLegacyByte(u, rest, i);
      var more := Heard(i, u.cur, u.esc, rest);
      if t.esc == (b == OUTER_ESC) && t.cur == i {
        assert ([b] + more)[1..] == more;
      } else {
        assert [] + more == more;
      }
    }
  }

  // ---------------------------------------------------------------- the whole loop, with the raw PTY

  /** The decoder and the raw PTY, which gets every byte as it comes. */
  datatype Console = Console(tcu: Tcu, raw: Pty)

  function ConsoleStep(c: Console, b: byte): Console {
    Console(TcuStep(c.tcu, b), Put(c.tcu.patch, c.raw, b))
  }

  function ConsoleRun(c: Console, bs: seq<byte>): Console
    decreases bs
  {
    if bs == [] then c else ConsoleRun(ConsoleStep(c, bs[0]), bs[1..])
  }

  lemma {:induction false} ConsoleSplits(c: Console, bs: seq<byte>)
    ensures ConsoleRun(c, bs) == Console(TcuRun(c.tcu, bs), PutAll(c.tcu.patch, c.raw, bs))
    decreases bs
  {
    if bs != [] {
      ConsoleSplits(ConsoleStep(c, bs[0]), bs[1..]);
    }
  }

  /** The legacy half of `tty_input_handler`: escape flag, selected tag and the PTYs. */
  class Reader {
    const patch: bool
    var esc: bool
    var cur: nat
    var ptys: seq<Pty>
    var raw: Pty

    function Now(): Console
      reads this
    {
      Console(Tcu(cur, esc, ptys, patch), raw)
    }

    constructor (patch: bool)
      ensures Now() == Console(Tcu(0, false, Blank(RAW), patch), FRESH) && TcuOk(Now().tcu)
    {
      this.patch, esc, cur, ptys, raw := patch, false, 0, Blank(RAW), FRESH;
    }

    method Feed(ch: byte)
      requires TcuOk(Now().tcu)
      modifies this
      ensures Now() == ConsoleStep(old(Now()), ch) && TcuOk(Now().tcu)
    {
      raw := Put(patch, raw, ch);
      if esc {
        esc := false;
        if ch == OUTER_ESC {
          ptys := ptys[cur := Put(patch, ptys[cur], OUTER_ESC)];
        } else if ch == OUTER_RESET {
          cur := DEFAULT_TAG;
        } else {
          var k := FindChip(ch);
          ChipIndexMeaning(ch);
          if k >= 0 {
            cur := k;
          }
        }
      } else if ch == OUTER_ESC {
        esc := true;
      } else {
        ptys := ptys[cur := Put(patch, ptys[cur], ch)];
      }
    }

    method Decode(bytes: seq<byte>)
      requires TcuOk(Now().tcu)
      modifies this
      ensures Now() == ConsoleRun(old(Now()), bytes) && TcuOk(Now().tcu)
    {
      var index := 0;
      while index < |bytes|
        invariant index <= |bytes| && TcuOk(Now().tcu)
        invariant ConsoleRun(Now(), bytes[index..]) == ConsoleRun(old(Now()), bytes)
      {
        assert bytes[index..][1..] == bytes[index + 1..];
        Feed(bytes[index]);
        index := index + 1;
      }
    }
  }

  // ---------------------------------------------------------------- any schedule of writers

  /** One completed write without `-w`; the lock makes writes atomic. */
  datatype Write = Write(idx: nat, data: seq<byte>)

  predicate WritesOk(ws: seq<Write>) {
    forall w :: w in ws ==> w.idx <= RAW
  }

  function Schedule(ws: seq<Write>): seq<byte>
    requires WritesOk(ws)
  {
    if ws == [] then [] else
    var w := ws[|ws| - 1];
    assert w in ws;
    Schedule(ws[..|ws| - 1]) + if w.idx < RAW then Sent(w.idx, w.data) else []
  }

  /** What the writes to one PTY amount to. */
  function DataTo(ws: seq<Write>, idx: nat): seq<byte> {
    if ws == [] then [] else
    DataTo(ws[..|ws| - 1], idx) + if ws[|ws| - 1].idx == idx then ws[|ws| - 1].data else []
  }

  lemma {:induction false} ScheduleDecodes(t: Tcu, ws: seq<Write>)
    requires TcuOk(t) && !t.esc && WritesOk(ws)
    ensures var u := TcuRun(t, Schedule(ws));
            && TcuOk(u) && !u.esc && u.patch == t.patch
            && forall i :: 0 <= i < RAW ==> u.ptys[i] == PutAll(t.patch, t.ptys[i], DataTo(ws, i))
  {
    if ws != [] {
      var prior, w := ws[..|ws| - 1], ws[|ws| - 1];
      assert w in ws;
      ScheduleDecodes(t, prior);
      var u := TcuRun(t, Schedule(prior));
      var sent := if w.idx < RAW then Sent(w.idx, w.data) else [];
      TcuConcat(t, Schedule(prior), sent);
      if w.idx < RAW && w.data != [] {
        WriteDecodes(u, w.idx, w.data);
      }
      forall i | 0 <= i < RAW
        ensures TcuRun(t, Schedule(ws)).ptys[i] == PutAll(t.patch, t.ptys[i], DataTo(ws, i))
      {
        if i == w.idx {
          PutAllConcat(t.patch, t.ptys[i], DataTo(prior, i), w.data);
        } else {
          assert DataTo(prior, i) + [] == DataTo(prior, i);
        }
      }
    }
  }

  /** For every schedule of writers, each tag's PTY gets the in-order concatenation of the writes to it, and
      the raw PTY the wire as it is. */
  lemma EveryScheduleDecodes(c: Console, ws: seq<Write>)
    requires TcuOk(c.tcu) && !c.tcu.esc && WritesOk(ws)
    ensures var e := ConsoleRun(c, Schedule(ws));
            && TcuOk(e.tcu) && !e.tcu.esc && e.raw == PutAll(c.tcu.patch, c.raw, Schedule(ws))
            && forall i :: 0 <= i < RAW ==> e.tcu.ptys[i] == PutAll(c.tcu.patch, c.tcu.ptys[i], DataTo(ws, i))
  {
    ConsoleSplits(c, Schedule(ws));
    ScheduleDecodes(c.tcu, ws);
  }

  /** One write on the wire: from a tagged PTY the tag once and every 0xff doubled, from the raw PTY the data. */
  lemma SentBytes(idx: nat, data: seq<byte>)
    requires idx <= RAW && data != []
    ensures Sent(idx, data) == if idx == RAW then data else [OUTER_ESC, CHIP_TAGS[idx]] + Doubled(data)
  {
    assert [] + data == data;
  }
}
