/** The host demultiplexer as the C code runs it: mutable escape flag, cursor, control state, length,
    position and payload buffer, with the stream table growing in place. Every method is proved
    against the transition functions of `Demux`. */
module HostMachine {
  import opened Bytes
  import opened LineEnding
  import opened JsonScan
  import opened TagTable
  import opened Demux

  // control_state
  const IDLE := 0
  const CMD := 1
  const REGISTRY_LEN_HI := 5
  const REGISTRY_LEN_LO := 6
  const REGISTRY_JSON := 7
  const ANNOUNCE_LEN_HI := 8
  const ANNOUNCE_LEN_LO := 9
  const ANNOUNCE_PAYLOAD := 10

  /** What a complete registry record leaves: the text is kept even if it is rejected. */
  ghost function AfterRecord(c: Core, payload: seq<byte>, r: Option<Core>): Core {
    match r
    case None => c.(registry := Some(CStr(Text(payload))))
    case Some(d) => d
  }

  /** The first record is applied as text. */
  lemma RecordApplied(c: Core, payload: seq<byte>)
    requires c.registry.None?
    ensures var json := CStr(Text(payload));
            var r := ApplyRegistry(c.table, json);
            && Register(c, payload).Some? == r.Some?
            && AfterRecord(c, payload, Register(c, payload)) ==
                 if r.Some? then WithTable(c.(registry := Some(json)), r.value) else c.(registry := Some(json))
  {
  }

  /** A second record is dropped. */
  lemma RecordDropped(c: Core, payload: seq<byte>)
    requires c.registry.Some?
    ensures Register(c, payload) == Some(c)
  {
  }

  /** So many PTYs can be created. */
  predicate Enough(limit: Option<nat>, n: int) {
    limit.None? || n <= limit.value
  }

  // Step, control state by control state.

  /** The command byte of a control record. */
  ghost function AfterCommand(h: Host, b: byte): Host {
    if b == ACK then h.(core := h.core.(acks := h.core.acks + 1), ctrl := Idle)
    else if b == REGISTRY then h.(ctrl := RegistryHi)
    else if b == CONNECTED || b == DISCONNECTED then h.(ctrl := AnnounceHi(b))
    else h.(ctrl := Idle)
  }

  /** A length byte. */
  function AfterLength(ctrl: Control, b: byte): Control {
    match ctrl
    case RegistryHi => RegistryLo(b)
    case AnnounceHi(kind) => AnnounceLo(kind, b)
    case RegistryLo(hi) => if hi == 0 == b then Idle else RegistryBody(Word(hi, b), [])
    case AnnounceLo(kind, hi) => if hi == 0 == b then Idle else AnnounceBody(kind, Word(hi, b), [])
    case _ => ctrl
  }

  predicate LengthState(ctrl: Control) {
    ctrl.RegistryHi? || ctrl.RegistryLo? || ctrl.AnnounceHi? || ctrl.AnnounceLo?
  }

  /** A complete payload. */
  ghost function AfterBody(h: Host, payload: seq<byte>): Host
    requires h.ctrl.RegistryBody? || h.ctrl.AnnounceBody?
  {
    if h.ctrl.AnnounceBody? then h.(core := Announce(h.core, h.ctrl.kind, payload), ctrl := Idle)
    else
      var r := Register(h.core, payload);
      h.(core := AfterRecord(h.core, payload, r), ctrl := Idle, live := r.Some?)
  }

  lemma BodyStep(h: Host, b: byte)
    requires HostOk(h) && h.live && (h.ctrl.RegistryBody? || h.ctrl.AnnounceBody?) && |h.ctrl.got| + 1 >= h.ctrl.want
    ensures Step(h, b) == AfterBody(h, h.ctrl.got + [b])
  {
    if h.ctrl.RegistryBody? {
      RegistryStep(h, b, Register(h.core, h.ctrl.got + [b]));
    }
  }

  lemma RegistryStep(h: Host, b: byte, r: Option<Core>)
    requires h.live && h.ctrl.RegistryBody? && |h.ctrl.got| + 1 >= h.ctrl.want
    requires r == Register(h.core, h.ctrl.got + [b])
    ensures Step(h, b) == h.(core := AfterRecord(h.core, h.ctrl.got + [b], r), ctrl := Idle, live := r.Some?)
  {
  }

  lemma CommandStep(h: Host, b: byte)
    requires HostOk(h) && h.live && h.ctrl == Cmd
    ensures Step(h, b) == AfterCommand(h, b) && HostOk(AfterCommand(h, b))
  {
  }

  lemma LengthStep(h: Host, b: byte)
    requires HostOk(h) && h.live && LengthState(h.ctrl)
    ensures Step(h, b) == h.(ctrl := AfterLength(h.ctrl, b)) && HostOk(h.(ctrl := AfterLength(h.ctrl, b)))
  {
  }

  lemma EscapedStep(h: Host, b: byte)
    requires HostOk(h) && h.live && h.ctrl == Idle && h.esc
    ensures Step(h, b) == StepEscaped(h, b) && HostOk(StepEscaped(h, b))
  {
    StepOk(h, b);
  }

  class Demuxer {
    const patch: bool
    var tags: seq<Tag>          // tags[0..numProc] is the stream table
    var input: seq<bool>        // virtioso_stream_input_enabled
    var numProc: nat
    var ptyMax: nat             // pty_max_count
    var ptys: seq<Pty>
    var acks: nat
    var registry: Option<string>
    var inEscape: bool
    var cursor: int
    var controlState: int
    var len: nat
    var pos: nat
    var buffer: array?<byte>    // control_registry_json, calloc'd to len + 1
    var pending: byte           // virtioso_pending_ctrl_type
    var live: bool
    ghost var high: byte        // the first length byte

    ghost function CoreNow(): Core
      reads this
    {
      Core(Table(tags, input), ptys, cursor, acks, registry, patch)
    }

    ghost function ControlNow(): Control
      reads this, buffer
    {
      if !live || controlState == IDLE then Idle
      else if controlState == CMD then Cmd
      else if controlState == REGISTRY_LEN_HI then RegistryHi
      else if controlState == REGISTRY_LEN_LO then RegistryLo(high)
      else if controlState == ANNOUNCE_LEN_HI then AnnounceHi(pending)
      else if controlState == ANNOUNCE_LEN_LO then AnnounceLo(pending, high)
      else if buffer == null || pos > buffer.Length then Idle
      else if controlState == REGISTRY_JSON then RegistryBody(len, buffer[..pos])
      else AnnounceBody(pending, len, buffer[..pos])
    }

    ghost function Now(): Host
      reads this, buffer
    {
      Host(CoreNow(), inEscape, ControlNow(), live)
    }

    /** The table size is the PTY count, the cursor is -1 or a stream entry, ids are distinct, and a
        control payload has room in its buffer. */
    ghost predicate Valid()
      reads this, buffer
    {
      && CoreOk(CoreNow())
      && numProc == ptyMax == |tags|
      && controlState in {IDLE, CMD, REGISTRY_LEN_HI, REGISTRY_LEN_LO, REGISTRY_JSON,
                          ANNOUNCE_LEN_HI, ANNOUNCE_LEN_LO, ANNOUNCE_PAYLOAD}
      && (inEscape ==> controlState == IDLE)
      && (live && (controlState == REGISTRY_LEN_LO || controlState == ANNOUNCE_LEN_LO) ==> len == 0x100 * high)
      && (live && (controlState == REGISTRY_JSON || controlState == ANNOUNCE_PAYLOAD) ==>
            buffer != null && buffer.Length == len + 1 && pos < len)
    }

    lemma ValidIsOk()
      requires Valid()
      ensures HostOk(Now())
    {
    }

    constructor (patch: bool)
      ensures Valid() && Now() == Initial(patch)
      ensures buffer == null
    {
      this.patch := patch;
      tags, input := BUILTINS.tags, BUILTINS.input;
      numProc, ptyMax := 3, 3;
      ptys := [FRESH, FRESH, FRESH];
      acks, registry := 0, None;
      inEscape, cursor, controlState, len, pos := false, -1, IDLE, 0, 0;
      buffer, pending, live, high := null, 0, true, 0;
    }

    /** `patch2flush_stream` on PTY `i`. */
    method Flush(i: nat, b: byte)
      requires i < |ptys| && !(ptys[i].seenN && ptys[i].seenR)
      modifies this`ptys
      ensures CoreNow() == WriteTo(old(CoreNow()), i, b)
    {
      var p := Patch2Flush(patch, ptys[i], b);
      ptys := ptys[i := p];
    }

    /** `find_virtioso_pty_idx_by_stream_id`. */
    method FindPty(id: byte) returns (k: int)
      requires numProc == |tags|
      ensures k == Find(tags, id)
    {
      var i := 0;
      while i < numProc
        invariant i <= |tags| && FindFrom(tags, id, 0) == FindFrom(tags, id, i)
      {
        if tags[i].value == id {
          return i;
        }
        i := i + 1;
      }
      return -1;
    }

    /** `apply_virtioso_stream_connected`; `opens` tells whether a PTY can be created. If not, the new entry is
        taken back. */
    method ApplyConnected(id: byte, name: seq<byte>, opens: bool)
      requires |tags| == |input| == |ptys| == numProc && TagTable.Valid(Table(tags, input))
      modifies this`tags, this`input, this`ptys, this`numProc, this`ptyMax
      ensures opens ==> CoreNow() == WithTable(old(CoreNow()), Connect(Table(old(tags), old(input)), [id] + name))
      ensures !opens ==> CoreNow() == old(CoreNow())
      ensures old(tags) < tags ==> tags[|old(tags)|].value == id && Kept(name, tags[|old(tags)|].name)
      ensures numProc == |tags| && (ptyMax == |tags| || (ptyMax == old(ptyMax) && tags == old(tags)))
    {
      assert ([id] + name)[1..] == name;
      var known := FindPty(id);
      if known >= 0 || numProc >= CAPACITY {
        return;
      }
      var kept := CopyName(name);
      tags := tags + [Tag(kept, id)];
      input := input + [false];
      numProc := numProc + 1;
      ptyMax := numProc;
      if !opens {
        numProc := numProc - 1;
        ptyMax := numProc;
        tags, input := tags[..numProc], input[..numProc];
        assert tags == old(tags) && input == old(input);
        return;
      }
      ptys := ptys + [FRESH];
      assert [FRESH] == Blank(1);
    }

    /** The name buffer of `apply_virtioso_stream_connected`: 255 bytes and a NUL. */
    static method CopyName(name: seq<byte>) returns (kept: string)
      ensures kept == HostName(name)
    {
      var copy := if |name| < 255 then |name| else 255;
      assert name[..|name|] == name;
      kept := CStr(Text(name[..copy]));
    }

    /** The loop of `apply_virtioso_registry_json`: entries are appended to the table in place. */
    method AppendStreams(json: string, start: nat, end: nat) returns (ok: bool)
      requires end <= |json| && |tags| == |input|
      modifies this`tags, this`input
      ensures old(tags) <= tags && old(input) <= input && |tags| == |input|
      ensures ok <==> ReadStreams(json, start, end, Table(old(tags), old(input))).Some?
      ensures ok ==> ReadStreams(json, start, end, Table(old(tags), old(input))).value == Table(tags, input)
    {
      ghost var t := Table(tags, input);
      var pos := start;
      while true
        invariant |tags| == |input| && t.tags <= tags && t.input <= input
        invariant ReadStreams(json, start, end, t) == ReadStreams(json, pos, end, Table(tags, input))
        decreases |json| - pos
      {
        var item := ReadItem(json, pos, end);
        if item.NoMore? {
          return true;
        }
        if item.Malformed? {
          return false;
        }
        var r := AppendStream(Table(tags, input), item.entry.id, item.entry.name, item.entry.input);
        if r.None? {
          return false;
        }
        tags, input := r.value.tags, r.value.input;
        pos := item.next;
      }
    }

    /** Open a PTY for every table entry that has none. `limit` is the number of PTYs that can be created, if
        there is a limit; false when it is reached. */
    method OpenPtys(limit: Option<nat>) returns (ok: bool)
      requires |ptys| == ptyMax <= numProc
      modifies this`ptys, this`ptyMax
      ensures ok <==> Enough(limit, numProc - old(ptyMax))
      ensures old(ptyMax) <= ptyMax <= numProc && old(ptys) <= ptys
      ensures ok ==> ptys == old(ptys) + Blank(numProc - old(|ptys|)) && ptyMax == numProc
    {
      var builtin := ptyMax;
      while ptyMax < numProc
        invariant builtin <= ptyMax <= numProc && Enough(limit, ptyMax - builtin)
        invariant ptys == old(ptys) + Blank(ptyMax - builtin)
      {
        if limit.Some? && ptyMax - builtin >= limit.value {
          return false;
        }
        ptys := ptys + [FRESH];
        ptyMax := ptyMax + 1;
      }
      return true;
    }

    /** An error of `apply_virtioso_registry_json`: the entries that `was` does not have are cleared. */
    method RollBack(builtin: nat, ghost was: Core)
      requires was == CoreNow().(table := was.table, ptys := was.ptys)
      requires was.table.tags <= tags && was.table.input <= input && was.ptys <= ptys
      requires |was.table.tags| == |was.table.input| == |was.ptys| == builtin
      modifies this`tags, this`input, this`ptys, this`numProc, this`ptyMax
      ensures CoreNow() == was && numProc == ptyMax == builtin
    {
      tags, input, ptys := tags[..builtin], input[..builtin], ptys[..builtin];
      numProc, ptyMax := builtin, builtin;
    }

    /** The part of `apply_virtioso_registry_json` behind the search for the array. */
    method ApplyEntries(json: string, start: nat, end: nat, limit: Option<nat>) returns (ok: bool)
      requires end <= |json| && |tags| == |input| == |ptys| == numProc == ptyMax
      modifies this`tags, this`input, this`ptys, this`numProc, this`ptyMax
      ensures var r := ApplyArray(Table(old(tags), old(input)), json, start, end);
              ok <==> r.Some? && Enough(limit, |r.value.tags| - old(|tags|))
      ensures var r := ApplyArray(Table(old(tags), old(input)), json, start, end);
              ok ==> CoreNow() == WithTable(old(CoreNow()), r.value)
      ensures !ok ==> CoreNow() == old(CoreNow())
      ensures numProc == ptyMax == |tags|
    {
      var builtin := numProc;
      ok := AppendStreams(json, start, end);
      if ok && |tags| > builtin {
        ok := OpenAll(limit);
      } else {
        ok := false;
      }
      if !ok {
        RollBack(builtin, old(CoreNow()));
      }
    }

    /** Take in the appended entries and open their PTYs. */
    method OpenAll(limit: Option<nat>) returns (ok: bool)
      requires |ptys| == ptyMax == numProc < |tags| == |input|
      modifies this`ptys, this`ptyMax, this`numProc
      ensures ok <==> Enough(limit, |tags| - old(numProc))
      ensures old(ptys) <= ptys && (ok ==> numProc == ptyMax == |tags|)
      ensures ok ==> CoreNow() == WithTable(old(CoreNow()), Table(tags, input))
    {
      numProc := |tags|;
      ok := OpenPtys(limit);
    }

    /** `apply_virtioso_registry_json`; `limit` is the number of PTYs that can be created, if there is a limit. */
    method ApplyJson(json: string, limit: Option<nat>) returns (ok: bool)
      requires |tags| == |input| == |ptys| == numProc == ptyMax
      modifies this`tags, this`input, this`ptys, this`numProc, this`ptyMax
      ensures var r := ApplyRegistry(Table(old(tags), old(input)), json);
              ok <==> r.Some? && Enough(limit, |r.value.tags| - old(|tags|))
      ensures ok ==> CoreNow() == WithTable(old(CoreNow()), ApplyRegistry(Table(old(tags), old(input)), json).value)
      ensures !ok ==> CoreNow() == old(CoreNow())
      ensures numProc == ptyMax == |tags|
    {
      var bounds := FindArrayAfter(json, 0, KEY_STREAMS);
      if bounds.None? {
        return false;
      }
      ok := ApplyEntries(json, bounds.value.0 + 1, bounds.value.1, limit);
    }

    /** The second byte of an escape pair. */
    method FeedEscaped(ch: byte)
      requires Valid() && live && controlState == IDLE && inEscape
      modifies this`inEscape, this`cursor, this`ptys, this`controlState
      ensures Valid() && Now() == StepEscaped(old(Now()), ch)
    {
      ValidIsOk();
      EscapedStep(Now(), ch);
      inEscape := false;
      if ch == DEFAULT {
        cursor := -1;
      } else if ch == ESC {
        if cursor >= 0 {
          Flush(cursor, ch);
        }
      } else if ch == CONTROL {
        controlState := CMD;
      } else {
        var k := FindPty(ch);
        cursor := if k >= 0 then k else -1;
      }
    }

    /** An outer reset: the cursor and a pending escape are cleared, the control state is not. */
    method Reset()
      requires Valid()
      modifies this`cursor, this`inEscape
      ensures Valid() && Now() == old(Now()).(esc := false, core := old(CoreNow()).(cursor := -1))
    {
      cursor := -1;
      inEscape := false;
    }

    /** The command byte of a control record. */
    method FeedCommand(ch: byte)
      requires Valid() && live && controlState == CMD
      modifies this`controlState, this`len, this`pos, this`pending, this`acks
      ensures Valid() && Now() == AfterCommand(old(Now()), ch)
    {
      if ch == REGISTRY {
        len, pos := 0, 0;
        controlState := REGISTRY_LEN_HI;
      } else if ch == ACK {
        acks := acks + 1;
        controlState := IDLE;
      } else if ch == CONNECTED || ch == DISCONNECTED {
        pending := ch;
        len, pos := 0, 0;
        controlState := ANNOUNCE_LEN_HI;
      } else {
        controlState := IDLE;
      }
    }

    method FeedLengthHi(ch: byte)
      requires Valid() && live && controlState in {REGISTRY_LEN_HI, ANNOUNCE_LEN_HI}
      modifies this`controlState, this`len, this`high
      ensures Valid() && Now() == old(Now()).(ctrl := AfterLength(old(ControlNow()), ch))
    {
      len, high := 0x100 * ch, ch;
      controlState := if controlState == REGISTRY_LEN_HI then REGISTRY_LEN_LO else ANNOUNCE_LEN_LO;
    }

    method FeedLengthLo(ch: byte)
      requires Valid() && live && controlState in {REGISTRY_LEN_LO, ANNOUNCE_LEN_LO}
      modifies this`controlState, this`len, this`pos, this`buffer
      ensures Valid() && Now() == old(Now()).(ctrl := AfterLength(old(ControlNow()), ch))
      ensures buffer == null || fresh(buffer)
    {
      len := len + ch;
      pos := 0;
      buffer := null;
      if len == 0 {
        controlState := IDLE;
      } else {
        NewBuffer();
        controlState := if controlState == REGISTRY_LEN_LO then REGISTRY_JSON else ANNOUNCE_PAYLOAD;
      }
    }

    method NewBuffer()
      modifies this`buffer
      ensures buffer != null && fresh(buffer) && buffer.Length == len + 1 && buffer[..0] == []
    {
      buffer := new byte[len + 1](_ => 0);
    }

    /** A complete CONNECTED or DISCONNECTED record. */
    method FinishAnnounce(payload: seq<byte>)
      requires payload != [] && numProc == ptyMax == |tags| && CoreOk(CoreNow())
      modifies this`tags, this`input, this`ptys, this`numProc, this`ptyMax
      ensures numProc == ptyMax == |tags|
      ensures CoreNow() == Announce(old(CoreNow()), pending, payload)
    {
      if pending == CONNECTED {
        assert [payload[0]] + payload[1..] == payload;
        ApplyConnected(payload[0], payload[1..], true);
      }
    }

    /** The first registry record: its text is kept, and applied. */
    method AcceptRegistry(json: string, ghost kept: Core) returns (ok: bool)
      requires |tags| == |input| == |ptys| == numProc == ptyMax && kept == CoreNow().(registry := Some(json))
      modifies this`registry, this`tags, this`input, this`ptys, this`numProc, this`ptyMax
      ensures numProc == ptyMax == |tags|
      ensures ok <==> ApplyRegistry(kept.table, json).Some?
      ensures ok ==> CoreNow() == WithTable(kept, ApplyRegistry(kept.table, json).value)
      ensures !ok ==> CoreNow() == kept
    {
      registry := Some(json);
      ok := ApplyJson(json, None);
    }

    /** A complete registry record; a second one is dropped. False is the fatal error. */
    method FinishRegistry(payload: seq<byte>, ghost c: Core, ghost r: Option<Core>) returns (ok: bool)
      requires |tags| == |input| == |ptys| == numProc == ptyMax
      requires c == CoreNow() && r == Register(c, payload)
      modifies this`registry, this`tags, this`input, this`ptys, this`numProc, this`ptyMax
      ensures numProc == ptyMax == |tags|
      ensures ok == r.Some? && CoreNow() == AfterRecord(c, payload, r)
    {
      if registry.None? {
        var json := CStr(Text(payload));
        RecordApplied(c, payload);
        ok := AcceptRegistry(json, c.(registry := Some(json)));
      } else {
        ok := true;
        RecordDropped(c, payload);
      }
    }

    /** Payload bytes of a registry or announce record. A fatal registry ends the input thread. */
    method FeedBody(ch: byte) returns (ok: bool)
      requires Valid() && live && controlState in {REGISTRY_JSON, ANNOUNCE_PAYLOAD}
      modifies this, buffer
      ensures Valid() && Now() == Step(old(Now()), ch) && ok == live
      ensures buffer == old(buffer) || buffer == null
    {
      ValidIsOk();
      StepOk(Now(), ch);
      if pos + 1 >= len {
        BodyStep(Now(), ch);
      }
      buffer[pos] := ch;
      pos := pos + 1;
      assert buffer[..pos] == old(buffer[..pos]) + [ch];
      if pos < len {
        return true;
      }
      ok := EndBody(buffer[..pos], old(Now()));
    }

    /** Behind the last payload byte. `h` is the state in front of it. */
    method EndBody(payload: seq<byte>, ghost h: Host) returns (ok: bool)
      requires payload != [] && numProc == ptyMax == |tags| && CoreOk(CoreNow()) && live
      requires h.core == CoreNow() && h.esc == inEscape && h.live
      requires controlState == ANNOUNCE_PAYLOAD ==> h.ctrl.AnnounceBody? && h.ctrl.kind == pending
      requires controlState != ANNOUNCE_PAYLOAD ==> h.ctrl.RegistryBody?
      modifies this
      ensures Now() == AfterBody(h, payload) && ok == live && buffer == null && numProc == ptyMax == |tags|
      ensures inEscape == old(inEscape) && controlState == if ok then IDLE else old(controlState)
    {
      if controlState == ANNOUNCE_PAYLOAD {
        FinishAnnounce(payload);
        ok := true;
      } else {
        ok := FinishRegistry(payload, CoreNow(), Register(CoreNow(), payload));
      }
      buffer := null;
      if ok {
        controlState := IDLE;
      } else {
        live := false;
      }
    }

    /** `feed_virtioso_byte`. */
    method Feed(ch: byte) returns (ok: bool)
      requires Valid() && live
      modifies this, buffer
      ensures Valid() && Now() == Step(old(Now()), ch) && ok == live
      ensures buffer == old(buffer) || buffer == null || fresh(buffer)
    {
      ValidIsOk();
      StepOk(Now(), ch);
      if controlState in {REGISTRY_JSON, ANNOUNCE_PAYLOAD} {
        ok := FeedBody(ch);
        return;
      }
      if controlState == CMD {
        CommandStep(Now(), ch);
        FeedCommand(ch);
      } else if controlState in {REGISTRY_LEN_HI, ANNOUNCE_LEN_HI} {
        LengthStep(Now(), ch);
        FeedLengthHi(ch);
      } else if controlState in {REGISTRY_LEN_LO, ANNOUNCE_LEN_LO} {
        LengthStep(Now(), ch);
        FeedLengthLo(ch);
      } else if inEscape {
        EscapedStep(Now(), ch);
        FeedEscaped(ch);
      } else if ch == ESC {
        inEscape := true;
      } else if cursor < 0 {
        if UNFRAMED < ptyMax {
          Flush(UNFRAMED, ch);
        }
      } else {
        Flush(cursor, ch);
      }
      return true;
    }
  }
}
