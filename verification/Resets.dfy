/** Where an outer reset on the daemon's wire can be seen at the host, position by position, and what becomes
    of a data frame it splits. */
module Resets {
  import opened Bytes
  import opened TagTable
  import opened Demux
  import opened Tokens
  import opened Proto
  import opened Outer
  import opened Muxd
  import opened MuxdUplink

  // ---------------------------------------------------------------- inside a control record

  /** Inside a record body the cursor does not move, and behind its last byte it has not moved either. */
  lemma {:induction false} BodyClear(h: Host, bs: seq<byte>)
    requires h.live && !h.esc && h.core.cursor == -1 && (h.ctrl.RegistryBody? || h.ctrl.AnnounceBody?)
    requires |h.ctrl.got| + |bs| <= h.ctrl.want
    ensures Clear(Run(h, bs))
    decreases bs
  {
    if bs != [] {
      var h' := Step(h, bs[0]);
      if |bs| == 1 {
        assert bs[1..] == [];
      } else {
        BodyClear(h', bs[1..]);
      }
    }
  }

  lemma HeaderClear(h: Host, t: Token, n: nat)
    requires AtBoundary(h) && h.live && h.core.cursor == -1 && ValidToken(t) && (t.Reg? || t.Ann?) && n < 5
    ensures Clear(Run(h, Print(t)[..n])) <==> n != 1
  {
    var bs := Print(t)[..n];
    if n == 1 {
      assert bs == [ESC];
      RunOne(h, ESC);
    } else if n == 2 {
      assert bs == [ESC, CONTROL];
      RunTwo(h, ESC, CONTROL);
    } else if n >= 3 {
      var kind := if t.Reg? then REGISTRY else t.kind;
      RunThree(h, ESC, CONTROL, kind);
      assert Print(t)[..3] == [ESC, CONTROL, kind];
      if n == 4 {
        assert bs == [ESC, CONTROL, kind] + [bs[3]];
        RunConcat(h, [ESC, CONTROL, kind], [bs[3]]);
        RunOne(Run(h, [ESC, CONTROL, kind]), bs[3]);
      }
    }
  }

  /** A reset inside a record, between streams: it shows exactly between the first two bytes of the record, where
      it swallows the escape. Anywhere else, before and behind the record included, it changes nothing. */
  lemma ResetInRecord(h: Host, t: Token, n: nat)
    requires AtBoundary(h) && h.live && h.core.cursor == -1 && ValidToken(t) && (t.Reg? || t.Ann?) && n <= |Print(t)|
    ensures Clear(Run(h, Print(t)[..n])) <==> n != 1
  {
    if n < 5 {
      HeaderClear(h, t, n);
    } else {
      var kind, body := if t.Reg? then REGISTRY else t.kind, if t.Reg? then t.json else t.payload;
      HiLo(|body|);
      HeaderRead(h, kind, Hi(|body|), Lo(|body|), body[..n - 5]);
      assert Print(t)[..n] == [ESC, CONTROL, kind, Hi(|body|), Lo(|body|)] + body[..n - 5];
      if body != [] {
        BodyClear(h.(ctrl := Opened(kind, |body|)), body[..n - 5]);
      }
    }
  }

  // ---------------------------------------------------------------- inside a data frame

  /** Behind the first byte of an escape pair. */
  function Half(esc: bool, bs: seq<byte>): bool
    decreases bs
  {
    if bs == [] then esc else Half(!esc && bs[0] == ESC, bs[1..])
  }

  /** The only escape pairs are escaped 0xfe bytes. */
  predicate Stuffy(esc: bool, bs: seq<byte>)
    decreases bs
  {
    bs == [] || ((esc ==> bs[0] == ESC) && Stuffy(!esc && bs[0] == ESC, bs[1..]))
  }

  lemma {:induction false} StuffyConcat(esc: bool, a: seq<byte>, b: seq<byte>)
    ensures Half(esc, a + b) == Half(Half(esc, a), b)
    ensures Stuffy(esc, a + b) <==> Stuffy(esc, a) && Stuffy(Half(esc, a), b)
    decreases a
  {
    if a == [] {
      assert a + b == b;
    } else {
      assert (a + b)[1..] == a[1..] + b;
      StuffyConcat(!esc && a[0] == ESC, a[1..], b);
    }
  }

  lemma {:induction false} StuffedIsStuffy(payload: seq<byte>)
    ensures Stuffy(false, Stuffed(payload)) && !Half(false, Stuffed(payload))
  {
    if payload != [] {
      var init, b := payload[..|payload| - 1], payload[|payload| - 1];
      StuffedIsStuffy(init);
      if b == ESC {
        StuffyConcat(false, Stuffed(init), [ESC, ESC]);
        assert [ESC, ESC][1..] == [ESC] && [ESC][1..] == [];
        assert Stuffy(true, [ESC]) && !Half(true, [ESC]);
      } else {
        StuffyConcat(false, Stuffed(init), [b]);
        assert [b][1..] == [];
      }
    }
  }

  lemma {:induction false} StuffyRun(h: Host, bs: seq<byte>)
    requires h.live && h.ctrl == Idle && Stuffy(h.esc, bs)
    ensures var h' := Run(h, bs); h'.live && h'.core.cursor == h.core.cursor && h'.esc == Half(h.esc, bs)
    decreases bs
  {
    if bs != [] {
      StuffyRun(Step(h, bs[0]), bs[1..]);
    }
  }

  /** A prefix of a data frame behind its opening pair and in front of its last byte. */
  lemma FramePrefix(id: byte, payload: seq<byte>, n: nat)
    requires 2 <= n < |DataFrame(id, payload)|
    ensures var body := (Stuffed(payload) + [ESC])[..n - 2];
            DataFrame(id, payload)[..n] == [ESC, id] + body && Stuffy(false, body)
  {
    var whole := Stuffed(payload) + [ESC];
    StuffedIsStuffy(payload);
    StuffyConcat(false, Stuffed(payload), [ESC]);
    assert [ESC][1..] == [];
    StuffyConcat(false, whole[..n - 2], whole[n - 2..]);
    assert whole[..n - 2] + whole[n - 2..] == whole;
  }

  /** The stream a frame selects: -1 for id 0. */
  function Chosen(c: Core, id: byte): int {
    if id == DEFAULT then -1 else Find(c.table.tags, id)
  }

  lemma InsideFrame(h: Host, id: byte, payload: seq<byte>, n: nat)
    requires AtBoundary(h) && h.live && FrameId(id) && 2 <= n < |DataFrame(id, payload)|
    ensures var h' := Run(h, DataFrame(id, payload)[..n]);
            h'.live && h'.core.cursor == Chosen(h.core, id) && h'.esc == Half(false, DataFrame(id, payload)[..n])
  {
    var body := (Stuffed(payload) + [ESC])[..n - 2];
    FramePrefix(id, payload, n);
    Run2(h, ESC, id, body);
    StuffyRun(Step(Step(h, ESC), id), body);
    assert ([ESC, id] + body)[1..] == [id] + body && ([id] + body)[1..] == body;
  }

  /** A reset inside a data frame: for a registered stream it shows everywhere but before and behind the frame;
      without a stream it shows only inside escape pairs. */
  lemma ResetInFrame(h: Host, id: byte, payload: seq<byte>, n: nat)
    requires AtBoundary(h) && h.live && h.core.cursor == -1 && FrameId(id) && n <= |DataFrame(id, payload)|
    ensures Clear(Run(h, DataFrame(id, payload)[..n])) <==>
            n == 0 || n == |DataFrame(id, payload)| ||
            (Chosen(h.core, id) == -1 && !Half(false, DataFrame(id, payload)[..n]))
  {
    var frame := DataFrame(id, payload);
    if n == 1 {
      assert frame[..1] == [ESC] && [ESC][1..] == [];
      RunOne(h, ESC);
      assert Half(false, frame[..1]) == Half(true, []);
    } else if n == |frame| {
      assert frame[..n] == frame;
      DataFrameEffect(h, id, payload);
    } else if n >= 2 {
      InsideFrame(h, id, payload, n);
    }
  }

  // ---------------------------------------------------------------- anywhere on the daemon's wire

  /** A reset behind the first `n` bytes of a frame cannot be seen: between frames, in control records but for
      their first byte, and in frames of id 0 outside escape pairs. */
  predicate SafeAt(f: Frame, n: nat)
    requires n <= |Encode(f)|
  {
    if f.Data? then n == 0 || n == |Encode(f)| || (f.id == DEFAULT && !Half(false, Encode(f)[..n])) else n != 1
  }

  lemma FrameResetIff(h: Host, fs: seq<Frame>, f: Frame, n: nat)
    requires HostMatches(h, fs) && Disciplined(fs + [f]) && n <= |Encode(f)|
    ensures Clear(Run(h, Encode(f)[..n])) <==> SafeAt(f, n)
  {
    PrefixDisciplined(fs, f);
    if f.Data? {
      ResetInFrame(h, f.id, f.payload, n);
    } else {
      var kind := if f.Open? then CONNECTED else DISCONNECTED;
      ControlFrameIsPrinted(kind, f.id, f.name);
      ResetInRecord(h, Ann(kind, [f.id] + CutName(f.name)), n);
    }
  }

  /** The same for a position on the wire of many frames. */
  predicate SafeIn(fs: seq<Frame>, pos: nat)
    requires pos <= |Wire(fs)|
  {
    if fs == [] then true else
    var start := |Wire(fs[..|fs| - 1])|;
    if pos <= start then SafeIn(fs[..|fs| - 1], pos) else SafeAt(fs[|fs| - 1], pos - start)
  }

  lemma ClearInLast(prior: seq<Frame>, f: Frame, n: nat, patch: bool)
    requires Disciplined(prior + [f]) && n <= |Encode(f)|
    ensures Clear(Run(Initial(patch), Wire(prior) + Encode(f)[..n])) <==> SafeAt(f, n)
  {
    PrefixDisciplined(prior, f);
    HostFollows(patch, prior);
    var h := Run(Initial(patch), Wire(prior));
    FrameResetIff(h, prior, f, n);
    RunConcat(Initial(patch), Wire(prior), Encode(f)[..n]);
  }

  lemma WirePrefix(prior: seq<Frame>, f: Frame, pos: nat)
    requires pos <= |Wire(prior + [f])|
    ensures var start := |Wire(prior)|;
            && |Wire(prior + [f])| == start + |Encode(f)|
            && Wire(prior + [f])[..pos] ==
               (if pos <= start then Wire(prior)[..pos] else Wire(prior) + Encode(f)[..pos - start])
            && SafeIn(prior + [f], pos) == if pos <= start then SafeIn(prior, pos) else SafeAt(f, pos - start)
  {
    assert (prior + [f])[|prior|] == f;
    assert (prior + [f])[..|prior|] == prior;
  }

  /** The host is clear behind the first `pos` bytes of the frames exactly if they say so. */
  ghost predicate ClearAsSafe(fs: seq<Frame>, pos: nat, patch: bool)
    requires pos <= |Wire(fs)|
  {
    Clear(Run(Initial(patch), Wire(fs)[..pos])) <==> SafeIn(fs, pos)
  }

  lemma ClearAtStart(fs: seq<Frame>, pos: nat, patch: bool)
    requires fs == [] && pos <= |Wire(fs)|
    ensures ClearAsSafe(fs, pos, patch)
  {
    assert Wire(fs)[..pos] == [];
  }

  lemma ClearStep(prior: seq<Frame>, f: Frame, pos: nat, patch: bool)
    requires Disciplined(prior + [f]) && pos <= |Wire(prior + [f])|
    requires pos <= |Wire(prior)| ==> ClearAsSafe(prior, pos, patch)
    ensures ClearAsSafe(prior + [f], pos, patch)
  {
    WirePrefix(prior, f, pos);
    if pos > |Wire(prior)| {
      ClearInLast(prior, f, pos - |Wire(prior)|, patch);
    }
  }

  lemma {:induction false} ClearIffSafe(fs: seq<Frame>, pos: nat, patch: bool)
    requires Disciplined(fs) && pos <= |Wire(fs)|
    ensures ClearAsSafe(fs, pos, patch)
  {
    if fs == [] {
      ClearAtStart(fs, pos, patch);
    } else {
      var prior, f := fs[..|fs| - 1], fs[|fs| - 1];
      FrontAndLast(fs);
      PrefixDisciplined(prior, f);
      if pos <= |Wire(prior)| {
        ClearIffSafe(prior, pos, patch);
      }
      ClearStep(prior, f, pos, patch);
    }
  }

  lemma {:induction false} HarmlessIff(h: Host, ps: seq<Passed>)
    ensures Harmless(h, ps) <==> forall i :: 0 <= i < |ps| && ps[i].Cut? ==> Clear(Run(h, InBytes(ps[..i])))
    decreases |ps|
  {
    if ps != [] {
      var last := |ps| - 1;
      var init := ps[..last];
      assert ps == init + [ps[last]];
      PassedConcat(h, init, [ps[last]]);
      HarmlessIff(h, init);
      assert Harmless(Receive(RunPassed(h, init), ps[last]), [ps[last]][1..]);
      assert forall i :: 0 <= i < last ==> init[..i] == ps[..i] && init[i] == ps[i];
      if Harmless(h, init) {
        HarmlessRuns(h, init);
      }
    }
  }

  lemma PrefixSafe(ps: seq<Passed>, i: nat, fs: seq<Frame>, patch: bool)
    requires Disciplined(fs) && InBytes(ps) == Wire(fs) && i <= |ps|
    ensures |InBytes(ps[..i])| <= |Wire(fs)|
    ensures Clear(Run(Initial(patch), InBytes(ps[..i]))) <==> SafeIn(fs, |InBytes(ps[..i])|)
  {
    assert ps[..i] + ps[i..] == ps;
    InBytesConcat(ps[..i], ps[i..]);
    var n := |InBytes(ps[..i])|;
    assert InBytes(ps[..i]) == Wire(fs)[..n];
    ClearIffSafe(fs, n, patch);
  }

  /** Exactly which wires with outer resets bring the daemon's frames to the host: those that pass on the frames'
      bytes and whose resets all stand at safe positions, which the frames alone decide. */
  lemma BringsIff(m: Mode, wire: seq<byte>, fs: seq<Frame>, patch: bool)
    requires Disciplined(fs) && InBytes(Passes(m, false, -1, wire)) == Wire(fs)
    ensures forall i :: 0 <= i <= |Passes(m, false, -1, wire)| ==>
              |InBytes(Passes(m, false, -1, wire)[..i])| <= |Wire(fs)|
    ensures var ps := Passes(m, false, -1, wire);
            Brings(m, NewLink(patch), wire, Wire(fs)) <==>
            forall i :: 0 <= i < |ps| && ps[i].Cut? ==> SafeIn(fs, |InBytes(ps[..i])|)
  {
    var ps := Passes(m, false, -1, wire);
    HarmlessIff(Initial(patch), ps);
    forall i | 0 <= i <= |ps|
      ensures |InBytes(ps[..i])| <= |Wire(fs)|
      ensures Clear(Run(Initial(patch), InBytes(ps[..i]))) <==> SafeIn(fs, |InBytes(ps[..i])|)
    {
      PrefixSafe(ps, i, fs, patch);
    }
  }

  // ---------------------------------------------------------------- what a split frame becomes

  /** Fragments with a reset between them. */
  function SplitWire(m: Mode, x: seq<byte>, y: seq<byte>): seq<byte>
    requires m.Nvidia? && 0 <= m.carrier < |CHIP_TAGS|
  {
    Wrapped(m, x) + [OUTER_ESC, OUTER_RESET] + Wrapped(m, y)
  }

  lemma SplitPasses(m: Mode, tag: int, x: seq<byte>, y: seq<byte>)
    requires m.Nvidia? && 0 <= m.carrier < |CHIP_TAGS|
    ensures Passes(m, false, tag, SplitWire(m, x, y)) == Ins(x) + [Cut] + Ins(y)
    ensures After(m, false, tag, SplitWire(m, x, y)) == (false, m.carrier)
  {
    var reset := [OUTER_ESC, OUTER_RESET];
    PassesWrapped(m, tag, x);
    PassesTwo(m, false, m.carrier, OUTER_ESC, OUTER_RESET);
    PassesConcat(m, false, tag, Wrapped(m, x), reset);
    PassesWrapped(m, -1, y);
    PassesConcat(m, false, tag, Wrapped(m, x) + reset, Wrapped(m, y));
    assert [] + [Cut] == [Cut];
  }

  lemma SplitRun(h: Host, x: seq<byte>, y: seq<byte>)
    ensures RunPassed(h, Ins(x) + [Cut] + Ins(y)) == Run(Cleared(Run(h, x)), y)
    ensures InBytes(Ins(x) + [Cut] + Ins(y)) == x + y
  {
    PassedConcat(h, Ins(x) + [Cut], Ins(y));
    PassedConcat(h, Ins(x), [Cut]);
    InsHarmless(h, x);
    PassedOne(Run(h, x), Cut);
    InsHarmless(Cleared(Run(h, x)), y);
    InBytesConcat(Ins(x) + [Cut], Ins(y));
    InBytesConcat(Ins(x), [Cut]);
    InBytesOfIns(x);
    InBytesOfIns(y);
    assert x + [] == x;
  }

  /** The host after a frame for entry `k` that a reset split between `a` and `b`. */
  ghost function SplitDelivered(h: Host, k: int, a: seq<byte>, b: seq<byte>): Host {
    h.(core := WriteAll(WriteAll(h.core, k, a), UNFRAMED, Without(b, ESC)).(cursor := -1))
  }

  lemma OpeningHalf(h: Host, id: byte, a: seq<byte>)
    requires AtBoundary(h) && HostOk(h) && h.live && ValidId(id) && Find(h.core.table.tags, id) >= 0
    ensures Cleared(Run(h, [ESC, id] + Stuffed(a))) ==
            h.(core := WriteAll(h.core, Find(h.core.table.tags, id), a).(cursor := -1))
  {
    var ts := [Sel(id)] + PayloadTokens(a);
    StuffedIsPrinted(a);
    PrintAllCons(Sel(id), PayloadTokens(a));
    TokensRefined(h, ts);
    InterpConcat(h, [Sel(id)], PayloadTokens(a));
    InterpOne(h, Sel(id));
    PayloadEffect(Interp(h, Sel(id)), a);
  }

  lemma ClosingHalf(h: Host, b: seq<byte>)
    requires AtBoundary(h) && h.live && h.core.cursor == -1
    ensures Run(h, Stuffed(b) + [ESC, DEFAULT]) == h.(core := WriteAll(h.core, UNFRAMED, Without(b, ESC)))
  {
    StuffedIsPrinted(b);
    PrintAllOne(Def);
    PrintAllConcat(PayloadTokens(b), [Def]);
    TokensRefined(h, PayloadTokens(b) + [Def]);
    InterpConcat(h, PayloadTokens(b), [Def]);
    PayloadEffect(h, b);
    InterpOne(InterpAll(h, PayloadTokens(b)), Def);
  }

  /** A reset between two payload bytes of a frame splits it: the stream keeps what came before, and what comes
      after goes to the unframed log without its 0xfe bytes. */
  lemma ResetSplitsFrame(m: Mode, l: Link, id: byte, a: seq<byte>, b: seq<byte>)
    requires m.Nvidia? && 0 <= m.carrier < |CHIP_TAGS| && !l.esc
    requires AtBoundary(l.host) && HostOk(l.host) && l.host.live
    requires ValidId(id) && Find(l.host.core.table.tags, id) >= 0
    ensures var x, y := [ESC, id] + Stuffed(a), Stuffed(b) + [ESC, DEFAULT];
            x + y == DataFrame(id, a + b) &&
            LinkRun(m, l, SplitWire(m, x, y)) ==
            Link(AddRaw(SplitDelivered(l.host, Find(l.host.core.table.tags, id), a, b), RawCopy(m, x + y)),
                 false, m.carrier)
  {
    var x, y := [ESC, id] + Stuffed(a), Stuffed(b) + [ESC, DEFAULT];
    SplitInner(l.host, id, a, b, x, y);
    SplitLink(m, l, x, y);
    SplitBytes(id, a, b);
  }

  lemma SplitBytes(id: byte, a: seq<byte>, b: seq<byte>)
    ensures ([ESC, id] + Stuffed(a)) + (Stuffed(b) + [ESC, DEFAULT]) == DataFrame(id, a + b)
  {
    StuffedConcat(a, b);
  }

  lemma SplitInner(h: Host, id: byte, a: seq<byte>, b: seq<byte>, x: seq<byte>, y: seq<byte>)
    requires AtBoundary(h) && HostOk(h) && h.live && ValidId(id) && Find(h.core.table.tags, id) >= 0
    requires x == [ESC, id] + Stuffed(a) && y == Stuffed(b) + [ESC, DEFAULT]
    ensures Run(Cleared(Run(h, x)), y) == SplitDelivered(h, Find(h.core.table.tags, id), a, b)
  {
    OpeningHalf(h, id, a);
    ClosingHalf(Cleared(Run(h, x)), b);
  }

  lemma SplitLink(m: Mode, l: Link, x: seq<byte>, y: seq<byte>)
    requires m.Nvidia? && 0 <= m.carrier < |CHIP_TAGS| && !l.esc && HostOk(l.host)
    requires Run(Cleared(Run(l.host, x)), y).live
    ensures LinkRun(m, l, SplitWire(m, x, y)) ==
            Link(AddRaw(Run(Cleared(Run(l.host, x)), y), RawCopy(m, x + y)), false, m.carrier)
  {
    SplitRun(l.host, x, y);
    SplitPasses(m, l.tag, x, y);
    LinkCarries(m, l, SplitWire(m, x, y));
    HeardAll(l.host, Ins(x) + [Cut] + Ins(y));
  }

  lemma {:induction false} StuffedConcat(a: seq<byte>, b: seq<byte>)
    ensures Stuffed(a + b) == Stuffed(a) + Stuffed(b)
    decreases b
  {
    if b == [] {
      assert a + b == a;
    } else {
      assert (a + b)[..|a + b| - 1] == a + b[..|b| - 1];
      StuffedConcat(a, b[..|b| - 1]);
    }
  }
}
