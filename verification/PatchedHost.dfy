/** Line-ending patching in the host: the flags are kept per PTY, so patching while demultiplexing is the same
    as demultiplexing first and patching each log on its own, the copy in raw_ccplex included. */
module PatchedHost {
  import opened Bytes
  import opened LineEnding
  import opened TagTable
  import opened Demux
  import opened Proto
  import opened Outer

  /** `c` patches and `d` does not; they agree on everything else, and every log of `c` with its flags is the
      patched log of `d`. */
  ghost predicate Patches(c: Core, d: Core) {
    && c == d.(ptys := c.ptys, patch := true) && !d.patch
    && |c.ptys| == |d.ptys|
    && forall i :: 0 <= i < |c.ptys| ==> c.ptys[i] == PutAll(true, FRESH, d.ptys[i].log)
  }

  ghost predicate HostPatches(h: Host, g: Host) {
    h == Host(h.core, g.esc, g.ctrl, g.live) && Patches(h.core, g.core)
  }

  lemma WritePatches(c: Core, d: Core, i: int, b: byte)
    requires Patches(c, d)
    ensures Patches(WriteTo(c, i, b), WriteTo(d, i, b))
  {
    if 0 <= i < |c.ptys| {
      PutAllSnoc(true, FRESH, d.ptys[i].log, b);
    }
  }

  lemma TablePatches(c: Core, d: Core, t: Table)
    requires Patches(c, d)
    ensures Patches(WithTable(c, t), WithTable(d, t))
  {
    assert PutAll(true, FRESH, FRESH.log) == FRESH;
  }

  lemma RegisterPatches(c: Core, d: Core, json: seq<byte>)
    requires Patches(c, d)
    ensures Register(c, json).Some? == Register(d, json).Some?
    ensures Register(c, json).Some? ==> Patches(Register(c, json).value, Register(d, json).value)
  {
    var text := CStr(Text(json));
    var t := ApplyRegistry(c.table, text);
    if c.registry.None? && t.Some? {
      TablePatches(c.(registry := Some(text)), d.(registry := Some(text)), t.value);
    }
  }

  lemma AnnouncePatches(c: Core, d: Core, kind: byte, payload: seq<byte>)
    requires Patches(c, d)
    ensures Patches(Announce(c, kind, payload), Announce(d, kind, payload))
  {
    if kind == CONNECTED && payload != [] {
      TablePatches(c, d, Connect(c.table, payload));
    }
  }

  lemma StepPatches(h: Host, g: Host, b: byte)
    requires HostPatches(h, g)
    ensures HostPatches(Step(h, b), Step(g, b))
  {
    if g.live {
      if g.ctrl != Idle {
        match g.ctrl {
          case RegistryBody(_, got) => RegisterPatches(h.core, g.core, got + [b]);
          case AnnounceBody(kind, _, got) => AnnouncePatches(h.core, g.core, kind, got + [b]);
          case _ =>
        }
      } else if g.esc {
        WritePatches(h.core, g.core, g.core.cursor, ESC);
      } else if b != ESC {
        WritePatches(h.core, g.core, if g.core.cursor < 0 then UNFRAMED else g.core.cursor, b);
      }
    }
  }

  ghost predicate LinkPatches(l: Link, k: Link) {
    l == Link(l.host, k.esc, k.tag) && HostPatches(l.host, k.host)
  }

  lemma RawPatches(h: Host, g: Host, b: byte)
    requires HostPatches(h, g)
    ensures HostPatches(AddRaw(h, [b]), AddRaw(g, [b]))
  {
    WritePatches(h.core, g.core, 0, b);
    RawIsWrite(h.core, b);
    RawIsWrite(g.core, b);
  }

  lemma RawIsWrite(c: Core, b: byte)
    ensures WriteAll(c, 0, [b]) == WriteTo(c, 0, b)
  {
    WriteAllCons(c, 0, b, []);
    WriteAllNone(WriteTo(c, 0, b), 0);
    assert [b] + [] == [b];
  }

  lemma LinkStepPatches(m: Mode, l: Link, k: Link, b: byte)
    requires LinkPatches(l, k)
    ensures LinkPatches(LinkStep(m, l, b), LinkStep(m, k, b))
  {
    RawPatches(l.host, k.host, b);
    StepPatches(AddRaw(l.host, [b]), AddRaw(k.host, [b]), b);
    StepPatches(l.host, k.host, OUTER_ESC);
  }

  lemma {:induction false} LinkRunPatches(m: Mode, l: Link, k: Link, wire: seq<byte>)
    requires LinkPatches(l, k)
    ensures LinkPatches(LinkRun(m, l, wire), LinkRun(m, k, wire))
    decreases wire
  {
    if wire != [] {
      LinkStepPatches(m, l, k, wire[0]);
      LinkRunPatches(m, LinkStep(m, l, wire[0]), LinkStep(m, k, wire[0]), wire[1..]);
    }
  }

  /** Over every wire, in raw or nvidia-tcu mode, outer resets included, a fresh host that patches parses exactly
      like one that does not, and each of its logs, raw_ccplex among them, is the patched log of the other; so
      every log has complete line endings and keeps its bytes. */
  lemma DemuxThenPatch(m: Mode, wire: seq<byte>, i: nat)
    requires i < |LinkRun(m, NewLink(false), wire).host.core.ptys|
    ensures var l, k := LinkRun(m, NewLink(true), wire), LinkRun(m, NewLink(false), wire);
            var on, off := l.host, k.host;
            && (l.esc, l.tag) == (k.esc, k.tag) && (on.esc, on.ctrl, on.live) == (off.esc, off.ctrl, off.live)
            && on.core.(ptys := [], patch := false) == off.core.(ptys := [])
            && i < |on.core.ptys|
            && on.core.ptys[i] == PutAll(true, FRESH, off.core.ptys[i].log)
            && Subsequence(off.core.ptys[i].log, on.core.ptys[i].log)
            && RunsComplete(on.core.ptys[i].log)
  {
    assert PutAll(true, FRESH, FRESH.log) == FRESH;
    LinkRunPatches(m, NewLink(true), NewLink(false), wire);
    PatchFromFresh(LinkRun(m, NewLink(false), wire).host.core.ptys[i].log);
  }
}
