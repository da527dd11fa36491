/** What the host's logs hold after any run of the multiplexer daemon, at every frame boundary. */
module MuxdUplink {
  import opened Bytes
  import opened LineEnding
  import opened TagTable
  import opened Demux
  import opened Tokens
  import opened Proto
  import opened Outer
  import opened Muxd
  import opened MuxdRuns

  /** The bytes the sink task writes for a list of frames. */
  function Wire(fs: seq<Frame>): seq<byte> {
    if fs == [] then [] else Wire(fs[..|fs| - 1]) + Encode(fs[|fs| - 1])
  }

  function DataOf(f: Frame, id: byte): seq<byte> {
    if f.Data? && f.id == id then f.payload else []
  }

  /** The payloads of all data frames of one id, in order. */
  function Payloads(fs: seq<Frame>, id: byte): seq<byte> {
    if fs == [] then [] else Payloads(fs[..|fs| - 1], id) + DataOf(fs[|fs| - 1], id)
  }

  function Announced(fs: seq<Frame>, id: byte): bool {
    exists i :: 0 <= i < |fs| && fs[i].Open? && fs[i].id == id
  }

  /** Exactly the announced ids are registered, each of them usable. */
  ghost predicate IdsMatch(t: Table, fs: seq<Frame>) {
    && (forall i :: 3 <= i < |t.tags| ==> ValidId(t.tags[i].value))
    && (forall id: byte :: ValidId(id) ==> (Find(t.tags, id) >= 0 <==> Announced(fs, id)))
  }

  /** Every stream's PTY holds its payloads; the unframed log holds those of id 0 but for 0xfe bytes. */
  ghost predicate LogsMatch(c: Core, fs: seq<Frame>) {
    && |c.ptys| == |c.table.tags| >= 3
    && (forall id: byte :: ValidId(id) && Find(c.table.tags, id) >= 0 ==>
          c.ptys[Find(c.table.tags, id)] == PutAll(c.patch, FRESH, Payloads(fs, id)))
    && c.ptys[UNFRAMED] == PutAll(c.patch, FRESH, Without(Payloads(fs, 0), ESC))
  }

  /** The host has seen exactly these frames. */
  ghost predicate HostMatches(h: Host, fs: seq<Frame>) {
    && AtBoundary(h) && h.live && HostOk(h) && h.core.cursor == -1
    && IdsMatch(h.core.table, fs) && LogsMatch(h.core, fs)
  }

  /** Data frames are only sent inside a session, hence behind the frame that announced the id. */
  lemma {:induction false} InsideIsAnnounced(fs: seq<Frame>, id: byte)
    requires ValidId(id) && TrackOf(fs, id) == Inside
    ensures Announced(fs, id)
  {
    var n := |fs| - 1;
    if fs[n].Open? && fs[n].id == id {
      assert fs[n].Open? && fs[n].id == id;
    } else {
      InsideIsAnnounced(fs[..n], id);
      var i :| 0 <= i < n && fs[..n][i].Open? && fs[..n][i].id == id;
      assert fs[i].Open? && fs[i].id == id;
    }
  }

  lemma AnnouncedSnoc(fs: seq<Frame>, f: Frame, id: byte)
    ensures Announced(fs + [f], id) <==> Announced(fs, id) || (f.Open? && f.id == id)
    ensures Payloads(fs + [f], id) == Payloads(fs, id) + DataOf(f, id)
  {
    var gs := fs + [f];
    assert gs[..|fs|] == fs;
    assert gs[|fs|] == f;
    assert forall i :: 0 <= i < |fs| ==> gs[i] == fs[i];
  }

  lemma AnnouncedSnocAll(fs: seq<Frame>, f: Frame)
    ensures forall id: byte :: Announced(fs + [f], id) <==> Announced(fs, id) || (f.Open? && f.id == id)
    ensures forall id: byte :: Payloads(fs + [f], id) == Payloads(fs, id) + DataOf(f, id)
  {
    forall id: byte
      ensures Announced(fs + [f], id) <==> Announced(fs, id) || (f.Open? && f.id == id)
      ensures Payloads(fs + [f], id) == Payloads(fs, id) + DataOf(f, id)
    {
      AnnouncedSnoc(fs, f, id);
    }
  }

  lemma FindDistinct(t: Table, a: byte, b: byte)
    requires a != b && Find(t.tags, a) >= 0
    ensures Find(t.tags, a) != Find(t.tags, b)
  {
  }

  lemma DataStep(h: Host, fs: seq<Frame>, id: byte, payload: seq<byte>)
    requires HostMatches(h, fs) && FrameId(id) && (ValidId(id) ==> Announced(fs, id))
    ensures HostMatches(Run(h, DataFrame(id, payload)), fs + [Data(id, payload)])
  {
    DataFrameEffect(h, id, payload);
    RunOk(h, DataFrame(id, payload));
    AnnouncedSnocAll(fs, Data(id, payload));
    if id == 0 {
      UnframedMore(h.core, fs, payload);
    } else {
      LookupUnique(h.core.table, id, Find(h.core.table.tags, id));
      StreamMore(h.core, fs, id, payload);
    }
  }

  /** Payload of id 0. */
  lemma UnframedMore(c: Core, fs: seq<Frame>, payload: seq<byte>)
    requires TagTable.Valid(c.table) && LogsMatch(c, fs)
    ensures LogsMatch(WriteAll(c, UNFRAMED, Without(payload, ESC)), fs + [Data(0, payload)])
  {
    AnnouncedSnocAll(fs, Data(0, payload));
    PutAllConcat(c.patch, FRESH, Without(Payloads(fs, 0), ESC), Without(payload, ESC));
    WithoutConcat(Payloads(fs, 0), payload, ESC);
    forall i: byte | ValidId(i) && Find(c.table.tags, i) >= 0
      ensures Payloads(fs + [Data(0, payload)], i) == Payloads(fs, i) && Find(c.table.tags, i) != UNFRAMED
    {
      LookupUnique(c.table, i, Find(c.table.tags, i));
      assert Payloads(fs, i) + [] == Payloads(fs, i);
    }
  }

  /** Payload of a registered stream. */
  lemma StreamMore(c: Core, fs: seq<Frame>, id: byte, payload: seq<byte>)
    requires TagTable.Valid(c.table) && LogsMatch(c, fs) && ValidId(id) && Find(c.table.tags, id) >= 3
    ensures LogsMatch(WriteAll(c, Find(c.table.tags, id), payload), fs + [Data(id, payload)])
  {
    AnnouncedSnocAll(fs, Data(id, payload));
    PutAllConcat(c.patch, FRESH, Payloads(fs, id), payload);
    assert Payloads(fs, 0) + [] == Payloads(fs, 0);
    forall i: byte | ValidId(i) && i != id && Find(c.table.tags, i) >= 0
      ensures Payloads(fs + [Data(id, payload)], i) == Payloads(fs, i)
      ensures Find(c.table.tags, i) != Find(c.table.tags, id)
    {
      FoundApart(c.table, i, id);
      assert Payloads(fs, i) + [] == Payloads(fs, i);
    }
  }

  /** The PTY of another id is neither that of `id` nor the unframed log. */
  lemma FoundApart(t: Table, i: byte, id: byte)
    requires TagTable.Valid(t) && ValidId(i) && i != id && Find(t.tags, i) >= 0
    ensures Find(t.tags, i) != Find(t.tags, id) && 3 <= Find(t.tags, i) < |t.tags|
  {
    FindDistinct(t, i, id);
    LookupUnique(t, i, Find(t.tags, i));
  }

  lemma ExtendFindAll(t: Table, tag: Tag)
    ensures forall i: byte :: Find(Extend(t, tag, false).tags, i) ==
              if Find(t.tags, i) >= 0 then Find(t.tags, i) else if tag.value == i then |t.tags| else -1
  {
    forall i: byte
      ensures Find(Extend(t, tag, false).tags, i) ==
              if Find(t.tags, i) >= 0 then Find(t.tags, i) else if tag.value == i then |t.tags| else -1
    {
      ExtendFind(t, tag, false, i);
    }
  }

  lemma ControlLeavesPayloads(fs: seq<Frame>, f: Frame)
    requires !f.Data?
    ensures forall i: byte :: Payloads(fs + [f], i) == Payloads(fs, i)
    ensures forall i: byte :: Announced(fs + [f], i) <==> Announced(fs, i) || (f.Open? && f.id == i)
  {
    AnnouncedSnocAll(fs, f);
    forall i: byte
      ensures Payloads(fs + [f], i) == Payloads(fs, i)
    {
      assert Payloads(fs, i) + [] == Payloads(fs, i);
    }
  }

  lemma NewStreamIds(t: Table, fs: seq<Frame>, f: Frame, name: string)
    requires IdsMatch(t, fs) && f.Open? && ValidId(f.id) && Find(t.tags, f.id) < 0
    ensures IdsMatch(Extend(t, Tag(name, f.id), false), fs + [f])
  {
    ControlLeavesPayloads(fs, f);
    ExtendFindAll(t, Tag(name, f.id));
  }

  lemma NewStreamLogs(c: Core, fs: seq<Frame>, f: Frame, name: string)
    requires LogsMatch(c, fs) && f.Open? && ValidId(f.id) && Find(c.table.tags, f.id) < 0 && Payloads(fs, f.id) == []
    ensures LogsMatch(WithTable(c, Extend(c.table, Tag(name, f.id), false)), fs + [f])
  {
    ControlLeavesPayloads(fs, f);
    ExtendFindAll(c.table, Tag(name, f.id));
    assert |Blank(1)| == 1;
  }

  /** The first announcement of an id gives it an empty PTY of its own. */
  lemma NewStream(h: Host, fs: seq<Frame>, f: Frame, name: string)
    requires HostMatches(h, fs) && f.Open? && ValidId(f.id) && Find(h.core.table.tags, f.id) < 0
    requires Payloads(fs, f.id) == [] && |h.core.table.tags| < CAPACITY
    ensures HostMatches(h.(core := WithTable(h.core, Extend(h.core.table, Tag(name, f.id), false))), fs + [f])
  {
    ExtendValid(h.core.table, Tag(name, f.id), false);
    WithTableOk(h.core, Extend(h.core.table, Tag(name, f.id), false));
    NewStreamIds(h.core.table, fs, f, name);
    NewStreamLogs(h.core, fs, f, name);
  }

  /** A repeated announcement changes nothing: a reused id keeps its first name and PTY. */
  lemma KnownStream(h: Host, fs: seq<Frame>, f: Frame)
    requires HostMatches(h, fs) && !f.Data? && FrameId(f.id)
    requires f.Open? && ValidId(f.id) ==> Find(h.core.table.tags, f.id) >= 0
    ensures HostMatches(h, fs + [f])
  {
    ControlLeavesPayloads(fs, f);
  }

  lemma ControlStep(h: Host, fs: seq<Frame>, f: Frame)
    requires HostMatches(h, fs) && FrameId(f.id) && !f.Data?
    requires f.Open? && ValidId(f.id) && !Announced(fs, f.id) ==> Payloads(fs, f.id) == []
    ensures HostMatches(Run(h, Encode(f)), fs + [f])
  {
    ControlFrameEffect(h, if f.Open? then CONNECTED else DISCONNECTED, f.id, f.name);
    ValidIdsLeaveRoom(h.core.table);
    assert h.core.table.tags[0] == h.core.table.tags[..3][0];
    if f.Open? && Find(h.core.table.tags, f.id) < 0 {
      NewStream(h, fs, f, HostName(f.name));
    } else {
      KnownStream(h, fs, f);
    }
  }

  lemma {:induction false} SilentUnlessAnnounced(fs: seq<Frame>, id: byte)
    requires ValidId(id) && TrackOf(fs, id) != Broken && !Announced(fs, id)
    ensures Payloads(fs, id) == [] && TrackOf(fs, id) == Between
  {
    if fs != [] {
      var n := |fs| - 1;
      assert forall i :: 0 <= i < n ==> fs[..n][i] == fs[i];
      assert !(fs[n].Open? && fs[n].id == id);
      SilentUnlessAnnounced(fs[..n], id);
    }
  }

  /** Prefixes of a disciplined frame list are disciplined. */
  lemma PrefixDisciplined(fs: seq<Frame>, f: Frame)
    requires Disciplined(fs + [f])
    ensures Disciplined(fs) && FrameId(f.id) && (ValidId(f.id) && f.Data? ==> Announced(fs, f.id))
  {
    assert (fs + [f])[|fs|] == f;
    forall id: byte | ValidId(id)
      ensures TrackOf(fs, id) != Broken
    {
      TrackSnoc(fs, f, id);
    }
    forall g | g in fs
      ensures FrameId(g.id)
    {
      assert g in fs + [f];
    }
    if ValidId(f.id) && f.Data? {
      TrackSnoc(fs, f, f.id);
      InsideIsAnnounced(fs, f.id);
    }
  }

  lemma FrameStep(h: Host, fs: seq<Frame>, f: Frame)
    requires HostMatches(h, fs) && Disciplined(fs + [f])
    ensures HostMatches(Run(h, Encode(f)), fs + [f])
  {
    PrefixDisciplined(fs, f);
    if f.Data? {
      DataStep(h, fs, f.id, f.payload);
    } else {
      if f.Open? && ValidId(f.id) && !Announced(fs, f.id) {
        SilentUnlessAnnounced(fs, f.id);
      }
      ControlStep(h, fs, f);
    }
  }

  /** Induction over the frames: the host matches every disciplined frame list. */
  lemma {:induction false} HostFollows(patch: bool, fs: seq<Frame>)
    requires Disciplined(fs)
    ensures HostMatches(Run(Initial(patch), Wire(fs)), fs)
  {
    if fs == [] {
      assert forall id: byte :: ValidId(id) ==> Find(BUILTINS.tags, id) == -1;
    } else {
      var prior, f := fs[..|fs| - 1], fs[|fs| - 1];
      assert fs == prior + [f];
      PrefixDisciplined(prior, f);
      HostFollows(patch, prior);
      FrameStep(Run(Initial(patch), Wire(prior)), prior, f);
      RunConcat(Initial(patch), Wire(prior), Encode(f));
    }
  }

  // ---------------------------------------------------------------- names

  /** The name in the first announcement of an id. */
  function FirstName(fs: seq<Frame>, id: byte): seq<byte> {
    if fs == [] then [] else
    var prior, f := fs[..|fs| - 1], fs[|fs| - 1];
    if !Announced(prior, id) && f.Open? && f.id == id then f.name else FirstName(prior, id)
  }

  /** Every announced stream has kept its first name, and takes no input. */
  ghost predicate NamesMatch(t: Table, fs: seq<Frame>) {
    && |t.tags| == |t.input|
    && forall id: byte :: ValidId(id) && Find(t.tags, id) >= 0 ==>
         Kept(FirstName(fs, id), t.tags[Find(t.tags, id)].name) && !t.input[Find(t.tags, id)]
  }

  lemma FirstNameSnoc(fs: seq<Frame>, f: Frame)
    ensures forall id: byte :: FirstName(fs + [f], id) ==
              if !Announced(fs, id) && f.Open? && f.id == id then f.name else FirstName(fs, id)
  {
    assert (fs + [f])[..|fs|] == fs;
  }

  lemma NewName(t: Table, fs: seq<Frame>, f: Frame, name: string)
    requires IdsMatch(t, fs) && NamesMatch(t, fs) && f.Open? && Find(t.tags, f.id) < 0 && ValidId(f.id)
    requires Kept(f.name, name)
    ensures NamesMatch(Extend(t, Tag(name, f.id), false), fs + [f])
  {
    FirstNameSnoc(fs, f);
    ExtendFindAll(t, Tag(name, f.id));
  }

  lemma OldNames(t: Table, fs: seq<Frame>, f: Frame)
    requires IdsMatch(t, fs) && NamesMatch(t, fs) && (f.Open? && ValidId(f.id) ==> Find(t.tags, f.id) >= 0)
    ensures NamesMatch(t, fs + [f])
  {
    FirstNameSnoc(fs, f);
  }

  lemma NameStep(h: Host, fs: seq<Frame>, f: Frame)
    requires HostMatches(h, fs) && NamesMatch(h.core.table, fs) && Disciplined(fs + [f])
    ensures NamesMatch(Run(h, Encode(f)).core.table, fs + [f])
  {
    PrefixDisciplined(fs, f);
    var t := h.core.table;
    if f.Data? {
      DataFrameEffect(h, f.id, f.payload);
      OldNames(t, fs, f);
    } else {
      ControlFrameEffect(h, if f.Open? then CONNECTED else DISCONNECTED, f.id, f.name);
      ValidIdsLeaveRoom(t);
      assert t.tags[0] == t.tags[..3][0];
      if f.Open? && Find(t.tags, f.id) < 0 {
        NewName(t, fs, f, HostName(f.name));
      } else {
        OldNames(t, fs, f);
      }
    }
  }

  lemma {:induction false} NamesFollow(patch: bool, fs: seq<Frame>)
    requires Disciplined(fs)
    ensures NamesMatch(Run(Initial(patch), Wire(fs)).core.table, fs)
  {
    if fs == [] {
      assert forall id: byte :: ValidId(id) ==> Find(BUILTINS.tags, id) == -1;
    } else {
      var prior, f := fs[..|fs| - 1], fs[|fs| - 1];
      FrontAndLast(fs);
      PrefixDisciplined(prior, f);
      NamesFollow(patch, prior);
      HostFollows(patch, prior);
      NameStep(Run(Initial(patch), Wire(prior)), prior, f);
      RunConcat(Initial(patch), Wire(prior), Encode(f));
    }
  }

  // ---------------------------------------------------------------- sessions

  /** What the sessions on one id put into the channel, session after session. */
  function SessionBytes(order: seq<(byte, nat)>, intake: map<nat, seq<byte>>, id: byte): seq<byte> {
    if order == [] then [] else
    var (i, c) := order[|order| - 1];
    SessionBytes(order[..|order| - 1], intake, id) + if i == id && c in intake then intake[c] else []
  }

  /** The latest client to open a session on `id`. */
  ghost predicate Latest(order: seq<(byte, nat)>, id: byte, c: nat) {
    exists k :: 0 <= k < |order| && order[k] == (id, c) && forall j :: k < j < |order| ==> order[j].0 != id
  }

  /** Each client opens at most one session, and a reading client's session is the latest on its id. */
  ghost predicate OrderOk(d: Daemon) {
    && (forall i, j :: 0 <= i < j < |d.order| ==> d.order[i].1 != d.order[j].1)
    && (forall i :: 0 <= i < |d.order| ==> d.order[i].1 in d.clients && d.order[i].1 in d.intake)
    && (forall i :: 0 <= i < |d.order| ==> !d.clients[d.order[i].1].Replying? && !d.clients[d.order[i].1].Connecting?)
    && (forall i :: 0 <= i < |d.order| && d.clients[d.order[i].1].Reading? ==>
          d.order[i].0 == d.clients[d.order[i].1].id)
    && (forall c :: c in d.clients && d.clients[c].Reading? && ValidId(d.clients[c].id) ==>
          Latest(d.order, d.clients[c].id, c))
  }

  /** No byte is lost, duplicated or moved between the clients and the channel. */
  ghost predicate BytesOk(d: Daemon) {
    forall id: byte :: ValidId(id) ==> Payloads(d.sent, id) == SessionBytes(d.order, d.intake, id)
  }

  lemma {:induction false} IntakeIrrelevant(order: seq<(byte, nat)>, m: map<nat, seq<byte>>, n: map<nat, seq<byte>>,
                                            id: byte)
    requires forall i :: 0 <= i < |order| && order[i].0 == id ==>
               (order[i].1 in m <==> order[i].1 in n) && (order[i].1 in m ==> m[order[i].1] == n[order[i].1])
    ensures SessionBytes(order, m, id) == SessionBytes(order, n, id)
  {
    if order != [] {
      IntakeIrrelevant(order[..|order| - 1], m, n, id);
    }
  }

  /** Bytes read in the latest session on an id are appended to what its sessions sent. */
  lemma {:induction false} LatestGrows(order: seq<(byte, nat)>, m: map<nat, seq<byte>>, id: byte, c: nat, k: nat,
                                       more: seq<byte>)
    requires k < |order| && order[k] == (id, c) && c in m && (forall j :: k < j < |order| ==> order[j].0 != id)
    requires forall i, j :: 0 <= i < j < |order| ==> order[i].1 != order[j].1
    ensures SessionBytes(order, m[c := m[c] + more], id) == SessionBytes(order, m, id) + more
  {
    var n := |order| - 1;
    if k == n {
      IntakeIrrelevant(order[..n], m, m[c := m[c] + more], id);
    } else {
      LatestGrows(order[..n], m, id, c, k, more);
      assert SessionBytes(order[..n], m, id) + [] == SessionBytes(order[..n], m, id);
    }
  }

  lemma OpenKeepsBytes(d: Daemon, c: nat)
    requires DaemonOk(d) && OrderOk(d) && BytesOk(d) && Enabled(d, SendOpen(c))
    ensures BytesOk(Apply(d, SendOpen(c)))
  {
    var e := Apply(d, SendOpen(c));
    forall id: byte | ValidId(id)
      ensures Payloads(e.sent, id) == SessionBytes(e.order, e.intake, id)
    {
      OpenKeepsBytesOf(d, e, c, id);
    }
  }

  lemma OpenKeepsBytesOf(d: Daemon, e: Daemon, c: nat, id: byte)
    requires DaemonOk(d) && OrderOk(d) && BytesOk(d) && Enabled(d, SendOpen(c)) && e == Apply(d, SendOpen(c))
    requires ValidId(id)
    ensures Payloads(e.sent, id) == SessionBytes(e.order, e.intake, id)
  {
    var s := d.clients[c];
    NewSession(d.order, d.intake, s.id, c, id);
    if d.up {
      AnnouncedSnoc(d.sent, Open(s.id, s.name), id);
    }
  }

  /** A session that has read nothing yet adds nothing. */
  lemma NewSession(order: seq<(byte, nat)>, m: map<nat, seq<byte>>, x: byte, c: nat, id: byte)
    requires forall i :: 0 <= i < |order| ==> order[i].1 != c
    ensures SessionBytes(order + [(x, c)], m[c := []], id) == SessionBytes(order, m, id)
  {
    assert (order + [(x, c)])[..|order|] == order;
    IntakeIrrelevant(order, m, m[c := []], id);
    assert SessionBytes(order, m, id) + [] == SessionBytes(order, m, id);
  }

  lemma OpenKeepsOrder(d: Daemon, c: nat)
    requires DaemonOk(d) && OrderOk(d) && Enabled(d, SendOpen(c))
    ensures OrderOk(Apply(d, SendOpen(c)))
  {
    var e := Apply(d, SendOpen(c));
    var s := d.clients[c];
    assert e.order == d.order + [(s.id, c)];
    forall x | x in e.clients && e.clients[x].Reading? && ValidId(e.clients[x].id)
      ensures Latest(e.order, e.clients[x].id, x)
    {
      if x == c {
        assert e.order[|d.order|] == (s.id, c);
      } else {
        LatestKept(d, c, x);
      }
    }
  }

  lemma LatestKept(d: Daemon, c: nat, x: nat)
    requires DaemonOk(d) && OrderOk(d) && c in d.clients && d.clients[c].Connecting? && x != c
    requires x in d.clients && d.clients[x].Reading? && ValidId(d.clients[x].id)
    ensures Latest(d.order + [(d.clients[c].id, c)], d.clients[x].id, x)
  {
    var id := d.clients[x].id;
    assert Holds(d, x, id) && Holds(d, c, d.clients[c].id);
    var k :| 0 <= k < |d.order| && d.order[k] == (id, x) && forall j :: k < j < |d.order| ==> d.order[j].0 != id;
    assert (d.order + [(d.clients[c].id, c)])[k] == (id, x);
  }

  lemma DataKeepsBytes(d: Daemon, c: nat, payload: seq<byte>)
    requires DaemonOk(d) && OrderOk(d) && BytesOk(d) && Enabled(d, SendData(c, payload)) && d.up
    ensures BytesOk(Apply(d, SendData(c, payload)))
  {
    var e := Apply(d, SendData(c, payload));
    forall i: byte | ValidId(i)
      ensures Payloads(e.sent, i) == SessionBytes(e.order, e.intake, i)
    {
      AnnouncedSnoc(d.sent, Data(d.clients[c].id, payload), i);
      if i == d.clients[c].id {
        SessionGrows(d, c, payload);
      } else {
        OtherSessions(d, c, payload, i);
      }
    }
  }

  /** The bytes a client reads are appended to what its id's sessions sent. */
  lemma SessionGrows(d: Daemon, c: nat, payload: seq<byte>)
    requires OrderOk(d) && Enabled(d, SendData(c, payload)) && ValidId(d.clients[c].id)
    ensures c in d.intake
    ensures var id := d.clients[c].id;
            SessionBytes(d.order, d.intake[c := d.intake[c] + payload], id) ==
            SessionBytes(d.order, d.intake, id) + payload
  {
    var id := d.clients[c].id;
    var k :| 0 <= k < |d.order| && d.order[k] == (id, c) && forall j :: k < j < |d.order| ==> d.order[j].0 != id;
    LatestGrows(d.order, d.intake, id, c, k, payload);
  }

  lemma OtherSessions(d: Daemon, c: nat, payload: seq<byte>, i: byte)
    requires DaemonOk(d) && OrderOk(d) && Enabled(d, SendData(c, payload)) && d.up && i != d.clients[c].id
    ensures SessionBytes(d.order, Apply(d, SendData(c, payload)).intake, i) == SessionBytes(d.order, d.intake, i)
    ensures Payloads(d.sent, i) + [] == Payloads(d.sent, i)
  {
    IntakeIrrelevant(d.order, d.intake, Apply(d, SendData(c, payload)).intake, i);
  }

  lemma CloseKeepsBytes(d: Daemon, c: nat)
    requires BytesOk(d) && Enabled(d, SendClose(c)) && DaemonOk(d)
    ensures BytesOk(Apply(d, SendClose(c)))
  {
    forall id: byte | ValidId(id)
      ensures Payloads(Apply(d, SendClose(c)).sent, id) == SessionBytes(d.order, d.intake, id)
    {
      AnnouncedSnoc(d.sent, Close(d.clients[c].id, d.clients[c].name), id);
      assert Payloads(d.sent, id) + [] == Payloads(d.sent, id);
    }
  }

  lemma StepKeepsBytes(d: Daemon, e: Event)
    requires DaemonOk(d) && OrderOk(d) && BytesOk(d) && Enabled(d, e)
    ensures BytesOk(Apply(d, e))
  {
    if e.SendOpen? {
      OpenKeepsBytes(d, e.c);
    } else if e.SendData? && d.up {
      DataKeepsBytes(d, e.c, e.payload);
    } else if e.SendClose? {
      CloseKeepsBytes(d, e.c);
    } else {
      assert Apply(d, e).sent == d.sent && Apply(d, e).order == d.order && Apply(d, e).intake == d.intake;
    }
  }

  /** A client that moves on without opening a session leaves the order of sessions alone. */
  lemma MoveKeepsOrder(d: Daemon, e: Daemon, c: nat, s: Client)
    requires OrderOk(d) && e.order == d.order && d.intake.Keys <= e.intake.Keys && e.clients == d.clients[c := s]
    requires s.Reading? ==> c in d.clients && s == d.clients[c]
    requires s.Replying? || s.Connecting? ==> c !in d.clients || d.clients[c].Replying? || d.clients[c].Connecting?
    ensures OrderOk(e)
  {
  }

  lemma StepKeepsOrder(d: Daemon, e: Event)
    requires DaemonOk(d) && OrderOk(d) && Enabled(d, e)
    ensures OrderOk(Apply(d, e))
  {
    var d' := Apply(d, e);
    if e.SendOpen? {
      OpenKeepsOrder(d, e.c);
    } else if e.SendData? && d.up {
      assert d'.clients == d.clients[e.c := d.clients[e.c]];
      MoveKeepsOrder(d, d', e.c, d.clients[e.c]);
    } else if !e.Take? && !e.Break? {
      MoveKeepsOrder(d, d', e.c, d'.clients[e.c]);
    }
  }

  lemma {:induction false} EveryRunKeepsBytes(d: Daemon, es: seq<Event>)
    requires DaemonOk(d) && OrderOk(d) && BytesOk(d) && RunFrom(d, es).Some?
    ensures DaemonOk(RunFrom(d, es).value) && BytesOk(RunFrom(d, es).value)
    decreases es
  {
    if es != [] {
      StepKeepsDiscipline(d, es[0]);
      StepKeepsOrder(d, es[0]);
      StepKeepsBytes(d, es[0]);
      EveryRunKeepsBytes(Apply(d, es[0]), es[1..]);
    }
  }

  lemma {:induction false} PrefixOfDisciplined(fs: seq<Frame>, n: nat)
    requires Disciplined(fs) && n <= |fs|
    ensures Disciplined(fs[..n])
    decreases |fs|
  {
    if n == |fs| {
      assert fs[..n] == fs;
    } else {
      var m := |fs| - 1;
      assert fs == fs[..m] + [fs[m]];
      PrefixDisciplined(fs[..m], fs[m]);
      PrefixOfDisciplined(fs[..m], n);
      assert fs[..m][..n] == fs[..n];
    }
  }

  /** The copy in the raw PTY does not disturb the match. */
  lemma RawKeepsMatch(h: Host, fs: seq<Frame>, raw: seq<byte>)
    requires HostMatches(h, fs)
    ensures HostMatches(AddRaw(h, raw), fs)
  {
    AddRawOk(h, raw);
    forall id: byte | ValidId(id) && Find(h.core.table.tags, id) >= 0
      ensures AddRaw(h, raw).core.ptys[Find(h.core.table.tags, id)] == PutAll(h.core.patch, FRESH, Payloads(fs, id))
    {
      StreamIndex(h, id);
    }
  }

  /** raw_ccplex gets the copy of the frames as they are, and autopilot_control nothing. */
  lemma RawContent(m: Mode, inner: seq<byte>, patch: bool)
    ensures var c := AddRaw(Run(Initial(patch), inner), RawCopy(m, inner)).core;
            && c.patch == patch && |c.ptys| >= 3
            && c.ptys[0] == PutAll(patch, FRESH, RawCopy(m, inner)) && c.ptys[1] == FRESH
  {
    ReachableOk(patch, inner);
    var c := Run(Initial(patch), inner).core;
    assert c.ptys[0] == c.ptys[..2][0] && c.ptys[1] == c.ptys[..2][1];
  }

  /** Ids without a PTY have sent nothing. */
  lemma UnknownIdsSilent(t: Table, fs: seq<Frame>)
    requires Disciplined(fs) && IdsMatch(t, fs)
    ensures forall id: byte :: ValidId(id) && Find(t.tags, id) < 0 ==> Payloads(fs, id) == []
  {
    forall id: byte | ValidId(id) && Find(t.tags, id) < 0
      ensures Payloads(fs, id) == []
    {
      SilentUnlessAnnounced(fs, id);
    }
  }

  /** What the daemon has sent is disciplined, at every frame boundary, and consists of its sessions' bytes. */
  lemma SentInSessions(es: seq<Event>, n: nat)
    requires RunFrom(START, es).Some? && n <= |RunFrom(START, es).value.sent|
    ensures var d := RunFrom(START, es).value; Disciplined(d.sent[..n]) && BytesOk(d)
  {
    StartOk();
    EveryRunKeepsBytes(START, es);
    PrefixOfDisciplined(RunFrom(START, es).value.sent, n);
  }

  /** A disciplined frame list over any wire to a fresh host. */
  lemma FramesArrive(m: Mode, wire: seq<byte>, fs: seq<Frame>, patch: bool)
    requires Disciplined(fs) && Brings(m, NewLink(patch), wire, Wire(fs))
    ensures HostMatches(LinkRun(m, NewLink(patch), wire).host, fs)
    ensures LinkRun(m, NewLink(patch), wire).host == AddRaw(Run(Initial(patch), Wire(fs)), RawCopy(m, Wire(fs)))
  {
    HostFollows(patch, fs);
    ReachableOk(patch, []);
    LinkBrings(m, NewLink(patch), wire, Wire(fs));
    RawKeepsMatch(Run(Initial(patch), Wire(fs)), fs, RawCopy(m, Wire(fs)));
  }

  /** The sessions as the daemon has recorded them are those of the run. */
  lemma {:induction false} RecordedSessions(order: seq<(byte, nat)>, cs: seq<nat>, intake: map<nat, seq<byte>>,
                                            es: seq<Event>, ids: map<nat, byte>, id: byte)
    requires |order| == |cs| && IntakeTold(intake, es)
    requires forall k :: 0 <= k < |order| ==> order[k] == (IdAt(ids, cs[k]), cs[k])
    ensures SessionBytes(order, intake, id) == TypedOn(cs, es, ids, id)
  {
    if order != [] {
      var n := |order| - 1;
      assert order[n] == (IdAt(ids, cs[n]), cs[n]);
      RecordedSessions(order[..n], cs[..n], intake, es, ids, id);
    }
  }

  /** The data frames of every usable id carry exactly what its clients wrote, session after session. */
  lemma PayloadsTyped(es: seq<Event>)
    requires RunFrom(START, es).Some?
    ensures var d := RunFrom(START, es).value;
            forall id: byte :: ValidId(id) ==> Payloads(d.sent, id) == TypedOn(Opens(es), es, d.ids, id)
  {
    var d := RunFrom(START, es).value;
    StartOk();
    EveryRunKeepsBytes(START, es);
    StartTold(d.ids);
    TellsFrom(START, es, d.ids);
    forall id: byte | ValidId(id)
      ensures Payloads(d.sent, id) == TypedOn(Opens(es), es, d.ids, id)
    {
      RecordedSessions(d.order, Opens(es), d.intake, es, d.ids, id);
    }
  }

  /** The uplink theorem. Take any run of the daemon with any number of clients, stop its output at any frame
      boundary, and let any wire bring it to the host, in raw or nvidia-tcu mode. Then the host has not failed;
      it has a PTY for every id announced, under its first name; every PTY holds exactly the data frames of its
      id; ids without a PTY have sent nothing; the unframed log got payload of id 0 only (an exhausted pool);
      raw_ccplex got the copy of the frames as they are and autopilot_control nothing. The frames are those the
      events of the run name: over the whole run the data frames of an id are what its clients wrote, session
      after session, and the ids are those `IdsFit` describes. */
  lemma UplinkDemux(m: Mode, wire: seq<byte>, es: seq<Event>, n: nat, patch: bool)
    requires RunFrom(START, es).Some? && n <= |RunFrom(START, es).value.sent|
    requires Brings(m, NewLink(patch), wire, Wire(RunFrom(START, es).value.sent[..n]))
    ensures var d := RunFrom(START, es).value;
            var fs, h := d.sent[..n], LinkRun(m, NewLink(patch), wire).host;
            && HostMatches(h, fs) && NamesMatch(h.core.table, fs) && h.core.patch == patch
            && h.core.ptys[0] == PutAll(patch, FRESH, RawCopy(m, Wire(fs))) && h.core.ptys[1] == FRESH
            && (forall id: byte :: ValidId(id) && Find(h.core.table.tags, id) < 0 ==> Payloads(fs, id) == [])
    ensures var d := RunFrom(START, es).value;
            && d.sent == FramesOf(es, d.ids) && IdsFit(es, d.ids)
            && (forall id: byte :: ValidId(id) ==> Payloads(d.sent, id) == TypedOn(Opens(es), es, d.ids, id))
  {
    var fs := RunFrom(START, es).value.sent[..n];
    SentInSessions(es, n);
    FramesArrive(m, wire, fs, patch);
    NamesFollow(patch, fs);
    RawContent(m, Wire(fs), patch);
    UnknownIdsSilent(LinkRun(m, NewLink(patch), wire).host.core.table, fs);
    RunTold(es);
    PayloadsTyped(es);
  }

  /** The same with the line-ending patch off: each log is the bytes that the clients with its id wrote. */
  lemma UplinkLogs(m: Mode, wire: seq<byte>, es: seq<Event>, id: byte)
    requires RunFrom(START, es).Some? && ValidId(id)
    requires Brings(m, NewLink(false), wire, Wire(RunFrom(START, es).value.sent))
    ensures var d := RunFrom(START, es).value;
            var h := LinkRun(m, NewLink(false), wire).host;
            var k, typed := Find(h.core.table.tags, id), TypedOn(Opens(es), es, d.ids, id);
            && IdsFit(es, d.ids)
            && if k >= 0 then k < |h.core.ptys| && h.core.ptys[k].log == typed else typed == []
  {
    var d := RunFrom(START, es).value;
    assert d.sent[..|d.sent|] == d.sent;
    UplinkDemux(m, wire, es, |d.sent|, false);
    UnpatchedIsVerbatim(FRESH, Payloads(d.sent, id));
    assert [] + Payloads(d.sent, id) == Payloads(d.sent, id);
  }
}
