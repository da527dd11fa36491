/** The multiplexer daemon: any number of `handle_client` tasks sharing an id pool and one FIFO channel
    to the sink. A run is any sequence of enabled steps. */
module Muxd {
  import opened Bytes
  import opened IdPool
  import opened Proto

  datatype Frame =
    | Open(id: byte, name: seq<byte>)
    | Data(id: byte, payload: seq<byte>)
    | Close(id: byte, name: seq<byte>)

  function Encode(f: Frame): seq<byte> {
    match f
    case Open(id, name) => ControlFrame(CONNECTED, id, name)
    case Data(id, payload) => DataFrame(id, payload)
    case Close(id, name) => ControlFrame(DISCONNECTED, id, name)
  }

  /** Where a `handle_client` task stands, from the id allocation to its return. */
  datatype Client =
    | Replying(id: byte, name: seq<byte>)
    | Connecting(id: byte, name: seq<byte>)
    | Reading(id: byte, name: seq<byte>)
    | Closing(id: byte, name: seq<byte>)
    | Freeing(id: byte)
    | Done

  /** `sent` is everything ever put into the channel and `taken` how many frames the sink task has
      received; `up` is false once the sink task has stopped. `ids`, `order` and `intake` are history: the id
      each client was given, which client opened a session on which id, and what each client's intake put
      into the channel. */
  datatype Daemon = Daemon(clients: map<nat, Client>, pool: Pool, sent: seq<Frame>, taken: nat, up: bool,
                           ids: map<nat, byte>, order: seq<(byte, nat)>, intake: map<nat, seq<byte>>)

  const START := Daemon(map[], EMPTY, [], 0, true, map[], [], map[])
  const CHANNEL: nat := 256
  const MAX_READ: nat := 4096

  datatype Event =
    | Enroll(c: nat, name: seq<byte>)
    | Reply(c: nat, ok: bool)
    | SendOpen(c: nat)
    | SendData(c: nat, payload: seq<byte>)
    | HangUp(c: nat)
    | SendClose(c: nat)
    | Release(c: nat)
    | Take
    | Break

  /** A send waits for room in the channel, and fails at once when the receiver is gone. */
  predicate CanSend(d: Daemon) {
    !d.up || |d.sent| - d.taken < CHANNEL
  }

  predicate Enabled(d: Daemon, e: Event) {
    match e
    case Enroll(c, name) => c !in d.clients && 0 < |name|
    case Reply(c, _) => c in d.clients && d.clients[c].Replying?
    case SendOpen(c) => c in d.clients && d.clients[c].Connecting? && CanSend(d)
    case SendData(c, payload) => c in d.clients && d.clients[c].Reading? && CanSend(d) && 0 < |payload| <= MAX_READ
    case HangUp(c) => c in d.clients && d.clients[c].Reading?
    case SendClose(c) => c in d.clients && d.clients[c].Closing? && CanSend(d)
    case Release(c) => c in d.clients && d.clients[c].Freeing?
    case Take => d.up && d.taken < |d.sent|
    case Break => d.up
  }

  function Send(d: Daemon, f: Frame): Daemon {
    if d.up then d.(sent := d.sent + [f]) else d
  }

  function Become(d: Daemon, c: nat, s: Client): Daemon {
    d.(clients := d.clients[c := s])
  }

  function Apply(d: Daemon, e: Event): Daemon
    requires Enabled(d, e) && |d.pool.used| == 256 && 1 <= d.pool.next <= 255
  {
    match e
    case Enroll(c, name) =>
      var (p, id) := Alloc(d.pool);
      Become(d.(pool := p, ids := d.ids[c := id]), c, Replying(id, name))
    case Reply(c, ok) =>
      var s := d.clients[c];
      Become(d, c, if ok then Connecting(s.id, s.name) else Freeing(s.id))
    case SendOpen(c) =>
      var s := d.clients[c];
      var d1 := d.(order := d.order + [(s.id, c)], intake := d.intake[c := []]);
      Send(Become(d1, c, Reading(s.id, s.name)), Open(s.id, s.name))
    case SendData(c, payload) =>
      var s := d.clients[c];
      var intake := (if c in d.intake then d.intake[c] else []) + payload;
      if d.up then Send(d.(intake := d.intake[c := intake]), Data(s.id, payload))
      else Become(d, c, Closing(s.id, s.name))
    case HangUp(c) => Become(d, c, Closing(d.clients[c].id, d.clients[c].name))
    case SendClose(c) =>
      var s := d.clients[c];
      Send(Become(d, c, Freeing(s.id)), Close(s.id, s.name))
    case Release(c) => Become(d.(pool := Free(d.pool, d.clients[c].id)), c, Done)
    case Take => d.(taken := d.taken + 1)
    case Break => d.(up := false)
  }

  // ---------------------------------------------------------------- session discipline

  /** How far the frames of one id have got in (Open Data* Close)*. */
  datatype Track = Between | Inside | Broken

  function Advance(t: Track, f: Frame, id: byte): Track {
    if f.id != id then t else
    match (t, f)
    case (Between, Open(_, _)) => Inside
    case (Inside, Data(_, _)) => Inside
    case (Inside, Close(_, _)) => Between
    case _ => Broken
  }

  function TrackOf(fs: seq<Frame>, id: byte): Track {
    if fs == [] then Between else Advance(TrackOf(fs[..|fs| - 1], id), fs[|fs| - 1], id)
  }

  /** The frames of every usable id are a prefix of (Open Data* Close)*. */
  ghost predicate Disciplined(fs: seq<Frame>) {
    && (forall f :: f in fs ==> FrameId(f.id))
    && (forall id: byte :: ValidId(id) ==> TrackOf(fs, id) != Broken)
  }

  predicate Holds(d: Daemon, c: nat, id: byte) {
    c in d.clients && !d.clients[c].Done? && d.clients[c].id == id
  }

  predicate InSession(d: Daemon, c: nat, id: byte) {
    c in d.clients && (d.clients[c].Reading? || d.clients[c].Closing?) && d.clients[c].id == id
  }

  ghost predicate DaemonOk(d: Daemon) {
    && PoolOk(d.pool)
    && d.taken <= |d.sent| <= d.taken + CHANNEL
    && Disciplined(d.sent)
    && (forall c :: c in d.clients && !d.clients[c].Done? ==> FrameId(d.clients[c].id) && d.pool.used[d.clients[c].id])
    && (forall c, e, id: byte :: Holds(d, c, id) && Holds(d, e, id) && id != 0 ==> c == e)
    && (d.up ==> forall c, id: byte :: InSession(d, c, id) && ValidId(id) ==> TrackOf(d.sent, id) == Inside)
    && (d.up ==> forall id: byte :: ValidId(id) && TrackOf(d.sent, id) == Inside ==> exists c :: InSession(d, c, id))
  }

  lemma TrackSnoc(fs: seq<Frame>, f: Frame, id: byte)
    ensures TrackOf(fs + [f], id) == Advance(TrackOf(fs, id), f, id)
  {
    assert (fs + [f])[..|fs|] == fs;
  }

  lemma SnocDisciplined(fs: seq<Frame>, f: Frame)
    requires Disciplined(fs) && FrameId(f.id)
    requires ValidId(f.id) ==> Advance(TrackOf(fs, f.id), f, f.id) != Broken
    ensures Disciplined(fs + [f])
    ensures forall id: byte :: ValidId(id) && id != f.id ==> TrackOf(fs + [f], id) == TrackOf(fs, id)
  {
    forall id: byte | ValidId(id)
      ensures TrackOf(fs + [f], id) != Broken && (id != f.id ==> TrackOf(fs + [f], id) == TrackOf(fs, id))
    {
      TrackSnoc(fs, f, id);
    }
  }

  /** A new client takes an id nobody holds. */
  lemma StepEnroll(d: Daemon, c: nat, name: seq<byte>)
    requires DaemonOk(d) && Enabled(d, Enroll(c, name))
    ensures DaemonOk(Apply(d, Enroll(c, name)))
  {
    AllocExact(d.pool);
    var d' := Apply(d, Enroll(c, name));
    forall id: byte | d.up && ValidId(id) && TrackOf(d.sent, id) == Inside
      ensures exists e :: InSession(d', e, id)
    {
      var e :| InSession(d, e, id);
      assert InSession(d', e, id);
    }
    assert forall e, id: byte :: InSession(d', e, id) ==> InSession(d, e, id);
    EnrolledAlone(d, c, name);
  }

  lemma EnrolledAlone(d: Daemon, c: nat, name: seq<byte>)
    requires DaemonOk(d) && Enabled(d, Enroll(c, name))
    ensures var d' := Apply(d, Enroll(c, name));
            forall x, e, id: byte :: Holds(d', x, id) && Holds(d', e, id) && id != 0 ==> x == e
  {
    AllocExact(d.pool);
    var d' := Apply(d, Enroll(c, name));
    forall x, e, id: byte | Holds(d', x, id) && Holds(d', e, id) && id != 0
      ensures x == e
    {
      if x != c && e != c {
        assert Holds(d, x, id) && Holds(d, e, id);
      }
    }
  }

  /** A step that neither touches the pool nor sends: the client keeps its id. */
  lemma StepQuiet(d: Daemon, c: nat, s: Client)
    requires DaemonOk(d) && c in d.clients && !d.clients[c].Done? && !s.Done? && s.id == d.clients[c].id
    requires d.up ==> forall id: byte :: ValidId(id) ==> (InSession(d, c, id) <==> InSession(Become(d, c, s), c, id))
    ensures DaemonOk(Become(d, c, s))
  {
    var d' := Become(d, c, s);
    assert forall e, id: byte :: Holds(d', e, id) ==> Holds(d, e, id);
    forall id: byte | d.up && ValidId(id) && TrackOf(d.sent, id) == Inside
      ensures exists e :: InSession(d', e, id)
    {
      var e :| InSession(d, e, id);
      assert InSession(d', e, id);
    }
    forall e, id: byte | d.up && InSession(d', e, id) && ValidId(id)
      ensures TrackOf(d.sent, id) == Inside
    {
      assert InSession(d, e, id);
    }
  }

  /** The holder of an id is the only one that can be in session with it. */
  lemma BetweenUnlessInSession(d: Daemon, c: nat, id: byte)
    requires DaemonOk(d) && d.up && ValidId(id) && Holds(d, c, id)
    ensures TrackOf(d.sent, id) == if InSession(d, c, id) then Inside else Between
  {
    if TrackOf(d.sent, id) == Inside {
      var e :| InSession(d, e, id);
      assert Holds(d, e, id);
    }
  }

  lemma StepSend(d: Daemon, c: nat, s: Client, f: Frame)
    requires DaemonOk(d) && d.up && CanSend(d) && c in d.clients && !d.clients[c].Done? && !s.Done?
    requires s.id == d.clients[c].id == f.id
    requires (d.clients[c].Connecting? && f.Open? && s.Reading?) || (d.clients[c].Reading? && f.Data? && s.Reading?) ||
             (d.clients[c].Closing? && f.Close? && s.Freeing?)
    ensures DaemonOk(Send(Become(d, c, s), f))
  {
    var d' := Send(Become(d, c, s), f);
    assert Holds(d, c, f.id);
    if ValidId(f.id) {
      BetweenUnlessInSession(d, c, f.id);
    }
    SnocDisciplined(d.sent, f);
    TrackSnoc(d.sent, f, f.id);
    assert forall e, id: byte :: Holds(d', e, id) ==> Holds(d, e, id);
    forall id: byte | ValidId(id) && TrackOf(d'.sent, id) == Inside
      ensures exists e :: InSession(d', e, id)
    {
      if id == f.id {
        assert InSession(d', c, id);
      } else {
        var e :| InSession(d, e, id);
        assert InSession(d', e, id);
      }
    }
    forall e, id: byte | InSession(d', e, id) && ValidId(id)
      ensures TrackOf(d'.sent, id) == Inside
    {
      if e != c {
        assert InSession(d, e, id) && Holds(d, e, id);
      }
    }
  }

  lemma StepRelease(d: Daemon, c: nat)
    requires DaemonOk(d) && Enabled(d, Release(c))
    ensures DaemonOk(Apply(d, Release(c)))
  {
    var d' := Apply(d, Release(c));
    var id := d.clients[c].id;
    assert Holds(d, c, id);
    forall e | e in d'.clients && !d'.clients[e].Done?
      ensures FrameId(d'.clients[e].id) && d'.pool.used[d'.clients[e].id]
    {
      assert Holds(d, e, d.clients[e].id);
    }
    assert forall e, i: byte :: Holds(d', e, i) ==> Holds(d, e, i);
    forall i: byte | d.up && ValidId(i) && TrackOf(d.sent, i) == Inside
      ensures exists e :: InSession(d', e, i)
    {
      var e :| InSession(d, e, i);
      assert InSession(d', e, i);
    }
    assert forall e, i: byte :: InSession(d', e, i) ==> InSession(d, e, i);
  }

  /** Every step keeps the discipline, and no two live clients ever share a nonzero id. */
  lemma StepKeepsDiscipline(d: Daemon, e: Event)
    requires DaemonOk(d) && Enabled(d, e)
    ensures DaemonOk(Apply(d, e))
  {
    match e
    case Enroll(c, name) => StepEnroll(d, c, name);
    case Reply(c, ok) =>
      var s := d.clients[c];
      StepQuiet(d, c, if ok then Connecting(s.id, s.name) else Freeing(s.id));
    case SendOpen(c) =>
      var s := d.clients[c];
      var d1 := d.(order := d.order + [(s.id, c)], intake := d.intake[c := []]);
      HistoryIrrelevant(d, d1);
      if d.up {
        StepSend(d1, c, Reading(s.id, s.name), Open(s.id, s.name));
      } else {
        StepQuiet(d1, c, Reading(s.id, s.name));
      }
    case SendData(c, payload) =>
      var s := d.clients[c];
      if d.up {
        var d1 := d.(intake := d.intake[c := (if c in d.intake then d.intake[c] else []) + payload]);
        HistoryIrrelevant(d, d1);
        StepSend(d1, c, s, Data(s.id, payload));
        assert Become(d1, c, s) == d1;
      } else {
        StepQuiet(d, c, Closing(s.id, s.name));
      }
    case HangUp(c) => StepQuiet(d, c, Closing(d.clients[c].id, d.clients[c].name));
    case SendClose(c) =>
      var s := d.clients[c];
      if d.up {
        StepSend(d, c, Freeing(s.id), Close(s.id, s.name));
      } else {
        StepQuiet(d, c, Freeing(s.id));
      }
    case Release(c) => StepRelease(d, c);
    case Take => SameClients(d, Apply(d, e));
    case Break => SameClients(d, Apply(d, e));
  }

  lemma HistoryIrrelevant(d: Daemon, e: Daemon)
    requires DaemonOk(d) && e == d.(order := e.order, intake := e.intake)
    ensures DaemonOk(e)
  {
    assert forall c, id: byte :: Holds(e, c, id) == Holds(d, c, id) && InSession(e, c, id) == InSession(d, c, id);
  }

  lemma SameClients(d: Daemon, e: Daemon)
    requires DaemonOk(d) && e == d.(taken := e.taken, up := e.up) && d.taken <= e.taken <= |d.sent| && (e.up ==> d.up)
    ensures DaemonOk(e)
  {
    assert forall c, id: byte :: Holds(e, c, id) == Holds(d, c, id) && InSession(e, c, id) == InSession(d, c, id);
  }

  /** The daemon after a run, if every step of it is enabled. */
  ghost function RunFrom(d: Daemon, es: seq<Event>): Option<Daemon>
    requires |d.pool.used| == 256 && 1 <= d.pool.next <= 255
    decreases es
  {
    if es == [] then Some(d)
    else if !Enabled(d, es[0]) then None
    else
      var d' := Apply(d, es[0]);
      if |d'.pool.used| == 256 && 1 <= d'.pool.next <= 255 then RunFrom(d', es[1..]) else None
  }

  lemma StartOk()
    ensures DaemonOk(START)
  {
    assert forall id: byte :: TrackOf([], id) == Between;
  }

  /** Over every run of any number of clients: the frames of each id form a prefix of
      (Open Data* Close)*, and two clients never hold the same nonzero id. */
  lemma {:induction false} EveryRunDisciplined(d: Daemon, es: seq<Event>)
    requires DaemonOk(d) && RunFrom(d, es).Some?
    ensures DaemonOk(RunFrom(d, es).value)
    decreases es
  {
    if es != [] {
      StepKeepsDiscipline(d, es[0]);
      EveryRunDisciplined(Apply(d, es[0]), es[1..]);
    }
  }
}
