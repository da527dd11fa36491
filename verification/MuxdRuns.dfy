/** What a run of the daemon means, told from its events alone: which event may follow, the id every client is
    given, and every frame that is sent. */
module MuxdRuns {
  import opened Bytes
  import opened IdPool
  import opened Muxd

  // ---------------------------------------------------------------- the events of one client

  predicate OfClient(e: Event, c: nat) {
    match e
    case Take => false
    case Break => false
    case _ => e.c == c
  }

  /** The sink task has stopped. */
  predicate Stopped(es: seq<Event>) {
    Break in es
  }

  /** An event, and whether the sink task had stopped before it. */
  datatype Mark = Mark(e: Event, stopped: bool)

  /** The last event of a client. */
  function LastOf(es: seq<Event>, c: nat): (m: Option<Mark>)
    ensures m.Some? ==> OfClient(m.value.e, c)
  {
    if es == [] then None
    else if OfClient(es[|es| - 1], c) then Some(Mark(es[|es| - 1], Stopped(es[..|es| - 1])))
    else LastOf(es[..|es| - 1], c)
  }

  /** The name a client enrolled with. */
  function EnrolledName(es: seq<Event>, c: nat): seq<byte> {
    if es == [] then [] else
    var e := es[|es| - 1];
    if e.Enroll? && e.c == c then e.name else EnrolledName(es[..|es| - 1], c)
  }

  /** What a client wrote: the payloads it sent before the sink task stopped. */
  function Typed(es: seq<Event>, c: nat): seq<byte> {
    if es == [] then [] else
    var init, e := es[..|es| - 1], es[|es| - 1];
    Typed(init, c) + if e.SendData? && e.c == c && !Stopped(init) then e.payload else []
  }

  /** Enrolled, and its id not freed yet. */
  predicate IsLive(es: seq<Event>, c: nat) {
    LastOf(es, c).Some? && !LastOf(es, c).value.e.Release?
  }

  /** The order of `handle_client`: after `m`, may the client do `e`? A send that fails ends the reading. */
  predicate Follows(m: Option<Mark>, e: Event) {
    match e
    case Enroll(_, name) => m.None? && name != []
    case Reply(_, _) => m.Some? && m.value.e.Enroll?
    case SendOpen(_) => m.Some? && m.value.e.Reply? && m.value.e.ok
    case SendData(_, payload) => Reads(m) && 0 < |payload| <= MAX_READ
    case HangUp(_) => Reads(m)
    case SendClose(_) => m.Some? && (m.value.e.HangUp? || (m.value.e.SendData? && m.value.stopped))
    case Release(_) => m.Some? && (m.value.e.SendClose? || (m.value.e.Reply? && !m.value.e.ok))
    case _ => true
  }

  predicate Reads(m: Option<Mark>) {
    m.Some? && (m.value.e.SendOpen? || (m.value.e.SendData? && !m.value.stopped))
  }

  // ---------------------------------------------------------------- ids

  function IdAt(ids: map<nat, byte>, c: nat): byte {
    if c in ids then ids[c] else 0
  }

  /** Some client enrolled and not released has this id. */
  ghost predicate Held(es: seq<Event>, ids: map<nat, byte>, id: byte) {
    exists c: nat :: IsLive(es, c) && IdAt(ids, c) == id
  }

  /** Where the next search starts: behind the last id that was given out. */
  function Turn(es: seq<Event>, ids: map<nat, byte>): (next: nat)
    ensures 1 <= next <= 255
  {
    if es == [] then 1 else
    var e := es[|es| - 1];
    if e.Enroll? && IdAt(ids, e.c) != 0 then Successor(IdAt(ids, e.c)) else Turn(es[..|es| - 1], ids)
  }

  /** The id given to a client that enrolls after `es`: 0 exactly while clients hold all 253 usable ids, otherwise
      a usable id that no client holds, the nearest one behind the last id given out. */
  ghost predicate GoodId(es: seq<Event>, ids: map<nat, byte>, id: byte) {
    && (id == 0 <==> forall v: byte :: ValidId(v) ==> Held(es, ids, v))
    && (id != 0 ==> ValidId(id) && !Held(es, ids, id))
    && (id != 0 ==> forall v: byte :: ValidId(v) && !Held(es, ids, v) ==>
          Dist(Turn(es, ids), id) <= Dist(Turn(es, ids), v))
  }

  /** `ids` gives every client of the run the right id. */
  ghost predicate IdsFit(es: seq<Event>, ids: map<nat, byte>) {
    es == [] ||
    (IdsFit(es[..|es| - 1], ids) && (es[|es| - 1].Enroll? ==> GoodId(es[..|es| - 1], ids, IdAt(ids, es[|es| - 1].c))))
  }

  // ---------------------------------------------------------------- frames

  /** The frame an event puts into the channel. */
  function FrameOf(es: seq<Event>, ids: map<nat, byte>, e: Event): seq<Frame> {
    match e
    case SendOpen(c) => [Open(IdAt(ids, c), EnrolledName(es, c))]
    case SendData(c, payload) => [Data(IdAt(ids, c), payload)]
    case SendClose(c) => [Close(IdAt(ids, c), EnrolledName(es, c))]
    case _ => []
  }

  /** Every frame of a run: one per send, until the sink task stops. */
  function FramesOf(es: seq<Event>, ids: map<nat, byte>): seq<Frame> {
    if es == [] then [] else
    var init := es[..|es| - 1];
    FramesOf(init, ids) + if Stopped(init) then [] else FrameOf(init, ids, es[|es| - 1])
  }

  function Takes(es: seq<Event>): nat {
    if es == [] then 0 else Takes(es[..|es| - 1]) + if es[|es| - 1].Take? then 1 else 0
  }

  /** A send waits for room in the channel, and fails at once when the sink task has stopped. */
  predicate Room(es: seq<Event>) {
    Stopped(es) || |FramesOf(es, map[])| - Takes(es) < CHANNEL
  }

  /** What may happen after `es`. */
  predicate Allowed(es: seq<Event>, e: Event) {
    match e
    case Take => !Stopped(es) && Takes(es) < |FramesOf(es, map[])|
    case Break => !Stopped(es)
    case _ => Follows(LastOf(es, e.c), e) && (e.SendOpen? || e.SendData? || e.SendClose? ==> Room(es))
  }

  predicate Legal(es: seq<Event>) {
    es == [] || (Legal(es[..|es| - 1]) && Allowed(es[..|es| - 1], es[|es| - 1]))
  }

  // ---------------------------------------------------------------- sessions

  /** The clients in the order in which they opened their sessions. */
  function Opens(es: seq<Event>): seq<nat> {
    if es == [] then [] else
    Opens(es[..|es| - 1]) + if es[|es| - 1].SendOpen? then [es[|es| - 1].c] else []
  }

  /** What the clients with one id wrote, session after session. */
  function TypedOn(cs: seq<nat>, es: seq<Event>, ids: map<nat, byte>, id: byte): seq<byte> {
    if cs == [] then [] else
    var c := cs[|cs| - 1];
    TypedOn(cs[..|cs| - 1], es, ids, id) + if IdAt(ids, c) == id then Typed(es, c) else []
  }

  // ---------------------------------------------------------------- the daemon does exactly this

  /** Where `handle_client` stands behind an event. */
  function StageOf(m: Mark, id: byte, name: seq<byte>): Client {
    match m.e
    case Enroll(_, _) => Replying(id, name)
    case Reply(_, ok) => if ok then Connecting(id, name) else Freeing(id)
    case SendOpen(_) => Reading(id, name)
    case SendData(_, _) => if m.stopped then Closing(id, name) else Reading(id, name)
    case HangUp(_) => Closing(id, name)
    case SendClose(_) => Freeing(id)
    case _ => Done
  }

  ghost predicate ClientsTold(d: Daemon, es: seq<Event>, ids: map<nat, byte>) {
    && (forall c: nat :: c in d.clients <==> LastOf(es, c).Some?)
    && (forall c: nat :: c in d.clients ==>
          d.clients[c] == StageOf(LastOf(es, c).value, IdAt(ids, c), EnrolledName(es, c)))
  }

  ghost predicate SentTold(d: Daemon, es: seq<Event>, ids: map<nat, byte>) {
    d.sent == FramesOf(es, ids) && d.taken == Takes(es) && (d.up <==> !Stopped(es))
  }

  ghost predicate PoolTold(d: Daemon, es: seq<Event>, ids: map<nat, byte>) {
    && |d.pool.used| == 256 && d.pool.next == Turn(es, ids) && IdsFit(es, ids)
    && forall v: byte :: ValidId(v) ==> (d.pool.used[v] <==> Held(es, ids, v))
  }

  ghost predicate OrderTold(d: Daemon, es: seq<Event>, ids: map<nat, byte>) {
    && |d.order| == |Opens(es)|
    && forall k :: 0 <= k < |d.order| ==> d.order[k] == (IdAt(ids, Opens(es)[k]), Opens(es)[k])
  }

  ghost predicate IntakeTold(intake: map<nat, seq<byte>>, es: seq<Event>) {
    forall c: nat :: Typed(es, c) == if c in intake then intake[c] else []
  }

  /** The clients that have opened a session. */
  ghost predicate IntakeStages(d: Daemon) {
    && (forall c: nat :: c in d.intake ==> c in d.clients && !d.clients[c].Replying? && !d.clients[c].Connecting?)
    && (forall c: nat :: c in d.clients && d.clients[c].Reading? ==> c in d.intake)
  }

  ghost predicate Told(d: Daemon, es: seq<Event>, ids: map<nat, byte>) {
    && ClientsTold(d, es, ids) && SentTold(d, es, ids) && PoolTold(d, es, ids)
    && OrderTold(d, es, ids) && IntakeTold(d.intake, es) && IntakeStages(d)
  }

  lemma LastSnoc(es: seq<Event>, e: Event)
    ensures forall c: nat :: LastOf(es + [e], c) == if OfClient(e, c) then Some(Mark(e, Stopped(es))) else LastOf(es, c)
    ensures forall c: nat :: EnrolledName(es + [e], c) == if e.Enroll? && e.c == c then e.name else EnrolledName(es, c)
    ensures Stopped(es + [e]) <==> Stopped(es) || e == Break
  {
    assert (es + [e])[..|es|] == es;
  }

  lemma FramesSnoc(es: seq<Event>, e: Event, ids: map<nat, byte>)
    ensures FramesOf(es + [e], ids) == FramesOf(es, ids) + if Stopped(es) then [] else FrameOf(es, ids, e)
    ensures Takes(es + [e]) == Takes(es) + if e.Take? then 1 else 0
  {
    assert (es + [e])[..|es|] == es;
  }

  lemma IdsSnoc(es: seq<Event>, e: Event, ids: map<nat, byte>)
    ensures Turn(es + [e], ids) == if e.Enroll? && IdAt(ids, e.c) != 0 then Successor(IdAt(ids, e.c)) else Turn(es, ids)
    ensures IdsFit(es + [e], ids) <==> IdsFit(es, ids) && (e.Enroll? ==> GoodId(es, ids, IdAt(ids, e.c)))
  {
    assert (es + [e])[..|es|] == es;
  }

  lemma TypedSnoc(es: seq<Event>, e: Event)
    ensures Opens(es + [e]) == Opens(es) + (if e.SendOpen? then [e.c] else [])
    ensures forall c: nat :: Typed(es + [e], c) ==
              Typed(es, c) + if e.SendData? && e.c == c && !Stopped(es) then e.payload else []
  {
    assert (es + [e])[..|es|] == es;
  }

  /** The number of frames does not depend on the ids. */
  lemma {:induction false} FrameCount(es: seq<Event>, ids: map<nat, byte>)
    ensures |FramesOf(es, ids)| == |FramesOf(es, map[])|
  {
    if es != [] {
      FrameCount(es[..|es| - 1], ids);
    }
  }

  /** An event is enabled exactly if it is allowed. */
  lemma EnabledIffAllowed(d: Daemon, es: seq<Event>, ids: map<nat, byte>, e: Event)
    requires ClientsTold(d, es, ids) && SentTold(d, es, ids)
    ensures Enabled(d, e) <==> Allowed(es, e)
  {
    FrameCount(es, ids);
  }

  /** A client's event moves that client alone, to the stage the event leads to. */
  lemma ClientMoves(d: Daemon, es: seq<Event>, ids: map<nat, byte>, e: Event)
    requires Enabled(d, e) && ClientsTold(d, es, ids) && (d.up <==> !Stopped(es)) && !e.Take? && !e.Break?
    requires |d.pool.used| == 256 && 1 <= d.pool.next <= 255
    requires e.Enroll? ==> IdAt(ids, e.c) == Alloc(d.pool).1
    ensures var name := if e.Enroll? then e.name else EnrolledName(es, e.c);
            Apply(d, e).clients == d.clients[e.c := StageOf(Mark(e, Stopped(es)), IdAt(ids, e.c), name)]
  {
    if e.SendData? && d.up {
      assert d.clients == d.clients[e.c := d.clients[e.c]];
    }
  }

  lemma ClientsStep(d: Daemon, es: seq<Event>, ids: map<nat, byte>, e: Event)
    requires Enabled(d, e) && ClientsTold(d, es, ids) && (d.up <==> !Stopped(es))
    requires |d.pool.used| == 256 && 1 <= d.pool.next <= 255
    requires e.Enroll? ==> IdAt(ids, e.c) == Alloc(d.pool).1
    ensures ClientsTold(Apply(d, e), es + [e], ids)
  {
    LastSnoc(es, e);
    if e.Take? || e.Break? {
      assert Apply(d, e).clients == d.clients;
    } else {
      ClientMoves(d, es, ids, e);
      OneMoved(d, es, ids, e, Apply(d, e));
    }
  }

  lemma OneMoved(d: Daemon, es: seq<Event>, ids: map<nat, byte>, e: Event, d': Daemon)
    requires ClientsTold(d, es, ids) && !e.Take? && !e.Break?
    requires var name := if e.Enroll? then e.name else EnrolledName(es, e.c);
             d'.clients == d.clients[e.c := StageOf(Mark(e, Stopped(es)), IdAt(ids, e.c), name)]
    ensures ClientsTold(d', es + [e], ids)
  {
    LastSnoc(es, e);
  }

  /** What an event does to the channel. */
  lemma SendsFrame(d: Daemon, es: seq<Event>, ids: map<nat, byte>, e: Event)
    requires Enabled(d, e) && ClientsTold(d, es, ids) && (d.up <==> !Stopped(es))
    requires |d.pool.used| == 256 && 1 <= d.pool.next <= 255
    ensures var d' := Apply(d, e);
            && d'.sent == d.sent + (if d.up then FrameOf(es, ids, e) else [])
            && d'.taken == d.taken + (if e.Take? then 1 else 0)
            && d'.up == (d.up && e != Break)
  {
    assert d.sent + [] == d.sent;
  }

  lemma SentStep(d: Daemon, es: seq<Event>, ids: map<nat, byte>, e: Event)
    requires Enabled(d, e) && ClientsTold(d, es, ids) && SentTold(d, es, ids)
    requires |d.pool.used| == 256 && 1 <= d.pool.next <= 255
    ensures SentTold(Apply(d, e), es + [e], ids)
  {
    SendsFrame(d, es, ids, e);
    LastSnoc(es, e);
    FramesSnoc(es, e, ids);
  }

  /** What an event does to the history of sessions. */
  lemma History(d: Daemon, es: seq<Event>, ids: map<nat, byte>, e: Event)
    requires Enabled(d, e) && ClientsTold(d, es, ids)
    requires |d.pool.used| == 256 && 1 <= d.pool.next <= 255
    requires e.SendData? ==> e.c in d.intake
    ensures var d' := Apply(d, e);
            && d'.order == d.order + (if e.SendOpen? then [(IdAt(ids, e.c), e.c)] else [])
            && d'.intake == if e.SendOpen? then d.intake[e.c := []]
                            else if e.SendData? && d.up then d.intake[e.c := d.intake[e.c] + e.payload]
                            else d.intake
  {
    assert d.order + [] == d.order;
  }

  lemma OrderStep(d: Daemon, es: seq<Event>, ids: map<nat, byte>, e: Event)
    requires Enabled(d, e) && ClientsTold(d, es, ids) && OrderTold(d, es, ids)
    requires |d.pool.used| == 256 && 1 <= d.pool.next <= 255 && (e.SendData? ==> e.c in d.intake)
    ensures OrderTold(Apply(d, e), es + [e], ids)
  {
    History(d, es, ids, e);
    TypedSnoc(es, e);
  }

  lemma IntakeStep(d: Daemon, es: seq<Event>, ids: map<nat, byte>, e: Event)
    requires Enabled(d, e) && ClientsTold(d, es, ids) && (d.up <==> !Stopped(es))
    requires IntakeTold(d.intake, es) && IntakeStages(d) && |d.pool.used| == 256 && 1 <= d.pool.next <= 255
    ensures IntakeTold(Apply(d, e).intake, es + [e])
  {
    History(d, es, ids, e);
    IntakeGrows(d, es, e, Apply(d, e).intake);
  }

  lemma IntakeGrows(d: Daemon, es: seq<Event>, e: Event, after: map<nat, seq<byte>>)
    requires IntakeTold(d.intake, es) && (d.up <==> !Stopped(es))
    requires (e.SendData? ==> e.c in d.intake) && (e.SendOpen? ==> e.c !in d.intake)
    requires after == if e.SendOpen? then d.intake[e.c := []]
                      else if e.SendData? && d.up then d.intake[e.c := d.intake[e.c] + e.payload]
                      else d.intake
    ensures IntakeTold(after, es + [e])
  {
    TypedSnoc(es, e);
    forall c: nat
      ensures Typed(es + [e], c) == if c in after then after[c] else []
    {
      assert Typed(es, c) + [] == Typed(es, c);
    }
  }

  lemma StagesStep(d: Daemon, es: seq<Event>, ids: map<nat, byte>, e: Event)
    requires Enabled(d, e) && ClientsTold(d, es, ids) && (d.up <==> !Stopped(es))
    requires IntakeStages(d) && |d.pool.used| == 256 && 1 <= d.pool.next <= 255
    requires e.Enroll? ==> IdAt(ids, e.c) == Alloc(d.pool).1
    ensures IntakeStages(Apply(d, e))
  {
    History(d, es, ids, e);
    if e.Take? || e.Break? {
      assert Apply(d, e).clients == d.clients;
    } else {
      ClientMoves(d, es, ids, e);
    }
  }

  // ---------------------------------------------------------------- the pool

  lemma HeldSnoc(es: seq<Event>, e: Event, ids: map<nat, byte>, v: byte)
    requires !e.Enroll? && !e.Release?
    requires !e.Take? && !e.Break? ==> IsLive(es, e.c)
    ensures Held(es + [e], ids, v) <==> Held(es, ids, v)
  {
    LastSnoc(es, e);
    forall c: nat
      ensures IsLive(es + [e], c) <==> IsLive(es, c)
    {
    }
    if Held(es + [e], ids, v) {
      var c: nat :| IsLive(es + [e], c) && IdAt(ids, c) == v;
      assert IsLive(es, c);
    }
    if Held(es, ids, v) {
      var c: nat :| IsLive(es, c) && IdAt(ids, c) == v;
      assert IsLive(es + [e], c);
    }
  }

  lemma HeldEnroll(es: seq<Event>, e: Event, ids: map<nat, byte>, v: byte)
    requires e.Enroll? && !IsLive(es, e.c)
    ensures Held(es + [e], ids, v) <==> Held(es, ids, v) || IdAt(ids, e.c) == v
  {
    LastSnoc(es, e);
    if Held(es + [e], ids, v) && IdAt(ids, e.c) != v {
      var c: nat :| IsLive(es + [e], c) && IdAt(ids, c) == v;
      assert IsLive(es, c);
    }
    if Held(es, ids, v) {
      var c: nat :| IsLive(es, c) && IdAt(ids, c) == v;
      assert IsLive(es + [e], c);
    }
    assert IsLive(es + [e], e.c);
  }

  /** The released client was the only one with its id. */
  lemma HeldRelease(es: seq<Event>, e: Event, ids: map<nat, byte>, v: byte)
    requires e.Release? && IsLive(es, e.c)
    requires forall c: nat :: IsLive(es, c) && IdAt(ids, c) == IdAt(ids, e.c) && IdAt(ids, c) != 0 ==> c == e.c
    requires v != 0
    ensures Held(es + [e], ids, v) <==> Held(es, ids, v) && IdAt(ids, e.c) != v
  {
    LastSnoc(es, e);
    if Held(es + [e], ids, v) {
      var c: nat :| IsLive(es + [e], c) && IdAt(ids, c) == v;
      assert IsLive(es, c);
    }
    if Held(es, ids, v) && IdAt(ids, e.c) != v {
      var c: nat :| IsLive(es, c) && IdAt(ids, c) == v;
      assert IsLive(es + [e], c);
    }
  }

  /** Live clients are those that are not done; no two of them share a nonzero id. */
  lemma LiveHolds(d: Daemon, es: seq<Event>, ids: map<nat, byte>, c: nat)
    requires DaemonOk(d) && ClientsTold(d, es, ids)
    ensures IsLive(es, c) <==> c in d.clients && !d.clients[c].Done?
    ensures IsLive(es, c) ==> Holds(d, c, IdAt(ids, c))
  {
  }

  lemma EnrollPool(d: Daemon, es: seq<Event>, ids: map<nat, byte>, e: Event)
    requires DaemonOk(d) && Enabled(d, e) && ClientsTold(d, es, ids) && PoolTold(d, es, ids)
    requires e.Enroll? && IdAt(ids, e.c) == Alloc(d.pool).1
    ensures PoolTold(Apply(d, e), es + [e], ids)
  {
    AllocatedGood(d.pool, es, ids);
    AllocExact(d.pool);
    IdsSnoc(es, e, ids);
    EnrollUsed(d, es, ids, e);
  }

  lemma AllocatedGood(p: Pool, es: seq<Event>, ids: map<nat, byte>)
    requires PoolOk(p) && p.next == Turn(es, ids) && forall v: byte :: ValidId(v) ==> (p.used[v] <==> Held(es, ids, v))
    ensures GoodId(es, ids, Alloc(p).1)
  {
    AllocExact(p);
  }

  lemma EnrollUsed(d: Daemon, es: seq<Event>, ids: map<nat, byte>, e: Event)
    requires DaemonOk(d) && Enabled(d, e) && ClientsTold(d, es, ids) && e.Enroll? && IdAt(ids, e.c) == Alloc(d.pool).1
    requires forall v: byte :: ValidId(v) ==> (d.pool.used[v] <==> Held(es, ids, v))
    ensures |Apply(d, e).pool.used| == 256
    ensures forall v: byte :: ValidId(v) ==> (Apply(d, e).pool.used[v] <==> Held(es + [e], ids, v))
  {
    AllocExact(d.pool);
    forall v: byte | ValidId(v)
      ensures Apply(d, e).pool.used[v] <==> Held(es + [e], ids, v)
    {
      HeldEnroll(es, e, ids, v);
    }
  }

  lemma ReleasePool(d: Daemon, es: seq<Event>, ids: map<nat, byte>, e: Event)
    requires DaemonOk(d) && Enabled(d, e) && ClientsTold(d, es, ids) && PoolTold(d, es, ids) && e.Release?
    ensures PoolTold(Apply(d, e), es + [e], ids)
  {
    FreeExact(d.pool, d.clients[e.c].id);
    IdsSnoc(es, e, ids);
    LiveHolds(d, es, ids, e.c);
    forall c: nat | IsLive(es, c) && IdAt(ids, c) == IdAt(ids, e.c) && IdAt(ids, c) != 0
      ensures c == e.c
    {
      LiveHolds(d, es, ids, c);
    }
    forall v: byte | ValidId(v)
      ensures Apply(d, e).pool.used[v] <==> Held(es + [e], ids, v)
    {
      HeldRelease(es, e, ids, v);
    }
  }

  lemma PoolStep(d: Daemon, es: seq<Event>, ids: map<nat, byte>, e: Event)
    requires DaemonOk(d) && Enabled(d, e) && ClientsTold(d, es, ids) && PoolTold(d, es, ids)
    requires e.Enroll? ==> IdAt(ids, e.c) == Alloc(d.pool).1
    ensures PoolTold(Apply(d, e), es + [e], ids)
  {
    if e.Enroll? {
      EnrollPool(d, es, ids, e);
    } else if e.Release? {
      ReleasePool(d, es, ids, e);
    } else {
      IdsSnoc(es, e, ids);
      assert Apply(d, e).pool == d.pool;
      forall v: byte | ValidId(v)
        ensures d.pool.used[v] <==> Held(es + [e], ids, v)
      {
        HeldSnoc(es, e, ids, v);
      }
    }
  }

  // ---------------------------------------------------------------- every run

  lemma StepTold(d: Daemon, es: seq<Event>, ids: map<nat, byte>, e: Event)
    requires DaemonOk(d) && Enabled(d, e) && Told(d, es, ids)
    requires e.Enroll? ==> IdAt(ids, e.c) == Alloc(d.pool).1
    ensures Told(Apply(d, e), es + [e], ids)
  {
    ClientsStep(d, es, ids, e);
    SentStep(d, es, ids, e);
    PoolStep(d, es, ids, e);
    OrderStep(d, es, ids, e);
    IntakeStep(d, es, ids, e);
    StagesStep(d, es, ids, e);
  }

  /** Only an enrolment gives out an id. */
  lemma IdsStep(d: Daemon, e: Event)
    requires DaemonOk(d) && Enabled(d, e) && d.ids.Keys == d.clients.Keys
    ensures Apply(d, e).ids.Keys == Apply(d, e).clients.Keys
    ensures Apply(d, e).ids == if e.Enroll? then d.ids[e.c := Alloc(d.pool).1] else d.ids
  {
  }

  lemma {:induction false} RunSnoc(d: Daemon, es: seq<Event>, e: Event)
    requires DaemonOk(d)
    ensures RunFrom(d, es + [e]).Some? <==> RunFrom(d, es).Some? && Enabled(RunFrom(d, es).value, e)
    ensures RunFrom(d, es).Some? ==> DaemonOk(RunFrom(d, es).value)
    ensures RunFrom(d, es + [e]).Some? ==> RunFrom(d, es + [e]).value == Apply(RunFrom(d, es).value, e)
    decreases es
  {
    if es == [] {
      assert [e][1..] == [];
      if Enabled(d, e) {
        StepKeepsDiscipline(d, e);
      }
    } else {
      assert (es + [e])[1..] == es[1..] + [e];
      if Enabled(d, es[0]) {
        StepKeepsDiscipline(d, es[0]);
        RunSnoc(Apply(d, es[0]), es[1..], e);
      }
    }
  }

  /** Everything the events tell holds of the daemon behind them, for the ids it has given out. */
  lemma {:induction false} TellsFrom(start: Daemon, es: seq<Event>, ids: map<nat, byte>)
    requires DaemonOk(start) && start.ids.Keys == start.clients.Keys && Told(start, [], ids)
    requires RunFrom(start, es).Some? && Gives(RunFrom(start, es).value, ids)
    ensures DaemonOk(RunFrom(start, es).value) && Told(RunFrom(start, es).value, es, ids)
    decreases |es|
  {
    if es != [] {
      var init, e := es[..|es| - 1], es[|es| - 1];
      FrontAndLast(es);
      RunSnoc(start, init, e);
      KeysFrom(start, init);
      var d := RunFrom(start, init).value;
      GaveBefore(d, e, ids);
      TellsFrom(start, init, ids);
      StepTold(d, init, ids, e);
      StepKeepsDiscipline(d, e);
    }
  }

  /** `ids` holds what the daemon has given out. */
  ghost predicate Gives(d: Daemon, ids: map<nat, byte>) {
    forall c :: c in d.ids ==> c in ids && ids[c] == d.ids[c]
  }

  lemma GaveBefore(d: Daemon, e: Event, ids: map<nat, byte>)
    requires DaemonOk(d) && Enabled(d, e) && d.ids.Keys == d.clients.Keys && Gives(Apply(d, e), ids)
    ensures Gives(d, ids) && (e.Enroll? ==> IdAt(ids, e.c) == Alloc(d.pool).1)
  {
    IdsStep(d, e);
    forall c | c in d.ids
      ensures c in ids && ids[c] == d.ids[c]
    {
      assert c in Apply(d, e).ids;
    }
    if e.Enroll? {
      assert e.c in Apply(d, e).ids;
    }
  }

  /** Every client has been given an id. */
  lemma {:induction false} KeysFrom(start: Daemon, es: seq<Event>)
    requires DaemonOk(start) && start.ids.Keys == start.clients.Keys && RunFrom(start, es).Some?
    ensures RunFrom(start, es).value.ids.Keys == RunFrom(start, es).value.clients.Keys
    decreases |es|
  {
    if es != [] {
      var init, e := es[..|es| - 1], es[|es| - 1];
      FrontAndLast(es);
      RunSnoc(start, init, e);
      KeysFrom(start, init);
      IdsStep(RunFrom(start, init).value, e);
    }
  }

  lemma StartTold(ids: map<nat, byte>)
    ensures Told(START, [], ids)
  {
    forall v: byte | ValidId(v)
      ensures !EMPTY.used[v] && !Held([], ids, v)
    {
    }
  }

  /** Every run of the daemon, told from its events: the ids it gives out fit, a usable id is marked used exactly
      while a client holds it, and it has put exactly the frames into the channel that the events name, with
      those ids and the enrolled names. */
  lemma RunTold(es: seq<Event>)
    requires RunFrom(START, es).Some?
    ensures var d := RunFrom(START, es).value;
            && IdsFit(es, d.ids) && d.sent == FramesOf(es, d.ids) && |d.pool.used| == 256
            && (forall v: byte :: ValidId(v) ==> (d.pool.used[v] <==> Held(es, d.ids, v)))
  {
    StartOk();
    StartTold(RunFrom(START, es).value.ids);
    TellsFrom(START, es, RunFrom(START, es).value.ids);
  }

  /** Exactly which event sequences are runs: those in which every client goes through `handle_client` in order,
      sends wait for room in the channel, and the sink task takes what is there until it stops. */
  lemma {:induction false} RunIffLegal(es: seq<Event>)
    ensures RunFrom(START, es).Some? <==> Legal(es)
    decreases |es|
  {
    if es != [] {
      var init, e := es[..|es| - 1], es[|es| - 1];
      FrontAndLast(es);
      StartOk();
      RunSnoc(START, init, e);
      RunIffLegal(init);
      if Legal(init) {
        var d := RunFrom(START, init).value;
        StartTold(d.ids);
        TellsFrom(START, init, d.ids);
        EnabledIffAllowed(d, init, d.ids, e);
      }
    }
  }
}
