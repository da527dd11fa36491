/** The whole target: the guests' bytes and the downlink bytes in any interleaving, both writing to the one
    UART, and what reaches the host. */
module Target {
  import opened Bytes
  import opened Demux
  import opened Tokens
  import opened Outer
  import opened ConsoleMux
  import D = Downlink
  import G = GuestSink

  /** `queue` holds the uplink calls of the guests that have not been made yet, `uart` all calls made,
      acknowledgements included. */
  datatype State = State(guests: G.Guests, down: D.Down, queue: seq<seq<byte>>, uart: seq<seq<byte>>)

  /** A guest puts a byte, the next uplink call is made, or something happens on the downlink. */
  datatype Event = Put(p: G.Putchar) | Call | Down(e: D.Event)

  /** The generated tables of a target: the sinks' stream ids, the registry text, and the downlink sinks. */
  datatype Config = Config(ids: seq<byte>, json: seq<byte>, sinks: seq<D.Sink>)

  predicate EventsOk(c: Config, es: seq<Event>) {
    G.IdsOk(c.ids) && forall e :: e in es && e.Put? ==> e.p.sink < |c.ids|
  }

  /** Putting a byte may hand a batch to the mux; its calls are made one by one, and downlink bytes may come
      between any two of them. */
  ghost function Next(c: Config, t: State, e: Event): State
    requires G.IdsOk(c.ids) && |t.guests.pending| == |t.guests.flushed| == |c.ids| && (e.Put? ==> e.p.sink < |c.ids|)
  {
    match e
    case Put(p) =>
      var g := G.Step(c.ids, c.json, t.guests, p);
      t.(guests := g, queue := t.queue + NewCalls(t.guests.calls, g.calls))
    case Call =>
      if t.queue == [] then t else t.(queue := t.queue[1..], uart := t.uart + [t.queue[0]])
    case Down(e) =>
      var d := D.Happen(c.sinks, t.down, e);
      t.(down := d, uart := t.uart + if d.acks > t.down.acks then [ACK_CALL] else [])
  }

  function NewCalls(was: seq<seq<byte>>, now: seq<seq<byte>>): seq<seq<byte>> {
    if |was| <= |now| then now[|was|..] else []
  }

  ghost function RunTarget(c: Config, d: D.Down, es: seq<Event>): (t: State)
    requires EventsOk(c, es)
    ensures |t.guests.pending| == |t.guests.flushed| == |c.ids|
  {
    if es == [] then State(G.Quiet(|c.ids|), d, [], []) else Next(c, RunTarget(c, d, es[..|es| - 1]), es[|es| - 1])
  }

  /** The guests' part of a run. */
  function Puts(es: seq<Event>): seq<G.Putchar> {
    if es == [] then [] else
    Puts(es[..|es| - 1]) + if es[|es| - 1].Put? then [es[|es| - 1].p] else []
  }

  /** The downlink part of a run. */
  function Downs(es: seq<Event>): seq<D.Event> {
    if es == [] then [] else
    Downs(es[..|es| - 1]) + if es[|es| - 1].Down? then [es[|es| - 1].e] else []
  }

  lemma {:induction false} PutsOk(c: Config, es: seq<Event>)
    requires EventsOk(c, es)
    ensures G.EventsOk(c.ids, Puts(es))
  {
    if es != [] {
      PutsOk(c, es[..|es| - 1]);
    }
  }

  // ---------------------------------------------------------------- the invariant of every run

  /** Both halves run as if alone; the calls made are the guests' calls made so far with one acknowledgement
      call per acknowledgement among them. */
  ghost predicate Split(c: Config, d: D.Down, es: seq<Event>, t: State)
    requires EventsOk(c, es) && G.EventsOk(c.ids, Puts(es))
  {
    && t.guests == G.RunGuests(c.ids, c.json, Puts(es))
    && t.down == D.HappenAll(c.sinks, d, Downs(es))
    && OtherCalls(t.uart) + t.queue == t.guests.calls
    && t.down.acks == d.acks + AckCalls(t.uart)
  }

  lemma {:induction false} HappenSnoc(sinks: seq<D.Sink>, d: D.Down, es: seq<D.Event>, e: D.Event)
    ensures D.HappenAll(sinks, d, es + [e]) == D.Happen(sinks, D.HappenAll(sinks, d, es), e)
    decreases es
  {
    if es == [] {
      assert [e][1..] == [];
    } else {
      assert (es + [e])[1..] == es[1..] + [e];
      HappenSnoc(sinks, D.Happen(sinks, d, es[0]), es[1..], e);
    }
  }

  /** An event acknowledges at most once. */
  lemma OneAckAtMost(sinks: seq<D.Sink>, d: D.Down, e: D.Event)
    ensures d.acks <= D.Happen(sinks, d, e).acks <= d.acks + 1
  {
  }

  lemma CallsSnoc(calls: seq<seq<byte>>, c: seq<byte>)
    ensures OtherCalls(calls + [c]) == OtherCalls(calls) + (if c == ACK_CALL then [] else [c])
    ensures AckCalls(calls + [c]) == AckCalls(calls) + if c == ACK_CALL then 1 else 0
  {
    assert (calls + [c])[..|calls|] == calls;
  }

  lemma PutSplits(c: Config, d: D.Down, es: seq<Event>, p: G.Putchar, t: State)
    requires EventsOk(c, es + [Put(p)]) && EventsOk(c, es) && |t.guests.pending| == |t.guests.flushed| == |c.ids|
    requires G.EventsOk(c.ids, Puts(es)) && p.sink < |c.ids| && Split(c, d, es, t)
    ensures G.EventsOk(c.ids, Puts(es + [Put(p)])) && Split(c, d, es + [Put(p)], Next(c, t, Put(p)))
  {
    PartsSnoc(es, Put(p));
    GuestsSnoc(c, Puts(es), p);
    Continued(OtherCalls(t.uart), t.queue, t.guests.calls, G.Step(c.ids, c.json, t.guests, p).calls);
  }

  lemma CallSplits(c: Config, d: D.Down, es: seq<Event>, t: State)
    requires EventsOk(c, es + [Call]) && EventsOk(c, es) && |t.guests.pending| == |t.guests.flushed| == |c.ids|
    requires G.EventsOk(c.ids, Puts(es)) && Split(c, d, es, t) && ACK_CALL !in t.guests.calls
    ensures G.EventsOk(c.ids, Puts(es + [Call])) && Split(c, d, es + [Call], Next(c, t, Call))
  {
    PartsSnoc(es, Call);
    if t.queue != [] {
      CallMade(t.uart, t.queue, t.guests.calls);
    }
  }

  lemma CallMade(uart: seq<seq<byte>>, queue: seq<seq<byte>>, calls: seq<seq<byte>>)
    requires queue != [] && OtherCalls(uart) + queue == calls && ACK_CALL !in calls
    ensures OtherCalls(uart + [queue[0]]) + queue[1..] == calls && AckCalls(uart + [queue[0]]) == AckCalls(uart)
  {
    CallsSnoc(uart, queue[0]);
    FirstMoved(OtherCalls(uart), queue, calls);
  }

  lemma FirstMoved<T>(a: seq<T>, q: seq<T>, all: seq<T>)
    requires q != [] && a + q == all
    ensures q[0] in all && a + [q[0]] + q[1..] == all
  {
    assert all[|a|] == q[0];
  }

  lemma Continued<T>(a: seq<T>, q: seq<T>, was: seq<T>, now: seq<T>)
    requires a + q == was && was <= now
    ensures a + (q + now[|was|..]) == now
  {
    assert was + now[|was|..] == now;
  }

  lemma PartsSnoc(es: seq<Event>, e: Event)
    ensures Puts(es + [e]) == if e.Put? then Puts(es) + [e.p] else Puts(es)
    ensures Downs(es + [e]) == if e.Down? then Downs(es) + [e.e] else Downs(es)
  {
    assert (es + [e])[..|es|] == es;
    assert Puts(es) + [] == Puts(es) && Downs(es) + [] == Downs(es);
  }

  lemma GuestsSnoc(c: Config, ps: seq<G.Putchar>, p: G.Putchar)
    requires G.IdsOk(c.ids) && G.EventsOk(c.ids, ps) && p.sink < |c.ids|
    ensures G.EventsOk(c.ids, ps + [p])
    ensures var g := G.RunGuests(c.ids, c.json, ps);
            var g' := G.Step(c.ids, c.json, g, p);
            G.RunGuests(c.ids, c.json, ps + [p]) == g' && g.calls <= g'.calls
  {
    assert (ps + [p])[..|ps|] == ps;
  }

  lemma DownSplits(c: Config, d: D.Down, es: seq<Event>, e: D.Event, t: State)
    requires EventsOk(c, es + [Down(e)]) && EventsOk(c, es) && |t.guests.pending| == |t.guests.flushed| == |c.ids|
    requires G.EventsOk(c.ids, Puts(es)) && Split(c, d, es, t)
    ensures G.EventsOk(c.ids, Puts(es + [Down(e)])) && Split(c, d, es + [Down(e)], Next(c, t, Down(e)))
  {
    PartsSnoc(es, Down(e));
    HappenSnoc(c.sinks, d, Downs(es), e);
    OneAckAtMost(c.sinks, t.down, e);
    AckAdded(t.uart, D.Happen(c.sinks, t.down, e).acks > t.down.acks);
  }

  lemma AckAdded(uart: seq<seq<byte>>, acked: bool)
    ensures var more := uart + if acked then [ACK_CALL] else [];
            OtherCalls(more) == OtherCalls(uart) && AckCalls(more) == AckCalls(uart) + if acked then 1 else 0
  {
    CallsSnoc(uart, ACK_CALL);
    assert OtherCalls(uart) + [] == OtherCalls(uart);
    assert uart + [] == uart;
  }

  /** In every run the two halves do not disturb each other. */
  lemma {:induction false} EveryRunSplits(c: Config, d: D.Down, es: seq<Event>)
    requires EventsOk(c, es)
    ensures G.EventsOk(c.ids, Puts(es)) && Split(c, d, es, RunTarget(c, d, es))
  {
    PutsOk(c, es);
    if es == [] {
      assert G.Quiet(|c.ids|) == G.RunGuests(c.ids, c.json, []);
      assert OtherCalls([]) + [] == [];
    } else {
      var prior, e := es[..|es| - 1], es[|es| - 1];
      assert es == prior + [e];
      assert EventsOk(c, prior);
      EveryRunSplits(c, d, prior);
      var t := RunTarget(c, d, prior);
      match e {
        case Put(p) => PutSplits(c, d, prior, p, t);
        case Call =>
          G.GuestCallsWhole(c.ids, c.json, Puts(prior));
          CallSplits(c, d, prior, t);
        case Down(x) => DownSplits(c, d, prior, x, t);
      }
    }
  }

  /** In every run, among the calls that are no acknowledgements, the registry is the first, once, if it fits, and
      never sent if not. */
  lemma RegistryOnce(c: Config, d: D.Down, es: seq<Event>)
    requires EventsOk(c, es)
    ensures RegistryFirst(c.json, OtherCalls(RunTarget(c, d, es).uart))
  {
    var t := RunTarget(c, d, es);
    EveryRunSplits(c, d, es);
    G.RegistryOnce(c.ids, c.json, Puts(es));
    FirstOfPrefix(c.json, OtherCalls(t.uart), t.queue);
  }

  lemma FirstOfPrefix(json: seq<byte>, calls: seq<seq<byte>>, more: seq<seq<byte>>)
    requires RegistryFirst(json, calls + more)
    ensures RegistryFirst(json, calls)
  {
    assert forall x :: x in calls ==> x in calls + more;
    if calls != [] {
      assert (calls + more)[1..] == calls[1..] + more;
      assert forall x :: x in calls[1..] ==> x in calls[1..] + more;
    }
  }

  /** The acknowledgements a run owes: one per frame of a valid stream that the arriving bytes close. */
  function Owed(c: Config, d: D.Down, es: seq<Event>): nat {
    D.Closed(c.sinks, d.stream, D.Units(d.esc, D.Arrived(Downs(es))))
  }

  lemma AcksOwed(c: Config, d: D.Down, es: seq<Event>)
    requires EventsOk(c, es)
    ensures AckCalls(RunTarget(c, d, es).uart) == Owed(c, d, es)
  {
    EveryRunSplits(c, d, es);
    D.ConsumersInvisible(c.sinks, d, d, Downs(es));
    D.EveryDownlinkByte(c.sinks, d, D.Arrived(Downs(es)));
  }

  /** The calls of the guests that have been made. */
  function Made(t: State): seq<seq<byte>> {
    if |t.queue| <= |t.guests.calls| then t.guests.calls[..|t.guests.calls| - |t.queue|] else []
  }

  lemma PrefixLive(h: Host, made: seq<seq<byte>>, rest: seq<seq<byte>>)
    requires Run(h, Flatten(made + rest)).live
    ensures Run(h, Flatten(made)).live
  {
    FlattenConcat(made, rest);
    RunConcat(h, Flatten(made), Flatten(rest));
    if !Run(h, Flatten(made)).live {
      RunStopped(Run(h, Flatten(made)), Flatten(rest));
    }
  }

  lemma GuestsKeepLive(h: Host, ids: seq<byte>, json: seq<byte>, ps: seq<G.Putchar>)
    requires G.IdsOk(ids) && G.EventsOk(ids, ps) && G.Knows(G.Registered(h, json), ids) && AtBoundary(h)
    ensures h.live && Run(h, Flatten(G.RunGuests(ids, json, ps).calls)).live
  {
    G.InnerUplink(h, ids, json, ps);
    if !h.live {
      RunStopped(h, Flatten(RegistryCalls(json)));
    }
  }

  /** At every moment of a run the host is where the guests' calls made so far take it, but for the
      acknowledgements it has counted and the copy in raw_ccplex. */
  lemma HostSoFar(m: Mode, l: Link, wire: seq<byte>, c: Config, d: D.Down, es: seq<Event>)
    requires EventsOk(c, es) && G.Knows(G.Registered(l.host, c.json), c.ids) && AtBoundary(l.host) && HostOk(l.host)
    requires Brings(m, l, wire, Flatten(RunTarget(c, d, es).uart))
    ensures var t := RunTarget(c, d, es);
            LinkRun(m, l, wire).host ==
            AddRaw(AddAcks(Run(l.host, Flatten(Made(t))), Owed(c, d, es)), RawCopy(m, Flatten(t.uart)))
  {
    var t := RunTarget(c, d, es);
    EveryRunSplits(c, d, es);
    AcksOwed(c, d, es);
    var made := OtherCalls(t.uart);
    assert made == (made + t.queue)[..|made|] == Made(t);
    G.GuestCallsWhole(c.ids, c.json, Puts(es));
    GuestsKeepLive(l.host, c.ids, c.json, Puts(es));
    PrefixLive(l.host, made, t.queue);
    assert forall x :: x in made ==> x in made + t.queue;
    G.CallsArrive(m, l, wire, t.uart);
  }

  /** The whole target at the host. For every interleaving of guests' bytes, uplink calls, downlink bytes and
      downlink consumers, and any wire that brings the UART to the host in raw or nvidia-tcu mode: once all
      calls are made, each guest's PTY holds what its sink has flushed, raw_ccplex holds the copy of
      everything sent, no other PTY changes, and flushed plus pending is everything the guest put, all as if
      there were no downlink; and the host has counted one acknowledgement per frame that the downlink
      bytes close for a valid stream. */
  lemma TargetUplink(m: Mode, l: Link, wire: seq<byte>, c: Config, d: D.Down, es: seq<Event>)
    requires EventsOk(c, es) && G.Knows(G.Registered(l.host, c.json), c.ids) && AtBoundary(l.host) && HostOk(l.host)
    requires RunTarget(c, d, es).queue == [] && Brings(m, l, wire, Flatten(RunTarget(c, d, es).uart))
    ensures var t := RunTarget(c, d, es);
            var g, n, raw := t.guests, Owed(c, d, es), RawCopy(m, Flatten(t.uart));
            var h := LinkRun(m, l, wire).host;
            && G.EventsOk(c.ids, Puts(es)) && g == G.RunGuests(c.ids, c.json, Puts(es))
            && (if g.emitted then G.HostHas(h, G.Registered(l.host, c.json), raw, n, c.ids, g.flushed)
                else h == AddRaw(AddAcks(l.host, n), raw))
            && (forall i :: 0 <= i < |c.ids| ==>
                  g.flushed[i] + g.pending[i] == G.PutBy(Puts(es), i) && G.PendingOk(g.pending[i]))
  {
    var t := RunTarget(c, d, es);
    EveryRunSplits(c, d, es);
    AcksOwed(c, d, es);
    assert OtherCalls(t.uart) + [] == OtherCalls(t.uart);
    G.GuestUplink(m, l, wire, c.ids, c.json, Puts(es), t.uart);
  }
}
