/** From the generator to the PTYs: the generated registry, sent by the mux in front of the first batch,
    opens one PTY per stream at a fresh host, and every guest's bytes arrive in its own PTY. */
module EndToEnd {
  import opened Bytes
  import opened LineEnding
  import opened Json
  import opened TagTable
  import opened Generator
  import opened Registry
  import opened Demux
  import opened Tokens
  import opened Proto
  import opened Outer
  import opened ConsoleMux
  import opened GuestSink
  import D = Downlink
  import T = Target

  predicate Printable(t: string) {
    forall i :: 0 <= i < |t| ==> ' ' <= t[i] <= '~'
  }

  lemma {:induction false} BodyPrintable(e: string)
    requires Body(e)
    ensures Printable(e)
    decreases |e|
  {
    if e != [] && Ordinary(e[0]) {
      BodyPrintable(e[1..]);
      assert e == [e[0]] + e[1..];
    } else if e != [] {
      BodyPrintable(e[2..]);
      assert e == [e[0], e[1]] + e[2..];
    }
  }

  lemma {:induction false} JsonPrintable(j: Json)
    requires CleanJson(j)
    ensures Printable(Dumps(j))
    decreases j, 0
  {
    match j
    case Str(e) => BodyPrintable(e);
    case Num(n) => SignedPlain(n);
    case Arr(items) => ItemsPrintable(items);
    case Obj(fields) => FieldsPrintable(fields);
  }

  lemma {:induction false} ItemsPrintable(items: Items)
    requires CleanItems(items)
    ensures Printable(DumpItems(items))
    decreases items, 1
  {
    if items.Cons? {
      JsonPrintable(items.head);
      ItemsPrintable(items.tail);
    }
  }

  lemma {:induction false} FieldsPrintable(fields: Fields)
    requires CleanFields(fields)
    ensures Printable(DumpFields(fields))
    decreases fields, 1
  {
    if fields.Field? {
      JsonPrintable(fields.value);
      FieldsPrintable(fields.rest);
    }
  }

  /** Printable text crosses the wire unchanged: it is Latin and the host's C string is all of it. */
  lemma CrossesWire(t: string)
    requires Printable(t)
    ensures Latin(t) && CStr(Text(Codes(t))) == t
  {
    assert forall i :: 0 <= i < |t| ==> t[i] != '\0';
  }

  /** A generated system: the header of its registry and its components. */
  datatype System = System(name: string, source: string, sinks: Json, sources: Json, components: seq<Component>)

  ghost predicate WellFormed(y: System) {
    && HeaderClean(y.sinks, y.sources) && DistinctNames(y.components)
    && forall c :: c in y.components ==> ComponentClean(c)
  }

  /** The condition of `GeneratedAccepted`. */
  ghost predicate Accepted(y: System) {
    Fits(y.components) && Count(y.components) >= 1 && !HidesStreams(y.name, y.source, y.sinks, y.sources)
  }

  function RegistryText(y: System): string {
    Dumps(RegistryJson(y.name, y.source, y.sinks, y.sources, Streams(y.components)))
  }

  lemma RegistryCrosses(y: System)
    requires WellFormed(y)
    ensures Latin(RegistryText(y)) && CStr(Text(Codes(RegistryText(y)))) == RegistryText(y) && RegistryText(y) != ""
  {
    StreamsPrintClean(y.components);
    RegistryFinds(y.name, y.source, y.sinks, y.sources, Streams(y.components));
    PrintedCrosses(RegistryFields(y.name, y.source, y.sinks, y.sources, Streams(y.components)));
  }

  lemma PrintedCrosses(f: Fields)
    requires CleanFields(f)
    ensures var t := Dumps(Obj(f)); Latin(t) && CStr(Text(Codes(t))) == t && t != ""
  {
    FieldsPrintable(f);
    CrossesWire(Dumps(Obj(f)));
  }

  /** The ids of the guests: one per eligible component, in order. */
  function Guests(y: System): (ids: seq<byte>)
    requires Count(y.components) <= 253
    ensures |ids| == Count(y.components) && IdsOk(ids)
  {
    seq(Count(y.components), k requires 0 <= k < Count(y.components) => IdOf(k + 1))
  }

  /** A fresh host that has taken in the table `t`: one fresh PTY per entry. */
  ghost predicate HostWith(h: Host, t: Table, patch: bool) {
    && AtBoundary(h) && h.live && h.core.patch == patch && h.core.table == t
    && h.core.ptys == Blank(|t.tags|)
  }

  lemma FreshPtys(c: Core, t: Table)
    requires c.ptys == Blank(3) && |t.tags| >= 3
    ensures WithTable(c, t) == c.(table := t, ptys := Blank(|t.tags|))
  {
    assert c.ptys + Blank(|t.tags| - 3) == Blank(|t.tags|);
  }

  /** The first registry record at a fresh host. */
  lemma FirstRegistry(json: seq<byte>, text: string, patch: bool, r: Option<Table>)
    requires json != [] && |json| <= 0xffff && CStr(Text(json)) == text && ApplyRegistry(BUILTINS, text) == r
    requires r.Some? ==> |r.value.tags| >= 3
    ensures var h := Run(Initial(patch), Print(Reg(json)));
            if r.Some? then HostWith(h, r.value, patch) else !h.live
  {
    var h := Initial(patch);
    TokenRefined(h, Reg(json));
    RegisterFirst(h.core, json, text, r);
    if r.Some? {
      assert h.core.ptys == Blank(3);
      FreshPtys(h.core.(registry := Some(text)), r.value);
    }
  }

  /** The registry record takes a fresh host to a table with one entry and one fresh PTY per stream if the
      registry is accepted, and stops it if not. */
  lemma RegistryEffect(y: System, json: seq<byte>, patch: bool)
    requires WellFormed(y) && Latin(RegistryText(y)) && json == Codes(RegistryText(y)) && |json| <= 0xffff
    ensures var h := Run(Initial(patch), Print(Reg(json)));
            if Accepted(y) then HostWith(h, TableOf(y.components), patch) else !h.live
  {
    RegistryCrosses(y);
    GeneratedAccepted(y.name, y.source, y.sinks, y.sources, y.components);
    var r := if Accepted(y) then Some(TableOf(y.components)) else None;
    FirstRegistry(json, RegistryText(y), patch, r);
  }

  lemma TableSize(cs: seq<Component>)
    requires Count(cs) <= 253
    ensures |TableOf(cs).tags| == 3 + Count(cs)
  {
    TagsFrom(cs);
  }

  /** The ids of the guests are found at the entries behind the built-in ones. */
  lemma GuestsKnown(y: System, h: Host, patch: bool)
    requires Count(y.components) <= 253 && HostWith(h, TableOf(y.components), patch) && HostOk(h)
    ensures Knows(h, Guests(y)) && |h.core.ptys| == 3 + Count(y.components)
    ensures forall k :: 0 <= k < Count(y.components) ==> Find(h.core.table.tags, Guests(y)[k]) == 3 + k
  {
    TableSize(y.components);
    var tags := h.core.table.tags;
    forall k | 0 <= k < Count(y.components)
      ensures Find(tags, Guests(y)[k]) == 3 + k
    {
      FoundAt(y.components, k + 1);
    }
  }

  /** The k-th PTY behind the built-in ones holds the k-th guest's bytes, raw_ccplex holds the copy of the
      traffic, the two other built-in ones are untouched, and `n` acknowledgements are counted. */
  ghost predicate Delivered(c: Core, t: Table, patch: bool, raw: seq<byte>, n: nat, flushed: seq<seq<byte>>) {
    && c.table == t && |c.ptys| == 3 + |flushed| && c.acks == n
    && c.ptys[0] == PutAll(patch, FRESH, raw) && c.ptys[1] == FRESH && c.ptys[2] == FRESH
    && forall k :: 0 <= k < |flushed| ==> c.ptys[3 + k] == PutAll(patch, FRESH, flushed[k])
  }

  lemma HostHasDelivered(h: Host, h0: Host, raw: seq<byte>, n: nat, t: Table, ids: seq<byte>, patch: bool,
                         flushed: seq<seq<byte>>)
    requires |flushed| == |ids| && HostHas(h, h0, raw, n, ids, flushed)
    requires HostWith(h0, t, patch) && |h0.core.ptys| == 3 + |ids| && h0.core.acks == 0
    requires forall k :: 0 <= k < |ids| ==> Find(h0.core.table.tags, ids[k]) == 3 + k
    ensures Delivered(h.core, t, patch, raw, n, flushed)
  {
    forall k | 0 <= k < |ids|
      ensures h.core.ptys[3 + k] == PutAll(patch, FRESH, flushed[k])
    {
      assert Find(h0.core.table.tags, ids[k]) == 3 + k && h0.core.ptys[3 + k] == FRESH;
    }
  }

  lemma RegisteredIs(h: Host, json: seq<byte>)
    requires |json| + 5 <= FRAME_SIZE
    ensures Registered(h, json) == Run(h, Print(Reg(json)))
  {
    FlattenSnoc([], Print(Reg(json)));
    assert [] + [Print(Reg(json))] == RegistryCalls(json) && Flatten<byte>([]) + Print(Reg(json)) == Print(Reg(json));
  }

  /** The target of a generated system, with any table of downlink sinks. */
  function TargetOf(y: System, json: seq<byte>, sinks: seq<D.Sink>): T.Config
    requires Count(y.components) <= 253
  {
    T.Config(Guests(y), json, sinks)
  }

  /** From the generator to the PTYs. Take any accepted registry that fits the mux's frame, any interleaving of
      the guests' bytes, the mux's calls, downlink bytes and their consumers, and any wire that brings the UART
      to a fresh host. When all calls are made and something was sent, the host holds exactly one PTY per
      stream behind the built-in ones, the k-th holds what the k-th guest flushed, raw_ccplex holds the copy
      of the traffic, nothing reached the two other built-in PTYs, one acknowledgement is counted per downlink
      frame closed for a valid stream, and what was flushed followed by what is pending is everything the
      guest put. */
  lemma GuestsReachTheirPtys(y: System, json: seq<byte>, sinks: seq<D.Sink>, d: D.Down, es: seq<T.Event>, m: Mode,
                             wire: seq<byte>, patch: bool)
    requires WellFormed(y) && Accepted(y) && Latin(RegistryText(y)) && json == Codes(RegistryText(y))
    requires |json| + 5 <= FRAME_SIZE && T.EventsOk(TargetOf(y, json, sinks), es)
    requires T.RunTarget(TargetOf(y, json, sinks), d, es).queue == []
    requires Brings(m, NewLink(patch), wire, Flatten(T.RunTarget(TargetOf(y, json, sinks), d, es).uart))
    ensures var c := TargetOf(y, json, sinks);
            var t := T.RunTarget(c, d, es);
            var g, n, raw := t.guests, T.Owed(c, d, es), RawCopy(m, Flatten(t.uart));
            var h := LinkRun(m, NewLink(patch), wire).host;
            && (if g.emitted then Delivered(h.core, TableOf(y.components), patch, raw, n, g.flushed)
                else h == AddRaw(AddAcks(Initial(patch), n), raw))
            && forall k :: 0 <= k < Count(y.components) ==>
                 g.flushed[k] + g.pending[k] == PutBy(T.Puts(es), k) && PendingOk(g.pending[k])
  {
    var h0 := Registered(Initial(patch), json);
    RegisteredIs(Initial(patch), json);
    RegistryEffect(y, json, patch);
    ReachableOk(patch, Print(Reg(json)));
    ReachableOk(patch, []);
    GuestsKnown(y, h0, patch);
    FromRegistered(TargetOf(y, json, sinks), d, es, m, NewLink(patch), wire, h0, TableOf(y.components), patch);
  }

  lemma FromRegistered(c: T.Config, d: D.Down, es: seq<T.Event>, m: Mode, l: Link, wire: seq<byte>, h0: Host, t: Table,
                       patch: bool)
    requires T.EventsOk(c, es) && AtBoundary(l.host) && HostOk(l.host) && h0 == Registered(l.host, c.json)
    requires Knows(h0, c.ids) && HostWith(h0, t, patch) && |h0.core.ptys| == 3 + |c.ids| && l.host.core.acks == 0
    requires forall k :: 0 <= k < |c.ids| ==> Find(h0.core.table.tags, c.ids[k]) == 3 + k
    requires T.RunTarget(c, d, es).queue == [] && Brings(m, l, wire, Flatten(T.RunTarget(c, d, es).uart))
    ensures var u := T.RunTarget(c, d, es);
            var g, n, raw := u.guests, T.Owed(c, d, es), RawCopy(m, Flatten(u.uart));
            var h := LinkRun(m, l, wire).host;
            && (if g.emitted then Delivered(h.core, t, patch, raw, n, g.flushed)
                else h == AddRaw(AddAcks(l.host, n), raw))
            && forall k :: 0 <= k < |c.ids| ==>
                 g.flushed[k] + g.pending[k] == PutBy(T.Puts(es), k) && PendingOk(g.pending[k])
  {
    T.TargetUplink(m, l, wire, c, d, es);
    RegisteredAcks(l.host, c.json);
    var u := T.RunTarget(c, d, es);
    if u.guests.emitted {
      HostHasDelivered(LinkRun(m, l, wire).host, h0, RawCopy(m, Flatten(u.uart)), T.Owed(c, d, es), t, c.ids, patch,
                       u.guests.flushed);
    }
  }

  // ---------------------------------------------------------------- a registry that does not fit

  /** Everything the sinks have flushed, in the order it was sent. */
  ghost function FlushedInOrder(ids: seq<byte>, json: seq<byte>, es: seq<Putchar>): seq<byte>
    requires IdsOk(ids) && EventsOk(ids, es)
  {
    if es == [] then [] else
    var prior, e := es[..|es| - 1], es[|es| - 1];
    FlushedInOrder(ids, json, prior) + Batched(RunGuests(ids, json, prior).pending[e.sink], e.b).1
  }

  /** A fresh host that only got payload of streams it does not know. */
  ghost function Unknowing(patch: bool, payload: seq<byte>): Host {
    Initial(patch).(core := WriteAll(Initial(patch).core, UNFRAMED, Without(payload, ESC)))
  }

  lemma MoreUnknown(patch: bool, sofar: seq<byte>, id: byte, payload: seq<byte>)
    requires ValidId(id)
    ensures Run(Unknowing(patch, sofar), Flatten(PayloadCalls(id, payload))) == Unknowing(patch, sofar + payload)
  {
    var h := Unknowing(patch, sofar);
    StreamedAsOneFrame(h, id, payload);
    DataFrameEffect(h, id, payload);
    assert Find(BUILTINS.tags, id) == -1;
    WithoutConcat(sofar, payload, ESC);
    PutAllConcat(patch, FRESH, Without(sofar, ESC), Without(payload, ESC));
  }

  lemma {:induction false} StaysUnknowing(ids: seq<byte>, json: seq<byte>, es: seq<Putchar>, patch: bool)
    requires IdsOk(ids) && EventsOk(ids, es) && |json| + 5 > FRAME_SIZE
    ensures Run(Initial(patch), Flatten(RunGuests(ids, json, es).calls)) ==
              Unknowing(patch, FlushedInOrder(ids, json, es))
  {
    if es == [] {
      assert WriteAll(Initial(patch).core, UNFRAMED, []) == Initial(patch).core;
    } else {
      var prior, e := es[..|es| - 1], es[|es| - 1];
      StaysUnknowing(ids, json, prior, patch);
      var g := RunGuests(ids, json, prior);
      var out := Batched(g.pending[e.sink], e.b).1;
      var sofar := FlushedInOrder(ids, json, prior);
      if out == [] {
        assert sofar + [] == sofar;
      } else {
        var calls := PayloadCalls(ids[e.sink], out);
        FlattenConcat(g.calls, calls);
        RunConcat(Initial(patch), Flatten(g.calls), Flatten(calls));
        MoreUnknown(patch, sofar, ids[e.sink], out);
        assert EmitCalls(json, g.emitted, ids[e.sink], out) == calls;
      }
    }
  }

  /** A registry too long for the mux's frame is never sent: in no run does the host learn a stream, and
      everything flushed ends up in the unframed log, in the order sent and without its 0xfe bytes. The
      acknowledgements are counted all the same. */
  lemma LongRegistryNeverArrives(c: T.Config, d: D.Down, es: seq<T.Event>, m: Mode, wire: seq<byte>, patch: bool)
    requires T.EventsOk(c, es) && |c.json| + 5 > FRAME_SIZE
    requires T.RunTarget(c, d, es).queue == []
    requires Brings(m, NewLink(patch), wire, Flatten(T.RunTarget(c, d, es).uart))
    ensures GuestSink.EventsOk(c.ids, T.Puts(es))
    ensures var h := LinkRun(m, NewLink(patch), wire).host;
            && AtBoundary(h) && h.live && h.core.table == BUILTINS && |h.core.ptys| == 3
            && h.core.ptys[UNFRAMED] == PutAll(patch, FRESH, Without(FlushedInOrder(c.ids, c.json, T.Puts(es)), ESC))
            && h.core.ptys[0] == PutAll(patch, FRESH, RawCopy(m, Flatten(T.RunTarget(c, d, es).uart)))
            && h.core.ptys[1] == FRESH && h.core.acks == T.Owed(c, d, es)
  {
    var t := T.RunTarget(c, d, es);
    T.EveryRunSplits(c, d, es);
    T.AcksOwed(c, d, es);
    assert OtherCalls(t.uart) + [] == OtherCalls(t.uart);
    StaysUnknowing(c.ids, c.json, T.Puts(es), patch);
    GuestCallsWhole(c.ids, c.json, T.Puts(es));
    ReachableOk(patch, []);
    CallsArrive(m, NewLink(patch), wire, t.uart);
  }
}
