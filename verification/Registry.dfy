/** The registry the generator prints and what the host reads from the printed text. */
module Registry {
  import opened Bytes
  import opened JsonScan
  import opened Json
  import opened JsonEscape
  import opened KeySearch
  import opened TagTable
  import opened Generator

  // ---------------------------------------------------------------- the registry value

  function InterfaceJson(x: Interface): Json {
    Obj(Field("kind", Str(x.kind), Field("name", Str(x.name), End)))
  }

  function InterfaceItems(xs: seq<Interface>): Items {
    if xs == [] then Nil else Cons(InterfaceJson(xs[0]), InterfaceItems(xs[1..]))
  }

  function FromId(s: Stream): Fields {
    Field("stream_id", Num(s.id), Field("stream_id_source", Str(s.source), Field("type", Str(s.ctype), End)))
  }

  function FromInterfaces(s: Stream): Fields {
    Field("interfaces", Arr(InterfaceItems(s.interfaces)), FromId(s))
  }

  function FromDirection(s: Stream): Fields {
    Field("direction", Str(s.direction), FromInterfaces(s))
  }

  function FromComponent(s: Stream): Fields {
    Field("component", Str(s.component), FromDirection(s))
  }

  function StreamFields(s: Stream): Fields {
    Field("aliases", Arr(Nil), FromComponent(s))
  }

  /** One entry of the streams array, keys sorted. */
  function StreamJson(s: Stream): Json {
    Obj(StreamFields(s))
  }

  function StreamItems(ss: seq<Stream>): Items {
    if ss == [] then Nil else Cons(StreamJson(ss[0]), StreamItems(ss[1..]))
  }

  function FromStreams(ss: seq<Stream>): Fields {
    Field("streams", Arr(StreamItems(ss)), End)
  }

  function FromSchema(source: string, ss: seq<Stream>): Fields {
    Field("schema", Str("virtioso.camkes_component_identity.v1"), Field("source", Str(Escape(source)), FromStreams(ss)))
  }

  function RegistryFields(name: string, source: string, sinks: Json, sources: Json, ss: seq<Stream>): Fields {
    Field("demux_sinks", sinks, Field("mux_sources", sources, Field("name", Str(Escape(name)), FromSchema(source, ss))))
  }

  /** The registry, keys sorted. `sinks` and `sources` are the two connection tables. */
  function RegistryJson(name: string, source: string, sinks: Json, sources: Json, ss: seq<Stream>): Json {
    Obj(RegistryFields(name, source, sinks, sources, ss))
  }

  predicate InterfacesClean(xs: seq<Interface>) {
    forall x :: x in xs ==> Clean(x.kind) && Clean(x.name)
  }

  predicate DirectionWord(d: string) {
    d == "bidirectional" || d == "output" || d == "input" || d == "none"
  }

  /** The text of the stream prints as it is. */
  predicate StreamClean(s: Stream) {
    && Clean(s.component) && Clean(s.ctype) && Clean(s.source) && DirectionWord(s.direction)
    && InterfacesClean(s.interfaces)
  }

  predicate StreamsClean(ss: seq<Stream>) {
    forall s :: s in ss ==> StreamClean(s)
  }

  predicate NamesId(xs: seq<Interface>) {
    exists x :: x in xs && (x.kind == "stream_id" || x.name == "stream_id")
  }

  /** A string value `stream_id` stands in front of the key `stream_id`. */
  predicate HidesId(s: Stream) {
    s.component == "stream_id" || NamesId(s.interfaces)
  }

  predicate TakesInput(s: Stream) {
    s.direction == "input" || s.direction == "bidirectional"
  }

  /** What the host makes of one printed stream: None rejects the whole registry, and a component named
      `direction` hides the direction. */
  function Seen(s: Stream): Option<Entry> {
    if HidesId(s) || !(-1 <= s.id <= 0xff) then None
    else Some(Entry(s.component, s.id, s.component != "direction" && TakesInput(s)))
  }

  /** The connection tables print as they are and have no key `streams`. The name and the source may be any text. */
  predicate HeaderClean(sinks: Json, sources: Json) {
    CleanJson(sinks) && CleanJson(sources) && NoKey(sinks, "streams") && NoKey(sources, "streams")
  }

  /** In front of the streams array a string is `streams` or ends in `"streams`. */
  predicate HidesStreams(name: string, source: string, sinks: Json, sources: Json) {
    LooksLike(name, "streams") || LooksLike(source, "streams") ||
    !Avoids(sinks, "streams") || !Avoids(sources, "streams")
  }

  /** What the host makes of the streams: append them in order. */
  function AppendAll(t: Table, ss: seq<Stream>): Option<Table>
    decreases ss
  {
    if ss == [] then Some(t) else
    match AppendSeen(t, ss[0])
    case None => None
    case Some(u) => AppendAll(u, ss[1..])
  }

  function AppendSeen(t: Table, x: Stream): Option<Table> {
    match Seen(x)
    case None => None
    case Some(e) => Append(t, e.id, e.name, e.input)
  }

  // ---------------------------------------------------------------- reading one printed stream object

  lemma WordsClean()
    ensures Clean("aliases") && Clean("component") && Clean("direction") && Clean("interfaces") && Clean("kind")
    ensures Clean("name")
    ensures Clean("stream_id") && Clean("stream_id_source") && Clean("type") && Clean("streams") && Clean("schema")
    ensures Clean("source") && Clean("demux_sinks") && Clean("mux_sources")
    ensures Clean("virtioso.camkes_component_identity.v1")
    ensures Key("component") && Key("direction") && Key("stream_id") && Key("streams")
  {
    WordsClean1();
    WordsClean2();
    WordsClean3();
    WordsClean4();
  }

  lemma WordsClean1()
    ensures Clean("aliases") && Clean("interfaces") && Clean("kind") && Clean("name") && Clean("type")
  {
  }

  lemma WordsClean2()
    ensures Key("component") && Key("direction") && Key("stream_id") && Key("streams")
  {
  }

  lemma WordsClean3()
    ensures Clean("stream_id_source") && Clean("schema") && Clean("source") && Clean("demux_sinks")
    ensures Clean("mux_sources")
  {
  }

  lemma WordsClean4()
    ensures Clean("virtioso.camkes_component_identity.v1")
  {
  }

  lemma NamesIdCons(xs: seq<Interface>)
    requires xs != []
    ensures NamesId(xs) <==> NamesId([xs[0]]) || NamesId(xs[1..])
  {
    assert xs == [xs[0]] + xs[1..];
  }

  lemma {:induction false} InterfacesPrint(xs: seq<Interface>)
    requires InterfacesClean(xs)
    ensures CleanItems(InterfaceItems(xs))
    ensures if NamesId(xs) then ItemsHide(InterfaceItems(xs), "stream_id")
              else ItemsAvoid(InterfaceItems(xs), "stream_id")
  {
    if xs != [] {
      assert xs[0] in xs;
      InterfacesPrint(xs[1..]);
      OneInterface(xs[0]);
      assert InterfaceItems(xs) == Cons(InterfaceJson(xs[0]), InterfaceItems(xs[1..]));
      NamesIdCons(xs);
    }
  }

  lemma OneInterface(x: Interface)
    requires Clean(x.kind) && Clean(x.name)
    ensures CleanJson(InterfaceJson(x))
    ensures if NamesId([x]) then Hides(InterfaceJson(x), "stream_id") else Avoids(InterfaceJson(x), "stream_id")
  {
    WordsClean1();
    var f := Field("name", Str(x.name), End);
    var g := Field("kind", Str(x.kind), f);
    assert x in [x];
    CleanString(x.name, "stream_id");
    CleanString(x.kind, "stream_id");
    assert CleanFields(End);
    assert CleanFields(f) && CleanFields(g);
    assert Hides(Str(x.kind), "stream_id") == (x.kind == "stream_id") == !Avoids(Str(x.kind), "stream_id");
    assert Hides(Str(x.name), "stream_id") == (x.name == "stream_id") == !Avoids(Str(x.name), "stream_id");
    assert "kind" != "stream_id" && "name" != "stream_id" && FieldsAvoid(End, "stream_id") &&
        !FieldsHide(End, "stream_id");
    assert FieldsHide(f, "stream_id") == (x.name == "stream_id") == !FieldsAvoid(f, "stream_id");
    assert FieldsHide(g, "stream_id") == (x.kind == "stream_id" || x.name == "stream_id") ==
        !FieldsAvoid(g, "stream_id");
  }

  lemma DirectionClean(d: string)
    requires DirectionWord(d)
    ensures Clean(d) && d != "stream_id"
  {
  }

  lemma StreamJsonClean(s: Stream)
    requires StreamClean(s)
    ensures CleanFields(StreamFields(s)) && CleanJson(StreamJson(s))
  {
    WordsClean();
    DirectionClean(s.direction);
    InterfacesPrint(s.interfaces);
    CleanBody(s.ctype);
    CleanBody(s.source);
    CleanBody(s.direction);
    CleanBody(s.component);
    assert CleanJson(Num(s.id)) && CleanJson(Arr(Nil)) && CleanJson(Arr(InterfaceItems(s.interfaces))) &&
        CleanFields(End);
    assert CleanFields(Field("type", Str(s.ctype), End));
    assert CleanFields(Field("stream_id_source", Str(s.source), Field("type", Str(s.ctype), End)));
    assert CleanFields(FromId(s));
    assert CleanFields(FromInterfaces(s));
    assert CleanFields(FromDirection(s));
    assert CleanFields(FromComponent(s));
  }

  lemma KeyConstants()
    ensures KEY_COMPONENT == Quoted("component") && KEY_DIRECTION == Quoted("direction")
    ensures KEY_STREAM_ID == Quoted("stream_id") && KEY_STREAMS == Quoted("streams")
  {
  }

  /** The component is always found. */
  lemma ComponentFinds(x: Stream)
    ensures Finds(StreamFields(x), "component") && Found(StreamFields(x), "component") == FromComponent(x)
  {
    WordsClean();
    assert Finds(FromComponent(x), "component") && Found(FromComponent(x), "component") == FromComponent(x);
  }

  /** The direction is found unless the component is called that. */
  lemma DirectionFinds(x: Stream)
    requires StreamClean(x) && x.component != "direction"
    ensures Finds(StreamFields(x), "direction") && Found(StreamFields(x), "direction") == FromDirection(x)
  {
    WordsClean1();
    WordsClean2();
    CleanString(x.component, "direction");
    assert Finds(FromDirection(x), "direction") && Found(FromDirection(x), "direction") == FromDirection(x);
    assert Finds(FromComponent(x), "direction") && Found(FromComponent(x), "direction") == FromDirection(x);
  }

  lemma DirectionHides(x: Stream)
    requires StreamClean(x) && x.component == "direction"
    ensures FieldsHide(StreamFields(x), "direction")
  {
    CleanString(x.component, "direction");
    assert FieldsHide(FromComponent(x), "direction");
  }

  /** The id is found unless the component or an interface is called that. */
  lemma IdFinds(x: Stream)
    requires StreamClean(x)
    ensures !HidesId(x) ==> Finds(StreamFields(x), "stream_id") && Found(StreamFields(x), "stream_id") == FromId(x)
    ensures HidesId(x) ==> FieldsHide(StreamFields(x), "stream_id")
  {
    WordsClean();
    DirectionClean(x.direction);
    InterfacesPrint(x.interfaces);
    CleanString(x.component, "stream_id");
    CleanString(x.direction, "stream_id");
    if !HidesId(x) {
      IdInFront(x);
    } else if x.component == "stream_id" {
      assert FieldsHide(FromComponent(x), "stream_id");
    } else {
      assert FieldsHide(FromInterfaces(x), "stream_id");
      assert FieldsHide(FromDirection(x), "stream_id");
      assert FieldsHide(FromComponent(x), "stream_id");
    }
  }

  lemma IdInFront(x: Stream)
    requires CleanItems(InterfaceItems(x.interfaces)) && ItemsAvoid(InterfaceItems(x.interfaces), "stream_id")
    requires CleanJson(Str(x.component)) && Avoids(Str(x.component), "stream_id")
    requires CleanJson(Str(x.direction)) && Avoids(Str(x.direction), "stream_id")
    ensures Finds(StreamFields(x), "stream_id") && Found(StreamFields(x), "stream_id") == FromId(x)
  {
    WordsClean();
    assert Finds(FromId(x), "stream_id") && Found(FromId(x), "stream_id") == FromId(x);
    assert Finds(FromInterfaces(x), "stream_id") && Found(FromInterfaces(x), "stream_id") == FromId(x);
    assert Finds(FromDirection(x), "stream_id") && Found(FromDirection(x), "stream_id") == FromId(x);
    assert Finds(FromComponent(x), "stream_id") && Found(FromComponent(x), "stream_id") == FromId(x);
  }

  /** `x` is printed at `p`, and `q` is its last character. */
  predicate Printed(s: string, p: nat, q: nat, x: Stream) {
    At(s, p, Dumps(Obj(StreamFields(x)))) && StreamClean(x) && q == p + |Dumps(Obj(StreamFields(x)))| - 1
  }

  lemma ComponentRead(s: string, p: nat, q: nat, x: Stream)
    requires Printed(s, p, q, x)
    ensures var c := KeyBefore(s, p, q, KEY_COMPONENT);
            c.Some? && StringAfter(s, c.value, KEY_COMPONENT) == Some(x.component)
  {
    KeyConstants();
    WordsClean2();
    ComponentFinds(x);
    var i := KeyFound(s, p, StreamFields(x), "component");
    ReadString(s, i, "component", x.component);
  }

  lemma DirectionRead(s: string, p: nat, q: nat, x: Stream)
    requires Printed(s, p, q, x)
    ensures var d := KeyBefore(s, p, q, KEY_DIRECTION);
            (d.Some? && InputDirection(StringAfter(s, d.value, KEY_DIRECTION))) ==
            (x.component != "direction" && TakesInput(x))
  {
    KeyConstants();
    WordsClean2();
    if x.component != "direction" {
      DirectionFinds(x);
      var i := KeyFound(s, p, StreamFields(x), "direction");
      DirectionClean(x.direction);
      ReadString(s, i, "direction", x.direction);
    } else {
      DirectionHides(x);
      StreamJsonClean(x);
      KeyHidden(s, p, q, StreamFields(x), "direction");
    }
  }

  /** How the id key of a printed stream reads: its id, or nothing if that is hidden or out of range. */
  ghost predicate IdReads(s: string, p: nat, q: nat, x: Stream)
    requires p <= |s|
  {
    var k := KeyBefore(s, p, q, KEY_STREAM_ID);
    if Seen(x).Some? then k.Some? && IntAfter(s, k.value, KEY_STREAM_ID) == Some(x.id)
    else k.None? || IntAfter(s, k.value, KEY_STREAM_ID) == None
  }

  lemma IdRead(s: string, p: nat, q: nat, x: Stream)
    requires Printed(s, p, q, x)
    ensures IdReads(s, p, q, x)
  {
    KeyConstants();
    WordsClean2();
    IdFinds(x);
    if !HidesId(x) {
      var i := KeyFound(s, p, StreamFields(x), "stream_id");
      ReadNumber(s, i, "stream_id", x.id);
    } else {
      StreamJsonClean(x);
      KeyHidden(s, p, q, StreamFields(x), "stream_id");
      IdHidden(s, p, q, x);
    }
  }

  lemma IdHidden(s: string, p: nat, q: nat, x: Stream)
    requires p <= |s| && HidesId(x)
    requires var k := KeyBefore(s, p, q, KEY_STREAM_ID); k.Some? ==> AfterColon(s, k.value, KEY_STREAM_ID) == None
    ensures IdReads(s, p, q, x)
  {
  }

  lemma EntryFromParts(s: string, p: nat, q: nat, x: Stream)
    requires p <= |s| && KeyBefore(s, p, q, KEY_COMPONENT).Some?
    requires StringAfter(s, KeyBefore(s, p, q, KEY_COMPONENT).value, KEY_COMPONENT) == Some(x.component)
    requires var d := KeyBefore(s, p, q, KEY_DIRECTION);
             (d.Some? && InputDirection(StringAfter(s, d.value, KEY_DIRECTION))) ==
             (x.component != "direction" && TakesInput(x))
    requires IdReads(s, p, q, x)
    ensures ReadEntry(s, p, q) == Seen(x)
  {
  }

  /** Of a printed stream object the host reads its component, its id and its direction. */
  lemma EntryRead(s: string, p: nat, q: nat, x: Stream)
    requires Printed(s, p, q, x)
    ensures ReadEntry(s, p, q) == Seen(x)
  {
    ComponentRead(s, p, q, x);
    DirectionRead(s, p, q, x);
    IdRead(s, p, q, x);
    EntryFromParts(s, p, q, x);
  }

  /** The end of a printed object is its matching brace. */
  lemma ObjectEnd(s: string, p: nat, q: nat, x: Stream)
    requires Printed(s, p, q, x)
    ensures Matching(s, p, '{', '}') == Some(q)
  {
    StreamJsonClean(x);
    LevelFields(StreamFields(x), '{', '}');
    ClosedAt(s, p, q, DumpFields(StreamFields(x)));
  }

  lemma ClosedAt(s: string, p: nat, q: nat, t: string)
    requires At(s, p, ['{'] + t + ['}']) && q == p + |['{'] + t + ['}']| - 1 && Level(t, '{', '}')
    ensures Matching(s, p, '{', '}') == Some(q)
  {
    MatchingPrinted(s, p, t, '{', '}');
  }

  lemma ObjectStart(s: string, p: nat, f: Fields)
    requires At(s, p, Dumps(Obj(f)))
    ensures s[p] == '{' && |Dumps(Obj(f))| >= 2
  {
    AtChar(s, p, Dumps(Obj(f)), 0);
  }

  lemma {:induction false} BraceAt(s: string, i: nat, end: nat, p: nat)
    requires i <= p < end <= |s| && s[p] == '{' && forall j :: i <= j < p ==> s[j] != '{'
    ensures BraceBefore(s, i, end) == p
    decreases p - i
  {
    if i < p {
      BraceAt(s, i + 1, end, p);
    }
  }

  /** What the host's loop makes of `x` when the text behind it starts at `next`. */
  function ItemOf(x: Stream, next: nat): Item {
    if Seen(x).None? then Malformed else Item(Seen(x).value, next)
  }

  lemma ItemFromParts(s: string, pos: nat, p: nat, q: nat, end: nat, x: Stream)
    requires pos <= p < end <= |s| && BraceBefore(s, pos, end) == p && Matching(s, p, '{', '}') == Some(q)
    requires ReadEntry(s, p, q) == Seen(x)
    ensures NextItem(s, pos, end) == ItemOf(x, q + 1)
  {
  }

  lemma ItemRead(s: string, pos: nat, p: nat, q: nat, end: nat, x: Stream)
    requires pos <= p < q < end <= |s| && NoBrace(s, pos, p) && Printed(s, p, q, x)
    ensures NextItem(s, pos, end) == ItemOf(x, q + 1)
  {
    ObjectStart(s, p, StreamFields(x));
    BraceAt(s, pos, end, p);
    ObjectEnd(s, p, q, x);
    EntryRead(s, p, q, x);
    ItemFromParts(s, pos, p, q, end, x);
  }

  ghost predicate NoBrace(s: string, i: nat, e: nat)
    requires e <= |s|
  {
    forall j :: i <= j < e ==> s[j] != '{'
  }

  /** The loop over the streams array reads `text` as the stream `x`, wherever it stands. */
  ghost predicate Reads(text: string, x: Stream) {
    && |text| >= 2
    && forall s: string, pos: nat, p: nat, end: nat {:trigger ReadsAt(text, x, s, pos, p, end)} ::
         ReadsAt(text, x, s, pos, p, end)
  }

  ghost predicate ReadsAt(text: string, x: Stream, s: string, pos: nat, p: nat, end: nat) {
    pos <= p && p + |text| <= end <= |s| && At(s, p, text) && NoBrace(s, pos, p) ==>
      NextItem(s, pos, end) == ItemOf(x, p + |text|)
  }

  lemma PrintedReads(x: Stream)
    requires StreamClean(x)
    ensures Reads(Dumps(StreamJson(x)), x)
  {
    var text := Dumps(StreamJson(x));
    assert At(text, 0, text);
    ObjectStart(text, 0, StreamFields(x));
    forall s: string, pos: nat, p: nat, end: nat
      ensures ReadsAt(text, x, s, pos, p, end)
    {
      PrintedReadsAt(x, s, pos, p, end);
    }
  }

  lemma PrintedReadsAt(x: Stream, s: string, pos: nat, p: nat, end: nat)
    requires StreamClean(x)
    ensures ReadsAt(Dumps(StreamJson(x)), x, s, pos, p, end)
  {
    var next := p + |Dumps(StreamJson(x))|;
    if pos <= p && next <= end <= |s| && At(s, p, Dumps(StreamJson(x))) && NoBrace(s, pos, p) {
      ObjectStart(s, p, StreamFields(x));
      ItemRead(s, pos, p, next - 1, end, x);
    }
  }

  function Join(texts: seq<string>): string {
    if texts == [] then [] else texts[0] + if |texts| == 1 then [] else ", " + Join(texts[1..])
  }

  /** The texts of the items of an array. */
  function Texts(items: Items): seq<string> {
    if items.Nil? then [] else [Dumps(items.head)] + Texts(items.tail)
  }

  lemma {:induction false} TextsJoined(items: Items)
    ensures DumpItems(items) == Join(Texts(items)) && (items.Nil? <==> Texts(items) == [])
  {
    if items.Cons? {
      TextsJoined(items.tail);
      assert Texts(items)[1..] == Texts(items.tail);
    }
  }

  ghost predicate AllRead(ts: seq<string>, ss: seq<Stream>) {
    |ts| == |ss| && forall i :: 0 <= i < |ss| ==> Reads(ts[i], ss[i])
  }

  lemma {:induction false} TextsRead(ss: seq<Stream>)
    requires StreamsClean(ss)
    ensures AllRead(Texts(StreamItems(ss)), ss)
  {
    if ss != [] {
      assert ss[0] in ss;
      PrintedReads(ss[0]);
      TextsRead(ss[1..]);
      AllReadCons(Dumps(StreamJson(ss[0])), Texts(StreamItems(ss[1..])), ss);
    }
  }

  lemma AllReadCons(t: string, ts: seq<string>, ss: seq<Stream>)
    requires ss != [] && Reads(t, ss[0]) && AllRead(ts, ss[1..])
    ensures AllRead([t] + ts, ss)
  {
    forall i | 0 <= i < |ss|
      ensures Reads(([t] + ts)[i], ss[i])
    {
      if i > 0 {
        assert Reads(ts[i - 1], ss[1..][i - 1]);
      }
    }
  }

  lemma ReadsHere(text: string, x: Stream, s: string, pos: nat, p: nat, next: nat, end: nat)
    requires Reads(text, x) && pos <= p && next == p + |text| <= end <= |s| && At(s, p, text) && NoBrace(s, pos, p)
    ensures NextItem(s, pos, end) == ItemOf(x, next)
  {
    assert ReadsAt(text, x, s, pos, p, end);
  }

  lemma StreamsStep(s: string, pos: nat, next: nat, end: nat, ss: seq<Stream>, t: Table)
    requires ss != [] && end <= |s| && pos < next <= |s| && NextItem(s, pos, end) == ItemOf(ss[0], next)
    requires var r := AppendSeen(t, ss[0]);
             r.Some? ==> ReadStreams(s, next, end, r.value) == AppendAll(r.value, ss[1..])
    ensures ReadStreams(s, pos, end, t) == AppendAll(t, ss)
  {
  }

  lemma JoinText(ts: seq<string>)
    requires ts != []
    ensures Join(ts) == ts[0] + ((if |ts| == 1 then [] else ", ") + Join(ts[1..]))
  {
  }

  lemma AtThree(s: string, p: nat, a: string, sep: string, b: string)
    requires At(s, p, a + (sep + b))
    ensures At(s, p, a) && At(s, p + |a|, sep) && At(s, p + |a| + |sep|, b)
  {
    AtConcat(s, p, a, sep + b);
    AtConcat(s, p + |a|, sep, b);
  }

  /** From the first text to the second. */
  lemma Advance(s: string, p: nat, end: nat, ts: seq<string>) returns (next: nat, p': nat)
    requires ts != [] && At(s, p, Join(ts)) && end == p + |Join(ts)|
    ensures next == p + |ts[0]| && next <= p' <= end <= |s| && (|ts| == 1 ==> next == p')
    ensures At(s, p, ts[0]) && At(s, p', Join(ts[1..])) && NoBrace(s, next, p') && end == p' + |Join(ts[1..])|
  {
    var sep := if |ts| == 1 then [] else ", ";
    var rest := Join(ts[1..]);
    next := p + |ts[0]|;
    p' := next + |sep|;
    JoinText(ts);
    AtThree(s, p, ts[0], sep, rest);
    if |ts| > 1 {
      CommaHasNoBrace(s, next);
    }
  }

  lemma CommaHasNoBrace(s: string, p: nat)
    requires At(s, p, ", ")
    ensures NoBrace(s, p, p + 2)
  {
    AtChar(s, p, ", ", 0);
    AtChar(s, p, ", ", 1);
  }

  /** The loop over a streams array appends the streams its texts stand for, in order. */
  lemma {:induction false} StreamsRead(s: string, pos: nat, p: nat, end: nat, ts: seq<string>, ss: seq<Stream>,
                                       t: Table)
    requires pos <= p && end == p + |Join(ts)| && end <= |s| && AllRead(ts, ss)
    requires At(s, p, Join(ts)) && NoBrace(s, pos, p) && (ss == [] ==> pos == p)
    ensures ReadStreams(s, pos, end, t) == AppendAll(t, ss)
    decreases |ss|
  {
    if ss == [] {
      assert NextItem(s, pos, end) == NoMore;
    } else {
      var next, p' := Advance(s, p, end, ts);
      AllReadTail(ts, ss);
      ReadsHere(ts[0], ss[0], s, pos, p, next, end);
      var r := AppendSeen(t, ss[0]);
      if r.Some? {
        StreamsRead(s, next, p', end, ts[1..], ss[1..], r.value);
      }
      StreamsStep(s, pos, next, end, ss, t);
    }
  }

  lemma AllReadTail(ts: seq<string>, ss: seq<Stream>)
    requires AllRead(ts, ss) && ss != []
    ensures AllRead(ts[1..], ss[1..]) && Reads(ts[0], ss[0]) && |ts[0]| >= 2
  {
    assert Reads(ts[0], ss[0]);
    forall i | 0 <= i < |ss| - 1
      ensures Reads(ts[1..][i], ss[1..][i])
    {
      assert Reads(ts[i + 1], ss[i + 1]);
    }
  }

  /** The text of the name or the source under the search for the streams array. */
  lemma TextPrints(v: string)
    ensures CleanJson(Str(Escape(v)))
    ensures Hides(Str(Escape(v)), "streams") == LooksLike(v, "streams") == !Avoids(Str(Escape(v)), "streams")
  {
    WordsClean2();
    EscapeBody(v);
    EscapeLooks(v, "streams");
  }

  lemma RegistryFinds(name: string, source: string, sinks: Json, sources: Json, ss: seq<Stream>)
    requires HeaderClean(sinks, sources) && StreamsClean(ss)
    ensures var f := RegistryFields(name, source, sinks, sources, ss);
            && CleanFields(f)
            && if HidesStreams(name, source, sinks, sources) then FieldsHide(f, "streams")
               else Finds(f, "streams") && Found(f, "streams") == FromStreams(ss)
  {
    WordsClean();
    HidesOrAvoids(sinks, "streams");
    HidesOrAvoids(sources, "streams");
    SchemaFinds(source, ss);
    TextPrints(name);
    var f := RegistryFields(name, source, sinks, sources, ss);
    assert CleanFields(f.rest.rest) && CleanFields(f.rest);
    if LooksLike(name, "streams") || LooksLike(source, "streams") {
      assert FieldsHide(f.rest.rest, "streams");
      assert Avoids(sources, "streams") || Hides(sources, "streams");
      assert FieldsHide(f.rest, "streams");
    } else {
      assert Finds(f.rest.rest, "streams") && Found(f.rest.rest, "streams") == FromStreams(ss);
      if Avoids(sources, "streams") {
        assert Finds(f.rest, "streams") && Found(f.rest, "streams") == FromStreams(ss);
      } else {
        assert FieldsHide(f.rest, "streams");
      }
    }
  }

  lemma SchemaFinds(source: string, ss: seq<Stream>)
    requires StreamsClean(ss)
    ensures CleanFields(FromSchema(source, ss))
    ensures if LooksLike(source, "streams") then FieldsHide(FromSchema(source, ss), "streams")
            else Finds(FromSchema(source, ss), "streams") && Found(FromSchema(source, ss), "streams") == FromStreams(ss)
  {
    WordsClean();
    ItemsClean(ss);
    TextPrints(source);
    CleanString("virtioso.camkes_component_identity.v1", "streams");
    assert CleanJson(Arr(StreamItems(ss))) && CleanFields(End) && CleanFields(FromStreams(ss));
    assert Finds(FromStreams(ss), "streams") && Found(FromStreams(ss), "streams") == FromStreams(ss);
    var g := Field("source", Str(Escape(source)), FromStreams(ss));
    assert CleanFields(g);
    if LooksLike(source, "streams") {
      assert FieldsHide(g, "streams");
    } else {
      assert Finds(g, "streams") && Found(g, "streams") == FromStreams(ss);
    }
  }

  /** Registry print and parse, for every name, source and connection table: the host reads from the printed
      registry exactly the generated streams, in order, with the right id, name and input flag, and rejects
      it if nothing was added or a string value hides the key of the streams array. */
  lemma RegistryRead(name: string, source: string, sinks: Json, sources: Json, ss: seq<Stream>, t: Table)
    requires HeaderClean(sinks, sources) && StreamsClean(ss)
    ensures ApplyRegistry(t, Dumps(RegistryJson(name, source, sinks, sources, ss))) ==
            if HidesStreams(name, source, sinks, sources) then None else
            match AppendAll(t, ss)
            case None => None
            case Some(u) => if |u.tags| == |t.tags| then None else Some(u)
  {
    var f := RegistryFields(name, source, sinks, sources, ss);
    var s := Dumps(Obj(f));
    assert At(s, 0, s);
    KeyConstants();
    WordsClean2();
    RegistryFinds(name, source, sinks, sources, ss);
    if HidesStreams(name, source, sinks, sources) {
      WholeHidden(s, f, "streams");
    } else {
      EnterObject(s, 0, f, "streams");
      var at := FieldFound(s, 1, |s| - 1, f, "streams");
      var start, first, end := at + 11, at + 12, at + 12 + |DumpItems(StreamItems(ss))|;
      StreamsArray(s, at, start, first, end, ss);
      StreamsPrinted(s, first, end, ss, t);
      FromArray(s, start, first, end, ss, t);
    }
  }

  lemma StreamsPrinted(s: string, p: nat, end: nat, ss: seq<Stream>, t: Table)
    requires At(s, p, DumpItems(StreamItems(ss))) && StreamsClean(ss) && end == p + |DumpItems(StreamItems(ss))|
    ensures ReadStreams(s, p, end, t) == AppendAll(t, ss)
  {
    TextsRead(ss);
    TextsJoined(StreamItems(ss));
    StreamsRead(s, p, p, end, Texts(StreamItems(ss)), ss, t);
  }

  lemma ArrayInner(s: string, i: nat, items: string)
    requires At(s, i, ['['] + items + [']'])
    ensures At(s, i + 1, items)
  {
    AtConcat(s, i, ['['] + items, [']']);
    AtConcat(s, i, ['['], items);
  }

  lemma FromArray(s: string, start: nat, first: nat, end: nat, ss: seq<Stream>, t: Table)
    requires first == start + 1 && ArrayAfter(s, 0, KEY_STREAMS) == Some((start, end))
    requires end <= |s| && ReadStreams(s, first, end, t) == AppendAll(t, ss)
    ensures ApplyRegistry(t, s) ==
            match AppendAll(t, ss)
            case None => None
            case Some(u) => if |u.tags| == |t.tags| then None else Some(u)
  {
  }

  lemma ArrayFromParts(s: string, c: nat, start: nat, e: nat)
    requires AfterColon(s, 0, KEY_STREAMS) == Some(c) && SkipSpace(s, c) == start
    requires start < |s| && s[start] == '[' && Matching(s, start, '[', ']') == Some(e)
    ensures ArrayAfter(s, 0, KEY_STREAMS) == Some((start, e))
  {
  }

  /** An array behind a key, found by its brackets. */
  lemma ArrayRead(s: string, q: string, at: nat, e: nat, start: nat, end: nat, items: string)
    requires at <= |s| && StrStr(s, 0, q) == Some(at) && At(s, at, q + ": " + (['['] + items + [']']))
    requires e == at + |q| && start == e + 2 && end == start + 1 + |items| && Level(items, '[', ']')
    ensures AfterColon(s, 0, q) == Some(e + 1) && SkipSpace(s, e + 1) == start
    ensures At(s, start + 1, items) && s[start] == '[' && Matching(s, start, '[', ']') == Some(end)
  {
    PairSplit(s, at, e, start, q, ['['] + items + [']']);
    ArrayInText(s, start, end, items);
    ColonHere(s, e);
    ColonAt(s, 0, q, at);
    OneBlank(s, e + 1, start);
  }

  lemma StreamsPair(items: Items)
    ensures Pair("streams", Arr(items)) == Quoted("streams") + ": " + (['['] + DumpItems(items) + [']'])
    ensures |Quoted("streams")| == 9
  {
    assert Dumps(Arr(items)) == ['['] + DumpItems(items) + [']'];
  }

  lemma StreamsArray(s: string, at: nat, start: nat, first: nat, end: nat, ss: seq<Stream>)
    requires at <= |s| && StrStr(s, 0, Quoted("streams")) == Some(at)
    requires At(s, at, Pair("streams", Arr(StreamItems(ss))))
    requires StreamsClean(ss) && start == at + 11 && first == start + 1 && end == first + |DumpItems(StreamItems(ss))|
    ensures At(s, first, DumpItems(StreamItems(ss)))
    ensures ArrayAfter(s, 0, KEY_STREAMS) == Some((start, end))
  {
    var items := StreamItems(ss);
    StreamsPair(items);
    ItemsClean(ss);
    LevelItems(items, '[', ']');
    ArrayRead(s, Quoted("streams"), at, at + 9, start, end, DumpItems(items));
    KeyConstants();
    ArrayFromParts(s, at + 10, start, end);
  }

  lemma ArrayInText(s: string, start: nat, end: nat, items: string)
    requires At(s, start, ['['] + items + [']']) && Level(items, '[', ']') && end == start + 1 + |items|
    ensures At(s, start + 1, items) && s[start] == '[' && Matching(s, start, '[', ']') == Some(end)
  {
    MatchingPrinted(s, start, items, '[', ']');
    ArrayInner(s, start, items);
    AtChar(s, start, ['['] + items + [']'], 0);
  }

  lemma {:induction false} ItemsClean(ss: seq<Stream>)
    requires StreamsClean(ss)
    ensures CleanItems(StreamItems(ss))
  {
    if ss != [] {
      assert ss[0] in ss;
      StreamJsonClean(ss[0]);
      ItemsClean(ss[1..]);
    }
  }

  // ---------------------------------------------------------------- which generated registries a fresh host accepts

  predicate BuiltinName(name: string) {
    exists i :: 0 <= i < 3 && BUILTINS.tags[i].name == name
  }

  predicate ComponentClean(c: Component) {
    Clean(c.name) && Clean(c.ctype) && InterfacesClean(c.interfaces)
  }

  /** Nothing in the component stands in the host's way: its strings do not hide the stream id, and the
      name of one that gets a stream is free. */
  predicate ComponentFits(c: Component) {
    c.name != "stream_id" && !NamesId(c.interfaces) && (Eligible(c) ==> !BuiltinName(c.name))
  }

  predicate Fits(cs: seq<Component>) {
    Count(cs) <= 253 && forall i :: 0 <= i < |cs| ==> ComponentFits(cs[i])
  }

  predicate InputOf(c: Component) {
    c.name != "direction" && HasKind(c.interfaces, "GetChar")
  }

  /** The tags of the eligible components, in order. */
  function TagsOf(cs: seq<Component>): seq<Tag>
    requires Count(cs) <= 253
  {
    if cs == [] then [] else
    var n := |cs| - 1;
    TagsOf(cs[..n]) + if Eligible(cs[n]) then [Tag(cs[n].name, IdOf(Count(cs)))] else []
  }

  function InputsOf(cs: seq<Component>): seq<bool> {
    if cs == [] then [] else
    var n := |cs| - 1;
    InputsOf(cs[..n]) + if Eligible(cs[n]) then [InputOf(cs[n])] else []
  }

  function TableOf(cs: seq<Component>): Table
    requires Count(cs) <= 253
  {
    Table(BUILTINS.tags + TagsOf(cs), BUILTINS.input + InputsOf(cs))
  }

  lemma {:induction false} AppendAllSnoc(t: Table, a: seq<Stream>, x: Stream)
    ensures AppendAll(t, a + [x]) ==
            match AppendAll(t, a)
            case None => None
            case Some(u) => AppendSeen(u, x)
    decreases a
  {
    if a == [] {
      assert [x][1..] == [];
    } else {
      assert (a + [x])[1..] == a[1..] + [x];
      if AppendSeen(t, a[0]).Some? {
        AppendAllSnoc(AppendSeen(t, a[0]).value, a[1..], x);
      }
    }
  }

  /** The tags are one per eligible component, carry its name, and their ids grow up to the last one. */
  lemma {:induction false} TagsFrom(cs: seq<Component>)
    requires Count(cs) <= 253
    ensures |TagsOf(cs)| == |InputsOf(cs)| == Count(cs)
    ensures forall j :: 0 <= j < Count(cs) ==> TagsOf(cs)[j].name in Names(cs) && TagsOf(cs)[j].value == IdOf(j + 1)
  {
    if cs != [] {
      var n := |cs| - 1;
      TagsFrom(cs[..n]);
      assert cs[n].name in Names(cs);
      assert forall name :: name in Names(cs[..n]) ==> name in Names(cs);
    }
  }

  lemma DirectionOf(c: Component)
    ensures DirectionWord(Direction(c.interfaces))
    ensures TakesInput(StreamOf(c, 0)) == HasKind(c.interfaces, "GetChar")
  {
  }

  /** One more component behind an accepted prefix. */
  lemma NextFits(cs: seq<Component>, c: Component, id: int)
    requires Count(cs) <= 253 && c.name !in Names(cs)
    requires id == if Eligible(c) then IdOf(Count(cs) + 1) else -1
    ensures Count(cs + [c]) == Count(cs) + if Eligible(c) then 1 else 0
    ensures AppendSeen(TableOf(cs), StreamOf(c, id)) ==
            if ComponentFits(c) && Count(cs + [c]) <= 253 then Some(TableOf(cs + [c])) else None
  {
    TableSnoc(cs, c);
    TagsFrom(cs);
    if !Eligible(c) {
      AppendSkips(TableOf(cs), c);
    } else if Count(cs) <= 252 {
      NameTaken(cs, c, id);
      AppendDecides(TableOf(cs), c, id, BuiltinName(c.name));
    } else {
      SeenOf(c, id);
    }
  }

  lemma AppendSkips(t: Table, c: Component)
    requires !Eligible(c)
    ensures AppendSeen(t, StreamOf(c, -1)) == if ComponentFits(c) then Some(t) else None
  {
    SeenOf(c, -1);
  }

  lemma AppendDecides(t: Table, c: Component, id: byte, taken: bool)
    requires ValidId(id) && |t.tags| < CAPACITY && Eligible(c) && taken == BuiltinName(c.name)
    requires taken <==> exists i :: 0 <= i < |t.tags| && (t.tags[i].value == id || t.tags[i].name == c.name)
    ensures AppendSeen(t, StreamOf(c, id)) ==
              if ComponentFits(c) then Some(Extend(t, Tag(c.name, id), InputOf(c))) else None
  {
    SeenOf(c, id);
  }

  lemma SeenOf(c: Component, id: int)
    ensures Seen(StreamOf(c, id)) == if c.name == "stream_id" || NamesId(c.interfaces) || !(-1 <= id <= 0xff) then None
                                     else Some(Entry(c.name, id, InputOf(c)))
  {
    DirectionOf(c);
  }

  lemma TableSnoc(cs: seq<Component>, c: Component)
    ensures Count(cs + [c]) == Count(cs) + if Eligible(c) then 1 else 0
    ensures Count(cs + [c]) <= 253 ==>
              TableOf(cs + [c]) ==
              if Eligible(c) then Extend(TableOf(cs), Tag(c.name, IdOf(Count(cs) + 1)), InputOf(c)) else TableOf(cs)
  {
    assert (cs + [c])[..|cs|] == cs;
    if Count(cs + [c]) <= 253 && Eligible(c) {
      assert TagsOf(cs + [c]) == TagsOf(cs) + [Tag(c.name, IdOf(Count(cs) + 1))];
      assert InputsOf(cs + [c]) == InputsOf(cs) + [InputOf(c)];
    }
  }

  lemma NameTaken(cs: seq<Component>, c: Component, id: int)
    requires Count(cs) <= 252 && c.name !in Names(cs) && id == IdOf(Count(cs) + 1)
    ensures var t := TableOf(cs);
            BuiltinName(c.name) <==>
              exists i :: 0 <= i < |t.tags| && (t.tags[i].value == id || t.tags[i].name == c.name)
  {
    var t := TableOf(cs);
    TagsFrom(cs);
    forall i | 3 <= i < |t.tags|
      ensures t.tags[i].value != id && t.tags[i].name != c.name
    {
      assert t.tags[i] == TagsOf(cs)[i - 3];
      IdsDistinct(i - 2, Count(cs) + 1);
    }
    assert forall i :: 0 <= i < 3 ==> t.tags[i] == BUILTINS.tags[i] && t.tags[i].value == 0;
    if BuiltinName(c.name) {
      var i :| 0 <= i < 3 && BUILTINS.tags[i].name == c.name;
      assert t.tags[i].name == c.name;
    }
  }

  lemma {:induction false} PrefixAccepted(cs: seq<Component>)
    requires DistinctNames(cs)
    ensures AppendAll(BUILTINS, Streams(cs)) == if Fits(cs) then Some(TableOf(cs)) else None
  {
    if cs == [] {
      assert TableOf([]) == BUILTINS;
    } else {
      var n := |cs| - 1;
      var id := if Eligible(cs[n]) then IdOf(Count(cs)) else -1;
      LastIsNew(cs);
      PrefixAccepted(cs[..n]);
      LastAccepted(cs[..n], cs[n], id);
    }
  }

  lemma LastIsNew(cs: seq<Component>)
    requires DistinctNames(cs) && cs != []
    ensures var n := |cs| - 1;
            DistinctNames(cs[..n]) && cs[n].name !in Names(cs[..n]) && cs[..n] + [cs[n]] == cs
  {
  }

  lemma LastAccepted(front: seq<Component>, c: Component, id: int)
    requires AppendAll(BUILTINS, Streams(front)) == if Fits(front) then Some(TableOf(front)) else None
    requires c.name !in Names(front) && id == if Eligible(c) then IdOf(Count(front + [c])) else -1
    ensures AppendAll(BUILTINS, Streams(front + [c])) == if Fits(front + [c]) then Some(TableOf(front + [c])) else None
  {
    StreamsSnoc(front, c, id);
    AppendAllSnoc(BUILTINS, Streams(front), StreamOf(c, id));
    FitsSnoc(front, c);
    if Fits(front) {
      NextFits(front, c, id);
    }
  }

  lemma StreamsSnoc(front: seq<Component>, c: Component, id: int)
    requires id == if Eligible(c) then IdOf(Count(front + [c])) else -1
    ensures Streams(front + [c]) == Streams(front) + [StreamOf(c, id)]
  {
    assert (front + [c])[..|front|] == front;
  }

  lemma FitsSnoc(front: seq<Component>, c: Component)
    ensures Fits(front + [c]) <==> Fits(front) && Count(front + [c]) <= 253 && ComponentFits(c)
  {
    var cs := front + [c];
    assert cs[..|front|] == front && cs[|front|] == c;
    assert forall i :: 0 <= i < |front| ==> cs[i] == front[i];
  }

  lemma {:induction false} StreamsPrintClean(cs: seq<Component>)
    requires forall c :: c in cs ==> ComponentClean(c)
    ensures StreamsClean(Streams(cs))
  {
    if cs != [] {
      var n := |cs| - 1;
      assert forall c :: c in cs[..n] ==> c in cs;
      StreamsPrintClean(cs[..n]);
      DirectionOf(cs[n]);
      assert cs[n] in cs;
      SourceClean(cs[n]);
    }
  }

  lemma SourceClean(c: Component)
    ensures Clean(StreamOf(c, 0).source)
  {
  }

  /** A fresh host accepts a generated registry exactly when there are 1 to 253 streams, no stream has a
      built-in name, and no string value hides a key the host looks for; it then holds the built-in
      entries followed by one entry per stream, in order. */
  lemma GeneratedAccepted(name: string, source: string, sinks: Json, sources: Json, cs: seq<Component>)
    requires HeaderClean(sinks, sources) && DistinctNames(cs) && forall c :: c in cs ==> ComponentClean(c)
    ensures var accepted := Fits(cs) && Count(cs) >= 1 && !HidesStreams(name, source, sinks, sources);
            ApplyRegistry(BUILTINS, Dumps(RegistryJson(name, source, sinks, sources, Streams(cs)))) ==
            if accepted then Some(TableOf(cs)) else None
  {
    StreamsPrintClean(cs);
    RegistryRead(name, source, sinks, sources, Streams(cs), BUILTINS);
    PrefixAccepted(cs);
    if Fits(cs) {
      TagsFrom(cs);
    }
  }

  /** The smallest assembly: one component with one output. */
  function Single(name: string): seq<Component> {
    [Component(name, "Console", [Interface("PutChar", "out")])]
  }

  lemma SingleFacts(name: string)
    requires Clean(name)
    ensures DistinctNames(Single(name)) && Count(Single(name)) == 1
    ensures forall c :: c in Single(name) ==> ComponentClean(c)
    ensures Fits(Single(name)) <==> name != "stream_id" && !BuiltinName(name)
  {
    var cs := Single(name);
    var x := cs[0].interfaces[0];
    assert Clean("Console") && Clean("PutChar") && Clean("out") && x.kind != "stream_id" && x.name != "stream_id";
    assert cs[..0] == [] && !NamesId(cs[0].interfaces);
  }

  /** A generated registry that the host rejects for the name of its one component, beside one that differs
      in that name alone and is accepted. */
  lemma NameStreamIdRejected()
    ensures ApplyRegistry(BUILTINS,
              Dumps(RegistryJson("vm", "vm.camkes", Arr(Nil), Arr(Nil), Streams(Single("stream_id"))))) == None
    ensures Count(Single("console")) <= 253 &&
            ApplyRegistry(BUILTINS,
                Dumps(RegistryJson("vm", "vm.camkes", Arr(Nil), Arr(Nil), Streams(Single("console"))))) ==
              Some(TableOf(Single("console")))
  {
    WordsClean2();
    assert Clean("console") && !BuiltinName("console");
    assert "vm.camkes"[1..][0] == 'm' && (['"'] + "streams")[0] == '"';
    assert !LooksLike("vm", "streams") && !LooksLike("vm.camkes", "streams");
    SingleFacts("stream_id");
    SingleFacts("console");
    GeneratedAccepted("vm", "vm.camkes", Arr(Nil), Arr(Nil), Single("stream_id"));
    GeneratedAccepted("vm", "vm.camkes", Arr(Nil), Arr(Nil), Single("console"));
  }

  lemma {:induction false} TagAt(cs: seq<Component>, i: nat)
    requires i < |cs| && Count(cs) <= 253 && Eligible(cs[i])
    ensures var k := Count(cs[..i + 1]);
            && 0 < k <= Count(cs) == |TagsOf(cs)| == |InputsOf(cs)|
            && TagsOf(cs)[k - 1] == Tag(cs[i].name, IdOf(k)) && InputsOf(cs)[k - 1] == InputOf(cs[i])
    decreases |cs|
  {
    TagsFrom(cs);
    if i < |cs| - 1 {
      var n := |cs| - 1;
      TagsFrom(cs[..n]);
      assert cs[..n][..i + 1] == cs[..i + 1];
      TagAt(cs[..n], i);
    } else {
      assert cs[..i + 1] == cs;
    }
  }

  /** In the accepted table the k-th eligible component is found under its id, with its name and direction. */
  lemma GeneratedEntry(cs: seq<Component>, i: nat)
    requires i < |cs| && Count(cs) <= 253 && Eligible(cs[i])
    ensures var k := Count(cs[..i + 1]); var t := TableOf(cs);
            && 0 < k <= 253 && ValidId(IdOf(k)) && 2 + k < |t.tags| == |t.input|
            && t.tags[2 + k] == Tag(cs[i].name, IdOf(k)) && t.input[2 + k] == InputOf(cs[i])
            && Find(t.tags, IdOf(k)) == 2 + k
  {
    var k := Count(cs[..i + 1]);
    TagAt(cs, i);
    EntryAt(cs, k);
    FoundAt(cs, k);
  }

  lemma EntryAt(cs: seq<Component>, k: nat)
    requires 0 < k <= Count(cs) <= 253 && |TagsOf(cs)| == |InputsOf(cs)| == Count(cs)
    ensures var t := TableOf(cs);
            2 + k < |t.tags| == |t.input| && t.tags[2 + k] == TagsOf(cs)[k - 1] && t.input[2 + k] == InputsOf(cs)[k - 1]
  {
  }

  lemma FoundAt(cs: seq<Component>, k: nat)
    requires 0 < k <= Count(cs) <= 253
    ensures ValidId(IdOf(k)) && Find(TableOf(cs).tags, IdOf(k)) == 2 + k
  {
    var t := TableOf(cs);
    TagsFrom(cs);
    assert forall j :: 0 <= j < 3 ==> t.tags[j] == BUILTINS.tags[j];
    assert t.tags[2 + k] == TagsOf(cs)[k - 1];
    forall f | 3 <= f < 2 + k
      ensures t.tags[f].value != IdOf(k)
    {
      assert t.tags[f] == TagsOf(cs)[f - 3];
      IdsDistinct(f - 2, k);
    }
  }
}
