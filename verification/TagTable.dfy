/** The host's stream table: built-in entries, streams announced by the registry and streams
    announced by CONNECTED records (host/tcu_com.c). */
module TagTable {
  import opened Bytes
  import opened JsonScan

  const CAPACITY: nat := 257

  datatype Tag = Tag(name: string, value: byte)

  /** `tags[0..num_proc]` with the parallel `virtioso_stream_input_enabled` flags. */
  datatype Table = Table(tags: seq<Tag>, input: seq<bool>)

  const BUILTINS := Table([Tag("raw_ccplex", 0), Tag("autopilot_control", 0), Tag("physical_uart_default", 0)],
                          [true, true, true])

  /** `find_virtioso_pty_idx_by_stream_id` over entries from `i` on: the first match, else -1. */
  function FindFrom(tags: seq<Tag>, id: byte, i: nat): (k: int)
    requires i <= |tags|
    ensures k == -1 || (i <= k < |tags| && tags[k].value == id && forall j :: i <= j < k ==> tags[j].value != id)
    ensures k == -1 ==> forall j :: i <= j < |tags| ==> tags[j].value != id
    decreases |tags| - i
  {
    if i == |tags| then -1 else if tags[i].value == id then i else FindFrom(tags, id, i + 1)
  }

  function Find(tags: seq<Tag>, id: byte): int {
    FindFrom(tags, id, 0)
  }

  /** What every reachable table satisfies: the three built-ins, then distinct nonzero ids. */
  ghost predicate Valid(t: Table) {
    && |t.tags| == |t.input| && 3 <= |t.tags| <= CAPACITY
    && t.tags[..3] == BUILTINS.tags
    && (forall i :: 3 <= i < |t.tags| ==> t.tags[i].value != 0)
    && (forall i, j :: 3 <= i < j < |t.tags| ==> t.tags[i].value != t.tags[j].value)
  }

  /** In a valid table a nonzero id has at most one entry, and it is not a built-in one. */
  lemma LookupUnique(t: Table, id: byte, i: nat)
    requires Valid(t) && id != 0 && i < |t.tags| && t.tags[i].value == id
    ensures i >= 3 && Find(t.tags, id) == i
  {
    assert forall j :: 0 <= j < 3 ==> t.tags[j] == t.tags[..3][j];
    var k := Find(t.tags, id);
    assert 3 <= k <= i && t.tags[k].value == t.tags[i].value;
  }

  function Extend(t: Table, tag: Tag, input: bool): Table {
    Table(t.tags + [tag], t.input + [input])
  }

  lemma ExtendFind(t: Table, tag: Tag, input: bool, id: byte)
    ensures Find(Extend(t, tag, input).tags, id) ==
            if Find(t.tags, id) >= 0 then Find(t.tags, id) else if tag.value == id then |t.tags| else -1
  {
    ExtendFindFrom(t.tags, tag, id, 0);
  }

  lemma {:induction false} ExtendFindFrom(tags: seq<Tag>, tag: Tag, id: byte, i: nat)
    requires i <= |tags|
    ensures FindFrom(tags + [tag], id, i) ==
            if FindFrom(tags, id, i) >= 0 then FindFrom(tags, id, i) else if tag.value == id then |tags| else -1
    decreases |tags| - i
  {
    if i < |tags| && tags[i].value != id {
      ExtendFindFrom(tags, tag, id, i + 1);
    } else if i == |tags| && tag.value != id {
      assert FindFrom(tags + [tag], id, i + 1) == -1;
    }
  }

  lemma ExtendValid(t: Table, tag: Tag, input: bool)
    requires Valid(t) && |t.tags| < CAPACITY && tag.value != 0 && Find(t.tags, tag.value) == -1
    ensures Valid(Extend(t, tag, input))
  {
    var u := Extend(t, tag, input);
    assert u.tags[..3] == t.tags[..3];
  }

  /** `append_virtioso_stream`: None is the error return, a negative id is skipped. */
  function Append(t: Table, id: int, name: string, input: bool): Option<Table> {
    if id < 0 then Some(t)
    else if !ValidId(id) then None
    else if exists i :: 0 <= i < |t.tags| && (t.tags[i].value == id || t.tags[i].name == name) then None
    else if |t.tags| >= CAPACITY then None
    else Some(Extend(t, Tag(name, id), input))
  }

  method AppendStream(t: Table, id: int, name: string, input: bool) returns (r: Option<Table>)
    ensures r == Append(t, id, name, input)
  {
    if id < 0 {
      return Some(t);
    }
    if id <= 0 || id > 0xff || id == ESC || id == CONTROL {
      return None;
    }
    for i := 0 to |t.tags|
      invariant forall j :: 0 <= j < i ==> t.tags[j].value != id && t.tags[j].name != name
    {
      if t.tags[i].value == id {
        return None;
      }
      if t.tags[i].name == name {
        return None;
      }
    }
    if |t.tags| >= CAPACITY {
      return None;
    }
    return Some(Extend(t, Tag(name, id), input));
  }

  /** The first opening brace in `s[i..end]`, else `end`. */
  function BraceBefore(s: string, i: nat, end: nat): (r: nat)
    requires i <= end <= |s|
    ensures i <= r <= end && (r < end ==> s[r] == '{') && forall j :: i <= j < r ==> s[j] != '{'
    decreases end - i
  {
    if i == end || s[i] == '{' then i else BraceBefore(s, i + 1, end)
  }

  const KEY_STREAMS := "\"streams\""
  const KEY_COMPONENT := "\"component\""
  const KEY_STREAM_ID := "\"stream_id\""
  const KEY_DIRECTION := "\"direction\""

  datatype Entry = Entry(name: string, id: int, input: bool)

  predicate InputDirection(d: Option<string>) {
    d.Some? && (d.value == "input" || d.value == "bidirectional")
  }

  /** One stream object `s[p..q + 1]` as the host reads it; None when it is malformed. */
  function ReadEntry(s: string, p: nat, q: nat): Option<Entry>
    requires p <= |s|
  {
    var c := KeyBefore(s, p, q, KEY_COMPONENT);
    var k := KeyBefore(s, p, q, KEY_STREAM_ID);
    var d := KeyBefore(s, p, q, KEY_DIRECTION);
    if c.None? || k.None? then None else
    var id := IntAfter(s, k.value, KEY_STREAM_ID);
    var name := StringAfter(s, c.value, KEY_COMPONENT);
    if id.None? || name.None? then None else
    Some(Entry(name.value, id.value, d.Some? && InputDirection(StringAfter(s, d.value, KEY_DIRECTION))))
  }

  /** What the loop over the streams array finds next from `pos` on. */
  datatype Item = NoMore | Malformed | Item(entry: Entry, next: nat)

  ghost function NextItem(s: string, pos: nat, end: nat): (r: Item)
    requires end <= |s|
    ensures r.Item? ==> pos < r.next <= |s|
  {
    if pos >= end then NoMore else
    var p := BraceBefore(s, pos, end);
    if p == end then NoMore else
    match Matching(s, p, '{', '}')
    case None => Malformed
    case Some(q) =>
      match ReadEntry(s, p, q)
      case None => Malformed
      case Some(e) => Item(e, q + 1)
  }

  method ReadItem(s: string, pos: nat, end: nat) returns (r: Item)
    requires end <= |s|
    ensures r == NextItem(s, pos, end)
  {
    var p := pos;
    while p < end && s[p] != '{'
      invariant pos <= p && (pos <= end ==> p <= end && BraceBefore(s, p, end) == BraceBefore(s, pos, end))
    {
      p := p + 1;
    }
    if p >= end {
      return NoMore;
    }
    var close := FindMatching(s, p, '{', '}');
    MatchingUnique(s, p, close, '{', '}');
    if close.None? {
      return Malformed;
    }
    var e := ParseEntry(s, p, close.value);
    if e.None? {
      return Malformed;
    }
    return Item(e.value, close.value + 1);
  }

  /** The body of the loop: keys are looked up in the object, values behind the keys. */
  method ParseEntry(s: string, p: nat, q: nat) returns (r: Option<Entry>)
    requires p <= |s|
    ensures r == ReadEntry(s, p, q)
  {
    var c := KeyBefore(s, p, q, KEY_COMPONENT);
    var k := KeyBefore(s, p, q, KEY_STREAM_ID);
    if c.None? || k.None? {
      return None;
    }
    var id := IntValueAfter(s, k.value, KEY_STREAM_ID);
    if id.None? {
      return None;
    }
    var name := StringValueAfter(s, c.value, KEY_COMPONENT);
    if name.None? {
      return None;
    }
    var d := KeyBefore(s, p, q, KEY_DIRECTION);
    var input := false;
    if d.Some? {
      var direction := StringValueAfter(s, d.value, KEY_DIRECTION);
      input := InputDirection(direction);
    }
    return Some(Entry(name.value, id.value, input));
  }

  /** The loop over the objects of the streams array. */
  ghost function ReadStreams(s: string, pos: nat, end: nat, t: Table): Option<Table>
    requires end <= |s|
    decreases |s| - pos
  {
    match NextItem(s, pos, end)
    case NoMore => Some(t)
    case Malformed => None
    case Item(e, next) =>
      match Append(t, e.id, e.name, e.input)
      case None => None
      case Some(u) => ReadStreams(s, next, end, u)
  }

  /** `apply_virtioso_registry_json` when PTY creation succeeds: None is its error return, which
      restores the old table. At least one stream must be added. */
  ghost function ApplyRegistry(t: Table, json: string): Option<Table> {
    match ArrayAfter(json, 0, KEY_STREAMS)
    case None => None
    case Some(b) => ApplyArray(t, json, b.0 + 1, b.1)
  }

  ghost function ApplyArray(t: Table, json: string, start: nat, end: nat): Option<Table>
    requires end <= |json|
  {
    match ReadStreams(json, start, end, t)
    case None => None
    case Some(u) => if |u.tags| == |t.tags| then None else Some(u)
  }

  /** `apply_virtioso_stream_connected`: `payload` is the record body, a stream id and a name. */
  function Connect(t: Table, payload: seq<byte>): Table
    requires payload != []
  {
    if Find(t.tags, payload[0]) >= 0 || |t.tags| >= CAPACITY then t
    else Extend(t, Tag(HostName(payload[1..]), payload[0]), false)
  }

  /** What the host keeps of an announced name: the longest part in front that has at most 255 bytes and no NUL. */
  predicate Kept(name: seq<byte>, kept: string) {
    && kept <= Text(name) && '\0' !in kept && |kept| <= 255
    && (|kept| < |name| && |kept| < 255 ==> name[|kept|] == 0)
  }

  function HostName(name: seq<byte>): (kept: string)
    ensures Kept(name, kept)
    ensures |name| <= 255 && 0 !in name ==> kept == Text(name)
  {
    var copy := if |name| < 255 then name else name[..255];
    assert Text(copy) <= Text(name);
    CStr(Text(copy))
  }

  lemma AppendValid(t: Table, id: int, name: string, input: bool)
    requires Valid(t)
    ensures var r := Append(t, id, name, input);
            r.Some? ==> Valid(r.value) && |t.tags| <= |r.value.tags| && t.tags <= r.value.tags
  {
    if Append(t, id, name, input).Some? && id >= 0 {
      ExtendValid(t, Tag(name, id), input);
    }
  }

  lemma {:induction false} ReadStreamsValid(s: string, pos: nat, end: nat, t: Table)
    requires end <= |s| && Valid(t)
    ensures var r := ReadStreams(s, pos, end, t); r.Some? ==> Valid(r.value) && t.tags <= r.value.tags
    decreases |s| - pos
  {
    match NextItem(s, pos, end)
    case NoMore =>
    case Malformed =>
    case Item(e, next) =>
      var u := Append(t, e.id, e.name, e.input);
      AppendValid(t, e.id, e.name, e.input);
      if u.Some? {
        ReadStreamsValid(s, next, end, u.value);
      }
  }

  /** The names of the entries behind the first `n` are unlike all names in front of them. */
  ghost predicate NewNames(tags: seq<Tag>, n: nat) {
    forall i, j :: 0 <= i < j < |tags| && n <= j ==> tags[i].name != tags[j].name
  }

  lemma AppendNewName(t: Table, id: int, name: string, input: bool, n: nat)
    requires NewNames(t.tags, n) && n <= |t.tags|
    ensures var r := Append(t, id, name, input); r.Some? ==> NewNames(r.value.tags, n) && |t.tags| <= |r.value.tags|
  {
  }

  lemma {:induction false} ReadStreamsNames(s: string, pos: nat, end: nat, t: Table, n: nat)
    requires end <= |s| && NewNames(t.tags, n) && n <= |t.tags|
    ensures var r := ReadStreams(s, pos, end, t); r.Some? ==> NewNames(r.value.tags, n)
    decreases |s| - pos
  {
    var item := NextItem(s, pos, end);
    if item.Item? {
      var u := Append(t, item.entry.id, item.entry.name, item.entry.input);
      AppendNewName(t, item.entry.id, item.entry.name, item.entry.input, n);
      if u.Some? {
        ReadStreamsNames(s, item.next, end, u.value, n);
      }
    }
  }

  lemma ConnectKeepsTable(t: Table, payload: seq<byte>)
    requires Valid(t) && payload != []
    ensures Valid(Connect(t, payload)) && t.tags <= Connect(t, payload).tags
  {
    if Find(t.tags, payload[0]) == -1 && |t.tags| < CAPACITY {
      assert t.tags[0] == t.tags[..3][0];
      ExtendValid(t, Tag(HostName(payload[1..]), payload[0]), false);
    }
  }

  /** Both ways of adding streams keep the table valid and never touch an existing entry; a registry never uses a
      name twice, nor one that the table has. */
  lemma UpdatesKeepTable(t: Table, json: string, payload: seq<byte>)
    requires Valid(t) && payload != []
    ensures Valid(Connect(t, payload)) && t.tags <= Connect(t, payload).tags
    ensures ApplyRegistry(t, json).Some? ==>
              Valid(ApplyRegistry(t, json).value) && t.tags < ApplyRegistry(t, json).value.tags
    ensures ApplyRegistry(t, json).Some? ==> NewNames(ApplyRegistry(t, json).value.tags, |t.tags|)
  {
    ConnectKeepsTable(t, payload);
    var b := ArrayAfter(json, 0, KEY_STREAMS);
    if b.Some? {
      ReadStreamsValid(json, b.value.0 + 1, b.value.1, t);
      ReadStreamsNames(json, b.value.0 + 1, b.value.1, t, |t.tags|);
    }
  }

  // ---------------------------------------------------------------- what the loop reads, in terms of the text

  predicate KeyIn(s: string, p: nat, q: nat, key: string) {
    exists c: nat :: p <= c < q && Occurs(s, c, key)
  }

  /** The object from `p` to `q` describes `e`. Its keys must start inside it; what they mean is read from the text
      behind them. */
  ghost predicate Describes(s: string, p: nat, q: nat, e: Entry) {
    && KeyIn(s, p, q, KEY_COMPONENT) && StringValue(s, p, KEY_COMPONENT, e.name)
    && KeyIn(s, p, q, KEY_STREAM_ID) && IntValue(s, p, KEY_STREAM_ID, e.id)
    && (e.input <==>
          KeyIn(s, p, q, KEY_DIRECTION) &&
          (StringValue(s, p, KEY_DIRECTION, "input") || StringValue(s, p, KEY_DIRECTION, "bidirectional")))
  }

  lemma KeyInIff(s: string, p: nat, q: nat, key: string)
    requires p <= |s|
    ensures KeyIn(s, p, q, key) <==> KeyBefore(s, p, q, key).Some?
    ensures KeyIn(s, p, q, key) ==> KeyBefore(s, p, q, key) == StrStr(s, p, key)
  {
  }

  /** A key is found again from where it stands. */
  lemma FromKey(s: string, p: nat, c: nat, key: string)
    requires p <= |s| && StrStr(s, p, key) == Some(c)
    ensures c <= |s| && AfterColon(s, c, key) == AfterColon(s, p, key)
    ensures StringAfter(s, c, key) == StringAfter(s, p, key) && IntAfter(s, c, key) == IntAfter(s, p, key)
  {
  }

  /** The object is read exactly as what it describes. */
  lemma EntryIff(s: string, p: nat, q: nat, e: Entry)
    requires p <= |s|
    ensures ReadEntry(s, p, q) == Some(e) <==> Describes(s, p, q, e)
  {
    KeyInIff(s, p, q, KEY_COMPONENT);
    KeyInIff(s, p, q, KEY_STREAM_ID);
    KeyInIff(s, p, q, KEY_DIRECTION);
    StringIff(s, p, KEY_COMPONENT, e.name);
    IntIff(s, p, KEY_STREAM_ID, e.id);
    DirectionIff(s, p, q);
    if KeyIn(s, p, q, KEY_COMPONENT) && KeyIn(s, p, q, KEY_STREAM_ID) {
      FromKey(s, p, KeyBefore(s, p, q, KEY_COMPONENT).value, KEY_COMPONENT);
      FromKey(s, p, KeyBefore(s, p, q, KEY_STREAM_ID).value, KEY_STREAM_ID);
    }
  }

  lemma DirectionIff(s: string, p: nat, q: nat)
    requires p <= |s|
    ensures var d := KeyBefore(s, p, q, KEY_DIRECTION);
            d.Some? && InputDirection(StringAfter(s, d.value, KEY_DIRECTION)) <==>
            KeyIn(s, p, q, KEY_DIRECTION) &&
            (StringValue(s, p, KEY_DIRECTION, "input") || StringValue(s, p, KEY_DIRECTION, "bidirectional"))
  {
    KeyInIff(s, p, q, KEY_DIRECTION);
    StringIff(s, p, KEY_DIRECTION, "input");
    StringIff(s, p, KEY_DIRECTION, "bidirectional");
    if KeyIn(s, p, q, KEY_DIRECTION) {
      FromKey(s, p, KeyBefore(s, p, q, KEY_DIRECTION).value, KEY_DIRECTION);
    }
  }

  /** The first opening brace between `pos` and `end`. */
  predicate FirstBrace(s: string, pos: nat, end: nat, p: nat) {
    pos <= p < end <= |s| && s[p] == '{' && forall j :: pos <= j < p ==> s[j] != '{'
  }

  /** `q` closes the object that starts at `p`. */
  ghost predicate ObjectEnd(s: string, p: nat, q: nat) {
    Closes(s, p, q, '{', '}') && forall r :: p <= r < q ==> !Closes(s, p, r, '{', '}')
  }

  lemma BraceUnique(s: string, pos: nat, end: nat, p: nat)
    requires pos <= end <= |s|
    ensures FirstBrace(s, pos, end, p) <==> BraceBefore(s, pos, end) == p && p < end
  {
  }

  /** The loop ends exactly when no object is left. */
  lemma NoMoreIff(s: string, pos: nat, end: nat)
    requires end <= |s|
    ensures NextItem(s, pos, end) == NoMore <==> forall j :: pos <= j < end ==> s[j] != '{'
  {
  }

  /** It goes on with an entry exactly when the next object is closed and describes the entry; everything else is
      an error. */
  lemma ItemIff(s: string, pos: nat, end: nat, p: nat, e: Entry)
    requires FirstBrace(s, pos, end, p)
    ensures forall q: nat :: ObjectEnd(s, p, q) ==> (NextItem(s, pos, end) == Item(e, q + 1) <==> Describes(s, p, q, e))
    ensures (forall r :: !Closes(s, p, r, '{', '}')) ==> NextItem(s, pos, end) == Malformed
  {
    BraceUnique(s, pos, end, p);
    forall q: nat | ObjectEnd(s, p, q)
      ensures NextItem(s, pos, end) == Item(e, q + 1) <==> Describes(s, p, q, e)
    {
      MatchingUnique(s, p, Some(q), '{', '}');
      EntryIff(s, p, q, e);
    }
  }

  /** The ids both ends can use, as a set. */
  function IdsUpTo(n: nat): (s: set<int>)
    ensures forall x :: x in s <==> 0 < x <= n && ValidId(x)
  {
    set x: int | 0 < x <= n && ValidId(x)
  }

  lemma {:induction false} IdsUpToSize(n: nat)
    requires n <= 0xff
    ensures |IdsUpTo(n)| <= n && (n == 0xff ==> |IdsUpTo(n)| == 253)
    ensures |IdsUpTo(n)| == if n <= 0xfc then n else if n <= 0xfe then 0xfc else 253
  {
    if n == 0 {
      assert IdsUpTo(0) == {};
    } else {
      IdsUpToSize(n - 1);
      if ValidId(n) {
        assert IdsUpTo(n) == IdsUpTo(n - 1) + {n};
      } else {
        assert IdsUpTo(n) == IdsUpTo(n - 1);
      }
    }
  }

  ghost function Values(tags: seq<Tag>, i: nat): set<int>
    requires i <= |tags|
  {
    set j | i <= j < |tags| :: tags[j].value
  }

  lemma {:induction false} ValuesDistinct(tags: seq<Tag>, i: nat)
    requires i <= |tags| && forall j, k :: i <= j < k < |tags| ==> tags[j].value != tags[k].value
    ensures |Values(tags, i)| == |tags| - i
    decreases |tags| - i
  {
    if i == |tags| {
      assert Values(tags, i) == {};
    } else {
      ValuesDistinct(tags, i + 1);
      assert Values(tags, i) == Values(tags, i + 1) + {tags[i].value};
      assert tags[i].value !in Values(tags, i + 1);
    }
  }

  lemma SubsetSize(a: set<int>, b: set<int>)
    requires a <= b
    ensures |a| <= |b|
  {
    assert b == a + (b - a);
  }

  /** Pigeonhole: while only valid ids are registered the table holds at most 256 entries, so it is
      never full and every index fits the `unsigned char` PTY index. */
  lemma ValidIdsLeaveRoom(t: Table)
    requires Valid(t) && forall i :: 3 <= i < |t.tags| ==> ValidId(t.tags[i].value)
    ensures |t.tags| <= 256 < CAPACITY
  {
    ValuesDistinct(t.tags, 3);
    IdsUpToSize(0xff);
    SubsetSize(Values(t.tags, 3), IdsUpTo(0xff));
  }
}
