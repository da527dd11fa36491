/** The registry generator (tools/generate_camkes_stream_registry.py): how component instances become
    streams and which id each stream gets. */
module Generator {
  import opened Bytes

  datatype Interface = Interface(kind: string, name: string)

  /** A component instance with the console interfaces of its type. */
  datatype Component = Component(name: string, ctype: string, interfaces: seq<Interface>)

  datatype Stream = Stream(id: int, component: string, ctype: string, source: string, direction: string,
                           interfaces: seq<Interface>)

  predicate Reserved(id: nat) {
    id == 0 || id == CONTROL || id == ESC
  }

  method NextStreamId(current: nat) returns (id: nat)
    ensures current <= id && !Reserved(id) && forall k :: current <= k < id ==> Reserved(k)
  {
    id := current;
    while Reserved(id)
      invariant current <= id <= 0xff || id == current
      invariant forall k :: current <= k < id ==> Reserved(k)
      decreases 0x100 - id
    {
      id := id + 1;
    }
  }

  predicate HasKind(interfaces: seq<Interface>, kind: string) {
    exists i :: 0 <= i < |interfaces| && interfaces[i].kind == kind
  }

  function Direction(interfaces: seq<Interface>): (d: string)
    ensures d == "output" || d == "bidirectional" <==> HasKind(interfaces, "PutChar")
    ensures d == "input" || d == "bidirectional" <==> HasKind(interfaces, "GetChar")
  {
    if HasKind(interfaces, "PutChar") && HasKind(interfaces, "GetChar") then "bidirectional"
    else if HasKind(interfaces, "PutChar") then "output"
    else if HasKind(interfaces, "GetChar") then "input"
    else "none"
  }

  predicate Eligible(c: Component) {
    c.interfaces != []
  }

  /** How many of the components are eligible for a stream. */
  function Count(cs: seq<Component>): nat {
    if cs == [] then 0 else Count(cs[..|cs| - 1]) + if Eligible(cs[|cs| - 1]) then 1 else 0
  }

  /** The id of the k-th eligible component: k up to 252, then 255, then 256 and on. */
  function IdOf(k: nat): nat {
    if k <= 252 then k else k + 2
  }

  predicate DistinctNames(cs: seq<Component>) {
    forall i, j :: 0 <= i < j < |cs| ==> cs[i].name != cs[j].name
  }

  function StreamOf(c: Component, id: int): Stream {
    var source := if Eligible(c) then "component.common.c" else "none";
    Stream(id, c.name, c.ctype, source, Direction(c.interfaces), c.interfaces)
  }

  /** Every component becomes a stream in order; the k-th eligible one gets `IdOf(k)`, the others -1. */
  function Streams(cs: seq<Component>): (ss: seq<Stream>)
    ensures |ss| == |cs|
  {
    if cs == [] then [] else
    var n := |cs| - 1;
    Streams(cs[..n]) + [StreamOf(cs[n], if Eligible(cs[n]) then IdOf(Count(cs)) else -1)]
  }

  /** What becomes of the k-th component. */
  lemma {:induction false} StreamIs(cs: seq<Component>, k: nat)
    requires k < |cs|
    ensures var s, c := Streams(cs)[k], cs[k];
            && s.component == c.name && s.ctype == c.ctype && s.interfaces == c.interfaces
            && s.source == (if c.interfaces == [] then "none" else "component.common.c")
            && s.direction == Direction(c.interfaces)
            && s.id == if c.interfaces == [] then -1 else IdOf(Count(cs[..k + 1]))
  {
    var n := |cs| - 1;
    if k < n {
      StreamIs(cs[..n], k);
      assert cs[..n][..k + 1] == cs[..k + 1];
    } else {
      assert cs[..k + 1] == cs;
    }
  }

  /** Where the id search starts behind `k` eligible components. */
  function NextAfter(k: nat): nat {
    if k == 0 then 1 else IdOf(k) + 1
  }

  lemma PrefixStep(cs: seq<Component>, i: nat)
    requires i < |cs|
    ensures Count(cs[..i + 1]) == Count(cs[..i]) + if Eligible(cs[i]) then 1 else 0
    ensures Streams(cs[..i + 1]) ==
              Streams(cs[..i]) + [StreamOf(cs[i], if Eligible(cs[i]) then IdOf(Count(cs[..i]) + 1) else -1)]
  {
    assert cs[..i + 1][..i] == cs[..i];
  }

  ghost function Names(cs: seq<Component>): set<string> {
    set j | 0 <= j < |cs| :: cs[j].name
  }

  lemma NameStep(cs: seq<Component>, i: nat)
    requires i < |cs| && DistinctNames(cs[..i])
    ensures Names(cs[..i + 1]) == Names(cs[..i]) + {cs[i].name}
    ensures cs[i].name !in Names(cs[..i]) ==> DistinctNames(cs[..i + 1])
    ensures cs[i].name in Names(cs[..i]) ==> !DistinctNames(cs)
  {
    var before, after := cs[..i], cs[..i + 1];
    assert after == before + [cs[i]];
    forall name | name in Names(after)
      ensures name in Names(before) + {cs[i].name}
    {
      var j :| 0 <= j < |after| && after[j].name == name;
      assert j < i ==> before[j].name == name;
    }
    forall name | name in Names(before) + {cs[i].name}
      ensures name in Names(after)
    {
      if name in Names(before) {
        var j :| 0 <= j < |before| && before[j].name == name;
        assert after[j].name == name;
      } else {
        assert after[i].name == name;
      }
    }
    if cs[i].name in Names(before) {
      var j :| 0 <= j < |before| && before[j].name == cs[i].name;
      assert cs[j].name == cs[i].name;
    }
  }

  /** The state of the loop behind the first `i` components. */
  ghost predicate UpTo(cs: seq<Component>, i: nat, seen: set<string>, next: nat, streams: seq<Stream>)
    requires i <= |cs|
  {
    && seen == Names(cs[..i]) && DistinctNames(cs[..i])
    && next == NextAfter(Count(cs[..i])) && streams == Streams(cs[..i])
  }

  lemma OneMore(cs: seq<Component>, i: nat, seen: set<string>, next: nat, streams: seq<Stream>, id: int, next': nat)
    requires i < |cs| && UpTo(cs, i, seen, next, streams) && cs[i].name !in seen
    requires id == if Eligible(cs[i]) then IdOf(Count(cs[..i]) + 1) else -1
    requires next' == NextAfter(if Eligible(cs[i]) then Count(cs[..i]) + 1 else Count(cs[..i]))
    ensures UpTo(cs, i + 1, seen + {cs[i].name}, next', streams + [StreamOf(cs[i], id)])
  {
    NameStep(cs, i);
    PrefixStep(cs, i);
  }

  /** `_component_instances`: None for a duplicate name or no component at all. */
  method ComponentInstances(cs: seq<Component>) returns (r: Option<seq<Stream>>)
    ensures r.Some? <==> cs != [] && DistinctNames(cs)
    ensures r.Some? ==> r.value == Streams(cs)
  {
    var seen: set<string> := {};
    var next := 1;
    var streams := [];
    for i := 0 to |cs|
      invariant UpTo(cs, i, seen, next, streams)
    {
      if cs[i].name in seen {
        NameStep(cs, i);
        return None;
      }
      var id, next' := AssignId(cs[i], next, Count(cs[..i]));
      OneMore(cs, i, seen, next, streams, id, next');
      seen, next := seen + {cs[i].name}, next';
      streams := streams + [StreamOf(cs[i], id)];
    }
    assert cs[..|cs|] == cs;
    if streams == [] {
      return None;
    }
    return Some(streams);
  }

  method AssignId(c: Component, next: nat, ghost k: nat) returns (id: int, next': nat)
    requires next == NextAfter(k)
    ensures id == if Eligible(c) then IdOf(k + 1) else -1
    ensures next' == NextAfter(if Eligible(c) then k + 1 else k)
  {
    id, next' := -1, next;
    if c.interfaces != [] {
      var found := NextStreamId(next);
      NextId(next, found, k);
      id, next' := found, found + 1;
    }
  }

  /** The search for the next free id lands on `IdOf` of the next rank. */
  lemma NextId(next: nat, id: nat, k: nat)
    requires next == NextAfter(k)
    requires next <= id && !Reserved(id) && forall j :: next <= j < id ==> Reserved(j)
    ensures id == IdOf(k + 1)
  {
    assert next <= IdOf(k + 1) && !Reserved(IdOf(k + 1));
    assert k == 252 ==> next == 0xfd && Reserved(0xfd) && Reserved(0xfe);
  }

  /** Ids are distinct, positive, and never one of the two protocol bytes. */
  lemma IdsDistinct(j: nat, k: nat)
    requires 0 < j < k
    ensures 0 < IdOf(j) < IdOf(k) && !Reserved(IdOf(j))
    ensures ValidId(IdOf(j)) <==> j <= 253
  {
  }
}
