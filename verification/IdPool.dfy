/** The stream-id allocator of linux/virtioso-muxd. */
module IdPool {
  import opened Bytes

  /** `next` cycles through 1..255; slots 0, 0xfd and 0xfe are marked used for ever. */
  datatype Pool = Pool(next: nat, used: seq<bool>)

  ghost predicate PoolOk(p: Pool) {
    |p.used| == 256 && 1 <= p.next <= 255 && p.used[0] && p.used[CONTROL] && p.used[ESC]
  }

  /** The k-th id from `next` on, counting round the 255 nonzero values. */
  function Cyc(next: nat, k: nat): (id: nat)
    requires 1 <= next <= 255 && k <= 255
    ensures 1 <= id <= 255
  {
    if next + k <= 255 then next + k else next + k - 255
  }

  /** How many steps `id` lies behind `next`, going round. */
  function Dist(next: nat, id: nat): (k: nat)
    requires 1 <= next <= 255 && 1 <= id <= 255
    ensures k < 255 && Cyc(next, k) == id
  {
    if id >= next then id - next else id + 255 - next
  }

  /** The least distance from `k` on whose slot is free; 255 when there is none. */
  function FirstFree(p: Pool, k: nat): (r: nat)
    requires |p.used| == 256 && 1 <= p.next <= 255 && k <= 255
    ensures k <= r <= 255 && (r < 255 ==> !p.used[Cyc(p.next, r)])
    ensures forall j :: k <= j < r ==> p.used[Cyc(p.next, j)]
    decreases 255 - k
  {
    if k == 255 || !p.used[Cyc(p.next, k)] then k else FirstFree(p, k + 1)
  }

  function Alloc(p: Pool): (Pool, byte)
    requires |p.used| == 256 && 1 <= p.next <= 255
  {
    var k := FirstFree(p, 0);
    if k == 255 then (p, 0)
    else (Pool(Cyc(p.next, k + 1), p.used[Cyc(p.next, k) := true]), Cyc(p.next, k))
  }

  function Free(p: Pool, id: byte): Pool
    requires |p.used| == 256
  {
    if id == 0 || id == CONTROL || id == ESC then p else p.(used := p.used[id := false])
  }

  const EMPTY := Pool(1, seq(256, i => i == 0 || i == CONTROL || i == ESC))

  /** Exactness: 0 exactly when all 253 allocatable ids are live; otherwise a valid id that is not live,
      the nearest such id from `next` on, and the next search starts behind it. */
  lemma AllocExact(p: Pool)
    requires PoolOk(p)
    ensures var (q, id) := Alloc(p);
            && PoolOk(q)
            && (id == 0 <==> forall v: byte :: ValidId(v) ==> p.used[v])
            && (id == 0 ==> q == p) && (id != 0 ==> q.next == Successor(id))
            && (id != 0 ==> ValidId(id) && !p.used[id] && q.used == p.used[id := true])
            && (id != 0 ==> forall v: byte :: ValidId(v) && !p.used[v] ==> Dist(p.next, id) <= Dist(p.next, v))
  {
    var k := FirstFree(p, 0);
    forall v: byte | ValidId(v) && !p.used[v]
      ensures k <= Dist(p.next, v)
    {
      assert Cyc(p.next, Dist(p.next, v)) == v;
    }
    if k < 255 {
      CycInjective(p.next, k, Dist(p.next, Cyc(p.next, k)));
      CycNext(p.next, k);
    }
  }

  /** Freeing makes exactly the given id allocatable. */
  lemma FreeExact(p: Pool, id: byte)
    requires PoolOk(p)
    ensures var q := Free(p, id);
            && PoolOk(q) && q.next == p.next
            && (forall v: byte :: ValidId(v) ==> (q.used[v] <==> p.used[v] && v != id))
            && (forall v: byte :: !ValidId(v) ==> q.used[v] == p.used[v])
  {
  }

  lemma CycInjective(next: nat, j: nat, k: nat)
    requires 1 <= next <= 255 && j < 255 && k < 255 && Cyc(next, j) == Cyc(next, k)
    ensures j == k
  {
  }

  lemma CycNext(next: nat, k: nat)
    requires 1 <= next <= 255 && k < 255
    ensures Cyc(next, k + 1) == Successor(Cyc(next, k))
    ensures Cyc(next, k + 1) == next <==> k == 254
  {
  }

  lemma FirstFreeIs(p: Pool, j: nat, k: nat)
    requires |p.used| == 256 && 1 <= p.next <= 255 && j <= k <= 255
    requires forall i :: j <= i < k ==> p.used[Cyc(p.next, i)]
    requires k < 255 ==> !p.used[Cyc(p.next, k)]
    ensures FirstFree(p, j) == k
    decreases k - j
  {
    if j < k {
      assert p.used[Cyc(p.next, j)];
      FirstFreeIs(p, j + 1, k);
    }
  }

  function Successor(id: nat): nat {
    if id == 255 then 1 else id + 1
  }

  /** The allocator as the daemon runs it: `next` is a `u8` and wraps. */
  class Allocator {
    var next: nat
    var used: array<bool>

    ghost function Now(): Pool
      reads this, used
    {
      Pool(next, used[..])
    }

    constructor ()
      ensures Now() == EMPTY && PoolOk(Now()) && fresh(used)
    {
      var a := new bool[256](i => false);
      a[0], a[CONTROL], a[ESC] := true, true, true;
      next, used := 1, a;
      new;
      assert used[..] == EMPTY.used;
    }

    method Allocate() returns (id: byte)
      requires PoolOk(Now())
      modifies this`next, used
      ensures (Now(), id) == Alloc(old(Now()))
      ensures PoolOk(Now())
    {
      AllocExact(Now());
      ghost var k;
      id, k := Search();
      FirstFreeIs(old(Now()), 0, k);
    }

    /** The search loop, which takes `k` steps in vain; it gives up when `next` is back where it was. */
    method Search() returns (id: byte, ghost k: nat)
      requires used.Length == 256 && 1 <= next <= 255
      modifies this`next, used
      ensures k <= 255 && forall i :: 0 <= i < k ==> old(used[..])[Cyc(old(next), i)]
      ensures k == 255 ==> id == 0 && next == old(next) && used[..] == old(used[..])
      ensures k < 255 ==> id == Cyc(old(next), k) && next == Cyc(old(next), k + 1) && !old(used[..])[id] &&
                          used[..] == old(used[..])[id := true]
    {
      var start := next;
      k := 0;
      assert Cyc(start, 0) == start;
      while true
        invariant k < 255 && next == Cyc(start, k) && used[..] == old(used[..])
        invariant forall i :: 0 <= i < k ==> old(used[..])[Cyc(start, i)]
        decreases 255 - k
      {
        CycNext(start, k);
        id := next;
        next := NextU8(next);
        if !used[id] {
          used[id] := true;
          return;
        }
        assert old(used[..])[Cyc(start, k)];
        k := k + 1;
        if next == start {
          return 0, k;
        }
      }
    }

    /** `wrapping_add(1)` on a `u8`, with 0 skipped. */
    static method NextU8(x: nat) returns (y: nat)
      requires 1 <= x <= 255
      ensures y == Successor(x)
    {
      y := (x + 1) % 256;
      if y == 0 {
        y := 1;
      }
    }

    /** A usable id is free afterwards; the reserved ids, every other slot and `next` stay as they are. */
    method Release(id: byte)
      requires PoolOk(Now())
      modifies used
      ensures Now() == Free(old(Now()), id) && PoolOk(Now())
      ensures ValidId(id) ==> !used[id]
      ensures next == old(next) && forall v :: 0 <= v < 256 && (v != id || !ValidId(v)) ==> used[v] == old(used[v])
    {
      if id != 0 && id != CONTROL && id != ESC {
        used[id] := false;
        assert used[..] == old(used[..])[id := false];
      }
    }
  }
}
