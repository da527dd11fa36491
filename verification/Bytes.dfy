/** Bytes, the VCMux protocol constants and the few sequence helpers every other module shares. */
module Bytes {

  type byte = x: int | 0 <= x < 0x100

  datatype Option<+T> = None | Some(value: T)

  // VCMux framing bytes (host/uart-proto.h).
  const ESC: byte := 0xfe
  const DEFAULT: byte := 0x00
  const CONTROL: byte := 0xfd

  // VCMux control commands.
  const CONNECTED: byte := 0x01
  const REGISTRY: byte := 0x02
  const ACK: byte := 0x03
  const DISCONNECTED: byte := 0x04

  /** The identifiers both sides of the link can use: everything but 0, 0xfd and 0xfe. */
  predicate ValidId(id: int) {
    0 < id <= 0xff && id != ESC && id != CONTROL
  }

  /** The 16-bit length of a control record. */
  function Word(hi: byte, lo: byte): (n: nat)
    ensures n <= 0xffff && (n == 0 <==> hi == 0 == lo)
  {
    hi * 0x100 + lo as nat
  }

  lemma FrontAndLast<T>(s: seq<T>)
    requires s != []
    ensures s[..|s| - 1] + [s[|s| - 1]] == s
  {
  }

  lemma Regrouped<T>(a: seq<T>, b: seq<T>, c: seq<T>)
    ensures a + b + c == a + (b + c)
  {
  }

  function Flatten<T>(ss: seq<seq<T>>): seq<T> {
    if ss == [] then [] else ss[0] + Flatten(ss[1..])
  }

  lemma {:induction false} FlattenConcat<T>(a: seq<seq<T>>, b: seq<seq<T>>)
    ensures Flatten(a + b) == Flatten(a) + Flatten(b)
  {
    if a == [] {
      assert a + b == b;
    } else {
      assert (a + b)[1..] == a[1..] + b;
      FlattenConcat(a[1..], b);
    }
  }

  lemma FlattenSnoc<T>(a: seq<seq<T>>, x: seq<T>)
    ensures Flatten(a + [x]) == Flatten(a) + x
  {
    FlattenConcat(a, [x]);
    assert Flatten([x]) == x + Flatten<T>([x][1..]);
  }

  /** The bytes of `bs` other than `x`, in order. */
  function Without(bs: seq<byte>, x: byte): seq<byte> {
    if bs == [] then [] else (if bs[0] == x then [] else [bs[0]]) + Without(bs[1..], x)
  }

  lemma {:induction false} WithoutConcat(a: seq<byte>, b: seq<byte>, x: byte)
    ensures Without(a + b, x) == Without(a, x) + Without(b, x)
  {
    if a == [] {
      assert a + b == b;
    } else {
      assert (a + b)[1..] == a[1..] + b;
      WithoutConcat(a[1..], b, x);
    }
  }

  /** The characters of a byte string. */
  function Text(bs: seq<byte>): (s: string)
    ensures |s| == |bs|
    ensures forall i :: 0 <= i < |s| ==> s[i] as int == bs[i]
  {
    seq(|bs|, i requires 0 <= i < |bs| => bs[i] as char)
  }

  predicate Latin(s: string) {
    forall i :: 0 <= i < |s| ==> s[i] as int < 0x100
  }

  /** The bytes of a string whose characters all fit one byte. */
  function Codes(s: string): (bs: seq<byte>)
    requires Latin(s)
    ensures |bs| == |s|
    ensures Text(bs) == s
  {
    seq(|s|, i requires 0 <= i < |s| => s[i] as int)
  }

  /** What a C string function sees of a buffer: everything before the first NUL. */
  function CStr(s: string): (r: string)
    ensures r <= s && '\0' !in r
    ensures |r| < |s| ==> s[|r|] == '\0'
  {
    if s == [] || s[0] == '\0' then [] else [s[0]] + CStr(s[1..])
  }
}
