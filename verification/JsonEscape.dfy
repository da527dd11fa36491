/** String escapes of `json.dumps` (ASCII output): what any text looks like between its quotes, and when
    the printed string ends in a quoted word. */
module JsonEscape {
  import opened Bytes
  import opened Json

  function Hex(d: nat): char
    requires d < 16
  {
    (if d < 10 then 48 + d else 87 + d) as char
  }

  function UnicodeEscape(n: nat): string
    requires n < 0x10000
  {
    var m := n % 0x1000;
    var k := m % 0x100;
    ['\\', 'u', Hex(n / 0x1000), Hex(m / 0x100), Hex(k / 0x10), Hex(k % 0x10)]
  }

  /** One character: short escapes, `\uXXXX` outside printable ASCII, a surrogate pair beyond 16 bits. */
  function EscapeChar(c: char): string {
    var n := c as int;
    if Ordinary(c) then [c]
    else if c == '"' || c == '\\' then ['\\', c]
    else if c == '\n' then ['\\', 'n'] else if c == '\r' then ['\\', 'r'] else if c == '\t' then ['\\', 't']
    else if n == 8 then ['\\', 'b'] else if n == 12 then ['\\', 'f']
    else if n < 0x10000 then UnicodeEscape(n)
    else SurrogatePair(n)
  }

  function SurrogatePair(n: nat): string
    requires 0x10000 <= n < 0x110000
  {
    UnicodeEscape(0xd800 + (n - 0x10000) / 0x400) + UnicodeEscape(0xdc00 + (n - 0x10000) % 0x400)
  }

  function Escape(v: string): string {
    if v == [] then [] else Escape(v[..|v| - 1]) + EscapeChar(v[|v| - 1])
  }

  lemma {:induction false} BodyConcat(a: string, b: string)
    requires Body(a) && Body(b)
    ensures Body(a + b)
    decreases |a|
  {
    if a == [] {
      assert a + b == b;
    } else if Ordinary(a[0]) {
      assert (a + b)[1..] == a[1..] + b;
      BodyConcat(a[1..], b);
    } else {
      assert (a + b)[2..] == a[2..] + b;
      BodyConcat(a[2..], b);
    }
  }

  lemma HexPlain(d: nat)
    requires d < 16
    ensures Ordinary(Hex(d))
  {
  }

  /** A `\uXXXX` escape with its digits. */
  lemma UnicodeBlock(a: char, b: char, c: char, d: char)
    requires Ordinary(a) && Ordinary(b) && Ordinary(c) && Ordinary(d)
    ensures Body(['\\', 'u', a, b, c, d])
  {
    var e := ['\\', 'u', a, b, c, d];
    CleanBody([a, b, c, d]);
    assert e[2..] == [a, b, c, d];
  }

  lemma HexDigits(n: nat) returns (a: nat, b: nat, c: nat, d: nat)
    requires n < 0x10000
    ensures a < 16 && b < 16 && c < 16 && d < 16 && n == 0x1000 * a + 0x100 * b + 0x10 * c + d
    ensures UnicodeEscape(n) == ['\\', 'u', Hex(a), Hex(b), Hex(c), Hex(d)]
  {
    var m := n % 0x1000;
    var k := m % 0x100;
    a, b, c, d := n / 0x1000, m / 0x100, k / 0x10, k % 0x10;
  }

  lemma UnicodeBody(n: nat)
    requires n < 0x10000
    ensures Body(UnicodeEscape(n)) && |UnicodeEscape(n)| == 6 && UnicodeEscape(n)[0] == '\\' && '"' !in UnicodeEscape(n)
  {
    var a, b, c, d := HexDigits(n);
    HexPlain(a);
    HexPlain(b);
    HexPlain(c);
    HexPlain(d);
    UnicodeBlock(Hex(a), Hex(b), Hex(c), Hex(d));
  }

  /** Every escaped character is a backslash block without a quote, but for the escaped quote itself. */
  lemma EscapeCharBody(c: char)
    ensures Body(EscapeChar(c))
    ensures !Ordinary(c) ==> |EscapeChar(c)| >= 2 && EscapeChar(c)[0] == '\\'
    ensures !Ordinary(c) ==> ('"' !in EscapeChar(c) || (c == '"' && EscapeChar(c) == ['\\', '"']))
  {
    var n := c as int;
    if Ordinary(c) {
      assert [c][1..] == [];
    } else if c == '"' || c == '\\' || c == '\n' || c == '\r' || c == '\t' || n == 8 || n == 12 {
      assert |EscapeChar(c)| == 2 && EscapeChar(c)[2..] == [];
    } else if n < 0x10000 {
      UnicodeBody(n);
    } else {
      UnicodeBody(0xd800 + (n - 0x10000) / 0x400);
      UnicodeBody(0xdc00 + (n - 0x10000) % 0x400);
      BodyConcat(UnicodeEscape(0xd800 + (n - 0x10000) / 0x400), UnicodeEscape(0xdc00 + (n - 0x10000) % 0x400));
    }
  }

  /** Any text at all prints as a well-formed string body. */
  lemma {:induction false} EscapeBody(v: string)
    ensures Body(Escape(v))
  {
    if v != [] {
      EscapeBody(v[..|v| - 1]);
      EscapeCharBody(v[|v| - 1]);
      BodyConcat(Escape(v[..|v| - 1]), EscapeChar(v[|v| - 1]));
    }
  }

  /** Clean text prints as it is. */
  lemma {:induction false} EscapeClean(v: string)
    requires Clean(v)
    ensures Escape(v) == v
  {
    if v != [] {
      EscapeClean(v[..|v| - 1]);
      assert Ordinary(v[|v| - 1]);
      assert v == v[..|v| - 1] + [v[|v| - 1]];
    }
  }

  /** Only clean text prints without a backslash. */
  lemma {:induction false} EscapeShows(v: string)
    requires !Clean(v)
    ensures '\\' in Escape(v)
  {
    var init, c := v[..|v| - 1], v[|v| - 1];
    EscapeCharBody(c);
    if Ordinary(c) {
      EscapeShows(init);
    } else {
      assert Escape(v)[|Escape(init)|] == EscapeChar(c)[0];
    }
  }

  predicate Suffix(e: string, x: string) {
    |x| <= |e| && e[|e| - |x|..] == x
  }

  lemma SuffixSnoc(e: string, x: string, c: char, z: char)
    ensures Suffix(e + [c], x + [z]) <==> Suffix(e, x) && c == z
  {
    if |x| <= |e| {
      assert (e + [c])[|e| - |x|..] == e[|e| - |x|..] + [c];
      assert (e[|e| - |x|..] + [c])[..|x|] == e[|e| - |x|..] && (x + [z])[..|x|] == x;
      assert (x + [z])[|x|] == z && (e[|e| - |x|..] + [c])[|x|] == c;
    }
  }

  /** A backslash block of more than a quote cannot end in a quote and a clean word. */
  lemma BlockEnds(e: string, b: string, w: string)
    requires |b| >= 2 && b[0] == '\\' && ('"' !in b || b == ['\\', '"']) && Clean(w)
    requires w != [] || '"' !in b
    ensures !Suffix(e + b, ['"'] + w)
  {
    var n := |e| + |b| - |w| - 1;
    if 0 <= n {
      assert (e + b)[n..][0] == (e + b)[n];
      if n < |e| {
        assert (e + b)[n..][|e| - n] == b[0];
      }
    }
  }

  lemma LastPlain(e: string, v: string, c: char, w: string, z: char)
    requires Suffix(e, ['"'] + w) <==> Suffix(v, ['"'] + w)
    ensures Suffix(e + [c], ['"'] + (w + [z])) <==> Suffix(v + [c], ['"'] + (w + [z]))
  {
    assert ['"'] + (w + [z]) == (['"'] + w) + [z];
    SuffixSnoc(e, ['"'] + w, c, z);
    SuffixSnoc(v, ['"'] + w, c, z);
  }

  lemma LastQuote(v: string)
    ensures Suffix(Escape(v), ['"']) <==> Suffix(v, ['"'])
  {
    if v != [] {
      var init, c := v[..|v| - 1], v[|v| - 1];
      var e := Escape(init);
      assert v == init + [c] && Escape(v) == e + EscapeChar(c);
      EscapeCharBody(c);
      SuffixSnoc(init, [], c, '"');
      assert [] + ['"'] == ['"'];
      if c == '"' {
        assert e + ['\\', '"'] == (e + ['\\']) + ['"'];
        SuffixSnoc(e + ['\\'], [], '"', '"');
      } else if Ordinary(c) {
        SuffixSnoc(e, [], c, '"');
      } else {
        assert ['"'] + [] == ['"'];
        BlockEnds(e, EscapeChar(c), []);
      }
    }
  }

  /** An escaped text ends in a quote and a clean word exactly when the text does. */
  lemma {:induction false} EscapeSuffix(v: string, w: string)
    requires Clean(w)
    ensures Suffix(Escape(v), ['"'] + w) <==> Suffix(v, ['"'] + w)
    decreases |w|
  {
    if w == [] {
      assert ['"'] + w == ['"'];
      LastQuote(v);
    } else if v != [] {
      var init, c := v[..|v| - 1], v[|v| - 1];
      var w0, z := w[..|w| - 1], w[|w| - 1];
      assert v == init + [c] && w == w0 + [z] && Escape(v) == Escape(init) + EscapeChar(c);
      if Ordinary(c) {
        EscapeSuffix(init, w0);
        LastPlain(Escape(init), init, c, w0, z);
      } else {
        EscapeCharBody(c);
        BlockEnds(Escape(init), EscapeChar(c), w);
        LastDiffers(init, c, w0, z);
      }
    }
  }

  lemma LastDiffers(v: string, c: char, w: string, z: char)
    requires c != z
    ensures !Suffix(v + [c], ['"'] + (w + [z]))
  {
    assert ['"'] + (w + [z]) == (['"'] + w) + [z];
    SuffixSnoc(v, ['"'] + w, c, z);
  }

  /** The text is the word, or ends in a quote and the word. */
  predicate LooksLike(v: string, w: string) {
    v == w || Suffix(v, ['"'] + w)
  }

  lemma EndsLikeSuffix(e: string, w: string)
    ensures EndsLike(e, w) <==> e == w || Suffix(e, ['"'] + w)
  {
  }

  /** Of all texts exactly these print as a string that ends in the quoted word. */
  lemma EscapeLooks(v: string, w: string)
    requires Clean(w)
    ensures EndsLike(Escape(v), w) <==> LooksLike(v, w)
  {
    EscapeSuffix(v, w);
    EndsLikeSuffix(Escape(v), w);
    if Clean(v) {
      EscapeClean(v);
    } else {
      EscapeShows(v);
      assert '\\' !in w;
    }
  }

  // ---------------------------------------------------------------- reading the escapes back

  /** The UTF-16 code units of a text. */
  function Utf16(v: string): seq<nat> {
    if v == [] then [] else Utf16(v[..|v| - 1]) + UnitsOf(v[|v| - 1])
  }

  function UnitsOf(c: char): seq<nat> {
    var n := c as int;
    if n < 0x10000 then [n] else [0xd800 + (n - 0x10000) / 0x400, 0xdc00 + (n - 0x10000) % 0x400]
  }

  function HexValue(c: char): nat {
    if '0' <= c <= '9' then c as int - 48 else if 'a' <= c <= 'f' then c as int - 87 else 0
  }

  function ShortEscape(c: char): nat {
    if c == 'n' then 10 else if c == 'r' then 13 else if c == 't' then 9
    else if c == 'b' then 8 else if c == 'f' then 12 else c as int
  }

  /** The code units that a string body stands for, by section 7 of RFC 8259. */
  function Decoded(e: string): seq<nat>
    decreases |e|
  {
    if e == [] then []
    else if e[0] != '\\' then [e[0] as int] + Decoded(e[1..])
    else if |e| >= 6 && e[1] == 'u' then
      [0x1000 * HexValue(e[2]) + 0x100 * HexValue(e[3]) + 0x10 * HexValue(e[4]) + HexValue(e[5])] + Decoded(e[6..])
    else if |e| >= 2 then [ShortEscape(e[1])] + Decoded(e[2..])
    else []
  }

  lemma HexRead(d: nat)
    requires d < 16
    ensures HexValue(Hex(d)) == d
  {
  }

  lemma UnicodeDecoded(n: nat, rest: string)
    requires n < 0x10000
    ensures Decoded(UnicodeEscape(n) + rest) == [n] + Decoded(rest)
  {
    var a, b, c, d := HexDigits(n);
    HexRead(a);
    HexRead(b);
    HexRead(c);
    HexRead(d);
    var e := ['\\', 'u', Hex(a), Hex(b), Hex(c), Hex(d)] + rest;
    assert e[6..] == rest;
  }

  lemma PairDecoded(n: nat, rest: string)
    requires 0x10000 <= n < 0x110000
    ensures Decoded(SurrogatePair(n) + rest) ==
              [0xd800 + (n - 0x10000) / 0x400, 0xdc00 + (n - 0x10000) % 0x400] + Decoded(rest)
  {
    var hi, lo := (n - 0x10000) / 0x400, (n - 0x10000) % 0x400;
    var first, second := UnicodeEscape(0xd800 + hi), UnicodeEscape(0xdc00 + lo);
    UnicodeDecoded(0xd800 + hi, second + rest);
    UnicodeDecoded(0xdc00 + lo, rest);
    Regrouped(first, second, rest);
    Regrouped([0xd800 + hi], [0xdc00 + lo], Decoded(rest));
  }

  lemma PlainDecoded(c: char, rest: string)
    requires Ordinary(c)
    ensures Decoded([c] + rest) == [c as int] + Decoded(rest)
  {
    assert ([c] + rest)[1..] == rest;
  }

  predicate HasShort(c: char) {
    c == '"' || c == '\\' || c == '\n' || c == '\r' || c == '\t' || c as int == 8 || c as int == 12
  }

  lemma ShortKind(c: char) returns (x: char)
    requires HasShort(c)
    ensures EscapeChar(c) == ['\\', x] && x != 'u' && ShortEscape(x) == c as int
  {
    x := EscapeChar(c)[1];
  }

  lemma LongDecoded(c: char, rest: string)
    requires !Ordinary(c) && !HasShort(c)
    ensures Decoded(EscapeChar(c) + rest) == UnitsOf(c) + Decoded(rest)
  {
    var n := c as int;
    if n < 0x10000 {
      UnicodeDecoded(n, rest);
    } else {
      PairDecoded(n, rest);
    }
  }

  lemma CharDecoded(c: char, rest: string)
    ensures Decoded(EscapeChar(c) + rest) == UnitsOf(c) + Decoded(rest)
  {
    if Ordinary(c) {
      PlainDecoded(c, rest);
    } else if HasShort(c) {
      var x := ShortKind(c);
      ShortDecoded(x, rest);
    } else {
      LongDecoded(c, rest);
    }
  }

  lemma ShortDecoded(x: char, rest: string)
    requires x != 'u'
    ensures Decoded(['\\', x] + rest) == [ShortEscape(x)] + Decoded(rest)
  {
    assert (['\\', x] + rest)[2..] == rest;
  }

  /** Nothing is lost in printing: a JSON reader gets back exactly the text, code unit by code unit. */
  lemma {:induction false} EscapeRoundTrip(v: string)
    ensures Decoded(Escape(v)) == Utf16(v)
  {
    RoundTripOnto(v, []);
    assert Escape(v) + [] == Escape(v) && Utf16(v) + [] == Utf16(v);
  }

  lemma {:induction false} RoundTripOnto(v: string, rest: string)
    ensures Decoded(Escape(v) + rest) == Utf16(v) + Decoded(rest)
  {
    if v == [] {
      assert [] + rest == rest;
    } else {
      var init, c := v[..|v| - 1], v[|v| - 1];
      RoundTripOnto(init, EscapeChar(c) + rest);
      CharDecoded(c, rest);
      Regrouped(Escape(init), EscapeChar(c), rest);
      Regrouped(Utf16(init), UnitsOf(c), Decoded(rest));
    }
  }
}
