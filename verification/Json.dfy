/** The JSON text the registry generator prints (`json.dumps` with sorted keys), and how the host's
    scanners move over such text. */
module Json {
  import opened Bytes
  import opened JsonScan

  /** A string is held as it is printed between its quotes, escapes included. */
  datatype Json = Str(s: string) | Num(n: int) | Arr(items: Items) | Obj(fields: Fields)
  datatype Items = Nil | Cons(head: Json, tail: Items)
  datatype Fields = End | Field(key: string, value: Json, rest: Fields)

  /** Text that `json.dumps` prints as it is. */
  predicate Clean(w: string) {
    forall i :: 0 <= i < |w| ==> ' ' <= w[i] <= '~' && w[i] != '"' && w[i] != '\\'
  }

  predicate Ordinary(c: char) {
    ' ' <= c <= '~' && c != '"' && c != '\\'
  }

  /** What can stand between the quotes of a printed string: plain characters and backslash pairs. */
  predicate Body(e: string)
    decreases |e|
  {
    e == [] || (Ordinary(e[0]) && Body(e[1..])) || (e[0] == '\\' && |e| >= 2 && ' ' <= e[1] <= '~' && Body(e[2..]))
  }

  /** The printed string `"e"` ends in the quoted word: it is the word, or an escaped quote stands in front of it. */
  predicate EndsLike(e: string, w: string) {
    e == w || (|e| > |w| && e[|e| - |w| - 1..] == ['"'] + w)
  }

  function Quoted(w: string): string {
    ['"'] + w + ['"']
  }

  function DigitChar(d: nat): char
    requires d < 10
  {
    (48 + d) as char
  }

  function Decimal(n: nat): string {
    (if n < 10 then [] else Decimal(n / 10)) + [DigitChar(n % 10)]
  }

  function Signed(n: int): string {
    if n < 0 then ['-'] + Decimal(-n) else Decimal(n)
  }

  function Dumps(j: Json): string
    decreases j, 0
  {
    match j
    case Str(w) => Quoted(w)
    case Num(n) => Signed(n)
    case Arr(items) => ['['] + DumpItems(items) + [']']
    case Obj(fields) => ['{'] + DumpFields(fields) + ['}']
  }

  function DumpItems(items: Items): string
    decreases items, 1
  {
    match items
    case Nil => []
    case Cons(h, t) => Dumps(h) + if t.Nil? then [] else ", " + DumpItems(t)
  }

  function DumpFields(fields: Fields): string
    decreases fields, 1
  {
    match fields
    case End => []
    case Field(k, v, rest) => (Quoted(k) + ": " + Dumps(v)) + if rest.End? then [] else ", " + DumpFields(rest)
  }

  /** What `json.dumps` prints for a list, and for an object. */
  lemma ListLooks()
    ensures Dumps(Arr(Cons(Str("x"), Cons(Num(10), Nil)))) == "[\"x\", 10]"
  {
    assert DumpItems(Cons(Num(10), Nil)) == Decimal(10) == ['1', '0'];
    assert DumpItems(Cons(Str("x"), Cons(Num(10), Nil))) == Quoted("x") + (", " + "10");
  }

  lemma ObjectLooks()
    ensures Dumps(Obj(Field("a", Num(-1), End))) == "{\"a\": -1}"
  {
    assert Decimal(1) == ['1'] && Signed(-1) == "-1";
    assert DumpFields(Field("a", Num(-1), End)) == "\"a\": -1";
  }

  predicate CleanJson(j: Json)
    decreases j, 0
  {
    match j
    case Str(w) => Body(w)
    case Num(_) => true
    case Arr(items) => CleanItems(items)
    case Obj(fields) => CleanFields(fields)
  }

  predicate CleanItems(items: Items)
    decreases items, 1
  {
    items.Nil? || (CleanJson(items.head) && CleanItems(items.tail))
  }

  predicate CleanFields(fields: Fields)
    decreases fields, 1
  {
    fields.End? || (Clean(fields.key) && CleanJson(fields.value) && CleanFields(fields.rest))
  }

  /** The quoted word does not occur in the printed value, neither as a string nor as a key. */
  predicate Avoids(j: Json, w: string)
    decreases j, 0
  {
    match j
    case Str(v) => !EndsLike(v, w)
    case Num(_) => true
    case Arr(items) => ItemsAvoid(items, w)
    case Obj(fields) => FieldsAvoid(fields, w)
  }

  predicate ItemsAvoid(items: Items, w: string)
    decreases items, 1
  {
    items.Nil? || (Avoids(items.head, w) && ItemsAvoid(items.tail, w))
  }

  predicate FieldsAvoid(fields: Fields, w: string)
    decreases fields, 1
  {
    fields.End? || (fields.key != w && Avoids(fields.value, w) && FieldsAvoid(fields.rest, w))
  }

  // ---------------------------------------------------------------- numbers

  predicate Digits(ds: string) {
    forall i :: 0 <= i < |ds| ==> Digit(ds[i])
  }

  lemma DigitSnoc(ds: string, d: nat)
    requires Digits(ds) && d < 10
    ensures Digits(ds + [DigitChar(d)]) && Value(ds + [DigitChar(d)]) == 10 * Value(ds) + d
  {
    ValueSnoc(ds, DigitChar(d));
  }

  /** A number in front of its last digit, and the digit. */
  lemma LastDigit(n: nat) returns (q: nat, d: nat)
    ensures d < 10 && n == 10 * q + d && (q < n || n == 0) && (n < 10 <==> q == 0)
    ensures Decimal(n) == (if n < 10 then [] else Decimal(q)) + [DigitChar(d)]
  {
    q, d := n / 10, n % 10;
  }

  lemma {:induction false} DecimalDigits(n: nat)
    ensures Decimal(n) != [] && Digits(Decimal(n)) && Value(Decimal(n)) == n
  {
    var q, d := LastDigit(n);
    if n >= 10 {
      DecimalDigits(q);
      DigitSnoc(Decimal(q), d);
    } else {
      DigitSnoc([], d);
    }
  }

  lemma {:induction false} DigitsEndAt(s: string, i: nat, e: nat)
    requires i <= e <= |s| && (forall j :: i <= j < e ==> Digit(s[j])) && (e < |s| ==> !Digit(s[e]))
    ensures DigitsEnd(s, i) == e
    decreases e - i
  {
    if i < e {
      DigitsEndAt(s, i + 1, e);
    }
  }

  // ---------------------------------------------------------------- strstr over printed text

  /** `t` stands in `s` at `i`. */
  predicate At(s: string, i: nat, t: string) {
    i + |t| <= |s| && s[i..i + |t|] == t
  }

  lemma AtConcat(s: string, i: nat, a: string, b: string)
    requires At(s, i, a + b)
    ensures At(s, i, a) && At(s, i + |a|, b)
  {
    assert s[i..i + |a|] == (a + b)[..|a|];
    assert s[i + |a|..i + |a| + |b|] == (a + b)[|a|..];
  }

  /** The same with the positions named. */
  lemma AtSplit(s: string, i: nat, m: nat, e: nat, a: string, b: string)
    requires At(s, i, a + b) && m == i + |a| && e == m + |b|
    ensures At(s, i, a) && At(s, m, b) && e <= |s|
  {
    AtConcat(s, i, a, b);
  }

  lemma AtChar(s: string, i: nat, t: string, k: nat)
    requires At(s, i, t) && k < |t|
    ensures s[i + k] == t[k]
  {
    assert s[i..i + |t|][k] == s[i + k];
  }

  /** A key the scanners look for: a nonempty clean word that starts with a letter. */
  predicate Key(w: string) {
    w != [] && Clean(w) && 'a' <= w[0] <= 'z'
  }

  lemma SkipOne(s: string, i: nat, w: string)
    requires i < |s| && !Occurs(s, i, Quoted(w))
    ensures StrStr(s, i, Quoted(w)) == StrStr(s, i + 1, Quoted(w))
  {
  }

  lemma {:induction false} SkipPlain(s: string, i: nat, e: nat, w: string)
    requires i <= e <= |s| && forall j :: i <= j < e ==> s[j] != '"'
    ensures StrStr(s, i, Quoted(w)) == StrStr(s, e, Quoted(w))
    decreases e - i
  {
    if i < e {
      if Occurs(s, i, Quoted(w)) {
        AtChar(s, i, Quoted(w), 0);
        assert false;
      }
      SkipOne(s, i, w);
      SkipPlain(s, i + 1, e, w);
    }
  }

  /** Looking for `w`, `strstr` passes over `t` wherever it stands in front of something that is not the
      first letter of `w`. */
  ghost predicate Passes(t: string, w: string)
    requires w != []
  {
    forall s: string, i: nat :: At(s, i, t) && i + |t| < |s| && s[i + |t|] != w[0] ==>
      StrStr(s, i, Quoted(w)) == StrStr(s, i + |t|, Quoted(w))
  }

  predicate Letter(c: char) {
    'a' <= c <= 'z'
  }

  lemma PassPlain(t: string, w: string)
    requires Key(w) && forall i :: 0 <= i < |t| ==> t[i] != '"'
    ensures Passes(t, w)
  {
    forall s: string, i: nat | At(s, i, t)
      ensures StrStr(s, i, Quoted(w)) == StrStr(s, i + |t|, Quoted(w))
    {
      forall j | i <= j < i + |t|
        ensures s[j] != '"'
      {
        AtChar(s, i, t, j - i);
      }
      SkipPlain(s, i, i + |t|, w);
    }
  }

  lemma {:induction false} CleanBody(w: string)
    requires Clean(w)
    ensures Body(w)
    decreases |w|
  {
    if w != [] {
      CleanBody(w[1..]);
    }
  }

  /** In clean text there is no escaped quote to end on. */
  lemma CleanEnds(v: string, w: string)
    requires Clean(v)
    ensures EndsLike(v, w) == (v == w)
  {
    if |v| > |w| {
      assert v[|v| - |w| - 1..][0] == v[|v| - |w| - 1];
    }
  }

  lemma CleanString(v: string, w: string)
    requires Clean(v)
    ensures CleanJson(Str(v)) && Avoids(Str(v), w) == (v != w)
  {
    CleanBody(v);
    CleanEnds(v, w);
  }

  /** A quote inside a printed string stands behind a backslash. */
  lemma {:induction false} QuoteEscaped(e: string, k: nat)
    requires Body(e) && k < |e| && e[k] == '"'
    ensures k > 0 && e[k - 1] == '\\'
    decreases |e|
  {
    if Ordinary(e[0]) {
      QuoteEscaped(e[1..], k - 1);
    } else if k >= 2 {
      QuoteEscaped(e[2..], k - 2);
    }
  }

  /** Where the quoted word stands in `s`. */
  lemma OccursAt(s: string, j: nat, w: string, t: nat)
    requires Occurs(s, j, Quoted(w)) && t < |w|
    ensures j + |w| + 1 < |s| && s[j] == '"' && s[j + 1 + t] == w[t] && s[j + |w| + 1] == '"'
  {
    AtChar(s, j, Quoted(w), 0);
    AtChar(s, j, Quoted(w), t + 1);
    AtChar(s, j, Quoted(w), |w| + 1);
  }

  /** The quoted word cannot end inside a printed string. */
  lemma EndsInside(s: string, i: nat, e: nat, v: string, w: string, j: nat)
    requires At(s, i, Quoted(v)) && Body(v) && Key(w) && e == i + 1 + |v| && i <= j && j + |w| + 1 < e
    ensures !Occurs(s, j, Quoted(w))
  {
    if Occurs(s, j, Quoted(w)) {
      var k := j + |w| - i;
      OccursAt(s, j, w, |w| - 1);
      BodyChar(s, i, v, k - 1);
      BodyChar(s, i, v, k);
      QuoteEscaped(v, k);
      assert false;
    }
  }

  lemma BodyChar(s: string, i: nat, v: string, k: nat)
    requires At(s, i, Quoted(v)) && k < |v|
    ensures i + 1 + k < |s| && s[i + 1 + k] == v[k]
  {
    AtChar(s, i, Quoted(v), k + 1);
  }

  /** Nor reach over its closing quote. */
  lemma ReachesOver(s: string, i: nat, e: nat, v: string, w: string, j: nat)
    requires At(s, i, Quoted(v)) && Key(w) && e == i + 1 + |v| && i <= j < e && e < j + |w| + 1
    ensures !Occurs(s, j, Quoted(w))
  {
    if Occurs(s, j, Quoted(w)) {
      OccursAt(s, j, w, e - j - 1);
      AtChar(s, i, Quoted(v), |v| + 1);
      assert false;
    }
  }

  /** It ends with the string only if the string ends in it. */
  lemma EndsTogether(s: string, i: nat, e: nat, v: string, w: string, j: nat)
    requires At(s, i, Quoted(v)) && Key(w) && e == i + 1 + |v| && i <= j && j + |w| + 1 == e
    ensures Occurs(s, j, Quoted(w)) ==> EndsLike(v, w)
  {
    if Occurs(s, j, Quoted(w)) {
      var n := |v| - |w|;
      forall t | 0 <= t < |w|
        ensures v[n + t] == w[t]
      {
        OccursAt(s, j, w, t);
        BodyChar(s, i, v, n + t);
      }
      if n > 0 {
        OccursAt(s, j, w, 0);
        BodyChar(s, i, v, n - 1);
        assert v[n - 1..] == ['"'] + w;
      } else {
        assert v == w;
      }
    }
  }

  lemma {:induction false} SkipRange(s: string, i: nat, e: nat, w: string)
    requires i <= e <= |s| && forall j :: i <= j < e ==> !Occurs(s, j, Quoted(w))
    ensures StrStr(s, i, Quoted(w)) == StrStr(s, e, Quoted(w))
    decreases e - i
  {
    if i < e {
      SkipOne(s, i, w);
      SkipRange(s, i + 1, e, w);
    }
  }

  /** A printed string that does not end in the word looked for. */
  lemma PassWord(v: string, w: string)
    requires Body(v) && Key(w) && !EndsLike(v, w)
    ensures Passes(Quoted(v), w)
  {
    forall s: string, i: nat | At(s, i, Quoted(v)) && i + |v| + 2 < |s| && s[i + |v| + 2] != w[0]
      ensures StrStr(s, i, Quoted(w)) == StrStr(s, i + |v| + 2, Quoted(w))
    {
      SkipBody(s, i, i + 1 + |v|, v, w);
    }
  }

  lemma SkipBody(s: string, i: nat, e: nat, v: string, w: string)
    requires At(s, i, Quoted(v)) && Body(v) && Key(w) && !EndsLike(v, w)
    requires e == i + 1 + |v| && e + 1 < |s| && s[e + 1] != w[0]
    ensures StrStr(s, i, Quoted(w)) == StrStr(s, e + 1, Quoted(w))
  {
    forall j | i <= j < e
      ensures !Occurs(s, j, Quoted(w))
    {
      if j + |w| + 1 < e {
        EndsInside(s, i, e, v, w, j);
      } else if j + |w| + 1 == e {
        EndsTogether(s, i, e, v, w, j);
      } else {
        ReachesOver(s, i, e, v, w, j);
      }
    }
    SkipRange(s, i, e, w);
    NoMatchAt(s, e, w);
    SkipOne(s, e, w);
  }

  /** No match at the closing quote of another word. */
  lemma NoMatchAt(s: string, e: nat, w: string)
    requires Key(w) && e + 1 < |s| && s[e + 1] != w[0]
    ensures !Occurs(s, e, Quoted(w))
  {
    if Occurs(s, e, Quoted(w)) {
      AtChar(s, e, Quoted(w), 1);
      assert false;
    }
  }

  lemma SkipWord(s: string, i: nat, v: string, w: string)
    requires At(s, i, Quoted(v)) && Clean(v) && Key(w) && v != w
    requires i + |v| + 2 < |s| && s[i + |v| + 2] != w[0]
    ensures StrStr(s, i, Quoted(w)) == StrStr(s, i + |v| + 2, Quoted(w))
  {
    CleanString(v, w);
    SkipBody(s, i, i + 1 + |v|, v, w);
  }

  lemma PassConcat(a: string, b: string, w: string)
    requires Key(w) && Passes(a, w) && Passes(b, w) && (b != [] ==> !Letter(b[0]))
    ensures Passes(a + b, w)
  {
    if b == [] {
      assert a + b == a;
    } else {
      forall s: string, i: nat | At(s, i, a + b) && i + |a + b| < |s| && s[i + |a + b|] != w[0]
        ensures StrStr(s, i, Quoted(w)) == StrStr(s, i + |a + b|, Quoted(w))
      {
        AtConcat(s, i, a, b);
        AtChar(s, i + |a|, b, 0);
        assert At(s, i, a) && At(s, i + |a|, b);
      }
    }
  }

  lemma SignedPlain(n: int)
    ensures Signed(n) != [] && forall i :: 0 <= i < |Signed(n)| ==> Signed(n)[i] == '-' || Digit(Signed(n)[i])
  {
    if n < 0 {
      DecimalDigits(-n);
    } else {
      DecimalDigits(n);
    }
  }

  lemma DumpsStart(j: Json)
    ensures Dumps(j) != [] && !Letter(Dumps(j)[0])
  {
    if j.Num? {
      SignedPlain(j.n);
    }
  }

  /** `strstr` passes over any printed value the word does not occur in. */
  lemma {:induction false} PassJson(j: Json, w: string)
    requires CleanJson(j) && Avoids(j, w) && Key(w)
    ensures Passes(Dumps(j), w)
    decreases j, 0
  {
    match j
    case Str(v) => PassWord(v, w);
    case Num(n) =>
      SignedPlain(n);
      PassPlain(Signed(n), w);
    case Arr(items) =>
      PassItems(items, w);
      PassBracketed(DumpItems(items), '[', ']', w);
    case Obj(fields) =>
      PassFields(fields, w);
      PassBracketed(DumpFields(fields), '{', '}', w);
  }

  lemma PassBracketed(t: string, a: char, b: char, w: string)
    requires Key(w) && Passes(t, w) && Brackets(a, b) && (t != [] ==> !Letter(t[0]))
    ensures Passes([a] + t + [b], w)
  {
    PassPlain([a], w);
    PassPlain([b], w);
    PassConcat([a], t, w);
    PassConcat([a] + t, [b], w);
  }

  lemma {:induction false} PassItems(items: Items, w: string)
    requires CleanItems(items) && ItemsAvoid(items, w) && Key(w)
    ensures Passes(DumpItems(items), w) && (DumpItems(items) != [] ==> !Letter(DumpItems(items)[0]))
    decreases items, 1
  {
    PassPlain([], w);
    if items.Cons? {
      DumpsStart(items.head);
      PassJson(items.head, w);
      if items.tail.Nil? {
        assert Dumps(items.head) + [] == Dumps(items.head);
      } else {
        PassItems(items.tail, w);
        PassPlain(", ", w);
        PassConcat(", ", DumpItems(items.tail), w);
        PassConcat(Dumps(items.head), ", " + DumpItems(items.tail), w);
      }
    }
  }

  /** One `"key": value` pair. */
  function Pair(key: string, v: Json): string {
    Quoted(key) + ": " + Dumps(v)
  }

  lemma {:induction false} PassPair(key: string, v: Json, w: string)
    requires Clean(key) && key != w && CleanJson(v) && Avoids(v, w) && Key(w)
    ensures Passes(Pair(key, v), w)
    decreases v, 1
  {
    CleanString(key, w);
    PassWord(key, w);
    PassPlain(": ", w);
    DumpsStart(v);
    PassJson(v, w);
    PassConcat(Quoted(key), ": ", w);
    PassConcat(Quoted(key) + ": ", Dumps(v), w);
  }

  lemma {:induction false} PassFields(fields: Fields, w: string)
    requires CleanFields(fields) && FieldsAvoid(fields, w) && Key(w)
    ensures Passes(DumpFields(fields), w) && (DumpFields(fields) != [] ==> !Letter(DumpFields(fields)[0]))
    decreases fields, 1
  {
    PassPlain([], w);
    if fields.Field? {
      var t := Pair(fields.key, fields.value);
      PassPair(fields.key, fields.value, w);
      if fields.rest.End? {
        assert t + [] == t;
      } else {
        PassFields(fields.rest, w);
        PassPlain(", ", w);
        PassConcat(", ", DumpFields(fields.rest), w);
        PassConcat(t, ", " + DumpFields(fields.rest), w);
      }
    }
  }

  // ---------------------------------------------------------------- bracket levels over printed text

  /** Scanning `t` from outside a string comes back outside at the same depth and never drops below it. */
  ghost predicate Level(t: string, open: char, close: char) {
    forall d: int :: ScanOver(Scan(false, false, d), t, open, close) == Scan(false, false, d) &&
                     forall n :: 0 <= n <= |t| ==> ScanOver(Scan(false, false, d), t[..n], open, close).depth >= d
  }

  predicate Brackets(open: char, close: char) {
    (open == '{' && close == '}') || (open == '[' && close == ']')
  }

  lemma {:induction false} ScanConcat(st: Scan, a: string, b: string, open: char, close: char)
    ensures ScanOver(st, a + b, open, close) == ScanOver(ScanOver(st, a, open, close), b, open, close)
    decreases |b|
  {
    if b == [] {
      assert a + b == a;
    } else {
      assert (a + b)[..|a + b| - 1] == a + b[..|b| - 1];
      ScanConcat(st, a, b[..|b| - 1], open, close);
    }
  }

  lemma LevelConcat(a: string, b: string, open: char, close: char)
    requires Level(a, open, close) && Level(b, open, close)
    ensures Level(a + b, open, close)
  {
    forall d: int
      ensures ScanOver(Scan(false, false, d), a + b, open, close) == Scan(false, false, d)
      ensures forall n :: 0 <= n <= |a + b| ==> ScanOver(Scan(false, false, d), (a + b)[..n], open, close).depth >= d
    {
      var st := Scan(false, false, d);
      ScanConcat(st, a, b, open, close);
      forall n | 0 <= n <= |a + b|
        ensures ScanOver(st, (a + b)[..n], open, close).depth >= d
      {
        if n <= |a| {
          assert (a + b)[..n] == a[..n];
        } else {
          assert (a + b)[..n] == a + b[..n - |a|];
          ScanConcat(st, a, b[..n - |a|], open, close);
        }
      }
    }
  }

  lemma {:induction false} LevelPlain(t: string, open: char, close: char)
    requires forall i :: 0 <= i < |t| ==> t[i] != '"' && t[i] != open && t[i] != close
    ensures Level(t, open, close)
  {
    if t != [] {
      var init, c := t[..|t| - 1], t[|t| - 1];
      LevelPlain(init, open, close);
      forall d: int
        ensures ScanOver(Scan(false, false, d), t, open, close) == Scan(false, false, d)
        ensures forall n :: 0 <= n <= |t| ==> ScanOver(Scan(false, false, d), t[..n], open, close).depth >= d
      {
        forall n | 0 <= n <= |t|
          ensures ScanOver(Scan(false, false, d), t[..n], open, close).depth >= d
        {
          if n < |t| {
            assert t[..n] == init[..n];
          } else {
            assert t[..n] == t;
          }
        }
      }
    }
  }

  lemma PairInside(d: int, c: char, open: char, close: char)
    ensures ScanOver(Scan(true, false, d), ['\\', c], open, close) == Scan(true, false, d)
  {
    assert ['\\', c][..1] == ['\\'] && ['\\'][..0] == [];
    assert ScanOver(Scan(true, false, d), ['\\'], open, close) == Scan(true, true, d);
  }

  /** Inside a printed string the scan stays inside, at the same depth. */
  lemma {:induction false} InsideBody(d: int, e: string, n: nat, open: char, close: char)
    requires Body(e) && n <= |e|
    ensures var st := ScanOver(Scan(true, false, d), e[..n], open, close);
            st.inString && st.depth == d && (n == |e| ==> !st.escaped)
    decreases |e|
  {
    var st := Scan(true, false, d);
    if n > 0 && Ordinary(e[0]) {
      assert e[..n] == [e[0]] + e[1..][..n - 1] && [e[0]][..0] == [];
      ScanConcat(st, [e[0]], e[1..][..n - 1], open, close);
      InsideBody(d, e[1..], n - 1, open, close);
    } else if n == 1 {
      assert e[..1] == ['\\'] && ['\\'][..0] == [];
    } else if n > 1 {
      assert e[..n] == ['\\', e[1]] + e[2..][..n - 2];
      ScanConcat(st, ['\\', e[1]], e[2..][..n - 2], open, close);
      PairInside(d, e[1], open, close);
      InsideBody(d, e[2..], n - 2, open, close);
    }
  }

  lemma LevelWord(w: string, open: char, close: char)
    requires Body(w)
    ensures Level(Quoted(w), open, close)
  {
    var t := Quoted(w);
    forall d: int
      ensures ScanOver(Scan(false, false, d), t, open, close) == Scan(false, false, d)
      ensures forall n :: 0 <= n <= |t| ==> ScanOver(Scan(false, false, d), t[..n], open, close).depth >= d
    {
      var st := Scan(false, false, d);
      forall n | 1 <= n < |t|
        ensures ScanOver(st, t[..n], open, close) == ScanOver(Scan(true, false, d), w[..n - 1], open, close)
      {
        assert t[..n] == ['"'] + w[..n - 1];
        ScanConcat(st, ['"'], w[..n - 1], open, close);
        assert ['"'][..0] == [];
      }
      InsideBody(d, w, |w|, open, close);
      forall n | 0 <= n <= |t|
        ensures ScanOver(st, t[..n], open, close).depth >= d
      {
        if n == |t| {
          assert t[..n] == t;
        } else if n > 0 {
          InsideBody(d, w, n - 1, open, close);
        }
      }
    }
  }

  /** A bracketed text of level content is level itself. */
  lemma LevelBracketed(t: string, a: char, b: char, open: char, close: char)
    requires Level(t, open, close) && Brackets(a, b) && Brackets(open, close)
    ensures Level([a] + t + [b], open, close)
  {
    if a != open {
      LevelPlain([a], open, close);
      LevelPlain([b], open, close);
      LevelConcat([a], t, open, close);
      LevelConcat([a] + t, [b], open, close);
    } else {
      var u := [a] + t + [b];
      forall d: int
        ensures ScanOver(Scan(false, false, d), u, open, close) == Scan(false, false, d)
        ensures forall n :: 0 <= n <= |u| ==> ScanOver(Scan(false, false, d), u[..n], open, close).depth >= d
      {
        Enclosed(t, d, open, close);
        assert u[..|u|] == u;
      }
    }
  }

  /** Inside a bracket the depth stays above the one outside, up to the closing bracket. */
  lemma Enclosed(t: string, d: int, open: char, close: char)
    requires Level(t, open, close) && Brackets(open, close)
    ensures var u := [open] + t + [close]; var st := Scan(false, false, d);
            && ScanOver(st, u, open, close) == Scan(false, false, d)
            && ScanOver(st, u[..|u| - 1], open, close) == Scan(false, false, d + 1)
            && forall n :: 0 <= n <= |u| ==>
                 ScanOver(st, u[..n], open, close).depth >= if 0 < n < |u| then d + 1 else d
  {
    var u := [open] + t + [close];
    var st := Scan(false, false, d);
    assert [open][..0] == [];
    assert ScanOver(st, [open], open, close) == Scan(false, false, d + 1);
    forall n | 1 <= n < |u|
      ensures ScanOver(st, u[..n], open, close) == ScanOver(Scan(false, false, d + 1), t[..n - 1], open, close)
    {
      assert u[..n] == [open] + t[..n - 1];
      ScanConcat(st, [open], t[..n - 1], open, close);
    }
    assert t[..|t|] == t;
    forall n | 0 <= n <= |u|
      ensures ScanOver(st, u[..n], open, close).depth >= if 0 < n < |u| then d + 1 else d
    {
      if n == |u| {
        assert u[..n] == u;
      } else if n == 0 {
        assert u[..n] == [];
      }
    }
  }

  lemma {:induction false} LevelJson(j: Json, open: char, close: char)
    requires CleanJson(j) && Brackets(open, close)
    ensures Level(Dumps(j), open, close)
    decreases j, 0
  {
    match j
    case Str(w) => LevelWord(w, open, close);
    case Num(n) =>
      SignedPlain(n);
      LevelPlain(Signed(n), open, close);
    case Arr(items) =>
      LevelItems(items, open, close);
      LevelBracketed(DumpItems(items), '[', ']', open, close);
    case Obj(fields) =>
      LevelFields(fields, open, close);
      LevelBracketed(DumpFields(fields), '{', '}', open, close);
  }

  lemma {:induction false} LevelItems(items: Items, open: char, close: char)
    requires CleanItems(items) && Brackets(open, close)
    ensures Level(DumpItems(items), open, close)
    decreases items, 1
  {
    LevelPlain([], open, close);
    if items.Cons? {
      LevelJson(items.head, open, close);
      if items.tail.Nil? {
        assert Dumps(items.head) + [] == Dumps(items.head);
      } else {
        LevelItems(items.tail, open, close);
        LevelPlain(", ", open, close);
        LevelConcat(", ", DumpItems(items.tail), open, close);
        LevelConcat(Dumps(items.head), ", " + DumpItems(items.tail), open, close);
      }
    }
  }

  lemma {:induction false} LevelFields(fields: Fields, open: char, close: char)
    requires CleanFields(fields) && Brackets(open, close)
    ensures Level(DumpFields(fields), open, close)
    decreases fields, 1
  {
    LevelPlain([], open, close);
    if fields.Field? {
      var q, v := Quoted(fields.key), Dumps(fields.value);
      CleanBody(fields.key);
      LevelWord(fields.key, open, close);
      LevelPlain(": ", open, close);
      LevelJson(fields.value, open, close);
      LevelConcat(q, ": ", open, close);
      LevelConcat(q + ": ", v, open, close);
      if fields.rest.End? {
        assert q + ": " + v + [] == q + ": " + v;
      } else {
        LevelFields(fields.rest, open, close);
        LevelPlain(", ", open, close);
        LevelConcat(", ", DumpFields(fields.rest), open, close);
        LevelConcat(q + ": " + v, ", " + DumpFields(fields.rest), open, close);
      }
    }
  }

  /** In printed text the matching bracket of an array or object is its own last character. */
  lemma MatchingPrinted(s: string, i: nat, t: string, open: char, close: char)
    requires At(s, i, [open] + t + [close]) && Level(t, open, close) && Brackets(open, close)
    ensures Matching(s, i, open, close) == Some(i + |t| + 1)
  {
    var u := [open] + t + [close];
    var e := i + |t| + 1;
    Enclosed(t, 0, open, close);
    AtChar(s, i, u, |t| + 1);
    assert s[i..e] == u[..|u| - 1] && s[i..e + 1] == u;
    assert Closes(s, i, e, open, close);
    forall q | i <= q < e
      ensures !Closes(s, i, q, open, close)
    {
      assert s[i..q + 1] == u[..q + 1 - i];
    }
    MatchingUnique(s, i, Some(e), open, close);
  }
}
