/** Finding a key of a printed JSON object with `strstr`, and reading the value behind it. */
module KeySearch {
  import opened Bytes
  import opened JsonScan
  import opened Json

  /** `q: t` stands at `i`; `e` is the colon and `p` the start of `t`. */
  lemma PairSplit(s: string, i: nat, e: nat, p: nat, q: string, t: string)
    requires At(s, i, q + ": " + t) && e == i + |q| && p == e + 2
    ensures At(s, i, q) && At(s, p, t) && p <= |s| && s[e] == ':' && s[e + 1] == ' '
  {
    AtSplit(s, i, p, p + |t|, q + ": ", t);
    AtSplit(s, i, e, p, q, ": ");
    AtChar(s, e, ": ", 0);
    AtChar(s, e, ": ", 1);
  }

  lemma ColonRead(s: string, i: nat, e: nat, q: string)
    requires At(s, i, q) && e == i + |q| && e < |s| && s[e] == ':'
    ensures AfterColon(s, i, q) == Some(e + 1)
  {
    assert StrStr(s, i, q) == Some(i);
    ColonHere(s, e);
    ColonAt(s, i, q, i);
  }

  lemma ColonHere(s: string, e: nat)
    requires e < |s| && s[e] == ':'
    ensures ColonBehind(s, e) == Some(e + 1)
  {
    assert SkipSpace(s, e) == e;
  }

  lemma ColonAt(s: string, i: nat, q: string, at: nat)
    requires i <= |s| && at + |q| <= |s| && StrStr(s, i, q) == Some(at)
    ensures AfterColon(s, i, q) == ColonBehind(s, at + |q|)
  {
  }

  lemma OneBlank(s: string, c: nat, p: nat)
    requires p == c + 1 && p < |s| && s[c] == ' ' && !Space(s[p])
    ensures SkipSpace(s, c) == p
  {
    assert SkipSpace(s, p) == p;
  }

  /** The value of a string field, read from its key. */
  lemma ReadString(s: string, i: nat, key: string, v: string)
    requires At(s, i, Quoted(key) + ": " + Quoted(v)) && Clean(v)
    ensures StringAfter(s, i, Quoted(key)) == Some(v)
  {
    var q := Quoted(key);
    var e := i + |q|;
    PairSplit(s, i, e, e + 2, q, Quoted(v));
    ColonRead(s, i, e, q);
    QuotedAt(s, e + 2, v);
    OneBlank(s, e + 1, e + 2);
  }

  lemma QuotedAt(s: string, p: nat, v: string)
    requires At(s, p, Quoted(v)) && Clean(v)
    ensures p < |s| && s[p] == '"' && StringAt(s, p) == Some(v)
  {
    QuotedRead(s, p, p + 1 + |v|, v);
  }

  lemma QuotedRead(s: string, p: nat, e: nat, v: string)
    requires At(s, p, Quoted(v)) && e == p + 1 + |v| && Clean(v)
    ensures e < |s| && s[p] == '"' && s[e] == '"' && QuoteOrBackslash(s, p + 1) == e && s[p + 1..e] == v
  {
    AtSplit(s, p, e, e + 1, ['"'] + v, ['"']);
    AtSplit(s, p, p + 1, e, ['"'], v);
    AtChar(s, p, ['"'], 0);
    AtChar(s, e, ['"'], 0);
    forall j | p + 1 <= j < e
      ensures s[j] != '"' && s[j] != '\\'
    {
      AtChar(s, p + 1, v, j - p - 1);
    }
    QuoteAt(s, p + 1, e);
  }

  lemma {:induction false} QuoteAt(s: string, i: nat, e: nat)
    requires i <= e < |s| && s[e] == '"' && forall j :: i <= j < e ==> s[j] != '"' && s[j] != '\\'
    ensures QuoteOrBackslash(s, i) == e
    decreases e - i
  {
    if i < e {
      QuoteAt(s, i + 1, e);
    }
  }

  /** The value of a number field, read from its key; the number is followed by a comma. */
  lemma ReadNumber(s: string, i: nat, key: string, n: int)
    requires At(s, i, Quoted(key) + ": " + Signed(n) + ", ")
    ensures IntAfter(s, i, Quoted(key)) == if -1 <= n <= 0xff then Some(n) else None
  {
    var negative, ds := SignedParts(n);
    var e := i + |Quoted(key)|;
    LongRead(s, i, e, Quoted(key), negative, ds);
    InRange(s, i, e + 1, Quoted(key), n);
  }

  lemma InRange(s: string, i: nat, c: nat, q: string, n: int)
    requires i <= |s| && c <= |s| && AfterColon(s, i, q) == Some(c) && StrToL(s, c) == Some(n)
    ensures IntAfter(s, i, q) == if -1 <= n <= 0xff then Some(n) else None
  {
  }

  lemma LongRead(s: string, i: nat, e: nat, q: string, negative: bool, ds: string)
    requires At(s, i, q + ": " + WithSign(negative, ds) + ", ") && e == i + |q| && ds != [] && Digits(ds)
    ensures i <= |s| && AfterColon(s, i, q) == Some(e + 1) && StrToL(s, e + 1) == Some(SignedValue(negative, ds))
  {
    var t := WithSign(negative, ds);
    var p := e + 2;
    BeforeComma(s, i, p + |t|, q + ": " + t);
    PairSplit(s, i, e, p, q, t);
    ColonRead(s, i, e, q);
    NumberBehind(s, e + 1, p, p + |t|, negative, ds);
  }

  lemma NumberBehind(s: string, c: nat, p: nat, end: nat, negative: bool, ds: string)
    requires p == c + 1 && At(s, p, WithSign(negative, ds)) && end == p + |WithSign(negative, ds)|
    requires end < |s| && s[c] == ' ' && s[end] == ',' && ds != [] && Digits(ds)
    ensures StrToL(s, c) == Some(SignedValue(negative, ds))
  {
    AtChar(s, p, WithSign(negative, ds), 0);
    OneBlank(s, c, p);
    NumberRead(s, c, p, end, negative, ds);
  }

  lemma BeforeComma(s: string, i: nat, e: nat, t: string)
    requires At(s, i, t + ", ") && e == i + |t|
    ensures At(s, i, t) && e < |s| && s[e] == ','
  {
    AtSplit(s, i, e, e + 2, t, ", ");
    AtChar(s, e, ", ", 0);
  }

  /** A number without its printer: a sign and digits. */
  function WithSign(negative: bool, ds: string): string {
    if negative then ['-'] + ds else ds
  }

  function SignedValue(negative: bool, ds: string): int {
    var v: int := Value(ds);
    if negative then -v else v
  }

  lemma SignedParts(n: int) returns (negative: bool, ds: string)
    ensures ds != [] && Digits(ds) && Signed(n) == WithSign(negative, ds) && n == SignedValue(negative, ds)
  {
    if n < 0 {
      DecimalDigits(-n);
      negative, ds := true, Decimal(-n);
    } else {
      DecimalDigits(n);
      negative, ds := false, Decimal(n);
    }
  }

  lemma NumberRead(s: string, c: nat, p: nat, e: nat, negative: bool, ds: string)
    requires At(s, p, WithSign(negative, ds)) && e == p + |WithSign(negative, ds)| && e < |s| && !Digit(s[e])
    requires c <= |s| && SkipSpace(s, c) == p && ds != [] && Digits(ds)
    ensures StrToL(s, c) == Some(SignedValue(negative, ds))
  {
    if negative {
      AtSplit(s, p, p + 1, e, ['-'], ds);
      AtChar(s, p, ['-'], 0);
      NegativeRead(s, c, p, p + 1, e, ds);
    } else {
      PositiveRead(s, c, p, e, ds);
    }
  }

  lemma DigitsRead(s: string, d: nat, e: nat, ds: string)
    requires At(s, d, ds) && e == d + |ds| && e < |s| && !Digit(s[e]) && ds != [] && Digits(ds)
    ensures DigitsEnd(s, d) == e && s[d..e] == ds && Digit(s[d])
  {
    forall j | d <= j < e
      ensures Digit(s[j])
    {
      AtChar(s, d, ds, j - d);
    }
    DigitsEndAt(s, d, e);
  }

  lemma PositiveRead(s: string, c: nat, p: nat, e: nat, ds: string)
    requires At(s, p, ds) && e == p + |ds| && e < |s| && !Digit(s[e]) && ds != [] && Digits(ds)
    requires c <= |s| && SkipSpace(s, c) == p
    ensures StrToL(s, c) == Some(Value(ds))
  {
    DigitsRead(s, p, e, ds);
  }

  lemma NegativeRead(s: string, c: nat, p: nat, d: nat, e: nat, ds: string)
    requires At(s, d, ds) && e == d + |ds| && e < |s| && !Digit(s[e]) && ds != [] && Digits(ds)
    requires c <= |s| && SkipSpace(s, c) == p && d == p + 1 && s[p] == '-'
    ensures var v: int := Value(ds); StrToL(s, c) == Some(-v)
  {
    DigitsRead(s, d, e, ds);
  }

  /** The first field, the comma behind it, and the other fields. */
  lemma FieldsStep(s: string, p: nat, e: nat, f: Fields) returns (m: nat)
    requires f.Field? && f.rest.Field? && At(s, p, DumpFields(f)) && e == p + |DumpFields(f)|
    ensures m == p + |Pair(f.key, f.value)| && At(s, p, Pair(f.key, f.value)) && At(s, m + 2, DumpFields(f.rest))
    ensures e == m + 2 + |DumpFields(f.rest)| && s[m] == ',' && s[m + 1] == ' '
  {
    FieldsText(f);
    m := p + |Pair(f.key, f.value)|;
    ListStep(s, p, Pair(f.key, f.value), DumpFields(f.rest));
  }

  lemma FieldsText(f: Fields)
    requires f.Field? && f.rest.Field?
    ensures DumpFields(f) == Pair(f.key, f.value) + (", " + DumpFields(f.rest))
    ensures |DumpFields(f)| == |Pair(f.key, f.value)| + 2 + |DumpFields(f.rest)|
  {
    assert DumpFields(f) == Pair(f.key, f.value) + (", " + DumpFields(f.rest));
  }

  /** A search for `w` passes over the first field if neither its key nor its value holds `w`. */
  lemma SkipFirst(s: string, p: nat, e: nat, f: Fields, w: string) returns (m: nat)
    requires f.Field? && f.rest.Field? && At(s, p, DumpFields(f)) && e == p + |DumpFields(f)| && Key(w)
    requires Clean(f.key) && f.key != w && CleanJson(f.value) && Avoids(f.value, w)
    ensures p <= m && e == m + |DumpFields(f.rest)| && At(s, m, DumpFields(f.rest))
    ensures StrStr(s, p, Quoted(w)) == StrStr(s, m, Quoted(w))
  {
    var n := FieldsStep(s, p, e, f);
    PassFirst(s, p, n, f.key, f.value, w);
    m := n + 2;
  }

  lemma PassFirst(s: string, p: nat, n: nat, key: string, v: Json, w: string)
    requires Key(w) && Clean(key) && key != w && CleanJson(v) && Avoids(v, w)
    requires At(s, p, Pair(key, v)) && n == p + |Pair(key, v)| && n + 2 <= |s| && s[n] == ',' && s[n + 1] == ' '
    ensures StrStr(s, p, Quoted(w)) == StrStr(s, n + 2, Quoted(w))
  {
    PassPair(key, v, w);
    PassHere(s, p, n, Pair(key, v), w);
  }

  lemma HitFirst(s: string, p: nat, e: nat, f: Fields)
    requires f.Field? && At(s, p, DumpFields(f)) && e == p + |DumpFields(f)|
    ensures StrStr(s, p, Quoted(f.key)) == Some(p) && At(s, p, Pair(f.key, f.value)) && p < e
    ensures f.rest.Field? ==> At(s, p, Pair(f.key, f.value) + ", ")
  {
    var pair, q := Pair(f.key, f.value), Quoted(f.key);
    if f.rest.End? {
      assert DumpFields(f) == pair;
    } else {
      CommaBehind(s, p, pair, DumpFields(f.rest));
      FieldsText(f);
      ListStep(s, p, pair, DumpFields(f.rest));
    }
    PairSplit(s, p, p + |q|, p + |q| + 2, q, Dumps(f.value));
  }

  lemma CommaBehind(s: string, p: nat, h: string, t: string)
    ensures At(s, p, h + (", " + t)) ==> At(s, p, h + ", ")
  {
    assert h + (", " + t) == (h + ", ") + t;
    if At(s, p, h + (", " + t)) {
      AtConcat(s, p, h + ", ", t);
    }
  }

  /** From the opening brace into the fields. */
  lemma EnterObject(s: string, p: nat, f: Fields, w: string)
    requires At(s, p, Dumps(Obj(f))) && Key(w)
    ensures At(s, p + 1, DumpFields(f)) && s[p] == '{' && StrStr(s, p, Quoted(w)) == StrStr(s, p + 1, Quoted(w))
  {
    AtConcat(s, p, ['{'] + DumpFields(f), ['}']);
    AtConcat(s, p, ['{'], DumpFields(f));
    AtChar(s, p, ['{'], 0);
    SkipPlain(s, p, p + 1, w);
  }

  /** The word is a key of the object, and nothing in front of that key reads like it. */
  predicate Finds(f: Fields, w: string) {
    f.Field? && (f.key == w || (Clean(f.key) && CleanJson(f.value) && Avoids(f.value, w) && Finds(f.rest, w)))
  }

  /** The fields from that key on. */
  function Found(f: Fields, w: string): (g: Fields)
    requires Finds(f, w)
    ensures g.Field? && g.key == w
  {
    if f.key == w then f else Found(f.rest, w)
  }

  /** `strstr` finds a key of a printed object at the key itself. */
  lemma {:induction false} FieldFound(s: string, p: nat, e: nat, f: Fields, w: string) returns (i: nat)
    requires At(s, p, DumpFields(f)) && e == p + |DumpFields(f)| && Key(w) && Finds(f, w)
    ensures StrStr(s, p, Quoted(w)) == Some(i)
    ensures At(s, i, Pair(w, Found(f, w).value))
    ensures Found(f, w).rest.Field? ==> At(s, i, Pair(w, Found(f, w).value) + ", ")
    ensures p <= i < e
    decreases f
  {
    if f.key == w {
      HitFirst(s, p, e, f);
      i := p;
    } else {
      var m := SkipFirst(s, p, e, f, w);
      i := FieldFound(s, m, e, f.rest, w);
    }
  }

  lemma KeyFound(s: string, p: nat, f: Fields, w: string) returns (i: nat)
    requires At(s, p, Dumps(Obj(f))) && Key(w) && Finds(f, w)
    ensures KeyBefore(s, p, p + |Dumps(Obj(f))| - 1, Quoted(w)) == Some(i)
    ensures At(s, i, Pair(w, Found(f, w).value))
    ensures Found(f, w).rest.Field? ==> At(s, i, Pair(w, Found(f, w).value) + ", ")
  {
    EnterObject(s, p, f, w);
    i := FieldFound(s, p + 1, p + 1 + |DumpFields(f)|, f, w);
  }

  // ---------------------------------------------------------------- a key hidden by a string value

  /** The first occurrence of the word in the printed value is a string value, not a key. */
  predicate Hides(j: Json, w: string)
    decreases j, 0
  {
    match j
    case Str(v) => EndsLike(v, w)
    case Num(_) => false
    case Arr(items) => ItemsHide(items, w)
    case Obj(fields) => FieldsHide(fields, w)
  }

  predicate ItemsHide(items: Items, w: string)
    decreases items, 1
  {
    items.Cons? && (Hides(items.head, w) || (Avoids(items.head, w) && ItemsHide(items.tail, w)))
  }

  predicate FieldsHide(f: Fields, w: string)
    decreases f, 1
  {
    f.Field? && f.key != w && (Hides(f.value, w) || (Avoids(f.value, w) && FieldsHide(f.rest, w)))
  }

  /** The word is no key anywhere in the value. */
  predicate NoKey(j: Json, w: string)
    decreases j, 0
  {
    match j
    case Str(_) => true
    case Num(_) => true
    case Arr(items) => ItemsNoKey(items, w)
    case Obj(fields) => FieldsNoKey(fields, w)
  }

  predicate ItemsNoKey(items: Items, w: string)
    decreases items, 1
  {
    items.Nil? || (NoKey(items.head, w) && ItemsNoKey(items.tail, w))
  }

  predicate FieldsNoKey(f: Fields, w: string)
    decreases f, 1
  {
    f.End? || (f.key != w && NoKey(f.value, w) && FieldsNoKey(f.rest, w))
  }

  /** A word that is no key is either absent or a string value. */
  lemma {:induction false} HidesOrAvoids(j: Json, w: string)
    requires NoKey(j, w)
    ensures Hides(j, w) == !Avoids(j, w)
    decreases j, 0
  {
    match j
    case Str(_) =>
    case Num(_) =>
    case Arr(items) => ItemsHideOrAvoid(items, w);
    case Obj(fields) => FieldsHideOrAvoid(fields, w);
  }

  lemma {:induction false} ItemsHideOrAvoid(items: Items, w: string)
    requires ItemsNoKey(items, w)
    ensures ItemsHide(items, w) == !ItemsAvoid(items, w)
    decreases items, 1
  {
    if items.Cons? {
      HidesOrAvoids(items.head, w);
      ItemsHideOrAvoid(items.tail, w);
    }
  }

  lemma {:induction false} FieldsHideOrAvoid(f: Fields, w: string)
    requires FieldsNoKey(f, w)
    ensures FieldsHide(f, w) == !FieldsAvoid(f, w)
    decreases f, 1
  {
    if f.Field? {
      HidesOrAvoids(f.value, w);
      FieldsHideOrAvoid(f.rest, w);
    }
  }

  /** What can stand behind a printed value inside an array or object. */
  predicate Ends(c: char) {
    c == ',' || c == ']' || c == '}'
  }

  /** `strstr` for the quoted word stops in front of something that is no colon. */
  ghost predicate Dead(s: string, i: nat, w: string)
    requires i <= |s|
  {
    var at := StrStr(s, i, Quoted(w));
    at.Some? && at.value + |Quoted(w)| < |s| && Ends(s[at.value + |Quoted(w)|])
  }

  /** A hidden key yields no value at all. */
  lemma DeadKey(s: string, i: nat, w: string)
    requires i <= |s| && Dead(s, i, w)
    ensures AfterColon(s, i, Quoted(w)) == None
  {
    var e := StrStr(s, i, Quoted(w)).value + |Quoted(w)|;
    assert SkipSpace(s, e) == e;
  }

  /** A string that ends in the quoted word hides the key: the word is first found there. */
  lemma HiddenInString(s: string, i: nat, e: nat, v: string, w: string)
    requires At(s, i, Quoted(v)) && e == i + |v| + 2 && e < |s| && Ends(s[e]) && Key(w) && Body(v) && EndsLike(v, w)
    ensures Dead(s, i, w)
  {
    var at := i + (|v| - |w|);
    WordThere(s, i, v, w, at);
    forall j | i <= j < at
      ensures !Occurs(s, j, Quoted(w))
    {
      EndsInside(s, i, e - 1, v, w, j);
    }
    SkipRange(s, i, at, w);
    DeadAt(s, i, at, e, w);
  }

  lemma DeadAt(s: string, i: nat, at: nat, e: nat, w: string)
    requires i <= |s| && at <= |s| && StrStr(s, i, Quoted(w)) == StrStr(s, at, Quoted(w)) && Occurs(s, at, Quoted(w))
    requires e == at + |w| + 2 && e < |s| && Ends(s[e])
    ensures Dead(s, i, w)
  {
  }

  lemma QuotedEnd(v: string, w: string, t: nat)
    requires EndsLike(v, w) && t < |w| + 2
    ensures |v| >= |w| && Quoted(v)[|v| - |w| + t] == Quoted(w)[t]
  {
    if |v| > |w| {
      var tail := v[|v| - |w| - 1..];
      assert t <= |w| ==> v[|v| - |w| - 1 + t] == tail[t];
    }
  }

  lemma WordThere(s: string, i: nat, v: string, w: string, at: nat)
    requires At(s, i, Quoted(v)) && EndsLike(v, w) && at == i + (|v| - |w|)
    ensures Occurs(s, at, Quoted(w))
  {
    forall t | 0 <= t < |w| + 2
      ensures s[at + t] == Quoted(w)[t]
    {
      QuotedEnd(v, w, t);
      AtChar(s, i, Quoted(v), |v| - |w| + t);
    }
  }

  lemma {:induction false} HiddenInJson(s: string, i: nat, e: nat, j: Json, w: string)
    requires At(s, i, Dumps(j)) && e == i + |Dumps(j)| && e < |s| && Ends(s[e])
    requires Key(w) && CleanJson(j) && Hides(j, w)
    ensures Dead(s, i, w)
    decreases j, 0
  {
    match j
    case Str(v) => HiddenInString(s, i, e, v, w);
    case Arr(items) =>
      var t := DumpItems(items);
      assert Dumps(j) == ['['] + t + [']'];
      Inside(s, i, e, '[', t, ']', w);
      HiddenInItems(s, i + 1, e - 1, items, w);
    case Obj(fields) =>
      var t := DumpFields(fields);
      assert Dumps(j) == ['{'] + t + ['}'];
      Inside(s, i, e, '{', t, '}', w);
      HiddenInFields(s, i + 1, e - 1, fields, w);
  }

  lemma Inside(s: string, i: nat, e: nat, open: char, t: string, close: char, w: string)
    requires At(s, i, [open] + t + [close]) && e == i + 2 + |t| && open != '"' && Key(w)
    ensures At(s, i + 1, t) && s[e - 1] == close && StrStr(s, i, Quoted(w)) == StrStr(s, i + 1, Quoted(w))
  {
    AtConcat(s, i, [open] + t, [close]);
    AtConcat(s, i, [open], t);
    AtChar(s, i, [open], 0);
    AtChar(s, e - 1, [close], 0);
    SkipPlain(s, i, i + 1, w);
  }

  /** Over a text the word is not in, and the comma and blank behind it. */
  lemma PassHere(s: string, i: nat, m: nat, t: string, w: string)
    requires Key(w) && Passes(t, w) && At(s, i, t) && m == i + |t| && m + 2 <= |s| && s[m] == ',' && s[m + 1] == ' '
    ensures StrStr(s, i, Quoted(w)) == StrStr(s, m + 2, Quoted(w))
  {
    SkipPlain(s, m, m + 2, w);
  }

  lemma ItemsStep(s: string, i: nat, e: nat, items: Items) returns (m: nat)
    requires items.Cons? && items.tail.Cons? && At(s, i, DumpItems(items)) && e == i + |DumpItems(items)|
    ensures m == i + |Dumps(items.head)| && At(s, i, Dumps(items.head)) && At(s, m + 2, DumpItems(items.tail))
    ensures e == m + 2 + |DumpItems(items.tail)| && s[m] == ',' && s[m + 1] == ' '
  {
    assert DumpItems(items) == Dumps(items.head) + (", " + DumpItems(items.tail));
    m := i + |Dumps(items.head)|;
    ListStep(s, i, Dumps(items.head), DumpItems(items.tail));
  }

  lemma SkipItem(s: string, i: nat, e: nat, items: Items, w: string) returns (m: nat)
    requires items.Cons? && items.tail.Cons? && At(s, i, DumpItems(items)) && e == i + |DumpItems(items)| && Key(w)
    requires CleanJson(items.head) && Avoids(items.head, w)
    ensures i <= m && e == m + |DumpItems(items.tail)| && At(s, m, DumpItems(items.tail))
    ensures StrStr(s, i, Quoted(w)) == StrStr(s, m, Quoted(w))
  {
    m := ItemsStep(s, i, e, items);
    PassJson(items.head, w);
    PassHere(s, i, m, Dumps(items.head), w);
    m := m + 2;
  }

  lemma ItemEnd(s: string, i: nat, e: nat, items: Items) returns (m: nat)
    requires items.Cons? && At(s, i, DumpItems(items)) && e == i + |DumpItems(items)| && e < |s| && Ends(s[e])
    ensures m == i + |Dumps(items.head)| && At(s, i, Dumps(items.head)) && m < |s| && Ends(s[m])
  {
    if items.tail.Nil? {
      assert DumpItems(items) == Dumps(items.head);
      m := e;
    } else {
      m := ItemsStep(s, i, e, items);
    }
  }

  lemma {:induction false} HiddenInItems(s: string, i: nat, e: nat, items: Items, w: string)
    requires At(s, i, DumpItems(items)) && e == i + |DumpItems(items)| && e < |s| && Ends(s[e])
    requires Key(w) && CleanItems(items) && ItemsHide(items, w)
    ensures Dead(s, i, w)
    decreases items, 1
  {
    if Hides(items.head, w) {
      var m := ItemEnd(s, i, e, items);
      HiddenInJson(s, i, m, items.head, w);
    } else {
      var m := SkipItem(s, i, e, items, w);
      HiddenInItems(s, m, e, items.tail, w);
    }
  }

  lemma ListStep(s: string, i: nat, h: string, t: string)
    requires At(s, i, h + (", " + t))
    ensures At(s, i, h) && At(s, i + |h| + 2, t) && s[i + |h|] == ',' && s[i + |h| + 1] == ' '
  {
    var m := i + |h|;
    AtSplit(s, i, m, m + 2 + |t|, h, ", " + t);
    AtSplit(s, m, m + 2, m + 2 + |t|, ", ", t);
    AtChar(s, m, ", ", 0);
    AtChar(s, m, ", ", 1);
  }

  lemma {:induction false} HiddenInFields(s: string, i: nat, e: nat, f: Fields, w: string)
    requires At(s, i, DumpFields(f)) && e == i + |DumpFields(f)| && e < |s| && Ends(s[e])
    requires Key(w) && CleanFields(f) && FieldsHide(f, w)
    ensures Dead(s, i, w)
    decreases f, 1
  {
    if Hides(f.value, w) {
      var m := PairEnd(s, i, e, f);
      var v := ValueOf(i, m, f.key, f.value);
      ValueStart(s, i, v, f.key, f.value, w);
      HiddenInJson(s, v, m, f.value, w);
    } else {
      var m := SkipFirst(s, i, e, f, w);
      HiddenInFields(s, m, e, f.rest, w);
    }
  }

  lemma PairEnd(s: string, i: nat, e: nat, f: Fields) returns (m: nat)
    requires f.Field? && At(s, i, DumpFields(f)) && e == i + |DumpFields(f)| && e < |s| && Ends(s[e])
    ensures m == i + |Pair(f.key, f.value)| && At(s, i, Pair(f.key, f.value)) && m < |s| && Ends(s[m])
  {
    if f.rest.End? {
      assert DumpFields(f) == Pair(f.key, f.value);
      m := e;
    } else {
      m := FieldsStep(s, i, e, f);
    }
  }

  /** From another key to its value. */
  /** Where the value of the pair from `i` to `m` starts. */
  lemma ValueOf(i: nat, m: nat, key: string, j: Json) returns (v: nat)
    requires m == i + |Pair(key, j)|
    ensures v == i + |Quoted(key)| + 2 && m == v + |Dumps(j)|
  {
    v := i + |Quoted(key)| + 2;
  }

  lemma ValueStart(s: string, i: nat, v: nat, key: string, j: Json, w: string)
    requires At(s, i, Pair(key, j)) && v == i + |Quoted(key)| + 2 && Clean(key) && key != w && Key(w)
    ensures At(s, v, Dumps(j)) && StrStr(s, i, Quoted(w)) == StrStr(s, v, Quoted(w))
  {
    PairSplit(s, i, v - 2, v, Quoted(key), Dumps(j));
    SkipWord(s, i, key, w);
    SkipPlain(s, v - 2, v, w);
  }

  /** A hidden key of a printed object is not found, or is found without a value. */
  lemma KeyHidden(s: string, p: nat, q: nat, f: Fields, w: string)
    requires At(s, p, Dumps(Obj(f))) && q == p + |Dumps(Obj(f))| - 1
    requires Key(w) && CleanFields(f) && FieldsHide(f, w)
    ensures var k := KeyBefore(s, p, q, Quoted(w)); k.Some? ==> AfterColon(s, k.value, Quoted(w)) == None
  {
    var t := DumpFields(f);
    assert Dumps(Obj(f)) == ['{'] + t + ['}'];
    HiddenBetween(s, p, q, f, t, w);
    var k := KeyBefore(s, p, q, Quoted(w));
    if k.Some? {
      DeadKey(s, k.value, w);
    }
  }

  lemma HiddenBetween(s: string, p: nat, q: nat, f: Fields, t: string, w: string)
    requires t == DumpFields(f) && At(s, p, ['{'] + t + ['}']) && q == p + 1 + |t|
    requires Key(w) && CleanFields(f) && FieldsHide(f, w)
    ensures Dead(s, p, w)
  {
    Inside(s, p, q + 1, '{', t, '}', w);
    HiddenInFields(s, p + 1, q, f, w);
  }

  lemma WholeHidden(s: string, f: Fields, w: string)
    requires s == Dumps(Obj(f)) && Key(w) && CleanFields(f) && FieldsHide(f, w)
    ensures AfterColon(s, 0, Quoted(w)) == None
  {
    assert At(s, 0, s);
    assert s == ['{'] + DumpFields(f) + ['}'];
    HiddenBetween(s, 0, |s| - 1, f, DumpFields(f), w);
    DeadKey(s, 0, w);
  }
}
