/** The hand-written JSON scanners of host/tcu_com.c. A C string is a `string` without NUL and a
    pointer into it is an index; index |s| is the terminating NUL. Each scanner is a method with the
    C loops, proved against a function, and what the functions mean is stated beside them. */
module JsonScan {
  import opened Bytes

  predicate Space(c: char) {
    c == ' ' || ('\t' <= c <= '\r')
  }

  predicate Digit(c: char) {
    '0' <= c <= '9'
  }

  predicate Occurs(s: string, i: nat, key: string) {
    i + |key| <= |s| && s[i..i + |key|] == key
  }

  /** `strstr(s + i, key)`: the first occurrence at or after `i`. */
  function StrStr(s: string, i: nat, key: string): (r: Option<nat>)
    requires i <= |s|
    ensures r.Some? ==> i <= r.value && Occurs(s, r.value, key) && forall j :: i <= j < r.value ==> !Occurs(s, j, key)
    ensures r.None? ==> forall j :: i <= j ==> !Occurs(s, j, key)
    decreases |s| - i
  {
    if Occurs(s, i, key) then Some(i) else if i == |s| then None else StrStr(s, i + 1, key)
  }

  function SkipSpace(s: string, i: nat): (r: nat)
    requires i <= |s|
    ensures i <= r <= |s| && (r < |s| ==> !Space(s[r])) && forall j :: i <= j < r ==> Space(s[j])
    decreases |s| - i
  {
    if i < |s| && Space(s[i]) then SkipSpace(s, i + 1) else i
  }

  method SkipSpaces(s: string, i: nat) returns (r: nat)
    requires i <= |s|
    ensures r == SkipSpace(s, i)
  {
    r := i;
    while r < |s| && Space(s[r])
      invariant i <= r <= |s| && SkipSpace(s, r) == SkipSpace(s, i)
    {
      r := r + 1;
    }
  }

  /** The index just behind a colon and the blanks in front of it. */
  function ColonBehind(s: string, i: nat): (r: Option<nat>)
    requires i <= |s|
    ensures r.Some? ==> i < r.value <= |s|
  {
    var p := SkipSpace(s, i);
    if p == |s| || s[p] != ':' then None else Some(p + 1)
  }

  /** The index just behind `key` and the colon after it. */
  function AfterColon(s: string, i: nat, key: string): (r: Option<nat>)
    requires i <= |s|
    ensures r.Some? ==> i < r.value <= |s|
  {
    match StrStr(s, i, key)
    case None => None
    case Some(pos) => ColonBehind(s, pos + |key|)
  }

  method FindAfterColon(s: string, i: nat, key: string) returns (r: Option<nat>)
    requires i <= |s|
    ensures r == AfterColon(s, i, key)
  {
    var at := StrStr(s, i, key);
    if at.None? {
      return None;
    }
    var p := SkipSpaces(s, at.value + |key|);
    if p == |s| || s[p] != ':' {
      return None;
    }
    return Some(p + 1);
  }

  /** The first quote or backslash at or after `i`, else the end. */
  function QuoteOrBackslash(s: string, i: nat): (r: nat)
    requires i <= |s|
    ensures i <= r <= |s| && (r < |s| ==> s[r] == '"' || s[r] == '\\')
    ensures forall j :: i <= j < r ==> s[j] != '"' && s[j] != '\\'
    decreases |s| - i
  {
    if i == |s| || s[i] == '"' || s[i] == '\\' then i else QuoteOrBackslash(s, i + 1)
  }

  /** The string without escapes at `v`. */
  function StringAt(s: string, v: nat): Option<string>
    requires v <= |s|
  {
    if v == |s| || s[v] != '"' then None else
    var e := QuoteOrBackslash(s, v + 1);
    if e == |s| || s[e] == '\\' then None else Some(s[v + 1..e])
  }

  /** `json_string_value_after`: a string value without escapes. */
  function StringAfter(s: string, i: nat, key: string): Option<string>
    requires i <= |s|
  {
    match AfterColon(s, i, key)
    case None => None
    case Some(c) => StringAt(s, SkipSpace(s, c))
  }

  method StringValueAfter(s: string, i: nat, key: string) returns (r: Option<string>)
    requires i <= |s|
    ensures r == StringAfter(s, i, key)
  {
    var c := FindAfterColon(s, i, key);
    if c.None? {
      return None;
    }
    var start := SkipSpaces(s, c.value);
    if start == |s| || s[start] != '"' {
      return None;
    }
    start := start + 1;
    var pos := start;
    while pos < |s| && s[pos] != '"'
      invariant start <= pos <= |s| && QuoteOrBackslash(s, pos) == QuoteOrBackslash(s, start)
    {
      if s[pos] == '\\' {
        return None;
      }
      pos := pos + 1;
    }
    if pos == |s| {
      return None;
    }
    return Some(s[start..pos]);
  }

  function DigitsEnd(s: string, i: nat): (r: nat)
    requires i <= |s|
    ensures i <= r <= |s| && (r < |s| ==> !Digit(s[r])) && forall j :: i <= j < r ==> Digit(s[j])
    decreases |s| - i
  {
    if i < |s| && Digit(s[i]) then DigitsEnd(s, i + 1) else i
  }

  function DigitValue(c: char): (v: nat)
    ensures Digit(c) ==> v == c as int - '0' as int
  {
    if Digit(c) then c as int - '0' as int else 0
  }

  /** The number a string of decimal digits denotes. */
  function Value(ds: string): nat {
    if ds == [] then 0 else 10 * Value(ds[..|ds| - 1]) + DigitValue(ds[|ds| - 1])
  }

  lemma ValueSnoc(ds: string, c: char)
    ensures Value(ds + [c]) == 10 * Value(ds) + DigitValue(c)
  {
    assert (ds + [c])[..|ds|] == ds;
  }

  /** `strtol(s + i, &end, 10)`; None when no digits are consumed. */
  function StrToL(s: string, i: nat): Option<int>
    requires i <= |s|
  {
    var p := SkipSpace(s, i);
    var signed := p < |s| && (s[p] == '-' || s[p] == '+');
    var d := if signed then p + 1 else p;
    var e := DigitsEnd(s, d);
    var v: int := Value(s[d..e]);
    if e == d then None else Some(if signed && s[p] == '-' then -v else v)
  }

  method ParseDigits(s: string, i: nat) returns (e: nat, v: nat)
    requires i <= |s|
    ensures e == DigitsEnd(s, i) && v == Value(s[i..e])
  {
    e, v := i, 0;
    while e < |s| && Digit(s[e])
      invariant i <= e <= |s| && DigitsEnd(s, e) == DigitsEnd(s, i)
      invariant v == Value(s[i..e])
    {
      ValueSnoc(s[i..e], s[e]);
      assert s[i..e + 1] == s[i..e] + [s[e]];
      v := 10 * v + DigitValue(s[e]);
      e := e + 1;
    }
  }

  method ParseLong(s: string, i: nat) returns (r: Option<int>)
    requires i <= |s|
    ensures r == StrToL(s, i)
  {
    var p := SkipSpaces(s, i);
    var negative := p < |s| && s[p] == '-';
    var d := if negative || (p < |s| && s[p] == '+') then p + 1 else p;
    var e, v := ParseDigits(s, d);
    if e == d {
      return None;
    }
    var signedValue: int := v;
    return Some(if negative then -signedValue else signedValue);
  }

  /** `json_int_value_after`: only -1 to 255 is accepted, so an out-of-range `strtol` is rejected too. */
  function IntAfter(s: string, i: nat, key: string): (r: Option<int>)
    requires i <= |s|
    ensures r.Some? ==> -1 <= r.value <= 0xff
  {
    match AfterColon(s, i, key)
    case None => None
    case Some(c) =>
      var v := StrToL(s, c);
      if v.Some? && -1 <= v.value <= 0xff then v else None
  }

  method IntValueAfter(s: string, i: nat, key: string) returns (r: Option<int>)
    requires i <= |s|
    ensures r == IntAfter(s, i, key)
  {
    var c := FindAfterColon(s, i, key);
    if c.None? {
      return None;
    }
    r := ParseLong(s, c.value);
    if r.None? || r.value < -1 || r.value > 0xff {
      return None;
    }
  }

  // ---------------------------------------------------------------- json_find_matching

  /** Where a scan stands: inside a string or not, just behind a backslash or not, and the bracket depth. */
  datatype Scan = Scan(inString: bool, escaped: bool, depth: int)

  const OUTSIDE := Scan(false, false, 0)

  /** One character, by the string rules of section 7 of RFC 8259. */
  function Advance(st: Scan, c: char, open: char, close: char): Scan {
    if st.inString then
      if st.escaped then st.(escaped := false)
      else if c == '\\' then st.(escaped := true)
      else if c == '"' then st.(inString := false)
      else st
    else if c == '"' then st.(inString := true)
    else if c == open then st.(depth := st.depth + 1)
    else if c == close then st.(depth := st.depth - 1)
    else st
  }

  /** The state after the whole of `t`. */
  function ScanOver(st: Scan, t: string, open: char, close: char): Scan {
    if t == [] then st else Advance(ScanOver(st, t[..|t| - 1], open, close), t[|t| - 1], open, close)
  }

  /** `s[p]` is a closing bracket outside strings that brings the depth counted from `i` to zero. */
  ghost predicate Closes(s: string, i: nat, p: nat, open: char, close: char) {
    && i <= p < |s| && s[p] == close
    && !ScanOver(OUTSIDE, s[i..p], open, close).inString
    && ScanOver(OUTSIDE, s[i..p + 1], open, close).depth == 0
  }

  /** `json_find_matching`: the first closing bracket at which the depth outside strings reaches zero. */
  method FindMatching(s: string, i: nat, open: char, close: char) returns (r: Option<nat>)
    requires i <= |s| && open != '"' && close != '"' && open != close
    ensures r.Some? ==> Closes(s, i, r.value, open, close)
    ensures r.Some? ==> forall q :: i <= q < r.value ==> !Closes(s, i, q, open, close)
    ensures r.None? ==> forall q :: !Closes(s, i, q, open, close)
  {
    var depth, inString, escaped := 0, false, false;
    var pos := i;
    while pos < |s|
      invariant i <= pos <= |s|
      invariant Scan(inString, escaped, depth) == ScanOver(OUTSIDE, s[i..pos], open, close)
      invariant escaped ==> inString
      invariant forall q :: i <= q < pos ==> !Closes(s, i, q, open, close)
    {
      var ch := s[pos];
      assert s[i..pos + 1][..pos - i] == s[i..pos];
      if inString {
        if escaped {
          escaped := false;
        } else if ch == '\\' {
          escaped := true;
        } else if ch == '"' {
          inString := false;
        }
      } else if ch == '"' {
        inString := true;
      } else if ch == open {
        depth := depth + 1;
      } else if ch == close {
        depth := depth - 1;
        if depth == 0 {
          return Some(pos);
        }
      }
      pos := pos + 1;
    }
    return None;
  }

  /** The least closing index, as a function for the specifications that follow. */
  ghost function Matching(s: string, i: nat, open: char, close: char): (r: Option<nat>)
    ensures r.Some? ==> Closes(s, i, r.value, open, close)
    ensures r.Some? ==> forall q :: i <= q < r.value ==> !Closes(s, i, q, open, close)
    ensures r.None? ==> forall q :: !Closes(s, i, q, open, close)
  {
    MatchingFrom(s, i, i, open, close)
  }

  ghost function MatchingFrom(s: string, i: nat, p: nat, open: char, close: char): (r: Option<nat>)
    requires i <= p
    ensures r.Some? ==> p <= r.value && Closes(s, i, r.value, open, close) &&
                        forall q :: p <= q < r.value ==> !Closes(s, i, q, open, close)
    ensures r.None? ==> forall q :: p <= q ==> !Closes(s, i, q, open, close)
    decreases |s| - p
  {
    if p >= |s| then None else if Closes(s, i, p, open, close) then Some(p) else MatchingFrom(s, i, p + 1, open, close)
  }

  /** Two least closing indices are the same index. */
  lemma MatchingUnique(s: string, i: nat, r: Option<nat>, open: char, close: char)
    requires r.Some? ==> Closes(s, i, r.value, open, close)
    requires r.Some? ==> forall q :: i <= q < r.value ==> !Closes(s, i, q, open, close)
    requires r.None? ==> forall q :: !Closes(s, i, q, open, close)
    ensures r == Matching(s, i, open, close)
  {
    var m := Matching(s, i, open, close);
    if m.Some? && r.Some? {
      assert Closes(s, i, m.value, open, close) && Closes(s, i, r.value, open, close);
    }
  }

  /** `json_find_array_after`: the opening and closing index of the array that is the value of `key`. */
  ghost function ArrayAfter(s: string, i: nat, key: string): (r: Option<(nat, nat)>)
    requires i <= |s|
    ensures r.Some? ==> i < r.value.0 <= r.value.1 < |s|
  {
    match AfterColon(s, i, key)
    case None => None
    case Some(c) =>
      var p := SkipSpace(s, c);
      if p == |s| || s[p] != '[' then None else
      match Matching(s, p, '[', ']')
      case None => None
      case Some(e) => Some((p, e))
  }

  method FindArrayAfter(s: string, i: nat, key: string) returns (r: Option<(nat, nat)>)
    requires i <= |s|
    ensures r == ArrayAfter(s, i, key)
  {
    var c := FindAfterColon(s, i, key);
    if c.None? {
      return None;
    }
    var p := SkipSpaces(s, c.value);
    if p == |s| || s[p] != '[' {
      return None;
    }
    var e := FindMatching(s, p, '[', ']');
    MatchingUnique(s, p, e, '[', ']');
    if e.None? {
      return None;
    }
    return Some((p, e.value));
  }

  /** `json_find_key_before`: the first occurrence of `key`, if it starts before `end`. */
  function KeyBefore(s: string, i: nat, end: nat, key: string): (r: Option<nat>)
    requires i <= |s|
    ensures r.Some? ==> i <= r.value <= |s| && r.value < end && Occurs(s, r.value, key)
  {
    var p := StrStr(s, i, key);
    if p.Some? && p.value < end then p else None
  }

  // ---------------------------------------------------------------- what the scanners accept, in terms of the text

  /** The first occurrence of `key` from `i` on ends at `k`. */
  ghost predicate KeyEnds(s: string, i: nat, key: string, k: nat) {
    i + |key| <= k && Occurs(s, k - |key|, key) && forall j :: i <= j < k - |key| ==> !Occurs(s, j, key)
  }

  predicate Blanks(s: string, from: nat, to: nat) {
    from <= to <= |s| && forall j :: from <= j < to ==> Space(s[j])
  }

  /** From `k` on: blanks, a colon at `m`, blanks, and something else at `v`. */
  predicate Separated(s: string, k: nat, m: nat, v: nat) {
    Blanks(s, k, m) && m < |s| && s[m] == ':' && Blanks(s, m + 1, v) && (v < |s| ==> !Space(s[v]))
  }

  /** The value of `key` starts at `v`. */
  ghost predicate ValueAt(s: string, i: nat, key: string, v: nat) {
    exists k: nat, m: nat :: KeyEnds(s, i, key, k) && Separated(s, k, m, v)
  }

  lemma KeyUnique(s: string, i: nat, key: string, k: nat)
    requires i <= |s| && KeyEnds(s, i, key, k)
    ensures k <= |s| && StrStr(s, i, key) == Some(k - |key|)
  {
  }

  lemma BlanksUnique(s: string, from: nat, to: nat)
    requires Blanks(s, from, to) && (to < |s| ==> !Space(s[to]))
    ensures SkipSpace(s, from) == to
  {
  }

  lemma ColonUnique(s: string, k: nat, m: nat, v: nat)
    requires k <= |s| && Separated(s, k, m, v)
    ensures ColonBehind(s, k) == Some(m + 1) && SkipSpace(s, m + 1) == v
  {
    BlanksUnique(s, k, m);
    BlanksUnique(s, m + 1, v);
  }

  lemma ColonThere(s: string, k: nat)
    requires k <= |s| && ColonBehind(s, k).Some?
    ensures Separated(s, k, ColonBehind(s, k).value - 1, SkipSpace(s, ColonBehind(s, k).value))
  {
  }

  lemma ValueFound(s: string, i: nat, key: string, k: nat, m: nat, v: nat)
    requires i <= |s| && KeyEnds(s, i, key, k) && Separated(s, k, m, v)
    ensures AfterColon(s, i, key) == Some(m + 1) && SkipSpace(s, m + 1) == v
  {
    KeyUnique(s, i, key, k);
    ColonUnique(s, k, m, v);
    ColonAfter(s, i, key, k);
  }

  lemma ValueThere(s: string, i: nat, key: string, k: nat)
    requires i <= |s| && |key| <= k <= |s| && StrStr(s, i, key) == Some(k - |key|) && ColonBehind(s, k).Some?
    ensures ValueAt(s, i, key, SkipSpace(s, ColonBehind(s, k).value))
  {
    ColonThere(s, k);
    assert KeyEnds(s, i, key, k);
  }

  /** The scanners look for a value exactly where there is one. */
  lemma ValueIff(s: string, i: nat, key: string, v: nat)
    requires i <= |s|
    ensures ValueAt(s, i, key, v) <==> AfterColon(s, i, key).Some? && SkipSpace(s, AfterColon(s, i, key).value) == v
  {
    if ValueAt(s, i, key, v) {
      var k: nat, m: nat :| KeyEnds(s, i, key, k) && Separated(s, k, m, v);
      ValueFound(s, i, key, k, m, v);
    }
    if AfterColon(s, i, key).Some? {
      var k := StrStr(s, i, key).value + |key|;
      ColonAfter(s, i, key, k);
      ValueThere(s, i, key, k);
    }
  }

  lemma ColonAfter(s: string, i: nat, key: string, k: nat)
    requires i <= |s| && |key| <= k <= |s| && StrStr(s, i, key) == Some(k - |key|)
    ensures AfterColon(s, i, key) == ColonBehind(s, k)
  {
  }

  /** From `v` to `e`: quotes, with neither a quote nor a backslash between them. */
  predicate PlainQuoted(s: string, v: nat, e: nat) {
    v < e < |s| && s[v] == '"' && s[e] == '"' && forall j :: v < j < e ==> s[j] != '"' && s[j] != '\\'
  }

  /** The string `t` at `v`. */
  ghost predicate PlainString(s: string, v: nat, t: string) {
    exists e: nat :: PlainQuoted(s, v, e) && t == s[v + 1..e]
  }

  /** The value of `key` is the string `t`. */
  ghost predicate StringValue(s: string, i: nat, key: string, t: string) {
    exists v: nat :: ValueAt(s, i, key, v) && PlainString(s, v, t)
  }

  lemma QuoteUnique(s: string, v: nat, e: nat)
    requires v < |s| && s[v] == '"'
    ensures PlainQuoted(s, v, e) <==>
              QuoteOrBackslash(s, v + 1) == e && e < |s| && s[e] == '"'
  {
  }

  lemma StringAtIff(s: string, v: nat, t: string)
    requires v <= |s|
    ensures StringAt(s, v) == Some(t) <==> PlainString(s, v, t)
  {
    if v < |s| && s[v] == '"' {
      QuoteUnique(s, v, QuoteOrBackslash(s, v + 1));
      if PlainString(s, v, t) {
        var e: nat :| PlainQuoted(s, v, e) && t == s[v + 1..e];
        QuoteUnique(s, v, e);
      }
    }
  }

  /** `json_string_value_after` accepts exactly the plain string values. */
  lemma StringIff(s: string, i: nat, key: string, t: string)
    requires i <= |s|
    ensures StringAfter(s, i, key) == Some(t) <==> StringValue(s, i, key, t)
  {
    if StringValue(s, i, key, t) {
      var v: nat :| ValueAt(s, i, key, v) && PlainString(s, v, t);
      ValueIff(s, i, key, v);
      StringAtIff(s, v, t);
    }
    var c := AfterColon(s, i, key);
    if c.Some? {
      ValueIff(s, i, key, SkipSpace(s, c.value));
      StringAtIff(s, SkipSpace(s, c.value), t);
    }
  }

  /** Digits from `d` to `e`, and no digit behind them. */
  predicate DigitRun(s: string, d: nat, e: nat) {
    d < e <= |s| && (forall j :: d <= j < e ==> Digit(s[j])) && (e < |s| ==> !Digit(s[e]))
  }

  /** A number: an optional sign and a run of digits. */
  ghost predicate NumberAt(s: string, v: nat, n: int) {
    exists d: nat, e: nat :: DigitRun(s, d, e) && WithSignAt(s, v, d, Value(s[d..e]), n)
  }

  /** `n` is the number of the digits that start at `d`, with the sign at `v` in front of them if there is one. */
  predicate WithSignAt(s: string, v: nat, d: nat, digits: nat, n: int) {
    || (d == v && n == digits)
    || (d == v + 1 && v < |s| && s[v] == '+' && n == digits)
    || (d == v + 1 && v < |s| && s[v] == '-' && n == -(digits as int))
  }

  /** The value of `key` is a number from -1 to 255. */
  ghost predicate IntValue(s: string, i: nat, key: string, n: int) {
    -1 <= n <= 0xff && exists v: nat :: ValueAt(s, i, key, v) && NumberAt(s, v, n)
  }

  lemma DigitsIff(s: string, d: nat, e: nat)
    requires d <= |s|
    ensures DigitRun(s, d, e) <==> DigitsEnd(s, d) == e && d < e
  {
  }

  lemma NumberIff(s: string, c: nat, n: int)
    requires c <= |s|
    ensures StrToL(s, c) == Some(n) <==> NumberAt(s, SkipSpace(s, c), n)
  {
    var v := SkipSpace(s, c);
    forall d: nat, e: nat | d <= |s|
      ensures DigitRun(s, d, e) <==> DigitsEnd(s, d) == e && d < e
    {
      DigitsIff(s, d, e);
    }
    if v < |s| && (s[v] == '-' || s[v] == '+') {
      assert !DigitRun(s, v, DigitsEnd(s, v));
      assert StrToL(s, c).Some? ==> DigitRun(s, v + 1, DigitsEnd(s, v + 1));
    } else {
      assert StrToL(s, c).Some? ==> DigitRun(s, v, DigitsEnd(s, v));
    }
  }

  /** `json_int_value_after` accepts exactly the numbers from -1 to 255. */
  lemma IntIff(s: string, i: nat, key: string, n: int)
    requires i <= |s|
    ensures IntAfter(s, i, key) == Some(n) <==> IntValue(s, i, key, n)
  {
    var c := AfterColon(s, i, key);
    if c.Some? {
      NumberIff(s, c.value, n);
      ValueIff(s, i, key, SkipSpace(s, c.value));
    }
    if IntValue(s, i, key, n) {
      var v: nat :| ValueAt(s, i, key, v) && NumberAt(s, v, n);
      ValueIff(s, i, key, v);
    }
  }

  /** The value of `key` is an array that starts at `p` and ends at `e`. */
  ghost predicate ArrayValue(s: string, i: nat, key: string, p: nat, e: nat) {
    && ValueAt(s, i, key, p) && p < |s| && s[p] == '['
    && Closes(s, p, e, '[', ']') && forall q :: p <= q < e ==> !Closes(s, p, q, '[', ']')
  }

  /** `json_find_array_after` finds exactly the array that is the value. */
  lemma ArrayIff(s: string, i: nat, key: string, p: nat, e: nat)
    requires i <= |s|
    ensures ArrayAfter(s, i, key) == Some((p, e)) <==> ArrayValue(s, i, key, p, e)
  {
    ValueIff(s, i, key, p);
    if ArrayValue(s, i, key, p, e) {
      MatchingUnique(s, p, Some(e), '[', ']');
    }
  }
}
