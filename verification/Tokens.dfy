/** VCMux as a token language: the printer, the interpreter that is the specification of the host
    demultiplexer, and the proof that the byte machine implements it on every byte sequence. */
module Tokens {
  import opened Bytes
  import opened JsonScan
  import opened TagTable
  import opened Demux

  datatype Token =
    | Sel(id: byte)
    | Def
    | Plain(b: byte)
    | LitEsc
    | Acked
    | Unknown(cmd: byte)
    | Reg(json: seq<byte>)
    | Ann(kind: byte, payload: seq<byte>)

  predicate ValidToken(t: Token) {
    match t
    case Sel(id) => id != DEFAULT && id != ESC && id != CONTROL
    case Plain(b) => b != ESC
    case Unknown(cmd) => !(1 <= cmd <= 4)
    case Reg(json) => |json| <= 0xffff
    case Ann(kind, payload) => (kind == CONNECTED || kind == DISCONNECTED) && |payload| <= 0xffff
    case _ => true
  }

  predicate ValidTokens(ts: seq<Token>) {
    forall t :: t in ts ==> ValidToken(t)
  }

  function Hi(n: nat): byte
    requires n <= 0xffff
  {
    n / 0x100
  }

  function Lo(n: nat): byte
    requires n <= 0xffff
  {
    n % 0x100
  }

  function Print(t: Token): seq<byte>
    requires ValidToken(t)
  {
    match t
    case Sel(id) => [ESC, id]
    case Def => [ESC, DEFAULT]
    case Plain(b) => [b]
    case LitEsc => [ESC, ESC]
    case Acked => [ESC, CONTROL, ACK]
    case Unknown(cmd) => [ESC, CONTROL, cmd]
    case Reg(json) => [ESC, CONTROL, REGISTRY, Hi(|json|), Lo(|json|)] + json
    case Ann(kind, payload) => [ESC, CONTROL, kind, Hi(|payload|), Lo(|payload|)] + payload
  }

  function PrintAll(ts: seq<Token>): seq<byte>
    requires ValidTokens(ts)
  {
    if ts == [] then [] else Print(ts[0]) + PrintAll(ts[1..])
  }

  lemma {:induction false} PrintAllConcat(a: seq<Token>, b: seq<Token>)
    requires ValidTokens(a) && ValidTokens(b)
    ensures ValidTokens(a + b) && PrintAll(a + b) == PrintAll(a) + PrintAll(b)
  {
    if a == [] {
      assert a + b == b;
    } else {
      assert (a + b)[1..] == a[1..] + b;
      PrintAllConcat(a[1..], b);
    }
  }

  lemma PrintAllCons(t: Token, ts: seq<Token>)
    requires ValidToken(t) && ValidTokens(ts)
    ensures ValidTokens([t] + ts) && PrintAll([t] + ts) == Print(t) + PrintAll(ts)
  {
    assert ([t] + ts)[1..] == ts;
  }

  lemma PrintAllOne(t: Token)
    requires ValidToken(t)
    ensures PrintAll([t]) == Print(t)
  {
    assert PrintAll([t]) == Print(t) + PrintAll([t][1..]);
  }

  // ---------------------------------------------------------------- the interpreter

  /** What one token means. The registry is the only token that can stop the machine. */
  ghost function Interp(h: Host, t: Token): Host {
    if !h.live then h else
    match t
    case Sel(id) => h.(core := Select(h.core, id))
    case Def => h.(core := h.core.(cursor := -1))
    case Plain(b) => h.(core := PlainByte(h.core, b))
    case LitEsc => h.(core := LiteralEsc(h.core))
    case Acked => h.(core := h.core.(acks := h.core.acks + 1))
    case Unknown(_) => h
    case Reg(json) =>
      if json == [] then h else AfterRegistry(h, CStr(Text(json)), Register(h.core, json))
    case Ann(kind, payload) => h.(core := Announce(h.core, kind, payload))
  }

  ghost function AfterRegistry(h: Host, text: string, r: Option<Core>): Host {
    match r
    case None => h.(core := h.core.(registry := Some(text)), live := false)
    case Some(c) => h.(core := c)
  }

  ghost function InterpAll(h: Host, ts: seq<Token>): Host
    decreases ts
  {
    if ts == [] then h else InterpAll(Interp(h, ts[0]), ts[1..])
  }

  lemma {:induction false} InterpConcat(h: Host, a: seq<Token>, b: seq<Token>)
    ensures InterpAll(h, a + b) == InterpAll(InterpAll(h, a), b)
    decreases a
  {
    if a == [] {
      assert a + b == b;
    } else {
      assert (a + b)[1..] == a[1..] + b;
      InterpConcat(Interp(h, a[0]), a[1..], b);
    }
  }

  lemma InterpOne(h: Host, t: Token)
    ensures InterpAll(h, [t]) == Interp(h, t)
  {
    assert InterpAll(Interp(h, t), [t][1..]) == Interp(h, t);
  }

  // ---------------------------------------------------------------- the byte machine refines it

  /** Between tokens: no pending escape, no control record under way. */
  ghost predicate AtBoundary(h: Host) {
    !h.esc && h.ctrl == Idle
  }

  lemma RegistryByte(h: Host, want: nat, got: seq<byte>, b: byte)
    requires h.live && h.ctrl == RegistryBody(want, got)
    ensures |got| + 1 < want ==> Step(h, b) == h.(ctrl := RegistryBody(want, got + [b]))
    ensures |got| + 1 >= want && !h.esc ==> Step(h, b) == Interp(h.(ctrl := Idle), Reg(got + [b]))
  {
  }

  lemma FirstMoved(got: seq<byte>, rest: seq<byte>)
    requires rest != []
    ensures got + [rest[0]] + rest[1..] == got + rest
  {
  }

  lemma RegistryLast(h: Host, want: nat, got: seq<byte>, rest: seq<byte>)
    requires h.live && !h.esc && h.ctrl == RegistryBody(want, got) && |rest| == 1 && |got| + 1 == want
    ensures Run(h, rest) == Interp(h.(ctrl := Idle), Reg(got + rest))
  {
    RegistryByte(h, want, got, rest[0]);
    assert rest == [rest[0]];
    RunOne(h, rest[0]);
  }

  lemma {:induction false} RegistryBytes(h: Host, want: nat, got: seq<byte>, rest: seq<byte>)
    requires h.live && !h.esc && h.ctrl == RegistryBody(want, got) && rest != [] && |got| + |rest| == want
    ensures Run(h, rest) == Interp(h.(ctrl := Idle), Reg(got + rest))
    decreases rest
  {
    if |rest| == 1 {
      RegistryLast(h, want, got, rest);
    } else {
      RegistryByte(h, want, got, rest[0]);
      var h' := h.(ctrl := RegistryBody(want, got + [rest[0]]));
      RegistryBytes(h', want, got + [rest[0]], rest[1..]);
      FirstMoved(got, rest);
      assert h'.(ctrl := Idle) == h.(ctrl := Idle);
    }
  }

  lemma {:induction false} AnnounceBytes(h: Host, kind: byte, want: nat, got: seq<byte>, rest: seq<byte>)
    requires h.live && !h.esc && h.ctrl == AnnounceBody(kind, want, got) && rest != [] && |got| + |rest| == want
    ensures Run(h, rest) == Interp(h.(ctrl := Idle), Ann(kind, got + rest))
    decreases rest
  {
    var h' := Step(h, rest[0]);
    if |rest| == 1 {
      assert rest == [rest[0]];
      RunOne(h, rest[0]);
    } else {
      AnnounceBytes(h', kind, want, got + [rest[0]], rest[1..]);
      assert got + [rest[0]] + rest[1..] == got + rest;
      assert h'.(ctrl := Idle) == h.(ctrl := Idle);
    }
  }

  lemma Run2(h: Host, a: byte, b: byte, rest: seq<byte>)
    ensures Run(h, [a, b] + rest) == Run(Step(Step(h, a), b), rest)
  {
    RunCons(h, a, [b] + rest);
    RunCons(Step(h, a), b, rest);
    assert [a, b] + rest == [a] + ([b] + rest);
  }

  lemma RunTwo(h: Host, a: byte, b: byte)
    ensures Run(h, [a, b]) == Step(Step(h, a), b)
  {
    Run2(h, a, b, []);
    assert [a, b] + [] == [a, b];
  }

  lemma RunThree(h: Host, a: byte, b: byte, c: byte)
    ensures Run(h, [a, b, c]) == Step(Step(Step(h, a), b), c)
  {
    Run3(h, a, b, c, []);
    assert [a, b, c] + [] == [a, b, c];
  }

  lemma Run3(h: Host, a: byte, b: byte, c: byte, rest: seq<byte>)
    ensures Run(h, [a, b, c] + rest) == Run(Step(Step(Step(h, a), b), c), rest)
  {
    Run2(h, a, b, [c] + rest);
    RunCons(Step(Step(h, a), b), c, rest);
    assert [a, b, c] + rest == [a, b] + ([c] + rest);
  }

  lemma Run5(h: Host, a: byte, b: byte, c: byte, d: byte, e: byte, rest: seq<byte>)
    ensures Run(h, [a, b, c, d, e] + rest) == Run(Step(Step(Step(Step(Step(h, a), b), c), d), e), rest)
  {
    Run3(h, a, b, c, [d, e] + rest);
    Run2(Step(Step(Step(h, a), b), c), d, e, rest);
    assert [a, b, c, d, e] + rest == [a, b, c] + ([d, e] + rest);
  }

  lemma HiLo(n: nat)
    requires n <= 0xffff
    ensures Word(Hi(n), Lo(n)) == n && (n == 0 <==> Hi(n) == 0 == Lo(n))
  {
  }

  lemma ShortTokenRefined(h: Host, t: Token)
    requires AtBoundary(h) && h.live && ValidToken(t) && !t.Reg? && !t.Ann?
    ensures Run(h, Print(t)) == Interp(h, t)
  {
    match t
    case Plain(b) => RunOne(h, b);
    case Sel(id) => RunTwo(h, ESC, id);
    case Def => RunTwo(h, ESC, DEFAULT);
    case LitEsc => RunTwo(h, ESC, ESC);
    case Acked => RunThree(h, ESC, CONTROL, ACK);
    case Unknown(cmd) => RunThree(h, ESC, CONTROL, cmd);
  }

  predicate LongKind(kind: byte) {
    kind == REGISTRY || kind == CONNECTED || kind == DISCONNECTED
  }

  /** The parser behind the header of a record with `n` more bytes. */
  function Opened(kind: byte, n: nat): Control
    requires LongKind(kind)
  {
    if n == 0 then Idle else if kind == REGISTRY then RegistryBody(n, []) else AnnounceBody(kind, n, [])
  }

  lemma HeaderRead(h: Host, kind: byte, hi: byte, lo: byte, rest: seq<byte>)
    requires AtBoundary(h) && h.live && LongKind(kind)
    ensures Run(h, [ESC, CONTROL, kind, hi, lo] + rest) == Run(h.(ctrl := Opened(kind, Word(hi, lo))), rest)
  {
    var h1 := h.(esc := true);
    var h2 := h.(ctrl := Cmd);
    var h3 := h.(ctrl := if kind == REGISTRY then RegistryHi else AnnounceHi(kind));
    var h4 := h.(ctrl := if kind == REGISTRY then RegistryLo(hi) else AnnounceLo(kind, hi));
    assert Step(h, ESC) == h1;
    assert Step(h1, CONTROL) == h2;
    assert Step(h2, kind) == h3;
    assert Step(h3, hi) == h4;
    LengthRead(h, kind, hi, lo);
    Run5(h, ESC, CONTROL, kind, hi, lo, rest);
  }

  lemma LengthRead(h: Host, kind: byte, hi: byte, lo: byte)
    requires AtBoundary(h) && h.live && LongKind(kind)
    ensures Step(h.(ctrl := if kind == REGISTRY then RegistryLo(hi) else AnnounceLo(kind, hi)), lo) ==
            h.(ctrl := Opened(kind, Word(hi, lo)))
  {
  }

  lemma RegistryRefined(h: Host, json: seq<byte>)
    requires AtBoundary(h) && h.live
    ensures Run(h.(ctrl := Opened(REGISTRY, |json|)), json) == Interp(h, Reg(json))
  {
    if json != [] {
      RegistryBytes(h.(ctrl := RegistryBody(|json|, [])), |json|, [], json);
      assert [] + json == json && h.(ctrl := Idle) == h;
    }
  }

  lemma AnnounceRefined(h: Host, kind: byte, payload: seq<byte>)
    requires AtBoundary(h) && h.live && (kind == CONNECTED || kind == DISCONNECTED)
    ensures Run(h.(ctrl := Opened(kind, |payload|)), payload) == Interp(h, Ann(kind, payload))
  {
    if payload != [] {
      AnnounceBytes(h.(ctrl := AnnounceBody(kind, |payload|, [])), kind, |payload|, [], payload);
      assert [] + payload == payload && h.(ctrl := Idle) == h;
    }
  }

  /** One printed token takes the byte machine exactly where the interpreter goes, whatever bytes a
      control payload holds. */
  lemma TokenRefined(h: Host, t: Token)
    requires AtBoundary(h) && ValidToken(t)
    ensures Run(h, Print(t)) == Interp(h, t) && AtBoundary(Interp(h, t))
  {
    if !h.live {
      RunStopped(h, Print(t));
    } else if t.Reg? {
      HiLo(|t.json|);
      HeaderRead(h, REGISTRY, Hi(|t.json|), Lo(|t.json|), t.json);
      RegistryRefined(h, t.json);
    } else if t.Ann? {
      HiLo(|t.payload|);
      HeaderRead(h, t.kind, Hi(|t.payload|), Lo(|t.payload|), t.payload);
      AnnounceRefined(h, t.kind, t.payload);
    } else {
      ShortTokenRefined(h, t);
    }
  }

  /** Refinement: on the bytes of any token list the machine and the interpreter agree. */
  lemma {:induction false} TokensRefined(h: Host, ts: seq<Token>)
    requires AtBoundary(h) && ValidTokens(ts)
    ensures Run(h, PrintAll(ts)) == InterpAll(h, ts) && AtBoundary(InterpAll(h, ts))
    decreases ts
  {
    if ts != [] {
      TokenRefined(h, ts[0]);
      TokensRefined(Interp(h, ts[0]), ts[1..]);
      RunConcat(h, Print(ts[0]), PrintAll(ts[1..]));
    }
  }

  // ---------------------------------------------------------------- every byte sequence is a token list and a rest

  /** The token a byte sequence starts with, and its length; None when the bytes end inside it. */
  function First(bs: seq<byte>): (r: Option<(Token, nat)>)
    ensures r.Some? ==> ValidToken(r.value.0) && 0 < r.value.1 <= |bs| && Print(r.value.0) == bs[..r.value.1]
  {
    if |bs| == 0 then None
    else if bs[0] != ESC then Some((Plain(bs[0]), 1))
    else if |bs| == 1 then None
    else if bs[1] == DEFAULT then Some((Def, 2))
    else if bs[1] == ESC then Some((LitEsc, 2))
    else if bs[1] != CONTROL then Some((Sel(bs[1]), 2))
    else if |bs| == 2 then None
    else if bs[2] == ACK then Some((Acked, 3))
    else if !(1 <= bs[2] <= 4) then Some((Unknown(bs[2]), 3))
    else if |bs| < 5 then None
    else
      var n := Word(bs[3], bs[4]);
      if |bs| < 5 + n then None
      else
        RecordPrinted(bs, n);
        Some((Record(bs[2], bs[5..5 + n]), 5 + n))
  }

  /** A token with a length and a body. */
  function Record(kind: byte, body: seq<byte>): Token {
    if kind == REGISTRY then Reg(body) else Ann(kind, body)
  }

  lemma WordParts(hi: byte, lo: byte)
    ensures Hi(Word(hi, lo)) == hi && Lo(Word(hi, lo)) == lo
  {
  }

  lemma RecordPrinted(bs: seq<byte>, n: nat)
    requires 5 + n <= |bs| && bs[0] == ESC && bs[1] == CONTROL && LongKind(bs[2]) && n == Word(bs[3], bs[4])
    ensures var t := Record(bs[2], bs[5..5 + n]); ValidToken(t) && Print(t) == bs[..5 + n]
  {
    WordParts(bs[3], bs[4]);
    HeadAndBody(bs, n);
  }

  lemma HeadAndBody(bs: seq<byte>, n: nat)
    requires 5 + n <= |bs|
    ensures bs[..5 + n] == [bs[0], bs[1], bs[2], bs[3], bs[4]] + bs[5..5 + n]
  {
  }

  /** All complete tokens of `bs`, and the bytes left over. */
  function Lex(bs: seq<byte>): (seq<Token>, seq<byte>)
    decreases |bs|
  {
    match First(bs)
    case None => ([], bs)
    case Some(f) => var rest := Lex(bs[f.1..]); ([f.0] + rest.0, rest.1)
  }

  lemma PutBack(bs: seq<byte>, t: Token, n: nat, ts: seq<Token>, rest: seq<byte>)
    requires n <= |bs| && ValidToken(t) && ValidTokens(ts)
    requires Print(t) == bs[..n] && PrintAll(ts) + rest == bs[n..]
    ensures ValidTokens([t] + ts) && PrintAll([t] + ts) + rest == bs
  {
    PrintAllCons(t, ts);
    assert Print(t) + PrintAll(ts) + rest == bs[..n] + bs[n..];
  }

  /** Lexing loses nothing: the tokens' bytes followed by the rest are the input, and the rest is an
      incomplete token. */
  lemma {:induction false} LexSound(bs: seq<byte>)
    ensures ValidTokens(Lex(bs).0) && PrintAll(Lex(bs).0) + Lex(bs).1 == bs && First(Lex(bs).1).None?
    decreases |bs|
  {
    var f := First(bs);
    if f.Some? {
      var (t, n) := f.value;
      LexSound(bs[n..]);
      PutBack(bs, t, n, Lex(bs[n..]).0, Lex(bs[n..]).1);
    }
  }

  lemma FirstOfPrinted(t: Token, rest: seq<byte>)
    requires ValidToken(t)
    ensures First(Print(t) + rest) == Some((t, |Print(t)|))
  {
    var bs := Print(t) + rest;
    match t
    case Reg(json) =>
      HiLo(|json|);
      assert bs[5..5 + |json|] == json;
    case Ann(kind, payload) =>
      HiLo(|payload|);
      assert bs[5..5 + |payload|] == payload;
    case _ =>
  }

  /** Printing is uniquely decodable: lexing what was printed gives the tokens back. */
  lemma {:induction false} LexOfPrinted(ts: seq<Token>, rest: seq<byte>)
    requires ValidTokens(ts) && First(rest).None?
    ensures Lex(PrintAll(ts) + rest) == (ts, rest)
    decreases ts
  {
    if ts == [] {
      assert PrintAll(ts) + rest == rest;
    } else {
      var tail := PrintAll(ts[1..]) + rest;
      assert PrintAll(ts) + rest == Print(ts[0]) + tail;
      LexOfPrinted(ts[1..], rest);
      LexFirst(ts[0], tail);
      assert [ts[0]] + ts[1..] == ts;
    }
  }

  lemma LexFirst(t: Token, tail: seq<byte>)
    requires ValidToken(t)
    ensures Lex(Print(t) + tail) == ([t] + Lex(tail).0, Lex(tail).1)
  {
    FirstOfPrinted(t, tail);
    assert (Print(t) + tail)[|Print(t)|..] == tail;
  }

  lemma {:induction false} BodyIncomplete(h: Host, rest: seq<byte>)
    requires h.live && (h.ctrl.RegistryBody? || h.ctrl.AnnounceBody?) && |h.ctrl.got| + |rest| < h.ctrl.want
    ensures Run(h, rest).core == h.core && Run(h, rest).live
    decreases rest
  {
    if rest != [] {
      BodyIncomplete(Step(h, rest[0]), rest[1..]);
    }
  }

  /** Up to four bytes of an incomplete token: an escape, a control byte, a command and a length byte. */
  lemma ShortRest(rest: seq<byte>)
    requires First(rest).None? && |rest| <= 4
    ensures rest == [] || rest == [ESC] || rest == [ESC, CONTROL] ||
            (|rest| >= 3 && rest[0] == ESC && rest[1] == CONTROL && LongKind(rest[2]))
  {
  }

  lemma ShortRestIsSilent(h: Host, rest: seq<byte>)
    requires AtBoundary(h) && h.live && First(rest).None? && |rest| <= 4
    ensures Run(h, rest).core == h.core && Run(h, rest).live
  {
    ShortRest(rest);
    if |rest| == 1 {
      RunOne(h, ESC);
    } else if |rest| == 2 {
      RunTwo(h, ESC, CONTROL);
    } else if |rest| >= 3 {
      LengthPending(h, rest[2], rest[3..]);
      assert rest == [ESC, CONTROL, rest[2]] + rest[3..];
    }
  }

  /** Behind the command byte of a record, with at most one of its length bytes. */
  lemma LengthPending(h: Host, kind: byte, more: seq<byte>)
    requires AtBoundary(h) && h.live && LongKind(kind) && |more| <= 1
    ensures var h' := Run(h, [ESC, CONTROL, kind] + more); h'.core == h.core && h'.live
  {
    Run3(h, ESC, CONTROL, kind, more);
    if more != [] {
      assert more == [more[0]];
      RunOne(Step(Step(Step(h, ESC), CONTROL), kind), more[0]);
    }
  }

  /** An incomplete token has no effect yet. */
  lemma RestIsSilent(h: Host, rest: seq<byte>)
    requires AtBoundary(h) && First(rest).None?
    ensures Run(h, rest).core == h.core && Run(h, rest).live == h.live
  {
    if !h.live {
      RunStopped(h, rest);
    } else if |rest| <= 4 {
      ShortRestIsSilent(h, rest);
    } else {
      LongRestIsSilent(h, rest);
    }
  }

  lemma LongRestIsSilent(h: Host, rest: seq<byte>)
    requires AtBoundary(h) && h.live && First(rest).None? && |rest| >= 5
    ensures Run(h, rest).core == h.core && Run(h, rest).live
  {
    assert rest == [ESC, CONTROL, rest[2], rest[3], rest[4]] + rest[5..];
    HeaderRead(h, rest[2], rest[3], rest[4], rest[5..]);
    BodyIncomplete(h.(ctrl := Opened(rest[2], Word(rest[3], rest[4]))), rest[5..]);
  }

  /** The whole meaning of the demultiplexer: after any bytes from a boundary its table, logs, cursor
      and acknowledgement count are those of the complete tokens in the bytes. */
  lemma EveryByteSequence(h: Host, bs: seq<byte>)
    requires AtBoundary(h)
    ensures Run(h, bs).core == InterpAll(h, Lex(bs).0).core && Run(h, bs).live == InterpAll(h, Lex(bs).0).live
  {
    var (ts, rest) := Lex(bs);
    LexSound(bs);
    TokensRefined(h, ts);
    RunConcat(h, PrintAll(ts), rest);
    RestIsSilent(InterpAll(h, ts), rest);
  }

  // ---------------------------------------------------------------- the table never fills up

  /** CONNECTED records only announce ids both ends can use. */
  predicate AnnouncesValid(ts: seq<Token>) {
    forall t :: t in ts && t.Ann? && t.kind == CONNECTED && t.payload != [] ==> ValidId(t.payload[0])
  }

  ghost predicate IdsValid(t: Table) {
    TagTable.Valid(t) && forall i :: 3 <= i < |t.tags| ==> ValidId(t.tags[i].value)
  }

  lemma AppendIds(t: Table, e: Entry)
    requires IdsValid(t)
    ensures var r := Append(t, e.id, e.name, e.input); r.Some? ==> IdsValid(r.value)
  {
    AppendValid(t, e.id, e.name, e.input);
  }

  lemma {:induction false} ReadStreamsIds(s: string, pos: nat, end: nat, t: Table)
    requires end <= |s| && IdsValid(t)
    ensures var r := ReadStreams(s, pos, end, t); r.Some? ==> IdsValid(r.value)
    decreases |s| - pos
  {
    var item := NextItem(s, pos, end);
    if item.Item? {
      var u := Append(t, item.entry.id, item.entry.name, item.entry.input);
      AppendIds(t, item.entry);
      if u.Some? {
        ReadStreamsIds(s, item.next, end, u.value);
      }
    }
  }

  lemma RegistryKeepsIds(t: Table, json: string)
    requires IdsValid(t)
    ensures var r := ApplyRegistry(t, json); r.Some? ==> IdsValid(r.value)
  {
    var b := ArrayAfter(json, 0, KEY_STREAMS);
    if b.Some? {
      ReadStreamsIds(json, b.value.0 + 1, b.value.1, t);
    }
  }

  lemma ConnectKeepsIds(t: Table, payload: seq<byte>)
    requires IdsValid(t) && payload != [] && ValidId(payload[0])
    ensures IdsValid(Connect(t, payload))
  {
    UpdatesKeepTable(t, "", payload);
  }

  lemma RecordKeepsIds(h: Host, json: seq<byte>)
    requires IdsValid(h.core.table)
    ensures IdsValid(Interp(h, Reg(json)).core.table)
  {
    RegistryKeepsIds(h.core.table, CStr(Text(json)));
  }

  lemma TokenKeepsIds(h: Host, t: Token)
    requires IdsValid(h.core.table) && AnnouncesValid([t])
    ensures IdsValid(Interp(h, t).core.table)
  {
    match t
    case Reg(json) => RecordKeepsIds(h, json);
    case Ann(kind, payload) =>
      assert t in [t];
      if kind == CONNECTED && payload != [] {
        ConnectKeepsIds(h.core.table, payload);
      }
    case _ =>
  }

  lemma {:induction false} TokensKeepIds(h: Host, ts: seq<Token>)
    requires IdsValid(h.core.table) && AnnouncesValid(ts)
    ensures IdsValid(InterpAll(h, ts).core.table)
    decreases ts
  {
    if ts != [] {
      assert [ts[0]][0] in ts;
      TokenKeepsIds(h, ts[0]);
      TokensKeepIds(Interp(h, ts[0]), ts[1..]);
    }
  }

  /** As long as CONNECTED records carry valid ids, no byte sequence fills the table: it holds at most 256
      entries, so the capacity errors are unreachable and every index fits one byte. */
  lemma TableNeverFull(patch: bool, bs: seq<byte>)
    requires AnnouncesValid(Lex(bs).0)
    ensures |Run(Initial(patch), bs).core.table.tags| <= 256 < CAPACITY
  {
    LexSound(bs);
    EveryByteSequence(Initial(patch), bs);
    TokensKeepIds(Initial(patch), Lex(bs).0);
    ValidIdsLeaveRoom(InterpAll(Initial(patch), Lex(bs).0).core.table);
  }

  // ---------------------------------------------------------------- acknowledgements

  function DropAcks(ts: seq<Token>): seq<Token> {
    if ts == [] then [] else (if ts[0].Acked? then [] else [ts[0]]) + DropAcks(ts[1..])
  }

  function CountAcks(ts: seq<Token>): nat {
    if ts == [] then 0 else (if ts[0].Acked? then 1 else 0) + CountAcks(ts[1..])
  }

  ghost function AddAcks(h: Host, n: nat): Host {
    h.(core := h.core.(acks := h.core.acks + n))
  }

  lemma CoreAcks(c: Core, n: nat, json: seq<byte>, kind: byte, payload: seq<byte>)
    ensures var more := c.(acks := c.acks + n);
            && Announce(more, kind, payload) == Announce(c, kind, payload).(acks := c.acks + n)
            && Register(more, json).Some? == Register(c, json).Some?
            && (Register(c, json).Some? ==> Register(more, json).value == Register(c, json).value.(acks := c.acks + n))
            && Announce(c, kind, payload).acks == c.acks
            && (Register(c, json).Some? ==> Register(c, json).value.acks == c.acks)
  {
  }

  lemma BytesAcks(c: Core, n: nat, b: byte)
    ensures PlainByte(c.(acks := c.acks + n), b) == PlainByte(c, b).(acks := c.acks + n)
    ensures PlainByte(c, b).acks == c.acks
    ensures LiteralEsc(c.(acks := c.acks + n)) == LiteralEsc(c).(acks := c.acks + n) && LiteralEsc(c).acks == c.acks
  {
  }

  lemma AfterAcks(h: Host, text: string, r: Option<Core>, r': Option<Core>, n: nat)
    requires r.Some? == r'.Some?
    requires r.Some? ==> r'.value == r.value.(acks := h.core.acks + n) && r.value.acks == h.core.acks
    ensures AddAcks(AfterRegistry(h, text, r), n) == AfterRegistry(AddAcks(h, n), text, r')
  {
  }

  lemma RegistryAcks(h: Host, json: seq<byte>, n: nat)
    ensures AddAcks(Interp(h, Reg(json)), n) == Interp(AddAcks(h, n), Reg(json))
  {
    CoreAcks(h.core, n, json, 0, []);
    AfterAcks(h, CStr(Text(json)), Register(h.core, json), Register(AddAcks(h, n).core, json), n);
  }

  lemma AnnounceAcks(h: Host, kind: byte, payload: seq<byte>, n: nat)
    ensures AddAcks(Interp(h, Ann(kind, payload)), n) == Interp(AddAcks(h, n), Ann(kind, payload))
  {
    CoreAcks(h.core, n, [], kind, payload);
  }

  lemma AckCommutes(h: Host, t: Token, n: nat)
    ensures AddAcks(Interp(h, t), n) == Interp(AddAcks(h, n), t)
  {
    if t.Reg? {
      RegistryAcks(h, t.json, n);
    } else if t.Ann? {
      AnnounceAcks(h, t.kind, t.payload, n);
    } else {
      BytesAcks(h.core, n, if t.Plain? then t.b else 0);
    }
  }

  lemma {:induction false} AcksCommute(h: Host, ts: seq<Token>, n: nat)
    ensures AddAcks(InterpAll(h, ts), n) == InterpAll(AddAcks(h, n), ts)
    decreases ts
  {
    if ts != [] {
      AckCommutes(h, ts[0], n);
      AcksCommute(Interp(h, ts[0]), ts[1..], n);
    }
  }

  lemma {:induction false} StaysStopped(h: Host, ts: seq<Token>)
    requires !h.live
    ensures InterpAll(h, ts) == h
    decreases ts
  {
    if ts != [] {
      StaysStopped(h, ts[1..]);
    }
  }

  /** Acknowledgements anywhere between tokens change nothing but the acknowledgement count, which
      grows by exactly their number as long as the machine has not stopped. */
  lemma {:induction false} AcksTransparent(h: Host, ts: seq<Token>)
    requires InterpAll(h, ts).live
    ensures InterpAll(h, ts) == AddAcks(InterpAll(h, DropAcks(ts)), CountAcks(ts))
    decreases ts
  {
    if ts != [] {
      if !h.live {
        StaysStopped(h, ts);
      }
      var h' := Interp(h, ts[0]);
      AcksTransparent(h', ts[1..]);
      if ts[0].Acked? {
        AcksCommute(h, DropAcks(ts[1..]), 1);
        assert h' == AddAcks(h, 1);
        assert [] + DropAcks(ts[1..]) == DropAcks(ts[1..]);
      } else {
        assert ([ts[0]] + DropAcks(ts[1..]))[1..] == DropAcks(ts[1..]);
      }
    }
  }

  lemma DropAcksValid(ts: seq<Token>)
    requires ValidTokens(ts)
    ensures ValidTokens(DropAcks(ts))
  {
  }

  /** The same for bytes: an uplink with acknowledgement records at its token boundaries, and the
      uplink without them, differ only in the count. */
  lemma AckBytesTransparent(h: Host, ts: seq<Token>)
    requires AtBoundary(h) && ValidTokens(ts) && Run(h, PrintAll(ts)).live
    ensures ValidTokens(DropAcks(ts))
    ensures Run(h, PrintAll(ts)) == AddAcks(Run(h, PrintAll(DropAcks(ts))), CountAcks(ts))
  {
    DropAcksValid(ts);
    TokensRefined(h, ts);
    TokensRefined(h, DropAcks(ts));
    AcksTransparent(h, ts);
  }

  /** Exactly where an acknowledgement record may be inserted: it is absorbed if and only if the
      machine stands at a token boundary. */
  lemma AckAbsorbedIffAtBoundary(h: Host)
    requires HostOk(h) && h.live
    ensures Run(h, [ESC, CONTROL, ACK]) == AddAcks(h, 1) <==> AtBoundary(h)
  {
    RunThree(h, ESC, CONTROL, ACK);
    var h1 := Step(h, ESC);
    var h2 := Step(h1, CONTROL);
    var h3 := Step(h2, ACK);
    assert Run(h, [ESC, CONTROL, ACK]) == h3;
    if h.ctrl.RegistryBody? || h.ctrl.AnnounceBody? {
      AckInBody(h);
    }
  }

  /** Inside a record body the acknowledgement is three more bytes of it. */
  lemma AckInBody(h: Host)
    requires HostOk(h) && h.live && (h.ctrl.RegistryBody? || h.ctrl.AnnounceBody?)
    ensures Step(Step(Step(h, ESC), CONTROL), ACK) != AddAcks(h, 1)
  {
    var h3 := Step(Step(Step(h, ESC), CONTROL), ACK);
    assert !h3.live || h3.ctrl == Idle || (h3.ctrl != h.ctrl && |h3.ctrl.got| == |h.ctrl.got| + 3);
  }

  /** A byte sequence that an acknowledgement breaks: 0xfe 0x01 with the record between its two bytes
      puts three stray bytes into the unframed log and acknowledges nothing. */
  lemma AckInsideEscapeBreaks()
    ensures var h := Initial(false);
            var broken := Run(h, [ESC] + [ESC, CONTROL, ACK] + [1]);
            |broken.core.ptys| == |Run(h, [ESC, 1]).core.ptys| == 3 &&
            broken.core.acks == 0 && broken.core.ptys[UNFRAMED].log == [CONTROL, ACK, 1] &&
            Run(h, [ESC, 1]).core.ptys[UNFRAMED].log == []
  {
    var h := Initial(false);
    assert [ESC] + [ESC, CONTROL, ACK] + [1] == [ESC, ESC, CONTROL, ACK, 1] + [];
    Run5(h, ESC, ESC, CONTROL, ACK, 1, []);
    RunTwo(h, ESC, 1);
    assert Find(BUILTINS.tags, 1) == -1;
  }

  // ---------------------------------------------------------------- records without effect

  /** Between tokens a control record with an unknown command is skipped, and so are an announcement or a registry
      without a body and every registry behind the first one. */
  lemma IgnoredRecords(h: Host, cmd: byte, json: seq<byte>)
    requires AtBoundary(h) && |json| <= 0xffff
    ensures !(1 <= cmd <= 4) ==> Run(h, [ESC, CONTROL, cmd]) == h
    ensures cmd == CONNECTED || cmd == DISCONNECTED || cmd == REGISTRY ==> Run(h, [ESC, CONTROL, cmd, 0, 0]) == h
    ensures h.core.registry.Some? ==>
              Run(h, [ESC, CONTROL, REGISTRY, |json| / 0x100, |json| % 0x100] + json) == h
  {
    if !(1 <= cmd <= 4) {
      TokenRefined(h, Unknown(cmd));
    }
    if cmd == REGISTRY {
      EmptyRecord(h, Reg([]), cmd);
    } else if cmd == CONNECTED || cmd == DISCONNECTED {
      EmptyRecord(h, Ann(cmd, []), cmd);
    }
    TokenRefined(h, Reg(json));
  }

  lemma EmptyRecord(h: Host, t: Token, cmd: byte)
    requires AtBoundary(h) && ValidToken(t) && t == Record(cmd, []) && LongKind(cmd)
    ensures Run(h, [ESC, CONTROL, cmd, 0, 0]) == h
  {
    TokenRefined(h, t);
    assert Print(t) == [ESC, CONTROL, cmd, 0, 0];
  }
}
