/** One pseudo-terminal as an append-only log, and the line-ending patch in front of it
    (`flush_stream` and `patch2flush_stream` in host/tcu_com.c). */
module LineEnding {
  import opened Bytes

  const LF: byte := 10
  const CR: byte := 13

  /** A PTY log with the two per-PTY flags of the patch: a pending LF and a pending CR. */
  datatype Pty = Pty(log: seq<byte>, seenN: bool, seenR: bool)

  const FRESH := Pty([], false, false)

  predicate Eol(b: byte) {
    b == LF || b == CR
  }

  /** Write one byte; `patch` is the negation of `disable_patch`. */
  function Put(patch: bool, p: Pty, b: byte): Pty {
    if !patch then p.(log := p.log + [b])
    else if Eol(b) then
      var n, r := p.seenN || b == LF, p.seenR || b == CR;
      if n && r then Pty(p.log + [b], false, false) else Pty(p.log + [b], n, r)
    else
      var fill := if p.seenR then [LF] else if p.seenN then [CR] else [];
      Pty(p.log + fill + [b], false, false)
  }

  function PutAll(patch: bool, p: Pty, bs: seq<byte>): Pty
    decreases bs
  {
    if bs == [] then p else PutAll(patch, Put(patch, p, bs[0]), bs[1..])
  }

  /** `patch2flush_stream`, with the C control flow: the flags are set, read and cleared one after the other. */
  method Patch2Flush(patch: bool, p: Pty, b: byte) returns (q: Pty)
    requires !(p.seenN && p.seenR)
    ensures q == Put(patch, p, b)
    ensures !(q.seenN && q.seenR)
  {
    q := p;
    if patch {
      if b == LF {
        q := q.(seenN := true);
      } else if b == CR {
        q := q.(seenR := true);
      } else {
        if q.seenR {
          q := Pty(q.log + [LF], false, false);
        }
        if q.seenN {
          q := Pty(q.log + [CR], false, false);
        }
      }
    }
    q := q.(log := q.log + [b]);
    if patch && q.seenR && q.seenN {
      q := Pty(q.log, false, false);
    }
  }

  lemma {:induction false} PutAllConcat(patch: bool, p: Pty, a: seq<byte>, b: seq<byte>)
    ensures PutAll(patch, p, a + b) == PutAll(patch, PutAll(patch, p, a), b)
    decreases a
  {
    if a == [] {
      assert a + b == b;
    } else {
      assert (a + b)[1..] == a[1..] + b;
      PutAllConcat(patch, Put(patch, p, a[0]), a[1..], b);
    }
  }

  lemma PutAllSnoc(patch: bool, p: Pty, a: seq<byte>, b: byte)
    ensures PutAll(patch, p, a + [b]) == Put(patch, PutAll(patch, p, a), b)
  {
    PutAllConcat(patch, p, a, [b]);
    assert PutAll(patch, PutAll(patch, p, a), [b]) == PutAll(patch, Put(patch, PutAll(patch, p, a), b), [b][1..]);
  }

  /** With the patch off a log is exactly what was written. */
  lemma {:induction false} UnpatchedIsVerbatim(p: Pty, bs: seq<byte>)
    ensures PutAll(false, p, bs) == p.(log := p.log + bs)
    decreases bs
  {
    if bs == [] {
      assert p.log + bs == p.log;
    } else {
      UnpatchedIsVerbatim(Put(false, p, bs[0]), bs[1..]);
      assert p.log + bs == p.log + [bs[0]] + bs[1..];
    }
  }

  /** `a` can be obtained from `b` by deleting bytes. */
  ghost predicate Subsequence(a: seq<byte>, b: seq<byte>) {
    a == [] || (b != [] && (if a[|a| - 1] == b[|b| - 1] then Subsequence(a[..|a| - 1], b[..|b| - 1])
                            else Subsequence(a, b[..|b| - 1])))
  }

  lemma {:induction false} SubsequenceDrop(a: seq<byte>, b: seq<byte>)
    requires a != [] && Subsequence(a, b)
    ensures Subsequence(a[..|a| - 1], b)
    decreases |b|
  {
    var a', b' := a[..|a| - 1], b[..|b| - 1];
    if a[|a| - 1] == b[|b| - 1] {
      if a' != [] {
        SubsequenceDrop(a', b');
      }
    } else {
      SubsequenceDrop(a, b');
    }
    if a' != [] {
      assert Subsequence(a', b');
      if a'[|a'| - 1] == b[|b| - 1] {
        SubsequenceDrop(a', b');
      }
    }
  }

  lemma SubsequenceGrow(a: seq<byte>, b: seq<byte>, y: byte)
    requires Subsequence(a, b)
    ensures Subsequence(a, b + [y])
  {
    assert (b + [y])[..|b|] == b;
    if a != [] && a[|a| - 1] == y {
      SubsequenceDrop(a, b);
    }
  }

  lemma SubsequenceSnoc(a: seq<byte>, b: seq<byte>, y: byte)
    requires Subsequence(a, b)
    ensures Subsequence(a + [y], b + [y])
  {
    assert (b + [y])[..|b|] == b && (a + [y])[..|a|] == a;
  }

  lemma PutKeepsInput(p: Pty, sent: seq<byte>, b: byte)
    requires Subsequence(sent, p.log)
    ensures Subsequence(sent + [b], Put(true, p, b).log)
  {
    var q := Put(true, p, b);
    if !Eol(b) && (p.seenR || p.seenN) {
      var fill := if p.seenR then LF else CR;
      SubsequenceGrow(sent, p.log, fill);
      SubsequenceSnoc(sent, p.log + [fill], b);
      assert q.log == p.log + [fill] + [b];
    } else {
      SubsequenceSnoc(sent, p.log, b);
      assert q.log == p.log + [b];
    }
  }

  /** Patching only ever adds bytes: the input survives as a subsequence of the output. */
  lemma {:induction false} PatchKeepsInput(p: Pty, sent: seq<byte>, bs: seq<byte>)
    requires Subsequence(sent, p.log)
    ensures Subsequence(sent + bs, PutAll(true, p, bs).log)
    decreases bs
  {
    if bs == [] {
      assert sent + bs == sent;
    } else {
      var more := sent + [bs[0]];
      assert sent + bs == more + bs[1..];
      PutKeepsInput(p, sent, bs[0]);
      PatchKeepsInput(Put(true, p, bs[0]), more, bs[1..]);
    }
  }

  /** `log[i..j]` is a nonempty run of line-ending bytes that cannot be extended to the left. */
  ghost predicate EolRun(log: seq<byte>, i: int, j: int) {
    0 <= i < j <= |log| && (i == 0 || !Eol(log[i - 1])) && forall k :: i <= k < j ==> Eol(log[k])
  }

  /** Every line-ending run that an ordinary byte ends holds both a CR and an LF. */
  ghost predicate RunsComplete(log: seq<byte>) {
    forall i, j :: EolRun(log, i, j) && j < |log| && !Eol(log[j]) ==> (LF in log[i..j]) && (CR in log[i..j])
  }

  /** The run at the end of the log, not ended yet, lacks at most what the flags announce. */
  ghost predicate TailMatchesFlags(p: Pty) {
    && !(p.seenN && p.seenR)
    && (p.seenN || p.seenR ==> p.log != [] && Eol(p.log[|p.log| - 1]))
    && forall i :: EolRun(p.log, i, |p.log|) ==>
         && (LF in p.log[i..] || p.seenR)
         && (CR in p.log[i..] || p.seenN)
         && (p.seenR ==> CR in p.log[i..])
         && (p.seenN ==> LF in p.log[i..])
  }

  /** Runs that end inside `log` are runs of `log`, with the same bytes. */
  lemma RunInPrefix(log: seq<byte>, more: seq<byte>, i: int, j: int)
    requires j <= |log| && EolRun(log + more, i, j)
    ensures EolRun(log, i, j) && (log + more)[i..j] == log[i..j]
  {
    assert forall k :: 0 <= k < |log| ==> (log + more)[k] == log[k];
  }

  /** Runs that an ordinary byte in front of `b` ends are those of the log so far. */
  lemma RunsStay(log: seq<byte>, b: byte)
    requires Eol(b) && RunsComplete(log)
    ensures RunsComplete(log + [b])
  {
    forall i, j | EolRun(log + [b], i, j) && j < |log + [b]| && !Eol((log + [b])[j])
      ensures (LF in (log + [b])[i..j]) && (CR in (log + [b])[i..j])
    {
      RunInPrefix(log, [b], i, j);
    }
  }

  /** The run at the end of the log with one more line-ending byte. */
  lemma LongerTail(log: seq<byte>, b: byte, i: int)
    requires Eol(b) && EolRun(log + [b], i, |log| + 1)
    ensures (log + [b])[i..] == log[i..] + [b]
    ensures i < |log| ==> EolRun(log, i, |log|)
    ensures i >= |log| ==> i == |log| && (log != [] ==> !Eol(log[|log| - 1]))
  {
    if i < |log| {
      assert EolRun(log + [b], i, |log|);
      RunInPrefix(log, [b], i, |log|);
    }
  }

  lemma EolStep(p: Pty, b: byte)
    requires Eol(b) && RunsComplete(p.log) && TailMatchesFlags(p)
    ensures RunsComplete(Put(true, p, b).log) && TailMatchesFlags(Put(true, p, b))
  {
    var q := Put(true, p, b);
    RunsStay(p.log, b);
    forall i | EolRun(q.log, i, |q.log|)
      ensures (LF in q.log[i..] || q.seenR) && (CR in q.log[i..] || q.seenN)
      ensures (q.seenR ==> CR in q.log[i..]) && (q.seenN ==> LF in q.log[i..])
    {
      LongerTail(p.log, b, i);
      assert b in p.log[i..] + [b];
    }
  }

  lemma OrdinaryStep(p: Pty, b: byte)
    requires !Eol(b) && RunsComplete(p.log) && TailMatchesFlags(p)
    ensures RunsComplete(Put(true, p, b).log) && TailMatchesFlags(Put(true, p, b))
  {
    var fill := if p.seenR then [LF] else if p.seenN then [CR] else [];
    assert Put(true, p, b).log == p.log + (fill + [b]);
    FilledRuns(p, fill, b);
    OrdinaryTail(p.log + fill, b);
    assert p.log + fill + [b] == p.log + (fill + [b]);
  }

  lemma OrdinaryTail(log: seq<byte>, b: byte)
    requires !Eol(b)
    ensures TailMatchesFlags(Pty(log + [b], false, false))
  {
    assert (log + [b])[|log|] == b;
  }

  lemma FilledRuns(p: Pty, fill: seq<byte>, b: byte)
    requires !Eol(b) && RunsComplete(p.log) && TailMatchesFlags(p)
    requires fill == (if p.seenR then [LF] else if p.seenN then [CR] else [])
    ensures RunsComplete(p.log + (fill + [b]))
  {
    var log := p.log + (fill + [b]);
    assert log[|p.log| + |fill|] == b;
    forall i, j | EolRun(log, i, j) && j < |log| && !Eol(log[j])
      ensures (LF in log[i..j]) && (CR in log[i..j])
    {
      if j == |p.log| + |fill| {
        FilledRun(p, fill, b, i);
      } else {
        assert j <= |p.log|;
        RunInPrefix(p.log, fill + [b], i, j);
      }
    }
  }

  /** The run that the ordinary byte `b` ends, filled up. */
  lemma FilledRun(p: Pty, fill: seq<byte>, b: byte, i: int)
    requires TailMatchesFlags(p) && fill == (if p.seenR then [LF] else if p.seenN then [CR] else [])
    requires EolRun(p.log + (fill + [b]), i, |p.log| + |fill|)
    ensures var run := (p.log + (fill + [b]))[i..|p.log| + |fill|]; LF in run && CR in run
  {
    var log := p.log + (fill + [b]);
    assert p.log != [] ==> log[|p.log| - 1] == p.log[|p.log| - 1];
    if i >= |p.log| {
      assert false;
    }
    assert EolRun(log, i, |p.log|);
    RunInPrefix(p.log, fill + [b], i, |p.log|);
    assert log[i..|p.log| + |fill|] == p.log[i..] + fill;
  }

  /** Every line-ending run an ordinary byte ends has both a CR and an LF in the patched output. */
  lemma {:induction false} PatchCompletesRuns(p: Pty, bs: seq<byte>)
    requires RunsComplete(p.log) && TailMatchesFlags(p)
    ensures RunsComplete(PutAll(true, p, bs).log)
    decreases bs
  {
    if bs != [] {
      if Eol(bs[0]) {
        EolStep(p, bs[0]);
      } else {
        OrdinaryStep(p, bs[0]);
      }
      PatchCompletesRuns(Put(true, p, bs[0]), bs[1..]);
    }
  }

  /** The two properties above from a freshly opened PTY, and patching a patched log changes nothing. */
  lemma PatchFromFresh(bs: seq<byte>)
    ensures Subsequence(bs, PutAll(true, FRESH, bs).log)
    ensures RunsComplete(PutAll(true, FRESH, bs).log)
    ensures PutAll(true, FRESH, PutAll(true, FRESH, bs).log) == PutAll(true, FRESH, bs)
  {
    PatchKeepsInput(FRESH, [], bs);
    assert [] + bs == bs;
    PatchCompletesRuns(FRESH, bs);
    PatchTwice(FRESH, bs);
  }

  /** Invariant of the second patch pass: it reproduces its input, flags included. */
  lemma {:induction false} PatchTwice(p: Pty, bs: seq<byte>)
    requires !(p.seenN && p.seenR)
    requires PutAll(true, FRESH, p.log) == p
    ensures PutAll(true, FRESH, PutAll(true, p, bs).log) == PutAll(true, p, bs)
    decreases bs
  {
    if bs != [] {
      var q := Put(true, p, bs[0]);
      if !Eol(bs[0]) && (p.seenR || p.seenN) {
        var fill := if p.seenR then LF else CR;
        assert q.log == p.log + [fill] + [bs[0]];
        PutAllSnoc(true, FRESH, p.log, fill);
        PutAllSnoc(true, FRESH, p.log + [fill], bs[0]);
      } else {
        assert q.log == p.log + [bs[0]];
        PutAllSnoc(true, FRESH, p.log, bs[0]);
      }
      PatchTwice(q, bs[1..]);
    }
  }

  // ---------------------------------------------------------------- exactly what is added

  /** The line-ending byte at the end of the input that has not met its counterpart: a CR and an LF behind each
      other, in either order, make a pair, and an ordinary byte ends the run. */
  function Unpaired(bs: seq<byte>): Option<byte> {
    if bs == [] || !Eol(bs[|bs| - 1]) then None else
    var b := bs[|bs| - 1];
    match Unpaired(bs[..|bs| - 1])
    case None => Some(b)
    case Some(a) => if a == b then Some(b) else None
  }

  function Counterpart(b: byte): byte {
    if b == LF then CR else LF
  }

  /** The byte added in front of the input byte at `i`, if any: an ordinary byte behind an unpaired line ending
      gets the counterpart. */
  function Added(bs: seq<byte>, i: nat): seq<byte>
    requires i < |bs|
  {
    if Eol(bs[i]) || Unpaired(bs[..i]).None? then [] else [Counterpart(Unpaired(bs[..i]).value)]
  }

  /** The input with exactly the added bytes. */
  function WithAdded(bs: seq<byte>): seq<byte> {
    if bs == [] then [] else
    var n := |bs| - 1;
    WithAdded(bs[..n]) + Added(bs, n) + [bs[n]]
  }

  lemma AddedInPrefix(bs: seq<byte>, n: nat, i: nat)
    requires i < n <= |bs|
    ensures Added(bs[..n], i) == Added(bs, i)
  {
    assert bs[..n][..i] == bs[..i];
  }

  /** Exactness of the patch: the log is the input with one byte in front of each ordinary byte that an unpaired
      line ending precedes, CR for an LF and LF for a CR, and nothing else; the flags are the unpaired byte. */
  lemma {:induction false} PatchExact(bs: seq<byte>)
    ensures var q := PutAll(true, FRESH, bs);
            && q.log == WithAdded(bs)
            && (q.seenN <==> Unpaired(bs) == Some(LF)) && (q.seenR <==> Unpaired(bs) == Some(CR))
  {
    if bs != [] {
      var n := |bs| - 1;
      PatchExact(bs[..n]);
      PutAllSnoc(true, FRESH, bs[..n], bs[n]);
      FrontAndLast(bs);
    }
  }

  /** Every line ending in front of an ordinary byte is made of pairs. */
  predicate AllPaired(bs: seq<byte>) {
    forall i :: 0 <= i < |bs| && !Eol(bs[i]) ==> Unpaired(bs[..i]).None?
  }

  lemma {:induction false} AddedLength(bs: seq<byte>)
    ensures |WithAdded(bs)| >= |bs|
    ensures AllPaired(bs) ==> WithAdded(bs) == bs
    ensures !AllPaired(bs) ==> |WithAdded(bs)| > |bs|
  {
    if bs != [] {
      var n := |bs| - 1;
      var init := bs[..n];
      AddedLength(init);
      PairedSnoc(bs);
      FrontAndLast(bs);
    }
  }

  lemma PairedSnoc(bs: seq<byte>)
    requires bs != []
    ensures AllPaired(bs) <==> AllPaired(bs[..|bs| - 1]) && Added(bs, |bs| - 1) == []
  {
    var n := |bs| - 1;
    var init := bs[..n];
    forall i | 0 <= i < n
      ensures init[i] == bs[i] && init[..i] == bs[..i]
    {
    }
    if AllPaired(init) && Added(bs, n) == [] {
      forall i | 0 <= i < |bs| && !Eol(bs[i])
        ensures Unpaired(bs[..i]).None?
      {
        assert i < n ==> init[..i] == bs[..i];
      }
    }
    if AllPaired(bs) {
      forall i | 0 <= i < n && !Eol(init[i])
        ensures Unpaired(init[..i]).None?
      {
        assert init[..i] == bs[..i] && !Eol(bs[i]);
      }
    }
  }

  /** The patch changes nothing if and only if every line ending in front of an ordinary byte is made of pairs. */
  lemma UnchangedIffPaired(bs: seq<byte>)
    ensures PutAll(true, FRESH, bs).log == bs <==> AllPaired(bs)
  {
    PatchExact(bs);
    AddedLength(bs);
  }
}
