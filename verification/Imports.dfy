/** The import closure of the registry generator (`_collect_preprocessed_camkes`). Running the C
    preprocessor, matching imports and resolving them to files are given as a finite graph. */
module Imports {
  import opened Bytes

  type Path = string

  /** An import found in a preprocessed text: is the suffix `.camkes`, and which file does it resolve to. */
  datatype Import = Import(camkes: bool, resolved: Option<Path>)

  /** A preprocessed file. An empty text holds no imports. */
  datatype Source = Source(text: string, imports: seq<Import>)

  /** Every resolved import is a file of the graph. */
  predicate Closed(files: map<Path, Source>) {
    forall f, i :: f in files && 0 <= i < |files[f].imports| && files[f].imports[i].resolved.Some? ==>
      files[f].imports[i].resolved.value in files
  }

  /** The file an import leads to, if the generator follows it. */
  function Follows(i: Import): Option<Path> {
    if i.camkes then i.resolved else None
  }

  ghost predicate Edge(s: Source, q: Path) {
    exists i :: 0 <= i < |s.imports| && Follows(s.imports[i]) == Some(q)
  }

  /** A chain of imports from the root in which every file behind the root has a nonempty text. */
  ghost predicate Chain(files: map<Path, Source>, root: Path, path: seq<Path>) {
    && path != [] && path[0] == root
    && (forall k :: 0 <= k < |path| ==> path[k] in files)
    && (forall k :: 1 <= k < |path| ==> Edge(files[path[k - 1]], path[k]) && files[path[k]].text != "")
  }

  ghost predicate Reachable(files: map<Path, Source>, root: Path, f: Path) {
    exists path :: Chain(files, root, path) && path[|path| - 1] == f
  }

  lemma ReachRoot(files: map<Path, Source>, root: Path)
    requires root in files
    ensures Reachable(files, root, root)
  {
    assert Chain(files, root, [root]);
  }

  lemma ReachNext(files: map<Path, Source>, root: Path, f: Path, g: Path)
    requires Reachable(files, root, f) && f in files && Edge(files[f], g) && g in files && files[g].text != ""
    ensures Reachable(files, root, g)
  {
    var path :| Chain(files, root, path) && path[|path| - 1] == f;
    var longer := path + [g];
    assert forall k :: 0 <= k < |path| ==> longer[k] == path[k];
    assert Chain(files, root, longer) && longer[|longer| - 1] == g;
  }

  /** No file twice. */
  predicate Distinct(ps: seq<Path>) {
    forall i, j :: 0 <= i < j < |ps| ==> ps[i] != ps[j]
  }

  /** The texts `texts` are those of the files `names`, each found once and only along chains; every other
      file seen has an empty text. */
  ghost predicate Found(files: map<Path, Source>, root: Path, texts: seq<Source>, names: seq<Path>, seen: set<Path>) {
    && |texts| == |names| > 0 && names[0] == root && Distinct(names)
    && (forall k :: 0 <= k < |names| ==>
          names[k] in files && texts[k] == files[names[k]] && Reachable(files, root, names[k]))
    && seen <= files.Keys && (forall k :: 0 <= k < |names| ==> names[k] in seen)
    && forall f :: f in seen ==> f in names || files[f].text == ""
  }

  ghost predicate Followed(s: Source, n: nat, seen: set<Path>) {
    n <= |s.imports| && forall i :: 0 <= i < n && Follows(s.imports[i]).Some? ==> Follows(s.imports[i]).value in seen
  }

  /** The imports of the first `done` texts were all followed. */
  ghost predicate AllFollowed(texts: seq<Source>, done: nat, seen: set<Path>) {
    done <= |texts| && forall k :: 0 <= k < done ==> Followed(texts[k], |texts[k].imports|, seen)
  }

  lemma StillFollowed(texts: seq<Source>, more: seq<Source>, done: nat, seen: set<Path>, seen': set<Path>)
    requires AllFollowed(texts, done, seen) && texts <= more && seen <= seen'
    ensures AllFollowed(more, done, seen')
  {
    forall k | 0 <= k < done
      ensures Followed(more[k], |more[k].imports|, seen')
    {
      assert more[k] == texts[k] && Followed(texts[k], |texts[k].imports|, seen);
    }
  }

  /** The files to preprocess were all new, and none twice. */
  ghost predicate OnceEach(runs: seq<Path>, root: Path, seen: set<Path>) {
    Distinct(runs) && root !in runs && forall f :: f in runs ==> f in seen
  }

  lemma {:induction false} ChainCollected(files: map<Path, Source>, root: Path, texts: seq<Source>, names: seq<Path>,
                                          seen: set<Path>, path: seq<Path>)
    requires Found(files, root, texts, names, seen) && Chain(files, root, path)
    requires AllFollowed(texts, |texts|, seen)
    ensures path[|path| - 1] in names
    decreases |path|
  {
    var n := |path| - 1;
    if n > 0 {
      assert Chain(files, root, path[..n]);
      ChainCollected(files, root, texts, names, seen, path[..n]);
      var k :| 0 <= k < |names| && names[k] == path[n - 1];
      assert Edge(texts[k], path[n]);
      assert path[n] in seen;
    }
  }

  // ---------------------------------------------------------------- first in, first out

  /** Import `i` of file `p` leads to file `k`. */
  predicate Leads(files: map<Path, Source>, names: seq<Path>, k: nat, p: nat, i: nat) {
    && k < |names| && p < |names| && names[p] in files && i < |files[names[p]].imports|
    && Follows(files[names[p]].imports[i]) == Some(names[k])
  }

  /** Import `a.1` of file `a.0` is read earlier than import `b.1` of file `b.0`. */
  predicate Before(a: (nat, nat), b: (nat, nat)) {
    a.0 < b.0 || (a.0 == b.0 && a.1 < b.1)
  }

  /** The first import that leads to file `k`. */
  ghost predicate FirstLead(files: map<Path, Source>, names: seq<Path>, k: nat, m: (nat, nat)) {
    Leads(files, names, k, m.0, m.1) && forall q: nat, i: nat :: Leads(files, names, k, q, i) ==> !Before((q, i), m)
  }

  /** Every file behind the root stands behind the file that imports it first, and the files stand in the order in
      which these imports are read: file by file, and in each file from the first import to the last. */
  ghost predicate Ordered(files: map<Path, Source>, names: seq<Path>, marks: seq<(nat, nat)>) {
    && |marks| == |names|
    && (forall k :: 1 <= k < |names| ==> marks[k].0 < k && FirstLead(files, names, k, marks[k]))
    && (forall j, k :: 1 <= j < k < |names| ==> Before(marks[j], marks[k]))
  }

  /** All of them come from imports in front of `now`. */
  predicate AllBefore(marks: seq<(nat, nat)>, now: (nat, nat)) {
    forall k :: 1 <= k < |marks| ==> Before(marks[k], now)
  }

  /** Later files change nothing about the first import that leads to a file. */
  lemma LeadStays(files: map<Path, Source>, names: seq<Path>, f: Path, k: nat, m: (nat, nat))
    requires k < |names| && FirstLead(files, names, k, m)
    ensures FirstLead(files, names + [f], k, m)
  {
    forall q: nat, i: nat | Leads(files, names + [f], k, q, i)
      ensures !Before((q, i), m)
    {
      assert q < |names| ==> Leads(files, names, k, q, i);
    }
  }

  /** Where the imports read so far lead has been seen. */
  lemma EarlierSeen(texts: seq<Source>, seen: set<Path>, now: (nat, nat))
    requires now.0 < |texts| && AllFollowed(texts, now.0, seen) && Followed(texts[now.0], now.1, seen)
    ensures forall q: nat, i: nat :: q < |texts| && i < |texts[q].imports| && Before((q, i), now) ==>
              (Follows(texts[q].imports[i]).Some? ==> Follows(texts[q].imports[i]).value in seen)
  {
    forall q: nat, i: nat | q < |texts| && i < |texts[q].imports| && Before((q, i), now)
      ensures Follows(texts[q].imports[i]).Some? ==> Follows(texts[q].imports[i]).value in seen
    {
      assert q < now.0 ==> Followed(texts[q], |texts[q].imports|, seen);
    }
  }

  /** A file that no earlier import led to has its first one here. */
  lemma NewLead(files: map<Path, Source>, texts: seq<Source>, names: seq<Path>, seen: set<Path>, now: (nat, nat),
                f: Path)
    requires |texts| == |names| && (forall k :: 0 <= k < |names| ==> names[k] in files && texts[k] == files[names[k]])
    requires now.0 < |names| && AllFollowed(texts, now.0, seen) && Followed(texts[now.0], now.1, seen) && f !in seen
    requires now.1 < |texts[now.0].imports| && Follows(texts[now.0].imports[now.1]) == Some(f)
    requires f in files && forall k :: 0 <= k < |names| ==> names[k] in seen
    ensures FirstLead(files, names + [f], |names|, now)
  {
    EarlierSeen(texts, seen, now);
    forall q: nat, i: nat | Leads(files, names + [f], |names|, q, i)
      ensures !Before((q, i), now)
    {
    }
  }

  lemma OrderGrows(files: map<Path, Source>, texts: seq<Source>, names: seq<Path>, marks: seq<(nat, nat)>,
                   seen: set<Path>, now: (nat, nat), f: Path)
    requires Ordered(files, names, marks) && AllBefore(marks, now) && names != []
    requires |texts| == |names| && (forall k :: 0 <= k < |names| ==> names[k] in files && texts[k] == files[names[k]])
    requires now.0 < |names| && AllFollowed(texts, now.0, seen) && Followed(texts[now.0], now.1, seen) && f !in seen
    requires now.1 < |texts[now.0].imports| && Follows(texts[now.0].imports[now.1]) == Some(f)
    requires f in files && files[f].text != "" && forall k :: 0 <= k < |names| ==> names[k] in seen
    ensures Ordered(files, names + [f], marks + [now])
  {
    NewLead(files, texts, names, seen, now, f);
    forall k | 1 <= k < |names|
      ensures FirstLead(files, names + [f], k, marks[k])
    {
      LeadStays(files, names, f, k, marks[k]);
    }
  }

  /** One import of the text under work: skipped, already seen, empty, or new. */
  method Visit(files: map<Path, Source>, root: Path, imp: Import, seen: set<Path>, texts: seq<Source>,
               queue: seq<Source>, ghost names: seq<Path>, ghost runs: seq<Path>, ghost marks: seq<(nat, nat)>,
               ghost now: (nat, nat))
    returns (seen': set<Path>, texts': seq<Source>, queue': seq<Source>, ghost names': seq<Path>,
             ghost runs': seq<Path>, ghost marks': seq<(nat, nat)>)
    requires Closed(files) && Found(files, root, texts, names, seen) && OnceEach(runs, root, seen)
    requires now.0 < |texts| && now.1 < |texts[now.0].imports| && texts[now.0].imports[now.1] == imp
    requires AllFollowed(texts, now.0, seen) && Followed(texts[now.0], now.1, seen)
    requires Ordered(files, names, marks) && AllBefore(marks, now)
    ensures Found(files, root, texts', names', seen') && OnceEach(runs', root, seen')
    ensures texts <= texts' && names <= names' && seen <= seen' && queue' == queue + texts'[|texts|..]
    ensures Follows(imp).Some? ==> Follows(imp).value in seen'
    ensures seen' == seen ==> queue' == queue
    ensures Ordered(files, names', marks') && AllBefore(marks', (now.0, now.1 + 1))
  {
    seen', texts', queue', names', runs', marks' := seen, texts, queue, names, runs, marks;
    if imp.camkes && imp.resolved.Some? && imp.resolved.value !in seen {
      var f := imp.resolved.value;
      ghost var from := names[now.0];
      assert texts[now.0] == files[from];
      seen' := seen + {f};
      runs' := runs + [f];
      NewRun(runs, root, seen, f);
      if files[f].text != "" {
        assert Edge(files[from], f);
        NewName(files, root, texts, names, seen, from, f);
        OrderGrows(files, texts, names, marks, seen, now, f);
        texts' := texts + [files[f]];
        queue' := queue + [files[f]];
        names', marks' := names + [f], marks + [now];
      }
    }
  }

  lemma NewRun(runs: seq<Path>, root: Path, seen: set<Path>, f: Path)
    requires OnceEach(runs, root, seen) && f !in seen && f != root
    ensures OnceEach(runs + [f], root, seen + {f})
  {
  }

  /** A file reached through a new import joins the files found. */
  lemma NewName(files: map<Path, Source>, root: Path, texts: seq<Source>, names: seq<Path>, seen: set<Path>, from: Path,
                f: Path)
    requires Found(files, root, texts, names, seen) && from in names && Edge(files[from], f)
    requires f in files && f !in seen && files[f].text != ""
    ensures Found(files, root, texts + [files[f]], names + [f], seen + {f})
  {
    ReachNext(files, root, from, f);
  }

  lemma FollowedStep(s: Source, n: nat, seen: set<Path>, seen': set<Path>)
    requires Followed(s, n, seen) && seen <= seen' && n < |s.imports|
    requires Follows(s.imports[n]).Some? ==> Follows(s.imports[n]).value in seen'
    ensures Followed(s, n + 1, seen')
  {
  }

  /** Appending to the texts appends the same to the queue behind `n`. */
  lemma QueueStep(texts: seq<Source>, more: seq<Source>, n: nat)
    requires texts <= more && n <= |texts|
    ensures texts[n..] + more[|texts|..] == more[n..]
  {
  }

  /** All imports of the text at `done`, whose successors are the queue. */
  method Scan(files: map<Path, Source>, root: Path, s: Source, seen: set<Path>, texts: seq<Source>, queue: seq<Source>,
              ghost names: seq<Path>, ghost runs: seq<Path>, ghost marks: seq<(nat, nat)>, ghost done: nat)
    returns (seen': set<Path>, texts': seq<Source>, queue': seq<Source>, ghost names': seq<Path>,
             ghost runs': seq<Path>, ghost marks': seq<(nat, nat)>)
    requires Closed(files) && Found(files, root, texts, names, seen) && OnceEach(runs, root, seen)
    requires done < |texts| && texts[done] == s && queue == texts[done + 1..] && AllFollowed(texts, done, seen)
    requires Ordered(files, names, marks) && AllBefore(marks, (done, 0))
    ensures Found(files, root, texts', names', seen') && OnceEach(runs', root, seen')
    ensures done < |texts'| && queue' == texts'[done + 1..] && AllFollowed(texts', done + 1, seen')
    ensures seen <= seen' && (seen' == seen ==> queue' == queue)
    ensures Ordered(files, names', marks') && AllBefore(marks', (done + 1, 0))
  {
    seen', texts', queue', names', runs', marks' := seen, texts, queue, names, runs, marks;
    for i := 0 to |s.imports|
      invariant texts <= texts' && names <= names' && queue' == texts'[done + 1..] && seen <= seen'
      invariant seen' == seen ==> queue' == queue
      invariant Found(files, root, texts', names', seen') && OnceEach(runs', root, seen')
      invariant Followed(s, i, seen') && texts'[done] == s
      invariant Ordered(files, names', marks') && AllBefore(marks', (done, i))
    {
      StillFollowed(texts, texts', done, seen, seen');
      ghost var seen0, texts0 := seen', texts';
      seen', texts', queue', names', runs', marks' :=
        Visit(files, root, s.imports[i], seen', texts', queue', names', runs', marks', (done, i));
      FollowedStep(s, i, seen0, seen');
      QueueStep(texts0, texts', done + 1);
    }
    StillFollowed(texts, texts', done, seen, seen');
  }

  /** `texts` are the texts of exactly the files that chains of nonempty texts lead to, each once, the root first and
      the others in the order in which they are first imported. */
  ghost predicate Closure(files: map<Path, Source>, root: Path, texts: seq<Source>, names: seq<Path>) {
    && |texts| == |names| > 0 && names[0] == root && Distinct(names)
    && (forall k :: 0 <= k < |names| ==> names[k] in files && texts[k] == files[names[k]])
    && (forall f :: f in names <==> Reachable(files, root, f))
    && exists marks :: Ordered(files, names, marks)
  }

  /** The worklist: it terminates, collects the import closure, and preprocesses no file twice. */
  method Collect(files: map<Path, Source>, root: Path) returns (texts: seq<Source>, ghost runs: seq<Path>)
    requires Closed(files) && root in files
    ensures exists names :: Closure(files, root, texts, names)
    ensures Distinct(runs) && root !in runs
  {
    ghost var names, marks := [root], [(0, 0)];
    ReachRoot(files, root);
    texts, runs := [files[root]], [];
    var seen := {root};
    var queue := texts;
    ghost var done := 0;
    while queue != []
      invariant 0 <= done <= |texts| && queue == texts[done..] && AllFollowed(texts, done, seen)
      invariant Found(files, root, texts, names, seen) && OnceEach(runs, root, seen)
      invariant Ordered(files, names, marks) && AllBefore(marks, (done, 0))
      decreases files.Keys - seen, |queue|
    {
      seen, texts, queue, names, runs, marks :=
        Scan(files, root, queue[0], seen, texts, queue[1..], names, runs, marks, done);
      done := done + 1;
    }
    forall f | Reachable(files, root, f)
      ensures f in names
    {
      var path :| Chain(files, root, path) && path[|path| - 1] == f;
      ChainCollected(files, root, texts, names, seen, path);
    }
    assert Closure(files, root, texts, names);
  }
}
