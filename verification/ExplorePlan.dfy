/**
 Applying an explore runtime plan: the env file and the plan's files are overwritten,
 each overwrite leaves an undo, and the undos run in reverse. Reads and writes may fail;
 path sanitising is the parameter `sanitize`.
 */
module ExplorePlan {
  import opened Basics
  import opened GoStrings
  import opened GoQuote
  import opened Sorting
  import opened EnvCodec

  type Files = map<string, string>

  // ------------------------------------------------------------ specification

  /** The closure a successful write leaves behind: what the path held before. */
  datatype Undo = Undo(path: string, existed: bool, original: string)

  function Record(files: Files, path: string): Undo {
    if path in files then Undo(path, true, files[path]) else Undo(path, false, "")
  }

  function ApplyUndo(files: Files, u: Undo): Files {
    if u.existed then files[u.path := u.original] else files - {u.path}
  }

  // The last undo runs first.
  function RestoreAll(files: Files, undos: seq<Undo>): Files
    decreases |undos|
  {
    if undos == [] then files else RestoreAll(ApplyUndo(files, undos[|undos| - 1]), undos[..|undos| - 1])
  }

  datatype Write = Write(path: string, content: string)

  function WriteAll(files: Files, writes: seq<Write>): Files {
    if writes == [] then files else
    var w := writes[|writes| - 1];
    WriteAll(files, writes[..|writes| - 1])[w.path := w.content]
  }

  // The undo log of a run of writes.
  function Undos(files: Files, writes: seq<Write>): seq<Undo> {
    if writes == [] then [] else
    var front := writes[..|writes| - 1];
    Undos(files, front) + [Record(WriteAll(files, front), writes[|writes| - 1].path)]
  }

  predicate Touches(writes: seq<Write>, path: string) { exists i :: 0 <= i < |writes| && writes[i].path == path }

  predicate SameAt(a: Files, b: Files, path: string) {
    (path in a <==> path in b) && (path in a ==> a[path] == b[path])
  }

  /** Whatever the files are when the restore runs, every touched path goes back to what it held before
      the first write, absence included, and every other path is left alone. Paths may repeat. */
  lemma {:induction false} RestoreUndoesWrites(before: Files, writes: seq<Write>, current: Files, path: string)
    ensures SameAt(RestoreAll(current, Undos(before, writes)), if Touches(writes, path) then before else current, path)
    decreases |writes|
  {
    if writes != [] {
      var front, w := writes[..|writes| - 1], writes[|writes| - 1];
      var undos := Undos(before, writes);
      assert undos[..|undos| - 1] == Undos(before, front);
      var u := Record(WriteAll(before, front), w.path);
      RestoreUndoesWrites(before, front, ApplyUndo(current, u), path);
      assert writes == front + [w];
      TouchesSnoc(front, w, path);
      if w.path == path && !Touches(front, path) { UntouchedKept(before, front, path); }
    }
  }

  lemma TouchesSnoc(front: seq<Write>, w: Write, path: string)
    ensures Touches(front + [w], path) <==> Touches(front, path) || w.path == path
  {
    var all := front + [w];
    assert all[|front|] == w && forall i :: 0 <= i < |front| ==> all[i] == front[i];
  }

  lemma {:induction false} UntouchedKept(files: Files, writes: seq<Write>, path: string)
    requires !Touches(writes, path)
    ensures SameAt(WriteAll(files, writes), files, path)
  {
    if writes != [] {
      var front, w := writes[..|writes| - 1], writes[|writes| - 1];
      assert writes == front + [w];
      TouchesSnoc(front, w, path);
      UntouchedKept(files, front, path);
    }
  }

  // The restore when some of its file operations fail: a failed one leaves the files as they are.
  function RestoreSome(files: Files, undos: seq<Undo>, oks: seq<bool>): Files
    requires |oks| == |undos|
    decreases |undos|
  {
    if undos == [] then files else
    var n := |undos| - 1;
    RestoreSome(if oks[n] then ApplyUndo(files, undos[n]) else files, undos[..n], oks[..n])
  }

  lemma {:induction false} RestoreSomeConcat(files: Files, a: seq<Undo>, b: seq<Undo>, oa: seq<bool>, ob: seq<bool>)
    requires |oa| == |a| && |ob| == |b|
    ensures RestoreSome(files, a + b, oa + ob) == RestoreSome(RestoreSome(files, b, ob), a, oa)
    decreases |b|
  {
    if b == [] {
      assert a + b == a && oa + ob == oa;
    } else {
      var n := |b| - 1;
      assert (a + b)[..|a + b| - 1] == a + b[..n] && (oa + ob)[..|oa + ob| - 1] == oa + ob[..n];
      RestoreSomeConcat(if ob[n] then ApplyUndo(files, b[n]) else files, a, b[..n], oa, ob[..n]);
    }
  }

  // The first write to a path.
  function FirstTouch(writes: seq<Write>, path: string): (i: nat)
    requires Touches(writes, path)
    ensures i < |writes| && writes[i].path == path && forall k :: 0 <= k < i ==> writes[k].path != path
  {
    if writes[0].path == path then 0 else
      assert Touches(writes[1..], path) by {
        var k :| 0 <= k < |writes| && writes[k].path == path;
        assert writes[1..][k - 1] == writes[k];
      }
      1 + FirstTouch(writes[1..], path)
  }

  lemma FirstTouchSnoc(front: seq<Write>, w: Write, path: string)
    requires Touches(front + [w], path)
    ensures FirstTouch(front + [w], path) == if Touches(front, path) then FirstTouch(front, path) else |front|
  {
    TouchesSnoc(front, w, path);
    var all := front + [w];
    assert forall k :: 0 <= k < |front| ==> all[k] == front[k];
  }

  // The files once the undo of w, written after front, has run or failed.
  function UndoOne(before: Files, front: seq<Write>, w: Write, current: Files, ok: bool): Files {
    if ok then ApplyUndo(current, Record(WriteAll(before, front), w.path)) else current
  }

  lemma UndoOneAt(before: Files, front: seq<Write>, w: Write, current: Files, ok: bool, path: string)
    ensures w.path != path ==> SameAt(UndoOne(before, front, w, current, ok), current, path)
    ensures w.path == path && ok && !Touches(front, path) ==>
              SameAt(UndoOne(before, front, w, current, ok), before, path)
  {
    if !Touches(front, path) { UntouchedKept(before, front, path); }
  }

  lemma RestoreSnoc(before: Files, front: seq<Write>, w: Write, current: Files, oks: seq<bool>)
    requires |oks| == |front| + 1
    ensures |Undos(before, front)| == |front| && |Undos(before, front + [w])| == |oks|
    ensures var n := |front|;
            RestoreSome(current, Undos(before, front + [w]), oks)
            == RestoreSome(UndoOne(before, front, w, current, oks[n]), Undos(before, front), oks[..n])
  {
    var n, all := |front|, front + [w];
    UndosLength(before, front);
    assert all[..n] == front;
    assert Undos(before, all) == Undos(before, front) + [Record(WriteAll(before, front), w.path)];
    assert Undos(before, all)[..n] == Undos(before, front);
  }

  /**
   A path no write touched is left alone whatever fails; a touched one is back to what it held before
   as soon as the undo of its first write succeeds, whatever else fails.
   */
  lemma {:induction false} RestoreSomeUndoes(before: Files, writes: seq<Write>, current: Files, oks: seq<bool>,
                                             path: string)
    requires |oks| == |writes|
    ensures |Undos(before, writes)| == |writes|
    ensures var left := RestoreSome(current, Undos(before, writes), oks);
            if !Touches(writes, path) then SameAt(left, current, path)
            else oks[FirstTouch(writes, path)] ==> SameAt(left, before, path)
    decreases |writes|
  {
    if writes != [] {
      var n := |writes| - 1;
      var front, w := writes[..n], writes[n];
      assert writes == front + [w];
      RestoreSnoc(before, front, w, current, oks);
      UndoOneAt(before, front, w, current, oks[n], path);
      RestoreSomeUndoes(before, front, UndoOne(before, front, w, current, oks[n]), oks[..n], path);
      TouchesSnoc(front, w, path);
      if Touches(writes, path) { FirstTouchSnoc(front, w, path); }
    }
  }

  lemma {:induction false} UndosLength(files: Files, writes: seq<Write>)
    ensures |Undos(files, writes)| == |writes|
    decreases |writes|
  {
    if writes != [] { UndosLength(files, writes[..|writes| - 1]); }
  }

  lemma {:induction false} RestoreSomeIsAll(files: Files, undos: seq<Undo>, oks: seq<bool>)
    requires |oks| == |undos| && forall i :: 0 <= i < |oks| ==> oks[i]
    ensures RestoreSome(files, undos, oks) == RestoreAll(files, undos)
    decreases |undos|
  {
    if undos != [] {
      var n := |undos| - 1;
      RestoreSomeIsAll(ApplyUndo(files, undos[n]), undos[..n], oks[..n]);
    }
  }

  /** Restoring right after the writes gives back all files. */
  lemma RestoreAfterWrites(before: Files, writes: seq<Write>)
    ensures RestoreAll(WriteAll(before, writes), Undos(before, writes)) == before
  {
    forall path ensures SameAt(RestoreAll(WriteAll(before, writes), Undos(before, writes)), before, path) {
      RestoreUndoesWrites(before, writes, WriteAll(before, writes), path);
      if !Touches(writes, path) { UntouchedKept(before, writes, path); }
    }
    SameEverywhere(RestoreAll(WriteAll(before, writes), Undos(before, writes)), before);
  }

  lemma SameEverywhere(a: Files, b: Files)
    requires forall path :: SameAt(a, b, path)
    ensures a == b
  {
    assert forall path :: path in a ==> SameAt(a, b, path);
    assert forall path :: path in b ==> SameAt(a, b, path);
    assert a.Keys == b.Keys;
  }

  // ---------------------------------------------------------------- file store

  datatype ReadResult = Content(content: string) | NotExist | ReadFailed

  /** What has been applied and restored, in order: an apply that succeeded, one that did not, a restore. */
  datatype Step =
    | Applied(before: Files, writes: seq<Write>)
    | Refused(before: Files, writes: seq<Write>)
    | Restored(undos: seq<Undo>, found: Files, left: Files, oks: seq<bool>)

  class FileStore {
    var files: Files
    ghost var log: seq<Step>      // kept by the apply and by the restore, by nothing else

    constructor (files: Files)
      ensures this.files == files && log == []
    {
      this.files, log := files, [];
    }

    method Read(path: string) returns (r: ReadResult)
      ensures r == ReadFailed || r == if path in files then Content(files[path]) else NotExist
    {
      var fails: bool := *;
      r := if fails then ReadFailed else if path in files then Content(files[path]) else NotExist;
    }

    // works: whether the system carries it out.
    method WriteFile(path: string, content: string, works: bool)
      modifies this`files
      ensures files == if works then old(files)[path := content] else old(files)
    {
      if works { files := files[path := content]; }
    }

    method Remove(path: string, works: bool)
      modifies this`files
      ensures files == if works then old(files) - {path} else old(files)
    {
      if works { files := files - {path}; }
    }

    // Everything that happens between apply and restore: any process may write any file.
    method Work()
      modifies this`files
    {
      files := *;
    }
  }

  // ---------------------------------------------------------------- the plan

  datatype PlanFile = PlanFile(source: string, destination: string, content: string)

  datatype Result<+T> = Success(value: T) | Failure

  // What a file of a plan says to write: its own text or, for want of one, that of its source.
  function Given(files: Files, f: PlanFile): string {
    var source := TrimSpace(f.source);
    if f.content != "" then f.content else if source != "" && source in files then files[source] else ""
  }

  // A write carries out f as the files stood.
  ghost predicate WritesFile(files: Files, f: PlanFile, sanitize: string -> Option<string>, w: Write) {
    sanitize(TrimSpace(f.destination)) == Some(w.path) && w.content == Given(files, f) != ""
  }

  // A file may be passed over: it has no destination, or nothing to write.
  ghost predicate Skips(files: Files, f: PlanFile) { TrimSpace(f.destination) == "" || Given(files, f) == "" }

  // Every entry of at is a file written: the k-th as the files stood after k writes.
  ghost predicate EachWritten(before: Files, plan: seq<PlanFile>, m: nat, sanitize: string -> Option<string>,
                              writes: seq<Write>, at: seq<nat>) {
    && m <= |plan| && |at| == |writes| && (forall j, k :: 0 <= j < k < |at| ==> at[j] < at[k])
    && forall k :: 0 <= k < |at| ==>
         at[k] < m && WritesFile(WriteAll(before, writes[..k]), plan[at[k]], sanitize, writes[k])
  }

  // Of the entries of at, the first n name files before i, the others files behind it.
  ghost predicate SplitsAt(at: seq<nat>, i: nat, n: nat) {
    n <= |at| && (forall k :: 0 <= k < n ==> at[k] < i) && forall k :: n <= k < |at| ==> at[k] > i
  }

  // Every other file could be passed over, as the files stood then.
  ghost predicate OthersSkipped(before: Files, plan: seq<PlanFile>, m: nat, writes: seq<Write>, at: seq<nat>) {
    m <= |plan| && |at| == |writes|
    && forall i: nat, n: nat :: i < m && SplitsAt(at, i, n) ==> Skips(WriteAll(before, writes[..n]), plan[i])
  }

  ghost predicate AllSanitised(plan: seq<PlanFile>, m: nat, sanitize: string -> Option<string>) {
    m <= |plan| && forall i :: 0 <= i < m && TrimSpace(plan[i].destination) != "" ==>
                     sanitize(TrimSpace(plan[i].destination)).Some?
  }

  /**
   What writing the first m files of a plan means: at names the files written, in order. The k-th write goes to the
   sanitised destination of its file and has that file's content as the files stood then; a file is left out exactly
   if there was nothing to write or nowhere to write it to; and every destination passed the sanitiser.
   */
  ghost predicate Carries(before: Files, plan: seq<PlanFile>, m: nat, sanitize: string -> Option<string>,
                          writes: seq<Write>, at: seq<nat>) {
    && EachWritten(before, plan, m, sanitize, writes, at) && OthersSkipped(before, plan, m, writes, at)
    && AllSanitised(plan, m, sanitize)
  }

  lemma AllBefore(at: seq<nat>, m: nat, n: nat)
    requires n <= |at| && forall k :: 0 <= k < |at| ==> at[k] < m
    ensures SplitsAt(at, m, n) ==> n == |at|
  {
    if n < |at| { assert at[n] < m; }
  }

  lemma SkipNext(before: Files, plan: seq<PlanFile>, m: nat, writes: seq<Write>, at: seq<nat>)
    requires OthersSkipped(before, plan, m, writes, at) && m < |plan| && forall k :: 0 <= k < |at| ==> at[k] < m
    requires Skips(WriteAll(before, writes), plan[m])
    ensures OthersSkipped(before, plan, m + 1, writes, at)
  {
    forall i: nat, n: nat | i < m + 1 && SplitsAt(at, i, n) ensures Skips(WriteAll(before, writes[..n]), plan[i]) {
      if i == m {
        AllBefore(at, m, n);
        assert writes[..|at|] == writes;
      }
    }
  }

  lemma CarriesSkip(before: Files, plan: seq<PlanFile>, m: nat, sanitize: string -> Option<string>,
                    writes: seq<Write>, at: seq<nat>)
    requires Carries(before, plan, m, sanitize, writes, at) && m < |plan|
    requires Skips(WriteAll(before, writes), plan[m])
    requires TrimSpace(plan[m].destination) != "" ==> sanitize(TrimSpace(plan[m].destination)).Some?
    ensures Carries(before, plan, m + 1, sanitize, writes, at)
  {
    SkipNext(before, plan, m, writes, at);
  }

  lemma WriteNext(before: Files, plan: seq<PlanFile>, m: nat, sanitize: string -> Option<string>,
                  writes: seq<Write>, at: seq<nat>, w: Write)
    requires EachWritten(before, plan, m, sanitize, writes, at) && m < |plan|
    requires WritesFile(WriteAll(before, writes), plan[m], sanitize, w)
    ensures EachWritten(before, plan, m + 1, sanitize, writes + [w], at + [m])
  {
    var all, to := writes + [w], at + [m];
    forall k | 0 <= k < |to|
      ensures to[k] < m + 1 && WritesFile(WriteAll(before, all[..k]), plan[to[k]], sanitize, all[k])
    {
      assert all[..k] == writes[..k];
      if k == |at| { assert writes[..k] == writes; }
    }
  }

  lemma OthersAfterWrite(before: Files, plan: seq<PlanFile>, m: nat, writes: seq<Write>, at: seq<nat>, w: Write)
    requires OthersSkipped(before, plan, m, writes, at) && m < |plan|
    ensures OthersSkipped(before, plan, m + 1, writes + [w], at + [m])
  {
    var all, to := writes + [w], at + [m];
    forall i: nat, n: nat | i < m + 1 && SplitsAt(to, i, n) ensures Skips(WriteAll(before, all[..n]), plan[i]) {
      SplitsBefore(at, m, i, n);
      assert all[..n] == writes[..n];
    }
  }

  // No file splits at + [m] at m, and one before m splits it where it splits at.
  lemma SplitsBefore(at: seq<nat>, m: nat, i: nat, n: nat)
    requires i <= m && SplitsAt(at + [m], i, n)
    ensures i < m && SplitsAt(at, i, n)
  {
    var to := at + [m];
    assert to[|at|] == m && forall k :: 0 <= k < |at| ==> to[k] == at[k];
  }

  lemma CarriesWrite(before: Files, plan: seq<PlanFile>, m: nat, sanitize: string -> Option<string>,
                     writes: seq<Write>, at: seq<nat>, w: Write)
    requires Carries(before, plan, m, sanitize, writes, at) && m < |plan|
    requires WritesFile(WriteAll(before, writes), plan[m], sanitize, w)
    ensures Carries(before, plan, m + 1, sanitize, writes + [w], at + [m])
  {
    WriteNext(before, plan, m, sanitize, writes, at, w);
    OthersAfterWrite(before, plan, m, writes, at, w);
  }

  /**
   The plan's files; `writes` lists what was written, in order, and `at` which files that was for. The loop stops at
   the first failure, having carried out the `upto` files before it.
   */
  method ApplyFiles(store: FileStore, plan: seq<PlanFile>, sanitize: string -> Option<string>)
      returns (undos: Result<seq<Undo>>, writes: seq<Write>, ghost at: seq<nat>, ghost upto: nat)
    modifies store`files
    ensures store.files == WriteAll(old(store.files), writes)
    ensures undos.Success? ==> undos.value == Undos(old(store.files), writes)
    ensures Carries(old(store.files), plan, upto, sanitize, writes, at) && (undos.Success? ==> upto == |plan|)
  {
    ghost var before := store.files;
    var log: seq<Undo> := [];
    writes, at, upto := [], [], 0;
    for i := 0 to |plan|
      invariant store.files == WriteAll(before, writes) && log == Undos(before, writes)
      invariant upto == i && Carries(before, plan, i, sanitize, writes, at)
    {
      var file := plan[i];
      var source, destination := TrimSpace(file.source), TrimSpace(file.destination);
      if destination == "" {
        CarriesSkip(before, plan, i, sanitize, writes, at);
        upto := i + 1;
        continue;
      }
      var path := sanitize(destination);
      if path == None { return Failure, writes, at, upto; }
      var content := file.content;
      if content == "" && source != "" {
        var r := store.Read(source);
        if r == ReadFailed { return Failure, writes, at, upto; }
        content := if r == NotExist then "" else r.content;
      }
      if content == "" {
        CarriesSkip(before, plan, i, sanitize, writes, at);
        upto := i + 1;
        continue;
      }
      var original := store.Read(path.value);
      if original == ReadFailed { return Failure, writes, at, upto; }
      var directory: bool := *;
      if !directory { return Failure, writes, at, upto; }
      var ok: bool := *;
      store.WriteFile(path.value, content, ok);
      if !ok { return Failure, writes, at, upto; }
      var w := Write(path.value, content);
      CarriesWrite(before, plan, i, sanitize, writes, at, w);
      assert (writes + [w])[..|writes|] == writes;
      var existed := original.Content?;
      log := log + [Undo(path.value, existed, if existed then original.content else "")];
      writes, at, upto := writes + [w], at + [i], i + 1;
    }
    undos := Success(log);
  }

  // The env overrides of a plan, later ones winning.
  function Override(env: Env, overrides: seq<(string, string)>): Env {
    if overrides == [] then env else
    var (k, v) := overrides[|overrides| - 1];
    Override(env, overrides[..|overrides| - 1])[k := v]
  }

  // base with some values set, the last value of each key counting.
  ghost predicate Overlays(env: Env, base: Env, overrides: seq<(string, string)>) {
    && (forall k :: k in env <==> k in base || exists i :: 0 <= i < |overrides| && overrides[i].0 == k)
    && (forall i :: 0 <= i < |overrides| && overrides[i].0 in env
                    && (forall j :: i < j < |overrides| ==> overrides[j].0 != overrides[i].0) ==>
          env[overrides[i].0] == overrides[i].1)
    && (forall k :: k in env && k in base && (forall i :: 0 <= i < |overrides| ==> overrides[i].0 != k) ==>
          env[k] == base[k])
  }

  lemma {:induction false} OverrideOverlays(base: Env, overrides: seq<(string, string)>)
    ensures Overlays(Override(base, overrides), base, overrides)
  {
    if overrides != [] {
      var n := |overrides| - 1;
      OverrideOverlays(base, overrides[..n]);
      OverlaysNext(Override(base, overrides[..n]), base, overrides[..n], overrides[n].0, overrides[n].1);
      assert overrides == overrides[..n] + [(overrides[n].0, overrides[n].1)];
    }
  }

  lemma OverlaysNext(env: Env, base: Env, overrides: seq<(string, string)>, k: string, v: string)
    requires Overlays(env, base, overrides)
    ensures Overlays(env[k := v], base, overrides + [(k, v)])
  {
    var all := overrides + [(k, v)];
    assert all[|overrides|] == (k, v) && forall i :: 0 <= i < |overrides| ==> all[i] == overrides[i];
    forall x ensures x in env[k := v] <==> x in base || exists i :: 0 <= i < |all| && all[i].0 == x {
      if x != k && x in env && x !in base {
        var i :| 0 <= i < |overrides| && overrides[i].0 == x;
        assert all[i].0 == x;
      }
      if i :| 0 <= i < |all| && all[i].0 == x { assert i < |overrides| ==> overrides[i].0 == x; }
    }
    forall x | x in env[k := v] && x in base && forall i :: 0 <= i < |all| ==> all[i].0 != x
      ensures env[k := v][x] == base[x]
    {
      assert all[|overrides|].0 != x && forall i :: 0 <= i < |overrides| ==> overrides[i].0 == all[i].0;
    }
    forall i | 0 <= i < |all| && forall j :: i < j < |all| ==> all[j].0 != all[i].0
      ensures all[i].0 in env[k := v] && env[k := v][all[i].0] == all[i].1
    {
      if i < |overrides| {
        assert all[|overrides|].0 != all[i].0;
        assert forall j :: i < j < |overrides| ==> overrides[j].0 == all[j].0;
      }
    }
  }

  // The env file has become the printed overlay, if there is anything to print.
  ghost predicate EnvWritten(files: Files, envPath: string, overrides: seq<(string, string)>, isPrint: int -> bool,
                             writes: seq<Write>) {
    var raw := if envPath in files then files[envPath] else "";
    if envPath == "" then writes == []
    else exists env :: Overlays(env, Parse(Explore, raw), overrides) && PrintedTo(envPath, env, isPrint, writes)
  }

  lemma EnvIsWritten(files: Files, envPath: string, overrides: seq<(string, string)>, isPrint: int -> bool,
                     writes: seq<Write>)
    requires var raw := if envPath in files then files[envPath] else "";
             if envPath == "" then writes == []
             else PrintedTo(envPath, Override(Parse(Explore, raw), overrides), isPrint, writes)
    ensures EnvWritten(files, envPath, overrides, isPrint, writes)
  {
    OverrideOverlays(Parse(Explore, if envPath in files then files[envPath] else ""), overrides);
  }

  ghost predicate PrintedTo(path: string, env: Env, isPrint: int -> bool, writes: seq<Write>) {
    if env == map[] then writes == []
    else exists keys :: Lists(keys, env) && writes == [Write(path, Render(isPrint, keys, env, true))]
  }

  /** The env file of the runtime, if it has one (`envPath` not empty). */
  method ApplyEnv(store: FileStore, envPath: string, overrides: seq<(string, string)>, isPrint: int -> bool)
      returns (undos: Result<seq<Undo>>, writes: seq<Write>)
    modifies store`files
    ensures store.files == WriteAll(old(store.files), writes)
    ensures undos.Success? ==> undos.value == Undos(old(store.files), writes)
    ensures forall i :: 0 <= i < |writes| ==> envPath != "" && writes[i].path == envPath
    ensures undos.Success? && envPath != "" ==>
              var raw := if envPath in old(store.files) then old(store.files)[envPath] else "";
              PrintedTo(envPath, Override(Parse(Explore, raw), overrides), isPrint, writes)
    ensures undos.Success? && envPath == "" ==> writes == []
  {
    writes := [];
    if envPath == "" { return Success([]), writes; }
    ghost var before := store.files;
    var r := store.Read(envPath);
    if r == ReadFailed { return Failure, writes; }
    var raw := if r.Content? then r.content else "";
    var values := ParseEnv(Explore, raw);
    for i := 0 to |overrides|
      invariant values == Override(Parse(Explore, raw), overrides[..i])
    {
      assert overrides[..i + 1][..i] == overrides[..i];
      values := values[overrides[i].0 := overrides[i].1];
    }
    assert overrides[..|overrides|] == overrides;
    if |values| == 0 { return Success([]), writes; }
    var directory: bool := *;
    if !directory { return Failure, writes; }
    var text, keys := RenderEnv(isPrint, values, true);
    var ok: bool := *;
    store.WriteFile(envPath, text, ok);
    if !ok { return Failure, writes; }
    writes := [Write(envPath, text)];
    assert WriteAll(before, []) == before && writes[..0] == [];
    assert Undos(before, writes) == [Record(before, envPath)];
    return Success([if r.Content? then Undo(envPath, true, r.content) else Undo(envPath, false, "")]), writes;
  }

  lemma {:induction false} WritesConcat(files: Files, a: seq<Write>, b: seq<Write>)
    ensures WriteAll(files, a + b) == WriteAll(WriteAll(files, a), b)
    ensures Undos(files, a + b) == Undos(files, a) + Undos(WriteAll(files, a), b)
  {
    if b == [] {
      assert a + b == a;
    } else {
      assert (a + b)[..|a + b| - 1] == a + b[..|b| - 1];
      WritesConcat(files, a, b[..|b| - 1]);
    }
  }

  /**
   applyExploreRuntimePlan: the env file first, then the plan's files; the store's log says what came of it. On
   success the first `env` writes are those of the env file, the others those of the files.
   */
  method ApplyPlan(store: FileStore, envPath: string, overrides: seq<(string, string)>, plan: seq<PlanFile>,
                   sanitize: string -> Option<string>, isPrint: int -> bool)
      returns (undos: Result<seq<Undo>>, writes: seq<Write>, ghost env: nat, ghost at: seq<nat>)
    modifies store
    ensures store.files == WriteAll(old(store.files), writes)
    ensures undos.Success? ==> undos.value == Undos(old(store.files), writes)
    ensures env <= |writes|
    ensures undos.Success? ==>
              var before := old(store.files);
              && EnvWritten(before, envPath, overrides, isPrint, writes[..env])
              && Carries(WriteAll(before, writes[..env]), plan, |plan|, sanitize, writes[env..], at)
    ensures var before := old(store.files);
            store.log == old(store.log) + [if undos.Success? then Applied(before, writes) else Refused(before, writes)]
  {
    ghost var before := store.files;
    env, at := 0, [];
    var envUndos, envWrites := ApplyEnv(store, envPath, overrides, isPrint);
    if envUndos == Failure {
      store.log := store.log + [Refused(before, envWrites)];
      return Failure, envWrites, 0, [];
    }
    ghost var upto;
    var fileUndos, fileWrites;
    fileUndos, fileWrites, at, upto := ApplyFiles(store, plan, sanitize);
    writes, env := envWrites + fileWrites, |envWrites|;
    assert writes[..env] == envWrites && writes[env..] == fileWrites;
    WritesConcat(before, envWrites, fileWrites);
    EnvIsWritten(before, envPath, overrides, isPrint, envWrites);
    if fileUndos == Failure {
      store.log := store.log + [Refused(before, writes)];
      return Failure, writes, env, at;
    }
    undos := Success(envUndos.value + fileUndos.value);
    store.log := store.log + [Applied(before, writes)];
  }

  lemma OneUndo(files: Files, u: Undo, ok: bool)
    ensures RestoreSome(files, [u], [ok]) == if ok then ApplyUndo(files, u) else files
  {
    assert [u][..0] == [] && [ok][..0] == [];
  }

  // How n undos turn out.
  function Fates(works: nat -> bool, n: nat): (oks: seq<bool>)
    ensures |oks| == n && forall k :: 0 <= k < n ==> oks[k] == works(k)
  {
    seq(n, k requires 0 <= k => works(k))
  }

  /**
   The restore closure goes through all undos from the last and ignores file errors. Whether the system carries out
   the k-th undo is works(k).
   */
  method Restore(store: FileStore, undos: seq<Undo>, works: nat -> bool)
    modifies store
    ensures store.files == RestoreSome(old(store.files), undos, Fates(works, |undos|))
    ensures store.log == old(store.log) + [Restored(undos, old(store.files), store.files, Fates(works, |undos|))]
  {
    ghost var found, oks := store.files, Fates(works, |undos|);
    var i := |undos|;
    while i > 0
      invariant 0 <= i <= |undos| && store.log == old(store.log)
      invariant store.files == RestoreSome(found, undos[i..], oks[i..])
    {
      i := i - 1;
      ghost var files := store.files;
      if undos[i].existed {
        store.WriteFile(undos[i].path, undos[i].original, works(i));
      } else {
        store.Remove(undos[i].path, works(i));
      }
      OneUndo(files, undos[i], oks[i]);
      RestoreSomeConcat(found, [undos[i]], undos[i + 1..], [oks[i]], oks[i + 1..]);
      assert [undos[i]] + undos[i + 1..] == undos[i..] && [oks[i]] + oks[i + 1..] == oks[i..];
    }
    assert undos[0..] == undos && oks[0..] == oks;
    store.log := store.log + [Restored(undos, found, store.files, oks)];
  }

  // -------------------------------------------------------------- runExplore

  // r is the restore of the apply a: it runs that apply's undo log, and leaves every path as it should be.
  ghost predicate IsRestored(a: Step, r: Step) {
    && a.Applied? && r.Restored?
    && r.undos == Undos(a.before, a.writes) && |r.oks| == |a.writes|
    && (forall path :: !Touches(a.writes, path) ==> SameAt(r.left, r.found, path))
    && (forall path :: Touches(a.writes, path) && r.oks[FirstTouch(a.writes, path)] ==> SameAt(r.left, a.before, path))
  }

  // Every successful apply is followed at once by its own restore, and there are no other restores.
  ghost predicate Settled(log: seq<Step>) {
    var n := |log|;
    || n == 0
    || (log[n - 1].Refused? && Settled(log[..n - 1]))
    || (n >= 2 && IsRestored(log[n - 2], log[n - 1]) && Settled(log[..n - 2]))
  }

  lemma RestoreUndoesApply(before: Files, writes: seq<Write>, found: Files, oks: seq<bool>)
    requires |oks| == |writes| == |Undos(before, writes)|
    ensures var undos := Undos(before, writes);
            IsRestored(Applied(before, writes), Restored(undos, found, RestoreSome(found, undos, oks), oks))
  {
    forall path { RestoreSomeUndoes(before, writes, found, oks, path); }
  }

  lemma SettledRefused(log: seq<Step>, r: Step)
    requires Settled(log) && r.Refused?
    ensures Settled(log + [r])
  {
    assert (log + [r])[..|log|] == log;
  }

  lemma SettledPair(log: seq<Step>, a: Step, r: Step)
    requires Settled(log) && IsRestored(a, r)
    ensures Settled(log + [a] + [r])
  {
    assert (log + [a] + [r])[..|log|] == log;
  }

  /** How one attempt goes, as far as the files do not decide it; undone(k): the k-th undo will work. */
  datatype Fortune = Fortune(ensured: bool, prepared: bool, downloadOnly: bool, started: bool, healthy: bool,
                             fallback: bool, undone: nat -> bool)

  /** What a recommendation asks of the files: the runtime's env file ("" if it has none), its values, and files. */
  datatype RuntimePlan = RuntimePlan(envPath: string, overrides: seq<(string, string)>, files: seq<PlanFile>)

  // What an attempt adds to the log: its one apply, and the restore of that apply if it succeeded.
  ghost predicate OneApply(part: seq<Step>) {
    (|part| == 1 && part[0].Refused?) || (|part| == 2 && IsRestored(part[0], part[1]))
  }

  // A log that ends with a restore ends with what has just become of the files, undo by undo.
  ghost predicate EndsAt(log: seq<Step>, files: Files, works: nat -> bool) {
    log != [] && var last := log[|log| - 1];
    last.Restored? ==> last.oks == Fates(works, |last.undos|) && last.left == files
                       && files == RestoreSome(last.found, last.undos, last.oks)
  }

  // The restore closure of the apply just made, empty if the apply failed.
  method RunRestore(store: FileStore, result: Result<seq<Undo>>, works: nat -> bool, ghost before: Files,
                    ghost writes: seq<Write>, ghost log: seq<Step>)
    requires Settled(log)
    requires store.log == log + [if result.Success? then Applied(before, writes) else Refused(before, writes)]
    requires result.Success? ==> result.value == Undos(before, writes)
    modifies store
    ensures EndsAt(store.log, store.files, works)
    ensures old(store.log) <= store.log && |store.log| == |old(store.log)| + if result.Success? then 1 else 0
    ensures result.Failure? ==> store.files == old(store.files)
    ensures result.Success? ==> var last := store.log[|old(store.log)|];
                                last.Restored? && last.undos == result.value && last.found == old(store.files)
    ensures log <= store.log && Settled(store.log) && OneApply(store.log[|log|..])
  {
    if result.Success? {
      ghost var a, found := Applied(before, writes), store.files;
      Restore(store, result.value, works);
      ghost var oks := Fates(works, |result.value|);
      ghost var r := Restored(result.value, found, store.files, oks);
      UndosLength(before, writes);
      RestoreUndoesApply(before, writes, found, oks);
      SettledPair(log, a, r);
      assert store.log[|log|..] == [a, r];
    } else {
      SettledRefused(log, Refused(before, writes));
      assert store.log[|log|..] == [Refused(before, writes)];
    }
  }

  /**
   The body of the attempt loop from ensuring the runtime on; again is its `continue`, force the new forceOllama.
   Once the runtime is ensured the plan is applied exactly once, and whichever way the attempt ends, a successful
   apply has been restored exactly once by then.
   */
  method TryStack(store: FileStore, plan: RuntimePlan, sanitize: string -> Option<string>, isPrint: int -> bool,
                  first: bool, forced: bool, w: Fortune)
      returns (again: bool, force: bool)
    requires Settled(store.log)
    modifies store
    ensures old(store.log) <= store.log && Settled(store.log)
    ensures if w.ensured then OneApply(store.log[|old(store.log)|..]) && EndsAt(store.log, store.files, w.undone)
            else store.log == old(store.log)
    ensures again <==> (!w.ensured || !w.prepared || (!w.downloadOnly && !(w.started && w.healthy)))
                       && w.fallback && !forced
    ensures force == if again then !first else forced
  {
    again, force := false, forced;
    var next := w.fallback && !forced;
    store.Work();
    if !w.ensured {
      if next { again, force := true, !first; }
      return;
    }
    ghost var before, log := store.files, store.log;
    ghost var env, at;
    var result, writes;
    result, writes, env, at := ApplyPlan(store, plan.envPath, plan.overrides, plan.files, sanitize, isPrint);
    store.Work();
    if !w.prepared {
      RunRestore(store, result, w.undone, before, writes, log);
      if next { again, force := true, !first; }
      return;
    }
    if w.downloadOnly {
      RunRestore(store, result, w.undone, before, writes, log);
      return;
    }
    store.Work();
    if !w.started {
      RunRestore(store, result, w.undone, before, writes, log);
      if next { again, force := true, !first; }
      return;
    }
    store.Work();
    if !w.healthy {
      RunRestore(store, result, w.undone, before, writes, log);
      if next { again, force := true, !first; }
      return;
    }
    // From here on the restore is deferred: evaluation, reporting and scoring, then return in any case.
    store.Work();
    RunRestore(store, result, w.undone, before, writes, log);
  }

  /**
   At most three attempts, each with at most one apply, and on every path every successful apply has been
   restored exactly once at the end. Each attempt gets a new recommendation from the server.
   */
  method RunExplore(store: FileStore, sanitize: string -> Option<string>, isPrint: int -> bool)
    requires store.log == []
    modifies store
    ensures Settled(store.log) && |store.log| <= 6
  {
    var forced, attempt := false, 0;
    while attempt < 3
      invariant 0 <= attempt <= 3 && Settled(store.log) && |store.log| <= 2 * attempt
    {
      var answered: bool, retry: bool, ollama: bool := *, *, *;
      if !answered {
        if !(retry && attempt < 2) {
          if !ollama || forced { return; }
          forced := true;
        }
      } else {
        var incomplete: bool, invalid: bool, declined: bool := *, *, *;
        if incomplete { return; }
        if invalid {
          if forced { return; }
          forced := attempt != 0;
        } else {
          if declined { return; }
          var plan: RuntimePlan := *;
          var w: Fortune := *;
          var again, force := TryStack(store, plan, sanitize, isPrint, attempt == 0, forced, w);
          if !again { return; }
          forced := force;
        }
      }
      attempt := attempt + 1;
    }
  }
}
