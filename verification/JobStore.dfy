/**
 The trainer's job store: pruning by age and count, the order on disk, and what comes back.
 */
module JobStore {
  import opened Basics
  import opened GoStrings

  datatype Job = Job(commandId: string, status: string, startedAt: string, completedAt: string, detail: string)

  // Instants are seconds; a timestamp that does not parse is the zero instant.
  type Clock = string -> int

  const ZERO := 0
  const MAX_ENTRIES := 50
  const MAX_AGE := 30 * 24 * 3600

  predicate IsActive(status: string) { TrimSpace(ToLower(status)) in {"pending", "in_progress", "running"} }

  // Active, without any known time, or finished (failing that, started) after the cutoff.
  predicate Stays(j: Job, clock: Clock, cutoff: int) {
    || IsActive(j.status)
    || var at := if clock(j.completedAt) == ZERO then clock(j.startedAt) else clock(j.completedAt);
       at == ZERO || at > cutoff
  }

  function Fresh(jobs: seq<Job>, clock: Clock, cutoff: int): seq<Job> {
    if jobs == [] then [] else
    var front, j := Fresh(jobs[..|jobs| - 1], clock, cutoff), jobs[|jobs| - 1];
    if Stays(j, clock, cutoff) then front + [j] else front
  }

  ghost predicate NewestFirst(jobs: seq<Job>, clock: Clock) {
    forall i, j :: 0 <= i < j < |jobs| ==> clock(jobs[i].startedAt) >= clock(jobs[j].startedAt)
  }

  // Where the sort puts j: before the first job that started earlier.
  function Place(jobs: seq<Job>, j: Job, clock: Clock): (k: nat)
    ensures k <= |jobs|
    ensures forall i :: 0 <= i < k ==> clock(jobs[i].startedAt) >= clock(j.startedAt)
    ensures k < |jobs| ==> clock(jobs[k].startedAt) < clock(j.startedAt)
  {
    if jobs == [] || clock(jobs[0].startedAt) < clock(j.startedAt) then 0 else 1 + Place(jobs[1..], j, clock)
  }

  // jobs with j put at k.
  function Inserted(jobs: seq<Job>, j: Job, k: nat): seq<Job>
    requires k <= |jobs|
  {
    jobs[..k] + [j] + jobs[k..]
  }

  lemma InsertedHolds(jobs: seq<Job>, j: Job, k: nat)
    requires k <= |jobs|
    ensures multiset(Inserted(jobs, j, k)) == multiset(jobs) + multiset{j}
  {
    assert jobs == jobs[..k] + jobs[k..];
  }

  lemma PlaceKeepsOrder(jobs: seq<Job>, j: Job, clock: Clock)
    requires NewestFirst(jobs, clock)
    ensures NewestFirst(Inserted(jobs, j, Place(jobs, j, clock)), clock)
  {
    var k := Place(jobs, j, clock);
    var all := Inserted(jobs, j, k);
    forall i | k <= i < |jobs| ensures clock(jobs[i].startedAt) <= clock(j.startedAt) {
      if i > k { assert clock(jobs[k].startedAt) >= clock(jobs[i].startedAt); }
    }
    forall a, b | 0 <= a < b < |all| ensures clock(all[a].startedAt) >= clock(all[b].startedAt) {
      assert all[a] == if a < k then jobs[a] else if a == k then j else jobs[a - 1];
      assert all[b] == if b < k then jobs[b] else if b == k then j else jobs[b - 1];
    }
  }

  lemma PlacedInOrder(jobs: seq<Job>, j: Job, clock: Clock)
    requires NewestFirst(jobs, clock)
    ensures var all := Inserted(jobs, j, Place(jobs, j, clock));
            NewestFirst(all, clock) && multiset(all) == multiset(jobs) + multiset{j}
  {
    PlaceKeepsOrder(jobs, j, clock);
    InsertedHolds(jobs, j, Place(jobs, j, clock));
  }

  lemma OneMore(jobs: seq<Job>, i: nat)
    requires i < |jobs|
    ensures multiset(jobs[..i + 1]) == multiset(jobs[..i]) + multiset{jobs[i]}
  {
    assert jobs[..i + 1] == jobs[..i] + [jobs[i]];
  }

  /** Some ordering by start, newest first. Nothing below depends on how equal starts are ordered. */
  method SortNewestFirst(jobs: seq<Job>, clock: Clock) returns (sorted: seq<Job>)
    ensures NewestFirst(sorted, clock) && multiset(sorted) == multiset(jobs)
  {
    sorted := [];
    for i := 0 to |jobs|
      invariant NewestFirst(sorted, clock) && multiset(sorted) == multiset(jobs[..i])
    {
      OneMore(jobs, i);
      PlacedInOrder(sorted, jobs[i], clock);
      sorted := Inserted(sorted, jobs[i], Place(sorted, jobs[i], clock));
    }
    assert jobs[..|jobs|] == jobs;
  }

  // kept is what pruning leaves of the fresh jobs, dropped what the cap takes.
  ghost predicate Capped(young: seq<Job>, kept: seq<Job>, dropped: seq<Job>, clock: Clock) {
    && multiset(kept) + multiset(dropped) == multiset(young)
    && (|young| <= MAX_ENTRIES ==> kept == young)
    && (|young| > MAX_ENTRIES ==> |kept| == MAX_ENTRIES)
    && forall k, d :: k in kept && d in dropped ==> clock(d.startedAt) <= clock(k.startedAt)
  }

  /**
   The fresh jobs, in the order of the records: those that are pending, in progress or running, and those whose end,
   failing that whose start, is later than the cutoff or unknown.
   */
  lemma {:induction false} FreshSelected(records: seq<Job>, clock: Clock, cutoff: int, keep: nat -> bool, n: nat)
      returns (at: seq<nat>)
    requires n <= |records| && forall i: nat :: i < |records| ==> (keep(i) <==>
               var j := records[i];
               || TrimSpace(ToLower(j.status)) in {"pending", "in_progress", "running"}
               || (if clock(j.completedAt) != ZERO then clock(j.completedAt) > cutoff
                   else clock(j.startedAt) == ZERO || clock(j.startedAt) > cutoff))
    ensures Selects(records, n, keep, at, Fresh(records[..n], clock, cutoff))
  {
    if n == 0 {
      at := [];
      SelectsNone(records, keep);
    } else {
      at := FreshSelected(records, clock, cutoff, keep, n - 1);
      SelectsNext(records, n - 1, keep, at, Fresh(records[..n - 1], clock, cutoff));
      assert records[..n][..n - 1] == records[..n - 1];
      assert keep(n - 1) <==> Stays(records[n - 1], clock, cutoff);
      if keep(n - 1) { at := at + [n - 1]; }
    }
  }

  /** Pruning: the fresh jobs, cut to fifty so that none that goes started after one that stays. */
  method Prune(records: seq<Job>, clock: Clock, now: int) returns (kept: seq<Job>, ghost dropped: seq<Job>)
    ensures |kept| <= MAX_ENTRIES && Capped(Fresh(records, clock, now - MAX_AGE), kept, dropped, clock)
    ensures MAX_ENTRIES == 50 && MAX_AGE == 30 * 24 * 60 * 60
  {
    var cutoff := now - MAX_AGE;
    var filtered: seq<Job> := [];
    for i := 0 to |records|
      invariant filtered == Fresh(records[..i], clock, cutoff)
    {
      var job := records[i];
      assert records[..i + 1][..i] == records[..i];
      if IsActive(job.status) {
        filtered := filtered + [job];
        continue;
      }
      var completed := clock(job.completedAt);
      if completed == ZERO { completed := clock(job.startedAt); }
      if completed == ZERO || completed > cutoff { filtered := filtered + [job]; }
    }
    assert records[..|records|] == records;
    kept, dropped := filtered, [];
    if |filtered| > MAX_ENTRIES {
      var sorted := SortNewestFirst(filtered, clock);
      SameSize(sorted, filtered);
      kept, dropped := sorted[..MAX_ENTRIES], sorted[MAX_ENTRIES..];
      assert sorted == kept + dropped;
    }
  }

  lemma SameSize(a: seq<Job>, b: seq<Job>)
    requires multiset(a) == multiset(b)
    ensures |a| == |b|
  {
    assert |multiset(a)| == |a| && |multiset(b)| == |b|;
  }

  // ------------------------------------------------ which jobs survive

  // How many jobs started at or after t.
  function NotOlder(jobs: seq<Job>, clock: Clock, t: int): (n: nat)
    ensures n <= |jobs|
  {
    if jobs == [] then 0 else
    NotOlder(jobs[..|jobs| - 1], clock, t) + if clock(jobs[|jobs| - 1].startedAt) >= t then 1 else 0
  }

  lemma {:induction false} NotOlderConcat(a: seq<Job>, b: seq<Job>, clock: Clock, t: int)
    ensures NotOlder(a + b, clock, t) == NotOlder(a, clock, t) + NotOlder(b, clock, t)
    decreases |b|
  {
    if b == [] {
      assert a + b == a;
    } else {
      NotOlderConcat(a, b[..|b| - 1], clock, t);
      assert (a + b)[..|a + b| - 1] == a + b[..|b| - 1];
    }
  }

  lemma {:induction false} NotOlderAll(jobs: seq<Job>, clock: Clock, t: int)
    requires forall j :: j in jobs ==> clock(j.startedAt) >= t
    ensures NotOlder(jobs, clock, t) == |jobs|
    decreases |jobs|
  {
    if jobs != [] { NotOlderAll(jobs[..|jobs| - 1], clock, t); }
  }

  lemma {:induction false} NotOlderSome(jobs: seq<Job>, clock: Clock, t: int, j: Job)
    requires j in jobs && clock(j.startedAt) >= t
    ensures NotOlder(jobs, clock, t) >= 1
    decreases |jobs|
  {
    if j != jobs[|jobs| - 1] { NotOlderSome(jobs[..|jobs| - 1], clock, t, j); }
  }

  lemma {:induction false} NotOlderNone(jobs: seq<Job>, clock: Clock, t: int)
    requires forall j :: j in jobs ==> clock(j.startedAt) < t
    ensures NotOlder(jobs, clock, t) == 0
    decreases |jobs|
  {
    if jobs != [] { NotOlderNone(jobs[..|jobs| - 1], clock, t); }
  }

  // Taking one job out.
  lemma NotOlderWithout(jobs: seq<Job>, k: nat, clock: Clock, t: int)
    requires k < |jobs|
    ensures NotOlder(jobs, clock, t)
            == NotOlder(jobs[..k] + jobs[k + 1..], clock, t) + if clock(jobs[k].startedAt) >= t then 1 else 0
  {
    assert jobs == jobs[..k + 1] + jobs[k + 1..];
    NotOlderConcat(jobs[..k + 1], jobs[k + 1..], clock, t);
    NotOlderConcat(jobs[..k], jobs[k + 1..], clock, t);
    assert jobs[..k + 1][..k] == jobs[..k];
  }

  lemma WithoutHolds(jobs: seq<Job>, k: nat)
    requires k < |jobs|
    ensures multiset(jobs[..k] + jobs[k + 1..]) == multiset(jobs) - multiset{jobs[k]}
  {
    assert jobs == jobs[..k] + [jobs[k]] + jobs[k + 1..];
  }

  // Counting does not mind the order.
  lemma {:induction false} NotOlderOfPermutation(a: seq<Job>, b: seq<Job>, clock: Clock, t: int)
    requires multiset(a) == multiset(b)
    ensures NotOlder(a, clock, t) == NotOlder(b, clock, t)
    decreases |a|
  {
    SameSize(a, b);
    if a != [] {
      var front, last := a[..|a| - 1], a[|a| - 1];
      assert front + a[|a|..] == front;
      WithoutHolds(a, |a| - 1);
      assert last in multiset(b);
      var k: nat :| k < |b| && b[k] == last;
      WithoutHolds(b, k);
      NotOlderOfPermutation(front, b[..k] + b[k + 1..], clock, t);
      NotOlderWithout(b, k, clock, t);
    }
  }

  /**
   A fresh job survives if at most fifty fresh ones, itself included, started when it did or later. If fifty
   others started after it, it goes, active or not.
   */
  lemma SurvivesTheCap(young: seq<Job>, kept: seq<Job>, dropped: seq<Job>, clock: Clock, j: Job)
    requires Capped(young, kept, dropped, clock) && j in young
    ensures NotOlder(young, clock, clock(j.startedAt)) <= MAX_ENTRIES ==> j in kept
    ensures NotOlder(young, clock, clock(j.startedAt) + 1) >= MAX_ENTRIES ==> j !in kept
  {
    SplitCounts(young, kept, dropped, clock, clock(j.startedAt));
    SplitCounts(young, kept, dropped, clock, clock(j.startedAt) + 1);
    assert j in multiset(kept) + multiset(dropped);
    if j !in kept {
      NotOlderAll(kept, clock, clock(j.startedAt));
      NotOlderSome(dropped, clock, clock(j.startedAt), j);
    } else {
      KeptIsCounted(kept, clock, j);
      NotOlderNone(dropped, clock, clock(j.startedAt) + 1);
    }
  }

  lemma SplitCounts(young: seq<Job>, kept: seq<Job>, dropped: seq<Job>, clock: Clock, t: int)
    requires Capped(young, kept, dropped, clock)
    ensures NotOlder(young, clock, t) == NotOlder(kept, clock, t) + NotOlder(dropped, clock, t)
    ensures |young| == |kept| + |dropped|
  {
    assert multiset(kept + dropped) == multiset(young);
    SameSize(kept + dropped, young);
    NotOlderOfPermutation(kept + dropped, young, clock, t);
    NotOlderConcat(kept, dropped, clock, t);
  }

  lemma {:induction false} KeptIsCounted(kept: seq<Job>, clock: Clock, j: Job)
    requires j in kept
    ensures NotOlder(kept, clock, clock(j.startedAt) + 1) < |kept|
    decreases |kept|
  {
    if j != kept[|kept| - 1] { KeptIsCounted(kept[..|kept| - 1], clock, j); }
  }

  /** Every active job survives while the age filter leaves no more than fifty. */
  lemma ActiveSurvive(records: seq<Job>, kept: seq<Job>, dropped: seq<Job>, clock: Clock, cutoff: int, j: Job)
    requires Capped(Fresh(records, clock, cutoff), kept, dropped, clock)
    requires j in records && IsActive(j.status) && |Fresh(records, clock, cutoff)| <= MAX_ENTRIES
    ensures j in kept
  {
    ActiveIsFresh(records, clock, cutoff, j);
  }

  lemma {:induction false} ActiveIsFresh(records: seq<Job>, clock: Clock, cutoff: int, j: Job)
    requires j in records && Stays(j, clock, cutoff)
    ensures j in Fresh(records, clock, cutoff)
    decreases |records|
  {
    if j != records[|records| - 1] { ActiveIsFresh(records[..|records| - 1], clock, cutoff, j); }
  }

  // -------------------------------------------------------- save and load

  function Loaded(jobs: seq<Job>): map<string, Job> {
    if jobs == [] then map[] else
    var front, j := Loaded(jobs[..|jobs| - 1]), jobs[|jobs| - 1];
    if Blank(j.commandId) then front else front[j.commandId := j]
  }

  // A map is keyed by the command IDs of its jobs, none of them blank.
  predicate Keyed(jobs: map<string, Job>) { forall k :: k in jobs ==> jobs[k].commandId == k && !Blank(k) }

  ghost predicate Lists(records: seq<Job>, jobs: map<string, Job>) {
    && (forall k :: k in jobs ==> jobs[k] in records)
    && (forall j :: j in records ==> exists k :: k in jobs && jobs[k] == j)
  }

  class Store {
    const clock: Clock
    var file: Option<seq<Job>>            // what the JSON file holds, if there is one

    constructor (clock: Clock)
      ensures file == None && this.clock == clock
    { file, this.clock := None, clock; }

    method Load() returns (jobs: map<string, Job>)
      ensures jobs == if file.None? then map[] else Loaded(file.value)
    {
      jobs := map[];
      if file.None? { return; }
      var records := file.value;
      for i := 0 to |records|
        invariant jobs == Loaded(records[..i])
      {
        assert records[..i + 1][..i] == records[..i];
        if Blank(records[i].commandId) { continue; }
        jobs := jobs[records[i].commandId := records[i]];
      }
      assert records[..|records|] == records;
    }

    /** The file ends up with the pruned jobs, newest first. */
    method Save(jobs: map<string, Job>, now: int)
      returns (ghost records: seq<Job>, ghost kept: seq<Job>, ghost dropped: seq<Job>)
      modifies this
      ensures Lists(records, jobs)
      ensures file.Some? && NewestFirst(file.value, clock) && |file.value| <= MAX_ENTRIES
      ensures multiset(file.value) == multiset(kept)
      ensures Capped(Fresh(records, clock, now - MAX_AGE), kept, dropped, clock)
    {
      var copied: seq<Job> := [];
      var rest := jobs.Keys;
      while rest != {}
        invariant rest <= jobs.Keys
        invariant forall k :: k in jobs && k !in rest ==> jobs[k] in copied
        invariant forall j :: j in copied ==> exists k :: k in jobs && jobs[k] == j
        decreases rest
      {
        var k :| k in rest;
        copied, rest := copied + [jobs[k]], rest - {k};
      }
      records := copied;
      var pruned;
      pruned, dropped := Prune(copied, clock, now);
      kept := pruned;
      var sorted := SortNewestFirst(pruned, clock);
      SameSize(sorted, pruned);
      file := Some(sorted);
    }
  }

  /** Loading gives each non-blank command ID the last job the file has for it. */
  lemma {:induction false} LoadedIsLast(jobs: seq<Job>)
    ensures forall k :: k in Loaded(jobs) <==> TrimSpace(k) != "" && exists j :: j in jobs && j.commandId == k
    ensures forall k :: k in Loaded(jobs) ==> LastOf(jobs, k, Loaded(jobs)[k])
    decreases |jobs|
  {
    if jobs != [] {
      var front, last := jobs[..|jobs| - 1], jobs[|jobs| - 1];
      assert jobs == front + [last];
      LoadedIsLast(front);
      forall k | k in Loaded(jobs) ensures LastOf(jobs, k, Loaded(jobs)[k]) {
        LastOfNext(front, last, k, Loaded(jobs)[k]);
      }
    }
  }

  ghost predicate LastOf(jobs: seq<Job>, k: string, j: Job) {
    exists i :: 0 <= i < |jobs| && jobs[i] == j && j.commandId == k
                && forall l :: i < l < |jobs| ==> jobs[l].commandId != k
  }

  lemma LastOfNext(front: seq<Job>, last: Job, k: string, j: Job)
    requires if last.commandId == k then j == last else LastOf(front, k, j)
    ensures LastOf(front + [last], k, j)
  {
    var all := front + [last];
    if last.commandId == k {
      assert all[|front|] == j;
    } else {
      var i :| 0 <= i < |front| && front[i] == j && j.commandId == k
               && forall l :: i < l < |front| ==> front[l].commandId != k;
      assert all[i] == j && forall l :: i < l < |front| ==> all[l] == front[l];
    }
  }

  lemma {:induction false} LoadedOf(jobs: seq<Job>, all: map<string, Job>)
    requires Keyed(all) && forall j :: j in jobs ==> j.commandId in all && all[j.commandId] == j
    ensures forall k :: k in Loaded(jobs) <==> k in all && all[k] in jobs
    ensures forall k :: k in Loaded(jobs) ==> Loaded(jobs)[k] == all[k]
    decreases |jobs|
  {
    if jobs != [] {
      var front, last := jobs[..|jobs| - 1], jobs[|jobs| - 1];
      assert jobs == front + [last];
      LoadedOf(front, all);
      assert last in jobs;
    }
  }

  lemma {:induction false} FreshAreRecords(records: seq<Job>, clock: Clock, cutoff: int)
    ensures forall j :: j in Fresh(records, clock, cutoff) ==> j in records
    decreases |records|
  {
    if records != [] { FreshAreRecords(records[..|records| - 1], clock, cutoff); }
  }

  /** Loading a saved map gives exactly the jobs that pruning kept, each under its own ID. */
  lemma LoadOfSaved(jobs: map<string, Job>, records: seq<Job>, kept: seq<Job>, dropped: seq<Job>, file: seq<Job>,
                    clock: Clock, cutoff: int)
    requires Keyed(jobs) && Lists(records, jobs) && multiset(file) == multiset(kept)
    requires Capped(Fresh(records, clock, cutoff), kept, dropped, clock)
    ensures forall k :: k in Loaded(file) <==> k in jobs && jobs[k] in kept
    ensures forall k :: k in Loaded(file) ==> Loaded(file)[k] == jobs[k]
  {
    FreshAreRecords(records, clock, cutoff);
    forall j ensures j in file <==> j in kept { assert j in multiset(file) <==> j in multiset(kept); }
    forall j | j in file ensures j.commandId in jobs && jobs[j.commandId] == j {
      assert j in multiset(kept) + multiset(dropped);
      assert j in multiset(Fresh(records, clock, cutoff));
      assert j in records;
    }
    LoadedOf(file, jobs);
  }
}
