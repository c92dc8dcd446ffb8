/** sweepLogDir: which log files survive. */
module LogRetention {
  import opened Bytes

  const PREFIX: string := "hugo-"
  const SUFFIX: string := ".log"
  const MAX_INT32: int := 0x7fff_ffff

  datatype FileInfo = FileInfo(name: string, size: nat, modTime: int)

  /** The limits of one sweep; no cutoff when there is no maximum age. */
  datatype Limits = Limits(maxCount: int, maxTotal: int, cutoff: Option<int>)

  predicate IsLog(f: FileInfo) {
    && PREFIX <= f.name
    && |f.name| >= |SUFFIX| && f.name[|f.name| - |SUFFIX|..] == SUFFIX
  }

  predicate NewestFirst(fs: seq<FileInfo>) {
    forall i, j :: 0 <= i < j < |fs| ==> fs[i].modTime >= fs[j].modTime
  }

  /** The log files among `fs`, in order. */
  function Logs(fs: seq<FileInfo>): seq<FileInfo> {
    if fs == [] then [] else
      Logs(fs[..|fs| - 1]) + if IsLog(fs[|fs| - 1]) then [fs[|fs| - 1]] else []
  }

  lemma {:induction false} LogsMembers(fs: seq<FileInfo>, f: FileInfo)
    ensures f in Logs(fs) <==> f in fs && IsLog(f)
    decreases |fs|
  {
    if fs != [] {
      LogsMembers(fs[..|fs| - 1], f);
      assert fs == fs[..|fs| - 1] + [fs[|fs| - 1]];
    }
  }

  lemma {:induction false} LogsNewestFirst(fs: seq<FileInfo>)
    requires NewestFirst(fs)
    ensures NewestFirst(Logs(fs))
    decreases |fs|
  {
    if fs != [] {
      var init, last := fs[..|fs| - 1], fs[|fs| - 1];
      LogsNewestFirst(init);
      forall i | 0 <= i < |Logs(init)| ensures Logs(init)[i].modTime >= last.modTime {
        LogsMembers(init, Logs(init)[i]);
      }
    }
  }

  function TotalSize(fs: seq<FileInfo>): nat {
    if fs == [] then 0 else TotalSize(fs[..|fs| - 1]) + fs[|fs| - 1].size
  }

  predicate TooOld(f: FileInfo, lim: Limits) {
    lim.cutoff.Some? && f.modTime < lim.cutoff.value
  }

  /** The first k log files together meet the count, the size and the age limit. */
  predicate Fit(logs: seq<FileInfo>, k: nat, lim: Limits)
    requires k <= |logs|
  {
    k == 0 ||
    (k <= lim.maxCount && TotalSize(logs[..k]) <= lim.maxTotal && forall i :: 0 <= i < k ==> !TooOld(logs[i], lim))
  }

  /** The longest run of newest log files that meets all limits at once. */
  function Longest(logs: seq<FileInfo>, lim: Limits): (n: nat)
    ensures n <= |logs| && Fit(logs, n, lim)
    ensures forall k :: n < k <= |logs| ==> !Fit(logs, k, lim)
  {
    LongestFrom(logs, lim, |logs|)
  }

  function LongestFrom(logs: seq<FileInfo>, lim: Limits, m: nat): (n: nat)
    requires m <= |logs|
    ensures n <= m && Fit(logs, n, lim)
    ensures forall k :: n < k <= m ==> !Fit(logs, k, lim)
  {
    if Fit(logs, m, lim) then m else LongestFrom(logs, lim, m - 1)
  }

  lemma TotalStep(logs: seq<FileInfo>, k: nat)
    requires k < |logs|
    ensures TotalSize(logs[..k + 1]) == TotalSize(logs[..k]) + logs[k].size
  {
    assert logs[..k + 1][..k] == logs[..k];
  }

  /** What the loop tests for the log file at position k. */
  predicate Over(logs: seq<FileInfo>, k: nat, lim: Limits)
    requires k < |logs|
  {
    k + 1 > lim.maxCount || TotalSize(logs[..k + 1]) > lim.maxTotal || TooOld(logs[k], lim)
  }

  /** Testing each file on its own decides the same as the limits on the whole run: once one
      file is over, every older one is. */
  lemma {:induction false} OverIff(logs: seq<FileInfo>, k: nat, lim: Limits)
    requires NewestFirst(logs) && k < |logs|
    ensures Over(logs, k, lim) <==> Longest(logs, lim) <= k
  {
    if !Over(logs, k, lim) {
      forall i | 0 <= i <= k ensures !TooOld(logs[i], lim) {
      }
      assert Fit(logs, k + 1, lim);
    } else {
      NoFitBehind(logs, k, lim, Longest(logs, lim));
    }
  }

  lemma {:induction false} TotalMonotone(logs: seq<FileInfo>, j: nat, k: nat)
    requires j <= k <= |logs|
    ensures TotalSize(logs[..j]) <= TotalSize(logs[..k])
    decreases k - j
  {
    if j < k {
      TotalMonotone(logs, j, k - 1);
      TotalStep(logs, k - 1);
    }
  }

  lemma NoFitBehind(logs: seq<FileInfo>, k: nat, lim: Limits, n: nat)
    requires k < |logs| && n <= |logs| && Over(logs, k, lim) && Fit(logs, n, lim)
    ensures n <= k
  {
    if k < n {
      TotalMonotone(logs, k + 1, n);
    }
  }

  /** Where the next file of the order stands among the logs. */
  lemma LogStep(order: seq<FileInfo>, i: nat)
    requires i < |order|
    ensures
      var logs, c := Logs(order), |Logs(order[..i])|;
      && c <= |logs| && Logs(order[..i]) == logs[..c]
      && if IsLog(order[i]) then c < |logs| && logs[c] == order[i] && Logs(order[..i + 1]) == logs[..c + 1]
         else Logs(order[..i + 1]) == Logs(order[..i])
  {
    LogsPrefix(order, i);
    LogsPrefix(order, i + 1);
    assert order[..i + 1][..i] == order[..i];
  }

  /** The files among the first k that the loop's test picks out. */
  function Picked(logs: seq<FileInfo>, lim: Limits, k: nat): seq<FileInfo>
    requires k <= |logs|
  {
    if k == 0 then [] else Picked(logs, lim, k - 1) + if Over(logs, k - 1, lim) then [logs[k - 1]] else []
  }

  lemma SliceStep(logs: seq<FileInfo>, n: nat, c: nat)
    requires n <= c < |logs|
    ensures logs[n..c] + [logs[c]] == logs[n..c + 1]
    ensures logs[c..c] == []
  {}

  /** They are the ones behind the longest run. */
  lemma {:induction false} PickedIsTail(logs: seq<FileInfo>, lim: Limits, k: nat)
    requires NewestFirst(logs) && k <= |logs|
    ensures Picked(logs, lim, k) == if k <= Longest(logs, lim) then [] else logs[Longest(logs, lim)..k]
    decreases k
  {
    if k > 0 {
      PickedIsTail(logs, lim, k - 1);
      OverIff(logs, k - 1, lim);
      if Longest(logs, lim) <= k - 1 {
        SliceStep(logs, Longest(logs, lim), k - 1);
      }
    }
  }

  lemma SweepResult(order: seq<FileInfo>, lim: Limits)
    requires NewestFirst(order)
    ensures Picked(Logs(order), lim, |Logs(order)|) == Logs(order)[Longest(Logs(order), lim)..]
  {
    LogsNewestFirst(order);
    PickedIsTail(Logs(order), lim, |Logs(order)|);
  }

  /** The selection loop. Removed files are the log files behind the longest run. */
  method Sweep(order: seq<FileInfo>, lim: Limits) returns (removed: seq<FileInfo>)
    requires NewestFirst(order)
    ensures removed == Logs(order)[Longest(Logs(order), lim)..]
  {
    removed := SweepLoop(order, lim);
    SweepResult(order, lim);
  }

  method SweepLoop(order: seq<FileInfo>, lim: Limits) returns (removed: seq<FileInfo>)
    ensures removed == Picked(Logs(order), lim, |Logs(order)|)
  {
    ghost var logs := Logs(order);
    var cnt, total := 0, 0;
    removed := [];
    for i := 0 to |order|
      invariant cnt == |Logs(order[..i])| && cnt <= |logs|
      invariant total == TotalSize(logs[..cnt])
      invariant removed == Picked(logs, lim, cnt)
    {
      LogStep(order, i);
      if IsLog(order[i]) {
        TotalStep(logs, cnt);
        cnt := cnt + 1;
        total := total + order[i].size;
        if cnt > lim.maxCount || total > lim.maxTotal || TooOld(order[i], lim) {
          removed := removed + [order[i]];
        }
      }
    }
    assert order[..|order|] == order;
  }

  lemma {:induction false} LogsPrefix(fs: seq<FileInfo>, i: nat)
    requires i <= |fs|
    ensures Logs(fs[..i]) <= Logs(fs)
    decreases |fs|
  {
    if i < |fs| {
      assert fs[..|fs| - 1][..i] == fs[..i];
      LogsPrefix(fs[..|fs| - 1], i);
    } else {
      assert fs[..i] == fs;
    }
  }

  // ---------------------------------------------------------------- the whole directory

  /** sweepLogDir over a directory listing, in any order sort.Slice may have put it. */
  method SweepLogDir(ghost entries: seq<FileInfo>, order: seq<FileInfo>, maxCount: int, maxTotal: int, cutoff: Option<int>)
    returns (removed: seq<FileInfo>, ghost kept: seq<FileInfo>)
    requires NewestFirst(order) && multiset(order) == multiset(entries)
    ensures multiset(kept + removed) == multiset(Logs(entries))
    ensures NewestFirst(kept + removed)
    ensures
      var lim := Limits(if maxCount == 0 then MAX_INT32 else maxCount, maxTotal, cutoff);
      |kept| == Longest(kept + removed, lim)
  {
    var lim := Limits(if maxCount == 0 then MAX_INT32 else maxCount, maxTotal, cutoff);
    removed := Sweep(order, lim);
    kept := Logs(order)[..Longest(Logs(order), lim)];
    assert Logs(order) == kept + removed;
    LogsNewestFirst(order);
    SameLogs(order, entries);
  }

  /** How often a file occurs among the logs depends only on how often it occurs at all. */
  lemma {:induction false} LogsCount(fs: seq<FileInfo>, f: FileInfo)
    ensures multiset(Logs(fs))[f] == if IsLog(f) then multiset(fs)[f] else 0
    decreases |fs|
  {
    if fs != [] {
      LogsCount(fs[..|fs| - 1], f);
      assert fs == fs[..|fs| - 1] + [fs[|fs| - 1]];
    }
  }

  lemma SameLogs(fs: seq<FileInfo>, gs: seq<FileInfo>)
    requires multiset(fs) == multiset(gs)
    ensures multiset(Logs(fs)) == multiset(Logs(gs))
  {
    forall f ensures multiset(Logs(fs))[f] == multiset(Logs(gs))[f] {
      LogsCount(fs, f);
      LogsCount(gs, f);
    }
  }

  /** No removed log file is newer than a kept one, and nothing but log files is removed. */
  lemma RemovedAreOlder(order: seq<FileInfo>, lim: Limits, i: nat, j: nat)
    requires NewestFirst(order)
    requires i < Longest(Logs(order), lim) <= j < |Logs(order)|
    ensures Logs(order)[i].modTime >= Logs(order)[j].modTime
    ensures IsLog(Logs(order)[j])
  {
    LogsNewestFirst(order);
    LogsMembers(order, Logs(order)[j]);
  }
}
