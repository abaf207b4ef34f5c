/**
 Backup retention (internal/scheduler/backup.go): two deletion policies over the backups of a
 directory, sorted newest first: a cap on their number, and an age limit that spares a minimum.
 */
module Backups {
  import opened Common

  /** A directory entry; the modification time is missing when its details cannot be read. */
  datatype Entry = Entry(isDir: bool, modTime: Option<int>)

  datatype Backup = Backup(name: string, modTime: int)

  datatype Policy = Policy(retentionDays: int, minBackups: int, maxBackups: int)

  datatype Error = ReadFailed | RemoveFailed(name: string)

  // ---------- what is to be kept ----------

  predicate HasSuffix(name: string, suffix: string) {
    |suffix| <= |name| && name[|name| - |suffix|..] == suffix
  }

  predicate IsBackup(name: string, entry: Entry, prefix: string) {
    !entry.isDir && prefix <= name && HasSuffix(name, ".zip") && entry.modTime.Some?
  }

  /** The backups of a directory, with their times. */
  function BackupsOf(files: map<string, Entry>, prefix: string): map<string, int> {
    map name | name in files && IsBackup(name, files[name], prefix) :: files[name].modTime.value
  }

  /** The backups that are not older than the cutoff. */
  function Recent(b: map<string, int>, cutoff: int): set<string> {
    set name | name in b && b[name] >= cutoff
  }

  predicate Active(p: Policy) {
    p.retentionDays > 0 || p.maxBackups > 0
  }

  /** What the age limit alone keeps: the recent ones, but at least `minBackups` and at least one. */
  function ByAge(n: nat, recent: nat, p: Policy): (k: nat)
  {
    if p.retentionDays > 0 then Min(n, Max(Max(p.minBackups, 1), recent)) else n
  }

  function ByCount(n: nat, p: Policy): (k: nat)
  {
    if p.maxBackups > 0 then Min(n, p.maxBackups) else n
  }

  /** How many backups survive. */
  function Kept(b: map<string, int>, p: Policy, cutoff: int): (k: nat) {
    Min(ByCount(|b|, p), ByAge(|b|, |Recent(b, cutoff)|, p))
  }

  /** `doomed` leaves exactly the newest `Kept` backups; equally old ones may be told apart in any way. */
  ghost predicate LeavesNewest(b: map<string, int>, doomed: set<string>, p: Policy, cutoff: int) {
    && doomed <= b.Keys
    && |doomed| == |b| - Kept(b, p, cutoff)
    && forall x, y :: x in b && x !in doomed && y in doomed ==> b[x] >= b[y]
  }

  // ---------- sequences of backups ----------

  ghost predicate NewestFirst(s: seq<Backup>) {
    forall i, j :: 0 <= i < j < |s| ==> s[i].modTime >= s[j].modTime
  }

  /** The sequence lists each backup of `b` once. */
  ghost predicate Lists(s: seq<Backup>, b: map<string, int>) {
    && |s| == |b|
    && (forall i :: 0 <= i < |s| ==> s[i].name in b && b[s[i].name] == s[i].modTime)
    && (forall name :: name in b ==> exists i :: 0 <= i < |s| && s[i].name == name)
  }

  lemma {:induction false} PermutationLists(s: seq<Backup>, t: seq<Backup>, b: map<string, int>)
    requires multiset(s) == multiset(t) && Lists(s, b)
    ensures Lists(t, b)
  {
    assert |s| == |multiset(s)| && |t| == |multiset(t)|;
    forall i | 0 <= i < |t| ensures t[i].name in b && b[t[i].name] == t[i].modTime {
      assert t[i] in multiset(s);
    }
    forall name | name in b ensures exists i :: 0 <= i < |t| && t[i].name == name {
      var i :| 0 <= i < |s| && s[i].name == name;
      assert s[i] in multiset(t);
    }
  }

  /** The names at the positions from `lo` up to `hi`. */
  function Names(s: seq<Backup>, lo: int, hi: int): set<string>
    requires 0 <= lo <= hi <= |s|
  {
    set i | lo <= i < hi :: s[i].name
  }

  lemma {:induction false} NamesBound(s: seq<Backup>, lo: int, hi: int)
    requires 0 <= lo <= hi <= |s|
    ensures |Names(s, lo, hi)| <= hi - lo
    decreases hi
  {
    if lo == hi {
      assert Names(s, lo, hi) == {};
    } else {
      NamesBound(s, lo, hi - 1);
      NamesGrow(s, lo, hi - 1);
    }
  }

  lemma {:induction false} NamesGrow(s: seq<Backup>, lo: int, hi: int)
    requires 0 <= lo <= hi < |s|
    ensures Names(s, lo, hi + 1) == Names(s, lo, hi) + {s[hi].name}
  {
  }

  lemma {:induction false} NamesJoin(s: seq<Backup>, lo: int, mid: int, hi: int)
    requires 0 <= lo <= mid <= hi <= |s|
    ensures Names(s, lo, hi) == Names(s, lo, mid) + Names(s, mid, hi)
  {
  }

  lemma {:induction false} UnionSize(a: set<string>, b: set<string>)
    ensures |a + b| == |a| + |b - a| && |b - a| <= |b|
    ensures |b - a| == |b| ==> a !! b
  {
    assert a + b == a + (b - a);
    assert b == (b - a) + (b * a);
    assert |b| == |b - a| + |b * a|;
    assert |b * a| == 0 ==> b * a == {};
  }

  /** A listing has no name twice, so a prefix and the rest of it share none. */
  lemma {:induction false} ListingSplits(s: seq<Backup>, b: map<string, int>, k: int)
    requires Lists(s, b) && 0 <= k <= |s|
    ensures Names(s, 0, k) + Names(s, k, |s|) == b.Keys && Names(s, 0, k) !! Names(s, k, |s|)
    ensures |Names(s, 0, k)| == k && |Names(s, k, |s|)| == |s| - k
  {
    NamesJoin(s, 0, k, |s|);
    assert Names(s, 0, |s|) == b.Keys;
    NamesBound(s, 0, k);
    NamesBound(s, k, |s|);
    UnionSize(Names(s, 0, k), Names(s, k, |s|));
  }

  /** In a sorted listing the recent backups come first. */
  lemma {:induction false} RecentComeFirst(s: seq<Backup>, b: map<string, int>, cutoff: int, r: nat)
    requires Lists(s, b) && r <= |s|
    requires forall i :: 0 <= i < |s| ==> (s[i].modTime >= cutoff <==> i < r)
    ensures |Recent(b, cutoff)| == r
  {
    assert Recent(b, cutoff) == Names(s, 0, r);
    hide Recent, Names;
    ListingSplits(s, b, r);
  }

  lemma {:induction false} FirstOld(s: seq<Backup>, cutoff: int) returns (r: nat)
    requires NewestFirst(s)
    ensures r <= |s| && forall i :: 0 <= i < |s| ==> (s[i].modTime >= cutoff <==> i < r)
  {
    r := 0;
    while r < |s| && s[r].modTime >= cutoff
      invariant r <= |s| && forall i :: 0 <= i < r ==> s[i].modTime >= cutoff
    {
      r := r + 1;
    }
  }

  lemma {:induction false} TailIsOlder(s: seq<Backup>, b: map<string, int>, k: int, x: string, y: string)
    requires Lists(s, b) && NewestFirst(s) && 0 <= k <= |s|
    requires x in Names(s, 0, k) && y in Names(s, k, |s|)
    ensures x in b && y in b && b[x] >= b[y]
  {
  }

  lemma {:induction false} TailLeavesNewest(s: seq<Backup>, b: map<string, int>, p: Policy, cutoff: int)
    requires Lists(s, b) && NewestFirst(s)
    ensures Kept(b, p, cutoff) <= |s|
    ensures LeavesNewest(b, Names(s, Kept(b, p, cutoff), |s|), p, cutoff)
  {
    var k := Kept(b, p, cutoff);
    KeptBound(b, p, cutoff);
    ListingSplits(s, b, k);
    assert |s| == |b|;
    hide Names, Kept, Lists, NewestFirst;
    forall x, y | x in b && x !in Names(s, k, |s|) && y in Names(s, k, |s|) ensures b[x] >= b[y] {
      TailIsOlder(s, b, k, x, y);
    }
  }

  lemma {:induction false} KeptBound(b: map<string, int>, p: Policy, cutoff: int)
    ensures Kept(b, p, cutoff) <= |b|
  {
    hide Recent;
  }

  // ---------- the directory ----------

  lemma {:induction false} InsertKeepsOrder(s: seq<Backup>, i: nat, x: Backup)
    requires NewestFirst(s) && i <= |s|
    requires forall k :: 0 <= k < i ==> s[k].modTime >= x.modTime
    requires i < |s| ==> x.modTime >= s[i].modTime
    ensures NewestFirst(s[..i] + [x] + s[i..])
    ensures multiset(s[..i] + [x] + s[i..]) == multiset(s) + multiset{x}
  {
    assert s == s[..i] + s[i..];
  }

  lemma {:induction false} OneMore(s: seq<Backup>, n: nat)
    requires n < |s|
    ensures multiset(s[..n + 1]) == multiset(s[..n]) + multiset{s[n]}
  {
    assert s[..n + 1] == s[..n] + [s[n]];
  }

  lemma {:induction false} NoneIsSorted()
    ensures NewestFirst([])
  {
  }

  /** The new backup goes before the first older one. */
  method InsertNewest(sorted: seq<Backup>, x: Backup) returns (longer: seq<Backup>)
    requires NewestFirst(sorted)
    ensures NewestFirst(longer) && multiset(longer) == multiset(sorted) + multiset{x}
  {
    var i := 0;
    while i < |sorted| && sorted[i].modTime >= x.modTime
      invariant i <= |sorted| && forall k :: 0 <= k < i ==> sorted[k].modTime >= x.modTime
    {
      i := i + 1;
    }
    InsertKeepsOrder(sorted, i, x);
    longer := sorted[..i] + [x] + sorted[i..];
  }

  /** Newest first; in which order equally old backups come is left open. */
  method SortNewestFirst(backups: seq<Backup>) returns (sorted: seq<Backup>)
    ensures multiset(sorted) == multiset(backups) && NewestFirst(sorted)
  {
    hide NewestFirst;
    sorted := [];
    NoneIsSorted();
    for n := 0 to |backups|
      invariant multiset(sorted) == multiset(backups[..n]) && NewestFirst(sorted)
    {
      OneMore(backups, n);
      sorted := InsertNewest(sorted, backups[n]);
    }
    assert backups[..|backups|] == backups;
  }

  /** The number kept is where the two loops start to delete. */
  lemma {:induction false} WhereDeletionStarts(s: seq<Backup>, b: map<string, int>, p: Policy, cutoff: int, r: nat)
    requires Lists(s, b) && r <= |s|
    requires forall i :: 0 <= i < |s| ==> (s[i].modTime >= cutoff <==> i < r)
    ensures var n := |s|;
            var byCount := if p.maxBackups > 0 then Min(p.maxBackups, n) else n;
            var byAge := if p.retentionDays > 0 then Max(Min(Max(p.minBackups, 1), n), r) else n;
            Kept(b, p, cutoff) == Min(byCount, byAge) <= n
  {
    RecentComeFirst(s, b, cutoff, r);
  }

  lemma {:induction false} NoNames(s: seq<Backup>)
    ensures forall i :: 0 <= i <= |s| ==> Names(s, i, i) == {}
  {
  }

  lemma {:induction false} LargerTail(s: seq<Backup>, i: int, j: int)
    requires 0 <= i <= |s| && 0 <= j <= |s|
    ensures Names(s, i, |s|) + Names(s, j, |s|) == Names(s, Min(i, j), |s|)
  {
  }

  /** Both deletion loops together pick the tail of the sorted list. */
  method PickDoomed(sorted: seq<Backup>, ghost b: map<string, int>, p: Policy, cutoff: int) returns (toDelete: set<string>)
    requires Lists(sorted, b) && NewestFirst(sorted)
    ensures LeavesNewest(b, toDelete, p, cutoff)
  {
    hide Names, Lists, LeavesNewest, NewestFirst, Kept;
    var n := |sorted|;
    ghost var r := FirstOld(sorted, cutoff);
    WhereDeletionStarts(sorted, b, p, cutoff, r);
    TailLeavesNewest(sorted, b, p, cutoff);
    NoNames(sorted);
    toDelete := {};
    ghost var byCount := if p.maxBackups > 0 then Min(p.maxBackups, n) else n;
    if p.maxBackups > 0 {
      for i := Min(p.maxBackups, n) to n
        invariant toDelete == Names(sorted, byCount, i)
      {
        NamesGrow(sorted, byCount, i);
        toDelete := toDelete + {sorted[i].name};
      }
    }
    assert toDelete == Names(sorted, byCount, n);
    if p.retentionDays > 0 {
      var protected := Max(p.minBackups, 1);
      ghost var byAge := Max(Min(protected, n), r);
      LargerTail(sorted, byCount, byAge);
      for i := Min(protected, n) to n
        invariant toDelete == Names(sorted, byCount, n) + Names(sorted, byAge, Max(byAge, i))
      {
        if sorted[i].modTime < cutoff {
          NamesGrow(sorted, byAge, i);
          toDelete := toDelete + {sorted[i].name};
        }
      }
    }
  }

  /** What reading a directory returns: every name once. */
  ghost predicate IsListing(entries: seq<string>, files: map<string, Entry>) {
    && (forall name :: name in entries <==> name in files)
    && (forall i, j :: 0 <= i < j < |entries| ==> entries[i] != entries[j])
  }

  /** The part of the directory that the first `n` entries name. */
  ghost function Part(files: map<string, Entry>, entries: seq<string>, n: nat): map<string, Entry>
    requires n <= |entries|
  {
    map name | name in files && name in entries[..n] :: files[name]
  }

  lemma {:induction false} PartGrows(files: map<string, Entry>, entries: seq<string>, n: nat, prefix: string)
    requires IsListing(entries, files) && n < |entries|
    ensures entries[n] in files
    ensures var b, name := BackupsOf(Part(files, entries, n), prefix), entries[n];
            name !in b
            && BackupsOf(Part(files, entries, n + 1), prefix)
               == if IsBackup(name, files[name], prefix) then b[name := files[name].modTime.value] else b
  {
    hide IsBackup;
    var name := entries[n];
    assert entries[..n + 1] == entries[..n] + [name];
    assert Part(files, entries, n + 1) == Part(files, entries, n)[name := files[name]];
    hide Part;
    BackupsGrow(Part(files, entries, n), name, files[name], prefix);
  }

  lemma {:induction false} BackupsGrow(files: map<string, Entry>, name: string, entry: Entry, prefix: string)
    requires name !in files
    ensures name !in BackupsOf(files, prefix)
    ensures BackupsOf(files[name := entry], prefix)
            == if IsBackup(name, entry, prefix) then BackupsOf(files, prefix)[name := entry.modTime.value] else BackupsOf(files, prefix)
  {
    hide HasSuffix;
    var b, c := BackupsOf(files, prefix), BackupsOf(files[name := entry], prefix);
    if IsBackup(name, entry, prefix) {
      assert c.Keys == b.Keys + {name};
      assert c == b[name := entry.modTime.value];
    } else {
      assert c.Keys == b.Keys;
      assert c == b;
    }
  }

  lemma {:induction false} WholePart(files: map<string, Entry>, entries: seq<string>)
    requires IsListing(entries, files)
    ensures Part(files, entries, |entries|) == files && Part(files, entries, 0) == map[]
  {
  }

  lemma {:induction false} ListsMore(s: seq<Backup>, b: map<string, int>, name: string, time: int)
    requires Lists(s, b) && name !in b
    ensures Lists(s + [Backup(name, time)], b[name := time])
  {
    var t, c := s + [Backup(name, time)], b[name := time];
    assert |c| == |b| + 1 by {
      assert c.Keys == b.Keys + {name};
    }
    forall x | x in c ensures exists i :: 0 <= i < |t| && t[i].name == x {
      if x == name {
        assert t[|s|].name == x;
      } else {
        var i :| 0 <= i < |s| && s[i].name == x;
        assert t[i].name == x;
      }
    }
  }

  /** Every picked name is still to do, gone, or failed because it is stuck. */
  ghost predicate Accounted(all: set<string>, rest: set<string>, gone: set<string>, failed: set<string>, stuck: set<string>) {
    rest <= all && gone + failed == all - rest && gone !! stuck && failed <= stuck
  }

  lemma {:induction false} NothingDone(all: set<string>, stuck: set<string>)
    ensures Accounted(all, all, {}, {}, stuck)
  {
  }

  lemma {:induction false} TakeOne(all: set<string>, rest: set<string>, gone: set<string>, failed: set<string>, stuck: set<string>, name: string)
    requires Accounted(all, rest, gone, failed, stuck) && name in rest
    ensures name !in gone
    ensures if name in stuck then Accounted(all, rest - {name}, gone, failed + {name}, stuck)
            else Accounted(all, rest - {name}, gone + {name}, failed, stuck)
  {
  }

  lemma {:induction false} RemoveOneMore(files: map<string, Entry>, gone: set<string>, name: string)
    ensures files - gone - {name} == files - (gone + {name})
    ensures files - {} == files
  {
  }

  lemma {:induction false} Outcome(all: set<string>, stuck: set<string>, gone: set<string>, failed: set<string>)
    requires Accounted(all, {}, gone, failed, stuck)
    ensures gone == all - stuck && failed == all * stuck
    ensures failed == {} <==> all !! stuck
  {
  }

  class Directory {
    var files: map<string, Entry>

    /** The loop over the directory's entries: each backup is listed once. */
    method FindBackups(entries: seq<string>, prefix: string) returns (backups: seq<Backup>)
      requires IsListing(entries, files)
      ensures Lists(backups, BackupsOf(files, prefix))
    {
      hide IsListing, BackupsOf, Part;
      backups := [];
      WholePart(files, entries);
      NothingListed(prefix);
      for n := 0 to |entries|
        invariant Lists(backups, BackupsOf(Part(files, entries, n), prefix))
      {
        var name := entries[n];
        PartGrows(files, entries, n, prefix);
        var entry := files[name];
        if entry.isDir || !(prefix <= name) || !HasSuffix(name, ".zip") {
          continue;
        }
        if entry.modTime.None? {
          continue;
        }
        ListsMore(backups, BackupsOf(Part(files, entries, n), prefix), name, entry.modTime.value);
        backups := backups + [Backup(name, entry.modTime.value)];
      }
    }

    /** Removing the picked names one after the other; names in `stuck` cannot be removed. */
    method RemoveAll(toDelete: set<string>, stuck: set<string>) returns (pruned: nat, error: Option<Error>)
      modifies this
      ensures files == old(files) - (toDelete - stuck)
      ensures pruned == |toDelete - stuck|
      ensures error.None? <==> toDelete !! stuck
      ensures error.Some? ==> error.value.RemoveFailed? && error.value.name in toDelete * stuck
    {
      hide Accounted;
      pruned, error := 0, None;
      var rest := toDelete;
      ghost var gone: set<string>, failed: set<string> := {}, {};
      RemoveOneMore(files, {}, "");
      NothingDone(toDelete, stuck);
      while rest != {}
        invariant Accounted(toDelete, rest, gone, failed, stuck)
        invariant files == old(files) - gone && pruned == |gone|
        invariant error.None? <==> failed == {}
        invariant error.Some? ==> error.value.RemoveFailed? && error.value.name in failed
        decreases rest
      {
        var name :| name in rest;
        TakeOne(toDelete, rest, gone, failed, stuck, name);
        RemoveOneMore(old(files), gone, name);
        rest := rest - {name};
        if name in stuck {
          if error.None? {
            error := Some(RemoveFailed(name));
          }
          failed := failed + {name};
        } else {
          files := files - {name};
          gone := gone + {name};
          pruned := pruned + 1;
        }
      }
      Outcome(toDelete, stuck, gone, failed);
    }

    /** pruneBackups; the cutoff is the present time less the days of retention. */
    method Prune(entries: seq<string>, readable: bool, prefix: string, p: Policy, cutoff: int, stuck: set<string>)
      returns (pruned: nat, error: Option<Error>)
      requires IsListing(entries, files)
      modifies this
      ensures !Active(p) || !readable ==>
                files == old(files) && pruned == 0 && error == if Active(p) then Some(ReadFailed) else None
      ensures Active(p) && readable ==>
                exists doomed ::
                  && LeavesNewest(BackupsOf(old(files), prefix), doomed, p, cutoff)
                  && files == old(files) - (doomed - stuck) && pruned == |doomed - stuck|
                  && (error.None? <==> doomed !! stuck)
                  && (error.Some? ==> error.value.RemoveFailed? && error.value.name in doomed * stuck)
    {
      hide IsListing, BackupsOf, Lists, LeavesNewest, NewestFirst;
      if p.retentionDays <= 0 && p.maxBackups <= 0 {
        return 0, None;
      }
      if !readable {
        return 0, Some(ReadFailed);
      }
      ghost var b := BackupsOf(files, prefix);
      var backups := FindBackups(entries, prefix);
      var sorted := SortNewestFirst(backups);
      PermutationLists(backups, sorted, b);
      var toDelete := PickDoomed(sorted, b, p, cutoff);
      pruned, error := RemoveAll(toDelete, stuck);
    }
  }

  lemma {:induction false} NothingListed(prefix: string)
    ensures Lists([], BackupsOf(map[], prefix))
  {
  }

  // ---------- what pruning guarantees ----------

  /** Only backups can disappear, and what disappears is what was removed. */
  lemma {:induction false} OnlyBackupsGo(files: map<string, Entry>, removed: set<string>, prefix: string)
    requires removed <= BackupsOf(files, prefix).Keys
    ensures BackupsOf(files - removed, prefix) == BackupsOf(files, prefix) - removed
    ensures forall name :: name in files && !IsBackup(name, files[name], prefix) ==>
                             name in files - removed && (files - removed)[name] == files[name]
    ensures forall name :: name in removed ==>
              !files[name].isDir && prefix <= name && HasSuffix(name, ".zip") && files[name].modTime.Some?
  {
  }

  lemma {:induction false} LeftOver(b: map<string, int>, removed: set<string>)
    requires removed <= b.Keys
    ensures |b - removed| == |b| - |removed| && (b - removed).Keys == b.Keys - removed
  {
  }

  /** The cap always holds, and the age limit leaves the minimum unless the cap is below it. */
  lemma {:induction false} CapAndFloor(b: map<string, int>, doomed: set<string>, p: Policy, cutoff: int)
    requires LeavesNewest(b, doomed, p, cutoff) && Active(p)
    ensures p.maxBackups > 0 ==> |b - doomed| <= p.maxBackups
    ensures |b - doomed| >= Min(|b|, p.minBackups) <==> p.maxBackups <= 0 || p.maxBackups >= Min(|b|, p.minBackups)
    ensures |b| > 0 ==> |b - doomed| > 0
  {
  }

  /** With an age limit an expired backup stays only among the protected ones; without one the cap decides. */
  lemma {:induction false} ExpiredGo(b: map<string, int>, doomed: set<string>, p: Policy, cutoff: int)
    requires LeavesNewest(b, doomed, p, cutoff) && Active(p)
    ensures p.retentionDays > 0 ==>
              forall x :: x in b && x !in doomed && b[x] < cutoff ==> |b - doomed| <= Max(p.minBackups, 1)
    ensures p.retentionDays <= 0 ==> |b - doomed| == Min(|b|, p.maxBackups)
  {
    LeftOver(b, doomed);
    var kept := b.Keys - doomed;
    if x :| p.retentionDays > 0 && x in b && x !in doomed && b[x] < cutoff {
      assert Recent(b, cutoff) <= kept - {x} || doomed * Recent(b, cutoff) != {};
      if Recent(b, cutoff) <= kept - {x} {
        SubsetSize(Recent(b, cutoff), kept - {x});
      }
    }
  }

  /** Below the cap only expired backups go, and the protected ones stay. */
  lemma {:induction false} OnlyExpiredGoBelowCap(b: map<string, int>, doomed: set<string>, p: Policy, cutoff: int)
    requires LeavesNewest(b, doomed, p, cutoff) && Active(p)
    requires p.maxBackups <= 0 || |b - doomed| < p.maxBackups
    ensures forall y :: y in doomed ==> p.retentionDays > 0 && b[y] < cutoff
    ensures |b - doomed| >= Min(|b|, Max(p.minBackups, 1))
  {
    LeftOver(b, doomed);
    var kept := b.Keys - doomed;
    if y :| y in doomed && b[y] >= cutoff {
      assert kept + {y} <= Recent(b, cutoff);
      SubsetSize(kept + {y}, Recent(b, cutoff));
    }
  }

  lemma {:induction false} NewestOf(b: map<string, int>, names: set<string>) returns (newest: string)
    requires names != {} && names <= b.Keys
    ensures newest in names && forall x :: x in names ==> b[newest] >= b[x]
  {
    newest :| newest in names;
    var rest := names - {newest};
    if rest != {} {
      var other := NewestOf(b, rest);
      if b[other] > b[newest] {
        newest := other;
      }
    }
  }

  /** Some backup that no other one is newer than survives. */
  lemma {:induction false} NewestSurvives(b: map<string, int>, doomed: set<string>, p: Policy, cutoff: int)
    requires LeavesNewest(b, doomed, p, cutoff) && Active(p) && |b| > 0
    ensures exists newest :: newest in b && newest !in doomed && forall x :: x in b ==> b[newest] >= b[x]
  {
    CapAndFloor(b, doomed, p, cutoff);
    LeftOver(b, doomed);
    var newest := NewestOf(b, b.Keys - doomed);
  }

  /** A backup that is recent goes only if the cap cannot hold all recent ones. */
  lemma {:induction false} RecentGoesOnlyByCap(b: map<string, int>, doomed: set<string>, p: Policy, cutoff: int, y: string)
    requires LeavesNewest(b, doomed, p, cutoff) && p.retentionDays > 0
    requires y in doomed && b[y] >= cutoff
    ensures 0 < p.maxBackups < |Recent(b, cutoff)|
  {
    var kept := b.Keys - doomed;
    LeftOver(b, doomed);
    assert kept + {y} <= Recent(b, cutoff);
    SubsetSize(kept + {y}, Recent(b, cutoff));
  }

  /** Whatever part of the doomed backups is gone, as many are to be kept as before. */
  lemma {:induction false} KeptIsStable(b: map<string, int>, doomed: set<string>, removed: set<string>, p: Policy, cutoff: int)
    requires LeavesNewest(b, doomed, p, cutoff) && removed <= doomed
    ensures Kept(b - removed, p, cutoff) == Kept(b, p, cutoff)
  {
    RecentLeft(b, doomed, removed, p, cutoff);
    LeftOver(b, removed);
    SubsetSize(removed, doomed);
  }

  /** Doomed recent backups leave at least as many recent ones as are kept. */
  lemma {:induction false} RecentLeft(b: map<string, int>, doomed: set<string>, removed: set<string>, p: Policy, cutoff: int)
    requires LeavesNewest(b, doomed, p, cutoff) && removed <= doomed
    ensures Min(Kept(b, p, cutoff), |Recent(b, cutoff)|) <= |Recent(b - removed, cutoff)| <= |Recent(b, cutoff)|
  {
    LeftOver(b, doomed);
    var kept := b.Keys - doomed;
    SubsetSize(Recent(b - removed, cutoff), Recent(b, cutoff));
    if kept <= Recent(b, cutoff) {
      SubsetSize(kept, Recent(b - removed, cutoff));
    } else {
      assert Recent(b - removed, cutoff) == Recent(b, cutoff);
    }
  }

  /** Pruning again at the same time removes nothing. */
  lemma {:induction false} SecondPruneRemovesNothing(b: map<string, int>, doomed: set<string>, again: set<string>, p: Policy, cutoff: int)
    requires LeavesNewest(b, doomed, p, cutoff) && LeavesNewest(b - doomed, again, p, cutoff)
    ensures again == {}
  {
    KeptIsStable(b, doomed, doomed, p, cutoff);
    LeftOver(b, doomed);
  }

  /** When some files could not be removed, a later prune that can ends with as many as the first should have left. */
  lemma {:induction false} RetryFinishes(b: map<string, int>, doomed: set<string>, removed: set<string>, again: set<string>, p: Policy, cutoff: int)
    requires LeavesNewest(b, doomed, p, cutoff) && removed <= doomed
    requires LeavesNewest(b - removed, again, p, cutoff)
    ensures |b - removed - again| == |b - doomed| == Kept(b, p, cutoff)
  {
    KeptIsStable(b, doomed, removed, p, cutoff);
    LeftOver(b, doomed);
    LeftOver(b - removed, again);
  }
}
