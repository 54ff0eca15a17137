/** `_backup_anamon_logs`: one backup of a node's installation logs is kept. */
module AnamonBackup {
  import opened Strings

  /** The directories under anamon.backup with their ctimes. */
  type Dirs = map<string, nat>

  function BackupName(host: string, stamp: string): string {
    host + "." + stamp
  }

  /**
   * The directories right after one backup of `host`: of those whose name contains the host name one
   * is left, none of them being younger; every other directory is as it was.
   */
  ghost predicate OneLeft(before: Dirs, host: string, after: Dirs) {
    && (forall n | n in after :: n in before && after[n] == before[n])
    && (forall n | n in before && !Contains(n, host) :: n in after)
    && (exists k | k in after :: Contains(k, host) && IsNewest(before, host, k)
                                 && forall n | n in after && Contains(n, host) :: n == k)
  }

  ghost predicate IsNewest(dirs: Dirs, host: string, k: string) {
    k in dirs && forall n | n in dirs && Contains(n, host) :: dirs[n] <= dirs[k]
  }

  /** The names, each once, as `os.listdir` gives them. */
  ghost predicate Lists(listing: seq<string>, dirs: Dirs) {
    && (forall n :: n in listing <==> n in dirs)
    && (forall i, j | 0 <= i < j < |listing| :: listing[i] != listing[j])
  }

  class LogBackups {
    var dirs: Dirs

    constructor (dirs: Dirs)
      ensures this.dirs == dirs
    {
      this.dirs := dirs;
    }

    /**
     * `hasLogs`: the node left logs. `now` is the ctime that rsync's target directory gets. The
     * listing is read between the rsync and the removals.
     */
    method Backup(host: string, stamp: string, now: nat, hasLogs: bool, listing: seq<string>)
      requires hasLogs ==> Lists(listing, dirs[BackupName(host, stamp) := now])
      modifies this
      ensures if hasLogs then OneLeft(old(dirs)[BackupName(host, stamp) := now], host, dirs) else dirs == old(dirs)
    {
      if !hasLogs {
        return;
      }
      dirs := dirs[BackupName(host, stamp) := now];
      ghost var before := dirs;
      ContainsAt("", host, "." + stamp);
      assert "" + host + ("." + stamp) == BackupName(host, stamp);
      assert BackupName(host, stamp) in dirs;
      var paths := BackupPaths(listing, host);
      assert BackupName(host, stamp) in paths;
      if |paths| > 1 {
        var newest := Newest(paths);
        RemoveOthers(paths, newest);
        assert newest in dirs && Contains(newest, host) && IsNewest(before, host, newest);
      } else {
        assert forall n | n in dirs && Contains(n, host) :: n == paths[0];
        assert paths[0] in dirs && Contains(paths[0], host) && IsNewest(before, host, paths[0]);
      }
    }

    /** The comprehension over `all_files`. */
    method BackupPaths(listing: seq<string>, host: string) returns (paths: seq<string>)
      ensures forall n :: n in paths <==> n in listing && Contains(n, host)
    {
      paths := [];
      for i := 0 to |listing|
        invariant forall n :: n in paths <==> n in listing[..i] && Contains(n, host)
      {
        if Contains(listing[i], host) {
          paths := paths + [listing[i]];
        }
      }
    }

    /** `max(backup_paths, key=os.path.getctime)` */
    method Newest(paths: seq<string>) returns (newest: string)
      requires paths != [] && forall p | p in paths :: p in dirs
      ensures newest in paths && forall p | p in paths :: dirs[p] <= dirs[newest]
    {
      newest := paths[0];
      for i := 1 to |paths|
        invariant newest in paths && forall k | 0 <= k < i :: dirs[paths[k]] <= dirs[newest]
      {
        if dirs[paths[i]] > dirs[newest] {
          newest := paths[i];
        }
      }
    }

    /** The removal loop, over the paths without the newest. */
    method RemoveOthers(paths: seq<string>, newest: string)
      modifies this
      ensures forall n :: n in dirs <==> n in old(dirs) && (n !in paths || n == newest)
      ensures forall n | n in dirs :: dirs[n] == old(dirs)[n]
    {
      for i := 0 to |paths|
        invariant forall n :: n in dirs <==> n in old(dirs) && (n !in paths[..i] || n == newest)
        invariant forall n | n in dirs :: dirs[n] == old(dirs)[n]
      {
        if paths[i] != newest {
          dirs := dirs - {paths[i]};
        }
      }
    }
  }

  // ---------- many backups ----------

  datatype Event = Event(host: string, stamp: string, now: nat)

  function NameOf(e: Event): string {
    BackupName(e.host, e.stamp)
  }

  /** One backup while the clock is ahead of every ctime: the new directory is the one that stays. */
  function After(dirs: Dirs, e: Event): (after: Dirs)
    ensures forall n :: n in after <==> n == NameOf(e) || (n in dirs && !Contains(n, e.host))
    ensures forall n | n in after :: after[n] == if n == NameOf(e) then e.now else dirs[n]
  {
    var added := dirs[NameOf(e) := e.now];
    map n | n in added && (n == NameOf(e) || !Contains(n, e.host)) :: added[n]
  }

  ghost predicate ClockAhead(dirs: Dirs, now: nat) {
    forall n | n in dirs :: dirs[n] < now
  }

  lemma NewestIsNew(dirs: Dirs, e: Event, after: Dirs)
    requires ClockAhead(dirs, e.now) && OneLeft(dirs[NameOf(e) := e.now], e.host, after)
    ensures after == After(dirs, e)
  {
    var added := dirs[NameOf(e) := e.now];
    ContainsAt("", e.host, "." + e.stamp);
    assert "" + e.host + ("." + e.stamp) == NameOf(e);
    var k :| k in after && Contains(k, e.host) && IsNewest(added, e.host, k)
             && forall n | n in after && Contains(n, e.host) :: n == k;
    assert added[NameOf(e)] <= added[k];
    assert k == NameOf(e);
  }

  function AfterAll(dirs: Dirs, events: seq<Event>): Dirs {
    if events == [] then dirs else After(AfterAll(dirs, events[..|events| - 1]), events[|events| - 1])
  }

  /** The clock is ahead of the directories at the first backup, and moves on from backup to backup. */
  ghost predicate ClockMoves(dirs: Dirs, events: seq<Event>) {
    && (forall i | 0 <= i < |events| :: ClockAhead(dirs, events[i].now))
    && (forall i, j | 0 <= i < j < |events| :: events[i].now < events[j].now)
  }

  /** `states` are the directories between the backups, each as one run of the callback leaves them. */
  ghost predicate BackupRun(states: seq<Dirs>, events: seq<Event>) {
    |states| == |events| + 1 && forall i | 0 <= i < |events| ::
      OneLeft(states[i][NameOf(events[i]) := events[i].now], events[i].host, states[i + 1])
  }

  /** While the clock moves, runs of the callback are what the lemmas below speak of. */
  lemma {:induction false} RunIsAfterAll(states: seq<Dirs>, events: seq<Event>, k: nat)
    requires BackupRun(states, events) && ClockMoves(states[0], events) && k <= |events|
    ensures states[k] == AfterAll(states[0], events[..k])
    ensures forall i | k <= i < |events| :: ClockAhead(states[k], events[i].now)
  {
    if k > 0 {
      RunIsAfterAll(states, events, k - 1);
      NewestIsNew(states[k - 1], events[k - 1], states[k]);
      assert events[..k][..k - 1] == events[..k - 1];
    }
  }

  /** A later backup of another name removes this one. */
  ghost predicate Removed(events: seq<Event>, i: nat, j: nat) {
    i < j < |events| && NameOf(events[j]) != NameOf(events[i]) && Contains(NameOf(events[i]), events[j].host)
  }

  /**
   * Over any run of backups, one of them survives to the end if and only if its name does not contain
   * the host name of a later backup.
   */
  lemma {:induction false} SurvivesIff(dirs: Dirs, events: seq<Event>, i: nat)
    requires i < |events|
    ensures NameOf(events[i]) in AfterAll(dirs, events) <==>
            (exists k | i <= k < |events| ::
              NameOf(events[k]) == NameOf(events[i]) && !exists j :: Removed(events, k, j))
  {
    var n := |events| - 1;
    var front, name := events[..n], NameOf(events[i]);
    if NameOf(events[n]) == name {
      assert !exists j :: Removed(events, n, j);
    } else {
      assert i < n;
      SurvivesIff(dirs, front, i);
      forall k | i <= k < n && NameOf(events[k]) == name
        ensures (exists j :: Removed(events, k, j)) <==>
                (exists j :: Removed(front, k, j)) || Contains(name, events[n].host)
      {
        forall j: nat
          ensures Removed(events, k, j) <==> Removed(front, k, j) || (j == n && Contains(name, events[n].host))
        {
        }
        if Contains(name, events[n].host) {
          assert Removed(events, k, n);
        }
        if j: nat :| Removed(front, k, j) {
          assert Removed(events, k, j);
        }
      }
      assert forall k | i <= k < n :: front[k] == events[k];
    }
  }

  /** No host name occurs in the backup names of another host. */
  ghost predicate HostsApart(events: seq<Event>) {
    forall i, j | 0 <= i < |events| && 0 <= j < |events| && Contains(NameOf(events[i]), events[j].host) ::
      events[i].host == events[j].host
  }

  /** Then every host keeps its newest backup forever, and no other. */
  lemma {:induction false} NewestKept(dirs: Dirs, events: seq<Event>, i: nat)
    requires HostsApart(events) && i < |events|
    requires forall j | i < j < |events| :: events[j].host != events[i].host
    ensures NameOf(events[i]) in AfterAll(dirs, events)
    ensures forall n | n in AfterAll(dirs, events) && Contains(n, events[i].host) :: n == NameOf(events[i])
  {
    SurvivesIff(dirs, events, i);
    assert !exists j :: Removed(events, i, j);
    OnlyOne(dirs, events, i, |events|);
    assert events[..|events|] == events;
  }

  lemma {:induction false} OnlyOne(dirs: Dirs, events: seq<Event>, i: nat, k: nat)
    requires HostsApart(events) && i < k <= |events|
    requires forall j | i < j < |events| :: events[j].host != events[i].host
    ensures forall n | n in AfterAll(dirs, events[..k]) && Contains(n, events[i].host) :: n == NameOf(events[i])
  {
    assert events[..k][..k - 1] == events[..k - 1];
    if k > i + 1 {
      OnlyOne(dirs, events, i, k - 1);
      assert !Contains(NameOf(events[k - 1]), events[i].host);
    }
  }

  /** The host test is on any part of the name: backing up node1 removes the backup of node10. */
  lemma SubstringHostLosesBackup()
    ensures var events := [Event("node10", "2024", 1), Event("node1", "2025", 2)];
      NameOf(events[0]) !in AfterAll(map[], events)
  {
    var a, b := Event("node10", "2024", 1), Event("node1", "2025", 2);
    var events := [a, b];
    assert NameOf(a) == "node10.2024" == "" + "node1" + "0.2024";
    ContainsAt("", "node1", "0.2024");
    assert NameOf(a)[5] == '0' && NameOf(b)[5] == '.';
    assert NameOf(a) !in After(AfterAll(map[], events[..1]), b);
    assert events[1] == b;
  }
}
