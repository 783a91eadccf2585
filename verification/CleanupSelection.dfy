/**
 The candidates of src/cli/cleanup.ts: older duplicates among the MCP servers of one parent, and
 MCP servers outside the current session.
 */
module CleanupSelection {
  import opened Wrappers
  import opened Cleanup

  ghost predicate Ascending(cs: seq<Candidate>) {
    forall i, j :: 0 <= i < j < |cs| ==> cs[i].proc.pid <= cs[j].proc.pid
  }

  ghost predicate StrictlyAscending(cs: seq<Candidate>) {
    forall i, j :: 0 <= i < j < |cs| ==> cs[i].proc.pid < cs[j].proc.pid
  }

  ghost predicate DistinctCandidates(cs: seq<Candidate>) {
    forall i, j :: 0 <= i < j < |cs| ==> cs[i].proc.pid != cs[j].proc.pid
  }

  /** r is cs in ascending order of pid. */
  ghost predicate IsSorting(r: seq<Candidate>, cs: seq<Candidate>) {
    |r| == |cs| && Ascending(r) && forall c :: c in r <==> c in cs
  }

  /** The comparator sort by pid. */
  method SortByPid(cs: seq<Candidate>) returns (r: seq<Candidate>)
    ensures IsSorting(r, cs)
    ensures DistinctCandidates(cs) ==> StrictlyAscending(r)
  {
    r := [];
    for i := 0 to |cs|
      invariant IsSorting(r, cs[..i])
    {
      assert cs[..i + 1] == cs[..i] + [cs[i]];
      var k := |r|;
      while k > 0 && r[k - 1].proc.pid > cs[i].proc.pid
        invariant 0 <= k <= |r|
        invariant forall m :: k <= m < |r| ==> r[m].proc.pid > cs[i].proc.pid
      {
        k := k - 1;
      }
      var longer := r[..k] + [cs[i]] + r[k..];
      Shifted(r, k, cs[i], longer);
      r := longer;
    }
    assert cs[..|cs|] == cs;
    if DistinctCandidates(cs) {
      SortOfDistinct(r, cs);
    }
  }

  lemma Shifted(r: seq<Candidate>, k: nat, c: Candidate, w: seq<Candidate>)
    requires Ascending(r) && k <= |r| && |w| == |r| + 1
    requires k > 0 ==> r[k - 1].proc.pid <= c.proc.pid
    requires forall m :: k <= m < |r| ==> r[m].proc.pid > c.proc.pid
    requires w[k] == c
    requires forall m :: 0 <= m < k ==> w[m] == r[m]
    requires forall m :: k < m < |w| ==> w[m] == r[m - 1]
    ensures Ascending(w)
    ensures forall x :: x in w <==> x in r || x == c
  {
    forall x | x in r ensures x in w {
      var m :| 0 <= m < |r| && r[m] == x;
      assert w[if m < k then m else m + 1] == x;
    }
  }

  lemma SortOfDistinct(r: seq<Candidate>, cs: seq<Candidate>)
    requires IsSorting(r, cs) && DistinctCandidates(cs)
    ensures StrictlyAscending(r)
  {
    var pids := set i | 0 <= i < |cs| :: cs[i].proc.pid;
    PidCount(cs);
    assert (set i | 0 <= i < |r| :: r[i].proc.pid) == pids by {
      forall pid ensures pid in (set i | 0 <= i < |r| :: r[i].proc.pid) <==> pid in pids {
        if i :| 0 <= i < |r| && r[i].proc.pid == pid { assert r[i] in cs; }
        if i :| 0 <= i < |cs| && cs[i].proc.pid == pid { assert cs[i] in r; }
      }
    }
    AllPidsDistinct(r);
  }

  lemma {:induction false} PidCount(cs: seq<Candidate>)
    requires DistinctCandidates(cs)
    ensures |set i | 0 <= i < |cs| :: cs[i].proc.pid| == |cs|
  {
    var pids := set i | 0 <= i < |cs| :: cs[i].proc.pid;
    if cs != [] {
      var n := |cs| - 1;
      var init := cs[..n];
      PidCount(init);
      var fewer := set i | 0 <= i < |init| :: init[i].proc.pid;
      assert pids == fewer + {cs[n].proc.pid};
      assert cs[n].proc.pid !in fewer;
    }
  }

  lemma {:induction false} AllPidsDistinct(cs: seq<Candidate>)
    requires |set i | 0 <= i < |cs| :: cs[i].proc.pid| == |cs|
    ensures DistinctCandidates(cs)
  {
    if cs != [] {
      var n := |cs| - 1;
      var init := cs[..n];
      var fewer := set i | 0 <= i < |init| :: init[i].proc.pid;
      assert (set i | 0 <= i < |cs| :: cs[i].proc.pid) == fewer + {cs[n].proc.pid};
      PidsAtMost(init);
      assert cs[n].proc.pid !in fewer;
      AllPidsDistinct(init);
    }
  }

  lemma {:induction false} PidsAtMost(cs: seq<Candidate>)
    ensures |set i | 0 <= i < |cs| :: cs[i].proc.pid| <= |cs|
  {
    if cs != [] {
      var n := |cs| - 1;
      var init := cs[..n];
      PidsAtMost(init);
      var fewer := set i | 0 <= i < |init| :: init[i].proc.pid;
      assert (set i | 0 <= i < |cs| :: cs[i].proc.pid) == fewer + {cs[n].proc.pid};
    }
  }

  // ---------------------------------------------------------------- duplicate siblings

  /** Same parent, same server. */
  predicate Siblings(p: Proc, q: Proc) {
    p.ppid == q.ppid && p.command.entrypoint.Some? && p.command.entrypoint == q.command.entrypoint
  }

  ghost predicate HasLargerSibling(procs: seq<Proc>, p: Proc) {
    exists q :: q in procs && Siblings(p, q) && q.pid > p.pid
  }

  ghost predicate IsDuplicate(procs: seq<Proc>, c: Candidate) {
    c.proc in procs && c.reason == DuplicateSibling && HasLargerSibling(procs, c.proc)
  }

  datatype Key = Key(ppid: nat, entrypoint: string)

  predicate InGroup(p: Proc, key: Key) {
    p.command.entrypoint == Some(key.entrypoint) && p.ppid == key.ppid
  }

  /** keys lists the keys of groups in the order of first appearance. */
  ghost predicate KeysOf(groups: map<Key, seq<Candidate>>, keys: seq<Key>) {
    && (forall i, j :: 0 <= i < j < |keys| ==> keys[i] != keys[j])
    && (forall key :: key in groups <==> key in keys)
  }

  /** group holds exactly the processes of procs that belong under key, each once. */
  ghost predicate IsGroup(group: seq<Candidate>, key: Key, procs: seq<Proc>) {
    && DistinctCandidates(group)
    && forall c :: c in group <==> c.proc in procs && InGroup(c.proc, key) && c.reason == DuplicateSibling
  }

  /** A key without a group has no processes. */
  ghost predicate GroupsOf(groups: map<Key, seq<Candidate>>, procs: seq<Proc>) {
    forall key :: IsGroup(GroupAt(groups, key), key, procs)
  }

  function GroupAt(groups: map<Key, seq<Candidate>>, key: Key): seq<Candidate> {
    if key in groups then groups[key] else []
  }

  lemma GrowGroup(group: seq<Candidate>, key: Key, procs: seq<Proc>, i: nat)
    requires DistinctPids(procs) && i < |procs| && IsGroup(group, key, procs[..i])
    ensures IsGroup(if InGroup(procs[i], key) then group + [Candidate(procs[i], DuplicateSibling)] else group, key, procs[..i + 1])
  {
    assert procs[..i + 1] == procs[..i] + [procs[i]];
    forall k | 0 <= k < |group| ensures group[k].proc.pid != procs[i].pid {
      assert group[k] in group;
      var j :| 0 <= j < i && procs[..i][j] == group[k].proc;
      assert procs[j].pid != procs[i].pid;
    }
  }

  lemma GrowGroups(groups: map<Key, seq<Candidate>>, groups': map<Key, seq<Candidate>>, procs: seq<Proc>, i: nat)
    requires DistinctPids(procs) && i < |procs| && GroupsOf(groups, procs[..i])
    requires forall key :: GroupAt(groups', key) ==
                           if InGroup(procs[i], key) then GroupAt(groups, key) + [Candidate(procs[i], DuplicateSibling)]
                           else GroupAt(groups, key)
    ensures GroupsOf(groups', procs[..i + 1])
  {
    forall key ensures IsGroup(GroupAt(groups', key), key, procs[..i + 1]) {
      GrowGroup(GroupAt(groups, key), key, procs, i);
    }
  }

  /** One round of the grouping, for a server and for any other process. */
  lemma NextProc(groups: map<Key, seq<Candidate>>, keys: seq<Key>, procs: seq<Proc>, i: nat)
    requires DistinctPids(procs) && i < |procs| && KeysOf(groups, keys) && GroupsOf(groups, procs[..i])
    ensures procs[i].command.entrypoint.None? ==> GroupsOf(groups, procs[..i + 1])
    ensures procs[i].command.entrypoint.Some? ==>
              var key := Key(procs[i].ppid, procs[i].command.entrypoint.value);
              var grown := groups[key := GroupAt(groups, key) + [Candidate(procs[i], DuplicateSibling)]];
              KeysOf(grown, if key in groups then keys else keys + [key]) && GroupsOf(grown, procs[..i + 1])
  {
    if procs[i].command.entrypoint.None? {
      GrowGroups(groups, groups, procs, i);
    } else {
      var key := Key(procs[i].ppid, procs[i].command.entrypoint.value);
      GrowGroups(groups, groups[key := GroupAt(groups, key) + [Candidate(procs[i], DuplicateSibling)]], procs, i);
    }
  }

  method GroupSiblings(procs: seq<Proc>) returns (groups: map<Key, seq<Candidate>>, keys: seq<Key>)
    requires DistinctPids(procs)
    ensures KeysOf(groups, keys) && GroupsOf(groups, procs)
  {
    groups, keys := map[], [];
    for i := 0 to |procs|
      invariant KeysOf(groups, keys) && GroupsOf(groups, procs[..i])
    {
      NextProc(groups, keys, procs, i);
      if procs[i].command.entrypoint.Some? {
        var key := Key(procs[i].ppid, procs[i].command.entrypoint.value);
        var group := GroupAt(groups, key);
        if key !in groups {
          keys := keys + [key];
        }
        groups := groups[key := group + [Candidate(procs[i], DuplicateSibling)]];
      }
    }
    assert procs[..|procs|] == procs;
  }

  /** p belongs to one of the first k groups. */
  ghost predicate AmongFirst(p: Proc, keys: seq<Key>, k: nat) {
    exists m :: 0 <= m < k && m < |keys| && InGroup(p, keys[m])
  }

  /** cs are the duplicates of the first k groups, each once. */
  ghost predicate DuplicatesOfFirst(cs: seq<Candidate>, procs: seq<Proc>, keys: seq<Key>, k: nat) {
    && DistinctCandidates(cs)
    && forall c :: c in cs <==> IsDuplicate(procs, c) && AmongFirst(c.proc, keys, k)
  }

  method FindDuplicateSiblings(procs: seq<Proc>) returns (candidates: seq<Candidate>)
    requires DistinctPids(procs)
    ensures forall c :: c in candidates <==> IsDuplicate(procs, c)
    ensures StrictlyAscending(candidates)
  {
    var groups, keys := GroupSiblings(procs);
    candidates := [];
    for k := 0 to |keys|
      invariant DuplicatesOfFirst(candidates, procs, keys, k)
    {
      assert keys[k] in groups;
      var group := groups[keys[k]];
      assert group == GroupAt(groups, keys[k]);
      var sorted := SortByPid(group);
      var older := if |group| <= 1 then [] else sorted[..|sorted| - 1];
      OlderOfGroup(procs, group, sorted, older, keys[k]);
      AppendOlder(procs, keys, k, candidates, older);
      candidates := candidates + older;
    }
    EveryDuplicateHasAGroup(procs, groups, keys);
    candidates := SortByPid(candidates);
  }

  lemma EveryDuplicateHasAGroup(procs: seq<Proc>, groups: map<Key, seq<Candidate>>, keys: seq<Key>)
    requires KeysOf(groups, keys) && GroupsOf(groups, procs)
    ensures forall c :: IsDuplicate(procs, c) ==> AmongFirst(c.proc, keys, |keys|)
  {
    forall c | IsDuplicate(procs, c) ensures AmongFirst(c.proc, keys, |keys|) {
      var key := Key(c.proc.ppid, c.proc.command.entrypoint.value);
      assert IsGroup(GroupAt(groups, key), key, procs);
      assert c in GroupAt(groups, key);
      var m :| 0 <= m < |keys| && keys[m] == key;
      assert InGroup(c.proc, keys[m]);
    }
  }

  /** older are the duplicates of one group, each once. */
  ghost predicate DuplicatesOfGroup(older: seq<Candidate>, procs: seq<Proc>, key: Key) {
    && StrictlyAscending(older)
    && forall c :: c in older <==> IsDuplicate(procs, c) && InGroup(c.proc, key)
  }

  lemma NextGroup(keys: seq<Key>, k: nat)
    requires k < |keys| && (forall i, j :: 0 <= i < j < |keys| ==> keys[i] != keys[j])
    ensures forall p :: AmongFirst(p, keys, k + 1) <==> AmongFirst(p, keys, k) || InGroup(p, keys[k])
    ensures forall p :: AmongFirst(p, keys, k) ==> !InGroup(p, keys[k])
  {
  }

  /** Of one sorted group, all but the last are the ones with a larger sibling. */
  lemma OlderOfGroup(procs: seq<Proc>, group: seq<Candidate>, sorted: seq<Candidate>, older: seq<Candidate>, key: Key)
    requires IsGroup(group, key, procs) && IsSorting(sorted, group) && StrictlyAscending(sorted)
    requires older == if |group| <= 1 then [] else sorted[..|sorted| - 1]
    ensures DuplicatesOfGroup(older, procs, key)
  {
    forall c
      ensures c in older <==> IsDuplicate(procs, c) && InGroup(c.proc, key)
    {
      if IsDuplicate(procs, c) && InGroup(c.proc, key) {
        var q :| q in procs && Siblings(c.proc, q) && q.pid > c.proc.pid;
        assert Candidate(q, DuplicateSibling) in group && c in group;
        NotLast(sorted, c, Candidate(q, DuplicateSibling));
      }
      if c in older {
        LastIsLarger(sorted, c);
        var last := sorted[|sorted| - 1];
        assert last in group && c in group;
        assert Siblings(c.proc, last.proc);
      }
    }
  }

  lemma NotLast(sorted: seq<Candidate>, c: Candidate, larger: Candidate)
    requires Ascending(sorted) && c in sorted && larger in sorted && c.proc.pid < larger.proc.pid
    ensures |sorted| > 1 && c in sorted[..|sorted| - 1]
  {
    var i :| 0 <= i < |sorted| && sorted[i] == c;
    var j :| 0 <= j < |sorted| && sorted[j] == larger;
    assert i < j;
    assert sorted[..|sorted| - 1][i] == c;
  }

  lemma LastIsLarger(sorted: seq<Candidate>, c: Candidate)
    requires StrictlyAscending(sorted) && |sorted| > 1 && c in sorted[..|sorted| - 1]
    ensures c in sorted && c.proc.pid < sorted[|sorted| - 1].proc.pid
  {
    var i :| 0 <= i < |sorted| - 1 && sorted[..|sorted| - 1][i] == c;
    assert sorted[i] == c;
  }

  lemma AppendOlder(procs: seq<Proc>, keys: seq<Key>, k: nat, before: seq<Candidate>, older: seq<Candidate>)
    requires DistinctPids(procs) && k < |keys| && (forall i, j :: 0 <= i < j < |keys| ==> keys[i] != keys[j])
    requires DuplicatesOfFirst(before, procs, keys, k) && DuplicatesOfGroup(older, procs, keys[k])
    ensures DuplicatesOfFirst(before + older, procs, keys, k + 1)
  {
    NextGroup(keys, k);
    forall i, j | 0 <= i < |before| && 0 <= j < |older|
      ensures before[i].proc.pid != older[j].proc.pid
    {
      assert before[i] in before && older[j] in older;
      if before[i].proc.pid == older[j].proc.pid {
        SamePid(procs, before[i].proc, older[j].proc);
      }
    }
  }

  // ---------------------------------------------------------------- all candidates

  ghost predicate Selected(procs: seq<Proc>, currentPid: nat, protected: set<nat>, p: Proc) {
    && p.command.entrypoint.Some? && p.pid != currentPid
    && (HasLargerSibling(procs, p) || p.pid !in protected)
  }

  ghost function ReasonFor(procs: seq<Proc>, p: Proc): Reason {
    if HasLargerSibling(procs, p) then DuplicateSibling
    else if p.ppid <= 1 then ParentIsInit else OutsideCurrentSession
  }

  /** cs are, in ascending order and once each, the processes to clean up and why. */
  ghost predicate IsSelection(procs: seq<Proc>, currentPid: nat, protected: set<nat>, cs: seq<Candidate>) {
    && StrictlyAscending(cs)
    && forall c :: c in cs <==>
                   c.proc in procs && Selected(procs, currentPid, protected, c.proc) && c.reason == ReasonFor(procs, c.proc)
  }

  method FindCleanupCandidates(procs: seq<Proc>, currentPid: nat) returns (candidates: seq<Candidate>)
    requires DistinctPids(procs) && WalkEnds(ByPid(procs), currentPid)
    ensures exists protected :: IsProtectedSet(procs, currentPid, protected) && IsSelection(procs, currentPid, protected, candidates)
  {
    var protectedPids := BuildProtectedPidSet(procs, currentPid);
    var siblings := FindDuplicateSiblings(procs);
    var duplicates := [];
    var duplicatePids: set<nat> := {};
    for i := 0 to |siblings|
      invariant Filtered(duplicates, siblings[..i], currentPid) && duplicatePids == Pids(duplicates)
    {
      NextFiltered(duplicates, siblings, i, currentPid);
      if siblings[i].proc.pid != currentPid {
        duplicates := duplicates + [siblings[i]];
        duplicatePids := duplicatePids + {siblings[i].proc.pid};
      }
    }
    assert siblings[..|siblings|] == siblings;
    var orphans := FindOrphans(procs, currentPid, duplicatePids, protectedPids);
    Combined(procs, currentPid, protectedPids, siblings, duplicates, duplicatePids, orphans);
    candidates := SortByPid(duplicates + orphans);
    assert IsSelection(procs, currentPid, protectedPids, candidates);
  }

  function Pids(cs: seq<Candidate>): set<nat> {
    set c | c in cs :: c.proc.pid
  }

  /** duplicates are the siblings other than the current process, each once. */
  ghost predicate Filtered(duplicates: seq<Candidate>, siblings: seq<Candidate>, currentPid: nat) {
    DistinctCandidates(duplicates) && forall c :: c in duplicates <==> c in siblings && c.proc.pid != currentPid
  }

  lemma NextFiltered(duplicates: seq<Candidate>, siblings: seq<Candidate>, i: nat, currentPid: nat)
    requires StrictlyAscending(siblings) && i < |siblings| && Filtered(duplicates, siblings[..i], currentPid)
    ensures siblings[i].proc.pid == currentPid ==> Filtered(duplicates, siblings[..i + 1], currentPid)
    ensures siblings[i].proc.pid != currentPid ==> Filtered(duplicates + [siblings[i]], siblings[..i + 1], currentPid)
    ensures Pids(duplicates + [siblings[i]]) == Pids(duplicates) + {siblings[i].proc.pid}
  {
    assert siblings[..i + 1] == siblings[..i] + [siblings[i]];
    Later(siblings, i, duplicates);
  }

  lemma Later(siblings: seq<Candidate>, i: nat, before: seq<Candidate>)
    requires StrictlyAscending(siblings) && i < |siblings|
    requires forall c :: c in before ==> c in siblings[..i]
    ensures forall k :: 0 <= k < |before| ==> before[k].proc.pid != siblings[i].proc.pid
  {
    forall k | 0 <= k < |before| ensures before[k].proc.pid != siblings[i].proc.pid {
      assert before[k] in siblings[..i];
      var j :| 0 <= j < i && siblings[..i][j] == before[k];
      assert siblings[j].proc.pid < siblings[i].proc.pid;
    }
  }

  predicate IsOrphan(p: Proc, currentPid: nat, duplicatePids: set<nat>, protectedPids: set<nat>) {
    p.pid != currentPid && p.command.entrypoint.Some? && p.pid !in duplicatePids && p.pid !in protectedPids
  }

  /** The filters and the map of the second half. */
  method FindOrphans(procs: seq<Proc>, currentPid: nat, duplicatePids: set<nat>, protectedPids: set<nat>)
    returns (orphans: seq<Candidate>)
    requires DistinctPids(procs)
    ensures DistinctCandidates(orphans)
    ensures forall c :: c in orphans <==>
              c.proc in procs && IsOrphan(c.proc, currentPid, duplicatePids, protectedPids)
              && c.reason == if c.proc.ppid <= 1 then ParentIsInit else OutsideCurrentSession
  {
    orphans := [];
    for i := 0 to |procs|
      invariant DistinctCandidates(orphans)
      invariant forall c :: c in orphans <==>
                  c.proc in procs[..i] && IsOrphan(c.proc, currentPid, duplicatePids, protectedPids)
                  && c.reason == if c.proc.ppid <= 1 then ParentIsInit else OutsideCurrentSession
    {
      assert procs[..i + 1] == procs[..i] + [procs[i]];
      if IsOrphan(procs[i], currentPid, duplicatePids, protectedPids) {
        forall k | 0 <= k < |orphans| ensures orphans[k].proc.pid != procs[i].pid {
          assert orphans[k] in orphans;
          var j :| 0 <= j < i && procs[..i][j] == orphans[k].proc;
          assert procs[j].pid != procs[i].pid;
        }
        orphans := orphans + [Candidate(procs[i], if procs[i].ppid <= 1 then ParentIsInit else OutsideCurrentSession)];
      }
    }
    assert procs[..|procs|] == procs;
  }

  lemma Combined(procs: seq<Proc>, currentPid: nat, protected: set<nat>, siblings: seq<Candidate>,
                 duplicates: seq<Candidate>, duplicatePids: set<nat>, orphans: seq<Candidate>)
    requires DistinctPids(procs) && DistinctCandidates(duplicates) && DistinctCandidates(orphans)
    requires forall c :: c in siblings <==> IsDuplicate(procs, c)
    requires forall c :: c in duplicates <==> c in siblings && c.proc.pid != currentPid
    requires forall pid :: pid in duplicatePids <==> exists c :: c in duplicates && c.proc.pid == pid
    requires forall c :: c in orphans <==>
               c.proc in procs && IsOrphan(c.proc, currentPid, duplicatePids, protected)
               && c.reason == if c.proc.ppid <= 1 then ParentIsInit else OutsideCurrentSession
    ensures DistinctCandidates(duplicates + orphans)
    ensures forall c :: c in duplicates + orphans <==>
              c.proc in procs && Selected(procs, currentPid, protected, c.proc) && c.reason == ReasonFor(procs, c.proc)
  {
    forall p | p in procs && p.pid != currentPid
      ensures p.pid in duplicatePids <==> HasLargerSibling(procs, p)
    {
      if HasLargerSibling(procs, p) {
        assert Candidate(p, DuplicateSibling) in duplicates;
      }
      if p.pid in duplicatePids {
        var c :| c in duplicates && c.proc.pid == p.pid;
        SamePid(procs, c.proc, p);
      }
    }
    forall i, j | 0 <= i < |duplicates| && 0 <= j < |orphans|
      ensures duplicates[i].proc.pid != orphans[j].proc.pid
    {
      assert duplicates[i] in duplicates && orphans[j] in orphans;
    }
  }

  lemma SamePid(procs: seq<Proc>, p: Proc, q: Proc)
    requires DistinctPids(procs) && p in procs && q in procs && p.pid == q.pid
    ensures p == q
  {
    var i :| 0 <= i < |procs| && procs[i] == p;
    var j :| 0 <= j < |procs| && procs[j] == q;
  }

  function LargestPid(procs: seq<Proc>): (limit: nat)
    ensures forall q :: q in procs ==> q.pid <= limit
  {
    if procs == [] then 0
    else if procs[0].pid >= LargestPid(procs[1..]) then procs[0].pid
    else LargestPid(procs[1..])
  }

  /** A group of servers under a protected parent never dies out: the largest pid, at least, of
      the group of p is not selected. */
  lemma {:induction false} GroupKeepsOne(procs: seq<Proc>, currentPid: nat, protected: set<nat>, p: Proc)
    requires IsProtectedSet(procs, currentPid, protected)
    requires p in procs && p.command.entrypoint.Some? && p.ppid in protected
    ensures exists q :: q in procs && Siblings(p, q) && p.pid <= q.pid && !HasLargerSibling(procs, q)
                        && !Selected(procs, currentPid, protected, q)
    decreases LargestPid(procs) - p.pid
  {
    if HasLargerSibling(procs, p) {
      var q :| q in procs && Siblings(p, q) && q.pid > p.pid;
      GroupKeepsOne(procs, currentPid, protected, q);
      var r :| r in procs && Siblings(q, r) && q.pid <= r.pid && !HasLargerSibling(procs, r)
               && !Selected(procs, currentPid, protected, r);
      assert Siblings(p, r);
    } else {
      var root :| IsProtectedRoot(ByPid(procs), currentPid, root) && forall pid :: pid in protected <==> Reachable(procs, root, pid);
      assert IsChild(procs, p.ppid, p.pid) by {
        var i :| 0 <= i < |procs| && procs[i] == p;
      }
      ReachableStep(procs, root, p.ppid, p.pid);
      assert Siblings(p, p) && !Selected(procs, currentPid, protected, p);
    }
  }

  // ---------------------------------------------------------------- launch-safe candidates

  predicate IsCodexSession(c: Command) { c.codex }

  predicate IsLauncher(c: Command) { c.launcher }

  /** Not attached to a live Codex or launcher. */
  ghost predicate LaunchSafe(procs: seq<Proc>, p: Proc) {
    p.ppid <= 1
    || (!AncestorMatches(ByPid(procs), p.pid, IsCodexSession) && !AncestorMatches(ByPid(procs), p.pid, IsLauncher))
  }

  /** safe is the launch-safe part of the selection. */
  ghost predicate IsSafeSelection(procs: seq<Proc>, currentPid: nat, protected: set<nat>, safe: seq<Candidate>) {
    && StrictlyAscending(safe)
    && forall c :: c in safe <==>
                   && c.proc in procs && Selected(procs, currentPid, protected, c.proc) && c.reason == ReasonFor(procs, c.proc)
                   && LaunchSafe(procs, c.proc)
  }

  /** The test of one candidate. */
  method IsLaunchSafe(procs: seq<Proc>, byPid: map<nat, Proc>, p: Proc) returns (keep: bool)
    requires byPid == ByPid(procs)
    ensures keep == LaunchSafe(procs, p)
  {
    if p.ppid <= 1 {
      return true;
    }
    var codex := HasAncestorMatching(byPid, p.pid, IsCodexSession);
    var launcher := HasAncestorMatching(byPid, p.pid, IsLauncher);
    keep := !codex && !launcher;
  }

  /** safe are the launch-safe ones of the first i candidates. */
  ghost predicate SafeOfFirst(procs: seq<Proc>, candidates: seq<Candidate>, i: nat, safe: seq<Candidate>)
    requires i <= |candidates|
  {
    && StrictlyAscending(safe)
    && forall c :: c in safe <==> c in candidates[..i] && LaunchSafe(procs, c.proc)
  }

  lemma NextSafe(procs: seq<Proc>, candidates: seq<Candidate>, i: nat, safe: seq<Candidate>)
    requires i < |candidates| && StrictlyAscending(candidates) && SafeOfFirst(procs, candidates, i, safe)
    ensures SafeOfFirst(procs, candidates, i + 1, if LaunchSafe(procs, candidates[i].proc) then safe + [candidates[i]] else safe)
  {
    assert candidates[..i + 1] == candidates[..i] + [candidates[i]];
    forall k | 0 <= k < |safe| ensures safe[k].proc.pid < candidates[i].proc.pid {
      assert safe[k] in candidates[..i];
      var j :| 0 <= j < i && candidates[..i][j] == safe[k];
    }
  }

  method FindLaunchSafeCandidates(procs: seq<Proc>, currentPid: nat) returns (safe: seq<Candidate>)
    requires DistinctPids(procs) && WalkEnds(ByPid(procs), currentPid)
    ensures exists protected :: IsProtectedSet(procs, currentPid, protected) && IsSafeSelection(procs, currentPid, protected, safe)
  {
    var byPid := ByPid(procs);
    var candidates := FindCleanupCandidates(procs, currentPid);
    ghost var protected :| IsProtectedSet(procs, currentPid, protected) && IsSelection(procs, currentPid, protected, candidates);
    safe := [];
    for i := 0 to |candidates|
      invariant SafeOfFirst(procs, candidates, i, safe)
    {
      var keep := IsLaunchSafe(procs, byPid, candidates[i].proc);
      NextSafe(procs, candidates, i, safe);
      if keep {
        safe := safe + [candidates[i]];
      }
    }
    assert candidates[..|candidates|] == candidates;
    assert IsSafeSelection(procs, currentPid, protected, safe);
  }
}
