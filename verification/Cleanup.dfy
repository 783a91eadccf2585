/**
 Which processes the orphan cleanup of src/cli/cleanup.ts selects. The regular expressions that
 classify a command line are not part of the model: a command carries their verdicts.
 */
module Cleanup {
  import opened Wrappers

  /** entrypoint: the OMX MCP server this command runs, if it runs one. */
  datatype Command = Command(codex: bool, launcher: bool, entrypoint: Option<string>)

  datatype Proc = Proc(pid: nat, ppid: nat, command: Command)

  datatype Reason = ParentIsInit | OutsideCurrentSession | DuplicateSibling

  datatype Candidate = Candidate(proc: Proc, reason: Reason)

  /** What an operating system guarantees of its process table. */
  ghost predicate DistinctPids(procs: seq<Proc>) {
    forall i, j :: 0 <= i < j < |procs| ==> procs[i].pid != procs[j].pid
  }

  /** The table by pid, as a later entry overwrites an earlier one. */
  function ByPid(procs: seq<Proc>): (m: map<nat, Proc>)
    ensures forall pid :: pid in m ==> m[pid] in procs && m[pid].pid == pid
    ensures forall p :: p in procs ==> p.pid in m
  {
    if procs == [] then map[]
    else ByPid(procs[..|procs| - 1])[procs[|procs| - 1].pid := procs[|procs| - 1]]
  }

  // ---------------------------------------------------------------- ancestors

  /** The pid k parent links above pid; None once a link is missing or leads to 0. */
  function Ancestor(byPid: map<nat, Proc>, pid: nat, k: nat): Option<nat> {
    if k == 0 then Some(pid)
    else
      var below := Ancestor(byPid, pid, k - 1);
      if below.Some? && below.value in byPid && byPid[below.value].ppid > 0
      then Some(byPid[below.value].ppid) else None
  }

  ghost predicate IsAncestor(byPid: map<nat, Proc>, pid: nat, ancestor: nat) {
    exists k: nat :: k >= 1 && Ancestor(byPid, pid, k) == Some(ancestor)
  }

  /** Some process above pid satisfies the test. */
  ghost predicate AncestorMatches(byPid: map<nat, Proc>, pid: nat, test: Command -> bool) {
    exists a: nat :: IsAncestor(byPid, pid, a) && a in byPid && test(byPid[a].command)
  }

  /** hasAncestorMatching: exact, and it ends, on cyclic tables too. */
  method HasAncestorMatching(byPid: map<nat, Proc>, pid: nat, test: Command -> bool) returns (found: bool)
    ensures found <==> AncestorMatches(byPid, pid, test)
  {
    if pid !in byPid {
      NoAncestors(byPid, pid, {}, None, test);
      return false;
    }
    var seen: set<nat> := {};
    var current := byPid[pid].ppid;
    ghost var k := 1;
    assert Ancestor(byPid, pid, 0) == Some(pid);
    while current > 0 && current !in seen
      invariant seen <= byPid.Keys
      invariant k >= 1 && (current > 0 ==> Ancestor(byPid, pid, k) == Some(current))
      invariant forall x :: x in seen ==> !test(byPid[x].command)
      invariant forall x :: x in seen + {pid} ==> x in byPid && (byPid[x].ppid in seen || byPid[x].ppid == current)
      decreases byPid.Keys - seen
    {
      if current !in byPid {
        NoAncestors(byPid, pid, seen, Some(current), test);
        return false;
      }
      if test(byPid[current].command) {
        assert IsAncestor(byPid, pid, current);
        return true;
      }
      seen := seen + {current};
      current := byPid[current].ppid;
      k := k + 1;
    }
    NoAncestors(byPid, pid, seen, if current > 0 then None else Some(current), test);
    found := false;
  }

  /** A set of non-matching processes that parent links from pid never leave, except to `outside`,
      which is not a process. */
  lemma NoAncestors(byPid: map<nat, Proc>, pid: nat, seen: set<nat>, outside: Option<nat>, test: Command -> bool)
    requires seen <= byPid.Keys
    requires forall x :: x in seen ==> !test(byPid[x].command)
    requires forall x :: x in seen + {pid} && x in byPid ==> byPid[x].ppid in seen || Some(byPid[x].ppid) == outside
    requires outside.Some? && outside.value > 0 ==> outside.value !in byPid
    ensures !AncestorMatches(byPid, pid, test)
  {
    forall k: nat | k >= 1 && Ancestor(byPid, pid, k).Some?
      ensures Ancestor(byPid, pid, k).value in seen || Ancestor(byPid, pid, k) == outside
      ensures Ancestor(byPid, pid, k).value > 0
    {
      AncestorsStay(byPid, pid, seen, outside, k);
    }
  }

  lemma {:induction false} AncestorsStay(byPid: map<nat, Proc>, pid: nat, seen: set<nat>, outside: Option<nat>, k: nat)
    requires k >= 1 && Ancestor(byPid, pid, k).Some?
    requires forall x :: x in seen + {pid} && x in byPid ==> byPid[x].ppid in seen || Some(byPid[x].ppid) == outside
    requires outside.Some? && outside.value > 0 ==> outside.value !in byPid
    ensures Ancestor(byPid, pid, k).value in seen || Ancestor(byPid, pid, k) == outside
    ensures Ancestor(byPid, pid, k).value > 0
  {
    if k > 1 {
      AncestorsStay(byPid, pid, seen, outside, k - 1);
    }
  }

  // ---------------------------------------------------------------- the protected root

  /** One step of the walk towards init; None where it stops. */
  function Up(byPid: map<nat, Proc>, pid: nat): Option<nat> {
    if pid <= 1 || pid !in byPid || byPid[pid].command.codex then None
    else if byPid[pid].ppid == 0 || byPid[pid].ppid == pid then None
    else Some(byPid[pid].ppid)
  }

  function UpTimes(byPid: map<nat, Proc>, pid: nat, n: nat): Option<nat> {
    if n == 0 then Some(pid)
    else
      var below := UpTimes(byPid, pid, n - 1);
      if below.Some? then Up(byPid, below.value) else None
  }

  predicate IsCodex(byPid: map<nat, Proc>, pid: nat) {
    pid > 1 && pid in byPid && byPid[pid].command.codex
  }

  /** What a caller can check: the walk is over after one step more than there are processes. */
  predicate WalkEnds(byPid: map<nat, Proc>, pid: nat) {
    UpTimes(byPid, pid, |byPid| + 1) == None
  }

  /** The walk comes to a pid it has been at before. */
  ghost predicate WalkRepeats(byPid: map<nat, Proc>, pid: nat) {
    exists i: nat, j: nat :: i < j && UpTimes(byPid, pid, i).Some? && UpTimes(byPid, pid, i) == UpTimes(byPid, pid, j)
  }

  /** The nearest Codex process at or above pid, or pid itself if the walk meets none. */
  ghost predicate IsProtectedRoot(byPid: map<nat, Proc>, pid: nat, root: nat) {
    || (IsCodex(byPid, root) && exists n: nat :: UpTimes(byPid, pid, n) == Some(root))
    || (root == pid && forall n: nat, q: nat :: UpTimes(byPid, pid, n) == Some(q) ==> !IsCodex(byPid, q))
  }

  /** resolveProtectedRootPid has no guard against cycles: without its requires the loop runs on
      forever (EndsExactlyWhen). */
  method ResolveProtectedRoot(procs: seq<Proc>, currentPid: nat) returns (root: nat)
    requires WalkEnds(ByPid(procs), currentPid)
    ensures IsProtectedRoot(ByPid(procs), currentPid, root)
  {
    var byPid := ByPid(procs);
    ghost var end := |byPid| + 1;
    var pid := currentPid;
    ghost var n := 0;
    while pid > 1
      invariant UpTimes(byPid, currentPid, n) == Some(pid) && n < end
      invariant NoCodexBefore(byPid, currentPid, n)
      decreases end - n
    {
      if pid in byPid && byPid[pid].command.codex {
        return pid;
      }
      if pid !in byPid || byPid[pid].ppid == 0 || byPid[pid].ppid == pid {
        break;
      }
      GoesOn(byPid, currentPid, n, pid, end);
      pid := byPid[pid].ppid;
      n := n + 1;
    }
    EndsWithoutCodex(byPid, currentPid, n, pid);
    root := currentPid;
  }

  ghost predicate NoCodexBefore(byPid: map<nat, Proc>, pid: nat, n: nat) {
    forall m: nat, q: nat :: m < n && UpTimes(byPid, pid, m) == Some(q) ==> !IsCodex(byPid, q)
  }

  lemma GoesOn(byPid: map<nat, Proc>, pid: nat, n: nat, at: nat, end: nat)
    requires UpTimes(byPid, pid, n) == Some(at) && Up(byPid, at).Some? && NoCodexBefore(byPid, pid, n)
    requires UpTimes(byPid, pid, end) == None && n < end
    ensures UpTimes(byPid, pid, n + 1) == Some(byPid[at].ppid) && n + 1 < end && NoCodexBefore(byPid, pid, n + 1)
  {
  }

  lemma EndsWithoutCodex(byPid: map<nat, Proc>, pid: nat, n: nat, at: nat)
    requires UpTimes(byPid, pid, n) == Some(at) && Up(byPid, at).None? && !IsCodex(byPid, at) && NoCodexBefore(byPid, pid, n)
    ensures forall m: nat, q: nat :: UpTimes(byPid, pid, m) == Some(q) ==> !IsCodex(byPid, q)
  {
    forall m: nat, q: nat | UpTimes(byPid, pid, m) == Some(q)
      ensures !IsCodex(byPid, q)
    {
      NoneFromThenOn(byPid, pid, n + 1, m);
    }
  }

  lemma {:induction false} NoneFromThenOn(byPid: map<nat, Proc>, pid: nat, n: nat, m: nat)
    requires UpTimes(byPid, pid, n) == None
    ensures n <= m ==> UpTimes(byPid, pid, m) == None
    decreases m
  {
    if n < m {
      NoneFromThenOn(byPid, pid, n, m - 1);
    }
  }

  lemma {:induction false} UpTimesSum(byPid: map<nat, Proc>, pid: nat, i: nat, k: nat)
    requires UpTimes(byPid, pid, i).Some?
    ensures UpTimes(byPid, pid, i + k) == UpTimes(byPid, UpTimes(byPid, pid, i).value, k)
  {
    if k > 0 {
      UpTimesSum(byPid, pid, i, k - 1);
    }
  }

  /** Once a pid comes back, the walk goes round for ever. */
  lemma {:induction false} RepeatingGoesOn(byPid: map<nat, Proc>, pid: nat, i: nat, j: nat, n: nat)
    requires i < j && UpTimes(byPid, pid, i).Some? && UpTimes(byPid, pid, i) == UpTimes(byPid, pid, j)
    ensures UpTimes(byPid, pid, n).Some?
  {
    if n <= j {
      if UpTimes(byPid, pid, n) == None {
        NoneFromThenOn(byPid, pid, n, j);
      }
    } else {
      RepeatingGoesOn(byPid, pid, i, j, i + (n - j));
      UpTimesSum(byPid, pid, i, n - j);
      UpTimesSum(byPid, pid, j, n - j);
    }
  }

  /** More values than the set has elements: two of them are equal. */
  lemma {:induction false} Pigeonhole(values: seq<nat>, all: set<nat>)
    requires |values| > |all| && forall i :: 0 <= i < |values| ==> values[i] in all
    ensures exists i, j :: 0 <= i < j < |values| && values[i] == values[j]
  {
    var n := |values| - 1;
    var last, init := values[n], values[..n];
    if i :| 0 <= i < n && values[i] == last {
    } else {
      assert |all - {last}| == |all| - 1;
      Pigeonhole(init, all - {last});
      var i, j :| 0 <= i < j < |init| && init[i] == init[j];
      assert values[i] == values[j];
    }
  }

  /** A walk longer than the table repeats a pid. */
  lemma LongWalkRepeats(byPid: map<nat, Proc>, pid: nat)
    requires !WalkEnds(byPid, pid)
    ensures WalkRepeats(byPid, pid)
  {
    var n := |byPid| + 1;
    forall i: nat | i < n ensures UpTimes(byPid, pid, i).Some? && UpTimes(byPid, pid, i).value in byPid.Keys {
      if UpTimes(byPid, pid, i + 1) == None {
        NoneFromThenOn(byPid, pid, i + 1, n);
      }
    }
    var walked := seq(n, i requires 0 <= i < n => UpTimes(byPid, pid, i).value);
    Pigeonhole(walked, byPid.Keys);
    var i, j :| 0 <= i < j < n && walked[i] == walked[j];
    assert UpTimes(byPid, pid, i) == UpTimes(byPid, pid, j);
  }

  /** The walk stops some time exactly when it stops within the size of the table, and exactly when
      it meets no pid twice: that is, when it does not run into a cycle of processes other than
      Codex, of whatever length. */
  lemma EndsExactlyWhen(byPid: map<nat, Proc>, pid: nat)
    ensures WalkEnds(byPid, pid) <==> exists n: nat :: UpTimes(byPid, pid, n) == None
    ensures WalkEnds(byPid, pid) <==> !WalkRepeats(byPid, pid)
  {
    if !WalkEnds(byPid, pid) {
      LongWalkRepeats(byPid, pid);
    }
    if WalkRepeats(byPid, pid) {
      var i: nat, j: nat :| i < j && UpTimes(byPid, pid, i).Some? && UpTimes(byPid, pid, i) == UpTimes(byPid, pid, j);
      forall n: nat ensures UpTimes(byPid, pid, n).Some? {
        RepeatingGoesOn(byPid, pid, i, j, n);
      }
    } else {
      assert UpTimes(byPid, pid, |byPid| + 1) == None;
    }
  }

  lemma WalkGoesOn(byPid: map<nat, Proc>, pid: nat, n: nat)
    requires !WalkEnds(byPid, pid)
    ensures UpTimes(byPid, pid, n).Some?
  {
    LongWalkRepeats(byPid, pid);
    var i: nat, j: nat :| i < j && UpTimes(byPid, pid, i).Some? && UpTimes(byPid, pid, i) == UpTimes(byPid, pid, j);
    RepeatingGoesOn(byPid, pid, i, j, n);
  }

  /** The processes on such a cycle are all above init, in the table, and none of them is Codex. */
  lemma CycleHasNoCodex(byPid: map<nat, Proc>, pid: nat, i: nat)
    requires !WalkEnds(byPid, pid)
    ensures UpTimes(byPid, pid, i).Some?
    ensures var q := UpTimes(byPid, pid, i).value;
            q > 1 && q in byPid && !byPid[q].command.codex && byPid[q].ppid != q && byPid[q].ppid > 0
  {
    WalkGoesOn(byPid, pid, i);
    WalkGoesOn(byPid, pid, i + 1);
    assert UpTimes(byPid, pid, i + 1) == Up(byPid, UpTimes(byPid, pid, i).value);
  }

  /** root is a Codex process at or above pid, and between them stand only others, above init. */
  ghost predicate NearestCodex(byPid: map<nat, Proc>, pid: nat, root: nat, k: nat) {
    && Ancestor(byPid, pid, k) == Some(root) && IsCodex(byPid, root)
    && forall j: nat :: j < k ==> Ancestor(byPid, pid, j).Some? && Ancestor(byPid, pid, j).value > 1 && !IsCodex(byPid, Ancestor(byPid, pid, j).value)
  }

  lemma {:induction false} WalkIsAncestors(byPid: map<nat, Proc>, pid: nat, n: nat)
    requires UpTimes(byPid, pid, n).Some?
    ensures Ancestor(byPid, pid, n) == UpTimes(byPid, pid, n)
    ensures forall j: nat :: j < n ==> Ancestor(byPid, pid, j).Some? && Ancestor(byPid, pid, j).value > 1 && !IsCodex(byPid, Ancestor(byPid, pid, j).value)
  {
    if n > 0 {
      WalkIsAncestors(byPid, pid, n - 1);
    }
  }

  /** Above its own parent there is nothing but itself. */
  lemma {:induction false} OwnParent(byPid: map<nat, Proc>, pid: nat, j: nat, k: nat)
    requires j <= k && Ancestor(byPid, pid, j).Some? && Ancestor(byPid, pid, k).Some?
    requires var a := Ancestor(byPid, pid, j).value; a in byPid && byPid[a].ppid == a
    ensures Ancestor(byPid, pid, k) == Ancestor(byPid, pid, j)
  {
    if j < k {
      OwnParent(byPid, pid, j, k - 1);
    }
  }

  lemma {:induction false} AncestorsAreWalked(byPid: map<nat, Proc>, pid: nat, root: nat, k: nat, n: nat)
    requires NearestCodex(byPid, pid, root, k) && n <= k
    ensures UpTimes(byPid, pid, n) == Ancestor(byPid, pid, n)
  {
    if n > 0 {
      AncestorsAreWalked(byPid, pid, root, k, n - 1);
      AncestorExists(byPid, pid, n, k);
      var a := Ancestor(byPid, pid, n - 1).value;
      if byPid[a].ppid == a {
        OwnParent(byPid, pid, n - 1, k);
      }
    }
  }

  lemma {:induction false} AncestorExists(byPid: map<nat, Proc>, pid: nat, j: nat, k: nat)
    requires j <= k && Ancestor(byPid, pid, k).Some?
    ensures Ancestor(byPid, pid, j).Some?
  {
    if j < k {
      AncestorExists(byPid, pid, j, k - 1);
    }
  }

  /** The protected root in terms of ancestors: the nearest Codex process at or above pid, or pid if
      there is none. */
  lemma ProtectedRootIsNearestCodex(byPid: map<nat, Proc>, pid: nat, root: nat)
    ensures IsProtectedRoot(byPid, pid, root) <==>
              || (exists k: nat :: NearestCodex(byPid, pid, root, k))
              || (root == pid && forall r: nat, k: nat :: !NearestCodex(byPid, pid, r, k))
  {
    forall n: nat, q: nat | UpTimes(byPid, pid, n) == Some(q) && IsCodex(byPid, q) ensures NearestCodex(byPid, pid, q, n) {
      WalkIsAncestors(byPid, pid, n);
    }
    forall k: nat, r: nat | NearestCodex(byPid, pid, r, k) ensures UpTimes(byPid, pid, k) == Some(r) && IsCodex(byPid, r) {
      AncestorsAreWalked(byPid, pid, r, k, k);
    }
  }

  /** Parent links without cycles other than self-loops suffice. */
  lemma AcyclicWalkEnds(byPid: map<nat, Proc>, pid: nat, rank: nat -> nat)
    requires forall p :: p in byPid && byPid[p].ppid != p ==> rank(byPid[p].ppid) < rank(p)
    ensures WalkEnds(byPid, pid)
  {
    if !WalkEnds(byPid, pid) {
      WalkGoesOn(byPid, pid, rank(pid) + 1);
      RankDrops(byPid, pid, rank, rank(pid) + 1);
    }
  }

  lemma {:induction false} RankDrops(byPid: map<nat, Proc>, pid: nat, rank: nat -> nat, n: nat)
    requires forall p :: p in byPid && byPid[p].ppid != p ==> rank(byPid[p].ppid) < rank(p)
    requires UpTimes(byPid, pid, n).Some?
    ensures rank(UpTimes(byPid, pid, n).value) + n <= rank(pid)
  {
    if n > 0 {
      RankDrops(byPid, pid, rank, n - 1);
    }
  }

  /** Two processes that are each other's parent, neither of them Codex, and the walk never ends. */
  lemma CycleNeverEnds(command: Command)
    requires !command.codex
    ensures !WalkEnds(map[2 := Proc(2, 3, command), 3 := Proc(3, 2, command)], 2)
  {
    CycleGoesOn(command, |map[2 := Proc(2, 3, command), 3 := Proc(3, 2, command)]| + 1);
  }

  lemma {:induction false} CycleGoesOn(command: Command, n: nat)
    requires !command.codex
    ensures UpTimes(map[2 := Proc(2, 3, command), 3 := Proc(3, 2, command)], 2, n) in {Some(2), Some(3)}
  {
    if n > 0 {
      CycleGoesOn(command, n - 1);
    }
  }

  // ---------------------------------------------------------------- the protected set

  predicate IsChild(procs: seq<Proc>, parent: nat, child: nat) {
    exists i :: 0 <= i < |procs| && procs[i].ppid == parent && procs[i].pid == child
  }

  ghost predicate IsDescent(procs: seq<Proc>, path: seq<nat>, from: nat, to: nat) {
    && path != [] && path[0] == from && path[|path| - 1] == to
    && forall i :: 0 <= i < |path| - 1 ==> IsChild(procs, path[i], path[i + 1])
  }

  /** `to` is `from` or one of its descendants. */
  ghost predicate Reachable(procs: seq<Proc>, from: nat, to: nat) {
    exists path :: IsDescent(procs, path, from, to)
  }

  lemma ReachableStep(procs: seq<Proc>, from: nat, via: nat, to: nat)
    requires Reachable(procs, from, via) && IsChild(procs, via, to)
    ensures Reachable(procs, from, to)
  {
    var path :| IsDescent(procs, path, from, via);
    assert IsDescent(procs, path + [to], from, to);
  }

  lemma {:induction false} ClosedSetHoldsPath(procs: seq<Proc>, closed: set<nat>, path: seq<nat>, from: nat, to: nat)
    requires from in closed && IsDescent(procs, path, from, to)
    requires forall p, c :: p in closed && IsChild(procs, p, c) ==> c in closed
    ensures to in closed
    decreases |path|
  {
    if |path| > 1 {
      var init := path[..|path| - 1];
      ClosedSetHoldsPath(procs, closed, init, from, init[|init| - 1]);
      assert IsChild(procs, path[|path| - 2], path[|path| - 1]);
    }
  }

  /** children maps every parent to its children. */
  ghost predicate ListsChildren(children: map<nat, seq<nat>>, procs: seq<Proc>) {
    forall p: nat, c: nat :: IsChild(procs, p, c) <==> p in children && c in children[p]
  }

  method ChildrenByPid(procs: seq<Proc>) returns (children: map<nat, seq<nat>>)
    ensures ListsChildren(children, procs)
  {
    children := map[];
    for i := 0 to |procs|
      invariant ListsChildren(children, procs[..i])
    {
      ChildOfPrefix(procs, i, children);
      var siblings := if procs[i].ppid in children then children[procs[i].ppid] else [];
      children := children[procs[i].ppid := siblings + [procs[i].pid]];
    }
    assert procs[..|procs|] == procs;
  }

  lemma ChildOfPrefix(procs: seq<Proc>, i: nat, children: map<nat, seq<nat>>)
    requires i < |procs| && ListsChildren(children, procs[..i])
    ensures var siblings := if procs[i].ppid in children then children[procs[i].ppid] else [];
            ListsChildren(children[procs[i].ppid := siblings + [procs[i].pid]], procs[..i + 1])
  {
    var shorter, longer := procs[..i], procs[..i + 1];
    assert longer == shorter + [procs[i]];
    forall p: nat, c: nat
      ensures IsChild(longer, p, c) <==> IsChild(shorter, p, c) || (procs[i].ppid == p && procs[i].pid == c)
    {
      if IsChild(shorter, p, c) {
        var k :| 0 <= k < i && shorter[k].ppid == p && shorter[k].pid == c;
        assert longer[k] == shorter[k];
      }
      if procs[i].ppid == p && procs[i].pid == c {
        assert longer[i] == procs[i];
      }
    }
  }

  /** Where the worklist stands: everything found is reachable, and whatever is a child of
      something done is done or waiting. */
  ghost predicate Exploring(procs: seq<Proc>, root: nat, done: set<nat>, found: set<nat>, waiting: seq<nat>) {
    && done <= found
    && (root in found || root in waiting)
    && (forall i :: 0 <= i < |waiting| ==> Reachable(procs, root, waiting[i]))
    && (forall p :: p in found ==> Reachable(procs, root, p))
    && (forall p: nat, c: nat :: p in done && IsChild(procs, p, c) ==> c in found || c in waiting)
  }

  /** The worklist of buildProtectedPidSet: everything below root, on cyclic links too. */
  method Descendants(procs: seq<Proc>, root: nat) returns (protected: set<nat>)
    ensures forall pid :: pid in protected <==> Reachable(procs, root, pid)
  {
    var children := ChildrenByPid(procs);
    protected := {};
    var descendants := [root];
    ghost var universe := {root} + set i | 0 <= i < |procs| :: procs[i].pid;
    assert IsDescent(procs, [root], root, root);
    while descendants != []
      invariant protected <= universe && Within(descendants, universe)
      invariant Exploring(procs, root, protected, protected, descendants)
      decreases |universe - protected|, |descendants|
    {
      Pop(procs, root, protected, descendants);
      var pid := descendants[|descendants| - 1];
      descendants := descendants[..|descendants| - 1];
      if pid in protected {
        assert protected + {pid} == protected;
      } else {
        ghost var done := protected;
        protected := protected + {pid};
        SmallerSet(universe - protected, universe - done, pid);
        descendants := PushChildren(procs, root, children, pid, done, protected, descendants, universe);
      }
    }
    forall pid | Reachable(procs, root, pid) ensures pid in protected {
      var path :| IsDescent(procs, path, root, pid);
      ClosedSetHoldsPath(procs, protected, path, root, pid);
    }
  }

  /** The inner loop: push the children of pid that have not been found yet. */
  method PushChildren(procs: seq<Proc>, ghost root: nat, children: map<nat, seq<nat>>, pid: nat, ghost done: set<nat>,
                      protected: set<nat>, descendants: seq<nat>, ghost universe: set<nat>) returns (out: seq<nat>)
    requires ListsChildren(children, procs) && protected == done + {pid} && Reachable(procs, root, pid)
    requires Exploring(procs, root, done, protected, descendants)
    requires (forall i :: 0 <= i < |procs| ==> procs[i].pid in universe) && Within(descendants, universe)
    ensures Exploring(procs, root, protected, protected, out) && Within(out, universe)
  {
    out := descendants;
    var kids := if pid in children then children[pid] else [];
    for k := 0 to |kids|
      invariant Exploring(procs, root, done, protected, out) && Within(out, universe)
      invariant FoundFirst(kids, k, protected, out)
    {
      if kids[k] !in protected {
        KidIsChild(procs, children, pid, kids[k]);
        Push(procs, root, pid, done, protected, out, kids[k]);
        PushWithin(out, universe, kids[k]);
        FindNext(kids, k, protected, out);
        out := out + [kids[k]];
      }
    }
    AllPushed(procs, root, children, pid, done, protected, out);
  }

  ghost predicate Within(waiting: seq<nat>, universe: set<nat>) {
    forall i :: 0 <= i < |waiting| ==> waiting[i] in universe
  }

  lemma PushWithin(waiting: seq<nat>, universe: set<nat>, x: nat)
    requires Within(waiting, universe) && x in universe
    ensures Within(waiting + [x], universe)
  {
  }

  ghost predicate FoundFirst(kids: seq<nat>, k: nat, found: set<nat>, waiting: seq<nat>) {
    forall j :: 0 <= j < k && j < |kids| ==> kids[j] in found || kids[j] in waiting
  }

  lemma FindNext(kids: seq<nat>, k: nat, found: set<nat>, waiting: seq<nat>)
    requires k < |kids| && FoundFirst(kids, k, found, waiting)
    ensures FoundFirst(kids, k + 1, found, waiting + [kids[k]])
  {
    assert forall x :: x in waiting ==> x in waiting + [kids[k]];
    assert kids[k] in waiting + [kids[k]];
  }

  lemma KidIsChild(procs: seq<Proc>, children: map<nat, seq<nat>>, pid: nat, kid: nat)
    requires ListsChildren(children, procs) && pid in children && kid in children[pid]
    ensures IsChild(procs, pid, kid) && exists i :: 0 <= i < |procs| && procs[i].pid == kid
  {
    assert IsChild(procs, pid, kid);
    var i :| 0 <= i < |procs| && procs[i].ppid == pid && procs[i].pid == kid;
  }

  /** With all its children found, pid is done. */
  lemma AllPushed(procs: seq<Proc>, root: nat, children: map<nat, seq<nat>>, pid: nat, done: set<nat>, found: set<nat>, waiting: seq<nat>)
    requires ListsChildren(children, procs) && found == done + {pid} && Exploring(procs, root, done, found, waiting)
    requires var kids := if pid in children then children[pid] else []; FoundFirst(kids, |kids|, found, waiting)
    ensures Exploring(procs, root, found, found, waiting)
  {
    forall c: nat | IsChild(procs, pid, c) ensures c in found || c in waiting {
      assert c in children[pid];
    }
  }

  lemma Push(procs: seq<Proc>, root: nat, pid: nat, done: set<nat>, found: set<nat>, waiting: seq<nat>, child: nat)
    requires Exploring(procs, root, done, found, waiting)
    requires Reachable(procs, root, pid) && IsChild(procs, pid, child)
    ensures Exploring(procs, root, done, found, waiting + [child])
  {
    ReachableStep(procs, root, pid, child);
  }

  lemma Pop(procs: seq<Proc>, root: nat, done: set<nat>, waiting: seq<nat>)
    requires waiting != [] && Exploring(procs, root, done, done, waiting)
    ensures var (pid, rest) := (waiting[|waiting| - 1], waiting[..|waiting| - 1]);
            Reachable(procs, root, pid)
            && Exploring(procs, root, done, done + {pid}, rest)
  {
    assert waiting == waiting[..|waiting| - 1] + [waiting[|waiting| - 1]];
  }

  lemma SmallerSet(a: set<nat>, b: set<nat>, x: nat)
    requires a <= b && x in b && x !in a
    ensures |a| < |b|
  {
    assert |b - {x}| == |b| - 1;
    SubsetSize(a, b - {x});
  }

  lemma {:induction false} SubsetSize(a: set<nat>, b: set<nat>)
    requires a <= b
    ensures |a| <= |b|
    decreases a
  {
    if a != {} {
      var x :| x in a;
      SubsetSize(a - {x}, b - {x});
    }
  }

  /** The pids reachable from the protected root of currentPid. */
  ghost predicate IsProtectedSet(procs: seq<Proc>, currentPid: nat, protected: set<nat>) {
    exists root ::
      && IsProtectedRoot(ByPid(procs), currentPid, root)
      && forall pid :: pid in protected <==> Reachable(procs, root, pid)
  }

  method BuildProtectedPidSet(procs: seq<Proc>, currentPid: nat) returns (protected: set<nat>)
    requires WalkEnds(ByPid(procs), currentPid)
    ensures IsProtectedSet(procs, currentPid, protected)
  {
    var root := ResolveProtectedRoot(procs, currentPid);
    protected := Descendants(procs, root);
  }

  /** There is only one protected root. */
  lemma ProtectedRootIsUnique(byPid: map<nat, Proc>, pid: nat, a: nat, b: nat)
    requires IsProtectedRoot(byPid, pid, a) && IsProtectedRoot(byPid, pid, b)
    ensures a == b
  {
    assert UpTimes(byPid, pid, 0) == Some(pid);
    if exists n: nat, m: nat :: UpTimes(byPid, pid, n) == Some(a) && UpTimes(byPid, pid, m) == Some(b)
                                && IsCodex(byPid, a) && IsCodex(byPid, b) {
      var n: nat, m: nat :| UpTimes(byPid, pid, n) == Some(a) && UpTimes(byPid, pid, m) == Some(b);
      assert UpTimes(byPid, pid, n + 1) == None;
      assert UpTimes(byPid, pid, m + 1) == None;
      NoneFromThenOn(byPid, pid, n + 1, m);
      NoneFromThenOn(byPid, pid, m + 1, n);
    }
  }

  /** So there is only one protected set. */
  lemma ProtectedSetIsUnique(procs: seq<Proc>, currentPid: nat, a: set<nat>, b: set<nat>)
    requires IsProtectedSet(procs, currentPid, a) && IsProtectedSet(procs, currentPid, b)
    ensures a == b
  {
    var r :| IsProtectedRoot(ByPid(procs), currentPid, r) && forall pid :: pid in a <==> Reachable(procs, r, pid);
    var s :| IsProtectedRoot(ByPid(procs), currentPid, s) && forall pid :: pid in b <==> Reachable(procs, s, pid);
    ProtectedRootIsUnique(ByPid(procs), currentPid, r, s);
  }
}
