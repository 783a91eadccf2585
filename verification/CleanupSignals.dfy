/**
 How the orphan cleanup of src/cli/cleanup.ts ends the selected processes: SIGTERM to all, wait,
 SIGKILL to whoever is left, wait again. The operating system answers as it likes.
 */
module CleanupSignals {
  import opened Wrappers

  datatype Signal = Term | Kill

  datatype Event =
    | Sent(pid: nat, signal: Signal) | Denied(pid: nat, signal: Signal)
    | SeenAlive(pid: nat) | SeenDead(pid: nat)
    | Slept | Clock(t: int)

  datatype SendResult = Delivered | NoSuchProcess | Refused

  const POLL_MS := 100
  const TERM_GRACE_MS := 5000

  /** The process table, the signals and the clock; `log` is what the cleanup did and saw. */
  class Os {
    ghost var log: seq<Event>
    var clock: int

    constructor ()
      ensures log == []
    {
      log, clock := [], 0;
    }

    method IsAlive(pid: nat) returns (alive: bool)
      modifies this
      ensures log == old(log) + [if alive then SeenAlive(pid) else SeenDead(pid)] && clock == old(clock)
    {
      alive := *;
      log := log + [if alive then SeenAlive(pid) else SeenDead(pid)];
    }

    method Send(pid: nat, signal: Signal) returns (r: SendResult)
      modifies this
      ensures log == old(log) + [if r == Refused then Denied(pid, signal) else Sent(pid, signal)] && clock == old(clock)
    {
      r := *;
      log := log + [if r == Refused then Denied(pid, signal) else Sent(pid, signal)];
    }

    /** The clock moves at least as far as one sleeps. */
    method Sleep(ms: int)
      requires ms > 0
      modifies this
      ensures log == old(log) + [Slept] && clock >= old(clock) + ms
    {
      var extra :| extra >= 0;
      clock := clock + ms + extra;
      log := log + [Slept];
    }

    method Now() returns (t: int)
      modifies this
      ensures t == clock >= old(clock) && log == old(log) + [Clock(t)]
    {
      var extra :| extra >= 0;
      clock := clock + extra;
      t := clock;
      log := log + [Clock(t)];
    }
  }

  predicate IsSend(e: Event) { e.Sent? }

  /** The signals of a log, in order. */
  function Signals(log: seq<Event>): seq<Event> {
    if log == [] then []
    else Signals(log[..|log| - 1]) + if IsSend(log[|log| - 1]) then [log[|log| - 1]] else []
  }

  lemma {:induction false} SignalsConcat(a: seq<Event>, b: seq<Event>)
    ensures Signals(a + b) == Signals(a) + Signals(b)
  {
    if b == [] {
      assert a + b == a;
    } else {
      assert (a + b)[..|a + b| - 1] == a + b[..|b| - 1];
      SignalsConcat(a, b[..|b| - 1]);
    }
  }

  lemma NoNewSignal(log: seq<Event>, e: Event)
    requires !IsSend(e)
    ensures Signals(log + [e]) == Signals(log)
  {
    assert (log + [e])[..|log|] == log;
  }

  /** Since the log was `from`, pid was seen alive and not found dead after that. */
  ghost predicate LastSeenAlive(from: seq<Event>, log: seq<Event>, pid: nat) {
    exists i :: |from| <= i < |log| && log[i] == SeenAlive(pid) && forall j :: i < j < |log| ==> log[j] != SeenDead(pid)
  }

  lemma LastSeenAliveStays(from: seq<Event>, log: seq<Event>, pid: nat, e: Event)
    requires LastSeenAlive(from, log, pid) && e != SeenDead(pid)
    ensures LastSeenAlive(from, log + [e], pid)
  {
    var i :| |from| <= i < |log| && log[i] == SeenAlive(pid) && forall j :: i < j < |log| ==> log[j] != SeenDead(pid);
    assert (log + [e])[i] == SeenAlive(pid);
  }

  /** Since the log was `from`, pid was found dead. */
  ghost predicate SeenDeadSince(from: seq<Event>, log: seq<Event>, pid: nat) {
    exists i :: |from| <= i < |log| && log[i] == SeenDead(pid)
  }

  lemma SeenDeadMore(from: seq<Event>, log: seq<Event>, e: Event, pid: nat)
    requires |from| <= |log|
    ensures SeenDeadSince(from, log + [e], pid) <==> SeenDeadSince(from, log, pid) || e == SeenDead(pid)
  {
    if SeenDeadSince(from, log, pid) {
      var i :| |from| <= i < |log| && log[i] == SeenDead(pid);
      assert (log + [e])[i] == SeenDead(pid);
    }
    assert (log + [e])[|log|] == e;
  }

  lemma SeenDeadTwice(a: seq<Event>, b: seq<Event>, c: seq<Event>, pid: nat)
    requires |a| <= |b| && b <= c
    ensures SeenDeadSince(a, c, pid) <==> SeenDeadSince(a, b, pid) || SeenDeadSince(b, c, pid)
  {
    if SeenDeadSince(a, b, pid) {
      var i :| |a| <= i < |b| && b[i] == SeenDead(pid);
      assert c[i] == SeenDead(pid);
    }
  }

  /** What a round of questions may do: send nothing, drop exactly what it found dead, and leave
      only what it last saw alive. */
  ghost predicate Swept(from: seq<Event>, log: seq<Event>, asked: set<nat>, left: set<nat>) {
    && from <= log && Signals(log) == Signals(from) && left <= asked
    && (forall p :: p in left ==> LastSeenAlive(from, log, p))
    && (forall p :: p in asked ==> (p !in left <==> SeenDeadSince(from, log, p)))
  }

  /** One round: ask after every pid, drop the dead. */
  method Sweep(pids: set<nat>, os: Os) returns (left: set<nat>)
    modifies os
    ensures Swept(old(os.log), os.log, pids, left) && os.clock == old(os.clock)
    ensures forall i :: |old(os.log)| <= i < |os.log| ==> !os.log[i].Slept?
  {
    left := pids;
    var todo := pids;
    while todo != {}
      invariant todo <= left <= pids && os.clock == old(os.clock)
      invariant old(os.log) <= os.log && Signals(os.log) == Signals(old(os.log))
      invariant forall i :: |old(os.log)| <= i < |os.log| ==> !os.log[i].Slept?
      invariant forall p :: p in left && p !in todo ==> LastSeenAlive(old(os.log), os.log, p)
      invariant forall p :: p in pids ==> (p !in left <==> SeenDeadSince(old(os.log), os.log, p))
    {
      var pid :| pid in todo;
      ghost var before := os.log;
      var alive := os.IsAlive(pid);
      NoNewSignal(before, os.log[|before|]);
      forall p | p in left && p !in todo ensures LastSeenAlive(old(os.log), os.log, p) {
        LastSeenAliveStays(old(os.log), before, p, os.log[|before|]);
      }
      forall p ensures SeenDeadSince(old(os.log), os.log, p) <==> SeenDeadSince(old(os.log), before, p) || os.log[|before|] == SeenDead(p) {
        SeenDeadMore(old(os.log), before, os.log[|before|], p);
      }
      if alive {
        assert os.log[|before|] == SeenAlive(pid);
      } else {
        assert os.log[|before|] == SeenDead(pid);
        left := left - {pid};
      }
      todo := todo - {pid};
    }
  }

  lemma SweptAgain(a: seq<Event>, b: seq<Event>, c: seq<Event>, all: set<nat>, some: set<nat>, few: set<nat>)
    requires Swept(a, b, all, some) && Swept(b, c, some, few)
    ensures Swept(a, c, all, few)
  {
    forall p | p in few ensures LastSeenAlive(a, c, p) {
      var i :| |b| <= i < |c| && c[i] == SeenAlive(p) && forall j :: i < j < |c| ==> c[j] != SeenDead(p);
    }
    forall p | p in all ensures p !in few <==> SeenDeadSince(a, c, p) {
      SeenDeadTwice(a, b, c, p);
    }
  }

  lemma SweptThen(a: seq<Event>, b: seq<Event>, e: Event, all: set<nat>, some: set<nat>)
    requires Swept(a, b, all, some) && (e.Slept? || e.Clock?)
    ensures Swept(a, b + [e], all, some)
  {
    NoNewSignal(b, e);
    forall p | p in some ensures LastSeenAlive(a, b + [e], p) {
      LastSeenAliveStays(a, b, p, e);
    }
    forall p | p in all ensures p !in some <==> SeenDeadSince(a, b + [e], p) {
      SeenDeadMore(a, b, e, p);
    }
  }

  /** Two looks at the clock since the log was `from`, ms apart. */
  ghost predicate Waited(from: seq<Event>, log: seq<Event>, ms: int) {
    exists i, j :: |from| <= i <= j < |log| && log[i].Clock? && log[j].Clock? && log[j].t >= log[i].t + ms
  }

  /** Whenever it slept since the log was `from`, one of pids had not been found dead. */
  ghost predicate SleptForSomeone(from: seq<Event>, log: seq<Event>, pids: set<nat>) {
    forall i :: |from| <= i < |log| && log[i].Slept? ==> exists p :: p in pids && !SeenDeadSince(from, log[..i], p)
  }

  lemma SleptNoMore(from: seq<Event>, log: seq<Event>, more: seq<Event>, pids: set<nat>)
    requires SleptForSomeone(from, log, pids) && log <= more && forall i :: |log| <= i < |more| ==> !more[i].Slept?
    ensures SleptForSomeone(from, more, pids)
  {
    forall i | |from| <= i < |more| && more[i].Slept? ensures exists p :: p in pids && !SeenDeadSince(from, more[..i], p) {
      assert more[..i] == log[..i] && log[i].Slept?;
    }
  }

  lemma SleptOnce(from: seq<Event>, log: seq<Event>, pids: set<nat>, p: nat)
    requires SleptForSomeone(from, log, pids) && p in pids && !SeenDeadSince(from, log, p)
    ensures SleptForSomeone(from, log + [Slept], pids)
  {
    var more := log + [Slept];
    forall i | |from| <= i < |more| && more[i].Slept? ensures exists p :: p in pids && !SeenDeadSince(from, more[..i], p) {
      if i < |log| {
        assert more[..i] == log[..i] && log[i].Slept?;
      } else {
        assert more[..i] == log;
      }
    }
  }

  /** Since the log was `from` some of pids are left, and it never slept with nobody left. */
  ghost predicate Watched(from: seq<Event>, log: seq<Event>, pids: set<nat>, left: set<nat>) {
    Swept(from, log, pids, left) && SleptForSomeone(from, log, pids)
  }

  /** A look at the clock meanwhile. */
  method Glance(os: Os, ghost from: seq<Event>, ghost pids: set<nat>, ghost left: set<nat>) returns (now: int)
    requires Watched(from, os.log, pids, left)
    modifies os
    ensures Watched(from, os.log, pids, left)
    ensures os.log == old(os.log) + [Clock(now)] && now == os.clock >= old(os.clock)
  {
    now := os.Now();
    SweptThen(from, old(os.log), Clock(now), pids, left);
    SleptNoMore(from, old(os.log), os.log, pids);
  }

  /** waitForPidsToExit. With someone left it has waited as long as it was asked to. */
  method WaitForExit(pids: set<nat>, timeoutMs: int, os: Os) returns (remaining: set<nat>)
    modifies os
    ensures Watched(old(os.log), os.log, pids, remaining)
    ensures remaining != {} ==> Waited(old(os.log), os.log, timeoutMs)
  {
    ghost var from := os.log;
    remaining := Sweep(pids, os);
    if remaining == {} {
      return;
    }
    var start := Glance(os, from, pids, remaining);
    ghost var started := os.log;
    var deadline := start + if timeoutMs > 0 then timeoutMs else 0;
    var now := Glance(os, from, pids, remaining);
    while now < deadline && remaining != {}
      invariant Watched(from, os.log, pids, remaining) && now == os.clock
      invariant started <= os.log && os.log[|os.log| - 1] == Clock(now)
      decreases deadline - now
    {
      remaining := PollOnce(pids, remaining, os, from);
      now := Glance(os, from, pids, remaining);
    }
    ghost var some := remaining;
    if remaining != {} {
      HasWaited(from, started, os.log, start, now, timeoutMs);
    }
    ghost var before := os.log;
    remaining := SweepAgain(pids, remaining, os, from);
    WaitedStays(from, before, os.log, timeoutMs);
    assert some == {} ==> remaining == {};
  }

  /** One more round of questions, to those who are left. */
  method SweepAgain(pids: set<nat>, some: set<nat>, os: Os, ghost from: seq<Event>) returns (few: set<nat>)
    requires Watched(from, os.log, pids, some)
    modifies os
    ensures Watched(from, os.log, pids, few) && few <= some && old(os.log) <= os.log && os.clock == old(os.clock)
  {
    few := Sweep(some, os);
    SweptAgain(from, old(os.log), os.log, pids, some, few);
    SleptNoMore(from, old(os.log), os.log, pids);
  }

  lemma HasWaited(from: seq<Event>, started: seq<Event>, log: seq<Event>, start: int, now: int, ms: int)
    requires |from| < |started| && started <= log && started[|started| - 1] == Clock(start) && log[|log| - 1] == Clock(now)
    requires now >= start + ms
    ensures Waited(from, log, ms)
  {
    assert log[|started| - 1] == Clock(start);
  }

  lemma WaitedStays(from: seq<Event>, log: seq<Event>, more: seq<Event>, ms: int)
    requires log <= more
    ensures Waited(from, log, ms) ==> Waited(from, more, ms)
  {
    if i, j :| |from| <= i <= j < |log| && log[i].Clock? && log[j].Clock? && log[j].t >= log[i].t + ms {
      assert more[i] == log[i] && more[j] == log[j];
    }
  }

  /** One round of the loop. */
  method PollOnce(pids: set<nat>, some: set<nat>, os: Os, ghost from: seq<Event>) returns (few: set<nat>)
    requires some != {} && Watched(from, os.log, pids, some)
    modifies os
    ensures Watched(from, os.log, pids, few) && old(os.log) <= os.log && os.clock > old(os.clock)
  {
    ghost var p :| p in some;
    SleptOnce(from, os.log, pids, p);
    SweptThen(from, os.log, Slept, pids, some);
    os.Sleep(POLL_MS);
    few := SweepAgain(pids, some, os, from);
  }

  function SignalTo(pids: seq<nat>, signal: Signal): seq<Event> {
    seq(|pids|, i requires 0 <= i < |pids| => Sent(pids[i], signal))
  }

  /** The signals went out in order up to one that the system refused, and nothing happened after it. */
  ghost predicate BrokenOff(from: seq<Event>, log: seq<Event>, pids: seq<nat>, signal: Signal) {
    exists k :: 0 <= k < |pids| && log == from + SignalTo(pids[..k], signal) + [Denied(pids[k], signal)]
  }

  /** Signals every pid in order; a process that is already gone is fine, any other refusal is an
      exception. */
  method SignalAll(pids: seq<nat>, signal: Signal, os: Os) returns (ok: bool)
    modifies os
    ensures if ok then os.log == old(os.log) + SignalTo(pids, signal) else BrokenOff(old(os.log), os.log, pids, signal)
  {
    for i := 0 to |pids|
      invariant os.log == old(os.log) + SignalTo(pids[..i], signal)
    {
      var r := os.Send(pids[i], signal);
      if r == Refused {
        return false;
      }
      assert SignalTo(pids[..i + 1], signal) == SignalTo(pids[..i], signal) + [Sent(pids[i], signal)];
    }
    assert pids[..|pids|] == pids;
    ok := true;
  }

  lemma {:induction false} SignalsOfSignalTo(pids: seq<nat>, signal: Signal)
    ensures Signals(SignalTo(pids, signal)) == SignalTo(pids, signal)
  {
    if pids != [] {
      var all, n := SignalTo(pids, signal), |pids| - 1;
      assert all[..n] == SignalTo(pids[..n], signal);
      assert all == all[..n] + [all[n]];
      SignalsOfSignalTo(pids[..n], signal);
    }
  }

  ghost predicate Distinct(pids: seq<nat>) {
    forall i, j :: 0 <= i < j < |pids| ==> pids[i] != pids[j]
  }

  function Members(pids: seq<nat>): set<nat> {
    set p | p in pids
  }

  lemma {:induction false} MembersOfDistinct(pids: seq<nat>)
    requires Distinct(pids)
    ensures |Members(pids)| == |pids|
  {
    if pids != [] {
      var n := |pids| - 1;
      MembersOfDistinct(pids[..n]);
      assert pids == pids[..n] + [pids[n]];
      assert Members(pids) == Members(pids[..n]) + {pids[n]};
    }
  }

  /** The candidates still in `left`, in order. */
  function Select(pids: seq<nat>, left: set<nat>): (r: seq<nat>)
    ensures forall p :: p in r <==> p in pids && p in left
  {
    if pids == [] then []
    else
      assert pids == pids[..|pids| - 1] + [pids[|pids| - 1]];
      Select(pids[..|pids| - 1], left) + if pids[|pids| - 1] in left then [pids[|pids| - 1]] else []
  }

  /** The selection keeps the order of the candidates. */
  lemma {:induction false} SelectKeepsOrder(pids: seq<nat>, left: set<nat>, i: nat, j: nat)
    requires i < j < |Select(pids, left)|
    ensures exists k, l :: 0 <= k < l < |pids| && pids[k] == Select(pids, left)[i] && pids[l] == Select(pids, left)[j]
  {
    var n := |pids| - 1;
    var before := Select(pids[..n], left);
    if j < |before| {
      SelectKeepsOrder(pids[..n], left, i, j);
      var k, l :| 0 <= k < l < n && pids[..n][k] == before[i] && pids[..n][l] == before[j];
      assert pids[k] == before[i] && pids[l] == before[j];
    } else {
      assert before[i] in pids[..n];
      var k :| 0 <= k < n && pids[..n][k] == before[i];
      assert pids[k] == before[i];
    }
  }

  lemma {:induction false} SelectDistinct(pids: seq<nat>, left: set<nat>)
    requires Distinct(pids)
    ensures Distinct(Select(pids, left))
  {
    if pids != [] {
      var n := |pids| - 1;
      SelectDistinct(pids[..n], left);
      forall k | 0 <= k < |Select(pids[..n], left)| ensures Select(pids[..n], left)[k] != pids[n] {
        assert Select(pids[..n], left)[k] in pids[..n];
      }
    }
  }

  /** Five seconds to end by themselves, a tenth of one to be killed. */
  function Patience(signal: Signal): int {
    if signal == Term then 5000 else 100
  }

  /** One phase: a signal to each of pids, in order, and nothing else before waiting; while waiting
      no signals, at the end of which `left` were last seen alive and the others found dead. With
      someone left, the wait was as long as the signal calls for; with nobody, no longer than needed. */
  ghost predicate PhaseDone(from: seq<Event>, log: seq<Event>, pids: seq<nat>, signal: Signal, left: set<nat>) {
    var signalled := from + SignalTo(pids, signal);
    && signalled <= log && left <= Members(pids) && Swept(signalled, log, Members(pids), left)
    && (left != {} ==> Waited(signalled, log, Patience(signal)))
    && SleptForSomeone(signalled, log, Members(pids))
  }

  method SignalAndWait(pids: seq<nat>, signal: Signal, timeoutMs: int, os: Os) returns (left: Option<set<nat>>)
    requires timeoutMs == Patience(signal)
    modifies os
    ensures if left.Some? then PhaseDone(old(os.log), os.log, pids, signal, left.value) else BrokenOff(old(os.log), os.log, pids, signal)
  {
    var ok := SignalAll(pids, signal, os);
    if !ok {
      return None;
    }
    var remaining := WaitForExit(Members(pids), timeoutMs, os);
    left := Some(remaining);
  }

  datatype Cleaned = Cleaned(terminated: int, forceKilled: int, failed: set<nat>)

  /** The report and the log agree. The log has two phases: everybody got SIGTERM, once and in order,
      after which `survivors` were last seen alive and all others found dead; then exactly the
      survivors got SIGKILL, in order, after which the failed were last seen alive and the other
      survivors found dead. The counts are those of this partition. */
  ghost predicate Accounted(from: seq<Event>, mid: seq<Event>, log: seq<Event>, pids: seq<nat>, survivors: set<nat>, r: Cleaned) {
    && PhaseDone(from, mid, pids, Term, survivors)
    && PhaseDone(mid, log, Select(pids, survivors), Kill, r.failed)
    && r.failed <= survivors <= Members(pids)
    && r.terminated == |Members(pids) - r.failed| == |pids| - |r.failed|
    && r.forceKilled == |survivors - r.failed|
  }

  lemma PhaseSignals(from: seq<Event>, log: seq<Event>, pids: seq<nat>, signal: Signal, left: set<nat>)
    requires PhaseDone(from, log, pids, signal, left)
    ensures from <= log && Signals(log) == Signals(from) + SignalTo(pids, signal)
  {
    SignalsConcat(from, SignalTo(pids, signal));
    SignalsOfSignalTo(pids, signal);
  }

  lemma PhaseEnds(from: seq<Event>, log: seq<Event>, pids: seq<nat>, signal: Signal, left: set<nat>, p: nat)
    requires PhaseDone(from, log, pids, signal, left) && p in pids
    ensures if p in left then LastSeenAlive(from, log, p) else SeenDeadSince(from, log, p)
  {
    var signalled := from + SignalTo(pids, signal);
    assert p in Members(pids);
    if p in left {
      AliveEarlier(from, signalled, log, p);
    } else {
      DeadWithin(from, signalled, log, log, p);
    }
  }

  lemma AliveEarlier(from: seq<Event>, mid: seq<Event>, log: seq<Event>, p: nat)
    requires |from| <= |mid| && LastSeenAlive(mid, log, p)
    ensures LastSeenAlive(from, log, p)
  {
    var i :| |mid| <= i < |log| && log[i] == SeenAlive(p) && forall j :: i < j < |log| ==> log[j] != SeenDead(p);
  }

  /** What was seen in a part of the log was seen. */
  lemma DeadWithin(from: seq<Event>, mid: seq<Event>, part: seq<Event>, log: seq<Event>, p: nat)
    requires |from| <= |mid| && part <= log && SeenDeadSince(mid, part, p)
    ensures SeenDeadSince(from, log, p)
  {
    var i :| |mid| <= i < |part| && part[i] == SeenDead(p);
    assert log[i] == SeenDead(p);
  }

  /** What follows for the log as a whole. */
  lemma AccountedOverall(from: seq<Event>, mid: seq<Event>, log: seq<Event>, pids: seq<nat>, survivors: set<nat>, r: Cleaned)
    requires Accounted(from, mid, log, pids, survivors, r)
    ensures Signals(log) == Signals(from) + SignalTo(pids, Term) + SignalTo(Select(pids, survivors), Kill)
    ensures forall p :: p in r.failed ==> LastSeenAlive(mid, log, p)
    ensures forall p :: p in pids && p !in r.failed ==> SeenDeadSince(from, log, p)
  {
    PhaseSignals(from, mid, pids, Term, survivors);
    PhaseSignals(mid, log, Select(pids, survivors), Kill, r.failed);
    forall p | p in r.failed ensures LastSeenAlive(mid, log, p) {
      PhaseEnds(mid, log, Select(pids, survivors), Kill, r.failed, p);
    }
    forall p | p in pids && p !in r.failed ensures SeenDeadSince(from, log, p) {
      if p in survivors {
        PhaseEnds(mid, log, Select(pids, survivors), Kill, r.failed, p);
        DeadWithin(from, mid, log, log, p);
      } else {
        PhaseEnds(from, mid, pids, Term, survivors, p);
        DeadWithin(from, from, mid, log, p);
      }
    }
  }

  /** A refused signal ended the cleanup: in the first phase, or in the second. */
  ghost predicate EndedBy(from: seq<Event>, mid: seq<Event>, log: seq<Event>, pids: seq<nat>, survivors: set<nat>) {
    || BrokenOff(from, log, pids, Term)
    || (PhaseDone(from, mid, pids, Term, survivors) && BrokenOff(mid, log, Select(pids, survivors), Kill))
  }

  /** The part of cleanupOmxMcpProcesses after the dry-run tests, for candidates as selected: positive
      and distinct pids. None is an exception from sending a signal. */
  method EndProcesses(pids: seq<nat>, os: Os) returns (r: Option<Cleaned>)
    requires Distinct(pids)
    modifies os
    ensures r.Some? ==> exists mid, survivors :: Accounted(old(os.log), mid, os.log, pids, survivors, r.value)
    ensures r.None? ==> exists mid, survivors :: EndedBy(old(os.log), mid, os.log, pids, survivors)
  {
    var remaining := SignalAndWait(pids, Term, TERM_GRACE_MS, os);
    if remaining.None? {
      assert EndedBy(old(os.log), [], os.log, pids, {});
      return None;
    }
    ghost var mid := os.log;
    var running := Select(pids, remaining.value);
    CountRunning(pids, remaining.value, running);
    var terminated := |pids| - |running|;
    var forceKilled := 0;
    var failed: set<nat> := {};
    if |running| > 0 {
      var left := SignalAndWait(running, Kill, POLL_MS, os);
      if left.None? {
        assert EndedBy(old(os.log), mid, os.log, pids, remaining.value);
        return None;
      }
      failed := left.value;
      forceKilled := |running| - |failed|;
      terminated := terminated + forceKilled;
    } else {
      NothingToKill(os.log);
    }
    SetSizes(Members(pids), failed);
    SetSizes(remaining.value, failed);
    r := Some(Cleaned(terminated, forceKilled, failed));
    assert Accounted(old(os.log), mid, os.log, pids, remaining.value, r.value);
  }

  lemma NothingToKill(log: seq<Event>)
    ensures PhaseDone(log, log, [], Kill, {})
  {
    assert SignalTo([], Kill) == [] && log + [] == log && Members([]) == {};
  }

  lemma CountRunning(pids: seq<nat>, left: set<nat>, running: seq<nat>)
    requires Distinct(pids) && left <= Members(pids) && running == Select(pids, left)
    ensures Members(running) == left && |running| == |left| && |Members(pids)| == |pids|
  {
    SelectDistinct(pids, left);
    MembersOfDistinct(pids);
    MembersOfDistinct(running);
  }

  lemma SetSizes(all: set<nat>, part: set<nat>)
    requires part <= all
    ensures |all - part| == |all| - |part|
  {
    assert all == (all - part) + part;
  }
}
