/**
 The directory lock of src/cli/index.ts, as a protocol between any number of processes.

 Both users of the lock (the tmux extended-keys lease and the madmax detached launch) create
 a directory with mkdir, write their pid into it, run, and remove it again. They differ only
 in when they call somebody else's directory stale. An action is one system call or one
 indivisible group of them; a run is any sequence of enabled actions, so every interleaving
 and every death is covered.

 What `Enabled` assumes, and nothing else does:
 - looking at a lock and removing it because it is stale is one action (`Inspect`);
 - a live process always looks alive; a dead one may look either way (pid reuse);
 - a live process writes its pid before its directory reaches the stale age (`GrowOld`).
 */
module MkdirLock {
  import opened Wrappers

  type Pid = nat

  /** Which of the two staleness tests a lock uses. */
  datatype Rule = ExtendedKeys | Madmax

  /** `creator` is not on disk: only `pidFile` and `aged` are visible to the staleness test. */
  datatype LockDir = LockDir(creator: Pid, pidFile: Option<Pid>, aged: bool)

  /** Where a process is in its call. `attempt` is the loop counter. */
  datatype Pc = Trying(attempt: nat) | Busy(attempt: nat) | Created | Inside

  datatype State = State(
    rule: Rule,
    maxAttempts: nat,
    dir: Option<LockDir>,
    pcs: map<Pid, Pc>,
    dead: set<Pid>)

  datatype Action =
    | Begin(p: Pid)
    | Mkdir(p: Pid)
    | WritePid(p: Pid)
    | Inspect(p: Pid, looksAlive: set<Pid>)
    | Leave(p: Pid)
    | Die(p: Pid)
    | GrowOld

  const EXTENDED_KEYS_MAX_ATTEMPTS: nat := 100

  /** The test under which a waiting process removes the directory of another one. */
  predicate Stale(rule: Rule, d: LockDir, looksAlive: set<Pid>) {
    match rule
    case ExtendedKeys => d.aged && (d.pidFile.None? || d.pidFile.value !in looksAlive)
    case Madmax => if d.pidFile.Some? then d.pidFile.value !in looksAlive else d.aged
  }

  predicate At(s: State, p: Pid, pc: Pc) {
    p in s.pcs && s.pcs[p] == pc
  }

  predicate InCriticalSection(s: State, p: Pid) {
    At(s, p, Created) || At(s, p, Inside)
  }

  predicate Enabled(s: State, a: Action) {
    match a
    case Begin(p) => p !in s.dead && p !in s.pcs
    case Mkdir(p) => p !in s.dead && p in s.pcs && s.pcs[p].Trying?
    case WritePid(p) => p !in s.dead && At(s, p, Created)
    case Inspect(p, looksAlive) =>
      && p !in s.dead && p in s.pcs && s.pcs[p].Busy?
      && (s.dir.Some? && s.dir.value.pidFile.Some? && s.dir.value.pidFile.value !in s.dead
          ==> s.dir.value.pidFile.value in looksAlive)
    case Leave(p) => p !in s.dead && InCriticalSection(s, p)
    case Die(p) => p !in s.dead
    case GrowOld => s.dir.Some? && (s.dir.value.creator in s.dead || s.dir.value.pidFile.Some?)
  }

  /** The loop goes round again, or the call throws its timeout error. */
  function NextAttempt(s: State, p: Pid, attempt: nat): State {
    if attempt < s.maxAttempts
    then s.(pcs := s.pcs[p := Trying(attempt)])
    else s.(pcs := s.pcs - {p})
  }

  function Apply(s: State, a: Action): State
    requires Enabled(s, a)
  {
    match a
    case Begin(p) => NextAttempt(s, p, 0)
    case Mkdir(p) =>
      if s.dir.None?
      then s.(dir := Some(LockDir(p, None, false)), pcs := s.pcs[p := Created])
      else s.(pcs := s.pcs[p := Busy(s.pcs[p].attempt)])
    case WritePid(p) =>
      // Writing into a directory that is gone fails, and the call throws.
      if s.dir.None?
      then s.(pcs := s.pcs - {p})
      else s.(dir := Some(s.dir.value.(pidFile := Some(p))), pcs := s.pcs[p := Inside])
    case Inspect(p, looksAlive) =>
      var dir := if s.dir.Some? && Stale(s.rule, s.dir.value, looksAlive) then None else s.dir;
      NextAttempt(s.(dir := dir), p, s.pcs[p].attempt + 1)
    case Leave(p) => s.(dir := None, pcs := s.pcs - {p})
    case Die(p) => s.(dead := s.dead + {p}, pcs := s.pcs - {p})
    case GrowOld => s.(dir := Some(s.dir.value.(aged := true)))
  }

  function Init(rule: Rule, maxAttempts: nat): State {
    State(rule, maxAttempts, None, map[], {})
  }

  /** The state a run ends in; None if some action of it was not enabled. */
  function Run(s: State, acts: seq<Action>): (r: Option<State>)
    decreases |acts|
  {
    if acts == [] then Some(s)
    else
      var before := Run(s, acts[..|acts| - 1]);
      if before.Some? && Enabled(before.value, acts[|acts| - 1])
      then Some(Apply(before.value, acts[|acts| - 1]))
      else None
  }

  /** What every step keeps: a process in its critical section is alive and made the directory. */
  ghost predicate Inv(s: State) {
    && (forall p: Pid :: p in s.pcs ==> p !in s.dead)
    && (forall p: Pid :: InCriticalSection(s, p) ==> s.dir.Some? && s.dir.value.creator == p)
    && (forall p: Pid :: At(s, p, Inside) ==> s.dir.Some? && s.dir.value.pidFile == Some(p))
    && (s.dir.Some? && s.dir.value.pidFile.Some? ==> s.dir.value.pidFile.value == s.dir.value.creator)
    && (s.dir.Some? && s.dir.value.aged ==> s.dir.value.creator in s.dead || s.dir.value.pidFile.Some?)
    && (s.dir.Some? && s.dir.value.creator !in s.dead ==> InCriticalSection(s, s.dir.value.creator))
    && (forall p: Pid :: p in s.pcs && (s.pcs[p].Trying? || s.pcs[p].Busy?) ==> s.pcs[p].attempt < s.maxAttempts)
  }

  lemma StepKeepsInv(s: State, a: Action)
    requires Inv(s) && Enabled(s, a)
    ensures Inv(Apply(s, a))
  {
    var t := Apply(s, a);
    if a.Inspect? && s.dir.Some? && t.dir.None? {
      // Only the directory of a dead process is ever found stale.
      assert s.dir.value.creator in s.dead;
    }
    assert a.WritePid? ==> InCriticalSection(s, a.p);
    forall p: Pid | InCriticalSection(t, p)
      ensures t.dir.Some? && t.dir.value.creator == p && (At(t, p, Inside) ==> t.dir.value.pidFile == Some(p))
    {
      if !(a.Mkdir? && a.p == p) {
        assert InCriticalSection(s, p);
        assert At(t, p, Inside) && a != WritePid(p) ==> At(s, p, Inside);
      }
    }
    if t.dir.Some? && t.dir.value.creator !in t.dead && !(a.Mkdir? && s.dir.None?) {
      assert InCriticalSection(s, s.dir.value.creator);
    }
  }

  lemma {:induction false} RunKeepsInv(s: State, acts: seq<Action>)
    requires Inv(s) && Run(s, acts).Some?
    ensures Inv(Run(s, acts).value)
    ensures Run(s, acts).value.maxAttempts == s.maxAttempts
    decreases |acts|
  {
    if acts != [] {
      var init := acts[..|acts| - 1];
      RunKeepsInv(s, init);
      StepKeepsInv(Run(s, init).value, acts[|acts| - 1]);
    }
  }

  /** At most one process is between its mkdir and its rmdir, in every reachable state and under
      either staleness rule, whoever died where; and that process is alive. */
  lemma MutualExclusion(rule: Rule, maxAttempts: nat, acts: seq<Action>, p: Pid, q: Pid)
    requires Run(Init(rule, maxAttempts), acts).Some?
    requires InCriticalSection(Run(Init(rule, maxAttempts), acts).value, p)
    requires InCriticalSection(Run(Init(rule, maxAttempts), acts).value, q)
    ensures p == q && p !in Run(Init(rule, maxAttempts), acts).value.dead
  {
    RunKeepsInv(Init(rule, maxAttempts), acts);
  }

  /** How often p tried to make the directory since its last call began. */
  function MkdirsSinceBegin(acts: seq<Action>, p: Pid): nat {
    if acts == [] then 0
    else
      var last := acts[|acts| - 1];
      if last == Begin(p) then 0
      else MkdirsSinceBegin(acts[..|acts| - 1], p) + if last == Mkdir(p) then 1 else 0
  }

  lemma {:induction false} AttemptsCounted(s: State, acts: seq<Action>, p: Pid)
    requires Inv(s) && s.pcs == map[] && Run(s, acts).Some?
    ensures MkdirsSinceBegin(acts, p) <= s.maxAttempts
    ensures var t := Run(s, acts).value;
            p in t.pcs ==> match t.pcs[p]
                           case Trying(k) => MkdirsSinceBegin(acts, p) == k
                           case Busy(k) => MkdirsSinceBegin(acts, p) == k + 1
                           case _ => true
    decreases |acts|
  {
    if acts != [] {
      var init := acts[..|acts| - 1];
      AttemptsCounted(s, init, p);
      RunKeepsInv(s, init);
    }
  }

  /** No call tries more often than its bound, whatever the other processes do. */
  lemma RetryLoopIsBounded(rule: Rule, maxAttempts: nat, acts: seq<Action>, p: Pid)
    requires Run(Init(rule, maxAttempts), acts).Some?
    ensures MkdirsSinceBegin(acts, p) <= maxAttempts
  {
    AttemptsCounted(Init(rule, maxAttempts), acts, p);
  }

  /** A call that found the directory taken gives up exactly when it has used all its attempts;
      otherwise it tries again. */
  lemma GivesUpExactlyWhen(rule: Rule, maxAttempts: nat, acts: seq<Action>, p: Pid, looksAlive: set<Pid>)
    requires Run(Init(rule, maxAttempts), acts).Some?
    requires Enabled(Run(Init(rule, maxAttempts), acts).value, Inspect(p, looksAlive))
    ensures var t := Apply(Run(Init(rule, maxAttempts), acts).value, Inspect(p, looksAlive));
            if MkdirsSinceBegin(acts, p) == maxAttempts then p !in t.pcs
            else At(t, p, Trying(MkdirsSinceBegin(acts, p)))
  {
    AttemptsCounted(Init(rule, maxAttempts), acts, p);
    RunKeepsInv(Init(rule, maxAttempts), acts);
  }

  /** p calls while q holds the lock, and finds it taken n times. */
  function Waiting(p: Pid, q: Pid, n: nat): seq<Action> {
    if n == 0 then [Begin(p)] else Waiting(p, q, n - 1) + [Mkdir(p)] + [Inspect(p, {q})]
  }

  function WaitState(s: State, p: Pid, n: nat): State {
    if n < s.maxAttempts then s.(pcs := s.pcs[p := Trying(n)]) else s
  }

  /** Then p is about to try for the next time, until it has tried as often as the bound says. */
  lemma {:induction false} StillWaiting(s: State, p: Pid, q: Pid, n: nat)
    requires Inv(s) && p !in s.dead && p !in s.pcs && At(s, q, Inside) && n <= s.maxAttempts
    ensures Run(s, Waiting(p, q, n)) == Some(WaitState(s, p, n))
  {
    if n == 0 {
      RunSnoc(s, [], Begin(p));
      assert [] + [Begin(p)] == [Begin(p)];
      assert s.pcs - {p} == s.pcs;
    } else {
      StillWaiting(s, p, q, n - 1);
      RunSnoc(s, Waiting(p, q, n - 1), Mkdir(p));
      RunSnoc(s, Waiting(p, q, n - 1) + [Mkdir(p)], Inspect(p, {q}));
      BusyRound(s, p, q, n);
    }
  }

  lemma BusyRound(s: State, p: Pid, q: Pid, n: nat)
    requires Inv(s) && p !in s.dead && p !in s.pcs && At(s, q, Inside) && 0 < n <= s.maxAttempts
    ensures Enabled(WaitState(s, p, n - 1), Mkdir(p))
    ensures var busy := Apply(WaitState(s, p, n - 1), Mkdir(p));
            Enabled(busy, Inspect(p, {q})) && Apply(busy, Inspect(p, {q})) == WaitState(s, p, n)
  {
    var busy := s.(pcs := s.pcs[p := Busy(n - 1)]);
    assert s.pcs[p := Trying(n - 1)][p := Busy(n - 1)] == busy.pcs;
    assert busy.pcs[p := Trying(n)] == s.pcs[p := Trying(n)] && busy.pcs - {p} == s.pcs;
  }

  /** And if q leaves before that, p gets the lock. */
  lemma WaiterGetsIn(s: State, p: Pid, q: Pid, n: nat)
    requires Inv(s) && p !in s.dead && p !in s.pcs && At(s, q, Inside) && n < s.maxAttempts
    ensures var r := Run(s, Waiting(p, q, n) + [Leave(q)] + [Mkdir(p)] + [WritePid(p)]);
            r.Some? && At(r.value, p, Inside) && q !in r.value.pcs && r.value.dir == Some(LockDir(p, Some(p), false))
  {
    StillWaiting(s, p, q, n);
    RunSnoc(s, Waiting(p, q, n), Leave(q));
    RunSnoc(s, Waiting(p, q, n) + [Leave(q)], Mkdir(p));
    RunSnoc(s, Waiting(p, q, n) + [Leave(q)] + [Mkdir(p)], WritePid(p));
  }

  /** The staleness rules, one directory at a time. Extended keys: an old directory whose recorded owner,
      if any, looks dead. Madmax: one whose recorded owner looks dead, old or not, or an old one with
      no owner recorded. */
  lemma RemovedExactlyWhen(s: State, p: Pid, looksAlive: set<Pid>)
    requires Enabled(s, Inspect(p, looksAlive)) && s.dir.Some?
    ensures var ownerDead := s.dir.value.pidFile.Some? && s.dir.value.pidFile.value !in looksAlive;
            Apply(s, Inspect(p, looksAlive)).dir ==
              if (s.rule == ExtendedKeys && s.dir.value.aged && (ownerDead || s.dir.value.pidFile.None?))
                 || (s.rule == Madmax && (ownerDead || (s.dir.value.aged && s.dir.value.pidFile.None?)))
              then None else s.dir
  {
  }

  /** The environment is as free as it says: whoever lives may die at any moment, and the directory of a
      dead process, or one with a pid in it, may grow old. */
  lemma EnvironmentIsFree(s: State, p: Pid)
    ensures p !in s.dead ==> Enabled(s, Die(p)) && p in Apply(s, Die(p)).dead && p !in Apply(s, Die(p)).pcs && Apply(s, Die(p)).dir == s.dir
    ensures s.dir.Some? && (s.dir.value.creator in s.dead || s.dir.value.pidFile.Some?) ==>
              Enabled(s, GrowOld) && Apply(s, GrowOld) == s.(dir := Some(s.dir.value.(aged := true)))
  {
  }

  /** A directory left behind by a dead process does not block: once it is old, a process that
      runs alone and has two attempts gets the lock, under either rule. */
  lemma AbandonedLockIsBroken(s: State, p: Pid, looksAlive: set<Pid>)
    requires Inv(s) && p !in s.dead && p !in s.pcs && s.maxAttempts >= 2
    requires s.dir.Some? && s.dir.value.creator in s.dead && s.dir.value.aged
    requires s.dir.value.creator !in looksAlive
    ensures var r := Run(s, [Begin(p), Mkdir(p), Inspect(p, looksAlive), Mkdir(p), WritePid(p)]);
            r.Some? && At(r.value, p, Inside) && r.value.dir == Some(LockDir(p, Some(p), false))
  {
    var broken := [Begin(p), Mkdir(p), Inspect(p, looksAlive)];
    BreaksAbandoned(s, p, looksAlive);
    RunSnoc(s, broken, Mkdir(p));
    RunSnoc(s, broken + [Mkdir(p)], WritePid(p));
    assert [Begin(p), Mkdir(p), Inspect(p, looksAlive), Mkdir(p), WritePid(p)] == broken + [Mkdir(p)] + [WritePid(p)];
  }

  lemma BreaksAbandoned(s: State, p: Pid, looksAlive: set<Pid>)
    requires Inv(s) && p !in s.dead && p !in s.pcs && s.maxAttempts >= 2
    requires s.dir.Some? && s.dir.value.creator in s.dead && s.dir.value.aged
    requires s.dir.value.creator !in looksAlive
    ensures var r := Run(s, [Begin(p), Mkdir(p), Inspect(p, looksAlive)]);
            r.Some? && r.value.dir.None? && r.value.dead == s.dead && At(r.value, p, Trying(1))
  {
    RunSnoc(s, [], Begin(p));
    RunSnoc(s, [Begin(p)], Mkdir(p));
    RunSnoc(s, [Begin(p)] + [Mkdir(p)], Inspect(p, looksAlive));
    assert [] + [Begin(p)] == [Begin(p)];
    assert [Begin(p), Mkdir(p), Inspect(p, looksAlive)] == [Begin(p)] + [Mkdir(p)] + [Inspect(p, looksAlive)];
  }

  lemma RunSnoc(s: State, init: seq<Action>, a: Action)
    ensures Run(s, init + [a]) ==
            if Run(s, init).Some? && Enabled(Run(s, init).value, a) then Some(Apply(Run(s, init).value, a)) else None
  {
    assert (init + [a])[..|init|] == init;
  }
}
