/**
 The extended-keys lease as a protocol: any number of processes acquire and release leases on
 one tmux server, one file operation or tmux call at a time, under the directory lock.

 On top of the assumptions of `MkdirLock`: all leases of the server live under one root, nobody
 else writes the option or the file, file writes are atomic, and a live owner looks alive. A
 process may die anywhere, except (in a run of `Legal` actions) between a set-option call and the
 file update that belongs to it. `DeathLosesTheUsersMode` and `DeathTurnsTheModeOff` are runs
 that show why that exception is there.
 */
module LeaseProtocol {
  import opened Wrappers
  import opened ExtendedKeysLease
  import Lock = MkdirLock

  type Pid = Lock.Pid

  /** The next operation of a process inside the lock, with what it has read so far. */
  datatype Pc =
    | AcquireRead(h: Holder)
    | AcquireRestore(h: Holder, originalMode: string)
    | AcquireRemove(h: Holder)
    | AcquireShow(h: Holder)
    | AcquireSetAlways(h: Holder, previousMode: string)
    | AcquireCreate(h: Holder, previousMode: string)
    | AcquireAppend(h: Holder, file: LeaseFile)
    | ReleaseRead(id: string)
    | ReleaseRestore(id: string, originalMode: string)
    | ReleaseRemove(id: string)
    | ReleaseRewrite(id: string, file: LeaseFile)
    | Done

  /** `held` is the specification's own record: leases acquired and not yet released. */
  datatype State = State(
    lock: Lock.State,
    server: Server,
    pcs: map<Pid, Pc>,
    held: set<Holder>)

  datatype Action =
    | BeginAcquire(p: Pid, h: Holder)
    | BeginRelease(p: Pid, id: string)
    | Locking(a: Lock.Action)
    | Read(p: Pid, looksAlive: set<Holder>)
    | Advance(p: Pid)
    | TmuxFails(p: Pid)

  predicate Inside(s: State, p: Pid) {
    Lock.At(s.lock, p, Lock.Inside) && p in s.pcs
  }

  predicate Alive(s: State, h: Holder) {
    h.owner !in s.lock.dead
  }

  /** The three places where the option has been set and the file not yet brought in line. */
  predicate InWindow(pc: Pc) {
    pc.AcquireRemove? || pc.AcquireCreate? || pc.ReleaseRemove?
  }

  predicate IsTmuxCall(pc: Pc) {
    pc.AcquireRestore? || pc.AcquireShow? || pc.AcquireSetAlways? || pc.ReleaseRestore?
  }

  ghost predicate Enabled(s: State, a: Action) {
    match a
    case BeginAcquire(p, h) => Lock.Enabled(s.lock, Lock.Begin(p))
    case BeginRelease(p, id) => Lock.Enabled(s.lock, Lock.Begin(p))
    case Locking(l) =>
      && Lock.Enabled(s.lock, l)
      && !l.Begin?
      && (l.Leave? && Lock.At(s.lock, l.p, Lock.Inside) ==> l.p in s.pcs && s.pcs[l.p].Done?)
    case Read(p, looksAlive) =>
      && p !in s.lock.dead && Inside(s, p) && (s.pcs[p].AcquireRead? || s.pcs[p].ReleaseRead?)
      && (s.server.lease.Some? ==>
            forall h :: h in s.server.lease.value.holders && Alive(s, h) ==> h in looksAlive)
    case Advance(p) =>
      && p !in s.lock.dead && Inside(s, p)
      && !s.pcs[p].AcquireRead? && !s.pcs[p].ReleaseRead? && !s.pcs[p].Done?
    case TmuxFails(p) => p !in s.lock.dead && Inside(s, p) && IsTmuxCall(s.pcs[p])
  }

  /** Enabled, and nobody dies inside a window. */
  ghost predicate Legal(s: State, a: Action) {
    && Enabled(s, a)
    && (a.Locking? && a.a.Die? && Inside(s, a.a.p) ==> !InWindow(s.pcs[a.a.p]))
  }

  /** What the process does next once it has read and reaped the file. */
  function AfterRead(v: Server, pc: Pc, looksAlive: set<Holder>): Pc
    requires pc.AcquireRead? || pc.ReleaseRead?
  {
    if v.lease.None? then
      if pc.AcquireRead? then AcquireShow(pc.h) else ReleaseRemove(pc.id)
    else
      var alive := Reap(v.lease.value.holders, looksAlive);
      var originalMode := v.lease.value.originalMode;
      if pc.AcquireRead? then
        if alive == [] then AcquireRestore(pc.h, originalMode)
        else AcquireAppend(pc.h, LeaseFile(originalMode, alive + [pc.h]))
      else if alive == [] || Without(alive, pc.id) == [] then ReleaseRestore(pc.id, originalMode)
      else ReleaseRewrite(pc.id, LeaseFile(originalMode, Without(alive, pc.id)))
  }

  /** One tmux call or file operation: the server after it, and the next operation. */
  function Operate(v: Server, pc: Pc): (Server, Pc)
    requires !pc.AcquireRead? && !pc.ReleaseRead? && !pc.Done?
  {
    match pc
    case AcquireRestore(h, m) => (v.(mode := m), AcquireRemove(h))
    case AcquireRemove(h) => (v.(lease := None), AcquireShow(h))
    case AcquireShow(h) => (v, AcquireSetAlways(h, Recorded(v.mode)))
    case AcquireSetAlways(h, m) => (v.(mode := ALWAYS), AcquireCreate(h, m))
    case AcquireCreate(h, m) => (v.(lease := Some(LeaseFile(m, [h]))), Done)
    case AcquireAppend(h, f) => (v.(lease := Some(f)), Done)
    case ReleaseRestore(id, m) => (v.(mode := m), ReleaseRemove(id))
    case ReleaseRemove(id) => (v.(lease := None), Done)
    case ReleaseRewrite(id, f) => (v.(lease := Some(f)), Done)
  }

  function HeldAfter(held: set<Holder>, pc: Pc): set<Holder> {
    match pc
    case AcquireCreate(h, _) => held + {h}
    case AcquireAppend(h, _) => held + {h}
    case ReleaseRemove(id) => set h | h in held && h.id != id
    case ReleaseRewrite(id, _) => set h | h in held && h.id != id
    case _ => held
  }

  ghost function Apply(s: State, a: Action): State
    requires Enabled(s, a)
  {
    match a
    case BeginAcquire(p, h) =>
      s.(lock := Lock.Apply(s.lock, Lock.Begin(p)), pcs := s.pcs[p := AcquireRead(h)])
    case BeginRelease(p, id) =>
      s.(lock := Lock.Apply(s.lock, Lock.Begin(p)), pcs := s.pcs[p := ReleaseRead(id)])
    case Locking(l) => s.(lock := Lock.Apply(s.lock, l))
    case Read(p, looksAlive) => s.(pcs := s.pcs[p := AfterRead(s.server, s.pcs[p], looksAlive)])
    case Advance(p) =>
      var (server, pc) := Operate(s.server, s.pcs[p]);
      s.(server := server, pcs := s.pcs[p := pc], held := HeldAfter(s.held, s.pcs[p]))
    case TmuxFails(p) => s.(pcs := s.pcs[p := Done])
  }

  /** Any tmux call of a process inside the lock may fail, and it then does nothing more. */
  lemma AnyCallMayFail(s: State, p: Pid)
    requires p !in s.lock.dead && Inside(s, p) && IsTmuxCall(s.pcs[p])
    ensures Enabled(s, TmuxFails(p)) && Apply(s, TmuxFails(p)) == s.(pcs := s.pcs[p := Done])
  {
  }

  function Init(mode: string): State {
    State(Lock.Init(Lock.ExtendedKeys, Lock.EXTENDED_KEYS_MAX_ATTEMPTS), Server(mode, None), map[], {})
  }

  /** `Run(s, acts, strict)`: the state after acts, None if one was not enabled (not legal, if strict). */
  ghost function Run(s: State, acts: seq<Action>, strict: bool): Option<State>
    decreases |acts|
  {
    if acts == [] then Some(s)
    else
      var before := Run(s, acts[..|acts| - 1], strict);
      var a := acts[|acts| - 1];
      if before.Some? && Enabled(before.value, a) && (strict ==> Legal(before.value, a))
      then Some(Apply(before.value, a))
      else None
  }

  // ---------------------------------------------------------------- the invariant

  /** Every live unreleased lease whose id is not `except` is recorded among `holders`. */
  ghost predicate Covered(s: State, holders: seq<Holder>, except: Option<string>) {
    forall h :: h in s.held && Alive(s, h) && except != Some(h.id) ==> h in holders
  }

  /** The file's holders, of whom there are some, are leases acquired and not yet released, apart from
      the one being acquired. */
  ghost predicate Open(s: State, holders: seq<Holder>, acquiring: Option<Holder>) {
    holders != [] && forall h :: h in holders ==> h in s.held || acquiring == Some(h)
  }

  ghost predicate UsersMode(s: State, m0: string) {
    s.server.mode == m0 || s.server.mode == Recorded(m0)
  }

  /** What holds of the server whenever nobody is changing it. */
  ghost predicate AtRest(s: State, m0: string) {
    match s.server.lease
    case None => UsersMode(s, m0) && Covered(s, [], None)
    case Some(f) =>
      && s.server.mode == ALWAYS && f.originalMode == Recorded(m0)
      && Covered(s, f.holders, None) && Open(s, f.holders, None)
  }

  /** What holds of the server while the process inside the lock is about to do pc. */
  ghost predicate While(s: State, m0: string, pc: Pc) {
    match pc
    case AcquireRestore(_, m) => AtRest(s, m0) && s.server.lease.Some? && m == Recorded(m0) && Covered(s, [], None)
    case AcquireRemove(_) => s.server.mode == Recorded(m0) && Covered(s, [], None)
    case AcquireShow(_) => AtRest(s, m0) && s.server.lease.None?
    case AcquireSetAlways(_, m) => AtRest(s, m0) && s.server.lease.None? && m == Recorded(m0)
    case AcquireCreate(_, m) => s.server.mode == ALWAYS && m == Recorded(m0) && Covered(s, [], None)
    case AcquireAppend(h, f) =>
      && AtRest(s, m0) && s.server.lease.Some? && f.originalMode == Recorded(m0)
      && Covered(s, f.holders, None) && h in f.holders && Open(s, f.holders, Some(h))
    case ReleaseRestore(id, m) => AtRest(s, m0) && s.server.lease.Some? && m == Recorded(m0) && Covered(s, [], Some(id))
    case ReleaseRemove(id) => UsersMode(s, m0) && Covered(s, [], Some(id))
    case ReleaseRewrite(id, f) =>
      && AtRest(s, m0) && s.server.lease.Some? && f.originalMode == Recorded(m0)
      && Covered(s, f.holders, Some(id)) && Open(s, f.holders, None) && forall h :: h in f.holders ==> h.id != id
    case _ => AtRest(s, m0)
  }

  ghost predicate Inv(s: State, m0: string) {
    && Lock.Inv(s.lock)
    && (forall p: Pid :: p in s.lock.pcs ==> p in s.pcs)
    && (forall p: Pid :: p in s.lock.pcs && s.lock.pcs[p] != Lock.Inside ==> s.pcs[p].AcquireRead? || s.pcs[p].ReleaseRead?)
    && (forall p: Pid :: Inside(s, p) ==> While(s, m0, s.pcs[p]))
    && ((forall p: Pid :: !Inside(s, p)) ==> AtRest(s, m0))
  }

  lemma OnlyOneInside(s: State, p: Pid, q: Pid)
    requires Lock.Inv(s.lock) && Inside(s, p) && Inside(s, q)
    ensures p == q
  {
    assert Lock.InCriticalSection(s.lock, p) && Lock.InCriticalSection(s.lock, q);
  }

  lemma ReadKeepsInv(s: State, m0: string, p: Pid, looksAlive: set<Holder>)
    requires Inv(s, m0) && Enabled(s, Read(p, looksAlive))
    ensures Inv(Apply(s, Read(p, looksAlive)), m0)
  {
    var t := Apply(s, Read(p, looksAlive));
    assert While(s, m0, s.pcs[p]);
    if s.server.lease.Some? {
      var alive := Reap(s.server.lease.value.holders, looksAlive);
      assert Covered(t, alive, None);
    }
    assert While(t, m0, t.pcs[p]);
    assert Inside(t, p);
    forall q: Pid | Inside(t, q) ensures While(t, m0, t.pcs[q]) { OnlyOneInside(t, p, q); }
  }

  lemma AdvanceKeepsInv(s: State, m0: string, p: Pid)
    requires Inv(s, m0) && Enabled(s, Advance(p))
    ensures Inv(Apply(s, Advance(p)), m0)
  {
    var t := Apply(s, Advance(p));
    assert While(s, m0, s.pcs[p]);
    assert While(t, m0, t.pcs[p]);
    assert Inside(t, p);
    forall q: Pid | Inside(t, q) ensures While(t, m0, t.pcs[q]) { OnlyOneInside(t, p, q); }
  }

  lemma TmuxFailureKeepsInv(s: State, m0: string, p: Pid)
    requires Inv(s, m0) && Enabled(s, TmuxFails(p))
    ensures Inv(Apply(s, TmuxFails(p)), m0)
  {
    var t := Apply(s, TmuxFails(p));
    assert While(s, m0, s.pcs[p]) && While(t, m0, t.pcs[p]);
    assert Inside(t, p);
    forall q: Pid | Inside(t, q) ensures While(t, m0, t.pcs[q]) { OnlyOneInside(t, p, q); }
  }

  /** Deaths only make fewer leases count. */
  lemma Frame(s: State, t: State, m0: string, pc: Pc)
    requires s.server == t.server && s.held == t.held && s.lock.dead <= t.lock.dead
    ensures While(s, m0, pc) ==> While(t, m0, pc)
    ensures AtRest(s, m0) ==> AtRest(t, m0)
  {
  }

  lemma LockingKeepsWhile(s: State, m0: string, l: Lock.Action, q: Pid)
    requires Inv(s, m0) && Legal(s, Locking(l)) && Inside(Apply(s, Locking(l)), q)
    ensures var t := Apply(s, Locking(l)); While(t, m0, t.pcs[q])
  {
    var t := Apply(s, Locking(l));
    Frame(s, t, m0, t.pcs[q]);
    if Inside(s, q) {
      assert While(s, m0, s.pcs[q]);
    } else {
      assert l == Lock.WritePid(q);
      NobodyElseInside(s, q);
    }
  }

  lemma LockingKeepsInv(s: State, m0: string, l: Lock.Action)
    requires Inv(s, m0) && Legal(s, Locking(l))
    ensures Inv(Apply(s, Locking(l)), m0)
  {
    var t := Apply(s, Locking(l));
    Lock.StepKeepsInv(s.lock, l);
    forall q: Pid | Inside(t, q)
      ensures While(t, m0, t.pcs[q])
    {
      LockingKeepsWhile(s, m0, l, q);
    }
    if forall p: Pid :: !Inside(t, p) {
      LockingKeepsRest(s, m0, l);
    }
  }

  lemma LockingKeepsRest(s: State, m0: string, l: Lock.Action)
    requires Inv(s, m0) && Legal(s, Locking(l)) && forall p: Pid :: !Inside(Apply(s, Locking(l)), p)
    ensures AtRest(Apply(s, Locking(l)), m0)
  {
    var t := Apply(s, Locking(l));
    if p: Pid :| Inside(s, p) {
      assert While(s, m0, s.pcs[p]);
      assert !Inside(t, p);
      LeavesOnlyByItself(s, l, p);
    }
    assert AtRest(s, m0);
    Frame(s, t, m0, Done);
  }

  lemma NobodyElseInside(s: State, q: Pid)
    requires Lock.Inv(s.lock) && Lock.At(s.lock, q, Lock.Created)
    ensures forall p: Pid :: !Inside(s, p)
  {
    forall p: Pid ensures !Inside(s, p) {
      assert Lock.InCriticalSection(s.lock, q);
      if Inside(s, p) {
        assert Lock.InCriticalSection(s.lock, p);
      }
    }
  }

  /** Only its own leave or death takes a process out of the lock. */
  lemma LeavesOnlyByItself(s: State, l: Lock.Action, p: Pid)
    requires Inside(s, p) && Legal(s, Locking(l)) && !Inside(Apply(s, Locking(l)), p)
    ensures l == Lock.Leave(p) || l == Lock.Die(p)
  {
  }

  lemma BeginKeepsInv(s: State, m0: string, a: Action)
    requires Inv(s, m0) && Enabled(s, a) && (a.BeginAcquire? || a.BeginRelease?)
    ensures Inv(Apply(s, a), m0)
  {
    var t := Apply(s, a);
    Lock.StepKeepsInv(s.lock, Lock.Begin(a.p));
    Frame(s, t, m0, Done);
    forall q: Pid ensures Inside(t, q) == Inside(s, q) {}
    forall q: Pid | Inside(t, q) ensures While(t, m0, t.pcs[q]) { Frame(s, t, m0, s.pcs[q]); }
  }

  lemma StepKeepsInv(s: State, m0: string, a: Action)
    requires Inv(s, m0) && Legal(s, a)
    ensures Inv(Apply(s, a), m0)
  {
    match a
    case BeginAcquire(_, _) => BeginKeepsInv(s, m0, a);
    case BeginRelease(_, _) => BeginKeepsInv(s, m0, a);
    case Locking(l) => LockingKeepsInv(s, m0, l);
    case Read(p, looksAlive) => ReadKeepsInv(s, m0, p, looksAlive);
    case Advance(p) => AdvanceKeepsInv(s, m0, p);
    case TmuxFails(p) => TmuxFailureKeepsInv(s, m0, p);
  }

  lemma {:induction false} RunFromKeepsInv(s: State, m0: string, acts: seq<Action>)
    requires Inv(s, m0) && Run(s, acts, true).Some?
    ensures Inv(Run(s, acts, true).value, m0)
    decreases |acts|
  {
    if acts != [] {
      RunFromKeepsInv(s, m0, acts[..|acts| - 1]);
      StepKeepsInv(Run(s, acts[..|acts| - 1], true).value, m0, acts[|acts| - 1]);
    }
  }

  lemma RunKeepsInv(m0: string, acts: seq<Action>)
    requires Run(Init(m0), acts, true).Some?
    ensures Inv(Run(Init(m0), acts, true).value, m0)
  {
    RunFromKeepsInv(Init(m0), m0, acts);
  }

  // ---------------------------------------------------------------- what it gives

  /** Without a lease file the server has the user's mode and no live lease is open; with one, the
      file remembers that mode, the server is at `always`, its holders are leases acquired and not
      released, at least one, and every such lease that is alive is among them. */
  ghost predicate Safe(s: State, m0: string) {
    match s.server.lease
    case None => s.server.mode == m0 && forall h :: h in s.held ==> !Alive(s, h)
    case Some(f) =>
      && f.originalMode == m0
      && s.server.mode == ALWAYS
      && f.holders != [] && (forall h :: h in f.holders ==> h in s.held)
      && forall h :: h in s.held && Alive(s, h) ==> h in f.holders
  }

  /** Every lease released: there is no file, and the user has the mode back. */
  lemma NothingHeldNothingLeft(m0: string, acts: seq<Action>)
    requires m0 != "" && Run(Init(m0), acts, true).Some?
    requires var s := Run(Init(m0), acts, true).value; s.lock.dir.None? && s.held == {}
    ensures Run(Init(m0), acts, true).value.server == Server(m0, None)
  {
    var s := Run(Init(m0), acts, true).value;
    LeaseIsSafeWhenLockIsFree(m0, acts);
    if s.server.lease.Some? {
      FileHasALease(s, m0);
    }
  }

  lemma FileHasALease(s: State, m0: string)
    requires Safe(s, m0) && s.server.lease.Some?
    ensures exists h :: h in s.held
  {
    assert s.server.lease.value.holders[0] in s.held;
  }

  lemma RestWhenLockIsFree(s: State, m0: string)
    requires Inv(s, m0) && s.lock.dir.None?
    ensures AtRest(s, m0) && forall p: Pid :: !Inside(s, p)
  {
    forall p: Pid ensures !Inside(s, p) {
      assert !Lock.InCriticalSection(s.lock, p);
    }
  }

  /** Whenever the lock is free, option, file and live leases fit together. */
  lemma LeaseIsSafeWhenLockIsFree(m0: string, acts: seq<Action>)
    requires m0 != "" && Run(Init(m0), acts, true).Some?
    requires Run(Init(m0), acts, true).value.lock.dir.None?
    ensures Safe(Run(Init(m0), acts, true).value, m0)
  {
    RunKeepsInv(m0, acts);
    RestWhenLockIsFree(Run(Init(m0), acts, true).value, m0);
  }

  /** A user whose option reads empty: the live leases are as safe as any, but with a file the mode
      it remembers is the fallback. */
  lemma EmptyModeBecomesFallback(acts: seq<Action>)
    requires Run(Init(""), acts, true).Some?
    requires Run(Init(""), acts, true).value.lock.dir.None?
    ensures var s := Run(Init(""), acts, true).value;
            if s.server.lease.None? && s.server.mode == "" then Safe(s, "") else Safe(s, FALLBACK)
  {
    RunKeepsInv("", acts);
    RestWhenLockIsFree(Run(Init(""), acts, true).value, "");
  }

  /** Once such a user's server has had a lease file, the fallback is the mode for good. */
  lemma FallbackFromThenOn(acts: seq<Action>, more: seq<Action>)
    requires Run(Init(""), acts, true).Some?
    requires var s := Run(Init(""), acts, true).value; s.lock.dir.None? && s.server.lease.Some?
    requires var r := Run(Run(Init(""), acts, true).value, more, true); r.Some? && r.value.lock.dir.None?
    ensures Safe(Run(Run(Init(""), acts, true).value, more, true).value, FALLBACK)
  {
    var s := Run(Init(""), acts, true).value;
    RunKeepsInv("", acts);
    RestWhenLockIsFree(s, "");
    assert Inv(s, FALLBACK);
    RunFromKeepsInv(s, FALLBACK, more);
    RestWhenLockIsFree(Run(s, more, true).value, FALLBACK);
  }

  /** In every reachable state, even in the middle of somebody's critical section: a live lease
      that is not itself being released has the option at `always`. So no release and no reaping
      of other leases ever turns the mode off under it. */
  lemma NoOneTurnsTheModeOff(m0: string, acts: seq<Action>, h: Holder)
    requires Run(Init(m0), acts, true).Some?
    requires var s := Run(Init(m0), acts, true).value;
             && h in s.held && Alive(s, h)
             && forall p: Pid :: Inside(s, p) ==> s.pcs[p] != ReleaseRemove(h.id)
    ensures Run(Init(m0), acts, true).value.server.mode == ALWAYS
  {
    RunKeepsInv(m0, acts);
    var s := Run(Init(m0), acts, true).value;
    if p: Pid :| Inside(s, p) {
      assert While(s, m0, s.pcs[p]);
    }
  }

  // ---------------------------------------------------------------- one critical section

  /** How many operations a process has left. */
  function Left(pc: Pc): nat {
    match pc
    case AcquireRead(_) => 6
    case AcquireRestore(_, _) => 5
    case AcquireRemove(_) => 4
    case AcquireShow(_) => 3
    case AcquireSetAlways(_, _) => 2
    case AcquireCreate(_, _) => 1
    case AcquireAppend(_, _) => 1
    case ReleaseRead(_) => 3
    case ReleaseRestore(_, _) => 2
    case ReleaseRemove(_) => 1
    case ReleaseRewrite(_, _) => 1
    case Done => 0
  }

  /** The server after a process has carried out all its operations without a failure. */
  function Finish(v: Server, pc: Pc): Server
    requires !pc.AcquireRead? && !pc.ReleaseRead?
    decreases Left(pc)
  {
    if pc.Done? then v
    else
      var (server, next) := Operate(v, pc);
      Finish(server, next)
  }

  /** The operations of one undisturbed critical section add up to the methods of TmuxServer. */
  lemma AcquireOperationsAreTheMethod(v: Server, h: Holder, looksAlive: set<Holder>)
    ensures Finish(v, AfterRead(v, AcquireRead(h), looksAlive)) == AcquireEffect(v, h, looksAlive)
  {
    var first := AfterRead(v, AcquireRead(h), looksAlive);
    match first
    case AcquireRestore(_, m) =>
      var v1 := v.(mode := m);
      FinishFromShow(v1.(lease := None), h);
      assert Finish(v, first) == Finish(v1, AcquireRemove(h)) == Finish(v1.(lease := None), AcquireShow(h));
    case AcquireShow(_) => FinishFromShow(v, h);
    case AcquireAppend(_, f) => assert Finish(v, first) == Finish(v.(lease := Some(f)), Done);
  }

  lemma ReleaseOperationsAreTheMethod(v: Server, id: string, looksAlive: set<Holder>)
    ensures Finish(v, AfterRead(v, ReleaseRead(id), looksAlive)) == ReleaseEffect(v, id, looksAlive)
  {
    var first := AfterRead(v, ReleaseRead(id), looksAlive);
    match first
    case ReleaseRestore(_, m) =>
      var v1 := v.(mode := m);
      assert Finish(v, first) == Finish(v1, ReleaseRemove(id)) == Finish(v1.(lease := None), Done);
    case ReleaseRemove(_) => assert Finish(v, first) == Finish(v.(lease := None), Done);
    case ReleaseRewrite(_, f) => assert Finish(v, first) == Finish(v.(lease := Some(f)), Done);
  }

  lemma FinishFromShow(v: Server, h: Holder)
    ensures Finish(v, AcquireShow(h)) == Server(ALWAYS, Some(LeaseFile(Recorded(v.mode), [h])))
  {
    var m := Recorded(v.mode);
    var v1 := v.(mode := ALWAYS);
    assert Finish(v, AcquireShow(h)) == Finish(v, AcquireSetAlways(h, m)) == Finish(v1, AcquireCreate(h, m));
    assert Finish(v1, AcquireCreate(h, m)) == Finish(v1.(lease := Some(LeaseFile(m, [h]))), Done);
  }

  // ---------------------------------------------------------------- the deaths that are excluded

  lemma RunSnoc(s: State, init: seq<Action>, a: Action, strict: bool)
    ensures Run(s, init + [a], strict) ==
            var r := Run(s, init, strict);
            if r.Some? && Enabled(r.value, a) && (strict ==> Legal(r.value, a)) then Some(Apply(r.value, a)) else None
  {
    assert (init + [a])[..|init|] == init;
  }

  /** Extends a run by one enabled (legal, if strict) action. */
  lemma Do(s0: State, acts: seq<Action>, s: State, a: Action, strict: bool)
    returns (acts': seq<Action>, s': State)
    requires Run(s0, acts, strict) == Some(s) && Enabled(s, a) && (strict ==> Legal(s, a))
    ensures Run(s0, acts', strict) == Some(s') && s' == Apply(s, a)
  {
    RunSnoc(s0, acts, a, strict);
    acts', s' := acts + [a], Apply(s, a);
  }

  /** p takes the free lock. */
  lemma TakeLock(s0: State, acts: seq<Action>, s: State, p: Pid, begin: Action, strict: bool)
    returns (acts': seq<Action>, s': State)
    requires Run(s0, acts, strict) == Some(s) && Enabled(s, begin)
    requires begin.BeginAcquire? || begin.BeginRelease?
    requires begin.p == p && s.lock.dir.None? && s.lock.maxAttempts == 100
    ensures Run(s0, acts', strict) == Some(s')
    ensures s' == s.(lock := s.lock.(dir := Some(Lock.LockDir(p, Some(p), false)), pcs := s.lock.pcs[p := Lock.Inside]),
                     pcs := s.pcs[p := if begin.BeginAcquire? then AcquireRead(begin.h) else ReleaseRead(begin.id)])
  {
    acts', s' := Do(s0, acts, s, begin, strict);
    acts', s' := Do(s0, acts', s', Locking(Lock.Mkdir(p)), strict);
    acts', s' := Do(s0, acts', s', Locking(Lock.WritePid(p)), strict);
    assert s'.lock.pcs == s.lock.pcs[p := Lock.Inside];
  }

  /** The process inside dies; another one finds the old directory and removes it. */
  lemma DieAndBreakLock(s0: State, acts: seq<Action>, s: State, p: Pid, q: Pid)
    returns (acts': seq<Action>, s': State)
    requires Run(s0, acts, false) == Some(s) && p != q && p !in s.lock.dead && q !in s.lock.dead && q !in s.lock.pcs
    requires s.lock.dir == Some(Lock.LockDir(p, Some(p), false))
    requires s.lock.maxAttempts == 100 && s.lock.rule == Lock.ExtendedKeys
    ensures Run(s0, acts', false) == Some(s')
    ensures s'.lock.dir.None? && s'.server == s.server && s'.held == s.held
    ensures s'.lock.dead == s.lock.dead + {p} && s'.lock.maxAttempts == 100
    ensures s'.lock.pcs.Keys == s.lock.pcs.Keys - {p} + {q}
  {
    acts', s' := Do(s0, acts, s, Locking(Lock.Die(p)), false);
    acts', s' := Do(s0, acts', s', Locking(Lock.GrowOld), false);
    acts', s' := Do(s0, acts', s', BeginRelease(q, ""), false);
    acts', s' := Do(s0, acts', s', Locking(Lock.Mkdir(q)), false);
    acts', s' := Do(s0, acts', s', Locking(Lock.Inspect(q, {})), false);
  }

  /** Dying between set-option and the first write of the file: the lock becomes free again, and
      there is no file, but the server is at `always` and nobody remembers the user's mode. */
  lemma DeathLosesTheUsersMode(m0: string) returns (acts: seq<Action>)
    requires m0 != "" && m0 != ALWAYS
    ensures var r := Run(Init(m0), acts, false);
            r.Some? && r.value.lock.dir.None? && r.value.server == Server(ALWAYS, None) && r.value.held == {}
  {
    var s := Init(m0);
    acts, s := TakeLock(Init(m0), [], s, 1, BeginAcquire(1, Holder("a", 1)), false);
    acts, s := Do(Init(m0), acts, s, Read(1, {}), false);
    acts, s := Do(Init(m0), acts, s, Advance(1), false);
    acts, s := Do(Init(m0), acts, s, Advance(1), false);
    acts, s := DieAndBreakLock(Init(m0), acts, s, 1, 2);
  }

  /** An undisturbed first acquire of h by p. */
  lemma FirstAcquire(m0: string, p: Pid, h: Holder, strict: bool) returns (acts: seq<Action>, s: State)
    ensures Run(Init(m0), acts, strict) == Some(s)
    ensures s.lock == Init(m0).lock && s.server == Server(ALWAYS, Some(LeaseFile(Recorded(m0), [h]))) && s.held == {h}
  {
    acts, s := TakeLock(Init(m0), [], Init(m0), p, BeginAcquire(p, h), strict);
    acts, s := Do(Init(m0), acts, s, Read(p, {}), strict);
    acts, s := Do(Init(m0), acts, s, Advance(p), strict);
    acts, s := Do(Init(m0), acts, s, Advance(p), strict);
    acts, s := Do(Init(m0), acts, s, Advance(p), strict);
    acts, s := Do(Init(m0), acts, s, Locking(Lock.Leave(p)), strict);
  }

  /** An undisturbed release of the only lease: the option gets the recorded mode m. */
  lemma OnlyRelease(s0: State, acts: seq<Action>, s: State, p: Pid, h: Holder, m: string, strict: bool)
    returns (acts': seq<Action>, s': State)
    requires Run(s0, acts, strict) == Some(s) && s.lock == Init(m).lock
    requires s.server == Server(ALWAYS, Some(LeaseFile(m, [h]))) && s.held == {h}
    ensures Run(s0, acts', strict) == Some(s')
    ensures s'.lock.dir.None? && s'.server == Server(m, None) && s'.held == {}
  {
    FilterOne(h, Among({h}));
    FilterOne(h, OtherThan(h.id));
    acts', s' := TakeLock(s0, acts, s, p, BeginRelease(p, h.id), strict);
    acts', s' := Do(s0, acts', s', Read(p, {h}), strict);
    acts', s' := Do(s0, acts', s', Advance(p), strict);
    acts', s' := Do(s0, acts', s', Advance(p), strict);
    acts', s' := Do(s0, acts', s', Locking(Lock.Leave(p)), strict);
  }

  /** An undisturbed acquire and release, nobody dying: the user's empty mode is gone. */
  lemma EmptyModeIsLost() returns (acts: seq<Action>)
    ensures var r := Run(Init(""), acts, true);
            r.Some? && r.value.lock.dir.None? && r.value.server == Server(FALLBACK, None) && r.value.held == {}
  {
    var s, h := Init(""), Holder("a", 1);
    acts, s := FirstAcquire("", 1, h, true);
    acts, s := OnlyRelease(Init(""), acts, s, 1, h, FALLBACK, true);
  }

  /** So the lease is safe in every run exactly for the users whose mode does not read empty. */
  lemma SafeExactlyWhen(m0: string)
    ensures m0 != "" <==>
              forall acts :: Run(Init(m0), acts, true).Some? && Run(Init(m0), acts, true).value.lock.dir.None?
                             ==> Safe(Run(Init(m0), acts, true).value, m0)
  {
    if m0 != "" {
      forall acts | Run(Init(m0), acts, true).Some? && Run(Init(m0), acts, true).value.lock.dir.None?
        ensures Safe(Run(Init(m0), acts, true).value, m0)
      {
        LeaseIsSafeWhenLockIsFree(m0, acts);
      }
    } else {
      var acts := EmptyModeIsLost();
      assert !Safe(Run(Init(""), acts, true).value, "");
    }
  }

  /** p starts releasing the only lease and has set the option back. */
  lemma HalfRelease(s0: State, acts: seq<Action>, s: State, p: Pid, h: Holder, m0: string)
    returns (acts': seq<Action>, s': State)
    requires Run(s0, acts, false) == Some(s) && s.lock == Init(m0).lock
    requires s.server == Server(ALWAYS, Some(LeaseFile(m0, [h])))
    ensures Run(s0, acts', false) == Some(s')
    ensures s'.server == s.server.(mode := m0) && s'.held == s.held
    ensures s'.lock == s.lock.(dir := Some(Lock.LockDir(p, Some(p), false)), pcs := map[p := Lock.Inside])
  {
    acts', s' := TakeLock(s0, acts, s, p, BeginRelease(p, h.id), false);
    FilterOne(h, Among({h}));
    FilterOne(h, OtherThan(h.id));
    acts', s' := Do(s0, acts', s', Read(p, {h}), false);
    acts', s' := Do(s0, acts', s', Advance(p), false);
  }

  /** p joins the file that names h, without touching the option. */
  lemma JoiningAcquire(s0: State, acts: seq<Action>, s: State, p: Pid, h: Holder, g: Holder)
    returns (acts': seq<Action>, s': State)
    requires Run(s0, acts, false) == Some(s) && s.lock.dir.None? && s.lock.maxAttempts == 100
    requires p !in s.lock.dead && p !in s.lock.pcs
    requires s.server.lease.Some? && s.server.lease.value.holders == [h]
    ensures Run(s0, acts', false) == Some(s') && s'.lock.dir.None? && s'.lock.dead == s.lock.dead
    ensures s'.server.mode == s.server.mode && g in s'.held
  {
    FilterOne(h, Among({h}));
    acts', s' := TakeLock(s0, acts, s, p, BeginAcquire(p, g), false);
    acts', s' := Do(s0, acts', s', Read(p, {h}), false);
    acts', s' := Do(s0, acts', s', Advance(p), false);
    acts', s' := Do(s0, acts', s', Locking(Lock.Leave(p)), false);
  }

  /** Dying between the last release's set-option and its removal of the file, while the owner
      lives on: the next acquire joins the old file, and a live lease has the mode off. */
  lemma DeathTurnsTheModeOff(m0: string) returns (acts: seq<Action>)
    requires m0 != "" && m0 != ALWAYS
    ensures var r := Run(Init(m0), acts, false);
            r.Some? && r.value.lock.dir.None? && r.value.server.mode == m0
            && exists h :: h in r.value.held && Alive(r.value, h)
  {
    var s0, s, h, g := Init(m0), Init(m0), Holder("a", 7), Holder("b", 8);
    acts, s := FirstAcquire(m0, 1, h, false);
    acts, s := HalfRelease(s0, acts, s, 2, h, m0);
    acts, s := DieAndBreakLock(s0, acts, s, 2, 3);
    acts, s := JoiningAcquire(s0, acts, s, 4, h, g);
    assert g in s.held && Alive(s, g);
  }

  /** Dying between reaping's set-option and its removal of the file: if the dead holder's pid has
      been reused it looks alive again, the next acquire joins its file, and the mode is off. */
  lemma DeathWhileReapingTurnsTheModeOff(m0: string) returns (acts: seq<Action>)
    requires m0 != "" && m0 != ALWAYS
    ensures var r := Run(Init(m0), acts, false);
            r.Some? && r.value.lock.dir.None? && r.value.server.mode == m0
            && exists h :: h in r.value.held && Alive(r.value, h)
  {
    var s0, s, h, g := Init(m0), Init(m0), Holder("a", 7), Holder("b", 8);
    acts, s := FirstAcquire(m0, 1, h, false);
    acts, s := HalfReap(s0, acts, s, 2, h, m0);
    acts, s := DieAndBreakLock(s0, acts, s, 2, 3);
    acts, s := JoiningAcquire(s0, acts, s, 4, h, g);
    assert g in s.held && Alive(s, g);
  }

  /** The owner of the only lease dies, and p has reaped it and set the option back. */
  lemma HalfReap(s0: State, acts: seq<Action>, s: State, p: Pid, h: Holder, m0: string)
    returns (acts': seq<Action>, s': State)
    requires Run(s0, acts, false) == Some(s) && s.lock == Init(m0).lock && p != h.owner
    requires s.server == Server(ALWAYS, Some(LeaseFile(m0, [h])))
    ensures Run(s0, acts', false) == Some(s')
    ensures s'.server == s.server.(mode := m0)
    ensures s'.lock == s.lock.(dir := Some(Lock.LockDir(p, Some(p), false)), pcs := map[p := Lock.Inside], dead := {h.owner})
  {
    acts', s' := Do(s0, acts, s, Locking(Lock.Die(h.owner)), false);
    assert s'.lock.pcs == map[];
    acts', s' := TakeLock(s0, acts', s', p, BeginAcquire(p, Holder("c", p)), false);
    FilterOne(h, Among({}));
    acts', s' := Do(s0, acts', s', Read(p, {}), false);
    acts', s' := Do(s0, acts', s', Advance(p), false);
  }
}
