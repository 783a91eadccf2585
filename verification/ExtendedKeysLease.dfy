/**
 What acquiring and releasing an extended-keys lease does to a tmux server, when nothing else
 runs in between (src/cli/index.ts, the two closures passed to the lease lock).
 */
module ExtendedKeysLease {
  import opened Wrappers
  import opened MkdirLock

  /** `owner` is the process whose death ends the lease. */
  datatype Holder = Holder(id: string, owner: Pid)

  datatype LeaseFile = LeaseFile(originalMode: string, holders: seq<Holder>)

  datatype Server = Server(mode: string, lease: Option<LeaseFile>)

  const ALWAYS := "always"
  const FALLBACK := "off"

  /** An unset option is recorded as the fallback mode. */
  function Recorded(mode: string): string {
    if mode == "" then FALLBACK else mode
  }

  /** The holders that pass the test, in their order. */
  function Filter(holders: seq<Holder>, keep: Holder -> bool): (r: seq<Holder>)
    ensures forall h :: h in r <==> h in holders && keep(h)
  {
    if holders == [] then []
    else (if keep(holders[0]) then [holders[0]] else []) + Filter(holders[1..], keep)
  }

  function Among(hs: set<Holder>): Holder -> bool {
    h => h in hs
  }

  function OtherThan(id: string): Holder -> bool {
    (h: Holder) => h.id != id
  }

  function Reap(holders: seq<Holder>, looksAlive: set<Holder>): (r: seq<Holder>)
    ensures forall h :: h in r <==> h in holders && h in looksAlive
  {
    Filter(holders, Among(looksAlive))
  }

  function Without(holders: seq<Holder>, id: string): (r: seq<Holder>)
    ensures forall h: Holder :: h in r <==> h in holders && h.id != id
  {
    Filter(holders, OtherThan(id))
  }

  function AcquireEffect(v: Server, h: Holder, looksAlive: set<Holder>): Server {
    if v.lease.Some? && Reap(v.lease.value.holders, looksAlive) != [] then
      v.(lease := Some(v.lease.value.(holders := Reap(v.lease.value.holders, looksAlive) + [h])))
    else
      var previous := if v.lease.Some? then v.lease.value.originalMode else v.mode;
      Server(ALWAYS, Some(LeaseFile(Recorded(previous), [h])))
  }

  function ReleaseEffect(v: Server, id: string, looksAlive: set<Holder>): Server {
    if v.lease.None? then v
    else
      var rest := Without(Reap(v.lease.value.holders, looksAlive), id);
      if rest == [] then Server(v.lease.value.originalMode, None)
      else v.(lease := Some(v.lease.value.(holders := rest)))
  }

  /** A tmux server and the lease file kept for it. */
  class TmuxServer {
    var mode: string
    var lease: Option<LeaseFile>

    function View(): Server
      reads this
    {
      Server(mode, lease)
    }

    constructor (mode: string)
      ensures View() == Server(mode, None)
    {
      this.mode := mode;
      lease := None;
    }

    /** The critical section of acquireTmuxExtendedKeysLease. */
    method Acquire(h: Holder, looksAlive: set<Holder>)
      modifies this
      ensures View() == AcquireEffect(old(View()), h, looksAlive)
    {
      var raw := lease;
      var holders: seq<Holder> := [];
      if raw.Some? {
        holders := Reap(raw.value.holders, looksAlive);
        if |holders| == 0 {
          mode := raw.value.originalMode;
          lease := None;
        }
      }
      if raw.None? || |holders| == 0 {
        var previousMode := if mode == "" then FALLBACK else mode;
        mode := ALWAYS;
        lease := Some(LeaseFile(previousMode, [h]));
        return;
      }
      holders := holders + [h];
      lease := Some(LeaseFile(raw.value.originalMode, holders));
    }

    /** The critical section of releaseTmuxExtendedKeysLease. */
    method Release(id: string, looksAlive: set<Holder>)
      modifies this
      ensures View() == ReleaseEffect(old(View()), id, looksAlive)
    {
      var raw := lease;
      var alive := if raw.Some? then Reap(raw.value.holders, looksAlive) else [];
      if raw.None? || |alive| == 0 {
        if raw.Some? {
          mode := raw.value.originalMode;
        }
        lease := None;
        return;
      }
      var holders := Without(alive, id);
      if |holders| > 0 {
        lease := Some(LeaseFile(raw.value.originalMode, holders));
        return;
      }
      mode := raw.value.originalMode;
      lease := None;
    }
  }

  /** The holders of a lease file; none without one. */
  function HoldersOf(v: Server): seq<Holder> {
    if v.lease.Some? then v.lease.value.holders else []
  }

  /** What a release leaves, for any lease whatever its place in the file: the holders that look alive
      and have another id, each as often as before and in the old order. The mode comes back exactly
      with the last of them. */
  lemma ReleaseLeaves(v: Server, id: string, looksAlive: set<Holder>)
    ensures var w := ReleaseEffect(v, id, looksAlive);
            && (forall h :: multiset(HoldersOf(w))[h] == if h in looksAlive && h.id != id then multiset(HoldersOf(v))[h] else 0)
            && (forall i, j :: 0 <= i < j < |HoldersOf(w)| ==> Precedes(HoldersOf(v), HoldersOf(w)[i], HoldersOf(w)[j]))
            && (w.lease.None? <==> forall h :: h in HoldersOf(v) ==> h !in looksAlive || h.id == id)
            && (w.lease.Some? ==> w.mode == v.mode && w.lease.value.originalMode == v.lease.value.originalMode)
            && (v.lease.Some? && w.lease.None? ==> w.mode == v.lease.value.originalMode)
            && (v.lease.None? ==> w.mode == v.mode)
  {
    if v.lease.Some? {
      RestIs(v.lease.value.holders, id, looksAlive);
    }
  }

  lemma RestIs(holders: seq<Holder>, id: string, looksAlive: set<Holder>)
    ensures var rest := Without(Reap(holders, looksAlive), id);
            && (forall h :: multiset(rest)[h] == if h in looksAlive && h.id != id then multiset(holders)[h] else 0)
            && (forall i, j :: 0 <= i < j < |rest| ==> Precedes(holders, rest[i], rest[j]))
            && (rest == [] <==> forall h :: h in holders ==> h !in looksAlive || h.id == id)
  {
    var keep := (h: Holder) => h in looksAlive && h.id != id;
    var rest := Without(Reap(holders, looksAlive), id);
    FilterTwice(holders, Among(looksAlive), OtherThan(id), keep);
    FilterCounts(holders, keep);
    forall i, j | 0 <= i < j < |rest| ensures Precedes(holders, rest[i], rest[j]) {
      FilterKeepsOrder(holders, keep, i, j);
    }
    if rest != [] {
      assert rest[0] in holders;
    }
  }

  /** What an acquire leaves: the holders that look alive and, behind them, the new one. If there are
      none of the old ones the option is switched on, and the file records the mode that the dead
      holders' file, or else the option, had. */
  lemma AcquireAdds(v: Server, h: Holder, looksAlive: set<Holder>)
    ensures var w := AcquireEffect(v, h, looksAlive);
            var joins := exists g :: g in HoldersOf(v) && g in looksAlive;
            var n := |HoldersOf(w)| - 1;
            && w.lease.Some? && n >= 0 && HoldersOf(w)[n] == h
            && (forall g :: multiset(HoldersOf(w)[..n])[g] == if g in looksAlive then multiset(HoldersOf(v))[g] else 0)
            && (forall i, j :: 0 <= i < j < n ==> Precedes(HoldersOf(v), HoldersOf(w)[i], HoldersOf(w)[j]))
            && w.mode == (if joins then v.mode else "always")
            && w.lease.value.originalMode ==
               (if joins then v.lease.value.originalMode
                else var mode := if v.lease.Some? then v.lease.value.originalMode else v.mode; if mode == "" then "off" else mode)
  {
    if v.lease.Some? {
      var before, alive := v.lease.value.holders, Reap(v.lease.value.holders, looksAlive);
      FilterCounts(before, Among(looksAlive));
      forall i, j | 0 <= i < j < |alive| ensures Precedes(before, alive[i], alive[j]) {
        FilterKeepsOrder(before, Among(looksAlive), i, j);
      }
      if alive != [] {
        assert alive[0] in before && alive[0] in looksAlive;
        assert (alive + [h])[..|alive|] == alive;
      }
    }
  }

  /** g stands somewhere before h. */
  ghost predicate Precedes(s: seq<Holder>, g: Holder, h: Holder) {
    exists i, j :: 0 <= i < j < |s| && s[i] == g && s[j] == h
  }

  lemma {:induction false} FilterTwice(s: seq<Holder>, first: Holder -> bool, second: Holder -> bool, both: Holder -> bool)
    requires forall h :: both(h) == (first(h) && second(h))
    ensures Filter(Filter(s, first), second) == Filter(s, both)
  {
    if s != [] {
      var head := if first(s[0]) then [s[0]] else [];
      FilterTwice(s[1..], first, second, both);
      FilterOne(s[0], second);
      FilterConcat(head, Filter(s[1..], first), second);
      assert Filter(s, first) == head + Filter(s[1..], first);
    }
  }

  lemma {:induction false} FilterCounts(s: seq<Holder>, keep: Holder -> bool)
    ensures forall h :: multiset(Filter(s, keep))[h] == if keep(h) then multiset(s)[h] else 0
  {
    if s != [] {
      FilterCounts(s[1..], keep);
      assert s == [s[0]] + s[1..];
    }
  }

  lemma {:induction false} FilterKeepsOrder(s: seq<Holder>, keep: Holder -> bool, i: nat, j: nat)
    requires i < j < |Filter(s, keep)|
    ensures Precedes(s, Filter(s, keep)[i], Filter(s, keep)[j])
  {
    var kept, later := Filter(s, keep), Filter(s[1..], keep);
    if !keep(s[0]) {
      assert kept == later;
      FilterKeepsOrder(s[1..], keep, i, j);
      PrecedesInMore(s, kept[i], kept[j]);
    } else {
      assert kept == [s[0]] + later;
      if i > 0 {
        FilterKeepsOrder(s[1..], keep, i - 1, j - 1);
        PrecedesInMore(s, kept[i], kept[j]);
      } else {
        assert later[j - 1] in s[1..];
        FirstPrecedes(s, kept[j]);
      }
    }
  }

  lemma PrecedesInMore(s: seq<Holder>, g: Holder, h: Holder)
    requires s != [] && Precedes(s[1..], g, h)
    ensures Precedes(s, g, h)
  {
    var i, j :| 0 <= i < j < |s[1..]| && s[1..][i] == g && s[1..][j] == h;
    assert s[i + 1] == g && s[j + 1] == h;
  }

  lemma FirstPrecedes(s: seq<Holder>, h: Holder)
    requires s != [] && h in s[1..]
    ensures Precedes(s, s[0], h)
  {
    var j :| 0 <= j < |s[1..]| && s[1..][j] == h;
    assert s[0] == s[0] && s[j + 1] == h;
  }

  /** The reference count in one statement: releasing what was just acquired gives back the
      server as the reaping alone would have left it. */
  lemma ReleaseUndoesAcquire(v: Server, h: Holder, looksAlive: set<Holder>)
    requires h in looksAlive
    requires v.lease.Some? ==> forall g :: g in v.lease.value.holders ==> g.id != h.id
    ensures var w := ReleaseEffect(AcquireEffect(v, h, looksAlive), h.id, looksAlive);
            if v.lease.None? then w == Server(Recorded(v.mode), None)
            else if Reap(v.lease.value.holders, looksAlive) == []
            then w == Server(Recorded(v.lease.value.originalMode), None)
            else w == v.(lease := Some(v.lease.value.(holders := Reap(v.lease.value.holders, looksAlive))))
  {
    FilterOne(h, Among(looksAlive));
    FilterOne(h, OtherThan(h.id));
    if v.lease.Some? {
      var reaped := Reap(v.lease.value.holders, looksAlive);
      FilterAll(reaped, Among(looksAlive));
      FilterConcat(reaped, [h], Among(looksAlive));
      FilterAll(reaped, OtherThan(h.id));
      FilterConcat(reaped, [h], OtherThan(h.id));
      assert reaped + [] == reaped;
    }
  }

  lemma FilterOne(h: Holder, keep: Holder -> bool)
    ensures Filter([h], keep) == if keep(h) then [h] else []
  {
    assert [h][1..] == [];
  }

  lemma FilterAll(s: seq<Holder>, keep: Holder -> bool)
    requires forall h :: h in s ==> keep(h)
    ensures Filter(s, keep) == s
  {
  }

  lemma FilterConcat(a: seq<Holder>, b: seq<Holder>, keep: Holder -> bool)
    ensures Filter(a + b, keep) == Filter(a, keep) + Filter(b, keep)
  {
    if a == [] {
      assert a + b == b;
    } else {
      assert (a + b)[1..] == a[1..] + b;
      FilterConcat(a[1..], b, keep);
    }
  }
}
