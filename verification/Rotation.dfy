/**
 The rotation order of src/auth/rotation.ts. The slot names come sorted; sorting them is an input.
 */
module Rotation {
  import opened Wrappers

  datatype Mode = Manual | Priority | RoundRobin

  datatype Plan = Plan(mode: Mode, order: seq<string>)

  /** The elements of s that are in (or, with keep false, not in) t, in their order. */
  function Filtered(s: seq<string>, t: seq<string>, keep: bool): (r: seq<string>)
    ensures forall x :: x in r <==> x in s && ((x in t) <==> keep)
  {
    if s == [] then []
    else (if (s[0] in t) == keep then [s[0]] else []) + Filtered(s[1..], t, keep)
  }

  /** The first position of x. */
  function IndexOf(s: seq<string>, x: string): (i: nat)
    requires x in s
    ensures i < |s| && s[i] == x && x !in s[..i]
  {
    if s[0] == x then 0
    else
      var i := IndexOf(s[1..], x);
      assert s[..i + 1] == [s[0]] + s[1..][..i];
      i + 1
  }

  /** buildRotationPlan; `available` are the slot names in their sorted order. */
  function BuildRotationPlan(available: seq<string>, mode: Mode, priority: seq<string>, currentSlot: Option<string>): Plan {
    match mode
    case Manual =>
      Plan(Manual, if currentSlot.Some? && currentSlot.value != "" then [currentSlot.value]
                   else if available == [] then [] else available[..1])
    case Priority =>
      Plan(Priority, Filtered(priority, available, true) + Filtered(available, priority, false))
    case RoundRobin =>
      if currentSlot.None? || currentSlot.value == "" || currentSlot.value !in available then Plan(RoundRobin, available)
      else
        var index := IndexOf(available, currentSlot.value);
        Plan(RoundRobin, available[index..] + available[..index])
  }

  /** Position p, counted round and round. */
  function Cyclic(s: seq<string>, p: nat): string
    requires s != []
  {
    s[p % |s|]
  }

  lemma CyclicWraps(s: seq<string>, p: nat)
    requires s != [] && p < 2 * |s|
    ensures Cyclic(s, p) == if p < |s| then s[p] else s[p - |s|]
  {
    if p >= |s| {
      assert p == |s| + (p - |s|);
    }
  }

  /** Except in manual mode the plan covers exactly the available slots. */
  lemma PlanCoversAvailable(available: seq<string>, mode: Mode, priority: seq<string>, currentSlot: Option<string>)
    requires mode != Manual
    ensures forall x :: x in BuildRotationPlan(available, mode, priority, currentSlot).order <==> x in available
  {
    if mode == RoundRobin && currentSlot.Some? && currentSlot.value != "" && currentSlot.value in available {
      var index := IndexOf(available, currentSlot.value);
      assert available == available[..index] + available[index..];
    }
  }

  /** Round robin starts with the current slot and keeps the cyclic order. */
  lemma RoundRobinKeepsCycle(available: seq<string>, priority: seq<string>, current: string, i: nat)
    requires current != "" && current in available && i < |available|
    ensures var order := BuildRotationPlan(available, RoundRobin, priority, Some(current)).order;
            |order| == |available| && order[0] == current
            && order[i] == Cyclic(available, IndexOf(available, current) + i)
  {
    CyclicWraps(available, IndexOf(available, current) + i);
  }

  lemma {:induction false} IndexInSum(a: seq<string>, b: seq<string>, x: string)
    requires x in a || x in b
    ensures IndexOf(a + b, x) == if x in a then IndexOf(a, x) else |a| + IndexOf(b, x)
  {
    if a == [] {
      assert a + b == b;
    } else {
      assert (a + b)[1..] == a[1..] + b && a == [a[0]] + a[1..];
      if a[0] != x {
        IndexInSum(a[1..], b, x);
      }
    }
  }

  /** A selection keeps the order in which its elements first occur. */
  lemma {:induction false} FilteredKeepsOrder(s: seq<string>, t: seq<string>, keep: bool, x: string, y: string)
    requires x in s && y in s && ((x in t) <==> keep) && ((y in t) <==> keep)
    ensures IndexOf(Filtered(s, t, keep), x) < IndexOf(Filtered(s, t, keep), y) <==> IndexOf(s, x) < IndexOf(s, y)
  {
    var kept, rest := Filtered(s, t, keep), Filtered(s[1..], t, keep);
    IndexStep(s, x);
    IndexStep(s, y);
    if (s[0] in t) == keep {
      assert kept == [s[0]] + rest;
      IndexStep(kept, x);
      IndexStep(kept, y);
      assert kept[1..] == rest;
    } else {
      assert kept == rest;
    }
    if s[0] != x && s[0] != y {
      FilteredKeepsOrder(s[1..], t, keep, x, y);
    }
  }

  lemma IndexStep(s: seq<string>, x: string)
    requires x in s
    ensures if s[0] == x then IndexOf(s, x) == 0 else x in s[1..] && IndexOf(s, x) == 1 + IndexOf(s[1..], x)
  {
    assert s == [s[0]] + s[1..];
  }

  /** Manual mode runs one slot: the current one, or else the first there is. */
  lemma ManualPlanIsOneSlot(available: seq<string>, priority: seq<string>, currentSlot: Option<string>)
    ensures var plan := BuildRotationPlan(available, Manual, priority, currentSlot);
            && plan.mode == Manual
            && (currentSlot.Some? && currentSlot.value != "" ==> plan.order == [currentSlot.value])
            && (currentSlot.None? || currentSlot.value == "" ==>
                  |plan.order| == (if available == [] then 0 else 1) && (available != [] ==> plan.order[0] == available[0]))
  {
  }

  /** The plan is for the mode asked for. */
  lemma PlanHasMode(available: seq<string>, mode: Mode, priority: seq<string>, currentSlot: Option<string>)
    ensures BuildRotationPlan(available, mode, priority, currentSlot).mode == mode
  {
  }

  /** Priority mode runs the available slots of the priority list first, in the configured order, and
      then the others in theirs. */
  lemma PriorityKeepsOrder(available: seq<string>, priority: seq<string>, currentSlot: Option<string>, x: string, y: string)
    requires x in available && y in available
    ensures var order := BuildRotationPlan(available, Priority, priority, currentSlot).order;
            && x in order && y in order
            && (x in priority && y !in priority ==> IndexOf(order, x) < IndexOf(order, y))
            && (x in priority && y in priority ==> (IndexOf(order, x) < IndexOf(order, y) <==> IndexOf(priority, x) < IndexOf(priority, y)))
            && (x !in priority && y !in priority ==> (IndexOf(order, x) < IndexOf(order, y) <==> IndexOf(available, x) < IndexOf(available, y)))
  {
    var listed, others := Filtered(priority, available, true), Filtered(available, priority, false);
    IndexInSum(listed, others, x);
    IndexInSum(listed, others, y);
    if x in priority && y in priority {
      FilteredKeepsOrder(priority, available, true, x, y);
    }
    if x !in priority && y !in priority {
      FilteredKeepsOrder(available, priority, false, x, y);
    }
  }

  /** Just behind the current slot; an absent one is "". */
  function ScanStart(order: seq<string>, current: string): nat {
    if current != "" && current in order then IndexOf(order, current) + 1 else 0
  }

  /** next is the first slot, from just behind current and round to it, that is not exhausted. */
  ghost predicate IsNext(order: seq<string>, current: string, exhausted: set<string>, next: string) {
    order != [] && next !in exhausted
    && exists p: nat ::
         && ScanStart(order, current) <= p < ScanStart(order, current) + |order| && Cyclic(order, p) == next
         && forall q: nat :: ScanStart(order, current) <= q < p ==> Cyclic(order, q) in exhausted
  }

  /** Among the slots behind the current one and round to it, the first that is not exhausted. */
  lemma NextBehindCurrent(order: seq<string>, current: string, exhausted: set<string>, next: string) returns (j: nat)
    requires current != "" && current in order && IsNext(order, current, exhausted, next)
    ensures var round := order[IndexOf(order, current) + 1..] + order[..IndexOf(order, current) + 1];
            j < |round| && round[j] == next && next !in exhausted && forall k :: 0 <= k < j ==> round[k] in exhausted
  {
    var start := ScanStart(order, current);
    var p: nat :| start <= p < start + |order| && Cyclic(order, p) == next && forall q: nat :: start <= q < p ==> Cyclic(order, q) in exhausted;
    var round := order[start..] + order[..start];
    forall k: nat | k < |order| ensures round[k] == Cyclic(order, start + k) {
      CyclicWraps(order, start + k);
    }
    j := p - start;
  }

  /** Without a current slot in the order, the first that is not exhausted. */
  lemma NextFromTheStart(order: seq<string>, current: string, exhausted: set<string>, next: string) returns (j: nat)
    requires (current == "" || current !in order) && IsNext(order, current, exhausted, next)
    ensures j < |order| && order[j] == next && next !in exhausted && forall k :: 0 <= k < j ==> order[k] in exhausted
  {
    var start := ScanStart(order, current);
    j :| start <= j < start + |order| && Cyclic(order, j) == next && forall q: nat :: start <= q < j ==> Cyclic(order, q) in exhausted;
    CyclicWraps(order, j);
    forall k: nat | k < j ensures order[k] in exhausted {
      CyclicWraps(order, k);
      assert Cyclic(order, k) in exhausted;
    }
  }

  /** nextSlotAfter; there is none if and only if all are exhausted. */
  method NextSlotAfter(order: seq<string>, current: string, exhausted: set<string>) returns (next: Option<string>)
    ensures next.None? <==> forall x :: x in order ==> x in exhausted
    ensures next.Some? ==> IsNext(order, current, exhausted, next.value)
  {
    if order == [] {
      return None;
    }
    var start := ScanStart(order, current);
    for offset := 0 to |order|
      invariant forall q: nat :: start <= q < start + offset ==> Cyclic(order, q) in exhausted
    {
      var slot := Cyclic(order, start + offset);
      if slot !in exhausted {
        CyclicWraps(order, start + offset);
        return Some(slot);
      }
    }
    forall x | x in order ensures x in exhausted {
      var i :| 0 <= i < |order| && order[i] == x;
      var k := if i >= start then i - start else i + |order| - start;
      CyclicWraps(order, start + k);
      assert Cyclic(order, start + k) in exhausted;
    }
    next := None;
  }

  /** The list without repeats, each element at its first position. */
  function Dedup(s: seq<string>): seq<string> {
    if s == [] then []
    else if s[|s| - 1] in s[..|s| - 1] then Dedup(s[..|s| - 1])
    else Dedup(s[..|s| - 1]) + [s[|s| - 1]]
  }

  lemma {:induction false} DedupIsDistinct(s: seq<string>)
    ensures forall x :: x in Dedup(s) <==> x in s
    ensures forall i, j :: 0 <= i < j < |Dedup(s)| ==> Dedup(s)[i] != Dedup(s)[j]
    ensures |Dedup(s)| <= |s|
  {
    if s != [] {
      var init := s[..|s| - 1];
      assert s == init + [s[|s| - 1]];
      DedupIsDistinct(init);
    }
  }

  lemma {:induction false} DedupPrefix(s: seq<string>, i: nat, j: nat)
    requires i <= j <= |s|
    ensures Dedup(s[..i]) <= Dedup(s[..j])
    ensures (forall k :: i <= k < j ==> s[k] in s[..i]) ==> Dedup(s[..j]) == Dedup(s[..i])
  {
    if i < j {
      DedupPrefix(s, i, j - 1);
      assert s[..j][..j - 1] == s[..j - 1];
      if forall k :: i <= k < j ==> s[k] in s[..i] {
        assert s[j - 1] in s[..i];
        var m :| 0 <= m < i && s[..i][m] == s[j - 1];
        assert s[..j - 1][m] == s[j - 1];
      }
    }
  }
}
