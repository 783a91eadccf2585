/**
 The slot metadata of src/auth/storage.ts and the attempt loop of src/auth/hotswap.ts. Running
 Codex, reading a slot's file and finding a session to resume are inputs.
 */
module Hotswap {
  import opened Wrappers
  import opened Rotation

  datatype SlotRecord = SlotRecord(
    slot: string,
    createdAt: nat,
    updatedAt: nat,
    lastUsedAt: Option<nat>,
    lastQuotaAt: Option<nat>,
    exhaustedAt: Option<nat>)

  ghost predicate DistinctSlots(records: seq<SlotRecord>) {
    forall i, j :: 0 <= i < j < |records| ==> records[i].slot != records[j].slot
  }

  /** The first record of that name. */
  function Find(records: seq<SlotRecord>, slot: string): (r: Option<SlotRecord>)
    ensures r.Some? ==> r.value in records && r.value.slot == slot
    ensures r.None? ==> forall i :: 0 <= i < |records| ==> records[i].slot != slot
  {
    if records == [] then None
    else if records[0].slot == slot then Some(records[0])
    else Find(records[1..], slot)
  }

  lemma FindAt(records: seq<SlotRecord>, i: nat)
    requires DistinctSlots(records) && i < |records|
    ensures Find(records, records[i].slot) == Some(records[i])
  {
    var r := Find(records, records[i].slot).value;
    var j :| 0 <= j < |records| && records[j] == r;
  }

  lemma FindByName(records: seq<SlotRecord>, r: SlotRecord)
    requires DistinctSlots(records) && r in records
    ensures Find(records, r.slot) == Some(r)
  {
    var i :| 0 <= i < |records| && records[i] == r;
    FindAt(records, i);
  }

  /** The records of two lists are the same, whatever their order. */
  ghost predicate SameRecords(a: seq<SlotRecord>, b: seq<SlotRecord>) {
    |a| == |b| && forall r :: r in a <==> r in b
  }

  lemma FindInSameRecords(a: seq<SlotRecord>, b: seq<SlotRecord>, slot: string)
    requires DistinctSlots(a) && DistinctSlots(b) && SameRecords(a, b)
    ensures Find(a, slot) == Find(b, slot)
  {
    if Find(a, slot).Some? {
      FindByName(b, Find(a, slot).value);
    } else if Find(b, slot).Some? {
      FindByName(a, Find(b, slot).value);
    }
  }

  /** The comparison of slot names, `localeCompare` in the source. */
  type Order = (string, string) -> bool

  ghost predicate TotalOrder(leq: Order) {
    && (forall a, b :: leq(a, b) || leq(b, a))
    && (forall a, b, c :: leq(a, b) && leq(b, c) ==> leq(a, c))
  }

  ghost predicate SortedBy(leq: Order, records: seq<SlotRecord>) {
    forall i, j :: 0 <= i < j < |records| ==> leq(records[i].slot, records[j].slot)
  }

  method SortRecords(leq: Order, records: seq<SlotRecord>) returns (r: seq<SlotRecord>)
    requires TotalOrder(leq) && DistinctSlots(records)
    ensures SortedBy(leq, r) && DistinctSlots(r) && SameRecords(r, records)
  {
    r := [];
    for i := 0 to |records|
      invariant SortedBy(leq, r) && DistinctSlots(r) && SameRecords(r, records[..i])
    {
      assert records[..i + 1] == records[..i] + [records[i]];
      var k := |r|;
      while k > 0 && !leq(r[k - 1].slot, records[i].slot)
        invariant 0 <= k <= |r|
        invariant forall m :: k <= m < |r| ==> leq(records[i].slot, r[m].slot)
      {
        k := k - 1;
      }
      NewSlot(records, i, r);
      var longer := r[..k] + [records[i]] + r[k..];
      Inserted(leq, r, k, records[i], longer);
      r := longer;
    }
    assert records[..|records|] == records;
  }

  lemma NewSlot(records: seq<SlotRecord>, i: nat, r: seq<SlotRecord>)
    requires DistinctSlots(records) && i < |records| && SameRecords(r, records[..i])
    ensures forall k :: 0 <= k < |r| ==> r[k].slot != records[i].slot
  {
    forall k | 0 <= k < |r| ensures r[k].slot != records[i].slot {
      assert r[k] in records[..i];
      var j :| 0 <= j < i && records[..i][j] == r[k];
    }
  }

  lemma Inserted(leq: Order, r: seq<SlotRecord>, k: nat, x: SlotRecord, w: seq<SlotRecord>)
    requires TotalOrder(leq) && SortedBy(leq, r) && DistinctSlots(r) && k <= |r| && |w| == |r| + 1
    requires k > 0 ==> leq(r[k - 1].slot, x.slot)
    requires forall m :: k <= m < |r| ==> leq(x.slot, r[m].slot)
    requires forall m :: 0 <= m < |r| ==> r[m].slot != x.slot
    requires w[k] == x
    requires forall m :: 0 <= m < k ==> w[m] == r[m]
    requires forall m :: k < m < |w| ==> w[m] == r[m - 1]
    ensures SortedBy(leq, w) && DistinctSlots(w)
    ensures forall y :: y in w <==> y in r || y == x
  {
    InsertedSorted(leq, r, k, x, w);
    InsertedMembers(r, k, x, w);
  }

  lemma InsertedMembers(r: seq<SlotRecord>, k: nat, x: SlotRecord, w: seq<SlotRecord>)
    requires k <= |r| && |w| == |r| + 1 && w[k] == x
    requires forall m :: 0 <= m < k ==> w[m] == r[m]
    requires forall m :: k < m < |w| ==> w[m] == r[m - 1]
    ensures forall y :: y in w <==> y in r || y == x
  {
    forall y | y in r ensures y in w {
      var m :| 0 <= m < |r| && r[m] == y;
      assert w[if m < k then m else m + 1] == y;
    }
  }

  lemma InsertedSorted(leq: Order, r: seq<SlotRecord>, k: nat, x: SlotRecord, w: seq<SlotRecord>)
    requires TotalOrder(leq) && SortedBy(leq, r) && k <= |r| && |w| == |r| + 1
    requires k > 0 ==> leq(r[k - 1].slot, x.slot)
    requires forall m :: k <= m < |r| ==> leq(x.slot, r[m].slot)
    requires w[k] == x
    requires forall m :: 0 <= m < k ==> w[m] == r[m]
    requires forall m :: k < m < |w| ==> w[m] == r[m - 1]
    ensures SortedBy(leq, w)
  {
    forall i, j | 0 <= i < j < |w| ensures leq(w[i].slot, w[j].slot) {
      if i < k && j == k && i < k - 1 {
        assert leq(r[i].slot, r[k - 1].slot);
      }
    }
  }

  predicate Exhausted(records: seq<SlotRecord>, slot: string) {
    Find(records, slot).Some? && Find(records, slot).value.exhaustedAt.Some?
  }

  ghost predicate AllExhaustedIn(records: seq<SlotRecord>, names: seq<string>) {
    forall s :: s in names ==> Exhausted(records, s)
  }

  /** after says the same as before about every slot but one. */
  ghost predicate SameBut(before: seq<SlotRecord>, after: seq<SlotRecord>, slot: string) {
    forall other :: other != slot ==> Find(after, other) == Find(before, other)
  }

  lemma MarksKept(before: seq<SlotRecord>, after: seq<SlotRecord>, slot: string, names: seq<string>)
    requires SameBut(before, after, slot) && AllExhaustedIn(before, names)
    requires slot in names ==> Exhausted(after, slot)
    ensures AllExhaustedIn(after, names)
  {
  }

  /** metadata.json. */
  class AuthStore {
    const leq: Order
    var currentSlot: Option<string>
    var slots: seq<SlotRecord>

    ghost predicate Valid()
      reads this
    {
      TotalOrder(leq) && DistinctSlots(slots)
    }

    function Record(slot: string): Option<SlotRecord>
      reads this
    {
      Find(slots, slot)
    }

    predicate MarkedExhausted(slot: string)
      reads this
    {
      Exhausted(slots, slot)
    }

    constructor (leq: Order, currentSlot: Option<string>, slots: seq<SlotRecord>)
      requires TotalOrder(leq) && DistinctSlots(slots)
      ensures Valid() && this.currentSlot == currentSlot && this.slots == slots
    {
      this.leq, this.currentSlot, this.slots := leq, currentSlot, slots;
    }

    /** upsertSlotRecord: where the record of this name is, made if need be. */
    method Upsert(slot: string, now: nat) returns (index: nat)
      requires Valid()
      modifies this`slots
      ensures Valid() && index < |slots|
      ensures slots[index] == if old(Record(slot)).Some? then old(Record(slot)).value.(updatedAt := now)
                              else SlotRecord(slot, now, now, None, None, None)
      ensures SameBut(old(slots), slots, slot)
      ensures old(SortedBy(leq, slots)) || old(Record(slot)).None? ==> SortedBy(leq, slots)
    {
      index := 0;
      while index < |slots| && slots[index].slot != slot
        invariant 0 <= index <= |slots| && slots == old(slots)
        invariant forall k :: 0 <= k < index ==> slots[k].slot != slot
      {
        index := index + 1;
      }
      if index < |slots| {
        FindAt(slots, index);
        var updated := slots[index].(updatedAt := now);
        FindOthers(slots, index, updated);
        slots := slots[index := updated];
      } else {
        var record := SlotRecord(slot, now, now, None, None, None);
        var pushed := slots + [record];
        PushKeeps(slots, record);
        var sorted := SortRecords(leq, pushed);
        forall other ensures Find(sorted, other) == Find(pushed, other) {
          FindInSameRecords(sorted, pushed, other);
        }
        slots := sorted;
        assert record in pushed;
        index :| 0 <= index < |slots| && slots[index] == record;
      }
    }

    /** useSlot: fails before anything is written when the slot's file cannot be read. */
    method UseSlot(slot: string, readable: bool, now: nat) returns (ok: bool)
      requires Valid()
      modifies this
      ensures Valid() && ok == readable
      ensures !ok ==> slots == old(slots) && currentSlot == old(currentSlot)
      ensures ok ==> currentSlot == Some(slot) && Record(slot).Some? && !MarkedExhausted(slot) && Record(slot).value.lastUsedAt == Some(now)
      ensures SameBut(old(slots), slots, slot)
    {
      if !readable {
        return false;
      }
      var index := Upsert(slot, now);
      var record := slots[index].(lastUsedAt := Some(now), exhaustedAt := None);
      FindOthers(slots, index, record);
      slots := slots[index := record];
      FindAt(slots, index);
      currentSlot := Some(slot);
      ok := true;
    }

    method MarkQuota(slot: string, now: nat)
      requires Valid()
      modifies this`slots
      ensures Valid() && MarkedExhausted(slot) && Record(slot).value.lastQuotaAt == Some(now)
      ensures SameBut(old(slots), slots, slot)
    {
      var index := Upsert(slot, now);
      var record := slots[index].(lastQuotaAt := Some(now), exhaustedAt := Some(now));
      FindOthers(slots, index, record);
      slots := slots[index := record];
      FindAt(slots, index);
    }
  }

  /** Replacing a record by one of the same name is invisible under every other name. */
  lemma FindOthers(records: seq<SlotRecord>, i: nat, r: SlotRecord)
    requires DistinctSlots(records) && i < |records| && records[i].slot == r.slot
    ensures DistinctSlots(records[i := r])
    ensures forall other :: other != r.slot ==> Find(records[i := r], other) == Find(records, other)
  {
    var changed := records[i := r];
    forall other | other != r.slot ensures Find(changed, other) == Find(records, other) {
      if Find(records, other).Some? {
        var x := Find(records, other).value;
        var j :| 0 <= j < |records| && records[j] == x;
        assert changed[j] == x;
        FindByName(changed, x);
      }
    }
  }

  lemma PushKeeps(records: seq<SlotRecord>, r: SlotRecord)
    requires DistinctSlots(records) && forall k :: 0 <= k < |records| ==> records[k].slot != r.slot
    ensures DistinctSlots(records + [r])
    ensures forall other :: other != r.slot ==> Find(records + [r], other) == Find(records, other)
    ensures Find(records, r.slot).None?
  {
    forall other | other != r.slot ensures Find(records + [r], other) == Find(records, other) {
      if Find(records, other).Some? {
        FindByName(records + [r], Find(records, other).value);
      }
    }
  }

  // ---------------------------------------------------------------- the attempt loop

  /** What one run of Codex and the search for its session turn out to be; `readable` says which
      slot files can be read when the next one is switched to. */
  datatype Attempt = Attempt(status: int, quotaError: bool, sessionFound: bool, readable: set<string>)

  datatype End =
    | NoSlots | Success | ChildFailed(status: int) | ManualQuota | AllExhausted | NoSession | Threw | FellThrough

  /** The attempt hit the quota and left a session to resume on another slot. */
  predicate Rotates(a: Attempt) {
    a.status != 0 && a.quotaError && a.sessionFound
  }

  /** The plan has another slot to go to after n of its distinct slots; an empty name is none. */
  predicate HasNext(plan: Plan, n: nat) {
    var distinct := Dedup(plan.order);
    n < |distinct| && distinct[n] != ""
  }

  /** After n slots have been run, the last of them with this result, the next one is switched to. */
  predicate GoesOn(plan: Plan, n: nat, a: Attempt) {
    Rotates(a) && plan.mode != Manual && HasNext(plan, n) && Dedup(plan.order)[n] in a.readable
  }

  /** The run went on after each of the first n slots. */
  ghost predicate WentOn(plan: Plan, n: nat, attempts: seq<Attempt>) {
    n <= |attempts| && forall k :: 0 <= k < n ==> GoesOn(plan, k + 1, attempts[k])
  }

  /** How a run ends after n slots, the last of them with this result. */
  predicate EndOf(plan: Plan, n: nat, a: Attempt, end: End) {
    match end
    case Success => a.status == 0
    case ChildFailed(status) => status == a.status != 0 && !a.quotaError
    case ManualQuota => a.status != 0 && a.quotaError && plan.mode == Manual
    case AllExhausted => a.status != 0 && a.quotaError && plan.mode != Manual && !HasNext(plan, n)
    case NoSession => a.status != 0 && a.quotaError && plan.mode != Manual && HasNext(plan, n) && !a.sessionFound
    case Threw => Rotates(a) && plan.mode != Manual && HasNext(plan, n) && Dedup(plan.order)[n] !in a.readable
    case NoSlots => false
    case FellThrough => false
  }

  /** Exactly one of these happens, unless the run goes on. */
  lemma EndIsDetermined(plan: Plan, n: nat, a: Attempt)
    ensures GoesOn(plan, n, a) <==> forall end :: !EndOf(plan, n, a, end)
    ensures forall end, end' :: EndOf(plan, n, a, end) && EndOf(plan, n, a, end') ==> end == end'
  {
    if !GoesOn(plan, n, a) {
      assert || EndOf(plan, n, a, Success) || EndOf(plan, n, a, ChildFailed(a.status)) || EndOf(plan, n, a, ManualQuota)
             || EndOf(plan, n, a, AllExhausted) || EndOf(plan, n, a, NoSession) || EndOf(plan, n, a, Threw);
    }
  }

  function Members(s: seq<string>): set<string> {
    set x | x in s
  }

  lemma MembersPush(s: seq<string>, x: string)
    ensures Members(s + [x]) == Members(s) + {x}
  {
  }

  /** How far the loop has got: the slots run so far are the distinct slots of the plan up to
      position i, where the slot to run next stands for the first time. */
  ghost predicate Progress(order: seq<string>, ran: seq<string>, current: string, i: nat) {
    i < |order| && order[i] == current != "" && current !in order[..i] && ran == Dedup(order[..i])
  }

  lemma RanOne(order: seq<string>, ran: seq<string>, current: string, i: nat)
    requires Progress(order, ran, current, i)
    ensures ran + [current] == Dedup(order[..i + 1]) && ran + [current] <= Dedup(order)
    ensures current !in ran && |ran| <= i
  {
    assert order[..i + 1][..i] == order[..i];
    assert order[..|order|] == order;
    DedupPrefix(order, i + 1, |order|);
    DedupIsDistinct(order[..i]);
  }

  lemma NotBefore(order: seq<string>, x: string, i: nat)
    requires i <= |order| && x !in order[..i]
    ensures forall k :: 0 <= k < i ==> order[k] != x
  {
    forall k | 0 <= k < i ensures order[k] != x {
      assert order[..i][k] == order[k];
    }
  }

  lemma FirstIndex(order: seq<string>, i: nat)
    requires i < |order| && order[i] !in order[..i]
    ensures IndexOf(order, order[i]) == i
  {
    var k := IndexOf(order, order[i]);
    NotBefore(order, order[i], i);
    NotBefore(order, order[i], k);
  }

  /** The slot nextSlotAfter finds stands in the plan behind the current one, for the first time. */
  lemma NextPosition(order: seq<string>, ran: seq<string>, i: nat, next: string) returns (j: nat)
    requires i < |order| && order[i] != "" && order[i] !in order[..i] && ran == Dedup(order[..i + 1])
    requires IsNext(order, order[i], Members(ran), next)
    ensures i < j < |order| && order[j] == next && ran == Dedup(order[..j]) && next !in ran
  {
    FirstIndex(order, i);
    DedupIsDistinct(order[..i + 1]);
    j :| && ScanStart(order, order[i]) <= j < ScanStart(order, order[i]) + |order| && Cyclic(order, j) == next
         && forall q: nat :: ScanStart(order, order[i]) <= q < j ==> Cyclic(order, q) in Members(ran);
    assert ScanStart(order, order[i]) == i + 1;
    CyclicWraps(order, j);
    forall k: nat | k <= i ensures order[k] in ran && order[k] != next {
      assert order[..i + 1][k] == order[k];
    }
    forall k: nat | i < k < j && k < |order| ensures order[k] in order[..i + 1] {
      CyclicWraps(order, k);
    }
    assert j < |order|;
    DedupPrefix(order, i + 1, j);
  }

  /** So it is the next one of the plan's distinct slots that has not been run. */
  lemma NextIsNext(order: seq<string>, ran: seq<string>, i: nat, next: string) returns (j: nat)
    requires i < |order| && order[i] != "" && order[i] !in order[..i] && ran == Dedup(order[..i + 1])
    requires IsNext(order, order[i], Members(ran), next)
    ensures i < j < |order| && order[j] == next && next !in order[..j] && ran == Dedup(order[..j]) && next !in ran
    ensures |ran| < |Dedup(order)| && Dedup(order)[|ran|] == next
  {
    j := NextPosition(order, ran, i, next);
    DedupIsDistinct(order[..j]);
    NextInPlan(order, j);
  }

  lemma NextInPlan(order: seq<string>, j: nat)
    requires j < |order| && order[j] !in order[..j]
    ensures var n := |Dedup(order[..j])|; n < |Dedup(order)| && Dedup(order)[n] == order[j]
  {
    assert order[..j + 1][..j] == order[..j];
    assert order[..|order|] == order;
    DedupPrefix(order, j + 1, |order|);
    assert Dedup(order[..j + 1]) == Dedup(order[..j]) + [order[j]];
  }

  /** markSlotQuota in the loop: the slots run before stay marked. */
  method Exhaust(store: AuthStore, ghost ran: seq<string>, current: string, now: nat)
    requires store.Valid() && AllExhaustedIn(store.slots, ran)
    modifies store`slots
    ensures store.Valid() && AllExhaustedIn(store.slots, ran + [current]) && SameBut(old(store.slots), store.slots, current)
  {
    ghost var before := store.slots;
    store.MarkQuota(current, now);
    MarksKept(before, store.slots, current, ran);
  }

  /** useSlot in the loop: the slots run before stay marked, the new one is not. */
  method SwitchTo(store: AuthStore, ghost ran: seq<string>, next: string, readable: bool, now: nat) returns (ok: bool)
    requires store.Valid() && AllExhaustedIn(store.slots, ran) && next !in ran
    modifies store
    ensures store.Valid() && AllExhaustedIn(store.slots, ran) && SameBut(old(store.slots), store.slots, next)
    ensures ok == readable
    ensures if ok then store.currentSlot == Some(next) && !store.MarkedExhausted(next)
            else store.currentSlot == old(store.currentSlot) && store.slots == old(store.slots)
  {
    ghost var before := store.slots;
    ok := store.UseSlot(next, readable, now);
    MarksKept(before, store.slots, next, ran);
  }

  /** A run that hit the quota marks its slot and no other. */
  predicate HitsQuota(a: Attempt) {
    a.status != 0 && a.quotaError
  }

  /** What is known of every slot but these is as before. */
  ghost predicate Untouched(before: seq<SlotRecord>, after: seq<SlotRecord>, slots: seq<string>) {
    forall other :: other !in slots ==> Find(after, other) == Find(before, other)
  }

  /** The body of the loop: one run of Codex, and the switch to the next slot if there is to be one. */
  method RunSlot(store: AuthStore, plan: Plan, result: Attempt, ghost ran: seq<string>, current: string, exhausted: set<string>,
                 ghost i: nat, now: nat)
    returns (end: Option<End>, next: string, exhausted': set<string>, ghost j: nat)
    requires store.Valid() && Progress(plan.order, ran, current, i) && current !in ran
    requires exhausted == Members(ran) && AllExhaustedIn(store.slots, ran)
    requires store.currentSlot == Some(current) && !store.MarkedExhausted(current)
    modifies store
    ensures store.Valid() && AllExhaustedIn(store.slots, ran)
    ensures store.MarkedExhausted(current) <==> HitsQuota(result)
    ensures end.Some? ==> EndOf(plan, |ran| + 1, result, end.value) && store.currentSlot == Some(current)
    ensures end.Some? ==> Untouched(old(store.slots), store.slots, [current])
    ensures end.None? ==> GoesOn(plan, |ran| + 1, result) && exhausted' == Members(ran + [current])
    ensures end.None? ==> Progress(plan.order, ran + [current], next, j) && j > i
    ensures end.None? ==> store.currentSlot == Some(next) && !store.MarkedExhausted(next)
    ensures end.None? ==> Untouched(old(store.slots), store.slots, [current, next])
  {
    next, exhausted', j := current, exhausted, i;
    if result.status == 0 {
      return Some(Success), next, exhausted', j;
    }
    if !result.quotaError {
      return Some(ChildFailed(result.status)), next, exhausted', j;
    }
    Exhaust(store, ran, current, now);
    exhausted' := exhausted + {current};
    MembersPush(ran, current);
    if plan.mode == Manual {
      return Some(ManualQuota), next, exhausted', j;
    }
    RanOne(plan.order, ran, current, i);
    var found := NextSlotAfter(plan.order, current, exhausted');
    if found.None? {
      AllRun(plan.order, ran + [current], i);
      return Some(AllExhausted), next, exhausted', j;
    }
    j := NextIsNext(plan.order, ran + [current], i, found.value);
    if found.value == "" {
      return Some(AllExhausted), next, exhausted', j;
    }
    if !result.sessionFound {
      return Some(NoSession), next, exhausted', j;
    }
    next := found.value;
    var ok := SwitchTo(store, ran + [current], next, next in result.readable, now);
    end := if ok then None else Some(Threw);
  }

  /** The slots run are the first distinct ones of the plan; after each but the last the run went on,
      and after the last it ended so. */
  ghost predicate Ran(plan: Plan, attempts: seq<Attempt>, ran: seq<string>, end: End) {
    && ran != [] && ran <= Dedup(plan.order) && |ran| <= |attempts|
    && WentOn(plan, |ran| - 1, attempts) && EndOf(plan, |ran|, attempts[|ran| - 1], end)
  }

  /** The metadata after such a run: the last slot is current and marked if it hit the quota, the
      others run are marked, and no other is touched. */
  ghost predicate Left(before: seq<SlotRecord>, slots: seq<SlotRecord>, currentSlot: Option<string>, ran: seq<string>, last: Attempt) {
    && ran != [] && currentSlot == Some(ran[|ran| - 1])
    && AllExhaustedIn(slots, ran[..|ran| - 1]) && (Exhausted(slots, ran[|ran| - 1]) <==> HitsQuota(last))
    && Untouched(before, slots, ran)
  }

  /** The loop goes into its next round: to run `current`, which stands at i in the plan. */
  ghost predicate Underway(plan: Plan, attempts: seq<Attempt>, ran: seq<string>, current: string, exhausted: set<string>, i: nat) {
    Progress(plan.order, ran, current, i) && |ran| <= i && exhausted == Members(ran) && WentOn(plan, |ran|, attempts)
  }

  lemma NextRound(plan: Plan, attempts: seq<Attempt>, ran: seq<string>, current: string, exhausted: set<string>, i: nat,
                  next: string, marked: set<string>, j: nat)
    requires Underway(plan, attempts, ran, current, exhausted, i) && |ran| < |attempts|
    requires GoesOn(plan, |ran| + 1, attempts[|ran|]) && marked == Members(ran + [current])
    requires Progress(plan.order, ran + [current], next, j) && j > i
    ensures Underway(plan, attempts, ran + [current], next, marked, j)
  {
  }

  lemma AllExhaustedMore(slots: seq<SlotRecord>, ran: seq<string>, current: string)
    requires AllExhaustedIn(slots, ran) && Exhausted(slots, current)
    ensures AllExhaustedIn(slots, ran + [current])
  {
  }

  /** The attempt loop, with the first slot of the plan switched to. */
  method RunSlots(store: AuthStore, plan: Plan, attempts: seq<Attempt>, now: nat, ghost before: seq<SlotRecord>)
    returns (end: End, ran: seq<string>)
    requires store.Valid() && plan.order != [] && plan.order[0] != "" && |attempts| >= |plan.order|
    requires store.currentSlot == Some(plan.order[0]) && !store.MarkedExhausted(plan.order[0])
    requires Untouched(before, store.slots, [plan.order[0]])
    modifies store
    ensures store.Valid() && Ran(plan, attempts, ran, end) && Left(before, store.slots, store.currentSlot, ran, attempts[|ran| - 1])
  {
    ran := [];
    var current := plan.order[0];
    var exhausted: set<string> := {};
    ghost var i := 0;
    var attempt := 0;
    end := FellThrough;
    assert plan.order[..0] == [];
    while attempt < |plan.order|
      invariant attempt == |ran| <= |plan.order| && store.Valid()
      invariant Underway(plan, attempts, ran, current, exhausted, i)
      invariant AllExhaustedIn(store.slots, ran) && Untouched(before, store.slots, ran + [current])
      invariant store.currentSlot == Some(current) && !store.MarkedExhausted(current)
    {
      RanOne(plan.order, ran, current, i);
      label Before:
      var ended, next, marked, j := RunSlot(store, plan, attempts[attempt], ran, current, exhausted, i, now);
      if ended.Some? {
        LoopEnds(plan, attempts, ran, current, ended.value, before, old@Before(store.slots), store.slots);
        return ended.value, ran + [current];
      }
      StillUntouched(before, old@Before(store.slots), store.slots, ran, current, next);
      NextRound(plan, attempts, ran, current, exhausted, i, next, marked, j);
      AllExhaustedMore(store.slots, ran, current);
      ran := ran + [current];
      current, exhausted, i := next, marked, j;
      attempt := attempt + 1;
    }
    assert false;
  }

  lemma LoopEnds(plan: Plan, attempts: seq<Attempt>, ran: seq<string>, current: string, end: End,
                 before: seq<SlotRecord>, between: seq<SlotRecord>, after: seq<SlotRecord>)
    requires |ran| < |attempts| && ran + [current] <= Dedup(plan.order) && WentOn(plan, |ran|, attempts)
    requires EndOf(plan, |ran| + 1, attempts[|ran|], end)
    requires AllExhaustedIn(after, ran) && (Exhausted(after, current) <==> HitsQuota(attempts[|ran|]))
    requires Untouched(before, between, ran + [current]) && Untouched(between, after, [current])
    ensures Ran(plan, attempts, ran + [current], end) && Left(before, after, Some(current), ran + [current], attempts[|ran|])
  {
    assert (ran + [current])[..|ran|] == ran;
  }

  lemma StillUntouched(before: seq<SlotRecord>, between: seq<SlotRecord>, after: seq<SlotRecord>, ran: seq<string>, current: string, next: string)
    requires Untouched(before, between, ran + [current]) && Untouched(between, after, [current, next])
    ensures Untouched(before, after, ran + [current] + [next])
  {
  }

  /** runAuthHotswap from the plan on. Whatever Codex does, the slots are run in plan order, each at
      most once, and how often the run goes on and how it ends is settled by plan and attempts; the
      loop always ends inside. */
  method RunHotswap(store: AuthStore, plan: Plan, firstReadable: bool, attempts: seq<Attempt>, now: nat)
    returns (end: End, ran: seq<string>)
    requires store.Valid() && |attempts| >= |plan.order|
    modifies store
    ensures store.Valid()
    ensures end == NoSlots <==> plan.order == [] || plan.order[0] == ""
    ensures end != NoSlots ==> (ran == [] <==> !firstReadable)
    ensures ran == [] ==> end == NoSlots || end == Threw
    ensures ran == [] ==> store.slots == old(store.slots) && store.currentSlot == old(store.currentSlot)
    ensures ran != [] ==> Ran(plan, attempts, ran, end)
    ensures ran != [] ==> Left(old(store.slots), store.slots, store.currentSlot, ran, attempts[|ran| - 1])
    ensures |ran| <= |plan.order| && (plan.mode == Manual ==> |ran| <= 1)
    ensures end == AllExhausted && "" !in plan.order ==> ran == Dedup(plan.order) && AllExhaustedIn(store.slots, plan.order)
  {
    if plan.order == [] || plan.order[0] == "" {
      return NoSlots, [];
    }
    var ok := SwitchTo(store, [], plan.order[0], firstReadable, now);
    if !ok {
      return Threw, [];
    }
    end, ran := RunSlots(store, plan, attempts, now, old(store.slots));
    WhatRan(plan, attempts, ran, end);
    AllExhaustedIsAll(plan, attempts, ran, end, old(store.slots), store.slots, store.currentSlot);
  }

  lemma WhatRan(plan: Plan, attempts: seq<Attempt>, ran: seq<string>, end: End)
    requires Ran(plan, attempts, ran, end)
    ensures |ran| <= |plan.order| && (plan.mode == Manual ==> |ran| == 1) && end != NoSlots
  {
    DedupIsDistinct(plan.order);
    if |ran| > 1 {
      assert GoesOn(plan, 0 + 1, attempts[0]);
    }
  }

  /** A run that ends for want of another slot has, without an empty name in it, run the whole plan. */
  lemma AllExhaustedIsAll(plan: Plan, attempts: seq<Attempt>, ran: seq<string>, end: End, before: seq<SlotRecord>, slots: seq<SlotRecord>,
                          currentSlot: Option<string>)
    requires Ran(plan, attempts, ran, end) && Left(before, slots, currentSlot, ran, attempts[|ran| - 1])
    ensures end == AllExhausted && "" !in plan.order ==> ran == Dedup(plan.order) && AllExhaustedIn(slots, plan.order)
  {
    DedupIsDistinct(plan.order);
    if end == AllExhausted && "" !in plan.order {
      NoEmptyName(plan.order);
      assert ran == ran[..|ran| - 1] + [ran[|ran| - 1]];
    }
  }

  lemma NoEmptyName(order: seq<string>)
    requires "" !in order
    ensures forall k :: 0 <= k < |Dedup(order)| ==> Dedup(order)[k] != ""
  {
    DedupIsDistinct(order);
    forall k | 0 <= k < |Dedup(order)| ensures Dedup(order)[k] != "" {
      assert Dedup(order)[k] in order;
    }
  }

  lemma AllRun(order: seq<string>, ran: seq<string>, i: nat)
    requires i < |order| && ran == Dedup(order[..i + 1])
    requires forall s :: s in order ==> s in ran
    ensures ran == Dedup(order)
  {
    assert order[..|order|] == order;
    assert forall k :: i + 1 <= k < |order| ==> order[k] in ran;
    DedupIsDistinct(order[..i + 1]);
    DedupPrefix(order, i + 1, |order|);
  }
}
