/**
 * The merge pass with the swap carried through: the comment "swap if
 * secondary has YC profile" and `seen[norm] = secondary` at
 * app/parser/linkedin_enricher.py:176-184 make the secondary the new
 * primary, so when authority flips the old primary is the one discarded, and a
 * discarded record is removed by identity rather than as the first
 * value-equal record of the list. The backfill and the `seen` updates are
 * those of the pass as written; only the removal differs.
 */
module LinkedinMergeFixed {
  import opened Records
  import opened LinkedinMerge

  // ----- what the pass as written loses -----

  /**
   * Authority flips to a secondary with a YC URL, but the record removed is
   * still the secondary: the one record left has no YC URL, and the key's
   * recorded primary is no longer in the list.
   */
  lemma {:induction false} SwitchDropsYcRecord(primary: Record, secondary: Record)
    requires Key(primary) == Key(secondary) && !HasYc(primary) && HasYc(secondary)
    ensures var out := Merge([primary, secondary]);
      && Project(out.heap, out.list) == [primary]
      && Key(primary) in out.seen && out.seen[Key(primary)] == 1 && 1 !in out.list
  {
    var recs := [primary, secondary];
    var key := Key(primary);
    assert Range(0, 2) == [0, 1];
    var init := MergeUpTo(recs, 0);
    assert init == MergeState(recs, [0, 1], map[], 0);
    var first := MergeUpTo(recs, 1);
    assert first == Step(init, 0);
    assert first == MergeState(recs, [0, 1], map[key := 0], 0);
    var heap := Backfill(recs, 0, 1);
    assert heap[0] == primary && HasYc(heap[1]);
    assert Project(heap, [0, 1]) == heap;
    assert IndexOf(heap, heap[1]) == 1;
    assert Merge(recs) == Step(first, 1);
    assert Merge(recs) == MergeState(heap, [0], map[key := 1], 1);
    assert Project(heap, [0]) == [primary];
  }

  /**
   * A record equal in value to its primary: removing "the first equal
   * element" removes the primary itself, so the LinkedIn fields a later
   * duplicate backfills into the primary are lost, and the one record
   * left has no LinkedIn URL.
   */
  lemma {:induction false} EqualDuplicateDropsPrimary(r: Record, q: Record)
    requires Key(r) == Key(q) && HasYc(r) && !HasLinkedin(r) && HasLinkedin(q)
    ensures var out := Merge([r, r, q]);
      && Project(out.heap, out.list) == [r]
      && Key(r) in out.seen && out.seen[Key(r)] == 0 && 0 !in out.list
      && out.heap[0] == TakeLinkedin(r, q)
  {
    var recs := [r, r, q];
    var key := Key(r);
    var first := MergeUpTo(recs, 1);
    EqualDuplicateFirstStep(recs);
    var second := MergeUpTo(recs, 2);
    EqualDuplicateSecondStep(recs, first);
    assert second == Step(first, 1);
    var heap := [TakeLinkedin(r, q), r, q];
    EqualDuplicateThirdStep(recs, second, heap);
    assert Merge(recs) == Step(second, 2);
    assert Project(heap, [1]) == [r];
  }

  lemma {:induction false} EqualDuplicateFirstStep(recs: seq<Record>)
    requires |recs| == 3
    ensures MergeUpTo(recs, 1) == MergeState(recs, [0, 1, 2], map[Key(recs[0]) := 0], 0)
  {
    assert Range(0, 3) == [0, 1, 2];
    var init := MergeUpTo(recs, 0);
    assert init == MergeState(recs, [0, 1, 2], map[], 0);
    assert MergeUpTo(recs, 1) == Step(init, 0);
  }

  lemma {:induction false} EqualDuplicateSecondStep(recs: seq<Record>, first: MergeState)
    requires |recs| == 3 && recs[0] == recs[1] && HasYc(recs[0]) && !HasLinkedin(recs[0])
    requires first == MergeState(recs, [0, 1, 2], map[Key(recs[0]) := 0], 0)
    ensures Step(first, 1) == MergeState(recs, [1, 2], map[Key(recs[0]) := 0], 1)
  {
    assert Backfill(recs, 0, 1) == recs;
    assert Project(recs, [0, 1, 2]) == recs;
    assert IndexOf(recs, recs[1]) == 0;
    assert RemoveAt([0, 1, 2], 0) == [1, 2];
  }

  lemma {:induction false} EqualDuplicateThirdStep(recs: seq<Record>, second: MergeState, heap: seq<Record>)
    requires |recs| == 3 && recs[0] == recs[1] && Key(recs[0]) == Key(recs[2])
    requires HasYc(recs[0]) && !HasLinkedin(recs[0]) && HasLinkedin(recs[2])
    requires second == MergeState(recs, [1, 2], map[Key(recs[0]) := 0], 1)
    requires heap == [TakeLinkedin(recs[0], recs[2]), recs[1], recs[2]]
    ensures Step(second, 2) == MergeState(heap, [1], map[Key(recs[0]) := 0], 2)
  {
    assert Backfill(recs, 0, 2) == heap;
    assert Project(heap, [1, 2]) == [recs[0], recs[2]];
    assert recs[0] != recs[2];
    assert IndexOf([recs[0], recs[2]], recs[2]) == 1;
    assert RemoveAt([1, 2], 1) == [1];
  }

  /** No identity occurs twice. */
  predicate Unique(xs: seq<nat>)
  {
    forall a, b :: 0 <= a < b < |xs| ==> xs[a] != xs[b]
  }

  /** `xs` without its first occurrence of `x`. */
  function Drop(xs: seq<nat>, x: nat): (r: seq<nat>)
    ensures forall y :: y in r ==> y in xs
    ensures forall y :: y in xs && y != x ==> y in r
    ensures Unique(xs) ==> Unique(r) && x !in r
    ensures x in xs ==> |r| == |xs| - 1
  {
    if xs == [] then []
    else if xs[0] == x then
      assert forall y :: y in xs && y != x ==> y in xs[1..];
      xs[1..]
    else
      var rest := Drop(xs[1..], x);
      assert forall y :: y in xs && y != x ==> y == xs[0] || y in xs[1..];
      assert Unique(xs) ==> xs[0] !in xs[1..];
      [xs[0]] + rest
  }

  /**
   * One iteration: a new key makes the record the primary; a known key
   * backfills and switches as in `Step`, then removes the record that lost:
   * the old primary when authority flips, the secondary otherwise.
   */
  function StepFixed(st: MergeState, k: nat): (r: MergeState)
    requires WellFormed(st) && k < |st.heap|
    ensures WellFormed(r) && |r.heap| == |st.heap|
  {
    var key := Key(st.heap[k]);
    var next := Step(st, k);
    if key !in st.seen then next
    else
      var p := st.seen[key];
      var list := Drop(st.list, if Switches(st.heap, p, k) then p else k);
      assert forall t :: 0 <= t < |list| ==> list[t] in st.list;
      next.(list := list)
  }

  function MergeFixedUpTo(recs: seq<Record>, k: nat): (st: MergeState)
    requires k <= |recs|
    ensures WellFormed(st) && |st.heap| == |recs|
  {
    if k == 0 then MergeState(recs, Range(0, |recs|), map[], 0)
    else StepFixed(MergeFixedUpTo(recs, k - 1), k - 1)
  }

  function MergeFixed(recs: seq<Record>): MergeState
  {
    MergeFixedUpTo(recs, |recs|)
  }

  /**
   * The list holds each identity once: every record not yet visited, and
   * of the visited ones exactly the current primaries.
   */
  ghost predicate FixedListInv(recs: seq<Record>, k: nat, st: MergeState)
  {
    var n := |recs|;
    && Unique(st.list)
    && (forall t :: 0 <= t < |st.list| ==> st.list[t] < n)
    && (forall i :: k <= i < n ==> i in st.list)
    && (forall key :: key in st.seen ==> st.seen[key] in st.list)
    && (forall t :: 0 <= t < |st.list| && st.list[t] < k ==>
          Key(recs[st.list[t]]) in st.seen && st.list[t] == st.seen[Key(recs[st.list[t]])])
    && st.removed + |st.list| == n
  }

  ghost predicate FixedInv(recs: seq<Record>, k: nat, st: MergeState)
  {
    k <= |recs| && HeapInv(recs, k, st.heap) && SeenInv(recs, k, st.seen) && FixedListInv(recs, k, st)
  }

  lemma {:induction false} FixedInitInv(recs: seq<Record>)
    ensures FixedInv(recs, 0, MergeFixedUpTo(recs, 0))
  {
    var st := MergeFixedUpTo(recs, 0);
    forall i | 0 <= i < |recs|
      ensures i in st.list
    {
      assert st.list[i] == i;
    }
  }

  /** A new key: the list is unchanged and the record is its own primary. */
  lemma {:induction false} FixedListNew(recs: seq<Record>, k: nat, st: MergeState, next: MergeState)
    requires k < |recs| && SeenInv(recs, k, st.seen) && FixedListInv(recs, k, st)
    requires Key(recs[k]) !in st.seen
    requires next == st.(seen := st.seen[Key(recs[k]) := k])
    requires SeenInv(recs, k + 1, next.seen)
    ensures FixedListInv(recs, k + 1, next)
  {
  }

  /** A known key: the losing identity leaves the list and every other one stays. */
  lemma {:induction false} FixedListDrop(recs: seq<Record>, k: nat, st: MergeState, next: MergeState, loser: nat)
    requires k < |recs| && SeenInv(recs, k, st.seen) && FixedListInv(recs, k, st)
    requires Key(recs[k]) in st.seen
    requires var p := st.seen[Key(recs[k])];
      && (loser == p || loser == k)
      && next.list == Drop(st.list, loser)
      && next.seen == (if loser == p then st.seen[Key(recs[k]) := k] else st.seen)
      && next.removed == st.removed + 1
    requires SeenInv(recs, k + 1, next.seen)
    ensures FixedListInv(recs, k + 1, next)
  {
    DropKeepsUnvisited(recs, k, st, next, loser);
    DropKeepsPrimaries(recs, k, st, next, loser);
  }

  lemma {:induction false} DropKeepsUnvisited(recs: seq<Record>, k: nat, st: MergeState, next: MergeState, loser: nat)
    requires k < |recs| && SeenInv(recs, k, st.seen) && FixedListInv(recs, k, st)
    requires Key(recs[k]) in st.seen
    requires var p := st.seen[Key(recs[k])];
      && (loser == p || loser == k)
      && next.list == Drop(st.list, loser)
      && next.seen == (if loser == p then st.seen[Key(recs[k]) := k] else st.seen)
      && next.removed == st.removed + 1
    requires SeenInv(recs, k + 1, next.seen)
    ensures Unique(next.list) && next.removed + |next.list| == |recs|
    ensures forall t :: 0 <= t < |next.list| ==> next.list[t] < |recs|
    ensures forall i :: k + 1 <= i < |recs| ==> i in next.list
  {
    var p := st.seen[Key(recs[k])];
    assert p in st.list && k in st.list;
    forall t | 0 <= t < |next.list|
      ensures next.list[t] < |recs|
    {
      assert next.list[t] in st.list;
    }
  }

  lemma {:induction false} DropKeepsPrimaries(recs: seq<Record>, k: nat, st: MergeState, next: MergeState, loser: nat)
    requires k < |recs| && SeenInv(recs, k, st.seen) && FixedListInv(recs, k, st)
    requires Key(recs[k]) in st.seen
    requires var p := st.seen[Key(recs[k])];
      && (loser == p || loser == k)
      && next.list == Drop(st.list, loser)
      && next.seen == (if loser == p then st.seen[Key(recs[k]) := k] else st.seen)
      && next.removed == st.removed + 1
    requires SeenInv(recs, k + 1, next.seen)
    ensures forall key :: key in next.seen ==> next.seen[key] in next.list
    ensures forall t :: 0 <= t < |next.list| && next.list[t] < k + 1 ==>
      Key(recs[next.list[t]]) in next.seen && next.list[t] == next.seen[Key(recs[next.list[t]])]
  {
    var key := Key(recs[k]);
    var p := st.seen[key];
    assert p < k && p in st.list && k in st.list;
    forall t | 0 <= t < |next.list| && next.list[t] < k + 1
      ensures Key(recs[next.list[t]]) in next.seen && next.list[t] == next.seen[Key(recs[next.list[t]])]
    {
      var i := next.list[t];
      assert i in st.list && i != loser;
      if i < k {
        var j :| 0 <= j < |st.list| && st.list[j] == i;
        assert i == st.seen[Key(recs[i])];
      }
    }
    forall key' | key' in next.seen
      ensures next.seen[key'] in next.list
    {
      if key' != key {
        assert Key(recs[st.seen[key']]) == key';
      }
    }
  }

  lemma {:induction false} FixedStepInv(recs: seq<Record>, k: nat, st: MergeState)
    requires k < |recs| && WellFormed(st) && |st.heap| == |recs| && FixedInv(recs, k, st)
    ensures FixedInv(recs, k + 1, StepFixed(st, k))
  {
    var next := StepFixed(st, k);
    assert st.heap[k] == recs[k];
    var key := Key(recs[k]);
    StepHeap(recs, k, st);
    StepSeen(recs, k, st);
    assert next.heap == Step(st, k).heap && next.seen == Step(st, k).seen;
    if key !in st.seen {
      assert next == st.(seen := st.seen[key := k]);
      FixedListNew(recs, k, st, next);
    } else {
      var p := st.seen[key];
      var loser := if Switches(st.heap, p, k) then p else k;
      assert next.seen == if loser == p then st.seen[key := k] else st.seen;
      FixedListDrop(recs, k, st, next, loser);
    }
  }

  lemma {:induction false} FixedNextInv(recs: seq<Record>, k: nat)
    requires k < |recs| && FixedInv(recs, k, MergeFixedUpTo(recs, k))
    ensures FixedInv(recs, k + 1, MergeFixedUpTo(recs, k + 1))
  {
    var st := MergeFixedUpTo(recs, k);
    assert MergeFixedUpTo(recs, k + 1) == StepFixed(st, k);
    FixedStepInv(recs, k, st);
  }

  lemma {:induction false} MergeFixedInv(recs: seq<Record>, k: nat)
    requires k <= |recs|
    ensures FixedInv(recs, k, MergeFixedUpTo(recs, k))
  {
    if k == 0 {
      FixedInitInv(recs);
    } else {
      var j := k - 1;
      MergeFixedInv(recs, j);
      FixedNextInv(recs, j);
      assert j + 1 == k;
    }
  }

  /**
   * After the corrected pass every key keeps exactly its current primary:
   * each remaining identity is the primary of its key, each key's primary
   * remains, and that primary has a YC URL whenever some record of the key
   * had one. Remaining records have pairwise different keys.
   */
  lemma {:induction false} MergeFixedKeepsPrimaries(recs: seq<Record>)
    ensures var out := MergeFixed(recs);
      && Unique(out.list)
      && (forall t :: 0 <= t < |out.list| ==>
            out.list[t] < |recs| && Key(recs[out.list[t]]) in out.seen && out.seen[Key(recs[out.list[t]])] == out.list[t])
      && (forall i :: 0 <= i < |recs| ==> Key(recs[i]) in out.seen && out.seen[Key(recs[i])] in out.list)
      && (forall i :: 0 <= i < |recs| && HasYc(recs[i]) ==> HasYc(out.heap[out.seen[Key(recs[i])]]))
      && DistinctKeys(Project(out.heap, out.list))
      && out.removed + |out.list| == |recs|
  {
    var out := MergeFixed(recs);
    MergeFixedInv(recs, |recs|);
    forall i | 0 <= i < |recs| && HasYc(recs[i])
      ensures HasYc(out.heap[out.seen[Key(recs[i])]])
    {
      var p := out.seen[Key(recs[i])];
      assert SameIdentity(out.heap[p], recs[p]);
    }
    var vs := Project(out.heap, out.list);
    forall a, b | 0 <= a < b < |vs|
      ensures Key(vs[a]) != Key(vs[b])
    {
      assert SameIdentity(out.heap[out.list[a]], recs[out.list[a]]);
      assert SameIdentity(out.heap[out.list[b]], recs[out.list[b]]);
    }
  }

  // ----- the corrected pass on the inputs above -----

  /** The record with the YC URL stays, with the LinkedIn fields it may have taken over. */
  lemma {:induction false} SwitchKeepsYcRecordFixed(primary: Record, secondary: Record)
    requires Key(primary) == Key(secondary) && !HasYc(primary) && HasYc(secondary)
    ensures var out := MergeFixed([primary, secondary]);
      && Project(out.heap, out.list) == [Backfill([primary, secondary], 0, 1)[1]]
      && HasYc(out.heap[1]) && out.removed == 1
  {
    var recs := [primary, secondary];
    var key := Key(primary);
    assert Range(0, 2) == [0, 1];
    var init := MergeFixedUpTo(recs, 0);
    assert init == MergeState(recs, [0, 1], map[], 0);
    var first := MergeFixedUpTo(recs, 1);
    assert first == StepFixed(init, 0);
    assert first == MergeState(recs, [0, 1], map[key := 0], 0);
    var heap := Backfill(recs, 0, 1);
    assert Drop([0, 1], 0) == [1];
    assert MergeFixed(recs) == StepFixed(first, 1);
    assert MergeFixed(recs) == MergeState(heap, [1], map[key := 1], 1);
  }

  /** The primary stays and keeps the LinkedIn fields backfilled from the later duplicate. */
  lemma {:induction false} EqualDuplicateKeepsPrimaryFixed(r: Record, q: Record)
    requires Key(r) == Key(q) && HasYc(r) && !HasLinkedin(r) && HasLinkedin(q)
    ensures var out := MergeFixed([r, r, q]);
      Project(out.heap, out.list) == [TakeLinkedin(r, q)] && out.removed == 2
  {
    var recs := [r, r, q];
    var key := Key(r);
    var first := MergeFixedUpTo(recs, 1);
    EqualDuplicateFixedFirst(recs);
    var second := MergeFixedUpTo(recs, 2);
    assert second == StepFixed(first, 1);
    EqualDuplicateFixedSecond(recs, first);
    var heap := [TakeLinkedin(r, q), r, q];
    assert MergeFixed(recs) == StepFixed(second, 2);
    EqualDuplicateFixedThird(recs, second, heap);
    assert Project(heap, [0]) == [TakeLinkedin(r, q)];
  }

  lemma {:induction false} EqualDuplicateFixedSecond(recs: seq<Record>, first: MergeState)
    requires |recs| == 3 && recs[0] == recs[1] && HasYc(recs[0]) && !HasLinkedin(recs[0])
    requires first == MergeState(recs, [0, 1, 2], map[Key(recs[0]) := 0], 0)
    ensures StepFixed(first, 1) == MergeState(recs, [0, 2], map[Key(recs[0]) := 0], 1)
  {
    assert Backfill(recs, 0, 1) == recs;
    assert Drop([0, 1, 2], 1) == [0, 2];
  }

  lemma {:induction false} EqualDuplicateFixedThird(recs: seq<Record>, second: MergeState, heap: seq<Record>)
    requires |recs| == 3 && Key(recs[0]) == Key(recs[2])
    requires HasYc(recs[0]) && !HasLinkedin(recs[0]) && HasLinkedin(recs[2])
    requires second == MergeState(recs, [0, 2], map[Key(recs[0]) := 0], 1)
    requires heap == [TakeLinkedin(recs[0], recs[2]), recs[1], recs[2]]
    ensures StepFixed(second, 2) == MergeState(heap, [0], map[Key(recs[0]) := 0], 2)
  {
    assert Backfill(recs, 0, 2) == heap;
    assert Drop([0, 2], 2) == [0];
  }

  lemma {:induction false} EqualDuplicateFixedFirst(recs: seq<Record>)
    requires |recs| == 3
    ensures MergeFixedUpTo(recs, 1) == MergeState(recs, [0, 1, 2], map[Key(recs[0]) := 0], 0)
  {
    assert Range(0, 3) == [0, 1, 2];
    var init := MergeFixedUpTo(recs, 0);
    assert init == MergeState(recs, [0, 1, 2], map[], 0);
    assert MergeFixedUpTo(recs, 1) == StepFixed(init, 0);
  }
}
