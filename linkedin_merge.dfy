/**
 * `deduplicate_and_merge`: one pass over a copy of the company list that
 * groups records by name key, backfills the three LinkedIn fields between
 * a primary and a later duplicate, removes the duplicate from the list in
 * place and counts the removals.
 *
 * The specification works on identities: `heap[i]` is the current contents
 * of the dictionary that was at position `i` of the input, `list` holds the
 * identities still in the list, and `seen` maps a name key to the identity
 * of its current primary, as the Python dictionary holds a reference.
 */
module LinkedinMerge {
  import opened Optional
  import opened Records
  import LinkedinEnricher
  import opened Text

  /** The name key a record is grouped by. */
  function Key(r: Record): string
  {
    LinkedinEnricher.NormalizeName(r.name)
  }

  /** `record.get("yc_profile_url")` is truthy. */
  predicate HasYc(r: Record)
  {
    Truthy(r.ycProfileUrl)
  }

  /** `record.get("linkedin_url")` is truthy. */
  predicate HasLinkedin(r: Record)
  {
    Truthy(r.linkedinUrl)
  }

  /** `to` with the three LinkedIn fields of `from` copied onto it. */
  function TakeLinkedin(to: Record, from: Record): Record
  {
    to.(linkedinUrl := from.linkedinUrl, mentionsS25 := from.mentionsS25, linkedinMatch := from.linkedinMatch)
  }

  /** The fields the merge never writes agree. */
  predicate SameIdentity(a: Record, b: Record)
  {
    a.name == b.name && a.description == b.description && a.website == b.website
    && a.ycProfileUrl == b.ycProfileUrl && a.source == b.source
  }

  datatype MergeState = MergeState(heap: seq<Record>, list: seq<nat>, seen: map<string, nat>, removed: nat)

  /** Every identity the state mentions names a record. */
  predicate WellFormed(st: MergeState)
  {
    && (forall key :: key in st.seen ==> st.seen[key] < |st.heap|)
    && (forall t :: 0 <= t < |st.list| ==> st.list[t] < |st.heap|)
  }

  function Range(a: nat, b: nat): (r: seq<nat>)
    requires a <= b
    ensures |r| == b - a && forall t :: 0 <= t < |r| ==> r[t] == a + t
  {
    seq(b - a, t => a + t)
  }

  /** The records the identities `ids` stand for, in order. */
  function Project(heap: seq<Record>, ids: seq<nat>): (vs: seq<Record>)
    requires forall t :: 0 <= t < |ids| ==> ids[t] < |heap|
    ensures |vs| == |ids| && forall t :: 0 <= t < |ids| ==> vs[t] == heap[ids[t]]
  {
    seq(|ids|, t requires 0 <= t < |ids| => heap[ids[t]])
  }

  /** The position `list.remove` deletes: the first element equal to `v`, or `|vs|` when there is none. */
  function IndexOf(vs: seq<Record>, v: Record): (j: nat)
    ensures j <= |vs|
    ensures j < |vs| ==> vs[j] == v
  {
    if vs == [] then 0 else if vs[0] == v then 0 else 1 + IndexOf(vs[1..], v)
  }

  /** No element before the one `IndexOf` answers equals `v`. */
  lemma {:induction false} IndexOfIsFirst(vs: seq<Record>, v: Record, t: nat)
    requires t < |vs| && vs[t] == v
    ensures IndexOf(vs, v) <= t
  {
    if vs[0] != v {
      IndexOfIsFirst(vs[1..], v, t - 1);
    }
  }

  lemma {:induction false} IndexOfSkips(vs: seq<Record>, v: Record, t: nat)
    requires t < IndexOf(vs, v)
    ensures vs[t] != v
  {
    if t > 0 {
      IndexOfSkips(vs[1..], v, t - 1);
    }
  }

  function RemoveAt(xs: seq<nat>, j: nat): (r: seq<nat>)
    requires j < |xs|
    ensures |r| == |xs| - 1
    ensures forall t :: 0 <= t < |r| ==> r[t] == if t < j then xs[t] else xs[t + 1]
  {
    xs[..j] + xs[j + 1..]
  }

  /**
   * The field backfill between the primary `p` and the secondary `k`: an
   * authoritative primary (with a YC URL) takes the secondary's LinkedIn
   * fields when it has no LinkedIn URL and the secondary has one; otherwise
   * a secondary with a YC URL takes the primary's when it has no LinkedIn
   * URL and the primary has one.
   */
  function Backfill(heap: seq<Record>, p: nat, k: nat): (h: seq<Record>)
    requires p < |heap| && k < |heap|
    ensures |h| == |heap|
  {
    if HasYc(heap[p]) then
      if !HasLinkedin(heap[p]) && HasLinkedin(heap[k]) then heap[p := TakeLinkedin(heap[p], heap[k])] else heap
    else if HasYc(heap[k]) && !HasLinkedin(heap[k]) && HasLinkedin(heap[p]) then
      heap[k := TakeLinkedin(heap[k], heap[p])]
    else heap
  }

  /** The secondary becomes the primary of its key: the primary has no YC URL, the secondary has one. */
  predicate Switches(heap: seq<Record>, p: nat, k: nat)
    requires p < |heap| && k < |heap|
  {
    !HasYc(heap[p]) && HasYc(heap[k])
  }

  /**
   * One iteration for the record `k` of the copy: a new key makes it the
   * primary; a known key backfills, possibly switches the primary, and
   * removes from the list the first record equal to the secondary.
   */
  function Step(st: MergeState, k: nat): (r: MergeState)
    requires WellFormed(st) && k < |st.heap|
    ensures WellFormed(r) && |r.heap| == |st.heap|
  {
    var key := Key(st.heap[k]);
    if key !in st.seen then st.(seen := st.seen[key := k])
    else
      var p := st.seen[key];
      var heap := Backfill(st.heap, p, k);
      var seen := if Switches(st.heap, p, k) then st.seen[key := k] else st.seen;
      var j := IndexOf(Project(heap, st.list), heap[k]);
      var list := if j < |st.list| then RemoveAt(st.list, j) else st.list;
      MergeState(heap, list, seen, st.removed + 1)
  }

  /** The state after the first `k` iterations. */
  function MergeUpTo(recs: seq<Record>, k: nat): (st: MergeState)
    requires k <= |recs|
    ensures WellFormed(st) && |st.heap| == |recs|
  {
    if k == 0 then MergeState(recs, Range(0, |recs|), map[], 0)
    else Step(MergeUpTo(recs, k - 1), k - 1)
  }

  /** The state after the whole pass. */
  function Merge(recs: seq<Record>): MergeState
  {
    MergeUpTo(recs, |recs|)
  }

  // ----- the loop invariant -----

  /**
   * What the merge may do to one record: keep its identity, and change it
   * only when it has a YC URL and no LinkedIn URL, giving it a LinkedIn URL.
   */
  predicate Evolved(orig: Record, now: Record)
  {
    SameIdentity(now, orig) && (now == orig || (HasYc(orig) && !HasLinkedin(orig) && HasLinkedin(now)))
  }

  /** Every record evolved from its original; those not yet visited are untouched. */
  ghost predicate HeapInv(recs: seq<Record>, k: nat, heap: seq<Record>)
  {
    && |heap| == |recs| && k <= |recs|
    && (forall i :: 0 <= i < |recs| ==> Evolved(recs[i], heap[i]))
    && (forall i :: k <= i < |recs| ==> heap[i] == recs[i])
  }

  /**
   * `seen` holds exactly the keys visited, each mapped to a visited record
   * of that key, and that record has a YC URL whenever a visited record of
   * the key has one.
   */
  ghost predicate SeenInv(recs: seq<Record>, k: nat, seen: map<string, nat>)
    requires k <= |recs|
  {
    && (forall key :: key in seen ==> seen[key] < k && Key(recs[seen[key]]) == key)
    && (forall i :: 0 <= i < k ==> Key(recs[i]) in seen)
    && (forall i :: 0 <= i < k && HasYc(recs[i]) ==> HasYc(recs[seen[Key(recs[i])]]))
  }

  /**
   * The list is a strictly increasing run of visited identities with
   * pairwise different keys, one for every visited key, followed by all
   * the identities not yet visited; with the removals it accounts for the
   * whole input.
   */
  /** The name key of every record, by identity. */
  function Keys(recs: seq<Record>): (keys: seq<string>)
    ensures |keys| == |recs| && forall i :: 0 <= i < |recs| ==> keys[i] == Key(recs[i])
  {
    seq(|recs|, i requires 0 <= i < |recs| => Key(recs[i]))
  }

  /** A run of visited identities: below `k`, strictly increasing, with pairwise different keys. */
  ghost predicate VisitedRun(keys: seq<string>, k: nat, run: seq<nat>)
    requires k <= |keys|
  {
    && (forall a :: 0 <= a < |run| ==> run[a] < k)
    && (forall a, b :: 0 <= a < b < |run| ==> run[a] < run[b])
    && (forall a, b :: 0 <= a < b < |run| ==> keys[run[a]] != keys[run[b]])
  }

  /** Some identity of the run has the key. */
  ghost predicate Covers(keys: seq<string>, run: seq<nat>, key: string)
  {
    exists a :: 0 <= a < |run| && run[a] < |keys| && keys[run[a]] == key
  }

  ghost predicate ListInv(keys: seq<string>, k: nat, list: seq<nat>, removed: nat)
    requires k <= |keys|
  {
    var n := |keys|;
    && |list| >= n - k
    && var m := |list| - (n - k);
    && list[m..] == Range(k, n)
    && VisitedRun(keys, k, list[..m])
    && (forall i {:trigger Covers(keys, list[..m], keys[i])} :: 0 <= i < k ==> Covers(keys, list[..m], keys[i]))
    && removed + |list| == n
  }

  ghost predicate Inv(recs: seq<Record>, k: nat, st: MergeState)
  {
    k <= |recs| && HeapInv(recs, k, st.heap) && SeenInv(recs, k, st.seen) && ListInv(Keys(recs), k, st.list, st.removed)
  }

  lemma {:induction false} InitInv(recs: seq<Record>)
    ensures Inv(recs, 0, MergeUpTo(recs, 0))
  {
    var st := MergeUpTo(recs, 0);
    assert st.list[0..] == Range(0, |recs|);
  }

  lemma {:induction false} StepHeap(recs: seq<Record>, k: nat, st: MergeState)
    requires k < |recs| && WellFormed(st) && HeapInv(recs, k, st.heap)
    requires forall key :: key in st.seen ==> st.seen[key] < k
    ensures HeapInv(recs, k + 1, Step(st, k).heap)
  {
    var key := Key(st.heap[k]);
    assert st.heap[k] == recs[k];
    if key in st.seen {
      var p := st.seen[key];
      var h := Backfill(st.heap, p, k);
      assert Step(st, k).heap == h;
      if HasYc(st.heap[p]) && !HasLinkedin(st.heap[p]) && HasLinkedin(st.heap[k]) {
        assert st.heap[p] == recs[p];
        assert h == st.heap[p := TakeLinkedin(recs[p], st.heap[k])];
      } else if !HasYc(st.heap[p]) && HasYc(st.heap[k]) && !HasLinkedin(st.heap[k]) && HasLinkedin(st.heap[p]) {
        assert h == st.heap[k := TakeLinkedin(recs[k], st.heap[p])];
      } else {
        assert h == st.heap;
      }
    }
  }

  lemma {:induction false} StepSeen(recs: seq<Record>, k: nat, st: MergeState)
    requires k < |recs| && WellFormed(st) && HeapInv(recs, k, st.heap) && SeenInv(recs, k, st.seen)
    ensures SeenInv(recs, k + 1, Step(st, k).seen)
  {
    assert st.heap[k] == recs[k];
    var key := Key(recs[k]);
    if key in st.seen {
      var p := st.seen[key];
      assert HasYc(st.heap[p]) == HasYc(recs[p]);
      StepSeenWith(recs, k, st.seen, if Switches(st.heap, p, k) then st.seen[key := k] else st.seen);
    } else {
      StepSeenWith(recs, k, st.seen, st.seen[key := k]);
    }
  }

  /** The seen map after visiting `k`: the key of `k` maps to `k` or to a primary with a YC URL if `k` has one. */
  lemma {:induction false} StepSeenWith(recs: seq<Record>, k: nat, before: map<string, nat>, seen: map<string, nat>)
    requires k < |recs| && SeenInv(recs, k, before)
    requires forall key :: key in seen && key != Key(recs[k]) ==> key in before && seen[key] == before[key]
    requires forall key :: key in before ==> key in seen
    requires Key(recs[k]) in seen
    requires seen[Key(recs[k])] == k || (Key(recs[k]) in before && seen[Key(recs[k])] == before[Key(recs[k])])
    requires seen[Key(recs[k])] == k || HasYc(recs[before[Key(recs[k])]]) || !HasYc(recs[k])
    requires seen[Key(recs[k])] == k ==> HasYc(recs[k]) || Key(recs[k]) !in before
    ensures SeenInv(recs, k + 1, seen)
  {
    var key := Key(recs[k]);
    forall i | 0 <= i < k + 1 && HasYc(recs[i])
      ensures Key(recs[i]) in seen && seen[Key(recs[i])] < |recs| && HasYc(recs[seen[Key(recs[i])]])
    {
      if Key(recs[i]) != key {
        assert seen[Key(recs[i])] == before[Key(recs[i])];
      } else if i < k && seen[key] != k {
        assert HasYc(recs[before[key]]);
      }
    }
  }

  lemma {:induction false} RangeTail(k: nat, n: nat)
    requires k < n
    ensures Range(k, n)[0] == k && Range(k, n)[1..] == Range(k + 1, n)
  {
  }

  /** A new key: the list is unchanged and the record becomes the last of the visited run. */
  lemma {:induction false} ListNew(keys: seq<string>, k: nat, list: seq<nat>, removed: nat)
    requires k < |keys| && ListInv(keys, k, list, removed)
    requires forall i :: 0 <= i < k ==> keys[i] != keys[k]
    ensures ListInv(keys, k + 1, list, removed)
  {
    var n := |keys|;
    var m := |list| - (n - k);
    var run := list[..m];
    RangeTail(k, n);
    assert list[m] == list[m..][0] == k;
    assert list[m + 1..] == list[m..][1..];
    assert list[..m + 1] == run + [k];
    forall a | 0 <= a < m ensures keys[run[a]] != keys[k] {
      assert run[a] < k;
    }
    forall i {:trigger Covers(keys, run + [k], keys[i])} | 0 <= i < k + 1 ensures Covers(keys, run + [k], keys[i]) {
      if i == k {
        assert (run + [k])[m] == k;
      } else {
        assert Covers(keys, run, keys[i]);
        CoversExtend(keys, run, k, keys[i]);
      }
    }
  }

  lemma {:induction false} CoversExtend(keys: seq<string>, run: seq<nat>, x: nat, key: string)
    requires Covers(keys, run, key)
    ensures Covers(keys, run + [x], key)
  {
    var a :| 0 <= a < |run| && run[a] < |keys| && keys[run[a]] == key;
    assert (run + [x])[a] == run[a];
  }

  /** A known key, and `list.remove` deletes the secondary itself. */
  lemma {:induction false} ListDropSecondary(keys: seq<string>, k: nat, list: seq<nat>, removed: nat, p: nat)
    requires k < |keys| && ListInv(keys, k, list, removed)
    requires p < k && keys[p] == keys[k]
    ensures var m := |list| - (|keys| - k);
      m < |list| && ListInv(keys, k + 1, RemoveAt(list, m), removed + 1)
  {
    var n := |keys|;
    var m := |list| - (n - k);
    var r := RemoveAt(list, m);
    RangeTail(k, n);
    assert r[..m] == list[..m];
    assert r[m..] == list[m + 1..] == list[m..][1..];
    assert Covers(keys, list[..m], keys[p]);
  }

  /** The visited run without its element `j`, with `k` appended: `k`'s key replaces the same key. */
  lemma {:induction false} RunReplace(keys: seq<string>, k: nat, run: seq<nat>, j: nat)
    requires k < |keys| && VisitedRun(keys, k, run)
    requires j < |run| && keys[run[j]] == keys[k]
    ensures VisitedRun(keys, k + 1, run[..j] + run[j + 1..] + [k])
    ensures forall key :: Covers(keys, run, key) ==> Covers(keys, run[..j] + run[j + 1..] + [k], key)
  {
    var r := run[..j] + run[j + 1..] + [k];
    assert |r| == |run|;
    forall a | 0 <= a < |r| - 1 ensures r[a] == run[if a < j then a else a + 1] {
    }
    forall a | 0 <= a < |r| - 1 ensures keys[r[a]] != keys[k] {
      var o := if a < j then a else a + 1;
      if o < j {
        assert keys[run[o]] != keys[run[j]];
      } else {
        assert keys[run[j]] != keys[run[o]];
      }
    }
    forall a, b | 0 <= a < b < |r| ensures r[a] < r[b] && keys[r[a]] != keys[r[b]] {
      var oa := if a < j then a else a + 1;
      var ob := if b < j then b else b + 1;
      if b < |r| - 1 {
        assert r[a] == run[oa] && r[b] == run[ob] && oa < ob;
      } else {
        assert r[b] == k;
      }
    }
    forall key | Covers(keys, run, key) ensures Covers(keys, r, key) {
      var a :| 0 <= a < |run| && run[a] < |keys| && keys[run[a]] == key;
      if a == j {
        assert r[|r| - 1] == k;
      } else {
        var o := if a < j then a else a - 1;
        assert r[o] == run[a];
      }
    }
  }

  /** A known key, and `list.remove` deletes the equal record at `j` of the visited run. */
  lemma {:induction false} ListDropEarlier(keys: seq<string>, k: nat, list: seq<nat>, removed: nat, j: nat)
    requires k < |keys| && ListInv(keys, k, list, removed)
    requires j < |list| - (|keys| - k) && keys[list[j]] == keys[k]
    ensures ListInv(keys, k + 1, RemoveAt(list, j), removed + 1)
  {
    var n := |keys|;
    var m := |list| - (n - k);
    var run := list[..m];
    var r := RemoveAt(list, j);
    RangeTail(k, n);
    assert list[m] == list[m..][0] == k;
    assert r[..m] == run[..j] + run[j + 1..] + [k];
    assert r[m..] == list[m + 1..] == list[m..][1..];
    RunReplace(keys, k, run, j);
    CoversAfterReplace(keys, k, run, r[..m], j);
    ListInvFrom(keys, k + 1, r, removed + 1, m);
  }

  /** The list invariant from its parts, with the visited run `list[..m]`. */
  lemma {:induction false} ListInvFrom(keys: seq<string>, k: nat, list: seq<nat>, removed: nat, m: nat)
    requires k <= |keys| && m + (|keys| - k) == |list| && removed + |list| == |keys|
    requires list[m..] == Range(k, |keys|) && VisitedRun(keys, k, list[..m])
    requires forall i {:trigger Covers(keys, list[..m], keys[i])} :: 0 <= i < k ==> Covers(keys, list[..m], keys[i])
    ensures ListInv(keys, k, list, removed)
  {
  }

  /** Every visited key, and the key of `k`, is still covered after the replacement. */
  lemma {:induction false} CoversAfterReplace(keys: seq<string>, k: nat, run: seq<nat>, run': seq<nat>, j: nat)
    requires k < |keys| && j < |run| && run' == run[..j] + run[j + 1..] + [k]
    requires forall i {:trigger Covers(keys, run, keys[i])} :: 0 <= i < k ==> Covers(keys, run, keys[i])
    requires forall key :: Covers(keys, run, key) ==> Covers(keys, run', key)
    ensures forall i {:trigger Covers(keys, run', keys[i])} :: 0 <= i < k + 1 ==> Covers(keys, run', keys[i])
  {
    assert run'[|run'| - 1] == k;
  }

  /** A known key: `list.remove` finds the secondary itself or an equal record of the visited run. */
  lemma {:induction false} StepFinds(recs: seq<Record>, k: nat, st: MergeState)
    requires k < |recs| && WellFormed(st) && Inv(recs, k, st)
    requires Key(st.heap[k]) in st.seen
    ensures var h := Backfill(st.heap, st.seen[Key(st.heap[k])], k);
      IndexOf(Project(h, st.list), h[k]) <= |st.list| - (|recs| - k)
  {
    var n := |recs|;
    var h := Backfill(st.heap, st.seen[Key(st.heap[k])], k);
    var m := |st.list| - (n - k);
    assert st.list[m] == Range(k, n)[0] == k;
    IndexOfIsFirst(Project(h, st.list), h[k], m);
  }

  lemma {:induction false} StepList(recs: seq<Record>, k: nat, st: MergeState)
    requires k < |recs| && WellFormed(st) && Inv(recs, k, st)
    ensures ListInv(Keys(recs), k + 1, Step(st, k).list, Step(st, k).removed)
  {
    var keys := Keys(recs);
    var n := |recs|;
    assert st.heap[k] == recs[k];
    var key := Key(recs[k]);
    var r := Step(st, k);
    if key !in st.seen {
      ListNew(keys, k, st.list, st.removed);
      assert r.list == st.list && r.removed == st.removed;
    } else {
      var p := st.seen[key];
      var h := Backfill(st.heap, p, k);
      var j := IndexOf(Project(h, st.list), h[k]);
      var m := |st.list| - (n - k);
      StepFinds(recs, k, st);
      assert r.list == RemoveAt(st.list, j) && r.removed == st.removed + 1;
      if j == m {
        ListDropSecondary(keys, k, st.list, st.removed, p);
      } else {
        StepHeap(recs, k, st);
        assert h[st.list[j]].name == h[k].name == recs[k].name;
        assert SameIdentity(h[st.list[j]], recs[st.list[j]]);
        ListDropEarlier(keys, k, st.list, st.removed, j);
      }
    }
  }

  lemma {:induction false} StepInv(recs: seq<Record>, k: nat, st: MergeState)
    requires k < |recs| && WellFormed(st) && Inv(recs, k, st)
    ensures Inv(recs, k + 1, Step(st, k))
  {
    StepHeap(recs, k, st);
    StepSeen(recs, k, st);
    StepList(recs, k, st);
  }

  lemma {:induction false} NextInv(recs: seq<Record>, k: nat)
    requires k < |recs| && Inv(recs, k, MergeUpTo(recs, k))
    ensures Inv(recs, k + 1, MergeUpTo(recs, k + 1))
  {
    var st := MergeUpTo(recs, k);
    assert MergeUpTo(recs, k + 1) == Step(st, k);
    StepInv(recs, k, st);
  }

  /** The invariant holds after every number of iterations. */
  lemma {:induction false} MergeInv(recs: seq<Record>, k: nat)
    requires k <= |recs|
    ensures Inv(recs, k, MergeUpTo(recs, k))
  {
    if k == 0 {
      InitInv(recs);
    } else {
      var j := k - 1;
      MergeInv(recs, j);
      NextInv(recs, j);
      assert j + 1 == k;
    }
  }

  // ----- what the pass guarantees -----

  /** The surviving records keep their input order: their identities strictly increase. */
  lemma {:induction false} MergeKeepsOrder(recs: seq<Record>)
    ensures var out := Merge(recs);
      && (forall a :: 0 <= a < |out.list| ==> out.list[a] < |recs|)
      && (forall a, b :: 0 <= a < b < |out.list| ==> out.list[a] < out.list[b])
  {
    var out := Merge(recs);
    MergeInv(recs, |recs|);
    assert ListInv(Keys(recs), |recs|, out.list, out.removed);
    ListInvAtEnd(Keys(recs), out.list, out.removed);
  }

  /**
   * Exactly one record per name key survives: the survivors' keys are
   * pairwise different, every input key is among them, and the removal
   * count is the input length minus the output length.
   */
  lemma {:induction false} MergeOnePerKey(recs: seq<Record>)
    ensures var out := Merge(recs);
      var survivors := Project(out.heap, out.list);
      && DistinctKeys(survivors)
      && (forall i :: 0 <= i < |recs| ==> Represented(survivors, Key(recs[i])))
      && out.removed == |recs| - |survivors|
  {
    MergeInv(recs, |recs|);
    OnePerKeyAtEnd(recs, Merge(recs));
  }

  /** After the last iteration the visited run is the whole list. */
  lemma {:induction false} ListInvAtEnd(keys: seq<string>, list: seq<nat>, removed: nat)
    requires ListInv(keys, |keys|, list, removed)
    ensures VisitedRun(keys, |keys|, list)
    ensures forall i {:trigger Covers(keys, list, keys[i])} :: 0 <= i < |keys| ==> Covers(keys, list, keys[i])
    ensures removed + |list| == |keys|
  {
    assert list[..|list|] == list;
  }

  /** No two records of `rs` share a name key. */
  predicate DistinctKeys(rs: seq<Record>)
  {
    forall a, b :: 0 <= a < b < |rs| ==> Key(rs[a]) != Key(rs[b])
  }

  /** Some record of `rs` has the name key `key`. */
  ghost predicate Represented(rs: seq<Record>, key: string)
  {
    exists a :: 0 <= a < |rs| && Key(rs[a]) == key
  }

  lemma {:induction false} OnePerKeyAtEnd(recs: seq<Record>, out: MergeState)
    requires WellFormed(out) && Inv(recs, |recs|, out)
    ensures var survivors := Project(out.heap, out.list);
      && DistinctKeys(survivors)
      && (forall i :: 0 <= i < |recs| ==> Represented(survivors, Key(recs[i])))
      && out.removed == |recs| - |survivors|
  {
    ListInvAtEnd(Keys(recs), out.list, out.removed);
    SurvivorKeys(recs, out.heap, out.list);
  }

  lemma {:induction false} SurvivorKeys(recs: seq<Record>, heap: seq<Record>, list: seq<nat>)
    requires |heap| == |recs| && forall i :: 0 <= i < |recs| ==> SameIdentity(heap[i], recs[i])
    requires VisitedRun(Keys(recs), |recs|, list)
    requires forall i {:trigger Covers(Keys(recs), list, Keys(recs)[i])} :: 0 <= i < |recs| ==> Covers(Keys(recs), list, Keys(recs)[i])
    ensures var survivors := Project(heap, list);
      && DistinctKeys(survivors)
      && (forall i :: 0 <= i < |recs| ==> Represented(survivors, Key(recs[i])))
  {
    var keys := Keys(recs);
    var survivors := Project(heap, list);
    forall a | 0 <= a < |survivors| ensures Key(survivors[a]) == keys[list[a]] {
      assert survivors[a].name == recs[list[a]].name;
    }
    forall i | 0 <= i < |recs| ensures Represented(survivors, Key(recs[i])) {
      assert Covers(keys, list, keys[i]);
      var a :| 0 <= a < |list| && list[a] < |recs| && keys[list[a]] == keys[i];
      assert Key(survivors[a]) == Key(recs[i]);
    }
  }

  /**
   * Only the LinkedIn fields ever change, and only on a record with a YC URL
   * and no LinkedIn URL, which then has a LinkedIn URL: a record that
   * already has one is never overwritten.
   */
  lemma {:induction false} MergeOnlyBackfills(recs: seq<Record>)
    ensures var out := Merge(recs);
      forall i :: 0 <= i < |recs| ==>
        && SameIdentity(out.heap[i], recs[i])
        && (out.heap[i] == recs[i] || (HasYc(recs[i]) && !HasLinkedin(recs[i]) && HasLinkedin(out.heap[i])))
  {
    MergeInv(recs, |recs|);
    var out := Merge(recs);
    forall i | 0 <= i < |recs| ensures Evolved(recs[i], out.heap[i]) {
    }
  }

  // ----- one iteration with a known key -----

  /**
   * The primary has a YC URL: it takes exactly the three LinkedIn fields of
   * the secondary when it has no LinkedIn URL and the secondary has one;
   * no other record changes, and the first listed record equal to the
   * secondary leaves the list.
   */
  lemma {:induction false} AuthoritativeStep(recs: seq<Record>, k: nat, st: MergeState)
    requires k < |recs| && st == MergeUpTo(recs, k)
    requires Key(recs[k]) in st.seen && HasYc(st.heap[st.seen[Key(recs[k])]])
    ensures var p := st.seen[Key(recs[k])];
      var next := Step(st, k);
      && next.seen == st.seen
      && (forall i :: 0 <= i < |recs| && i != p ==> next.heap[i] == st.heap[i])
      && next.heap[p] == (if !HasLinkedin(st.heap[p]) && HasLinkedin(recs[k])
          then st.heap[p].(linkedinUrl := recs[k].linkedinUrl, mentionsS25 := recs[k].mentionsS25, linkedinMatch := recs[k].linkedinMatch)
          else st.heap[p])
      && next.heap[k] == recs[k] && RemovesFirstEqual(next.heap, st.list, next.list, recs[k])
      && next.removed == st.removed + 1
  {
    MergeInv(recs, k);
    AuthoritativeStepOf(recs, k, st);
  }

  lemma {:induction false} AuthoritativeStepOf(recs: seq<Record>, k: nat, st: MergeState)
    requires k < |recs| && WellFormed(st) && Inv(recs, k, st)
    requires Key(recs[k]) in st.seen && HasYc(st.heap[st.seen[Key(recs[k])]])
    ensures var p := st.seen[Key(recs[k])];
      var next := Step(st, k);
      && next.seen == st.seen
      && (forall i :: 0 <= i < |recs| && i != p ==> next.heap[i] == st.heap[i])
      && next.heap[p] == (if !HasLinkedin(st.heap[p]) && HasLinkedin(recs[k])
          then st.heap[p].(linkedinUrl := recs[k].linkedinUrl, mentionsS25 := recs[k].mentionsS25, linkedinMatch := recs[k].linkedinMatch)
          else st.heap[p])
      && next.heap[k] == recs[k] && RemovesFirstEqual(next.heap, st.list, next.list, recs[k])
      && next.removed == st.removed + 1
  {
    assert st.heap[k] == recs[k];
    assert st.seen[Key(recs[k])] < k;
    KnownKeyRemoves(recs, k, st);
  }

  /** `list.remove(v)` on identities: the first listed record equal to `v` leaves the list. */
  ghost predicate RemovesFirstEqual(heap: seq<Record>, list: seq<nat>, list': seq<nat>, v: Record)
  {
    exists j :: 0 <= j < |list| && list[j] < |heap| && heap[list[j]] == v
      && (forall t :: 0 <= t < j ==> list[t] < |heap| && heap[list[t]] != v)
      && list' == RemoveAt(list, j)
  }

  /** With a known key, the iteration removes the first listed record equal to the (backfilled) secondary. */
  lemma {:induction false} KnownKeyRemoves(recs: seq<Record>, k: nat, st: MergeState)
    requires k < |recs| && WellFormed(st) && Inv(recs, k, st)
    requires Key(recs[k]) in st.seen
    ensures var next := Step(st, k); RemovesFirstEqual(next.heap, st.list, next.list, next.heap[k])
  {
    assert st.heap[k] == recs[k];
    var next := Step(st, k);
    var h := Backfill(st.heap, st.seen[Key(recs[k])], k);
    assert next.heap == h;
    var vs := Project(h, st.list);
    var j := IndexOf(vs, h[k]);
    StepFinds(recs, k, st);
    assert next.list == RemoveAt(st.list, j);
    forall t | 0 <= t < j ensures st.list[t] < |h| && h[st.list[t]] != h[k] {
      IndexOfSkips(vs, h[k], t);
    }
    assert st.list[j] < |h| && h[st.list[j]] == h[k];
  }

  /**
   * The primary has no YC URL and the secondary has one: the secondary
   * takes the primary's LinkedIn fields when it has none, becomes the
   * primary of the key, and is still the record removed from the list;
   * the old primary is not changed.
   */
  lemma {:induction false} SwitchStep(recs: seq<Record>, k: nat, st: MergeState)
    requires k < |recs| && st == MergeUpTo(recs, k)
    requires Key(recs[k]) in st.seen && !HasYc(st.heap[st.seen[Key(recs[k])]]) && HasYc(recs[k])
    ensures var p := st.seen[Key(recs[k])];
      var next := Step(st, k);
      var m := |st.list| - (|recs| - k);
      && next.seen == st.seen[Key(recs[k]) := k]
      && (forall i :: 0 <= i < |recs| && i != k ==> next.heap[i] == st.heap[i])
      && next.heap[k] == (if !HasLinkedin(recs[k]) && HasLinkedin(st.heap[p])
          then recs[k].(linkedinUrl := st.heap[p].linkedinUrl, mentionsS25 := st.heap[p].mentionsS25, linkedinMatch := st.heap[p].linkedinMatch)
          else recs[k])
      && 0 <= m < |st.list| && st.list[m] == k && next.list == RemoveAt(st.list, m)
      && next.removed == st.removed + 1
  {
    MergeInv(recs, k);
    SwitchStepOf(recs, k, st);
  }

  lemma {:induction false} SwitchStepOf(recs: seq<Record>, k: nat, st: MergeState)
    requires k < |recs| && WellFormed(st) && Inv(recs, k, st)
    requires Key(recs[k]) in st.seen && !HasYc(st.heap[st.seen[Key(recs[k])]]) && HasYc(recs[k])
    ensures var p := st.seen[Key(recs[k])];
      var next := Step(st, k);
      var m := |st.list| - (|recs| - k);
      && next.seen == st.seen[Key(recs[k]) := k]
      && (forall i :: 0 <= i < |recs| && i != k ==> next.heap[i] == st.heap[i])
      && next.heap[k] == (if !HasLinkedin(recs[k]) && HasLinkedin(st.heap[p])
          then recs[k].(linkedinUrl := st.heap[p].linkedinUrl, mentionsS25 := st.heap[p].mentionsS25, linkedinMatch := st.heap[p].linkedinMatch)
          else recs[k])
      && 0 <= m < |st.list| && st.list[m] == k && next.list == RemoveAt(st.list, m)
      && next.removed == st.removed + 1
  {
    var p := st.seen[Key(recs[k])];
    assert st.heap[k] == recs[k];
    assert Step(st, k).heap == Backfill(st.heap, p, k);
    SwitchRemovesSecondary(recs, k, st);
  }

  /** In the switch case `list.remove` finds the secondary itself: no visited record of its key has a YC URL. */
  lemma {:induction false} SwitchRemovesSecondary(recs: seq<Record>, k: nat, st: MergeState)
    requires k < |recs| && WellFormed(st) && Inv(recs, k, st)
    requires Key(recs[k]) in st.seen && !HasYc(st.heap[st.seen[Key(recs[k])]]) && HasYc(recs[k])
    ensures var h := Backfill(st.heap, st.seen[Key(recs[k])], k);
      var m := |st.list| - (|recs| - k);
      0 <= m < |st.list| && st.list[m] == k && IndexOf(Project(h, st.list), h[k]) == m
  {
    var n := |recs|;
    var key := Key(recs[k]);
    var p := st.seen[key];
    var h := Backfill(st.heap, p, k);
    var m := |st.list| - (n - k);
    var vs := Project(h, st.list);
    assert st.heap[k] == recs[k];
    assert HasYc(h[k]);
    StepFinds(recs, k, st);
    assert !HasYc(recs[p]) by {
      assert SameIdentity(st.heap[p], recs[p]);
    }
    forall t | 0 <= t < m ensures vs[t] != h[k] {
      var i := st.list[t];
      assert st.list[..m][t] == i;
      assert SameIdentity(h[i], recs[i]);
      if Key(recs[i]) == key {
        assert !HasYc(recs[i]);
      }
    }
  }

  /**
   * Neither record has a YC URL: nothing is backfilled, `seen` is kept, and
   * the first listed record equal to the secondary leaves the list.
   */
  lemma {:induction false} NeitherStep(recs: seq<Record>, k: nat, st: MergeState)
    requires k < |recs| && st == MergeUpTo(recs, k)
    requires Key(recs[k]) in st.seen && !HasYc(st.heap[st.seen[Key(recs[k])]]) && !HasYc(recs[k])
    ensures var next := Step(st, k);
      && next.heap == st.heap && next.seen == st.seen
      && RemovesFirstEqual(st.heap, st.list, next.list, recs[k]) && next.removed == st.removed + 1
  {
    MergeInv(recs, k);
    assert st.heap[k] == recs[k];
    KnownKeyRemoves(recs, k, st);
  }

  // ----- a second pass -----

  /** On records whose keys are pairwise different every key is new: nothing changes and nothing is removed. */
  lemma {:induction false} DistinctKeysUpTo(recs: seq<Record>, k: nat)
    requires k <= |recs| && DistinctKeys(recs)
    ensures Untouched(recs, k, MergeUpTo(recs, k))
  {
    if k > 0 {
      DistinctKeysUpTo(recs, k - 1);
      FreshKeyStep(recs, k - 1);
    }
  }

  /** After `k` iterations over distinct keys: all records and identities in place, `seen` holds visited keys. */
  ghost predicate Untouched(recs: seq<Record>, k: nat, st: MergeState)
  {
    && st.heap == recs && st.list == Range(0, |recs|) && st.removed == 0
    && forall key :: key in st.seen ==> st.seen[key] < k && st.seen[key] < |recs| && Key(recs[st.seen[key]]) == key
  }

  lemma {:induction false} FreshKeyStep(recs: seq<Record>, k: nat)
    requires k < |recs| && DistinctKeys(recs)
    requires Untouched(recs, k, MergeUpTo(recs, k))
    ensures Untouched(recs, k + 1, MergeUpTo(recs, k + 1))
  {
    var st := MergeUpTo(recs, k);
    assert Key(st.heap[k]) !in st.seen;
    assert MergeUpTo(recs, k + 1) == st.(seen := st.seen[Key(recs[k]) := k]);
  }

  lemma {:induction false} MergeDistinctKeysIsNoop(recs: seq<Record>)
    requires DistinctKeys(recs)
    ensures var out := Merge(recs);
      out.heap == recs && out.list == Range(0, |recs|) && out.removed == 0 && Project(out.heap, out.list) == recs
  {
    DistinctKeysUpTo(recs, |recs|);
    var out := Merge(recs);
    assert Project(out.heap, out.list) == recs;
  }

  /** Merging the survivors again removes nothing and changes nothing: the pass is idempotent. */
  lemma {:induction false} MergeIdempotent(recs: seq<Record>)
    ensures var out := Merge(recs);
      var survivors := Project(out.heap, out.list);
      var again := Merge(survivors);
      again.removed == 0 && Project(again.heap, again.list) == survivors
  {
    MergeOnePerKey(recs);
    var out := Merge(recs);
    MergeDistinctKeysIsNoop(Project(out.heap, out.list));
  }

  // ----- consequences and examples -----

  /** Records that all share one name key leave exactly one survivor. */
  lemma {:induction false} SameKeyLeavesOne(recs: seq<Record>)
    requires |recs| > 0 && forall i :: 0 <= i < |recs| ==> Key(recs[i]) == Key(recs[0])
    ensures |Merge(recs).list| == 1 && Merge(recs).removed == |recs| - 1
  {
    MergeOnePerKey(recs);
    MergeOnlyBackfills(recs);
    MergeKeepsOrder(recs);
    var out := Merge(recs);
    var survivors := Project(out.heap, out.list);
    assert Represented(survivors, Key(recs[0]));
    forall a | 0 <= a < |survivors| ensures Key(survivors[a]) == Key(recs[0]) {
      assert survivors[a].name == recs[out.list[a]].name;
    }
    assert |survivors| > 0;
    var last := |survivors| - 1;
    assert Key(survivors[0]) == Key(survivors[last]);
    assert last == 0;
  }

  /**
   * A missing, null or empty name has the empty key, and empty keys are
   * grouped like any other: all such records but one are removed.
   */
  lemma {:induction false} UnnamedRecordsMerge(recs: seq<Record>)
    requires |recs| > 0 && forall i :: 0 <= i < |recs| ==> recs[i].name.None? || recs[i].name == Some("")
    ensures |Merge(recs).list| == 1 && Merge(recs).removed == |recs| - 1
  {
    SameKeyLeavesOne(recs);
  }

  /**
   * Two records of one key where the first has a YC URL and no LinkedIn
   * URL and the second has a LinkedIn URL: the first survives alone,
   * carrying the second's LinkedIn fields.
   */
  lemma {:induction false} BackfillPair(primary: Record, secondary: Record)
    requires Key(primary) == Key(secondary)
    requires HasYc(primary) && !HasLinkedin(primary) && HasLinkedin(secondary) && !HasYc(secondary)
    ensures var out := Merge([primary, secondary]);
      Project(out.heap, out.list) == [TakeLinkedin(primary, secondary)] && out.removed == 1
  {
    var recs := [primary, secondary];
    var key := Key(primary);
    assert Range(0, 2) == [0, 1];
    var init := MergeUpTo(recs, 0);
    assert init == MergeState(recs, [0, 1], map[], 0);
    var first := MergeUpTo(recs, 1);
    assert first == Step(init, 0);
    assert first == MergeState(recs, [0, 1], map[key := 0], 0);
    var merged := TakeLinkedin(primary, secondary);
    var heap := [merged, secondary];
    assert Backfill(recs, 0, 1) == heap;
    assert Project(heap, [0, 1]) == heap;
    assert IndexOf(heap, secondary) == 1;
    assert Merge(recs) == Step(first, 1);
    assert Merge(recs) == MergeState(heap, [0], map[key := 0], 1);
    assert Project(heap, [0]) == [merged];
  }

  /** "Acme" and "ACME" have the same name key. */
  lemma {:induction false} AcmeKeysAgree()
    ensures LinkedinEnricher.NormalizeName(Some("Acme")) == LinkedinEnricher.NormalizeName(Some("ACME"))
  {
    assert Lower("Acme") == "acme" by {
      assert LowerChar('A') == 'a';
    }
    assert Lower("ACME") == "acme" by {
      assert LowerChar('A') == 'a' && LowerChar('C') == 'c' && LowerChar('M') == 'm' && LowerChar('E') == 'e';
    }
    LinkedinEnricher.NameKeyIgnoresCase("Acme");
    LinkedinEnricher.NameKeyIgnoresCase("ACME");
  }

  /**
   * An example: a directory record "Acme" with a YC URL and no
   * LinkedIn URL, then a LinkedIn record "ACME" with a URL and a positive
   * mention, leave one record: the first, with the second's LinkedIn fields.
   */
  lemma {:induction false} MergeExample()
    ensures var primary := Record(Some("Acme"), "", None, Some("yc.co/acme"), None, None, None, "yc");
      var secondary := Record(Some("ACME"), "", None, None, Some("li.co/acme"), Some(true), None, "linkedin");
      var out := Merge([primary, secondary]);
      && Project(out.heap, out.list) == [Record(Some("Acme"), "", None, Some("yc.co/acme"), Some("li.co/acme"), Some(true), None, "yc")]
      && out.removed == 1
  {
    var primary := Record(Some("Acme"), "", None, Some("yc.co/acme"), None, None, None, "yc");
    var secondary := Record(Some("ACME"), "", None, None, Some("li.co/acme"), Some(true), None, "linkedin");
    AcmeKeysAgree();
    BackfillPair(primary, secondary);
  }

  // ----- the imperative pass -----

  /** The identities a state holds never exceed the number of iterations done. */
  lemma {:induction false} SeenBelow(recs: seq<Record>, k: nat)
    requires k <= |recs|
    ensures forall key :: key in MergeUpTo(recs, k).seen ==> MergeUpTo(recs, k).seen[key] < k
  {
    if k > 0 {
      SeenBelow(recs, k - 1);
    }
  }

  /**
   * The references the program holds stand for the identities of the
   * specification state `st`: the list holds the identities `st.list`, the
   * `seen` dictionary the identities `st.seen`, and the counter is the
   * removal count. (That the dictionaries hold `st.heap` is stated apart.)
   */
  ghost predicate Tracks(companies: seq<Company>, result: seq<Company>, seen: map<string, Company>, count: nat, st: MergeState)
  {
    && |result| == |st.list|
    && (forall t :: 0 <= t < |result| ==> st.list[t] < |companies| && result[t] == companies[st.list[t]])
    && seen.Keys == st.seen.Keys
    && (forall key :: key in seen ==> st.seen[key] < |companies| && seen[key] == companies[st.seen[key]])
    && count == st.removed
  }

  /** `target["linkedin_url"], target["linkedin_mentions_s25"], target["linkedin_match"] = source[...]` for two dictionaries of the list. */
  method CopyLinkedin(target: Company, source: Company, ghost companies: seq<Company>, ghost to: nat, ghost from: nat)
    requires Distinct(companies) && to < |companies| && from < |companies| && to != from
    requires companies[to] == target && companies[from] == source
    modifies target
    ensures Values(companies) == old(Values(companies))[to := TakeLinkedin(old(target.Value()), old(source.Value()))]
  {
    target.linkedinUrl, target.mentionsS25, target.linkedinMatch := source.linkedinUrl, source.mentionsS25, source.linkedinMatch;
    assert forall i :: 0 <= i < |companies| && i != to ==> companies[i] != target;
  }

  /** `list.remove(v)`: deletes the first dictionary whose contents equal `v`, if there is one. */
  method ListRemove(list: seq<Company>, v: Record) returns (r: seq<Company>, ghost j: nat)
    ensures j == IndexOf(Values(list), v)
    ensures r == if j < |list| then list[..j] + list[j + 1..] else list
  {
    ghost var vs := Values(list);
    var i := 0;
    while i < |list| && list[i].Value() != v
      invariant i <= |list|
      invariant forall t :: 0 <= t < i ==> vs[t] != v
    {
      i := i + 1;
    }
    if i < |list| {
      IndexOfIsFirst(vs, v, i);
      r := list[..i] + list[i + 1..];
    } else {
      r := list;
    }
    j := i;
  }

  /**
   * The backfill between `primary` (the dictionary at `p`) and `secondary`
   * (at `k`) and the switch of the primary of `norm`.
   */
  method Reconcile(primary: Company, secondary: Company, seen: map<string, Company>, norm: string,
                   ghost companies: seq<Company>, ghost p: nat, ghost k: nat, ghost heap: seq<Record>)
    returns (seen': map<string, Company>)
    requires Distinct(companies) && p < |companies| && k < |companies| && p != k
    requires companies[p] == primary && companies[k] == secondary && heap == Values(companies)
    modifies primary, secondary
    ensures Values(companies) == Backfill(heap, p, k)
    ensures seen' == if Switches(heap, p, k) then seen[norm := secondary] else seen
  {
    assert heap[p] == primary.Value() && heap[k] == secondary.Value();
    seen' := seen;
    if Truthy(primary.ycProfileUrl) {
      assert HasYc(heap[p]);
      if !Truthy(primary.linkedinUrl) && Truthy(secondary.linkedinUrl) {
        assert Backfill(heap, p, k) == heap[p := TakeLinkedin(heap[p], heap[k])];
        CopyLinkedin(primary, secondary, companies, p, k);
      } else {
        assert Backfill(heap, p, k) == heap;
      }
    } else if Truthy(secondary.ycProfileUrl) {
      assert !HasYc(heap[p]) && HasYc(heap[k]);
      if !Truthy(secondary.linkedinUrl) && Truthy(primary.linkedinUrl) {
        assert Backfill(heap, p, k) == heap[k := TakeLinkedin(heap[k], heap[p])];
        CopyLinkedin(secondary, primary, companies, k, p);
      } else {
        assert Backfill(heap, p, k) == heap;
      }
      seen' := seen[norm := secondary];
    } else {
      assert Backfill(heap, p, k) == heap;
    }
  }

  /** One iteration of the loop, for the dictionary at position `k` of the copy. */
  method MergeOne(companies: seq<Company>, k: nat, result: seq<Company>, seen: map<string, Company>, count: nat, ghost st: MergeState)
    returns (result': seq<Company>, seen': map<string, Company>, count': nat)
    requires Distinct(companies) && k < |companies| && WellFormed(st) && |st.heap| == |companies|
    requires Values(companies) == st.heap && Tracks(companies, result, seen, count, st)
    requires forall key :: key in st.seen ==> st.seen[key] < k
    modifies companies
    ensures Values(companies) == Step(st, k).heap && Tracks(companies, result', seen', count', Step(st, k))
  {
    var company := companies[k];
    var norm := LinkedinEnricher.NormalizeName(company.name);
    assert norm == Key(st.heap[k]);
    if norm !in seen {
      result', seen', count' := result, seen[norm := company], count;
      TracksNewKey(companies, result, seen, count, st, k);
      return;
    }
    result', seen', count' := MergeKnown(companies, k, result, seen, count, st, norm);
  }

  /** Before the loop the list holds every identity, in order, and nothing is seen. */
  lemma {:induction false} PassStart(companies: seq<Company>, recs: seq<Record>)
    requires |recs| == |companies|
    ensures Tracks(companies, companies, map[], 0, MergeUpTo(recs, 0))
  {
  }

  /** After the loop the references stand for the final state of the specification. */
  lemma {:induction false} PassEnd(companies: seq<Company>, result: seq<Company>, seen: map<string, Company>, count: nat, recs: seq<Record>)
    requires |recs| == |companies| && Tracks(companies, result, seen, count, MergeUpTo(recs, |recs|))
    ensures var out := Merge(recs);
      && |result| == |out.list|
      && (forall t :: 0 <= t < |result| ==> out.list[t] < |companies| && result[t] == companies[out.list[t]])
      && count == out.removed
  {
  }

  /** The iteration `k` of the pass over the copy `recs` of the list. */
  method MergeAt(companies: seq<Company>, k: nat, result: seq<Company>, seen: map<string, Company>, count: nat, ghost recs: seq<Record>)
    returns (result': seq<Company>, seen': map<string, Company>, count': nat)
    requires Distinct(companies) && k < |companies| && |recs| == |companies|
    requires Values(companies) == MergeUpTo(recs, k).heap && Tracks(companies, result, seen, count, MergeUpTo(recs, k))
    modifies companies
    ensures Values(companies) == MergeUpTo(recs, k + 1).heap && Tracks(companies, result', seen', count', MergeUpTo(recs, k + 1))
  {
    SeenBelow(recs, k);
    result', seen', count' := MergeOne(companies, k, result, seen, count, MergeUpTo(recs, k));
    assert MergeUpTo(recs, k + 1) == Step(MergeUpTo(recs, k), k);
  }

  /** The iteration for a dictionary whose name key `norm` already has a primary. */
  method MergeKnown(companies: seq<Company>, k: nat, result: seq<Company>, seen: map<string, Company>, count: nat,
                    ghost st: MergeState, norm: string)
    returns (result': seq<Company>, seen': map<string, Company>, count': nat)
    requires Distinct(companies) && k < |companies| && WellFormed(st) && |st.heap| == |companies|
    requires Values(companies) == st.heap && Tracks(companies, result, seen, count, st)
    requires forall key :: key in st.seen ==> st.seen[key] < k
    requires norm == Key(st.heap[k]) && norm in seen
    modifies companies
    ensures Values(companies) == Step(st, k).heap && Tracks(companies, result', seen', count', Step(st, k))
  {
    ghost var p := st.seen[norm];
    var primary, secondary := seen[norm], companies[k];
    seen' := Reconcile(primary, secondary, seen, norm, companies, p, k, st.heap);
    ghost var heap := Values(companies);
    assert heap == Backfill(st.heap, p, k);
    ghost var j;
    result', j := DropSecondary(result, secondary, companies, st.list, k, heap);
    count' := count + 1;
    TracksKnownKey(companies, result, seen, count, st, k, p, heap, j, result', seen', norm, secondary);
  }

  /** `result.remove(secondary)`, where the list holds the dictionaries at the identities `ids`. */
  method DropSecondary(result: seq<Company>, secondary: Company, ghost companies: seq<Company>, ghost ids: seq<nat>, ghost k: nat,
                       ghost heap: seq<Record>)
    returns (result': seq<Company>, ghost j: nat)
    requires k < |companies| && companies[k] == secondary && heap == Values(companies)
    requires |result| == |ids| && forall t :: 0 <= t < |ids| ==> ids[t] < |companies| && result[t] == companies[ids[t]]
    ensures j == IndexOf(Project(heap, ids), heap[k]) && heap == Values(companies)
    ensures result' == if j < |result| then result[..j] + result[j + 1..] else result
  {
    ValuesOfTracked(companies, result, ids);
    result', j := ListRemove(result, secondary.Value());
  }

  /** The references after an iteration with a new key stand for the identities of the next state. */
  lemma {:induction false} TracksNewKey(companies: seq<Company>, result: seq<Company>, seen: map<string, Company>, count: nat,
                       st: MergeState, k: nat)
    requires WellFormed(st) && k < |st.heap| && k < |companies| && Tracks(companies, result, seen, count, st)
    requires Key(st.heap[k]) !in st.seen
    ensures Step(st, k).heap == st.heap
    ensures Tracks(companies, result, seen[Key(st.heap[k]) := companies[k]], count, Step(st, k))
  {
    assert Step(st, k) == st.(seen := st.seen[Key(st.heap[k]) := k]);
  }

  /** The list's contents are the projection of the dictionaries' contents onto the identities it holds. */
  lemma {:induction false} ValuesOfTracked(companies: seq<Company>, result: seq<Company>, ids: seq<nat>)
    requires |result| == |ids| && forall t :: 0 <= t < |ids| ==> ids[t] < |companies| && result[t] == companies[ids[t]]
    ensures Values(result) == Project(Values(companies), ids)
  {
  }

  /** The references after an iteration with a known key stand for the identities of the next state. */
  lemma {:induction false} TracksKnownKey(companies: seq<Company>, result: seq<Company>, seen: map<string, Company>, count: nat,
                       st: MergeState, k: nat, p: nat, heap: seq<Record>, j: nat, result': seq<Company>, seen': map<string, Company>,
                       norm: string, secondary: Company)
    requires WellFormed(st) && k < |st.heap| && k < |companies| && Tracks(companies, result, seen, count, st)
    requires norm == Key(st.heap[k]) && secondary == companies[k]
    requires norm in st.seen && p == st.seen[norm]
    requires heap == Backfill(st.heap, p, k) && j == IndexOf(Project(heap, st.list), heap[k])
    requires result' == if j < |result| then result[..j] + result[j + 1..] else result
    requires seen' == if Switches(st.heap, p, k) then seen[norm := secondary] else seen
    ensures Step(st, k).heap == heap && Tracks(companies, result', seen', count + 1, Step(st, k))
  {
    var list := if j < |result| then RemoveAt(st.list, j) else st.list;
    var switches := Switches(st.heap, p, k);
    var ids := if switches then st.seen[norm := k] else st.seen;
    RemoveKeepsIdentities(result, companies, st.list, j);
    KnownKeyStep(st, k, p, heap, ids, list);
    SeenTracksUpdate(companies, seen, st.seen, seen', ids, switches, norm, secondary, k);
  }

  /** Re-pointing a key at the dictionary `k` keeps the references and the identities in step. */
  lemma {:induction false} SeenTracksUpdate(companies: seq<Company>, seen: map<string, Company>, ids: map<string, nat>,
                                            seen': map<string, Company>, ids': map<string, nat>, switches: bool,
                                            norm: string, secondary: Company, k: nat)
    requires seen.Keys == ids.Keys && forall key :: key in seen ==> ids[key] < |companies| && seen[key] == companies[ids[key]]
    requires k < |companies| && secondary == companies[k]
    requires seen' == (if switches then seen[norm := secondary] else seen)
    requires ids' == if switches then ids[norm := k] else ids
    ensures seen'.Keys == ids'.Keys
    ensures forall key :: key in seen' ==> ids'[key] < |companies| && seen'[key] == companies[ids'[key]]
  {
  }

  /** Which list positions hold which dictionaries survives `list.remove` at `j`. */
  lemma {:induction false} RemoveKeepsIdentities(result: seq<Company>, companies: seq<Company>, ids: seq<nat>, j: nat)
    requires |result| == |ids| && forall t :: 0 <= t < |ids| ==> ids[t] < |companies| && result[t] == companies[ids[t]]
    ensures var r := if j < |result| then result[..j] + result[j + 1..] else result;
      var l := if j < |result| then RemoveAt(ids, j) else ids;
      |r| == |l| && forall t :: 0 <= t < |r| ==> l[t] < |companies| && r[t] == companies[l[t]]
  {
    if j < |result| {
      RemoveAtKeepsIdentities(result, companies, ids, j);
    }
  }

  lemma {:induction false} RemoveAtKeepsIdentities(result: seq<Company>, companies: seq<Company>, ids: seq<nat>, j: nat)
    requires j < |result| == |ids| && forall t :: 0 <= t < |ids| ==> ids[t] < |companies| && result[t] == companies[ids[t]]
    ensures var r := result[..j] + result[j + 1..];
      var l := RemoveAt(ids, j);
      |r| == |l| && forall t :: 0 <= t < |r| ==> l[t] < |companies| && r[t] == companies[l[t]]
  {
    var r := result[..j] + result[j + 1..];
    var l := RemoveAt(ids, j);
    forall t | 0 <= t < |r| ensures l[t] < |companies| && r[t] == companies[l[t]] {
      if t < j {
        assert r[t] == result[t] && l[t] == ids[t];
      } else {
        assert r[t] == result[t + 1] && l[t] == ids[t + 1];
      }
    }
  }

  /** The state after an iteration with a known key, from its parts. */
  lemma {:induction false} KnownKeyStep(st: MergeState, k: nat, p: nat, heap: seq<Record>, seen: map<string, nat>, list: seq<nat>)
    requires WellFormed(st) && k < |st.heap| && Key(st.heap[k]) in st.seen && p == st.seen[Key(st.heap[k])]
    requires heap == Backfill(st.heap, p, k)
    requires seen == if Switches(st.heap, p, k) then st.seen[Key(st.heap[k]) := k] else st.seen
    requires var j := IndexOf(Project(heap, st.list), heap[k]); list == if j < |st.list| then RemoveAt(st.list, j) else st.list
    ensures Step(st, k) == MergeState(heap, list, seen, st.removed + 1)
  {
  }

  /**
   * `deduplicate_and_merge`: the dictionaries end with the contents the
   * specification gives, the returned list holds the surviving identities
   * in the specification's order, and the count is its removal count.
   */
  method DeduplicateAndMerge(companies: seq<Company>) returns (result: seq<Company>, duplicatesRemoved: nat)
    requires Distinct(companies)
    modifies companies
    ensures var out := Merge(old(Values(companies)));
      && Values(companies) == out.heap
      && |result| == |out.list|
      && (forall t :: 0 <= t < |result| ==> out.list[t] < |companies| && result[t] == companies[out.list[t]])
      && duplicatesRemoved == out.removed
  {
    ghost var recs := Values(companies);
    var seen: map<string, Company> := map[];
    result := companies;
    duplicatesRemoved := 0;
    PassStart(companies, recs);
    for k := 0 to |companies|
      invariant Values(companies) == MergeUpTo(recs, k).heap
      invariant Tracks(companies, result, seen, duplicatesRemoved, MergeUpTo(recs, k))
    {
      result, seen, duplicatesRemoved := MergeAt(companies, k, result, seen, duplicatesRemoved, recs);
    }
    PassEnd(companies, result, seen, duplicatesRemoved, recs);
  }
}
