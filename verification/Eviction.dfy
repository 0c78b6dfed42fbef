/** The bounded list of conversations: which entries are evicted, and the order kept. */
module Eviction {
  import opened Options

  const MAX_CONVERSATIONS := 100

  type Id = string

  datatype Meta = Meta(id: Id, summary: string, createdAt: int, updatedAt: int, messageCount: nat)

  function IdsOf(list: seq<Meta>): set<Id> {
    set e | e in list :: e.id
  }

  ghost predicate Distinct(list: seq<Meta>) {
    forall i, j :: 0 <= i < j < |list| ==> list[i].id != list[j].id
  }

  /** Newest first. */
  ghost predicate Sorted(list: seq<Meta>) {
    forall i, j :: 0 <= i < j < |list| ==> list[i].updatedAt >= list[j].updatedAt
  }

  // ----- Eviction -----

  /** `pos` is the first of the oldest entries that are not active. */
  ghost predicate Oldest(list: seq<Meta>, active: Option<Id>, pos: int) {
    && 0 <= pos < |list| && Some(list[pos].id) != active
    && (forall i :: 0 <= i < |list| && Some(list[i].id) != active ==> list[pos].updatedAt <= list[i].updatedAt)
    && (forall i :: 0 <= i < pos && Some(list[i].id) != active ==> list[pos].updatedAt < list[i].updatedAt)
  }

  function OldestPos(list: seq<Meta>, active: Option<Id>): (r: Option<nat>)
    ensures r.Some? ==> Oldest(list, active, r.value)
    ensures r.None? ==> forall i :: 0 <= i < |list| ==> Some(list[i].id) == active
  {
    if list == [] then None
    else
      var n := |list| - 1;
      var best := OldestPos(list[..n], active);
      if Some(list[n].id) == active then best
      else if best.None? || list[n].updatedAt < list[best.value].updatedAt then Some(n)
      else best
  }

  function Remove(list: seq<Meta>, pos: nat): seq<Meta>
    requires pos < |list|
  {
    list[..pos] + list[pos + 1..]
  }

  /** What is kept, and what is evicted in order of eviction. */
  function Evict(list: seq<Meta>, active: Option<Id>): (seq<Meta>, seq<Meta>)
    decreases |list|
  {
    var pos := OldestPos(list, active);
    if |list| <= MAX_CONVERSATIONS || pos.None? then (list, [])
    else
      var (kept, evicted) := Evict(Remove(list, pos.value), active);
      (kept, [list[pos.value]] + evicted)
  }

  function Without(list: seq<Meta>, gone: seq<Meta>): seq<Meta> {
    if list == [] then []
    else
      var n := |list| - 1;
      Without(list[..n], gone) + (if list[n] in gone then [] else [list[n]])
  }

  function CountActive(list: seq<Meta>, active: Option<Id>): nat {
    if list == [] then 0
    else CountActive(list[..|list| - 1], active) + (if Some(list[|list| - 1].id) == active then 1 else 0)
  }

  // ----- Facts about lists -----

  lemma {:induction false} WithoutConcat(a: seq<Meta>, b: seq<Meta>, gone: seq<Meta>)
    ensures Without(a + b, gone) == Without(a, gone) + Without(b, gone)
  {
    if b == [] {
      assert a + b == a;
    } else {
      var n := |b| - 1;
      WithoutConcat(a, b[..n], gone);
      assert (a + b)[..|a + b| - 1] == a + b[..n];
    }
  }

  lemma {:induction false} WithoutIn(list: seq<Meta>, gone: seq<Meta>, e: Meta)
    ensures e in Without(list, gone) <==> e in list && e !in gone
  {
    if list != [] {
      var n := |list| - 1;
      WithoutIn(list[..n], gone, e);
      assert list == list[..n] + [list[n]];
    }
  }

  lemma {:induction false} WithoutAbsent(list: seq<Meta>, x: Meta, gone: seq<Meta>)
    requires x !in list
    ensures Without(list, [x] + gone) == Without(list, gone)
  {
    if list != [] {
      var n := |list| - 1;
      WithoutAbsent(list[..n], x, gone);
      assert list[n] in list;
    }
  }

  lemma {:induction false} WithoutNothing(list: seq<Meta>)
    ensures Without(list, []) == list
  {
    if list != [] { WithoutNothing(list[..|list| - 1]); }
  }

  lemma {:induction false} WithoutSorted(list: seq<Meta>, gone: seq<Meta>)
    requires Sorted(list)
    ensures Sorted(Without(list, gone))
  {
    if list != [] {
      var n := |list| - 1;
      WithoutSorted(list[..n], gone);
      forall i | 0 <= i < |Without(list[..n], gone)| ensures Without(list[..n], gone)[i] in list[..n] {
        WithoutIn(list[..n], gone, Without(list[..n], gone)[i]);
      }
    }
  }

  lemma {:induction false} WithoutDistinct(list: seq<Meta>, gone: seq<Meta>)
    requires Distinct(list)
    ensures Distinct(Without(list, gone))
  {
    if list != [] {
      var n := |list| - 1;
      WithoutDistinct(list[..n], gone);
      forall i | 0 <= i < |Without(list[..n], gone)| ensures Without(list[..n], gone)[i] in list[..n] {
        WithoutIn(list[..n], gone, Without(list[..n], gone)[i]);
      }
    }
  }

  lemma {:induction false} CountActiveConcat(a: seq<Meta>, b: seq<Meta>, active: Option<Id>)
    ensures CountActive(a + b, active) == CountActive(a, active) + CountActive(b, active)
  {
    if b == [] {
      assert a + b == a;
    } else {
      CountActiveConcat(a, b[..|b| - 1], active);
      assert (a + b)[..|a + b| - 1] == a + b[..|b| - 1];
    }
  }

  lemma {:induction false} CountActiveAll(list: seq<Meta>, active: Option<Id>)
    ensures CountActive(list, active) <= |list|
    ensures (forall i :: 0 <= i < |list| ==> Some(list[i].id) == active) ==> CountActive(list, active) == |list|
    ensures (exists i :: 0 <= i < |list| && Some(list[i].id) != active) ==> CountActive(list, active) < |list|
  {
    if list != [] { CountActiveAll(list[..|list| - 1], active); }
  }

  lemma {:induction false} CountActiveDistinct(list: seq<Meta>, active: Option<Id>)
    requires Distinct(list)
    ensures CountActive(list, active) <= 1
    ensures CountActive(list, active) == 1 ==> exists i :: 0 <= i < |list| && Some(list[i].id) == active
  {
    if list != [] { CountActiveDistinct(list[..|list| - 1], active); }
  }

  lemma WithoutOne(x: Meta, gone: seq<Meta>)
    ensures Without([x], gone) == if x in gone then [] else [x]
  {
    assert [x][..0] == [];
  }

  lemma WithoutSplit(list: seq<Meta>, pos: nat, gone: seq<Meta>)
    requires pos < |list|
    ensures Without(list, gone) ==
      Without(list[..pos], gone) + Without([list[pos]], gone) + Without(list[pos + 1..], gone)
  {
    assert list == list[..pos] + [list[pos]] + list[pos + 1..];
    WithoutConcat(list[..pos] + [list[pos]], list[pos + 1..], gone);
    WithoutConcat(list[..pos], [list[pos]], gone);
  }

  lemma NotElsewhere(list: seq<Meta>, pos: nat)
    requires Distinct(list) && pos < |list|
    ensures list[pos] !in list[..pos] && list[pos] !in list[pos + 1..]
  {
  }

  /** Taking out one entry of a list of distinct ids is filtering it out. */
  lemma RemoveIsWithout(list: seq<Meta>, pos: nat, gone: seq<Meta>)
    requires Distinct(list) && pos < |list|
    ensures Without(list, [list[pos]] + gone) == Without(Remove(list, pos), gone)
  {
    var x := list[pos];
    NotElsewhere(list, pos);
    hide Without, Distinct;
    calc {
      Without(list, [x] + gone);
    == { WithoutSplit(list, pos, [x] + gone); }
      Without(list[..pos], [x] + gone) + Without([x], [x] + gone) + Without(list[pos + 1..], [x] + gone);
    == { WithoutOne(x, [x] + gone); }
      Without(list[..pos], [x] + gone) + Without(list[pos + 1..], [x] + gone);
    == { WithoutAbsent(list[..pos], x, gone); WithoutAbsent(list[pos + 1..], x, gone); }
      Without(list[..pos], gone) + Without(list[pos + 1..], gone);
    == { WithoutConcat(list[..pos], list[pos + 1..], gone); }
      Without(Remove(list, pos), gone);
    }
  }

  lemma RemoveCounts(list: seq<Meta>, active: Option<Id>, pos: nat)
    requires pos < |list|
    ensures multiset(list) == multiset(Remove(list, pos)) + multiset{list[pos]}
    ensures Some(list[pos].id) != active ==> CountActive(Remove(list, pos), active) == CountActive(list, active)
  {
    var x, front, back := list[pos], list[..pos], list[pos + 1..];
    assert list == front + [x] + back;
    CountActiveConcat(front + [x], back, active);
    CountActiveConcat(front, [x], active);
    CountActiveConcat(front, back, active);
    assert [x][..0] == [];
  }

  // ----- Eviction is safe and optimal -----

  lemma {:induction false} EvictSplits(list: seq<Meta>, active: Option<Id>)
    ensures multiset(Evict(list, active).0) + multiset(Evict(list, active).1) == multiset(list)
    decreases |list|
  {
    var pos := OldestPos(list, active);
    if |list| > MAX_CONVERSATIONS && pos.Some? {
      EvictSplits(Remove(list, pos.value), active);
      RemoveCounts(list, active, pos.value);
    }
  }

  lemma KeptInList(list: seq<Meta>, active: Option<Id>, k: Meta)
    ensures k in list <==> k in Evict(list, active).0 || k in Evict(list, active).1
  {
    EvictSplits(list, active);
    assert k in multiset(list) <==> k in multiset(Evict(list, active).0) || k in multiset(Evict(list, active).1);
  }

  lemma {:induction false} EvictedAreOldest(list: seq<Meta>, active: Option<Id>, e: Meta)
    requires e in Evict(list, active).1
    ensures Some(e.id) != active
    ensures forall k :: k in Evict(list, active).0 && Some(k.id) != active ==> e.updatedAt <= k.updatedAt
    decreases |list|
  {
    var pos := OldestPos(list, active);
    var rest := Remove(list, pos.value);
    if e in Evict(rest, active).1 {
      EvictedAreOldest(rest, active, e);
    } else {
      forall k | k in Evict(rest, active).0 && Some(k.id) != active ensures e.updatedAt <= k.updatedAt {
        KeptInList(rest, active, k);
        assert k in list;
      }
    }
  }

  lemma {:induction false} EvictLength(list: seq<Meta>, active: Option<Id>)
    ensures |Evict(list, active).0| ==
      if |list| <= MAX_CONVERSATIONS then |list|
      else if CountActive(list, active) > MAX_CONVERSATIONS then CountActive(list, active)
      else MAX_CONVERSATIONS
    decreases |list|
  {
    var pos := OldestPos(list, active);
    CountActiveAll(list, active);
    if |list| > MAX_CONVERSATIONS && pos.Some? {
      EvictLength(Remove(list, pos.value), active);
      RemoveCounts(list, active, pos.value);
    }
  }

  /** For every list: as many entries stay as the cap allows, or as many as are active if that
  is more; every evicted entry is inactive and no newer than any inactive one that stays. */
  lemma EvictionOptimal(list: seq<Meta>, active: Option<Id>)
    ensures var (kept, evicted) := Evict(list, active);
      && |kept| == (if |list| <= MAX_CONVERSATIONS then |list|
                    else if CountActive(list, active) > MAX_CONVERSATIONS then CountActive(list, active)
                    else MAX_CONVERSATIONS)
      && multiset(kept) + multiset(evicted) == multiset(list)
      && (forall e :: e in evicted ==> Some(e.id) != active)
      && (forall e, k :: e in evicted && k in kept && Some(k.id) != active ==> e.updatedAt <= k.updatedAt)
  {
    EvictLength(list, active);
    EvictSplits(list, active);
    forall e | e in Evict(list, active).1 {
      EvictedAreOldest(list, active, e);
    }
  }

  /** With distinct ids the survivors are the list without the evicted entries, in its order. */
  lemma {:induction false} EvictionKeepsOrder(list: seq<Meta>, active: Option<Id>)
    requires Distinct(list)
    ensures Evict(list, active).0 == Without(list, Evict(list, active).1)
    ensures |Evict(list, active).0| == if |list| <= 100 then |list| else 100
    decreases |list|
  {
    var pos := OldestPos(list, active);
    EvictionOptimal(list, active);
    CountActiveDistinct(list, active);
    if |list| <= MAX_CONVERSATIONS || pos.None? {
      WithoutNothing(list);
    } else {
      EvictionKeepsOrder(Remove(list, pos.value), active);
      RemoveIsWithout(list, pos.value, Evict(Remove(list, pos.value), active).1);
    }
  }

  // ----- Sorting by age -----

  /** Where a stable sort puts an entry in front of those that come after it. */
  function NewestSlot(list: seq<Meta>, x: Meta): (k: nat)
    ensures k <= |list| && (k < |list| ==> list[k].updatedAt <= x.updatedAt)
    ensures forall i :: 0 <= i < k ==> list[i].updatedAt > x.updatedAt
  {
    if list == [] || list[0].updatedAt <= x.updatedAt then 0 else 1 + NewestSlot(list[1..], x)
  }

  /** The stable sort, newest first. */
  function SortNewest(list: seq<Meta>): (r: seq<Meta>)
    ensures |r| == |list| && Sorted(r) && (forall e :: e in r <==> e in list)
  {
    if list == [] then []
    else
      var rest := SortNewest(list[1..]);
      var k := NewestSlot(rest, list[0]);
      assert list == [list[0]] + list[1..];
      rest[..k] + [list[0]] + rest[k..]
  }

  lemma InsertDistinct(list: seq<Meta>, k: nat, x: Meta)
    requires k <= |list| && Distinct(list) && x.id !in IdsOf(list)
    ensures Distinct(list[..k] + [x] + list[k..])
  {
    forall i | 0 <= i < |list| ensures list[i].id != x.id {
      assert list[i] in list;
    }
  }

  lemma SameIds(a: seq<Meta>, b: seq<Meta>)
    requires forall e :: e in a <==> e in b
    ensures IdsOf(a) == IdsOf(b)
  {
  }

  lemma {:induction false} SortDistinct(list: seq<Meta>)
    requires Distinct(list)
    ensures Distinct(SortNewest(list)) && IdsOf(SortNewest(list)) == IdsOf(list)
  {
    SameIds(SortNewest(list), list);
    if list != [] {
      SortDistinct(list[1..]);
      assert list[0].id !in IdsOf(list[1..]);
      var rest := SortNewest(list[1..]);
      InsertDistinct(rest, NewestSlot(rest, list[0]), list[0]);
    }
  }
}
