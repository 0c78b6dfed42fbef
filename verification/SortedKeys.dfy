/** Visiting keys in ascending order, as an ordered map does. */
module SortedKeys {
  ghost predicate Ascending(keys: seq<nat>) {
    forall i, j :: 0 <= i < j < |keys| ==> keys[i] < keys[j]
  }

  method SmallestKey(keys: set<nat>) returns (k: nat)
    requires keys != {}
    ensures k in keys && forall x :: x in keys ==> k <= x
  {
    var rest := keys;
    k :| k in rest;
    rest := rest - {k};
    while rest != {}
      invariant k in keys && rest <= keys
      invariant forall x :: x in keys && x !in rest ==> k <= x
      decreases |rest|
    {
      var x :| x in rest;
      if x < k {
        k := x;
      }
      rest := rest - {x};
    }
  }

  lemma AscendingPush(keys: seq<nat>, k: nat)
    requires Ascending(keys) && forall x :: x in keys ==> x < k
    ensures Ascending(keys + [k])
  {
    assert forall i :: 0 <= i < |keys| ==> keys[i] in keys;
  }

  /** `chosen` are the elements of `all` at the positions `at`, in order. */
  ghost predicate PickedAt<T>(all: seq<T>, at: seq<nat>, chosen: seq<T>) {
    && Ascending(at) && |at| == |chosen|
    && forall i :: 0 <= i < |at| ==> at[i] < |all| && chosen[i] == all[at[i]]
  }

  ghost predicate Has(at: seq<nat>, j: int) {
    exists i :: 0 <= i < |at| && at[i] == j
  }

  lemma HasPush(at: seq<nat>, n: nat, j: int)
    ensures Has(at + [n], j) <==> Has(at, j) || j == n
  {
    if Has(at, j) {
      var i :| 0 <= i < |at| && at[i] == j;
      assert (at + [n])[i] == j;
    }
    assert (at + [n])[|at|] == n;
  }

  lemma PickedPush<T>(all: seq<T>, at: seq<nat>, chosen: seq<T>)
    requires all != [] && PickedAt(all[..|all| - 1], at, chosen)
    ensures PickedAt(all, at + [|all| - 1], chosen + [all[|all| - 1]])
    ensures PickedAt(all, at, chosen) && !Has(at, |all| - 1)
  {
  }

  /** One more element, taken or not. */
  lemma PickOneMore<T>(all: seq<T>, at: seq<nat>, chosen: seq<T>, take: bool) returns (at': seq<nat>)
    requires all != [] && PickedAt(all[..|all| - 1], at, chosen)
    ensures PickedAt(all, at', if take then chosen + [all[|all| - 1]] else chosen)
    ensures Has(at', |all| - 1) <==> take
    ensures forall j :: 0 <= j < |all| - 1 ==> (Has(at', j) <==> Has(at, j))
  {
    var n := |all| - 1;
    PickedPush(all, at, chosen);
    hide PickedAt, Has;
    at' := if take then at + [n] else at;
    forall j ensures Has(at + [n], j) <==> Has(at, j) || j == n { HasPush(at, n, j); }
  }

  lemma FrontOf(a: seq<nat>) returns (front: seq<nat>)
    requires Ascending(a) && a != []
    ensures a == front + [a[|a| - 1]] && Ascending(front)
    ensures forall k :: k in front <==> k in a && k != a[|a| - 1]
  {
    front := a[..|a| - 1];
    forall k | k in a && k != a[|a| - 1] ensures k in front {
      var i :| 0 <= i < |a| && a[i] == k;
      assert front[i] == k;
    }
  }

  /** Ascending lists with the same members are the same. */
  lemma {:induction false} AscendingUnique(a: seq<nat>, b: seq<nat>)
    requires Ascending(a) && Ascending(b) && forall k :: k in a <==> k in b
    ensures a == b
    decreases |a|
  {
    assert |a| > 0 ==> a[0] in b;
    assert |b| > 0 ==> b[0] in a;
    if a != [] {
      LastIsLargest(a, b[|b| - 1]);
      LastIsLargest(b, a[|a| - 1]);
      var front := FrontOf(a);
      var front' := FrontOf(b);
      hide Ascending;
      AscendingUnique(front, front');
    }
  }

  lemma LastIsLargest(a: seq<nat>, k: nat)
    requires Ascending(a) && k in a
    ensures k <= a[|a| - 1]
  {
  }

  lemma AscendingNew(keys: seq<nat>, n: nat)
    requires Ascending(keys) && n < |keys|
    ensures keys[n] !in keys[..n]
  {
  }

  lemma SomeMember(keys: seq<nat>)
    requires keys != []
    ensures exists k :: k in keys
  {
    assert keys[0] in keys;
  }
}
