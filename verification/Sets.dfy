/** Finite-set facts shared by the consensus and ledger models: least
    elements, cardinality of unions, and sums of weights over sets. */
module Sets {

  datatype Option<+T> = None | Some(value: T)

  predicate IsLeast(s: set<nat>, m: nat)
  {
    m in s && forall x | x in s :: m <= x
  }

  predicate IsGreatest(s: set<nat>, m: nat)
  {
    m in s && forall x | x in s :: x <= m
  }

  lemma {:induction false} LeastExists(s: set<nat>)
    requires s != {}
    ensures exists m: nat :: IsLeast(s, m)
    decreases |s|
  {
    var y :| y in s;
    var others := s - {y};
    assert forall x | x in s :: x == y || x in others;
    if others == {} {
      assert IsLeast(s, y);
    } else {
      LeastExists(others);
      var m: nat :| IsLeast(others, m);
      assert IsLeast(s, if m <= y then m else y);
    }
  }

  lemma {:induction false} GreatestExists(s: set<nat>)
    requires s != {}
    ensures exists m: nat :: IsGreatest(s, m)
    decreases |s|
  {
    var y :| y in s;
    var others := s - {y};
    assert forall x | x in s :: x == y || x in others;
    if others == {} {
      assert IsGreatest(s, y);
    } else {
      GreatestExists(others);
      var m: nat :| IsGreatest(others, m);
      assert IsGreatest(s, if y <= m then m else y);
    }
  }

  function Min(s: set<nat>): (m: nat)
    requires s != {}
    ensures m in s
    ensures forall x | x in s :: m <= x
  {
    LeastExists(s);
    var m: nat :| IsLeast(s, m);
    m
  }

  function Max(s: set<nat>): (m: nat)
    requires s != {}
    ensures m in s
    ensures forall x | x in s :: x <= m
  {
    GreatestExists(s);
    var m: nat :| IsGreatest(s, m);
    m
  }

  lemma {:induction false} SubsetSize<T>(a: set<T>, b: set<T>)
    requires a <= b
    ensures |a| <= |b|
  {
    assert b == a + (b - a);
  }

  /** A set of numbers below `n` has at most `n` members. */
  lemma {:induction false} BoundedSetSize(s: set<nat>, n: nat)
    requires forall x | x in s :: x < n
    ensures |s| <= n
  {
    if n == 0 {
      assert s == {};
    } else {
      BoundedSetSize(s - {n - 1}, n - 1);
      assert s <= (s - {n - 1}) + {n - 1};
      SubsetSize(s, (s - {n - 1}) + {n - 1});
    }
  }

  /** Two sets of numbers below `n` overlap in at least |a| + |b| - n members. */
  lemma {:induction false} OverlapSize(a: set<nat>, b: set<nat>, n: nat)
    requires forall x | x in a + b :: x < n
    ensures |a * b| >= |a| + |b| - n
  {
    BoundedSetSize(a + b, n);
    assert a + b == (a - b) + b;
    assert a == (a - b) + (a * b);
  }

  /** No element twice. */
  ghost predicate NoDup<T>(s: seq<T>)
  {
    forall i, j | 0 <= i < j < |s| :: s[i] != s[j]
  }
}
