/**
 * Python's `min` and `max` over a finite collection of integers, as the
 * collaboration uses them for the stable watermark and the last serial.
 */
module Extrema {
  import opened Wire

  /** A non-empty set has an element to pick. */
  lemma Pick<T>(s: set<T>) returns (x: T)
    requires s != {}
    ensures x in s
  {
    if forall y :: y !in s {
      assert false;
    }
    x :| x in s;
  }

  ghost predicate IsMin(m: int, s: set<int>) {
    m in s && forall x :: x in s ==> m <= x
  }

  ghost predicate IsMax(m: int, s: set<int>) {
    m in s && forall x :: x in s ==> x <= m
  }

  /** `min(s)`: defined only for a non-empty collection (Python raises otherwise). */
  ghost function MinOf(s: set<int>): (m: int)
    requires s != {}
    ensures IsMin(m, s)
    decreases s
  {
    assert exists x :: x in s by { var w := Pick(s); }
    var x :| x in s;
    if s == {x} then x
    else
      var rest := MinOf(s - {x});
      assert forall y :: y in s ==> y == x || y in s - {x};
      if x <= rest then x else rest
  }

  /** `max(s)`: defined only for a non-empty collection (Python raises otherwise). */
  ghost function MaxOf(s: set<int>): (m: int)
    requires s != {}
    ensures IsMax(m, s)
    decreases s
  {
    assert exists x :: x in s by { var w := Pick(s); }
    var x :| x in s;
    if s == {x} then x
    else
      var rest := MaxOf(s - {x});
      assert forall y :: y in s ==> y == x || y in s - {x};
      if rest <= x then x else rest
  }

  /** `max(m.values())`, scanning the values one by one; `None` where Python raises ValueError. */
  method MaxOfValues<K>(m: map<K, int>) returns (r: Option<int>)
    ensures r.None? <==> m == map[]
    ensures r.Some? ==> r.value == MaxOf(m.Values)
  {
    var todo := m.Values;
    r := None;
    while todo != {}
      invariant todo <= m.Values
      invariant r.None? <==> todo == m.Values
      invariant r.Some? ==> IsMax(r.value, m.Values - todo)
      decreases todo
    {
      ghost var w := Pick(todo);
      var v :| v in todo;
      ghost var seen := m.Values - todo;
      if r.None? || r.value < v {
        r := Some(v);
      }
      todo := todo - {v};
      assert m.Values - todo == seen + {v};
    }
    if m != map[] {
      ghost var k := Pick(m.Keys);
      assert m[k] in m.Values;
    }
    if r.Some? {
      assert m.Values - todo == m.Values;
    }
  }
}
