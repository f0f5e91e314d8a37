/** Small shared vocabulary: an option type, `max`, and the sum of a map's values. */
module Common {

  /** Python's `None` or a value. */
  datatype Option<+T> = None | Some(value: T)

  /** Python's built-in `max` on two integers. */
  function Max(a: int, b: int): int
  {
    if a >= b then a else b
  }

  /** The sum of the values of a finite map, taken in no particular order
      (Python's `sum` over `dict.values()`). */
  ghost function SumOver(m: map<string, nat>): nat
    decreases |m.Keys|
  {
    if m.Keys == {} then 0
    else
      var k :| k in m.Keys;
      assert |m.Keys - {k}| < |m.Keys|;
      m[k] + SumOver(RemoveKey(m, k))
  }

  /** `m` without key `k`, with its key set stated. */
  function RemoveKey(m: map<string, nat>, k: string): (r: map<string, nat>)
    ensures r.Keys == m.Keys - {k}
    ensures forall j :: j in r ==> r[j] == m[j]
  {
    map j | j in m.Keys && j != k :: m[j]
  }

  /** Whichever key `SumOver` picks first, removing any key `k` splits it off. */
  lemma {:induction false} SumOverRemove(m: map<string, nat>, k: string)
    requires k in m
    ensures SumOver(m) == m[k] + SumOver(RemoveKey(m, k))
    decreases |m.Keys|
  {
    var j :| j in m.Keys && SumOver(m) == m[j] + SumOver(RemoveKey(m, j));
    if j != k {
      var mj, mk := RemoveKey(m, j), RemoveKey(m, k);
      assert |mj.Keys| < |m.Keys| by { assert mj.Keys == m.Keys - {j}; }
      SumOverRemove(mj, k);
      assert |mk.Keys| < |m.Keys| by { assert mk.Keys == m.Keys - {k}; }
      SumOverRemove(mk, j);
      assert RemoveKey(mj, k) == RemoveKey(mk, j);
    }
  }

  /** Replacing the value at `k` changes the sum by the difference. */
  lemma SumOverUpdate(m: map<string, nat>, k: string, v: nat)
    ensures SumOver(m[k := v]) == SumOver(m) - (if k in m then m[k] else 0) + v
  {
    var m' := m[k := v];
    SumOverRemove(m', k);
    if k in m {
      SumOverRemove(m, k);
      assert RemoveKey(m', k) == RemoveKey(m, k);
    } else {
      assert RemoveKey(m', k) == m;
    }
  }

  /** A map whose values are all zero sums to zero. */
  lemma {:induction false} SumOverZero(m: map<string, nat>)
    requires forall k :: k in m ==> m[k] == 0
    ensures SumOver(m) == 0
    decreases |m.Keys|
  {
    if m.Keys != {} {
      var k :| k in m.Keys;
      SumOverRemove(m, k);
      assert |RemoveKey(m, k).Keys| < |m.Keys| by { assert RemoveKey(m, k).Keys == m.Keys - {k}; }
      SumOverZero(RemoveKey(m, k));
    }
  }
}
