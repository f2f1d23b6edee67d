/** Columns over a whole run: what a column holds is what the last step that wrote it wrote. */
module Histories {
  import opened Common

  /** `writes[k]` is what step `k` writes, if it writes; `values` are the contents before and
      after each step. */
  ghost predicate Tracks<T>(writes: seq<Option<T>>, values: seq<T>) {
    && |values| == |writes| + 1
    && forall k | 0 <= k < |writes| ::
         values[k + 1] == if writes[k].Some? then writes[k].value else values[k]
  }

  /** Step `j` wrote `x`, and no step between `j` and `k` wrote anything. */
  ghost predicate LastWrite<T>(writes: seq<Option<T>>, j: nat, k: nat, x: T)
    requires j < k <= |writes|
  {
    writes[j] == Some(x) && forall m | j < m < k :: writes[m].None?
  }

  ghost predicate Unwritten<T>(writes: seq<Option<T>>, k: nat)
    requires k <= |writes|
  {
    forall m | 0 <= m < k :: writes[m].None?
  }

  /** Before step `k` the column holds `x`: some step wrote it last, or none wrote and it
      held `x` from the start. */
  ghost predicate LastHolds<T>(writes: seq<Option<T>>, initial: T, k: nat, x: T)
    requires k <= |writes|
  {
    (exists j | 0 <= j < k :: LastWrite(writes, j, k, x)) || (Unwritten(writes, k) && initial == x)
  }

  lemma {:induction false} ValueIsLastWrite<T>(writes: seq<Option<T>>, values: seq<T>, k: nat, x: T)
    requires Tracks(writes, values) && k <= |writes|
    ensures values[k] == x <==> LastHolds(writes, values[0], k, x)
  {
    if k > 0 {
      var p := k - 1;
      ValueIsLastWrite(writes, values, p, x);
      LastHoldsMoves(writes, values[0], p, k, x);
    }
  }

  lemma LastHoldsMoves<T>(writes: seq<Option<T>>, initial: T, p: nat, k: nat, x: T)
    requires p + 1 == k <= |writes|
    ensures LastHolds(writes, initial, k, x) <==>
      if writes[p].Some? then writes[p].value == x else LastHolds(writes, initial, p, x)
  {
    if writes[p].Some? {
      if writes[p].value == x {
        assert LastWrite(writes, p, k, x);
      }
    } else {
      if j :| 0 <= j < p && LastWrite(writes, j, p, x) {
        assert LastWrite(writes, j, k, x);
      }
      if j :| 0 <= j < k && LastWrite(writes, j, k, x) {
        assert LastWrite(writes, j, p, x);
      }
    }
  }
}
