/** Small shared vocabulary: optional values, results and lookups. */
module Common {

  datatype Option<+T> = None | Some(value: T)

  datatype Result<+T, +E> = Ok(value: T) | Err(error: E)

  function Min(a: int, b: int): int { if a < b then a else b }

  function Max(a: int, b: int): int { if a > b then a else b }

  /** `mapping.get(key)`. */
  function Get<K, V>(m: map<K, V>, key: K): Option<V> {
    if key in m then Some(m[key]) else None
  }

  /** `mapping.get(key)` as a conditional update: `None` deletes the key. */
  function Put<K, V>(m: map<K, V>, key: K, value: Option<V>): map<K, V> {
    match value
    case Some(v) => m[key := v]
    case None => m - {key}
  }

  /** Positions in increasing order. */
  predicate Rise(at: seq<nat>) { forall j, k :: 0 <= j < k < |at| ==> at[j] < at[k] }

  /** The same positions after something is put in front. */
  function Later(at: seq<nat>): (later: seq<nat>)
    ensures |later| == |at| && forall k :: 0 <= k < |at| ==> later[k] == at[k] + 1
  {
    seq(|at|, k requires 0 <= k < |at| => at[k] + 1)
  }

  lemma LaterMembers(at: seq<nat>, i: nat)
    ensures i in Later(at) <==> i > 0 && i - 1 in at
  {
    if i > 0 && i - 1 in at {
      var k :| 0 <= k < |at| && at[k] == i - 1;
      assert Later(at)[k] == i;
    }
  }

  /** Position 0 is among these exactly when it is chosen, and the others one place on. */
  ghost predicate InFront(isChosen: bool, at: seq<nat>, all: seq<nat>) {
    forall i: nat :: i in all <==> if i == 0 then isChosen else i - 1 in at
  }

  /** Putting a chosen element, or one that is not, in front of some positions. */
  lemma RiseCons(at: seq<nat>, isChosen: bool)
    requires Rise(at)
    ensures var all := (if isChosen then [0] else []) + Later(at); Rise(all) && InFront(isChosen, at, all)
  {
    forall i: nat { LaterMembers(at, i); }
  }
}
