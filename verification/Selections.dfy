/** Lists that were picked from other lists, item by item. */
module Selections {

  /** Places in a list of `n` items, in order, each once. */
  predicate Places(at: seq<nat>, n: nat) {
    && (forall i :: 0 <= i < |at| ==> at[i] < n)
    && (forall i, j :: 0 <= i < j < |at| ==> at[i] < at[j])
  }

  lemma {:induction false} NextPlace(at: seq<nat>, n: nat)
    requires Places(at, n)
    ensures Places(at, n + 1) && Places(at + [n], n + 1)
    ensures n !in at && forall k :: k in at + [n] <==> k in at || k == n
  {
  }

  /** `picked` are the items at those places. */
  predicate Picks<T(==)>(all: seq<T>, at: seq<nat>, picked: seq<T>) {
    Places(at, |all|) && |at| == |picked| && forall i :: 0 <= i < |at| ==> picked[i] == all[at[i]]
  }

  lemma PickNone<T>()
    ensures Picks<T>([], [], [])
  {
  }

  /** With one more item in the list, which is picked or not. */
  lemma {:induction false} PickMore<T>(all: seq<T>, at: seq<nat>, picked: seq<T>)
    requires all != [] && Picks(all[..|all| - 1], at, picked)
    ensures var n := |all| - 1;
            && Picks(all, at, picked) && Picks(all, at + [n], picked + [all[n]])
            && (forall k :: k in at ==> k < n) && (forall k :: k in at + [n] <==> k in at || k == n)
  {
    NextPlace(at, |all| - 1);
  }
}
