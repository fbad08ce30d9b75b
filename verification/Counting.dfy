/** How many of a row of yeses and noes are yes. */
module Counting {
  function CountTrue(flags: seq<bool>): nat {
    if flags == [] then 0 else CountTrue(flags[..|flags| - 1]) + if flags[|flags| - 1] then 1 else 0
  }

  function TrueAt(flags: seq<bool>): set<nat> {
    set i: nat | i < |flags| && flags[i]
  }

  lemma {:induction false} TrueOnes(flags: seq<bool>)
    ensures CountTrue(flags) == |TrueAt(flags)|
  {
    if flags != [] {
      var last := |flags| - 1;
      TrueOnes(flags[..last]);
      assert TrueAt(flags) == TrueAt(flags[..last]) + if flags[last] then {last} else {};
    }
  }

  /** One more flag. */
  lemma TrueNext(flags: seq<bool>)
    requires flags != []
    ensures |TrueAt(flags)| == |TrueAt(flags[..|flags| - 1])| + if flags[|flags| - 1] then 1 else 0
  {
    TrueOnes(flags);
    TrueOnes(flags[..|flags| - 1]);
  }
}
