/** Switching the operation mode of every sub-HAL, and undoing a switch that one of them refuses. */
module OperationModes {
  datatype Mode = Normal | DataInjection

  /** The first sub-HAL that refuses, or the number of sub-HALs. */
  function FirstRefusal(accepts: seq<bool>): (f: nat)
    ensures f <= |accepts|
    ensures f < |accepts| ==> !accepts[f]
    ensures forall i | 0 <= i < f :: accepts[i]
  {
    if accepts == [] || !accepts[0] then 0
    else
      var f := FirstRefusal(accepts[1..]);
      assert forall i | 0 < i <= f :: accepts[i] == accepts[1..][i - 1];
      f + 1
  }

  class SubHalModes {
    var modes: seq<Mode>
    var current: Mode

    constructor (n: nat)
      ensures |modes| == n && current == Normal && Agreed()
    {
      modes, current := seq(n, _ => Normal), Normal;
    }

    predicate Agreed()
      reads this
    {
      forall i | 0 <= i < |modes| :: modes[i] == current
    }

    /** `accepts` and `undoes` say which sub-HALs take the new mode and, should it come to that, the old
        one back; the answers of the second kind are ignored. A refused switch leaves the sub-HALs in
        agreement exactly when each of those already switched takes its old mode back. */
    method SetOperationMode(mode: Mode, accepts: seq<bool>, undoes: seq<bool>) returns (ok: bool)
      requires |accepts| == |undoes| == |modes|
      modifies this
      ensures |modes| == old(|modes|)
      ensures ok <==> forall i | 0 <= i < |accepts| :: accepts[i]
      ensures ok ==> current == mode && Agreed()
      ensures !ok ==> current == old(current)
      ensures !ok ==> forall i | 0 <= i < |modes| ::
                modes[i] == if i >= FirstRefusal(accepts) then old(modes)[i]
                            else if undoes[i] then current else mode
      ensures old(Agreed()) && !ok ==>
                (Agreed() <==> mode == current || forall i | 0 <= i < FirstRefusal(accepts) :: undoes[i])
    {
      var n := 0;
      while n < |modes| && accepts[n]
        invariant n <= |modes| == old(|modes|)
        invariant forall i | 0 <= i < n :: accepts[i] && modes[i] == mode
        invariant forall i | n <= i < |modes| :: modes[i] == old(modes)[i]
        invariant current == old(current)
      {
        modes := modes[n := mode];
        n := n + 1;
      }
      ok := n == |modes|;
      if ok {
        current := mode;
      } else {
        assert n == FirstRefusal(accepts);
        for i := 0 to n
          invariant |modes| == old(|modes|)
          invariant forall j | 0 <= j < i :: modes[j] == if undoes[j] then current else mode
          invariant forall j | i <= j < n :: modes[j] == mode
          invariant forall j | n <= j < |modes| :: modes[j] == old(modes)[j]
          invariant current == old(current)
        {
          if undoes[i] {
            modes := modes[i := current];
          }
        }
      }
    }
  }
}
