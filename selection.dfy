/** The positions of a sequence whose elements satisfy a test, in increasing order. */
module Selection {

  /** Indices `i` of `s`, in increasing order, for which `keep(s[i])` holds. */
  function Selected<T>(s: seq<T>, keep: T -> bool): (ix: seq<nat>)
    ensures |ix| <= |s|
  {
    if s == [] then []
    else Selected(s[..|s| - 1], keep) + (if keep(s[|s| - 1]) then [|s| - 1] else [])
  }

  /** The selected indices are in range and strictly increasing: none occurs twice. */
  lemma {:induction false} SelectedIncreasing<T>(s: seq<T>, keep: T -> bool)
    ensures forall k :: 0 <= k < |Selected(s, keep)| ==> Selected(s, keep)[k] < |s|
    ensures forall k, l :: 0 <= k < l < |Selected(s, keep)| ==> Selected(s, keep)[k] < Selected(s, keep)[l]
  {
    if s != [] {
      var init := s[..|s| - 1];
      SelectedIncreasing(init, keep);
      var ix, ix' := Selected(init, keep), Selected(s, keep);
      assert ix' == ix + (if keep(s[|s| - 1]) then [|init|] else []);
      forall k | 0 <= k < |ix'| ensures ix'[k] < |s| {
        if k < |ix| { assert ix'[k] == ix[k]; }
      }
      forall k, l | 0 <= k < l < |ix'| ensures ix'[k] < ix'[l] {
        assert ix'[k] == ix[k];
        if l < |ix| { assert ix'[l] == ix[l]; }
      }
    }
  }

  /** An index is selected exactly when its element passes the test. */
  lemma {:induction false} SelectedExact<T>(s: seq<T>, keep: T -> bool)
    ensures forall i :: 0 <= i < |s| ==> (i in Selected(s, keep) <==> keep(s[i]))
  {
    if s != [] {
      var init := s[..|s| - 1];
      SelectedExact(init, keep);
      SelectedIncreasing(init, keep);
      var ix, ix' := Selected(init, keep), Selected(s, keep);
      assert ix' == ix + (if keep(s[|s| - 1]) then [|init|] else []);
      forall i | 0 <= i < |s| ensures i in ix' <==> keep(s[i]) {
        if i < |init| {
          assert init[i] == s[i];
          assert i in ix' <==> i in ix;
        } else {
          assert i !in ix;
        }
      }
    }
  }
}
