/** A base-`b` reading of a fixed-length digit sequence, most significant
    digit first: lexicographic decrease of the digits is decrease of the
    number, which turns a bounded stack of counters into one termination
    measure. */
module Measure {

  function Enc(ds: seq<nat>, b: nat): nat
  {
    if ds == [] then 0 else Enc(ds[..|ds| - 1], b) * b + ds[|ds| - 1]
  }

  /** If two digit sequences agree before position `j`, `s` is smaller at `j`
      and every later digit of `s` is below the base, then `s` encodes a
      smaller number than `t`. */
  lemma {:induction false} EncLess(s: seq<nat>, t: seq<nat>, j: nat, b: nat)
    requires |s| == |t| && j < |s|
    requires s[..j] == t[..j] && s[j] < t[j]
    requires forall k :: j < k < |s| ==> s[k] < b
    ensures Enc(s, b) < Enc(t, b)
    decreases |s|
  {
    var n := |s| - 1;
    if n == j {
      assert s[..n] == t[..n];
    } else {
      EncLess(s[..n], t[..n], j, b);
      var x := Enc(s[..n], b);
      var y := Enc(t[..n], b);
      assert x + 1 <= y;
      assert s[n] < b;
      calc {
        Enc(s, b);
        == x * b + s[n];
        < x * b + b;
        == (x + 1) * b;
        <= { MulMono(x + 1, y, b); } y * b;
        <= y * b + t[n];
        == Enc(t, b);
      }
    }
  }

  lemma MulMono(x: nat, y: nat, b: nat)
    requires x <= y
    ensures x * b <= y * b
  {
  }
}
