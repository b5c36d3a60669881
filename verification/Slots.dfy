/** Carving a span into equal slots. */
module Slots {
  import opened Sequences

  /** The slots of size `z` between `ptr` and `end`, lowest first. */
  function Carve(ptr: nat, end: nat, z: nat): seq<nat>
    requires z > 0
    decreases end - ptr
  {
    if ptr + z > end then [] else [ptr] + Carve(ptr + z, end, z)
  }

  /** Slots lie between the bounds and do not overlap. */
  lemma {:induction false} CarveSpaced(ptr: nat, end: nat, z: nat)
    requires z > 0
    ensures forall i :: 0 <= i < |Carve(ptr, end, z)| ==> ptr <= Carve(ptr, end, z)[i] && Carve(ptr, end, z)[i] + z <= end
    ensures forall i, j :: 0 <= i < j < |Carve(ptr, end, z)| ==> Carve(ptr, end, z)[i] + z <= Carve(ptr, end, z)[j]
    ensures NoDup(Carve(ptr, end, z))
    decreases end - ptr
  {
    if ptr + z <= end {
      var rest := Carve(ptr + z, end, z);
      var all := Carve(ptr, end, z);
      CarveSpaced(ptr + z, end, z);
      assert forall i :: 1 <= i < |all| ==> all[i] == rest[i - 1];
    }
  }

  /** As many slots as fit. */
  lemma {:induction false} CarveCount(ptr: nat, end: nat, z: nat)
    requires z > 0 && ptr <= end
    ensures |Carve(ptr, end, z)| == (end - ptr) / z
    decreases end - ptr
  {
    if ptr + z <= end {
      CarveCount(ptr + z, end, z);
      DivStep(end - ptr, z);
    } else {
      DivSmall(end - ptr, z);
    }
  }

  lemma DivStep(x: nat, z: nat)
    requires 0 < z <= x
    ensures x / z == (x - z) / z + 1
  {
    var q := (x - z) / z;
    var r := (x - z) % z;
    assert x - z == z * q + r;
    assert x == z * (q + 1) + r;
    DivUnique(x, z, q + 1, r);
  }

  lemma DivSmall(x: nat, z: nat)
    requires x < z
    ensures x / z == 0
  {
  }

  lemma DivUnique(x: nat, z: nat, q: nat, r: nat)
    requires z > 0 && x == z * q + r && r < z
    ensures x / z == q
  {
    var d := x / z - q;
    assert z * d == r - x % z;
    NearMultiple(z, d);
  }

  lemma NearMultiple(z: int, d: int)
    requires 0 < z && -z < z * d < z
    ensures d == 0
  {
  }

  lemma {:induction false} CarveAligned(ptr: nat, end: nat, z: nat)
    requires z > 0 && ptr % 8 == 0 && z % 8 == 0
    ensures forall a :: a in Carve(ptr, end, z) ==> a % 8 == 0
    decreases end - ptr
  {
    if ptr + z <= end {
      CarveAligned(ptr + z, end, z);
    }
  }

  /** Two different slots do not overlap. */
  lemma SlotsApart(ptr: nat, end: nat, z: nat, a: nat, b: nat)
    requires z > 0 && a in Carve(ptr, end, z) && b in Carve(ptr, end, z) && a != b
    ensures a + z <= b || b + z <= a
  {
    CarveSpaced(ptr, end, z);
    var s := Carve(ptr, end, z);
    var i :| 0 <= i < |s| && s[i] == a;
    var j :| 0 <= j < |s| && s[j] == b;
    assert i < j || j < i;
  }
}
