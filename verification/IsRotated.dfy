/** `is_rotated` of rad_util.py, which find_cycles uses to recognise a cycle it already has. */
module RotationTest {
  import opened Results
  import opened Graphs

  datatype IndexError = IndexError

  lemma DoubledSlice<T>(s: seq<T>, k: nat)
    requires k < |s|
    ensures (s + s)[k..k + |s|] == Rotate(s, k)
  {
  }

  lemma RotationBelowLength<T(!new)>(a: seq<T>, b: seq<T>)
    requires IsRotation(a, b) && a != []
    ensures exists k :: 0 <= k < |a| && b == Rotate(a, k)
  {
    var k :| 0 <= k <= |a| && b == Rotate(a, k);
    if k == |a| {
      assert b == Rotate(a, 0);
    }
  }

  method IsRotated<T(==,!new)>(seq1: seq<T>, seq2: seq<T>) returns (r: Result<bool, IndexError>)
    ensures r.Err? <==> seq1 == [] && seq2 == []
    ensures r.Ok? ==> (r.value <==> IsRotation(seq1, seq2))
  {
    if |seq1| != |seq2| {
      return Ok(false);
    }
    if |seq2| == 0 {
      return Err(IndexError);  // the head item of an empty sequence
    }
    var startIndexes: seq<nat> := [];
    var headItem := seq2[0];
    for index1 := 0 to |seq1|
      invariant forall m :: 0 <= m < |startIndexes| ==> startIndexes[m] < index1
      invariant forall k :: 0 <= k < index1 && seq1[k] == headItem ==> k in startIndexes
    {
      if seq1[index1] == headItem {
        startIndexes := startIndexes + [index1];
      }
    }
    var doubleSeq1 := seq1 + seq1;
    for n := 0 to |startIndexes|
      invariant forall m :: 0 <= m < n ==> seq2 != Rotate(seq1, startIndexes[m])
    {
      var index1 := startIndexes[n];
      DoubledSlice(seq1, index1);
      if doubleSeq1[index1..index1 + |seq1|] == seq2 {
        return Ok(true);
      }
    }
    forall k | 0 <= k < |seq1| ensures seq2 != Rotate(seq1, k) {
      assert seq1[k] == headItem ==> k in startIndexes;
      assert Rotate(seq1, k)[0] == seq1[k];
    }
    if IsRotation(seq1, seq2) {
      RotationBelowLength(seq1, seq2);
    }
    return Ok(false);
  }
}
