/**
 Order-based searches over a spectrum: the first-occurrence argmax of
 `findMaxIndex` (a `std::max_element` scan) and the largest value that
 `FloatVectorOperations::findMinAndMax` reports. Spectrum values are reals, so
 every pair is ordered.
 */
module Search {

  /** `i` is a largest entry among the first `size` and no earlier entry equals it. */
  ghost predicate IsFirstMax(data: seq<real>, size: nat, i: nat)
    requires size <= |data|
  {
    && i < size
    && (forall j :: 0 <= j < size ==> data[j] <= data[i])
    && (forall j :: 0 <= j < i ==> data[j] < data[i])
  }

  /**
   The index `findMaxIndex(data, size)` returns. The scan keeps the earlier
   candidate unless a later entry is strictly larger, so ties go to the first
   occurrence; an empty range yields its begin, index 0.
   */
  function MaxIndex(data: seq<real>, size: nat): (r: nat)
    requires size <= |data|
    ensures size == 0 ==> r == 0
    ensures size > 0 ==> IsFirstMax(data, size, r)
  {
    if size <= 1 then 0
    else
      var k := MaxIndex(data, size - 1);
      if data[k] < data[size - 1] then size - 1 else k
  }

  /** There is only one first maximum, so `MaxIndex` is the argmax of the range. */
  lemma FirstMaxIsUnique(data: seq<real>, size: nat, i: nat)
    requires size <= |data|
    requires IsFirstMax(data, size, i)
    ensures MaxIndex(data, size) == i
  {
  }

  /** The search reads only the first `size` entries. */
  lemma {:induction false} MaxIndexReadsPrefixOnly(a: seq<real>, b: seq<real>, size: nat)
    requires size <= |a| && size <= |b|
    requires a[..size] == b[..size]
    ensures MaxIndex(a, size) == MaxIndex(b, size)
  {
    if size > 1 {
      assert a[..size - 1] == b[..size - 1] by {
        assert a[..size - 1] == a[..size][..size - 1];
        assert b[..size - 1] == b[..size][..size - 1];
      }
      MaxIndexReadsPrefixOnly(a, b, size - 1);
      var k := MaxIndex(a, size - 1);
      assert a[k] == a[..size][k] && b[k] == b[..size][k];
      assert a[size - 1] == a[..size][size - 1] && b[size - 1] == b[..size][size - 1];
    }
  }

  /** The largest value of a non-empty sequence: the end of the `findMinAndMax` range. */
  function MaxOf(s: seq<real>): (m: real)
    requires |s| > 0
    ensures m in s
    ensures forall i :: 0 <= i < |s| ==> s[i] <= m
  {
    if |s| == 1 then s[0]
    else
      var rest := MaxOf(s[..|s| - 1]);
      assert forall i :: 0 <= i < |s| - 1 ==> s[..|s| - 1][i] == s[i];
      if rest < s[|s| - 1] then s[|s| - 1] else rest
  }

  /** The largest value sits at the argmax. */
  lemma MaxOfAtMaxIndex(data: seq<real>, size: nat)
    requires 0 < size <= |data|
    ensures MaxOf(data[..size]) == data[MaxIndex(data, size)]
  {
    var m := MaxOf(data[..size]);
    var k := MaxIndex(data, size);
    assert data[..size][k] == data[k];
    var j :| 0 <= j < size && data[..size][j] == m;
    assert data[j] <= data[k];
  }
}
