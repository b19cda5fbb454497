/** `Arrays.binarySearch` on an array of doubles, over exact reals (so there
    is no NaN and no negative zero to order). */
module JavaArrays {

  predicate Sorted(a: seq<real>) {
    forall i, j :: 0 <= i <= j < |a| ==> a[i] <= a[j]
  }

  /** The library's loop on `[low, high]`: probe the middle, move right past
      smaller values, left past larger ones, and return the first equal
      element probed; on an empty range return `-(low + 1)`. */
  function Search(a: seq<real>, key: real, low: int, high: int): (r: int)
    requires 0 <= low <= high + 1 <= |a|
    ensures r >= 0 ==> low <= r <= high && a[r] == key
    ensures r < 0 ==> low <= -(r + 1) <= high + 1
    ensures Sorted(a) && r < 0
      && (forall i :: 0 <= i < low ==> a[i] < key)
      && (forall i :: high < i < |a| ==> a[i] > key)
      ==> (forall i :: 0 <= i < -(r + 1) ==> a[i] < key) && (forall i :: -(r + 1) <= i < |a| ==> a[i] > key)
    decreases high - low + 1
  {
    if low > high then -(low + 1)
    else
      var mid := (low + high) / 2;
      if a[mid] < key then Search(a, key, mid + 1, high)
      else if a[mid] > key then Search(a, key, low, mid - 1)
      else mid
  }

  /** `binarySearch(a, key)`: the index of an element equal to `key`, or
      `-(insertion point + 1)`. On a sorted array a negative result means the
      key is absent, and the insertion point splits the smaller elements from
      the larger ones. */
  function BinarySearch(a: seq<real>, key: real): (r: int)
    ensures r >= 0 ==> r < |a| && a[r] == key
    ensures r < 0 ==> 0 <= -(r + 1) <= |a|
    ensures Sorted(a) && r < 0 ==>
      && (forall i :: 0 <= i < -(r + 1) ==> a[i] < key)
      && (forall i :: -(r + 1) <= i < |a| ==> a[i] > key)
    ensures Sorted(a) ==> (r < 0 <==> forall i :: 0 <= i < |a| ==> a[i] != key)
  {
    Search(a, key, 0, |a| - 1)
  }

  /** The index the samplers start from: the found index, or the insertion
      point when the key is absent. */
  function InsertionIndex(a: seq<real>, key: real): (idx: int)
    ensures 0 <= idx <= |a|
    ensures BinarySearch(a, key) >= 0 ==> idx < |a| && a[idx] == key
    ensures Sorted(a) ==>
      && (forall i :: 0 <= i < idx ==> a[i] <= key)
      && (forall i :: idx <= i < |a| ==> a[i] >= key)
      && ((exists i :: 0 <= i < |a| && a[i] == key) ==> idx < |a| && a[idx] == key)
    ensures Sorted(a) && (forall i :: 0 <= i < |a| ==> a[i] != key) ==>
      forall i :: 0 <= i < |a| ==> (a[i] < key <==> i < idx)
  {
    var r := BinarySearch(a, key);
    if r < 0 then -r - 1 else r
  }
}
