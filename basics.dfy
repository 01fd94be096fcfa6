/** Small shared vocabulary: an optional value (Python's `None` or a value), `min`, and slicing and indexing facts. */
module Basics {

  /** A value that may be absent; `None` stands for Python's `None`. */
  datatype Option<+T> = None | Some(value: T)

  /** Python's `min` on two integers. */
  function Min(a: int, b: int): (m: int)
    ensures m <= a && m <= b
    ensures m == a || m == b
  {
    if a <= b then a else b
  }

  /** An element of the second part of a prefix, read in the whole sequence. */
  lemma PrefixIndex<T>(whole: seq<T>, head: seq<T>, tail: seq<T>, k: nat)
    requires head + tail <= whole
    requires k < |tail|
    ensures |head| + k < |whole|
    ensures whole[|head| + k] == tail[k]
  {
    assert (head + tail)[|head| + k] == tail[k];
  }

  /** A slice of a suffix is a slice of the whole, shifted. */
  lemma SliceOfSuffix<T>(s: seq<T>, k: nat, lo: nat, hi: nat)
    requires k <= |s| && lo <= hi <= |s| - k
    ensures s[k..][lo..hi] == s[k + lo .. k + hi]
  {
  }
}
