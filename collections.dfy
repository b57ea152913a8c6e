/** Small helpers shared by the server and client modules. */
module Collections {

  datatype Option<+T> = None | Some(value: T)

  /** Position of the first element of `s` that satisfies `p`, as JavaScript's
      `findIndex` and MongoDB's `findOne` in natural order pick it. */
  function IndexWhere<T>(s: seq<T>, p: T -> bool): (r: Option<nat>)
    ensures r.Some? ==> r.value < |s| && p(s[r.value])
    ensures r.Some? ==> forall k :: 0 <= k < r.value ==> !p(s[k])
    ensures r.None? <==> forall k :: 0 <= k < |s| ==> !p(s[k])
  {
    if s == [] then None
    else if p(s[0]) then Some(0)
    else match IndexWhere(s[1..], p)
      case None => None
      case Some(i) => Some(i + 1)
  }

  function Min(a: int, b: int): (m: int)
    ensures m <= a && m <= b && (m == a || m == b)
  {
    if a <= b then a else b
  }

  /** Taking `m` elements of `d` is taking its head and then `m - 1` of its tail. */
  lemma PrefixOfTail<T>(a: seq<T>, d: seq<T>, m: nat)
    requires 1 <= m <= |d|
    ensures a + [d[0]] + d[1..][..m - 1] == a + d[..m]
  {
    assert d[..m] == [d[0]] + d[1..][..m - 1];
  }
}
