/** The List<T> operations the domain relies on, over sequences. */
module Lists {

  /** No element occurs twice. */
  predicate NoDuplicates<T(==)>(xs: seq<T>) {
    forall i, j | 0 <= i < j < |xs| :: xs[i] != xs[j]
  }

  /** `if (!list.Contains(x)) list.Add(x)`: the list gains x at its end,
      unless x is already there. */
  function AddIfAbsent<T(==)>(xs: seq<T>, x: T): (r: seq<T>)
    ensures |xs| <= |r| <= |xs| + 1 && r[..|xs|] == xs
    ensures x in r
    ensures forall y | y in r :: y in xs || y == x
    ensures x in xs <==> r == xs
    ensures NoDuplicates(xs) ==> NoDuplicates(r)
  {
    if x in xs then xs else xs + [x]
  }

  /** List<T>.IndexOf, with |xs| standing for "not found". */
  function IndexOf<T(==)>(xs: seq<T>, x: T): (k: nat)
    ensures k <= |xs|
    ensures k < |xs| <==> x in xs
    ensures k < |xs| ==> xs[k] == x
    ensures forall i | 0 <= i < k :: xs[i] != x
  {
    if |xs| == 0 then 0
    else if xs[0] == x then 0
    else 1 + IndexOf(xs[1..], x)
  }

  /** List<T>.RemoveAt: the entry at k goes, the others keep their order. */
  function RemoveAt<T>(xs: seq<T>, k: nat): (r: seq<T>)
    requires k < |xs|
    ensures |r| == |xs| - 1
    ensures forall i | 0 <= i < k :: r[i] == xs[i]
    ensures forall i | k <= i < |r| :: r[i] == xs[i + 1]
    ensures multiset(r) + multiset{xs[k]} == multiset(xs)
  {
    assert xs == xs[..k] + [xs[k]] + xs[k + 1..];
    xs[..k] + xs[k + 1..]
  }

  /** List<T>.Remove: drops the first occurrence of x, if any. */
  function RemoveFirst<T(==)>(xs: seq<T>, x: T): (r: seq<T>)
    ensures x !in xs ==> r == xs
    ensures x in xs ==> |r| == |xs| - 1
    ensures x in xs ==> exists k | 0 <= k < |xs| ::
      && xs[k] == x
      && (forall i | 0 <= i < k :: xs[i] != x)
      && r == xs[..k] + xs[k + 1..]
    ensures multiset(r) == multiset(xs) - multiset{x}
    ensures NoDuplicates(xs) ==> x !in r && NoDuplicates(r)
  {
    var k := IndexOf(xs, x);
    if k == |xs| then xs else RemoveAt(xs, k)
  }

  /** Adding an element twice is the same as adding it once. */
  lemma AddIfAbsentIdempotent<T>(xs: seq<T>, x: T)
    ensures AddIfAbsent(AddIfAbsent(xs, x), x) == AddIfAbsent(xs, x)
  {
  }
}
