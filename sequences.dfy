/** Facts about sequences shared by the classifier and the encoder. */
module Sequences {

  /** No element occurs twice. */
  predicate Distinct<T(==)>(s: seq<T>) {
    forall i, j | 0 <= i < j < |s| :: s[i] != s[j]
  }

  /** Appends to `acc`, in order, each element of `s` that is not already there:
      the key list a Python dict ends up with after assigning the keys of `s` in turn. */
  function AddNew<T(==)>(acc: seq<T>, s: seq<T>): seq<T>
    decreases |s|
  {
    if s == [] then acc
    else AddNew(if s[0] in acc then acc else acc + [s[0]], s[1..])
  }

  /** Adding new elements keeps a duplicate-free list duplicate-free and adds at most `|s|`
      elements, all of them only when `acc + s` is itself duplicate-free. */
  lemma {:induction false} AddNewDistinct<T>(acc: seq<T>, s: seq<T>)
    requires Distinct(acc)
    ensures Distinct(AddNew(acc, s))
    ensures |AddNew(acc, s)| <= |acc| + |s|
    ensures |AddNew(acc, s)| == |acc| + |s| ==> Distinct(acc + s)
    decreases |s|
  {
    if s == [] {
      assert acc + s == acc;
    } else if s[0] in acc {
      AddNewDistinct(acc, s[1..]);
    } else {
      var acc' := acc + [s[0]];
      assert Distinct(acc') by {
        forall i, j | 0 <= i < j < |acc'| ensures acc'[i] != acc'[j] {
          if j == |acc| {
            assert acc'[i] == acc[i];
          }
        }
      }
      AddNewDistinct(acc', s[1..]);
      assert acc' + s[1..] == acc + s;
    }
  }

  /** When `acc + s` is duplicate-free, nothing of `s` is dropped. */
  lemma {:induction false} AddNewFresh<T>(acc: seq<T>, s: seq<T>)
    requires Distinct(acc + s)
    ensures AddNew(acc, s) == acc + s
    decreases |s|
  {
    if s == [] {
      assert acc + s == acc;
    } else {
      assert (acc + s)[|acc|] == s[0];
      forall i | 0 <= i < |acc| ensures acc[i] != s[0] {
        assert (acc + s)[i] == acc[i];
      }
      var acc' := acc + [s[0]];
      assert acc' + s[1..] == acc + s;
      AddNewFresh(acc', s[1..]);
    }
  }

  /** Nothing is lost exactly when `acc + s` is duplicate-free, and then the result is `acc + s`. */
  lemma AddNewLength<T>(acc: seq<T>, s: seq<T>)
    requires Distinct(acc)
    ensures Distinct(AddNew(acc, s))
    ensures |AddNew(acc, s)| <= |acc| + |s|
    ensures |AddNew(acc, s)| == |acc| + |s| <==> Distinct(acc + s)
    ensures Distinct(acc + s) ==> AddNew(acc, s) == acc + s
  {
    AddNewDistinct(acc, s);
    if Distinct(acc + s) {
      AddNewFresh(acc, s);
    }
  }
}
