/** Small sequence helpers shared by the Chips and FileUpload models. */
module Common {

  datatype Option<+T> = None | Some(value: T)

  /** `Array.prototype.filter`: the elements of `s` that satisfy `keep`, in their order. */
  function Filter<T>(s: seq<T>, keep: T -> bool): (r: seq<T>)
    ensures |r| <= |s|
    ensures forall k :: 0 <= k < |r| ==> keep(r[k])
    ensures forall k :: 0 <= k < |r| ==> r[k] in s
  {
    if s == [] then []
    else if keep(s[0]) then [s[0]] + Filter(s[1..], keep)
    else Filter(s[1..], keep)
  }

  /** An element survives the filter exactly when it occurs in the input and is kept. */
  lemma {:induction false} FilterMember<T>(s: seq<T>, keep: T -> bool, x: T)
    ensures x in Filter(s, keep) <==> x in s && keep(x)
  {
    if s != [] {
      FilterMember(s[1..], keep, x);
      assert s == [s[0]] + s[1..];
    }
  }

  /** Filtering distributes over concatenation, so the relative order of kept elements is preserved. */
  lemma {:induction false} FilterConcat<T>(a: seq<T>, b: seq<T>, keep: T -> bool)
    ensures Filter(a + b, keep) == Filter(a, keep) + Filter(b, keep)
  {
    if a == [] {
      assert a + b == b;
    } else {
      assert (a + b)[0] == a[0];
      assert (a + b)[1..] == a[1..] + b;
      FilterConcat(a[1..], b, keep);
    }
  }

  /** A filter that keeps everything is the identity. */
  lemma {:induction false} FilterKeepsAll<T>(s: seq<T>, keep: T -> bool)
    requires forall k :: 0 <= k < |s| ==> keep(s[k])
    ensures Filter(s, keep) == s
  {
    if s != [] {
      FilterKeepsAll(s[1..], keep);
    }
  }

  /**
   * `copy.splice(i, 1)` applied to a copy of `s`: the copy without position `i`.
   * An index past the end removes nothing.
   */
  function RemoveAt<T>(s: seq<T>, i: nat): (r: seq<T>)
    ensures i < |s| ==> |r| == |s| - 1
    ensures i < |s| ==> forall k :: 0 <= k < i ==> r[k] == s[k]
    ensures i < |s| ==> forall k :: i <= k < |r| ==> r[k] == s[k + 1]
    ensures i >= |s| ==> r == s
  {
    if i < |s| then s[..i] + s[i + 1..] else s
  }

  /** The element `splice(i, 1)` hands back: a one-element array, or an empty one past the end. */
  function SplicedOut<T>(s: seq<T>, i: nat): (r: seq<T>)
    ensures i < |s| ==> r == [s[i]]
    ensures i >= |s| ==> r == []
  {
    if i < |s| then [s[i]] else []
  }

  /** Removing position `i` and the element it returns together account for every element. */
  lemma RemoveAtPermutation<T>(s: seq<T>, i: nat)
    ensures multiset(RemoveAt(s, i)) + multiset(SplicedOut(s, i)) == multiset(s)
  {
    if i < |s| {
      assert s == s[..i] + [s[i]] + s[i + 1..];
    }
  }
}
