/** The list of watchers that a cache notifies. */
module Watchers {

  /** The list without its first occurrence of w. */
  function Without<T(==)>(s: seq<T>, w: T): seq<T> {
    if s == [] then []
    else if s[0] == w then s[1..]
    else [s[0]] + Without(s[1..], w)
  }

  lemma {:induction false} WithoutAt<T>(s: seq<T>, w: T, i: nat)
    requires i < |s| && s[i] == w && w !in s[..i]
    ensures Without(s, w) == s[..i] + s[i + 1..]
  {
    if i > 0 {
      assert s[0] in s[..i];
      assert s[1..][..i - 1] == s[..i][1..];
      WithoutAt(s[1..], w, i - 1);
      assert s[..i] == [s[0]] + s[1..][..i - 1];
    }
  }

  lemma {:induction false} WithoutAbsent<T>(s: seq<T>, w: T)
    requires w !in s
    ensures Without(s, w) == s
  {
    if s != [] { WithoutAbsent(s[1..], w); }
  }

  /** Removing a watcher that was added undoes the addition, whoever came after it. */
  lemma RemoveUndoesAdd<T>(before: seq<T>, w: T, after: seq<T>)
    requires w !in before
    ensures Without(before + [w] + after, w) == before + after
  {
    var s := before + [w] + after;
    assert s[..|before|] == before && s[|before| + 1..] == after;
    WithoutAt(s, w, |before|);
  }

  /** A slice: the first length elements of an array. */
  class WatcherList<T(==)> {
    var elements: array<T>
    var length: nat

    ghost predicate Valid()
      reads this
    {
      length <= elements.Length
    }

    ghost function Contents(): seq<T>
      reads this, elements
      requires Valid()
    {
      elements[..length]
    }

    /** RemoveWatcher: shifts what follows the watcher one place down, in place. */
    method RemoveWatcher(w: T)
      requires Valid()
      modifies this`length, elements
      ensures Valid() && Contents() == Without(old(Contents()), w)
    {
      ghost var before := Contents();
      for i := 0 to length
        invariant Contents() == before && length == old(length)
        invariant w !in before[..i]
      {
        assert before[..i + 1] == before[..i] + [before[i]];
        if elements[i] == w {
          WithoutAt(before, w, i);
          forall k | i <= k < length - 1 {
            elements[k] := elements[k + 1];
          }
          length := length - 1;
          assert Contents() == before[..i] + before[i + 1..];
          return;
        }
      }
      assert before[..length] == before;
      WithoutAbsent(before, w);
    }
  }
}
