/** The multiset of a function's values over the elements of a list or of a set. */
module Images {
  import opened Rbac

  function Image<T, U(==)>(items: seq<T>, f: T -> U): multiset<U> {
    if items == [] then multiset{} else multiset{f(items[0])} + Image(items[1..], f)
  }

  lemma {:induction false} ImageConcat<T, U>(a: seq<T>, b: seq<T>, f: T -> U)
    ensures Image(a + b, f) == Image(a, f) + Image(b, f)
  {
    if a == [] {
      assert a + b == b;
    } else {
      assert (a + b)[1..] == a[1..] + b;
      ImageConcat(a[1..], b, f);
    }
  }

  lemma ImageSnoc<T, U>(items: seq<T>, x: T, f: T -> U)
    ensures Image(items + [x], f) == Image(items, f) + multiset{f(x)}
  {
    ImageConcat(items, [x], f);
    assert [x][1..] == [];
  }

  ghost function Pick<T>(s: set<T>): (x: T)
    requires s != {}
    ensures x in s
  {
    var x :| x in s; x
  }

  ghost function SetImage<T, U>(s: set<T>, f: T -> U): multiset<U> {
    if s == {} then multiset{} else multiset{f(Pick(s))} + SetImage(s - {Pick(s)}, f)
  }

  /** Any listing of a set has the set's image: the order does not matter. */
  lemma {:induction false} ListingHasSetImage<T, U>(items: seq<T>, s: set<T>, f: T -> U)
    requires NoDup(items) && forall x :: x in items <==> x in s
    ensures Image(items, f) == SetImage(s, f)
    decreases s
  {
    assert items != [] ==> items[0] in items;
    if s != {} {
      var x := Pick(s);
      var i :| 0 <= i < |items| && items[i] == x;
      ImageWithout(items, i, f);
      RestOfListing(items, i);
      hide NoDup, Image;
      ListingHasSetImage(items[..i] + items[i + 1..], s - {x}, f);
    }
  }

  lemma ImageWithout<T, U>(items: seq<T>, i: nat, f: T -> U)
    requires i < |items|
    ensures Image(items, f) == multiset{f(items[i])} + Image(items[..i] + items[i + 1..], f)
  {
    var pre, x, post := items[..i], items[i], items[i + 1..];
    assert items == (pre + [x]) + post;
    ImageConcat(pre + [x], post, f);
    ImageSnoc(pre, x, f);
    ImageConcat(pre, post, f);
  }

  lemma RestOfListing<T>(items: seq<T>, i: nat)
    requires NoDup(items) && i < |items|
    ensures var rest := items[..i] + items[i + 1..];
            NoDup(rest) && forall x :: x in rest <==> x in items && x != items[i]
  {
    var rest := items[..i] + items[i + 1..];
    forall x ensures x in rest <==> x in items && x != items[i] {
      if x in items && x != items[i] {
        var k :| 0 <= k < |items| && items[k] == x;
        assert rest[if k < i then k else k - 1] == x;
      }
      if x in rest {
        var k :| 0 <= k < |rest| && rest[k] == x;
        assert items[if k < i then k else k + 1] == x;
      }
    }
  }

  lemma {:induction false} SomeListing<T>(s: set<T>) returns (items: seq<T>)
    ensures NoDup(items) && forall x :: x in items <==> x in s
    decreases s
  {
    if s == {} {
      items := [];
    } else {
      var rest := SomeListing(s - {Pick(s)});
      NoDupSnoc(rest, Pick(s));
      items := rest + [Pick(s)];
    }
  }

  lemma SetImageAdd<T, U>(s: set<T>, x: T, f: T -> U)
    requires x !in s
    ensures SetImage(s + {x}, f) == SetImage(s, f) + multiset{f(x)}
  {
    var items := SomeListing(s);
    ListingHasSetImage(items, s, f);
    NoDupSnoc(items, x);
    ListingHasSetImage(items + [x], s + {x}, f);
    ImageSnoc(items, x, f);
  }

  lemma {:induction false} SetImageMembers<T(!new), U>(s: set<T>, f: T -> U)
    ensures forall y :: y in SetImage(s, f) <==> exists x :: x in s && f(x) == y
    decreases s
  {
    if s != {} {
      SetImageMembers(s - {Pick(s)}, f);
    }
  }
}
