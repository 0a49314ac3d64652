/** Merging and comparing subject lists, and merging label maps. */
module SubjectLists {
  import opened Rbac

  /** Subjects by cluster set or by cluster. */
  type SubjectMap = map<string, seq<Subject>>

  type Labels = map<string, string>

  function SetOf(s: seq<Subject>): set<Subject> {
    set x | x in s
  }

  // ------------------------------------------------------------------ Mergesubjects

  /** The elements of b that a has not. */
  function Missing(a: seq<Subject>, b: seq<Subject>): (r: seq<Subject>)
    ensures forall x :: x in r <==> x in b && x !in a
  {
    if b == [] then []
    else (if b[0] in a then [] else [b[0]]) + Missing(a, b[1..])
  }

  lemma {:induction false} MissingAppend(a: seq<Subject>, b: seq<Subject>, x: Subject)
    ensures Missing(a, b + [x]) == Missing(a, b) + if x in a then [] else [x]
  {
    if b == [] {
      assert [x][1..] == [];
      assert b + [x] == [x];
    } else {
      assert (b + [x])[1..] == b[1..] + [x];
      MissingAppend(a, b[1..], x);
    }
  }

  /** Mergesubjects: the first list, followed by what only the second has. Later duplicates
      within the second list are not noticed. */
  method MergeSubjects(subjects: seq<Subject>, more: seq<Subject>) returns (merged: seq<Subject>)
    ensures merged == subjects + Missing(subjects, more)
  {
    var known := {};
    for i := 0 to |subjects|
      invariant known == SetOf(subjects[..i])
    {
      assert subjects[..i + 1] == subjects[..i] + [subjects[i]];
      known := known + {subjects[i]};
    }
    assert subjects[..|subjects|] == subjects;
    merged := subjects;
    for i := 0 to |more|
      invariant merged == subjects + Missing(subjects, more[..i])
    {
      assert more[..i + 1] == more[..i] + [more[i]];
      MissingAppend(subjects, more[..i], more[i]);
      if more[i] !in known {
        merged := merged + [more[i]];
      }
    }
    assert more[..|more|] == more;
  }

  lemma {:induction false} MissingNoDup(a: seq<Subject>, b: seq<Subject>)
    requires NoDup(b)
    ensures NoDup(Missing(a, b))
  {
    if b != [] {
      assert forall k :: 0 <= k < |b[1..]| ==> b[1..][k] == b[k + 1];
      assert b[0] !in b[1..];
      MissingNoDup(a, b[1..]);
      if b[0] !in a { NoDupConcat([b[0]], Missing(a, b[1..])); }
    }
  }

  /** Merging keeps duplicate-free lists duplicate-free and has the elements of both. */
  lemma MergedIsUnion(a: seq<Subject>, b: seq<Subject>)
    requires NoDup(a) && NoDup(b)
    ensures NoDup(a + Missing(a, b)) && SetOf(a + Missing(a, b)) == SetOf(a) + SetOf(b)
  {
    MissingNoDup(a, b);
    NoDupConcat(a, Missing(a, b));
  }

  // ------------------------------------------------------------------ EqualSubjects

  /** EqualSubjects: equal lengths and equal sets. */
  method EqualSubjects(a: seq<Subject>, b: seq<Subject>) returns (equal: bool)
    ensures equal <==> |a| == |b| && SetOf(a) == SetOf(b)
  {
    if |a| != |b| {
      return false;
    }
    var seenA, seenB := {}, {};
    for i := 0 to |a|
      invariant seenA == SetOf(a[..i])
    {
      assert a[..i + 1] == a[..i] + [a[i]];
      seenA := seenA + {a[i]};
    }
    for i := 0 to |b|
      invariant seenB == SetOf(b[..i])
    {
      assert b[..i + 1] == b[..i] + [b[i]];
      seenB := seenB + {b[i]};
    }
    assert a[..|a|] == a && b[..|b|] == b;
    return seenA == seenB;
  }

  lemma {:induction false} NoDupCounts(s: seq<Subject>)
    ensures |SetOf(s)| <= |s|
    ensures NoDup(s) <==> |SetOf(s)| == |s|
    ensures NoDup(s) ==> forall x :: multiset(s)[x] <= 1
  {
    if s != [] {
      var t, last := s[..|s| - 1], s[|s| - 1];
      assert s == t + [last];
      assert SetOf(s) == SetOf(t) + {last};
      NoDupCounts(t);
      NoDupSnoc(t, last);
      assert last in t <==> last in SetOf(t);
    }
  }

  /** If one list is free of duplicates, EqualSubjects means that the other is a
      permutation of it. */
  lemma EqualMeansPermutation(a: seq<Subject>, b: seq<Subject>)
    requires NoDup(b)
    ensures |a| == |b| && SetOf(a) == SetOf(b) <==> multiset(a) == multiset(b)
  {
    NoDupCounts(a);
    NoDupCounts(b);
    if |a| == |b| && SetOf(a) == SetOf(b) {
      forall x ensures multiset(a)[x] == multiset(b)[x] {
        assert x in SetOf(a) <==> x in SetOf(b);
        assert multiset(a)[x] <= 1 && multiset(b)[x] <= 1;
      }
    }
    if multiset(a) == multiset(b) {
      assert |a| == |multiset(a)| == |multiset(b)| == |b|;
      forall x ensures x in SetOf(a) <==> x in SetOf(b) {
        assert x in a <==> x in multiset(a);
        assert x in b <==> x in multiset(b);
      }
    }
  }

  /** EqualSubjects means a permutation for every list if and only if the other is free of
      duplicates, or repeats a single subject. */
  lemma EqualMeansPermutationExactlyWhen(b: seq<Subject>)
    ensures (forall a :: |a| == |b| && SetOf(a) == SetOf(b) ==> multiset(a) == multiset(b))
       <==> NoDup(b) || |SetOf(b)| <= 1
  {
    if NoDup(b) {
      forall a | |a| == |b| && SetOf(a) == SetOf(b) ensures multiset(a) == multiset(b) {
        EqualMeansPermutation(a, b);
      }
    } else if |SetOf(b)| <= 1 {
      forall a | |a| == |b| && SetOf(a) == SetOf(b) ensures multiset(a) == multiset(b) {
        SingleSubject(a, b);
      }
    } else {
      var i, j :| 0 <= i < j < |b| && b[i] == b[j];
      var y := AnotherSubject(b, b[i]);
      Replaced(b, i, j, y);
    }
  }

  lemma SingleSubject(a: seq<Subject>, b: seq<Subject>)
    requires |a| == |b| && SetOf(a) == SetOf(b) && |SetOf(b)| <= 1
    ensures a == b
  {
    forall k | 0 <= k < |a| ensures a[k] == b[k] {
      assert a[k] in SetOf(a) && b[k] in SetOf(b);
      assert SetOf(b) == {a[k], b[k]} + (SetOf(b) - {a[k], b[k]});
    }
  }

  lemma AnotherSubject(b: seq<Subject>, x: Subject) returns (y: Subject)
    requires x in b && |SetOf(b)| > 1
    ensures y in b && y != x
  {
    assert (forall z :: z in b ==> z == x) ==> SetOf(b) == {x};
    y :| y in b && y != x;
  }

  /** One of two equal subjects replaced by a third: the same set, another multiset. */
  lemma Replaced(b: seq<Subject>, i: nat, j: nat, y: Subject)
    requires i < j < |b| && b[i] == b[j] && y in b && y != b[i]
    ensures SetOf(b[i := y]) == SetOf(b) && multiset(b[i := y]) != multiset(b)
  {
    var a := b[i := y];
    forall x ensures x in a <==> x in b {
      if x in b {
        var k :| 0 <= k < |b| && b[k] == x;
        assert a[if k == i then j else k] == x;
      }
      if x in a {
        var k :| 0 <= k < |a| && a[k] == x;
      }
    }
    assert multiset(a) == multiset(b)[b[i] := multiset(b)[b[i]] - 1][y := multiset(b)[y] + 1];
    assert multiset(a)[y] == multiset(b)[y] + 1;
  }

  /** With duplicates on both sides it need not be one. */
  lemma EqualWithDuplicates(x: Subject, y: Subject)
    requires x != y
    ensures |[x, x, y]| == |[x, y, y]| && SetOf([x, x, y]) == SetOf([x, y, y])
    ensures multiset([x, x, y]) != multiset([x, y, y])
  {
  }

  // ------------------------------------------------------------------ MergeMap

  predicate IsRemoval(key: string) {
    |key| > 0 && key[|key| - 1] == '-'
  }

  /** strings.TrimRight(key, "-") */
  function TrimDashes(key: string): string {
    if IsRemoval(key) then TrimDashes(key[..|key| - 1]) else key
  }

  function Removed(required: Labels): set<string> {
    set k | k in required && IsRemoval(k) :: TrimDashes(k)
  }

  function Added(required: Labels): Labels {
    map k | k in required && !IsRemoval(k) :: required[k]
  }

  /** No key is both required and to be removed: then the order of the keys is irrelevant. */
  predicate Consistent(required: Labels) {
    Removed(required) !! Added(required).Keys
  }

  function MergedMap(existing: Labels, required: Labels): Labels {
    (existing - Removed(required)) + Added(required)
  }

  function Dashes(n: nat): string {
    if n == 0 then "" else Dashes(n - 1) + "-"
  }

  /** All dashes at the end are cut off, and nothing else. */
  lemma {:induction false} TrimsDashes(key: string, n: nat)
    requires key == "" || key[|key| - 1] != '-'
    ensures TrimDashes(key + Dashes(n)) == key && (IsRemoval(key + Dashes(n)) <==> n > 0)
  {
    if n > 0 {
      var longer := key + Dashes(n);
      assert longer == (key + Dashes(n - 1)) + "-";
      assert longer[..|longer| - 1] == key + Dashes(n - 1);
      TrimsDashes(key, n - 1);
    } else {
      assert key + Dashes(0) == key;
    }
  }

  /** What a single required key means: it is set, or with dashes behind it taken away. */
  lemma OneRequiredKey(existing: Labels, key: string, n: nat, value: string)
    requires key == "" || key[|key| - 1] != '-'
    ensures var required := map[key + Dashes(n) := value];
            && Consistent(required)
            && MergedMap(existing, required) == if n == 0 then existing[key := value] else existing - {key}
  {
    TrimsDashes(key, n);
    SingleKey(key + Dashes(n), value);
    if n == 0 { assert key + Dashes(0) == key; }
    hide Dashes, TrimDashes, IsRemoval, Removed, Added;
  }

  lemma SingleKey(k: string, value: string)
    ensures Removed(map[k := value]) == if IsRemoval(k) then {TrimDashes(k)} else {}
    ensures Added(map[k := value]) == if IsRemoval(k) then map[] else map[k := value]
  {
    hide TrimDashes, IsRemoval;
    assert k in map[k := value];
  }

  lemma MergeOneKey(existing: Labels, done: Labels, k: string, v: string)
    requires k !in done && Consistent(done[k := v])
    ensures Consistent(done)
    ensures MergedMap(existing, done[k := v]) ==
              if IsRemoval(k) then MergedMap(existing, done) - {TrimDashes(k)}
              else MergedMap(existing, done)[k := v]
  {
    var more := done[k := v];
    if IsRemoval(k) {
      assert Removed(more) == Removed(done) + {TrimDashes(k)};
      assert Added(more) == Added(done);
      DropAfterAdd(existing, Removed(done), Added(done), TrimDashes(k));
    } else {
      assert Removed(more) == Removed(done);
      assert Added(more) == Added(done)[k := v];
    }
  }

  lemma DropAfterAdd(existing: Labels, removed: set<string>, added: Labels, key: string)
    requires key !in added
    ensures (existing - (removed + {key})) + added == ((existing - removed) + added) - {key}
  {
  }

  /** The required key calls for a change. */
  predicate Calls(existing: Labels, k: string, v: string) {
    if IsRemoval(k) then TrimDashes(k) in existing else k !in existing || existing[k] != v
  }

  predicate AnyCalls(existing: Labels, required: Labels) {
    exists k :: k in required && Calls(existing, k, required[k])
  }

  lemma CallsMeanChange(existing: Labels, required: Labels)
    requires Consistent(required)
    ensures AnyCalls(existing, required) <==> MergedMap(existing, required) != existing
  {
  }

  /** What one more key does to the merged map, and whether that is a change. */
  lemma OneMoreKey(existing: Labels, required: Labels, rest: set<string>, k: string)
    requires k in rest && k in required && Consistent(required)
    ensures var before, after := required - rest, required - (rest - {k});
            var merged := MergedMap(existing, before);
            && MergedMap(existing, after) ==
                 (if IsRemoval(k) then merged - {TrimDashes(k)} else merged[k := required[k]])
            && (AnyCalls(existing, after) <==> AnyCalls(existing, before) || Calls(merged, k, required[k]))
  {
    var before, after := required - rest, required - (rest - {k});
    assert after == before[k := required[k]];
    assert Removed(after) <= Removed(required) && Added(after).Keys <= Added(required).Keys;
    MergeOneKey(existing, before, k, required[k]);
    var merged := MergedMap(existing, before);
    if IsRemoval(k) {
      var key := TrimDashes(k);
      assert key in Removed(after) && key !in Added(before);
      if key in existing && key !in merged {
        assert key in Removed(before);
        var k' :| k' in before && IsRemoval(k') && TrimDashes(k') == key;
        assert Calls(existing, k', before[k']);
      }
    } else {
      assert k in Added(after) && k !in Removed(before) && k !in Added(before);
    }
    forall k' | k' in before ensures k' in after && after[k'] == before[k'] { }
  }

  /** Key by key, whatever the order: what is only required is there, what is only to be removed
      is not, a key that is both has the required value or is gone, and all others stay. */
  ghost predicate MergedByKey(existing: Labels, required: Labels, merged: Labels) {
    forall key :: MergedAt(existing, required, merged, key)
  }

  predicate MergedAt(existing: Labels, required: Labels, merged: Labels, key: string) {
    if key in Added(required) then
      if key in merged then merged[key] == required[key] else key in Removed(required)
    else if key in Removed(required) then key !in merged
    else (key in merged <==> key in existing) && (key in merged ==> merged[key] == existing[key])
  }

  lemma OneMoreByKey(existing: Labels, required: Labels, rest: set<string>, k: string,
                     merged: Labels)
    requires k in rest && k in required && MergedByKey(existing, required - rest, merged)
    ensures MergedByKey(existing, required - (rest - {k}),
                        if IsRemoval(k) then merged - {TrimDashes(k)} else merged[k := required[k]])
  {
    var before, after := required - rest, required - (rest - {k});
    assert after == before[k := required[k]] && k !in before;
    if IsRemoval(k) {
      assert Removed(after) == Removed(before) + {TrimDashes(k)};
      assert Added(after) == Added(before);
    } else {
      assert Removed(after) == Removed(before);
      assert Added(after) == Added(before)[k := required[k]];
    }
    hide Removed, Added;
    var merged' := if IsRemoval(k) then merged - {TrimDashes(k)} else merged[k := required[k]];
    forall key ensures MergedAt(existing, after, merged', key) {
      assert MergedAt(existing, before, merged, key);
    }
  }

  /** MergeMap over the required keys in any order. */
  method MergeMap(existing: Labels, required: Labels)
    returns (merged: Labels, modified: bool)
    ensures MergedByKey(existing, required, merged) && (merged != existing ==> modified)
    ensures Consistent(required) ==> merged == MergedMap(existing, required) && (modified <==> merged != existing)
  {
    hide MergedMap, Consistent, AnyCalls, MergedByKey;
    merged, modified := existing, false;
    var rest := required.Keys;
    NothingRequired(existing, required - rest);
    while rest != {}
      invariant rest <= required.Keys
      invariant MergedByKey(existing, required - rest, merged) && (merged != existing ==> modified)
      invariant Consistent(required) ==> merged == MergedMap(existing, required - rest)
      invariant Consistent(required) ==> (modified <==> AnyCalls(existing, required - rest))
      decreases rest
    {
      var k :| k in rest;
      OneMoreByKey(existing, required, rest, k, merged);
      if Consistent(required) {
        OneMoreKey(existing, required, rest, k);
      }
      rest := rest - {k};
      if IsRemoval(k) {
        var key := TrimDashes(k);
        assert key !in merged ==> merged - {key} == merged;
        if key in merged {
          merged := merged - {key};
          modified := true;
        }
      } else if k !in merged || merged[k] != required[k] {
        merged := merged[k := required[k]];
        modified := true;
      } else {
        assert merged[k := required[k]] == merged;
      }
    }
    assert required - {} == required;
    if Consistent(required) {
      CallsMeanChange(existing, required);
    }
  }

  lemma NothingRequired(existing: Labels, required: Labels)
    requires required == map[]
    ensures MergedMap(existing, required) == existing && !AnyCalls(existing, required)
    ensures MergedByKey(existing, required, existing)
  {
  }
}
