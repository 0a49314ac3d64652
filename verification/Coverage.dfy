/** Lists of cluster bindings, what they cover, and merging one more binding in. */
module Coverage {
  import opened Rbac

  datatype Scope = ClusterScope | NamespaceScope

  datatype ClusterBinding = ClusterBinding(cluster: string, scope: Scope, namespaces: seq<string>)

  /** What can be covered in a cluster: all of it, or one namespace. */
  datatype Extent = Whole | Within(namespace: string)

  /** A cluster-scoped binding covers the cluster and each of its namespaces. */
  predicate Covers(b: ClusterBinding, cluster: string, e: Extent) {
    b.cluster == cluster && (b.scope == ClusterScope || (e.Within? && e.namespace in b.namespaces))
  }

  predicate Covered(bs: seq<ClusterBinding>, cluster: string, e: Extent) {
    exists b :: b in bs && Covers(b, cluster, e)
  }

  predicate Listed(bs: seq<ClusterBinding>, cluster: string) {
    exists b :: b in bs && b.cluster == cluster
  }

  predicate OnePerCluster(bs: seq<ClusterBinding>) {
    forall i, j :: 0 <= i < j < |bs| ==> bs[i].cluster != bs[j].cluster
  }

  /** The two shapes the processors build: everything, or a non-empty list of namespaces
      without repetition. */
  predicate WellFormed(b: ClusterBinding) {
    if b.scope == ClusterScope then b.namespaces == ["*"] else |b.namespaces| > 0 && NoDup(b.namespaces)
  }

  predicate Tidy(bs: seq<ClusterBinding>) {
    OnePerCluster(bs) && forall b :: b in bs ==> WellFormed(b)
  }

  /** In a tidy list an entry for a cluster always covers something there. */
  lemma ListedCovers(bs: seq<ClusterBinding>, cluster: string)
    requires Tidy(bs)
    ensures Listed(bs, cluster) <==> exists e :: Covered(bs, cluster, e)
  {
    if Listed(bs, cluster) {
      var b :| b in bs && b.cluster == cluster;
      assert Covers(b, cluster, Within(b.namespaces[0]));
      assert Covered(bs, cluster, Within(b.namespaces[0]));
    }
  }

  /** In a tidy list the entry of a cluster is cluster-scoped exactly when the whole
      cluster is covered, and otherwise lists exactly the covered namespaces. */
  lemma EntryIsCoverage(bs: seq<ClusterBinding>, b: ClusterBinding)
    requires Tidy(bs) && b in bs
    ensures b.scope == ClusterScope <==> Covered(bs, b.cluster, Whole)
    ensures b.scope == NamespaceScope ==>
              forall n :: n in b.namespaces <==> Covered(bs, b.cluster, Within(n))
  {
  }

  /** The list covers what it did before and what b covers, and is no less tidy. */
  ghost predicate Extended(after: seq<ClusterBinding>, before: seq<ClusterBinding>, b: ClusterBinding) {
    && (OnePerCluster(before) ==> OnePerCluster(after))
    && (Tidy(before) && WellFormed(b) ==> Tidy(after))
    && forall c, e :: Covered(after, c, e) <==> Covered(before, c, e) || Covers(b, c, e)
  }

  lemma ReplacedEntry(before: seq<ClusterBinding>, i: nat, entry: ClusterBinding, b: ClusterBinding)
    requires i < |before| && (WellFormed(before[i]) && WellFormed(b) ==> WellFormed(entry))
    requires entry.cluster == before[i].cluster == b.cluster
    requires forall e :: Covers(entry, b.cluster, e) <==> Covers(before[i], b.cluster, e) || Covers(b, b.cluster, e)
    ensures Extended(before[i := entry], before, b)
  {
    var after := before[i := entry];
    assert after[i] in after && before[i] in before;
    forall c, e ensures Covered(after, c, e) <==> Covered(before, c, e) || Covers(b, c, e) {
      if Covered(before, c, e) {
        var k :| 0 <= k < |before| && Covers(before[k], c, e);
        assert after[k] in after && Covers(after[k], c, e);
      }
      if Covers(b, c, e) {
        assert Covers(entry, c, e);
      }
      if Covered(after, c, e) {
        var k :| 0 <= k < |after| && Covers(after[k], c, e);
        if k != i { assert before[k] in before; }
      }
    }
  }

  lemma AppendedEntry(before: seq<ClusterBinding>, b: ClusterBinding)
    requires forall k :: 0 <= k < |before| ==> before[k].cluster != b.cluster
    ensures Extended(before + [b], before, b)
  {
  }

  /** mergeOrAppendBinding: overwrites an element of the list in place, or appends. Coverage
      grows by exactly what the new binding covers, in any list; clusters that had one entry
      each keep one. */
  method MergeOrAppend(existing: array<ClusterBinding>, b: ClusterBinding)
    returns (merged: array<ClusterBinding>)
    modifies existing
    ensures merged == existing || fresh(merged)
    ensures Extended(merged[..], old(existing[..]), b) && merged.Length > 0
  {
    ghost var before := existing[..];
    for i := 0 to existing.Length
      invariant existing[..] == before
      invariant forall k :: 0 <= k < i ==> before[k].cluster != b.cluster
    {
      var cur := existing[i];
      if cur.cluster == b.cluster {
        if cur.scope == ClusterScope {
          ReplacedEntry(before, i, cur, b);
          assert before[i := cur] == before;
          return existing;
        }
        if b.scope == ClusterScope {
          existing[i] := b;
          ReplacedEntry(before, i, b, b);
          assert existing[..] == before[i := b];
          return existing;
        }
        var names := (set n | n in cur.namespaces) + (set n | n in b.namespaces);
        var namespaces := Listing(names);
        assert b.namespaces != [] ==> b.namespaces[0] in names;
        var entry := cur.(namespaces := namespaces);
        existing[i] := entry;
        ReplacedEntry(before, i, entry, b);
        assert existing[..] == before[i := entry];
        return existing;
      }
    }
    var n := existing.Length;
    merged := new ClusterBinding[n + 1](k requires 0 <= k <= n reads existing =>
      if k < n then existing[k] else b);
    AppendedEntry(before, b);
    assert merged[..] == before + [b];
  }
}
