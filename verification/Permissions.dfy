/** The permission store of the user-permission cache and the query on it. */
module Permissions {
  import opened Rbac
  import opened Coverage

  const ADMIN_ROLE := "managedcluster:admin"
  const VIEW_ROLE := "managedcluster:view"

  datatype Entry<K> = Entry(key: K, cluster: string, extent: Extent)

  /** A map from keys to lists of cluster bindings that are merged in place: the Permissions
      of the records (by holder and role), and the answer of a query (by role). */
  class BindingTable<K(==, !new)> {
    var lists: map<K, array<ClusterBinding>>
    ghost var covered: iset<Entry<K>>
    ghost var Repr: set<object>

    ghost predicate Valid()
      reads this, Repr
      ensures Valid() ==> this in Repr
    {
      && this in Repr
      && (forall k :: k in lists ==> lists[k] in Repr && lists[k].Length > 0 && Tidy(lists[k][..]))
      && (forall k, k' :: k in lists && k' in lists && k != k' ==> lists[k] != lists[k'])
      && (forall k, c, e :: Entry(k, c, e) in covered <==> k in lists && Covered(lists[k][..], c, e))
    }

    constructor ()
      ensures Valid() && fresh(Repr) && covered == iset{} && lists == map[]
    {
      lists, covered, Repr := map[], iset{}, {this};
    }

    lemma ListMeans(k: K)
      requires Valid() && k in lists
      ensures lists[k] in Repr && Tidy(lists[k][..])
      ensures forall c, e :: Entry(k, c, e) in covered <==> Covered(lists[k][..], c, e)
    {
    }

    lemma ListsCover(k: K)
      requires Valid() && k in lists
      ensures exists c, e :: Covered(lists[k][..], c, e)
    {
      var b := lists[k][0];
      assert b in lists[k][..];
      assert Covers(b, b.cluster, Within(b.namespaces[0]));
      assert Covered(lists[k][..], b.cluster, Within(b.namespaces[0]));
    }

    lemma FactsHaveLists()
      requires Valid()
      ensures forall x :: x in covered ==> x.key in lists
    {
    }

    /** addPermissionForSubject: the list of k is created, merged into or appended to. */
    method Add(k: K, b: ClusterBinding)
      requires Valid() && WellFormed(b)
      modifies Repr
      ensures Valid() && fresh(Repr - old(Repr))
      ensures covered == old(covered) + BindingEntries(k, b)
    {
      hide Covers, OnePerCluster, WellFormed, Covered, Tidy;
      ghost var all, before := covered, lists;
      var existing;
      if k in lists {
        existing := lists[k];
      } else {
        existing := new ClusterBinding[0];
        EmptyList(existing[..]);
      }
      ghost var was := existing[..];
      assert forall c, e :: Entry(k, c, e) in all <==> Covered(was, c, e);
      var merged := MergeOrAppend(existing, b);
      lists := lists[k := merged];
      covered := covered + BindingEntries(k, b);
      Repr := Repr + {merged};
      forall k', c, e ensures Entry(k', c, e) in covered <==> k' in lists && Covered(lists[k'][..], c, e) {
        if k' != k && k' in before {
          assert lists[k'] == before[k'] != existing;
        }
      }
    }

    /** Drops from the list of k the entries of some clusters, and k itself when none is left. */
    method Filter(k: K, clusters: set<string>)
      requires Valid() && k in lists
      modifies this
      ensures Valid() && fresh(Repr - old(Repr))
      ensures covered == old(covered) - iset x: Entry<K> | x.key == k && x.cluster in clusters
    {
      hide Covered, Tidy;
      var filtered := Without(lists[k], clusters);
      ghost var all, before := covered, lists;
      covered := covered - iset x: Entry<K> | x.key == k && x.cluster in clusters;
      if filtered.Length > 0 {
        lists := lists[k := filtered];
        Repr := Repr + {filtered};
      } else {
        EmptyList(filtered[..]);
        lists := lists - {k};
      }
      forall k', c, e ensures Entry(k', c, e) in covered <==> k' in lists && Covered(lists[k'][..], c, e) {
        assert Entry(k', c, e) in all <==> k' in before && Covered(before[k'][..], c, e);
      }
    }

    /** The clusters that the list of k has entries for. */
    method ClustersUnder(k: K) returns (clusters: set<string>)
      requires Valid() && k in lists
      ensures forall c :: c in clusters <==> exists e :: Entry(k, c, e) in covered
    {
      clusters := ClustersOf(lists[k]);
      forall c ensures c in clusters <==> exists e :: Entry(k, c, e) in covered {
        assert forall e :: Entry(k, c, e) in covered <==> Covered(lists[k][..], c, e);
      }
    }
  }

  lemma EmptyList(bs: seq<ClusterBinding>)
    requires bs == []
    ensures Tidy(bs) && forall c, e :: !Covered(bs, c, e)
  {
  }

  /** The entries of a list whose cluster is not in a set. */
  method Without(list: array<ClusterBinding>, clusters: set<string>) returns (filtered: array<ClusterBinding>)
    requires Tidy(list[..])
    ensures fresh(filtered) && Tidy(filtered[..])
    ensures forall c, e :: Covered(filtered[..], c, e) <==> Covered(list[..], c, e) && c !in clusters
  {
    var kept := [];
    ghost var all := list[..];
    for i := 0 to list.Length
      invariant forall b :: b in kept <==> b in all[..i] && b.cluster !in clusters
      invariant OnePerCluster(kept)
    {
      var b := list[i];
      assert all[..i + 1] == all[..i] + [b];
      if b.cluster !in clusters {
        kept := kept + [b];
      }
    }
    filtered := new ClusterBinding[|kept|](i requires 0 <= i < |kept| => kept[i]);
    assert filtered[..] == kept && all[..list.Length] == all;
  }

  /** The clusters a list has entries for. */
  method ClustersOf(list: array<ClusterBinding>) returns (clusters: set<string>)
    requires Tidy(list[..])
    ensures forall c :: c in clusters <==> exists e :: Covered(list[..], c, e)
  {
    clusters := {};
    ghost var all := list[..];
    for i := 0 to list.Length
      invariant forall c :: c in clusters <==> Listed(all[..i], c)
    {
      assert all[..i + 1] == all[..i] + [list[i]];
      assert list[i] in all[..i + 1];
      clusters := clusters + {list[i].cluster};
    }
    assert all[..list.Length] == all;
    forall c ensures c in clusters <==> exists e :: Covered(all, c, e) {
      ListedCovers(all, c);
    }
  }

  /** What one binding covers under a key. */
  ghost function BindingEntries<K(!new)>(k: K, b: ClusterBinding): iset<Entry<K>> {
    iset x: Entry<K> | x.key == k && Covers(b, x.cluster, x.extent)
  }

  datatype Key = Key(holder: Holder, role: string)

  type Facts = iset<Entry<Key>>

  /** What one binding covers for each of the holders under a role. */
  ghost function GrantFacts(holders: seq<Holder>, role: string, b: ClusterBinding): Facts {
    iset x: Entry<Key> | x.key.holder in holders && x.key.role == role && Covers(b, x.cluster, x.extent)
  }

  /** Some asking holder is covered under the role. */
  ghost predicate Held(facts: Facts, asking: set<Holder>, role: string, c: string, e: Extent) {
    exists h :: h in asking && Entry(Key(h, role), c, e) in facts
  }

  /** What a query shows: everything held, but not view where admin has an entry. */
  ghost predicate Visible(facts: Facts, asking: set<Holder>, role: string, c: string, e: Extent) {
    && Held(facts, asking, role, c, e)
    && !(role == VIEW_ROLE && exists e' :: Held(facts, asking, ADMIN_ROLE, c, e'))
  }

  ghost function RecordFacts(facts: Facts, holder: Holder): iset<Entry<string>> {
    iset x: Entry<string> | Entry(Key(holder, x.key), x.cluster, x.extent) in facts
  }

  ghost function HeldFacts(facts: Facts, asking: set<Holder>): iset<Entry<string>> {
    iset x: Entry<string> | Held(facts, asking, x.key, x.cluster, x.extent)
  }

  ghost function ListFacts(role: string, bs: seq<ClusterBinding>): iset<Entry<string>> {
    iset x: Entry<string> | x.key == role && Covered(bs, x.cluster, x.extent)
  }

  ghost function FactsOfKeys(facts: Facts, keys: seq<Key>): iset<Entry<string>> {
    iset x: Entry<string> | exists k :: k in keys && k.role == x.key && Entry(k, x.cluster, x.extent) in facts
  }

  lemma NoKeysNoFacts(facts: Facts)
    ensures FactsOfKeys(facts, []) == iset{}
  {
  }

  lemma FactsOfKeysStep(facts: Facts, keys: seq<Key>, i: nat, bs: seq<ClusterBinding>)
    requires i < |keys|
    requires forall c, e :: Entry(keys[i], c, e) in facts <==> Covered(bs, c, e)
    ensures FactsOfKeys(facts, keys[..i + 1]) == FactsOfKeys(facts, keys[..i]) + ListFacts(keys[i].role, bs)
  {
  }

  lemma FactsOfRecord(facts: Facts, holder: Holder, keys: seq<Key>)
    requires forall k :: k in keys ==> k.holder == holder
    requires forall x :: x in facts && x.key.holder == holder ==> x.key in keys
    ensures FactsOfKeys(facts, keys) == RecordFacts(facts, holder)
  {
  }

  lemma HeldByUser(facts: Facts, user: string)
    ensures HeldFacts(facts, Asking(user, [])) == RecordFacts(facts, User(user))
  {
  }

  lemma HeldByGroup(facts: Facts, user: string, groups: seq<string>, i: nat)
    requires i < |groups|
    ensures HeldFacts(facts, Asking(user, groups[..i + 1]))
         == HeldFacts(facts, Asking(user, groups[..i])) + RecordFacts(facts, Group(groups[i]))
  {
  }

  class PermissionStore {
    const table: BindingTable<Key>
    var discoverableRoles: seq<ClusterRole>
    var discoverableNames: set<string>

    ghost predicate Valid()
      reads this, table, table.Repr
    {
      this !in table.Repr && table.Valid()
    }

    constructor ()
      ensures Valid() && fresh(table) && fresh(table.Repr)
      ensures table.covered == iset{} && discoverableRoles == [] && discoverableNames == {}
    {
      table := new BindingTable();
      discoverableRoles, discoverableNames := [], {};
    }

    /** addPermissionForUser and addPermissionForGroup over a list of holders. */
    method AddForAll(holders: seq<Holder>, role: string, b: ClusterBinding)
      requires Valid() && WellFormed(b)
      modifies table.Repr
      ensures Valid() && fresh(table.Repr - old(table.Repr))
      ensures table.covered == old(table.covered) + GrantFacts(holders, role, b)
    {
      for i := 0 to |holders|
        invariant Valid() && fresh(table.Repr - old(table.Repr))
        invariant table.covered == old(table.covered)
                                   + GrantFacts(holders[..i], role, b)
      {
        table.Add(Key(holders[i], role), b);
        assert holders[..i + 1] == holders[..i] + [holders[i]];
      }
      assert holders[..|holders|] == holders;
    }

    /** One list of a record is merged into the answer, binding by binding. */
    static method MergeList(role: string, list: array<ClusterBinding>, answer: BindingTable<string>)
      requires Tidy(list[..]) && answer.Valid() && list !in answer.Repr
      modifies answer.Repr
      ensures answer.Valid() && fresh(answer.Repr - old(answer.Repr))
      ensures answer.covered == old(answer.covered) + ListFacts(role, list[..])
    {
      ghost var all := list[..];
      for j := 0 to list.Length
        invariant answer.Valid() && fresh(answer.Repr - old(answer.Repr)) && list[..] == all
        invariant answer.covered == old(answer.covered) + ListFacts(role, all[..j])
      {
        answer.Add(role, list[j]);
        assert all[..j + 1] == all[..j] + [all[j]];
      }
      assert all[..list.Length] == all;
    }

    /** One record's part of getPermissions: all its lists are merged into the answer. */
    method MergeRecord(holder: Holder, answer: BindingTable<string>)
      requires Valid() && answer.Valid() && answer.Repr !! table.Repr + {this}
      modifies answer.Repr
      ensures answer.Valid() && fresh(answer.Repr - old(answer.Repr))
      ensures answer.covered == old(answer.covered) + RecordFacts(table.covered, holder)
    {
      hide Covered, Tidy, BindingTable.Valid, FactsOfKeys, ListFacts, RecordFacts;
      var keys := Listing(set k | k in table.lists && k.holder == holder);
      ghost var facts := table.covered;
      assert FactsOfKeys(facts, keys[..0]) == iset{} by { NoKeysNoFacts(facts); }
      for i := 0 to |keys|
        invariant Valid() && answer.Valid() && fresh(answer.Repr - old(answer.Repr))
        invariant answer.covered == old(answer.covered) + FactsOfKeys(facts, keys[..i])
      {
        var k := keys[i];
        assert k in keys;
        table.ListMeans(k);
        FactsOfKeysStep(facts, keys, i, table.lists[k][..]);
        MergeList(k.role, table.lists[k], answer);
      }
      assert keys[..|keys|] == keys;
      table.FactsHaveLists();
      FactsOfRecord(facts, holder, keys);
    }

    /** The two collecting loops of getPermissions. */
    method Gather(user: string, groups: seq<string>) returns (answer: BindingTable<string>)
      requires Valid()
      ensures fresh(answer) && fresh(answer.Repr) && answer.Valid()
      ensures answer.covered == HeldFacts(table.covered, Asking(user, groups))
    {
      hide HeldFacts, RecordFacts, BindingTable.Valid;
      ghost var facts := table.covered;
      answer := new BindingTable();
      MergeRecord(User(user), answer);
      HeldByUser(facts, user);
      for i := 0 to |groups|
        invariant Valid() && answer.Valid() && fresh(answer) && fresh(answer.Repr) && table.covered == facts
        invariant answer.covered == HeldFacts(facts, Asking(user, groups[..i]))
      {
        MergeRecord(Group(groups[i]), answer);
        HeldByGroup(facts, user, groups, i);
      }
      assert groups[..|groups|] == groups;
    }

    /** getPermissions. Nothing that existed before is written to, so the stored records
        stay as they are. */
    method GetPermissions(user: string, groups: seq<string>) returns (answer: BindingTable<string>)
      requires Valid()
      ensures fresh(answer) && fresh(answer.Repr) && answer.Valid()
      ensures forall role, c, e ::
                Entry(role, c, e) in answer.covered <==> Visible(table.covered, Asking(user, groups), role, c, e)
    {
      hide Covered, Tidy, Asking;
      answer := Gather(user, groups);
      ghost var all, asking := answer.covered, Asking(user, groups);
      assert forall c, e :: Held(table.covered, asking, ADMIN_ROLE, c, e) <==> Entry(ADMIN_ROLE, c, e) in all;
      if ADMIN_ROLE in answer.lists && VIEW_ROLE in answer.lists {
        var adminClusters := answer.ClustersUnder(ADMIN_ROLE);
        answer.Filter(VIEW_ROLE, adminClusters);
      }
    }
  }
}
