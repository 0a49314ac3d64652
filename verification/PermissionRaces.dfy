/** What a skipped rebuild shows when the hash and the rebuild did not see the same objects. */
module PermissionRaces {
  import opened Rbac
  import opened Coverage
  import opened Permissions
  import opened AdminView
  import opened Discovery
  import opened Versions
  import opened PermissionCache

  /** What counts of a holder's grants: view on a cluster does not, where it has admin itself. */
  ghost function Counting(facts: Facts): Facts {
    iset x: Entry<Key> | x in facts && !(x.key.role == VIEW_ROLE && HasAdmin(facts, x.key.holder, x.cluster))
  }

  ghost predicate HasAdmin(facts: Facts, h: Holder, cluster: string) {
    exists e :: Entry(Key(h, ADMIN_ROLE), cluster, e) in facts
  }

  ghost predicate AdminHeld(facts: Facts, asking: set<Holder>, cluster: string) {
    exists h :: h in asking && HasAdmin(facts, h, cluster)
  }

  /** View is hidden where anyone asking has admin. */
  lemma VisibleMeans(facts: Facts, asking: set<Holder>, role: string, c: string, e: Extent)
    ensures Visible(facts, asking, role, c, e) <==>
              Held(facts, asking, role, c, e) && !(role == VIEW_ROLE && AdminHeld(facts, asking, c))
  {
    if h :| h in asking && HasAdmin(facts, h, c) {
      var e' :| Entry(Key(h, ADMIN_ROLE), c, e') in facts;
      assert Held(facts, asking, ADMIN_ROLE, c, e');
    }
  }

  lemma AdminCounts(facts: Facts, h: Holder, c: string)
    ensures HasAdmin(Counting(facts), h, c) <==> HasAdmin(facts, h, c)
  {
    assert |ADMIN_ROLE| != |VIEW_ROLE|;
    forall e'
      ensures Entry(Key(h, ADMIN_ROLE), c, e') in Counting(facts) <==> Entry(Key(h, ADMIN_ROLE), c, e') in facts
    {
    }
  }

  /** An answer shows what counts of anyone asking, and view where nobody asking has admin. */
  lemma VisibleMeansCounting(facts: Facts, asking: set<Holder>, role: string, c: string, e: Extent)
    ensures Visible(facts, asking, role, c, e) <==>
              && Held(Counting(facts), asking, role, c, e)
              && !(role == VIEW_ROLE && AdminHeld(Counting(facts), asking, c))
  {
    VisibleMeans(facts, asking, role, c, e);
    hide Visible;
    forall h ensures HasAdmin(Counting(facts), h, c) <==> HasAdmin(facts, h, c) {
      AdminCounts(facts, h, c);
    }
    forall h | h in asking && !HasAdmin(facts, h, c)
      ensures Entry(Key(h, role), c, e) in Counting(facts) <==> Entry(Key(h, role), c, e) in facts
    {
    }
  }

  lemma CountingDecides(f: Facts, f': Facts)
    requires Counting(f) == Counting(f')
    ensures SameAnswers(f, f')
  {
    forall user, groups, role, c, e
      ensures Visible(f, Asking(user, groups), role, c, e) <==> Visible(f', Asking(user, groups), role, c, e)
    {
      VisibleMeansCounting(f, Asking(user, groups), role, c, e);
      VisibleMeansCounting(f', Asking(user, groups), role, c, e);
    }
  }

  /** Asking that brings out one holder's grants, given a user without any. */
  ghost function Only(h: Holder, nobody: string): (string, seq<string>) {
    if h.User? then (h.name, []) else (nobody, [h.name])
  }

  ghost predicate Unnamed(facts: Facts, user: string) {
    forall x :: x in facts ==> x.key.holder != User(user)
  }

  lemma OneHolderShows(facts: Facts, x: Entry<Key>, nobody: string)
    requires Unnamed(facts, nobody) && x.key.holder != User(nobody)
    ensures var (user, groups) := Only(x.key.holder, nobody);
            Visible(facts, Asking(user, groups), x.key.role, x.cluster, x.extent) <==> x in Counting(facts)
  {
    var h := x.key.holder;
    var (user, groups) := Only(h, nobody);
    var asking := Asking(user, groups);
    assert h in asking;
    assert forall h' :: h' in asking ==> h' == h || h' == User(nobody);
    hide Asking;
    VisibleMeans(facts, asking, x.key.role, x.cluster, x.extent);
    hide Visible;
    assert forall role, e :: Entry(Key(User(nobody), role), x.cluster, e) !in facts;
    assert x == Entry(Key(h, x.key.role), x.cluster, x.extent);
    assert AdminHeld(facts, asking, x.cluster) <==> HasAdmin(facts, h, x.cluster);
    assert Held(facts, asking, x.key.role, x.cluster, x.extent) <==> x in facts;
  }

  lemma AnswersDecide(f: Facts, f': Facts, nobody: string)
    requires Unnamed(f, nobody) && Unnamed(f', nobody) && SameAnswers(f, f')
    ensures Counting(f) == Counting(f')
  {
    hide Counting, Visible, Asking;
    forall x ensures x in Counting(f) <==> x in Counting(f') {
      if x.key.holder == User(nobody) {
        CountingIsHeld(f, x);
        CountingIsHeld(f', x);
      } else {
        OneHolderShows(f, x, nobody);
        OneHolderShows(f', x, nobody);
      }
    }
  }

  lemma CountingIsHeld(facts: Facts, x: Entry<Key>)
    ensures x in Counting(facts) ==> x in facts
  {
  }

  // ------------------------------------------------------------------ a user whom nobody names

  lemma {:induction false} Longer(names: set<string>) returns (name: string)
    ensures forall n :: n in names ==> |n| < |name|
    decreases names
  {
    if names == {} {
      name := "";
    } else {
      var n :| n in names;
      var rest := Longer(names - {n});
      name := rest + n + "x";
    }
  }

  /** Everyone whom some binding or ClusterPermission names. */
  ghost function NamedIn(s: Snapshot): set<Holder> {
    (set n, h | n in s.clusterRoleBindings && h in HoldersOf(s.clusterRoleBindings[n].subjects, "") :: h)
    + (set n, h | n in s.roleBindings && h in HoldersOf(s.roleBindings[n].subjects, n.namespace) :: h)
    + set n, h | n in s.clusterPermissions && h in NamedInPermission(s.clusterPermissions[n]) :: h
  }

  ghost function NamedInPermission(cp: ClusterPermission): set<Holder> {
    (if cp.clusterRoleBinding.Some? then NamedBy(cp.clusterRoleBinding.value) else {})
    + (set b, h | b in cp.clusterRoleBindings && h in NamedBy(b) :: h)
    + set b, h | b in cp.roleBindings && h in NamedBy(b) :: h
  }

  ghost function NamedBy(b: GrantBinding): set<Holder> {
    set subject, h | subject in EffectiveSubjects(b) && h in HolderByKind(subject) :: h
  }

  lemma GrantedAreNamed(s: Snapshot)
    ensures forall x :: x in AdminViewFacts(s) ==> x.key.holder in NamedIn(s)
    ensures forall x :: x in DiscoverableFacts(s) ==> x.key.holder in NamedIn(s)
  {
    hide HoldersOf, SyntheticRole, HolderByKind, EffectiveSubjects;
    forall x | x in AdminViewFacts(s) ensures x.key.holder in NamedIn(s) {
      if n :| ClusterBindingGrants(s, n, x.key.holder, x.key.role) {
        assert n in s.clusterRoleBindings;
      } else {
        var name :| NamespaceBindingGrants(s, Named(x.cluster, name), x.key.holder, x.key.role);
        assert Named(x.cluster, name) in s.roleBindings;
      }
    }
    forall x | x in DiscoverableFacts(s) ensures x.key.holder in NamedIn(s) {
      var n :| n in s.clusterPermissions && n.namespace == x.cluster &&
        var cp := s.clusterPermissions[n];
        || GivesInCluster(cp, x.key.holder, x.key.role)
        || (x.extent.Within? && GivesInNamespace(cp, x.key.holder, x.key.role, x.extent.namespace));
      GiverNames(s.clusterPermissions[n], x.key.holder, x.key.role, x.extent);
    }
  }

  lemma GiverNames(cp: ClusterPermission, h: Holder, role: string, e: Extent)
    requires GivesInCluster(cp, h, role) || (e.Within? && GivesInNamespace(cp, h, role, e.namespace))
    ensures h in NamedInPermission(cp)
  {
    hide HolderByKind, EffectiveSubjects;
    forall b | Gives(b, h, role) ensures h in NamedBy(b) {
    }
    hide NamedBy, Gives;
  }

  lemma SomeoneIsUnnamed(s: Snapshot, s': Snapshot, s'': Snapshot) returns (nobody: string)
    ensures Unnamed(AdminViewFacts(s) + DiscoverableFacts(s'), nobody) && Unnamed(StoreFacts(s''), nobody)
  {
    var holders := NamedIn(s) + NamedIn(s') + NamedIn(s'');
    nobody := Longer(set h | h in holders :: h.name);
    GrantedAreNamed(s);
    GrantedAreNamed(s');
    GrantedAreNamed(s'');
    hide AdminViewFacts, DiscoverableFacts, NamedIn;
    forall h | h in holders ensures h != User(nobody) {
      assert h.name in set h | h in holders :: h.name;
    }
  }

  // ------------------------------------------------------------------ stores built from other objects

  /** A store whose two parts were built from two snapshots gives everybody the answers of a
      third, exactly if the grants that count are the same, holder by holder. */
  lemma StoreIsRightExactlyWhen(seen: Snapshot, built: Snapshot, now: Snapshot)
    ensures SameAnswers(AdminViewFacts(seen) + DiscoverableFacts(built), StoreFacts(now))
       <==> Counting(AdminViewFacts(seen) + DiscoverableFacts(built)) == Counting(StoreFacts(now))
  {
    var f, f' := AdminViewFacts(seen) + DiscoverableFacts(built), StoreFacts(now);
    var nobody := SomeoneIsUnnamed(seen, built, now);
    hide Counting, SameAnswers, Unnamed, StoreFacts;
    if SameAnswers(f, f') {
      AnswersDecide(f, f', nobody);
    } else if Counting(f) == Counting(f') {
      CountingDecides(f, f');
    }
  }

  /** A synchronization that is skipped leaves the right answers exactly if the grants seen by the
      last rebuild were those of the objects that had been hashed; the cluster names or the
      absence of cluster-wide grants as for a rebuild from one snapshot. */
  lemma SkippedStoreIsRightExactlyWhen(c: Cache, now: Snapshot)
    requires c.Valid() && c.hash == Some(FingerprintOf(now))
    requires Legal(now) && Legal(c.hashed) && VersionsFix(c.hashed, now) && VersionsFix(now, c.hashed)
    requires c.hashed.clusters == now.clusters || NobodyClusterWide(c.hashed)
    ensures SameAnswers(c.store.table.covered, StoreFacts(now))
       <==> Counting(AdminViewFacts(c.seen) + DiscoverableFacts(c.built)) == Counting(StoreFacts(c.hashed))
  {
    hide AdminViewFacts, DiscoverableFacts, FingerprintOf, VersionsFix, SameVersions, NobodyClusterWide, Keyed,
      Counting, SameAnswers;
    SameFingerprint(c.hashed, now);
    RebuildGivesTheSame(c.hashed, now);
    StoreIsRightExactlyWhen(c.seen, c.built, now);
  }

  /** A grant that exists only between the hash and the rebuild stays in the store: here an
      administrator of everything, in a snapshot between two without any binding. */
  lemma GrantInBetweenStays()
    ensures var none := OneAdmin({"c1"}).(clusterRoleBindings := map[]);
            !SameAnswers(StoreFacts(OneAdmin({"c1"})), StoreFacts(none))
  {
    hide AdminViewFacts, DiscoverableFacts;
    var s := OneAdmin({"c1"});
    var none := s.(clusterRoleBindings := map[]);
    OneAdminGrants({"c1"});
    AnnShowsOnlyIn(s, none);
    hide StoreFacts, Visible, Asking;
    assert Visible(StoreFacts(s), Asking("ann", []), ADMIN_ROLE, "c1", Whole);
  }

  lemma AnnShowsOnlyIn(s: Snapshot, none: Snapshot)
    requires "c1" in s.clusters && ClusterBindingGrants(s, "b", User("ann"), ADMIN_ROLE)
    requires none.clusterRoleBindings == map[] && none.roleBindings == map[] && none.clusterPermissions == map[]
    ensures Visible(StoreFacts(s), Asking("ann", []), ADMIN_ROLE, "c1", Whole)
    ensures !Visible(StoreFacts(none), Asking("ann", []), ADMIN_ROLE, "c1", Whole)
  {
    hide ClusterBindingGrants;
    GrantedAreNamed(none);
    assert NamedIn(none) == {};
    assert GrantedOn(s, User("ann"), ADMIN_ROLE, "c1");
    assert User("ann") in Asking("ann", []);
    assert Entry(Key(User("ann"), ADMIN_ROLE), "c1", Whole) in StoreFacts(s);
  }
}
