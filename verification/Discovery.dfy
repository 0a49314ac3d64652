/** The discoverable-role processor: what it adds to the store is a declarative reading of
    the ClusterPermissions. */
module Discovery {
  import opened Rbac
  import opened Coverage
  import opened Permissions
  import opened AdminView

  predicate Discoverable(r: ClusterRole) {
    DISCOVERABLE_LABEL in r.labels && r.labels[DISCOVERABLE_LABEL] == "true"
  }

  /** The label has the value "true". */
  lemma DiscoverableExactlyWhen(r: ClusterRole)
    ensures Discoverable(r) <==> ("clusterview.open-cluster-management.io/discoverable", "true") in r.labels.Items
  {
  }

  ghost predicate DiscoverableName(s: Snapshot, role: string) {
    exists n :: n in s.clusterRoles && Discoverable(s.clusterRoles[n]) && s.clusterRoles[n].name == role
  }

  /** extractSubjectsFrom...: plural subjects win over the singular one. */
  function EffectiveSubjects(b: GrantBinding): seq<Subject> {
    if |b.subjects| > 0 then b.subjects
    else if b.subject.Some? then [b.subject.value]
    else []
  }

  /** addPermissionForSubjects looks at the kind only. */
  function HolderByKind(s: Subject): set<Holder> {
    if s.kind == "User" then {User(s.name)}
    else if s.kind == "Group" then {Group(s.name)}
    else {}
  }

  /** The binding refers to the named role and names the holder. */
  ghost predicate Gives(b: GrantBinding, h: Holder, role: string) {
    && b.roleRef == Some(role) && role != ""
    && exists subject :: subject in EffectiveSubjects(b) && h in HolderByKind(subject)
  }

  /** The binding has the subject: as one of several, or as its single one. */
  predicate HasSubject(b: GrantBinding, x: Subject) {
    if b.subjects != [] then x in b.subjects else b.subject == Some(x)
  }

  /** The binding names the user, or one of the groups; API groups and namespaces of subjects do
      not matter. */
  ghost predicate NamesOneOf(b: GrantBinding, user: string, groups: seq<string>) {
    exists x :: HasSubject(b, x) && ((x.kind == "User" && x.name == user) || (x.kind == "Group" && x.name in groups))
  }

  /** Whom a binding gives a role, read off its fields. */
  lemma GivesExactlyWhen(b: GrantBinding, user: string, groups: seq<string>, role: string)
    ensures (exists h :: h in Asking(user, groups) && Gives(b, h, role)) <==>
              b.roleRef == Some(role) && role != "" && NamesOneOf(b, user, groups)
  {
    assert |"User"| != |"Group"|;
    forall x ensures x in EffectiveSubjects(b) <==> HasSubject(b, x) {
    }
    hide EffectiveSubjects, HasSubject;
    if x :| HasSubject(b, x) && b.roleRef == Some(role) && role != ""
            && ((x.kind == "User" && x.name == user) || (x.kind == "Group" && x.name in groups)) {
      var h := if x.kind == "User" then User(user) else Group(x.name);
      assert h in HolderByKind(x) && h in Asking(user, groups);
      assert Gives(b, h, role);
    }
  }

  ghost predicate GivesInCluster(cp: ClusterPermission, h: Holder, role: string) {
    || (cp.clusterRoleBinding.Some? && Gives(cp.clusterRoleBinding.value, h, role))
    || exists b :: b in cp.clusterRoleBindings && Gives(b, h, role)
  }

  ghost predicate GivesInNamespace(cp: ClusterPermission, h: Holder, role: string, ns: string) {
    exists b :: b in cp.roleBindings && b.namespace == ns && Gives(b, h, role)
  }

  /** Some ClusterPermission in the cluster's namespace has a cluster role binding to the
      role, or a role binding to it in the namespace asked about, that names the holder. */
  ghost predicate Discovered(s: Snapshot, h: Holder, role: string, cluster: string, e: Extent) {
    && DiscoverableName(s, role)
    && exists n :: n in s.clusterPermissions && n.namespace == cluster &&
         var cp := s.clusterPermissions[n];
         GivesInCluster(cp, h, role) || (e.Within? && GivesInNamespace(cp, h, role, e.namespace))
  }

  ghost function DiscoverableFacts(s: Snapshot): Facts {
    iset x: Entry<Key> | Discovered(s, x.key.holder, x.key.role, x.cluster, x.extent)
  }

  function OneNamespace(cluster: string, ns: string): ClusterBinding {
    ClusterBinding(cluster, NamespaceScope, [ns])
  }

  /** What a binding of a ClusterPermission adds as cb. */
  ghost function BindingFacts(names: set<string>, b: GrantBinding, cb: ClusterBinding): Facts {
    iset x: Entry<Key> | x.key.role in names && Gives(b, x.key.holder, x.key.role) && Covers(cb, x.cluster, x.extent)
  }

  /** What the ClusterPermission cp in the namespace of a cluster adds. */
  ghost function PermissionFacts(names: set<string>, cluster: string, cp: ClusterPermission): Facts {
    iset x: Entry<Key> | && x.key.role in names && x.cluster == cluster
                         && (|| GivesInCluster(cp, x.key.holder, x.key.role)
                             || (&& x.extent.Within?
                                 && GivesInNamespace(cp, x.key.holder, x.key.role, x.extent.namespace)))
  }

  method HoldersByKind(subjects: seq<Subject>) returns (holders: seq<Holder>)
    ensures forall h :: h in holders <==> exists subject :: subject in subjects && h in HolderByKind(subject)
  {
    holders := [];
    for i := 0 to |subjects|
      invariant forall h :: h in holders <==> exists k :: 0 <= k < i && h in HolderByKind(subjects[k])
    {
      if subjects[i].kind == "User" {
        holders := holders + [User(subjects[i].name)];
      } else if subjects[i].kind == "Group" {
        holders := holders + [Group(subjects[i].name)];
      }
    }
  }

  /** processClusterRoleBinding and processRoleBinding. */
  method AddBinding(b: GrantBinding, cb: ClusterBinding, store: PermissionStore)
    requires store.Valid() && WellFormed(cb)
    modifies store.table.Repr
    ensures store.Valid() && fresh(store.table.Repr - old(store.table.Repr))
    ensures store.table.covered == old(store.table.covered) + BindingFacts(store.discoverableNames, b, cb)
  {
    hide BindingTable.Valid;
    if b.roleRef.None? || b.roleRef.value == "" {
      return;
    }
    if b.roleRef.value !in store.discoverableNames {
      return;
    }
    var holders := HoldersByKind(EffectiveSubjects(b));
    store.AddForAll(holders, b.roleRef.value, cb);
  }

  /** The body of the loop of processAllClusterPermissions. */
  method AddClusterPermission(cluster: string, cp: ClusterPermission, store: PermissionStore)
    requires store.Valid()
    modifies store.table.Repr
    ensures store.Valid() && fresh(store.table.Repr - old(store.table.Repr))
    ensures store.table.covered == old(store.table.covered) + PermissionFacts(store.discoverableNames, cluster, cp)
  {
    hide BindingTable.Valid, BindingFacts, PermissionFacts, Over;
    ghost var names := store.discoverableNames;
    ghost var wide := (b: GrantBinding) => BindingFacts(names, b, WholeCluster(cluster));
    ghost var narrow := (b: GrantBinding) => BindingFacts(names, b, OneNamespace(cluster, b.namespace));
    ghost var single := if cp.clusterRoleBinding.Some? then wide(cp.clusterRoleBinding.value) else iset{};
    if cp.clusterRoleBinding.Some? {
      AddBinding(cp.clusterRoleBinding.value, WholeCluster(cluster), store);
    }
    OverNone(wide);
    for i := 0 to |cp.clusterRoleBindings|
      invariant store.Valid() && fresh(store.table.Repr - old(store.table.Repr))
      invariant store.table.covered == old(store.table.covered) + single + Over(cp.clusterRoleBindings[..i], wide)
    {
      AddBinding(cp.clusterRoleBindings[i], WholeCluster(cluster), store);
      OverNext(cp.clusterRoleBindings, i, wide);
    }
    assert cp.clusterRoleBindings[..|cp.clusterRoleBindings|] == cp.clusterRoleBindings;
    OverNone(narrow);
    for i := 0 to |cp.roleBindings|
      invariant store.Valid() && fresh(store.table.Repr - old(store.table.Repr))
      invariant store.table.covered == old(store.table.covered) + single
                                       + Over(cp.clusterRoleBindings, wide) + Over(cp.roleBindings[..i], narrow)
    {
      AddBinding(cp.roleBindings[i], OneNamespace(cluster, cp.roleBindings[i].namespace), store);
      OverNext(cp.roleBindings, i, narrow);
    }
    assert cp.roleBindings[..|cp.roleBindings|] == cp.roleBindings;
    PermissionOver(names, cluster, cp, single, wide, narrow);
  }

  lemma PermissionOver(names: set<string>, cluster: string, cp: ClusterPermission, single: Facts,
                       wide: GrantBinding -> Facts, narrow: GrantBinding -> Facts)
    requires forall b :: wide(b) == BindingFacts(names, b, WholeCluster(cluster))
    requires forall b :: narrow(b) == BindingFacts(names, b, OneNamespace(cluster, b.namespace))
    requires single == if cp.clusterRoleBinding.Some? then wide(cp.clusterRoleBinding.value) else iset{}
    ensures single + Over(cp.clusterRoleBindings, wide) + Over(cp.roleBindings, narrow)
         == PermissionFacts(names, cluster, cp)
  {
    hide Gives;
    var all := single + Over(cp.clusterRoleBindings, wide) + Over(cp.roleBindings, narrow);
    forall x | x in PermissionFacts(names, cluster, cp) ensures x in all {
      var h, role := x.key.holder, x.key.role;
      if cp.clusterRoleBinding.Some? && Gives(cp.clusterRoleBinding.value, h, role) {
        assert x in single;
      } else if b :| b in cp.clusterRoleBindings && Gives(b, h, role) {
        assert x in wide(b);
      } else {
        var b :| b in cp.roleBindings && b.namespace == x.extent.namespace && Gives(b, h, role);
        assert x in narrow(b);
      }
    }
  }

  /** getDiscoverableClusterRoles and the name set of setDiscoverableRoles. */
  method CollectDiscoverable(s: Snapshot) returns (roles: seq<ClusterRole>, names: set<string>)
    ensures forall r :: r in roles <==> r in s.clusterRoles.Values && Discoverable(r)
    ensures forall name :: name in names <==> DiscoverableName(s, name)
  {
    roles, names := [], {};
    var keys := Listing(s.clusterRoles.Keys);
    for i := 0 to |keys|
      invariant forall r :: r in roles <==> exists k :: 0 <= k < i && s.clusterRoles[keys[k]] == r && Discoverable(r)
      invariant forall name :: name in names <==> exists r :: r in roles && r.name == name
    {
      assert keys[i] in keys;
      var r := s.clusterRoles[keys[i]];
      if Discoverable(r) {
        roles := roles + [r];
        names := names + {r.name};
      }
    }
  }

  lemma DiscoverableOver(s: Snapshot, names: set<string>, keys: seq<Named>, one: Named -> Facts)
    requires forall name :: name in names <==> DiscoverableName(s, name)
    requires forall n :: n in keys <==> n in s.clusterPermissions
    requires forall n :: n in s.clusterPermissions ==>
              one(n) == PermissionFacts(names, n.namespace, s.clusterPermissions[n])
    ensures Over(keys, one) == DiscoverableFacts(s)
  {
  }

  /** sync of discoverablePermissionProcessor. */
  method SyncDiscoverable(s: Snapshot, store: PermissionStore)
    requires store.Valid() && store !in store.table.Repr
    modifies store, store.table.Repr
    ensures store.Valid() && fresh(store.table.Repr - old(store.table.Repr))
    ensures store.table.covered == old(store.table.covered) + DiscoverableFacts(s)
    ensures forall r :: r in store.discoverableRoles <==> r in s.clusterRoles.Values && Discoverable(r)
  {
    hide BindingTable.Valid, PermissionFacts, DiscoverableFacts, Over;
    var roles, names := CollectDiscoverable(s);
    store.discoverableRoles, store.discoverableNames := roles, names;
    var keys := Listing(s.clusterPermissions.Keys);
    ghost var one := n =>
      if n in s.clusterPermissions then PermissionFacts(names, n.namespace, s.clusterPermissions[n]) else iset{};
    OverNone(one);
    for i := 0 to |keys|
      invariant store.Valid() && fresh(store.table.Repr - old(store.table.Repr))
      invariant store.discoverableNames == names && store.discoverableRoles == roles
      invariant store.table.covered == old(store.table.covered) + Over(keys[..i], one)
    {
      assert keys[i] in keys;
      AddClusterPermission(keys[i].namespace, s.clusterPermissions[keys[i]], store);
      OverNext(keys, i, one);
    }
    assert keys[..|keys|] == keys;
    DiscoverableOver(s, names, keys, one);
  }
}
