/** The admin/view processor: what it adds to the store is a declarative reading of the RBAC
    objects. */
module AdminView {
  import opened Rbac
  import opened Coverage
  import opened Permissions

  const ACTION_GROUP := "action.open-cluster-management.io"
  const VIEW_GROUP := "view.open-cluster-management.io"
  const ACTIONS := "managedclusteractions"
  const VIEWS := "managedclusterviews"
  const DISCOVERABLE_LABEL := "clusterview.open-cluster-management.io/discoverable"

  /** A binding of a ClusterPermission; namespace matters for role bindings only. */
  datatype GrantBinding = GrantBinding(
    roleRef: Option<string>, subject: Option<Subject>, subjects: seq<Subject>, namespace: string)

  datatype ClusterPermission = ClusterPermission(
    namespace: string, name: string, version: string,
    clusterRoleBinding: Option<GrantBinding>, clusterRoleBindings: seq<GrantBinding>,
    roleBindings: seq<GrantBinding>)

  datatype Named = Named(namespace: string, name: string)

  /** What the listers hold at one moment. */
  datatype Snapshot = Snapshot(
    clusters: set<string>,
    clusterRoles: map<string, ClusterRole>,
    clusterRoleBindings: map<string, ClusterRoleBinding>,
    roles: map<Named, Role>,
    roleBindings: map<Named, RoleBinding>,
    clusterPermissions: map<Named, ClusterPermission>)

  /** Objects are stored under their own names. */
  ghost predicate Keyed(s: Snapshot) {
    && (forall n :: n in s.clusterRoles ==> s.clusterRoles[n].name == n)
    && (forall n :: n in s.clusterRoleBindings ==> s.clusterRoleBindings[n].name == n)
    && (forall n :: n in s.roles ==> Named(s.roles[n].namespace, s.roles[n].name) == n)
    && (forall n :: n in s.roleBindings ==> Named(s.roleBindings[n].namespace, s.roleBindings[n].name) == n)
    && (forall n :: n in s.clusterPermissions ==>
          Named(s.clusterPermissions[n].namespace, s.clusterPermissions[n].name) == n)
  }

  // ------------------------------------------------------------------ policy rules (rbac.go)

  predicate Names(list: seq<string>, wanted: string) {
    "*" in list || wanted in list
  }

  predicate RuleGrants(rule: PolicyRule, resource: string, group: string) {
    Names(rule.apiGroups, group) && Names(rule.resources, resource) && Names(rule.verbs, "create")
  }

  /** rulesGrantPermission */
  predicate RulesGrant(rules: seq<PolicyRule>, resource: string, group: string) {
    exists rule :: rule in rules && RuleGrants(rule, resource, group)
  }

  /** The synthetic role that rules amount to: admin needs create on actions and on views,
      view needs create on views. */
  function SyntheticRole(rules: seq<PolicyRule>): Option<string> {
    if !RulesGrant(rules, VIEWS, VIEW_GROUP) then None
    else if RulesGrant(rules, ACTIONS, ACTION_GROUP) then Some(ADMIN_ROLE)
    else Some(VIEW_ROLE)
  }

  /** Some rule permits create on the resource. */
  ghost predicate MayCreate(rules: seq<PolicyRule>, resource: string, group: string) {
    exists rule :: rule in rules && Permits(rule, "create", group, resource)
  }

  /** What the rules must permit for admin, for view, and for either. */
  ghost predicate CreatesBoth(rules: seq<PolicyRule>) {
    CreatesViews(rules) && MayCreate(rules, "managedclusteractions", "action.open-cluster-management.io")
  }

  ghost predicate CreatesViews(rules: seq<PolicyRule>) {
    MayCreate(rules, "managedclusterviews", "view.open-cluster-management.io")
  }

  lemma SyntheticRoleMeans(rules: seq<PolicyRule>)
    ensures SyntheticRole(rules) == Some(ADMIN_ROLE) <==> CreatesBoth(rules)
    ensures SyntheticRole(rules) == Some(VIEW_ROLE) <==> CreatesViews(rules) && !CreatesBoth(rules)
    ensures SyntheticRole(rules) == None <==> !CreatesViews(rules)
  {
    assert |ADMIN_ROLE| != |VIEW_ROLE|;
    forall resource, group ensures RulesGrant(rules, resource, group) <==> MayCreate(rules, resource, group) {
      forall rule ensures RuleGrants(rule, resource, group) <==> Permits(rule, "create", group, resource) {
      }
    }
  }

  /** Of the verbs only create counts, or all of them. */
  lemma OneVerb(verb: string, resource: string, group: string)
    ensures RulesGrant([PolicyRule([verb], [group], [resource], [])], resource, group) <==> verb in {"create", "*"}
  {
    var rules := [PolicyRule([verb], [group], [resource], [])];
    assert RulesGrant(rules, resource, group) <==> RuleGrants(rules[0], resource, group);
  }

  // ------------------------------------------------------------------ admin and view

  /** The rules a cluster role binding refers to; the kind of the reference is not looked at. */
  function RulesOfClusterRoleBinding(s: Snapshot, b: ClusterRoleBinding): seq<PolicyRule> {
    if b.roleRef.name in s.clusterRoles then s.clusterRoles[b.roleRef.name].rules else []
  }

  /** The rules a role binding in namespace ns refers to; other kinds refer to none. */
  function RulesOfRoleBinding(s: Snapshot, ns: string, b: RoleBinding): seq<PolicyRule> {
    var name := b.roleRef.name;
    if b.roleRef.kind == "ClusterRole" && name in s.clusterRoles then s.clusterRoles[name].rules
    else if b.roleRef.kind == "Role" && Named(ns, name) in s.roles then s.roles[Named(ns, name)].rules
    else []
  }

  /** The cluster role binding n gives the holder the synthetic role. */
  ghost predicate ClusterBindingGrants(s: Snapshot, n: string, h: Holder, role: string) {
    && n in s.clusterRoleBindings
    && var b := s.clusterRoleBindings[n];
       SyntheticRole(RulesOfClusterRoleBinding(s, b)) == Some(role) && h in HoldersOf(b.subjects, "")
  }

  /** The role binding n gives the holder the synthetic role in its namespace. */
  ghost predicate NamespaceBindingGrants(s: Snapshot, n: Named, h: Holder, role: string) {
    && n in s.roleBindings
    && var b := s.roleBindings[n];
       && SyntheticRole(RulesOfRoleBinding(s, n.namespace, b)) == Some(role)
       && h in HoldersOf(b.subjects, n.namespace)
  }

  /** A single binding, cluster-wide or in the cluster's namespace, gives the holder the
      synthetic role on a managed cluster. */
  ghost predicate GrantedOn(s: Snapshot, h: Holder, role: string, cluster: string) {
    && cluster in s.clusters
    && (|| (exists n :: ClusterBindingGrants(s, n, h, role))
        || (exists name :: NamespaceBindingGrants(s, Named(cluster, name), h, role)))
  }

  /** The cluster role binding n refers to a cluster role with the rules. */
  ghost predicate RefersWide(s: Snapshot, n: string, rules: seq<PolicyRule>) {
    && n in s.clusterRoleBindings
    && var ref := s.clusterRoleBindings[n].roleRef;
       ref.name in s.clusterRoles && s.clusterRoles[ref.name].rules == rules
  }

  /** The role binding n refers, by the kind of the reference, to a cluster role or to a role in
      the same namespace, with the rules. */
  ghost predicate RefersIn(s: Snapshot, n: Named, rules: seq<PolicyRule>) {
    && n in s.roleBindings
    && var ref := s.roleBindings[n].roleRef;
       || (ref.kind == "ClusterRole" && ref.name in s.clusterRoles && s.clusterRoles[ref.name].rules == rules)
       || (&& ref.kind == "Role" && Named(n.namespace, ref.name) in s.roles
           && s.roles[Named(n.namespace, ref.name)].rules == rules)
  }

  ghost predicate BindsWide(s: Snapshot, n: string, h: Holder, rules: seq<PolicyRule>) {
    RefersWide(s, n, rules) && h in HoldersOf(s.clusterRoleBindings[n].subjects, "")
  }

  ghost predicate BindsIn(s: Snapshot, n: Named, h: Holder, rules: seq<PolicyRule>) {
    RefersIn(s, n, rules) && h in HoldersOf(s.roleBindings[n].subjects, n.namespace)
  }

  lemma NoRulesNoRole()
    ensures SyntheticRole([]) == None
  {
  }

  /** A cluster role binding grants exactly if the rules it refers to amount to the role; a
      missing cluster role grants nothing. */
  lemma WideGrantsExactlyWhen(s: Snapshot, n: string, h: Holder, role: string)
    ensures ClusterBindingGrants(s, n, h, role) <==>
              exists rules :: BindsWide(s, n, h, rules) && SyntheticRole(rules) == Some(role)
  {
    NoRulesNoRole();
    hide SyntheticRole, HoldersOf;
    if ClusterBindingGrants(s, n, h, role) {
      assert BindsWide(s, n, h, RulesOfClusterRoleBinding(s, s.clusterRoleBindings[n]));
    }
  }

  /** So does a role binding, whether it refers to a cluster role or to a role; a missing one and
      a reference of another kind grant nothing. */
  lemma LocalGrantsExactlyWhen(s: Snapshot, n: Named, h: Holder, role: string)
    ensures NamespaceBindingGrants(s, n, h, role) <==>
              exists rules :: BindsIn(s, n, h, rules) && SyntheticRole(rules) == Some(role)
  {
    NoRulesNoRole();
    hide SyntheticRole, HoldersOf;
    assert |"ClusterRole"| != |"Role"|;
    if NamespaceBindingGrants(s, n, h, role) {
      assert BindsIn(s, n, h, RulesOfRoleBinding(s, n.namespace, s.roleBindings[n]));
    }
  }

  ghost function AdminViewFacts(s: Snapshot): Facts {
    iset x: Entry<Key> | GrantedOn(s, x.key.holder, x.key.role, x.cluster)
  }

  // ------------------------------------------------------------------ loops over facts

  ghost predicate Adds<K(!new)>(keys: seq<K>, f: K -> Facts, x: Entry<Key>) {
    exists k :: k in keys && x in f(k)
  }

  /** What a loop has added after visiting some keys. */
  ghost function Over<K(!new)>(keys: seq<K>, f: K -> Facts): Facts {
    iset x: Entry<Key> | Adds(keys, f, x)
  }

  lemma OverNone<K(!new)>(f: K -> Facts)
    ensures Over([], f) == iset{}
  {
  }

  lemma OverNext<K(!new)>(keys: seq<K>, i: nat, f: K -> Facts)
    requires i < |keys|
    ensures Over(keys[..i + 1], f) == Over(keys[..i], f) + f(keys[i])
    ensures i + 1 == |keys| ==> Over(keys[..i + 1], f) == Over(keys, f)
  {
  }

  /** The cluster-scoped binding that both processors build. */
  function WholeCluster(cluster: string): ClusterBinding {
    ClusterBinding(cluster, ClusterScope, ["*"])
  }

  /** RBACSubjectsToUsersAndGroups on a list. */
  method UsersAndGroups(subjects: seq<Subject>, defaultNamespace: string) returns (holders: seq<Holder>)
    ensures forall h :: h in holders <==> h in HoldersOf(subjects, defaultNamespace)
  {
    holders := [];
    for i := 0 to |subjects|
      invariant forall h :: h in holders <==> h in HoldersOf(subjects[..i], defaultNamespace)
    {
      assert subjects[..i + 1] == subjects[..i] + [subjects[i]];
      var more := Listing(HoldersOfSubject(subjects[i], defaultNamespace));
      holders := holders + more;
    }
    assert subjects[..|subjects|] == subjects;
  }

  /** What the cluster role binding n adds. */
  ghost function ClusterWideFacts(s: Snapshot, n: string): Facts {
    iset x: Entry<Key> | x.cluster in s.clusters && ClusterBindingGrants(s, n, x.key.holder, x.key.role)
  }

  /** What the role binding n adds when its namespace is a managed cluster. */
  ghost function NamespaceFacts(s: Snapshot, n: Named): Facts {
    iset x: Entry<Key> | x.cluster == n.namespace && NamespaceBindingGrants(s, n, x.key.holder, x.key.role)
  }

  /** The body of the loop of processClusterRoleBindings. */
  method AddClusterRoleBinding(s: Snapshot, n: string, store: PermissionStore)
    requires store.Valid() && n in s.clusterRoleBindings
    modifies store.table.Repr
    ensures store.Valid() && fresh(store.table.Repr - old(store.table.Repr))
    ensures store.table.covered == old(store.table.covered) + ClusterWideFacts(s, n)
  {
    hide SyntheticRole, HoldersOf, RulesOfClusterRoleBinding, BindingTable.Valid;
    var b := s.clusterRoleBindings[n];
    var role := SyntheticRole(RulesOfClusterRoleBinding(s, b));
    if role == None {
      return;
    }
    var holders := UsersAndGroups(b.subjects, "");
    var clusters := Listing(s.clusters);
    ghost var perCluster := c => GrantFacts(holders, role.value, WholeCluster(c));
    OverNone(perCluster);
    for i := 0 to |clusters|
      invariant store.Valid() && fresh(store.table.Repr - old(store.table.Repr))
      invariant store.table.covered == old(store.table.covered) + Over(clusters[..i], perCluster)
    {
      store.AddForAll(holders, role.value, WholeCluster(clusters[i]));
      OverNext(clusters, i, perCluster);
    }
    assert clusters[..|clusters|] == clusters;
    assert Over(clusters, perCluster) == ClusterWideFacts(s, n);
  }

  /** The body of the inner loop of processRoleBindings. */
  method AddRoleBinding(s: Snapshot, n: Named, store: PermissionStore)
    requires store.Valid() && n in s.roleBindings
    modifies store.table.Repr
    ensures store.Valid() && fresh(store.table.Repr - old(store.table.Repr))
    ensures store.table.covered == old(store.table.covered) + NamespaceFacts(s, n)
  {
    hide SyntheticRole, HoldersOf, RulesOfRoleBinding, BindingTable.Valid;
    var b := s.roleBindings[n];
    var role := SyntheticRole(RulesOfRoleBinding(s, n.namespace, b));
    if role == None {
      return;
    }
    var holders := UsersAndGroups(b.subjects, n.namespace);
    store.AddForAll(holders, role.value, WholeCluster(n.namespace));
  }

  ghost function InNamespaceFacts(s: Snapshot, cluster: string): Facts {
    iset x: Entry<Key> | x.cluster == cluster
                         && exists name :: NamespaceBindingGrants(s, Named(cluster, name), x.key.holder, x.key.role)
  }

  /** The role bindings of one cluster's namespace. */
  method SyncNamespace(s: Snapshot, cluster: string, store: PermissionStore)
    requires store.Valid()
    modifies store.table.Repr
    ensures store.Valid() && fresh(store.table.Repr - old(store.table.Repr))
    ensures store.table.covered == old(store.table.covered) + InNamespaceFacts(s, cluster)
  {
    hide NamespaceBindingGrants, BindingTable.Valid;
    var bindings := Listing(set n | n in s.roleBindings && n.namespace == cluster);
    ghost var one := n => NamespaceFacts(s, n);
    OverNone(one);
    for i := 0 to |bindings|
      invariant store.Valid() && fresh(store.table.Repr - old(store.table.Repr))
      invariant store.table.covered == old(store.table.covered) + Over(bindings[..i], one)
    {
      assert bindings[i] in bindings;
      AddRoleBinding(s, bindings[i], store);
      OverNext(bindings, i, one);
    }
    assert bindings[..|bindings|] == bindings;
    NamespaceOver(s, cluster, bindings, one);
  }

  lemma NamespaceOver(s: Snapshot, cluster: string, bindings: seq<Named>, one: Named -> Facts)
    requires forall n :: one(n) == NamespaceFacts(s, n)
    requires forall n :: n in bindings <==> n in s.roleBindings && n.namespace == cluster
    ensures Over(bindings, one) == InNamespaceFacts(s, cluster)
  {
  }

  lemma AdminViewOver(s: Snapshot, bindings: seq<string>, clusters: seq<string>,
                      wide: string -> Facts, inCluster: string -> Facts)
    requires forall n :: wide(n) == ClusterWideFacts(s, n)
    requires forall c :: inCluster(c) == InNamespaceFacts(s, c)
    requires forall n :: n in bindings <==> n in s.clusterRoleBindings
    requires forall c :: c in clusters <==> c in s.clusters
    ensures Over(bindings, wide) + Over(clusters, inCluster) == AdminViewFacts(s)
  {
    forall x | x in AdminViewFacts(s) ensures x in Over(bindings, wide) + Over(clusters, inCluster) {
      if n :| ClusterBindingGrants(s, n, x.key.holder, x.key.role) {
        assert n in bindings && x in wide(n);
      } else {
        assert x.cluster in clusters && x in inCluster(x.cluster);
      }
    }
  }

  /** sync of adminViewPermissionProcessor: bindings and clusters are visited in any order. */
  method SyncAdminView(s: Snapshot, store: PermissionStore)
    requires store.Valid()
    modifies store.table.Repr
    ensures store.Valid() && fresh(store.table.Repr - old(store.table.Repr))
    ensures store.table.covered == old(store.table.covered) + AdminViewFacts(s)
  {
    hide ClusterWideFacts, NamespaceFacts, AdminViewFacts, Over, BindingTable.Valid;
    var bindings := Listing(s.clusterRoleBindings.Keys);
    ghost var wide := n => ClusterWideFacts(s, n);
    OverNone(wide);
    for i := 0 to |bindings|
      invariant store.Valid() && fresh(store.table.Repr - old(store.table.Repr))
      invariant store.table.covered == old(store.table.covered) + Over(bindings[..i], wide)
    {
      assert bindings[i] in bindings;
      AddClusterRoleBinding(s, bindings[i], store);
      OverNext(bindings, i, wide);
    }
    assert bindings[..|bindings|] == bindings;
    var clusters := Listing(s.clusters);
    ghost var inCluster := c => InNamespaceFacts(s, c);
    OverNone(inCluster);
    for i := 0 to |clusters|
      invariant store.Valid() && fresh(store.table.Repr - old(store.table.Repr))
      invariant store.table.covered == old(store.table.covered) + Over(bindings, wide) + Over(clusters[..i], inCluster)
    {
      SyncNamespace(s, clusters[i], store);
      OverNext(clusters, i, inCluster);
    }
    assert clusters[..|clusters|] == clusters;
    AdminViewOver(s, bindings, clusters, wide, inCluster);
  }
}
