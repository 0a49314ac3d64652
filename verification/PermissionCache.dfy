/** The user-permission cache: what queries answer after a rebuild, and when skipping one
    is right. */
module PermissionCache {
  import opened Rbac
  import opened Coverage
  import opened Permissions
  import opened AdminView
  import opened Discovery
  import opened Images
  import opened Versions

  ghost function StoreFacts(s: Snapshot): Facts {
    AdminViewFacts(s) + DiscoverableFacts(s)
  }

  // ------------------------------------------------------------------ what a query means

  /** One binding, cluster-wide or in the cluster's namespace, that names the holder and refers
      to a role whose rules satisfy p. */
  ghost predicate OneBinding(s: Snapshot, h: Holder, cluster: string, p: seq<PolicyRule> -> bool) {
    && cluster in s.clusters
    && (|| (exists n, rules :: BindsWide(s, n, h, rules) && p(rules))
        || (exists name, rules :: BindsIn(s, Named(cluster, name), h, rules) && p(rules)))
  }

  ghost predicate OneBindingGrants(s: Snapshot, asking: set<Holder>, cluster: string, p: seq<PolicyRule> -> bool) {
    exists h :: h in asking && OneBinding(s, h, cluster, p)
  }

  ghost predicate NoSyntheticNames(s: Snapshot) {
    !DiscoverableName(s, ADMIN_ROLE) && !DiscoverableName(s, VIEW_ROLE)
  }

  /** What the rules amount to, as a condition on the rules. */
  lemma BindingLevel(s: Snapshot, h: Holder, cluster: string, role: string, p: seq<PolicyRule> -> bool)
    requires forall rules :: p(rules) <==> SyntheticRole(rules) == Some(role)
    ensures OneBinding(s, h, cluster, p) <==> GrantedOn(s, h, role, cluster)
  {
    hide SyntheticRole, ClusterBindingGrants, NamespaceBindingGrants, BindsWide, BindsIn;
    if OneBinding(s, h, cluster, p) {
      if n, rules :| BindsWide(s, n, h, rules) && p(rules) {
        WideGrantsExactlyWhen(s, n, h, role);
      } else {
        var name, rules :| BindsIn(s, Named(cluster, name), h, rules) && p(rules);
        LocalGrantsExactlyWhen(s, Named(cluster, name), h, role);
      }
    }
    if GrantedOn(s, h, role, cluster) {
      if n :| ClusterBindingGrants(s, n, h, role) {
        WideGrantsExactlyWhen(s, n, h, role);
      } else {
        var name :| NamespaceBindingGrants(s, Named(cluster, name), h, role);
        LocalGrantsExactlyWhen(s, Named(cluster, name), h, role);
      }
    }
  }

  /** Admin in the store stands for one binding whose rules create both, and admin or view for
      one whose rules create views. */
  lemma BindingLevels(s: Snapshot, h: Holder, cluster: string)
    ensures OneBinding(s, h, cluster, CreatesBoth) <==> GrantedOn(s, h, ADMIN_ROLE, cluster)
    ensures OneBinding(s, h, cluster, CreatesViews)
       <==> GrantedOn(s, h, ADMIN_ROLE, cluster) || GrantedOn(s, h, VIEW_ROLE, cluster)
  {
    hide SyntheticRole, GrantedOn, CreatesBoth, CreatesViews, BindsWide, BindsIn;
    ghost var viewsOnly := (rules: seq<PolicyRule>) => CreatesViews(rules) && !CreatesBoth(rules);
    forall rules
      ensures CreatesBoth(rules) <==> SyntheticRole(rules) == Some(ADMIN_ROLE)
      ensures viewsOnly(rules) <==> SyntheticRole(rules) == Some(VIEW_ROLE)
      ensures CreatesViews(rules) <==> CreatesBoth(rules) || viewsOnly(rules)
    {
      SyntheticRoleMeans(rules);
      BothIncludeViews(rules);
    }
    BindingLevel(s, h, cluster, ADMIN_ROLE, CreatesBoth);
    BindingLevel(s, h, cluster, VIEW_ROLE, viewsOnly);
  }

  lemma BothIncludeViews(rules: seq<PolicyRule>)
    ensures CreatesBoth(rules) ==> CreatesViews(rules)
  {
  }

  /** Only the synthetic names come from the admin/view processor. */
  lemma SyntheticOnly(s: Snapshot, h: Holder, role: string, c: string)
    requires GrantedOn(s, h, role, c)
    ensures role == ADMIN_ROLE || role == VIEW_ROLE
  {
  }

  /** A query lists a cluster under admin exactly when it is managed and one single binding
      that names the user or a group grants create on actions and on views. */
  lemma AdminIsListed(s: Snapshot, asking: set<Holder>, c: string, e: Extent)
    requires NoSyntheticNames(s)
    ensures Visible(StoreFacts(s), asking, ADMIN_ROLE, c, e) <==> OneBindingGrants(s, asking, c, CreatesBoth)
  {
    hide OneBinding, GrantedOn, DiscoverableName;
    forall h { BindingLevels(s, h, c); }
    HeldSynthetic(s, asking, ADMIN_ROLE, c, e);
  }

  /** A query lists a cluster under view exactly when it is managed, some binding that names
      the user or a group grants create on views, and admin does not list the cluster. */
  lemma ViewIsListed(s: Snapshot, asking: set<Holder>, c: string, e: Extent)
    requires NoSyntheticNames(s)
    ensures Visible(StoreFacts(s), asking, VIEW_ROLE, c, e)
       <==> OneBindingGrants(s, asking, c, CreatesViews) && !Visible(StoreFacts(s), asking, ADMIN_ROLE, c, e)
  {
    hide OneBinding, GrantedOn, DiscoverableName;
    forall h { BindingLevels(s, h, c); }
    HeldSynthetic(s, asking, VIEW_ROLE, c, e);
    forall e' ensures Held(StoreFacts(s), asking, ADMIN_ROLE, c, e')
                 <==> exists h :: h in asking && GrantedOn(s, h, ADMIN_ROLE, c)
    {
      HeldSynthetic(s, asking, ADMIN_ROLE, c, e');
    }
    assert Held(StoreFacts(s), asking, ADMIN_ROLE, c, e) || !exists h :: h in asking && GrantedOn(s, h, ADMIN_ROLE, c);
  }

  lemma HeldSynthetic(s: Snapshot, asking: set<Holder>, role: string, c: string, e: Extent)
    requires !DiscoverableName(s, role)
    ensures Held(StoreFacts(s), asking, role, c, e) <==> exists h :: h in asking && GrantedOn(s, h, role, c)
  {
  }

  /** Any other role covers exactly what the ClusterPermissions that name someone asking say. */
  lemma DiscoverableIsListed(s: Snapshot, asking: set<Holder>, role: string, c: string, e: Extent)
    requires role != ADMIN_ROLE && role != VIEW_ROLE
    ensures Visible(StoreFacts(s), asking, role, c, e) <==> exists h :: h in asking && Discovered(s, h, role, c, e)
  {
    hide Discovered, GrantedOn;
    forall h ensures Entry(Key(h, role), c, e) in StoreFacts(s) <==> Discovered(s, h, role, c, e) {
      if GrantedOn(s, h, role, c) { SyntheticOnly(s, h, role, c); }
    }
  }

  /** The binding is one of the ClusterPermission's and reaches the extent: cluster role bindings
      all of the cluster, role bindings their namespace. */
  ghost predicate Reaches(cp: ClusterPermission, b: GrantBinding, e: Extent) {
    || cp.clusterRoleBinding == Some(b) || b in cp.clusterRoleBindings
    || (b in cp.roleBindings && e == Within(b.namespace))
  }

  /** Some ClusterPermission in the cluster's namespace has such a binding that names the holder. */
  lemma DiscoveredExactlyWhen(s: Snapshot, h: Holder, role: string, c: string, e: Extent)
    ensures Discovered(s, h, role, c, e) <==>
              && DiscoverableName(s, role)
              && exists n, b :: n in s.clusterPermissions && n.namespace == c && Reaches(s.clusterPermissions[n], b, e)
                             && Gives(b, h, role)
  {
    hide Gives, DiscoverableName;
  }

  /** The same, read off the objects: the role is labelled discoverable, and some binding to it
      names the user or one of the groups. */
  lemma DiscoverableShowsExactlyWhen(s: Snapshot, user: string, groups: seq<string>, role: string, c: string, e: Extent)
    requires Keyed(s) && role != ADMIN_ROLE && role != VIEW_ROLE
    ensures Visible(StoreFacts(s), Asking(user, groups), role, c, e) <==>
              && role in s.clusterRoles && role != ""
              && ("clusterview.open-cluster-management.io/discoverable", "true") in s.clusterRoles[role].labels.Items
              && exists n, b :: n in s.clusterPermissions && n.namespace == c && Reaches(s.clusterPermissions[n], b, e)
                             && b.roleRef == Some(role) && NamesOneOf(b, user, groups)
  {
    var asking := Asking(user, groups);
    DiscoverableIsListed(s, asking, role, c, e);
    assert DiscoverableName(s, role) <==> role in s.clusterRoles && Discoverable(s.clusterRoles[role]);
    if role in s.clusterRoles { DiscoverableExactlyWhen(s.clusterRoles[role]); }
    hide Asking, Gives, Visible, DiscoverableName, StoreFacts, Keyed, NamesOneOf, Discovered, Reaches;
    forall b ensures (exists h :: h in asking && Gives(b, h, role)) <==>
                     b.roleRef == Some(role) && role != "" && NamesOneOf(b, user, groups)
    {
      GivesExactlyWhen(b, user, groups, role);
    }
    forall h { DiscoveredExactlyWhen(s, h, role, c, e); }
  }

  // ------------------------------------------------------------------ skipping a rebuild

  /** Every user, with any groups, gets the same answer. */
  ghost predicate SameAnswers(f: Facts, f': Facts) {
    forall user, groups, role, c, e ::
      Visible(f, Asking(user, groups), role, c, e) <==> Visible(f', Asking(user, groups), role, c, e)
  }

  ghost function DiscoverableRoles(s: Snapshot): iset<ClusterRole> {
    iset r | r in s.clusterRoles.Values && Discoverable(r)
  }

  /** No cluster role binding that grants a synthetic role names anyone. */
  ghost predicate NobodyClusterWide(s: Snapshot) {
    forall n, h, role :: !ClusterBindingGrants(s, n, h, role)
  }

  ghost predicate Comparable(s: Snapshot, s': Snapshot) {
    Keyed(s) && Keyed(s') && VersionsFix(s, s') && VersionsFix(s', s) && SameVersions(s, s')
  }

  lemma AdminViewIncluded(s: Snapshot, s': Snapshot)
    requires Comparable(s, s') && (s.clusters == s'.clusters || NobodyClusterWide(s))
    ensures AdminViewFacts(s) <= AdminViewFacts(s')
  {
    hide Keyed, VersionsFix, SameVersions, ClusterBindingGrants, NamespaceBindingGrants;
    forall x | x in AdminViewFacts(s) ensures x in AdminViewFacts(s') {
      var h, role, c := x.key.holder, x.key.role, x.cluster;
      if n :| ClusterBindingGrants(s, n, h, role) {
        SameClusterBinding(s, s', n, h, role);
      } else {
        var name :| NamespaceBindingGrants(s, Named(c, name), h, role);
        SameNamespaceBinding(s, s', Named(c, name), h, role);
      }
    }
  }

  lemma DiscoverableIncluded(s: Snapshot, s': Snapshot)
    requires Comparable(s, s')
    ensures DiscoverableFacts(s) <= DiscoverableFacts(s') && DiscoverableRoles(s) <= DiscoverableRoles(s')
  {
    forall x | x in DiscoverableFacts(s) ensures x in DiscoverableFacts(s') {
      SameDiscovered(s, s', x.key.holder, x.key.role, x.cluster, x.extent);
    }
    forall r | r in DiscoverableRoles(s) ensures r in DiscoverableRoles(s') {
      var n :| n in s.clusterRoles && s.clusterRoles[n] == r;
      SameRelevantRole(s, s', n);
    }
  }

  lemma NobodyInEither(s: Snapshot, s': Snapshot)
    requires Comparable(s, s') && NobodyClusterWide(s)
    ensures NobodyClusterWide(s')
  {
    hide Keyed, VersionsFix, AdminViewTracked, DiscoverableTracked, ClusterBindingGrants;
    forall n, h, role ensures !ClusterBindingGrants(s', n, h, role) {
      if ClusterBindingGrants(s', n, h, role) { SameClusterBinding(s', s, n, h, role); }
    }
  }

  /** Equal version lists and equal cluster names, or nobody with a cluster-wide grant: a
      rebuild from either snapshot gives the same store and the same discoverable roles. */
  lemma RebuildGivesTheSame(s: Snapshot, s': Snapshot)
    requires Comparable(s, s') && (s.clusters == s'.clusters || NobodyClusterWide(s))
    ensures StoreFacts(s) == StoreFacts(s') && DiscoverableRoles(s) == DiscoverableRoles(s')
  {
    hide ClusterBindingGrants, Keyed, VersionsFix, DiscoverableFacts, AdminViewFacts, DiscoverableRoles;
    if NobodyClusterWide(s) { NobodyInEither(s, s'); }
    AdminViewIncluded(s, s');
    AdminViewIncluded(s', s);
    DiscoverableIncluded(s, s');
    DiscoverableIncluded(s', s);
  }

  /** A cluster that only one snapshot has shows in its answers alone. */
  lemma ExtraClusterShows(s: Snapshot, s': Snapshot, c: string, n: string, h: Holder, role: string)
    requires c in s.clusters && c !in s'.clusters
    requires ClusterBindingGrants(s, n, h, role) && NoSyntheticNames(s')
    ensures !SameAnswers(StoreFacts(s), StoreFacts(s'))
  {
    hide ClusterBindingGrants, DiscoverableName;
    var user := if h.User? then h.name else "";
    var groups := if h.User? then [] else [h.name];
    var asking := Asking(user, groups);
    assert h in asking;
    assert GrantedOn(s, h, role, c);
    SyntheticOnly(s, h, role, c) by { }
    assert Held(StoreFacts(s), asking, role, c, Whole) by {
      assert Entry(Key(h, role), c, Whole) in StoreFacts(s);
    }
    if role == VIEW_ROLE && !Visible(StoreFacts(s), asking, VIEW_ROLE, c, Whole) {
      var e :| Held(StoreFacts(s), asking, ADMIN_ROLE, c, e);
      HiddenWithout(s', user, groups, ADMIN_ROLE, c, e);
      assert Visible(StoreFacts(s), Asking(user, groups), ADMIN_ROLE, c, e);
    } else {
      HiddenWithout(s', user, groups, role, c, Whole);
      assert Visible(StoreFacts(s), Asking(user, groups), role, c, Whole);
    }
  }

  lemma HiddenWithout(s: Snapshot, user: string, groups: seq<string>, role: string, c: string, e: Extent)
    requires c !in s.clusters && !DiscoverableName(s, role)
    ensures !Visible(StoreFacts(s), Asking(user, groups), role, c, e)
  {
  }

  /** When skipping a rebuild is right: with equal version lists, the answers from the two
      snapshots agree if and only if the cluster names do or no cluster-wide grant names
      anyone. The cluster list itself is not part of the version lists. */
  lemma SkipIsRightExactlyWhen(s: Snapshot, s': Snapshot)
    requires Comparable(s, s') && NoSyntheticNames(s) && NoSyntheticNames(s')
    ensures SameAnswers(StoreFacts(s), StoreFacts(s')) <==> s.clusters == s'.clusters || NobodyClusterWide(s)
  {
    hide ClusterBindingGrants, NoSyntheticNames, Keyed, VersionsFix, SameVersions;
    if s.clusters == s'.clusters || NobodyClusterWide(s) {
      RebuildGivesTheSame(s, s');
    } else {
      var n, h, role :| ClusterBindingGrants(s, n, h, role);
      if c :| c in s.clusters && c !in s'.clusters {
        ExtraClusterShows(s, s', c, n, h, role);
      } else {
        var c :| c in s'.clusters && c !in s.clusters;
        assert ClusterBindingGrants(s', n, h, role) by { SameClusterBinding(s, s', n, h, role); }
        ExtraClusterShows(s', s, c, n, h, role);
      }
    }
  }

  /** One cluster role that allows everything, bound cluster-wide to the user ann. */
  function OneAdmin(clusters: set<string>): Snapshot {
    var role := ClusterRole("root", "1", map[], [PolicyRule(["*"], ["*"], ["*"], [])]);
    var ann := Subject("User", RBAC_GROUP, "ann", "");
    var binding := ClusterRoleBinding("b", "2", map[], RoleRef(RBAC_GROUP, "ClusterRole", "root"), [ann]);
    Snapshot(clusters, map["root" := role], map["b" := binding], map[], map[], map[])
  }

  lemma OneAdminGrants(clusters: set<string>)
    ensures ClusterBindingGrants(OneAdmin(clusters), "b", User("ann"), ADMIN_ROLE)
    ensures forall t :: AdminViewTracked(OneAdmin(clusters), t)
                   <==> t in {OfClusterRoleBinding("b", "2"), OfClusterRole("root", "1")}
  {
    var s := OneAdmin(clusters);
    var b, role := s.clusterRoleBindings["b"], s.clusterRoles["root"];
    var rule := role.rules[0];
    assert RuleGrants(rule, VIEWS, VIEW_GROUP) && RuleGrants(rule, ACTIONS, ACTION_GROUP);
    assert rule in role.rules;
    assert User("ann") in HoldersOfSubject(b.subjects[0], "");
    var items := ClusterBindingItems(s, "b");
    assert items == {OfClusterRoleBinding("b", "2"), OfClusterRole("root", "1")};
    forall t ensures AdminViewTracked(s, t) <==> t in items {
      if t in items { assert t in ClusterBindingItems(s, "b"); }
    }
  }

  lemma OneAdminLegal(clusters: set<string>)
    ensures var s := OneAdmin(clusters);
            Legal(s) && NoSyntheticNames(s) && forall t :: !DiscoverableTracked(s, t)
  {
    var s := OneAdmin(clusters);
    assert !Discoverable(s.clusterRoles["root"]);
    forall t | AdminViewTracked(s, t) || DiscoverableTracked(s, t) ensures Clean(t) && !DiscoverableTracked(s, t) {
      OneAdminGrants(clusters);
    }
  }

  lemma OneAdminComparable(clusters: set<string>, clusters': set<string>)
    ensures Comparable(OneAdmin(clusters), OneAdmin(clusters'))
  {
    hide AdminViewTracked, DiscoverableTracked;
    OneAdminGrants(clusters);
    OneAdminGrants(clusters');
    OneAdminLegal(clusters);
    OneAdminLegal(clusters');
  }

  /** Skipping is wrong at times: a new managed cluster changes no version, yet a user with
      a cluster-wide admin binding should now see it. */
  lemma SkipCanMissACluster()
    ensures var s, s' := OneAdmin({}), OneAdmin({"c1"});
            Legal(s) && Legal(s') && Comparable(s, s') && !SameAnswers(StoreFacts(s), StoreFacts(s'))
  {
    hide ClusterBindingGrants, NoSyntheticNames, Comparable, Legal, SameAnswers;
    OneAdminLegal({});
    OneAdminLegal({"c1"});
    OneAdminComparable({}, {"c1"});
    OneAdminComparable({"c1"}, {});
    OneAdminGrants({});
    assert "c1" in OneAdmin({"c1"}).clusters;
    assert !NobodyClusterWide(OneAdmin({}));
    SkipIsRightExactlyWhen(OneAdmin({}), OneAdmin({"c1"}));
  }

  // ------------------------------------------------------------------ the cache

  /** What is hashed: the lines of both processors, in sorted order and so as multisets. The
      SHA-256 of them stands for itself. */
  datatype Fingerprint = Fingerprint(adminView: multiset<string>, discoverable: multiset<string>)

  ghost predicate LinesOf(lines: multiset<string>, tracked: Tracked -> bool) {
    && (forall t :: tracked(t) ==> Format(t) in lines)
    && (forall line :: line in lines ==> exists t :: tracked(t) && Format(t) == line)
  }

  ghost function AdminViewList(s: Snapshot): Tracked -> bool {
    t => AdminViewTracked(s, t)
  }

  ghost function DiscoverableList(s: Snapshot): Tracked -> bool {
    t => DiscoverableTracked(s, t)
  }

  /** The fingerprint of a snapshot, whatever the order of the listings. */
  ghost function FingerprintOf(s: Snapshot): Fingerprint {
    Fingerprint(SetImage(AdminViewItems(s), Format), DiscoverableLines(s))
  }

  lemma FingerprintHasLines(s: Snapshot)
    ensures LinesOf(FingerprintOf(s).adminView, AdminViewList(s))
    ensures LinesOf(FingerprintOf(s).discoverable, DiscoverableList(s))
  {
    hide LinesOf, DiscoverableLines, AdminViewTracked, DiscoverableTracked, AdminViewItems, SetImage;
    AdminViewHasLines(s);
    DiscoverableHasLines(s);
  }

  lemma AdminViewHasLines(s: Snapshot)
    ensures LinesOf(SetImage(AdminViewItems(s), Format), AdminViewList(s))
  {
    hide AdminViewTracked, AdminViewItems, SetImage, Format;
    SetImageMembers(AdminViewItems(s), Format);
  }

  lemma DiscoverableHasLines(s: Snapshot)
    ensures LinesOf(DiscoverableLines(s), DiscoverableList(s))
  {
    hide SetImage, Format, Discoverable;
    SetImageMembers(DiscoverableKeys(s), RoleLine(s));
    SetImageMembers(s.clusterPermissions.Keys, PermissionLine(s));
    forall line | line in DiscoverableLines(s) ensures exists t :: DiscoverableTracked(s, t) && Format(t) == line {
      if n :| n in DiscoverableKeys(s) && RoleLine(s)(n) == line {
        assert IsRoleItem(s, n, OfClusterRole(s.clusterRoles[n].name, s.clusterRoles[n].version));
      } else {
        var n :| n in s.clusterPermissions.Keys && PermissionLine(s)(n) == line;
        assert IsPermissionItem(s, n, PermissionItem(s.clusterPermissions[n]));
      }
    }
    forall t | DiscoverableTracked(s, t) ensures Format(t) in DiscoverableLines(s) {
      if n :| IsRoleItem(s, n, t) {
        assert n in DiscoverableKeys(s) && RoleLine(s)(n) == Format(t);
      } else {
        var n :| IsPermissionItem(s, n, t);
        assert n in s.clusterPermissions.Keys && PermissionLine(s)(n) == Format(t);
      }
    }
  }

  lemma SameLinesSameItems(lines: multiset<string>, tracked: Tracked -> bool, tracked': Tracked -> bool)
    requires LinesOf(lines, tracked) && LinesOf(lines, tracked')
    requires forall t :: tracked(t) || tracked'(t) ==> Clean(t)
    ensures forall t :: tracked(t) ==> tracked'(t)
  {
    forall t | tracked(t) ensures tracked'(t) {
      assert Format(t) in lines;
      var t' :| tracked'(t') && Format(t') == Format(t);
      FormatIsInjective(t, t');
    }
  }

  /** Equal fingerprints mean equal version lists. */
  lemma SameFingerprint(s: Snapshot, s': Snapshot)
    requires Legal(s) && Legal(s') && FingerprintOf(s) == FingerprintOf(s')
    ensures SameVersions(s, s')
  {
    hide AdminViewTracked, DiscoverableTracked, Keyed, LinesOf, FingerprintOf;
    FingerprintHasLines(s);
    FingerprintHasLines(s');
    var f := FingerprintOf(s);
    var a, a', d, d' := AdminViewList(s), AdminViewList(s'), DiscoverableList(s), DiscoverableList(s');
    SameLinesSameItems(f.adminView, a, a');
    SameLinesSameItems(f.adminView, a', a);
    SameLinesSameItems(f.discoverable, d, d');
    SameLinesSameItems(f.discoverable, d', d);
    forall t ensures AdminViewTracked(s, t) <==> AdminViewTracked(s', t) {
      assert a(t) <==> a'(t);
    }
    forall t ensures DiscoverableTracked(s, t) <==> DiscoverableTracked(s', t) {
      assert d(t) <==> d'(t);
    }
  }

  /** Formatting, sorting and hashing one list. */
  method Lines(items: seq<Tracked>) returns (lines: multiset<string>)
    ensures lines == Image(items, Format)
  {
    hide Format;
    lines := multiset{};
    for i := 0 to |items|
      invariant lines == Image(items[..i], Format)
    {
      assert items[..i + 1] == items[..i] + [items[i]];
      ImageSnoc(items[..i], items[i], Format);
      lines := lines + multiset{Format(items[i])};
    }
    assert items[..|items|] == items;
  }

  /** calculateResourceVersionHash */
  method Calculate(s: Snapshot) returns (f: Fingerprint)
    ensures f == FingerprintOf(s)
  {
    hide AdminViewTracked, DiscoverableTracked, Format, DiscoverableLines, SetImage, Image, NoDup;
    var a := AdminViewVersions(s);
    var d := DiscoverableVersions(s);
    ListingHasSetImage(a, AdminViewItems(s), Format);
    var la := Lines(a);
    var ld := Lines(d);
    f := Fingerprint(la, ld);
  }

  datatype UserPermission = UserPermission(name: string, bindings: seq<ClusterBinding>, rules: seq<PolicyRule>)

  const ADMIN_RULES := [PolicyRule(["*"], ["*"], ["*"], [])]
  const VIEW_RULES := [PolicyRule(["get", "list", "watch"], ["*"], ["*"], [])]

  ghost predicate Defines(rules: seq<PolicyRule>, name: string, roles: seq<ClusterRole>) {
    if name == ADMIN_ROLE then rules == ADMIN_RULES
    else if name == VIEW_ROLE then rules == VIEW_RULES
    else if exists r :: r in roles && r.name == name then exists r :: r in roles && r.name == name && rules == r.rules
    else rules == []
  }

  ghost predicate Showing(facts: Facts, asking: set<Holder>, role: string) {
    exists c, e :: Visible(facts, asking, role, c, e)
  }

  predicate Includes(items: seq<UserPermission>, role: string) {
    exists p :: p in items && p.name == role
  }

  /** One entry per cluster, covering exactly what shows under the role. */
  ghost predicate Describes(p: UserPermission, facts: Facts, asking: set<Holder>, roles: seq<ClusterRole>) {
    && Tidy(p.bindings) && Defines(p.rules, p.name, roles)
    && forall c, e :: Covered(p.bindings, c, e) <==> Visible(facts, asking, p.name, c, e)
  }

  ghost predicate RulesPermit(rules: seq<PolicyRule>, verb: string, group: string, resource: string) {
    exists rule :: rule in rules && Permits(rule, verb, group, resource)
  }

  /** Admin is shown with rules that permit everything, view with rules that permit reading
      everything and nothing else. */
  lemma ShownRulesMean(rules: seq<PolicyRule>, roles: seq<ClusterRole>, verb: string, group: string, resource: string)
    ensures Defines(rules, ADMIN_ROLE, roles) ==> RulesPermit(rules, verb, group, resource)
    ensures Defines(rules, VIEW_ROLE, roles) ==>
              (RulesPermit(rules, verb, group, resource) <==> verb in {"get", "list", "watch"})
  {
    assert |ADMIN_ROLE| != |VIEW_ROLE|;
    if rules == ADMIN_RULES || rules == VIEW_RULES {
      assert rules[0] in rules && forall rule :: rule in rules ==> rule == rules[0];
      assert "*" != "get" && "*" != "list" && "*" != "watch" by { assert |"*"| == 1; }
    }
  }

  /** Hashing or a processor may fail. */
  datatype Fault = NoFault | HashFails | ProcessorFails

  class Cache {
    var store: PermissionStore
    var hash: Option<Fingerprint>
    // what the listers showed for the hash, to the admin/view and to the discoverable processor
    ghost var hashed: Snapshot
    ghost var seen: Snapshot
    ghost var built: Snapshot

    ghost predicate Valid()
      reads this, store, store.table, store.table.Repr
    {
      && store.Valid()
      && (hash.Some? ==> && hash.value == FingerprintOf(hashed)
                         && store.table.covered == AdminViewFacts(seen) + DiscoverableFacts(built)
                         && forall r :: r in store.discoverableRoles <==> r in DiscoverableRoles(built))
    }

    constructor ()
      ensures Valid() && hash == None && store.table.covered == iset{}
    {
      hash := None;
      hashed, seen, built := OneAdmin({}), OneAdmin({}), OneAdmin({});
      store := new PermissionStore();
    }

    /** synchronize: the hash test, the rebuild by both processors, and the swap. The store
        is replaced as a whole; the old one is not written to. The listers may show something
        else to each part, since objects change, and since the admin/view processor goes on
        without a listing that fails, as if it had shown nothing. */
    method Synchronize(atHash: Snapshot, atAdminView: Snapshot, atDiscovery: Snapshot, fault: Fault)
      requires Valid()
      modifies this
      ensures Valid()
      ensures old(hash) == Some(FingerprintOf(atHash)) || fault != NoFault ==>
                hash == old(hash) && store == old(store)
                && hashed == old(hashed) && seen == old(seen) && built == old(built)
      ensures old(hash) != Some(FingerprintOf(atHash)) && fault == NoFault ==>
                hash == Some(FingerprintOf(atHash)) && fresh(store)
                && hashed == atHash && seen == atAdminView && built == atDiscovery
    {
      hide AdminViewFacts, DiscoverableFacts, DiscoverableRoles, FingerprintOf, BindingTable.Valid;
      if fault == HashFails {
        return;
      }
      var newHash := Calculate(atHash);
      if hash == Some(newHash) {
        return;
      }
      var newStore := new PermissionStore();
      SyncAdminView(atAdminView, newStore);
      if fault == ProcessorFails {
        return;
      }
      SyncDiscoverable(atDiscovery, newStore);
      store := newStore;
      hash := Some(newHash);
      hashed, seen, built := atHash, atAdminView, atDiscovery;
      FreshStoreFacts(atAdminView, atDiscovery);
    }

    /** The rules shown with a role: fixed ones for the synthetic roles, otherwise those of the
        first discoverable role of that name. */
    method Definition(name: string) returns (rules: seq<PolicyRule>)
      ensures Defines(rules, name, store.discoverableRoles)
    {
      if name == ADMIN_ROLE {
        return ADMIN_RULES;
      }
      if name == VIEW_ROLE {
        return VIEW_RULES;
      }
      var roles := store.discoverableRoles;
      for i := 0 to |roles|
        invariant forall k :: 0 <= k < i ==> roles[k].name != name
      {
        if roles[i].name == name {
          assert roles[i] in roles;
          return roles[i].rules;
        }
      }
      return [];
    }

    /** One role of an answer to a query. */
    method Item(answer: BindingTable<string>, ghost asking: set<Holder>, name: string) returns (p: UserPermission)
      requires answer.Valid() && name in answer.lists
      requires forall role, c, e :: Entry(role, c, e) in answer.covered <==>
                Visible(store.table.covered, asking, role, c, e)
      ensures p.name == name && Describes(p, store.table.covered, asking, store.discoverableRoles)
      ensures Showing(store.table.covered, asking, name)
    {
      hide Visible, Covered, Tidy, BindingTable.Valid, Defines;
      answer.ListMeans(name);
      answer.ListsCover(name);
      var rules := Definition(name);
      p := UserPermission(name, answer.lists[name][..], rules);
      var c, e :| Covered(p.bindings, c, e);
      assert Entry(name, c, e) in answer.covered;
    }

    /** Get: one role of the user's permissions, not found when nothing shows under it. */
    method Get(user: string, groups: seq<string>, name: string) returns (found: Option<UserPermission>)
      requires Valid()
      ensures found.Some? <==> Showing(store.table.covered, Asking(user, groups), name)
      ensures found.Some? ==>
                found.value.name == name
                && Describes(found.value, store.table.covered, Asking(user, groups), store.discoverableRoles)
    {
      hide Visible, Asking, Describes, BindingTable.Valid;
      var answer := store.GetPermissions(user, groups);
      if name in answer.lists {
        var p := Item(answer, Asking(user, groups), name);
        return Some(p);
      }
      answer.FactsHaveLists();
      return None;
    }

    /** List: every role under which anything shows, once. */
    method List(user: string, groups: seq<string>) returns (items: seq<UserPermission>)
      requires Valid()
      ensures forall p :: p in items ==>
                Describes(p, store.table.covered, Asking(user, groups), store.discoverableRoles)
      ensures forall i, j :: 0 <= i < j < |items| ==> items[i].name != items[j].name
      ensures forall name :: Includes(items, name) <==> Showing(store.table.covered, Asking(user, groups), name)
    {
      hide Visible, Asking, Describes, BindingTable.Valid;
      var answer := store.GetPermissions(user, groups);
      items := [];
      var names := Listing(answer.lists.Keys);
      for i := 0 to |names|
        modifies {}
        invariant |items| == i && forall k :: 0 <= k < i ==> items[k].name == names[k]
        invariant forall p :: p in items ==>
                  Describes(p, store.table.covered, Asking(user, groups), store.discoverableRoles)
        invariant forall k :: 0 <= k < i ==> Showing(store.table.covered, Asking(user, groups), names[k])
      {
        assert names[i] in names;
        var p := Item(answer, Asking(user, groups), names[i]);
        items := items + [p];
      }
      answer.FactsHaveLists();
      forall name | name in answer.lists ensures Includes(items, name) {
        var k :| 0 <= k < |names| && names[k] == name;
        assert items[k] in items;
      }
    }

    /** After a synchronization the cache holds what a rebuild from the current snapshot
        would: skipping was sound if the cluster names are those of the last rebuild, and that
        saw one snapshot throughout. */
    lemma CurrentAfterSynchronize(s: Snapshot)
      requires Valid() && hash == Some(FingerprintOf(s)) && hashed == seen == built
      requires Legal(s) && Legal(built) && VersionsFix(built, s) && VersionsFix(s, built)
      requires built.clusters == s.clusters || NobodyClusterWide(built)
      ensures store.table.covered == StoreFacts(s)
      ensures forall r :: r in store.discoverableRoles <==> r in DiscoverableRoles(s)
    {
      hide AdminViewFacts, DiscoverableFacts, DiscoverableRoles, FingerprintOf, VersionsFix, SameVersions,
        NobodyClusterWide, Keyed;
      SameFingerprint(built, s);
      RebuildGivesTheSame(built, s);
    }
  }

  lemma FreshStoreFacts(s: Snapshot, s': Snapshot)
    ensures iset{} + AdminViewFacts(s) + DiscoverableFacts(s') == AdminViewFacts(s) + DiscoverableFacts(s')
    ensures forall r :: r in DiscoverableRoles(s') <==> r in s'.clusterRoles.Values && Discoverable(r)
  {
  }
}
