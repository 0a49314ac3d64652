/** The resource versions that decide whether the permission store is rebuilt. */
module Versions {
  import opened Rbac
  import opened Coverage
  import opened AdminView
  import opened Discovery
  import opened Images

  /** One line of a version list. */
  datatype Tracked =
    | OfClusterRole(name: string, version: string)
    | OfClusterPermission(namespace: string, version: string)
    | OfClusterRoleBinding(name: string, version: string)
    | OfRole(namespace: string, name: string, version: string)
    | OfRoleBinding(namespace: string, name: string, version: string)

  /** The lines as the source formats them. */
  function Format(t: Tracked): string {
    match t
    case OfClusterRole(name, v) => "cr:" + name + ":" + v
    case OfClusterPermission(ns, v) => "cp:" + ns + ":" + v
    case OfClusterRoleBinding(name, v) => "crb:" + name + ":" + v
    case OfRole(ns, name, v) => "r:" + ns + "/" + name + ":" + v
    case OfRoleBinding(ns, name, v) => "rb:" + ns + "/" + name + ":" + v
  }

  /** Versions are free of colons (they are numbers), namespaces of slashes. */
  predicate Clean(t: Tracked) {
    ':' !in t.version && (t.OfRole? || t.OfRoleBinding? ==> '/' !in t.namespace)
  }

  lemma LastColon(a: string, v: string, a': string, v': string)
    requires ':' !in v && ':' !in v' && a + ":" + v == a' + ":" + v'
    ensures a == a' && v == v'
  {
    var l := a + ":" + v;
    assert l[|a|] == ':' && l[|a'|] == ':';
    assert forall i :: |a| < i < |l| ==> l[i] == v[i - |a| - 1];
    assert forall i :: |a'| < i < |l| ==> l[i] == v'[i - |a'| - 1];
    assert l[..|a|] == a && l[..|a'|] == a' && l[|a| + 1..] == v && l[|a'| + 1..] == v';
  }

  lemma FirstSlash(a: string, b: string, a': string, b': string)
    requires '/' !in a && '/' !in a' && a + "/" + b == a' + "/" + b'
    ensures a == a' && b == b'
  {
    var l := a + "/" + b;
    assert l[|a|] == '/' && l[|a'|] == '/';
    assert forall i :: 0 <= i < |a| ==> l[i] == a[i];
    assert forall i :: 0 <= i < |a'| ==> l[i] == a'[i];
    assert l[..|a|] == a && l[..|a'|] == a' && l[|a| + 1..] == b && l[|a'| + 1..] == b';
  }

  function Kind(t: Tracked): string {
    match t
    case OfClusterRole(_, _) => "cr:"
    case OfClusterPermission(_, _) => "cp:"
    case OfClusterRoleBinding(_, _) => "crb:"
    case OfRole(_, _, _) => "r:"
    case OfRoleBinding(_, _, _) => "rb:"
  }

  function Identity(t: Tracked): string {
    match t
    case OfClusterRole(name, _) => name
    case OfClusterPermission(ns, _) => ns
    case OfClusterRoleBinding(name, _) => name
    case OfRole(ns, name, _) => ns + "/" + name
    case OfRoleBinding(ns, name, _) => ns + "/" + name
  }

  lemma FormatParts(t: Tracked)
    ensures Format(t) == (Kind(t) + Identity(t)) + ":" + t.version
  {
  }

  /** The kinds are not prefixes of one another. */
  lemma KindsDiffer(t: Tracked, t': Tracked, i: string, i': string)
    requires Kind(t) + i == Kind(t') + i'
    ensures Kind(t) == Kind(t') && i == i'
  {
    var k, k', l := Kind(t), Kind(t'), Kind(t) + i;
    assert l[0] == k[0] == k'[0] && l[1] == k[1] == k'[1];
    assert |k| > 2 && |k'| > 2 ==> l[2] == k[2] == k'[2];
    assert k == k';
    assert l[|k|..] == i && l[|k|..] == i';
  }

  /** Equal lines track the same object at the same version. */
  lemma FormatIsInjective(t: Tracked, t': Tracked)
    requires Clean(t) && Clean(t') && Format(t) == Format(t')
    ensures t == t'
  {
    hide Format;
    FormatParts(t);
    FormatParts(t');
    LastColon(Kind(t) + Identity(t), t.version, Kind(t') + Identity(t'), t'.version);
    KindsDiffer(t, t', Identity(t), Identity(t'));
    if t.OfRole? || t.OfRoleBinding? {
      FirstSlash(t.namespace, t.name, t'.namespace, t'.name);
    }
  }

  // ------------------------------------------------------------------ what is tracked

  predicate Relevant(rules: seq<PolicyRule>) {
    SyntheticRole(rules).Some?
  }

  /** trackClusterRoleVersion leaves discoverable roles to the other processor. */
  function RoleItem(r: ClusterRole): set<Tracked> {
    if Discoverable(r) then {} else {OfClusterRole(r.name, r.version)}
  }

  /** The lines a cluster role binding causes. */
  function ClusterBindingItems(s: Snapshot, n: string): set<Tracked> {
    if n in s.clusterRoleBindings && Relevant(RulesOfClusterRoleBinding(s, s.clusterRoleBindings[n])) then
      var b := s.clusterRoleBindings[n];
      {OfClusterRoleBinding(b.name, b.version)}
      + if b.roleRef.name in s.clusterRoles then RoleItem(s.clusterRoles[b.roleRef.name]) else {}
    else {}
  }

  /** The lines a role binding in a managed cluster's namespace causes. */
  function NamespaceBindingItems(s: Snapshot, n: Named): set<Tracked> {
    if && n in s.roleBindings && n.namespace in s.clusters
       && Relevant(RulesOfRoleBinding(s, n.namespace, s.roleBindings[n])) then
      var b := s.roleBindings[n];
      {OfRoleBinding(b.namespace, b.name, b.version)}
      + if b.roleRef.kind == "ClusterRole" && b.roleRef.name in s.clusterRoles then
          RoleItem(s.clusterRoles[b.roleRef.name])
        else if b.roleRef.kind == "Role" && Named(n.namespace, b.roleRef.name) in s.roles then
          var r := s.roles[Named(n.namespace, b.roleRef.name)];
          {OfRole(r.namespace, r.name, r.version)}
        else {}
    else {}
  }

  ghost predicate AdminViewTracked(s: Snapshot, t: Tracked) {
    (exists n :: t in ClusterBindingItems(s, n)) || (exists n :: t in NamespaceBindingItems(s, n))
  }

  ghost predicate DiscoverableTracked(s: Snapshot, t: Tracked) {
    (exists n :: IsRoleItem(s, n, t)) || (exists n :: IsPermissionItem(s, n, t))
  }

  ghost predicate IsRoleItem(s: Snapshot, n: string, t: Tracked) {
    && n in s.clusterRoles && Discoverable(s.clusterRoles[n])
    && t == OfClusterRole(s.clusterRoles[n].name, s.clusterRoles[n].version)
  }

  ghost predicate IsPermissionItem(s: Snapshot, n: Named, t: Tracked) {
    n in s.clusterPermissions && t == PermissionItem(s.clusterPermissions[n])
  }

  /** The name of a ClusterPermission is not part of its line. */
  function PermissionItem(cp: ClusterPermission): Tracked {
    OfClusterPermission(cp.namespace, cp.version)
  }

  /** Appends the new items in some order; items seen before are not repeated. */
  method Track(list: seq<Tracked>, items: set<Tracked>) returns (longer: seq<Tracked>)
    requires NoDup(list)
    ensures NoDup(longer) && forall t :: t in longer <==> t in list || t in items
  {
    var unseen := Listing(items - set t | t in list);
    NoDupConcat(list, unseen);
    longer := list + unseen;
  }

  /** addClusterRoleBindingVersions and addRoleBindingVersions. */
  method AdminViewVersions(s: Snapshot) returns (versions: seq<Tracked>)
    ensures NoDup(versions) && forall t :: t in versions <==> AdminViewTracked(s, t)
  {
    hide ClusterBindingItems, NamespaceBindingItems, NoDup;
    versions := [];
    assert NoDup(versions) by { NoDupEmpty<Tracked>(); }
    var wide := Listing(s.clusterRoleBindings.Keys);
    for i := 0 to |wide|
      invariant NoDup(versions)
      invariant forall t :: t in versions <==> exists k :: 0 <= k < i && t in ClusterBindingItems(s, wide[k])
    {
      versions := Track(versions, ClusterBindingItems(s, wide[i]));
    }
    var local := Listing(s.roleBindings.Keys);
    ghost var before := versions;
    for i := 0 to |local|
      invariant NoDup(versions)
      invariant forall t :: t in versions <==>
                t in before || exists k :: 0 <= k < i && t in NamespaceBindingItems(s, local[k])
    {
      versions := Track(versions, NamespaceBindingItems(s, local[i]));
    }
    forall t ensures t in versions <==> AdminViewTracked(s, t) {
      ItemsHaveKeys(s, t);
    }
  }

  lemma NoDupEmpty<T>()
    ensures NoDup<T>([])
  {
  }

  lemma ItemsHaveKeys(s: Snapshot, t: Tracked)
    ensures forall n :: t in ClusterBindingItems(s, n) ==> n in s.clusterRoleBindings.Keys
    ensures forall n :: t in NamespaceBindingItems(s, n) ==> n in s.roleBindings.Keys
  {
  }

  /** All lines of the admin/view list, which holds none twice. */
  ghost function AdminViewItems(s: Snapshot): (items: set<Tracked>)
    ensures forall t :: t in items <==> AdminViewTracked(s, t)
  {
    (set n, t | n in s.clusterRoleBindings && t in ClusterBindingItems(s, n) :: t)
    + set n, t | n in s.roleBindings && t in NamespaceBindingItems(s, n) :: t
  }

  ghost function DiscoverableKeys(s: Snapshot): set<string> {
    set n | n in s.clusterRoles && Discoverable(s.clusterRoles[n])
  }

  ghost function RoleLine(s: Snapshot): string -> string {
    n => if n in s.clusterRoles then Format(OfClusterRole(s.clusterRoles[n].name, s.clusterRoles[n].version)) else ""
  }

  ghost function PermissionLine(s: Snapshot): Named -> string {
    n => if n in s.clusterPermissions then Format(PermissionItem(s.clusterPermissions[n])) else ""
  }

  /** The lines of the discoverable list: one for each role and one for each ClusterPermission,
      equal or not. */
  ghost function DiscoverableLines(s: Snapshot): multiset<string> {
    SetImage(DiscoverableKeys(s), RoleLine(s)) + SetImage(s.clusterPermissions.Keys, PermissionLine(s))
  }

  /** addDiscoverableClusterRoleVersions and addClusterPermissionVersions. */
  method DiscoverableVersions(s: Snapshot) returns (versions: seq<Tracked>)
    ensures forall t :: t in versions <==> DiscoverableTracked(s, t)
    ensures Image(versions, Format) == DiscoverableLines(s)
  {
    hide Image, SetImage, IsRoleItem, IsPermissionItem, Format;
    var roles := RoleVersions(s);
    var permissions := PermissionVersions(s);
    ImageConcat(roles, permissions, Format);
    versions := roles + permissions;
  }

  lemma NoImage<T>(f: T -> string)
    ensures Image([], Format) == multiset{} == SetImage({}, f)
  {
  }

  method RoleVersions(s: Snapshot) returns (versions: seq<Tracked>)
    ensures forall t :: t in versions <==> exists n :: IsRoleItem(s, n, t)
    ensures Image(versions, Format) == SetImage(DiscoverableKeys(s), RoleLine(s))
  {
    hide Format, Discoverable, SetImage, Image;
    versions := [];
    ghost var done := {};
    NoImage(RoleLine(s));
    var roles := Listing(s.clusterRoles.Keys);
    for i := 0 to |roles|
      invariant done == set n | n in roles[..i] && n in s.clusterRoles && Discoverable(s.clusterRoles[n])
      invariant forall t :: t in versions <==> exists n :: n in done && IsRoleItem(s, n, t)
      invariant Image(versions, Format) == SetImage(done, RoleLine(s))
    {
      assert roles[i] in roles && roles[i] !in roles[..i];
      assert roles[..i + 1] == roles[..i] + [roles[i]];
      var r := s.clusterRoles[roles[i]];
      if Discoverable(r) {
        var item := OfClusterRole(r.name, r.version);
        assert forall t :: IsRoleItem(s, roles[i], t) <==> t == item;
        ImageSnoc(versions, item, Format);
        SetImageAdd(done, roles[i], RoleLine(s));
        versions := versions + [item];
        done := done + {roles[i]};
      }
    }
    assert roles[..|roles|] == roles;
    assert done == DiscoverableKeys(s);
  }

  method PermissionVersions(s: Snapshot) returns (versions: seq<Tracked>)
    ensures forall t :: t in versions <==> exists n :: IsPermissionItem(s, n, t)
    ensures Image(versions, Format) == SetImage(s.clusterPermissions.Keys, PermissionLine(s))
  {
    hide Format, SetImage, Image;
    versions := [];
    ghost var done := {};
    NoImage(PermissionLine(s));
    var permissions := Listing(s.clusterPermissions.Keys);
    for i := 0 to |permissions|
      invariant done == set n | n in permissions[..i]
      invariant forall t :: t in versions <==> exists n :: n in done && IsPermissionItem(s, n, t)
      invariant Image(versions, Format) == SetImage(done, PermissionLine(s))
    {
      assert permissions[i] in permissions && permissions[i] !in permissions[..i];
      assert permissions[..i + 1] == permissions[..i] + [permissions[i]];
      var item := PermissionItem(s.clusterPermissions[permissions[i]]);
      ImageSnoc(versions, item, Format);
      SetImageAdd(done, permissions[i], PermissionLine(s));
      versions := versions + [item];
      done := done + {permissions[i]};
    }
    assert permissions[..|permissions|] == permissions;
    assert done == s.clusterPermissions.Keys;
  }

  // ------------------------------------------------------------------ when a rebuild may be skipped

  /** Object names are the keys, versions hold no colon, namespaces no slash. */
  ghost predicate Legal(s: Snapshot) {
    && Keyed(s)
    && forall t :: AdminViewTracked(s, t) || DiscoverableTracked(s, t) ==> Clean(t)
  }

  /** A version fixes what an object of one name contains, and what a ClusterPermission of
      one namespace contains. */
  ghost predicate VersionsFix(s: Snapshot, s': Snapshot) {
    && (forall n :: n in s.clusterRoles && n in s'.clusterRoles ==>
          (s.clusterRoles[n].version == s'.clusterRoles[n].version ==> s.clusterRoles[n] == s'.clusterRoles[n]))
    && (forall n :: n in s.clusterRoleBindings && n in s'.clusterRoleBindings ==>
          (s.clusterRoleBindings[n].version == s'.clusterRoleBindings[n].version ==>
             s.clusterRoleBindings[n] == s'.clusterRoleBindings[n]))
    && (forall n :: n in s.roles && n in s'.roles ==>
          (s.roles[n].version == s'.roles[n].version ==> s.roles[n] == s'.roles[n]))
    && (forall n :: n in s.roleBindings && n in s'.roleBindings ==>
          (s.roleBindings[n].version == s'.roleBindings[n].version ==> s.roleBindings[n] == s'.roleBindings[n]))
    && (forall n, n' :: n in s.clusterPermissions && n' in s'.clusterPermissions ==>
          var cp, cp' := s.clusterPermissions[n], s'.clusterPermissions[n'];
          (cp.namespace == cp'.namespace && cp.version == cp'.version ==> cp == cp'))
  }

  /** Both processors' version lists have the same lines. */
  ghost predicate SameVersions(s: Snapshot, s': Snapshot) {
    && (forall t :: AdminViewTracked(s, t) <==> AdminViewTracked(s', t))
    && (forall t :: DiscoverableTracked(s, t) <==> DiscoverableTracked(s', t))
  }

  /** A role that matters to the admin/view processor is the same in both snapshots, also
      when it is discoverable and so only in the other processor's list. */
  lemma SameRelevantRole(s: Snapshot, s': Snapshot, n: string)
    requires Keyed(s) && Keyed(s') && VersionsFix(s, s') && SameVersions(s, s')
    requires n in s.clusterRoles
    requires var r := s.clusterRoles[n]; !Discoverable(r) ==> AdminViewTracked(s, OfClusterRole(r.name, r.version))
    ensures n in s'.clusterRoles && s'.clusterRoles[n] == s.clusterRoles[n]
  {
    var r := s.clusterRoles[n];
    var t := OfClusterRole(r.name, r.version);
    if Discoverable(r) {
      assert IsRoleItem(s, n, t);
      assert DiscoverableTracked(s', t);
    } else {
      TrackedExists(s', t);
    }
  }

  /** The admin/view list, read off the objects: bindings that refer to rules which create views,
      role bindings only in the namespaces of managed clusters, and the roles they refer to, but
      no discoverable ones. */
  lemma TrackedExactlyWhen(s: Snapshot, t: Tracked)
    requires Keyed(s)
    ensures AdminViewTracked(s, t) <==>
            match t
            case OfClusterRoleBinding(n, v) =>
              && n in s.clusterRoleBindings && s.clusterRoleBindings[n].version == v
              && exists rules :: RefersWide(s, n, rules) && CreatesViews(rules)
            case OfRoleBinding(ns, n, v) =>
              && ns in s.clusters && Named(ns, n) in s.roleBindings && s.roleBindings[Named(ns, n)].version == v
              && exists rules :: RefersIn(s, Named(ns, n), rules) && CreatesViews(rules)
            case OfClusterRole(r, v) =>
              && r in s.clusterRoles && s.clusterRoles[r].version == v
              && !Discoverable(s.clusterRoles[r]) && CreatesViews(s.clusterRoles[r].rules)
              && (|| (exists n :: n in s.clusterRoleBindings && s.clusterRoleBindings[n].roleRef.name == r)
                  || (exists n :: n in s.roleBindings && n.namespace in s.clusters
                        && s.roleBindings[n].roleRef.kind == "ClusterRole" && s.roleBindings[n].roleRef.name == r))
            case OfRole(ns, r, v) =>
              && ns in s.clusters && Named(ns, r) in s.roles && s.roles[Named(ns, r)].version == v
              && CreatesViews(s.roles[Named(ns, r)].rules)
              && exists n :: n in s.roleBindings && n.namespace == ns
                   && s.roleBindings[n].roleRef.kind == "Role" && s.roleBindings[n].roleRef.name == r
            case OfClusterPermission(_, _) => false
  {
    hide AdminViewTracked, CreatesViews, Discoverable, RefersWide, RefersIn, Keyed;
    match t
    case OfClusterRoleBinding(n, v) => WideBindingIsTracked(s, n, v);
    case OfRoleBinding(ns, n, v) => LocalBindingIsTracked(s, ns, n, v);
    case OfClusterRole(r, v) => ClusterRoleIsTracked(s, r, v);
    case OfRole(ns, r, v) => RoleIsTracked(s, ns, r, v);
    case OfClusterPermission(_, _) => assert !AdminViewTracked(s, t) by { NoPermissionTracked(s, t); }
  }

  lemma NoPermissionTracked(s: Snapshot, t: Tracked)
    requires t.OfClusterPermission?
    ensures !AdminViewTracked(s, t)
  {
    hide Relevant, Discoverable;
  }

  lemma WideBindingIsTracked(s: Snapshot, n: string, v: string)
    requires Keyed(s)
    ensures AdminViewTracked(s, OfClusterRoleBinding(n, v)) <==>
              && n in s.clusterRoleBindings && s.clusterRoleBindings[n].version == v
              && exists rules :: RefersWide(s, n, rules) && CreatesViews(rules)
  {
    hide CreatesViews, Discoverable, Relevant, RulesOfClusterRoleBinding, RefersWide;
    var t := OfClusterRoleBinding(n, v);
    assert AdminViewTracked(s, t) <==> t in ClusterBindingItems(s, n);
    if n in s.clusterRoleBindings { RelevantWide(s, n); }
  }

  lemma LocalBindingIsTracked(s: Snapshot, ns: string, n: string, v: string)
    requires Keyed(s)
    ensures AdminViewTracked(s, OfRoleBinding(ns, n, v)) <==>
              && ns in s.clusters && Named(ns, n) in s.roleBindings && s.roleBindings[Named(ns, n)].version == v
              && exists rules :: RefersIn(s, Named(ns, n), rules) && CreatesViews(rules)
  {
    hide CreatesViews, Discoverable, Relevant, RulesOfRoleBinding, RefersIn;
    var t := OfRoleBinding(ns, n, v);
    assert AdminViewTracked(s, t) <==> t in NamespaceBindingItems(s, Named(ns, n));
    if Named(ns, n) in s.roleBindings { RelevantIn(s, Named(ns, n)); }
  }

  lemma ClusterRoleIsTracked(s: Snapshot, r: string, v: string)
    requires Keyed(s)
    ensures AdminViewTracked(s, OfClusterRole(r, v)) <==>
              && r in s.clusterRoles && s.clusterRoles[r].version == v
              && !Discoverable(s.clusterRoles[r]) && CreatesViews(s.clusterRoles[r].rules)
              && (|| (exists n :: n in s.clusterRoleBindings && s.clusterRoleBindings[n].roleRef.name == r)
                  || (exists n :: n in s.roleBindings && n.namespace in s.clusters
                        && s.roleBindings[n].roleRef.kind == "ClusterRole" && s.roleBindings[n].roleRef.name == r))
  {
    hide CreatesViews, Discoverable, Relevant;
    var t := OfClusterRole(r, v);
    forall n | n in s.clusterRoleBindings
      ensures t in ClusterBindingItems(s, n) <==>
        && s.clusterRoleBindings[n].roleRef.name == r && r in s.clusterRoles && s.clusterRoles[r].version == v
        && !Discoverable(s.clusterRoles[r]) && CreatesViews(s.clusterRoles[r].rules)
    {
      RelevantWide(s, n);
    }
    forall n | n in s.roleBindings
      ensures t in NamespaceBindingItems(s, n) <==>
        && n.namespace in s.clusters
        && s.roleBindings[n].roleRef.kind == "ClusterRole" && s.roleBindings[n].roleRef.name == r
        && r in s.clusterRoles && s.clusterRoles[r].version == v
        && !Discoverable(s.clusterRoles[r]) && CreatesViews(s.clusterRoles[r].rules)
    {
      RelevantIn(s, n);
    }
    ItemsHaveKeys(s, t);
    hide ClusterBindingItems, NamespaceBindingItems, Keyed;
  }

  lemma RoleIsTracked(s: Snapshot, ns: string, r: string, v: string)
    requires Keyed(s)
    ensures AdminViewTracked(s, OfRole(ns, r, v)) <==>
              && ns in s.clusters && Named(ns, r) in s.roles && s.roles[Named(ns, r)].version == v
              && CreatesViews(s.roles[Named(ns, r)].rules)
              && exists n :: n in s.roleBindings && n.namespace == ns
                   && s.roleBindings[n].roleRef.kind == "Role" && s.roleBindings[n].roleRef.name == r
  {
    hide CreatesViews, Discoverable, Relevant;
    var t := OfRole(ns, r, v);
    forall n | n in s.roleBindings
      ensures t in NamespaceBindingItems(s, n) <==>
        && n.namespace in s.clusters && n.namespace == ns
        && s.roleBindings[n].roleRef.kind == "Role" && s.roleBindings[n].roleRef.name == r
        && Named(ns, r) in s.roles && s.roles[Named(ns, r)].version == v && CreatesViews(s.roles[Named(ns, r)].rules)
    {
      assert |"ClusterRole"| != |"Role"|;
      RelevantIn(s, n);
    }
    ItemsHaveKeys(s, t);
    hide ClusterBindingItems, NamespaceBindingItems, Keyed;
  }

  lemma RelevantWide(s: Snapshot, n: string)
    requires n in s.clusterRoleBindings
    ensures var rules := RulesOfClusterRoleBinding(s, s.clusterRoleBindings[n]);
            && (Relevant(rules) <==> CreatesViews(rules))
            && (Relevant(rules) ==> RefersWide(s, n, rules))
            && forall rules' :: RefersWide(s, n, rules') ==> rules' == rules
  {
    NoRulesNoRole();
    hide SyntheticRole, CreatesViews, CreatesBoth;
    SyntheticRoleMeans(RulesOfClusterRoleBinding(s, s.clusterRoleBindings[n]));
  }

  lemma RelevantIn(s: Snapshot, n: Named)
    requires n in s.roleBindings
    ensures var rules := RulesOfRoleBinding(s, n.namespace, s.roleBindings[n]);
            && (Relevant(rules) <==> CreatesViews(rules))
            && (Relevant(rules) ==> RefersIn(s, n, rules))
            && forall rules' :: RefersIn(s, n, rules') ==> rules' == rules
  {
    NoRulesNoRole();
    hide SyntheticRole, CreatesViews, CreatesBoth;
    assert |"ClusterRole"| != |"Role"|;
    SyntheticRoleMeans(RulesOfRoleBinding(s, n.namespace, s.roleBindings[n]));
  }

  /** A tracked line stands for an object of the snapshot. */
  lemma TrackedExists(s: Snapshot, t: Tracked)
    requires Keyed(s) && AdminViewTracked(s, t)
    ensures match t
            case OfClusterRole(n, v) => n in s.clusterRoles && s.clusterRoles[n].version == v
            case OfClusterRoleBinding(n, v) => n in s.clusterRoleBindings && s.clusterRoleBindings[n].version == v
            case OfRole(ns, n, v) => Named(ns, n) in s.roles && s.roles[Named(ns, n)].version == v
            case OfRoleBinding(ns, n, v) =>
              Named(ns, n) in s.roleBindings && ns in s.clusters && s.roleBindings[Named(ns, n)].version == v
            case OfClusterPermission(_, _) => false
  {
    hide AdminViewTracked, CreatesViews, RefersWide, RefersIn;
    TrackedExactlyWhen(s, t);
  }

  /** A relevant cluster role binding is the same in both snapshots, and so is its role. */
  lemma SameClusterBinding(s: Snapshot, s': Snapshot, n: string, h: Holder, role: string)
    requires Keyed(s) && Keyed(s') && VersionsFix(s, s') && SameVersions(s, s')
    requires ClusterBindingGrants(s, n, h, role)
    ensures ClusterBindingGrants(s', n, h, role)
  {
    hide SyntheticRole, HoldersOf;
    var b := s.clusterRoleBindings[n];
    var rn := b.roleRef.name;
    var t := OfClusterRoleBinding(b.name, b.version);
    NoRulesNoRole();
    assert t in ClusterBindingItems(s, n);
    TrackedExists(s', t);
    var r := s.clusterRoles[rn];
    assert !Discoverable(r) ==> OfClusterRole(r.name, r.version) in ClusterBindingItems(s, n);
    SameRelevantRole(s, s', rn);
  }

  /** A relevant role binding in a managed cluster's namespace is the same in both. */
  lemma SameNamespaceBinding(s: Snapshot, s': Snapshot, n: Named, h: Holder, role: string)
    requires Keyed(s) && Keyed(s') && VersionsFix(s, s') && SameVersions(s, s')
    requires NamespaceBindingGrants(s, n, h, role) && n.namespace in s.clusters
    ensures NamespaceBindingGrants(s', n, h, role) && n.namespace in s'.clusters
  {
    hide SyntheticRole, HoldersOf;
    var b := s.roleBindings[n];
    var t := OfRoleBinding(b.namespace, b.name, b.version);
    NoRulesNoRole();
    assert t in NamespaceBindingItems(s, n);
    TrackedExists(s', t);
    SameNamespaceRules(s, s', n);
  }

  lemma SameNamespaceRules(s: Snapshot, s': Snapshot, n: Named)
    requires Keyed(s) && Keyed(s') && VersionsFix(s, s') && SameVersions(s, s')
    requires n in s.roleBindings && n.namespace in s.clusters
    requires var rules := RulesOfRoleBinding(s, n.namespace, s.roleBindings[n]); Relevant(rules) && rules != []
    ensures var b := s.roleBindings[n];
            RulesOfRoleBinding(s', n.namespace, b) == RulesOfRoleBinding(s, n.namespace, b)
  {
    hide Relevant, HoldersOf;
    var b := s.roleBindings[n];
    if b.roleRef.kind == "ClusterRole" {
      var r := s.clusterRoles[b.roleRef.name];
      assert !Discoverable(r) ==> OfClusterRole(r.name, r.version) in NamespaceBindingItems(s, n);
      SameRelevantRole(s, s', b.roleRef.name);
    } else {
      var r := s.roles[Named(n.namespace, b.roleRef.name)];
      var item := OfRole(r.namespace, r.name, r.version);
      assert item in NamespaceBindingItems(s, n);
      TrackedExists(s', item);
    }
  }

  lemma SameDiscoverableName(s: Snapshot, s': Snapshot, role: string)
    requires SameVersions(s, s') && DiscoverableName(s, role)
    ensures DiscoverableName(s', role)
  {
    hide AdminViewTracked, Discoverable;
    var n :| n in s.clusterRoles && Discoverable(s.clusterRoles[n]) && s.clusterRoles[n].name == role;
    var t := OfClusterRole(role, s.clusterRoles[n].version);
    assert IsRoleItem(s, n, t);
    assert DiscoverableTracked(s', t);
  }

  lemma SamePermission(s: Snapshot, s': Snapshot, n: Named)
    requires Keyed(s) && Keyed(s') && VersionsFix(s, s') && SameVersions(s, s')
    requires n in s.clusterPermissions
    ensures exists n' :: n' in s'.clusterPermissions && n'.namespace == n.namespace
              && s'.clusterPermissions[n'] == s.clusterPermissions[n]
  {
    hide AdminViewTracked, Discoverable;
    var t := PermissionItem(s.clusterPermissions[n]);
    assert IsPermissionItem(s, n, t);
    assert DiscoverableTracked(s', t);
    var n' :| n' in s'.clusterPermissions && t == PermissionItem(s'.clusterPermissions[n']);
    var cp, cp' := s.clusterPermissions[n], s'.clusterPermissions[n'];
    assert PermissionItem(cp) == OfClusterPermission(cp.namespace, cp.version);
    assert PermissionItem(cp') == OfClusterPermission(cp'.namespace, cp'.version);
  }

  lemma SameDiscovered(s: Snapshot, s': Snapshot, h: Holder, role: string, c: string, e: Extent)
    requires Keyed(s) && Keyed(s') && VersionsFix(s, s') && SameVersions(s, s')
    requires Discovered(s, h, role, c, e)
    ensures Discovered(s', h, role, c, e)
  {
    hide GivesInCluster, GivesInNamespace, DiscoverableName, SameVersions, VersionsFix, Keyed;
    SameDiscoverableName(s, s', role);
    var n :| n in s.clusterPermissions && n.namespace == c &&
         var cp := s.clusterPermissions[n];
         GivesInCluster(cp, h, role) || (e.Within? && GivesInNamespace(cp, h, role, e.namespace));
    SamePermission(s, s', n);
    var n' :| n' in s'.clusterPermissions && n'.namespace == c && s'.clusterPermissions[n'] == s.clusterPermissions[n];
  }
}
