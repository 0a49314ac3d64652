/** The project API: the projects a user reaches through ClusterPermissions, found by way of
    an index over the subjects they name. */
module Projects {
  import opened Rbac

  // ------------------------------------------------------------------ unstructured objects

  /** A nested field: missing, of the wrong type, or there. */
  datatype Field<+T> = Absent | Wrong | Found(value: T)

  datatype RawSubject = RawSubject(kind: Field<string>, name: Field<string>)

  /** Elements of a list that are no objects are None. */
  datatype RawBinding = RawBinding(
    subject: Field<RawSubject>, subjects: Field<seq<Option<RawSubject>>>,
    roleRef: Field<Field<string>>, namespace: Field<string>)

  datatype Permission = Permission(
    namespace: string, name: string, clusterRoleBinding: Field<RawBinding>,
    clusterRoleBindings: Field<seq<Option<RawBinding>>>, roleBindings: Field<seq<Option<RawBinding>>>)

  datatype SubjectRef = SubjectRef(kind: string, name: string)

  // ------------------------------------------------------------------ subjects

  /** toSubject */
  function ToSubject(s: RawSubject): Option<SubjectRef> {
    if s.kind.Found? && s.name.Found? then Some(SubjectRef(s.kind.value, s.name.value)) else None
  }

  predicate Readable(s: Option<RawSubject>) {
    s.Some? && ToSubject(s.value).Some?
  }

  /** The binding has subjects, all readable. The plural field wins: then it does not matter
      whether the singular subject has a kind and a name. */
  ghost predicate HasSubjects(b: RawBinding) {
    && !b.subject.Wrong? && !b.subjects.Wrong?
    && (b.subjects.Found? || b.subject.Found?)
    && if b.subjects.Found? then forall s :: s in b.subjects.value ==> Readable(s) else ToSubject(b.subject.value).Some?
  }

  ghost predicate Names(b: RawBinding, s: SubjectRef) {
    && HasSubjects(b)
    && if b.subjects.Found? then
         exists raw :: raw in b.subjects.value && Readable(raw) && ToSubject(raw.value).value == s
       else ToSubject(b.subject.value) == Some(s)
  }

  /** toSubjects */
  method ToSubjects(b: RawBinding) returns (subjects: Option<seq<SubjectRef>>)
    ensures subjects.Some? <==> HasSubjects(b)
    ensures subjects.Some? ==> forall s :: s in subjects.value <==> Names(b, s)
  {
    if b.subject.Wrong? || b.subjects.Wrong? {
      return None;
    }
    if b.subject.Absent? && b.subjects.Absent? {
      return None;
    }
    if b.subjects.Absent? {
      var one := ToSubject(b.subject.value);
      return if one.None? then None else Some([one.value]);
    }
    var raw := b.subjects.value;
    var read := [];
    for i := 0 to |raw|
      invariant |read| == i && forall k :: 0 <= k < i ==> Readable(raw[k]) && read[k] == ToSubject(raw[k].value).value
    {
      if raw[i].None? || ToSubject(raw[i].value).None? {
        assert !Readable(raw[i]);
        return None;
      }
      read := read + [ToSubject(raw[i].value).value];
    }
    forall s ensures s in read <==> Names(b, s) {
      if s in read {
        var k :| 0 <= k < |read| && read[k] == s;
        assert raw[k] in raw;
      }
      if Names(b, s) {
        var r :| r in raw && Readable(r) && ToSubject(r.value).value == s;
        var k :| 0 <= k < |raw| && raw[k] == r;
        assert read[k] == s;
      }
    }
    return Some(read);
  }

  // ------------------------------------------------------------------ keys

  function Key(namespace: string, name: string, s: SubjectRef): string {
    namespace + "/" + (name + "/" + (s.kind + "/" + s.name))
  }

  /** strings.SplitN(s, "/", n): at most n parts, the last one unsplit. */
  function SplitN(s: string, n: nat): (parts: seq<string>)
    requires n > 0
    ensures 0 < |parts| <= n
    decreases n
  {
    if n == 1 || '/' !in s then [s]
    else [s[..FirstSlash(s)]] + SplitN(s[FirstSlash(s) + 1..], n - 1)
  }

  function FirstSlash(s: string): (i: nat)
    requires '/' in s
    ensures i < |s| && s[i] == '/' && '/' !in s[..i]
  {
    if s[0] == '/' then 0
    else
      assert s == [s[0]] + s[1..];
      var i := 1 + FirstSlash(s[1..]);
      assert s[..i] == [s[0]] + s[1..][..i - 1];
      i
  }

  lemma SplitOne(first: string, rest: string, n: nat)
    requires '/' !in first && n > 1
    ensures SplitN(first + "/" + rest, n) == [first] + SplitN(rest, n - 1)
  {
    var s := first + "/" + rest;
    assert s[|first|] == '/';
    var i := FirstSlash(s);
    assert forall k :: 0 <= k < |first| ==> s[k] == first[k];
    assert forall k :: 0 <= k < i ==> s[k] == s[..i][k];
    assert s[..|first|] == first && s[|first| + 1..] == rest;
  }

  lemma SplitIntoOne(s: string)
    ensures SplitN(s, 1) == [s]
  {
  }

  lemma SplitInTwo(s: string)
    requires '/' in s
    ensures var parts := SplitN(s, 2);
            |parts| == 2 && parts[0] + "/" + parts[1] == s && '/' !in parts[0]
  {
  }

  /** splitKey takes a key apart again; only the subject's kind can be misread, and only when
      it holds a slash. */
  lemma SplitOfKey(namespace: string, name: string, s: SubjectRef)
    requires '/' !in namespace && '/' !in name
    ensures var parts := SplitN(Key(namespace, name, s), 4);
            && |parts| == 4 && parts[0] == namespace && parts[1] == name
            && ('/' !in s.kind ==> parts[2] == s.kind && parts[3] == s.name)
            && parts[2] + "/" + parts[3] == s.kind + "/" + s.name && '/' !in parts[2]
  {
    hide SplitN, FirstSlash;
    var tail := s.kind + "/" + s.name;
    assert Key(namespace, name, s) == namespace + "/" + (name + "/" + tail);
    SplitOne(namespace, name + "/" + tail, 4);
    SplitOne(name, tail, 3);
    assert tail[|s.kind|] == '/';
    var parts := SplitN(tail, 2);
    SplitInTwo(tail);
    assert SplitN(Key(namespace, name, s), 4) == [namespace] + ([name] + parts);
    if '/' !in s.kind {
      SplitOne(s.kind, s.name, 2);
      SplitIntoOne(s.name);
    }
  }

  // ------------------------------------------------------------------ the index

  ghost predicate BindingsReadable(bindings: seq<Option<RawBinding>>) {
    forall b :: b in bindings ==> b.Some? && HasSubjects(b.value)
  }

  /** Nothing in the permission is malformed, and every binding has subjects. */
  ghost predicate Indexable(p: Permission) {
    && (p.clusterRoleBinding.Found? ==> HasSubjects(p.clusterRoleBinding.value)) && !p.clusterRoleBinding.Wrong?
    && (p.clusterRoleBindings.Found? ==> BindingsReadable(p.clusterRoleBindings.value)) && !p.clusterRoleBindings.Wrong?
    && (p.roleBindings.Found? ==> BindingsReadable(p.roleBindings.value)) && !p.roleBindings.Wrong?
  }

  ghost predicate AmongBindings(bindings: seq<Option<RawBinding>>, s: SubjectRef) {
    exists b :: b in bindings && b.Some? && Names(b.value, s)
  }

  /** Some binding of the permission names the subject. */
  ghost predicate Mentions(p: Permission, s: SubjectRef) {
    || (p.clusterRoleBinding.Found? && Names(p.clusterRoleBinding.value, s))
    || (p.clusterRoleBindings.Found? && AmongBindings(p.clusterRoleBindings.value, s))
    || (p.roleBindings.Found? && AmongBindings(p.roleBindings.value, s))
  }

  /** The subjects of a list of bindings. */
  method SubjectsOfAll(bindings: seq<Option<RawBinding>>) returns (subjects: Option<set<SubjectRef>>)
    ensures subjects.Some? <==> BindingsReadable(bindings)
    ensures subjects.Some? ==> forall s :: s in subjects.value <==> AmongBindings(bindings, s)
  {
    hide HasSubjects, Names;
    var all := {};
    for i := 0 to |bindings|
      invariant forall k :: 0 <= k < i ==> bindings[k].Some? && HasSubjects(bindings[k].value)
      invariant forall s :: s in all <==> exists k :: 0 <= k < i && bindings[k].Some? && Names(bindings[k].value, s)
    {
      assert bindings[i] in bindings;
      if bindings[i].None? {
        return None;
      }
      var subjects := ToSubjects(bindings[i].value);
      if subjects.None? {
        return None;
      }
      all := all + set s | s in subjects.value;
    }
    return Some(all);
  }

  /** IndexClusterPermissionBySubject; an error is None. */
  method IndexBySubject(p: Permission) returns (keys: Option<set<string>>)
    ensures keys.Some? <==> Indexable(p)
    ensures keys.Some? ==> forall k :: k in keys.value <==>
              exists s :: Mentions(p, s) && k == Key(p.namespace, p.name, s)
  {
    hide HasSubjects, Names, BindingsReadable, AmongBindings, Key;
    if p.clusterRoleBinding.Wrong? {
      return None;
    }
    var found: set<SubjectRef> := {};
    if p.clusterRoleBinding.Found? {
      var subjects := ToSubjects(p.clusterRoleBinding.value);
      if subjects.None? {
        return None;
      }
      found := found + set s | s in subjects.value;
    }
    if p.clusterRoleBindings.Wrong? {
      return None;
    }
    if p.clusterRoleBindings.Found? {
      var subjects := SubjectsOfAll(p.clusterRoleBindings.value);
      if subjects.None? {
        return None;
      }
      found := found + subjects.value;
    }
    if p.roleBindings.Wrong? {
      return None;
    }
    if p.roleBindings.Found? {
      var subjects := SubjectsOfAll(p.roleBindings.value);
      if subjects.None? {
        return None;
      }
      found := found + subjects.value;
    }
    assert forall s :: s in found <==> Mentions(p, s);
    return Some(set s | s in found :: Key(p.namespace, p.name, s));
  }

  // ------------------------------------------------------------------ the scan

  datatype Project = Project(name: string, cluster: string)

  const ALL_PROJECTS := "all_projects"

  /** isBoundUser */
  predicate IsBound(s: SubjectRef, user: string, groups: seq<string>) {
    if s.kind == "Group" then s.name in groups else s.kind == "User" && s.name == user
  }

  /** The reference by which a binding would name the holder. */
  function RefOf(h: Holder): SubjectRef {
    SubjectRef(if h.User? then "User" else "Group", h.name)
  }

  /** Bound are the user by its name and the user's groups by theirs, and nobody else. */
  lemma BoundExactlyWhen(s: SubjectRef, user: string, groups: seq<string>)
    ensures IsBound(s, user, groups) <==> exists h :: h in Asking(user, groups) && s == RefOf(h)
  {
    assert |"User"| != |"Group"|;
    if IsBound(s, user, groups) {
      var h := if s.kind == "Group" then Group(s.name) else User(s.name);
      assert h in Asking(user, groups) && s == RefOf(h);
    }
  }

  ghost predicate SomeBound(subjects: seq<SubjectRef>, user: string, groups: seq<string>) {
    exists s :: s in subjects && IsBound(s, user, groups)
  }

  predicate IsKubeVirtRole(name: string) {
    name in {"kubevirt.io:admin", "kubevirt.io:edit", "kubevirt.io:view"}
  }

  predicate RefersToKubeVirt(b: RawBinding) {
    b.roleRef.Found? && b.roleRef.value.Found? && IsKubeVirtRole(b.roleRef.value.value)
  }

  /** The binding gives a kubevirt role to the user or one of the groups. */
  ghost predicate Grants(b: RawBinding, user: string, groups: seq<string>) {
    RefersToKubeVirt(b) && exists s :: Names(b, s) && IsBound(s, user, groups)
  }

  /** The raw subject stands in the binding: as one of several, or as its single one. */
  predicate Holds(b: RawBinding, raw: RawSubject) {
    if b.subjects.Found? then Some(raw) in b.subjects.value else b.subject == Found(raw)
  }

  /** A grant, read off the fields: no subject is malformed, the role is one of the three of
      kubevirt, and a subject has the kind and the name of the user or of one of the groups. */
  lemma GrantsExactlyWhen(b: RawBinding, user: string, groups: seq<string>)
    ensures Grants(b, user, groups) <==>
              && HasSubjects(b)
              && (exists level ::
                    level in {"admin", "edit", "view"} && b.roleRef == Found(Found("kubevirt.io:" + level)))
              && exists h :: h in Asking(user, groups) && Holds(b, RawSubject(Found(RefOf(h).kind), Found(h.name)))
  {
    KubeVirtRoles(b);
    forall s ensures Names(b, s) <==> HasSubjects(b) && Holds(b, RawSubject(Found(s.kind), Found(s.name))) {
      NamesExactlyWhen(b, s);
    }
    hide RefersToKubeVirt, HasSubjects, Names, Holds, Asking, IsBound;
    if s :| Names(b, s) && IsBound(s, user, groups) {
      BoundExactlyWhen(s, user, groups);
    }
    if h :| h in Asking(user, groups) && Names(b, RefOf(h)) {
      BoundExactlyWhen(RefOf(h), user, groups);
    }
  }

  lemma NamesExactlyWhen(b: RawBinding, s: SubjectRef)
    ensures Names(b, s) <==> HasSubjects(b) && Holds(b, RawSubject(Found(s.kind), Found(s.name)))
  {
    var raw := RawSubject(Found(s.kind), Found(s.name));
    assert Readable(Some(raw)) && ToSubject(raw) == Some(s);
    assert forall r: RawSubject :: ToSubject(r) == Some(s) ==> r == raw;
  }

  lemma KubeVirtRoles(b: RawBinding)
    ensures RefersToKubeVirt(b) <==>
              exists level :: level in {"admin", "edit", "view"} && b.roleRef == Found(Found("kubevirt.io:" + level))
  {
    assert "kubevirt.io:" + "admin" == "kubevirt.io:admin";
    assert "kubevirt.io:" + "edit" == "kubevirt.io:edit";
    assert "kubevirt.io:" + "view" == "kubevirt.io:view";
  }

  ghost predicate SomeGrants(bindings: seq<Option<RawBinding>>, user: string, groups: seq<string>) {
    exists b :: b in bindings && b.Some? && Grants(b.value, user, groups)
  }

  ghost predicate GrantsIn(bindings: seq<Option<RawBinding>>, namespace: string, user: string, groups: seq<string>) {
    exists b :: b in bindings && b.Some? && b.value.namespace == Found(namespace) && Grants(b.value, user, groups)
  }

  /** A malformed part hides what comes after it. */
  ghost predicate Everywhere(p: Permission, user: string, groups: seq<string>) {
    || (p.clusterRoleBinding.Found? && Grants(p.clusterRoleBinding.value, user, groups))
    || (&& !p.clusterRoleBinding.Wrong? && p.clusterRoleBindings.Found?
        && SomeGrants(p.clusterRoleBindings.value, user, groups))
  }

  /** The permission shows the project to the user. */
  ghost predicate Shows(p: Permission, user: string, groups: seq<string>, project: Project) {
    && project.cluster == p.namespace
    && if Everywhere(p, user, groups) then project.name == ALL_PROJECTS
       else && !p.clusterRoleBinding.Wrong? && !p.clusterRoleBindings.Wrong? && p.roleBindings.Found?
            && GrantsIn(p.roleBindings.value, project.name, user, groups)
  }

  /** checkClusterRoleBindingForKubeVirt */
  method CheckClusterRoleBinding(b: RawBinding, user: string, groups: seq<string>) returns (r: bool)
    ensures r <==> Grants(b, user, groups)
  {
    hide Names, HasSubjects;
    var subjects := ToSubjects(b);
    if subjects.None? {
      assert forall s :: !Names(b, s) by { NoNamesWithoutSubjects(b); }
      return false;
    }
    for i := 0 to |subjects.value|
      invariant forall k :: 0 <= k < i ==> !(IsBound(subjects.value[k], user, groups) && RefersToKubeVirt(b))
    {
      var s := subjects.value[i];
      assert s in subjects.value;
      if IsBound(s, user, groups) {
        if !(b.roleRef.Found? && b.roleRef.value.Found?) {
          return false;
        }
        if IsKubeVirtRole(b.roleRef.value.value) {
          return true;
        }
      }
    }
    return false;
  }

  lemma NoNamesWithoutSubjects(b: RawBinding)
    requires !HasSubjects(b)
    ensures forall s :: !Names(b, s)
  {
  }

  /** The loop over the role bindings: a project for each bound subject, repeated ones too. */
  method NamespaceProjects(cluster: string, bindings: seq<Option<RawBinding>>, user: string, groups: seq<string>)
    returns (projects: seq<Project>)
    ensures forall q :: q in projects <==> q.cluster == cluster && GrantsIn(bindings, q.name, user, groups)
  {
    hide Names, HasSubjects;
    projects := [];
    for i := 0 to |bindings|
      invariant forall q :: q in projects <==> q.cluster == cluster && GrantsIn(bindings[..i], q.name, user, groups)
    {
      assert bindings[..i + 1] == bindings[..i] + [bindings[i]];
      if bindings[i].Some? {
        var b := bindings[i].value;
        if RefersToKubeVirt(b) && b.namespace.Found? {
          var subjects := ToSubjects(b);
          if subjects.Some? {
            var project := Project(b.namespace.value, cluster);
            ghost var before := projects;
            for j := 0 to |subjects.value|
              invariant forall q :: q in projects <==>
                          q in before || (q == project && SomeBound(subjects.value[..j], user, groups))
            {
              assert subjects.value[..j + 1] == subjects.value[..j] + [subjects.value[j]];
              if IsBound(subjects.value[j], user, groups) {
                projects := projects + [project];
              }
            }
            assert subjects.value[..|subjects.value|] == subjects.value;
            assert Grants(b, user, groups) <==> SomeBound(subjects.value, user, groups);
          } else {
            NoNamesWithoutSubjects(b);
          }
        }
      }
    }
    assert bindings[..|bindings|] == bindings;
  }

  /** listProjects */
  method ListProjects(p: Permission, user: string, groups: seq<string>) returns (projects: seq<Project>)
    ensures forall q :: q in projects <==> Shows(p, user, groups, q)
  {
    hide Grants, GrantsIn;
    if p.clusterRoleBinding.Wrong? {
      return [];
    }
    if p.clusterRoleBinding.Found? {
      var all := CheckClusterRoleBinding(p.clusterRoleBinding.value, user, groups);
      if all {
        return [Project(ALL_PROJECTS, p.namespace)];
      }
    }
    if p.clusterRoleBindings.Wrong? {
      return [];
    }
    if p.clusterRoleBindings.Found? {
      var bindings := p.clusterRoleBindings.value;
      for i := 0 to |bindings|
        invariant forall k :: 0 <= k < i ==> !(bindings[k].Some? && Grants(bindings[k].value, user, groups))
      {
        if bindings[i].Some? {
          var all := CheckClusterRoleBinding(bindings[i].value, user, groups);
          if all {
            assert bindings[i] in bindings;
            return [Project(ALL_PROJECTS, p.namespace)];
          }
        }
      }
    }
    if p.roleBindings.Wrong? {
      return [];
    }
    if p.roleBindings.Absent? {
      return [];
    }
    projects := NamespaceProjects(p.namespace, p.roleBindings.value, user, groups);
  }

  /** What the scan shows, the index leads to. */
  lemma ShownIsMentioned(p: Permission, user: string, groups: seq<string>, project: Project)
    requires Shows(p, user, groups, project)
    ensures exists s :: Mentions(p, s) && IsBound(s, user, groups)
  {
  }

  // ------------------------------------------------------------------ the list

  type Store = map<(string, string), Permission>

  /** What the lister gets under a namespace and a name has them; the indexer holds only
      permissions that the index function accepts. */
  ghost predicate Stored(store: Store) {
    forall id :: id in store ==> store[id].namespace == id.0 && store[id].name == id.1 && Indexable(store[id])
  }

  predicate PlainNames(store: Store) {
    forall id :: id in store ==> '/' !in id.0 && '/' !in id.1
  }

  ghost predicate IsKey(store: Store, key: string) {
    exists id, s :: id in store && Mentions(store[id], s) && key == Key(id.0, id.1, s)
  }

  /** ListIndexFuncValues */
  method IndexValues(store: Store) returns (keys: set<string>)
    requires Stored(store)
    ensures forall k :: k in keys <==> IsKey(store, k)
  {
    hide Mentions, Indexable, Key;
    keys := {};
    var done, rest := {}, store.Keys;
    while rest != {}
      invariant done + rest == store.Keys
      invariant forall k :: k in keys <==>
                exists id, s :: id in done && Mentions(store[id], s) && k == Key(id.0, id.1, s)
      decreases rest
    {
      var id :| id in rest;
      var more := IndexBySubject(store[id]);
      keys := keys + more.value;
      done, rest := done + {id}, rest - {id};
    }
  }

  /** The scan of all permissions. */
  ghost predicate ShownBySome(store: Store, user: string, groups: seq<string>, q: Project) {
    exists id :: id in store && Shows(store[id], user, groups, q)
  }

  /** The key leads to the project. */
  ghost predicate LeadsTo(store: Store, key: string, user: string, groups: seq<string>, q: Project) {
    var parts := SplitN(key, 4);
    && |parts| == 4 && IsBound(SubjectRef(parts[2], parts[3]), user, groups)
    && (parts[0], parts[1]) in store && Shows(store[(parts[0], parts[1])], user, groups, q)
  }

  lemma KeysSplit(store: Store, key: string)
    requires Stored(store) && PlainNames(store) && IsKey(store, key)
    ensures var parts := SplitN(key, 4); |parts| == 4 && (parts[0], parts[1]) in store
  {
    hide Mentions, Indexable, Key, SplitN;
    var id, s :| id in store && Mentions(store[id], s) && key == Key(id.0, id.1, s);
    SplitOfKey(id.0, id.1, s);
  }

  /** The index misses nothing: whatever a permission shows the user, some key leads to. */
  lemma IndexMissesNothing(store: Store, user: string, groups: seq<string>, q: Project)
    requires Stored(store) && PlainNames(store) && ShownBySome(store, user, groups, q)
    ensures exists key :: IsKey(store, key) && LeadsTo(store, key, user, groups, q)
  {
    hide Mentions, Indexable, Key, SplitN, Shows;
    var id :| id in store && Shows(store[id], user, groups, q);
    ShownIsMentioned(store[id], user, groups, q);
    var s :| Mentions(store[id], s) && IsBound(s, user, groups);
    assert '/' !in s.kind by { assert '/' !in "Group" && '/' !in "User"; }
    SplitOfKey(id.0, id.1, s);
    assert IsKey(store, Key(id.0, id.1, s));
    assert LeadsTo(store, Key(id.0, id.1, s), user, groups, q);
  }

  /** Strings in lexical order. */
  predicate AtMost(a: string, b: string) {
    a == "" || (b != "" && (a[0] < b[0] || (a[0] == b[0] && AtMost(a[1..], b[1..]))))
  }

  /** The strings first differ at i, where a is smaller. */
  predicate SmallerAt(a: string, b: string, i: nat) {
    i < |a| && i < |b| && a[..i] == b[..i] && a[i] < b[i]
  }

  lemma SmallerFurtherOn(a: string, b: string, i: nat)
    requires a != "" && b != "" && a[0] == b[0]
    ensures SmallerAt(a[1..], b[1..], i) <==> SmallerAt(a, b, i + 1)
  {
    if i < |a[1..]| && i < |b[1..]| {
      assert a[..i + 1] == [a[0]] + a[1..][..i] && b[..i + 1] == [b[0]] + b[1..][..i];
      assert a[1..][..i] == a[..i + 1][1..] && b[1..][..i] == b[..i + 1][1..];
    }
  }

  /** A prefix, or smaller where the strings first differ. */
  lemma {:induction false} AtMostExactlyWhen(a: string, b: string)
    ensures AtMost(a, b) <==> a <= b || exists i :: SmallerAt(a, b, i)
  {
    if a != "" && b != "" && a[0] == b[0] {
      AtMostExactlyWhen(a[1..], b[1..]);
      assert a == [a[0]] + a[1..] && b == [b[0]] + b[1..];
      if i: nat :| SmallerAt(a[1..], b[1..], i) {
        SmallerFurtherOn(a, b, i);
      }
      if i: nat :| SmallerAt(a, b, i) {
        assert i > 0;
        SmallerFurtherOn(a, b, i - 1);
      }
    } else if a != "" && b != "" {
      assert a[0] < b[0] ==> SmallerAt(a, b, 0);
      assert forall i: nat :: SmallerAt(a, b, i) && i > 0 ==> a[0] == a[..i][0] == b[..i][0];
    }
  }

  lemma {:induction false} AtMostIsTotal(a: string, b: string)
    ensures AtMost(a, b) || AtMost(b, a)
  {
    if a != "" && b != "" && a[0] == b[0] {
      AtMostIsTotal(a[1..], b[1..]);
    }
  }

  lemma {:induction false} AtMostIsTransitive(a: string, b: string, c: string)
    requires AtMost(a, b) && AtMost(b, c)
    ensures AtMost(a, c)
  {
    if a != "" && a[0] == b[0] && b[0] == c[0] {
      AtMostIsTransitive(a[1..], b[1..], c[1..]);
    }
  }

  ghost predicate SortedByCluster(projects: seq<Project>) {
    forall i, j :: 0 <= i < j < |projects| ==> AtMost(projects[i].cluster, projects[j].cluster)
  }

  /** sort.Slice by cluster: the same projects, in order. */
  method SortByCluster(projects: seq<Project>) returns (sorted: seq<Project>)
    requires NoDup(projects)
    ensures SortedByCluster(sorted) && NoDup(sorted) && forall q :: q in sorted <==> q in projects
  {
    sorted := [];
    for i := 0 to |projects|
      invariant SortedByCluster(sorted) && NoDup(sorted) && forall q :: q in sorted <==> q in projects[..i]
    {
      assert projects[..i + 1] == projects[..i] + [projects[i]];
      assert projects[i] !in projects[..i];
      sorted := InsertByCluster(sorted, projects[i]);
    }
    assert projects[..|projects|] == projects;
  }

  method InsertByCluster(sorted: seq<Project>, q: Project) returns (more: seq<Project>)
    requires SortedByCluster(sorted) && NoDup(sorted) && q !in sorted
    ensures SortedByCluster(more) && NoDup(more) && forall x :: x in more <==> x in sorted || x == q
  {
    hide AtMost;
    var k := |sorted|;
    while k > 0 && !AtMost(sorted[k - 1].cluster, q.cluster)
      invariant 0 <= k <= |sorted|
      invariant forall j :: k <= j < |sorted| ==> AtMost(q.cluster, sorted[j].cluster)
    {
      AtMostIsTotal(sorted[k - 1].cluster, q.cluster);
      k := k - 1;
    }
    assert sorted == sorted[..k] + sorted[k..];
    Inserted(sorted[..k], sorted[k..], q);
    more := sorted[..k] + [q] + sorted[k..];
  }

  lemma SortedConcat(a: seq<Project>, b: seq<Project>)
    requires SortedByCluster(a) && SortedByCluster(b)
    requires forall x, y :: x in a && y in b ==> AtMost(x.cluster, y.cluster)
    ensures SortedByCluster(a + b)
  {
  }

  lemma Inserted(left: seq<Project>, right: seq<Project>, q: Project)
    requires SortedByCluster(left + right) && NoDup(left + right) && q !in left + right
    requires left != [] ==> AtMost(left[|left| - 1].cluster, q.cluster)
    requires forall y :: y in right ==> AtMost(q.cluster, y.cluster)
    ensures SortedByCluster(left + [q] + right) && NoDup(left + [q] + right)
  {
    var s := left + right;
    assert forall i :: 0 <= i < |left| ==> s[i] == left[i];
    assert forall i :: 0 <= i < |right| ==> s[|left| + i] == right[i];
    assert SortedByCluster(left) && SortedByCluster(right) && NoDup(left) && NoDup(right);
    forall x, y | x in left && y in right ensures AtMost(x.cluster, y.cluster) && x != y {
      var i :| 0 <= i < |left| && left[i] == x;
      var j :| 0 <= j < |right| && right[j] == y;
      assert s[i] == x && s[|left| + j] == y;
    }
    forall x | x in left ensures AtMost(x.cluster, q.cluster) {
      var i :| 0 <= i < |left| && left[i] == x;
      if i < |left| - 1 {
        AtMostIsTransitive(x.cluster, left[|left| - 1].cluster, q.cluster);
      }
    }
    hide SortedByCluster, NoDup, AtMost;
    NoDupSnoc(left, q);
    NoDupConcat(left + [q], right);
    SortedOne(q);
    SortedConcat(left, [q]);
    SortedConcat(left + [q], right);
  }

  lemma SortedOne(q: Project)
    ensures SortedByCluster([q])
  {
  }

  /** List: what the keys of bound subjects lead to, once each, sorted by cluster. With plain
      names this is what the scan shows. */
  method List(store: Store, user: string, groups: seq<string>) returns (result: Option<seq<Project>>)
    requires Stored(store)
    ensures result.Some? ==> forall q :: q in result.value ==> ShownBySome(store, user, groups, q)
    ensures result.Some? ==> NoDup(result.value) && SortedByCluster(result.value)
    ensures PlainNames(store) ==> result.Some? && forall q :: q in result.value <==> ShownBySome(store, user, groups, q)
  {
    hide Shows, SplitN, Stored, IsKey, SortedByCluster;
    var values := IndexValues(store);
    var keys := Listing(values);
    var found := {};
    for i := 0 to |keys|
      invariant forall q :: q in found <==> exists k :: k in keys[..i] && LeadsTo(store, k, user, groups, q)
    {
      assert keys[..i + 1] == keys[..i] + [keys[i]];
      assert keys[i] in keys;
      if PlainNames(store) { KeysSplit(store, keys[i]); }
      var parts := SplitN(keys[i], 4);
      if |parts| != 4 {
        return None;
      }
      ghost var before := found;
      if IsBound(SubjectRef(parts[2], parts[3]), user, groups) {
        if (parts[0], parts[1]) !in store {
          return None;
        }
        var projects := ListProjects(store[(parts[0], parts[1])], user, groups);
        found := found + set q | q in projects;
      }
      forall q ensures q in found <==> q in before || LeadsTo(store, keys[i], user, groups, q) {
      }
    }
    assert keys[..|keys|] == keys;
    var unsorted := Listing(found);
    var sorted := SortByCluster(unsorted);
    if PlainNames(store) {
      forall q | ShownBySome(store, user, groups, q) ensures q in found {
        IndexMissesNothing(store, user, groups, q);
      }
    }
    return Some(sorted);
  }
}
