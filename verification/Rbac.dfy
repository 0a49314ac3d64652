/** The Kubernetes objects that several components share. */
module Rbac {

  datatype Option<+T> = None | Some(value: T)

  datatype Subject = Subject(kind: string, apiGroup: string, name: string, namespace: string)

  datatype PolicyRule = PolicyRule(
    verbs: seq<string>, apiGroups: seq<string>, resources: seq<string>, resourceNames: seq<string>)

  datatype RoleRef = RoleRef(apiGroup: string, kind: string, name: string)

  datatype ClusterRole = ClusterRole(name: string, version: string, labels: map<string, string>, rules: seq<PolicyRule>)
  datatype Role = Role(namespace: string, name: string, version: string, rules: seq<PolicyRule>)

  datatype ClusterRoleBinding = ClusterRoleBinding(
    name: string, version: string, labels: map<string, string>, roleRef: RoleRef, subjects: seq<Subject>)
  datatype RoleBinding = RoleBinding(
    namespace: string, name: string, version: string, roleRef: RoleRef, subjects: seq<Subject>)

  const RBAC_GROUP := "rbac.authorization.k8s.io"
  const SERVICE_ACCOUNT_PREFIX := "system:serviceaccount:"

  /** A user or a group; service accounts act as users. */
  datatype Holder = User(name: string) | Group(name: string)

  /** RBACSubjectsToUsersAndGroups on one subject. */
  function HoldersOfSubject(s: Subject, defaultNamespace: string): set<Holder> {
    if s.apiGroup == RBAC_GROUP && s.kind == "Group" then {Group(s.name)}
    else if s.apiGroup == RBAC_GROUP && s.kind == "User" then {User(s.name)}
    else if s.apiGroup == "" && s.kind == "ServiceAccount" then
      var ns := if |s.namespace| > 0 then s.namespace else defaultNamespace;
      if |ns| > 0 then {User(SERVICE_ACCOUNT_PREFIX + ns + ":" + s.name)} else {}
    else {}
  }

  /** RBACSubjectsToUsersAndGroups: everyone a subject list names. */
  function HoldersOf(subjects: seq<Subject>, defaultNamespace: string): set<Holder> {
    set s, h | s in subjects && h in HoldersOfSubject(s, defaultNamespace) :: h
  }

  /** Whom a subject names, field by field: a service account acts as the user with its full
      name, in its own namespace or, without one, in the default namespace if there is one. */
  lemma SubjectNamesExactlyWhen(s: Subject, defaultNamespace: string, h: Holder)
    ensures h in HoldersOfSubject(s, defaultNamespace) <==>
              || (s.(namespace := "") == Subject("Group", "rbac.authorization.k8s.io", h.name, "") && h.Group?)
              || (s.(namespace := "") == Subject("User", "rbac.authorization.k8s.io", h.name, "") && h.User?)
              || (exists ns :: ns != "" && s.(namespace := "") == Subject("ServiceAccount", "", s.name, "")
                    && h == User("system:serviceaccount:" + ns + ":" + s.name)
                    && (s.namespace == ns || (s.namespace == "" && ns == defaultNamespace)))
  {
    if s.kind == "ServiceAccount" && s.apiGroup == "" {
      var ns := if s.namespace != "" then s.namespace else defaultNamespace;
      assert |"ServiceAccount"| != |"User"| && |"ServiceAccount"| != |"Group"|;
      if h in HoldersOfSubject(s, defaultNamespace) {
        assert ns != "" && h == User("system:serviceaccount:" + ns + ":" + s.name);
      }
    }
  }

  // ------------------------------------------------------------------ what a policy rule permits

  /** The list has the entry, or the wildcard. */
  predicate Allows(list: seq<string>, wanted: string) {
    wanted in list || "*" in list
  }

  /** How RBAC reads a rule; the matchers of the source are compared with it. */
  predicate Permits(rule: PolicyRule, verb: string, group: string, resource: string) {
    Allows(rule.verbs, verb) && Allows(rule.apiGroups, group) && Allows(rule.resources, resource)
  }

  /** Everyone whose grants a request of this user carries. */
  function Asking(user: string, groups: seq<string>): set<Holder> {
    {User(user)} + set g | g in groups :: Group(g)
  }

  predicate NoDup<T(==)>(s: seq<T>) {
    forall i, j :: 0 <= i < j < |s| ==> s[i] != s[j]
  }

  lemma NoDupConcat<T>(a: seq<T>, b: seq<T>)
    requires NoDup(a) && NoDup(b) && forall x :: x in a ==> x !in b
    ensures NoDup(a + b)
  {
    var s := a + b;
    forall i, j | 0 <= i < j < |s| ensures s[i] != s[j] {
      if i < |a| <= j {
        assert s[i] in a && s[j] in b;
      }
    }
  }

  lemma NoDupSnoc<T>(s: seq<T>, x: T)
    ensures NoDup(s + [x]) <==> NoDup(s) && x !in s
  {
    var t := s + [x];
    assert forall k :: 0 <= k < |s| ==> t[k] == s[k];
    if NoDup(t) {
      assert forall k :: 0 <= k < |s| ==> t[k] != t[|s|];
    }
  }

  /** A listing of a set or of map keys: every order is possible. */
  method Listing<T>(s: set<T>) returns (l: seq<T>)
    ensures NoDup(l) && forall x :: x in l <==> x in s
  {
    l := [];
    var rest := s;
    while rest != {}
      invariant rest <= s && NoDup(l)
      invariant forall x :: x in l <==> x in s - rest
      decreases rest
    {
      var x :| x in rest;
      assert x !in l;
      l := l + [x];
      rest := rest - {x};
    }
  }
}
