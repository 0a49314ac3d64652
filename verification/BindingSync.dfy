/** The controller that keeps one admin and one view cluster role binding per managed cluster. */
module BindingSync {
  import opened Rbac
  import opened SetMapper
  import opened SubjectLists

  type Bindings = map<string, ClusterRoleBinding>

  const SET_LABEL := "cluster.open-cluster-management.io/clusterset"
  const ROLE_LABEL := "cluster.open-cluster-management.io/role"
  const GLOBAL_SET := "global"

  // ------------------------------------------------------------------ names

  function Prefix(role: string): string {
    "open-cluster-management:managedclusterset:" + role + ":managedcluster:"
  }

  /** GenerateClustersetClusterRoleBindingName */
  function BindingName(cluster: string, role: string): string {
    Prefix(role) + cluster
  }

  ghost function NamesOf(clusters: set<string>, role: string): set<string> {
    set c | c in clusters :: BindingName(c, role)
  }

  /** getClusterNameInClusterrolebinding: what follows the last colon. */
  function LastSegment(name: string): string {
    if name == "" || name[|name| - 1] == ':' then ""
    else LastSegment(name[..|name| - 1]) + [name[|name| - 1]]
  }

  /** Only what follows the prefix decides the last segment. */
  lemma {:induction false} LastSegmentAfter(p: string, cluster: string)
    requires |p| > 0 && p[|p| - 1] == ':'
    ensures LastSegment(p + cluster) == LastSegment(cluster)
  {
    var name := p + cluster;
    if cluster != "" {
      var n := |cluster| - 1;
      assert name[..|name| - 1] == p + cluster[..n];
      assert name[|name| - 1] == cluster[n];
      LastSegmentAfter(p, cluster[..n]);
    } else {
      assert name == p;
    }
  }

  /** The last segment is the whole name exactly for names without a colon. */
  lemma {:induction false} LastSegmentOfPlain(cluster: string)
    ensures LastSegment(cluster) == cluster <==> ':' !in cluster
    ensures |LastSegment(cluster)| <= |cluster|
  {
    if cluster != "" {
      var n := |cluster| - 1;
      assert cluster == cluster[..n] + [cluster[n]];
      LastSegmentOfPlain(cluster[..n]);
    }
  }

  lemma NamesAreInjective(c: string, c': string, role: string)
    ensures BindingName(c, role) == BindingName(c', role) <==> c == c'
    ensures Prefix(role) <= BindingName(c, role)
  {
    var p := Prefix(role);
    assert (p + c)[|p|..] == c && (p + c')[|p|..] == c';
  }

  /** No binding name of one role starts like those of the other. */
  lemma RolesAreApart(name: string)
    ensures !(Prefix("admin") <= name && Prefix("view") <= name)
  {
    var head := "open-cluster-management:managedclusterset:";
    assert Prefix("admin")[|head|] == 'a' && Prefix("view")[|head|] == 'v';
  }

  // ------------------------------------------------------------------ one binding

  /** generateRequiredClusterRoleBinding */
  function Required(cluster: string, subjects: seq<Subject>, clusterSet: string, role: string): ClusterRoleBinding {
    ClusterRoleBinding(BindingName(cluster, role), "", RequiredLabels(clusterSet, role),
      RoleRef(RBAC_GROUP, "ClusterRole", "open-cluster-management:" + role + ":" + cluster), subjects)
  }

  /** The global set leaves the set label alone. */
  function RequiredLabels(clusterSet: string, role: string): Labels {
    (if clusterSet != GLOBAL_SET then map[SET_LABEL := clusterSet] else map[]) + map[ROLE_LABEL := role]
  }

  lemma RequiredLabelsMerge(existing: Labels, clusterSet: string, role: string)
    ensures Consistent(RequiredLabels(clusterSet, role))
    ensures MergedMap(existing, RequiredLabels(clusterSet, role)) == existing + RequiredLabels(clusterSet, role)
  {
    var required := RequiredLabels(clusterSet, role);
    assert SET_LABEL[|SET_LABEL| - 1] == 't' && ROLE_LABEL[|ROLE_LABEL| - 1] == 'e';
    assert forall k :: k in required ==> !IsRemoval(k);
    assert Removed(required) == {};
    assert Added(required) == required;
  }

  /** What a binding must be like for a cluster: reference, subjects as a set, and labels. */
  predicate Serves(b: ClusterRoleBinding, required: ClusterRoleBinding) {
    && b.name == required.name && b.roleRef == required.roleRef
    && |b.subjects| == |required.subjects| && SetOf(b.subjects) == SetOf(required.subjects)
    && forall k :: k in required.labels ==> k in b.labels && b.labels[k] == required.labels[k]
  }

  /** The binding is missing, or differs in reference, subjects or merged labels. */
  predicate NeedsWrite(bindings: Bindings, required: ClusterRoleBinding) {
    required.name in bindings ==>
      var b := bindings[required.name];
      || b.roleRef != required.roleRef
      || !(|b.subjects| == |required.subjects| && SetOf(b.subjects) == SetOf(required.subjects))
      || MergedMap(b.labels, required.labels) != b.labels
  }

  function Updated(bindings: Bindings, required: ClusterRoleBinding): ClusterRoleBinding {
    if required.name in bindings then
      var b := bindings[required.name];
      b.(labels := MergedMap(b.labels, required.labels), subjects := required.subjects, roleRef := required.roleRef)
    else required
  }

  /** What is written serves, and nothing is written over what serves. */
  lemma WritesWhatServes(bindings: Bindings, required: ClusterRoleBinding, clusterSet: string, role: string)
    requires required.labels == RequiredLabels(clusterSet, role)
    requires required.name in bindings ==> bindings[required.name].name == required.name
    ensures Consistent(required.labels)
    ensures NeedsWrite(bindings, required) <==>
              !(required.name in bindings && Serves(bindings[required.name], required))
    ensures Serves(Updated(bindings, required), required)
  {
    hide MergedMap, Consistent, RequiredLabels;
    var existing := if required.name in bindings then bindings[required.name].labels else map[];
    RequiredLabelsMerge(existing, clusterSet, role);
    if forall k :: k in required.labels ==> k in existing && existing[k] == required.labels[k] {
      assert existing + required.labels == existing;
    }
    if existing + required.labels == existing {
      forall k | k in required.labels ensures k in existing && existing[k] == required.labels[k] {
        assert (existing + required.labels)[k] == required.labels[k];
      }
    }
  }

  /** The API server's cluster role bindings, as the lister shows them too, and how often
      they were written to. */
  class Server {
    var bindings: Bindings
    var writes: nat

    ghost predicate Valid()
      reads this
    {
      forall n :: n in bindings ==> bindings[n].name == n
    }

    /** ApplyClusterRoleBinding: creates, updates, or leaves alone. Labels that are both required
        and to be removed come out either way. */
    method Apply(required: ClusterRoleBinding)
      requires Valid()
      modifies this
      ensures Valid() && required.name in bindings
      ensures forall n :: n != required.name ==> SameAt(old(bindings), bindings, n)
      ensures required.name !in old(bindings) ==>
                bindings == old(bindings)[required.name := required] && writes == old(writes) + 1
      ensures required.name in old(bindings) ==>
                var b, b' := old(bindings)[required.name], bindings[required.name];
                && b'.roleRef == required.roleRef && MergedByKey(b.labels, required.labels, b'.labels)
                && |b'.subjects| == |required.subjects| && SetOf(b'.subjects) == SetOf(required.subjects)
                && writes <= old(writes) + 1 && (writes == old(writes) ==> b' == b)
      ensures Consistent(required.labels) && !NeedsWrite(old(bindings), required) ==>
                bindings == old(bindings) && writes == old(writes)
      ensures Consistent(required.labels) && NeedsWrite(old(bindings), required) ==>
                && bindings == old(bindings)[required.name := Updated(old(bindings), required)]
                && writes == old(writes) + 1
    {
      if required.name !in bindings {
        bindings := bindings[required.name := required];
        writes := writes + 1;
        return;
      }
      var existing := bindings[required.name];
      var labels, modified := MergeMap(existing.labels, required.labels);
      var subjectsAreSame := EqualSubjects(existing.subjects, required.subjects);
      if subjectsAreSame && existing.roleRef == required.roleRef && !modified {
        return;
      }
      bindings := bindings[required.name :=
        existing.(labels := labels, subjects := required.subjects, roleRef := required.roleRef)];
      writes := writes + 1;
    }

    method Delete(name: string)
      requires Valid() && name in bindings
      modifies this
      ensures Valid() && bindings == old(bindings) - {name} && writes == old(writes) + 1
    {
      bindings := bindings - {name};
      writes := writes + 1;
    }

    /** The apply loop of syncManagedClusterClusterroleBinding, over the clusters in any order
        and with any set that GetObjectClusterset may answer. */
    method ApplyAll(mapper: ClusterSetMapper, desired: SubjectMap, role: string)
      requires Valid() && mapper.Valid()
      modifies this
      ensures Valid()
      ensures forall d :: d in desired ==>
                && BindingName(d, role) in bindings
                && Served(old(bindings), bindings[BindingName(d, role)], mapper.members, d, desired[d], role)
      ensures forall n :: n !in NamesOf(desired.Keys, role) ==> SameAt(old(bindings), bindings, n)
      ensures AllSettled(old(bindings), mapper.members, desired, role) ==>
                bindings == old(bindings) && writes == old(writes)
    {
      hide Served, Required, BindingName, RequiredLabels, Serves, NeedsWrite, Updated, Consistent;
      var done, rest := {}, desired.Keys;
      while rest != {}
        invariant Valid() && done + rest == desired.Keys && done !! rest
        invariant forall d :: d in done ==>
                    && BindingName(d, role) in bindings
                    && Served(old(bindings), bindings[BindingName(d, role)], mapper.members, d, desired[d], role)
        invariant forall n :: n !in NamesOf(done, role) ==> SameAt(old(bindings), bindings, n)
        invariant AllSettled(old(bindings), mapper.members, desired, role) ==>
                  bindings == old(bindings) && writes == old(writes)
        decreases rest
      {
        var d :| d in rest;
        var clusterSet := mapper.GetObjectClusterset(d);
        AnswerIsPossible(mapper.members, d, clusterSet, desired[d], role);
        RequiredShape(d, desired[d], clusterSet, role);
        forall d' | d' in done ensures BindingName(d', role) != BindingName(d, role) { NamesAreInjective(d', d, role); }
        assert SameAt(old(bindings), bindings, BindingName(d, role));
        WritesWhatServes(bindings, Required(d, desired[d], clusterSet, role), clusterSet, role);
        Apply(Required(d, desired[d], clusterSet, role));
        ServedByAnswer(old(bindings), bindings[BindingName(d, role)], mapper.members, d, clusterSet, desired[d], role);
        assert NamesOf(done + {d}, role) == NamesOf(done, role) + {BindingName(d, role)};
        done, rest := done + {d}, rest - {d};
      }
      assert done == desired.Keys;
    }

    /** The delete loop: listed by role label, chosen by name. */
    method DeleteStale(desired: set<string>, role: string)
      requires Valid()
      modifies this
      ensures Valid()
      ensures forall n :: if n in old(bindings) && Stale(old(bindings)[n], role, desired) then n !in bindings
                          else SameAt(old(bindings), bindings, n)
      ensures (forall n :: n in old(bindings) ==> !Stale(old(bindings)[n], role, desired)) ==>
                bindings == old(bindings) && writes == old(writes)
    {
      hide LastSegment, Prefix;
      var listed := set n | n in bindings && RoleLabelled(bindings[n], role);
      var rest := listed;
      while rest != {}
        invariant Valid() && rest <= listed
        invariant forall n :: if n in listed - rest && Stale(old(bindings)[n], role, desired) then n !in bindings
                              else SameAt(old(bindings), bindings, n)
        invariant (forall n :: n in old(bindings) ==> !Stale(old(bindings)[n], role, desired)) ==>
                    bindings == old(bindings) && writes == old(writes)
        decreases rest
      {
        var n :| n in rest;
        rest := rest - {n};
        if Prefix(role) <= n {
          var cluster := LastSegment(n);
          if cluster != "" && cluster !in desired {
            Delete(n);
          }
        }
      }
    }
  }

  predicate SameAt(before: Bindings, after: Bindings, n: string) {
    (n in before <==> n in after) && (n in before ==> after[n] == before[n])
  }

  predicate RoleLabelled(b: ClusterRoleBinding, role: string) {
    ROLE_LABEL in b.labels && b.labels[ROLE_LABEL] == role
  }

  /** The name has the role's prefix and ends in a segment that is not a desired cluster. */
  predicate Doomed(name: string, role: string, desired: set<string>) {
    Prefix(role) <= name && LastSegment(name) != "" && LastSegment(name) !in desired
  }

  predicate Stale(b: ClusterRoleBinding, role: string, desired: set<string>) {
    RoleLabelled(b, role) && Doomed(b.name, role, desired)
  }

  /** What GetObjectClusterset may answer. */
  predicate Possible(members: Membership, cluster: string, clusterSet: string) {
    if clusterSet == "" then forall k :: k in members ==> cluster !in members[k]
    else Member(members, clusterSet, cluster)
  }

  /** The binding serves the cluster, for some set that holds it, and if the one before served
      for that set it is still the same. */
  ghost predicate Served(before: Bindings, b: ClusterRoleBinding, members: Membership, cluster: string,
                         subjects: seq<Subject>, role: string)
  {
    exists k :: Possible(members, cluster, k) && ServedFor(before, b, Required(cluster, subjects, k, role))
  }

  predicate ServedFor(before: Bindings, b: ClusterRoleBinding, required: ClusterRoleBinding) {
    && Serves(b, required)
    && (required.name in before && Serves(before[required.name], required) ==> b == before[required.name])
  }

  /** The binding serves the cluster, whichever set GetObjectClusterset answers. */
  ghost predicate Settled(b: ClusterRoleBinding, members: Membership, cluster: string, subjects: seq<Subject>,
                          role: string)
  {
    forall k :: Possible(members, cluster, k) ==> Serves(b, Required(cluster, subjects, k, role))
  }

  ghost predicate AllSettled(bindings: Bindings, members: Membership,
                             desired: SubjectMap, role: string)
  {
    forall d :: d in desired ==>
      && BindingName(d, role) in bindings
      && Settled(bindings[BindingName(d, role)], members, d, desired[d], role)
  }

  lemma AnswerIsPossible(members: Membership, cluster: string, clusterSet: string, subjects: seq<Subject>, role: string)
    requires Proper(members)
    requires clusterSet != "" ==> Member(members, clusterSet, cluster)
    requires clusterSet == "" ==> forall k :: !Member(members, k, cluster)
    ensures Possible(members, cluster, clusterSet)
  {
    if clusterSet == "" {
      forall k | k in members ensures cluster !in members[k] { assert !Member(members, k, cluster); }
    }
  }

  lemma RequiredShape(cluster: string, subjects: seq<Subject>, clusterSet: string, role: string)
    ensures var r := Required(cluster, subjects, clusterSet, role);
            r.name == BindingName(cluster, role) && r.labels == RequiredLabels(clusterSet, role)
  {
  }

  lemma ServedByAnswer(before: Bindings, b: ClusterRoleBinding, members: Membership, cluster: string,
                       clusterSet: string, subjects: seq<Subject>, role: string)
    requires Possible(members, cluster, clusterSet)
    requires ServedFor(before, b, Required(cluster, subjects, clusterSet, role))
    ensures Served(before, b, members, cluster, subjects, role)
  {
  }
}
