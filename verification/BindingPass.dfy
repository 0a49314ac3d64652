/** One pass of the binding controller, what it leaves behind, and when passes come to rest. */
module BindingPass {
  import opened Rbac
  import opened SetMapper
  import opened SubjectLists
  import opened AuthCache
  import opened Propagation
  import opened BindingSync

  /** The clusters that get a binding. */
  ghost function Desired(members: Membership, subjects: SubjectMap): (d: set<string>)
    ensures forall c :: c in d <==> Reached(members, subjects, c)
  {
    set k, c | k in members && c in members[k] && Reached(members, subjects, c) :: c
  }

  /** The binding has the cluster's name and role and exactly the subjects due on it. */
  ghost predicate Exact(b: ClusterRoleBinding, members: Membership, subjects: SubjectMap, cluster: string,
                        role: string)
  {
    && b.name == BindingName(cluster, role)
    && b.roleRef == RoleRef(RBAC_GROUP, "ClusterRole", "open-cluster-management:" + role + ":" + cluster)
    && RoleLabelled(b, role)
    && (forall s :: s in b.subjects <==> Due(members, subjects, cluster, s))
    && (AllNoDup(subjects) ==> NoDup(b.subjects))
  }

  predicate SetLabelled(b: ClusterRoleBinding, clusterSet: string) {
    clusterSet == GLOBAL_SET || (SET_LABEL in b.labels && b.labels[SET_LABEL] == clusterSet)
  }

  /** What one pass does to every binding there is. */
  ghost predicate Synced(before: Bindings, after: Bindings,
                         members: Membership, subjects: SubjectMap, role: string)
  {
    var desired := Desired(members, subjects);
    && (forall c :: c in desired ==>
          if Doomed(BindingName(c, role), role, desired) then BindingName(c, role) !in after
          else BindingName(c, role) in after && Right(after[BindingName(c, role)], members, subjects, c, role))
    && (AllNoDup(subjects) ==> forall c :: c in desired && !Doomed(BindingName(c, role), role, desired) ==>
          UnchangedIfRight(before, after[BindingName(c, role)], members, subjects, c, role))
    && (forall n :: n !in NamesOf(desired, role) ==>
          if n in before && Stale(before[n], role, desired) then n !in after else SameAt(before, after, n))
  }

  /** For some set that holds the cluster, the binding has the set's label, and it is the one
      before if that was exact and had the label. */
  ghost predicate UnchangedIfRight(before: Bindings, b: ClusterRoleBinding, members: Membership,
                       subjects: SubjectMap, cluster: string, role: string)
  {
    var n := BindingName(cluster, role);
    exists k :: Possible(members, cluster, k) && SetLabelled(b, k)
      && (n in before && Exact(before[n], members, subjects, cluster, role) && SetLabelled(before[n], k) ==>
          b == before[n])
  }

  ghost predicate Right(b: ClusterRoleBinding, members: Membership, subjects: SubjectMap, cluster: string,
                        role: string)
  {
    && Exact(b, members, subjects, cluster, role)
    && exists k :: Possible(members, cluster, k) && SetLabelled(b, k)
  }

  /** Nothing to create, update or delete, whichever set each cluster is looked up in. */
  ghost predicate Quiet(bindings: Bindings, members: Membership,
                        subjects: SubjectMap, role: string)
  {
    var desired := Desired(members, subjects);
    && (forall c :: c in desired ==>
        BindingName(c, role) in bindings && AtRest(bindings[BindingName(c, role)], members, subjects, c, role))
    && (forall n :: n in bindings ==> !Stale(bindings[n], role, desired))
  }

  ghost predicate AtRest(b: ClusterRoleBinding, members: Membership, subjects: SubjectMap, cluster: string,
                         role: string)
  {
    && Exact(b, members, subjects, cluster, role)
    && forall k :: Possible(members, cluster, k) ==> SetLabelled(b, k)
  }

  lemma ServesMeans(b: ClusterRoleBinding, members: Membership, subjects: SubjectMap, cluster: string,
                    list: seq<Subject>, clusterSet: string, role: string)
    requires forall s :: s in list <==> Due(members, subjects, cluster, s)
    requires AllNoDup(subjects) ==> NoDup(list)
    ensures Serves(b, Required(cluster, list, clusterSet, role)) ==>
              Exact(b, members, subjects, cluster, role) && SetLabelled(b, clusterSet)
    ensures AllNoDup(subjects) && Exact(b, members, subjects, cluster, role) && SetLabelled(b, clusterSet) ==>
              Serves(b, Required(cluster, list, clusterSet, role))
  {
    hide Due, NoDup, AllNoDup, BindingName;
    assert SET_LABEL[|SET_LABEL| - 1] == 't' && ROLE_LABEL[|ROLE_LABEL| - 1] == 'e';
    NoDupCounts(list);
    NoDupCounts(b.subjects);
    var required := Required(cluster, list, clusterSet, role).labels;
    assert ROLE_LABEL in required && required[ROLE_LABEL] == role;
    assert clusterSet != GLOBAL_SET ==> SET_LABEL in required && required[SET_LABEL] == clusterSet;
    if SetOf(b.subjects) == SetOf(list) {
      forall s ensures s in b.subjects <==> Due(members, subjects, cluster, s) {
        assert s in SetOf(b.subjects) <==> s in SetOf(list);
      }
    }
    if forall s :: s in b.subjects <==> Due(members, subjects, cluster, s) {
      assert SetOf(b.subjects) == SetOf(list);
    }
  }

  lemma ServedIsRight(before: Bindings, b: ClusterRoleBinding, members: Membership,
                      subjects: SubjectMap, cluster: string, list: seq<Subject>, role: string)
    requires forall s :: s in list <==> Due(members, subjects, cluster, s)
    requires AllNoDup(subjects) ==> NoDup(list)
    requires Served(before, b, members, cluster, list, role)
    ensures Right(b, members, subjects, cluster, role)
    ensures AllNoDup(subjects) ==> UnchangedIfRight(before, b, members, subjects, cluster, role)
  {
    hide Due, NoDup, AllNoDup, Serves, Exact, SetLabelled, Required;
    var k :| Possible(members, cluster, k) && ServedFor(before, b, Required(cluster, list, k, role));
    RequiredShape(cluster, list, k, role);
    ServesMeans(b, members, subjects, cluster, list, k, role);
    var n := BindingName(cluster, role);
    if n in before {
      ServesMeans(before[n], members, subjects, cluster, list, k, role);
    }
  }

  lemma AtRestIsSettled(b: ClusterRoleBinding, members: Membership, subjects: SubjectMap, cluster: string,
                        list: seq<Subject>, role: string)
    requires forall s :: s in list <==> Due(members, subjects, cluster, s)
    requires AllNoDup(subjects) && NoDup(list)
    requires AtRest(b, members, subjects, cluster, role)
    ensures Settled(b, members, cluster, list, role)
  {
    hide Due, NoDup, Serves, Required, Exact, SetLabelled;
    forall k | Possible(members, cluster, k) ensures Serves(b, Required(cluster, list, k, role)) {
      ServesMeans(b, members, subjects, cluster, list, k, role);
    }
  }

  /** syncManagedClusterClusterroleBinding */
  method SyncPass(server: Server, mapper: ClusterSetMapper, subjects: SubjectMap, role: string)
    requires server.Valid() && mapper.Valid()
    modifies server
    ensures server.Valid()
    ensures Synced(old(server.bindings), server.bindings, mapper.members, subjects, role)
    ensures AllNoDup(subjects) && Quiet(old(server.bindings), mapper.members, subjects, role) ==>
              server.bindings == old(server.bindings) && server.writes == old(server.writes)
  {
    hide Due, Reached, Served, Settled, Right, UnchangedIfRight, AtRest, AllNoDup, Stale, Doomed;
    var clusterToSubject := GenerateObjectSubjectMap(mapper.members, subjects);
    ghost var desired := Desired(mapper.members, subjects);
    assert clusterToSubject.Keys == desired;
    ghost var before := server.bindings;
    DueLists(mapper.members, subjects, clusterToSubject);
    if AllNoDup(subjects) && Quiet(before, mapper.members, subjects, role) {
      forall c | c in clusterToSubject
        ensures Settled(before[BindingName(c, role)], mapper.members, c, clusterToSubject[c], role)
      {
        AtRestIsSettled(before[BindingName(c, role)], mapper.members, subjects, c, clusterToSubject[c], role);
      }
      assert AllSettled(before, mapper.members, clusterToSubject, role);
    }
    server.ApplyAll(mapper, clusterToSubject, role);
    ghost var middle := server.bindings;
    forall c | c in desired
      ensures Right(middle[BindingName(c, role)], mapper.members, subjects, c, role)
      ensures AllNoDup(subjects) ==>
                UnchangedIfRight(before, middle[BindingName(c, role)], mapper.members, subjects, c, role)
    {
      ServedIsRight(before, middle[BindingName(c, role)], mapper.members, subjects, c, clusterToSubject[c], role);
    }
    server.DeleteStale(clusterToSubject.Keys, role);
    ApplyThenDelete(before, middle, server.bindings, mapper.members, subjects, role);
  }

  lemma DueLists(members: Membership, subjects: SubjectMap, lists: SubjectMap)
    requires forall o, s :: Maps(lists, o, s) <==> Due(members, subjects, o, s)
    requires AllNoDup(subjects) ==> AllNoDup(lists)
    ensures forall c :: c in lists ==> forall s :: s in lists[c] <==> Due(members, subjects, c, s)
    ensures AllNoDup(subjects) ==> forall c :: c in lists ==> NoDup(lists[c])
  {
  }

  lemma ApplyThenDelete(before: Bindings, middle: Bindings,
                        after: Bindings,
                        members: Membership, subjects: SubjectMap, role: string)
    requires forall c :: c in Desired(members, subjects) ==>
               BindingName(c, role) in middle && Right(middle[BindingName(c, role)], members, subjects, c, role)
    requires AllNoDup(subjects) ==> forall c :: c in Desired(members, subjects) ==>
               UnchangedIfRight(before, middle[BindingName(c, role)], members, subjects, c, role)
    requires forall n :: n !in NamesOf(Desired(members, subjects), role) ==> SameAt(before, middle, n)
    requires forall n ::
               if n in middle && Stale(middle[n], role, Desired(members, subjects)) then n !in after
               else SameAt(middle, after, n)
    ensures Synced(before, after, members, subjects, role)
  {
    hide Reached, Due, AllNoDup, NoDup, BindingName, Doomed, UnchangedIfRight;
    var desired := Desired(members, subjects);
    forall c | c in desired
      ensures if Doomed(BindingName(c, role), role, desired) then BindingName(c, role) !in after
              else BindingName(c, role) in after && Right(after[BindingName(c, role)], members, subjects, c, role)
    {
      var b := middle[BindingName(c, role)];
      assert b.name == BindingName(c, role) && RoleLabelled(b, role);
    }
  }

  // ------------------------------------------------------------------ convergence

  /** Whether the pass itself deletes the binding of a desired cluster is up to the last
      segment of the cluster's name. */
  lemma DoomedName(cluster: string, role: string, desired: set<string>)
    ensures Doomed(BindingName(cluster, role), role, desired) <==>
              LastSegment(cluster) != "" && LastSegment(cluster) !in desired
    ensures ':' !in cluster && cluster in desired ==> !Doomed(BindingName(cluster, role), role, desired)
  {
    hide LastSegment;
    NamesAreInjective(cluster, cluster, role);
    LastSegmentAfter(Prefix(role), cluster);
    LastSegmentOfPlain(cluster);
  }

  /** After one pass from any state, a cluster without a colon in its name has a role-labelled
      binding exactly if some subject is due on it, and then for exactly those subjects. */
  lemma PassConverges(before: Bindings, after: Bindings,
                      members: Membership, subjects: SubjectMap, role: string, cluster: string)
    requires Synced(before, after, members, subjects, role)
    requires forall n :: n in before ==> before[n].name == n
    requires forall k :: k in subjects ==> subjects[k] != []
    requires cluster != "" && ':' !in cluster
    ensures var n := BindingName(cluster, role);
            && (n in after && RoleLabelled(after[n], role) <==> exists s :: Due(members, subjects, cluster, s))
            && (n in after && RoleLabelled(after[n], role) ==> Exact(after[n], members, subjects, cluster, role))
  {
    hide Due, Reached, BindingName, LastSegment, AllNoDup;
    var desired := Desired(members, subjects);
    var n := BindingName(cluster, role);
    ReachedMeansDue(members, subjects, cluster);
    DoomedName(cluster, role, desired);
    LastSegmentOfPlain(cluster);
    if cluster !in desired {
      if c :| c in desired && BindingName(c, role) == n {
        NamesAreInjective(c, cluster, role);
      }
      assert n !in NamesOf(desired, role);
    }
  }

  /** A cluster whose name ends in a segment that is no desired cluster loses its binding in
      the very pass that applies it. */
  lemma ColonNameIsLost(before: Bindings, after: Bindings, s: Subject)
    requires Synced(before, after, map["set" := {"a:b"}], map["set" := [s]], "admin")
    ensures Due(map["set" := {"a:b"}], map["set" := [s]], "a:b", s)
    ensures BindingName("a:b", "admin") !in after
  {
    hide BindingName, Right, UnchangedIfRight, Exact;
    var members: Membership, subjects := map["set" := {"a:b"}], map["set" := [s]];
    assert "a:b" in ObjectsIn(members, "set") && Maps(subjects, "set", s);
    assert "set" != "*";
    var desired := Desired(members, subjects);
    assert "a:b" in desired;
    assert "b" !in desired by { assert |"b"| != |"a:b"|; }
    assert LastSegment("a:b") == "b" by { assert "a:b"[..2] == "a:"; }
    hide Due, Reached, LastSegment, Doomed, Desired;
    DoomedName("a:b", "admin", desired);
  }

  /** A pass leaves alone what it does not manage: bindings that do not carry the role's label, or
      are not called after it, unless their name is that of a desired cluster's binding. */
  lemma OtherBindingsStay(before: Bindings, after: Bindings, members: Membership, subjects: SubjectMap,
                          role: string, n: string)
    requires Synced(before, after, members, subjects, role) && n in before && before[n].name == n
    requires || ("cluster.open-cluster-management.io/role", role) !in before[n].labels.Items
             || !("open-cluster-management:managedclusterset:" + role + ":managedcluster:" <= n)
    requires forall c :: Reached(members, subjects, c) ==> n != BindingName(c, role)
    ensures SameAt(before, after, n)
  {
    hide Reached, BindingName, Right, UnchangedIfRight, LastSegment;
  }

  // ------------------------------------------------------------------ the next pass

  /** The pass after a pass writes nothing, whatever the sets' order, exactly if no desired
      cluster's own binding is deleted and each is labelled with every set, besides the
      global one, that holds the cluster. */
  lemma NextPassIsSilentExactlyWhen(before: Bindings, after: Bindings,
                                    members: Membership, subjects: SubjectMap, role: string)
    requires Synced(before, after, members, subjects, role) && AllNoDup(subjects) && Proper(members)
    ensures Quiet(after, members, subjects, role) <==>
              var desired := Desired(members, subjects);
              forall c :: c in desired ==>
                && !Doomed(BindingName(c, role), role, desired)
                && forall k :: Member(members, k, c) ==> SetLabelled(after[BindingName(c, role)], k)
  {
    hide Due, Reached, BindingName, AllNoDup, Exact, Desired, SetLabelled, Doomed, Right, AtRest, Stale;
    var desired := Desired(members, subjects);
    forall c | c in desired && BindingName(c, role) in after
        && Right(after[BindingName(c, role)], members, subjects, c, role)
      ensures AtRest(after[BindingName(c, role)], members, subjects, c, role) <==>
              forall k :: Member(members, k, c) ==> SetLabelled(after[BindingName(c, role)], k)
    {
      RestsOnItsLabels(after[BindingName(c, role)], members, subjects, c, role);
    }
    forall n | n in after && n in NamesOf(desired, role)
      ensures (forall c :: c in desired ==> !Doomed(BindingName(c, role), role, desired)) ==>
                !Stale(after[n], role, desired)
    {
      var c :| c in desired && n == BindingName(c, role);
      if !Doomed(n, role, desired) {
        NotDoomedNotStale(after[n], members, subjects, c, role);
      }
    }
    forall n | n in after && n !in NamesOf(desired, role) ensures !Stale(after[n], role, desired) {
      assert SameAt(before, after, n);
    }
  }

  lemma RestsOnItsLabels(b: ClusterRoleBinding, members: Membership, subjects: SubjectMap, cluster: string,
                         role: string)
    requires Proper(members) && Reached(members, subjects, cluster) && Right(b, members, subjects, cluster, role)
    ensures AtRest(b, members, subjects, cluster, role) <==>
              forall k :: Member(members, k, cluster) ==> SetLabelled(b, k)
  {
  }

  lemma NotDoomedNotStale(b: ClusterRoleBinding, members: Membership, subjects: SubjectMap, cluster: string,
                          role: string)
    requires Right(b, members, subjects, cluster, role)
    requires !Doomed(BindingName(cluster, role), role, Desired(members, subjects))
    ensures !Stale(b, role, Desired(members, subjects))
  {
  }

  ghost predicate OneSetEach(members: Membership) {
    forall c, k, k' :: Member(members, k, c) && Member(members, k', c) ==> k == k'
  }

  /** With no cluster in two sets and no colon in a cluster's name, that is always so. */
  lemma SecondPassIsSilent(before: Bindings, after: Bindings,
                           members: Membership, subjects: SubjectMap, role: string)
    requires Synced(before, after, members, subjects, role)
    requires Proper(members) && OneSetEach(members) && AllNoDup(subjects)
    requires forall k, c :: Member(members, k, c) ==> ':' !in c
    ensures Quiet(after, members, subjects, role)
  {
    hide Due, BindingName, AllNoDup, Exact, Desired, SetLabelled, Doomed;
    var desired := Desired(members, subjects);
    NextPassIsSilentExactlyWhen(before, after, members, subjects, role);
    forall c | c in desired ensures
      && !Doomed(BindingName(c, role), role, desired)
      && forall k :: Member(members, k, c) ==> SetLabelled(after[BindingName(c, role)], k)
    {
      assert Reached(members, subjects, c);
      var k :| c in ObjectsIn(members, k);
      assert Member(members, k, c);
      DoomedName(c, role, desired);
      assert Right(after[BindingName(c, role)], members, subjects, c, role);
    }
  }

  /** The cluster may be in the global set and in one other. */
  ghost predicate OneOwnSet(members: Membership, cluster: string) {
    forall k, k' :: OwnSet(members, k, cluster) && OwnSet(members, k', cluster) ==> k == k'
  }

  predicate OwnSet(members: Membership, clusterSet: string, cluster: string) {
    Member(members, clusterSet, cluster) && clusterSet != GLOBAL_SET
  }

  /** A binding can satisfy every answer about the cluster's set exactly if the cluster is in
      at most one set besides the global one. */
  lemma LabelsCanRest(members: Membership, cluster: string, b: ClusterRoleBinding)
    requires Proper(members)
    ensures (exists labels :: forall k :: Possible(members, cluster, k) ==> SetLabelled(b.(labels := labels), k))
       <==> OneOwnSet(members, cluster)
  {
    if OneOwnSet(members, cluster) {
      var setName := if k :| OwnSet(members, k, cluster) then k else "";
      var labels := map[SET_LABEL := setName];
      forall k | Possible(members, cluster, k) ensures SetLabelled(b.(labels := labels), k) {
        assert k == "" || k == GLOBAL_SET || OwnSet(members, k, cluster);
      }
    }
    if labels :| forall k :: Possible(members, cluster, k) ==> SetLabelled(b.(labels := labels), k) {
      forall k, k' | OwnSet(members, k, cluster) && OwnSet(members, k', cluster) ensures k == k' {
        assert Possible(members, cluster, k) && Possible(members, cluster, k');
      }
    }
  }

  // ------------------------------------------------------------------ both passes

  /** reconcile: the admin pass, then the view pass over the union with the global mapper. */
  method Reconcile(server: Server, mapper: ClusterSetMapper, global: ClusterSetMapper, admins: Records,
                   viewers: Records, split: Split)
    returns (ghost adminSubjects: SubjectMap, ghost viewSubjects: SubjectMap,
             ghost middle: Bindings)
    requires server.Valid() && mapper.Valid() && global.Valid()
    modifies server
    ensures server.Valid() && forall n :: n in middle ==> middle[n].name == n
    ensures SubjectsOfSets(adminSubjects, admins, split) && SubjectsOfSets(viewSubjects, viewers, split)
    ensures Synced(old(server.bindings), middle, mapper.members, adminSubjects, "admin")
    ensures Synced(middle, server.bindings, Union(mapper.members, global.members), viewSubjects, "view")
  {
    hide Synced, Union, SubjectsOfSets, Quiet;
    var toAdmins := GenerateClustersetSubjects(admins, split);
    var toViewers := GenerateClustersetSubjects(viewers, split);
    SyncPass(server, mapper, toAdmins, "admin");
    middle := server.bindings;
    var union := mapper.UnionObjectsInClusterSet(global);
    SyncPass(server, union, toViewers, "view");
    adminSubjects, viewSubjects := toAdmins, toViewers;
  }

  /** The view pass does not touch what the admin pass manages. */
  lemma PassesAreApart(middle: Bindings, after: Bindings,
                       members: Membership, subjects: SubjectMap, cluster: string)
    requires Synced(middle, after, members, subjects, "view")
    requires forall n :: n in middle ==> middle[n].name == n
    ensures SameAt(middle, after, BindingName(cluster, "admin"))
  {
    hide Prefix, BindingName, Desired;
    var n := BindingName(cluster, "admin");
    NamesAreInjective(cluster, cluster, "admin");
    RolesAreApart(n);
    var desired := Desired(members, subjects);
    if c :| c in desired && BindingName(c, "view") == n {
      NamesAreInjective(c, c, "view");
    }
    assert n !in NamesOf(desired, "view");
  }

  /** After a reconcile with both caches synchronized from one snapshot, and what stays stale
      viewed, whoever is in a cluster's admin binding is in its view binding as well. */
  lemma AdminBindingImpliesViewBinding(
      s: Inputs, t: Target, split: Split, admins: Records, viewers: Records, admins': Records, viewers': Records,
      adminSubjects: SubjectMap, viewSubjects: SubjectMap, members: Membership, global: Membership,
      before: Bindings, middle: Bindings, after: Bindings,
      cluster: string, subject: Subject)
    requires Synchronized(s, AdminLevel, t, admins, admins') && Synchronized(s, ViewLevel, t, viewers, viewers')
    requires StaleIsViewed(s, t, admins, viewers)
    requires SubjectsOfSets(adminSubjects, admins', split) && SubjectsOfSets(viewSubjects, viewers', split)
    requires Proper(members) && Proper(global)
    requires forall n :: n in before ==> before[n].name == n
    requires forall n :: n in middle ==> middle[n].name == n
    requires Synced(before, middle, members, adminSubjects, "admin")
    requires Synced(middle, after, Union(members, global), viewSubjects, "view")
    requires cluster != "" && ':' !in cluster
    requires var n := BindingName(cluster, "admin");
             n in after && RoleLabelled(after[n], "admin") && subject in after[n].subjects
    ensures var n := BindingName(cluster, "view");
            n in after && RoleLabelled(after[n], "view") && subject in after[n].subjects
  {
    hide Synced, Synchronized, StaleIsViewed, HasSet, Union, NoDup, Due, BindingName;
    PassesAreApart(middle, after, Union(members, global), viewSubjects, cluster);
    PassConverges(before, middle, members, adminSubjects, "admin", cluster);
    AdminImpliesView(s, t, split, admins, viewers, admins', viewers', adminSubjects, viewSubjects,
                     members, global, cluster, subject);
    PassConverges(middle, after, Union(members, global), viewSubjects, "view", cluster);
  }
}
