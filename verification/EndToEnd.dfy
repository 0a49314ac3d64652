/** The propagation as a whole: from labels and RBAC objects to the subjects of the bindings. */
module EndToEnd {
  import opened Rbac
  import opened SetMapper
  import opened SubjectLists
  import opened AuthCache
  import opened Propagation
  import opened BindingSync
  import opened BindingPass
  import opened MapperQueue

  /** The subject stands for someone whose record, after a synchronization, has the set, and is
      not filtered out. */
  ghost predicate MayUse(s: Inputs, level: Level, t: Target, before: Records, split: Split, clusterSet: string,
                         x: Subject)
  {
    && Kept(x)
    && exists h :: x == BuildSubject(split, h) && clusterSet in Recorded(s, level, t, before, h)
  }

  /** Some cluster role binding lists the set, and it exists, for someone the subject stands for,
      and the subject is not filtered out. */
  ghost predicate Granted(s: Inputs, level: Level, t: Target, split: Split, clusterSet: string, x: Subject) {
    && Kept(x)
    && exists h :: x == BuildSubject(split, h) && GrantedTo(s, level, t, h, clusterSet)
  }

  /** The set, or all sets. */
  ghost predicate Reaches(s: Inputs, level: Level, t: Target, before: Records, split: Split, clusterSet: string,
                          x: Subject)
  {
    MayUse(s, level, t, before, split, clusterSet, x) || MayUse(s, level, t, before, split, "*", x)
  }

  /** With nothing stale, records mean grants. */
  lemma MayUseMeansGranted(s: Inputs, level: Level, t: Target, before: Records, split: Split, clusterSet: string,
                           x: Subject)
    requires NothingStale(s, level, t, before)
    ensures MayUse(s, level, t, before, split, clusterSet, x) <==> Granted(s, level, t, split, clusterSet, x)
  {
    hide Recorded, GrantSet, GrantedTo, Kept;
    forall h ensures clusterSet in Recorded(s, level, t, before, h) <==> GrantedTo(s, level, t, h, clusterSet) {
      RecordedIsGranted(s, level, t, before, h);
      GrantSetMeans(s, level, t, h, clusterSet);
    }
  }

  lemma GrantSetMeans(s: Inputs, level: Level, t: Target, h: Holder, k: string)
    ensures k in GrantSet(s, level, t, h) <==> GrantedTo(s, level, t, h, k)
  {
  }

  ghost predicate InBinding(bindings: Bindings, cluster: string, role: string, x: Subject) {
    var n := BindingName(cluster, role);
    n in bindings && RoleLabelled(bindings[n], role) && x in bindings[n].subjects
  }

  /** What the caches, the inversion and the due subjects come to, for any mapper and whatever
      was recorded before. */
  lemma DueMeansRecorded(s: Inputs, level: Level, t: Target, split: Split, before: Records, records: Records,
                         subjects: SubjectMap, members: Membership, cluster: string, x: Subject)
    requires Synchronized(s, level, t, before, records) && SubjectsOfSets(subjects, records, split)
    ensures Due(members, subjects, cluster, x)
       <==> exists k :: cluster in ObjectsIn(members, k) && Reaches(s, level, t, before, split, k, x)
  {
    hide Synchronized, Recorded, Kept;
    RecordsAfter(s, level, t, before, records);
    forall k ensures Maps(subjects, k, x) <==> MayUse(s, level, t, before, split, k, x) {
      assert Maps(subjects, k, x) <==> HasSet(records, split, k, x);
    }
    hide SubjectsOfSets, MayUse, Maps;
  }

  /** After a pass, whoever is in a cluster's binding may use some set that holds it, and the
      other way round. */
  lemma BindingMeansRecorded(s: Inputs, level: Level, t: Target, split: Split, before: Records, records: Records,
                             subjects: SubjectMap, members: Membership,
                             bindings: Bindings, after: Bindings,
                             role: string, cluster: string, x: Subject)
    requires Synchronized(s, level, t, before, records) && SubjectsOfSets(subjects, records, split)
    requires Synced(bindings, after, members, subjects, role)
    requires forall n :: n in bindings ==> bindings[n].name == n
    requires cluster != "" && ':' !in cluster
    ensures InBinding(after, cluster, role, x)
       <==> exists k :: cluster in ObjectsIn(members, k) && Reaches(s, level, t, before, split, k, x)
  {
    hide Synchronized, MayUse, HasSet, Synced, Due, BindingName;
    DueMeansRecorded(s, level, t, split, before, records, subjects, members, cluster, x);
    PassConverges(bindings, after, members, subjects, role, cluster);
  }

  /** A reconcile of the bindings from a mapper at rest, after both caches were synchronized
      from one snapshot. */
  ghost predicate Reconciled(
    states: seq<State>, i: nat, s: Inputs, t: Target, split: Split,
    admins: Records, viewers: Records, admins': Records, viewers': Records,
    adminSubjects: SubjectMap, viewSubjects: SubjectMap, global: Membership,
    before: Bindings, middle: Bindings, after: Bindings)
  {
    && Run(states) && i < |states|
    && states[i].queue == {} && states[i].pending == [] && states[i].work.Idle?
    && Synchronized(s, AdminLevel, t, admins, admins') && Synchronized(s, ViewLevel, t, viewers, viewers')
    && SubjectsOfSets(adminSubjects, admins', split) && SubjectsOfSets(viewSubjects, viewers', split)
    && Proper(global) && Proper(states[i].mapper)
    && Synced(before, middle, states[i].mapper, adminSubjects, "admin")
    && Synced(middle, after, Union(states[i].mapper, global), viewSubjects, "view")
    && (forall n :: n in before ==> before[n].name == n) && (forall n :: n in middle ==> middle[n].name == n)
  }

  /** Once the queue is drained, the caches are synchronized and a reconcile is done: a subject
      is in a cluster's admin binding exactly if the cluster's label names a live set that its
      admin record reaches; and in its view binding exactly if its view record reaches that set
      or a global set that holds the cluster. */
  lemma LabelsDecideBindings(
      states: seq<State>, i: nat, s: Inputs, t: Target, split: Split,
      admins: Records, viewers: Records, admins': Records, viewers': Records,
      adminSubjects: SubjectMap, viewSubjects: SubjectMap, global: Membership,
      before: Bindings, middle: Bindings, after: Bindings,
      cluster: string, x: Subject)
    requires Reconciled(states, i, s, t, split, admins, viewers, admins', viewers', adminSubjects, viewSubjects, global,
                        before, middle, after)
    requires cluster != "" && ':' !in cluster
    ensures var k := LabelOf(states[i], cluster);
            InBinding(after, cluster, "admin", x) <==>
                Live(states[i], k) && Reaches(s, AdminLevel, t, admins, split, k, x)
    ensures var k := LabelOf(states[i], cluster);
            InBinding(after, cluster, "view", x) <==>
              || (Live(states[i], k) && Reaches(s, ViewLevel, t, viewers, split, k, x))
              || exists g :: cluster in ObjectsIn(global, g) && Reaches(s, ViewLevel, t, viewers, split, g, x)
  {
    hide Run, Synced, Synchronized, SubjectsOfSets, Reaches, BindingName, Union;
    var st := states[i];
    var u := Union(st.mapper, global);
    InExactlyItsSet(states, i, cluster);
    BindingMeansRecorded(s, AdminLevel, t, split, admins, admins', adminSubjects, st.mapper, before, middle, "admin",
                         cluster, x);
    PassesAreApart(middle, after, u, viewSubjects, cluster);
    BindingMeansRecorded(s, ViewLevel, t, split, viewers, viewers', viewSubjects, u, middle, after, "view", cluster, x);
    assert forall k :: ObjectsIn(u, k) == ObjectsIn(st.mapper, k) + ObjectsIn(global, k);
  }

  /** With nothing stale in either cache, labels and RBAC objects alone decide. */
  lemma GrantsDecideBindings(
      states: seq<State>, i: nat, s: Inputs, t: Target, split: Split,
      admins: Records, viewers: Records, admins': Records, viewers': Records,
      adminSubjects: SubjectMap, viewSubjects: SubjectMap, global: Membership,
      before: Bindings, middle: Bindings, after: Bindings,
      cluster: string, x: Subject)
    requires Reconciled(states, i, s, t, split, admins, viewers, admins', viewers', adminSubjects, viewSubjects, global,
                        before, middle, after)
    requires NothingStale(s, AdminLevel, t, admins) && NothingStale(s, ViewLevel, t, viewers)
    requires "*" !in s.known
    requires cluster != "" && ':' !in cluster
    ensures var k := LabelOf(states[i], cluster);
            InBinding(after, cluster, "admin", x) <==> Live(states[i], k) && Granted(s, AdminLevel, t, split, k, x)
    ensures var k := LabelOf(states[i], cluster);
            InBinding(after, cluster, "view", x) <==>
              || (Live(states[i], k) && Granted(s, ViewLevel, t, split, k, x))
              || exists g :: cluster in ObjectsIn(global, g) && Granted(s, ViewLevel, t, split, g, x)
  {
    LabelsDecideBindings(states, i, s, t, split, admins, viewers, admins', viewers', adminSubjects, viewSubjects,
                         global, before, middle, after, cluster, x);
    hide Reconciled, NothingStale, MayUse, InBinding, GrantedTo, Kept;
    forall k ensures Reaches(s, AdminLevel, t, admins, split, k, x) <==> Granted(s, AdminLevel, t, split, k, x) {
      ReachesMeansGranted(s, AdminLevel, t, admins, split, k, x);
    }
    forall k ensures Reaches(s, ViewLevel, t, viewers, split, k, x) <==> Granted(s, ViewLevel, t, split, k, x) {
      ReachesMeansGranted(s, ViewLevel, t, viewers, split, k, x);
    }
  }

  lemma ReachesMeansGranted(s: Inputs, level: Level, t: Target, before: Records, split: Split, clusterSet: string,
                            x: Subject)
    requires NothingStale(s, level, t, before) && "*" !in s.known
    ensures Reaches(s, level, t, before, split, clusterSet, x) <==> Granted(s, level, t, split, clusterSet, x)
  {
    hide MayUse, NothingStale;
    MayUseMeansGranted(s, level, t, before, split, clusterSet, x);
    MayUseMeansGranted(s, level, t, before, split, "*", x);
  }

  /** The user or group is named by a subject of the cluster's binding. */
  ghost predicate NamedIn(bindings: Bindings, cluster: string, role: string, h: Holder) {
    exists x :: InBinding(bindings, cluster, role, x) && h in HoldersOfSubject(x, "")
  }

  /** The holder is an ordinary user or group, the set exists, and a single rule of a cluster role
      bound to the holder permits what the level takes on it. */
  ghost predicate Entitled(s: Inputs, level: Level, t: Target, split: Split, clusterSet: string, h: Holder) {
    && Ordinary(split, h) && clusterSet in s.known
    && exists n, rule :: BindsRule(s, level, t, n, h, rule)
                      && (rule.resourceNames == [] || clusterSet in rule.resourceNames)
  }

  /** Whom the granted subjects name. */
  lemma GrantedNames(s: Inputs, level: Level, t: Target, split: Split, clusterSet: string, h: Holder)
    requires SplitsAccounts(split)
    ensures (exists x :: Granted(s, level, t, split, clusterSet, x) && h in HoldersOfSubject(x, ""))
       <==> Entitled(s, level, t, split, clusterSet, h)
  {
    hide HoldersOfSubject, Ordinary, Kept, GrantedTo, BindsRule, SplitsAccounts, GrantSet, BuildSubject;
    GrantedExactlyWhen(s, level, t, h, clusterSet);
    GrantSetMeans(s, level, t, h, clusterSet);
    SubjectNamesItsHolder(split, h);
    KeptMeansOrdinary(split, h);
    if x :| Granted(s, level, t, split, clusterSet, x) && h in HoldersOfSubject(x, "") {
      var h' :| x == BuildSubject(split, h') && GrantedTo(s, level, t, h', clusterSet);
      SubjectNamesItsHolder(split, h');
    }
    if Ordinary(split, h) && GrantedTo(s, level, t, h, clusterSet) {
      assert Granted(s, level, t, split, clusterSet, BuildSubject(split, h));
    }
  }

  /** The whole way, from labels and policy rules to the people the bindings name: at rest and
      with nothing stale, a user or group is named in a cluster's admin binding exactly if it is
      entitled to administer the set of the cluster's label, and in its view binding exactly if
      it is entitled to view that set or a global set that holds the cluster. */
  lemma RulesDecideWhoIsNamed(
      states: seq<State>, i: nat, s: Inputs, t: Target, split: Split,
      admins: Records, viewers: Records, admins': Records, viewers': Records,
      adminSubjects: SubjectMap, viewSubjects: SubjectMap, global: Membership,
      before: Bindings, middle: Bindings, after: Bindings,
      cluster: string, h: Holder)
    requires Reconciled(states, i, s, t, split, admins, viewers, admins', viewers', adminSubjects, viewSubjects, global,
                        before, middle, after)
    requires NothingStale(s, AdminLevel, t, admins) && NothingStale(s, ViewLevel, t, viewers)
    requires "*" !in s.known && SplitsAccounts(split)
    requires cluster != "" && ':' !in cluster
    ensures var k := LabelOf(states[i], cluster);
            NamedIn(after, cluster, "admin", h) <==> Live(states[i], k) && Entitled(s, AdminLevel, t, split, k, h)
    ensures var k := LabelOf(states[i], cluster);
            NamedIn(after, cluster, "view", h) <==>
              || (Live(states[i], k) && Entitled(s, ViewLevel, t, split, k, h))
              || exists g :: cluster in ObjectsIn(global, g) && Entitled(s, ViewLevel, t, split, g, h)
  {
    hide Reconciled, NothingStale, InBinding, Granted, Entitled, HoldersOfSubject, SplitsAccounts, Live, LabelOf;
    forall x {
      GrantsDecideBindings(states, i, s, t, split, admins, viewers, admins', viewers', adminSubjects, viewSubjects,
                           global, before, middle, after, cluster, x);
    }
    forall level, k { GrantedNames(s, level, t, split, k, h); }
  }

  /** At rest, the mapper has a cluster under the set of its label, if that is live, and under
      no other. */
  lemma InExactlyItsSet(states: seq<State>, i: nat, cluster: string)
    requires Run(states) && i < |states|
    requires states[i].queue == {} && states[i].pending == [] && states[i].work.Idle?
    ensures forall k :: cluster in ObjectsIn(states[i].mapper, k) <==>
              k == LabelOf(states[i], cluster) && Live(states[i], k)
  {
    hide Run;
    var s := states[i];
    QuietIsExact(states, i);
    RunKeepsInv(states, i);
    hide WorkOk;
    forall k ensures cluster in Wanted(s, k) <==> k == LabelOf(s, cluster) && Live(s, k) {
    }
  }
}
