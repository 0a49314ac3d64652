/** From the records of who may do what with which cluster set to the subjects due on each
    cluster. */
module Propagation {
  import opened Rbac
  import opened SetMapper
  import opened SubjectLists
  import opened AuthCache

  const IGNORED_GROUPS := {"system:cluster-admins", "system:masters", "system:cluster-readers"}
  const IGNORED_USERS := {"system:admin", "system:kube-controller-manager"}

  /** Splits a service account's user name into namespace and name; None for other users. */
  type Split = string -> Option<(string, string)>

  /** BuildRBACSubjects on one user or group. */
  function BuildSubject(split: Split, h: Holder): Subject {
    match h
    case User(name) =>
      if split(name).Some? then Subject("ServiceAccount", "", split(name).value.1, split(name).value.0)
      else Subject("User", RBAC_GROUP, name, "")
    case Group(name) => Subject("Group", RBAC_GROUP, name, "")
  }

  predicate Kept(s: Subject) {
    if s.kind == "Group" then s.name !in IGNORED_GROUPS
    else if s.kind == "User" then s.name !in IGNORED_USERS
    else s.kind != "ServiceAccount"
  }

  /** Only a service account's user name is split, and at the ends of its namespace. */
  ghost predicate SplitsAccounts(split: Split) {
    forall n :: split(n).Some? ==>
      split(n).value.0 != "" && n == "system:serviceaccount:" + split(n).value.0 + ":" + split(n).value.1
  }

  /** The subject that is built names the holder it is built for, and nobody else. */
  lemma SubjectNamesItsHolder(split: Split, h: Holder)
    requires SplitsAccounts(split)
    ensures HoldersOfSubject(BuildSubject(split, h), "") == {h}
  {
    assert |"User"| != |"Group"| && |"ServiceAccount"| != |"Group"|;
  }

  /** Neither a service account nor one of the system's own users and groups. */
  predicate Ordinary(split: Split, h: Holder) {
    match h
    case User(name) => split(name).None? && name != "system:admin" && name != "system:kube-controller-manager"
    case Group(name) => name !in {"system:cluster-admins", "system:masters", "system:cluster-readers"}
  }

  lemma KeptMeansOrdinary(split: Split, h: Holder)
    ensures Kept(BuildSubject(split, h)) <==> Ordinary(split, h)
  {
    assert |"User"| != |"Group"| && |"ServiceAccount"| != |"Group"| && |"ServiceAccount"| != |"User"|;
  }

  /** filterSubjects: drops system users, system groups and service accounts. */
  method FilterSubjects(subjects: seq<Subject>) returns (output: seq<Subject>)
    ensures forall s :: s in output <==> s in subjects && Kept(s)
    ensures (forall i, j :: 0 <= i < j < |subjects| && Kept(subjects[i]) ==> subjects[i] != subjects[j]) ==>
              NoDup(output)
  {
    output := [];
    ghost var distinct := forall i, j :: 0 <= i < j < |subjects| && Kept(subjects[i]) ==> subjects[i] != subjects[j];
    for i := 0 to |subjects|
      invariant forall s :: s in output <==> exists k :: 0 <= k < i && subjects[k] == s && Kept(s)
      invariant distinct ==> NoDup(output)
    {
      if Kept(subjects[i]) {
        NoDupSnoc(output, subjects[i]);
        output := output + [subjects[i]];
      }
    }
  }

  /** The subject stands for someone with a record for the set, and is not filtered out. */
  ghost predicate HasSet(records: Records, split: Split, clusterSet: string, s: Subject) {
    Kept(s) && exists h :: clusterSet in NamesAt(records, h) && s == BuildSubject(split, h)
  }

  /** Whom the subjects of a set name: the ordinary users and groups with a record for it. */
  lemma SetNamesExactlyWhen(records: Records, split: Split, clusterSet: string, h: Holder)
    requires SplitsAccounts(split)
    ensures (exists x :: HasSet(records, split, clusterSet, x) && h in HoldersOfSubject(x, ""))
       <==> Ordinary(split, h) && clusterSet in NamesAt(records, h)
  {
    hide HoldersOfSubject, Ordinary, NamesAt, Kept, SplitsAccounts;
    if x :| HasSet(records, split, clusterSet, x) && h in HoldersOfSubject(x, "") {
      var h' :| clusterSet in NamesAt(records, h') && x == BuildSubject(split, h');
      SubjectNamesItsHolder(split, h');
      KeptMeansOrdinary(split, h);
    }
    if Ordinary(split, h) && clusterSet in NamesAt(records, h) {
      SubjectNamesItsHolder(split, h);
      KeptMeansOrdinary(split, h);
      assert HasSet(records, split, clusterSet, BuildSubject(split, h));
    }
  }

  /** Under each set, once each, exactly the holders whose record has the set. */
  ghost predicate Inverted(bySet: map<string, seq<Holder>>, records: Records, holders: seq<Holder>) {
    && (forall k :: k in bySet ==> bySet[k] != [])
    && (forall k :: NoDup(HoldersAt(bySet, k)))
    && (forall k, h :: h in HoldersAt(bySet, k) <==> h in holders && k in NamesAt(records, h))
  }

  /** clustersetToUsers, or clustersetToGroups: the records of some holders, inverted. */
  method Invert(records: Records, holders: seq<Holder>) returns (bySet: map<string, seq<Holder>>)
    requires NoDup(holders)
    ensures Inverted(bySet, records, holders)
  {
    hide Inverted;
    bySet := map[];
    NothingInverted(records);
    for i := 0 to |holders|
      invariant Inverted(bySet, records, holders[..i])
    {
      ghost var before := bySet;
      assert forall k :: k in before ==> before[k] != [] by { NonEmptyLists(before, records, holders[..i]); }
      bySet := AppendUnder(bySet, NamesAt(records, holders[i]), holders[i]);
      OneMoreInverted(before, bySet, records, holders, i);
    }
    assert holders[..|holders|] == holders;
  }

  lemma NonEmptyLists(bySet: map<string, seq<Holder>>, records: Records, holders: seq<Holder>)
    requires Inverted(bySet, records, holders)
    ensures forall k :: k in bySet ==> bySet[k] != []
    ensures forall k :: NoDup(HoldersAt(bySet, k))
    ensures forall k, h :: h in HoldersAt(bySet, k) ==> h in holders && k in bySet
  {
  }

  lemma NothingInverted(records: Records)
    ensures Inverted(map[], records, [])
  {
  }

  lemma OneMoreInverted(before: map<string, seq<Holder>>, after: map<string, seq<Holder>>, records: Records,
                        holders: seq<Holder>, i: nat)
    requires i < |holders| && NoDup(holders) && Inverted(before, records, holders[..i])
    requires forall k :: HoldersAt(after, k) ==
               HoldersAt(before, k) + if k in NamesAt(records, holders[i]) then [holders[i]] else []
    requires forall k :: k in after ==> after[k] != []
    ensures Inverted(after, records, holders[..i + 1])
  {
    hide NamesAt;
    var h := holders[i];
    assert holders[..i + 1] == holders[..i] + [h];
    assert h !in holders[..i];
    forall k ensures NoDup(HoldersAt(after, k)) {
      var list := HoldersAt(before, k);
      assert list + [] == list;
      assert h !in list;
      NoDupSnoc(list, h);
    }
    forall k, x ensures x in HoldersAt(after, k) <==> x in holders[..i + 1] && k in NamesAt(records, x) {
      assert x in HoldersAt(before, k) <==> x in holders[..i] && k in NamesAt(records, x);
    }
    hide NoDup, HoldersAt;
  }

  method AppendUnder(bySet: map<string, seq<Holder>>, names: set<string>, h: Holder)
    returns (more: map<string, seq<Holder>>)
    ensures forall k :: HoldersAt(more, k) == HoldersAt(bySet, k) + if k in names then [h] else []
    ensures (forall k :: k in bySet ==> bySet[k] != []) ==> forall k :: k in more ==> more[k] != []
  {
    more := bySet;
    var rest := names;
    while rest != {}
      invariant rest <= names
      invariant forall k :: HoldersAt(more, k) == HoldersAt(bySet, k) + if k in names - rest then [h] else []
      invariant forall k :: k in more && k !in bySet ==> more[k] != []
      decreases rest
    {
      var k :| k in rest;
      more := more[k := HoldersAt(more, k) + [h]];
      rest := rest - {k};
    }
    forall k | k in more && (k in bySet ==> bySet[k] != []) ensures more[k] != [] {
      assert HoldersAt(more, k) == more[k];
    }
  }

  function HoldersAt(m: map<string, seq<Holder>>, k: string): seq<Holder> {
    if k in m then m[k] else []
  }

  function SubjectsAt(m: SubjectMap, k: string): seq<Subject> {
    if k in m then m[k] else []
  }

  /** filterSubjects(BuildRBACSubjects(users, groups)) */
  method BuildAndFilter(split: Split, users: seq<Holder>, groups: seq<Holder>) returns (subjects: seq<Subject>)
    requires NoDup(users) && NoDup(groups)
    requires (forall h :: h in users ==> h.User?) && (forall h :: h in groups ==> h.Group?)
    ensures forall s :: s in subjects <==>
              Kept(s) && exists h :: (h in users || h in groups) && s == BuildSubject(split, h)
    ensures NoDup(subjects)
  {
    var all := users + groups;
    NoDupConcat(users, groups);
    var built := seq(|all|, i requires 0 <= i < |all| => BuildSubject(split, all[i]));
    forall i, j | 0 <= i < j < |built| && Kept(built[i]) ensures built[i] != built[j] {
      assert all[i] != all[j];
    }
    subjects := FilterSubjects(built);
    forall s ensures s in built <==> exists h :: (h in users || h in groups) && s == BuildSubject(split, h) {
      if h :| (h in users || h in groups) && s == BuildSubject(split, h) {
        assert h in all;
        var i :| 0 <= i < |all| && all[i] == h;
        assert built[i] == s;
      }
      if s in built {
        var i :| 0 <= i < |built| && built[i] == s;
        assert all[i] in all;
      }
    }
  }

  /** Each set maps to the subjects that stand for someone with a record for it; a set without
      such subjects is not mapped. */
  ghost predicate SubjectsOfSets(subjects: SubjectMap, records: Records, split: Split) {
    && (forall k, s :: Maps(subjects, k, s) <==> HasSet(records, split, k, s))
    && (forall k :: k in subjects ==> subjects[k] != [] && NoDup(subjects[k]))
  }

  /** The records' holders by cluster set, users and groups apart. */
  datatype BySet = BySet(users: seq<Holder>, groups: seq<Holder>,
                         usersOf: map<string, seq<Holder>>, groupsOf: map<string, seq<Holder>>)

  ghost predicate InvertsRecords(b: BySet, records: Records) {
    && Inverted(b.usersOf, records, b.users) && Inverted(b.groupsOf, records, b.groups)
    && (forall h :: h in b.users || h in b.groups <==> h in records)
    && (forall h :: h in b.users ==> h.User?) && (forall h :: h in b.groups ==> h.Group?)
  }

  /** The body of the two loops over the inverted records. */
  method SubjectsOfSet(records: Records, split: Split, b: BySet, k: string) returns (built: seq<Subject>)
    requires InvertsRecords(b, records)
    ensures NoDup(built) && forall s :: s in built <==> HasSet(records, split, k, s)
  {
    NonEmptyLists(b.usersOf, records, b.users);
    NonEmptyLists(b.groupsOf, records, b.groups);
    built := BuildAndFilter(split, HoldersAt(b.usersOf, k), HoldersAt(b.groupsOf, k));
    HoldersAreSubjects(records, split, b.usersOf, b.groupsOf, b.users, b.groups, k, built);
  }

  /** GenerateClustersetSubjects */
  method GenerateClustersetSubjects(records: Records, split: Split) returns (subjects: SubjectMap)
    ensures SubjectsOfSets(subjects, records, split)
  {
    hide Inverted, HasSet, NoDup;
    var users := Listing(set h | h in records && h.User?);
    var groups := Listing(set h | h in records && h.Group?);
    var usersOf := Invert(records, users);
    var groupsOf := Invert(records, groups);
    var b := BySet(users, groups, usersOf, groupsOf);
    OtherSetsHaveNobody(records, split, usersOf, groupsOf, users, groups);
    subjects := map[];
    var rest := usersOf.Keys + groupsOf.Keys;
    while rest != {}
      invariant forall k :: k in subjects ==> k !in rest && subjects[k] != [] && NoDup(subjects[k])
      invariant forall k, s :: k !in rest ==> (Maps(subjects, k, s) <==> HasSet(records, split, k, s))
      decreases rest
    {
      var k :| k in rest;
      var built := SubjectsOfSet(records, split, b, k);
      rest := rest - {k};
      if |built| > 0 {
        subjects := subjects[k := built];
      }
    }
  }

  lemma OtherSetsHaveNobody(records: Records, split: Split, usersOf: map<string, seq<Holder>>,
                            groupsOf: map<string, seq<Holder>>, users: seq<Holder>, groups: seq<Holder>)
    requires Inverted(usersOf, records, users) && Inverted(groupsOf, records, groups)
    requires forall h :: h in users || h in groups <==> h in records
    ensures forall k, s :: HasSet(records, split, k, s) ==> k in usersOf.Keys + groupsOf.Keys
  {
    forall k, s | HasSet(records, split, k, s) ensures k in usersOf.Keys + groupsOf.Keys {
      var h :| k in NamesAt(records, h) && s == BuildSubject(split, h);
      assert h in HoldersAt(usersOf, k) || h in HoldersAt(groupsOf, k);
    }
  }

  lemma HoldersAreSubjects(records: Records, split: Split, usersOf: map<string, seq<Holder>>,
                           groupsOf: map<string, seq<Holder>>,
                           users: seq<Holder>, groups: seq<Holder>, k: string, built: seq<Subject>)
    requires Inverted(usersOf, records, users) && Inverted(groupsOf, records, groups)
    requires forall h :: h in users || h in groups <==> h in records
    requires forall s :: s in built <==>
               && Kept(s)
               && exists h :: (h in HoldersAt(usersOf, k) || h in HoldersAt(groupsOf, k)) && s == BuildSubject(split, h)
    ensures forall s :: s in built <==> HasSet(records, split, k, s)
  {
  }

  // ------------------------------------------------------------------ subjects due on objects

  /** The subject is due on the object: through a set that holds it, or through "*", which
      stands for every set of the mapper. */
  ghost predicate Due(members: Membership, subjects: SubjectMap, o: string, s: Subject) {
    || (exists k :: k != "*" && o in ObjectsIn(members, k) && Maps(subjects, k, s))
    || (Maps(subjects, "*", s) && exists k :: o in ObjectsIn(members, k))
  }

  /** Some set that holds the object has an entry, or "*" has subjects. */
  ghost predicate Reached(members: Membership, subjects: SubjectMap, o: string) {
    || (exists k :: k != "*" && k in subjects && o in ObjectsIn(members, k))
    || (SubjectsAt(subjects, "*") != [] && exists k :: o in ObjectsIn(members, k))
  }

  predicate Maps(m: SubjectMap, k: string, s: Subject) {
    k in m && s in m[k]
  }

  predicate AllNoDup(m: SubjectMap) {
    forall k :: k in m ==> NoDup(m[k])
  }

  /** One round of merging a list into the entries of some objects. */
  method MergeInto(objectToSubject: SubjectMap, objects: set<string>, subjects: seq<Subject>)
    returns (more: SubjectMap)
    ensures more.Keys == objectToSubject.Keys + objects
    ensures NoDup(subjects) && AllNoDup(objectToSubject) ==> AllNoDup(more)
    ensures forall o, s :: Maps(more, o, s) <==> Maps(objectToSubject, o, s) || (o in objects && s in subjects)
  {
    hide NoDup, Missing, SetOf;
    more := objectToSubject;
    var rest := objects;
    while rest != {}
      invariant rest <= objects && more.Keys == objectToSubject.Keys + (objects - rest)
      invariant NoDup(subjects) && AllNoDup(objectToSubject) ==> AllNoDup(more)
      invariant forall o, s :: Maps(more, o, s) <==>
                Maps(objectToSubject, o, s) || (o in objects && o !in rest && s in subjects)
      decreases rest
    {
      var o :| o in rest;
      EmptyNoDup();
      var merged := MergeSubjects(SubjectsAt(more, o), subjects);
      if NoDup(SubjectsAt(more, o)) && NoDup(subjects) {
        MergedIsUnion(SubjectsAt(more, o), subjects);
      }
      more := more[o := merged];
      rest := rest - {o};
    }
    assert objects - rest == objects;
  }

  lemma EmptyNoDup()
    ensures NoDup<Subject>([])
  {
  }

  /** The first loop of GenerateObjectSubjectMap: the named sets in any order. */
  method MergeNamedSets(members: Membership, subjects: SubjectMap)
    returns (objectToSubject: SubjectMap)
    ensures forall o, s :: Maps(objectToSubject, o, s) <==> ThroughSets(members, subjects, subjects.Keys - {"*"}, o, s)
    ensures forall o :: o in objectToSubject <==> InSets(members, subjects.Keys - {"*"}, o)
    ensures AllNoDup(subjects) ==> AllNoDup(objectToSubject)
  {
    hide NoDup, ThroughSets, InSets;
    objectToSubject := map[];
    var done, rest := {}, subjects.Keys - {"*"};
    NoSet(members, subjects);
    while rest != {}
      invariant done + rest == subjects.Keys - {"*"}
      invariant AllNoDup(subjects) ==> AllNoDup(objectToSubject)
      invariant forall o, s :: Maps(objectToSubject, o, s) <==> ThroughSets(members, subjects, done, o, s)
      invariant forall o :: o in objectToSubject <==> InSets(members, done, o)
      decreases rest
    {
      var k :| k in rest;
      OneMoreSet(members, subjects, done, k);
      objectToSubject := MergeInto(objectToSubject, ObjectsIn(members, k), subjects[k]);
      done, rest := done + {k}, rest - {k};
    }
    assert done == subjects.Keys - {"*"};
  }

  /** GenerateObjectSubjectMap: then the subjects of "*" for the objects of every set. */
  method GenerateObjectSubjectMap(members: Membership, subjects: SubjectMap)
    returns (objectToSubject: SubjectMap)
    ensures forall o, s :: Maps(objectToSubject, o, s) <==> Due(members, subjects, o, s)
    ensures forall o :: o in objectToSubject <==> Reached(members, subjects, o)
    ensures AllNoDup(subjects) ==> AllNoDup(objectToSubject)
  {
    hide NoDup, ThroughSets, InSets, Due, Reached;
    objectToSubject := MergeNamedSets(members, subjects);
    DueInParts(members, subjects);
    var everywhere := SubjectsAt(subjects, "*");
    if |everywhere| == 0 {
      return;
    }
    ghost var before := objectToSubject;
    var done, rest := {}, members.Keys;
    NoSet(members, subjects);
    while rest != {}
      invariant done + rest == members.Keys
      invariant AllNoDup(subjects) ==> AllNoDup(objectToSubject)
      invariant forall o, s :: Maps(objectToSubject, o, s) <==>
                Maps(before, o, s) || (s in everywhere && InSets(members, done, o))
      invariant forall o :: o in objectToSubject <==> o in before || InSets(members, done, o)
      decreases rest
    {
      var k :| k in rest;
      OneMoreSet(members, subjects, done, k);
      objectToSubject := MergeInto(objectToSubject, members[k], everywhere);
      done, rest := done + {k}, rest - {k};
    }
    assert done == members.Keys;
  }

  lemma DueInParts(members: Membership, subjects: SubjectMap)
    ensures forall o, s :: Due(members, subjects, o, s) <==>
              || ThroughSets(members, subjects, subjects.Keys - {"*"}, o, s)
              || (s in SubjectsAt(subjects, "*") && InSets(members, members.Keys, o))
    ensures forall o :: Reached(members, subjects, o) <==>
              || InSets(members, subjects.Keys - {"*"}, o)
              || (SubjectsAt(subjects, "*") != [] && InSets(members, members.Keys, o))
  {
  }

  lemma NoSet(members: Membership, subjects: SubjectMap)
    ensures forall o, s :: !ThroughSets(members, subjects, {}, o, s)
    ensures forall o :: !InSets(members, {}, o)
  {
  }

  ghost predicate ThroughSets(members: Membership, subjects: SubjectMap, sets: set<string>, o: string, s: Subject) {
    exists k :: k in sets && o in ObjectsIn(members, k) && Maps(subjects, k, s)
  }

  ghost predicate InSets(members: Membership, sets: set<string>, o: string) {
    exists k :: k in sets && o in ObjectsIn(members, k)
  }

  lemma OneMoreSet(members: Membership, subjects: SubjectMap, sets: set<string>, k: string)
    ensures forall o, s :: ThroughSets(members, subjects, sets + {k}, o, s)
              <==> ThroughSets(members, subjects, sets, o, s) || (o in ObjectsIn(members, k) && Maps(subjects, k, s))
    ensures forall o :: InSets(members, sets + {k}, o) <==> InSets(members, sets, o) || o in ObjectsIn(members, k)
  {
  }

  /** Without empty lists, an object is reached exactly when some subject is due on it. */
  lemma ReachedMeansDue(members: Membership, subjects: SubjectMap, o: string)
    requires forall k :: k in subjects ==> subjects[k] != []
    ensures Reached(members, subjects, o) <==> exists s :: Due(members, subjects, o, s)
  {
    if k :| k != "*" && k in subjects && o in ObjectsIn(members, k) {
      assert Maps(subjects, k, subjects[k][0]);
      assert Due(members, subjects, o, subjects[k][0]);
    } else if Reached(members, subjects, o) {
      assert Due(members, subjects, o, SubjectsAt(subjects, "*")[0]);
    }
  }

  // ------------------------------------------------------------------ admin implies view

  /** From one snapshot, whatever was recorded before: whoever stands for an administrator of a
      set also stands for one of its viewers, if what stays stale is viewed. */
  lemma AdminSubjectsAreViewSubjects(s: Inputs, t: Target, split: Split, admins: Records, viewers: Records,
                                     admins': Records, viewers': Records, k: string, subject: Subject)
    requires Synchronized(s, AdminLevel, t, admins, admins') && Synchronized(s, ViewLevel, t, viewers, viewers')
    requires StaleIsViewed(s, t, admins, viewers)
    requires HasSet(admins', split, k, subject)
    ensures HasSet(viewers', split, k, subject)
  {
    hide GrantSet, Synchronized, NamesAt, Recorded, StaleIsViewed;
    RecordsAfter(s, AdminLevel, t, admins, admins');
    RecordsAfter(s, ViewLevel, t, viewers, viewers');
    AdminRecordsAreViewRecordsExactlyWhen(s, t, admins, viewers);
    var h :| k in NamesAt(admins', h) && subject == BuildSubject(split, h);
    assert Recorded(s, AdminLevel, t, admins, h) <= Recorded(s, ViewLevel, t, viewers, h);
  }

  /** Admin implies view through the whole pipeline: with both caches synchronized from one
      snapshot, every subject due on a cluster in the admin pass is due on it in the view
      pass, where the global mapper is united with the other. */
  lemma AdminImpliesView(s: Inputs, t: Target, split: Split, admins: Records, viewers: Records,
                         admins': Records, viewers': Records,
                         adminSubjects: SubjectMap, viewSubjects: SubjectMap,
                         members: Membership, global: Membership, cluster: string, subject: Subject)
    requires Synchronized(s, AdminLevel, t, admins, admins') && Synchronized(s, ViewLevel, t, viewers, viewers')
    requires StaleIsViewed(s, t, admins, viewers)
    requires SubjectsOfSets(adminSubjects, admins', split) && SubjectsOfSets(viewSubjects, viewers', split)
    requires Proper(members) && Proper(global)
    requires Due(members, adminSubjects, cluster, subject)
    ensures Due(Union(members, global), viewSubjects, cluster, subject)
  {
    hide Synchronized, HasSet, Union, NoDup, StaleIsViewed;
    var u := Union(members, global);
    forall k | Maps(adminSubjects, k, subject) ensures Maps(viewSubjects, k, subject) {
      AdminSubjectsAreViewSubjects(s, t, split, admins, viewers, admins', viewers', k, subject);
    }
    forall k | cluster in ObjectsIn(members, k) ensures cluster in ObjectsIn(u, k) {
      assert ObjectsIn(u, k) == ObjectsIn(members, k) + ObjectsIn(global, k);
    }
  }
}
