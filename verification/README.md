# Verification of the cluster permission, propagation, watch and codec logic

This project models four parts of the multicluster controller and proves what they are for.

- **User-permission cache.** RBAC bindings, roles and ClusterPermissions are scanned in nested
  loops and merged, in place, into lists of cluster bindings per user or group and role. A list
  means the set of (cluster, extent) pairs it covers, where an extent is the whole cluster or one
  namespace. The store refines a declarative reading of the objects, in any iteration order; what a
  query shows is stated over the objects alone; and the skipping of a rebuild is right under an
  exact condition. Modules `Coverage`, `Permissions`, `AdminView`, `Discovery`, `Versions`,
  `PermissionCache`, `PermissionRaces`.
- **Cluster-set propagation.** Cluster roles become records (`AuthCache`), records become subjects
  of sets and subjects due on clusters (`Propagation`, `SetMapper`, `SubjectLists`), and a pass
  makes the cluster role bindings agree (`BindingSync`, `BindingPass`). The mapper itself is kept
  in step with labels by a work queue, modelled as a state machine (`MapperQueue`) that the
  imperative controller refines (`ClusterSetController`). `BindingRuns` and `QuietRuns`
  say when passes and the queue come to rest. `EndToEnd` puts the parts together: at rest, labels
  and records decide who is in which binding, and with nothing stale recorded labels and RBAC
  rules decide who is named in it.
- **Watch stream and project index.** A watcher turns notifications into events that replay to its
  own state (`Watcher`, `Watchers`); the project list that goes through a subject index equals the
  scan of all permissions (`Projects`). `Scenarios` holds inputs on which the caches and the watch
  fall short.
- **Protobuf codec.** Varints, backwards marshalling, unmarshalling and skipping of unknown fields
  (`Varint`, `Wire`, `Messages`, `Unmarshal`), after the Protocol Buffers encoding specification,
  sections "Base 128 Varints" and "Message Structure". `WireGrammar` and `MessageGrammar` say
  which byte strings are fields and messages, and that exactly these are skipped and read.
- **Client configuration.** The merge of a reported URL into a cluster's list, over two writes that
  may each fail (`ClientConfigs`).

`Rbac` holds the shared objects, and how RBAC reads a policy rule (`Rbac.Permits`), with which the
matchers of the source are compared. Go maps and listers are visited in an arbitrary order: the loops
pick any remaining element, so every result holds for every order.

Assumptions that the results rest on, each stated in a contract or noted here: listers show what
the server holds during a sync (the permission cache may be shown something else for its hash,
which is taken before the lock, and by each processor: pkg/cache/userpermission/sync.go:23-56);
SHA-256 of the sorted version lines stands for the lines; a resource version fixes an object's
content, and for ClusterPermissions one version in one namespace fixes the object, because the
version line leaves out the name (pkg/cache/userpermission/processor_discoverable.go:235).

Where the code does less than one might expect, the exact condition is proved:

- the version lists leave out the managed clusters, so a skipped rebuild can miss a new cluster:
  `PermissionCache.SkipIsRightExactlyWhen`, `PermissionCache.SkipCanMissACluster`;
- a store built from other objects than those hashed stays as long as the hash does, be it that
  objects changed in between or that the admin/view processor went on without a listing that
  failed (pkg/cache/userpermission/processor_admin_view.go:33-36, 91-94, 142-145):
  `PermissionRaces.SkippedStoreIsRightExactlyWhen`, `PermissionRaces.GrantInBetweenStays`;
- a cluster whose name ends, after a colon, in a segment that is no desired cluster would lose its
  binding in the pass that applies it. Cluster names are DNS names without colons, so this is
  about the functions alone: `BindingPass.DoomedName`, `BindingPass.ColonNameIsLost`;
- a cluster in two non-global sets keeps the label of its binding changing:
  `BindingPass.NextPassIsSilentExactlyWhen`, `BindingPass.LabelsCanRest`; with at most one besides
  the global set it comes to rest: `BindingRuns.PassesComeToRest`;
- the skip token of the cache joins two versions without a separator: `AuthCache.TokenDecides`,
  `AuthCache.TokenIsAmbiguous`;
- a subject named with unknown resources only keeps its old record, so a binding can outlive the
  grant, and admin need not imply view: `AuthCache.RecordsAreGrantsExactlyWhen`,
  `AuthCache.AdminRecordsAreViewRecordsExactlyWhen`, `Scenarios.StaleRecordStays`;
- a watch shows the list of the last notice only, so a user of two groups can lose what the other
  group grants; and when the last set of a user is deleted while a role still names it, nobody is
  told, so that the watch goes on showing it: `Watcher.WatchMatchesListingExactlyWhen`,
  `Scenarios.WatchForgetsOtherGroups`, `Scenarios.DeletedSetStays`;
- EqualSubjects is equality up to permutation exactly for lists that are free of duplicates or
  repeat a single subject: `SubjectLists.EqualMeansPermutationExactlyWhen`;
- a URL that changes while the last applied one is not that of the managed entry leaves an entry
  behind: `ClientConfigs.OneEntryFollowsExactlyWhen`, with a failed status write and an empty
  report as examples.

## Model

| member | source | states |
|---|---|---|
| Coverage.MergeOrAppend | pkg/cache/userpermission/helpers.go:15-44 | overwriting in place or appending makes any list cover exactly what it covered before plus what the new binding covers; clusters that had one entry each keep one, and well-formed lists stay so |
| Coverage.EntryIsCoverage | pkg/cache/userpermission/helpers.go:11-14 | in such a list the entry of a cluster is cluster-scoped exactly when the whole cluster is covered, and otherwise lists exactly the covered namespaces |
| Coverage.ListedCovers | pkg/cache/userpermission/helpers.go:11-14 | a cluster has an entry exactly when something in it is covered |
| Permissions.BindingTable.Add | pkg/cache/userpermission/store.go:54-80 | adding a binding for a subject and role adds exactly its coverage under that key; lists of other keys are not touched and never share storage |
| Permissions.BindingTable.Filter | pkg/cache/userpermission/store.go:125-138 | drops exactly the entries of the given clusters, and the role itself when nothing is left |
| Permissions.BindingTable.ClustersUnder | pkg/cache/userpermission/store.go:119-123 | the clusters listed under a role are those where it covers anything |
| Permissions.PermissionStore.AddForAll | pkg/cache/userpermission/store.go:28-51 | the loop over users and groups adds the binding's coverage for each of them and nothing else |
| Permissions.PermissionStore.MergeRecord | pkg/cache/userpermission/store.go:87-108 | merging one record into an answer adds exactly what the record covers, and leaves the stored lists as they are |
| Permissions.PermissionStore.GetPermissions | pkg/cache/userpermission/store.go:82-142 | the answer covers under each role exactly the union over the user and the groups, without view where admin has an entry for the cluster; no stored array of bindings is written to (namespace lists are values) |
| AdminView.AddClusterRoleBinding | pkg/cache/userpermission/processor_admin_view.go:96-130 | a cluster role binding adds its synthetic role for everyone it names on every managed cluster, and nothing if its role is missing or grants neither |
| AdminView.AddRoleBinding | pkg/cache/userpermission/processor_admin_view.go:147-189 | a role binding adds its synthetic role on the cluster of its namespace; the reference kind decides whether a cluster role, a role or nothing is looked up |
| AdminView.SyncNamespace | pkg/cache/userpermission/processor_admin_view.go:140-190 | the role bindings of one cluster's namespace add exactly what one of them grants |
| AdminView.SyncAdminView | pkg/cache/userpermission/processor_admin_view.go:30-51 | in any order of bindings and clusters, the store gains exactly the pairs for which a single binding, cluster-wide or in the cluster's namespace, grants the synthetic role |
| AdminView.UsersAndGroups | pkg/cache/userpermission/processor_admin_view.go:117-118 | the users and groups of a subject list, service accounts as users |
| Rbac.SubjectNamesExactlyWhen | pkg/cache/userpermission/processor_admin_view.go:117-118 | whom a subject names, field by field: kind and API group decide, and a service account is the user with its full name, in its own namespace or else in the default one |
| AdminView.SyntheticRoleMeans | pkg/cache/userpermission/processor_admin_view.go:109-111 | rules amount to admin exactly if they permit create on managedclusteractions and on managedclusterviews, to view exactly if only on the latter, otherwise to nothing |
| AdminView.OneVerb | pkg/cache/userpermission/rbac.go:8-38 | a rule that lists one verb grants exactly if that is create or the wildcard |
| AdminView.WideGrantsExactlyWhen | pkg/cache/userpermission/processor_admin_view.go:96-130 | a cluster role binding grants exactly if it names the holder and the cluster role of that name has rules that amount to the role |
| AdminView.LocalGrantsExactlyWhen | pkg/cache/userpermission/processor_admin_view.go:147-189 | a role binding grants exactly if it names the holder and its reference, of kind ClusterRole to a cluster role or of kind Role to a role in the same namespace, has rules that amount to the role; other kinds grant nothing |
| Discovery.AddBinding | pkg/cache/userpermission/processor_discoverable.go:108-182 | a binding of a ClusterPermission adds its coverage for its subjects (plural ones win) exactly when it refers to a discoverable role by a non-empty name |
| Discovery.AddClusterPermission | pkg/cache/userpermission/processor_discoverable.go:75-102 | one ClusterPermission adds the cluster for its cluster role bindings, single and plural, and a namespace for each role binding |
| Discovery.CollectDiscoverable | pkg/cache/userpermission/processor_discoverable.go:45-64 | the roles labelled discoverable, and their names |
| Discovery.SyncDiscoverable | pkg/cache/userpermission/processor_discoverable.go:26-42 | the store gains exactly the pairs for which some ClusterPermission in the cluster's namespace names the holder for a discoverable role |
| Discovery.DiscoverableExactlyWhen | pkg/cache/userpermission/processor_discoverable.go:45-64 | a cluster role is discoverable exactly if the label has the value "true" |
| Discovery.GivesExactlyWhen | pkg/cache/userpermission/processor_discoverable.go:104-182 | a binding gives someone asking its role exactly if one of its subjects, or without any its single one, is the user or one of the groups by kind and name |
| Versions.AdminViewVersions | pkg/cache/userpermission/processor_admin_view.go:198-369 | the tracked lines, without repetition, are those of the relevant bindings and of their roles that are not discoverable |
| Versions.DiscoverableVersions | pkg/cache/userpermission/processor_discoverable.go:188-238 | the tracked lines are one for each discoverable role and one for each ClusterPermission, equal ones counted, in any order |
| Versions.FormatIsInjective | pkg/cache/userpermission/types.go:11-15 | equal lines track the same kind of object, the same object and the same version |
| Versions.TrackedExists | pkg/cache/userpermission/processor_admin_view.go:226-369 | every line of the admin/view list stands for an object of the snapshot at that version |
| Versions.TrackedExactlyWhen | pkg/cache/userpermission/processor_admin_view.go:226-369 | the list read off the objects: exactly the bindings that refer to rules which permit create on views, role bindings in managed namespaces only, and the roles they refer to, without discoverable ones |
| Versions.SameRelevantRole | pkg/cache/userpermission/processor_admin_view.go:263-276 | with equal version lists a relevant role is unchanged, also when it is discoverable and tracked by the other processor only |
| Versions.SameClusterBinding | pkg/cache/userpermission/processor_admin_view.go:227-260 | with equal version lists a cluster role binding grants the same |
| Versions.SameNamespaceBinding | pkg/cache/userpermission/processor_admin_view.go:280-369 | with equal version lists a role binding grants the same, in a namespace that is still a managed cluster |
| Versions.SameDiscovered | pkg/cache/userpermission/processor_discoverable.go:188-238 | with equal version lists the ClusterPermissions give the same |
| PermissionCache.BindingLevels | pkg/cache/userpermission/processor_admin_view.go:53-82 | admin and view in the store stand for one single binding that names the holder and refers to a role whose rules permit creating both, or views |
| PermissionCache.AdminIsListed | pkg/cache/userpermission/store.go:82-142 | a query lists a cluster under admin exactly when it is managed and one single binding naming someone asking grants create on actions and on views |
| PermissionCache.ViewIsListed | pkg/cache/userpermission/store.go:82-142 | it lists a cluster under view exactly when some such binding grants create on views and admin does not list the cluster |
| PermissionCache.DiscoverableIsListed | pkg/cache/userpermission/processor_discoverable.go:67-182 | any other role covers exactly what the ClusterPermissions naming someone asking say |
| PermissionCache.DiscoverableShowsExactlyWhen | pkg/cache/userpermission/processor_discoverable.go:67-182 | the same read off the objects: the role is labelled, and a ClusterPermission in the cluster's namespace has a binding to it that reaches the extent and names the user or a group |
| PermissionCache.RebuildGivesTheSame | pkg/cache/userpermission/sync.go:33-37 | equal version lists and equal cluster names (or nobody with a cluster-wide grant) make rebuilds give the same store and the same discoverable roles |
| PermissionCache.ExtraClusterShows | pkg/cache/userpermission/processor_admin_view.go:198-224 | a cluster in only one of two snapshots shows in the answers of that one alone, once anybody has a cluster-wide grant |
| PermissionCache.SkipIsRightExactlyWhen | pkg/cache/userpermission/sync.go:20-37 | with equal version lists, everybody's answers agree if and only if the cluster names do or no cluster-wide grant names anyone |
| PermissionCache.SkipCanMissACluster | pkg/cache/userpermission/processor_admin_view.go:198-224 | two legal snapshots with equal versions and different answers: a new cluster, and an administrator of everything |
| PermissionCache.SameFingerprint | pkg/cache/userpermission/sync.go:70-89 | equal fingerprints mean equal version lists of both processors |
| PermissionCache.Calculate | pkg/cache/userpermission/sync.go:70-89 | in whatever order the objects are listed, a snapshot has one fingerprint: the formatted lines of both lists with their multiplicities |
| PermissionCache.FingerprintHasLines | pkg/cache/userpermission/processor_admin_view.go:214-223 | its lines are exactly those of the tracked objects |
| PermissionCache.Cache.Synchronize | pkg/cache/userpermission/sync.go:20-67 | objects with the fingerprint of the last rebuild, a failed hash and an error that a processor returns change nothing; otherwise the fingerprint of what was shown for the hash is stored together with a new store, built from what was shown to each processor |
| PermissionCache.Cache.Get | pkg/cache/userpermission/cache.go:156-191 | a role is found exactly when something shows under it, with one entry per cluster that covers exactly what shows, and with the rules of its definition |
| PermissionCache.Cache.List | pkg/cache/userpermission/cache.go:108-153 | exactly the roles under which anything shows, once each, described in the same way |
| PermissionCache.ShownRulesMean | pkg/cache/userpermission/cache.go:192-217 | the rules shown with admin permit everything, those shown with view permit get, list and watch on everything and no other verb |
| PermissionCache.Cache.CurrentAfterSynchronize | pkg/cache/userpermission/sync.go:33-37 | after a synchronization, skipped or not, the store is what a rebuild from the current snapshot would give, under the exact condition, if the last rebuild saw one snapshot throughout |
| PermissionRaces.SkippedStoreIsRightExactlyWhen | pkg/cache/userpermission/sync.go:20-62 | whatever was shown for the hash and to the processors, under that condition a skip leaves everybody's answers right if and only if each holder's grants that count were the same for the rebuild as for the hash |
| PermissionRaces.StoreIsRightExactlyWhen | pkg/cache/userpermission/store.go:82-142 | two stores answer every user with any groups alike if and only if each holder has the same grants, view counting only without admin on the cluster |
| PermissionRaces.GrantInBetweenStays | pkg/cache/userpermission/sync.go:23-62 | a grant that exists only between two equal hashes gives wrong answers |
| PermissionRaces.VisibleMeansCounting | pkg/cache/userpermission/store.go:111-139 | an answer shows what counts of anyone asking, and view where nobody asking has admin |
| SetMapper.Union | pkg/helpers/clustersetmapper.go:147-174 | every set has the objects of both mappers, and entries stay non-empty under non-empty names |
| SetMapper.UnionCommutes | pkg/helpers/clustersetmapper.go:147-174 | union commutes in content |
| SetMapper.UnionAssociates | pkg/helpers/clustersetmapper.go:147-174 | union associates in content |
| SetMapper.UnionIdempotent | pkg/helpers/clustersetmapper.go:147-156 | union with itself or with an empty mapper gives the same content |
| SetMapper.ObjectsDecide | pkg/helpers/clustersetmapper.go:132-137 | mappers that keep the invariant are equal when every set has the same objects |
| SetMapper.ClusterSetMapper.UpdateClusterSetByObjects | pkg/helpers/clustersetmapper.go:21-33 | the set has exactly the given objects, other sets stay, no empty entry remains |
| SetMapper.ClusterSetMapper.DeleteClusterSet | pkg/helpers/clustersetmapper.go:35-46 | the set has no objects, other sets stay |
| SetMapper.ClusterSetMapper.CopyClusterSetMapper | pkg/helpers/clustersetmapper.go:48-55 | the mapper has exactly the other one's members; copied onto itself it is empty |
| SetMapper.ClusterSetMapper.DeleteObjectInClusterSet | pkg/helpers/clustersetmapper.go:58-79 | the object is in no set, other memberships stay, emptied sets go |
| SetMapper.ClusterSetMapper.AddObjectInClusterSet | pkg/helpers/clustersetmapper.go:81-99 | the object joins the set, all other memberships stay |
| SetMapper.ClusterSetMapper.UpdateObjectInClusterSet | pkg/helpers/clustersetmapper.go:101-130 | the object is in exactly the given set, other objects stay where they were |
| SetMapper.ClusterSetMapper.GetObjectClusterset | pkg/helpers/clustersetmapper.go:176-185 | some set that holds the object, or "" exactly when none does |
| SetMapper.ClusterSetMapper.UnionObjectsInClusterSet | pkg/helpers/clustersetmapper.go:147-174 | the pointwise union, early returns included |
| SubjectLists.MergeSubjects | pkg/utils/role.go:19-31 | the first list followed by what only the second has |
| SubjectLists.MergedIsUnion | pkg/utils/role.go:19-31 | merging duplicate-free lists gives a duplicate-free list with the elements of both |
| SubjectLists.EqualSubjects | pkg/utils/role.go:33-48 | true exactly for equal lengths and equal element sets |
| SubjectLists.EqualMeansPermutation | pkg/utils/role.go:33-48 | if one list is free of duplicates, that is equality up to permutation |
| SubjectLists.EqualMeansPermutationExactlyWhen | pkg/utils/role.go:33-48 | it is equality up to permutation, whatever is compared with a list, if and only if the list is free of duplicates or repeats a single subject |
| SubjectLists.EqualWithDuplicates | pkg/utils/role.go:33-48 | with duplicates on both sides it is not |
| SubjectLists.CallsMeanChange | pkg/utils/label.go:27-50 | some required key calls for a change exactly when the merged labels differ from the existing ones |
| SubjectLists.MergeMap | pkg/utils/label.go:23-51 | in any order of the keys: required keys are there, removed ones are not, keys that are both come out either way, others stay; without such keys the result is the merged map, and modified exactly when it differs |
| SubjectLists.TrimsDashes | pkg/utils/label.go:33-36 | a key that ends in dashes is a removal, of the key without any of these dashes |
| SubjectLists.OneRequiredKey | pkg/utils/label.go:27-50 | a required key is set, and with dashes behind it exactly the key without them goes |
| AuthCache.GetResources | pkg/utils/role.go:221-264 | the resources that some matching rule names, or all of them exactly when a matching rule names none |
| AuthCache.MatchesExactlyWhen | pkg/utils/role.go:250-264 | a rule matches for admin exactly if it permits updating and getting or listing, for view exactly if it permits getting or listing, wildcards included |
| AuthCache.GrantedExactlyWhen | pkg/cache/subjectrecord.go:198-241 | the grants read off the rules: a resource is granted exactly if it exists and a single rule bound to the holder permits what the level takes, on all names or on this one |
| AuthCache.MentionedExactlyWhen | pkg/cache/subjectrecord.go:198-241 | who is mentioned, read off the rules: someone with a sufficient rule that stands for all of some existing resources, or names any when none of the binding stands for all |
| AuthCache.AdminListsAreViewLists | pkg/utils/role.go:250-264 | a known resource that a binding lists for admin, it lists for view |
| AuthCache.AdminGrantsAreViewGrants | pkg/utils/role.go:250-264 | from one snapshot, a subject's admin resources are among its view resources |
| AuthCache.RecordCache.Collect | pkg/cache/subjectrecord.go:198-241 | everyone named by a binding with a non-empty list, and for each the union of the known resources over its bindings |
| AuthCache.RecordCache.Synchronize | pkg/cache/subjectrecord.go:161-264 | a skipped call or a failed listing of resources changes nothing, a failed listing of bindings only stores the token; otherwise known subjects are those mentioned, granted subjects have exactly their grants, unmentioned ones no record, ones with unknown resources only what they had, and watchers hear of exactly these changes, stage by stage |
| AuthCache.NoticesFor | pkg/cache/subjectrecord.go:243-260 | the watchers hear of users and groups with new lists, then of users and groups that are gone, once each |
| AuthCache.RecordCache.ListNames | pkg/cache/subjectrecord.go:292-312 | the union of the records of the user and the groups |
| AuthCache.RecordCache.ListObjects | pkg/cache/managedclusterset.go:67-90 | of these, the objects that the lister still has, at its versions |
| AuthCache.RecordsAfter | pkg/cache/subjectrecord.go:191-264 | whatever was recorded before, a record afterwards is the subject's grants, or what it had if it is named with unknown resources only |
| AuthCache.RecordsAreGrantsExactlyWhen | pkg/cache/subjectrecord.go:191-264 | the records become the grants if and only if nobody who is named with unknown resources only had one |
| AuthCache.AdminRecordsAreViewRecordsExactlyWhen | pkg/cache/subjectrecord.go:191-264 | from one snapshot every admin record is within the view record if and only if what stays stale in the first is in the second |
| AuthCache.NothingStaleIsViewed | pkg/cache/subjectrecord.go:191-264 | with nothing stale on the admin side that is so |
| AuthCache.ResyncChangesNothing | pkg/cache/subjectrecord.go:191-264 | synchronizing again from the same inputs leaves the records as they are |
| AuthCache.SkipIsRight | pkg/cache/subjectrecord.go:161-183 | a skip with role versions of equal length leaves the records that a synchronization would |
| AuthCache.TokenDecides | pkg/cache/subjectrecord.go:59-79 | equal tokens mean equal versions exactly when the role versions have equal length, and always when no version gets shorter |
| AuthCache.TokenIsAmbiguous | pkg/cache/subjectrecord.go:44-52 | two different pairs of versions with one token; the bindings' version shrinks between them |
| Propagation.FilterSubjects | pkg/utils/clusterset/clusterset.go:126-147 | keeps exactly the subjects that are not system users, system groups or service accounts, once each if they were |
| Propagation.SubjectNamesItsHolder | pkg/utils/clusterset/clusterset.go:98-111 | the subject that is built for a holder names that holder and nobody else |
| Propagation.KeptMeansOrdinary | pkg/utils/clusterset/clusterset.go:126-147 | kept are exactly the subjects of users and groups that are neither service accounts nor the system's own |
| Propagation.Invert | pkg/utils/clusterset/clusterset.go:81-97 | under each set, once each, exactly the holders whose record has the set |
| Propagation.GenerateClustersetSubjects | pkg/utils/clusterset/clusterset.go:78-117 | each set maps, without duplicates, to exactly the kept subjects of those who have it in their record; sets without any are not mapped |
| Propagation.SetNamesExactlyWhen | pkg/utils/clusterset/clusterset.go:78-117 | the subjects of a set name exactly the ordinary users and groups that have it in their record |
| Propagation.MergeInto | pkg/utils/clusterset/clusterset.go:60-62 | merges a list into the entries of some objects and touches no other entry |
| Propagation.GenerateObjectSubjectMap | pkg/utils/clusterset/clusterset.go:52-76 | in any order, a subject is mapped for an object exactly when it is due there through a named set that holds it or through "*" for any set; keys are the reached objects; lists stay duplicate-free |
| Propagation.ReachedMeansDue | pkg/utils/clusterset/clusterset.go:52-76 | without empty lists an object has an entry exactly when some subject is due on it |
| Propagation.AdminSubjectsAreViewSubjects | pkg/utils/clusterset/clusterset.go:78-117 | from one snapshot and any earlier records of which the stale ones are viewed, the subjects of a set for admin are among those for view |
| Propagation.AdminImpliesView | pkg/controllers/clusterset/syncclusterrolebinding/syncclusterrolebinding_controller.go:63-71 | under the same condition every subject due on a cluster in the admin pass is due on it in the view pass, over the union with the global mapper |
| BindingSync.LastSegmentAfter | pkg/controllers/clusterset/syncclusterrolebinding/syncclusterrolebinding_controller.go:139-146 | the last segment of a binding's name is that of the cluster's name |
| BindingSync.LastSegmentOfPlain | pkg/controllers/clusterset/syncclusterrolebinding/syncclusterrolebinding_controller.go:139-146 | it is the whole name exactly when that has no colon |
| BindingSync.NamesAreInjective | pkg/utils/role.go:125-127 | different clusters have different binding names, all with the role's prefix |
| BindingSync.RolesAreApart | pkg/utils/role.go:165-168 | no name has the prefixes of both roles |
| BindingSync.WritesWhatServes | pkg/utils/role.go:61-80 | what is written has the required reference, subjects and labels, and a binding that has them is not written to |
| BindingSync.Server.Apply | pkg/utils/role.go:50-81 | a missing binding is created, a differing one gets reference and subjects replaced and labels merged, any other is left alone without a write; labels that are required and to be removed at once come out either way |
| BindingSync.Server.ApplyAll | pkg/controllers/clusterset/syncclusterrolebinding/syncclusterrolebinding_controller.go:84-92 | in any order of clusters and for any answer about a cluster's set, every desired cluster's binding serves, other names stay, and settled bindings cause no write |
| BindingSync.Server.DeleteStale | pkg/controllers/clusterset/syncclusterrolebinding/syncclusterrolebinding_controller.go:112-134 | deletes exactly the bindings with the role label, the role's prefix and a non-empty last segment that is no desired cluster |
| BindingPass.SyncPass | pkg/controllers/clusterset/syncclusterrolebinding/syncclusterrolebinding_controller.go:79-135 | says of every name what one pass does: desired and kept with exactly the due subjects, desired but deleted, stale and deleted, or untouched; a quiet state is left without a write |
| BindingPass.DoomedName | pkg/controllers/clusterset/syncclusterrolebinding/syncclusterrolebinding_controller.go:120-128 | a desired cluster's binding is deleted exactly when its last segment is non-empty and no desired cluster; never for names without a colon |
| BindingPass.PassConverges | pkg/controllers/clusterset/syncclusterrolebinding/syncclusterrolebinding_controller.go:79-135 | after one pass from any state, a colon-free cluster has a role-labelled binding exactly if some subject is due on it, and then for exactly the due subjects |
| BindingPass.ColonNameIsLost | pkg/controllers/clusterset/syncclusterrolebinding/syncclusterrolebinding_controller.go:124-133 | of the functions alone, whatever names clusters may have: a cluster a:b with a due subject has no binding after the pass |
| BindingPass.OtherBindingsStay | pkg/controllers/clusterset/syncclusterrolebinding/syncclusterrolebinding_controller.go:112-134 | a pass leaves alone every binding without the role's label or without its prefix, unless it has the name of a desired cluster's binding |
| BindingPass.NextPassIsSilentExactlyWhen | pkg/controllers/clusterset/syncclusterrolebinding/syncclusterrolebinding_controller.go:85-92 | after a pass, the next one has nothing to write in any order exactly if no desired binding is deleted and each carries the label of every non-global set that holds its cluster |
| BindingPass.SecondPassIsSilent | pkg/controllers/clusterset/syncclusterrolebinding/syncclusterrolebinding_controller.go:79-135 | with no cluster in two sets, as in the admin pass, colon-free names and duplicate-free subjects that is always so |
| BindingRuns.AtMostOneMoreWrite | pkg/controllers/clusterset/syncclusterrolebinding/syncclusterrolebinding_controller.go:85-92 | with no cluster in two sets besides the global one, as in the view pass, over any run of passes a binding changes at most once after the first, and is then at rest |
| BindingRuns.PassesComeToRest | pkg/controllers/clusterset/syncclusterrolebinding/syncclusterrolebinding_controller.go:79-135 | so the passes after the first change something at most as often as there are bindings not yet at rest, and never from a quiet state |
| BindingRuns.ChangedComesToRest | pkg/controllers/clusterset/syncclusterrolebinding/syncclusterrolebinding_controller.go:85-92 | a pass that changes a right binding brings it to rest, and leaves one at rest as it is |
| BindingRuns.PassShrinks | pkg/controllers/clusterset/syncclusterrolebinding/syncclusterrolebinding_controller.go:79-135 | every further pass that changes anything leaves fewer bindings that may still be written to |
| BindingPass.LabelsCanRest | pkg/controllers/clusterset/syncclusterrolebinding/syncclusterrolebinding_controller.go:154-158 | labels that satisfy every answer about a cluster's set exist exactly if it is in at most one non-global set |
| BindingPass.Reconcile | pkg/controllers/clusterset/syncclusterrolebinding/syncclusterrolebinding_controller.go:63-71 | the admin pass over the mapper, then the view pass over the union with the global mapper |
| BindingPass.PassesAreApart | pkg/controllers/clusterset/syncclusterrolebinding/syncclusterrolebinding_controller.go:117-128 | the view pass touches no admin binding |
| BindingPass.AdminBindingImpliesViewBinding | pkg/controllers/clusterset/syncclusterrolebinding/syncclusterrolebinding_controller.go:63-71 | after a reconcile from one snapshot, with any earlier records of which the stale ones are viewed, whoever is in a cluster's admin binding is in its view binding |
| EndToEnd.LabelsDecideBindings | pkg/controllers/clusterset/syncclusterrolebinding/syncclusterrolebinding_controller.go:63-135 | with the queue drained, both caches synchronized over any earlier records and a reconcile done, a subject is in a cluster's admin binding exactly if the cluster's label names a live set that its admin record reaches, and in its view binding exactly if its view record reaches that set or a global set holding the cluster |
| EndToEnd.GrantsDecideBindings | pkg/controllers/clusterset/syncclusterrolebinding/syncclusterrolebinding_controller.go:63-135 | the same said of the RBAC objects alone, when nothing stale is recorded |
| EndToEnd.RulesDecideWhoIsNamed | pkg/controllers/clusterset/syncclusterrolebinding/syncclusterrolebinding_controller.go:63-135 | then a user or group is named in a cluster's admin binding exactly if it is no service account or system subject and a single rule bound to it permits administering the live set of the cluster's label; in its view binding exactly if one permits viewing that set or a global set holding the cluster |
| EndToEnd.GrantedNames | pkg/utils/clusterset/clusterset.go:78-117 | whom the granted subjects of a set name: the ordinary holders that a rule entitles to it |
| EndToEnd.BindingMeansRecorded | pkg/controllers/clusterset/syncclusterrolebinding/syncclusterrolebinding_controller.go:79-135 | after a pass over any mapper, being in a cluster's binding means standing for someone whose record reaches a set holding the cluster |
| EndToEnd.DueMeansRecorded | pkg/utils/clusterset/clusterset.go:52-117 | the same for the subjects due on a cluster, from the caches through the inversion to the merged lists |
| EndToEnd.MayUseMeansGranted | pkg/cache/subjectrecord.go:191-264 | with nothing stale, a record has a set exactly when some binding lists it and it exists |
| EndToEnd.InExactlyItsSet | pkg/controllers/clusterset/clustersetmapper/clusterset_controller.go:282-306 | at rest the mapper has a cluster under the set of its label, if live, and under no other |
| MapperQueue.OutsideKeeps | pkg/controllers/clusterset/clustersetmapper/clusterset_controller.go:60-134 | label changes and set creation or deletion keep the invariant, by the events they cause |
| MapperQueue.DeliverKeeps | pkg/controllers/clusterset/clustersetmapper/clusterset_controller.go:115-163 | so does mapping any pending event to requests, for the old and the new object |
| MapperQueue.LabelEventQueues | pkg/controllers/clusterset/clustersetmapper/clusterset_controller.go:136-163 | a label event queues the sets of the old and the new label and, if the mapper holds the cluster anywhere, a set under which it does, and nothing else |
| MapperQueue.WorkerKeeps | pkg/controllers/clusterset/clustersetmapper/clusterset_controller.go:165-214 | so does every step of Reconcile, failing calls included, also one after the mapper was written |
| MapperQueue.RunKeepsInv | pkg/controllers/clusterset/clustersetmapper/clusterset_controller.go:165-214 | the invariant holds in every reachable state |
| MapperQueue.DisagreementIsQueued | pkg/controllers/clusterset/clustersetmapper/clusterset_controller.go:115-214 | in every reachable state a set the mapper is wrong about is queued, about to be queued or in work, and a mapper entry belongs to a set with the finalizer |
| MapperQueue.QuietIsExact | pkg/controllers/clusterset/clustersetmapper/clusterset_controller.go:282-306 | with nothing queued, pending or in work the mapper is exact |
| MapperQueue.ReconcileOnceKeeps | pkg/controllers/clusterset/clustersetmapper/clusterset_controller.go:165-214 | an undisturbed Reconcile keeps the invariant, takes its set from the queue and causes an event only when it changes a finalizer |
| MapperQueue.ReconcileWithKeeps | pkg/controllers/clusterset/clustersetmapper/clusterset_controller.go:165-214 | whichever call fails, the invariant holds and the set is queued again unless the reconcile was complete |
| MapperQueue.FaultsLeave | pkg/controllers/clusterset/clustersetmapper/clusterset_controller.go:173-214 | whichever call fails, finalizer and mapper entry are each as before or as after a complete reconcile, in the order in which the code changes them |
| MapperQueue.Settle | pkg/controllers/clusterset/clustersetmapper/clusterset_controller.go:165-214 | without further changes, delivering events and then reconciling, in any order of the queue, ends with an exact mapper |
| QuietRuns.QuietRunsSettle | pkg/controllers/clusterset/clustersetmapper/clusterset_controller.go:115-214 | from any state with the invariant, every interleaving of deliveries and worker steps, whose calls fail only when a set has changed since it was read, is bounded in length, and where none is possible any more the mapper is exact |
| QuietRuns.ProgressIsLess | pkg/controllers/clusterset/clustersetmapper/clusterset_controller.go:165-214 | each step of the worker lowers that bound and changes no label and no set's being live |
| QuietRuns.StuckMeansDone | pkg/controllers/clusterset/clustersetmapper/clusterset_controller.go:165-214 | such a run cannot get stuck with anything queued, pending or in work |
| ClusterSetController.Controller.Reconcile | pkg/controllers/clusterset/clustersetmapper/clusterset_controller.go:165-214 | the imperative Reconcile, with a failure at any call, does exactly what the worker's steps do |
| ClusterSetController.Controller.CleanUp | pkg/controllers/clusterset/clustersetmapper/clusterset_controller.go:174-190 | the branch for a set being deleted: roles, mapper, finalizer, each failure requeued |
| ClusterSetController.Controller.Sync | pkg/controllers/clusterset/clustersetmapper/clusterset_controller.go:193-213 | the branch for a live set: finalizer, roles, clusters, namespaces, each failure requeued |
| ClusterSetController.Controller.GenerateClusters | pkg/controllers/clusterset/clustersetmapper/clusterset_controller.go:309-322 | the clusters that the set's selector matches |
| Watcher.CacheWatcher.constructor | pkg/cache/watcher.go:72-105 | the stream is well formed and replays to what is known, from nothing when existing resources are asked for |
| Watcher.CacheWatcher.GroupMembershipChanged | pkg/cache/watcher.go:107-160 | what is known becomes exactly the told names, as far as they can be looked up or were known; the new events are exactly the difference, at most one a name; the stream stays well formed and replays to what is known |
| Watcher.CacheWatcher.DropGone | pkg/cache/watcher.go:112-126 | the first loop deletes and announces exactly the known names that are not told |
| Watcher.CacheWatcher.AddListed | pkg/cache/watcher.go:128-159 | the second loop announces exactly the told names that are new or have a new version |
| Watcher.CacheWatcher.Emit | pkg/cache/watcher.go:164-206 | the consumer emits initial resources first and then the channel in order; the stream as a whole is unchanged |
| Watcher.CacheWatcher.DrainedIsKnown | pkg/cache/watcher.go:164-206 | what has been emitted replays to what is known once nothing is left to emit |
| Watcher.Follow | pkg/cache/subjectrecord.go:338-344 | a run of notifications to a watcher |
| Watcher.OnlyTheLastCounts | pkg/cache/watcher.go:107-160 | over any run only the last notice that reached the user decides what is known |
| Watcher.WatchMatchesListingExactlyWhen | pkg/cache/subjectrecord.go:243-312 | over every order in which the loops may tell their notices, the watch shows what listing gives, names and versions, if and only if the last word is the whole list: nothing is listed for a user one of whose holders is dropped; otherwise each of the user's groups with a grant, or without one the user, is granted all that is listed; or nothing is told and what was shown is what listing gives now |
| Watcher.ListedIsListed | pkg/cache/managedclusterset.go:67-90 | what listing gives after a synchronization are the names in the records of the user and the groups whose object exists |
| Watcher.LastWordMeans | pkg/cache/subjectrecord.go:243-260 | that is the condition that every notice which may come last has the whole list |
| Watcher.HeardMeansShown | pkg/cache/subjectrecord.go:338-344 | what is shown are the names of the last notice that reached the user, all of which exist |
| Scenarios.WatchForgetsOtherGroups | pkg/cache/subjectrecord.go:248-251 | two groups, each granted one set: an order in which a synchronization tells them, after which a member of both is shown one set while listing gives both |
| Scenarios.StaleRecordStays | pkg/cache/subjectrecord.go:217-263 | two synchronizations after which a user's admin record has a set that nothing grants any more, and that the view record has not |
| Scenarios.DeletedSetStays | pkg/cache/subjectrecord.go:217-263 | two synchronizations with the deletion of a user's only set in between: the second tells nobody, the watch goes on showing the set, listing does not give it |
| Watchers.WatcherList.RemoveWatcher | pkg/cache/subjectrecord.go:321-336 | the in-place shift removes exactly the first occurrence and keeps the order |
| Watchers.RemoveUndoesAdd | pkg/cache/subjectrecord.go:314-336 | removing undoes adding, whoever was added after |
| Projects.ToSubjects | pkg/proxyserver/rest/project/index.go:94-153 | an error exactly when a part is malformed or both fields are missing (an empty list is none); otherwise exactly the named subjects, plural ones winning |
| Projects.IndexBySubject | pkg/proxyserver/rest/project/index.go:16-92 | an error exactly when something is malformed; otherwise one key for every subject that some binding names |
| Projects.SplitOfKey | pkg/proxyserver/rest/project/index.go:155-169 | splitting a key gives back namespace, name and subject; only a kind with a slash is misread |
| Projects.CheckClusterRoleBinding | pkg/proxyserver/rest/project/list.go:151-173 | true exactly when the binding gives a kubevirt role to the user or a group |
| Projects.BoundExactlyWhen | pkg/proxyserver/rest/project/list.go:115-126 | bound are exactly the references by which a binding names the user or one of its groups |
| Projects.GrantsExactlyWhen | pkg/proxyserver/rest/project/list.go:147-173 | a grant read off the fields: nothing malformed, one of the three kubevirt roles, and a subject with kind and name of the user or of a group |
| Projects.ListProjects | pkg/proxyserver/rest/project/list.go:19-113 | exactly the projects the permission shows: all of them for a cluster-wide kubevirt grant, otherwise the namespaces of granting role bindings, with malformed parts hiding what follows |
| Projects.ShownIsMentioned | pkg/proxyserver/rest/project/list.go:19-126 | whoever is shown a project is named by a binding |
| Projects.IndexMissesNothing | pkg/proxyserver/rest/project/rest.go:97-117 | whatever some permission shows the user, some index key leads to |
| Projects.List | pkg/proxyserver/rest/project/rest.go:91-122 | the list through the index equals the scan of all permissions, once each and sorted by cluster, for slash-free namespaces and names; without that it still shows nothing more |
| Projects.AtMostExactlyWhen | pkg/proxyserver/rest/project/rest.go:120-122 | the order of the list is the lexical one: a prefix, or smaller at the first difference |
| ClientConfigs.UpdateClientConfig | pkg/controllers/clusterca/clusterca_controller.go:101-137 | the first entry at the reported or last applied URL is overwritten in place, or the reported one put in front; an update is asked for exactly when the list changes |
| ClientConfigs.MergedTwice | pkg/controllers/clusterca/clusterca_controller.go:101-137 | merging again with the old or the new URL changes nothing, and all other entries stay in order |
| ClientConfigs.Reconciler.Reconcile | pkg/controllers/clusterca/clusterca_controller.go:58-96 | the two writes, each of which may fail; writes happen exactly when the state changes |
| ClientConfigs.FaultsStopWrites | pkg/controllers/clusterca/clusterca_controller.go:78-94 | a write that is not made cannot fail, and the last applied URL is written only once the list is as reported |
| ClientConfigs.Converges | pkg/controllers/clusterca/clusterca_controller.go:78-94 | however often a write fails, the first reconcile that succeeds comes to what the very first would have, and there it stays |
| ClientConfigs.OneEntryFollowsExactlyWhen | pkg/controllers/clusterca/clusterca_controller.go:58-137 | over any run of reports and faults the list is one managed entry, the last report written, and the user's own entries, if and only if each change of the URL happened while the last applied URL was that of the managed entry; otherwise it is longer |
| ClientConfigs.OneWrite | pkg/controllers/clusterca/clusterca_controller.go:108-136 | a write replaces the managed entry if its URL is the reported or the last applied one, and otherwise leaves it behind the new one |
| ClientConfigs.FaultFreeRunsAreTracked | pkg/controllers/clusterca/clusterca_controller.go:78-94 | without faults and empty reports that condition always holds |
| ClientConfigs.LengthStaysExactlyWhen | pkg/controllers/clusterca/clusterca_controller.go:58-137 | whatever the list holds, over any run it keeps its length if and only if each write found an entry at the reported or the last applied URL |
| ClientConfigs.OthersStay | pkg/controllers/clusterca/clusterca_controller.go:108-136 | whatever the list holds, over any run the entries at none of the URLs in play stay, in order |
| ClientConfigs.ChangeAfterFaultLeavesEntry | pkg/controllers/clusterca/clusterca_controller.go:78-94 | a change after a failed status write leaves an entry behind |
| ClientConfigs.EmptyReportLeavesEntry | pkg/controllers/clusterca/clusterca_controller.go:86-106 | so does an empty report in between |
| Varint.SovIsLeast | pkg/proxyserver/apis/proxy/v1beta1/generated.pb.go:315-317 | sovGenerated(x) is the least n >= 1 with x < 128^n |
| Varint.BytesLength | pkg/proxyserver/apis/proxy/v1beta1/generated.pb.go:265-275 | the varint of x has sovGenerated(x) bytes |
| Varint.BytesAtMostTen | pkg/proxyserver/apis/proxy/v1beta1/generated.pb.go:315-317 | a 64-bit value takes at most ten bytes |
| Varint.EncodeVarint | pkg/proxyserver/apis/proxy/v1beta1/generated.pb.go:265-275 | writes exactly the varint's bytes so that they end at the offset, and changes no other byte |
| Varint.Low64IsModulo | pkg/proxyserver/apis/proxy/v1beta1/generated.pb.go:371-384 | the cut to 64 bits is reduction modulo 2^64 |
| Varint.DecodeTurn | pkg/proxyserver/apis/proxy/v1beta1/generated.pb.go:371-384 | one turn of the decode loop adds the next seven bits, cut to 64 bits |
| Varint.OrAddsDisjointBits | pkg/proxyserver/apis/proxy/v1beta1/generated.pb.go:371-384 | the bitwise or of the loop is an addition at every shift it uses |
| Varint.DecodeVarint | pkg/proxyserver/apis/proxy/v1beta1/generated.pb.go:371-384 | overflow after ten continued bytes, truncation at the end of the data, otherwise the payload modulo 2^64 and the next offset |
| Varint.VarintRoundTrip | pkg/proxyserver/apis/proxy/v1beta1/generated.pb.go:371-384 | decoding returns x for the varint of every 64-bit x, wherever it stands |
| Wire.TokenStep | pkg/proxyserver/apis/proxy/v1beta1/generated.pb.go:647-724 | counting depth and reading nested groups recursively come to the same, token by token |
| Wire.NextToken | pkg/proxyserver/apis/proxy/v1beta1/generated.pb.go:651-716 | the switch on the wire type, with its overflow, length and end-of-data errors |
| Wire.SkipGenerated | pkg/proxyserver/apis/proxy/v1beta1/generated.pb.go:647-724 | on every byte string the loop ends and yields what the grammar of one field does: an offset only for balanced group tags, otherwise the error |
| Wire.ConversionsWrap | pkg/proxyserver/apis/proxy/v1beta1/generated.pb.go:385-416 | the conversions to int32 and int and the sum of ints keep the value modulo the width and stay in range |
| WireGrammar.SkipsExactlyFields | pkg/proxyserver/apis/proxy/v1beta1/generated.pb.go:647-724 | within the data, skipping yields an offset exactly if the bytes up to it are one field of the encoding: varint, eight or four bytes, length and payload, or a group of such fields with its closing tag |
| WireGrammar.SkipsVarint | pkg/proxyserver/apis/proxy/v1beta1/generated.pb.go:669-681 | behind an encoded tag of type 0, skipping ends after the varint |
| WireGrammar.SkipsFixed | pkg/proxyserver/apis/proxy/v1beta1/generated.pb.go:682-683 | behind one of type 1 after eight bytes, of type 5 after four |
| WireGrammar.SkipsDelimited | pkg/proxyserver/apis/proxy/v1beta1/generated.pb.go:684-703 | behind one of type 2 after as many bytes as the length says |
| WireGrammar.SkipsGroups | pkg/proxyserver/apis/proxy/v1beta1/generated.pb.go:704-710 | behind one of type 3 after the closing tag, whatever fields and groups lie between |
| WireGrammar.SkipsNothingElse | pkg/proxyserver/apis/proxy/v1beta1/generated.pb.go:706-715 | a closing tag and the unused wire types are errors |
| WireGrammar.SkipsNoBadTag | pkg/proxyserver/apis/proxy/v1beta1/generated.pb.go:651-665 | ten continued bytes overflow, data that end within a tag are cut short |
| Messages.ListSize | pkg/proxyserver/apis/proxy/v1beta1/generated.pb.go:287-303 | Size is the number of bytes of the encoding |
| Messages.MarshalOptionsTo | pkg/proxyserver/apis/proxy/v1beta1/generated.pb.go:252-263 | the encoding ends at the given offset and no other byte changes |
| Messages.MarshalStatusTo | pkg/proxyserver/apis/proxy/v1beta1/generated.pb.go:172-188 | likewise, with the metadata codec a parameter |
| Messages.MarshalListTo | pkg/proxyserver/apis/proxy/v1beta1/generated.pb.go:205-235 | items from last to first, then the metadata: the encoding fills the end of the buffer without a gap |
| Messages.MarshalList | pkg/proxyserver/apis/proxy/v1beta1/generated.pb.go:190-198 | Marshal yields exactly the encoding |
| Messages.MarshalOptions | pkg/proxyserver/apis/proxy/v1beta1/generated.pb.go:237-245 | Marshal yields exactly the encoding, of Size bytes |
| Unmarshal.NextTurn | pkg/proxyserver/apis/proxy/v1beta1/generated.pb.go:368-440 | the tag, type, length and bounds checks of one turn, with 64-bit wrap-around, and skipping of unknown fields |
| MessageGrammar.UnmarshalsExactlyWhen | pkg/proxyserver/apis/proxy/v1beta1/generated.pb.go:365-447 | unmarshalling succeeds exactly on sequences of fields with positive numbers, of which the known ones are delimited and accepted, and yields what these make when applied in order |
| MessageGrammar.ReadsParts | pkg/proxyserver/apis/proxy/v1beta1/generated.pb.go:365-447 | reading such a sequence applies its known fields in order, and fails as the first of them that is not accepted does |
| MessageGrammar.CutFieldFails | pkg/proxyserver/apis/proxy/v1beta1/generated.pb.go:371-440 | a field that is cut short anywhere is an error |
| MessageGrammar.TagFails | pkg/proxyserver/apis/proxy/v1beta1/generated.pb.go:385-397 | the errors for a closing tag, the field number zero and a known field of another wire type |
| MessageGrammar.LengthFails | pkg/proxyserver/apis/proxy/v1beta1/generated.pb.go:398-422 | a length that is no int or leaves the range is invalid, one past the end of the data an unexpected end |
| Unmarshal.UnmarshalWith | pkg/proxyserver/apis/proxy/v1beta1/generated.pb.go:365-447 | the loop ends on every byte string, never reads outside it, and applies known fields in order |
| Unmarshal.OptionsRoundTrip | pkg/proxyserver/apis/proxy/v1beta1/generated.pb.go:565-646 | unmarshalling undoes marshalling of ClusterStatusProxyOptions |
| Unmarshal.StatusRoundTrip | pkg/proxyserver/apis/proxy/v1beta1/generated.pb.go:365-447 | unmarshalling undoes marshalling of ClusterStatus, given a metadata codec that does |
| Unmarshal.ItemsRead | pkg/proxyserver/apis/proxy/v1beta1/generated.pb.go:448-564 | reading marshalled items appends them in order |
| Unmarshal.ListRoundTrip | pkg/proxyserver/apis/proxy/v1beta1/generated.pb.go:448-564 | unmarshalling undoes marshalling of ClusterStatusList |
| Unmarshal.ConcatenationMerges | pkg/proxyserver/apis/proxy/v1beta1/generated.pb.go:365-447 | reading two encodings one after the other merges the messages |
| Unmarshal.OptionsLastWins | pkg/proxyserver/apis/proxy/v1beta1/generated.pb.go:565-646 | of two options in a row the last path counts |
| Unmarshal.StatusesMerge | pkg/proxyserver/apis/proxy/v1beta1/generated.pb.go:365-447 | the metadata of a second status are read into those of the first |
| Unmarshal.ListsMerge | pkg/proxyserver/apis/proxy/v1beta1/generated.pb.go:448-564 | a second list has its metadata read into those of the first and its items appended |
| Unmarshal.UnknownFieldIgnored | pkg/proxyserver/apis/proxy/v1beta1/generated.pb.go:425-440 | a well-formed unknown field, groups included, may stand between any two fields without effect |

## Left out

- BindingSync.Server.Apply: that the API server refuses to change a role reference is not modelled, nor are write conflicts.
- BindingPass.Reconcile: no call fails, and the lister shows what the server holds.
- AuthCache.RecordCache.Synchronize: the resources that exist are read together with the bindings.
- Coverage.MergeOrAppend: scopes are the two that exist. Appending always makes a new array, so sharing of spare slice capacity is not captured; namespace lists are values.
- Permissions.PermissionStore.GetPermissions: the nested maps of records are one map keyed by holder and role; the namespace lists that an answer shares with the records are values, so that they are not written to holds by construction.
- SetMapper.ClusterSetMapper.UpdateClusterSetByObjects: sets are values, so two mappers that share one Go set are not captured.
- Watcher.CacheWatcher.GroupMembershipChanged: the channel never fills up; the overflow branch and the stop and error channels are not modelled.
- PermissionCache.Cache.Synchronize: each processor, and the hash, sees one snapshot while it runs.
- Projects.List: permissions whose index function fails never get into the indexer; the generated object names and the forbidden answer without a user are left out.
- ClientConfigs.OneEntryFollowsExactlyWhen: the user's own entries have none of the URLs in play; `ClientConfigs.LengthStaysExactlyWhen` and `ClientConfigs.OthersStay` take any list.
- ClientConfigs.UpdateClientConfig: a nil and an empty certificate bundle are the same.
- Varint.DecodeVarint: the bitwise or is written as an addition, which `Varint.OrAddsDisjointBits` justifies.
- Messages.MarshalStatusTo: the codecs of the embedded ObjectMeta and ListMeta are parameters.
- Propagation.GenerateClustersetSubjects: how a service account's user name is taken apart is a parameter, of which statements about people assume that it splits only such names, at the ends of the namespace.
- MapperQueue.OutsideKeeps: nobody else takes this controller's finalizer away; a set that loses it and disappears would keep its mapper entry.
- MapperQueue.Settle: one worker, exclusive sets only; label-selector sets, the contents of the namespace mapper and of the cluster roles that Reconcile applies are left out.
- ClusterSetController.Controller.Reconcile: the same; cluster roles and namespaces are calls that may fail.
- ClusterSetController.Controller.CleanUp: deleting the cluster roles and the namespace mapper's entry is a call that may fail.
- ClusterSetController.Controller.Sync: applying the cluster roles and listing the namespaces are calls that may fail.
- Watcher.CacheWatcher.Emit: the error and stop channels are left out.
- The role binding sync for namespaces, which has the same shape as the cluster role binding sync.
- Kubernetes clients, informers, HTTP and TLS servers, options, health probes.
- Cluster claims, version and product tables, node collection, printers, OpenAPI, webhooks, the image registry controller, agents, generated deep copies and descriptors.
