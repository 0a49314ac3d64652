/** The cache of which named resources each user and group may administer or view. */
module AuthCache {
  import opened Rbac

  /** Names of resources by user or group. */
  type Records = map<Holder, set<string>>

  // ------------------------------------------------------------------ matching rules (role.go)

  datatype Level = AdminLevel | ViewLevel

  predicate VerbsMatch(level: Level, verbs: seq<string>) {
    match level
    case AdminLevel => ("update" in verbs && ("get" in verbs || "list" in verbs)) || "*" in verbs
    case ViewLevel => "get" in verbs || "list" in verbs || "*" in verbs
  }

  datatype Target = Target(group: string, resource: string)

  /** The group, the verbs and the resource of the rule match; no subresource is asked for. */
  predicate Matches(rule: PolicyRule, level: Level, t: Target) {
    && ("*" in rule.apiGroups || t.group in rule.apiGroups)
    && VerbsMatch(level, rule.verbs)
    && ("*" in rule.resources || t.resource in rule.resources)
  }

  /** What a level takes, in terms of what the rule permits: updating and reading for admin,
      reading for view. */
  predicate Suffices(rule: PolicyRule, level: Level, t: Target) {
    var read := Permits(rule, "get", t.group, t.resource) || Permits(rule, "list", t.group, t.resource);
    match level
    case AdminLevel => Permits(rule, "update", t.group, t.resource) && read
    case ViewLevel => read
  }

  /** The matchers ask for exactly that. */
  lemma MatchesExactlyWhen(rule: PolicyRule, level: Level, t: Target)
    ensures Matches(rule, level, t) <==> Suffices(rule, level, t)
  {
  }

  ghost predicate AllNames(role: ClusterRole, level: Level, t: Target) {
    exists rule :: rule in role.rules && Matches(rule, level, t) && rule.resourceNames == []
  }

  ghost predicate NamesOne(role: ClusterRole, level: Level, t: Target, name: string) {
    exists rule :: rule in role.rules && Matches(rule, level, t) && name in rule.resourceNames
  }

  /** getResourceFromClusterRole: stops at the first matching rule that names nothing. */
  method GetResources(role: ClusterRole, level: Level, t: Target) returns (names: set<string>, all: bool)
    ensures all <==> AllNames(role, level, t)
    ensures !all ==> forall name :: name in names <==> NamesOne(role, level, t, name)
  {
    names := {};
    for i := 0 to |role.rules|
      invariant forall k :: 0 <= k < i ==> !(Matches(role.rules[k], level, t) && role.rules[k].resourceNames == [])
      invariant forall name :: name in names <==>
                  exists k :: 0 <= k < i && Matches(role.rules[k], level, t) && name in role.rules[k].resourceNames
    {
      var rule := role.rules[i];
      if Matches(rule, level, t) {
        if |rule.resourceNames| == 0 {
          assert rule in role.rules;
          return names, true;
        }
        names := names + set n | n in rule.resourceNames;
      }
    }
    return names, false;
  }

  // ------------------------------------------------------------------ what the bindings say

  /** Cluster roles and cluster role bindings as listed, and the resources that exist. */
  datatype Inputs = Inputs(
    roles: map<string, ClusterRole>, bindings: map<string, ClusterRoleBinding>, known: set<string>)

  /** The resource is in the binding's list, existing or not; a role that names nothing
      stands for the known resources. */
  ghost predicate Lists(s: Inputs, level: Level, t: Target, n: string, r: string) {
    && n in s.bindings && s.bindings[n].roleRef.name in s.roles
    && var role := s.roles[s.bindings[n].roleRef.name];
       if AllNames(role, level, t) then r in s.known else NamesOne(role, level, t, r)
  }

  ghost predicate Binds(s: Inputs, n: string, h: Holder) {
    n in s.bindings && h in HoldersOf(s.bindings[n].subjects, "")
  }

  /** Some binding with a non-empty list names the holder. */
  ghost predicate Mentioned(s: Inputs, level: Level, t: Target, h: Holder) {
    exists n, r :: Binds(s, n, h) && Lists(s, level, t, n, r)
  }

  ghost predicate GrantedTo(s: Inputs, level: Level, t: Target, h: Holder, r: string) {
    r in s.known && exists n :: Binds(s, n, h) && Lists(s, level, t, n, r)
  }

  /** The union of the known resources over the holder's bindings. */
  ghost function GrantSet(s: Inputs, level: Level, t: Target, h: Holder): set<string> {
    set r | r in s.known && GrantedTo(s, level, t, h, r)
  }

  /** The binding names the holder, and its cluster role has the rule, which suffices. */
  ghost predicate BindsRule(s: Inputs, level: Level, t: Target, n: string, h: Holder, rule: PolicyRule) {
    && Binds(s, n, h) && s.bindings[n].roleRef.name in s.roles
    && rule in s.roles[s.bindings[n].roleRef.name].rules && Suffices(rule, level, t)
  }

  /** Whether the binding's role has a rule that stands for all resources, and which it names. */
  lemma RulesOfBinding(s: Inputs, level: Level, t: Target, n: string, h: Holder)
    requires Binds(s, n, h) && s.bindings[n].roleRef.name in s.roles
    ensures var role := s.roles[s.bindings[n].roleRef.name];
            && (AllNames(role, level, t) <==>
                exists rule :: BindsRule(s, level, t, n, h, rule) && rule.resourceNames == [])
            && forall r :: NamesOne(role, level, t, r) <==>
                 exists rule :: BindsRule(s, level, t, n, h, rule) && r in rule.resourceNames
  {
    hide HoldersOf, Suffices, Matches;
    var role := s.roles[s.bindings[n].roleRef.name];
    forall rule ensures BindsRule(s, level, t, n, h, rule) <==> rule in role.rules && Matches(rule, level, t) {
      MatchesExactlyWhen(rule, level, t);
    }
  }

  /** The grants, read off the rules: a known resource is granted exactly when a single rule
      bound to the holder permits what the level takes, on all names or on this one. */
  lemma GrantedExactlyWhen(s: Inputs, level: Level, t: Target, h: Holder, r: string)
    ensures r in GrantSet(s, level, t, h) <==>
              && r in s.known
              && exists n, rule :: BindsRule(s, level, t, n, h, rule)
                                && (rule.resourceNames == [] || r in rule.resourceNames)
  {
    hide HoldersOf, Suffices, AllNames, NamesOne;
    if n :| Binds(s, n, h) && Lists(s, level, t, n, r) {
      RulesOfBinding(s, level, t, n, h);
    }
    if n, rule :| BindsRule(s, level, t, n, h, rule) && (rule.resourceNames == [] || r in rule.resourceNames) {
      RulesOfBinding(s, level, t, n, h);
      assert r in s.known ==> Lists(s, level, t, n, r);
    }
  }

  /** The rule stands for all resources, and some exists; or it names some, existing or not, and no
      rule of the binding stands for all. */
  ghost predicate NamesSomething(s: Inputs, level: Level, t: Target, n: string, h: Holder, rule: PolicyRule) {
    if rule.resourceNames == [] then s.known != {}
    else forall other :: BindsRule(s, level, t, n, h, other) ==> other.resourceNames != []
  }

  /** Who is mentioned, read off the rules. */
  lemma MentionedExactlyWhen(s: Inputs, level: Level, t: Target, h: Holder)
    ensures Mentioned(s, level, t, h) <==>
              exists n, rule :: BindsRule(s, level, t, n, h, rule) && NamesSomething(s, level, t, n, h, rule)
  {
    hide HoldersOf, Suffices, AllNames, NamesOne;
    if n, r :| Binds(s, n, h) && Lists(s, level, t, n, r) {
      RulesOfBinding(s, level, t, n, h);
      var all := AllNames(s.roles[s.bindings[n].roleRef.name], level, t);
      var rule :| && BindsRule(s, level, t, n, h, rule)
                  && if all then rule.resourceNames == [] else r in rule.resourceNames;
      assert NamesSomething(s, level, t, n, h, rule);
    }
    if n, rule :| BindsRule(s, level, t, n, h, rule) && NamesSomething(s, level, t, n, h, rule) {
      RulesOfBinding(s, level, t, n, h);
      var r := if rule.resourceNames != [] then rule.resourceNames[0] else var k :| k in s.known; k;
      assert Lists(s, level, t, n, r);
    }
  }

  /** What admin lists, view lists. */
  lemma AdminListsAreViewLists(s: Inputs, t: Target, n: string, r: string)
    requires Lists(s, AdminLevel, t, n, r) && r in s.known
    ensures Lists(s, ViewLevel, t, n, r)
  {
  }

  /** From one snapshot, a holder's admin resources are among its view resources. */
  lemma AdminGrantsAreViewGrants(s: Inputs, t: Target, h: Holder)
    ensures GrantSet(s, AdminLevel, t, h) <= GrantSet(s, ViewLevel, t, h)
  {
  }

  // ------------------------------------------------------------------ the skip token

  /** The last resource versions of the cached objects, the cluster roles and the bindings. */
  datatype Versions = Versions(objects: string, roles: string, bindings: string)

  /** SkipSynchronize: the versions of roles and bindings are joined without a separator. */
  function Token(v: Versions): string {
    v.objects + "," + (v.roles + v.bindings)
  }

  /** Equal tokens mean equal versions exactly when the role versions have equal length, and
      so whenever neither version gets shorter. */
  lemma TokenDecides(v: Versions, v': Versions)
    requires ',' !in v.objects && ',' !in v'.objects && Token(v) == Token(v')
    ensures v == v' <==> |v.roles| == |v'.roles|
    ensures |v.roles| <= |v'.roles| && |v.bindings| <= |v'.bindings| ==> v == v'
  {
    var l := Token(v);
    var o, o' := v.objects, v'.objects;
    assert l[|o|] == ',' && l[|o'|] == ',';
    assert forall i :: 0 <= i < |o| ==> l[i] == o[i];
    assert forall i :: 0 <= i < |o'| ==> l[i] == o'[i];
    assert l[..|o|] == o && l[..|o'|] == o';
    var rest := l[|o| + 1..];
    assert rest == v.roles + v.bindings && rest == v'.roles + v'.bindings;
    assert rest[..|v.roles|] == v.roles && rest[|v.roles|..] == v.bindings;
    assert rest[..|v'.roles|] == v'.roles && rest[|v'.roles|..] == v'.bindings;
  }

  /** In general the token does not tell versions apart; here the roles' version grows while
      the bindings' version shrinks. */
  lemma TokenIsAmbiguous()
    ensures Token(Versions("7", "1", "23")) == Token(Versions("7", "12", "3"))
  {
  }

  // ------------------------------------------------------------------ the cache

  /** The listing of the resources or of the bindings may fail. */
  datatype Failure = NoFailure | ResourcesFail | BindingsFail

  class RecordCache {
    const level: Level
    const target: Target
    var known: set<Holder>              // users and groups seen in the last synchronization
    var records: Records
    var lastState: string
    var notices: seq<Notice>            // what the watchers were told

    /** No record outlives the knowledge of its subject. */
    ghost predicate Valid()
      reads this
    {
      forall h :: h in records ==> h in known
    }

    constructor (level: Level, target: Target)
      ensures Valid() && known == {} && records == map[] && lastState == "" && notices == []
      ensures this.level == level && this.target == target
    {
      this.level, this.target := level, target;
      known, records, lastState, notices := {}, map[], "", [];
    }

    /** The resource list of one binding, empty when its role is missing. */
    method ResourcesOf(s: Inputs, n: string) returns (resources: set<string>)
      requires n in s.bindings
      ensures forall r :: r in resources <==> Lists(s, level, target, n, r)
    {
      var name := s.bindings[n].roleRef.name;
      if name !in s.roles {
        return {};
      }
      var names, all := GetResources(s.roles[name], level, target);
      resources := if all then s.known else names;
    }

    /** The loop over the bindings: everyone with a non-empty list, and their known resources. */
    method Collect(s: Inputs) returns (mentioned: set<Holder>, grants: Records)
      ensures forall h :: h in mentioned <==> Mentioned(s, level, target, h)
      ensures forall h :: NamesAt(grants, h) == GrantSet(s, level, target, h)
      ensures forall h :: h in grants ==> grants[h] != {}
    {
      hide GrantsOver, MentionedOver;
      mentioned, grants := {}, map[];
      var keys := Listing(s.bindings.Keys);
      NothingOver(s, level, target);
      for i := 0 to |keys|
        invariant forall h :: h in mentioned <==> MentionedOver(s, level, target, keys[..i], h)
        invariant forall h :: NamesAt(grants, h) == GrantsOver(s, level, target, keys[..i], h)
        invariant forall h :: h in grants ==> grants[h] != {}
      {
        assert keys[i] in keys;
        var resources := ResourcesOf(s, keys[i]);
        var holders := {};
        if |resources| > 0 {
          holders := HoldersOf(s.bindings[keys[i]].subjects, "");
          mentioned := mentioned + holders;
          grants := AddToAll(grants, holders, resources * s.known);
        }
        OneMoreBinding(s, level, target, keys, i, resources, holders);
      }
      assert keys[..|keys|] == keys;
      EverythingOver(s, level, target, keys);
    }

    /** synchronizeClusterRoleBindings, and synchronize with its skip test around it. A failed
        listing of the bindings changes no record, yet the token is stored. */
    method Synchronize(s: Inputs, versions: Versions, failure: Failure)
      requires Valid()
      modifies this
      ensures Valid()
      ensures lastState == if failure == ResourcesFail then old(lastState) else Token(versions)
      ensures old(lastState) == Token(versions) || failure != NoFailure ==>
                known == old(known) && records == old(records) && notices == old(notices)
      ensures old(lastState) != Token(versions) && failure == NoFailure ==>
                && (forall h :: h in known <==> Mentioned(s, level, target, h))
                && Synchronized(s, level, target, old(records), records)
                && exists told :: notices == old(notices) + told && Announced(s, level, target, old(known), told)
    {
      if lastState == Token(versions) {
        return;
      }
      if failure == ResourcesFail {
        return;
      }
      lastState := Token(versions);
      if failure == BindingsFail {
        return;
      }
      hide Synchronized, Announced, GrantSet;
      var mentioned, grants := Collect(s);
      var gone := known - mentioned;
      RecordsAreRight(s, level, target, mentioned, grants, known, records);
      records := (records + grants) - gone;
      var told := NoticesFor(grants, gone);
      NoticesAreRight(s, level, target, mentioned, grants, known, told);
      known := mentioned;
      notices := notices + told;
    }

    /** listNames: what the user and the groups have records for. */
    method ListNames(user: string, groups: seq<string>) returns (names: set<string>)
      ensures forall r :: r in names <==> exists h :: h in Asking(user, groups) && r in NamesAt(records, h)
    {
      names := NamesAt(records, User(user));
      for i := 0 to |groups|
        invariant forall r :: r in names <==>
                    || r in NamesAt(records, User(user))
                    || exists k :: 0 <= k < i && r in NamesAt(records, Group(groups[k]))
      {
        names := names + NamesAt(records, Group(groups[i]));
      }
      forall r, g | g in groups && r in NamesAt(records, Group(g)) ensures r in names {
        var k :| 0 <= k < |groups| && groups[k] == g;
      }
    }

    /** ListObjects: the recorded objects that the lister still has, at its versions. */
    method ListObjects(user: string, groups: seq<string>, objects: map<string, string>)
      returns (listed: map<string, string>)
      ensures forall r :: r in listed <==>
                r in objects && exists h :: h in Asking(user, groups) && r in NamesAt(records, h)
      ensures forall r :: r in listed ==> listed[r] == objects[r]
    {
      hide Asking, NamesAt;
      var names := ListNames(user, groups);
      listed := map[];
      var rest := names;
      while rest != {}
        invariant rest <= names
        invariant forall r :: r in listed <==> r in objects && r in names && r !in rest
        invariant forall r :: r in listed ==> listed[r] == objects[r]
        decreases rest
      {
        var r :| r in rest;
        rest := rest - {r};
        if r in objects {
          listed := listed[r := objects[r]];
        }
      }
    }
  }

  /** The records after a synchronization that was not skipped: a subject with some known
      resource has exactly its grants, one that no binding with a list names has none, and
      one named with unknown resources only keeps what it had. */
  ghost predicate Synchronized(s: Inputs, level: Level, t: Target,
                               before: Records, after: Records)
  {
    && (forall h :: GrantSet(s, level, t, h) != {} ==> h in after && after[h] == GrantSet(s, level, t, h))
    && (forall h :: !Mentioned(s, level, t, h) ==> h !in after)
    && (forall h :: Mentioned(s, level, t, h) && GrantSet(s, level, t, h) == {} ==>
          (h in after <==> h in before) && (h in after ==> after[h] == before[h]))
  }

  /** A holder's record after a synchronization, whatever was recorded before. */
  ghost function Recorded(s: Inputs, level: Level, t: Target, before: Records, h: Holder)
    : set<string>
  {
    if GrantSet(s, level, t, h) != {} then GrantSet(s, level, t, h)
    else if Mentioned(s, level, t, h) then NamesAt(before, h)
    else {}
  }

  lemma RecordsAfter(s: Inputs, level: Level, t: Target, before: Records,
                     after: Records)
    requires Synchronized(s, level, t, before, after)
    ensures forall h :: NamesAt(after, h) == Recorded(s, level, t, before, h)
  {
    hide Mentioned, GrantSet;
    GrantsAreMentioned(s, level, t);
    forall h ensures NamesAt(after, h) == Recorded(s, level, t, before, h) {
    }
  }

  /** Nobody who is named only with unknown resources has a record. */
  ghost predicate NothingStale(s: Inputs, level: Level, t: Target, before: Records) {
    forall h :: Mentioned(s, level, t, h) && GrantSet(s, level, t, h) == {} ==> NamesAt(before, h) == {}
  }

  /** The records become the grants if and only if nothing stale is kept. */
  lemma RecordsAreGrantsExactlyWhen(s: Inputs, level: Level, t: Target, before: Records,
                                    after: Records)
    requires Synchronized(s, level, t, before, after)
    ensures (forall h :: NamesAt(after, h) == GrantSet(s, level, t, h)) <==> NothingStale(s, level, t, before)
  {
    hide Mentioned, GrantSet, Synchronized, Recorded;
    RecordsAfter(s, level, t, before, after);
    forall h ensures NamesAt(after, h) == GrantSet(s, level, t, h)
                <==> (Mentioned(s, level, t, h) && GrantSet(s, level, t, h) == {} ==> NamesAt(before, h) == {})
    {
      RecordedIsGranted(s, level, t, before, h);
    }
  }

  lemma RecordedIsGranted(s: Inputs, level: Level, t: Target, before: Records, h: Holder)
    ensures Recorded(s, level, t, before, h) == GrantSet(s, level, t, h)
       <==> (Mentioned(s, level, t, h) && GrantSet(s, level, t, h) == {} ==> NamesAt(before, h) == {})
  {
  }

  /** What an administrator keeps from before, the same holder's view record has. */
  ghost predicate StaleIsViewed(s: Inputs, t: Target, admins: Records, viewers: Records) {
    forall h :: Mentioned(s, AdminLevel, t, h) && GrantSet(s, AdminLevel, t, h) == {} ==>
      NamesAt(admins, h) <= Recorded(s, ViewLevel, t, viewers, h)
  }

  /** From one snapshot, every admin record is within the view record if and only if what
      stays stale is. */
  lemma AdminRecordsAreViewRecordsExactlyWhen(s: Inputs, t: Target, admins: Records,
                                              viewers: Records)
    ensures (forall h :: Recorded(s, AdminLevel, t, admins, h) <= Recorded(s, ViewLevel, t, viewers, h))
       <==> StaleIsViewed(s, t, admins, viewers)
  {
    hide Mentioned, GrantSet;
    forall h ensures Recorded(s, AdminLevel, t, admins, h) <= Recorded(s, ViewLevel, t, viewers, h)
                <==> (Mentioned(s, AdminLevel, t, h) && GrantSet(s, AdminLevel, t, h) == {} ==>
                        NamesAt(admins, h) <= Recorded(s, ViewLevel, t, viewers, h))
    {
      AdminGrantsAreViewGrants(s, t, h);
    }
  }

  /** With nothing stale on the admin side, that is so. */
  lemma NothingStaleIsViewed(s: Inputs, t: Target, admins: Records, viewers: Records)
    requires NothingStale(s, AdminLevel, t, admins)
    ensures StaleIsViewed(s, t, admins, viewers)
  {
  }

  /** Synchronizing again from the same inputs leaves the records as they are. */
  lemma ResyncChangesNothing(s: Inputs, level: Level, t: Target, before: Records,
                             once: Records, twice: Records)
    requires Synchronized(s, level, t, before, once) && Synchronized(s, level, t, once, twice)
    ensures twice == once
  {
    hide Mentioned, GrantSet;
    GrantsAreMentioned(s, level, t);
    forall h ensures (h in twice <==> h in once) && (h in once ==> twice[h] == once[h]) {
      assert GrantSet(s, level, t, h) != {} ==> h in once && h in twice;
    }
  }

  /** A skip leaves the records that a real synchronization would: when versions fix what is
      listed, and the role versions have equal length, as in TokenDecides. */
  lemma SkipIsRight(s: Inputs, v: Versions, s': Inputs, v': Versions, level: Level, t: Target,
                    before: Records, records: Records, resynced: Records)
    requires ',' !in v.objects && ',' !in v'.objects && (v == v' ==> s == s')
    requires Token(v) == Token(v') && |v.roles| == |v'.roles|
    requires Synchronized(s, level, t, before, records) && Synchronized(s', level, t, records, resynced)
    ensures resynced == records
  {
    TokenDecides(v, v');
    ResyncChangesNothing(s, level, t, before, records, resynced);
  }

  /** In the order of the loops: the users and the groups with new lists, then the users and
      the groups that are gone. */
  function Stage(notice: Notice): nat {
    (if notice.names == {} then 2 else 0) + if notice.holder.Group? then 1 else 0
  }

  predicate Staged(told: seq<Notice>) {
    forall i, j :: 0 <= i < j < |told| ==> Stage(told[i]) <= Stage(told[j])
  }

  ghost predicate ToBeTold(s: Inputs, level: Level, t: Target, knownBefore: set<Holder>, notice: Notice) {
    if notice.names != {} then notice.names == GrantSet(s, level, t, notice.holder)
    else notice.holder in knownBefore && !Mentioned(s, level, t, notice.holder)
  }

  /** The watchers are told, once each and stage by stage, of every record that was written and
      of every subject that was dropped, and of nothing else. */
  ghost predicate Announced(s: Inputs, level: Level, t: Target, knownBefore: set<Holder>, told: seq<Notice>) {
    && NoDup(told) && Staged(told)
    && forall notice :: notice in told <==> ToBeTold(s, level, t, knownBefore, notice)
  }

  lemma RecordsAreRight(s: Inputs, level: Level, t: Target, mentioned: set<Holder>, grants: Records,
                        known: set<Holder>, before: Records)
    requires forall h :: h in mentioned <==> Mentioned(s, level, t, h)
    requires forall h :: NamesAt(grants, h) == GrantSet(s, level, t, h)
    requires forall h :: h in grants ==> grants[h] != {}
    requires forall h :: h in before ==> h in known
    ensures Synchronized(s, level, t, before, (before + grants) - (known - mentioned))
    ensures forall h :: h in (before + grants) - (known - mentioned) ==> h in mentioned
  {
  }

  lemma NoticesAreRight(s: Inputs, level: Level, t: Target, mentioned: set<Holder>, grants: Records,
                        known: set<Holder>, told: seq<Notice>)
    requires forall h :: h in mentioned <==> Mentioned(s, level, t, h)
    requires forall h :: NamesAt(grants, h) == GrantSet(s, level, t, h)
    requires forall h :: h in grants ==> grants[h] != {}
    requires NoDup(told) && Staged(told)
    requires forall notice :: notice in told <==>
               || (notice.holder in grants && notice.names == grants[notice.holder])
               || (notice.holder in known - mentioned && notice.names == {})
    ensures Announced(s, level, t, known, told)
  {
  }

  datatype Notice = Notice(holder: Holder, names: set<string>)

  function NamesAt(m: Records, h: Holder): set<string> {
    if h in m then m[h] else {}
  }

  method AddToAll(grants: Records, holders: set<Holder>, names: set<string>)
    returns (more: Records)
    requires forall h :: h in grants ==> grants[h] != {}
    ensures forall h :: NamesAt(more, h) == NamesAt(grants, h) + if h in holders then names else {}
    ensures forall h :: h in more ==> more[h] != {}
  {
    more := grants;
    var rest := holders;
    while rest != {}
      invariant rest <= holders
      invariant forall h :: NamesAt(more, h) == NamesAt(grants, h) + if h in holders - rest then names else {}
      invariant forall h :: h in more ==> more[h] != {}
      decreases rest
    {
      var h :| h in rest;
      if names != {} {
        more := more[h := NamesAt(more, h) + names];
      }
      rest := rest - {h};
    }
  }

  /** The four loops that notify the watchers. */
  method NoticesFor(grants: Records, gone: set<Holder>) returns (told: seq<Notice>)
    requires forall h :: h in grants ==> grants[h] != {}
    ensures NoDup(told) && Staged(told)
    ensures forall notice :: notice in told <==>
              || (notice.holder in grants && notice.names == grants[notice.holder])
              || (notice.holder in gone && notice.names == {})
  {
    told := TellOf([], (set h | h in grants && h.User?), grants, 0);
    told := TellOf(told, (set h | h in grants && h.Group?), grants, 1);
    told := TellOf(told, (set h | h in gone && h.User?), map[], 2);
    told := TellOf(told, (set h | h in gone && h.Group?), map[], 3);
  }

  /** One of these loops: a notice for each holder. */
  method TellOf(told: seq<Notice>, holders: set<Holder>, lists: Records, stage: nat)
    returns (more: seq<Notice>)
    requires NoDup(told) && Staged(told) && forall notice :: notice in told ==> Stage(notice) < stage
    requires forall h :: h in holders ==> Stage(Notice(h, NamesAt(lists, h))) == stage
    ensures NoDup(more) && Staged(more) && forall notice :: notice in more ==> Stage(notice) <= stage
    ensures forall notice :: notice in more <==>
              notice in told || (notice.holder in holders && notice.names == NamesAt(lists, notice.holder))
  {
    hide Stage, NoDup;
    more := told;
    var rest := holders;
    while rest != {}
      invariant rest <= holders
      invariant NoDup(more) && Staged(more) && forall notice :: notice in more ==> Stage(notice) <= stage
      invariant forall notice :: notice in more <==>
                  || notice in told
                  || (notice.holder in holders - rest && notice.names == NamesAt(lists, notice.holder))
      decreases rest
    {
      var h :| h in rest;
      var notice := Notice(h, NamesAt(lists, h));
      assert notice !in told;
      NoDupSnoc(more, notice);
      more, rest := more + [notice], rest - {h};
    }
  }

  lemma GrantsAreMentioned(s: Inputs, level: Level, t: Target)
    ensures forall h :: GrantSet(s, level, t, h) != {} ==> Mentioned(s, level, t, h)
  {
  }

  ghost predicate MentionedOver(s: Inputs, level: Level, t: Target, keys: seq<string>, h: Holder) {
    exists n, r :: n in keys && Binds(s, n, h) && Lists(s, level, t, n, r)
  }

  /** The holder's known resources over some of the bindings. */
  ghost function GrantsOver(s: Inputs, level: Level, t: Target, keys: seq<string>, h: Holder): set<string> {
    set r | r in s.known && exists n :: n in keys && Binds(s, n, h) && Lists(s, level, t, n, r)
  }

  lemma NothingOver(s: Inputs, level: Level, t: Target)
    ensures forall h :: !MentionedOver(s, level, t, [], h) && GrantsOver(s, level, t, [], h) == {}
  {
  }

  lemma OneMoreBinding(s: Inputs, level: Level, t: Target, keys: seq<string>, i: nat, resources: set<string>,
                       holders: set<Holder>)
    requires i < |keys|
    requires forall r :: r in resources <==> Lists(s, level, t, keys[i], r)
    requires keys[i] in s.bindings
    requires holders == if resources != {} then HoldersOf(s.bindings[keys[i]].subjects, "") else {}
    ensures forall h :: MentionedOver(s, level, t, keys[..i + 1], h) <==>
              MentionedOver(s, level, t, keys[..i], h) || h in holders
    ensures forall h :: GrantsOver(s, level, t, keys[..i + 1], h)
                     == GrantsOver(s, level, t, keys[..i], h) + if h in holders then resources * s.known else {}
  {
    hide Lists, HoldersOf;
    assert keys[..i + 1] == keys[..i] + [keys[i]];
    forall h
      ensures MentionedOver(s, level, t, keys[..i + 1], h) <==> MentionedOver(s, level, t, keys[..i], h) || h in holders
    {
      if h in holders {
        var r :| r in resources;
        assert Binds(s, keys[i], h) && Lists(s, level, t, keys[i], r);
      }
    }
    forall h ensures GrantsOver(s, level, t, keys[..i + 1], h)
                  == GrantsOver(s, level, t, keys[..i], h) + if h in holders then resources * s.known else {}
    {
      assert h in holders ==> Binds(s, keys[i], h);
    }
  }

  lemma EverythingOver(s: Inputs, level: Level, t: Target, keys: seq<string>)
    requires forall n :: n in keys <==> n in s.bindings
    ensures forall h :: MentionedOver(s, level, t, keys, h) <==> Mentioned(s, level, t, h)
    ensures forall h :: GrantsOver(s, level, t, keys, h) == GrantSet(s, level, t, h)
  {
  }
}
