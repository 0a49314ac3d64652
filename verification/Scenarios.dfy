/** Concrete inputs on which the caches and the watch do less than one might expect. */
module Scenarios {
  import opened Rbac
  import opened AuthCache
  import opened Watcher

  const CLUSTER_SETS := Target("cluster.open-cluster-management.io", "managedclustersets")

  /** A cluster role that names one set, and a binding of it to one subject. */
  datatype Grant = Grant(subject: Subject, level: Level, clusterSet: string)

  function RoleOf(n: string, g: Grant): ClusterRole {
    var verbs := if g.level == AdminLevel then ["update", "get"] else ["get"];
    ClusterRole(n, "", map[], [PolicyRule(verbs, [CLUSTER_SETS.group], [CLUSTER_SETS.resource], [g.clusterSet])])
  }

  function BindingOf(n: string, g: Grant): ClusterRoleBinding {
    ClusterRoleBinding(n, "", map[], RoleRef(RBAC_GROUP, "ClusterRole", n), [g.subject])
  }

  function Plain(grants: map<string, Grant>, known: set<string>): Inputs {
    Inputs(map n | n in grants :: RoleOf(n, grants[n]), map n | n in grants :: BindingOf(n, grants[n]), known)
  }

  predicate Serves(level: Level, g: Grant) {
    level == ViewLevel || g.level == AdminLevel
  }

  predicate Gives(grants: map<string, Grant>, level: Level, n: string, h: Holder) {
    n in grants && Serves(level, grants[n]) && h in HoldersOfSubject(grants[n].subject, "")
  }

  lemma PlainLists(grants: map<string, Grant>, known: set<string>, level: Level, n: string, r: string)
    ensures Lists(Plain(grants, known), level, CLUSTER_SETS, n, r)
       <==> n in grants && Serves(level, grants[n]) && r == grants[n].clusterSet
  {
    if n in grants {
      var role := RoleOf(n, grants[n]);
      var rule := role.rules[0];
      assert rule in role.rules;
      assert Matches(rule, level, CLUSTER_SETS) <==> Serves(level, grants[n]);
      assert !AllNames(role, level, CLUSTER_SETS);
    }
  }

  /** What such inputs grant and whom they mention. */
  lemma PlainGrants(grants: map<string, Grant>, known: set<string>, level: Level, h: Holder)
    ensures forall r :: r in GrantSet(Plain(grants, known), level, CLUSTER_SETS, h)
                   <==> r in known && exists n :: Gives(grants, level, n, h) && r == grants[n].clusterSet
    ensures Mentioned(Plain(grants, known), level, CLUSTER_SETS, h) <==> exists n :: Gives(grants, level, n, h)
  {
    hide Lists;
    var s := Plain(grants, known);
    forall n, r ensures Binds(s, n, h) && Lists(s, level, CLUSTER_SETS, n, r)
                   <==> Gives(grants, level, n, h) && r == grants[n].clusterSet
    {
      PlainLists(grants, known, level, n, r);
      if n in grants {
        assert s.bindings[n].subjects == [grants[n].subject];
      }
    }
    forall r ensures r in GrantSet(s, level, CLUSTER_SETS, h)
                <==> r in known && exists n :: Gives(grants, level, n, h) && r == grants[n].clusterSet
    {
      if n :| Gives(grants, level, n, h) && r == grants[n].clusterSet {
        assert Binds(s, n, h) && Lists(s, level, CLUSTER_SETS, n, r);
      }
    }
    if n :| Gives(grants, level, n, h) {
      assert Binds(s, n, h) && Lists(s, level, CLUSTER_SETS, n, grants[n].clusterSet);
    }
  }

  function Ann(): Subject { Subject("User", RBAC_GROUP, "ann", "") }

  function Team(name: string): Subject { Subject("Group", RBAC_GROUP, name, "") }

  /** Ann administers the set a. */
  ghost function AnnBefore(): Inputs {
    Plain(map["x" := Grant(Ann(), AdminLevel, "a")], {"a", "b"})
  }

  /** Her role names only a set that does not exist, and another role lets her view b. */
  ghost function AnnAfter(): Inputs {
    Plain(map["x" := Grant(Ann(), AdminLevel, "gone"), "y" := Grant(Ann(), ViewLevel, "b")], {"a", "b"})
  }

  lemma AnnIsGranted()
    ensures GrantSet(AnnBefore(), AdminLevel, CLUSTER_SETS, User("ann")) == {"a"}
    ensures GrantSet(AnnAfter(), AdminLevel, CLUSTER_SETS, User("ann")) == {}
    ensures GrantSet(AnnAfter(), ViewLevel, CLUSTER_SETS, User("ann")) == {"b"}
    ensures Mentioned(AnnAfter(), AdminLevel, CLUSTER_SETS, User("ann"))
  {
    hide Mentioned, GrantSet, Plain;
    var h, known := User("ann"), {"a", "b"};
    var first := map["x" := Grant(Ann(), AdminLevel, "a")];
    var second := map["x" := Grant(Ann(), AdminLevel, "gone"), "y" := Grant(Ann(), ViewLevel, "b")];
    PlainGrants(first, known, AdminLevel, h);
    PlainGrants(second, known, AdminLevel, h);
    PlainGrants(second, known, ViewLevel, h);
    assert Gives(first, AdminLevel, "x", h) && Gives(second, AdminLevel, "x", h) && Gives(second, ViewLevel, "y", h);
    assert "gone" !in known by { assert |"gone"| != |"a"| && |"gone"| != |"b"|; }
  }

  /** After two synchronizations: ann's admin record still has a, which nothing grants her any
      more; her view record was replaced and has not, so that admin no longer implies view. */
  lemma StaleRecordStays(admins: Records, viewers: Records, admins': Records, viewers': Records)
    requires Synchronized(AnnBefore(), AdminLevel, CLUSTER_SETS, map[], admins)
    requires Synchronized(AnnBefore(), ViewLevel, CLUSTER_SETS, map[], viewers)
    requires Synchronized(AnnAfter(), AdminLevel, CLUSTER_SETS, admins, admins')
    requires Synchronized(AnnAfter(), ViewLevel, CLUSTER_SETS, viewers, viewers')
    ensures NamesAt(admins', User("ann")) == {"a"} && NamesAt(viewers', User("ann")) == {"b"}
    ensures GrantSet(AnnAfter(), AdminLevel, CLUSTER_SETS, User("ann")) == {}
    ensures !NothingStale(AnnAfter(), AdminLevel, CLUSTER_SETS, admins)
    ensures !StaleIsViewed(AnnAfter(), CLUSTER_SETS, admins, viewers)
  {
    hide Mentioned, GrantSet, AnnBefore, AnnAfter, Synchronized;
    AnnIsGranted();
    RecordsAfter(AnnBefore(), AdminLevel, CLUSTER_SETS, map[], admins);
    RecordsAfter(AnnAfter(), AdminLevel, CLUSTER_SETS, admins, admins');
    RecordsAfter(AnnAfter(), ViewLevel, CLUSTER_SETS, viewers, viewers');
    assert "a" in {"a"} && "a" !in {"b"};
  }

  /** Two groups, each granted one set. */
  ghost function TwoTeams(): Inputs {
    Plain(map["x" := Grant(Team("g"), ViewLevel, "a"), "y" := Grant(Team("h"), ViewLevel, "b")], {"a", "b"})
  }

  lemma TeamsAreGranted()
    ensures TwoTeams().known == {"a", "b"}
    ensures forall holder :: GrantSet(TwoTeams(), ViewLevel, CLUSTER_SETS, holder) ==
              if holder == Group("g") then {"a"} else if holder == Group("h") then {"b"} else {}
  {
    hide GrantSet, Mentioned;
    var grants := map["x" := Grant(Team("g"), ViewLevel, "a"), "y" := Grant(Team("h"), ViewLevel, "b")];
    forall holder ensures GrantSet(TwoTeams(), ViewLevel, CLUSTER_SETS, holder) ==
      if holder == Group("g") then {"a"} else if holder == Group("h") then {"b"} else {}
    {
      PlainGrants(grants, {"a", "b"}, ViewLevel, holder);
      assert Gives(grants, ViewLevel, "x", holder) <==> holder == Group("g");
      assert Gives(grants, ViewLevel, "y", holder) <==> holder == Group("h");
      assert forall n :: Gives(grants, ViewLevel, n, holder) ==> n == "x" || n == "y";
    }
  }

  lemma TeamsAreListed()
    ensures Listed(TwoTeams(), ViewLevel, CLUSTER_SETS, map[], "u", ["g", "h"]) == {"a", "b"}
  {
    TeamsAreGranted();
    hide GrantSet, Mentioned, TwoTeams;
    var asking := Asking("u", ["g", "h"]);
    assert Group("g") in asking by { assert "g" in ["g", "h"]; }
    assert Group("h") in asking by { assert "h" in ["g", "h"]; }
    assert Recorded(TwoTeams(), ViewLevel, CLUSTER_SETS, map[], Group("g")) == {"a"};
    assert Recorded(TwoTeams(), ViewLevel, CLUSTER_SETS, map[], Group("h")) == {"b"};
    forall h ensures Recorded(TwoTeams(), ViewLevel, CLUSTER_SETS, map[], h) <= {"a", "b"} {
    }
    hide Recorded, Asking;
    var all := Listed(TwoTeams(), ViewLevel, CLUSTER_SETS, map[], "u", ["g", "h"]);
    assert "a" in all && "b" in all;
  }

  lemma TeamsAreTold()
    ensures Announced(TwoTeams(), ViewLevel, CLUSTER_SETS, {}, [Notice(Group("g"), {"a"}), Notice(Group("h"), {"b"})])
  {
    TeamsAreGranted();
    hide GrantSet, Mentioned, TwoTeams;
    var first, second := Notice(Group("g"), {"a"}), Notice(Group("h"), {"b"});
    assert first != second by { assert "a" in first.names && "a" !in second.names; }
    forall notice ensures notice in [first, second] <==> ToBeTold(TwoTeams(), ViewLevel, CLUSTER_SETS, {}, notice) {
      if ToBeTold(TwoTeams(), ViewLevel, CLUSTER_SETS, {}, notice) {
        assert notice == first || notice == second;
      }
    }
  }

  /** A synchronization may tell the groups in this order; a member of both is then shown one of
      the sets, while listing gives both. */
  lemma WatchForgetsOtherGroups(known: View, objects: View)
    requires objects.Keys == {"a", "b"}
    ensures var told := [Notice(Group("g"), {"a"}), Notice(Group("h"), {"b"})];
            && Announced(TwoTeams(), ViewLevel, CLUSTER_SETS, {}, told)
            && Followed(known, told, "u", ["g", "h"], objects).Keys == {"b"}
    ensures Listed(TwoTeams(), ViewLevel, CLUSTER_SETS, map[], "u", ["g", "h"]) == {"a", "b"}
    ensures !LastWordIsWhole(TwoTeams(), ViewLevel, CLUSTER_SETS, {}, map[], known, "u", ["g", "h"], objects)
  {
    TeamsAreGranted();
    TeamsAreTold();
    TeamsAreListed();
    hide GrantSet, Mentioned, TwoTeams, Listed, LastWordIsWhole, Announced;
    var told := [Notice(Group("g"), {"a"}), Notice(Group("h"), {"b"})];
    assert LastHeard(told, "u", ["g", "h"]) == Some({"b"}) by { assert "h" in ["g", "h"]; }
    HeardMeansShown(TwoTeams(), ViewLevel, CLUSTER_SETS, {}, told, known, "u", ["g", "h"], objects);
    WatchMatchesListingExactlyWhen(TwoTeams(), ViewLevel, CLUSTER_SETS, {}, map[], known, "u", ["g", "h"], objects);
    assert "a" in ViewOf({"a", "b"}, objects) && "a" !in {"b"};
  }

  /** Ann may view the set a, and then a is deleted while her role still names it. */
  ghost function AnnViews(known: set<string>): Inputs {
    Plain(map["x" := Grant(Ann(), ViewLevel, "a")], known)
  }

  lemma AnnIsViewer(known: set<string>)
    ensures forall h :: GrantSet(AnnViews(known), ViewLevel, CLUSTER_SETS, h) ==
              if h == User("ann") && "a" in known then {"a"} else {}
    ensures forall h :: Mentioned(AnnViews(known), ViewLevel, CLUSTER_SETS, h) <==> h == User("ann")
  {
    hide Mentioned, GrantSet, Plain;
    var grants := map["x" := Grant(Ann(), ViewLevel, "a")];
    forall h
      ensures GrantSet(AnnViews(known), ViewLevel, CLUSTER_SETS, h) ==
                if h == User("ann") && "a" in known then {"a"} else {}
      ensures Mentioned(AnnViews(known), ViewLevel, CLUSTER_SETS, h) <==> h == User("ann")
    {
      PlainGrants(grants, known, ViewLevel, h);
      assert Gives(grants, ViewLevel, "x", h) <==> h == User("ann");
      assert forall n :: Gives(grants, ViewLevel, n, h) ==> n == "x";
    }
  }

  /** The synchronization after the deletion tells nobody anything: the watch goes on showing the
      set, which listing no longer gives. */
  lemma DeletedSetStays(once: Records, twice: Records, known: View, told: seq<Notice>)
    requires Synchronized(AnnViews({"a"}), ViewLevel, CLUSTER_SETS, map[], once)
    requires Synchronized(AnnViews({}), ViewLevel, CLUSTER_SETS, once, twice)
    requires Announced(AnnViews({}), ViewLevel, CLUSTER_SETS, {User("ann")}, told)
    requires known.Keys == {"a"}
    ensures told == [] && NamesAt(twice, User("ann")) == {"a"}
    ensures Followed(known, told, "ann", [], map[]) == known
    ensures Listed(AnnViews({}), ViewLevel, CLUSTER_SETS, once, "ann", []) == {}
    ensures !LastWordIsWhole(AnnViews({}), ViewLevel, CLUSTER_SETS, {User("ann")}, once, known, "ann", [], map[])
  {
    hide Mentioned, GrantSet, Synchronized;
    AnnIsViewer({"a"});
    AnnIsViewer({});
    assert AnnViews({}).known == {};
    hide AnnViews;
    RecordsAfter(AnnViews({"a"}), ViewLevel, CLUSTER_SETS, map[], once);
    RecordsAfter(AnnViews({}), ViewLevel, CLUSTER_SETS, once, twice);
    assert told != [] ==> told[0] in told && ToBeTold(AnnViews({}), ViewLevel, CLUSTER_SETS, {User("ann")}, told[0]);
    assert Asking("ann", []) == {User("ann")};
    assert "a" in known && "a" !in ViewOf({}, map[]);
  }
}
