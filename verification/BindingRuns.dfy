/** Runs of binding passes over unchanged inputs: how often they still write. */
module BindingRuns {
  import opened Rbac
  import opened SetMapper
  import opened SubjectLists
  import opened Propagation
  import opened BindingSync
  import opened BindingPass

  ghost predicate OneOwnSetEach(members: Membership) {
    forall c :: OneOwnSet(members, c)
  }

  /** What a pass leaves behind: every desired binding is right, and none is stale. */
  ghost predicate Passed(b: Bindings, members: Membership, subjects: SubjectMap, role: string) {
    var desired := Desired(members, subjects);
    && (forall c :: c in desired ==> IsRight(b, members, subjects, c, role))
    && (forall n :: n in b ==> !Stale(b[n], role, desired))
  }

  ghost predicate IsRight(b: Bindings, members: Membership, subjects: SubjectMap, cluster: string, role: string) {
    BindingName(cluster, role) in b && Right(b[BindingName(cluster, role)], members, subjects, cluster, role)
  }

  ghost predicate IsAtRest(b: Bindings, members: Membership, subjects: SubjectMap, cluster: string, role: string) {
    BindingName(cluster, role) in b && AtRest(b[BindingName(cluster, role)], members, subjects, cluster, role)
  }

  /** No desired cluster's own binding is deleted; see DoomedName. */
  ghost predicate NoneDoomed(members: Membership, subjects: SubjectMap, role: string) {
    forall c :: c in Desired(members, subjects) ==> !Doomed(BindingName(c, role), role, Desired(members, subjects))
  }

  /** The clusters whose binding may still be written to. */
  ghost function Restless(b: Bindings, members: Membership, subjects: SubjectMap, role: string): set<string> {
    set c | c in Desired(members, subjects) && !IsAtRest(b, members, subjects, c, role)
  }

  lemma PassLeavesPassed(before: Bindings, after: Bindings, members: Membership, subjects: SubjectMap, role: string)
    requires Synced(before, after, members, subjects, role) && NoneDoomed(members, subjects, role)
    ensures Passed(after, members, subjects, role)
  {
    hide Reached, Due, BindingName, Doomed, Right, UnchangedIfRight;
    var desired := Desired(members, subjects);
    forall n | n in after ensures !Stale(after[n], role, desired) {
      if n in NamesOf(desired, role) {
        var c :| c in desired && n == BindingName(c, role);
        NotDoomedNotStale(after[n], members, subjects, c, role);
      } else {
        assert SameAt(before, after, n);
      }
    }
  }

  /** A binding that changes in a further pass is at rest from then on; one at rest stays. */
  lemma ChangedComesToRest(before: Bindings, after: Bindings, members: Membership, subjects: SubjectMap,
                           role: string, cluster: string)
    requires Synced(before, after, members, subjects, role) && NoneDoomed(members, subjects, role)
    requires Proper(members) && OneOwnSetEach(members) && AllNoDup(subjects)
    requires cluster in Desired(members, subjects) && IsRight(before, members, subjects, cluster, role)
    ensures var n := BindingName(cluster, role);
            && n in after
            && (after[n] != before[n] ==> IsAtRest(after, members, subjects, cluster, role))
            && (IsAtRest(before, members, subjects, cluster, role) ==> after[n] == before[n])
  {
    hide Due, BindingName, Doomed, Exact, AllNoDup, SetLabelled;
    var n := BindingName(cluster, role);
    assert UnchangedIfRight(before, after[n], members, subjects, cluster, role);
    var k :| Possible(members, cluster, k) && SetLabelled(after[n], k)
      && (n in before && Exact(before[n], members, subjects, cluster, role) && SetLabelled(before[n], k) ==>
          after[n] == before[n]);
    assert Reached(members, subjects, cluster);
    var other :| cluster in ObjectsIn(members, other);
    assert Member(members, other, cluster);
    if after[n] != before[n] {
      assert !SetLabelled(before[n], k);
      GlobalNeedsNoLabel(before[n]);
      GlobalNeedsNoLabel(after[n]);
      forall k' | Possible(members, cluster, k') ensures SetLabelled(after[n], k') {
        assert OneOwnSet(members, cluster);
        assert OwnSet(members, k, cluster) && (k' == GLOBAL_SET || OwnSet(members, k', cluster));
      }
    }
  }

  lemma GlobalNeedsNoLabel(b: ClusterRoleBinding)
    ensures SetLabelled(b, GLOBAL_SET)
  {
  }

  /** Each further pass that changes anything brings some binding to rest. */
  lemma PassShrinks(before: Bindings, after: Bindings, members: Membership, subjects: SubjectMap, role: string)
    requires Synced(before, after, members, subjects, role) && NoneDoomed(members, subjects, role)
    requires Proper(members) && OneOwnSetEach(members) && AllNoDup(subjects)
    requires Passed(before, members, subjects, role)
    ensures Restless(after, members, subjects, role) <= Restless(before, members, subjects, role)
    ensures after != before ==> Restless(after, members, subjects, role) < Restless(before, members, subjects, role)
  {
    hide Due, Reached, BindingName, Doomed, Right, AtRest, Stale;
    var desired := Desired(members, subjects);
    forall c | c in desired
      ensures var n := BindingName(c, role);
              && n in after && n in before
              && (after[n] != before[n] ==> IsAtRest(after, members, subjects, c, role))
              && (IsAtRest(before, members, subjects, c, role) ==> after[n] == before[n])
    {
      ChangedComesToRest(before, after, members, subjects, role, c);
    }
    if forall c :: c in desired ==> after[BindingName(c, role)] == before[BindingName(c, role)] {
      forall n ensures SameAt(before, after, n) {
        if n in NamesOf(desired, role) {
          var c :| c in desired && n == BindingName(c, role);
        }
      }
      assert after == before;
    } else {
      var c :| c in desired && after[BindingName(c, role)] != before[BindingName(c, role)];
      assert c in Restless(before, members, subjects, role) && c !in Restless(after, members, subjects, role);
    }
  }

  /** One pass after the other. */
  ghost predicate Passes(states: seq<Bindings>, members: Membership, subjects: SubjectMap, role: string) {
    forall i :: 0 <= i < |states| - 1 ==> Synced(states[i], states[i + 1], members, subjects, role)
  }

  /** How many passes of a run changed something. */
  function Changes(states: seq<Bindings>): nat {
    if |states| < 2 then 0
    else Changes(states[..|states| - 1]) + if states[|states| - 1] != states[|states| - 2] then 1 else 0
  }

  lemma {:induction false} ChangesShrink(states: seq<Bindings>, members: Membership, subjects: SubjectMap,
                                         role: string)
    requires states != [] && Passes(states, members, subjects, role) && NoneDoomed(members, subjects, role)
    requires Proper(members) && OneOwnSetEach(members) && AllNoDup(subjects)
    requires Passed(states[0], members, subjects, role)
    ensures Passed(states[|states| - 1], members, subjects, role)
    ensures Changes(states) + |Restless(states[|states| - 1], members, subjects, role)|
         <= |Restless(states[0], members, subjects, role)|
  {
    hide Synced, Passed, Restless, Proper, OneOwnSetEach, AllNoDup, NoneDoomed;
    if |states| > 1 {
      var last := |states| - 1;
      ChangesShrink(states[..last], members, subjects, role);
      var before, after := states[last - 1], states[last];
      PassLeavesPassed(before, after, members, subjects, role);
      PassShrinks(before, after, members, subjects, role);
      var smaller, larger := Restless(after, members, subjects, role), Restless(before, members, subjects, role);
      assert larger == smaller + (larger - smaller);
      assert after != before ==> larger - smaller != {};
    }
  }

  /** With no cluster in two sets besides the global one, after the first pass every binding
      changes at most once more, whatever set the cluster is looked up in. */
  lemma {:induction false} AtMostOneMoreWrite(states: seq<Bindings>, members: Membership, subjects: SubjectMap,
                                              role: string, cluster: string, i: nat, j: nat)
    requires Passes(states, members, subjects, role) && NoneDoomed(members, subjects, role)
    requires Proper(members) && OneOwnSetEach(members) && AllNoDup(subjects)
    requires 1 <= i < j < |states| && cluster in Desired(members, subjects)
    requires BindingName(cluster, role) in states[i] && BindingName(cluster, role) in states[i + 1]
    requires states[i + 1][BindingName(cluster, role)] != states[i][BindingName(cluster, role)]
    ensures IsAtRest(states[j], members, subjects, cluster, role)
    ensures states[j][BindingName(cluster, role)] == states[i + 1][BindingName(cluster, role)]
    decreases j
  {
    hide Synced, Proper, OneOwnSetEach, AllNoDup, Right, AtRest, BindingName, NoneDoomed;
    assert Synced(states[i - 1], states[i], members, subjects, role);
    PassLeavesPassed(states[i - 1], states[i], members, subjects, role);
    assert Synced(states[j - 1], states[j], members, subjects, role);
    if j == i + 1 {
      ChangedComesToRest(states[i], states[j], members, subjects, role, cluster);
    } else {
      AtMostOneMoreWrite(states, members, subjects, role, cluster, i, j - 1);
      assert Synced(states[j - 2], states[j - 1], members, subjects, role);
      PassLeavesPassed(states[j - 2], states[j - 1], members, subjects, role);
      ChangedComesToRest(states[j - 1], states[j], members, subjects, role, cluster);
    }
  }

  /** So all passes after the first change something at most as often as there are clusters
      whose binding is not at rest by then. */
  lemma PassesComeToRest(states: seq<Bindings>, members: Membership, subjects: SubjectMap, role: string)
    requires |states| > 1 && Passes(states, members, subjects, role) && NoneDoomed(members, subjects, role)
    requires Proper(members) && OneOwnSetEach(members) && AllNoDup(subjects)
    ensures Changes(states[1..]) <= |Restless(states[1], members, subjects, role)|
    ensures Quiet(states[1], members, subjects, role) <==> Restless(states[1], members, subjects, role) == {}
    ensures Quiet(states[1], members, subjects, role) ==> Changes(states[1..]) == 0
  {
    hide Synced, Proper, OneOwnSetEach, AllNoDup, Right, AtRest, BindingName, NoneDoomed, Stale;
    assert Synced(states[0], states[1], members, subjects, role);
    PassLeavesPassed(states[0], states[1], members, subjects, role);
    var rest := states[1..];
    forall i | 0 <= i < |rest| - 1 ensures Synced(rest[i], rest[i + 1], members, subjects, role) {
      assert Synced(states[i + 1], states[i + 1 + 1], members, subjects, role);
    }
    ChangesShrink(rest, members, subjects, role);
    QuietMeansAtRest(states[1], members, subjects, role);
  }

  lemma QuietMeansAtRest(b: Bindings, members: Membership, subjects: SubjectMap, role: string)
    requires Passed(b, members, subjects, role)
    ensures Quiet(b, members, subjects, role) <==> Restless(b, members, subjects, role) == {}
  {
    hide Right, AtRest, BindingName, Stale, Desired;
    var restless := Restless(b, members, subjects, role);
    if c :| c in Desired(members, subjects) && !IsAtRest(b, members, subjects, c, role) {
      assert c in restless;
    }
  }
}
