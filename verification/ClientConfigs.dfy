/** Keeping a managed cluster's client configuration in step with what the cluster reports,
    by two writes that may each fail. */
module ClientConfigs {
  import opened Rbac

  datatype ClientConfig = ClientConfig(url: string, caBundle: string)

  // ------------------------------------------------------------------ updateClientConfig

  /** The entry to be replaced: the first at the reported or the last applied URL. */
  function FirstMatch(configs: seq<ClientConfig>, url: string, last: string): (i: nat)
    ensures i <= |configs|
    ensures forall k :: 0 <= k < i ==> configs[k].url != url && configs[k].url != last
    ensures i < |configs| ==> configs[i].url == url || configs[i].url == last
  {
    if configs == [] || configs[0].url == url || configs[0].url == last then 0
    else 1 + FirstMatch(configs[1..], url, last)
  }

  lemma FirstMatchIs(configs: seq<ClientConfig>, url: string, last: string, i: nat)
    requires i <= |configs|
    requires forall k :: 0 <= k < i ==> configs[k].url != url && configs[k].url != last
    requires i < |configs| ==> configs[i].url == url || configs[i].url == last
    ensures FirstMatch(configs, url, last) == i
  {
  }

  /** The list with the reported entry in the place of the first match, or else in front. */
  function Merged(configs: seq<ClientConfig>, reported: ClientConfig, last: string): seq<ClientConfig> {
    if reported.url == "" then configs
    else
      var i := FirstMatch(configs, reported.url, last);
      if i < |configs| then configs[i := reported] else [reported] + configs
  }

  /** updateClientConfig: overwrites the array's entry, or returns a longer array. */
  method UpdateClientConfig(configs: array<ClientConfig>, reported: ClientConfig, last: string)
    returns (updated: array<ClientConfig>, needUpdate: bool)
    modifies configs
    ensures updated == configs || fresh(updated)
    ensures updated[..] == Merged(old(configs[..]), reported, last)
    ensures needUpdate <==> updated[..] != old(configs[..])
  {
    if reported.url == "" {
      return configs, false;
    }
    ghost var before := configs[..];
    for i := 0 to configs.Length
      invariant configs[..] == before
      invariant forall k :: 0 <= k < i ==> before[k].url != reported.url && before[k].url != last
    {
      var config := configs[i];
      if config.url != reported.url && config.url != last {
        continue;
      }
      FirstMatchIs(before, reported.url, last, i);
      if config.caBundle == reported.caBundle && config.url == reported.url {
        assert before[i := reported] == before;
        return configs, false;
      }
      configs[i] := config.(url := reported.url, caBundle := reported.caBundle);
      assert configs[..] == before[i := reported];
      return configs, true;
    }
    FirstMatchIs(before, reported.url, last, configs.Length);
    updated := new ClientConfig[configs.Length + 1](i requires 0 <= i < configs.Length + 1 reads configs =>
      if i == 0 then reported else configs[i - 1]);
    assert updated[..] == [reported] + before;
    return updated, true;
  }

  /** Merging again changes nothing, with the old last applied URL as with the new one; every
      other entry stays, in order. */
  lemma MergedTwice(configs: seq<ClientConfig>, reported: ClientConfig, last: string)
    ensures var once := Merged(configs, reported, last);
            && Merged(once, reported, last) == once
            && Merged(once, reported, reported.url) == once
    ensures var once := Merged(configs, reported, last);
            reported.url != "" ==> exists i ::
              && 0 <= i < |once| && once[i] == reported
              && (if |once| == |configs| then once[..i] == configs[..i] && once[i + 1..] == configs[i + 1..]
                  else i == 0 && once[1..] == configs)
  {
    if reported.url != "" {
      var once := Merged(configs, reported, last);
      var i := FirstMatch(configs, reported.url, last);
      var at := if i < |configs| then i else 0;
      FirstMatchIs(once, reported.url, last, at);
      FirstMatchIs(once, reported.url, reported.url, at);
      assert once[at] == reported && once[at := reported] == once;
      if i < |configs| {
        assert once[..at] == configs[..at] && once[at + 1..] == configs[at + 1..];
      } else {
        assert once[1..] == configs;
      }
    }
  }

  // ------------------------------------------------------------------ Reconcile

  /** The managed cluster's list and the last applied URL in the cluster info's status. */
  datatype State = State(configs: seq<ClientConfig>, last: string)

  datatype Fault = NoFault | ClusterWriteFails | StatusWriteFails

  function Attempt(s: State, reported: ClientConfig, fault: Fault): State {
    match fault
    case NoFault => State(Merged(s.configs, reported, s.last), reported.url)
    case StatusWriteFails => State(Merged(s.configs, reported, s.last), s.last)
    // without a first write the second one is still made
    case ClusterWriteFails =>
      if Merged(s.configs, reported, s.last) == s.configs then State(s.configs, reported.url) else s
  }

  class Reconciler {
    var state: State
    var writes: nat

    method Reconcile(reported: ClientConfig, fault: Fault)
      modifies this
      ensures state == Attempt(old(state), reported, fault)
      ensures writes == old(writes) <==> state == old(state)
    {
      var fetched := state.configs;
      var copy := new ClientConfig[|fetched|](i requires 0 <= i < |fetched| => fetched[i]);
      assert copy[..] == fetched;
      var updated, needUpdate := UpdateClientConfig(copy, reported, state.last);
      if needUpdate {
        if fault == ClusterWriteFails {
          return;
        }
        state, writes := state.(configs := updated[..]), writes + 1;
      }
      if state.last != reported.url {
        if fault == StatusWriteFails {
          return;
        }
        state, writes := state.(last := reported.url), writes + 1;
      }
    }
  }

  /** A write that is not made cannot fail; and whatever fails, each of the two parts is as before
      or as after a success, the second never before the first. */
  lemma FaultsStopWrites(s: State, reported: ClientConfig, fault: Fault)
    ensures var done, s' := Attempt(s, reported, NoFault), Attempt(s, reported, fault);
            && s' == State(if fault == ClusterWriteFails then s.configs else done.configs,
                           if s'.configs != done.configs || fault == StatusWriteFails then s.last else done.last)
  {
  }

  function Attempts(s: State, reported: ClientConfig, faults: seq<Fault>): State
    decreases faults
  {
    if faults == [] then s else Attempts(Attempt(s, reported, faults[0]), reported, faults[1..])
  }

  /** However often a reconcile fails at whichever write, the first one that succeeds comes to
      what the very first would have come to, and there it stays. */
  lemma {:induction false} Converges(s: State, reported: ClientConfig, faults: seq<Fault>)
    ensures Attempt(Attempts(s, reported, faults), reported, NoFault) == Attempt(s, reported, NoFault)
    ensures NoFault in faults ==> Attempts(s, reported, faults) == Attempt(s, reported, NoFault)
    decreases faults
  {
    hide Merged;
    MergedTwice(s.configs, reported, s.last);
    if faults != [] {
      Converges(Attempt(s, reported, faults[0]), reported, faults[1..]);
      var next := Attempt(s, reported, faults[0]);
      assert Attempt(next, reported, NoFault) == Attempt(s, reported, NoFault);
      if NoFault in faults && NoFault !in faults[1..] {
        assert faults[0] == NoFault;
        Rests(next, reported, faults[1..]);
      }
    }
  }

  /** Once both writes are made, nothing changes any more. */
  lemma {:induction false} Rests(s: State, reported: ClientConfig, faults: seq<Fault>)
    requires s.last == reported.url && Merged(s.configs, reported, s.last) == s.configs
    ensures Attempts(s, reported, faults) == s
    decreases faults
  {
    hide Merged;
    if faults != [] {
      assert Attempt(s, reported, faults[0]) == s;
      Rests(s, reported, faults[1..]);
    }
  }

  // ------------------------------------------------------------------ changing reports

  datatype Step = Step(reported: ClientConfig, fault: Fault)

  /** Reconciles one after the other, of changing reports, each with its fault. */
  function After(s: State, run: seq<Step>): State
    decreases run
  {
    if run == [] then s else After(Attempt(s, run[0].reported, run[0].fault), run[1..])
  }

  /** The managed entry, once there is one, in front of the user's own. */
  function WithManaged(managed: Option<ClientConfig>, own: seq<ClientConfig>): seq<ClientConfig> {
    if managed.Some? then [managed.value] + own else own
  }

  /** What the managed entry should be after some steps: the last report that was written. */
  function Managed(managed: Option<ClientConfig>, run: seq<Step>): Option<ClientConfig>
    decreases run
  {
    if run == [] then managed
    else Managed(if Writes(run[0]) then Some(run[0].reported) else managed, run[1..])
  }

  predicate Writes(step: Step) {
    step.reported.url != "" && step.fault != ClusterWriteFails
  }

  /** The step writes another URL than that of the managed entry, which is first. */
  predicate ChangesUrl(own: seq<ClientConfig>, s: State, step: Step) {
    Writes(step) && |s.configs| > |own| && s.configs[0].url != step.reported.url
  }

  /** Whenever the URL changes, the last applied one is that of the managed entry. */
  predicate ChangesAreTracked(own: seq<ClientConfig>, s: State, run: seq<Step>)
    decreases run
  {
    run != [] ==>
      && (ChangesUrl(own, s, run[0]) ==> s.last == s.configs[0].url)
      && ChangesAreTracked(own, Attempt(s, run[0].reported, run[0].fault), run[1..])
  }

  /** The user's own entries have none of the URLs in play. */
  predicate Foreign(own: seq<ClientConfig>, last: string, run: seq<Step>) {
    forall c :: c in own ==> c.url != "" && c.url != last && forall step :: step in run ==> c.url != step.reported.url
  }

  /** One write: the managed entry is replaced if its URL is the reported or the last applied
      one, and otherwise left behind the new one. */
  lemma OneWrite(managed: Option<ClientConfig>, own: seq<ClientConfig>, last: string, reported: ClientConfig)
    requires reported.url != "" && forall c :: c in own ==> c.url != reported.url && c.url != last
    ensures Merged(WithManaged(managed, own), reported, last) ==
              if managed.None? || managed.value.url in {reported.url, last} then [reported] + own
              else [reported] + WithManaged(managed, own)
  {
    var configs := WithManaged(managed, own);
    if managed.Some? && managed.value.url in {reported.url, last} {
      FirstMatchIs(configs, reported.url, last, 0);
      assert configs[0 := reported] == [reported] + own;
    } else {
      FirstMatchIs(configs, reported.url, last, |configs|);
    }
  }

  lemma {:induction false} ListsDoNotShrink(s: State, run: seq<Step>)
    ensures |After(s, run).configs| >= |s.configs|
    decreases run
  {
    if run != [] {
      ListsDoNotShrink(Attempt(s, run[0].reported, run[0].fault), run[1..]);
    }
  }

  /** Over any run of reports and faults, the list is the one managed entry and the user's own
      if and only if each change of the URL happened while the last applied URL was that of
      the managed entry. Otherwise it is longer. */
  lemma {:induction false} OneEntryFollowsExactlyWhen(managed: Option<ClientConfig>, own: seq<ClientConfig>,
                                                      last: string,
                                                      run: seq<Step>)
    requires Foreign(own, last, run) && (managed.Some? ==> managed.value.url != "")
    ensures var start := State(WithManaged(managed, own), last);
            && (After(start, run).configs == WithManaged(Managed(managed, run), own) <==>
                ChangesAreTracked(own, start, run))
            && (|After(start, run).configs| <= |own| + 1 <==> ChangesAreTracked(own, start, run))
    decreases run
  {
    if run != [] {
      hide Merged;
      var start, step := State(WithManaged(managed, own), last), run[0];
      var next := Attempt(start, step.reported, step.fault);
      if step.reported.url != "" {
        OneWrite(managed, own, last, step.reported);
      } else {
        NothingReported(start.configs, step.reported, last);
      }
      if ChangesUrl(own, start, step) && start.last != start.configs[0].url {
        assert |next.configs| == |own| + 2;
        ListsDoNotShrink(next, run[1..]);
      } else {
        var managed' := if Writes(step) then Some(step.reported) else managed;
        assert next.configs == WithManaged(managed', own);
        OneEntryFollowsExactlyWhen(managed', own, next.last, run[1..]);
      }
    }
  }

  /** In any list: some entry is at the reported or the last applied URL. */
  ghost predicate FindsEntry(s: State, step: Step) {
    exists c :: c in s.configs && (c.url == step.reported.url || c.url == s.last)
  }

  ghost predicate EachFindsEntry(s: State, run: seq<Step>)
    decreases run
  {
    run != [] ==>
      && (Writes(run[0]) ==> FindsEntry(s, run[0]))
      && EachFindsEntry(Attempt(s, run[0].reported, run[0].fault), run[1..])
  }

  /** Whatever the user's entries are, the list keeps its length if and only if each write found
      an entry to replace. */
  lemma {:induction false} LengthStaysExactlyWhen(s: State, run: seq<Step>)
    ensures |After(s, run).configs| == |s.configs| <==> EachFindsEntry(s, run)
    decreases run
  {
    if run != [] {
      var step := run[0];
      var next := Attempt(s, step.reported, step.fault);
      var i := FirstMatch(s.configs, step.reported.url, s.last);
      assert i < |s.configs| ==> s.configs[i] in s.configs;
      assert FindsEntry(s, step) <==> i < |s.configs|;
      ListsDoNotShrink(next, run[1..]);
      LengthStaysExactlyWhen(next, run[1..]);
    }
  }

  /** The entries that are at none of some URLs, in order. */
  function Others(configs: seq<ClientConfig>, urls: set<string>): seq<ClientConfig> {
    if configs == [] then []
    else (if configs[0].url in urls then [] else [configs[0]]) + Others(configs[1..], urls)
  }

  lemma {:induction false} OthersOfMerged(configs: seq<ClientConfig>, reported: ClientConfig, last: string,
                                          urls: set<string>)
    requires last in urls && reported.url in urls
    ensures Others(Merged(configs, reported, last), urls) == Others(configs, urls)
  {
    var i := FirstMatch(configs, reported.url, last);
    if reported.url == "" {
    } else if i == |configs| {
      assert ([reported] + configs)[1..] == configs;
    } else if i == 0 {
      assert configs[0 := reported][1..] == configs[1..];
    } else {
      FirstMatchIs(configs[1..], reported.url, last, i - 1);
      assert configs[i := reported][1..] == configs[1..][i - 1 := reported];
      OthersOfMerged(configs[1..], reported, last, urls);
    }
  }

  lemma OthersOfAttempt(s: State, step: Step, urls: set<string>)
    requires s.last in urls && step.reported.url in urls
    ensures var next := Attempt(s, step.reported, step.fault);
            next.last in urls && Others(next.configs, urls) == Others(s.configs, urls)
  {
    hide Merged, Others;
    OthersOfMerged(s.configs, step.reported, s.last, urls);
  }

  /** Whatever the list, over any run the entries at none of the URLs in play stay, in order. */
  lemma {:induction false} OthersStay(s: State, run: seq<Step>, urls: set<string>)
    requires s.last in urls && forall step :: step in run ==> step.reported.url in urls
    ensures Others(After(s, run).configs, urls) == Others(s.configs, urls)
    decreases run
  {
    if run != [] {
      assert run[0] in run;
      OthersOfAttempt(s, run[0], urls);
      hide Attempt, Others;
      OthersStay(Attempt(s, run[0].reported, run[0].fault), run[1..], urls);
    }
  }

  lemma NothingReported(configs: seq<ClientConfig>, reported: ClientConfig, last: string)
    requires reported.url == ""
    ensures Merged(configs, reported, last) == configs
  {
  }

  /** Without faults and empty reports every change is tracked. */
  lemma {:induction false} FaultFreeRunsAreTracked(managed: Option<ClientConfig>, own: seq<ClientConfig>, last: string,
                                                   run: seq<Step>)
    requires Foreign(own, last, run) && (managed.Some? ==> managed.value.url == last != "")
    requires forall step :: step in run ==> step.fault == NoFault && step.reported.url != ""
    ensures ChangesAreTracked(own, State(WithManaged(managed, own), last), run)
    decreases run
  {
    if run != [] {
      hide Merged;
      var reported := run[0].reported;
      assert run[0] in run;
      OneWrite(managed, own, last, reported);
      FaultFreeRunsAreTracked(Some(reported), own, reported.url, run[1..]);
    }
  }

  lemma TwoSteps(s: State, first: Step, second: Step)
    ensures After(s, [first, second]) == Attempt(Attempt(s, first.reported, first.fault), second.reported, second.fault)
  {
    var run, next := [first, second], Attempt(s, first.reported, first.fault);
    assert run[1..] == [second] && [second][1..] == [];
    assert After(next, [second]) == After(Attempt(next, second.reported, second.fault), []);
  }

  /** If the URL changes again after the second write has failed, the entry between is left
      behind. */
  lemma ChangeAfterFaultLeavesEntry(a: ClientConfig, b: ClientConfig, c: ClientConfig)
    requires a.url != "" && b.url != "" && c.url != ""
    requires a.url != b.url && b.url != c.url && a.url != c.url
    ensures After(State([a], a.url), [Step(b, StatusWriteFails), Step(c, NoFault)]) == State([c, b], c.url)
  {
    TwoSteps(State([a], a.url), Step(b, StatusWriteFails), Step(c, NoFault));
    assert [a][0 := b] == [b];
  }

  /** So it is if nothing is reported in between. */
  lemma EmptyReportLeavesEntry(a: ClientConfig, none: ClientConfig, b: ClientConfig)
    requires a.url != "" && none.url == "" && b.url != "" && a.url != b.url
    ensures After(State([a], a.url), [Step(none, NoFault), Step(b, NoFault)]) == State([b, a], b.url)
  {
    TwoSteps(State([a], a.url), Step(none, NoFault), Step(b, NoFault));
  }
}
