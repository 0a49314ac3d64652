/** The cluster-set controller as a state machine: label and set changes from outside, events
    on their way, the work queue, and one worker that reconciles set by set. Exclusive sets. */
module MapperQueue {
  import opened SetMapper

  /** A ManagedClusterSet: being deleted or not, this controller's finalizer, other finalizers. */
  datatype ClusterSet = ClusterSet(deleting: bool, finalizer: bool, others: bool)

  /** A watch event; "" stands for no cluster-set label. */
  datatype Event = LabelEvent(cluster: string, before: string, after: string) | SetEvent(name: string)

  /** How far Reconcile has got with a set. */
  datatype Work =
    | Idle
    | Fetched(name: string, read: ClusterSet)
    | Guarded(name: string)
    | Listed(name: string, clusters: set<string>)
    | Cleaned(name: string)

  datatype State = State(
    labels: map<string, string>, sets: map<string, ClusterSet>, mapper: Membership,
    pending: seq<Event>, queue: set<string>, work: Work)

  const INITIAL := State(map[], map[], map[], [], {}, Idle)

  function LabelOf(s: State, cluster: string): string {
    if cluster in s.labels then s.labels[cluster] else ""
  }

  /** The clusters that the selector of an exclusive set matches. */
  function Labelled(s: State, name: string): set<string> {
    set c | c in s.labels && s.labels[c] == name
  }

  predicate Live(s: State, name: string) {
    name in s.sets && !s.sets[name].deleting
  }

  /** What the mapper ought to hold for a set. */
  function Wanted(s: State, name: string): set<string> {
    if Live(s, name) then Labelled(s, name) else {}
  }

  predicate Agrees(s: State, name: string) {
    ObjectsIn(s.mapper, name) == Wanted(s, name)
  }

  // ------------------------------------------------------------------ steps from outside

  function Relabel(s: State, cluster: string, newLabel: string): State {
    s.(labels := if newLabel == "" then s.labels - {cluster} else s.labels[cluster := newLabel],
       pending := s.pending + [LabelEvent(cluster, LabelOf(s, cluster), newLabel)])
  }

  /** An object without finalizers that is being deleted disappears. */
  function PutSet(s: State, name: string, c: ClusterSet): State {
    s.(sets := if c.deleting && !c.finalizer && !c.others then s.sets - {name} else s.sets[name := c],
       pending := s.pending + [SetEvent(name)])
  }

  ghost predicate Outside(s: State, s': State) {
    || (exists c, newLabel :: s' == Relabel(s, c, newLabel))
    || (exists name, f, others :: name != "" && name !in s.sets && s' == PutSet(s, name, ClusterSet(false, f, others)))
    || (exists name :: name in s.sets && s' == PutSet(s, name, s.sets[name].(deleting := true)))
    || (exists name :: name in s.sets && s' == PutSet(s, name, s.sets[name].(others := false)))
  }

  // ------------------------------------------------------------------ delivering events

  /** GetObjectClusterset: some set that the mapper lists the cluster under, or "". */
  predicate Lookup(m: Membership, cluster: string, found: string) {
    if found == "" then forall k :: k in m ==> cluster !in m[k] else Member(m, found, cluster)
  }

  /** getRequiredClusterSet for one version of an object. */
  function Requests(newLabel: string, found: string): set<string> {
    {newLabel, found} - {""}
  }

  /** An update event is mapped for the old and for the new object. Different informers
      deliver independently, so any pending event may be next. */
  ghost predicate Deliver(s: State, s': State) {
    exists i, found, found' :: 0 <= i < |s.pending| && Delivered(s, s', i, found, found')
  }

  predicate Delivered(s: State, s': State, i: nat, found: string, found': string)
    requires i < |s.pending|
  {
    match s.pending[i]
    case SetEvent(name) =>
      s' == s.(pending := s.pending[..i] + s.pending[i + 1..], queue := s.queue + {name})
    case LabelEvent(c, before, after) =>
      && Lookup(s.mapper, c, found) && Lookup(s.mapper, c, found')
      && s' == s.(pending := s.pending[..i] + s.pending[i + 1..],
                  queue := s.queue + Requests(before, found) + Requests(after, found'))
  }

  // ------------------------------------------------------------------ steps of the worker

  /** Taking a set from the queue and reading it. */
  function Fetch(s: State, name: string): State {
    var s1 := s.(queue := s.queue - {name});
    if name !in s.sets || (s.sets[name].deleting && !s.sets[name].finalizer) then s1
    else s1.(work := Fetched(name, s.sets[name]))
  }

  /** Any failing call ends Reconcile with an error, and the set is queued again. */
  function Fail(s: State): State
    requires !s.work.Idle?
  {
    s.(work := Idle, queue := s.queue + {s.work.name})
  }

  /** A live set gets the finalizer if the copy read had none: the update goes through only
      on an unchanged object. */
  predicate CanGuard(s: State) {
    && s.work.Fetched? && !s.work.read.deleting
    && (s.work.read.finalizer || (s.work.name in s.sets && s.sets[s.work.name] == s.work.read))
  }

  function Guard(s: State): State
    requires CanGuard(s)
  {
    var s1 := if s.work.read.finalizer then s else PutSet(s, s.work.name, s.work.read.(finalizer := true));
    s1.(work := Guarded(s.work.name))
  }

  function List(s: State): State
    requires s.work.Guarded?
  {
    s.(work := Listed(s.work.name, Labelled(s, s.work.name)))
  }

  /** UpdateClusterSetByObjects. */
  function Commit(s: State): State
    requires s.work.Listed?
  {
    var name, clusters := s.work.name, s.work.clusters;
    s.(mapper := if clusters == {} then s.mapper - {name} else s.mapper[name := clusters], work := Idle)
  }

  /** The same, but then the namespaces cannot be listed, and the set is queued again. */
  function CommitAndFail(s: State): State
    requires s.work.Listed?
  {
    Commit(s).(queue := s.queue + {s.work.name})
  }

  /** cleanClusterSetResource on a set that is being deleted. */
  function Clean(s: State): State
    requires s.work.Fetched? && s.work.read.deleting
  {
    s.(mapper := s.mapper - {s.work.name}, work := Cleaned(s.work.name))
  }

  /** Removing the finalizer. */
  function Release(s: State): State
    requires s.work.Cleaned? && s.work.name in s.sets
  {
    PutSet(s, s.work.name, s.sets[s.work.name].(finalizer := false)).(work := Idle)
  }

  ghost predicate Worker(s: State, s': State) {
    || (s.work.Idle? && exists name :: name in s.queue && s' == Fetch(s, name))
    || (!s.work.Idle? && s' == Fail(s))
    || (CanGuard(s) && s' == Guard(s))
    || (s.work.Guarded? && s' == List(s))
    || (s.work.Listed? && (s' == Commit(s) || s' == CommitAndFail(s)))
    || (s.work.Fetched? && s.work.read.deleting && s' == Clean(s))
    || (s.work.Cleaned? && s.work.name in s.sets && s' == Release(s))
  }

  ghost predicate Next(s: State, s': State) {
    Outside(s, s') || Deliver(s, s') || Worker(s, s')
  }

  // ------------------------------------------------------------------ the invariant

  predicate Mentions(e: Event, name: string) {
    match e
    case SetEvent(n) => n == name
    case LabelEvent(_, before, after) => before == name || after == name
  }

  /** The set is queued, or an event on its way will queue it. */
  predicate Awaited(s: State, name: string) {
    name in s.queue || exists e :: e in s.pending && Mentions(e, name)
  }

  predicate WorkedOn(s: State, name: string) {
    !s.work.Idle? && s.work.name == name
  }

  predicate Held(s: State, name: string) {
    name in s.sets && s.sets[name].finalizer
  }

  /** What the worker may rely on at each stage. */
  predicate WorkOk(s: State) {
    match s.work
    case Idle => true
    case Fetched(name, read) =>
      && name != ""
      && (if read.deleting then Held(s, name) && s.sets[name].deleting else Live(s, name) || Awaited(s, name))
      && (read.finalizer ==> Held(s, name))
    case Guarded(name) => name != "" && Held(s, name) && (Live(s, name) || Awaited(s, name))
    case Listed(name, clusters) => name != "" && Held(s, name) && (clusters == Wanted(s, name) || Awaited(s, name))
    case Cleaned(name) => Held(s, name) && s.sets[name].deleting && name !in s.mapper
  }

  ghost predicate Inv(s: State) {
    && Proper(s.mapper)
    && (forall c :: c in s.labels ==> s.labels[c] != "")
    && "" !in s.sets
    && WorkOk(s)
    && (forall name :: name in s.mapper ==> Held(s, name))
    && (forall name :: Agrees(s, name) || Awaited(s, name) || WorkedOn(s, name))
  }

  /** An event on its way keeps due what was due and makes due what it mentions. */
  lemma AwaitedAfter(s: State, s': State, e: Event)
    requires s'.pending == s.pending + [e] && s'.queue == s.queue
    ensures forall name :: Awaited(s, name) || Mentions(e, name) ==> Awaited(s', name)
  {
  }

  lemma RelabelKeeps(s: State, cluster: string, newLabel: string)
    requires Inv(s)
    ensures Inv(Relabel(s, cluster, newLabel))
  {
    var s' := Relabel(s, cluster, newLabel);
    var e := LabelEvent(cluster, LabelOf(s, cluster), newLabel);
    AwaitedAfter(s, s', e);
    forall name ensures Awaited(s', name) || Wanted(s', name) == Wanted(s, name) {
      if Live(s, name) && !Mentions(e, name) {
        assert Labelled(s', name) == Labelled(s, name);
      }
    }
    hide Labelled, Awaited, LabelOf;
  }

  lemma PutSetKeeps(s: State, name: string, c: ClusterSet)
    requires Inv(s) && name != ""
    requires name in s.sets ==> c.finalizer == s.sets[name].finalizer && (s.sets[name].deleting ==> c.deleting)
    ensures Inv(PutSet(s, name, c))
  {
    var s' := PutSet(s, name, c);
    AwaitedAfter(s, s', SetEvent(name));
    assert forall n :: n != name ==> Wanted(s', n) == Wanted(s, n);
    assert Mentions(SetEvent(name), name);
    hide Labelled, Awaited, Mentions;
  }

  lemma OutsideKeeps(s: State, s': State)
    requires Inv(s) && Outside(s, s')
    ensures Inv(s')
  {
    hide Inv, Relabel, PutSet;
    if c, newLabel :| s' == Relabel(s, c, newLabel) {
      RelabelKeeps(s, c, newLabel);
    } else if name, f, others :| name != "" && name !in s.sets && s' == PutSet(s, name, ClusterSet(false, f, others)) {
      PutSetKeeps(s, name, ClusterSet(false, f, others));
    } else if name :| name in s.sets && s' == PutSet(s, name, s.sets[name].(deleting := true)) {
      NamesAreSet(s);
      PutSetKeeps(s, name, s.sets[name].(deleting := true));
    } else {
      var name :| name in s.sets && s' == PutSet(s, name, s.sets[name].(others := false));
      NamesAreSet(s);
      PutSetKeeps(s, name, s.sets[name].(others := false));
    }
  }

  lemma NamesAreSet(s: State)
    requires Inv(s)
    ensures "" !in s.sets
  {
  }

  /** Delivering an event queues what it mentions, so nothing that was due is forgotten. */
  lemma DeliveredStaysDue(s: State, s': State, i: nat, found: string, found': string, name: string)
    requires i < |s.pending| && Delivered(s, s', i, found, found')
    requires name != "" && Awaited(s, name)
    ensures Awaited(s', name)
  {
    hide Lookup;
    if name !in s.queue {
      var e :| e in s.pending && Mentions(e, name);
      if e != s.pending[i] { assert e in s'.pending; }
    }
  }

  /** A label event queues both labels and, should the mapper hold the cluster, a set under which
      it does; nothing else. */
  lemma LabelEventQueues(s: State, s': State, i: nat, found: string, found': string)
    requires i < |s.pending| && s.pending[i].LabelEvent? && Delivered(s, s', i, found, found')
    requires Proper(s.mapper)
    ensures var e := s.pending[i];
            && s.queue <= s'.queue && "" !in s'.queue - s.queue
            && (e.before != "" ==> e.before in s'.queue) && (e.after != "" ==> e.after in s'.queue)
            && ((exists k :: Member(s.mapper, k, e.cluster)) ==>
                exists k :: k in s'.queue && Member(s.mapper, k, e.cluster))
            && forall k :: k in s'.queue - s.queue ==> k in {e.before, e.after} || Member(s.mapper, k, e.cluster)
  {
    var e := s.pending[i];
    if k :| Member(s.mapper, k, e.cluster) {
      assert found != "" && Member(s.mapper, found, e.cluster) && found in s'.queue;
    }
  }

  lemma DeliverKeeps(s: State, s': State)
    requires Inv(s) && Deliver(s, s')
    ensures Inv(s')
  {
    hide Lookup, Awaited, Mentions, Requests;
    var i, found, found' :| 0 <= i < |s.pending| && Delivered(s, s', i, found, found');
    forall name | name != "" && Awaited(s, name) ensures Awaited(s', name) {
      DeliveredStaysDue(s, s', i, found, found', name);
    }
    assert forall name :: Wanted(s', name) == Wanted(s, name);
    hide Labelled, Delivered;
  }

  lemma FetchKeeps(s: State, name: string)
    requires Inv(s) && s.work.Idle? && name in s.queue
    ensures Inv(Fetch(s, name))
  {
    var s' := Fetch(s, name);
    assert forall n :: n != name && Awaited(s, n) ==> Awaited(s', n);
    assert forall n :: Wanted(s', n) == Wanted(s, n);
    hide Labelled, Awaited;
  }

  lemma GuardKeeps(s: State)
    requires Inv(s) && CanGuard(s)
    ensures Inv(Guard(s))
  {
    var s' := Guard(s);
    if !s.work.read.finalizer {
      AwaitedAfter(s, s', SetEvent(s.work.name));
    }
    assert forall n :: Awaited(s, n) ==> Awaited(s', n);
    assert forall n :: Wanted(s', n) == Wanted(s, n);
    hide Labelled, Awaited;
  }

  lemma ReleaseKeeps(s: State)
    requires Inv(s) && s.work.Cleaned? && s.work.name in s.sets
    ensures Inv(Release(s))
  {
    var s' := Release(s);
    AwaitedAfter(s, s', SetEvent(s.work.name));
    assert forall n :: Wanted(s', n) == Wanted(s, n);
    hide Labelled, Awaited;
  }

  /** The steps that change no set, no label and no event. */
  lemma InnerKeeps(s: State, s': State)
    requires Inv(s)
    requires || (!s.work.Idle? && s' == Fail(s))
             || (s.work.Guarded? && s' == List(s))
             || (s.work.Listed? && s' == Commit(s))
             || (s.work.Fetched? && s.work.read.deleting && s' == Clean(s))
    ensures Inv(s')
  {
    assert forall n :: Awaited(s, n) ==> Awaited(s', n);
    assert forall n :: Wanted(s', n) == Wanted(s, n);
    hide Labelled, Awaited;
  }

  /** Queueing a set that need not be queued does no harm. */
  lemma CommitAndFailKeeps(s: State)
    requires Inv(s) && s.work.Listed?
    ensures Inv(CommitAndFail(s))
  {
    var c, s' := Commit(s), CommitAndFail(s);
    InnerKeeps(s, c);
    assert forall n :: Awaited(c, n) ==> Awaited(s', n);
    assert forall n :: Wanted(s', n) == Wanted(c, n);
    hide Labelled, Awaited, Commit;
  }

  lemma WorkerKeeps(s: State, s': State)
    requires Inv(s) && Worker(s, s')
    ensures Inv(s')
  {
    hide Inv, Fail, Guard, List, Commit, CommitAndFail, Clean, Release, Fetch;
    if s.work.Idle? {
      var name :| name in s.queue && s' == Fetch(s, name);
      FetchKeeps(s, name);
    } else if CanGuard(s) && s' == Guard(s) {
      GuardKeeps(s);
    } else if s.work.Cleaned? && s.work.name in s.sets && s' == Release(s) {
      ReleaseKeeps(s);
    } else if s.work.Listed? && s' == CommitAndFail(s) {
      CommitAndFailKeeps(s);
    } else {
      InnerKeeps(s, s');
    }
  }

  // ------------------------------------------------------------------ runs

  ghost predicate Run(states: seq<State>) {
    && states != [] && states[0] == INITIAL
    && forall i :: 0 <= i < |states| - 1 ==> Next(states[i], states[i + 1])
  }

  lemma {:induction false} RunKeepsInv(states: seq<State>, i: nat)
    requires Run(states) && i < |states|
    ensures Inv(states[i])
  {
    if i > 0 {
      RunKeepsInv(states, i - 1);
      var s, s' := states[i - 1], states[i];
      assert Next(s, s');
      if Outside(s, s') {
        OutsideKeeps(s, s');
      } else if Deliver(s, s') {
        DeliverKeeps(s, s');
      } else {
        WorkerKeeps(s, s');
      }
    }
  }

  /** In every reachable state: a set the mapper is wrong about is queued, about to be queued
      or being worked on, and every mapper entry belongs to a set with the finalizer. */
  lemma DisagreementIsQueued(states: seq<State>, i: nat, name: string)
    requires Run(states) && i < |states|
    ensures var s := states[i];
            && (Agrees(s, name) || Awaited(s, name) || WorkedOn(s, name))
            && (name in s.mapper ==> name in s.sets && s.sets[name].finalizer)
  {
    RunKeepsInv(states, i);
  }

  /** With nothing queued, on its way or in work, the mapper is exact. */
  lemma QuietIsExact(states: seq<State>, i: nat)
    requires Run(states) && i < |states|
    requires var s := states[i]; s.queue == {} && s.pending == [] && s.work.Idle?
    ensures forall name :: ObjectsIn(states[i].mapper, name) == Wanted(states[i], name)
  {
    RunKeepsInv(states, i);
    ExactWhenQuiet(states[i]);
  }

  // ------------------------------------------------------------------ convergence

  /** Reconcile without interference and without failing calls. */
  function ReconcileOnce(s: State, name: string): State {
    var f := Fetch(s.(work := Idle), name);
    if f.work.Idle? then f
    else if f.work.read.deleting then Release(Clean(f))
    else Commit(List(Guard(f)))
  }

  /** Where a reconcile may fail: reading the set, updating its finalizer, applying or deleting its
      cluster roles, listing its clusters or its namespaces. */
  datatype Fault = NoFault | AtRead | AtFinalizer | AtRoles | AtClusters | AtNamespaces

  /** The rest of a reconcile of a set that is being deleted. */
  function CleanWith(f: State, fault: Fault): State
    requires f.work.Fetched? && f.work.read.deleting && f.work.name in f.sets
  {
    if fault == AtRoles then Fail(f)
    else if fault == AtFinalizer then Fail(Clean(f))
    else Release(Clean(f))
  }

  /** The rest of a reconcile of a live set. */
  function SyncWith(f: State, fault: Fault): State
    requires f.work.Fetched? && CanGuard(f)
  {
    if fault == AtFinalizer && !f.work.read.finalizer then Fail(f)
    else if fault == AtRoles || fault == AtClusters then Fail(Guard(f))
    else if fault == AtNamespaces then CommitAndFail(List(Guard(f)))
    else Commit(List(Guard(f)))
  }

  /** Reconcile without interference, with at most one failing call. */
  function ReconcileWith(s: State, name: string, fault: Fault): State
    requires s.work.Idle? && name in s.queue
  {
    var f := Fetch(s, name);
    if fault == AtRead then s
    else if f.work.Idle? then f
    else if f.work.read.deleting then CleanWith(f, fault)
    else SyncWith(f, fault)
  }

  lemma CleanWithKeeps(f: State, fault: Fault)
    requires Inv(f) && f.work.Fetched? && f.work.read.deleting && f.work.name in f.sets
    ensures Inv(CleanWith(f, fault))
  {
    hide Inv;
    InnerKeeps(f, Fail(f));
    InnerKeeps(f, Clean(f));
    InnerKeeps(Clean(f), Fail(Clean(f)));
    ReleaseKeeps(Clean(f));
  }

  lemma SyncWithKeeps(f: State, fault: Fault)
    requires Inv(f) && f.work.Fetched? && CanGuard(f)
    ensures Inv(SyncWith(f, fault))
  {
    hide Inv;
    GuardKeeps(f);
    var g := Guard(f);
    InnerKeeps(f, Fail(f));
    InnerKeeps(g, Fail(g));
    InnerKeeps(g, List(g));
    InnerKeeps(List(g), Commit(List(g)));
    CommitAndFailKeeps(List(g));
  }

  /** Whatever call fails, the invariant holds, and the set is queued again unless the reconcile
      was complete. */
  lemma ReconcileWithKeeps(s: State, name: string, fault: Fault)
    requires Inv(s) && s.work.Idle? && name in s.queue
    ensures Inv(ReconcileWith(s, name, fault))
    ensures name !in ReconcileWith(s, name, fault).queue ==> ReconcileWith(s, name, fault) == ReconcileOnce(s, name)
  {
    hide Inv;
    assert s.(work := Idle) == s;
    var f := Fetch(s, name);
    FetchKeeps(s, name);
    if f.work.Fetched? && fault != AtRead {
      if f.work.read.deleting {
        CleanWithKeeps(f, fault);
      } else {
        SyncWithKeeps(f, fault);
      }
    }
  }

  /** A set that is being deleted loses its entry, once its roles are gone, before the finalizer. */
  lemma CleanLeaves(f: State, fault: Fault)
    requires f.work.Fetched? && f.work.read.deleting && f.work.name in f.sets
    ensures var done, left := Release(Clean(f)), CleanWith(f, fault);
            && left.mapper == (if fault == AtRoles then f.mapper else done.mapper)
            && left.sets == (if fault in {AtRoles, AtFinalizer} then f.sets else done.sets)
  {
  }

  /** A live set gets the finalizer before its entry; an entry stays although its namespaces could
      not be listed. */
  lemma SyncLeaves(f: State, fault: Fault)
    requires f.work.Fetched? && CanGuard(f)
    ensures var done, left := Commit(List(Guard(f))), SyncWith(f, fault);
            && left.sets == (if fault == AtFinalizer then f.sets else done.sets)
            && left.mapper == (if fault in {AtRoles, AtClusters} || (fault == AtFinalizer && !f.work.read.finalizer)
                               then f.mapper else done.mapper)
  {
  }

  /** Whatever call fails, finalizer and mapper entry are each as before or as after a complete
      reconcile, in that order. */
  lemma FaultsLeave(s: State, name: string, fault: Fault)
    requires Inv(s) && s.work.Idle? && name in s.queue && name in s.sets
    ensures var done, left := ReconcileOnce(s, name), ReconcileWith(s, name, fault);
            if s.sets[name].deleting then
              && left.mapper == (if fault in {AtRead, AtRoles} && s.sets[name].finalizer then s.mapper else done.mapper)
              && left.sets == (if fault in {AtRead, AtRoles, AtFinalizer} then s.sets else done.sets)
            else
              && left.sets == (if fault in {AtRead, AtFinalizer} then s.sets else done.sets)
              && left.mapper == (if fault in {AtRead, AtRoles, AtClusters}
                                    || (fault == AtFinalizer && !s.sets[name].finalizer) then s.mapper
                                 else done.mapper)
  {
    hide CleanWith, SyncWith, Clean, Release, Guard, List, Commit, Inv;
    assert s.(work := Idle) == s;
    var f := Fetch(s, name);
    if f.work.Fetched? {
      if f.work.read.deleting { CleanLeaves(f, fault); } else { SyncLeaves(f, fault); }
    }
  }

  /** Sets whose finalizer is still to be added or to be taken away. */
  function Unsettled(s: State): set<string> {
    set name | name in s.sets && s.sets[name].deleting == s.sets[name].finalizer
  }

  lemma ReconcileOnceKeeps(s: State, name: string)
    requires Inv(s) && s.work.Idle? && name in s.queue
    ensures var t := ReconcileOnce(s, name);
            && Inv(t) && t.work.Idle? && t.labels == s.labels
            && t.queue == s.queue - {name}
            && (if name in Unsettled(s) then |t.pending| == |s.pending| + 1 && Unsettled(t) == Unsettled(s) - {name}
                else t.pending == s.pending && Unsettled(t) == Unsettled(s))
            && forall n :: Live(t, n) <==> Live(s, n)
  {
    assert s.(work := Idle) == s;
    var f := Fetch(s, name);
    FetchKeeps(s, name);
    if f.work.Fetched? {
      if f.work.read.deleting {
        InnerKeeps(f, Clean(f));
        ReleaseKeeps(Clean(f));
      } else {
        GuardKeeps(f);
        InnerKeeps(Guard(f), List(Guard(f)));
        InnerKeeps(List(Guard(f)), Commit(List(Guard(f))));
      }
    }
    hide Inv;
  }

  /** With no more changes from outside and no failing call, delivering events and reconciling
      ends, in any order of the queue, with an exact mapper. */
  method Settle(start: State) returns (s: State)
    requires Inv(start)
    ensures s.queue == {} && s.pending == [] && s.work.Idle?
    ensures s.labels == start.labels && forall n :: Live(s, n) <==> Live(start, n)
    ensures forall name :: ObjectsIn(s.mapper, name) == if Live(start, name) then Labelled(start, name) else {}
  {
    hide Inv;
    s := start;
    if !s.work.Idle? {
      InnerKeeps(s, Fail(s));
      s := Fail(s);
    }
    while s.pending != [] || s.queue != {}
      invariant Inv(s) && s.work.Idle? && s.labels == start.labels
      invariant forall n :: Live(s, n) <==> Live(start, n)
      decreases 6 * |Unsettled(s)| + 5 * |s.pending| + |s.queue|
    {
      if s.pending != [] {
        s := DeliverFirst(s);
      } else {
        var name :| name in s.queue;
        ReconcileOnceKeeps(s, name);
        s := ReconcileOnce(s, name);
      }
    }
    ExactWhenQuiet(s);
  }

  lemma ExactWhenQuiet(s: State)
    requires Inv(s) && s.queue == {} && s.pending == [] && s.work.Idle?
    ensures forall name :: ObjectsIn(s.mapper, name) == Wanted(s, name)
  {
    forall name ensures ObjectsIn(s.mapper, name) == Wanted(s, name) {
      assert !Awaited(s, name) && !WorkedOn(s, name);
      assert Agrees(s, name);
    }
  }

  /** A lookup as the mapper may answer it. */
  method Find(m: Membership, cluster: string) returns (found: string)
    requires Proper(m)
    ensures Lookup(m, cluster, found)
  {
    if k :| k in m && cluster in m[k] {
      found := k;
    } else {
      found := "";
    }
  }

  method DeliverFirst(s: State) returns (t: State)
    requires Inv(s) && s.work.Idle? && s.pending != []
    ensures Inv(t) && t.work.Idle? && t.labels == s.labels && t.sets == s.sets
    ensures |t.pending| == |s.pending| - 1 && |t.queue| <= |s.queue| + 4
  {
    var found, found' := "", "";
    if s.pending[0].LabelEvent? {
      found := Find(s.mapper, s.pending[0].cluster);
      found' := Find(s.mapper, s.pending[0].cluster);
    }
    var rest := s.pending[..0] + s.pending[1..];
    var asked := match s.pending[0]
      case SetEvent(name) => {name}
      case LabelEvent(_, before, after) => Requests(before, found) + Requests(after, found');
    t := s.(pending := rest, queue := s.queue + asked);
    assert Delivered(s, t, 0, found, found') by {
      match s.pending[0]
      case SetEvent(_) =>
      case LabelEvent(_, before, after) =>
        assert s.queue + Requests(before, found) + Requests(after, found') == s.queue + asked;
    }
    DeliverKeeps(s, t);
    AtMostFour(s.pending[0], found, found', asked, s.queue);
  }

  lemma AtMostFour(e: Event, found: string, found': string, asked: set<string>, queue: set<string>)
    requires asked == match e
      case SetEvent(name) => {name}
      case LabelEvent(_, before, after) => Requests(before, found) + Requests(after, found')
    ensures |queue + asked| <= |queue| + 4
  {
  }
}
