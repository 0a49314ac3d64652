/** The cluster-set controller left alone: without changes from outside and without failing calls,
    every interleaving of deliveries and worker steps comes to an end with an exact mapper. Only
    the update of a set that had changed since it was read may still fail. */
module QuietRuns {
  import opened SetMapper
  import opened MapperQueue

  /** A live set was read without the finalizer and has changed since: the update that adds it
      is refused. */
  predicate Conflicts(s: State) {
    s.work.Fetched? && !s.work.read.deleting && !CanGuard(s)
  }

  /** A step of the worker whose calls fail only by conflict. */
  ghost predicate Progress(s: State, s': State) {
    || (Conflicts(s) && s' == Fail(s))
    || (s.work.Idle? && exists name :: name in s.queue && s' == Fetch(s, name))
    || (CanGuard(s) && s' == Guard(s))
    || (s.work.Guarded? && s' == List(s))
    || (s.work.Listed? && s' == Commit(s))
    || (s.work.Fetched? && s.work.read.deleting && s' == Clean(s))
    || (s.work.Cleaned? && s.work.name in s.sets && s' == Release(s))
  }

  ghost predicate QuietStep(s: State, s': State) {
    Deliver(s, s') || Progress(s, s')
  }

  /** What the worker has read is still what is there. */
  predicate Undisturbed(s: State) {
    s.work.Fetched? ==> s.work.name in s.sets && s.sets[s.work.name] == s.work.read
  }

  function StepsLeft(work: Work): nat {
    match work
    case Idle => 0
    case Fetched(_, _) => 3
    case Guarded(_) => 2
    case Listed(_, _) => 1
    case Cleaned(_) => 2
  }

  /** A bound on the quiet steps to come: a finalizer to be changed weighs more than the event
      that the change causes, an event more than the sets it may queue, and a queued set more
      than the steps of its reconcile. A read that is out of date costs one more round. */
  ghost function Effort(s: State): nat {
    30 * |Unsettled(s)| + 25 * |s.pending| + 5 * |s.queue| + StepsLeft(s.work) + if Undisturbed(s) then 0 else 6
  }

  lemma DeliverIsLess(s: State, s': State)
    requires Deliver(s, s')
    ensures Effort(s') < Effort(s) && s'.work == s.work && s'.sets == s.sets && s'.labels == s.labels
  {
    hide Effort, Lookup, Requests;
    var i, found, found' :| 0 <= i < |s.pending| && Delivered(s, s', i, found, found');
    QueuesAtMostFour(s, s', i, found, found');
    LessByDelivery(s, s');
  }

  lemma QueuesAtMostFour(s: State, s': State, i: nat, found: string, found': string)
    requires i < |s.pending| && Delivered(s, s', i, found, found')
    ensures |s'.queue| <= |s.queue| + 4
  {
    hide Lookup, Requests;
    match s.pending[i]
    case SetEvent(name) =>
      AtMostFour(s.pending[i], found, found', {name}, s.queue);
    case LabelEvent(_, before, after) =>
      var asked := Requests(before, found) + Requests(after, found');
      assert s.queue + Requests(before, found) + Requests(after, found') == s.queue + asked;
      AtMostFour(s.pending[i], found, found', asked, s.queue);
  }

  lemma LessByDelivery(s: State, s': State)
    requires |s'.pending| == |s.pending| - 1 && |s'.queue| <= |s.queue| + 4
    requires s'.work == s.work && s'.sets == s.sets
    ensures Effort(s') < Effort(s)
  {
    assert Unsettled(s') == Unsettled(s);
  }

  lemma FetchIsLess(s: State, name: string)
    requires Inv(s) && s.work.Idle? && name in s.queue
    ensures var s' := Fetch(s, name);
            Effort(s') < Effort(s) && s'.labels == s.labels && s'.sets == s.sets
  {
    hide Inv;
    assert Unsettled(Fetch(s, name)) == Unsettled(s);
    assert |s.queue - {name}| == |s.queue| - 1;
  }

  /** A step that takes a finalizer away or adds it settles the set and causes one event. */
  lemma SettlingIsLess(s: State, s': State, name: string)
    requires name in Unsettled(s) && Unsettled(s') == Unsettled(s) - {name}
    requires |s'.pending| == |s.pending| + 1 && s'.queue == s.queue && StepsLeft(s'.work) <= StepsLeft(s.work)
    requires Undisturbed(s')
    ensures Effort(s') < Effort(s)
  {
    hide Unsettled;
    assert |Unsettled(s) - {name}| == |Unsettled(s)| - 1;
  }

  lemma ConflictIsLess(s: State)
    requires Inv(s) && Conflicts(s)
    ensures Effort(Fail(s)) < Effort(s)
  {
    assert !Undisturbed(s);
    hide Inv;
    assert Unsettled(Fail(s)) == Unsettled(s);
    assert |s.queue + {s.work.name}| <= |s.queue| + 1;
  }

  lemma GuardIsLess(s: State)
    requires Inv(s) && CanGuard(s)
    ensures var s' := Guard(s);
            && Effort(s') < Effort(s) && s'.labels == s.labels
            && forall n :: Live(s', n) <==> Live(s, n)
  {
    hide Inv;
    var s', name := Guard(s), s.work.name;
    if s.work.read.finalizer {
      assert Unsettled(s') == Unsettled(s);
    } else {
      assert Unsettled(s') == Unsettled(s) - {name};
      SettlingIsLess(s, s', name);
    }
  }

  lemma ReleaseIsLess(s: State)
    requires Inv(s) && s.work.Cleaned? && s.work.name in s.sets
    ensures var s' := Release(s);
            && Effort(s') < Effort(s) && s'.labels == s.labels
            && forall n :: Live(s', n) <==> Live(s, n)
  {
    var s', name := Release(s), s.work.name;
    assert Held(s, name) && s.sets[name].deleting;
    hide Inv;
    assert Unsettled(s') == Unsettled(s) - {name};
    SettlingIsLess(s, s', name);
  }

  lemma ProgressIsLess(s: State, s': State)
    requires Inv(s) && Progress(s, s')
    ensures Effort(s') < Effort(s) && s'.labels == s.labels
    ensures forall n :: Live(s', n) <==> Live(s, n)
  {
    hide Inv, Guard, Release, Fetch;
    if s.work.Idle? {
      var name :| name in s.queue && s' == Fetch(s, name);
      FetchIsLess(s, name);
    } else if s.work.Cleaned? {
      ReleaseIsLess(s);
    } else if Conflicts(s) && s' == Fail(s) {
      ConflictIsLess(s);
    } else if CanGuard(s) && s' == Guard(s) {
      GuardIsLess(s);
    } else {
      assert Unsettled(s') == Unsettled(s);
    }
  }

  lemma ProgressIsWork(s: State, s': State)
    requires Progress(s, s')
    ensures Worker(s, s')
  {
  }

  /** A run of quiet steps from a state that satisfies the controller's invariant. */
  ghost predicate QuietRun(states: seq<State>) {
    && states != [] && Inv(states[0])
    && forall i :: 0 <= i < |states| - 1 ==> QuietStep(states[i], states[i + 1])
  }

  lemma {:induction false} QuietRunIsBounded(states: seq<State>, i: nat)
    requires QuietRun(states) && i < |states|
    ensures Inv(states[i]) && Effort(states[i]) + i <= Effort(states[0])
    ensures states[i].labels == states[0].labels && forall n :: Live(states[i], n) <==> Live(states[0], n)
  {
    hide Inv, Effort, Deliver, Progress;
    if i > 0 {
      QuietRunIsBounded(states, i - 1);
      var s, s' := states[i - 1], states[i];
      assert QuietStep(s, s');
      if Deliver(s, s') {
        DeliverKeeps(s, s');
        DeliverIsLess(s, s');
      } else {
        ProgressIsWork(s, s');
        WorkerKeeps(s, s');
        ProgressIsLess(s, s');
      }
    }
  }

  /** Where no quiet step is possible, there is nothing left to do. */
  lemma StuckMeansDone(s: State)
    requires Inv(s) && forall s' :: !QuietStep(s, s')
    ensures s.queue == {} && s.pending == [] && s.work.Idle?
  {
    if s.pending != [] {
      var s' := SomeDelivery(s);
      assert QuietStep(s, s');
    } else {
      match s.work
      case Idle =>
        if name :| name in s.queue { assert QuietStep(s, Fetch(s, name)); }
      case Fetched(_, read) =>
        assert QuietStep(s, if read.deleting then Clean(s) else if CanGuard(s) then Guard(s) else Fail(s));
      case Guarded(_) => assert QuietStep(s, List(s));
      case Listed(_, _) => assert QuietStep(s, Commit(s));
      case Cleaned(_) => assert QuietStep(s, Release(s));
    }
  }

  lemma SomeDelivery(s: State) returns (s': State)
    requires s.pending != [] && Proper(s.mapper)
    ensures Deliver(s, s')
  {
    var rest := s.pending[..0] + s.pending[1..];
    match s.pending[0]
    case SetEvent(name) =>
      s' := s.(pending := rest, queue := s.queue + {name});
      assert Delivered(s, s', 0, "", "");
    case LabelEvent(c, before, after) =>
      var found := if k :| k in s.mapper && c in s.mapper[k] then k else "";
      s' := s.(pending := rest, queue := s.queue + Requests(before, found) + Requests(after, found));
      assert Delivered(s, s', 0, found, found);
  }

  /** Any quiet run is no longer than its bound, and one that cannot go on has an exact mapper. */
  lemma QuietRunsSettle(states: seq<State>)
    requires QuietRun(states)
    ensures |states| <= Effort(states[0]) + 1
    ensures var last := states[|states| - 1];
            (forall s' :: !QuietStep(last, s')) ==>
              forall name :: ObjectsIn(last.mapper, name) == Wanted(states[0], name)
  {
    hide Inv, Effort, QuietStep;
    var last := states[|states| - 1];
    QuietRunIsBounded(states, |states| - 1);
    if forall s' :: !QuietStep(last, s') {
      StuckMeansDone(last);
      ExactWhenQuiet(last);
    }
  }
}
