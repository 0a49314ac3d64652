/** The watch through which a user follows the resources it may see. */
module Watcher {
  import opened Rbac
  import opened AuthCache

  datatype Event =
    | Added(name: string, version: string)
    | Modified(name: string, version: string)
    | Deleted(name: string)

  /** Resource versions by name, as a client of the watch keeps them. */
  type View = map<string, string>

  function Play(view: View, e: Event): View {
    match e
    case Added(name, version) => view[name := version]
    case Modified(name, version) => view[name := version]
    case Deleted(name) => view - {name}
  }

  function Replay(view: View, events: seq<Event>): View
    decreases events
  {
    if events == [] then view else Replay(Play(view, events[0]), events[1..])
  }

  /** Added for absent names, Modified for present ones at another version, Deleted for
      present ones. */
  predicate Fits(view: View, e: Event) {
    match e
    case Added(name, _) => name !in view
    case Modified(name, version) => name in view && view[name] != version
    case Deleted(name) => name in view
  }

  predicate WellFormed(view: View, events: seq<Event>)
    decreases events
  {
    events != [] ==> Fits(view, events[0]) && WellFormed(Play(view, events[0]), events[1..])
  }

  lemma {:induction false} OneMoreEvent(view: View, events: seq<Event>, e: Event)
    ensures Replay(view, events + [e]) == Play(Replay(view, events), e)
    ensures WellFormed(view, events + [e]) <==> WellFormed(view, events) && Fits(Replay(view, events), e)
    decreases events
  {
    var all := events + [e];
    if events == [] {
      assert all == [e] && all[1..] == [];
    } else {
      assert all[0] == events[0] && all[1..] == events[1..] + [e];
      OneMoreEvent(Play(view, events[0]), events[1..], e);
    }
  }

  /** What the watcher knows after it was told the user's names: these, as far as they can be
      looked up or were known. */
  function Refreshed(known: View, names: set<string>, objects: View): View {
    map n | n in names && (n in objects || n in known) :: if n in objects then objects[n] else known[n]
  }

  /** The events for the difference. */
  predicate IsNews(known: View, names: set<string>, objects: View, e: Event) {
    match e
    case Added(n, v) => n in names && n in objects && v == objects[n] && n !in known
    case Modified(n, v) => n in names && n in objects && v == objects[n] && n in known && known[n] != v
    case Deleted(n) => n in known && n !in names
  }

  ghost predicate OnePerName(events: seq<Event>) {
    forall i, j :: 0 <= i < j < |events| ==> events[i].name != events[j].name
  }

  class CacheWatcher {
    const user: string
    const groups: seq<string>
    ghost const start: View        // what the client has before the first event
    var initial: seq<Event>        // still to be emitted before anything else
    var incoming: seq<Event>       // the channel
    var emitted: seq<Event>
    var known: View

    /** What is and will be emitted is well formed and takes the client to what is known. */
    ghost predicate Valid()
      reads this
    {
      && WellFormed(start, Stream())
      && Replay(start, Stream()) == known
    }

    ghost function Stream(): seq<Event>
      reads this
    {
      emitted + initial + incoming
    }

    /** NewCacheWatcher: a client that asks for the existing resources starts from nothing. */
    constructor (user: string, groups: seq<string>, objects: View, includeAll: bool)
      ensures Valid() && known == objects && emitted == [] && incoming == []
      ensures start == if includeAll then map[] else objects
      ensures this.user == user && this.groups == groups
    {
      this.user, this.groups, this.start := user, groups, if includeAll then map[] else objects;
      initial, incoming, emitted, known := [], [], [], objects;
      new;
      if includeAll {
        var names := Listing(objects.Keys);
        ghost var seen: View := map[];
        hide WellFormed, Replay;
        for i := 0 to |names|
          invariant WellFormed(map[], initial) && Replay(map[], initial) == seen
          invariant seen.Keys == (set n | n in names[..i]) && forall n :: n in seen ==> seen[n] == objects[n]
          invariant incoming == [] && emitted == [] && known == objects
        {
          var e := Added(names[i], objects[names[i]]);
          OneMoreEvent(map[], initial, e);
          assert names[..i + 1] == names[..i] + [names[i]];
          initial, seen := initial + [e], Play(seen, e);
        }
        assert names[..|names|] == names;
        assert seen == objects;
        assert Stream() == initial;
      }
    }

    /** Queues one event and keeps what is known in step. */
    method Send(e: Event)
      requires Valid() && Fits(known, e)
      modifies this`incoming, this`known
      ensures Valid() && incoming == old(incoming) + [e] && known == Play(old(known), e)
    {
      OneMoreEvent(start, Stream(), e);
      assert emitted + initial + (incoming + [e]) == Stream() + [e];
      incoming, known := incoming + [e], Play(known, e);
    }

    /** GroupMembershipChanged, as long as the channel does not fill up. */
    method GroupMembershipChanged(names: set<string>, users: set<string>, toldGroups: set<string>, objects: View)
      requires Valid()
      modifies this`incoming, this`known
      ensures Valid()
      ensures !Audible(user, groups, users, toldGroups) ==> known == old(known) && incoming == old(incoming)
      ensures Audible(user, groups, users, toldGroups) ==>
                && known == Refreshed(old(known), names, objects)
                && exists news :: incoming == old(incoming) + news && OnePerName(news)
                     && forall e :: e in news <==> IsNews(old(known), names, objects, e)
    {
      var hasAccess := user in users || exists g :: g in groups && g in toldGroups;
      if !hasAccess {
        return;
      }
      ghost var before, was := known, incoming;
      ghost var dropped := DropGone(names);
      ghost var told := AddListed(before, names, objects);
      NewsTogether(before, names, objects, dropped, told);
      assert incoming == was + (dropped + told);
    }

    /** The first loop: a Deleted event for each known name that is not listed. */
    method DropGone(names: set<string>) returns (ghost news: seq<Event>)
      requires Valid()
      modifies this`incoming, this`known
      ensures Valid() && incoming == old(incoming) + news && OnePerName(news)
      ensures known == old(known) - (old(known).Keys - names)
      ensures forall e :: e in news <==> e.Deleted? && e.name in old(known) && e.name !in names
    {
      hide CacheWatcher.Valid, OnePerName, CacheWatcher.Stream;
      news := [];
      var gone := Listing(known.Keys);
      NoEvents();
      for i := 0 to |gone|
        invariant Valid() && incoming == old(incoming) + news && OnePerName(news)
        invariant known == old(known) - (set n | n in gone[..i] && n !in names)
        invariant forall e :: e in news <==> e.Deleted? && e.name in gone[..i] && e.name !in names
      {
        var name := gone[i];
        assert gone[..i + 1] == gone[..i] + [name];
        assert name !in gone[..i];
        assert name in gone;
        if name !in names {
          Send(Deleted(name));
          AppendOnePerName(news, Deleted(name));
          news := news + [Deleted(name)];
        }
      }
      assert gone[..|gone|] == gone;
    }

    /** The second loop: an event for each listed name that is new or has a new version. */
    method AddListed(ghost before: View, names: set<string>, objects: View) returns (ghost news: seq<Event>)
      requires Valid() && known == before - (before.Keys - names)
      modifies this`incoming, this`known
      ensures Valid() && incoming == old(incoming) + news && OnePerName(news)
      ensures known == Refreshed(before, names, objects)
      ensures forall e :: e in news <==> IsNews(before, names, objects, e) && !e.Deleted?
    {
      hide CacheWatcher.Valid, CacheWatcher.Stream, Told, Updated;
      news := [];
      var listed := Listing(names);
      NothingTold(before, names, objects);
      for i := 0 to |listed|
        invariant Valid() && incoming == old(incoming) + news
        invariant known == Updated(before, names, listed[..i], objects)
        invariant Told(before, names, objects, listed[..i], news)
      {
        var name := listed[i];
        assert listed[..i + 1] == listed[..i] + [name];
        assert name !in listed[..i];
        assert name in listed;
        TellOne(before, names, objects, listed[..i], name, news);
        if name in objects && !(name in known && known[name] == objects[name]) {
          var e := if name in known then Modified(name, objects[name]) else Added(name, objects[name]);
          Send(e);
          news := news + [e];
        }
      }
      assert listed[..|listed|] == listed;
      EverythingTold(before, names, objects, listed, news);
    }

    /** One turn of Watch: the initial resources first, then the channel in order. */
    method Emit()
      requires Valid()
      modifies this
      ensures Valid() && known == old(known) && Stream() == old(Stream())
      ensures emitted == if old(Stream()) == old(emitted) then old(emitted) else old(Stream())[..|old(emitted)| + 1]
    {
      if initial != [] {
        emitted, initial := emitted + [initial[0]], initial[1..];
      } else if incoming != [] {
        emitted, incoming := emitted + [incoming[0]], incoming[1..];
      }
      assert Stream() == old(Stream());
    }

    /** A client that has received everything knows what the watcher knows. */
    lemma DrainedIsKnown()
      requires Valid() && initial == [] && incoming == []
      ensures Replay(start, emitted) == known
    {
      assert Stream() == emitted;
    }
  }

  predicate Audible(user: string, groups: seq<string>, users: set<string>, toldGroups: set<string>) {
    user in users || exists g :: g in groups && g in toldGroups
  }

  /** In the middle of the second loop. */
  ghost function Updated(before: View, names: set<string>, done: seq<string>, objects: View): View {
    map n | n in before.Keys + objects.Keys && n in names && (n in before || n in done) ::
      if n in done && n in objects then objects[n] else before[n]
  }

  /** The events of the second loop so far. */
  ghost predicate Told(before: View, names: set<string>, objects: View, done: seq<string>, news: seq<Event>) {
    && OnePerName(news)
    && forall e :: e in news <==> IsNews(before, names, objects, e) && !e.Deleted? && e.name in done
  }

  lemma NothingTold(before: View, names: set<string>, objects: View)
    ensures Told(before, names, objects, [], [])
    ensures Updated(before, names, [], objects) == before - (before.Keys - names)
  {
  }

  lemma TellOne(before: View, names: set<string>, objects: View, done: seq<string>, name: string, news: seq<Event>)
    requires Told(before, names, objects, done, news) && name in names && name !in done
    ensures var known := Updated(before, names, done, objects);
            if name in objects && !(name in known && known[name] == objects[name]) then
              var e := if name in known then Modified(name, objects[name]) else Added(name, objects[name]);
              && Fits(known, e) && Updated(before, names, done + [name], objects) == Play(known, e)
              && Told(before, names, objects, done + [name], news + [e])
            else
              && Updated(before, names, done + [name], objects) == known
              && Told(before, names, objects, done + [name], news)
  {
    hide OnePerName;
    var known := Updated(before, names, done, objects);
    UpdateOne(before, names, objects, done, name);
    if name in objects && !(name in known && known[name] == objects[name]) {
      var e := if name in known then Modified(name, objects[name]) else Added(name, objects[name]);
      AppendOnePerName(news, e);
      forall x
        ensures x in news + [e] <==> IsNews(before, names, objects, x) && !x.Deleted? && x.name in done + [name]
      {
      }
    }
  }

  lemma UpdateOne(before: View, names: set<string>, objects: View, done: seq<string>, name: string)
    requires name in names && name !in done
    ensures var known := Updated(before, names, done, objects);
            && (name in known <==> name in before) && (name in before ==> known[name] == before[name])
            && Updated(before, names, done + [name], objects) ==
                 if name in objects then known[name := objects[name]] else known
  {
  }

  lemma EverythingTold(before: View, names: set<string>, objects: View, done: seq<string>, news: seq<Event>)
    requires Told(before, names, objects, done, news) && forall n :: n in done <==> n in names
    ensures Updated(before, names, done, objects) == Refreshed(before, names, objects)
    ensures OnePerName(news) && forall e :: e in news <==> IsNews(before, names, objects, e) && !e.Deleted?
  {
  }

  lemma NoEvents()
    ensures OnePerName([])
  {
  }

  lemma NewsTogether(before: View, names: set<string>, objects: View, dropped: seq<Event>, told: seq<Event>)
    requires OnePerName(dropped) && OnePerName(told)
    requires forall e :: e in dropped <==> e.Deleted? && e.name in before && e.name !in names
    requires forall e :: e in told <==> IsNews(before, names, objects, e) && !e.Deleted?
    ensures OnePerName(dropped + told)
    ensures forall e :: e in dropped + told <==> IsNews(before, names, objects, e)
  {
  }

  lemma AppendOnePerName(events: seq<Event>, e: Event)
    requires OnePerName(events) && forall x :: x in events ==> x.name != e.name
    ensures OnePerName(events + [e])
  {
  }

  // ------------------------------------------------------------------ following a cache

  /** What is known after the notices of a cache, most of which concern others. */
  function Followed(known: View, notices: seq<Notice>, user: string, groups: seq<string>, objects: View): View
    decreases notices
  {
    if notices == [] then known
    else
      var last := notices[|notices| - 1];
      var k := Followed(known, notices[..|notices| - 1], user, groups, objects);
      if last.holder in Asking(user, groups) then Refreshed(k, last.names, objects) else k
  }

  /** A run of notifications; any number of events may be emitted in between. */
  method Follow(w: CacheWatcher, notices: seq<Notice>, objects: View)
    requires w.Valid()
    modifies w`incoming, w`known
    ensures w.Valid() && w.known == Followed(old(w.known), notices, w.user, w.groups, objects)
    ensures old(w.incoming) <= w.incoming
  {
    hide CacheWatcher.Valid, Refreshed;
    for i := 0 to |notices|
      invariant w.Valid() && w.known == Followed(old(w.known), notices[..i], w.user, w.groups, objects)
      invariant old(w.incoming) <= w.incoming
    {
      assert notices[..i + 1] == notices[..i] + [notices[i]];
      var holder, names := notices[i].holder, notices[i].names;
      if holder.User? {
        w.GroupMembershipChanged(names, {holder.name}, {}, objects);
      } else {
        w.GroupMembershipChanged(names, {}, {holder.name}, objects);
      }
    }
    assert notices[..|notices|] == notices;
  }

  /** The list in the last notice that reached the user. */
  function LastHeard(notices: seq<Notice>, user: string, groups: seq<string>): Option<set<string>>
    decreases notices
  {
    if notices == [] then None
    else if notices[|notices| - 1].holder in Asking(user, groups) then Some(notices[|notices| - 1].names)
    else LastHeard(notices[..|notices| - 1], user, groups)
  }

  /** Only the last notice that reached the user matters: its names replace all earlier ones. */
  lemma {:induction false} OnlyTheLastCounts(known: View, notices: seq<Notice>, user: string, groups: seq<string>,
                                             objects: View)
    requires forall notice :: notice in notices ==> notice.names <= objects.Keys
    ensures var heard := LastHeard(notices, user, groups);
            Followed(known, notices, user, groups, objects) ==
              if heard.None? then known else ViewOf(heard.value, objects)
    decreases notices
  {
    hide Asking;
    if notices != [] {
      OnlyTheLastCounts(known, notices[..|notices| - 1], user, groups, objects);
      assert notices[|notices| - 1] in notices;
    }
  }

  /** The last notice heard is the last one of the list that reaches the user. */
  lemma {:induction false} HeardIsLast(notices: seq<Notice>, user: string, groups: seq<string>)
    ensures var heard := LastHeard(notices, user, groups);
            if heard.None? then forall k :: 0 <= k < |notices| ==> notices[k].holder !in Asking(user, groups)
            else exists k :: 0 <= k < |notices| && LastAt(notices, user, groups, k) && notices[k].names == heard.value
    decreases notices
  {
    hide Asking;
    if notices != [] {
      var last := |notices| - 1;
      HeardIsLast(notices[..last], user, groups);
      if notices[last].holder in Asking(user, groups) {
        assert LastAt(notices, user, groups, last);
      } else if LastHeard(notices[..last], user, groups).Some? {
        var k :| 0 <= k < last && LastAt(notices[..last], user, groups, k)
                 && notices[k].names == LastHeard(notices, user, groups).value;
        assert LastAt(notices, user, groups, k);
      }
    }
  }

  ghost predicate LastAt(notices: seq<Notice>, user: string, groups: seq<string>, k: nat)
    requires k < |notices|
  {
    && notices[k].holder in Asking(user, groups)
    && forall j :: k < j < |notices| ==> notices[j].holder !in Asking(user, groups)
  }

  lemma {:induction false} HeardAt(notices: seq<Notice>, user: string, groups: seq<string>, k: nat)
    requires k < |notices| && LastAt(notices, user, groups, k)
    ensures LastHeard(notices, user, groups) == Some(notices[k].names)
    decreases notices
  {
    hide Asking;
    if k < |notices| - 1 {
      HeardAt(notices[..|notices| - 1], user, groups, k);
    }
  }

  // ------------------------------------------------------------------ watching and listing

  /** The names that listing gives the user after a synchronization, whatever was recorded
      before: those in the records, without those whose object is gone. */
  ghost function Listed(s: Inputs, level: Level, t: Target, before: Records,
                        user: string, groups: seq<string>): set<string>
  {
    set h, r | h in Asking(user, groups) && r in Recorded(s, level, t, before, h) && r in s.known :: r
  }

  function ViewOf(names: set<string>, objects: View): View {
    map n | n in names && n in objects :: objects[n]
  }

  lemma ListedIsListed(s: Inputs, level: Level, t: Target, before: Records,
                       after: Records, user: string, groups: seq<string>)
    requires Synchronized(s, level, t, before, after)
    ensures forall r :: r in Listed(s, level, t, before, user, groups)
                   <==> r in s.known && exists h :: h in Asking(user, groups) && r in NamesAt(after, h)
  {
    hide Synchronized, Recorded, Asking;
    RecordsAfter(s, level, t, before, after);
  }

  /** The notice is to be told and reaches the user. */
  ghost predicate Reaching(s: Inputs, level: Level, t: Target, knownBefore: set<Holder>,
                           user: string, groups: seq<string>, notice: Notice)
  {
    ToBeTold(s, level, t, knownBefore, notice) && notice.holder in Asking(user, groups)
  }

  /** It may come last among those: none of them has a later stage. */
  ghost predicate MayComeLast(s: Inputs, level: Level, t: Target, knownBefore: set<Holder>,
                              user: string, groups: seq<string>, notice: Notice)
  {
    && Reaching(s, level, t, knownBefore, user, groups, notice)
    && forall other :: Reaching(s, level, t, knownBefore, user, groups, other) ==> Stage(other) <= Stage(notice)
  }

  /** Every notice that may come last has the whole list, and without any what was known before
      is right. */
  ghost predicate LastNoticesAreWhole(s: Inputs, level: Level, t: Target, knownBefore: set<Holder>,
                                      before: Records, known: View, user: string, groups: seq<string>, objects: View)
  {
    var all := Listed(s, level, t, before, user, groups);
    && (forall notice :: MayComeLast(s, level, t, knownBefore, user, groups, notice) ==> notice.names == all)
    && ((forall notice :: !Reaching(s, level, t, knownBefore, user, groups, notice)) ==> known == ViewOf(all, objects))
  }

  ghost predicate Drops(s: Inputs, level: Level, t: Target, knownBefore: set<Holder>, h: Holder) {
    h in knownBefore && !Mentioned(s, level, t, h)
  }

  /** The same said of the grants: with a dropped holder nothing is listed; otherwise each group
      with a grant, without such a group the user, has all that is listed; and without any
      grant what was known before is what listing gives now. */
  ghost predicate LastWordIsWhole(s: Inputs, level: Level, t: Target, knownBefore: set<Holder>,
                                  before: Records, known: View, user: string, groups: seq<string>, objects: View)
  {
    var all := Listed(s, level, t, before, user, groups);
    if exists h :: h in Asking(user, groups) && Drops(s, level, t, knownBefore, h) then all == {}
    else if exists g :: g in groups && GrantSet(s, level, t, Group(g)) != {} then
      forall g :: g in groups && GrantSet(s, level, t, Group(g)) != {} ==> GrantSet(s, level, t, Group(g)) == all
    else if GrantSet(s, level, t, User(user)) != {} then GrantSet(s, level, t, User(user)) == all
    else known == ViewOf(all, objects)
  }

  lemma LastWordMeans(s: Inputs, level: Level, t: Target, knownBefore: set<Holder>,
                      before: Records, known: View, user: string, groups: seq<string>, objects: View)
    ensures LastWordIsWhole(s, level, t, knownBefore, before, known, user, groups, objects)
       <==> LastNoticesAreWhole(s, level, t, knownBefore, before, known, user, groups, objects)
  {
    hide Mentioned, GrantSet, Listed, ViewOf;
    if h :| h in Asking(user, groups) && Drops(s, level, t, knownBefore, h) {
      DroppedComesLast(s, level, t, knownBefore, user, groups, h);
    } else if g0 :| g0 in groups && GrantSet(s, level, t, Group(g0)) != {} {
      forall notice ensures MayComeLast(s, level, t, knownBefore, user, groups, notice) <==>
        notice.holder.Group? && notice.holder.name in groups && notice.names != {}
        && notice.names == GrantSet(s, level, t, notice.holder)
      {
        assert Reaching(s, level, t, knownBefore, user, groups, Notice(Group(g0), GrantSet(s, level, t, Group(g0))));
      }
      forall g | g in groups && GrantSet(s, level, t, Group(g)) != {}
        ensures MayComeLast(s, level, t, knownBefore, user, groups, Notice(Group(g), GrantSet(s, level, t, Group(g))))
      {
      }
    } else {
      var own := Notice(User(user), GrantSet(s, level, t, User(user)));
      forall notice ensures Reaching(s, level, t, knownBefore, user, groups, notice) <==>
        notice == own && own.names != {}
      {
      }
      assert own.names != {} ==> MayComeLast(s, level, t, knownBefore, user, groups, own);
    }
  }

  lemma DroppedComesLast(s: Inputs, level: Level, t: Target, knownBefore: set<Holder>, user: string,
                         groups: seq<string>, h: Holder)
    requires h in Asking(user, groups) && Drops(s, level, t, knownBefore, h)
    ensures exists notice :: MayComeLast(s, level, t, knownBefore, user, groups, notice)
    ensures exists notice :: Reaching(s, level, t, knownBefore, user, groups, notice)
    ensures forall notice :: MayComeLast(s, level, t, knownBefore, user, groups, notice) ==> notice.names == {}
  {
    hide Mentioned, GrantSet;
    var dropped := Notice(h, {});
    assert Reaching(s, level, t, knownBefore, user, groups, dropped);
    if g :| g in groups && Drops(s, level, t, knownBefore, Group(g)) {
      assert MayComeLast(s, level, t, knownBefore, user, groups, Notice(Group(g), {}));
    } else {
      assert MayComeLast(s, level, t, knownBefore, user, groups, dropped);
    }
  }

  /** The watch shows what listing gives, names and versions, in whatever order the loops tell
      their notices, if and only if the last word is the whole list. */
  lemma WatchMatchesListingExactlyWhen(s: Inputs, level: Level, t: Target, knownBefore: set<Holder>,
                                       before: Records, known: View,
                                       user: string, groups: seq<string>, objects: View)
    requires objects.Keys == s.known
    ensures var listing := ViewOf(Listed(s, level, t, before, user, groups), objects);
            (forall told :: Announced(s, level, t, knownBefore, told) ==>
               Followed(known, told, user, groups, objects) == listing)
            <==> LastWordIsWhole(s, level, t, knownBefore, before, known, user, groups, objects)
  {
    LastWordMeans(s, level, t, knownBefore, before, known, user, groups, objects);
    hide Announced, Reaching, ToBeTold, Asking, LastWordIsWhole, Recorded;
    var all := Listed(s, level, t, before, user, groups);
    assert ViewOf(all, objects).Keys == all;
    if LastWordIsWhole(s, level, t, knownBefore, before, known, user, groups, objects) {
      forall told | Announced(s, level, t, knownBefore, told)
        ensures Followed(known, told, user, groups, objects) == ViewOf(all, objects)
      {
        ToldIsHeard(s, level, t, knownBefore, told, known, user, groups, objects);
      }
    } else if notice :| MayComeLast(s, level, t, knownBefore, user, groups, notice) && notice.names != all {
      var told := ToldLast(s, level, t, knownBefore, user, groups, notice);
      HeardMeansShown(s, level, t, knownBefore, told, known, user, groups, objects);
      assert Followed(known, told, user, groups, objects).Keys == notice.names;
    } else {
      var told := AllTold(s, level, t, knownBefore);
      ToldIsHeard(s, level, t, knownBefore, told, known, user, groups, objects);
    }
  }

  /** What is shown are the names of the last notice heard, all of which exist. */
  lemma HeardMeansShown(s: Inputs, level: Level, t: Target, knownBefore: set<Holder>, told: seq<Notice>,
                        known: View, user: string, groups: seq<string>, objects: View)
    requires objects.Keys == s.known && Announced(s, level, t, knownBefore, told)
    ensures var heard := LastHeard(told, user, groups);
            Followed(known, told, user, groups, objects) == if heard.None? then known else ViewOf(heard.value, objects)
    ensures var heard := LastHeard(told, user, groups);
            heard.Some? ==> ViewOf(heard.value, objects).Keys == heard.value
  {
    hide GrantSet, Asking, Mentioned;
    forall notice | notice in told ensures notice.names <= objects.Keys {
      assert ToBeTold(s, level, t, knownBefore, notice);
      GrantsAreKnown(s, level, t, notice.holder);
    }
    OnlyTheLastCounts(known, told, user, groups, objects);
    HeardIsLast(told, user, groups);
    if LastHeard(told, user, groups).Some? {
      var k :| 0 <= k < |told| && LastAt(told, user, groups, k) && told[k].names == LastHeard(told, user, groups).value;
      assert told[k] in told;
    }
  }

  /** In any order of telling, what is heard last may come last. */
  lemma ToldIsHeard(s: Inputs, level: Level, t: Target, knownBefore: set<Holder>, told: seq<Notice>,
                    known: View, user: string, groups: seq<string>, objects: View)
    requires objects.Keys == s.known && Announced(s, level, t, knownBefore, told)
    ensures var shown := Followed(known, told, user, groups, objects);
            || (shown == known && forall notice :: !Reaching(s, level, t, knownBefore, user, groups, notice))
            || exists notice :: MayComeLast(s, level, t, knownBefore, user, groups, notice)
                 && shown == ViewOf(notice.names, objects)
  {
    hide ToBeTold, Asking, Stage, ViewOf;
    HeardMeansShown(s, level, t, knownBefore, told, known, user, groups, objects);
    HeardIsLast(told, user, groups);
    if LastHeard(told, user, groups).Some? {
      var k :| 0 <= k < |told| && LastAt(told, user, groups, k) && told[k].names == LastHeard(told, user, groups).value;
      assert told[k] in told;
      forall other | Reaching(s, level, t, knownBefore, user, groups, other) ensures Stage(other) <= Stage(told[k]) {
        var j :| 0 <= j < |told| && told[j] == other;
        assert j <= k;
      }
    } else {
      forall notice ensures !Reaching(s, level, t, knownBefore, user, groups, notice) {
        if notice in told {
          var j :| 0 <= j < |told| && told[j] == notice;
        }
      }
    }
  }

  // ------------------------------------------------------------------ orders of telling

  ghost function Named(s: Inputs): set<Holder> {
    set n, h | n in s.bindings && h in HoldersOf(s.bindings[n].subjects, "") :: h
  }

  /** The notices of one stage. */
  ghost function NoticesAt(s: Inputs, level: Level, t: Target, knownBefore: set<Holder>, stage: nat): set<Notice> {
    (set h | h in Named(s) && GrantSet(s, level, t, h) != {} && Stage(Notice(h, GrantSet(s, level, t, h))) == stage
       :: Notice(h, GrantSet(s, level, t, h)))
    + set h | h in knownBefore && !Mentioned(s, level, t, h) && Stage(Notice(h, {})) == stage :: Notice(h, {})
  }

  lemma NoticesAtMeans(s: Inputs, level: Level, t: Target, knownBefore: set<Holder>, stage: nat)
    ensures forall notice :: notice in NoticesAt(s, level, t, knownBefore, stage)
                        <==> ToBeTold(s, level, t, knownBefore, notice) && Stage(notice) == stage
  {
    forall notice | ToBeTold(s, level, t, knownBefore, notice) && Stage(notice) == stage
      ensures notice in NoticesAt(s, level, t, knownBefore, stage)
    {
      if notice.names != {} {
        var r :| r in notice.names;
        assert GrantedTo(s, level, t, notice.holder, r);
        assert notice.holder in Named(s);
      }
    }
  }

  /** A listing of some notices, with a given one last if it is among them. */
  lemma {:induction false} Enumerate(notices: set<Notice>, last: Notice) returns (list: seq<Notice>)
    ensures NoDup(list) && forall notice :: notice in list <==> notice in notices
    ensures last in notices ==> list[|list| - 1] == last
    decreases notices
  {
    if notices == {} {
      list := [];
    } else {
      var one := if last in notices then last else var x :| x in notices; x;
      var rest := Enumerate(notices - {one}, last);
      NoDupSnoc(rest, one);
      list := rest + [one];
    }
  }

  /** The notices from some stage on, stage by stage. */
  lemma {:induction false} EnumerateFrom(s: Inputs, level: Level, t: Target, knownBefore: set<Holder>, last: Notice,
                                         stage: nat)
    returns (told: seq<Notice>)
    requires stage <= 4
    ensures NoDup(told) && Staged(told)
    ensures forall notice :: notice in told <==> ToBeTold(s, level, t, knownBefore, notice) && Stage(notice) >= stage
    ensures ToBeTold(s, level, t, knownBefore, last) && Stage(last) >= stage ==> LastOfStage(told, last)
    decreases 4 - stage
  {
    hide ToBeTold, NoDup, NoticesAt, LastOfStage;
    if stage == 4 {
      told := [];
      assert NoDup(told) by { NoNotices(); }
      return;
    }
    NoticesAtMeans(s, level, t, knownBefore, stage);
    var now := Enumerate(NoticesAt(s, level, t, knownBefore, stage), last);
    var later := EnumerateFrom(s, level, t, knownBefore, last, stage + 1);
    assert forall x :: x in now ==> x !in later;
    NoDupConcat(now, later);
    told := now + later;
    StagedConcat(now, later, stage);
    LastConcat(now, later, stage, last);
  }

  ghost predicate LastOfStage(told: seq<Notice>, last: Notice) {
    exists k :: 0 <= k < |told| && told[k] == last && forall j :: k < j < |told| ==> Stage(told[j]) > Stage(last)
  }

  lemma StagedConcat(now: seq<Notice>, later: seq<Notice>, stage: nat)
    requires (forall x :: x in now ==> Stage(x) == stage) && (forall x :: x in later ==> Stage(x) > stage)
    requires Staged(later)
    ensures Staged(now + later)
  {
    hide Stage;
    var told := now + later;
    forall i, j | 0 <= i < j < |told| ensures Stage(told[i]) <= Stage(told[j]) {
      if i < |now| {
        assert told[i] in now && (told[j] in now || told[j] in later);
      } else {
        assert told[i] == later[i - |now|] && told[j] == later[j - |now|];
      }
    }
  }

  lemma LastConcat(now: seq<Notice>, later: seq<Notice>, stage: nat, last: Notice)
    requires (forall x :: x in now ==> Stage(x) == stage) && (forall x :: x in later ==> Stage(x) > stage)
    ensures last in later && LastOfStage(later, last) ==> LastOfStage(now + later, last)
    ensures last in now && now[|now| - 1] == last ==> LastOfStage(now + later, last)
  {
    hide Stage;
    var told := now + later;
    if LastOfStage(later, last) {
      var k :| 0 <= k < |later| && later[k] == last && forall j :: k < j < |later| ==> Stage(later[j]) > Stage(last);
      assert told[|now| + k] == last;
      forall j | |now| + k < j < |told| ensures Stage(told[j]) > Stage(last) {
        assert told[j] == later[j - |now|];
      }
    }
    if last in now && now[|now| - 1] == last {
      assert told[|now| - 1] == last;
      assert forall j :: |now| - 1 < j < |told| ==> told[j] in later;
    }
  }

  lemma NoNotices()
    ensures NoDup<Notice>([])
  {
  }

  /** Some order of telling. */
  lemma AllTold(s: Inputs, level: Level, t: Target, knownBefore: set<Holder>) returns (told: seq<Notice>)
    ensures Announced(s, level, t, knownBefore, told)
  {
    told := EnumerateFrom(s, level, t, knownBefore, Notice(User(""), {}), 0);
  }

  /** An order in which a given notice is heard last. */
  lemma ToldLast(s: Inputs, level: Level, t: Target, knownBefore: set<Holder>, user: string, groups: seq<string>,
                 last: Notice)
    returns (told: seq<Notice>)
    requires MayComeLast(s, level, t, knownBefore, user, groups, last)
    ensures Announced(s, level, t, knownBefore, told)
    ensures LastHeard(told, user, groups) == Some(last.names)
  {
    hide ToBeTold, Asking, Stage;
    told := EnumerateFrom(s, level, t, knownBefore, last, 0);
    var k :| 0 <= k < |told| && told[k] == last && forall j :: k < j < |told| ==> Stage(told[j]) > Stage(last);
    forall j | k < j < |told| ensures told[j].holder !in Asking(user, groups) {
      assert told[j] in told;
    }
    HeardAt(told, user, groups, k);
  }

  lemma GrantsAreKnown(s: Inputs, level: Level, t: Target, h: Holder)
    ensures GrantSet(s, level, t, h) <= s.known
  {
  }
}
