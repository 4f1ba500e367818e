/**
 The subscription manager: change events from the server are turned into folders to synchronise,
 except for those events that the resource has caused itself.
 */
module Subscription {

  type Id = nat

  datatype EventType = Copied | Created | Deleted | Modified | Moved | NewMail | Status | Unknown

  datatype Event = Event(kind: EventType, itemId: Id, changeKey: nat, itemIsFolder: bool,
                         parentFolderId: Id, oldParentFolderId: Id)

  datatype Notification = Notification(events: seq<Event>, hasMoreEvents: bool)

  /** A queued update of the item `id`. */
  datatype Entry = Entry(id: Id, kind: EventType, changeKey: nat)

  predicate Matches(e: Entry, event: Event) {
    e.kind == event.kind && (e.kind == Deleted || e.changeKey == event.changeKey)
  }

  /** The first entry of a key in the order of the hash, or its end. */
  function FirstOf(q: seq<Entry>, id: Id): nat
    ensures FirstOf(q, id) <= |q|
  {
    if q == [] then 0 else if q[0].id == id then 0 else 1 + FirstOf(q[1..], id)
  }

  lemma {:induction false} FirstOfIs(q: seq<Entry>, id: Id)
    ensures FirstOf(q, id) < |q| ==> q[FirstOf(q, id)].id == id
    ensures forall i :: 0 <= i < FirstOf(q, id) ==> q[i].id != id
  {
    if q != [] && q[0].id != id {
      FirstOfIs(q[1..], id);
    }
  }

  /** Entry `i` suppresses the event: the search starts at the item's entries and runs to the end of the hash. */
  ghost predicate Suppresses(q: seq<Entry>, i: nat, event: Event)
    requires i < |q|
  {
    && FirstOf(q, event.itemId) <= i && Matches(q[i], event)
    && forall j :: FirstOf(q, event.itemId) <= j < i ==> !Matches(q[j], event)
  }

  /** No event is ever suppressed by the entry of another item. */
  ghost predicate OwnEntriesOnly(q: seq<Entry>) {
    forall i, event :: 0 <= i < |q| && Suppresses(q, i, event) ==> q[i].id == event.itemId
  }

  /**
   Whatever an entry behind the first entry of another item would suppress is suppressed by an entry
   of that item before it.
   */
  ghost predicate Shielded(q: seq<Entry>) {
    forall i, j :: 0 <= i < j < |q| && q[j].id != q[i].id && FirstOf(q, q[i].id) == i ==> ShieldedAt(q, i, j)
  }

  ghost predicate ShieldedAt(q: seq<Entry>, i: nat, j: nat)
    requires i < j < |q|
  {
    exists m :: i <= m < j && q[m].id == q[i].id && q[m].kind == q[j].kind
                && (q[m].kind == Deleted || q[m].changeKey == q[j].changeKey)
  }

  /** The loop over the queue is faithful to the keys exactly for shielded queues. */
  lemma OwnEntriesExactly(q: seq<Entry>)
    ensures OwnEntriesOnly(q) <==> Shielded(q)
  {
    if Shielded(q) {
      forall i, event | 0 <= i < |q| && Suppresses(q, i, event)
        ensures q[i].id == event.itemId
      {
        FirstOfIs(q, event.itemId);
        var f := FirstOf(q, event.itemId);
        assert q[f].id == event.itemId;
        assert q[i].id != event.itemId ==> f < i && ShieldedAt(q, f, i);
      }
    }
    if OwnEntriesOnly(q) {
      forall i, j | 0 <= i < j < |q| && q[j].id != q[i].id && FirstOf(q, q[i].id) == i
        ensures ShieldedAt(q, i, j)
      {
        var event := Event(q[j].kind, q[i].id, q[j].changeKey, false, 0, 0);
        var m := FirstMatch(q, i, j, event);
        assert Suppresses(q, m, event);
      }
    }
  }

  lemma {:induction false} FirstMatch(q: seq<Entry>, i: nat, j: nat, event: Event) returns (m: nat)
    requires i <= j < |q| && Matches(q[j], event)
    ensures i <= m <= j && Matches(q[m], event) && forall k :: i <= k < m ==> !Matches(q[k], event)
    decreases j - i
  {
    if Matches(q[i], event) {
      m := i;
    } else {
      m := FirstMatch(q, i + 1, j, event);
    }
  }

  ghost predicate OnlyDeletions(q: seq<Entry>) {
    forall i :: 0 <= i < |q| ==> q[i].kind == Deleted
  }

  /** A queue of nothing but deletions, which is all the resource ever queues, is shielded. */
  lemma DeletionsShielded(q: seq<Entry>)
    requires OnlyDeletions(q)
    ensures Shielded(q)
  {
    forall i, j | 0 <= i < j < |q| && q[j].id != q[i].id && FirstOf(q, q[i].id) == i
      ensures ShieldedAt(q, i, j)
    {
      assert q[i].kind == Deleted && q[j].kind == Deleted;
    }
  }

  /** With other updates in the queue the deletion of one item can use up the entry of another. */
  lemma WrongEntryUsed()
    ensures var q := [Entry(1, Modified, 5), Entry(2, Deleted, 0)];
            Suppresses(q, 1, Event(Deleted, 1, 7, false, 10, 10)) && !OwnEntriesOnly(q)
  {
    var q := [Entry(1, Modified, 5), Entry(2, Deleted, 0)];
    var event := Event(Deleted, 1, 7, false, 10, 10);
    assert FirstOf(q, 1) == 0;
    assert Suppresses(q, 1, event);
  }

  /** How many deletions are queued for each item. */
  function Queued(q: seq<Entry>): multiset<Id> {
    if q == [] then multiset{} else multiset{q[0].id} + Queued(q[1..])
  }

  lemma {:induction false} QueuedRemove(q: seq<Entry>, i: nat)
    requires i < |q|
    ensures q[i].id in Queued(q) && Queued(q[..i] + q[i + 1..]) == Queued(q) - multiset{q[i].id}
  {
    var rest := q[..i] + q[i + 1..];
    if i == 0 {
      assert rest == q[1..];
    } else {
      QueuedRemove(q[1..], i - 1);
      assert rest[0] == q[0] && rest[1..] == q[1..][..i - 1] + q[1..][i..];
      assert q[1..][i - 1] == q[i];
      var id := q[i].id;
      assert Queued(rest) == multiset{q[0].id} + (Queued(q[1..]) - multiset{id});
      assert id in Queued(q[1..]);
    }
  }

  lemma {:induction false} QueuedInsert(q: seq<Entry>, i: nat, e: Entry)
    requires i <= |q|
    ensures Queued(q[..i] + [e] + q[i..]) == Queued(q) + multiset{e.id}
  {
    if i == 0 {
      assert (q[..0] + [e] + q[0..])[1..] == q;
    } else {
      QueuedInsert(q[1..], i - 1, e);
      assert (q[..i] + [e] + q[i..])[1..] == q[1..][..i - 1] + [e] + q[1..][i - 1..];
    }
  }

  lemma {:induction false} QueuedHas(q: seq<Entry>, id: Id)
    ensures id in Queued(q) <==> FirstOf(q, id) < |q|
  {
    if q != [] {
      QueuedHas(q[1..], id);
    }
  }

  /** The folders that one event asks to synchronise. */
  function FoldersOf(event: Event): set<Id> {
    if event.itemIsFolder || event.kind == Status || event.kind == Unknown then {}
    else if event.kind == Copied || event.kind == Moved then {event.oldParentFolderId, event.parentFolderId}
    else {event.parentFolderId}
  }

  predicate ChangesTree(event: Event) {
    event.itemIsFolder && event.kind != Status && event.kind != Unknown
  }

  /** The reference: own deletions as a multiset, and what the events that remain ask for. */
  datatype Due = Due(own: multiset<Id>, folders: set<Id>, tree: bool)

  predicate IsOwn(own: multiset<Id>, event: Event) {
    event.kind == Deleted && event.itemId in own
  }

  function DueStep(d: Due, event: Event): Due {
    if IsOwn(d.own, event) then d.(own := d.own - multiset{event.itemId})
    else d.(folders := d.folders + FoldersOf(event), tree := d.tree || ChangesTree(event))
  }

  function DueOf(d: Due, events: seq<Event>): Due {
    if events == [] then d else DueStep(DueOf(d, events[..|events| - 1]), events[|events| - 1])
  }

  function EventsOf(ns: seq<Notification>): seq<Event> {
    if ns == [] then [] else EventsOf(ns[..|ns| - 1]) + ns[|ns| - 1].events
  }

  lemma {:induction false} DueOfConcat(d: Due, a: seq<Event>, b: seq<Event>)
    ensures DueOf(d, a + b) == DueOf(DueOf(d, a), b)
  {
    if b == [] {
      assert a + b == a;
    } else {
      assert (a + b)[..|a + b| - 1] == a + b[..|b| - 1];
      DueOfConcat(d, a, b[..|b| - 1]);
    }
  }

  /** Each queued deletion suppresses at most one event: as many are used up as events are suppressed. */
  lemma {:induction false} OwnUsedUp(d: Due, events: seq<Event>, id: Id)
    ensures DueOf(d, events).own[id] <= d.own[id]
    ensures d.own[id] - DueOf(d, events).own[id] <= Deletions(events, id)
    ensures DueOf(d, events).own[id] == 0 || d.own[id] - DueOf(d, events).own[id] == Deletions(events, id)
  {
    if events != [] {
      OwnUsedUp(d, events[..|events| - 1], id);
    }
  }

  /** The deletion events of one item. */
  function Deletions(events: seq<Event>, id: Id): nat {
    if events == [] then 0 else
      var e := events[|events| - 1];
      Deletions(events[..|events| - 1], id) + if e.kind == Deleted && e.itemId == id then 1 else 0
  }

  lemma DueOfNothing(d: Due)
    ensures DueOf(d, []) == d
  {
  }

  /** The event is one of the resource's own: as many deletions of its item came before as fit the queue. */
  ghost predicate OwnAt(own: multiset<Id>, events: seq<Event>, k: nat)
    requires k < |events|
  {
    events[k].kind == Deleted && Deletions(events[..k], events[k].itemId) < own[events[k].itemId]
  }

  /** What the manager may ask the resource to synchronise. */
  datatype Target = Folder(id: Id) | Tree

  predicate Asks(event: Event, t: Target) {
    if t.Folder? then t.id in FoldersOf(event) else ChangesTree(event)
  }

  predicate IsDue(d: Due, t: Target) {
    if t.Folder? then t.id in d.folders else d.tree
  }

  /** What is due is what the events ask for that are not the resource's own, and no more. */
  lemma {:induction false} DueExactly(d: Due, events: seq<Event>, t: Target)
    ensures IsDue(DueOf(d, events), t) <==>
            IsDue(d, t) || exists k :: 0 <= k < |events| && !OwnAt(d.own, events, k) && Asks(events[k], t)
  {
    if events != [] {
      var n := |events| - 1;
      var before := events[..n];
      DueExactly(d, before, t);
      forall k | 0 <= k < n
        ensures before[k] == events[k] && OwnAt(d.own, before, k) == OwnAt(d.own, events, k)
      {
        assert before[..k] == events[..k];
      }
      OwnUsedUp(d, before, events[n].itemId);
      assert IsOwn(DueOf(d, before).own, events[n]) == OwnAt(d.own, events, n);
      assert IsDue(DueOf(d, events), t) <==>
             IsDue(DueOf(d, before), t) || (!OwnAt(d.own, events, n) && Asks(events[n], t));
    }
  }

  /**
   The folders due, by what the events say: the folder of each foreign item, and for one that was moved or copied the
   folder where it was before.
   */
  lemma DueFolders(d: Due, events: seq<Event>, f: Id)
    ensures f in DueOf(d, events).folders <==>
              || f in d.folders
              || exists k :: && 0 <= k < |events| && !OwnAt(d.own, events, k) && !events[k].itemIsFolder
                             && events[k].kind in {Copied, Created, Deleted, Modified, Moved, NewMail}
                             && (f == events[k].parentFolderId
                                 || (events[k].kind in {Copied, Moved} && f == events[k].oldParentFolderId))
    ensures DueOf(d, events).tree <==>
              || d.tree
              || exists k :: && 0 <= k < |events| && !OwnAt(d.own, events, k) && events[k].itemIsFolder
                             && events[k].kind in {Copied, Created, Deleted, Modified, Moved, NewMail}
  {
    DueExactly(d, events, Folder(f));
    DueExactly(d, events, Tree);
    hide OwnAt, DueOf;
    assert forall k :: 0 <= k < |events| ==>
        (Asks(events[k], Folder(f)) <==>
           && !events[k].itemIsFolder && events[k].kind in {Copied, Created, Deleted, Modified, Moved, NewMail}
           && (f == events[k].parentFolderId
               || (events[k].kind in {Copied, Moved} && f == events[k].oldParentFolderId)));
    assert forall k :: 0 <= k < |events| ==>
        (Asks(events[k], Tree) <==>
           events[k].itemIsFolder && events[k].kind in {Copied, Created, Deleted, Modified, Moved, NewMail});
  }

  /** What happens to the manager: the resource deletes an item, or the server answers a request for events. */
  datatype Input = OwnDeletion(id: Id, changeKey: nat) | Answer(notifications: seq<Notification>, finished: bool) {
    /** After this answer what is due is emitted; otherwise more events are requested first. */
    predicate Ends() {
      Answer? && !(finished && exists i :: 0 <= i < |notifications| && notifications[i].hasMoreEvents)
    }
  }

  /** What is due once the input is there, before anything is emitted. */
  function Gathered(d: Due, input: Input): Due {
    match input
    case OwnDeletion(id, _) => d.(own := d.own + multiset{id})
    case Answer(notifications, _) => DueOf(d, EventsOf(notifications))
  }

  function Emptied(d: Due): Due {
    d.(folders := {}, tree := false)
  }

  /** What is still due after an input. */
  function Left(d: Due, input: Input): Due {
    if input.Ends() then Emptied(Gathered(d, input)) else Gathered(d, input)
  }

  /** What is emitted with an input. */
  function Emitted(d: Due, input: Input): Due {
    if input.Ends() then Gathered(d, input) else Emptied(Gathered(d, input))
  }

  /** What is still due, and which own deletions are still to be reported, after a run. */
  function DueAfter(d: Due, inputs: seq<Input>): Due {
    if inputs == [] then d else Left(DueAfter(d, inputs[..|inputs| - 1]), inputs[|inputs| - 1])
  }

  /** What is emitted with the `i`-th input of a run. */
  function EmittedAt(d: Due, inputs: seq<Input>, i: nat): Due
    requires i < |inputs|
  {
    Emitted(DueAfter(d, inputs[..i]), inputs[i])
  }

  /** The first input after the last emission before the `i`-th input. */
  function Since(inputs: seq<Input>, i: nat): (n: nat)
    requires i <= |inputs|
    ensures n <= i
  {
    if i == 0 || inputs[i - 1].Ends() then i else Since(inputs, i - 1)
  }

  /** The `j`-th input of a run is an answer with an event that asks for `t` and is not the resource's own. */
  ghost predicate AskedAt(d: Due, inputs: seq<Input>, j: nat, t: Target)
    requires j < |inputs|
  {
    && inputs[j].Answer?
    && var events := EventsOf(inputs[j].notifications);
       exists k :: 0 <= k < |events| && !OwnAt(DueAfter(d, inputs[..j]).own, events, k) && Asks(events[k], t)
  }

  lemma GatheredExactly(d: Due, inputs: seq<Input>, i: nat, t: Target)
    requires i < |inputs|
    ensures var before := DueAfter(d, inputs[..i]);
            IsDue(Gathered(before, inputs[i]), t) <==> IsDue(before, t) || AskedAt(d, inputs, i, t)
  {
    if inputs[i].Answer? {
      DueExactly(DueAfter(d, inputs[..i]), EventsOf(inputs[i].notifications), t);
    }
  }

  /** What is due after one more input: nothing if it ends with an emission. */
  lemma DueNext(d: Due, inputs: seq<Input>, i: nat, t: Target)
    requires i < |inputs|
    ensures var before := DueAfter(d, inputs[..i]);
            IsDue(DueAfter(d, inputs[..i + 1]), t) <==>
            !inputs[i].Ends() && (IsDue(before, t) || AskedAt(d, inputs, i, t))
  {
    GatheredExactly(d, inputs, i, t);
    assert inputs[..i + 1][..i] == inputs[..i];
    hide AskedAt, Gathered, Input.Ends;
  }

  /** What is due after `i` inputs is what has been asked for since the last emission. */
  lemma {:induction false} PendingExactly(d: Due, inputs: seq<Input>, i: nat, t: Target)
    requires i <= |inputs|
    ensures IsDue(DueAfter(d, inputs[..i]), t) <==>
            || (Since(inputs, i) == 0 && IsDue(d, t))
            || exists j :: Since(inputs, i) <= j < i && AskedAt(d, inputs, j, t)
  {
    hide AskedAt, Input.Ends, IsDue, Gathered;
    if i > 0 {
      PendingExactly(d, inputs, i - 1, t);
      DueNext(d, inputs, i - 1, t);
      hide DueAfter;
    }
  }

  /**
   An emission asks for exactly what foreign events have asked for since the one before: every such event leads to it,
   however often its folder has been emitted, and nothing is emitted without one.
   */
  lemma EmittedExactly(d: Due, inputs: seq<Input>, i: nat, t: Target)
    requires i < |inputs|
    ensures IsDue(EmittedAt(d, inputs, i), t) <==>
            && inputs[i].Ends()
            && (|| (Since(inputs, i) == 0 && IsDue(d, t))
                || exists j :: Since(inputs, i) <= j <= i && AskedAt(d, inputs, j, t))
  {
    PendingExactly(d, inputs, i, t);
    GatheredExactly(d, inputs, i, t);
    hide AskedAt, Gathered;
  }

  /** In a queue of deletions the entry used up is one of the event's own item. */
  lemma SuppressedOwn(q: seq<Entry>, i: nat, event: Event)
    requires OnlyDeletions(q) && i < |q| && Suppresses(q, i, event)
    ensures event.kind == Deleted && event.itemId in Queued(q)
    ensures Queued(q[..i] + q[i + 1..]) == Queued(q) - multiset{event.itemId}
  {
    DeletionsShielded(q);
    OwnEntriesExactly(q);
    assert q[i].kind == Deleted && q[i].id == event.itemId;
    QueuedRemove(q, i);
  }

  class EwsSubscriptionManager {
    /** The queue in the order in which the hash is walked. */
    var mQueuedUpdates: seq<Entry>
    var mUpdatedFolderIds: set<Id>
    var mFolderTreeChanged: bool
    /** How often more events have been requested. */
    var requests: nat

    ghost predicate Valid()
      reads this`mQueuedUpdates
    {
      OnlyDeletions(mQueuedUpdates)
    }

    /** What is still to be emitted, and the own deletions still to be reported. */
    ghost function State(): Due
      reads this`mQueuedUpdates, this`mUpdatedFolderIds, this`mFolderTreeChanged
    {
      Due(Queued(mQueuedUpdates), mUpdatedFolderIds, mFolderTreeChanged)
    }

    constructor ()
      ensures Valid() && State() == Due(multiset{}, {}, false) && requests == 0
    {
      mQueuedUpdates, mUpdatedFolderIds, mFolderTreeChanged := [], {}, false;
      requests := 0;
    }

    /** The new entry comes before the other entries of its key, or anywhere if there are none. */
    method QueueUpdate(kind: EventType, id: Id, changeKey: nat)
      requires Valid() && kind == Deleted
      modifies this`mQueuedUpdates
      ensures Valid() && State() == old(State()).(own := old(State()).own + multiset{id})
    {
      var e := Entry(id, kind, changeKey);
      var i := FirstOf(mQueuedUpdates, id);
      if i == |mQueuedUpdates| {
        i :| 0 <= i <= |mQueuedUpdates|;
      }
      QueuedInsert(mQueuedUpdates, i, e);
      mQueuedUpdates := mQueuedUpdates[..i] + [e] + mQueuedUpdates[i..];
    }

    /** Searches the queue from the first entry of the item to the end and uses up the entry that matches. */
    method SkipOwn(event: Event) returns (skip: bool)
      requires Valid()
      modifies this`mQueuedUpdates
      ensures Valid() && skip == IsOwn(old(State()).own, event)
      ensures State().own == old(State()).own - if skip then multiset{event.itemId} else multiset{}
    {
      skip := false;
      var it := FirstOf(mQueuedUpdates, event.itemId);
      FirstOfIs(mQueuedUpdates, event.itemId);
      QueuedHas(mQueuedUpdates, event.itemId);
      ghost var q, f := mQueuedUpdates, it;
      while it < |mQueuedUpdates|
        invariant f <= it <= |mQueuedUpdates| && !skip && mQueuedUpdates == q
        invariant forall j :: f <= j < it ==> !Matches(q[j], event)
      {
        if Matches(mQueuedUpdates[it], event) {
          skip := true;
          assert Suppresses(q, it, event);
          mQueuedUpdates := mQueuedUpdates[..it] + mQueuedUpdates[it + 1..];
          break;
        }
        it := it + 1;
      }
      if skip {
        SuppressedOwn(q, it, event);
      }
    }

    /** One event of the server. */
    method ProcessEvent(event: Event)
      requires Valid()
      modifies this`mQueuedUpdates, this`mUpdatedFolderIds, this`mFolderTreeChanged
      ensures Valid() && State() == DueStep(old(State()), event)
    {
      hide Queued, OnlyDeletions, FoldersOf, ChangesTree;
      var skip := SkipOwn(event);
      if !skip {
        NoteFolders(event);
      }
    }

    /** Marks what a foreign event has changed. */
    method NoteFolders(event: Event)
      modifies this`mUpdatedFolderIds, this`mFolderTreeChanged
      ensures mUpdatedFolderIds == old(mUpdatedFolderIds) + FoldersOf(event)
      ensures mFolderTreeChanged == (old(mFolderTreeChanged) || ChangesTree(event))
    {
      if (event.kind == Copied || event.kind == Moved) && !event.itemIsFolder {
        mUpdatedFolderIds := mUpdatedFolderIds + {event.oldParentFolderId};
      }
      if event.kind != Status && event.kind != Unknown {
        if event.itemIsFolder {
          mFolderTreeChanged := true;
        } else {
          mUpdatedFolderIds := mUpdatedFolderIds + {event.parentFolderId};
        }
      }
    }

    method ProcessNotification(events: seq<Event>)
      requires Valid()
      modifies this`mQueuedUpdates, this`mUpdatedFolderIds, this`mFolderTreeChanged
      ensures Valid() && State() == DueOf(old(State()), events)
    {
      hide Queued, OnlyDeletions, DueStep;
      var i := 0;
      while i < |events|
        invariant 0 <= i <= |events| && Valid()
        invariant State() == DueOf(old(State()), events[..i])
      {
        assert events[..i + 1][..i] == events[..i];
        ProcessEvent(events[i]);
        i := i + 1;
      }
      assert events[..i] == events;
    }

    method ProcessNotifications(notifications: seq<Notification>) returns (moreEvents: bool)
      requires Valid()
      modifies this`mQueuedUpdates, this`mUpdatedFolderIds, this`mFolderTreeChanged
      ensures Valid() && State() == DueOf(old(State()), EventsOf(notifications))
      ensures moreEvents <==> exists i :: 0 <= i < |notifications| && notifications[i].hasMoreEvents
    {
      hide Queued, OnlyDeletions, DueOf;
      moreEvents := false;
      var n := 0;
      DueOfNothing(State());
      while n < |notifications|
        invariant 0 <= n <= |notifications| && Valid()
        invariant State() == DueOf(old(State()), EventsOf(notifications[..n]))
        invariant moreEvents <==> exists i :: 0 <= i < n && notifications[i].hasMoreEvents
      {
        assert notifications[..n + 1][..n] == notifications[..n];
        DueOfConcat(old(State()), EventsOf(notifications[..n]), notifications[n].events);
        ProcessNotification(notifications[n].events);
        if notifications[n].hasMoreEvents {
          moreEvents := true;
        }
        n := n + 1;
      }
      assert notifications[..n] == notifications;
    }

    /**
     One answer of the server; `finished` tells that no more of it is to come. What is due is emitted, unless more
     events are requested.
     */
    method ProcessEvents(notifications: seq<Notification>, finished: bool) returns (emitted: set<Id>, tree: bool)
      requires Valid()
      modifies this
      ensures Valid()
      ensures var all := DueOf(old(State()), EventsOf(notifications));
              if Answer(notifications, finished).Ends()
              then && requests == old(requests) && State() == Emptied(all)
                   && emitted == all.folders && tree == all.tree
              else requests == old(requests) + 1 && State() == all && emitted == {} && !tree
    {
      hide Queued, OnlyDeletions, DueOf, EventsOf;
      var moreEvents := ProcessNotifications(notifications);
      emitted, tree := {}, false;
      if moreEvents && finished {
        requests := requests + 1;
      } else {
        if mFolderTreeChanged {
          tree := true;
          mFolderTreeChanged := false;
        }
        if mUpdatedFolderIds != {} {
          emitted := mUpdatedFolderIds;
          mUpdatedFolderIds := {};
        }
      }
    }
  }

  /** One input, and what the manager emits with it. */
  method TakeInput(m: EwsSubscriptionManager, input: Input) returns (folders: set<Id>, tree: bool)
    requires m.Valid()
    modifies m
    ensures m.Valid() && m.State() == Left(old(m.State()), input)
    ensures var e := Emitted(old(m.State()), input);
            folders == e.folders && tree == e.tree
  {
    hide DueOf, EventsOf, Queued, OnlyDeletions;
    folders, tree := {}, false;
    match input {
      case OwnDeletion(id, changeKey) => m.QueueUpdate(Deleted, id, changeKey);
      case Answer(notifications, finished) => folders, tree := m.ProcessEvents(notifications, finished);
    }
  }

  /** Own deletions and answers of the server in any order, and what the manager emits with each of them. */
  method Run(m: EwsSubscriptionManager, inputs: seq<Input>) returns (emitted: seq<set<Id>>, trees: seq<bool>)
    requires m.Valid()
    modifies m
    ensures m.Valid() && m.State() == DueAfter(old(m.State()), inputs)
    ensures |emitted| == |trees| == |inputs|
    ensures forall i :: 0 <= i < |inputs| ==>
              var e := EmittedAt(old(m.State()), inputs, i);
              emitted[i] == e.folders && trees[i] == e.tree
  {
    hide Left, Emitted, OnlyDeletions;
    emitted, trees := [], [];
    var i := 0;
    while i < |inputs|
      invariant 0 <= i <= |inputs| && |emitted| == |trees| == i && m.Valid()
      invariant m.State() == DueAfter(old(m.State()), inputs[..i])
      invariant forall k :: 0 <= k < i ==>
                  var e := EmittedAt(old(m.State()), inputs, k);
                  emitted[k] == e.folders && trees[k] == e.tree
    {
      assert inputs[..i + 1][..i] == inputs[..i];
      var folders, tree := TakeInput(m, inputs[i]);
      emitted, trees := emitted + [folders], trees + [tree];
      i := i + 1;
    }
    assert inputs[..i] == inputs;
  }
}
