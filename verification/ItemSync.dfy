/**
 Retrieving the items of one EWS folder: remote changes, local items and explicitly checked items
 arrive in any order; then the lists are compared, tags are synchronised if some are missing, and
 details are fetched in batches.
 */
module ItemSync {
  import opened Common

  type Id = nat

  const FETCH_BATCH_SIZE := 50

  /** Item types are numbered; the last one stands for an unknown type. */
  const UNKNOWN := 12

  datatype EwsId = EwsId(id: Id, changeKey: nat)

  type Kind = k: nat | k <= UNKNOWN

  datatype EwsItem = EwsItem(id: EwsId, kind: Kind, missingTags: bool)

  /** A local item. */
  datatype Item = Item(rid: Id, revision: nat, seen: bool)

  datatype Change =
    | Create(item: EwsItem)
    | Update(item: EwsItem)
    | Delete(id: EwsId)
    | ReadFlagChange(id: EwsId, isRead: bool)
    | Other

  /** The answer for one checked item. */
  datatype Check = Found(item: EwsItem) | NotFound

  function Ids(s: seq<Item>): set<Id> {
    set x | x in s :: x.rid
  }

  function ServerIds(s: seq<EwsItem>): set<Id> {
    set x | x in s :: x.id.id
  }

  /** Items of a known type; the others are ignored when they are added. */
  function KnownIds(s: seq<EwsItem>): set<Id> {
    set x | x in s && x.kind != UNKNOWN :: x.id.id
  }

  type Hash = map<Id, Item>

  ghost predicate HashOk(h: Hash) {
    forall k :: k in h ==> h[k].rid == k
  }

  lemma IdsNothing()
    ensures Ids([]) == {}
  {
  }

  lemma IdsAppend(s: seq<Item>, x: Item)
    ensures Ids(s + [x]) == Ids(s) + {x.rid}
  {
    assert forall y :: y in s + [x] <==> y in s || y == x;
  }

  lemma IdsConcat(s: seq<Item>, t: seq<Item>)
    ensures Ids(s + t) == Ids(s) + Ids(t)
  {
    assert forall y :: y in s + t <==> y in s || y in t;
  }

  lemma KnownAppend(s: seq<EwsItem>, x: EwsItem)
    ensures KnownIds(s + [x]) == KnownIds(s) + if x.kind != UNKNOWN then {x.id.id} else {}
    ensures ServerIds(s + [x]) == ServerIds(s) + {x.id.id}
  {
    assert forall y :: y in s + [x] <==> y in s || y == x;
  }

  /** The items to fetch, one list per type. */
  type ToFetch = t: seq<seq<Item>> | |t| == UNKNOWN + 1 witness seq(UNKNOWN + 1, _ => [])

  const NOTHING: ToFetch := seq(UNKNOWN + 1, _ => [])

  function AddTo(t: ToFetch, kind: Kind, x: Item): ToFetch {
    t[kind := t[kind] + [x]]
  }

  /** The items of those among the first `n` types that have a handler; the unknown type has none. */
  function Handled(t: ToFetch, handlers: set<Kind>, n: nat): seq<Item>
    requires n <= UNKNOWN
  {
    if n == 0 then [] else
      Handled(t, handlers, n - 1) + if n - 1 in handlers then t[n - 1] else []
  }

  lemma {:induction false} HandledAdd(t: ToFetch, handlers: set<Kind>, n: nat, kind: Kind, x: Item)
    requires n <= UNKNOWN
    ensures Ids(Handled(AddTo(t, kind, x), handlers, n))
         == Ids(Handled(t, handlers, n)) + if kind < n && kind in handlers then {x.rid} else {}
  {
    if n > 0 {
      HandledAdd(t, handlers, n - 1, kind, x);
      var t' := AddTo(t, kind, x);
      IdsConcat(Handled(t', handlers, n - 1), if n - 1 in handlers then t'[n - 1] else []);
      IdsConcat(Handled(t, handlers, n - 1), if n - 1 in handlers then t[n - 1] else []);
      IdsAppend(t[kind], x);
    }
  }

  /** How many requests that takes: for each type as few as possible of at most 50 items. */
  function RequestsFor(t: ToFetch, handlers: set<Kind>, n: nat): nat
    requires n <= UNKNOWN
  {
    if n == 0 then 0 else
      RequestsFor(t, handlers, n - 1) + if n - 1 in handlers then (|t[n - 1]| + 49) / 50 else 0
  }

  lemma {:induction false} HandledNothing(handlers: set<Kind>, n: nat)
    requires n <= UNKNOWN
    ensures Handled(NOTHING, handlers, n) == []
  {
    if n > 0 {
      HandledNothing(handlers, n - 1);
    }
  }

  /** The items of a known type with a handler. */
  function HandledIds(s: seq<EwsItem>, handlers: set<Kind>): set<Id> {
    set x | x in s && x.kind != UNKNOWN && x.kind in handlers :: x.id.id
  }

  lemma HandledIdsAppend(s: seq<EwsItem>, x: EwsItem, handlers: set<Kind>)
    ensures HandledIds(s + [x], handlers) ==
            HandledIds(s, handlers) + if x.kind != UNKNOWN && x.kind in handlers then {x.id.id} else {}
  {
    assert forall y :: y in s + [x] <==> y in s || y == x;
  }

  datatype Step = Go | Restart | Missing

  /** Every item of the list is there when its turn comes; each one is used up by its turn. */
  ghost predicate AllFound(keys: set<Id>, s: seq<EwsItem>) {
    && (forall i :: 0 <= i < |s| ==> s[i].id.id in keys)
    && (forall i, j :: 0 <= i < j < |s| ==> s[i].id.id != s[j].id.id)
  }

  lemma AllFoundNext(keys: set<Id>, s: seq<EwsItem>, i: nat)
    requires i < |s| && AllFound(keys, s[..i])
    ensures AllFound(keys, s[..i + 1]) <==> s[i].id.id in keys - ServerIds(s[..i])
    ensures AllFound(keys, s) ==> AllFound(keys, s[..i + 1])
    ensures ServerIds(s[..i + 1]) == ServerIds(s[..i]) + {s[i].id.id}
  {
    var init, x := s[..i], s[i];
    KnownAppend(init, x);
    assert s[..i + 1] == init + [x];
    assert x.id.id in ServerIds(init) <==> exists j :: 0 <= j < i && init[j].id.id == x.id.id;
  }

  /** Some added item of a known type has tags that are not known locally. */
  ghost predicate AddedUntagged(s: seq<EwsItem>) {
    exists i :: 0 <= i < |s| && s[i].kind != UNKNOWN && s[i].missingTags
  }

  /** The turn of a changed item comes that has tags that are not known locally: it and those before it are there. */
  ghost predicate ChangedUntagged(keys: set<Id>, s: seq<EwsItem>) {
    exists i :: UntaggedAt(keys, s, i)
  }

  ghost predicate UntaggedAt(keys: set<Id>, s: seq<EwsItem>, i: int) {
    0 <= i < |s| && s[i].missingTags && AllFound(keys, s[..i + 1])
  }

  /** Once an item is not there, no later turn comes. */
  lemma StopsAt(keys: set<Id>, s: seq<EwsItem>, i: nat, j: nat)
    requires i <= j < |s| && !AllFound(keys, s[..i + 1])
    ensures !AllFound(keys, s[..j + 1])
  {
    var a, b := s[..i + 1], s[..j + 1];
    if AllFound(keys, b) {
      assert forall k :: 0 <= k < |a| ==> a[k] == b[k];
    }
  }

  lemma NextUntagged(s: seq<EwsItem>, i: nat)
    requires i < |s|
    ensures AddedUntagged(s[..i + 1]) <==> AddedUntagged(s[..i]) || (s[i].kind != UNKNOWN && s[i].missingTags)
    ensures s[i].kind != UNKNOWN && s[i].missingTags ==> AddedUntagged(s)
  {
    var a, b := s[..i], s[..i + 1];
    assert b[i] == s[i] && forall k :: 0 <= k < i ==> a[k] == b[k];
    if k :| 0 <= k < |a| && a[k].kind != UNKNOWN && a[k].missingTags {
      assert b[k] == a[k];
    }
  }

  lemma NoneYet(keys: set<Id>, s: seq<EwsItem>, handlers: set<Kind>)
    ensures AllFound(keys, s[..0]) && ServerIds(s[..0]) == {} && HandledIds(s[..0], handlers) == {}
            && KnownIds(s[..0]) == {}
  {
  }

  lemma KnownStep(s: seq<EwsItem>, i: nat, handlers: set<Kind>)
    requires i < |s|
    ensures KnownIds(s[..i + 1]) == KnownIds(s[..i]) + if s[i].kind != UNKNOWN then {s[i].id.id} else {}
    ensures s[i].kind == UNKNOWN ==> HandledIds(s[..i + 1], handlers) == HandledIds(s[..i], handlers)
  {
    assert s[..i + 1] == s[..i] + [s[i]];
    KnownAppend(s[..i], s[i]);
    HandledIdsAppend(s[..i], s[i], handlers);
  }

  /** One more fetched item, counted if its type has a handler. */
  function Counted(x: EwsItem, handlers: set<Kind>): set<Id> {
    if x.kind != UNKNOWN && x.kind in handlers then {x.id.id} else {}
  }

  lemma MergeStep(s: seq<EwsItem>, i: nat, handlers: set<Kind>, t: ToFetch, x: Item)
    requires i < |s| && x.rid == s[i].id.id
    ensures Ids(Handled(AddTo(t, s[i].kind, x), handlers, UNKNOWN))
         == Ids(Handled(t, handlers, UNKNOWN)) + Counted(s[i], handlers)
    ensures HandledIds(s[..i + 1], handlers) == HandledIds(s[..i], handlers) + Counted(s[i], handlers)
  {
    HandledAdd(t, handlers, UNKNOWN, s[i].kind, x);
    assert s[..i + 1] == s[..i] + [s[i]];
    HandledIdsAppend(s[..i], s[i], handlers);
  }

  ghost predicate NotFoundAt(toCheck: seq<EwsId>, checks: seq<Check>, d: EwsId) {
    exists j :: 0 <= j < |checks| && j < |toCheck| && checks[j] == NotFound && toCheck[j] == d
  }

  lemma CheckNext(toCheck: seq<EwsId>, responses: seq<Check>, i: nat)
    requires i < |responses| == |toCheck|
    ensures forall c :: c in responses[..i] + [responses[i]] <==> c in responses[..i] || c == responses[i]
    ensures forall d :: NotFoundAt(toCheck, responses[..i] + [responses[i]], d) <==>
              NotFoundAt(toCheck, responses[..i], d) || (responses[i] == NotFound && toCheck[i] == d)
  {
    var a, b := responses[..i], responses[..i] + [responses[i]];
    assert forall j :: 0 <= j < i ==> a[j] == b[j];
    forall d
      ensures NotFoundAt(toCheck, b, d) <==> NotFoundAt(toCheck, a, d) || (responses[i] == NotFound && toCheck[i] == d)
    {
      if NotFoundAt(toCheck, a, d) {
        var j :| 0 <= j < |a| && j < |toCheck| && a[j] == NotFound && toCheck[j] == d;
        assert b[j] == NotFound;
      }
      if responses[i] == NotFound && toCheck[i] == d {
        assert b[i] == NotFound;
      }
    }
  }

  function DeletedIds(s: seq<EwsId>): set<Id> {
    set d | d in s :: d.id
  }

  lemma DeletedIdsNext(s: seq<EwsId>, i: nat)
    requires i < |s|
    ensures DeletedIds(s[..i + 1]) == DeletedIds(s[..i]) + {s[i].id}
    ensures forall d :: d in s[..i + 1] <==> d in s[..i] || d == s[i]
  {
    assert s[..i + 1] == s[..i] + [s[i]];
  }

  function FlagIds(s: set<EwsId>): set<Id> {
    set f | f in s :: f.id
  }

  /** Every flag change finds an item of its own. */
  ghost predicate FlagsFound(keys: set<Id>, s: set<EwsId>) {
    && (forall f :: f in s ==> f.id in keys)
    && (forall f, g :: f in s && g in s && f != g ==> f.id != g.id)
  }

  lemma FlagsNext(keys: set<Id>, all: set<EwsId>, done: set<EwsId>, f: EwsId)
    requires done < all && f in all && f !in done && FlagsFound(keys, done)
    ensures FlagsFound(keys, done + {f}) <==> f.id in keys - FlagIds(done)
    ensures FlagsFound(keys, all) ==> FlagsFound(keys, done + {f})
    ensures FlagIds(done + {f}) == FlagIds(done) + {f.id}
  {
  }

  /** The updates of a list of changes, in order. */
  function Updates(s: seq<Change>): seq<EwsItem> {
    if s == [] then [] else
      var last := s[|s| - 1];
      Updates(s[..|s| - 1]) + if last.Update? then [last.item] else []
  }

  /** The read-flag changes of a list of changes; a later one replaces an earlier one of the same key. */
  function FlagChanges(s: seq<Change>): map<EwsId, bool> {
    if s == [] then map[] else
      var last := s[|s| - 1];
      var m := FlagChanges(s[..|s| - 1]);
      if last.ReadFlagChange? then m[last.id := last.isRead] else m
  }

  lemma PageNext(s: seq<Change>, ch: Change)
    ensures Updates(s + [ch]) == Updates(s) + if ch.Update? then [ch.item] else []
    ensures FlagChanges(s + [ch]) == if ch.ReadFlagChange? then FlagChanges(s)[ch.id := ch.isRead] else FlagChanges(s)
    ensures forall c :: c in s + [ch] <==> c in s || c == ch
  {
    assert (s + [ch])[..|s|] == s;
  }

  /** The item carries the revision that one of the lists has for it. */
  ghost predicate HasRevision(x: Item, added: seq<EwsItem>, changed: seq<EwsItem>) {
    exists e :: (e in added || e in changed) && e.id == EwsId(x.rid, x.revision)
  }

  /** The item is the local one with another revision; without a local one it is new and has not been seen. */
  ghost predicate AsLocal(x: Item, items: seq<Item>) {
    if x.rid in Ids(items) then exists y :: y in items && x == y.(revision := x.revision) else !x.seen
  }

  ghost predicate AllAsLocal(s: seq<Item>, items: seq<Item>) {
    forall x :: x in s ==> AsLocal(x, items)
  }

  /** No item of a known type is added twice. */
  ghost predicate AddedOnce(s: seq<EwsItem>) {
    forall i, j :: 0 <= i < j < |s| && s[i].kind != UNKNOWN && s[j].kind != UNKNOWN ==> s[i].id.id != s[j].id.id
  }

  lemma NotAddedBefore(s: seq<EwsItem>, i: nat)
    requires AddedOnce(s) && i < |s| && s[i].kind != UNKNOWN
    ensures s[i].id.id !in KnownIds(s[..i])
  {
  }

  lemma AddAsLocal(t: ToFetch, handlers: set<Kind>, kind: Kind, x: Item, items: seq<Item>)
    requires AllAsLocal(Handled(t, handlers, UNKNOWN), items) && AsLocal(x, items)
    ensures AllAsLocal(Handled(AddTo(t, kind, x), handlers, UNKNOWN), items)
  {
    HandledMembers(t, handlers, UNKNOWN, kind, x);
    hide Handled, AsLocal;
  }

  /** The item is a local one with the flag that has been reported for it. */
  ghost predicate HasFlag(x: Item, flags: map<EwsId, bool>, items: seq<Item>) {
    && (exists f :: f in flags && f.id == x.rid && flags[f] == x.seen)
    && (exists y :: y in items && y == x.(seen := y.seen))
  }

  ghost predicate AllHaveRevision(s: seq<Item>, added: seq<EwsItem>, changed: seq<EwsItem>) {
    forall x :: x in s ==> HasRevision(x, added, changed)
  }

  lemma {:induction false} HandledMembers(t: ToFetch, handlers: set<Kind>, n: nat, kind: Kind, x: Item)
    requires n <= UNKNOWN
    ensures forall y :: y in Handled(AddTo(t, kind, x), handlers, n) ==> y in Handled(t, handlers, n) || y == x
  {
    if n > 0 {
      HandledMembers(t, handlers, n - 1, kind, x);
    }
  }

  /** One more item to fetch, with the revision of its entry. */
  lemma AddRevision(t: ToFetch, handlers: set<Kind>, e: EwsItem, x: Item, added: seq<EwsItem>, changed: seq<EwsItem>)
    requires AllHaveRevision(Handled(t, handlers, UNKNOWN), added, changed)
    requires (e in added || e in changed) && e.id == EwsId(x.rid, x.revision)
    ensures AllHaveRevision(Handled(AddTo(t, e.kind, x), handlers, UNKNOWN), added, changed)
  {
    HandledMembers(t, handlers, UNKNOWN, e.kind, x);
    hide Handled;
  }

  lemma MoreRevisions(s: seq<Item>, added: seq<EwsItem>, changed: seq<EwsItem>)
    requires AllHaveRevision(s, added, [])
    ensures AllHaveRevision(s, added, changed)
  {
    forall x | x in s
      ensures HasRevision(x, added, changed)
    {
      var e :| (e in added || e in []) && e.id == EwsId(x.rid, x.revision);
    }
  }

  class EwsFetchItemsJob {
    const mItemsToCheck: seq<EwsId>
    const mQueuedDeletions: set<Id>
    const mFullSync: bool
    const handlers: set<Kind>
    var mPendingJobs: int
    var mLocalItems: seq<Item>
    var mRemoteAddedItems: seq<EwsItem>
    var mRemoteChangedItems: seq<EwsItem>
    var mRemoteDeletedIds: seq<EwsId>
    var mRemoteFlagChangedIds: map<EwsId, bool>
    var mTagsSynced: bool
    var mChangedItems: seq<Item>
    var mDeletedItems: seq<Item>
    /** The detail jobs that are waiting or running, in the order of their start. */
    var mDetailJobs: seq<seq<Item>>
    var mTagSyncRunning: bool
    var mError: bool
    /** How many times the job has reported its result. */
    var mResults: nat

    constructor (fullSync: bool, itemsToCheck: seq<EwsId>, queuedDeletions: set<Id>, handlers: set<Kind>)
      ensures mFullSync == fullSync && mItemsToCheck == itemsToCheck && mQueuedDeletions == queuedDeletions
      ensures this.handlers == handlers
      ensures mLocalItems == [] && mRemoteAddedItems == [] && mRemoteChangedItems == [] && mRemoteDeletedIds == []
      ensures mRemoteFlagChangedIds == map[] && mChangedItems == [] && mDeletedItems == [] && mDetailJobs == []
      ensures !mTagsSynced && !mTagSyncRunning && !mError && mResults == 0
    {
      mFullSync, mItemsToCheck, mQueuedDeletions := fullSync, itemsToCheck, queuedDeletions;
      this.handlers := handlers;
      mPendingJobs := 0;
      mLocalItems, mRemoteAddedItems, mRemoteChangedItems, mRemoteDeletedIds := [], [], [], [];
      mRemoteFlagChangedIds := map[];
      mChangedItems, mDeletedItems, mDetailJobs := [], [], [];
      mTagsSynced, mTagSyncRunning, mError, mResults := false, false, false, 0;
    }

    /** How far the three requests of the first stage have got. */
    ghost var remoteDone: bool
    ghost var localDone: bool
    ghost var checkDone: bool
    /** Everything the server has answered so far. */
    ghost var pages: seq<Change>
    ghost var checks: seq<Check>

    /** The remote lists hold exactly what has been answered. */
    ghost predicate Collected()
      reads this
    {
      && mRemoteChangedItems == Updates(pages) && mRemoteFlagChangedIds == FlagChanges(pages)
      && (forall x :: x in mRemoteAddedItems <==> Create(x) in pages || Found(x) in checks)
      && (forall d :: d in mRemoteDeletedIds <==> Delete(d) in pages || NotFoundAt(mItemsToCheck, checks, d))
    }

    ghost predicate Waiting()
      reads this
    {
      mPendingJobs == (if remoteDone then 0 else 1) + (if localDone then 0 else 1) + (if checkDone then 0 else 1)
    }

    /** Before the comparison: something is still outstanding and nothing has been decided. */
    ghost predicate Stage1()
      reads this
    {
      && Collected() && Waiting() && mPendingJobs > 0
      && (!checkDone ==> checks == [])
      && Undecided() && !mTagsSynced
    }

    ghost predicate Undecided()
      reads this
    {
      mChangedItems == [] && mDeletedItems == [] && mDetailJobs == [] && !mTagSyncRunning && !mError && mResults == 0
    }

    /** The local items that no added item has replaced. */
    ghost function Left(): set<Id>
      reads this`mRemoteAddedItems, this`mLocalItems
    {
      Ids(mLocalItems) - KnownIds(mRemoteAddedItems)
    }

    /** The changes do not fit the local items: only a full synchronisation can help. */
    ghost predicate OutOfSync()
      reads this`mLocalItems, this`mRemoteAddedItems, this`mRemoteChangedItems, this`mRemoteDeletedIds
      reads this`mRemoteFlagChangedIds
    {
      && !mFullSync
      && var left := Left() - ServerIds(mRemoteChangedItems);
         !(&& AllFound(Left(), mRemoteChangedItems)
           && (forall d :: d in mRemoteDeletedIds ==> d.id in left || Tolerated(d))
           && FlagsFound(left, mRemoteFlagChangedIds.Keys))
    }

    /** The items that have to be reported as changed. */
    ghost function DueChanged(): set<Id>
      reads this`mRemoteAddedItems, this`mRemoteChangedItems, this`mRemoteFlagChangedIds
    {
      HandledIds(mRemoteAddedItems, handlers)
      + if mFullSync then {} else HandledIds(mRemoteChangedItems, handlers) + FlagIds(mRemoteFlagChangedIds.Keys)
    }

    /** The tags have to be synchronised before the lists can be compared. */
    ghost predicate NeedsTags()
      reads this`mRemoteAddedItems, this`mRemoteChangedItems, this`mLocalItems
    {
      AddedUntagged(mRemoteAddedItems) || (!mFullSync && ChangedUntagged(Left(), mRemoteChangedItems))
    }

    /** The changed items that count: none in a full synchronisation. */
    ghost function Changed(): seq<EwsItem>
      reads this`mRemoteChangedItems
    {
      if mFullSync then [] else mRemoteChangedItems
    }

    /**
     An item as it has to be reported: with the revision that the server has given and otherwise as it is locally, or,
     if only its flag has changed, with the new flag and otherwise as it was.
     */
    ghost predicate Newest(x: Item)
      reads this`mRemoteAddedItems, this`mRemoteChangedItems, this`mRemoteFlagChangedIds, this`mLocalItems
    {
      if x.rid in HandledIds(mRemoteAddedItems, handlers) + HandledIds(Changed(), handlers)
      then && HasRevision(x, mRemoteAddedItems, Changed())
           && (AddedOnce(mRemoteAddedItems) ==> AsLocal(x, mLocalItems))
      else HasFlag(x, mRemoteFlagChangedIds, mLocalItems)
    }

    /** The entries of a hash of local items. */
    ghost predicate LocalHash(h: Hash)
      reads this`mLocalItems
    {
      forall k :: k in h ==> h[k].rid == k && h[k] in mLocalItems
    }

    ghost predicate AllNewest()
      reads this`mRemoteAddedItems, this`mRemoteChangedItems, this`mRemoteFlagChangedIds, this`mLocalItems
      reads this`mChangedItems, this`mDetailJobs
    {
      forall x :: x in mChangedItems || x in Flatten(mDetailJobs) ==> Newest(x)
    }

    ghost function DueDeleted(): set<Id>
      reads this`mLocalItems, this`mRemoteAddedItems, this`mRemoteChangedItems, this`mRemoteDeletedIds
    {
      if mFullSync then Left()
      else DeletedIds(mRemoteDeletedIds) * (Left() - ServerIds(mRemoteChangedItems))
    }

    /** The comparison is over, and not for a synchronisation of tags. */
    ghost predicate Compared()
      reads this
    {
      && mError == OutOfSync()
      && (mError ==> mResults == 1 && mDetailJobs == [])
      && (!mError ==>
            && Ids(mDeletedItems) == DueDeleted()
            && Ids(mChangedItems) + Ids(Flatten(mDetailJobs)) == DueChanged()
            && (forall i :: 0 <= i < |mDetailJobs| ==> 0 < |mDetailJobs[i]| <= 50)
            && AllNewest()
            && mResults == if mDetailJobs == [] then 1 else 0)
    }

    /** The job has been suspended before anything was decided. */
    ghost predicate Suspended()
      reads this
    {
      && mTagSyncRunning && mTagsSynced
      && mChangedItems == [] && mDeletedItems == [] && mDetailJobs == [] && !mError && mResults == 0
    }

    /** The first comparison: it is given up exactly if the tags have to be synchronised first. */
    ghost predicate Decided()
      reads this
    {
      if NeedsTags() then Suspended() else Compared() && !mTagSyncRunning && !mTagsSynced
    }

    method Start()
      modifies this`mPendingJobs, this`remoteDone, this`localDone, this`checkDone, this`pages, this`checks
      requires mRemoteAddedItems == [] && mRemoteChangedItems == [] && mRemoteDeletedIds == []
      requires mRemoteFlagChangedIds == map[] && Undecided() && !mTagsSynced
      ensures Stage1() && !remoteDone && !localDone && checkDone == (mItemsToCheck == [])
      ensures pages == [] && checks == []
    {
      pages, checks, remoteDone, localDone, checkDone := [], [], false, false, true;
      mPendingJobs := 2;
      if mItemsToCheck != [] {
        mPendingJobs := mPendingJobs + 1;
        checkDone := false;
      }
    }

    method LocalItemFetchDone(error: bool, items: seq<Item>)
      requires Stage1() && !localDone
      modifies this
      ensures error ==> Stage1() && !localDone && mLocalItems == old(mLocalItems)
      ensures !error ==> localDone && mLocalItems == items
      ensures pages == old(pages) && checks == old(checks) && remoteDone == old(remoteDone)
              && checkDone == old(checkDone)
      ensures !error ==>
                if remoteDone && checkDone then Collected() && Decided()
                else Stage1()
    {
      if !error {
        mLocalItems := items;
        localDone := true;
        mPendingJobs := mPendingJobs - 1;
        if mPendingJobs == 0 {
          CompareItemLists();
        }
      }
    }

    /** Sorts one change into the list for its type. */
    method AddChange(ch: Change)
      requires Stage1()
      modifies this`mRemoteAddedItems, this`mRemoteChangedItems, this`mRemoteDeletedIds
      modifies this`mRemoteFlagChangedIds, this`pages
      ensures Stage1() && pages == old(pages) + [ch]
    {
      hide Updates, FlagChanges, NotFoundAt;
      PageNext(pages, ch);
      match ch {
        case Create(item) => mRemoteAddedItems := mRemoteAddedItems + [item];
        case Update(item) => mRemoteChangedItems := mRemoteChangedItems + [item];
        case Delete(id) => mRemoteDeletedIds := mRemoteDeletedIds + [id];
        case ReadFlagChange(id, isRead) => mRemoteFlagChangedIds := mRemoteFlagChangedIds[id := isRead];
        case Other =>
      }
      pages := pages + [ch];
    }

    /** A page of remote changes; the next one is requested until the last one has come. */
    method RemoteItemFetchDone(error: bool, changes: seq<Change>, includesLastItem: bool) returns (nextPage: bool)
      requires Stage1() && !remoteDone
      modifies this
      ensures nextPage <==> !error && !includesLastItem
      ensures error ==> Stage1() && !remoteDone && pages == old(pages)
      ensures !error ==> pages == old(pages) + changes && remoteDone == includesLastItem
      ensures mLocalItems == old(mLocalItems) && checks == old(checks) && localDone == old(localDone)
              && checkDone == old(checkDone)
      ensures !error ==>
                if remoteDone && localDone && checkDone
                then Collected() && Decided()
                else Stage1()
    {
      hide Updates, FlagChanges, NotFoundAt, OutOfSync, DueChanged, DueDeleted, Ids, Flatten, AllNewest,
           NeedsTags;
      nextPage := false;
      if !error {
        var i := 0;
        while i < |changes|
          invariant 0 <= i <= |changes| && pages == old(pages) + changes[..i]
          invariant Stage1() && !remoteDone
          invariant mLocalItems == old(mLocalItems) && checks == old(checks) && localDone == old(localDone)
                  && checkDone == old(checkDone)
        {
          assert old(pages) + changes[..i + 1] == pages + [changes[i]];
          AddChange(changes[i]);
          i := i + 1;
        }
        assert changes[..i] == changes;
        if !includesLastItem {
          nextPage := true;
        } else {
          remoteDone := true;
          mPendingJobs := mPendingJobs - 1;
          if mPendingJobs == 0 {
            CompareItemLists();
          }
        }
      }
    }

    method AddCheck(responses: seq<Check>, i: nat)
      requires Collected() && Undecided() && i < |responses| == |mItemsToCheck| && checks == responses[..i]
      modifies this`mRemoteAddedItems, this`mRemoteDeletedIds, this`checks
      ensures Collected() && Undecided() && checks == responses[..i + 1]
    {
      hide Updates, FlagChanges, NotFoundAt;
      CheckNext(mItemsToCheck, responses, i);
      match responses[i] {
        case Found(item) => mRemoteAddedItems := mRemoteAddedItems + [item];
        case NotFound => mRemoteDeletedIds := mRemoteDeletedIds + [mItemsToCheck[i]];
      }
      checks := checks + [responses[i]];
      assert responses[..i + 1] == responses[..i] + [responses[i]];
    }

    /** The checked items: those found are added again, the others count as deleted. */
    method CheckedItemsFetchFinished(error: bool, responses: seq<Check>)
      requires Stage1() && !checkDone && |responses| == |mItemsToCheck|
      modifies this
      ensures error ==> Stage1() && !checkDone && checks == old(checks)
      ensures !error ==> checkDone && checks == responses
      ensures mLocalItems == old(mLocalItems) && pages == old(pages) && localDone == old(localDone)
              && remoteDone == old(remoteDone)
      ensures !error ==>
                if remoteDone && localDone then Collected() && Decided()
                else Stage1()
    {
      hide Updates, FlagChanges, NotFoundAt, OutOfSync, DueChanged, DueDeleted, Ids, Flatten, AllNewest,
           NeedsTags;
      if !error {
        var i := 0;
        while i < |responses|
          invariant 0 <= i <= |responses| && checks == responses[..i]
          invariant Collected() && Waiting() && Undecided() && !mTagsSynced && !checkDone
          invariant mLocalItems == old(mLocalItems) && pages == old(pages) && localDone == old(localDone)
                  && remoteDone == old(remoteDone)
        {
          AddCheck(responses, i);
          i := i + 1;
        }
        assert responses[..i] == responses;
        checkDone := true;
        mPendingJobs := mPendingJobs - 1;
        if mPendingJobs == 0 {
          CompareItemLists();
        }
      }
    }

    /** The lists fit the local items and are merged: what is to be deleted, what has a new flag, what to fetch. */
    ghost predicate Merged(toFetch: ToFetch, left: set<Id>)
      reads this
    {
      var fetched := Handled(toFetch, handlers, UNKNOWN);
      && !OutOfSync()
      && Ids(mDeletedItems) == DueDeleted() && Ids(mChangedItems) + Ids(fetched) == DueChanged()
      && AllHaveRevision(fetched, mRemoteAddedItems, Changed())
      && (AddedOnce(mRemoteAddedItems) ==> AllAsLocal(fetched, mLocalItems))
      && Ids(fetched) == HandledIds(mRemoteAddedItems, handlers) + HandledIds(Changed(), handlers)
      && left !! KnownIds(mRemoteAddedItems) + ServerIds(Changed())
      && forall x :: x in mChangedItems ==> x.rid in left && HasFlag(x, mRemoteFlagChangedIds, mLocalItems)
    }

    /** What is to be fetched has a revision in a list, and what has a new flag is in no list. */
    lemma AllAreNewest(toFetch: ToFetch, left: set<Id>)
      requires Merged(toFetch, left) && Flatten(mDetailJobs) == Handled(toFetch, handlers, UNKNOWN)
      ensures AllNewest()
    {
      hide HasFlag, HasRevision, Flatten, Handled, OutOfSync, DueDeleted, DueChanged;
      forall x | x in Flatten(mDetailJobs)
        ensures Newest(x)
      {
        assert x.rid in Ids(Flatten(mDetailJobs));
      }
    }

    lemma NoneChanged()
      requires mFullSync
      ensures Changed() == [] && HandledIds(Changed(), handlers) == {} && ServerIds(Changed()) == {}
    {
    }

    /** In a full synchronisation the local items that are left are to be deleted. */
    method DeleteOthers(itemHash: Hash, toFetch: ToFetch)
      requires mFullSync && mChangedItems == mDeletedItems == [] && LocalHash(itemHash) && itemHash.Keys == Left()
      requires Ids(Handled(toFetch, handlers, UNKNOWN)) == HandledIds(mRemoteAddedItems, handlers)
      requires AllHaveRevision(Handled(toFetch, handlers, UNKNOWN), mRemoteAddedItems, [])
      requires AddedOnce(mRemoteAddedItems) ==> AllAsLocal(Handled(toFetch, handlers, UNKNOWN), mLocalItems)
      modifies this`mDeletedItems
      ensures Merged(toFetch, itemHash.Keys)
    {
      hide Ids, LocalHash, KnownIds, ServerIds, HandledIds, Handled, AllHaveRevision, AllAsLocal, AddedOnce;
      IdsNothing();
      NoneChanged();
      DeleteAll(itemHash);
    }

    /** In an incremental synchronisation the other lists are merged as well. */
    method MergeReported(hash0: Hash, toFetch0: ToFetch) returns (itemHash: Hash, toFetch: ToFetch, step: Step)
      requires !mFullSync && mChangedItems == mDeletedItems == [] && LocalHash(hash0) && hash0.Keys == Left()
      requires Ids(Handled(toFetch0, handlers, UNKNOWN)) == HandledIds(mRemoteAddedItems, handlers)
      requires AllHaveRevision(Handled(toFetch0, handlers, UNKNOWN), mRemoteAddedItems, [])
      requires AddedOnce(mRemoteAddedItems) ==> AllAsLocal(Handled(toFetch0, handlers, UNKNOWN), mLocalItems)
      modifies this`mChangedItems, this`mDeletedItems
      ensures step == Restart <==> !mTagsSynced && ChangedUntagged(Left(), mRemoteChangedItems)
      ensures step == Restart ==> mChangedItems == mDeletedItems == []
      ensures step == Missing ==> OutOfSync()
      ensures step == Go ==> Merged(toFetch, itemHash.Keys)
    {
      hide Ids, LocalHash, KnownIds, ServerIds, HandledIds, DeletedIds, FlagIds, AllFound, FlagsFound, Handled,
           AllHaveRevision, AllAsLocal, AddedOnce, HasFlag, ChangedUntagged;
      IdsNothing();
      MoreRevisions(Handled(toFetch0, handlers, UNKNOWN), mRemoteAddedItems, mRemoteChangedItems);
      itemHash, toFetch, step := MergeChanged(hash0, toFetch0);
      if step != Go {
        return;
      }
      var ok := MergeDeleted(itemHash);
      if !ok {
        return itemHash, toFetch, Missing;
      }
      ok := MergeFlags(itemHash);
      if !ok {
        return itemHash, toFetch, Missing;
      }
    }

    /** The comparison of the collected lists. If tags are missing it is given up without a trace. */
    method CompareItemLists()
      requires Undecided()
      modifies this`mChangedItems, this`mDeletedItems, this`mDetailJobs, this`mTagsSynced, this`mTagSyncRunning
      modifies this`mError, this`mResults
      ensures old(mTagsSynced) ==> mTagsSynced && !mTagSyncRunning
      ensures mTagSyncRunning <==> !old(mTagsSynced) && NeedsTags()
      ensures mTagSyncRunning ==> Suspended()
      ensures !mTagSyncRunning ==> mTagsSynced == old(mTagsSynced)
      ensures !mTagSyncRunning ==> Compared()
    {
      hide Ids, LocalHash, KnownIds, ServerIds, HandledIds, DeletedIds, FlagIds, AllFound, FlagsFound, Handled, Flatten,
           AllHaveRevision, AllAsLocal, AddedOnce, HasFlag, AllNewest, AddedUntagged, ChangedUntagged, OutOfSync,
           DueChanged, DueDeleted;
      var itemHash := BuildHash();
      var toFetch, restart;
      itemHash, toFetch, restart := MergeAdded(itemHash);
      if restart {
        SyncTags();
        return;
      }
      if mFullSync {
        DeleteOthers(itemHash, toFetch);
      } else {
        var step;
        itemHash, toFetch, step := MergeReported(itemHash, toFetch);
        if step == Missing {
          mError, mResults := true, mResults + 1;
          return;
        }
        if step == Restart {
          SyncTags();
          return;
        }
      }
      assert Merged(toFetch, itemHash.Keys);
      StartDetails(toFetch);
      AllAreNewest(toFetch, itemHash.Keys);
      if mDetailJobs == [] {
        mResults := mResults + 1;
      }
    }

    /** A first request suspends the job; a second one would be an error. */
    method SyncTags()
      requires !mTagsSynced
      modifies this`mTagsSynced, this`mTagSyncRunning
      ensures mTagsSynced && mTagSyncRunning
    {
      mTagSyncRunning, mTagsSynced := true, true;
    }

    method TagSyncFinished(error: bool)
      requires Suspended()
      modifies this`mChangedItems, this`mDeletedItems, this`mDetailJobs, this`mTagsSynced, this`mTagSyncRunning
      modifies this`mError, this`mResults
      ensures mTagsSynced && !mTagSyncRunning
      ensures error ==> mError && mResults == 1
      ensures !error ==> Compared()
    {
      mTagSyncRunning := false;
      if error {
        mError, mResults := true, mResults + 1;
      } else {
        CompareItemLists();
      }
    }

    method DeleteAll(itemHash: Hash)
      requires LocalHash(itemHash) && mDeletedItems == []
      modifies this`mDeletedItems
      ensures Ids(mDeletedItems) == itemHash.Keys
    {
      var todo := itemHash.Keys;
      while todo != {}
        invariant todo <= itemHash.Keys && Ids(mDeletedItems) == itemHash.Keys - todo
      {
        var k :| k in todo;
        IdsAppend(mDeletedItems, itemHash[k]);
        mDeletedItems := mDeletedItems + [itemHash[k]];
        todo := todo - {k};
      }
    }

    /** One detail job for every 50 items of a type, types in order. */
    method StartDetails(toFetch: ToFetch)
      requires mDetailJobs == []
      modifies this`mDetailJobs
      ensures Flatten(mDetailJobs) == Handled(toFetch, handlers, UNKNOWN)
      ensures |mDetailJobs| == RequestsFor(toFetch, handlers, UNKNOWN)
      ensures forall i :: 0 <= i < |mDetailJobs| ==> 0 < |mDetailJobs[i]| <= 50
    {
      var kind := 0;
      while kind < UNKNOWN
        invariant 0 <= kind <= UNKNOWN
        invariant Flatten(mDetailJobs) == Handled(toFetch, handlers, kind)
        invariant |mDetailJobs| == RequestsFor(toFetch, handlers, kind)
        invariant forall i :: 0 <= i < |mDetailJobs| ==> 0 < |mDetailJobs[i]| <= 50
      {
        if kind in handlers {
          StartDetailsOf(toFetch[kind]);
        }
        kind := kind + 1;
      }
    }

    method StartDetailsOf(items: seq<Item>)
      modifies this`mDetailJobs
      requires forall i :: 0 <= i < |mDetailJobs| ==> 0 < |mDetailJobs[i]| <= 50
      ensures Flatten(mDetailJobs) == Flatten(old(mDetailJobs)) + items
      ensures |mDetailJobs| == |old(mDetailJobs)| + (|items| + 49) / 50
      ensures forall i :: 0 <= i < |mDetailJobs| ==> 0 < |mDetailJobs[i]| <= 50
    {
      var i := 0;
      while i < |items|
        invariant 0 <= i <= |items|
        invariant Flatten(mDetailJobs) == Flatten(old(mDetailJobs)) + items[..i]
        invariant var n := |mDetailJobs| - |old(mDetailJobs)|;
                  i == 50 * n || (i == |items| && 50 * (n - 1) < i < 50 * n)
        invariant forall i :: 0 <= i < |mDetailJobs| ==> 0 < |mDetailJobs[i]| <= 50
      {
        var end := if i + FETCH_BATCH_SIZE <= |items| then i + FETCH_BATCH_SIZE else |items|;
        FlattenAppend(mDetailJobs, items[i..end]);
        assert items[..i] + items[i..end] == items[..end];
        mDetailJobs := mDetailJobs + [items[i..end]];
        i := end;
      }
      assert items[..i] == items;
    }

    /** The running detail job is over; the last one reports the result. */
    method ItemDetailFetchDone(error: bool)
      requires mDetailJobs != []
      modifies this`mChangedItems, this`mDetailJobs, this`mResults
      ensures mDetailJobs == old(mDetailJobs)[1..]
      ensures error ==> mChangedItems == old(mChangedItems) && mResults == old(mResults)
      ensures !error ==> mChangedItems == old(mChangedItems) + old(mDetailJobs)[0]
      ensures !error ==> mResults == old(mResults) + if mDetailJobs == [] then 1 else 0
      ensures !error && old(AllNewest()) ==> AllNewest()
    {
      hide HandledIds, HasRevision, HasFlag;
      var items := mDetailJobs[0];
      mDetailJobs := mDetailJobs[1..];
      if !error {
        mChangedItems := mChangedItems + items;
        if mDetailJobs == [] {
          mResults := mResults + 1;
        }
      }
    }

    method BuildHash() returns (itemHash: Hash)
      ensures LocalHash(itemHash) && itemHash.Keys == Ids(mLocalItems)
    {
      itemHash := map[];
      var i := 0;
      while i < |mLocalItems|
        invariant 0 <= i <= |mLocalItems|
        invariant LocalHash(itemHash) && itemHash.Keys == Ids(mLocalItems[..i])
      {
        assert mLocalItems[..i + 1] == mLocalItems[..i] + [mLocalItems[i]];
        IdsAppend(mLocalItems[..i], mLocalItems[i]);
        itemHash := itemHash[mLocalItems[i].rid := mLocalItems[i]];
        i := i + 1;
      }
      assert mLocalItems[..i] == mLocalItems;
    }

    /** Whether the tags of an item can be read; after a tag synchronisation missing ones are ignored. */
    predicate TagsReadable(x: EwsItem)
      reads this
    {
      !x.missingTags || mTagsSynced
    }

    lemma HashIsLocal(itemHash: Hash, id: Id)
      requires LocalHash(itemHash) && id in itemHash
      ensures id in Ids(mLocalItems)
    {
      assert itemHash[id] in mLocalItems;
    }

    lemma IsAsLocal(itemHash: Hash, id: Id, item: Item)
      requires LocalHash(itemHash) && (id in itemHash <==> id in Ids(mLocalItems)) && item.rid == id
      requires if id in itemHash then item == itemHash[id].(revision := item.revision) else !item.seen
      ensures AsLocal(item, mLocalItems)
    {
      if id in itemHash {
        assert itemHash[id] in mLocalItems;
      }
    }

    /** Every added item of a known type is fetched, as a new item or in place of the local one. */
    method MergeAdded(hash0: Hash) returns (itemHash: Hash, toFetch: ToFetch, restart: bool)
      requires LocalHash(hash0) && hash0.Keys == Ids(mLocalItems)
      ensures restart <==> !mTagsSynced && AddedUntagged(mRemoteAddedItems)
      ensures !restart ==> LocalHash(itemHash) && itemHash.Keys == hash0.Keys - KnownIds(mRemoteAddedItems)
      ensures !restart ==> Ids(Handled(toFetch, handlers, UNKNOWN)) == HandledIds(mRemoteAddedItems, handlers)
      ensures !restart ==>
                AllHaveRevision(Handled(toFetch, handlers, UNKNOWN), mRemoteAddedItems, [])
      ensures !restart && AddedOnce(mRemoteAddedItems) ==>
                AllAsLocal(Handled(toFetch, handlers, UNKNOWN), mLocalItems)
    {
      hide KnownIds, HandledIds, Ids, Handled, AddTo, ServerIds, Counted, HasRevision, AddedOnce, AsLocal;
      NoneYet(hash0.Keys, mRemoteAddedItems, handlers);
      HandledNothing(handlers, UNKNOWN);
      IdsNothing();
      itemHash, toFetch, restart := hash0, NOTHING, false;
      var i := 0;
      while i < |mRemoteAddedItems|
        invariant 0 <= i <= |mRemoteAddedItems|
        invariant LocalHash(itemHash) && itemHash.Keys == hash0.Keys - KnownIds(mRemoteAddedItems[..i])
        invariant Ids(Handled(toFetch, handlers, UNKNOWN)) == HandledIds(mRemoteAddedItems[..i], handlers)
        invariant AllHaveRevision(Handled(toFetch, handlers, UNKNOWN), mRemoteAddedItems, [])
        invariant AddedOnce(mRemoteAddedItems) ==> AllAsLocal(Handled(toFetch, handlers, UNKNOWN), mLocalItems)
        invariant !restart && (mTagsSynced || !AddedUntagged(mRemoteAddedItems[..i]))
      {
        var ewsItem := mRemoteAddedItems[i];
        KnownStep(mRemoteAddedItems, i, handlers);
        NextUntagged(mRemoteAddedItems, i);
        i := i + 1;
        if ewsItem.kind == UNKNOWN {
          continue;
        }
        if !TagsReadable(ewsItem) {
          restart := true;
          return;
        }
        var id := ewsItem.id.id;
        var item := if id in itemHash then itemHash[id].(revision := ewsItem.id.changeKey)
                    else Item(id, ewsItem.id.changeKey, false);
        MergeStep(mRemoteAddedItems, i - 1, handlers, toFetch, item);
        AddRevision(toFetch, handlers, ewsItem, item, mRemoteAddedItems, []);
        if AddedOnce(mRemoteAddedItems) {
          NotAddedBefore(mRemoteAddedItems, i - 1);
          IsAsLocal(itemHash, id, item);
          AddAsLocal(toFetch, handlers, ewsItem.kind, item, mLocalItems);
        }
        toFetch := AddTo(toFetch, ewsItem.kind, item);
        itemHash := itemHash - {id};
      }
      assert mRemoteAddedItems[..i] == mRemoteAddedItems;
    }

    /** Every changed item must be known locally; it is fetched in place of the local one. */
    method MergeChanged(hash0: Hash, toFetch0: ToFetch) returns (itemHash: Hash, toFetch: ToFetch, step: Step)
      requires LocalHash(hash0)
      requires AllHaveRevision(Handled(toFetch0, handlers, UNKNOWN), mRemoteAddedItems, mRemoteChangedItems)
      requires AddedOnce(mRemoteAddedItems) ==> AllAsLocal(Handled(toFetch0, handlers, UNKNOWN), mLocalItems)
      ensures step == Restart <==> !mTagsSynced && ChangedUntagged(hash0.Keys, mRemoteChangedItems)
      ensures step == Missing ==> !AllFound(hash0.Keys, mRemoteChangedItems)
      ensures step == Go ==>
                && AllFound(hash0.Keys, mRemoteChangedItems)
                && LocalHash(itemHash) && itemHash.Keys == hash0.Keys - ServerIds(mRemoteChangedItems)
                && Ids(Handled(toFetch, handlers, UNKNOWN))
                   == Ids(Handled(toFetch0, handlers, UNKNOWN)) + HandledIds(mRemoteChangedItems, handlers)
                && AllHaveRevision(Handled(toFetch, handlers, UNKNOWN), mRemoteAddedItems, mRemoteChangedItems)
                && (AddedOnce(mRemoteAddedItems) ==> AllAsLocal(Handled(toFetch, handlers, UNKNOWN), mLocalItems))
    {
      hide AllFound, HandledIds, Ids, Handled, AddTo, ServerIds, Counted, HasRevision, AddedOnce, AsLocal;
      NoneYet(hash0.Keys, mRemoteChangedItems, handlers);
      itemHash, toFetch := hash0, toFetch0;
      var i := 0;
      while i < |mRemoteChangedItems|
        invariant 0 <= i <= |mRemoteChangedItems|
        invariant AllFound(hash0.Keys, mRemoteChangedItems[..i])
        invariant mTagsSynced || forall j :: 0 <= j < i ==> !mRemoteChangedItems[j].missingTags
        invariant LocalHash(itemHash) && itemHash.Keys == hash0.Keys - ServerIds(mRemoteChangedItems[..i])
        invariant Ids(Handled(toFetch, handlers, UNKNOWN))
               == Ids(Handled(toFetch0, handlers, UNKNOWN)) + HandledIds(mRemoteChangedItems[..i], handlers)
        invariant AllHaveRevision(Handled(toFetch, handlers, UNKNOWN), mRemoteAddedItems, mRemoteChangedItems)
        invariant AddedOnce(mRemoteAddedItems) ==> AllAsLocal(Handled(toFetch, handlers, UNKNOWN), mLocalItems)
      {
        var ewsItem := mRemoteChangedItems[i];
        var id := ewsItem.id.id;
        AllFoundNext(hash0.Keys, mRemoteChangedItems, i);
        if id !in itemHash {
          forall j | i <= j < |mRemoteChangedItems|
            ensures !UntaggedAt(hash0.Keys, mRemoteChangedItems, j)
          {
            StopsAt(hash0.Keys, mRemoteChangedItems, i, j);
          }
          return itemHash, toFetch, Missing;
        }
        if !TagsReadable(ewsItem) {
          assert UntaggedAt(hash0.Keys, mRemoteChangedItems, i);
          return itemHash, toFetch, Restart;
        }
        var item := itemHash[id].(revision := ewsItem.id.changeKey);
        MergeStep(mRemoteChangedItems, i, handlers, toFetch, item);
        AddRevision(toFetch, handlers, ewsItem, item, mRemoteAddedItems, mRemoteChangedItems);
        if AddedOnce(mRemoteAddedItems) {
          HashIsLocal(itemHash, id);
          IsAsLocal(itemHash, id, item);
          AddAsLocal(toFetch, handlers, ewsItem.kind, item, mLocalItems);
        }
        toFetch := AddTo(toFetch, ewsItem.kind, item);
        itemHash := itemHash - {id};
        i := i + 1;
      }
      assert mRemoteChangedItems[..i] == mRemoteChangedItems;
      step := Go;
    }

    /** Whether it is no error that a deleted item is not known locally. */
    predicate Tolerated(id: EwsId) {
      id in mItemsToCheck || id.id in mQueuedDeletions
    }

    method MergeDeleted(itemHash: Hash) returns (ok: bool)
      requires LocalHash(itemHash)
      modifies this`mDeletedItems
      ensures ok <==> forall d :: d in mRemoteDeletedIds ==> d.id in itemHash || Tolerated(d)
      ensures ok ==> Ids(mDeletedItems) == Ids(old(mDeletedItems)) + DeletedIds(mRemoteDeletedIds) * itemHash.Keys
    {
      var i := 0;
      while i < |mRemoteDeletedIds|
        invariant 0 <= i <= |mRemoteDeletedIds|
        invariant forall d :: d in mRemoteDeletedIds[..i] ==> d.id in itemHash || Tolerated(d)
        invariant Ids(mDeletedItems) == Ids(old(mDeletedItems)) + DeletedIds(mRemoteDeletedIds[..i]) * itemHash.Keys
      {
        var id := mRemoteDeletedIds[i];
        DeletedIdsNext(mRemoteDeletedIds, i);
        if id.id !in itemHash {
          if !Tolerated(id) {
            assert id in mRemoteDeletedIds;
            return false;
          }
        } else {
          IdsAppend(mDeletedItems, itemHash[id.id]);
          mDeletedItems := mDeletedItems + [itemHash[id.id]];
        }
        i := i + 1;
      }
      assert mRemoteDeletedIds[..i] == mRemoteDeletedIds;
      ok := true;
    }

    /** Read-flag changes are applied at once, in whatever order the hash yields them. */
    method MergeFlags(hash0: Hash) returns (ok: bool)
      requires LocalHash(hash0)
      modifies this`mChangedItems
      ensures ok <==> FlagsFound(hash0.Keys, mRemoteFlagChangedIds.Keys)
      ensures ok ==> Ids(mChangedItems) == Ids(old(mChangedItems)) + FlagIds(mRemoteFlagChangedIds.Keys)
      ensures ok ==> forall f :: f in mRemoteFlagChangedIds ==>
                exists x :: x in mChangedItems && x.rid == f.id && x.seen == mRemoteFlagChangedIds[f]
      ensures ok ==> forall x :: x in mChangedItems ==>
                x in old(mChangedItems) || (x.rid in hash0 && HasFlag(x, mRemoteFlagChangedIds, mLocalItems))
    {
      var itemHash := hash0;
      var todo, done := mRemoteFlagChangedIds.Keys, {};
      while todo != {}
        invariant todo + done == mRemoteFlagChangedIds.Keys && todo !! done
        invariant LocalHash(itemHash) && itemHash.Keys == hash0.Keys - FlagIds(done) && FlagsFound(hash0.Keys, done)
        invariant Ids(mChangedItems) == Ids(old(mChangedItems)) + FlagIds(done)
        invariant forall f :: f in done ==> exists x ::
                x in mChangedItems && x.rid == f.id && x.seen == mRemoteFlagChangedIds[f]
        invariant forall x :: x in mChangedItems ==>
                    x in old(mChangedItems) || (x.rid in hash0 && HasFlag(x, mRemoteFlagChangedIds, mLocalItems))
      {
        var f :| f in todo;
        FlagsNext(hash0.Keys, mRemoteFlagChangedIds.Keys, done, f);
        if f.id !in itemHash {
          return false;
        }
        var item := itemHash[f.id].(seen := mRemoteFlagChangedIds[f]);
        assert HasFlag(item, mRemoteFlagChangedIds, mLocalItems) by {
          assert itemHash[f.id] == item.(seen := itemHash[f.id].seen);
        }
        IdsAppend(mChangedItems, item);
        ghost var before := mChangedItems;
        mChangedItems := mChangedItems + [item];
        assert item in mChangedItems && forall x :: x in before ==> x in mChangedItems;
        itemHash := itemHash - {f.id};
        todo, done := todo - {f}, done + {f};
      }
      assert done == mRemoteFlagChangedIds.Keys;
      ok := true;
    }
  }
}
