/**
 The item retrieval of the resource: the incremental synchronisation of a folder, and the full one
 that is started with an empty sync state when the incremental one fails.
 */
module ItemResource {
  import opened Common
  import opened ItemSync

  ghost predicate FaithfulChange(c: Change, oldIds: set<Id>, newIds: set<Id>, handlers: set<Kind>) {
    match c
    case Create(x) => x.id.id in newIds - oldIds && x.kind != UNKNOWN && x.kind in handlers
    case Update(x) => x.id.id in oldIds * newIds
    case Delete(d) => d.id in oldIds - newIds
    case ReadFlagChange(f, _) => f.id in oldIds * newIds
    case Other => true
  }

  function ChangedId(c: Change): Id
    requires !c.Other?
  {
    match c
    case Create(x) => x.id.id
    case Update(x) => x.id.id
    case Delete(d) => d.id
    case ReadFlagChange(f, _) => f.id
  }

  ghost predicate OneChangeEach(s: seq<Change>) {
    forall i, j :: 0 <= i < j < |s| && !s[i].Other? && !s[j].Other? ==> ChangedId(s[i]) != ChangedId(s[j])
  }

  /** The server reports the way from the items `oldIds` to the items `newIds`, with one change per item. */
  ghost predicate Faithful(s: seq<Change>, oldIds: set<Id>, newIds: set<Id>, handlers: set<Kind>) {
    && (forall i :: 0 <= i < |s| ==> FaithfulChange(s[i], oldIds, newIds, handlers))
    && OneChangeEach(s)
    && (forall k :: k in newIds - oldIds ==> exists i :: 0 <= i < |s| && s[i].Create? && s[i].item.id.id == k)
    && (forall k :: k in oldIds - newIds ==> exists i :: 0 <= i < |s| && s[i].Delete? && s[i].id.id == k)
  }

  /**
   The answers about checked items. The question names no folder: an item that is not found is in no folder, but one
   that is found may be in any folder.
   */
  ghost predicate Truthful(toCheck: seq<EwsId>, checks: seq<Check>, newIds: set<Id>) {
    && |checks| == |toCheck|
    && (forall j :: 0 <= j < |checks| && checks[j].NotFound? ==> toCheck[j].id !in newIds)
  }

  /**
   The local items are the old ones, short of own deletions that are still queued, and with own creations that the
   server will report; and with others that are not in the folder.
   */
  ghost predicate InStep(local: set<Id>, oldIds: set<Id>, newIds: set<Id>, queued: set<Id>) {
    oldIds * newIds <= local && oldIds - newIds <= local + queued
  }

  /** The items that have been found, in whatever folder, as far as their type is known. */
  ghost function FoundIds(checks: seq<Check>): set<Id> {
    set j | 0 <= j < |checks| && checks[j].Found? && checks[j].item.kind != UNKNOWN :: checks[j].item.id.id
  }

  /** Those of them that can be stored. */
  ghost function StoredIds(checks: seq<Check>, handlers: set<Kind>): set<Id> {
    set j | 0 <= j < |checks| && checks[j].Found? && checks[j].item.kind in handlers - {UNKNOWN} :: checks[j].item.id.id
  }

  /** The items that have been checked and are nowhere. */
  ghost function MissingIds(toCheck: seq<EwsId>, checks: seq<Check>): set<Id> {
    set j | 0 <= j < |checks| && j < |toCheck| && checks[j].NotFound? :: toCheck[j].id
  }

  /** What a retrieval leaves beside the items of the folder: found items that are stored or were local already. */
  ghost function Taken(local: set<Id>, checks: seq<Check>, handlers: set<Kind>): set<Id> {
    StoredIds(checks, handlers) + FoundIds(checks) * local
  }

  /** Local items that are not in the folder and not known to be nowhere. */
  ghost function Strays(local: set<Id>, oldIds: set<Id>, newIds: set<Id>, toCheck: seq<EwsId>, checks: seq<Check>)
    : set<Id>
  {
    local - oldIds - newIds - MissingIds(toCheck, checks)
  }

  /** The lists of the job after the whole first stage. */
  datatype Lists = Lists(added: seq<EwsItem>, changed: seq<EwsItem>, deleted: seq<EwsId>, flags: map<EwsId, bool>)

  ghost predicate Sorted(l: Lists, s: seq<Change>, toCheck: seq<EwsId>, checks: seq<Check>) {
    && l.changed == Updates(s) && l.flags == FlagChanges(s)
    && (forall x :: x in l.added <==> Create(x) in s || Found(x) in checks)
    && (forall d :: d in l.deleted <==> Delete(d) in s || NotFoundAt(toCheck, checks, d))
  }

  /** The entries of the update list are the updates, each item once. */
  lemma {:induction false} UpdatesAre(s: seq<Change>)
    ensures forall x :: x in Updates(s) <==> Update(x) in s
    ensures OneChangeEach(s) ==> forall i, j :: 0 <= i < j < |Updates(s)| ==> Updates(s)[i].id.id != Updates(s)[j].id.id
  {
    if s != [] {
      var n := |s| - 1;
      var init := s[..n];
      UpdatesAre(init);
      assert s == init + [s[n]];
      assert forall i :: 0 <= i < n ==> init[i] == s[i];
      if s[n].Update? && OneChangeEach(s) {
        forall i | 0 <= i < |Updates(init)|
          ensures Updates(init)[i].id.id != s[n].item.id.id
        {
          assert Updates(init)[i] in Updates(init);
          var j :| 0 <= j < n && init[j] == Update(Updates(init)[i]);
        }
      }
    }
  }

  ghost predicate HasFlagChange(s: seq<Change>, f: EwsId) {
    ReadFlagChange(f, true) in s || ReadFlagChange(f, false) in s
  }

  /** The keys of the flag changes are those reported. */
  lemma {:induction false} FlagChangesAre(s: seq<Change>)
    ensures forall f :: f in FlagChanges(s) <==> HasFlagChange(s, f)
  {
    if s != [] {
      var n := |s| - 1;
      FlagChangesAre(s[..n]);
      assert s == s[..n] + [s[n]];
    }
  }

  /** Two reported changes of one item are the same change. */
  lemma SameChange(s: seq<Change>, c: Change, d: Change)
    requires OneChangeEach(s) && c in s && d in s && !c.Other? && !d.Other? && ChangedId(c) == ChangedId(d)
    ensures c == d
  {
    var i :| 0 <= i < |s| && s[i] == c;
    var j :| 0 <= j < |s| && s[j] == d;
    assert !(i < j) && !(j < i);
  }

  /** What the lists say about one item, in terms of the two states of the server and of the answers. */
  ghost predicate Told(k: Id, l: Lists, oldIds: set<Id>, newIds: set<Id>, found: set<Id>, missing: set<Id>) {
    && (k in (newIds - oldIds) + found <==> k in KnownIds(l.added))
    && (k in ServerIds(l.changed) ==> k in oldIds * newIds && k !in FlagIds(l.flags.Keys))
    && (k in FlagIds(l.flags.Keys) ==> k in oldIds * newIds)
    && (k in (oldIds - newIds) + missing <==> k in DeletedIds(l.deleted))
    && k !in missing * newIds
  }

  lemma AddedTold(l: Lists, s: seq<Change>, toCheck: seq<EwsId>, checks: seq<Check>,
                  oldIds: set<Id>, newIds: set<Id>, handlers: set<Kind>, k: Id)
    requires Sorted(l, s, toCheck, checks) && Faithful(s, oldIds, newIds, handlers)
    ensures k in (newIds - oldIds) + FoundIds(checks) <==> k in KnownIds(l.added)
    ensures k in (newIds - oldIds) + StoredIds(checks, handlers) <==> k in HandledIds(l.added, handlers)
  {
    hide OneChangeEach, Updates, FlagChanges;
    if k in newIds - oldIds {
      var i :| 0 <= i < |s| && s[i].Create? && s[i].item.id.id == k;
      assert s[i] in s && s[i].item in l.added;
      assert FaithfulChange(s[i], oldIds, newIds, handlers);
    }
    forall j | 0 <= j < |checks| && checks[j].Found?
      ensures checks[j].item in l.added
    {
      assert checks[j] == Found(checks[j].item);
    }
    forall x | x in l.added && x.kind != UNKNOWN && x.id.id == k
      ensures || k in newIds - oldIds
              || (k in FoundIds(checks) && (x.kind in handlers ==> k in StoredIds(checks, handlers)))
    {
      if Create(x) in s {
        var i :| 0 <= i < |s| && s[i] == Create(x);
        assert FaithfulChange(s[i], oldIds, newIds, handlers);
      } else {
        var j :| 0 <= j < |checks| && checks[j] == Found(x);
      }
    }
  }

  lemma DeletedTold(l: Lists, s: seq<Change>, toCheck: seq<EwsId>, checks: seq<Check>,
                    oldIds: set<Id>, newIds: set<Id>, handlers: set<Kind>, k: Id)
    requires Sorted(l, s, toCheck, checks) && Faithful(s, oldIds, newIds, handlers)
            && Truthful(toCheck, checks, newIds)
    ensures k in (oldIds - newIds) + MissingIds(toCheck, checks) <==> k in DeletedIds(l.deleted)
    ensures k !in MissingIds(toCheck, checks) * newIds
  {
    hide OneChangeEach, Updates, FlagChanges;
    if k in oldIds - newIds {
      var i :| 0 <= i < |s| && s[i].Delete? && s[i].id.id == k;
      assert s[i] == Delete(s[i].id) && s[i] in s && s[i].id in l.deleted;
    }
    if k in MissingIds(toCheck, checks) {
      var j :| 0 <= j < |checks| && j < |toCheck| && checks[j] == NotFound && toCheck[j].id == k;
      assert NotFoundAt(toCheck, checks, toCheck[j]);
    }
    if k in DeletedIds(l.deleted) {
      var d :| d in l.deleted && d.id == k;
      if Delete(d) in s {
        var i :| 0 <= i < |s| && s[i] == Delete(d);
        assert FaithfulChange(s[i], oldIds, newIds, handlers);
      } else {
        var j :| 0 <= j < |checks| && j < |toCheck| && checks[j] == NotFound && toCheck[j] == d;
      }
    }
  }

  lemma MemberFaithful(s: seq<Change>, oldIds: set<Id>, newIds: set<Id>, handlers: set<Kind>, c: Change)
    requires Faithful(s, oldIds, newIds, handlers) && c in s
    ensures FaithfulChange(c, oldIds, newIds, handlers)
  {
    var i :| 0 <= i < |s| && s[i] == c;
    assert FaithfulChange(s[i], oldIds, newIds, handlers);
  }

  lemma ChangedTold(l: Lists, s: seq<Change>, toCheck: seq<EwsId>, checks: seq<Check>,
                    oldIds: set<Id>, newIds: set<Id>, handlers: set<Kind>, k: Id)
    requires Sorted(l, s, toCheck, checks) && Faithful(s, oldIds, newIds, handlers)
    ensures k in ServerIds(l.changed) ==> k in oldIds * newIds && k !in FlagIds(l.flags.Keys)
    ensures k in FlagIds(l.flags.Keys) ==> k in oldIds * newIds
  {
    UpdatesAre(s);
    FlagChangesAre(s);
    hide Updates, FlagChanges;
    if k in FlagIds(l.flags.Keys) {
      var f :| f in l.flags && f.id == k;
      var c := if ReadFlagChange(f, true) in s then ReadFlagChange(f, true) else ReadFlagChange(f, false);
      MemberFaithful(s, oldIds, newIds, handlers, c);
      if k in ServerIds(l.changed) {
        var x :| x in l.changed && x.id.id == k;
        SameChange(s, Update(x), c);
      }
    }
    if k in ServerIds(l.changed) {
      var x :| x in l.changed && x.id.id == k;
      MemberFaithful(s, oldIds, newIds, handlers, Update(x));
    }
  }

  lemma ListsTell(l: Lists, s: seq<Change>, toCheck: seq<EwsId>, checks: seq<Check>,
                  oldIds: set<Id>, newIds: set<Id>, handlers: set<Kind>, k: Id)
    requires Sorted(l, s, toCheck, checks) && Faithful(s, oldIds, newIds, handlers)
            && Truthful(toCheck, checks, newIds)
    ensures Told(k, l, oldIds, newIds, FoundIds(checks), MissingIds(toCheck, checks))
    ensures k in (newIds - oldIds) + StoredIds(checks, handlers) <==> k in HandledIds(l.added, handlers)
  {
    AddedTold(l, s, toCheck, checks, oldIds, newIds, handlers, k);
    DeletedTold(l, s, toCheck, checks, oldIds, newIds, handlers, k);
    ChangedTold(l, s, toCheck, checks, oldIds, newIds, handlers, k);
    hide Sorted, Faithful, Truthful;
  }

  /**
   An item that was checked and found is also reported as changed, or as deleted while it was neither checked under
   that very key nor deleted by the resource itself.
   */
  ghost predicate FoundAndReported(l: Lists, toCheck: seq<EwsId>, queued: set<Id>) {
    || !(KnownIds(l.added) !! ServerIds(l.changed) + FlagIds(l.flags.Keys))
    || exists d :: d in l.deleted && d.id in KnownIds(l.added) && d !in toCheck && d.id !in queued
  }

  /** The lists fit the local items, so that the comparison finds no error. */
  ghost predicate Fits(l: Lists, local: set<Id>, toCheck: seq<EwsId>, queued: set<Id>) {
    var left := local - KnownIds(l.added);
    var rest := left - ServerIds(l.changed);
    && AllFound(left, l.changed)
    && (forall d :: d in l.deleted ==> d.id in rest || d in toCheck || d.id in queued)
    && FlagsFound(rest, l.flags.Keys)
  }

  /** Local items in step with the server fit exactly if no found item is reported as changed or deleted. */
  lemma FitsExactly(l: Lists, local: set<Id>, s: seq<Change>, toCheck: seq<EwsId>, checks: seq<Check>,
                    oldIds: set<Id>, newIds: set<Id>, handlers: set<Kind>, queued: set<Id>)
    requires Sorted(l, s, toCheck, checks) && Faithful(s, oldIds, newIds, handlers)
            && Truthful(toCheck, checks, newIds)
    requires InStep(local, oldIds, newIds, queued)
    ensures Fits(l, local, toCheck, queued) <==> !FoundAndReported(l, toCheck, queued)
  {
    ListsDistinct(l, s, toCheck, checks);
    forall k
      ensures Told(k, l, oldIds, newIds, FoundIds(checks), MissingIds(toCheck, checks))
    {
      ListsTell(l, s, toCheck, checks, oldIds, newIds, handlers, k);
    }
    forall d | d in l.deleted && d !in toCheck
      ensures d.id in oldIds - newIds
    {
      assert Delete(d) in s;
      MemberFaithful(s, oldIds, newIds, handlers, Delete(d));
    }
    ToldFits(l, local, toCheck, oldIds, newIds, FoundIds(checks), MissingIds(toCheck, checks), queued);
  }

  lemma ListsDistinct(l: Lists, s: seq<Change>, toCheck: seq<EwsId>, checks: seq<Check>)
    requires Sorted(l, s, toCheck, checks) && OneChangeEach(s)
    ensures forall i, j :: 0 <= i < j < |l.changed| ==> l.changed[i].id.id != l.changed[j].id.id
    ensures forall f, g :: f in l.flags && g in l.flags && f != g ==> f.id != g.id
  {
    UpdatesAre(s);
    FlagChangesAre(s);
    forall f, g | f in l.flags && g in l.flags && f != g
      ensures f.id != g.id
    {
      var c := if ReadFlagChange(f, true) in s then ReadFlagChange(f, true) else ReadFlagChange(f, false);
      var d := if ReadFlagChange(g, true) in s then ReadFlagChange(g, true) else ReadFlagChange(g, false);
      if f.id == g.id {
        SameChange(s, c, d);
      }
    }
  }

  lemma ToldFits(l: Lists, local: set<Id>, toCheck: seq<EwsId>, oldIds: set<Id>, newIds: set<Id>, found: set<Id>,
                 missing: set<Id>, queued: set<Id>)
    requires forall k :: Told(k, l, oldIds, newIds, found, missing)
    requires forall i, j :: 0 <= i < j < |l.changed| ==> l.changed[i].id.id != l.changed[j].id.id
    requires forall f, g :: f in l.flags && g in l.flags && f != g ==> f.id != g.id
    requires forall d :: d in l.deleted && d !in toCheck ==> d.id in oldIds - newIds
    requires InStep(local, oldIds, newIds, queued)
    ensures Fits(l, local, toCheck, queued) <==> !FoundAndReported(l, toCheck, queued)
  {
    var left := local - KnownIds(l.added);
    var rest := left - ServerIds(l.changed);
    forall x | x in l.changed
      ensures x.id.id in left <==> x.id.id !in KnownIds(l.added)
    {
      assert Told(x.id.id, l, oldIds, newIds, found, missing);
      assert x.id.id in ServerIds(l.changed);
    }
    forall f | f in l.flags
      ensures f.id in rest <==> f.id !in KnownIds(l.added)
    {
      assert Told(f.id, l, oldIds, newIds, found, missing);
      assert f.id in FlagIds(l.flags.Keys);
    }
    forall d | d in l.deleted && d !in toCheck && d.id !in queued
      ensures d.id in rest <==> d.id !in KnownIds(l.added)
    {
      assert Told(d.id, l, oldIds, newIds, found, missing);
    }
    FitsParts(l, left, rest, toCheck, queued);
  }

  lemma FitsParts(l: Lists, left: set<Id>, rest: set<Id>, toCheck: seq<EwsId>, queued: set<Id>)
    requires forall i, j :: 0 <= i < j < |l.changed| ==> l.changed[i].id.id != l.changed[j].id.id
    requires forall f, g :: f in l.flags && g in l.flags && f != g ==> f.id != g.id
    requires forall x :: x in l.changed ==> (x.id.id in left <==> x.id.id !in KnownIds(l.added))
    requires forall f :: f in l.flags ==> (f.id in rest <==> f.id !in KnownIds(l.added))
    requires forall d :: d in l.deleted && d !in toCheck && d.id !in queued ==>
                           (d.id in rest <==> d.id !in KnownIds(l.added))
    requires forall d :: d in l.deleted && d.id in rest ==> d.id !in KnownIds(l.added)
    ensures && AllFound(left, l.changed)
            && (forall d :: d in l.deleted ==> d.id in rest || d in toCheck || d.id in queued)
            && FlagsFound(rest, l.flags.Keys)
            <==> !FoundAndReported(l, toCheck, queued)
  {
    hide KnownIds;
    if KnownIds(l.added) !! ServerIds(l.changed) + FlagIds(l.flags.Keys) {
      forall i | 0 <= i < |l.changed|
        ensures l.changed[i].id.id in left
      {
        assert l.changed[i] in l.changed;
        assert l.changed[i].id.id in ServerIds(l.changed);
      }
      assert forall f :: f in l.flags ==> f.id in FlagIds(l.flags.Keys);
    } else {
      var k :| k in KnownIds(l.added) && k in ServerIds(l.changed) + FlagIds(l.flags.Keys);
      if k in ServerIds(l.changed) {
        var x :| x in l.changed && x.id.id == k;
        var i :| 0 <= i < |l.changed| && l.changed[i] == x;
      }
    }
  }

  /** An item that is checked, found and reported as changed: the lists do not fit. */
  lemma FoundAndChangedDoesNotFit(l: Lists)
    requires var x := EwsItem(EwsId(7, 0), 0, false); Sorted(l, [Update(x)], [EwsId(7, 0)], [Found(x)])
    ensures var x := EwsItem(EwsId(7, 0), 0, false);
            && Faithful([Update(x)], {7}, {7}, {0}) && Truthful([EwsId(7, 0)], [Found(x)], {7})
            && InStep({7}, {7}, {7}, {}) && !Fits(l, {7}, [EwsId(7, 0)], {})
  {
    var x := EwsItem(EwsId(7, 0), 0, false);
    assert Found(x) in [Found(x)] && x in l.added;
    UpdatesAre([Update(x)]);
    assert Update(x) in [Update(x)] && x in l.changed;
    assert 7 in KnownIds(l.added) && 7 in ServerIds(l.changed);
    FitsExactly(l, {7}, [Update(x)], [EwsId(7, 0)], [Found(x)], {7}, {7}, {0}, {});
  }

  /**
   What the incremental comparison reports turns the local items into those of the server, together with found items
   and with those strays that are not known to be nowhere.
   */
  lemma IncrementalGivesServer(l: Lists, local: set<Id>, oldIds: set<Id>, newIds: set<Id>, found: set<Id>,
                               stored: set<Id>, missing: set<Id>, queued: set<Id>, handlers: set<Kind>)
    requires forall k :: Told(k, l, oldIds, newIds, found, missing)
    requires forall k :: k in (newIds - oldIds) + stored <==> k in HandledIds(l.added, handlers)
    requires HandledIds(l.changed, handlers) <= ServerIds(l.changed)
    requires InStep(local, oldIds, newIds, queued) && stored <= found
    ensures local + (HandledIds(l.added, handlers) + HandledIds(l.changed, handlers) + FlagIds(l.flags.Keys))
            - DeletedIds(l.deleted) * (local - KnownIds(l.added) - ServerIds(l.changed))
         == newIds + (stored + found * local) + (local - oldIds - newIds - missing)
  {
    var result := local + (HandledIds(l.added, handlers) + HandledIds(l.changed, handlers) + FlagIds(l.flags.Keys))
                  - DeletedIds(l.deleted) * (local - KnownIds(l.added) - ServerIds(l.changed));
    forall k
      ensures k in result <==> k in newIds + (stored + found * local) + (local - oldIds - newIds - missing)
    {
      assert Told(k, l, oldIds, newIds, found, missing);
    }
  }

  /** What the full comparison reports does so from any local items at all, and leaves no strays. */
  lemma FullGivesServer(l: Lists, local: set<Id>, newIds: set<Id>, found: set<Id>, stored: set<Id>, missing: set<Id>,
                        handlers: set<Kind>)
    requires forall k :: Told(k, l, {}, newIds, found, missing)
    requires (forall k :: k in newIds + stored <==> k in HandledIds(l.added, handlers)) && stored <= found
    ensures local + HandledIds(l.added, handlers) - (local - KnownIds(l.added)) == newIds + (stored + found * local)
  {
    var result := local + HandledIds(l.added, handlers) - (local - KnownIds(l.added));
    forall k
      ensures k in result <==> k in newIds + (stored + found * local)
    {
      assert Told(k, l, {}, newIds, found, missing);
    }
  }

  /** The local items are those of the server exactly if every found item that is taken is in the folder. */
  lemma ExactIfFoundHere(newIds: set<Id>, local: set<Id>, checks: seq<Check>, handlers: set<Kind>, strays: set<Id>)
    requires strays !! newIds
    ensures newIds + Taken(local, checks, handlers) + strays == newIds <==>
            && strays == {}
            && forall j :: 0 <= j < |checks| && IsTaken(local, checks[j], handlers) ==> checks[j].item.id.id in newIds
  {
    forall k
      ensures k in Taken(local, checks, handlers) <==>
              exists j :: 0 <= j < |checks| && IsTaken(local, checks[j], handlers) && checks[j].item.id.id == k
    {
    }
    hide Taken;
    var all := newIds + Taken(local, checks, handlers) + strays;
    if all == newIds {
      forall j | 0 <= j < |checks| && IsTaken(local, checks[j], handlers)
        ensures checks[j].item.id.id in newIds
      {
        assert checks[j].item.id.id in Taken(local, checks, handlers);
        assert checks[j].item.id.id in all;
      }
      assert forall k :: k in strays ==> k in all;
    }
  }

  /** The item is found, and it can be stored or was local already. */
  predicate IsTaken(local: set<Id>, c: Check, handlers: set<Kind>) {
    c.Found? && c.item.kind != UNKNOWN && (c.item.kind in handlers || c.item.id.id in local)
  }

  /**
   After a failed move the item is checked in the destination, too: it is found, where it still is, and the
   destination takes it in without an error.
   */
  lemma StrayIsTakenIn(l: Lists)
    requires Sorted(l, [], [EwsId(7, 0)], [Found(EwsItem(EwsId(7, 0), 0, false))])
    ensures var checks := [Found(EwsItem(EwsId(7, 0), 0, false))];
            && Faithful([], {}, {}, {0}) && Truthful([EwsId(7, 0)], checks, {}) && InStep({}, {}, {}, {})
            && Fits(l, {}, [EwsId(7, 0)], {}) && HandledIds(l.added, {0}) == {7}
            && Taken({}, checks, {0}) == {7} && !FoundAndReported(l, [EwsId(7, 0)], {})
  {
    var checks := [Found(EwsItem(EwsId(7, 0), 0, false))];
    UpdatesAre([]);
    FlagChangesAre([]);
    assert checks[0] in checks && checks[0].item in l.added;
    forall x | x in l.added
      ensures x == checks[0].item
    {
      assert Create(x) !in [];
      assert Found(x) in checks;
    }
    assert 7 in StoredIds(checks, {0});
    FitsExactly(l, {}, [], [EwsId(7, 0)], checks, {}, {}, {0}, {});
  }

  ghost function ListsOf(job: EwsFetchItemsJob): Lists
    reads job
  {
    Lists(job.mRemoteAddedItems, job.mRemoteChangedItems, job.mRemoteDeletedIds, job.mRemoteFlagChangedIds)
  }

  /**
   What an item carries after a retrieval: the revision from the lists if it was fetched, and what it has carried before
   otherwise; the new flag if only that was reported; and else what it has carried before.
   */
  ghost predicate Carries(k: Id, after: Hash, before: Hash, l: Lists, full: bool, handlers: set<Kind>)
    requires k in after
  {
    var changed := if full then [] else l.changed;
    if k in HandledIds(l.added, handlers) + HandledIds(changed, handlers) then
      && HasRevision(after[k], l.added, changed)
      && (AddedOnce(l.added) ==>
            if k in before then after[k] == before[k].(revision := after[k].revision) else !after[k].seen)
    else if !full && k in FlagIds(l.flags.Keys) then
      && k in before && after[k].revision == before[k].revision
      && exists f :: f in l.flags && f.id == k && l.flags[f] == after[k].seen
    else k in before && after[k] == before[k]
  }

  /** Storing the changed items puts them in the place of those before, and leaves the others alone. */
  ghost predicate Stored(after: Hash, before: Hash, changed: seq<Item>) {
    forall k :: k in after ==> if k in Ids(changed) then after[k] in changed else k in before && after[k] == before[k]
  }

  lemma AllCarry(job: EwsFetchItemsJob, after: Hash, before: Hash)
    requires HashOk(after) && Stored(after, before, job.mChangedItems)
    requires Ids(job.mLocalItems) == before.Keys
    requires forall y :: y in job.mLocalItems ==> y.rid in before && before[y.rid] == y
    requires job.AllNewest() && Ids(job.mChangedItems) == job.DueChanged()
    ensures forall k :: k in after ==> Carries(k, after, before, ListsOf(job), job.mFullSync, job.handlers)
  {
    hide HasRevision, Ids, FlagIds, HandledIds;
    NoneHandled(job.handlers);
    forall k | k in after
      ensures Carries(k, after, before, ListsOf(job), job.mFullSync, job.handlers)
    {
      if k in Ids(job.mChangedItems) {
        assert job.Newest(after[k]);
      }
    }
  }

  lemma NoneHandled(handlers: set<Kind>)
    ensures HandledIds([], handlers) == {}
  {
  }

  class EwsResource {
    const handlers: set<Kind>
    /** The local items of the folder. */
    var mLocal: Hash
    /** Whether a sync state of the folder is held. */
    var mSyncState: bool
    /** Own deletions that the server has not reported back yet. */
    var mQueuedUpdates: set<Id>
    var mItemsToCheck: seq<EwsId>

    constructor (handlers: set<Kind>)
      ensures this.handlers == handlers && mLocal == map[] && !mSyncState && mQueuedUpdates == {} && mItemsToCheck == []
    {
      this.handlers := handlers;
      mLocal, mSyncState, mQueuedUpdates, mItemsToCheck := map[], false, {}, [];
    }

    /** An item deleted or moved away by the resource itself: it is gone, and its report is expected. */
    method ItemGone(id: Id)
      modifies this`mLocal, this`mQueuedUpdates
      ensures mLocal == old(mLocal) - {id} && mQueuedUpdates == old(mQueuedUpdates) + {id}
      ensures forall oldIds, newIds ::
                id in oldIds - newIds && InStep(old(mLocal).Keys, oldIds, newIds, old(mQueuedUpdates))
                ==> InStep(mLocal.Keys, oldIds, newIds, mQueuedUpdates)
    {
      mLocal, mQueuedUpdates := mLocal - {id}, mQueuedUpdates + {id};
    }

    method LocalItems() returns (items: seq<Item>)
      requires HashOk(mLocal)
      ensures Ids(items) == mLocal.Keys && forall y :: y in items ==> y.rid in mLocal && mLocal[y.rid] == y
    {
      items := [];
      var todo := mLocal.Keys;
      while todo != {}
        invariant todo <= mLocal.Keys && Ids(items) == mLocal.Keys - todo
        invariant forall y :: y in items ==> y.rid in mLocal && mLocal[y.rid] == y
      {
        var k :| k in todo;
        IdsAppend(items, mLocal[k]);
        items := items + [mLocal[k]];
        todo := todo - {k};
      }
    }

    /**
     The first stage with every request answered: pages of any size, empty ones too, the local items and
     the checked items arrive in any order.
     */
    method FirstStage(job: EwsFetchItemsJob, items: seq<Item>, changes: seq<Change>, responses: seq<Check>)
      requires job.Stage1() && !job.remoteDone && !job.localDone && job.checkDone == (job.mItemsToCheck == [])
      requires job.pages == [] && job.checks == [] && |responses| == |job.mItemsToCheck|
      modifies job
      ensures job.mLocalItems == items && Sorted(ListsOf(job), changes, job.mItemsToCheck, responses)
      ensures job.Decided()
    {
      var remote, local, check, rest := true, true, job.mItemsToCheck != [], changes;
      var empty: nat := *;
      while remote || local || check
        invariant remote == !job.remoteDone && local == !job.localDone && check == !job.checkDone
        invariant job.pages + rest == changes && (!remote ==> rest == [])
        invariant (!local ==> job.mLocalItems == items) && (!check ==> job.checks == responses)
        invariant if remote || local || check then job.Stage1()
                  else job.Collected() && job.Decided()
        decreases remote, |rest| + empty, local, check
      {
        if
        case remote =>
          var n, last :| 0 <= n <= |rest| && (last ==> n == |rest|) && (n == 0 && !last ==> empty > 0);
          empty := if n == 0 && !last then empty - 1 else empty;
          remote := job.RemoteItemFetchDone(false, rest[..n], last);
          rest := rest[n..];
        case local =>
          job.LocalItemFetchDone(false, items);
          local := false;
        case check =>
          job.CheckedItemsFetchFinished(false, responses);
          check := false;
      }
      assert job.pages + rest == job.pages;
    }

    /** The job from its start to its result. */
    method RunJob(job: EwsFetchItemsJob, items: seq<Item>, changes: seq<Change>, responses: seq<Check>)
      requires job.Undecided() && !job.mTagsSynced && job.mRemoteAddedItems == [] && job.mRemoteChangedItems == []
      requires job.mRemoteDeletedIds == [] && job.mRemoteFlagChangedIds == map[] && |responses| == |job.mItemsToCheck|
      modifies job
      ensures job.mLocalItems == items && Sorted(ListsOf(job), changes, job.mItemsToCheck, responses)
      ensures job.mResults == 1 && job.mError == job.OutOfSync()
      ensures !job.mError ==> Ids(job.mChangedItems) == job.DueChanged() && Ids(job.mDeletedItems) == job.DueDeleted()
      ensures !job.mError ==> job.AllNewest()
      ensures job.mTagsSynced == job.NeedsTags()
    {
      hide Ids, Sorted, EwsFetchItemsJob.AllNewest, EwsFetchItemsJob.NeedsTags, EwsFetchItemsJob.OutOfSync,
           EwsFetchItemsJob.DueChanged, EwsFetchItemsJob.DueDeleted;
      IdsNothing();
      job.Start();
      FirstStage(job, items, changes, responses);
      if job.mTagSyncRunning {
        job.TagSyncFinished(false);
      }
      while job.mDetailJobs != []
        invariant job.mLocalItems == items && Sorted(ListsOf(job), changes, job.mItemsToCheck, responses)
        invariant job.mError == job.OutOfSync() && (job.mError ==> job.mDetailJobs == [])
        invariant !job.mError ==> Ids(job.mDeletedItems) == job.DueDeleted() && job.AllNewest()
        invariant !job.mError ==> Ids(job.mChangedItems) + Ids(Flatten(job.mDetailJobs)) == job.DueChanged()
        invariant job.mResults == if job.mDetailJobs == [] then 1 else 0
        invariant job.mTagsSynced == job.NeedsTags()
        decreases |job.mDetailJobs|
      {
        IdsConcat(job.mChangedItems, job.mDetailJobs[0]);
        IdsConcat(job.mDetailJobs[0], Flatten(job.mDetailJobs[1..]));
        job.ItemDetailFetchDone(false);
      }
      IdsNothing();
    }

    /** Changed items are stored, deleted ones removed. */
    method ItemsRetrievedIncremental(changed: seq<Item>, deleted: seq<Item>)
      requires HashOk(mLocal)
      modifies this`mLocal
      ensures HashOk(mLocal) && mLocal.Keys == old(mLocal).Keys + Ids(changed) - Ids(deleted)
      ensures Stored(mLocal, old(mLocal), changed)
    {
      var i := 0;
      while i < |changed|
        invariant 0 <= i <= |changed| && HashOk(mLocal) && mLocal.Keys == old(mLocal).Keys + Ids(changed[..i])
        invariant Stored(mLocal, old(mLocal), changed[..i])
      {
        assert changed[..i + 1] == changed[..i] + [changed[i]];
        IdsAppend(changed[..i], changed[i]);
        mLocal := mLocal[changed[i].rid := changed[i]];
        i := i + 1;
      }
      assert changed[..i] == changed;
      mLocal := mLocal - Ids(deleted);
    }

    /**
     One retrieval, with a second and full attempt if the first one was incremental and failed. The local items end up
     as those of the server, with found items that are elsewhere and, after an incremental attempt, with strays from
     before. The second attempt is needed exactly if an item that was checked and found is also reported.
     */
    method RetrieveItems(changes: seq<Change>, all: seq<Change>, responses: seq<Check>, ghost oldIds: set<Id>,
                         ghost newIds: set<Id>)
      returns (retried: bool, ghost l: Lists, ghost last: Lists)
      requires HashOk(mLocal) && Truthful(mItemsToCheck, responses, newIds)
      requires mSyncState ==>
                 Faithful(changes, oldIds, newIds, handlers) && InStep(mLocal.Keys, oldIds, newIds, mQueuedUpdates)
      requires Faithful(all, {}, newIds, handlers)
      modifies this
      ensures var local, toCheck := old(mLocal).Keys, old(mItemsToCheck);
              var strays := if !old(mSyncState) || retried then {}
                            else Strays(local, oldIds, newIds, toCheck, responses);
              && mLocal.Keys == newIds + Taken(local, responses, handlers) + strays
              && (mLocal.Keys == newIds <==>
                    && strays == {}
                    && forall j :: 0 <= j < |responses| && IsTaken(local, responses[j], handlers) ==>
                         responses[j].item.id.id in newIds)
      ensures HashOk(mLocal) && mSyncState && mQueuedUpdates == {} && mItemsToCheck == []
      ensures Sorted(l, if old(mSyncState) then changes else all, old(mItemsToCheck), responses)
      ensures retried == (old(mSyncState) && FoundAndReported(l, old(mItemsToCheck), old(mQueuedUpdates)))
      ensures Sorted(last, if old(mSyncState) && !retried then changes else all, old(mItemsToCheck), responses)
      ensures forall k :: k in mLocal ==>
                Carries(k, mLocal, old(mLocal), last, !old(mSyncState) || retried, handlers)
    {
      hide Faithful, Truthful, InStep, Sorted, FoundAndReported, HashOk, Taken, IsTaken, Carries;
      ExactIfFoundHere(newIds, mLocal.Keys, responses, handlers, {});
      ExactIfFoundHere(newIds, mLocal.Keys, responses, handlers,
                       Strays(mLocal.Keys, oldIds, newIds, mItemsToCheck, responses));
      var queued := mQueuedUpdates;
      mQueuedUpdates := {};
      retried := false;
      if mSyncState {
        var failed;
        failed, l := TryIncremental(changes, responses, queued, oldIds, newIds);
        last := l;
        if !failed {
          mItemsToCheck := [];
          return;
        }
        retried, mSyncState := true, false;
      }
      last := FetchAllItems(all, responses, newIds);
      if !retried {
        l := last;
      }
      mSyncState, mItemsToCheck := true, [];
    }

    /** The incremental attempt; if it fails nothing is changed. */
    method TryIncremental(changes: seq<Change>, responses: seq<Check>, queued: set<Id>, ghost oldIds: set<Id>,
                          ghost newIds: set<Id>)
      returns (failed: bool, ghost l: Lists)
      requires HashOk(mLocal) && Truthful(mItemsToCheck, responses, newIds)
      requires Faithful(changes, oldIds, newIds, handlers) && InStep(mLocal.Keys, oldIds, newIds, queued)
      modifies this`mLocal
      ensures HashOk(mLocal) && Sorted(l, changes, mItemsToCheck, responses)
      ensures failed == FoundAndReported(l, mItemsToCheck, queued) && (failed ==> mLocal == old(mLocal))
      ensures !failed ==>
                && mLocal.Keys == newIds + Taken(old(mLocal).Keys, responses, handlers)
                                  + Strays(old(mLocal).Keys, oldIds, newIds, mItemsToCheck, responses)
                && forall k :: k in mLocal ==> Carries(k, mLocal, old(mLocal), l, false, handlers)
    {
      hide Faithful, Truthful, InStep, Sorted, FoundAndReported, HashOk, Taken, Stored, Carries, Strays,
           EwsFetchItemsJob.AllNewest;
      var items := LocalItems();
      var job := new EwsFetchItemsJob(false, mItemsToCheck, queued, handlers);
      TruthfulLength(mItemsToCheck, responses, newIds);
      RunJob(job, items, changes, responses);
      l := ListsOf(job);
      IncrementalOutcome(job, l, mLocal.Keys, changes, responses, oldIds, newIds, queued);
      failed := job.mError;
      if !failed {
        ItemsRetrievedIncremental(job.mChangedItems, job.mDeletedItems);
        AllCarry(job, mLocal, old(mLocal));
      }
    }

    /** The full retrieval, which cannot fail on its own. */
    method FetchAllItems(all: seq<Change>, responses: seq<Check>, ghost newIds: set<Id>) returns (ghost l: Lists)
      requires HashOk(mLocal) && Truthful(mItemsToCheck, responses, newIds) && Faithful(all, {}, newIds, handlers)
      modifies this`mLocal
      ensures HashOk(mLocal) && Sorted(l, all, mItemsToCheck, responses)
      ensures mLocal.Keys == newIds + Taken(old(mLocal).Keys, responses, handlers) + {}
      ensures forall k :: k in mLocal ==> Carries(k, mLocal, old(mLocal), l, true, handlers)
    {
      hide Faithful, Truthful, Sorted, HashOk, Taken, Stored, Carries, EwsFetchItemsJob.AllNewest;
      var items := LocalItems();
      var job := new EwsFetchItemsJob(true, mItemsToCheck, {}, handlers);
      TruthfulLength(mItemsToCheck, responses, newIds);
      RunJob(job, items, all, responses);
      l := ListsOf(job);
      FullOutcome(job, l, mLocal.Keys, all, responses, newIds);
      if job.mError {
        return;
      }
      ItemsRetrievedIncremental(job.mChangedItems, job.mDeletedItems);
      AllCarry(job, mLocal, old(mLocal));
    }
  }

  lemma TruthfulLength(toCheck: seq<EwsId>, checks: seq<Check>, newIds: set<Id>)
    requires Truthful(toCheck, checks, newIds)
    ensures |checks| == |toCheck|
  {
  }

  lemma IncrementalOutcome(job: EwsFetchItemsJob, l: Lists, local: set<Id>, s: seq<Change>, checks: seq<Check>,
                           oldIds: set<Id>, newIds: set<Id>, queued: set<Id>)
    requires !job.mFullSync && l == ListsOf(job) && Ids(job.mLocalItems) == local && job.mQueuedDeletions == queued
    requires Sorted(l, s, job.mItemsToCheck, checks) && Faithful(s, oldIds, newIds, job.handlers)
    requires Truthful(job.mItemsToCheck, checks, newIds) && InStep(local, oldIds, newIds, queued)
    ensures job.OutOfSync() == FoundAndReported(l, job.mItemsToCheck, queued)
    ensures local + job.DueChanged() - job.DueDeleted()
         == newIds + Taken(local, checks, job.handlers) + Strays(local, oldIds, newIds, job.mItemsToCheck, checks)
  {
    FitsExactly(l, local, s, job.mItemsToCheck, checks, oldIds, newIds, job.handlers, queued);
    forall k
      ensures Told(k, l, oldIds, newIds, FoundIds(checks), MissingIds(job.mItemsToCheck, checks))
      ensures k in (newIds - oldIds) + StoredIds(checks, job.handlers) <==> k in HandledIds(l.added, job.handlers)
    {
      ListsTell(l, s, job.mItemsToCheck, checks, oldIds, newIds, job.handlers, k);
    }
    hide Sorted, Faithful, Truthful;
    assert HandledIds(l.changed, job.handlers) <= ServerIds(l.changed);
    IncrementalGivesServer(l, local, oldIds, newIds, FoundIds(checks), StoredIds(checks, job.handlers),
                           MissingIds(job.mItemsToCheck, checks), queued, job.handlers);
    hide FoundAndReported, Told, InStep;
    assert HandledIds(l.added, job.handlers) + (HandledIds(l.changed, job.handlers) + FlagIds(l.flags.Keys))
        == HandledIds(l.added, job.handlers) + HandledIds(l.changed, job.handlers) + FlagIds(l.flags.Keys);
  }

  lemma FullOutcome(job: EwsFetchItemsJob, l: Lists, local: set<Id>, s: seq<Change>, checks: seq<Check>,
                    newIds: set<Id>)
    requires job.mFullSync && l == ListsOf(job) && Ids(job.mLocalItems) == local
    requires Sorted(l, s, job.mItemsToCheck, checks) && Faithful(s, {}, newIds, job.handlers)
    requires Truthful(job.mItemsToCheck, checks, newIds)
    ensures !job.OutOfSync()
    ensures local + job.DueChanged() - job.DueDeleted() == newIds + Taken(local, checks, job.handlers) + {}
  {
    forall k
      ensures Told(k, l, {}, newIds, FoundIds(checks), MissingIds(job.mItemsToCheck, checks))
      ensures k in newIds + StoredIds(checks, job.handlers) <==> k in HandledIds(l.added, job.handlers)
    {
      ListsTell(l, s, job.mItemsToCheck, checks, {}, newIds, job.handlers, k);
    }
    hide Sorted, Faithful, Truthful;
    FullGivesServer(l, local, newIds, FoundIds(checks), StoredIds(checks, job.handlers),
                    MissingIds(job.mItemsToCheck, checks), job.handlers);
  }

  lemma NothingAtAll(l: Lists)
    requires Sorted(l, [], [], [])
    ensures Truthful([], [], {}) && Faithful([], {}, {}, {0}) && InStep({7}, {}, {}, {})
    ensures !FoundAndReported(l, [], {})
    ensures Taken({7}, [], {0}) == {} && Strays({7}, {}, {}, [], []) == {7}
  {
    UpdatesAre([]);
    FlagChangesAre([]);
    assert KnownIds(l.added) == {};
  }

  /** A stray stays over incremental retrievals, and the next full one removes it. */
  method StrayStays() returns (first: set<Id>, second: set<Id>, third: set<Id>)
    ensures first == second == {7} && third == {}
  {
    var checks := [Found(EwsItem(EwsId(7, 0), 0, false))];
    var resource := new EwsResource({0});
    resource.mSyncState, resource.mItemsToCheck := true, [EwsId(7, 0)];
    ghost var l, last;
    NothingIsFaithful();
    assert Truthful([EwsId(7, 0)], checks, {}) && HashOk(map[]);
    assert Strays({}, {}, {}, [EwsId(7, 0)], checks) == {};
    hide Faithful, InStep, Sorted, FoundAndReported, Taken, Strays, HashOk, Truthful, IsTaken;
    assert resource.mLocal.Keys == {};
    var retried;
    retried, l, last := resource.RetrieveItems([], [], checks, {}, {});
    StrayIsTakenIn(l);
    assert resource.mLocal.Keys == {} + {7} + {};
    first := resource.mLocal.Keys;
    second, third := TwoMore(resource);
  }

  /** With the stray in the folder, an incremental retrieval of nothing and a full one. */
  method TwoMore(resource: EwsResource) returns (second: set<Id>, third: set<Id>)
    requires resource.handlers == {0} && HashOk(resource.mLocal) && resource.mSyncState
    requires resource.mLocal.Keys == {7} && resource.mItemsToCheck == [] && resource.mQueuedUpdates == {}
    modifies resource
    ensures second == {7} && third == {}
  {
    ghost var l, last;
    NothingIsFaithful();
    hide Faithful, InStep, Sorted, FoundAndReported, Taken, Strays, HashOk, Truthful, IsTaken;
    var retried;
    retried, l, last := resource.RetrieveItems([], [], [], {}, {});
    NothingAtAll(l);
    assert resource.mLocal.Keys == {} + {} + {7};
    second := resource.mLocal.Keys;
    resource.mSyncState := false;
    retried, l, last := resource.RetrieveItems([], [], [], {}, {});
    third := resource.mLocal.Keys;
  }

  lemma NothingIsFaithful()
    ensures Faithful([], {}, {}, {0}) && Truthful([], [], {})
    ensures InStep({}, {}, {}, {}) && InStep({7}, {}, {}, {}) && Taken({7}, [], {0}) == {}
  {
  }
}
