/**
 The incremental folder fetch: the changes reported by the server are merged with the local
 collections, in whatever order the folder hash is walked, and folders whose parent comes later are
 completed in a second pass down the tree.
 */
module FetchFoldersIncr {
  import opened Common
  import opened FolderTree

  datatype Flag = RemoteCreated | RemoteUpdated | RemoteDeleted | Processed

  datatype FolderDescr = FolderDescr(collection: Collection, flags: set<Flag>, ewsFolder: Option<EwsFolder>) {
    predicate IsCreated() { RemoteCreated in flags }

    predicate IsModified() { RemoteUpdated in flags }

    predicate IsRemoved() { RemoteDeleted in flags }

    predicate IsProcessed() { Processed in flags }

    function Parent(): Id {
      if ewsFolder.Some? then ewsFolder.value.parentId else NULL_ID
    }

    /** The parent on the server is not the local parent: the folder has to be moved by hand. */
    predicate IsMoved() {
      IsModified() && Parent() != collection.Parent().Rid()
    }
  }

  type FolderHash = map<Id, FolderDescr>

  /** A collection move job: which folder goes below which. */
  datatype Move = Move(rid: Id, to: Id)

  /** A folder descriptor once its local collection has been filled in. */
  ghost predicate Filled1(k: Id, fd: FolderDescr) {
    && k != NULL_ID
    && fd.flags in {{RemoteCreated}, {RemoteUpdated}, {RemoteDeleted}, {Processed}}
    && (fd.ewsFolder.Some? <==> fd.IsCreated() || fd.IsModified())
    && (!fd.IsCreated() ==> fd.collection.Rid() == k)
  }

  ghost predicate Filled(h: FolderHash) {
    forall k :: k in h ==> Filled1(k, h[k])
  }

  /** A processed parent carries its own identifier, so it can be set as a parent. */
  ghost predicate ParentNamed(h: FolderHash, k: Id)
    requires k in h
  {
    var p := h[k].Parent();
    p in h && h[p].IsProcessed() ==> h[p].collection.Rid() == p
  }

  /** The server-side parents of the folders in `ids`, as far as the job knows them. */
  ghost function ServerParents(h: FolderHash, ids: set<Id>): ParentMap {
    map k | k in h && k in ids && h[k].Parent() != NULL_ID :: h[k].Parent()
  }

  /** The folders on which the job gives up: no known parent, or a move below a created folder. */
  ghost predicate Blocked(h: FolderHash, k: Id) {
    && k in h
    && var p := h[k].Parent();
       || (h[k].IsMoved() && (p !in h || h[p].IsCreated()))
       || (h[k].IsCreated() && p !in h)
  }

  /** The immediate parent a folder must end up with. */
  ghost function DueParent(fd: FolderDescr): Id {
    if fd.ewsFolder.Some? then fd.Parent() else fd.collection.Parent().Rid()
  }

  ghost predicate Settled(k: Id, before: FolderDescr, after: FolderDescr) {
    && after.flags == before.flags + {Processed}
    && after.ewsFolder == before.ewsFolder
    && after.collection.Rid() == k
    && after.collection.Parent().Rid() == DueParent(before)
  }

  ghost predicate Deferred(k: Id, before: FolderDescr, after: FolderDescr) {
    && (before.IsMoved() || before.IsCreated())
    && after.flags == before.flags
    && after.ewsFolder == before.ewsFolder
    && after.collection == before.collection.WithRid(k)
  }

  /** The folders for which a move job has been started. */
  ghost function MovedIds(moves: seq<Move>): set<Id> {
    set m | m in moves :: m.rid
  }

  /** No folder is moved twice, and a folder is moved only after the new parent has been moved. */
  ghost predicate DownTheTree(h: FolderHash, moves: seq<Move>) {
    forall i :: 0 <= i < |moves| ==>
      var k := moves[i].rid;
      && k in h && h[k].IsMoved() && moves[i].to == h[k].Parent()
      && k !in MovedIds(moves[..i])
      && (moves[i].to in h && h[moves[i].to].IsMoved() ==> moves[i].to in MovedIds(moves[..i]))
  }

  /** No folder is moved that blocks the processing. */
  ghost predicate NoneBlocked(h: FolderHash, moves: seq<Move>) {
    forall k :: k in MovedIds(moves) ==> !Blocked(h, k)
  }

  lemma NextMove(h: FolderHash, moves: seq<Move>, k: Id)
    requires DownTheTree(h, moves)
    requires k in h && h[k].IsMoved() && k !in MovedIds(moves)
    requires h[k].Parent() in h && h[h[k].Parent()].IsMoved() ==> h[k].Parent() in MovedIds(moves)
    ensures DownTheTree(h, moves + [Move(k, h[k].Parent())])
    ensures MovedIds(moves + [Move(k, h[k].Parent())]) == MovedIds(moves) + {k}
  {
    var moves' := moves + [Move(k, h[k].Parent())];
    forall i | 0 <= i < |moves'|
      ensures moves'[..i] == moves[..i]
    {
    }
    assert moves'[..|moves|] == moves;
    assert Move(k, h[k].Parent()) in moves';
  }

  /** The first pass as a whole: what is true of the hash once the folders in `done` have been seen. */
  ghost predicate FirstPass(h0: FolderHash, done: set<Id>, h: FolderHash, m: MultiHash, top: seq<Id>,
                            moves: seq<Move>, reparent: bool) {
    && h.Keys == h0.Keys && done <= h.Keys
    && (forall k :: k in h && k !in done ==> h[k] == h0[k])
    && (forall k :: k in done ==> !Blocked(h0, k))
    && (forall k :: k in done ==> Settled(k, h0[k], h[k]) || (reparent && Deferred(k, h0[k], h[k])))
    && ListsChildren(m, ServerParents(h0, done))
    && (forall k :: k in top <==> k in done && h0[k].Parent() !in h0)
    && DownTheTree(h0, moves)
    && (forall k :: k in MovedIds(moves) <==> k in done && h0[k].IsMoved() && h[k].IsProcessed())
  }

  lemma ServerParentsStep(h0: FolderHash, done: set<Id>, m: MultiHash, k: Id)
    requires k in h0 && k !in done && ListsChildren(m, ServerParents(h0, done))
    ensures ListsChildren(if h0[k].Parent() == NULL_ID then m else Insert(m, h0[k].Parent(), k),
                          ServerParents(h0, done + {k}))
  {
    var t := ServerParents(h0, done);
    if h0[k].Parent() == NULL_ID {
      assert ServerParents(h0, done + {k}) == t;
    } else {
      InsertListsChildren(m, t, k, h0[k].Parent());
      assert ServerParents(h0, done + {k}) == t[k := h0[k].Parent()];
    }
  }

  /** A folder is moved in the first pass only below a parent that has been seen. */
  lemma SeenMove(h0: FolderHash, done: set<Id>, h: FolderHash, moves: seq<Move>, k: Id)
    requires Filled(h0) && h.Keys == h0.Keys && k in h0 && k !in done
    requires forall j :: j in h && j !in done ==> h[j] == h0[j]
    requires DownTheTree(h0, moves)
    requires forall j :: j in MovedIds(moves) <==> j in done && j in h && h0[j].IsMoved() && h[j].IsProcessed()
    requires h0[k].IsMoved() && h0[k].Parent() in h && h[h0[k].Parent()].IsProcessed()
    ensures DownTheTree(h0, moves + [Move(k, h0[k].Parent())])
    ensures MovedIds(moves + [Move(k, h0[k].Parent())]) == MovedIds(moves) + {k}
  {
    var p := h0[k].Parent();
    assert h0[p].IsMoved() ==> !h0[p].IsProcessed() && p in done;
    NextMove(h0, moves, k);
  }

  /** Seeing one more folder keeps the first pass intact, whichever folder it is. */
  lemma FirstPassStep(h0: FolderHash, done: set<Id>, h: FolderHash, m: MultiHash, top: seq<Id>,
                      moves: seq<Move>, reparent: bool, k: Id,
                      h': FolderHash, m': MultiHash, top': seq<Id>, moves': seq<Move>, reparent': bool)
    requires Filled(h0) && FirstPass(h0, done, h, m, top, moves, reparent)
    requires k in h0 && k !in done && !Blocked(h0, k)
    requires h'.Keys == h.Keys && forall j :: j in h && j != k ==> h'[j] == h[j]
    requires reparent ==> reparent'
    requires Settled(k, h0[k], h'[k]) || (reparent' && Deferred(k, h0[k], h'[k]))
    requires m' == if h0[k].Parent() == NULL_ID then m else Insert(m, h0[k].Parent(), k)
    requires top' == if h0[k].Parent() in h0 then top else top + [k]
    requires h0[k].IsMoved() && h'[k].IsProcessed()
             ==> h[h0[k].Parent()].IsProcessed() && moves' == moves + [Move(k, h0[k].Parent())]
    requires !(h0[k].IsMoved() && h'[k].IsProcessed()) ==> moves' == moves
    ensures FirstPass(h0, done + {k}, h', m', top', moves', reparent')
  {
    ServerParentsStep(h0, done, m, k);
    if moves' != moves {
      SeenMove(h0, done, h, moves, k);
    }
    hide DownTheTree, ListsChildren, ServerParents;
  }

  /** Before a folder is seen its descriptor is untouched, and processed folders carry their name. */
  lemma SeenAreNamed(h0: FolderHash, done: set<Id>, h: FolderHash, m: MultiHash, top: seq<Id>,
                     moves: seq<Move>, reparent: bool, k: Id)
    requires Filled(h0) && FirstPass(h0, done, h, m, top, moves, reparent) && k in h0 && k !in done
    ensures h[k] == h0[k] && ParentNamed(h, k)
    ensures forall j :: j in h ==> h[j].IsCreated() == h0[j].IsCreated()
    ensures Blocked(h, k) == Blocked(h0, k)
  {
  }

  /** Every folder that is not caught in a cycle hangs from a folder whose parent is not in the hash. */
  lemma {:induction false} HangsFromTop(h: FolderHash, k: Id, top: Id, n: nat) returns (r: Id)
    requires Filled(h) && k in h && Climbs(ServerParents(h, h.Keys), k, top, n)
    ensures r in h && h[r].Parent() !in h && k in Branch(ServerParents(h, h.Keys), r)
    decreases n
  {
    var t := ServerParents(h, h.Keys);
    if h[k].Parent() in h {
      r := HangsFromTop(h, t[k], top, n - 1);
      assert k in Branch(t, r) by {
        if t[k] == r {
          assert Under(t, r, r, 0);
          assert Under(t, k, r, 1);
        } else {
          var m: nat :| m > 0 && Under(t, t[k], r, m);
          assert Under(t, k, r, m + 1);
        }
      }
    } else {
      r := k;
    }
  }

  /** The folders of the hash whose parent is not in it. */
  ghost predicate TopLevel(h: FolderHash, tops: seq<Id>) {
    forall k :: k in tops <==> k in h && h[k].Parent() !in h
  }

  /** A top-level folder is grounded whatever the rest of the hash looks like. */
  lemma TopGrounded(h: FolderHash, tops: seq<Id>, i: nat)
    requires Filled(h) && TopLevel(h, tops) && i < |tops|
    ensures tops[i] in h && Grounded(ServerParents(h, h.Keys), tops[i])
  {
    var t, r := ServerParents(h, h.Keys), tops[i];
    assert r in tops;
    if r in t {
      assert Climbs(t, t[r], t[r], 0);
      assert Climbs(t, r, t[r], 1);
    } else {
      assert Climbs(t, r, r, 0);
    }
  }

  /** A folder has its due parent, and if it had to be moved, its move has been started. */
  ghost predicate InPlace(k: Id, before: FolderDescr, after: FolderDescr, moved: set<Id>) {
    after.collection.Parent().Rid() == DueParent(before) && (before.IsMoved() ==> k in moved)
  }

  /** A folder still waits for its parent, and no move of it has been started. */
  ghost predicate Waiting(k: Id, before: FolderDescr, after: FolderDescr, moved: set<Id>) {
    Deferred(k, before, after) && !before.IsProcessed() && k !in moved
  }

  /** What holds of every folder at any time during the second pass. */
  ghost predicate Sound(k: Id, before: FolderDescr, after: FolderDescr, moved: set<Id>) {
    && after.collection.Rid() == k
    && after.ewsFolder == before.ewsFolder
    && before.flags <= after.flags <= before.flags + {Processed}
    && (InPlace(k, before, after, moved) || Waiting(k, before, after, moved))
  }

  ghost predicate SecondPass(h0: FolderHash, h: FolderHash, moves: seq<Move>) {
    && h.Keys == h0.Keys
    && DownTheTree(h0, moves)
    && (forall k :: k in h ==> Sound(k, h0[k], h[k], MovedIds(moves)))
  }

  /** Nothing that has been achieved for a folder is undone. */
  ghost predicate Progress(h0: FolderHash, h: FolderHash, moves: seq<Move>, h': FolderHash, moves': seq<Move>) {
    forall k :: k in h0 && k in h && k in h' ==>
      && (h[k].IsProcessed() ==> h'[k].IsProcessed())
      && (InPlace(k, h0[k], h[k], MovedIds(moves)) ==> InPlace(k, h0[k], h'[k], MovedIds(moves')))
  }

  ghost predicate TopsInPlace(h0: FolderHash, h: FolderHash, moves: seq<Move>, tops: seq<Id>) {
    forall i :: 0 <= i < |tops| ==>
      tops[i] in h0 && tops[i] in h && InPlace(tops[i], h0[tops[i]], h[tops[i]], MovedIds(moves))
  }

  ghost predicate AllProcessed(h0: FolderHash, h: FolderHash, ids: set<Id>) {
    forall k :: k in ids && k in h0 && k in h ==> h[k].IsProcessed()
  }

  lemma NothingYet(h0: FolderHash, h: FolderHash, t: ParentMap, tops: seq<Id>)
    ensures AllProcessed(h0, h, Branches(t, tops, 0))
  {
  }

  lemma TopInPlace(h0: FolderHash, h: FolderHash, moves: seq<Move>, tops: seq<Id>, i: nat)
    requires SecondPass(h0, h, moves) && TopsInPlace(h0, h, moves, tops) && i < |tops|
    ensures tops[i] in h0 && tops[i] in h && h.Keys == h0.Keys
    ensures InPlace(tops[i], h0[tops[i]], h[tops[i]], MovedIds(moves))
  {
  }

  /** Descending from all top-level folders misses only what is caught in a cycle. */
  lemma TopsCoverAll(h0: FolderHash, h: FolderHash, tops: seq<Id>)
    requires Filled(h0) && TopLevel(h0, tops)
    requires AllProcessed(h0, h, Branches(ServerParents(h0, h0.Keys), tops, |tops|))
    ensures AllProcessed(h0, h, set k | k in h0 && Grounded(ServerParents(h0, h0.Keys), k))
  {
    var t := ServerParents(h0, h0.Keys);
    forall k | k in h0 && Grounded(t, k)
      ensures k in Branches(t, tops, |tops|)
    {
      var top, n :| Climbs(t, k, top, n);
      var r := HangsFromTop(h0, k, top, n);
      assert r in tops;
      var j :| 0 <= j < |tops| && tops[j] == r;
      InBranches(t, tops, |tops|, k);
    }
  }

  /** Going down from one top-level folder disturbs neither the others nor what is finished. */
  lemma TopStep(h0: FolderHash, h: FolderHash, moves: seq<Move>, h': FolderHash, moves': seq<Move>,
                t: ParentMap, tops: seq<Id>, i: nat)
    requires SecondPass(h0, h, moves) && SecondPass(h0, h', moves') && i < |tops|
    requires Progress(h0, h, moves, h', moves') && TopsInPlace(h0, h, moves, tops)
    requires AllProcessed(h0, h, Branches(t, tops, i)) && AllProcessed(h0, h', Branch(t, tops[i]))
    ensures TopsInPlace(h0, h', moves', tops)
    ensures AllProcessed(h0, h', Branches(t, tops, i + 1))
  {
  }

  /** The first pass leaves the hash as the second pass needs it. */
  lemma FirstThenSecond(h0: FolderHash, h: FolderHash, m: MultiHash, top: seq<Id>, moves: seq<Move>, reparent: bool)
    requires Filled(h0) && FirstPass(h0, h0.Keys, h, m, top, moves, reparent)
    ensures SecondPass(h0, h, moves)
    ensures TopLevel(h0, top) && TopsInPlace(h0, h, moves, top)
  {
    forall k | k in h0
      ensures Sound(k, h0[k], h[k], MovedIds(moves))
      ensures h0[k].Parent() !in h0 ==> InPlace(k, h0[k], h[k], MovedIds(moves))
    {
      assert Settled(k, h0[k], h[k]) || Deferred(k, h0[k], h[k]);
      assert !Blocked(h0, k);
    }
  }

  /** A folder below one that has its place joins it; a move that has been put off is started first. */
  lemma AdoptStep(h0: FolderHash, h: FolderHash, moves: seq<Move>, id: Id, c: Id, h': FolderHash, moves': seq<Move>)
    requires Filled(h0) && SecondPass(h0, h, moves) && id in h0 && c in h0 && h0[c].Parent() == id
    requires InPlace(id, h0[id], h[id], MovedIds(moves))
    requires h' == h[c := h[c].(collection := h[c].collection.WithParent(h[id].collection))]
    requires moves' == if !h[c].IsProcessed() && h[c].IsMoved() then moves + [Move(c, id)] else moves
    ensures SecondPass(h0, h', moves') && Progress(h0, h, moves, h', moves')
    ensures InPlace(c, h0[c], h'[c], MovedIds(moves'))
  {
    if !h[c].IsProcessed() && h[c].IsMoved() {
      NextMove(h0, moves, c);
    }
  }

  lemma ProgressTransitive(h0: FolderHash, h: FolderHash, moves: seq<Move>, h1: FolderHash, moves1: seq<Move>,
                           h2: FolderHash, moves2: seq<Move>)
    requires h.Keys == h0.Keys && h1.Keys == h0.Keys && h2.Keys == h0.Keys
    requires Progress(h0, h, moves, h1, moves1) && Progress(h0, h1, moves1, h2, moves2)
    ensures Progress(h0, h, moves, h2, moves2)
  {
  }

  lemma MarkStep(h0: FolderHash, h: FolderHash, moves: seq<Move>, id: Id, h': FolderHash)
    requires SecondPass(h0, h, moves) && id in h0 && InPlace(id, h0[id], h[id], MovedIds(moves))
    requires h' == h[id := h[id].(flags := h[id].flags + {Processed})]
    ensures SecondPass(h0, h', moves) && Progress(h0, h, moves, h', moves)
  {
  }

  /** What the job has to report: every folder of the hash that is not removed, with its due parent. */
  ghost function DueChanges(h: FolderHash, ids: set<Id>): ParentMap {
    map k | k in h && k in ids && !h[k].IsRemoved() :: DueParent(h[k])
  }

  ghost function DueDeletions(h: FolderHash): set<Id> {
    set k | k in h && h[k].IsRemoved()
  }

  function Rids(s: seq<Collection>): set<Id> {
    set c | c in s :: c.Rid()
  }

  lemma DueStep(h: FolderHash, done: set<Id>, k: Id)
    requires k in h && k !in done
    ensures h[k].IsRemoved() ==> DueChanges(h, done + {k}) == DueChanges(h, done)
    ensures h[k].IsRemoved() ==> DueDeletions(h) * (done + {k}) == DueDeletions(h) * done + {k}
    ensures !h[k].IsRemoved() ==> DueChanges(h, done + {k}) == DueChanges(h, done)[k := DueParent(h[k])]
    ensures !h[k].IsRemoved() ==> DueDeletions(h) * (done + {k}) == DueDeletions(h) * done
  {
  }

  lemma RidsAppend(s: seq<Collection>, c: Collection)
    ensures Rids(s + [c]) == Rids(s) + {c.Rid()}
  {
    assert forall d :: d in s + [c] <==> d in s || d == c;
  }

  /** With nothing left to wait for, the moves are exactly the folders whose parent has changed. */
  lemma AllMoved(h0: FolderHash, h: FolderHash, moves: seq<Move>)
    requires Filled(h0) && SecondPass(h0, h, moves)
    requires forall k :: k in h && !h[k].IsRemoved() ==> h[k].IsProcessed()
    ensures MovedIds(moves) == set k | k in h0 && h0[k].IsMoved()
  {
    forall k | k in h0 && h0[k].IsMoved()
      ensures k in MovedIds(moves)
    {
      assert Sound(k, h0[k], h[k], MovedIds(moves));
    }
    forall k | k in MovedIds(moves)
      ensures k in h0 && h0[k].IsMoved()
    {
      var i :| 0 <= i < |moves| && moves[i].rid == k;
    }
  }

  /** If folders are blocked, and those among them that were moved are all that were, no move is started at all. */
  lemma NothingMoved(h0: FolderHash, moves: seq<Move>)
    requires DownTheTree(h0, moves) && NoneBlocked(h0, moves)
    requires forall k :: k in h0 && h0[k].IsMoved() ==> Blocked(h0, k)
    ensures moves == []
  {
    FirstIsMoved(moves);
  }

  lemma FirstIsMoved(moves: seq<Move>)
    ensures moves != [] ==> moves[0].rid in MovedIds(moves)
  {
  }

  /** The descriptor that one reported change puts into the hash. */
  function Descr(ch: Change): FolderDescr
    requires !ch.Other?
  {
    match ch
    case Update(folder) => FolderDescr(NoCollection, {RemoteUpdated}, Some(folder))
    case Create(folder) => FolderDescr(NoCollection, {RemoteCreated}, Some(folder))
    case Delete(id) => FolderDescr(NoCollection, {RemoteDeleted}, None)
  }

  function ChangedId(ch: Change): Id
    requires !ch.Other?
  {
    if ch.Delete? then ch.id else ch.folder.id
  }

  /** The hash after a list of changes; a later change of a folder replaces an earlier one. */
  function HashOf(changes: seq<Change>): FolderHash {
    if changes == [] then map[] else
      var h, ch := HashOf(changes[..|changes| - 1]), changes[|changes| - 1];
      if ch.Other? then h else h[ChangedId(ch) := Descr(ch)]
  }

  predicate KnownAsCreated(h: FolderHash, id: Id) {
    id in h && h[id].IsCreated()
  }

  /** The local collections that one change needs, once it has been put into the hash. */
  function Needed(h: FolderHash, ch: Change): set<Id> {
    match ch
    case Update(folder) => {folder.parentId, folder.id}
    case Create(folder) => if KnownAsCreated(h, folder.parentId) then {} else {folder.parentId}
    case Delete(id) => {id}
    case Other => {}
  }

  /** All local collections that a list of changes needs. */
  function FetchOf(changes: seq<Change>): set<Id> {
    if changes == [] then {} else
      FetchOf(changes[..|changes| - 1]) + Needed(HashOf(changes), changes[|changes| - 1])
  }

  /** What a successful fetch of the collections `ids` from the local tree `db` returns. */
  ghost predicate Fetched(cols: seq<Collection>, ids: set<Id>, db: ParentMap) {
    && Rids(cols) == ids
    && (forall c :: c in cols ==> c.Rid() != NULL_ID && c.Rid() in db && c.Parent().Rid() == db[c.Rid()])
  }

  /** The hash with the fetched collections put in: unknown ones are there for reference only. */
  ghost predicate FilledFrom(h: FolderHash, cols: seq<Collection>, h': FolderHash) {
    && h'.Keys == h.Keys + Rids(cols)
    && (forall k :: k in h' ==>
          && h'[k].flags == (if k in h then h[k].flags else {Processed})
          && h'[k].ewsFolder == (if k in h then h[k].ewsFolder else None)
          && (k in Rids(cols) ==> h'[k].collection in cols && h'[k].collection.Rid() == k)
          && (k !in Rids(cols) ==> k in h && h'[k] == h[k]))
  }

  /** The change list names each folder by a proper identifier. */
  ghost predicate Named(changes: seq<Change>) {
    forall ch :: ch in changes && !ch.Other? ==> ChangedId(ch) != NULL_ID
  }

  lemma {:induction false} HashEntries(changes: seq<Change>, k: Id)
    ensures k in HashOf(changes) ==>
              exists i :: 0 <= i < |changes| && !changes[i].Other? && ChangedId(changes[i]) == k
                          && HashOf(changes)[k] == Descr(changes[i])
                              && Needed(HashOf(changes[..i + 1]), changes[i]) <= FetchOf(changes)
    ensures forall i :: 0 <= i < |changes| && !changes[i].Other? ==> ChangedId(changes[i]) in HashOf(changes)
  {
    if changes != [] {
      var n := |changes| - 1;
      var init := changes[..n];
      HashEntries(init, k);
      assert changes[..n + 1] == changes;
      if k in HashOf(changes) {
        if !changes[n].Other? && ChangedId(changes[n]) == k {
          assert Needed(HashOf(changes[..n + 1]), changes[n]) <= FetchOf(changes);
        } else {
          var i :| 0 <= i < |init| && !init[i].Other? && ChangedId(init[i]) == k
                   && HashOf(init)[k] == Descr(init[i]) && Needed(HashOf(init[..i + 1]), init[i]) <= FetchOf(init);
          assert init[..i + 1] == changes[..i + 1];
          assert changes[i] == init[i];
        }
      }
      forall i | 0 <= i < |changes| && !changes[i].Other?
        ensures ChangedId(changes[i]) in HashOf(changes)
      {
        if i < n { assert init[i] == changes[i]; }
      }
    }
  }

  /** Whatever the list of changes, the filled hash is fit for processing. */
  lemma FilledHash(changes: seq<Change>, cols: seq<Collection>, db: ParentMap, h': FolderHash)
    requires Named(changes) && Fetched(cols, FetchOf(changes), db) && FilledFrom(HashOf(changes), cols, h')
    ensures Filled(h')
  {
    forall k | k in h'
      ensures Filled1(k, h'[k])
    {
      HashEntries(changes, k);
      if k in HashOf(changes) {
        var i :| 0 <= i < |changes| && !changes[i].Other? && ChangedId(changes[i]) == k
                 && HashOf(changes)[k] == Descr(changes[i])
                     && Needed(HashOf(changes[..i + 1]), changes[i]) <= FetchOf(changes);
        assert changes[i] in changes;
      }
    }
  }

  class EwsFetchFoldersIncrJob {
    var mFolderHash: FolderHash
    var mParentMap: MultiHash
    var mPendingMoveJobs: nat
    var mChangedFolders: seq<Collection>
    var mDeletedFolders: seq<Collection>
    var mError: bool
    /** How many times the job has reported its result. */
    var mResults: nat
    /** The move jobs in the order in which they were started. */
    var mMoves: seq<Move>

    /** Whether the sync state of the server has been taken over. */
    var mSyncStateTaken: bool

    constructor ()
      ensures mFolderHash == map[] && mParentMap == map[] && mPendingMoveJobs == 0 && mMoves == []
      ensures mChangedFolders == [] && mDeletedFolders == []
      ensures !mError && mResults == 0 && !mSyncStateTaken
    {
      mFolderHash, mParentMap, mPendingMoveJobs, mMoves := map[], map[], 0, [];
      mChangedFolders, mDeletedFolders := [], [];
      mError, mResults, mSyncStateTaken := false, 0, false;
    }

    /**
     The remote changes have arrived: they are put into the hash, and the local collections to fetch
     are returned. A failed request leaves the job without a result.
     */
    method RemoteFolderIncrFetchDone(error: bool, changes: seq<Change>) returns (localFetch: set<Id>)
      requires mFolderHash == map[] && mResults == 0 && !mError
      modifies this`mFolderHash, this`mError, this`mResults, this`mSyncStateTaken
      ensures localFetch == if error then {} else FetchOf(changes)
      ensures mFolderHash == if error then map[] else HashOf(changes)
      ensures mResults == (if !error && localFetch == {} then 1 else 0)
      ensures mError == (!error && changes != [] && localFetch == {})
      ensures mSyncStateTaken == (old(mSyncStateTaken) || (!error && localFetch != {}))
    {
      localFetch := {};
      if error {
        return;
      }
      if changes == [] {
        mResults := mResults + 1;
        return;
      }
      var i := 0;
      while i < |changes|
        invariant 0 <= i <= |changes|
        invariant mFolderHash == HashOf(changes[..i]) && localFetch == FetchOf(changes[..i])
        invariant mResults == 0 && !mError && mSyncStateTaken == old(mSyncStateTaken)
      {
        var ch := changes[i];
        assert changes[..i + 1][..i] == changes[..i];
        match ch {
          case Update(folder) =>
            mFolderHash := mFolderHash[folder.id := FolderDescr(NoCollection, {RemoteUpdated}, Some(folder))];
            localFetch := localFetch + {folder.parentId} + {folder.id};
          case Create(folder) =>
            mFolderHash := mFolderHash[folder.id := FolderDescr(NoCollection, {RemoteCreated}, Some(folder))];
            if !KnownAsCreated(mFolderHash, folder.parentId) {
              localFetch := localFetch + {folder.parentId};
            }
          case Delete(id) =>
            mFolderHash := mFolderHash[id := FolderDescr(NoCollection, {RemoteDeleted}, None)];
            localFetch := localFetch + {id};
          case Other =>
        }
        i := i + 1;
      }
      assert changes[..i] == changes;
      if localFetch == {} {
        mError, mResults := true, mResults + 1;
        return;
      }
      mSyncStateTaken := true;
    }

    /** Puts the fetched collections into their descriptors. */
    method FillIn(cols: seq<Collection>)
      requires forall k :: k in mFolderHash ==> mFolderHash[k].flags != {}
      modifies this`mFolderHash
      ensures FilledFrom(old(mFolderHash), cols, mFolderHash)
    {
      var i := 0;
      while i < |cols|
        invariant 0 <= i <= |cols|
        invariant FilledFrom(old(mFolderHash), cols[..i], mFolderHash)
      {
        var col := cols[i];
        var fd := if col.Rid() in mFolderHash then mFolderHash[col.Rid()] else FolderDescr(NoCollection, {}, None);
        fd := fd.(collection := col);
        if fd.flags == {} {
          fd := fd.(flags := {Processed});
        }
        mFolderHash := mFolderHash[col.Rid() := fd];
        assert cols[..i + 1] == cols[..i] + [col];
        RidsAppend(cols[..i], col);
        i := i + 1;
      }
      assert cols[..i] == cols;
    }

    /**
     The local collections have arrived. A success is reported at once if nothing has to be moved,
     and otherwise left to the last move. A failure of the processing is reported by the first
     branch, and once more by the second if no move has been started.
     */
    method LocalFolderFetchDone(error: bool, cols: seq<Collection>, ghost changes: seq<Change>, ghost db: ParentMap)
      requires mFolderHash == HashOf(changes) && Named(changes)
      requires !error ==> Fetched(cols, FetchOf(changes), db)
      requires mParentMap == map[] && mMoves == [] && mPendingMoveJobs == 0
      requires mChangedFolders == [] && mDeletedFolders == [] && mResults == 0 && !mError
      modifies this
      ensures mPendingMoveJobs == |mMoves| && mSyncStateTaken == old(mSyncStateTaken)
      ensures error ==> mError && mResults == 1 && mMoves == []
      ensures !error ==> exists h0 :: FilledFrom(HashOf(changes), cols, h0) && Filled(h0) && Outcome(h0)
    {
      if error {
        mError, mResults := true, mResults + 1;
        return;
      }
      hide FilledFrom, Fetched, Named, FetchOf, ServerParents, Acyclic, Blocked, DownTheTree, ListsOnce, NoneBlocked,
           DueChanges, DueDeletions, Filled;
      forall k | k in mFolderHash
        ensures mFolderHash[k].flags != {}
      {
        HashEntries(changes, k);
      }
      FillIn(cols);
      ghost var h0 := mFolderHash;
      FilledHash(changes, cols, db, h0);
      hide HashOf, Outcome;
      ReportProcessed();
      assert FilledFrom(HashOf(changes), cols, h0) && Filled(h0) && Outcome(h0);
    }

    /** The filled hash is processed; a failure is reported at once, and the end if there is nothing to wait for. */
    method ReportProcessed()
      requires Filled(mFolderHash) && mParentMap == map[] && mMoves == [] && mPendingMoveJobs == 0
      requires mChangedFolders == [] && mDeletedFolders == [] && mResults == 0 && !mError
      modifies this
      ensures mPendingMoveJobs == |mMoves| && Outcome(old(mFolderHash)) && mSyncStateTaken == old(mSyncStateTaken)
    {
      hide Filled, ServerParents, Acyclic, Blocked, DownTheTree, ListsOnce, NoneBlocked, MovedIds, Rids, DueChanges,
           DueDeletions;
      var ok := ProcessRemoteFolders();
      if !ok {
        mError, mResults := true, mResults + 1;
      }
      if mPendingMoveJobs == 0 {
        mResults := mResults + 1;
      }
    }

    /** What is true when the processing of the filled hash `h0` is over. */
    ghost predicate Outcome(h0: FolderHash)
      reads this
    {
      && (!mError ==> forall k :: !Blocked(h0, k))
      && (Acyclic(ServerParents(h0, h0.Keys)) ==> (!mError <==> forall k :: !Blocked(h0, k)))
      && (!mError ==> ListsOnce(mChangedFolders, DueChanges(h0, h0.Keys)))
      && (!mError ==> Rids(mDeletedFolders) == DueDeletions(h0))
      && (!mError ==> MovedIds(mMoves) == set k | k in h0 && h0[k].IsMoved())
      && DownTheTree(h0, mMoves) && NoneBlocked(h0, mMoves)
      && mResults == (if mError then 1 else 0) + (if mMoves == [] then 1 else 0)
    }

    /** A move job is over; the last one reports the result. */
    method LocalFolderMoveDone(error: bool)
      requires mPendingMoveJobs > 0
      modifies this`mError, this`mResults, this`mPendingMoveJobs
      ensures error ==> mError && mResults == old(mResults) + 1 && mPendingMoveJobs == old(mPendingMoveJobs)
      ensures !error ==> mError == old(mError) && mPendingMoveJobs == old(mPendingMoveJobs) - 1
      ensures !error ==> mResults == old(mResults) + if mPendingMoveJobs == 0 then 1 else 0
    {
      if error {
        mError, mResults := true, mResults + 1;
        return;
      }
      mPendingMoveJobs := mPendingMoveJobs - 1;
      if mPendingMoveJobs == 0 {
        mResults := mResults + 1;
      }
    }

    method MoveCollection(fd: FolderDescr)
      requires fd.Parent() in mFolderHash
      modifies this`mPendingMoveJobs, this`mMoves
      ensures mPendingMoveJobs == old(mPendingMoveJobs) + 1
      ensures mMoves == old(mMoves) + [Move(fd.collection.Rid(), mFolderHash[fd.Parent()].collection.Rid())]
    {
      mMoves := mMoves + [Move(fd.collection.Rid(), mFolderHash[fd.Parent()].collection.Rid())];
      mPendingMoveJobs := mPendingMoveJobs + 1;
    }

    /** One round of the first loop. */
    method ProcessFolder(k: Id) returns (ok: bool, deferred: bool)
      requires k in mFolderHash && Filled1(k, mFolderHash[k]) && ParentNamed(mFolderHash, k)
      modifies this`mFolderHash, this`mPendingMoveJobs, this`mMoves
      ensures mFolderHash.Keys == old(mFolderHash).Keys
      ensures forall j :: j in mFolderHash && j != k ==> mFolderHash[j] == old(mFolderHash)[j]
      ensures ok == !Blocked(old(mFolderHash), k)
      ensures |mMoves| - |old(mMoves)| == mPendingMoveJobs - old(mPendingMoveJobs)
      ensures !ok ==> mMoves == old(mMoves)
      ensures ok ==>
                var fd := old(mFolderHash)[k];
                && (if deferred then Deferred(k, fd, mFolderHash[k]) else Settled(k, fd, mFolderHash[k]))
                && (deferred <==> (fd.IsCreated() || fd.IsMoved()) && !old(mFolderHash)[fd.Parent()].IsProcessed())
                && (mMoves == if fd.IsMoved() && !deferred then old(mMoves) + [Move(k, fd.Parent())] else old(mMoves))
    {
      ok, deferred := true, false;
      var fd := mFolderHash[k];
      var p := fd.Parent();
      if fd.IsModified() {
        if fd.IsMoved() {
          if p !in mFolderHash || mFolderHash[p].IsCreated() {
            ok := false;
          } else if !mFolderHash[p].IsProcessed() {
            deferred := true;
          } else {
            MoveCollection(fd);
            mFolderHash := mFolderHash[k := fd.(collection := fd.collection.WithParent(mFolderHash[p].collection),
                                                flags := fd.flags + {Processed})];
          }
        } else {
          mFolderHash := mFolderHash[k := fd.(flags := fd.flags + {Processed})];
        }
      } else if fd.IsCreated() {
        fd := fd.(collection := fd.collection.WithRid(k));
        mFolderHash := mFolderHash[k := fd];
        if p !in mFolderHash {
          ok := false;
        } else if mFolderHash[p].IsProcessed() {
          mFolderHash := mFolderHash[k := fd.(collection := fd.collection.WithParent(mFolderHash[p].collection),
                                              flags := fd.flags + {Processed})];
        } else {
          deferred := true;
        }
      } else {
        mFolderHash := mFolderHash[k := fd.(flags := fd.flags + {Processed})];
      }
    }

    /** One round of the first loop, with the two lists that the loop fills. */
    method SeeFolder(k: Id, topLevelList: seq<Id>, reparent: bool, ghost h0: FolderHash, ghost done: set<Id>)
      returns (ok: bool, topLevelList': seq<Id>, reparent': bool)
      requires Filled(h0) && k in h0 && k !in done
      requires FirstPass(h0, done, mFolderHash, mParentMap, topLevelList, mMoves, reparent)
      modifies this`mFolderHash, this`mParentMap, this`mPendingMoveJobs, this`mMoves
      ensures |mMoves| - |old(mMoves)| == mPendingMoveJobs - old(mPendingMoveJobs)
      ensures mFolderHash.Keys == h0.Keys
      ensures ok == !Blocked(h0, k)
      ensures !ok ==> mMoves == old(mMoves)
      ensures ok ==> FirstPass(h0, done + {k}, mFolderHash, mParentMap, topLevelList', mMoves, reparent')
    {
      ghost var h, m, moves := mFolderHash, mParentMap, mMoves;
      SeenAreNamed(h0, done, h, m, topLevelList, moves, reparent, k);
      topLevelList', reparent' := topLevelList, reparent;
      var fd := mFolderHash[k];
      var deferred;
      ok, deferred := ProcessFolder(k);
      if !ok {
        return;
      }
      reparent' := reparent || deferred;
      if fd.Parent() !in mFolderHash {
        topLevelList' := topLevelList + [k];
      }
      if fd.Parent() != NULL_ID {
        mParentMap := Insert(mParentMap, fd.Parent(), k);
      }
      FirstPassStep(h0, done, h, m, topLevelList, moves, reparent, k,
                    mFolderHash, mParentMap, topLevelList', mMoves, reparent');
    }

    /** The first pass, walking the hash in an arbitrary order. */
    method ProcessAll() returns (ok: bool, topLevelList: seq<Id>, reparent: bool)
      requires Filled(mFolderHash) && mParentMap == map[] && mMoves == []
      modifies this`mFolderHash, this`mParentMap, this`mPendingMoveJobs, this`mMoves
      ensures |mMoves| == mPendingMoveJobs - old(mPendingMoveJobs)
      ensures ok <==> forall k :: !Blocked(old(mFolderHash), k)
      ensures ok ==> FirstPass(old(mFolderHash), old(mFolderHash).Keys, mFolderHash, mParentMap,
                               topLevelList, mMoves, reparent)
      ensures mFolderHash.Keys == old(mFolderHash).Keys && DownTheTree(old(mFolderHash), mMoves)
      ensures NoneBlocked(old(mFolderHash), mMoves)
    {
      ghost var h0 := mFolderHash;
      ghost var done: set<Id> := {};
      ok, topLevelList, reparent := true, [], false;
      var todo := mFolderHash.Keys;
      while todo != {}
        invariant ok && todo + done == h0.Keys && todo !! done
        invariant |mMoves| == mPendingMoveJobs - old(mPendingMoveJobs)
        invariant FirstPass(h0, done, mFolderHash, mParentMap, topLevelList, mMoves, reparent)
      {
        var k :| k in todo;
        ok, topLevelList, reparent := SeeFolder(k, topLevelList, reparent, h0, done);
        if !ok {
          assert Blocked(h0, k);
          return;
        }
        todo, done := todo - {k}, done + {k};
      }
      assert done == h0.Keys;
    }

    /**
     The second pass below `id`: parents are set top-down, and a move put off by the first pass is
     started once the new parent has its place.
     */
    method ReparentRemoteFolder(id: Id, ghost h0: FolderHash, ghost t: ParentMap)
      requires Filled(h0) && t == ServerParents(h0, h0.Keys) && ListsChildren(mParentMap, t)
      requires SecondPass(h0, mFolderHash, mMoves)
      requires id in h0 && Grounded(t, id) && InPlace(id, h0[id], mFolderHash[id], MovedIds(mMoves))
      modifies this`mFolderHash, this`mPendingMoveJobs, this`mMoves
      ensures |mMoves| - |old(mMoves)| == mPendingMoveJobs - old(mPendingMoveJobs)
      ensures SecondPass(h0, mFolderHash, mMoves)
      ensures Progress(h0, old(mFolderHash), old(mMoves), mFolderHash, mMoves)
      ensures AllProcessed(h0, mFolderHash, Branch(t, id))
      decreases Below(t, id), 2
    {
      ReparentChildren(id, h0, t);
      ghost var h, moves := mFolderHash, mMoves;
      mFolderHash := mFolderHash[id := mFolderHash[id].(flags := mFolderHash[id].flags + {Processed})];
      MarkStep(h0, h, moves, id, mFolderHash);
      ProgressTransitive(h0, old(mFolderHash), old(mMoves), h, moves, mFolderHash, mMoves);
    }

    method ReparentChildren(id: Id, ghost h0: FolderHash, ghost t: ParentMap)
      requires Filled(h0) && t == ServerParents(h0, h0.Keys) && ListsChildren(mParentMap, t)
      requires SecondPass(h0, mFolderHash, mMoves)
      requires id in h0 && Grounded(t, id) && InPlace(id, h0[id], mFolderHash[id], MovedIds(mMoves))
      modifies this`mFolderHash, this`mPendingMoveJobs, this`mMoves
      ensures |mMoves| - |old(mMoves)| == mPendingMoveJobs - old(mPendingMoveJobs)
      ensures SecondPass(h0, mFolderHash, mMoves)
      ensures Progress(h0, old(mFolderHash), old(mMoves), mFolderHash, mMoves)
      ensures AllProcessed(h0, mFolderHash, Below(t, id))
      decreases Below(t, id), 1
    {
      hide Sound, DownTheTree, InPlace, Filled, Below, Grounded;
      var children := Values(mParentMap, id);
      var i := 0;
      while i < |children|
        invariant 0 <= i <= |children|
        invariant |mMoves| - |old(mMoves)| == mPendingMoveJobs - old(mPendingMoveJobs)
        invariant SecondPass(h0, mFolderHash, mMoves)
        invariant Progress(h0, old(mFolderHash), old(mMoves), mFolderHash, mMoves)
        invariant AllProcessed(h0, mFolderHash, Branches(t, children, i))
      {
        ghost var h, moves := mFolderHash, mMoves;
        NotBefore(mParentMap, t, id, i);
        NextChild(t, mParentMap, id, i);
        ReparentChild(id, children[i], h0, t);
        ProgressTransitive(h0, old(mFolderHash), old(mMoves), h, moves, mFolderHash, mMoves);
        i := i + 1;
      }
      AllBranches(t, mParentMap, id);
    }

    /** The body of the loop over the children of `id`. */
    method ReparentChild(id: Id, childId: Id, ghost h0: FolderHash, ghost t: ParentMap)
      requires Filled(h0) && t == ServerParents(h0, h0.Keys) && ListsChildren(mParentMap, t)
      requires SecondPass(h0, mFolderHash, mMoves)
      requires id in h0 && InPlace(id, h0[id], mFolderHash[id], MovedIds(mMoves))
      requires childId in t && t[childId] == id && Grounded(t, childId) && Below(t, childId) < Below(t, id)
      modifies this`mFolderHash, this`mPendingMoveJobs, this`mMoves
      ensures |mMoves| - |old(mMoves)| == mPendingMoveJobs - old(mPendingMoveJobs)
      ensures SecondPass(h0, mFolderHash, mMoves)
      ensures Progress(h0, old(mFolderHash), old(mMoves), mFolderHash, mMoves)
      ensures AllProcessed(h0, mFolderHash, Branch(t, childId))
      decreases Below(t, id), 0
    {
      hide DownTheTree, Below, Grounded, ListsChildren, AllProcessed, Progress;
      ghost var h, moves := mFolderHash, mMoves;
      var childFd := mFolderHash[childId];
      if !childFd.IsProcessed() && childFd.IsMoved() {
        MoveCollection(childFd);
      }
      var collection := childFd.collection.WithParent(mFolderHash[id].collection);
      mFolderHash := mFolderHash[childId := childFd.(collection := collection)];
      ghost var h1, moves1 := mFolderHash, mMoves;
      AdoptStep(h0, h, moves, id, childId, h1, moves1);
      ReparentRemoteFolder(childId, h0, t);
      ProgressTransitive(h0, h, moves, h1, moves1, mFolderHash, mMoves);
    }

    /** The second pass: down from every folder whose parent is not in the hash. */
    method ReparentAll(topLevelList: seq<Id>, ghost h0: FolderHash, ghost t: ParentMap)
      requires Filled(h0) && t == ServerParents(h0, h0.Keys) && ListsChildren(mParentMap, t)
      requires SecondPass(h0, mFolderHash, mMoves)
      requires TopLevel(h0, topLevelList) && TopsInPlace(h0, mFolderHash, mMoves, topLevelList)
      modifies this`mFolderHash, this`mPendingMoveJobs, this`mMoves
      ensures |mMoves| - |old(mMoves)| == mPendingMoveJobs - old(mPendingMoveJobs)
      ensures SecondPass(h0, mFolderHash, mMoves)
      ensures AllProcessed(h0, mFolderHash, set k | k in h0 && Grounded(t, k))
    {
      hide *;
      NothingYet(h0, mFolderHash, t, topLevelList);
      var i := 0;
      while i < |topLevelList|
        invariant 0 <= i <= |topLevelList|
        invariant |mMoves| - |old(mMoves)| == mPendingMoveJobs - old(mPendingMoveJobs)
        invariant SecondPass(h0, mFolderHash, mMoves)
        invariant TopsInPlace(h0, mFolderHash, mMoves, topLevelList)
        invariant AllProcessed(h0, mFolderHash, Branches(t, topLevelList, i))
      {
        ghost var h, moves := mFolderHash, mMoves;
        TopGrounded(h0, topLevelList, i);
        TopInPlace(h0, h, moves, topLevelList, i);
        ReparentRemoteFolder(topLevelList[i], h0, t);
        TopStep(h0, h, moves, mFolderHash, mMoves, t, topLevelList, i);
        i := i + 1;
      }
      TopsCoverAll(h0, mFolderHash, topLevelList);
    }

    /** The last loop: it gives up on the first folder that is still unprocessed. */
    method BuildLists(ghost h0: FolderHash) returns (ok: bool)
      requires Filled(h0) && SecondPass(h0, mFolderHash, mMoves)
      requires mChangedFolders == [] && mDeletedFolders == []
      modifies this`mChangedFolders, this`mDeletedFolders
      ensures ok <==> forall k :: k in mFolderHash && !mFolderHash[k].IsRemoved() ==> mFolderHash[k].IsProcessed()
      ensures ok ==> ListsOnce(mChangedFolders, DueChanges(h0, h0.Keys))
      ensures ok ==> Rids(mDeletedFolders) == DueDeletions(h0)
    {
      var todo := mFolderHash.Keys;
      ghost var done: set<Id> := {};
      ok := true;
      while todo != {}
        invariant ok && todo + done == h0.Keys && todo !! done
        invariant forall k :: k in done && !mFolderHash[k].IsRemoved() ==> mFolderHash[k].IsProcessed()
        invariant ListsOnce(mChangedFolders, DueChanges(h0, done))
        invariant Rids(mDeletedFolders) == DueDeletions(h0) * done
      {
        var k :| k in todo;
        var fd := mFolderHash[k];
        assert Sound(k, h0[k], fd, MovedIds(mMoves));
        assert fd.IsRemoved() <==> h0[k].IsRemoved();
        DueStep(h0, done, k);
        if fd.IsRemoved() {
          RidsAppend(mDeletedFolders, fd.collection);
          mDeletedFolders := mDeletedFolders + [fd.collection];
        } else if fd.IsProcessed() {
          ListsOnceAppend(mChangedFolders, DueChanges(h0, done), fd.collection);
          mChangedFolders := mChangedFolders + [fd.collection];
        } else {
          ok := false;
          return;
        }
        todo, done := todo - {k}, done + {k};
      }
      assert done == h0.Keys;
    }

    method ProcessRemoteFolders() returns (ok: bool)
      requires Filled(mFolderHash) && mParentMap == map[] && mMoves == []
      requires mChangedFolders == [] && mDeletedFolders == []
      modifies this`mFolderHash, this`mParentMap, this`mPendingMoveJobs, this`mMoves, this`mChangedFolders
      modifies this`mDeletedFolders
      ensures |mMoves| == mPendingMoveJobs - old(mPendingMoveJobs)
      ensures DownTheTree(old(mFolderHash), mMoves) && NoneBlocked(old(mFolderHash), mMoves)
      ensures ok ==> forall k :: !Blocked(old(mFolderHash), k)
      ensures Acyclic(ServerParents(old(mFolderHash), old(mFolderHash).Keys))
              ==> (ok <==> forall k :: !Blocked(old(mFolderHash), k))
      ensures ok ==> ListsOnce(mChangedFolders, DueChanges(old(mFolderHash), old(mFolderHash).Keys))
      ensures ok ==> Rids(mDeletedFolders) == DueDeletions(old(mFolderHash))
      ensures ok ==> MovedIds(mMoves) == set k | k in old(mFolderHash) && old(mFolderHash)[k].IsMoved()
    {
      ghost var h0 := mFolderHash;
      var topLevelList, reparentPassNeeded;
      ok, topLevelList, reparentPassNeeded := ProcessAll();
      if !ok {
        return;
      }
      FirstThenSecond(h0, mFolderHash, mParentMap, topLevelList, mMoves, reparentPassNeeded);
      ghost var t := ServerParents(h0, h0.Keys);
      if reparentPassNeeded {
        ReparentAll(topLevelList, h0, t);
      }
      ok := BuildLists(h0);
      if ok {
        AllMoved(h0, mFolderHash, mMoves);
      } else {
        var k :| k in mFolderHash && !mFolderHash[k].IsRemoved() && !mFolderHash[k].IsProcessed();
        assert k !in set j | j in h0 && Grounded(t, j);
        assert k in t by { if k !in t { assert Climbs(t, k, k, 0); } }
      }
    }
  }
}
