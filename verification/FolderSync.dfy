/**
 The folder synchronisation of the resource as a whole: an incremental attempt, and a full fetch if
 that attempt fails. Either way the local tree ends up as the tree of the server, without the folders that
 the server would not give out.
 */
module FolderSync {
  import opened Common
  import opened FolderTree
  import opened FetchFoldersIncr
  import Full = FetchFolders

  /** A folder tree: everything hangs from `root`. */
  ghost predicate Tree(t: ParentMap, root: Id) {
    && root in t && t[root] == NULL_ID && NULL_ID !in t
    && Acyclic(t)
    && (forall k :: k in t && k != root ==> t[k] in t)
  }

  ghost predicate FaithfulChange(ch: Change, oldTree: ParentMap, newTree: ParentMap, root: Id) {
    match ch
    case Create(f) => f.id in newTree && f.id !in oldTree && f.parentId == newTree[f.id]
    case Update(f) => f.id in newTree && f.id in oldTree && f.parentId == newTree[f.id] && f.id != root
    case Delete(id) => id in oldTree && id !in newTree
    case Other => true
  }

  /** The server reports the way from `oldTree` to `newTree` with one change per folder. */
  ghost predicate Faithful(changes: seq<Change>, oldTree: ParentMap, newTree: ParentMap, root: Id) {
    && (forall i :: 0 <= i < |changes| ==> FaithfulChange(changes[i], oldTree, newTree, root))
    && (forall i, j :: 0 <= i < j < |changes| && !changes[i].Other? && !changes[j].Other?
          ==> ChangedId(changes[i]) != ChangedId(changes[j]))
    && (forall k :: k in newTree && k !in oldTree ==> Create(EwsFolder(k, newTree[k])) in changes)
    && (forall k :: k in oldTree && k !in newTree ==> Delete(k) in changes)
    && (forall k :: k in oldTree && k in newTree && oldTree[k] != newTree[k] ==>
          Update(EwsFolder(k, newTree[k])) in changes)
  }

  /**
   The local tree agrees with the last synchronised one except where the server has changed too: the
   resource may already have made some of the changes itself.
   */
  ghost predicate UpTo(db: ParentMap, oldTree: ParentMap, newTree: ParentMap) {
    && (forall k :: k in oldTree && k in newTree && oldTree[k] == newTree[k] ==> k in db && db[k] == newTree[k])
    && (forall k :: k in db ==> k in oldTree || k in newTree)
  }

  /** With each of its folders `gone` has those below it. */
  ghost predicate Whole(gone: set<Id>, t: ParentMap) {
    forall k :: k in t && t[k] in gone ==> k in gone
  }

  /** Whole branches of the tree, that a fetch has left out. */
  ghost predicate Lacking(gone: set<Id>, t: ParentMap, root: Id) {
    gone <= t.Keys && root !in gone && Whole(gone, t)
  }

  /** The local tree is that of the server without the folders `gone`. */
  ghost predicate Agrees(db: ParentMap, t: ParentMap, gone: set<Id>, root: Id) {
    db == t - gone && Lacking(gone, t, root)
  }

  /** The same as `UpTo` for a local tree that lacks the folders `gone`. */
  ghost predicate UpToWithout(db: ParentMap, oldTree: ParentMap, newTree: ParentMap, gone: set<Id>, root: Id) {
    && Lacking(gone, oldTree, root) && db.Keys !! gone
    && (forall k :: k in oldTree && k in newTree && oldTree[k] == newTree[k] && k !in gone ==>
          k in db && db[k] == newTree[k])
    && (forall k :: k in db ==> k in oldTree || k in newTree)
  }

  /** A folder whose local parent is not that on the server. */
  ghost predicate HasMoved(k: Id, db: ParentMap, oldTree: ParentMap, newTree: ParentMap) {
    k in db && k in oldTree && k in newTree && db[k] != newTree[k]
  }

  /** A folder that was moved below a folder which has just been created. */
  ghost predicate MovedBelowCreated(k: Id, db: ParentMap, oldTree: ParentMap, newTree: ParentMap) {
    HasMoved(k, db, oldTree, newTree) && newTree[k] !in oldTree
  }

  lemma {:induction false} HashExact(changes: seq<Change>, i: nat)
    requires i < |changes| && !changes[i].Other?
    requires forall i, j :: 0 <= i < j < |changes| && !changes[i].Other? && !changes[j].Other?
               ==> ChangedId(changes[i]) != ChangedId(changes[j])
    ensures ChangedId(changes[i]) in HashOf(changes) && HashOf(changes)[ChangedId(changes[i])] == Descr(changes[i])
  {
    var n := |changes| - 1;
    var init := changes[..n];
    if i < n {
      assert init[i] == changes[i];
      assert forall a, b :: 0 <= a < b < |init| ==> init[a] == changes[a] && init[b] == changes[b];
      HashExact(init, i);
    }
  }

  /** What the filled hash says about one folder, in terms of the two server trees. */
  ghost predicate Meaning(k: Id, h0: FolderHash, db: ParentMap, oldTree: ParentMap, newTree: ParentMap) {
    && (k in newTree && k !in oldTree ==>
            k in h0 && h0[k].flags == {RemoteCreated} && h0[k].ewsFolder == Some(EwsFolder(k, newTree[k])))
    && (k in oldTree && k !in newTree ==> k in h0 && h0[k].flags == {RemoteDeleted} && h0[k].ewsFolder == None)
    && (k in h0 && k in oldTree && k in newTree ==>
          || (h0[k].flags == {RemoteUpdated} && h0[k].ewsFolder == Some(EwsFolder(k, newTree[k])))
          || (h0[k].flags == {Processed} && h0[k].ewsFolder == None && oldTree[k] == newTree[k]))
    && (k in oldTree && k in newTree && oldTree[k] != newTree[k] ==> k in h0)
    && (k in h0 ==> k in oldTree || k in newTree)
    && (k in h0 && !h0[k].IsCreated() ==> k in db && h0[k].collection.Parent().Rid() == db[k])
    && (k in h0 && (h0[k].IsModified() || h0[k].IsCreated()) ==> h0[k].Parent() in h0)
  }

  /** What the changes alone put into the hash for one folder. */
  ghost predicate Reported(k: Id, changes: seq<Change>, oldTree: ParentMap, newTree: ParentMap) {
    InHash(k, changes, oldTree, newTree) && FromChange(k, changes, oldTree, newTree)
  }

  /** Whatever is different between the trees is in the hash. */
  ghost predicate InHash(k: Id, changes: seq<Change>, oldTree: ParentMap, newTree: ParentMap) {
    var h := HashOf(changes);
    && (k in newTree && k !in oldTree ==>
          k in h && h[k] == FolderDescr(NoCollection, {RemoteCreated}, Some(EwsFolder(k, newTree[k]))))
    && (k in oldTree && k !in newTree ==> k in h && h[k] == FolderDescr(NoCollection, {RemoteDeleted}, None))
    && (k in oldTree && k in newTree && oldTree[k] != newTree[k] ==> k in h)
  }

  /** Whatever is in the hash comes from a change, and what the change needs is fetched or in the hash. */
  ghost predicate FromChange(k: Id, changes: seq<Change>, oldTree: ParentMap, newTree: ParentMap) {
    var h := HashOf(changes);
    && (k in oldTree && k in newTree && k in h ==>
          h[k] == FolderDescr(NoCollection, {RemoteUpdated}, Some(EwsFolder(k, newTree[k]))))
    && (k in h ==> k in oldTree || k in newTree)
    && (k in h && !h[k].IsCreated() ==> k in FetchOf(changes))
    && (k in h && h[k].ewsFolder.Some? ==> h[k].Parent() in FetchOf(changes) || h[k].Parent() in h)
  }

  lemma {:induction false} ChangeInHash(changes: seq<Change>, oldTree: ParentMap, newTree: ParentMap, root: Id, k: Id)
    requires Faithful(changes, oldTree, newTree, root)
    ensures InHash(k, changes, oldTree, newTree)
  {
    var ch :=
      if k in newTree then (if k in oldTree then Update(EwsFolder(k, newTree[k])) else Create(EwsFolder(k, newTree[k])))
      else Delete(k);
    if ch in changes {
      var i :| 0 <= i < |changes| && changes[i] == ch;
      HashExact(changes, i);
    }
    hide HashOf;
  }

  lemma {:induction false} HashFromChange(changes: seq<Change>, oldTree: ParentMap, newTree: ParentMap, root: Id, k: Id)
    requires Faithful(changes, oldTree, newTree, root)
    ensures FromChange(k, changes, oldTree, newTree)
  {
    HashEntries(changes, k);
    var h := HashOf(changes);
    if k in h {
      var i :| 0 <= i < |changes| && !changes[i].Other? && ChangedId(changes[i]) == k
               && h[k] == Descr(changes[i]) && Needed(HashOf(changes[..i + 1]), changes[i]) <= FetchOf(changes);
      assert FaithfulChange(changes[i], oldTree, newTree, root);
      if changes[i].Create? && KnownAsCreated(HashOf(changes[..i + 1]), changes[i].folder.parentId) {
        KnownInFull(changes, i + 1, changes[i].folder.parentId);
      }
    }
    hide HashOf, FetchOf, Faithful;
  }

  lemma EntryReported(changes: seq<Change>, oldTree: ParentMap, newTree: ParentMap, root: Id, k: Id)
    requires Faithful(changes, oldTree, newTree, root)
    ensures Reported(k, changes, oldTree, newTree)
  {
    hide Faithful, InHash, FromChange;
    ChangeInHash(changes, oldTree, newTree, root, k);
    HashFromChange(changes, oldTree, newTree, root, k);
  }

  lemma HashMeaning(changes: seq<Change>, cols: seq<Collection>, h0: FolderHash,
                    db: ParentMap, oldTree: ParentMap, newTree: ParentMap, root: Id, k: Id)
    requires Tree(oldTree, root) && Tree(newTree, root) && Faithful(changes, oldTree, newTree, root)
    requires UpTo(db, oldTree, newTree)
    requires Fetched(cols, FetchOf(changes), db) && FilledFrom(HashOf(changes), cols, h0)
    ensures Meaning(k, h0, db, oldTree, newTree)
  {
    EntryReported(changes, oldTree, newTree, root, k);
    hide Faithful, Tree, HashOf, FetchOf;
  }

  lemma {:induction false} KnownInFull(changes: seq<Change>, n: nat, k: Id)
    requires n <= |changes| && k in HashOf(changes[..n])
    ensures k in HashOf(changes)
    decreases |changes| - n
  {
    if n < |changes| {
      assert changes[..n + 1][..n] == changes[..n];
      KnownInFull(changes, n + 1, k);
    } else {
      assert changes[..n] == changes;
    }
  }

  /** What a parent map with fewer entries knows, it knows without cycles. */
  lemma {:induction false} FewerEntriesGrounded(t: ParentMap, all: ParentMap, k: Id, top: Id, n: nat)
    requires forall j :: j in t ==> j in all && t[j] == all[j]
    requires Climbs(all, k, top, n)
    ensures Grounded(t, k)
    decreases n
  {
    if k in t {
      FewerEntriesGrounded(t, all, t[k], top, n - 1);
      var top': Id, n': nat :| Climbs(t, t[k], top', n');
      assert Climbs(t, k, top', n' + 1);
    } else {
      assert Climbs(t, k, k, 0);
    }
  }

  lemma MeaningAcyclic(h0: FolderHash, db: ParentMap, oldTree: ParentMap, newTree: ParentMap, root: Id)
    requires Tree(newTree, root) && forall k :: Meaning(k, h0, db, oldTree, newTree)
    ensures Acyclic(ServerParents(h0, h0.Keys))
  {
    var t := ServerParents(h0, h0.Keys);
    forall j | j in t
      ensures j in newTree && t[j] == newTree[j]
    {
      assert Meaning(j, h0, db, oldTree, newTree);
    }
    forall k | k in t
      ensures Grounded(t, k)
    {
      var top, n :| Climbs(newTree, k, top, n);
      FewerEntriesGrounded(t, newTree, k, top, n);
    }
  }

  lemma MeaningMoved(h0: FolderHash, db: ParentMap, oldTree: ParentMap, newTree: ParentMap, root: Id, k: Id)
    requires Tree(oldTree, root) && Tree(newTree, root) && UpTo(db, oldTree, newTree)
    requires forall k :: Meaning(k, h0, db, oldTree, newTree)
    ensures k in h0 && h0[k].IsMoved() <==> k in db && k in oldTree && k in newTree && db[k] != newTree[k]
  {
    assert Meaning(k, h0, db, oldTree, newTree);
  }

  lemma MeaningBlocked(h0: FolderHash, db: ParentMap, oldTree: ParentMap, newTree: ParentMap, root: Id, k: Id)
    requires Tree(oldTree, root) && Tree(newTree, root) && UpTo(db, oldTree, newTree)
    requires forall k :: Meaning(k, h0, db, oldTree, newTree)
    ensures Blocked(h0, k) <==> MovedBelowCreated(k, db, oldTree, newTree)
  {
    assert Meaning(k, h0, db, oldTree, newTree);
    MeaningMoved(h0, db, oldTree, newTree, root, k);
    if k in h0 {
      assert Meaning(h0[k].Parent(), h0, db, oldTree, newTree);
    }
  }

  lemma MeaningIsExact(h0: FolderHash, db: ParentMap, oldTree: ParentMap, newTree: ParentMap, root: Id)
    requires Tree(oldTree, root) && Tree(newTree, root) && UpTo(db, oldTree, newTree)
    requires forall k :: Meaning(k, h0, db, oldTree, newTree)
    ensures Acyclic(ServerParents(h0, h0.Keys))
    ensures forall k :: Blocked(h0, k) <==> MovedBelowCreated(k, db, oldTree, newTree)
    ensures db + DueChanges(h0, h0.Keys) - DueDeletions(h0) == newTree
    ensures forall k :: k in h0 && h0[k].IsMoved() <==> k in db && k in oldTree && k in newTree && db[k] != newTree[k]
  {
    hide *;
    MeaningAcyclic(h0, db, oldTree, newTree, root);
    forall k
      ensures Blocked(h0, k) <==> MovedBelowCreated(k, db, oldTree, newTree)
    {
      MeaningBlocked(h0, db, oldTree, newTree, root, k);
    }
    forall k
      ensures k in h0 && h0[k].IsMoved() <==> k in db && k in oldTree && k in newTree && db[k] != newTree[k]
    {
      MeaningMoved(h0, db, oldTree, newTree, root, k);
    }
    MeaningResult(h0, db, oldTree, newTree, root);
  }

  lemma MeaningResult(h0: FolderHash, db: ParentMap, oldTree: ParentMap, newTree: ParentMap, root: Id)
    requires UpTo(db, oldTree, newTree) && forall k :: Meaning(k, h0, db, oldTree, newTree)
    ensures db + DueChanges(h0, h0.Keys) - DueDeletions(h0) == newTree
  {
    var result := db + DueChanges(h0, h0.Keys) - DueDeletions(h0);
    forall k
      ensures k in result <==> k in newTree
      ensures k in newTree ==> result[k] == newTree[k]
    {
      assert Meaning(k, h0, db, oldTree, newTree);
    }
  }

  /**
   The incremental job on a faithful change list: no cycle can stop it, it gives up exactly when a
   folder was moved below a just created one, and otherwise what it reports turns the local tree into
   the new server tree.
   */
  lemma IncrementalIsExact(changes: seq<Change>, cols: seq<Collection>, h0: FolderHash,
                           db: ParentMap, oldTree: ParentMap, newTree: ParentMap, root: Id)
    requires Tree(oldTree, root) && Tree(newTree, root) && Faithful(changes, oldTree, newTree, root)
    requires UpTo(db, oldTree, newTree)
    requires Fetched(cols, FetchOf(changes), db) && FilledFrom(HashOf(changes), cols, h0)
    ensures Acyclic(ServerParents(h0, h0.Keys))
    ensures forall k :: Blocked(h0, k) <==> MovedBelowCreated(k, db, oldTree, newTree)
    ensures db + DueChanges(h0, h0.Keys) - DueDeletions(h0) == newTree
    ensures forall k :: k in h0 && h0[k].IsMoved() <==> HasMoved(k, db, oldTree, newTree)
    ensures h0.Keys <= oldTree.Keys + newTree.Keys
  {
    forall k
      ensures Meaning(k, h0, db, oldTree, newTree)
    {
      HashMeaning(changes, cols, h0, db, oldTree, newTree, root, k);
    }
    MeaningIsExact(h0, db, oldTree, newTree, root);
    MeaningKnown(h0, db, oldTree, newTree);
  }

  lemma MeaningKnown(h0: FolderHash, db: ParentMap, oldTree: ParentMap, newTree: ParentMap)
    requires forall k :: Meaning(k, h0, db, oldTree, newTree)
    ensures h0.Keys <= oldTree.Keys + newTree.Keys
  {
    forall k | k in h0
      ensures k in oldTree.Keys + newTree.Keys
    {
      assert Meaning(k, h0, db, oldTree, newTree);
    }
  }

  /** A created folder is announced after its created parent, and nothing moves below a created folder. */
  ghost predicate ParentsFirst(changes: seq<Change>, db: ParentMap) {
    forall i :: 0 <= i < |changes| ==> PresentAt(changes, i, db)
  }

  ghost predicate PresentAt(changes: seq<Change>, i: nat, db: ParentMap)
    requires i < |changes|
  {
    Present(changes[i], HashOf(changes[..i + 1]), db)
  }

  /** What a change needs is there, in the local tree or, for the parent of a creation, in the hash. */
  ghost predicate Present(ch: Change, h: FolderHash, db: ParentMap) {
    match ch
    case Update(f) => f.parentId in db && f.id in db
    case Create(f) => f.parentId in db || KnownAsCreated(h, f.parentId)
    case Delete(id) => id in db
    case Other => true
  }

  lemma TwoLevels(t: ParentMap, root: Id, a: Id, b: Id)
    requires root in t && a in t && b in t && t.Keys == {root, a, b} && NULL_ID !in t
    requires t[root] == NULL_ID && t[a] == root && t[b] in {root, a}
    ensures Tree(t, root)
  {
    assert Climbs(t, NULL_ID, NULL_ID, 0);
    assert Climbs(t, root, NULL_ID, 1);
    assert Climbs(t, a, NULL_ID, 2);
    assert Climbs(t, b, NULL_ID, if t[b] == root then 2 else 3);
  }

  /**
   Folder 2 was created, by this resource, and folder 3 was moved into it: every collection that is asked for exists,
   and the incremental job fails nevertheless.
   */
  lemma MovedIntoNew()
    ensures var changes := [Create(EwsFolder(2, 1)), Update(EwsFolder(3, 2))];
            var db, oldTree, newTree := map[1 := 0, 2 := 1, 3 := 1], map[1 := 0, 3 := 1], map[1 := 0, 2 := 1, 3 := 2];
            && Tree(oldTree, 1) && Tree(newTree, 1) && Faithful(changes, oldTree, newTree, 1)
            && UpTo(db, oldTree, newTree) && ParentsFirst(changes, db) && MovedBelowCreated(3, db, oldTree, newTree)
  {
    var changes := [Create(EwsFolder(2, 1)), Update(EwsFolder(3, 2))];
    assert changes[0] in changes && changes[1] in changes;
    TwoLevels(map[1 := 0, 3 := 1], 1, 3, 3);
    TwoLevels(map[1 := 0, 2 := 1, 3 := 2], 1, 2, 3);
    hide Tree;
  }

  lemma {:induction false} ParentsFirstLast(changes: seq<Change>, db: ParentMap)
    requires changes != []
    ensures ParentsFirst(changes, db) <==>
            && ParentsFirst(changes[..|changes| - 1], db)
            && Present(changes[|changes| - 1], HashOf(changes), db)
  {
    hide Present, HashOf;
    var n := |changes| - 1;
    var init := changes[..n];
    assert changes[..n + 1] == changes;
    forall i: nat | i < n
      ensures PresentAt(init, i, db) <==> PresentAt(changes, i, db)
    {
      assert init[i] == changes[i] && init[..i + 1] == changes[..i + 1];
    }
    assert PresentAt(changes, n, db) <==> Present(changes[n], HashOf(changes), db);
    hide PresentAt;
  }

  /** The job asks only for existing local collections exactly if parents come first. */
  lemma {:induction false} FetchableExactly(changes: seq<Change>, db: ParentMap)
    ensures FetchOf(changes) <= db.Keys <==> ParentsFirst(changes, db)
  {
    if changes != [] {
      var n := |changes| - 1;
      FetchableExactly(changes[..n], db);
      ParentsFirstLast(changes, db);
      hide ParentsFirst;
      var needed := Needed(HashOf(changes), changes[n]);
      assert FetchOf(changes) == FetchOf(changes[..n]) + needed;
      assert needed <= db.Keys <==> Present(changes[n], HashOf(changes), db);
    }
  }

  /** A tree that agrees with the last synchronised one may be brought up to any other. */
  lemma AgreesIsUpTo(db: ParentMap, oldTree: ParentMap, newTree: ParentMap, gone: set<Id>, root: Id)
    requires Agrees(db, oldTree, gone, root)
    ensures UpToWithout(db, oldTree, newTree, gone, root)
  {
  }

  lemma PrunedTree(t: ParentMap, gone: set<Id>, root: Id)
    requires Tree(t, root) && Lacking(gone, t, root)
    ensures Tree(t - gone, root)
  {
    forall k | k in t - gone
      ensures Grounded(t - gone, k)
    {
      var top, n :| Climbs(t, k, top, n);
      FewerEntriesGrounded(t - gone, t, k, top, n);
    }
  }

  /** A change of a folder that is locally missing, or below one, cannot be applied. */
  lemma MissingUntouched(changes: seq<Change>, db: ParentMap, oldTree: ParentMap, newTree: ParentMap, gone: set<Id>,
                         root: Id, i: nat)
    requires Faithful(changes, oldTree, newTree, root) && UpToWithout(db, oldTree, newTree, gone, root)
    requires ParentsFirst(changes, db) && i < |changes| && !changes[i].Other?
    ensures ChangedId(changes[i]) !in gone
    ensures !changes[i].Delete? ==> changes[i].folder.parentId !in gone
  {
    assert PresentAt(changes, i, db);
    assert FaithfulChange(changes[i], oldTree, newTree, root);
    if changes[i].Create? {
      var p := changes[i].folder.parentId;
      HashEntries(changes[..i + 1], p);
      if KnownAsCreated(HashOf(changes[..i + 1]), p) {
        var j :| 0 <= j < |changes[..i + 1]| && !changes[j].Other? && ChangedId(changes[j]) == p
                 && HashOf(changes[..i + 1])[p] == Descr(changes[j]);
        assert FaithfulChange(changes[j], oldTree, newTree, root);
      }
    }
  }

  /** The server has not changed what is locally missing if all that the changes need is there. */
  lemma MissingStays(changes: seq<Change>, db: ParentMap, oldTree: ParentMap, newTree: ParentMap, gone: set<Id>,
                     root: Id)
    requires Faithful(changes, oldTree, newTree, root) && UpToWithout(db, oldTree, newTree, gone, root)
    requires ParentsFirst(changes, db)
    ensures Lacking(gone, newTree, root) && forall k :: k in gone ==> newTree[k] == oldTree[k]
  {
    hide ParentsFirst;
    forall k | k in gone
      ensures k in newTree && newTree[k] == oldTree[k]
    {
      var ch := if k in newTree then Update(EwsFolder(k, newTree[k])) else Delete(k);
      if ch in changes {
        var i :| 0 <= i < |changes| && changes[i] == ch;
        MissingUntouched(changes, db, oldTree, newTree, gone, root, i);
      }
    }
    forall k | k in newTree && newTree[k] in gone
      ensures k in gone
    {
      var f := EwsFolder(k, newTree[k]);
      var ch := if k in oldTree then Update(f) else Create(f);
      if ch in changes {
        var i :| 0 <= i < |changes| && changes[i] == ch;
        MissingUntouched(changes, db, oldTree, newTree, gone, root, i);
      }
    }
  }

  /** Then the changes lead from the old tree without these folders to the new one without them. */
  lemma PrunedChanges(changes: seq<Change>, db: ParentMap, oldTree: ParentMap, newTree: ParentMap, gone: set<Id>,
                      root: Id)
    requires Faithful(changes, oldTree, newTree, root) && UpToWithout(db, oldTree, newTree, gone, root)
    requires ParentsFirst(changes, db)
    ensures Lacking(gone, newTree, root) && UpTo(db, oldTree - gone, newTree - gone)
    ensures Faithful(changes, oldTree - gone, newTree - gone, root)
  {
    MissingStays(changes, db, oldTree, newTree, gone, root);
    forall i | 0 <= i < |changes|
      ensures FaithfulChange(changes[i], oldTree - gone, newTree - gone, root)
    {
      assert FaithfulChange(changes[i], oldTree, newTree, root);
      if !changes[i].Other? {
        MissingUntouched(changes, db, oldTree, newTree, gone, root, i);
      }
    }
    hide ParentsFirst, FaithfulChange;
  }

  /** What has moved in the local tree, and where to, does not depend on the folders that are missing. */
  lemma PrunedMoves(db: ParentMap, oldTree: ParentMap, newTree: ParentMap, gone: set<Id>, root: Id)
    requires UpToWithout(db, oldTree, newTree, gone, root) && Lacking(gone, newTree, root)
    ensures forall k :: HasMoved(k, db, oldTree - gone, newTree - gone) <==> HasMoved(k, db, oldTree, newTree)
    ensures forall k :: MovedBelowCreated(k, db, oldTree - gone, newTree - gone) <==>
                        MovedBelowCreated(k, db, oldTree, newTree)
  {
  }

  /** All that the incremental job rests on holds of the trees without the missing folders. */
  lemma WithoutGone(changes: seq<Change>, db: ParentMap, oldTree: ParentMap, newTree: ParentMap, gone: set<Id>,
                    root: Id)
    requires Tree(oldTree, root) && Tree(newTree, root) && Faithful(changes, oldTree, newTree, root)
    requires UpToWithout(db, oldTree, newTree, gone, root) && ParentsFirst(changes, db)
    ensures Lacking(gone, newTree, root)
    ensures Tree(oldTree - gone, root) && Tree(newTree - gone, root)
    ensures Faithful(changes, oldTree - gone, newTree - gone, root) && UpTo(db, oldTree - gone, newTree - gone)
    ensures forall k :: HasMoved(k, db, oldTree - gone, newTree - gone) <==> HasMoved(k, db, oldTree, newTree)
    ensures forall k :: MovedBelowCreated(k, db, oldTree - gone, newTree - gone) <==>
                        MovedBelowCreated(k, db, oldTree, newTree)
  {
    PrunedChanges(changes, db, oldTree, newTree, gone, root);
    hide Faithful, Tree, Whole, ParentsFirst;
    PrunedTree(oldTree, gone, root);
    PrunedTree(newTree, gone, root);
    PrunedMoves(db, oldTree, newTree, gone, root);
  }

  /** Storing a list of collections: each one is added or takes its new parent. */
  function Upsert(db: ParentMap, s: seq<Collection>): ParentMap {
    if s == [] then db else
      var c := s[|s| - 1];
      Upsert(db, s[..|s| - 1])[c.Rid() := c.Parent().Rid()]
  }

  lemma {:induction false} UpsertListed(db: ParentMap, s: seq<Collection>, k: Id)
    requires forall i, j :: 0 <= i < j < |s| ==> s[i].Rid() != s[j].Rid()
    ensures k in Upsert(db, s) <==> k in db || exists i :: 0 <= i < |s| && s[i].Rid() == k
    ensures forall i :: 0 <= i < |s| && s[i].Rid() == k ==>
            k in Upsert(db, s) && Upsert(db, s)[k] == s[i].Parent().Rid()
    ensures k in db && (forall i :: 0 <= i < |s| ==> s[i].Rid() != k) ==>
            k in Upsert(db, s) && Upsert(db, s)[k] == db[k]
  {
    if s != [] {
      var n := |s| - 1;
      var init := s[..n];
      assert forall i :: 0 <= i < n ==> init[i] == s[i];
      UpsertListed(db, init, k);
      if k in Upsert(db, s) && s[n].Rid() != k && k !in db {
        var i :| 0 <= i < |init| && init[i].Rid() == k;
        assert s[i].Rid() == k;
      }
    }
  }

  lemma WithoutLast(db: ParentMap, k: Id, parent: Id)
    ensures db[k := parent] - {NULL_ID} == if k == NULL_ID then db - {NULL_ID} else (db - {NULL_ID})[k := parent]
  {
  }

  /** Empty collections leave one nameless entry, and no other trace. */
  lemma {:induction false} UpsertNamed(db: ParentMap, s: seq<Collection>)
    requires NULL_ID !in db
    ensures Upsert(db, s) - {NULL_ID} == Upsert(db, Full.Named(s)) && NULL_ID !in Upsert(db, Full.Named(s))
    ensures NULL_ID in Upsert(db, s) <==> Full.HasEmpty(s)
  {
    if s == [] {
      assert db - {NULL_ID} == db;
    } else {
      var n := |s| - 1;
      UpsertNamed(db, s[..n]);
      assert s == s[..n] + [s[n]];
      Full.HasEmptyConcat(s[..n], [s[n]]);
      Full.HasEmptyOne(s[n]);
      var named := Full.Named(s[..n]);
      if s[n].Rid() == NULL_ID {
        assert Full.Named(s) == named;
      } else {
        assert Full.Named(s) == named + [s[n]];
        assert (named + [s[n]])[..|named|] == named;
        assert Upsert(db, named + [s[n]]) == Upsert(db, named)[s[n].Rid() := s[n].Parent().Rid()];
      }
      WithoutLast(Upsert(db, s[..n]), s[n].Rid(), s[n].Parent().Rid());
    }
  }

  lemma UpsertIsUnion(db: ParentMap, s: seq<Collection>, want: ParentMap)
    requires ListsOnce(s, want)
    ensures Upsert(db, s) == db + want
  {
    forall k
      ensures k in Upsert(db, s) <==> k in db + want
      ensures k in db + want ==> Upsert(db, s)[k] == (db + want)[k]
    {
      UpsertListed(db, s, k);
      if k in want {
        var i :| 0 <= i < |s| && s[i].Rid() == k;
      }
    }
  }

  /** The folders of a server tree, page by page, the way a full fetch returns them. */
  ghost predicate FullListing(pages: seq<seq<Change>>, newTree: ParentMap, root: Id) {
    && pages != []
    && (forall i :: 0 <= i < |pages| ==> Full.AllCreated(pages[i]))
    && Full.DistinctIds(PageFolders(pages)) && Full.ParentsOf(PageFolders(pages)) == newTree - {root}
  }

  function PageFolders(pages: seq<seq<Change>>): seq<EwsFolder> {
    if pages == [] then [] else
      var last := pages[|pages| - 1];
      PageFolders(pages[..|pages| - 1]) + if Full.AllCreated(last) then Full.Folders(last) else []
  }

  /** The identifiers of the server tree, page by page, the way an id-only fetch returns them. */
  ghost predicate IdListing(pages: seq<seq<Change>>, folders: ParentMap) {
    && pages != [] && (forall i :: 0 <= i < |pages| ==> Full.AllCreated(pages[i]))
    && Distinct(Full.FolderIds(PageFolders(pages)))
    && folders.Keys == set id | id in Full.FolderIds(PageFolders(pages))
  }

  /** The folders of a request that are found: the response for each of `missing` is an error. */
  function Found(ids: seq<Id>, missing: set<Id>): seq<Id> {
    if ids == [] then [] else
      var n := |ids| - 1;
      Found(ids[..n], missing) + if ids[n] in missing then [] else [ids[n]]
  }

  lemma {:induction false} FoundCounts(ids: seq<Id>, missing: set<Id>, id: Id)
    ensures multiset(Found(ids, missing))[id] == if id in missing then 0 else multiset(ids)[id]
  {
    if ids != [] {
      var n := |ids| - 1;
      FoundCounts(ids[..n], missing, id);
      assert ids == ids[..n] + [ids[n]];
      CountLast(ids[..n], ids[n], id);
      CountLast(Found(ids[..n], missing), ids[n], id);
      FoundLast(ids, missing);
      hide Found;
    }
  }

  lemma CountLast(s: seq<Id>, last: Id, id: Id)
    ensures multiset(s + [last])[id] == multiset(s)[id] + if last == id then 1 else 0
  {
  }

  lemma FoundLast(ids: seq<Id>, missing: set<Id>)
    requires ids != []
    ensures var front, last := Found(ids[..|ids| - 1], missing), ids[|ids| - 1];
            Found(ids, missing) == if last in missing then front else front + [last]
  {
  }

  /** Each identifier that is asked for once is found once, unless it is missing. */
  lemma FoundOnce(ids: seq<Id>, missing: set<Id>)
    requires Distinct(ids)
    ensures Distinct(Found(ids, missing))
    ensures forall id :: id in Found(ids, missing) <==> id in ids && id !in missing
  {
    var found := Found(ids, missing);
    forall i, j | 0 <= i < j < |found|
      ensures found[i] != found[j]
    {
      FoundCounts(ids, missing, found[i]);
      Full.OnceInMultiset(ids, found[i]);
      if found[i] == found[j] {
        Full.TwiceInMultiset(found, i, j);
      }
    }
    forall id
      ensures id in found <==> id in ids && id !in missing
    {
      FoundCounts(ids, missing, id);
      assert id in found <==> id in multiset(found);
      assert id in ids <==> id in multiset(ids);
    }
  }

  lemma FoundSum(ids: seq<Id>, a: seq<Id>, b: seq<Id>, missing: set<Id>)
    requires multiset(ids) == multiset(a) + multiset(b)
    ensures multiset(Found(ids, missing)) == multiset(Found(a, missing)) + multiset(Found(b, missing))
  {
    forall id
      ensures multiset(Found(ids, missing))[id] == (multiset(Found(a, missing)) + multiset(Found(b, missing)))[id]
    {
      FoundCounts(ids, missing, id);
      FoundCounts(a, missing, id);
      FoundCounts(b, missing, id);
    }
  }

  /** The server's answer to a request for the details of some folders: the responses for `missing` are errors. */
  function ResponsesFor(ids: seq<Id>, folders: ParentMap, missing: set<Id>): seq<Option<EwsFolder>>
    requires forall i :: 0 <= i < |ids| ==> ids[i] in folders
  {
    seq(|ids|, i requires 0 <= i < |ids| =>
      if ids[i] in missing then None else Some(EwsFolder(ids[i], folders[ids[i]])))
  }

  /** The folders that the answer brings. */
  lemma {:induction false} DetailsAre(ids: seq<Id>, folders: ParentMap, missing: set<Id>)
    requires forall i :: 0 <= i < |ids| ==> ids[i] in folders
    ensures Full.FolderIds(Full.Successes(ResponsesFor(ids, folders, missing))) == Found(ids, missing)
    ensures Correct(Full.Successes(ResponsesFor(ids, folders, missing)), folders)
  {
    if ids != [] {
      var n := |ids| - 1;
      DetailsAre(ids[..n], folders, missing);
      var before, answer := ResponsesFor(ids[..n], folders, missing), ResponsesFor(ids, folders, missing);
      assert answer[..n] == before;
      var front, all := Full.Successes(before), Full.Successes(answer);
      if ids[n] in missing {
        assert all == front;
      } else {
        assert all == front + [EwsFolder(ids[n], folders[ids[n]])];
        assert all[..|all| - 1] == front && all[|all| - 1].id == ids[n];
      }
    }
  }

  ghost predicate Correct(fs: seq<EwsFolder>, folders: ParentMap) {
    forall i :: 0 <= i < |fs| ==> fs[i].id in folders && folders[fs[i].id] == fs[i].parentId
  }

  lemma CorrectConcat(fs: seq<EwsFolder>, more: seq<EwsFolder>, folders: ParentMap)
    requires Correct(fs, folders) && Correct(more, folders)
    ensures Correct(fs + more, folders)
  {
  }

  /** One answer moves the folders that it brings from the outstanding to the received ones. */
  lemma OneAnswer(jobs: seq<seq<Id>>, which: nat, fs: seq<EwsFolder>, kept: seq<EwsFolder>, ids: seq<Id>,
                  folders: ParentMap, missing: set<Id>)
    requires which < |jobs| && forall i :: 0 <= i < |jobs[which]| ==> jobs[which][i] in folders
    requires Outstanding(jobs, fs, missing) == multiset(Full.FolderIds(kept)) + multiset(Found(ids, missing))
    requires folders.Keys == (set id | id in ids) && Distinct(ids) && Full.DistinctIds(kept)
    requires Correct(fs, folders) && Correct(kept, folders)
    ensures var all := fs + Full.Successes(ResponsesFor(jobs[which], folders, missing));
            && Outstanding(jobs[..which] + jobs[which + 1..], all, missing)
               == multiset(Full.FolderIds(kept)) + multiset(Found(ids, missing))
            && Correct(all, folders)
            && (|jobs| == 1 ==>
                  && Full.OneParent(all) && Full.ParentsOf(all) == folders - (folders.Keys * missing - Full.IdSet(kept))
                  && (Full.DistinctIds(all) <==> Full.IdSet(kept) <= missing))
  {
    hide Full.FolderIds, ResponsesFor, Full.Successes, Correct, Distinct, Full.DistinctIds, Full.ParentsOf,
         Full.OneParent, Flatten, Found, Full.IdSet;
    FlattenWithout(jobs, which);
    var rest := jobs[..which] + jobs[which + 1..];
    var details := Full.Successes(ResponsesFor(jobs[which], folders, missing));
    FoundSum(Flatten(jobs), Flatten(rest), jobs[which], missing);
    DetailsAre(jobs[which], folders, missing);
    Full.FolderIdsConcat(fs, details);
    CorrectConcat(fs, details, folders);
    assert Outstanding(rest, fs + details, missing)
        == multiset(Full.FolderIds(kept)) + multiset(Found(ids, missing));
    if |jobs| == 1 {
      assert rest == [];
      hide Outstanding;
      LastAnswer(fs + details, kept, ids, folders, missing);
    }
  }

  lemma NothingOutstanding(fs: seq<EwsFolder>, missing: set<Id>)
    ensures Outstanding([], fs, missing) == multiset(Full.FolderIds(fs))
  {
    assert Flatten<Id>([]) == [] && Found([], missing) == [];
  }

  lemma LastAnswer(fs: seq<EwsFolder>, kept: seq<EwsFolder>, ids: seq<Id>, folders: ParentMap, missing: set<Id>)
    requires Outstanding([], fs, missing) == multiset(Full.FolderIds(kept)) + multiset(Found(ids, missing))
    requires folders.Keys == (set id | id in ids) && Distinct(ids) && Full.DistinctIds(kept)
    requires Correct(fs, folders) && Correct(kept, folders)
    ensures Full.OneParent(fs) && Full.ParentsOf(fs) == folders - (folders.Keys * missing - Full.IdSet(kept))
    ensures Full.DistinctIds(fs) <==> Full.IdSet(kept) <= missing
  {
    var t := folders - (folders.Keys * missing - Full.IdSet(kept));
    hide Full.FolderIds, Correct, Distinct, Full.DistinctIds, Full.ParentsOf, Full.OneParent, Found, Outstanding,
         Full.IdSet, Flatten;
    FoundOnce(ids, missing);
    NothingOutstanding(fs, missing);
    ReceivedCorrect(fs, kept, Found(ids, missing), folders, missing);
    KeptKnown(kept, folders);
    assert t.Keys == Full.IdSet(kept) + set id | id in Found(ids, missing);
    Full.DetailsComplete(fs, kept, Found(ids, missing), t);
    KeptAgain(kept, Found(ids, missing), folders, missing);
  }

  lemma ReceivedCorrect(fs: seq<EwsFolder>, kept: seq<EwsFolder>, found: seq<Id>, folders: ParentMap, missing: set<Id>)
    requires multiset(Full.FolderIds(fs)) == multiset(Full.FolderIds(kept)) + multiset(found)
    requires Correct(fs, folders) && forall id :: id in found ==> id !in missing
    ensures var t := folders - (folders.Keys * missing - Full.IdSet(kept));
            forall i :: 0 <= i < |fs| ==> fs[i].id in t && t[fs[i].id] == fs[i].parentId
  {
    forall i | 0 <= i < |fs|
      ensures fs[i].id !in missing || fs[i].id in Full.IdSet(kept)
    {
      Full.FolderIdsAt(fs);
      Full.FolderIdsAt(kept);
      var k := Full.FolderIds(fs)[i];
      assert k in multiset(Full.FolderIds(fs));
      if k !in multiset(found) {
        assert k in Full.FolderIds(kept);
        var j :| 0 <= j < |kept| && Full.FolderIds(kept)[j] == k;
        assert kept[j].id in Full.IdSet(kept);
      }
    }
  }

  lemma KeptAgain(kept: seq<EwsFolder>, found: seq<Id>, folders: ParentMap, missing: set<Id>)
    requires Correct(kept, folders) && forall id :: id in found <==> id in folders && id !in missing
    ensures (forall i :: 0 <= i < |kept| ==> kept[i].id !in found) <==> Full.IdSet(kept) <= missing
  {
    if Full.IdSet(kept) <= missing {
      forall i | 0 <= i < |kept|
        ensures kept[i].id !in found
      {
        assert kept[i].id in Full.IdSet(kept);
      }
    }
  }

  /** The folders that are still to come, and those that have been received. */
  ghost function Outstanding(jobs: seq<seq<Id>>, fs: seq<EwsFolder>, missing: set<Id>): multiset<Id> {
    multiset(Found(Flatten(jobs), missing)) + multiset(Full.FolderIds(fs))
  }

  lemma KeptKnown(kept: seq<EwsFolder>, folders: ParentMap)
    requires Correct(kept, folders)
    ensures Full.IdSet(kept) <= folders.Keys
  {
  }

  /** In a tree every folder is below the root, so the full fetch finds no orphans. */
  lemma {:induction false} AllBelowRoot(t: ParentMap, root: Id, k: Id, top: Id, n: nat)
    requires Tree(t, root) && k in t && k != root && Climbs(t, k, top, n)
    ensures k in Below(t - {root}, root)
    decreases n
  {
    var u := t - {root};
    if t[k] == root {
      assert Under(u, root, root, 0);
      assert Under(u, k, root, 1);
    } else {
      AllBelowRoot(t, root, t[k], top, n - 1);
      var m: nat :| m > 0 && Under(u, t[k], root, m);
      assert Under(u, k, root, m + 1);
    }
  }

  lemma BelowRootIsAll(newTree: ParentMap, root: Id)
    requires Tree(newTree, root)
    ensures Below(newTree - {root}, root) == (newTree - {root}).Keys
  {
    forall k | k in newTree - {root}
      ensures k in Below(newTree - {root}, root)
    {
      var top, n :| Climbs(newTree, k, top, n);
      AllBelowRoot(newTree, root, k, top, n);
    }
  }

  /** The root followed by a listing of everything else is a listing of the whole tree. */
  lemma RootThenRest(folders: seq<Collection>, rest: seq<Collection>, rootCollection: Collection, t: ParentMap)
    requires rootCollection.Rid() !in t && folders == [rootCollection] + rest
    requires Full.Listing(rest, rootCollection, t.Keys, t)
    ensures ListsOnce(folders, t[rootCollection.Rid() := rootCollection.Parent().Rid()])
  {
    hide Full.AfterParent;
    var root, want := rootCollection.Rid(), t[rootCollection.Rid() := rootCollection.Parent().Rid()];
    assert folders[0] == rootCollection;
    forall i | 1 <= i < |folders|
      ensures folders[i] == rest[i - 1] && folders[i].Rid() in t && folders[i].Parent().Rid() == t[folders[i].Rid()]
    {
      assert rest[i - 1].Collection?;
    }
    forall i, j | 0 <= i < j < |folders|
      ensures folders[i].Rid() != folders[j].Rid()
    {
      assert folders[j] == rest[j - 1];
      assert i > 0 ==> folders[i] == rest[i - 1];
    }
    forall k | k in want
      ensures exists i :: 0 <= i < |folders| && folders[i].Rid() == k
    {
      if k == root {
        assert folders[0].Rid() == k;
      } else {
        assert k in t.Keys;
        var i :| 0 <= i < |rest| && rest[i].Rid() == k;
        assert folders[i + 1].Rid() == k;
      }
    }
  }

  /** The list of a full fetch is the whole server tree, and there are no orphans in it. */
  lemma FullListIsTree(folders: seq<Collection>, rootCollection: Collection, newTree: ParentMap, root: Id)
    requires Tree(newTree, root) && rootCollection.Rid() == root && rootCollection.Parent().Rid() == NULL_ID
    requires folders != [] && folders[0] == rootCollection
    requires Full.Listing(folders[1..], rootCollection, Below(newTree - {root}, root), newTree - {root})
    ensures Upsert(map[], folders) == newTree
    ensures forall k :: k in newTree - {root} ==> k in Below(newTree - {root}, root)
  {
    hide *;
    BelowRootIsAll(newTree, root);
    RootThenRest(folders, folders[1..], rootCollection, newTree - {root});
    RootRestored(newTree, root);
    UpsertIsUnion(map[], folders, newTree);
  }

  /** The same with empty collections in the list: they leave a nameless entry beside the tree. */
  lemma ListWithEmpties(rest: seq<Collection>, rootCollection: Collection, newTree: ParentMap, root: Id)
    requires Tree(newTree, root) && rootCollection.Rid() == root && rootCollection.Parent().Rid() == NULL_ID
    requires Full.Listing(Full.Named(rest), rootCollection, Below(newTree - {root}, root), newTree - {root})
    ensures var db := Upsert(map[], [rootCollection] + rest);
            db - {NULL_ID} == newTree && (db == newTree <==> !Full.HasEmpty(rest))
    ensures forall k :: k in newTree - {root} ==> k in Below(newTree - {root}, root)
  {
    var folders, named := [rootCollection] + rest, Full.Named(rest);
    TreeHasNoNull(newTree, root);
    hide Tree, Full.Listing, Full.Named, Full.HasEmpty, Below, Upsert;
    Full.NamedConcat([rootCollection], rest);
    Full.NamedOne(rootCollection);
    Full.HasEmptyConcat([rootCollection], rest);
    Full.HasEmptyOne(rootCollection);
    UpsertNamed(map[], folders);
    assert ([rootCollection] + named)[1..] == named;
    FullListIsTree([rootCollection] + named, rootCollection, newTree, root);
    WithoutNull(Upsert(map[], folders), newTree);
  }

  lemma WithoutNull(db: ParentMap, t: ParentMap)
    requires db - {NULL_ID} == t && NULL_ID !in t
    ensures db == t <==> NULL_ID !in db
  {
    assert NULL_ID !in db ==> db - {NULL_ID} == db;
  }

  lemma WithoutNullAgain(db: ParentMap, t: ParentMap)
    requires NULL_ID !in t
    ensures db == t <==> db - {NULL_ID} == t && NULL_ID !in db
  {
    assert NULL_ID !in db ==> db - {NULL_ID} == db;
  }

  lemma LackingNone(t: ParentMap, gone: set<Id>)
    requires gone <= t.Keys
    ensures t - gone == t <==> gone == {}
  {
    if k :| k in gone {
      assert k in t && k !in t - gone;
    }
  }

  lemma TreeHasNoNull(t: ParentMap, root: Id)
    requires Tree(t, root)
    ensures NULL_ID !in t && root != NULL_ID && HaveParents(t - {root})
  {
  }

  /** Every folder has a parent. */
  ghost predicate HaveParents(folders: ParentMap) {
    forall k :: k in folders ==> folders[k] != NULL_ID
  }

  lemma PagesCorrect(pages: seq<seq<Change>>, newTree: ParentMap, root: Id, n: nat)
    requires FullListing(pages, newTree, root) && n <= |pages|
    ensures Correct(PageFolders(pages[..n]), newTree - {root}) && Full.DistinctIds(PageFolders(pages[..n]))
  {
    PagesPrefix(pages, n);
    Full.ParentsOfKeys(PageFolders(pages));
    var fs, all := PageFolders(pages[..n]), PageFolders(pages);
    assert forall i :: 0 <= i < |fs| ==> fs[i] == all[i];
  }

  lemma {:induction false} PagesPrefix(pages: seq<seq<Change>>, n: nat)
    requires n <= |pages|
    ensures PageFolders(pages[..n]) <= PageFolders(pages)
  {
    if n == |pages| {
      assert pages[..n] == pages;
    } else {
      var front := pages[..|pages| - 1];
      PagesPrefix(front, n);
      assert front[..n] == pages[..n];
    }
  }

  lemma RootRestored(t: ParentMap, root: Id)
    requires Tree(t, root)
    ensures (t - {root})[root := NULL_ID] == t && map[] + t == t
  {
  }

  lemma FaithfulNamed(changes: seq<Change>, oldTree: ParentMap, newTree: ParentMap, root: Id)
    requires Tree(oldTree, root) && Tree(newTree, root) && Faithful(changes, oldTree, newTree, root)
    ensures Named(changes)
  {
    forall ch | ch in changes && !ch.Other?
      ensures ChangedId(ch) != NULL_ID
    {
      var i :| 0 <= i < |changes| && changes[i] == ch;
      assert FaithfulChange(changes[i], oldTree, newTree, root);
    }
  }

  ghost predicate OnlyUnknown(changes: seq<Change>) {
    forall i :: 0 <= i < |changes| ==> changes[i].Other?
  }

  /** Only a list of unknown changes needs no local collection. */
  lemma {:induction false} NothingNeeded(changes: seq<Change>)
    requires forall i :: 0 <= i < |changes| && changes[i].Create? ==> changes[i].folder.id != changes[i].folder.parentId
    ensures FetchOf(changes) == {} <==> OnlyUnknown(changes)
    ensures OnlyUnknown(changes) ==> HashOf(changes) == map[]
  {
    if changes != [] {
      var n := |changes| - 1;
      var init := changes[..n];
      assert forall i :: 0 <= i < n ==> init[i] == changes[i];
      NothingNeeded(init);
      var needed := Needed(HashOf(changes), changes[n]);
      assert FetchOf(changes) == FetchOf(init) + needed;
      if OnlyUnknown(init) && !changes[n].Other? {
        assert needed != {} by {
          assert HashOf(changes) == map[ChangedId(changes[n]) := Descr(changes[n])];
          if changes[n].Create? {
            assert changes[n].folder.parentId in needed;
          } else if changes[n].Update? {
            assert changes[n].folder.id in needed;
          } else {
            assert changes[n].id in needed;
          }
        }
      }
    }
  }

  lemma OwnParentNever(changes: seq<Change>, oldTree: ParentMap, newTree: ParentMap, root: Id)
    requires Tree(newTree, root) && Faithful(changes, oldTree, newTree, root)
    ensures forall i :: 0 <= i < |changes| && changes[i].Create? ==> changes[i].folder.id != changes[i].folder.parentId
  {
    forall i | 0 <= i < |changes| && changes[i].Create?
      ensures changes[i].folder.id != changes[i].folder.parentId
    {
      assert FaithfulChange(changes[i], oldTree, newTree, root);
      var k := changes[i].folder.id;
      if newTree[k] == k {
        assert Under(newTree, k, k, 0);
        assert Under(newTree, k, k, 1);
        NotUnderItself(newTree, k, 1);
      }
    }
  }

  /** A faithful list of no known changes means that nothing has changed. */
  lemma NothingReported(changes: seq<Change>, db: ParentMap, oldTree: ParentMap, newTree: ParentMap, root: Id)
    requires Tree(oldTree, root) && Tree(newTree, root) && Faithful(changes, oldTree, newTree, root)
    requires UpTo(db, oldTree, newTree)
    requires HashOf(changes) == map[]
    ensures db == newTree
    ensures forall k :: !MovedBelowCreated(k, db, oldTree, newTree)
  {
    forall k
      ensures k in db <==> k in newTree
      ensures k in db ==> db[k] == newTree[k]
    {
      EntryReported(changes, oldTree, newTree, root, k);
    }
  }

  lemma MovesAreDue(h0: FolderHash, moves: seq<Move>)
    requires Filled(h0) && DownTheTree(h0, moves)
    ensures forall m :: m in moves ==> m.rid in DueChanges(h0, h0.Keys)
  {
    forall m | m in moves
      ensures m.rid in DueChanges(h0, h0.Keys)
    {
      var i :| 0 <= i < |moves| && moves[i] == m;
    }
  }

  /** What goes wrong outside the incremental job, and how many reports of a failed job come late. */
  datatype Attempt = Attempt(request: bool, fetch: bool, moves: set<Id>, late: nat)

  /**
   What goes wrong outside a full fetch: the page that fails, if there is such a page, likewise for the pages of
   identifiers, the folders with which a request for details fails, and those for which it is answered but the response
   is an error.
   */
  datatype Trouble = Trouble(page: nat, idPage: nat, details: set<Id>, missing: set<Id>)

  /** The incremental job fails on these changes. */
  ghost predicate Fails(changes: seq<Change>, attempt: Attempt, db: ParentMap, oldTree: ParentMap, newTree: ParentMap) {
    if OnlyUnknown(changes) then changes != []
    else
      || attempt.fetch || !ParentsFirst(changes, db)
      || (exists k :: MovedBelowCreated(k, db, oldTree, newTree))
      || (exists k :: HasMoved(k, db, oldTree, newTree) && k in attempt.moves)
  }

  /** Nothing else is amiss, and the folders that have moved were all moved below created ones. */
  ghost predicate OnlyBelowCreated(changes: seq<Change>, attempt: Attempt, db: ParentMap, oldTree: ParentMap,
                                   newTree: ParentMap) {
    && !attempt.fetch && ParentsFirst(changes, db) && !OnlyUnknown(changes)
    && (exists k :: MovedBelowCreated(k, db, oldTree, newTree))
    && (forall k :: HasMoved(k, db, oldTree, newTree) ==> MovedBelowCreated(k, db, oldTree, newTree))
  }

  predicate ByIds(pages: seq<seq<Change>>, trouble: Trouble) {
    trouble.page < |pages|
  }

  /** The folders that have arrived before a page fails. */
  function Kept(pages: seq<seq<Change>>, trouble: Trouble): seq<EwsFolder> {
    if ByIds(pages, trouble) then PageFolders(pages[..trouble.page]) else []
  }

  /** The folders that never arrive: the response is an error, and no earlier page had them. */
  function Lost(pages: seq<seq<Change>>, folders: ParentMap, trouble: Trouble): set<Id> {
    if ByIds(pages, trouble) then folders.Keys * trouble.missing - Full.IdSet(Kept(pages, trouble)) else {}
  }

  /** No folder that has arrived before a page failed arrives once more. */
  predicate Once(pages: seq<seq<Change>>, trouble: Trouble) {
    Full.IdSet(Kept(pages, trouble)) <= trouble.missing
  }

  /** The full fetch retrieves the folders: nothing fails as a whole, and no folder arrives without its parent. */
  ghost predicate Retrieves(pages: seq<seq<Change>>, idPages: seq<seq<Change>>, folders: ParentMap, trouble: Trouble) {
    ByIds(pages, trouble) ==>
      && |idPages| <= trouble.idPage && folders != map[] && folders.Keys * trouble.details == {}
      && Whole(Lost(pages, folders, trouble), folders)
  }

  /** The number of the last of `n` fetches that has retrieved anything, counted from one. */
  ghost function LastRetrieved(pages: seq<seq<Change>>, idPages: seq<seq<Change>>, folders: ParentMap,
                               troubles: nat -> Trouble, n: nat): (r: nat)
    ensures r <= n
  {
    if n == 0 || Retrieves(pages, idPages, folders, troubles(n - 1)) then n
    else LastRetrieved(pages, idPages, folders, troubles, n - 1)
  }

  /** The tree of the server without the lost folders, and a nameless entry exactly if a folder arrived twice. */
  ghost predicate FetchedTree(db: ParentMap, newTree: ParentMap, lost: set<Id>, once: bool, root: Id) {
    && Agrees(db - {NULL_ID}, newTree, lost, root) && (NULL_ID in db <==> !once)
    && (db - {NULL_ID} == newTree <==> lost == {}) && (db == newTree <==> lost == {} && once)
  }

  lemma LostIsLacking(pages: seq<seq<Change>>, idPages: seq<seq<Change>>, folders: ParentMap, trouble: Trouble,
                      newTree: ParentMap, root: Id)
    requires Tree(newTree, root) && folders == newTree - {root} && Retrieves(pages, idPages, folders, trouble)
    ensures Lacking(Lost(pages, folders, trouble), newTree, root) && Lost(pages, folders, trouble) <= folders.Keys
  {
    var lost := Lost(pages, folders, trouble);
    forall k | k in newTree && newTree[k] in lost
      ensures k in lost
    {
      assert k != root;
      assert k in folders;
    }
  }

  /** A folder that has arrived without its parent is not below the root. */
  lemma OrphanIsLeft(folders: ParentMap, lost: set<Id>, root: Id)
    requires root !in folders && lost <= folders.Keys && !Whole(lost, folders)
    ensures exists k :: k in folders - lost && k !in Below(folders - lost, root)
  {
    var t := folders - lost;
    var k :| k in folders && folders[k] in lost && k !in lost;
    forall n: nat
      ensures !(n > 0 && Under(t, k, root, n))
    {
      assert n == 1 ==> t[k] != root;
    }
    assert k in t && k !in Below(t, root);
  }

  /**
   One retrieval of the folders: what the server holds then and answers, with the changes since the tree of whatever
   sync state it is asked with, and what goes wrong.
   */
  datatype Round = Round(tree: ParentMap, changesSince: ParentMap -> seq<Change>, attempt: Attempt,
                         pages: seq<seq<Change>>, idPages: seq<seq<Change>>, troubles: nat -> Trouble)

  /** The server answers truthfully, whatever goes wrong outside. */
  ghost predicate Answers(r: Round, root: Id) {
    && Tree(r.tree, root) && FullListing(r.pages, r.tree, root) && IdListing(r.idPages, r.tree - {root})
    && forall t :: Tree(t, root) ==> Faithful(r.changesSince(t), t, r.tree, root)
  }

  /** The response for a single folder is never an error. */
  ghost predicate NoneMissing(rounds: seq<Round>) {
    forall i, n :: 0 <= i < |rounds| ==> rounds[i].troubles(n).missing == {}
  }

  /** The tree of the server at the last of `n` retrievals. */
  function TreeAt(rounds: seq<Round>, start: ParentMap, n: nat): ParentMap
    requires n <= |rounds|
  {
    if n == 0 then start else rounds[n - 1].tree
  }

  lemma NothingLost(rounds: seq<Round>, i: nat, folders: ParentMap, n: nat)
    requires NoneMissing(rounds) && i < |rounds|
    ensures Lost(rounds[i].pages, folders, rounds[i].troubles(n)) == {}
  {
  }

  /** Some of the moves have been made, none of those that fail, and nothing else has been changed. */
  ghost predicate SomeMade(before: ParentMap, after: ParentMap, moves: seq<Move>, failing: set<Id>) {
    && after.Keys == before.Keys
    && forall k :: k in before ==> after[k] == before[k] || (k !in failing && Move(k, after[k]) in moves)
  }

  /**
   What a failed attempt leaves: every folder where it was, but for some of those whose move is under way and does not
   fail. They are in their new places.
   */
  ghost predicate PartlyMoved(before: ParentMap, after: ParentMap, failing: set<Id>, oldTree: ParentMap,
                              newTree: ParentMap) {
    var db := before - {NULL_ID};
    && after.Keys == before.Keys
    && forall k :: k in before && after[k] != before[k] ==>
         && HasMoved(k, db, oldTree, newTree) && !MovedBelowCreated(k, db, oldTree, newTree)
         && k !in failing && after[k] == newTree[k]
  }

  /** Each folder is moved to one place only. */
  ghost predicate OneTarget(moves: seq<Move>) {
    forall m, n :: m in moves && n in moves && m.rid == n.rid ==> m == n
  }

  lemma MovesGoDown(h0: FolderHash, moves: seq<Move>)
    requires DownTheTree(h0, moves)
    ensures OneTarget(moves) && forall m :: m in moves ==> m.rid in h0 && h0[m.rid].IsMoved()
  {
    forall m | m in moves
      ensures m.rid in h0 && m.to == h0[m.rid].Parent() && h0[m.rid].IsMoved()
    {
      var i :| 0 <= i < |moves| && moves[i] == m;
    }
  }

  /** Every folder is where it was or, if it has to be moved and does not block, in its new place. */
  ghost predicate Started(before: ParentMap, after: ParentMap, h0: FolderHash, failing: set<Id>, newTree: ParentMap) {
    && after.Keys == before.Keys
    && forall k :: k in before && after[k] != before[k] ==>
         && k in h0 && h0[k].IsMoved() && !Blocked(h0, k) && k !in failing && k in newTree && after[k] == newTree[k]
  }

  lemma MadeIsStarted(before: ParentMap, after: ParentMap, h0: FolderHash, moves: seq<Move>, failing: set<Id>,
                      newTree: ParentMap)
    requires Filled(h0) && DownTheTree(h0, moves) && NoneBlocked(h0, moves)
    requires before - {NULL_ID} + DueChanges(h0, h0.Keys) - DueDeletions(h0) == newTree
    requires SomeMade(before, after, moves, failing)
    ensures Started(before, after, h0, failing, newTree)
  {
    hide Blocked;
    forall k | k in before && after[k] != before[k]
      ensures k in h0 && h0[k].IsMoved() && !Blocked(h0, k) && k !in failing && k in newTree && after[k] == newTree[k]
    {
      var m := Move(k, after[k]);
      var i :| 0 <= i < |moves| && moves[i] == m;
      assert k in MovedIds(moves);
      assert Filled1(k, h0[k]);
      assert k in DueChanges(h0, h0.Keys) && k !in DueDeletions(h0);
    }
  }

  lemma NothingMade(tree: ParentMap, failing: set<Id>, oldTree: ParentMap, newTree: ParentMap)
    ensures PartlyMoved(tree, tree, failing, oldTree, newTree)
  {
  }

  lemma MovedAreLocal(h0: FolderHash, db: ParentMap, oldTree: ParentMap, newTree: ParentMap)
    requires forall k :: k in h0 && h0[k].IsMoved() <==> HasMoved(k, db, oldTree, newTree)
    ensures forall k :: k in h0 && h0[k].IsMoved() ==> k in db
  {
  }

  lemma StartedIsPartlyMoved(tree: ParentMap, after: ParentMap, h0: FolderHash, failing: set<Id>, oldTree: ParentMap,
                             newTree: ParentMap)
    requires Started(tree, after, h0, failing, newTree)
    requires forall k :: k in h0 && h0[k].IsMoved() <==> HasMoved(k, tree - {NULL_ID}, oldTree, newTree)
    requires forall k :: Blocked(h0, k) <==> MovedBelowCreated(k, tree - {NULL_ID}, oldTree, newTree)
    ensures PartlyMoved(tree, after, failing, oldTree, newTree)
  {
    hide HasMoved, MovedBelowCreated, Blocked;
  }

  /** What is said of the trees without the missing folders is true of the whole trees. */
  lemma PartlyMovedInAll(tree: ParentMap, after: ParentMap, failing: set<Id>, oldTree: ParentMap, newTree: ParentMap,
                         gone: set<Id>)
    requires PartlyMoved(tree, after, failing, oldTree - gone, newTree - gone)
    requires forall k :: HasMoved(k, tree - {NULL_ID}, oldTree - gone, newTree - gone) <==>
                         HasMoved(k, tree - {NULL_ID}, oldTree, newTree)
    requires forall k :: MovedBelowCreated(k, tree - {NULL_ID}, oldTree - gone, newTree - gone) <==>
                         MovedBelowCreated(k, tree - {NULL_ID}, oldTree, newTree)
    ensures PartlyMoved(tree, after, failing, oldTree, newTree)
  {
    hide MovedBelowCreated;
  }

  lemma BlockedOnly(h0: FolderHash, moves: seq<Move>)
    requires DownTheTree(h0, moves) && NoneBlocked(h0, moves)
    ensures (forall k :: k in h0 && h0[k].IsMoved() ==> Blocked(h0, k)) ==> moves == []
  {
    if forall k :: k in h0 && h0[k].IsMoved() ==> Blocked(h0, k) {
      NothingMoved(h0, moves);
    }
  }

  lemma OnlyDueMade(before: ParentMap, after: ParentMap, moves: seq<Move>, failing: set<Id>, due: ParentMap)
    requires SomeMade(before, after, moves, failing) && forall m :: m in moves ==> m.rid in due
    ensures forall k :: k !in due ==> (k in after <==> k in before)
    ensures forall k :: k in after && k !in due ==> after[k] == before[k]
  {
  }

  lemma MovesFail(moves: seq<Move>, failing: set<Id>)
    ensures (exists m :: m in moves && m.rid in failing) <==> exists k :: k in MovedIds(moves) && k in failing
  {
    if k :| k in MovedIds(moves) && k in failing {
      var m :| m in moves && m.rid == k;
    }
    if m :| m in moves && m.rid in failing {
      assert m.rid in MovedIds(moves);
    }
  }

  /** What is reported makes the tree of the server of the named collections, whatever moves were made before. */
  lemma BesideNameless(before: ParentMap, db: ParentMap, h0: FolderHash, oldTree: ParentMap, newTree: ParentMap,
                       root: Id)
    requires Tree(oldTree, root) && Tree(newTree, root) && h0.Keys <= oldTree.Keys + newTree.Keys
    requires before - {NULL_ID} + DueChanges(h0, h0.Keys) - DueDeletions(h0) == newTree
    requires forall k :: k !in DueChanges(h0, h0.Keys) ==> (k in db <==> k in before)
    requires forall k :: k in db && k !in DueChanges(h0, h0.Keys) ==> db[k] == before[k]
    ensures var after := db + DueChanges(h0, h0.Keys) - DueDeletions(h0);
            after - {NULL_ID} == newTree && (NULL_ID in after <==> NULL_ID in before)
  {
    var due, del := DueChanges(h0, h0.Keys), DueDeletions(h0);
    TreeHasNoNull(oldTree, root);
    TreeHasNoNull(newTree, root);
    hide Tree;
    assert NULL_ID !in due && NULL_ID !in del;
    hide DueChanges, DueDeletions;
    var after, want := db + due - del, before - {NULL_ID} + due - del;
    forall k | k != NULL_ID
      ensures k in after <==> k in want
      ensures k in after ==> after[k] == want[k]
    {
    }
    assert forall k :: k in after - {NULL_ID} <==> k in want;
  }

  lemma NothingToFlatten(jobs: seq<seq<Id>>)
    ensures jobs == [] ==> Flatten(jobs) == []
  {
  }

  class EwsResource {
    const mRootCollection: Collection
    /** Whether a folder sync state is held. */
    var mFolderSyncState: bool
    /** The local collections, each with its parent. */
    var mTree: ParentMap

    constructor (root: Collection, tree: ParentMap, syncState: bool)
      ensures mRootCollection == root && mTree == tree && mFolderSyncState == syncState
    {
      mRootCollection, mTree, mFolderSyncState := root, tree, syncState;
    }

    /** The local collections that have a name. */
    ghost function NamedTree(): ParentMap
      reads this`mTree
    {
      mTree - {NULL_ID}
    }

    /** A fetch of local collections fails for some reason outside, or if one of them does not exist. */
    method LocalFetch(ids: set<Id>, fails: bool) returns (error: bool, cols: seq<Collection>)
      ensures error <==> fails || !(ids <= NamedTree().Keys)
      ensures !error ==> Fetched(cols, ids, NamedTree())
    {
      error, cols := fails || !(ids <= (mTree - {NULL_ID}).Keys), [];
      if error {
        return;
      }
      var todo := ids;
      while todo != {}
        invariant todo <= ids
        invariant Fetched(cols, ids - todo, NamedTree())
      {
        var id :| id in todo;
        RidsAppend(cols, Collection(id, Collection(mTree[id], NoCollection)));
        cols := cols + [Collection(id, Collection(mTree[id], NoCollection))];
        todo := todo - {id};
      }
      assert ids - todo == ids;
    }

    /**
     The full fetch: page by page, and from the page that fails on by identifiers. What is retrieved is the tree of the
     server without the folders that never arrive, with a nameless entry beside it exactly if a folder arrived twice.
     Only a fetch by identifiers from a server without any folders never reports a result.
     */
    method FetchAll(pages: seq<seq<Change>>, idPages: seq<seq<Change>>, folders: ParentMap, trouble: Trouble,
                    ghost newTree: ParentMap)
      returns (retrieved: bool, results: nat)
      requires Tree(newTree, mRootCollection.Rid()) && FullListing(pages, newTree, mRootCollection.Rid())
      requires IdListing(idPages, folders) && folders == newTree - {mRootCollection.Rid()}
      requires mRootCollection.Parent().Rid() == NULL_ID
      modifies this
      ensures retrieved <==> Retrieves(pages, idPages, folders, trouble)
      ensures results == if ByIds(pages, trouble) && |idPages| <= trouble.idPage && folders == map[] then 0 else 1
      ensures if retrieved then mFolderSyncState && Retrieved(pages, folders, trouble, newTree) else unchanged(this)
    {
      TreeHasNoNull(newTree, mRootCollection.Rid());
      hide Tree, IdListing, FullListing, HaveParents, Upsert, Retrieves, ByIds, Kept, FetchedTree, Listed, Lost, Once;
      var job := new Full.EwsFetchFoldersJob(mRootCollection);
      RunFetch(job, pages, idPages, folders, trouble, newTree);
      ghost var lost := Lost(pages, folders, trouble);
      if Retrieves(pages, idPages, folders, trouble) {
        LostIsLacking(pages, idPages, folders, trouble, newTree, mRootCollection.Rid());
        ListedIsTree(job, newTree, lost, Once(pages, trouble));
      }
      results := job.mResults;
      retrieved := results > 0 && !job.mError;
      if retrieved {
        mTree, mFolderSyncState := Upsert(map[], job.mFolders), true;
      }
    }

    /** What a full fetch that has retrieved the folders leaves as the local tree. */
    ghost predicate Retrieved(pages: seq<seq<Change>>, folders: ParentMap, trouble: Trouble, newTree: ParentMap)
      reads this`mTree
    {
      FetchedTree(mTree, newTree, Lost(pages, folders, trouble), Once(pages, trouble), mRootCollection.Rid())
    }

    lemma ListedIsTree(job: Full.EwsFetchFoldersJob, newTree: ParentMap, lost: set<Id>, once: bool)
      requires Tree(newTree, mRootCollection.Rid()) && mRootCollection.Parent().Rid() == NULL_ID
      requires Lacking(lost, newTree, mRootCollection.Rid())
      requires Listed(job, newTree - {mRootCollection.Rid()} - lost, once)
      ensures !job.mError && job.mResults == 1
      ensures FetchedTree(Upsert(map[], job.mFolders), newTree, lost, once, mRootCollection.Rid())
    {
      var root, t := mRootCollection.Rid(), newTree - lost;
      PrunedTree(newTree, lost, root);
      assert newTree - {root} - lost == t - {root};
      TreeHasNoNull(t, root);
      assert newTree == t <==> lost == {} by {
        LackingNone(newTree, lost);
      }
      hide Tree, Full.Listing, Below, Full.HasEmpty, Full.Named, Upsert, Lacking;
      assert job.mFolders == [mRootCollection] + job.mFolders[1..];
      ListWithEmpties(job.mFolders[1..], mRootCollection, t, root);
      WithoutNull(Upsert(map[], job.mFolders), t);
      TreeHasNoNull(newTree, root);
      WithoutNullAgain(Upsert(map[], job.mFolders), newTree);
    }

    /** The answers of the server to a full fetch. */
    method RunFetch(job: Full.EwsFetchFoldersJob, pages: seq<seq<Change>>, idPages: seq<seq<Change>>,
                    folders: ParentMap, trouble: Trouble, ghost newTree: ParentMap)
      requires FullListing(pages, newTree, mRootCollection.Rid()) && Running(job, []) && IdListing(idPages, folders)
      requires folders == newTree - {mRootCollection.Rid()} && HaveParents(folders) && NULL_ID !in folders
      modifies job
      ensures Retrieves(pages, idPages, folders, trouble) ==>
                Listed(job, folders - Lost(pages, folders, trouble), Once(pages, trouble))
      ensures !Retrieves(pages, idPages, folders, trouble) ==> job.mResults == 0 || (job.mResults == 1 && job.mError)
      ensures job.mResults == if ByIds(pages, trouble) && |idPages| <= trouble.idPage && folders == map[] then 0 else 1
    {
      hide IdListing, FullListing, HaveParents, Correct, Full.Listing, Below, Full.HasEmpty, Full.Named, PageFolders,
           Whole, Full.IdSet, Full.DistinctIds;
      var byIds := FetchPages(job, pages, folders, trouble.page, newTree);
      if byIds {
        FetchByIds(job, idPages, folders, trouble, Kept(pages, trouble));
        ghost var lost := Lost(pages, folders, trouble);
        if !Whole(lost, folders) {
          OrphanIsLeft(folders, lost, mRootCollection.Rid());
        }
      } else {
        assert folders - {} == folders;
        Full.NoFolders();
      }
    }

    /** The job between two answers, with the folders received so far. */
    ghost predicate Running(job: Full.EwsFetchFoldersJob, received: seq<EwsFolder>)
      reads job
    {
      && job.mRootCollection == mRootCollection && job.mRemoteChangedFolders == received && job.mRemoteFolderIds == []
      && !job.mError && job.mResults == 0 && job.Untouched() && job.mDetailJobs == []
    }

    /**
     The job has listed the folders of the tree `t`, every one that is reachable once and after its parent, and no
     empty collection if all are reachable and each was received once.
     */
    ghost predicate Listed(job: Full.EwsFetchFoldersJob, t: ParentMap, once: bool)
      reads job
    {
      var root := mRootCollection.Rid();
      && job.mResults == 1 && job.mFolders != [] && job.mFolders[0] == mRootCollection
      && Full.Listing(Full.Named(job.mFolders[1..]), mRootCollection, Below(t, root), t)
      && (job.mError <==> exists k :: k in t && k !in Below(t, root))
      && (!job.mError ==> (Full.HasEmpty(job.mFolders[1..]) <==> !once))
    }

    lemma BuiltIsListed(job: Full.EwsFetchFoldersJob, t: ParentMap, once: bool)
      requires job.Built(false) && job.mResults == 1 && job.mRootCollection == mRootCollection
      requires Full.OneParent(job.mRemoteChangedFolders) && Full.ParentsOf(job.mRemoteChangedFolders) == t
      requires Full.DistinctIds(job.mRemoteChangedFolders) == once
      requires mRootCollection.Rid() !in t && NULL_ID !in t
      ensures Listed(job, t, once)
    {
      var fs, root := job.mRemoteChangedFolders, mRootCollection.Rid();
      Full.ParentListsName(fs);
      Full.ReceivedIsListed(fs, mRootCollection);
      var w := Full.Walk(Full.ParentLists(fs), Full.IdSet(fs), mRootCollection);
      assert job.mFolders[1..] == w.list;
      hide Full.Walk, Full.Listing, Full.HasEmpty, Full.Named, Full.OneParent, Full.DistinctIds, Full.ParentsOf, Below;
      NothingLeft(w.left, t, root);
    }

    /** All pages arrive, or all before the one that fails. */
    method FetchPages(job: Full.EwsFetchFoldersJob, pages: seq<seq<Change>>, folders: ParentMap, page: nat,
                      ghost newTree: ParentMap)
      returns (failed: bool)
      requires FullListing(pages, newTree, mRootCollection.Rid()) && Running(job, []) && HaveParents(folders)
      requires folders == newTree - {mRootCollection.Rid()} && NULL_ID !in folders
      modifies job
      ensures failed <==> page < |pages|
      ensures if failed
              then && Running(job, PageFolders(pages[..page])) && Correct(PageFolders(pages[..page]), folders)
                   && Full.DistinctIds(PageFolders(pages[..page]))
              else Listed(job, folders, true)
    {
      hide Full.Listing, Full.ParentsOf, Full.DistinctIds, Below, Correct, Full.Walk, HaveParents, Full.HaveParents;
      var i := 0;
      while i < |pages|
        invariant 0 <= i <= |pages| && i <= page && job.mRootCollection == mRootCollection
        invariant i < |pages| ==> Running(job, PageFolders(pages[..i]))
        invariant i == |pages| ==> Listed(job, folders, true)
      {
        PagesCorrect(pages, newTree, mRootCollection.Rid(), i);
        PagesCorrect(pages, newTree, mRootCollection.Rid(), i + 1);
        assert pages[..i + 1][..i] == pages[..i];
        if i == page {
          var next := job.RemoteFolderFullFetchDone(true, [], false);
          return true;
        }
        CorrectHaveParents(PageFolders(pages[..i + 1]), folders);
        var next := job.RemoteFolderFullFetchDone(false, pages[i], i == |pages| - 1);
        i := i + 1;
        if i == |pages| {
          assert pages[..i] == pages;
          DistinctOneParent(job.mRemoteChangedFolders);
          BuiltIsListed(job, folders, true);
        }
      }
      return false;
    }

    /** The requests for details are answered in any order; one that asks for a folder in `trouble` fails. */
    method FetchByIds(job: Full.EwsFetchFoldersJob, idPages: seq<seq<Change>>, folders: ParentMap, trouble: Trouble,
                      ghost kept: seq<EwsFolder>)
      requires IdListing(idPages, folders) && Running(job, kept) && Correct(kept, folders) && HaveParents(folders)
      requires Full.DistinctIds(kept) && mRootCollection.Rid() !in folders && NULL_ID !in folders
      modifies job
      ensures if trouble.idPage < |idPages| || folders.Keys * trouble.details != {} then job.mError && job.mResults == 1
              else if folders == map[] then job.mResults == 0
              else Listed(job, folders - (folders.Keys * trouble.missing - Full.IdSet(kept)),
                          Full.IdSet(kept) <= trouble.missing)
    {
      hide Full.Listing, Full.ParentsOf, Full.DistinctIds, Below, Flatten, Full.FolderIds, ResponsesFor,
           Full.Successes, Correct, Full.IdSet, Full.Walk, Full.HasEmpty, Full.Named, HaveParents, Full.OneParent,
           Outstanding, Listed, Full.HaveParents, Found;
      var failed := FetchIds(job, idPages, trouble.idPage, kept);
      if failed {
        return;
      }
      ghost var ids := job.mRemoteFolderIds;
      ghost var missing, once := trouble.missing, Full.IdSet(kept) <= trouble.missing;
      ghost var t := folders - (folders.Keys * missing - Full.IdSet(kept));
      Requested(job.mDetailJobs, kept, ids, missing);
      assert ids == [] <==> folders == map[] by {
        assert ids != [] ==> ids[0] in folders;
      }
      ghost var bad := false;
      while job.mDetailJobs != []
        invariant job.mRootCollection == mRootCollection && job.mRemoteFolderIds == ids
        invariant Correct(job.mRemoteChangedFolders, folders)
        invariant forall id :: id in Flatten(job.mDetailJobs) ==> id in folders
        invariant if bad then folders.Keys * trouble.details != {}
                  else forall id :: id in folders && id in trouble.details ==> id in Flatten(job.mDetailJobs)
        invariant bad ==>
                    && job.mError && job.mResults == 1 && job.mPendingFetchJobs > |job.mDetailJobs| && job.Untouched()
        invariant !bad ==>
                    && job.mPendingFetchJobs == |job.mDetailJobs|
                    && Outstanding(job.mDetailJobs, job.mRemoteChangedFolders, missing)
                       == multiset(Full.FolderIds(kept)) + multiset(Found(ids, missing))
                    && (job.mDetailJobs != [] || ids == [] ==> !job.mError && job.mResults == 0 && job.Untouched())
                    && (job.mDetailJobs == [] && ids != [] ==> Listed(job, t, once))
        decreases |job.mDetailJobs|
      {
        var which :| 0 <= which < |job.mDetailJobs|;
        ghost var before := job.mDetailJobs;
        var request := job.mDetailJobs[which];
        FlattenMembers(before, which);
        if !bad {
          OneAnswer(before, which, job.mRemoteChangedFolders, kept, ids, folders, missing);
        }
        var fails := exists i :: 0 <= i < |request| && request[i] in trouble.details;
        var answer := ResponsesFor(request, folders, trouble.missing);
        ghost var details := Full.Successes(answer);
        ghost var all := job.mRemoteChangedFolders + details;
        DetailsAre(request, folders, missing);
        CorrectConcat(job.mRemoteChangedFolders, details, folders);
        CorrectHaveParents(all, folders);
        job.RemoteFolderDetailFetchDone(fails, which, answer);
        if fails {
          bad := true;
          var k :| 0 <= k < |request| && request[k] in trouble.details;
          assert request[k] in folders.Keys * trouble.details;
        }
        if !bad && job.mDetailJobs == [] {
          BuiltIsListed(job, t, once);
        }
      }
      NothingToFlatten(job.mDetailJobs);
      assert !bad ==> folders.Keys * trouble.details == {};
    }

    /** The identifiers arrive page by page, unless one of the pages fails, which fails the job. */
    method FetchIds(job: Full.EwsFetchFoldersJob, idPages: seq<seq<Change>>, page: nat, ghost kept: seq<EwsFolder>)
      returns (failed: bool)
      requires idPages != [] && (forall i :: 0 <= i < |idPages| ==> Full.AllCreated(idPages[i])) && Running(job, kept)
      modifies job`mRemoteFolderIds, job`mPendingFetchJobs, job`mDetailJobs, job`mError, job`mResults
      ensures failed <==> page < |idPages|
      ensures failed ==> job.mError && job.mResults == 1
      ensures !failed ==>
                && job.mRemoteFolderIds == Full.FolderIds(PageFolders(idPages)) == Flatten(job.mDetailJobs)
                && !job.mError && job.mResults == 0 && job.mPendingFetchJobs == |job.mDetailJobs|
                && (job.mDetailJobs == [] <==> job.mRemoteFolderIds == [])
    {
      var i := 0;
      while i < |idPages|
        invariant 0 <= i <= |idPages| && i <= page
        invariant job.mRemoteFolderIds == Full.FolderIds(PageFolders(idPages[..i]))
        invariant !job.mError && job.mResults == 0
        invariant i < |idPages| ==> job.mDetailJobs == []
        invariant i == |idPages| ==>
                    && job.mRemoteFolderIds == Flatten(job.mDetailJobs)
                    && job.mPendingFetchJobs == |job.mDetailJobs|
                    && (job.mDetailJobs == [] <==> job.mRemoteFolderIds == [])
      {
        if i == page {
          var next := job.RemoteFolderIdFullFetchDone(true, [], false);
          return true;
        }
        assert idPages[..i + 1][..i] == idPages[..i];
        Full.FolderIdsConcat(PageFolders(idPages[..i]), Full.Folders(idPages[i]));
        var next := job.RemoteFolderIdFullFetchDone(false, idPages[i], i == |idPages| - 1);
        i := i + 1;
      }
      assert idPages[..i] == idPages;
      return false;
    }

    /**
     The move jobs come back in any order, up to the first that fails. The last one, or the failed one, reports the
     result of the job. Of the others, which are running as well, any may still be made.
     */
    method AwaitMoves(job: EwsFetchFoldersIncrJob, failing: set<Id>)
      requires !job.mError && job.mPendingMoveJobs == |job.mMoves|
      requires job.mResults == (if job.mMoves == [] then 1 else 0) && OneTarget(job.mMoves)
      requires forall m :: m in job.mMoves ==> m.rid in mTree
      modifies this`mTree, job`mError, job`mResults, job`mPendingMoveJobs
      ensures job.mError <==> exists m :: m in job.mMoves && m.rid in failing
      ensures job.mResults == 1 && (job.mPendingMoveJobs == 0 <==> !job.mError)
      ensures !job.mError ==> forall m :: m in job.mMoves ==> m.rid in mTree && mTree[m.rid] == m.to
      ensures SomeMade(old(mTree), mTree, job.mMoves, failing)
    {
      var left := job.mMoves;
      while left != []
        invariant !job.mError && job.mPendingMoveJobs == |left|
        invariant job.mResults == if left == [] then 1 else 0
        invariant forall m :: m in left ==> m in job.mMoves
        invariant forall m :: m in job.mMoves ==>
                    m in left || (m.rid !in failing && m.rid in mTree && mTree[m.rid] == m.to)
        invariant SomeMade(old(mTree), mTree, job.mMoves, failing)
      {
        var i :| 0 <= i < |left|;
        var move := left[i];
        assert move in left;
        job.LocalFolderMoveDone(move.rid in failing);
        if job.mError {
          LateMoves(left, failing);
          return;
        }
        mTree := mTree[move.rid := move.to];
        left := left[..i] + left[i + 1..];
      }
    }

    /** Moves that are running when the job has failed already: any of them may be made. */
    method LateMoves(moves: seq<Move>, failing: set<Id>)
      requires forall m :: m in moves ==> m.rid in mTree
      modifies this`mTree
      ensures SomeMade(old(mTree), mTree, moves, failing)
    {
      for i := 0 to |moves|
        invariant SomeMade(old(mTree), mTree, moves, failing)
      {
        var made := *;
        if made && moves[i].rid !in failing {
          assert moves[i] in moves && moves[i] == Move(moves[i].rid, moves[i].to);
          mTree := mTree[moves[i].rid := moves[i].to];
        }
      }
    }

    /**
     The incremental attempt: it fails exactly for the reasons of `Fails`, and otherwise the local tree is that of the
     server. A failed attempt has stored and deleted nothing; at most some of the moves are made, and none unless all
     local collections were there. A failure is reported once or twice, unless more reports come late, and twice if
     every folder that has moved was moved below a created one.
     */
    method FetchChanges(changes: seq<Change>, attempt: Attempt, ghost oldTree: ParentMap, ghost newTree: ParentMap,
                        ghost gone: set<Id>)
      returns (failed: bool, reports: nat)
      requires Tree(oldTree, mRootCollection.Rid()) && Tree(newTree, mRootCollection.Rid())
      requires Faithful(changes, oldTree, newTree, mRootCollection.Rid())
      requires UpToWithout(NamedTree(), oldTree, newTree, gone, mRootCollection.Rid())
      modifies this`mTree
      ensures attempt.request ==> !failed && reports == 0 && unchanged(this)
      ensures !attempt.request ==>
                && (failed <==> Fails(changes, attempt, old(NamedTree()), oldTree, newTree))
                && 1 <= reports && (attempt.late == 0 ==> reports <= 2)
                && (!failed ==>
                      && Agrees(NamedTree(), newTree, gone, mRootCollection.Rid())
                      && (NULL_ID in mTree <==> NULL_ID in old(mTree)))
                && (OnlyBelowCreated(changes, attempt, old(NamedTree()), oldTree, newTree) ==> failed && reports == 2)
                && (failed ==>
                      && PartlyMoved(old(mTree), mTree, attempt.moves, oldTree, newTree)
                      && (attempt.fetch || !ParentsFirst(changes, old(NamedTree())) ==> mTree == old(mTree)))
    {
      hide Tree, Faithful, UpTo, FilledFrom, Filled, Fetched, Named, ParentsFirst, MovedBelowCreated, HasMoved,
           HashOf, FetchOf, DueChanges, DueDeletions, ServerParents, Acyclic, Blocked, DownTheTree, ListsOnce, Upsert,
           NoneBlocked, OnlyUnknown, UpToWithout, Lacking, PartlyMoved, Started;
      NothingMade(mTree, attempt.moves, oldTree, newTree);
      ghost var root, db := mRootCollection.Rid(), NamedTree();
      var job := new EwsFetchFoldersIncrJob();
      var fetch := job.RemoteFolderIncrFetchDone(attempt.request, changes);
      if attempt.request {
        return false, 0;
      }
      FetchableExactly(changes, db);
      OwnParentNever(changes, oldTree, newTree, root);
      NothingNeeded(changes);
      ghost var before, after := oldTree - gone, newTree - gone;
      if ParentsFirst(changes, db) {
        WithoutGone(changes, db, oldTree, newTree, gone, root);
      }
      if job.mResults > 0 {
        NothingReported(changes, db, before, after, root);
        return job.mError, job.mResults;
      }
      var error, cols := LocalFetch(fetch, attempt.fetch);
      FaithfulNamed(changes, oldTree, newTree, root);
      if error {
        job.LocalFolderFetchDone(true, cols, changes, db);
        return true, job.mResults;
      }
      failed, reports := ProcessChanges(job, cols, changes, attempt, before, after);
      if failed {
        PartlyMovedInAll(old(mTree), mTree, attempt.moves, oldTree, newTree, gone);
      }
    }

    /** All local collections that the changes need are there: what remains depends on what has been moved. */
    method ProcessChanges(job: EwsFetchFoldersIncrJob, cols: seq<Collection>, changes: seq<Change>, attempt: Attempt,
                          ghost oldTree: ParentMap, ghost newTree: ParentMap)
      returns (failed: bool, reports: nat)
      requires Tree(oldTree, mRootCollection.Rid()) && Tree(newTree, mRootCollection.Rid())
      requires Faithful(changes, oldTree, newTree, mRootCollection.Rid()) && UpTo(NamedTree(), oldTree, newTree)
      requires Fetched(cols, FetchOf(changes), NamedTree()) && Named(changes)
      requires job.mFolderHash == HashOf(changes) && job.mParentMap == map[] && job.mMoves == []
      requires job.mChangedFolders == [] && job.mDeletedFolders == [] && job.mPendingMoveJobs == 0
      requires job.mResults == 0 && !job.mError
      modifies this`mTree, job
      ensures failed <==> exists k :: || MovedBelowCreated(k, old(NamedTree()), oldTree, newTree)
                                      || (HasMoved(k, old(NamedTree()), oldTree, newTree) && k in attempt.moves)
      ensures 1 <= reports && (attempt.late == 0 ==> reports <= 2)
      ensures !failed ==> NamedTree() == newTree && (NULL_ID in mTree <==> NULL_ID in old(mTree))
      ensures (exists k :: MovedBelowCreated(k, old(NamedTree()), oldTree, newTree))
              && (forall k :: HasMoved(k, old(NamedTree()), oldTree, newTree) ==>
                    MovedBelowCreated(k, old(NamedTree()), oldTree, newTree)) ==>
                reports == 2
      ensures failed ==> PartlyMoved(old(mTree), mTree, attempt.moves, oldTree, newTree)
    {
      hide Tree, Faithful, UpTo, FilledFrom, Filled, Fetched, Named, MovedBelowCreated, HasMoved, HashOf, FetchOf,
           DueChanges, DueDeletions, ServerParents, Acyclic, Blocked, DownTheTree, ListsOnce, NoneBlocked, PartlyMoved,
           Started;
      ghost var db := NamedTree();
      job.LocalFolderFetchDone(false, cols, changes, db);
      ghost var h0 :| FilledFrom(HashOf(changes), cols, h0) && Filled(h0) && job.Outcome(h0);
      IncrementalIsExact(changes, cols, h0, db, oldTree, newTree, mRootCollection.Rid());
      MovedAreLocal(h0, db, oldTree, newTree);
      failed, reports := FinishChanges(job, attempt, h0, oldTree, newTree);
      if failed {
        StartedIsPartlyMoved(old(mTree), mTree, h0, attempt.moves, oldTree, newTree);
      }
    }

    /** The rest of the attempt, when the changes have been processed. */
    method FinishChanges(job: EwsFetchFoldersIncrJob, attempt: Attempt, ghost h0: FolderHash, ghost oldTree: ParentMap,
                         ghost newTree: ParentMap)
      returns (failed: bool, reports: nat)
      requires Tree(oldTree, mRootCollection.Rid()) && Tree(newTree, mRootCollection.Rid())
      requires Filled(h0) && job.Outcome(h0) && job.mPendingMoveJobs == |job.mMoves|
      requires Acyclic(ServerParents(h0, h0.Keys)) && h0.Keys <= oldTree.Keys + newTree.Keys
      requires NamedTree() + DueChanges(h0, h0.Keys) - DueDeletions(h0) == newTree
      requires forall k :: k in h0 && h0[k].IsMoved() ==> k in NamedTree()
      modifies this`mTree, job`mError, job`mResults, job`mPendingMoveJobs
      ensures failed <==> exists k :: Blocked(h0, k) || (k in h0 && h0[k].IsMoved() && k in attempt.moves)
      ensures 1 <= reports && (attempt.late == 0 ==> reports <= 2)
      ensures !failed ==> NamedTree() == newTree && (NULL_ID in mTree <==> NULL_ID in old(mTree))
      ensures (exists k :: Blocked(h0, k)) && (forall k :: k in h0 && h0[k].IsMoved() ==> Blocked(h0, k)) ==>
                reports == 2
      ensures failed ==> Started(old(mTree), mTree, h0, attempt.moves, newTree)
    {
      hide Tree, Filled, DueChanges, DueDeletions, ServerParents, Acyclic, Blocked, DownTheTree, ListsOnce, Upsert,
           NoneBlocked;
      if job.mError {
        BlockedOnly(h0, job.mMoves);
        MovesGoDown(h0, job.mMoves);
        LateMoves(job.mMoves, attempt.moves);
        MadeIsStarted(old(mTree), mTree, h0, job.mMoves, attempt.moves, newTree);
        return true, job.mResults + if job.mPendingMoveJobs > 0 then attempt.late else 0;
      }
      MovesGoDown(h0, job.mMoves);
      AwaitMoves(job, attempt.moves);
      MovesFail(job.mMoves, attempt.moves);
      if job.mError {
        MadeIsStarted(old(mTree), mTree, h0, job.mMoves, attempt.moves, newTree);
        return true, job.mResults + attempt.late;
      }
      ghost var due := DueChanges(h0, h0.Keys);
      MovesAreDue(h0, job.mMoves);
      OnlyDueMade(old(mTree), mTree, job.mMoves, attempt.moves, due);
      UpsertIsUnion(mTree, job.mChangedFolders, due);
      BesideNameless(old(mTree), mTree, h0, oldTree, newTree, mRootCollection.Rid());
      mTree := Upsert(mTree, job.mChangedFolders) - Rids(job.mDeletedFolders);
      failed, reports := false, job.mResults;
    }

    /**
     An incremental attempt if there is a sync state, and a full fetch if there is none or, for each report of a
     failure, if the attempt fails. Afterwards the local tree is that of the server, as the attempt or the last fetch
     that has retrieved anything has left it: without the folders that were missing before the attempt, or without those
     that the fetch has lost.
     */
    method DoRetrieveCollections(changes: seq<Change>, attempt: Attempt, pages: seq<seq<Change>>,
                                 idPages: seq<seq<Change>>, folders: ParentMap, troubles: nat -> Trouble,
                                 ghost oldTree: ParentMap, ghost newTree: ParentMap, ghost gone: set<Id>)
      returns (fetches: nat)
      requires Tree(oldTree, mRootCollection.Rid()) && Tree(newTree, mRootCollection.Rid())
      requires mRootCollection.Parent().Rid() == NULL_ID
      requires mFolderSyncState ==>
                 && Faithful(changes, oldTree, newTree, mRootCollection.Rid())
                 && UpToWithout(NamedTree(), oldTree, newTree, gone, mRootCollection.Rid())
      requires FullListing(pages, newTree, mRootCollection.Rid())
      requires IdListing(idPages, folders) && folders == newTree - {mRootCollection.Rid()}
      modifies this
      ensures !old(mFolderSyncState) ==> fetches == 1
      ensures old(mFolderSyncState) && attempt.request ==> fetches == 0 && unchanged(this)
      ensures old(mFolderSyncState) && !attempt.request ==>
                && (fetches > 0 <==> Fails(changes, attempt, old(NamedTree()), oldTree, newTree))
                && (attempt.late == 0 ==> fetches <= 2)
                && (fetches == 0 ==>
                      && Agrees(NamedTree(), newTree, gone, mRootCollection.Rid())
                      && (NULL_ID in mTree <==> NULL_ID in old(mTree)) && mFolderSyncState)
                && (OnlyBelowCreated(changes, attempt, old(NamedTree()), oldTree, newTree) ==> fetches == 2)
      ensures fetches > 0 ==>
                var n := LastRetrieved(pages, idPages, folders, troubles, fetches);
                if n == 0
                then && !mFolderSyncState
                     && if old(mFolderSyncState) then PartlyMoved(old(mTree), mTree, attempt.moves, oldTree, newTree)
                        else mTree == old(mTree)
                else mFolderSyncState && Retrieved(pages, folders, troubles(n - 1), newTree)
    {
      hide Tree, Faithful, UpTo, FullListing, IdListing, Fails, OnlyBelowCreated, FetchedTree, Kept, Retrieves, Lost,
           Once, UpToWithout, Agrees, Retrieved, PartlyMoved;
      fetches := 1;
      if mFolderSyncState {
        var failed, reports := FetchChanges(changes, attempt, oldTree, newTree, gone);
        if !failed {
          return 0;
        }
        fetches := reports;
      }
      mFolderSyncState := false;
      ghost var left := mTree;
      var i := 0;
      while i < fetches
        invariant 0 <= i <= fetches
        invariant var n := LastRetrieved(pages, idPages, folders, troubles, i);
                  if n == 0 then !mFolderSyncState && mTree == left
                  else mFolderSyncState && Retrieved(pages, folders, troubles(n - 1), newTree)
      {
        var retrieved, results := FetchAll(pages, idPages, folders, troubles(i), newTree);
        i := i + 1;
      }
    }

    /**
     Any number of retrievals. While a sync state is held, the local tree is that of the server without whole branches,
     and without any if the response for a single folder was never an error. It is the tree that the server had at the
     last retrieval, unless requests for changes have failed since.
     */
    method Synchronise(rounds: seq<Round>, start: ParentMap, ghost gone: set<Id>) returns (last: nat)
      requires forall i :: 0 <= i < |rounds| ==> Answers(rounds[i], mRootCollection.Rid())
      requires mRootCollection.Parent().Rid() == NULL_ID && Tree(start, mRootCollection.Rid())
      requires mFolderSyncState ==> Agrees(NamedTree(), start, gone, mRootCollection.Rid())
      modifies this
      ensures last <= |rounds| && forall i :: last <= i < |rounds| ==> rounds[i].attempt.request
      ensures mFolderSyncState ==>
                exists lost :: && Agrees(NamedTree(), TreeAt(rounds, start, last), lost, mRootCollection.Rid())
                               && (gone == {} && NoneMissing(rounds) ==> lost == {})
    {
      hide Tree, Faithful, UpToWithout, FullListing, IdListing, Fails, OnlyBelowCreated, Kept, Retrieves, Lost, Once,
           Agrees, NoneMissing, LastRetrieved, PartlyMoved;
      var i := 0;
      ghost var root, lost := mRootCollection.Rid(), gone;
      last := 0;
      while i < |rounds|
        invariant 0 <= last <= i <= |rounds| && Tree(TreeAt(rounds, start, last), root)
        invariant mFolderSyncState ==>
                    && Agrees(NamedTree(), TreeAt(rounds, start, last), lost, root)
                    && (gone == {} && NoneMissing(rounds) ==> lost == {})
        invariant forall j :: last <= j < i ==> rounds[j].attempt.request
      {
        var r, synced := rounds[i], TreeAt(rounds, start, last);
        var stopped, folders := mFolderSyncState && r.attempt.request, r.tree - {mRootCollection.Rid()};
        assert Answers(r, root);
        if mFolderSyncState {
          AgreesIsUpTo(NamedTree(), synced, r.tree, lost, root);
        }
        var fetches := DoRetrieveCollections(r.changesSince(synced), r.attempt, r.pages, r.idPages, folders, r.troubles,
                                             synced, r.tree, lost);
        if fetches > 0 {
          ghost var n := LastRetrieved(r.pages, r.idPages, folders, r.troubles, fetches);
          if n > 0 {
            lost := Lost(r.pages, folders, r.troubles(n - 1));
            if NoneMissing(rounds) {
              NothingLost(rounds, i, folders, n - 1);
            }
          }
        }
        i := i + 1;
        if !stopped {
          last := i;
        }
      }
    }
  }

  lemma OneFolderListed(page: seq<Change>, t: ParentMap)
    requires page == [Create(EwsFolder(2, 1))] && t == map[1 := 0, 2 := 1]
    ensures FullListing([page], t, 1) && IdListing([page], map[2 := 1]) && t - {1} == map[2 := 1]
  {
    OneFolderIs(page);
    assert t - {1} == map[2 := 1];
    hide PageFolders, Full.FolderIds, Full.ParentsOf, Full.Folders;
  }

  lemma OneFolderIs(page: seq<Change>)
    requires page == [Create(EwsFolder(2, 1))]
    ensures PageFolders([page]) == [EwsFolder(2, 1)]
    ensures Full.ParentsOf([EwsFolder(2, 1)]) == map[2 := 1] && Full.FolderIds([EwsFolder(2, 1)]) == [2]
  {
    var fs := [EwsFolder(2, 1)];
    assert Full.Folders(page) == fs && fs[..0] == [] && [page][..0] == [];
    assert PageFolders([page]) == PageFolders([]) + fs;
    assert Full.ParentsOf(fs) == map[][2 := 1];
  }

  /** The only page fails, and then the response for the only folder is an error: it is missing, and nothing fails. */
  method LeafIsLost() returns (retrieved: bool, tree: ParentMap)
    ensures retrieved && tree == map[1 := 0]
  {
    var page, t := [Create(EwsFolder(2, 1))], map[1 := 0, 2 := 1];
    TwoLevels(t, 1, 2, 2);
    OneFolderListed(page, t);
    OnlyFolderLost([page], map[2 := 1]);
    hide Tree, FullListing, IdListing, ByIds, Kept, Lost, Once;
    var resource := new EwsResource(Collection(1, NoCollection), map[], false);
    var results;
    retrieved, results := resource.FetchAll([page], [page], map[2 := 1], Trouble(0, 1, {}, {2}), t);
    tree := resource.mTree;
    assert t - {2} == map[1 := 0];
    WithoutNullAgain(tree, map[1 := 0]);
  }

  lemma OnlyFolderLost(pages: seq<seq<Change>>, folders: ParentMap)
    requires |pages| == 1 && folders == map[2 := 1]
    ensures var trouble := Trouble(0, 1, {}, {2});
            && ByIds(pages, trouble) && Lost(pages, folders, trouble) == {2} && Once(pages, trouble)
            && Retrieves(pages, pages, folders, trouble)
  {
    var trouble := Trouble(0, 1, {}, {2});
    assert pages[..0] == [] && Kept(pages, trouble) == [];
    Full.NoFolders();
    assert 2 in folders;
  }

  /** A folder that was moved into a created one, with nothing else amiss: the result is reported twice. */
  method ReportsTwice() returns (failed: bool, reports: nat)
    ensures failed && reports == 2
  {
    var changes := [Create(EwsFolder(2, 1)), Update(EwsFolder(3, 2))];
    ghost var db, oldTree, newTree := map[1 := 0, 2 := 1, 3 := 1], map[1 := 0, 3 := 1], map[1 := 0, 2 := 1, 3 := 2];
    MovedIntoNew();
    var resource := new EwsResource(Collection(1, NoCollection), map[1 := 0, 2 := 1, 3 := 1], true);
    assert resource.NamedTree() == db;
    hide Tree, Faithful, UpTo, ParentsFirst;
    failed, reports := resource.FetchChanges(changes, Attempt(false, false, {}, 0), oldTree, newTree, {});
  }

  /** A server with nothing but the root, whose first page fails: the fetch never reports a result. */
  method NothingToFetch() returns (results: nat)
    ensures results == 0
  {
    var resource := new EwsResource(Collection(1, NoCollection), map[], false);
    ghost var t := map[1 := 0];
    assert Climbs(t, NULL_ID, NULL_ID, 0);
    assert Climbs(t, 1, NULL_ID, 1);
    var retrieved;
    retrieved, results := resource.FetchAll([[]], [[]], map[], Trouble(0, 1, {}, {}), t);
  }

  lemma CorrectHaveParents(fs: seq<EwsFolder>, folders: ParentMap)
    requires Correct(fs, folders) && HaveParents(folders)
    ensures Full.HaveParents(fs)
  {
  }

  lemma DistinctOneParent(fs: seq<EwsFolder>)
    requires Full.DistinctIds(fs)
    ensures Full.OneParent(fs)
  {
  }

  lemma NothingLeft(left: set<Id>, t: ParentMap, root: Id)
    requires left == t.Keys - Below(t, root)
    ensures left != {} <==> exists k :: k in t && k !in Below(t, root)
  {
    assert forall k :: k in left <==> k in t && k !in Below(t, root);
    if k :| k in t && k !in Below(t, root) {
      assert k in left;
    }
  }

  lemma Requested(jobs: seq<seq<Id>>, kept: seq<EwsFolder>, ids: seq<Id>, missing: set<Id>)
    requires Flatten(jobs) == ids
    ensures Outstanding(jobs, kept, missing) == multiset(Full.FolderIds(kept)) + multiset(Found(ids, missing))
  {
  }
}
