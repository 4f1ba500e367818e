/**
 The full folder fetch: every folder of the server is turned into a collection, and the collection
 list is built by descending from the root.
 */
module FetchFolders {
  import opened Common
  import opened FolderTree

  const FETCH_BATCH_SIZE := 50

  /** The parent map that a folder list describes; a repeated identifier takes its last parent. */
  function ParentsOf(fs: seq<EwsFolder>): ParentMap {
    if fs == [] then map[] else
      var last := fs[|fs| - 1];
      ParentsOf(fs[..|fs| - 1])[last.id := last.parentId]
  }

  ghost predicate DistinctIds(fs: seq<EwsFolder>) {
    forall i, j :: 0 <= i < j < |fs| ==> fs[i].id != fs[j].id
  }

  lemma {:induction false} ParentsOfKeys(fs: seq<EwsFolder>)
    ensures forall k :: k in ParentsOf(fs) <==> exists i :: 0 <= i < |fs| && fs[i].id == k
    ensures DistinctIds(fs) ==> forall i :: 0 <= i < |fs| ==> ParentsOf(fs)[fs[i].id] == fs[i].parentId
  {
    if fs != [] {
      var init := fs[..|fs| - 1];
      ParentsOfKeys(init);
      assert forall i :: 0 <= i < |init| ==> init[i] == fs[i];
      forall k | exists i :: 0 <= i < |fs| && fs[i].id == k
        ensures k in ParentsOf(fs)
      {
        var i :| 0 <= i < |fs| && fs[i].id == k;
        if i < |fs| - 1 { assert init[i].id == k; }
      }
    }
  }

  /** A folder that is named several times has the same parent each time. */
  ghost predicate OneParent(fs: seq<EwsFolder>) {
    forall i, j :: 0 <= i < j < |fs| && fs[i].id == fs[j].id ==> fs[i].parentId == fs[j].parentId
  }

  /** The multi-hash from parents to children; each entry of the list is inserted in turn. */
  function ParentLists(fs: seq<EwsFolder>): MultiHash {
    if fs == [] then map[] else
      var last := fs[|fs| - 1];
      Insert(ParentLists(fs[..|fs| - 1]), last.parentId, last.id)
  }

  function IdSet(fs: seq<EwsFolder>): set<Id> {
    set i | 0 <= i < |fs| :: fs[i].id
  }

  lemma {:induction false} ParentListsHave(fs: seq<EwsFolder>, p: Id, c: Id)
    ensures c in Values(ParentLists(fs), p) <==> exists i :: 0 <= i < |fs| && fs[i] == EwsFolder(c, p)
  {
    if fs != [] {
      var n := |fs| - 1;
      ParentListsHave(fs[..n], p, c);
      if i :| 0 <= i < n && fs[i] == EwsFolder(c, p) {
        assert fs[..n][i] == fs[i];
      }
    }
  }

  lemma {:induction false} OneParentOf(fs: seq<EwsFolder>, i: nat)
    requires OneParent(fs) && i < |fs|
    ensures fs[i].id in ParentsOf(fs) && ParentsOf(fs)[fs[i].id] == fs[i].parentId
  {
    var n := |fs| - 1;
    if i < n {
      OneParentOf(fs[..n], i);
    }
  }

  /** The multi-hash names exactly the children of each folder. */
  lemma ParentListsName(fs: seq<EwsFolder>)
    requires OneParent(fs)
    ensures NamesChildren(ParentLists(fs), ParentsOf(fs)) && ParentsOf(fs).Keys == IdSet(fs)
  {
    ParentsOfKeys(fs);
    forall p, c
      ensures c in Values(ParentLists(fs), p) <==> c in ParentsOf(fs) && ParentsOf(fs)[c] == p
    {
      ParentListsHave(fs, p, c);
      if c in ParentsOf(fs) {
        var i :| 0 <= i < |fs| && fs[i].id == c;
        OneParentOf(fs, i);
        assert ParentsOf(fs)[c] == p ==> fs[i] == EwsFolder(c, p);
      }
      if i :| 0 <= i < |fs| && fs[i] == EwsFolder(c, p) {
        OneParentOf(fs, i);
      }
    }
  }

  /** A child is listed several times exactly if its folder is named several times. */
  lemma {:induction false} ParentListsRepeat(fs: seq<EwsFolder>, p: Id)
    ensures Distinct(Values(ParentLists(fs), p)) <==>
            forall i, j :: 0 <= i < j < |fs| && fs[i].id == fs[j].id ==> fs[i].parentId != p || fs[j].parentId != p
  {
    if fs != [] {
      var n := |fs| - 1;
      var front := fs[..n];
      ParentListsRepeat(front, p);
      var vs := Values(ParentLists(front), p);
      assert forall i :: 0 <= i < n ==> front[i] == fs[i];
      ParentListsHave(front, p, fs[n].id);
      if fs[n].parentId == p {
        assert Values(ParentLists(fs), p) == [fs[n].id] + vs;
        DistinctFirst(fs[n].id, vs);
        if i :| 0 <= i < n && front[i] == EwsFolder(fs[n].id, p) {
          assert fs[i].id == fs[n].id && fs[i].parentId == p;
        }
      } else {
        assert Values(ParentLists(fs), p) == vs;
      }
    }
  }

  lemma DistinctFirst(c: Id, s: seq<Id>)
    ensures Distinct([c] + s) <==> c !in s && Distinct(s)
  {
    var all := [c] + s;
    assert all[0] == c && forall i :: 0 < i < |all| ==> all[i] == s[i - 1];
    if Distinct(all) {
      forall i | 0 <= i < |s|
        ensures s[i] != c
      {
        assert all[i + 1] != all[0];
      }
      forall i, j | 0 <= i < j < |s|
        ensures s[i] != s[j]
      {
        assert all[i + 1] != all[j + 1];
      }
    }
  }

  ghost predicate AfterParent(s: seq<Collection>, top: Collection, i: nat)
    requires i < |s|
  {
    s[i].Parent() == top || exists j :: 0 <= j < i && s[j] == s[i].Parent()
  }

  ghost predicate Lists(s: seq<Collection>, ids: set<Id>) {
    && (forall k :: k in ids ==> exists i :: 0 <= i < |s| && s[i].Rid() == k)
    && (forall i :: 0 <= i < |s| ==> s[i].Rid() in ids)
    && (forall i, j :: 0 <= i < j < |s| ==> s[i].Rid() != s[j].Rid())
  }

  /**
   `s` lists exactly the folders `ids`, each once, each with the parent that `t` gives it, and each
   after the collection object it has as its parent (`top` stands before the list).
   */
  ghost predicate Listing(s: seq<Collection>, top: Collection, ids: set<Id>, t: ParentMap) {
    && Lists(s, ids)
    && (forall i :: 0 <= i < |s| ==> s[i].Collection? && s[i].rid in t && s[i].parent.Rid() == t[s[i].rid])
    && (forall i :: 0 <= i < |s| ==> AfterParent(s, top, i))
  }

  /** `r` is `s`, then `child`, then `sub`. */
  ghost predicate Joins(r: seq<Collection>, s: seq<Collection>, child: Collection, sub: seq<Collection>) {
    && |r| == |s| + 1 + |sub| && r[|s|] == child
    && (forall i :: 0 <= i < |s| ==> r[i] == s[i])
    && (forall i :: |s| < i < |r| ==> r[i] == sub[i - |s| - 1])
  }

  lemma ListsExtend(r: seq<Collection>, s: seq<Collection>, ids: set<Id>, child: Collection,
                    sub: seq<Collection>, below: set<Id>)
    requires Joins(r, s, child, sub) && Lists(s, ids) && Lists(sub, below)
    requires child.Rid() !in ids && child.Rid() !in below && ids !! below
    ensures Lists(r, ids + {child.Rid()} + below)
  {
    ListsMembers(r, s, ids, child, sub, below);
    ListsDistinct(r, s, ids, child, sub, below);
    hide Joins;
  }

  lemma ListsMembers(r: seq<Collection>, s: seq<Collection>, ids: set<Id>, child: Collection,
                     sub: seq<Collection>, below: set<Id>)
    requires Joins(r, s, child, sub) && Lists(s, ids) && Lists(sub, below)
    ensures forall k :: k in ids + {child.Rid()} + below ==> exists i :: 0 <= i < |r| && r[i].Rid() == k
    ensures forall i :: 0 <= i < |r| ==> r[i].Rid() in ids + {child.Rid()} + below
  {
    var n := |s|;
    forall k | k in ids + {child.Rid()} + below
      ensures exists i :: 0 <= i < |r| && r[i].Rid() == k
    {
      if k in ids {
        var i :| 0 <= i < |s| && s[i].Rid() == k;
        assert r[i].Rid() == k;
      } else if k == child.Rid() {
        assert r[n].Rid() == k;
      } else {
        var i :| 0 <= i < |sub| && sub[i].Rid() == k;
        assert r[n + 1 + i].Rid() == k;
      }
    }
  }

  lemma ListsDistinct(r: seq<Collection>, s: seq<Collection>, ids: set<Id>, child: Collection,
                      sub: seq<Collection>, below: set<Id>)
    requires Joins(r, s, child, sub) && Lists(s, ids) && Lists(sub, below)
    requires child.Rid() !in ids && child.Rid() !in below && ids !! below
    ensures forall i, j :: 0 <= i < j < |r| ==> r[i].Rid() != r[j].Rid()
  {
    var n := |s|;
    forall i, j | 0 <= i < j < |r|
      ensures r[i].Rid() != r[j].Rid()
    {
      assert i < n ==> r[i] == s[i] && s[i].Rid() in ids;
      assert j > n ==> r[j] == sub[j - n - 1] && sub[j - n - 1].Rid() in below;
      assert j < n ==> s[i].Rid() != s[j].Rid();
      assert i > n ==> sub[i - n - 1].Rid() != sub[j - n - 1].Rid();
    }
  }

  lemma AfterParentExtend(s: seq<Collection>, top: Collection, child: Collection, sub: seq<Collection>, i: nat)
    requires i < |s + [child] + sub| && child.Parent() == top
    requires forall i :: 0 <= i < |s| ==> AfterParent(s, top, i)
    requires forall i :: 0 <= i < |sub| ==> AfterParent(sub, child, i)
    ensures AfterParent(s + [child] + sub, top, i)
  {
    var r, n := s + [child] + sub, |s|;
    if i < n {
      assert AfterParent(s, top, i);
      if s[i].Parent() != top {
        var j :| 0 <= j < i && s[j] == s[i].Parent();
        assert r[j] == r[i].Parent();
      }
    } else if i > n {
      var m := i - n - 1;
      assert AfterParent(sub, child, m) && r[i] == sub[m];
      if sub[m].Parent() == child {
        assert r[n] == r[i].Parent();
      } else {
        var j :| 0 <= j < m && sub[j] == sub[m].Parent();
        assert r[n + 1 + j] == r[i].Parent();
      }
    }
  }

  /** A listed subtree may follow the listing in which its top is the next entry. */
  lemma ListingExtend(s: seq<Collection>, top: Collection, ids: set<Id>, child: Collection,
                      sub: seq<Collection>, below: set<Id>, t: ParentMap)
    requires Listing(s, top, ids, t) && Listing(sub, child, below, t)
    requires child.Collection? && child.rid in t && child.parent == top && t[child.rid] == top.Rid()
    requires child.rid !in ids && child.rid !in below && ids !! below
    ensures Listing(s + [child] + sub, top, ids + {child.rid} + below, t)
  {
    ListsExtend(s + [child] + sub, s, ids, child, sub, below);
    forall i | 0 <= i < |s + [child] + sub|
      ensures AfterParent(s + [child] + sub, top, i)
    {
      AfterParentExtend(s, top, child, sub, i);
    }
    hide Lists, AfterParent;
  }

  /** What a descent has listed, and the folders that it has not taken out of the collection map. */
  datatype Walked = Walked(list: seq<Collection>, left: set<Id>)

  /**
   The descent from `col` through any multi-hash, with the folders `avail` in the collection map: a child that is
   there is taken out and listed with its own descent, one that is not is listed as an empty collection.
   */
  ghost function Walk(m: MultiHash, avail: set<Id>, col: Collection): (w: Walked)
    ensures w.left <= avail
    decreases avail, |Values(m, col.Rid())| + 1
  {
    WalkOf(m, avail, col, |Values(m, col.Rid())|)
  }

  /** The same for the first `n` children only. */
  ghost function WalkOf(m: MultiHash, avail: set<Id>, col: Collection, n: nat): (w: Walked)
    requires n <= |Values(m, col.Rid())|
    ensures w.left <= avail
    decreases avail, n
  {
    if n == 0 then Walked([], avail) else
      var w := WalkOf(m, avail, col, n - 1);
      var c := Values(m, col.Rid())[n - 1];
      if c in w.left then
        var child := Collection(c, col);
        var sub := Walk(m, w.left - {c}, child);
        Walked(w.list + [child] + sub.list, sub.left)
      else Walked(w.list + [Collection(NULL_ID, col)], w.left)
  }

  /** The collections of a list that stand for a folder. */
  function Named(s: seq<Collection>): seq<Collection> {
    if s == [] then [] else
      var last := s[|s| - 1];
      Named(s[..|s| - 1]) + if last.Rid() == NULL_ID then [] else [last]
  }

  lemma {:induction false} NamedConcat(s: seq<Collection>, r: seq<Collection>)
    ensures Named(s + r) == Named(s) + Named(r)
  {
    if r == [] {
      assert s + r == s;
    } else {
      var n := |r| - 1;
      assert (s + r)[..|s + r| - 1] == s + r[..n] && (s + r)[|s + r| - 1] == r[n];
      NamedConcat(s, r[..n]);
    }
  }

  lemma NamedOne(c: Collection)
    ensures Named([c]) == if c.Rid() == NULL_ID then [] else [c]
  {
    assert [c][..0] == [];
  }

  ghost predicate HasEmpty(s: seq<Collection>) {
    exists i :: 0 <= i < |s| && s[i].Rid() == NULL_ID
  }

  lemma HasEmptyConcat(s: seq<Collection>, r: seq<Collection>)
    ensures HasEmpty(s + r) <==> HasEmpty(s) || HasEmpty(r)
  {
    if HasEmpty(s) {
      var i :| 0 <= i < |s| && s[i].Rid() == NULL_ID;
      assert (s + r)[i] == s[i];
    }
    if HasEmpty(r) {
      var i :| 0 <= i < |r| && r[i].Rid() == NULL_ID;
      assert (s + r)[|s| + i] == r[i];
    }
  }

  lemma HasEmptyOne(c: Collection)
    ensures HasEmpty([c]) <==> c.Rid() == NULL_ID
  {
    assert [c][0] == c;
  }

  /**
   When the map holds everything below its start, a descent takes out exactly that, and its named collections are
   every such folder once, after its parent.
   */
  lemma {:induction false} WalkLists(m: MultiHash, t: ParentMap, avail: set<Id>, col: Collection)
    requires NamesChildren(m, t) && Grounded(t, col.Rid()) && NULL_ID !in t && Below(t, col.Rid()) <= avail
    ensures Walk(m, avail, col).left == avail - Below(t, col.Rid())
    ensures Listing(Named(Walk(m, avail, col).list), col, Below(t, col.Rid()), t)
    decreases avail, |Values(m, col.Rid())| + 1
  {
    WalkOfLists(m, t, avail, col, |Values(m, col.Rid())|);
    AllBranches(t, m, col.Rid());
  }

  lemma {:induction false} WalkOfLists(m: MultiHash, t: ParentMap, avail: set<Id>, col: Collection, n: nat)
    requires NamesChildren(m, t) && Grounded(t, col.Rid()) && NULL_ID !in t && Below(t, col.Rid()) <= avail
    requires n <= |Values(m, col.Rid())|
    ensures WalkOf(m, avail, col, n).left == avail - Branches(t, Values(m, col.Rid()), n)
    ensures Listing(Named(WalkOf(m, avail, col, n).list), col, Branches(t, Values(m, col.Rid()), n), t)
    decreases avail, n
  {
    if n > 0 {
      hide Listing, Named, Branches, NamesChildren, Grounded, WalkOf, Walk, Below, HasEmpty;
      var cs := Values(m, col.Rid());
      var c, w := cs[n - 1], WalkOf(m, avail, col, n - 1);
      WalkOfLists(m, t, avail, col, n - 1);
      if c in cs[..n - 1] {
        SeenBranch(t, cs, n - 1);
        WalkSeen(m, avail, col, n);
      } else {
        NextBranch(t, m, avail, col.Rid(), n - 1);
        var child := Collection(c, col);
        var sub := Walk(m, w.left - {c}, child);
        WalkNew(m, avail, col, n);
        WalkLists(m, t, w.left - {c}, child);
        ListingExtend(Named(w.list), col, Branches(t, cs, n - 1), child, Named(sub.list), Below(t, c), t);
      }
    }
  }

  /** A child that has been seen before is no longer in the map. */
  lemma WalkSeen(m: MultiHash, avail: set<Id>, col: Collection, n: nat)
    requires 0 < n <= |Values(m, col.Rid())|
    requires Values(m, col.Rid())[n - 1] !in WalkOf(m, avail, col, n - 1).left
    ensures var w, w' := WalkOf(m, avail, col, n - 1), WalkOf(m, avail, col, n);
            w'.left == w.left && Named(w'.list) == Named(w.list) && HasEmpty(w'.list)
  {
    var w, none := WalkOf(m, avail, col, n - 1), Collection(NULL_ID, col);
    NamedConcat(w.list, [none]);
    NamedOne(none);
    HasEmptyConcat(w.list, [none]);
    HasEmptyOne(none);
  }

  lemma WalkNew(m: MultiHash, avail: set<Id>, col: Collection, n: nat)
    requires 0 < n <= |Values(m, col.Rid())| && Values(m, col.Rid())[n - 1] != NULL_ID
    requires Values(m, col.Rid())[n - 1] in WalkOf(m, avail, col, n - 1).left
    ensures var w, w' := WalkOf(m, avail, col, n - 1), WalkOf(m, avail, col, n);
            var child := Collection(Values(m, col.Rid())[n - 1], col);
            var sub := Walk(m, w.left - {child.rid}, child);
            && w'.left == sub.left && Named(w'.list) == Named(w.list) + [child] + Named(sub.list)
            && (HasEmpty(w'.list) <==> HasEmpty(w.list) || HasEmpty(sub.list))
  {
    var w, child := WalkOf(m, avail, col, n - 1), Collection(Values(m, col.Rid())[n - 1], col);
    var sub := Walk(m, w.left - {child.rid}, child);
    NamedConcat(w.list + [child], sub.list);
    NamedConcat(w.list, [child]);
    NamedOne(child);
    HasEmptyConcat(w.list + [child], sub.list);
    HasEmptyConcat(w.list, [child]);
    HasEmptyOne(child);
  }

  /** A new child is still in the map, with its whole branch. */
  lemma NextBranch(t: ParentMap, m: MultiHash, avail: set<Id>, p: Id, i: nat)
    requires NamesChildren(m, t) && Grounded(t, p) && NULL_ID !in t && Below(t, p) <= avail
    requires i < |Values(m, p)| && Values(m, p)[i] !in Values(m, p)[..i]
    ensures var cs, c := Values(m, p), Values(m, p)[i];
            var left := avail - Branches(t, cs, i);
            && c in left && c != NULL_ID && c in t && t[c] == p && Grounded(t, c) && Below(t, c) <= left - {c}
            && left - {c} - Below(t, c) == avail - Branches(t, cs, i + 1)
            && Branches(t, cs, i + 1) == Branches(t, cs, i) + {c} + Below(t, c)
            && c !in Branches(t, cs, i) && c !in Below(t, c) && Branches(t, cs, i) !! Below(t, c)
  {
    NextChild(t, m, p, i);
    assert Values(m, p)[i] in Branch(t, Values(m, p)[i]);
    hide Branches, Below, NamesChildren, Grounded;
  }

  lemma SeenBranch(t: ParentMap, cs: seq<Id>, n: nat)
    requires n < |cs| && cs[n] in cs[..n]
    ensures Branches(t, cs, n + 1) == Branches(t, cs, n) && cs[n] in Branches(t, cs, n)
  {
    forall k | k in Branch(t, cs[n])
      ensures k in Branches(t, cs, n)
    {
      InBranches(t, cs, n, k);
      var j :| 0 <= j < n && cs[..n][j] == cs[n];
      assert cs[j] == cs[n];
    }
  }

  /** Some of the folders lists a child twice. */
  ghost predicate Repeats(m: MultiHash, ids: set<Id>) {
    exists p :: p in ids && !Distinct(Values(m, p))
  }

  lemma RepeatsMore(m: MultiHash, a: set<Id>, c: Id, b: set<Id>)
    ensures Repeats(m, {}) <==> false
    ensures Repeats(m, a + {c} + b) <==> Repeats(m, a) || !Distinct(Values(m, c)) || Repeats(m, b)
    ensures Repeats(m, b + {c}) <==> !Distinct(Values(m, c)) || Repeats(m, b)
  {
    hide Distinct;
    if !Distinct(Values(m, c)) {
      assert c in a + {c} + b && c in b + {c};
    }
    if p :| p in a && !Distinct(Values(m, p)) {
      assert p in a + {c} + b;
    }
    if p :| p in b && !Distinct(Values(m, p)) {
      assert p in a + {c} + b && p in b + {c};
    }
  }

  /** An empty collection is listed exactly if some folder that is reached lists a child twice. */
  lemma {:induction false} WalkEmpty(m: MultiHash, t: ParentMap, avail: set<Id>, col: Collection)
    requires NamesChildren(m, t) && Grounded(t, col.Rid()) && NULL_ID !in t && Below(t, col.Rid()) <= avail
    ensures HasEmpty(Walk(m, avail, col).list) <==> Repeats(m, Below(t, col.Rid()) + {col.Rid()})
    decreases avail, |Values(m, col.Rid())| + 1
  {
    var cs := Values(m, col.Rid());
    WalkOfEmpty(m, t, avail, col, |cs|);
    AllBranches(t, m, col.Rid());
    assert cs[..|cs|] == cs;
    RepeatsMore(m, {}, col.Rid(), Below(t, col.Rid()));
  }

  lemma {:induction false} WalkOfEmpty(m: MultiHash, t: ParentMap, avail: set<Id>, col: Collection, n: nat)
    requires NamesChildren(m, t) && Grounded(t, col.Rid()) && NULL_ID !in t && Below(t, col.Rid()) <= avail
    requires n <= |Values(m, col.Rid())|
    ensures HasEmpty(WalkOf(m, avail, col, n).list) <==>
              || !Distinct(Values(m, col.Rid())[..n])
              || Repeats(m, Branches(t, Values(m, col.Rid()), n))
    decreases avail, n
  {
    if n > 0 {
      hide Listing, Named, Branches, NamesChildren, Grounded, WalkOf, Walk, HasEmpty, Distinct, Repeats, Below;
      var cs := Values(m, col.Rid());
      var c, w := cs[n - 1], WalkOf(m, avail, col, n - 1);
      WalkOfEmpty(m, t, avail, col, n - 1);
      WalkLeaves(m, t, avail, col, n - 1);
      if c in cs[..n - 1] {
        SeenEmpty(m, t, avail, col, n);
      } else {
        NextBranch(t, m, avail, col.Rid(), n - 1);
        WalkEmpty(m, t, w.left - {c}, Collection(c, col));
        NewEmpty(m, t, avail, col, n);
      }
    }
  }

  lemma WalkLeaves(m: MultiHash, t: ParentMap, avail: set<Id>, col: Collection, n: nat)
    requires NamesChildren(m, t) && Grounded(t, col.Rid()) && NULL_ID !in t && Below(t, col.Rid()) <= avail
    requires n <= |Values(m, col.Rid())|
    ensures WalkOf(m, avail, col, n).left == avail - Branches(t, Values(m, col.Rid()), n)
  {
    WalkOfLists(m, t, avail, col, n);
  }

  /** A child that comes again is listed as an empty collection. */
  lemma SeenEmpty(m: MultiHash, t: ParentMap, avail: set<Id>, col: Collection, n: nat)
    requires 0 < n <= |Values(m, col.Rid())| && Values(m, col.Rid())[n - 1] in Values(m, col.Rid())[..n - 1]
    requires WalkOf(m, avail, col, n - 1).left == avail - Branches(t, Values(m, col.Rid()), n - 1)
    ensures HasEmpty(WalkOf(m, avail, col, n).list) && !Distinct(Values(m, col.Rid())[..n])
  {
    var cs := Values(m, col.Rid());
    hide Branches, WalkOf, Walk, HasEmpty, Distinct;
    SeenBranch(t, cs, n - 1);
    WalkSeen(m, avail, col, n);
    assert cs[..n] == cs[..n - 1] + [cs[n - 1]];
    DistinctLast(cs[..n - 1], cs[n - 1]);
  }

  /** A new child adds the empty collections of its own descent. */
  lemma NewEmpty(m: MultiHash, t: ParentMap, avail: set<Id>, col: Collection, n: nat)
    requires 0 < n <= |Values(m, col.Rid())|
    requires var cs, w := Values(m, col.Rid()), WalkOf(m, avail, col, n - 1);
             var c, done := cs[n - 1], Branches(t, cs, n - 1);
             && c in w.left && c != NULL_ID && c !in cs[..n - 1] && Branches(t, cs, n) == done + {c} + Below(t, c)
             && (HasEmpty(w.list) <==> !Distinct(cs[..n - 1]) || Repeats(m, done))
             && (HasEmpty(Walk(m, w.left - {c}, Collection(c, col)).list) <==> Repeats(m, Below(t, c) + {c}))
    ensures var cs := Values(m, col.Rid());
            HasEmpty(WalkOf(m, avail, col, n).list) <==> !Distinct(cs[..n]) || Repeats(m, Branches(t, cs, n))
  {
    hide Branches, WalkOf, Walk, HasEmpty, Distinct, Repeats, Below;
    var cs := Values(m, col.Rid());
    assert cs[..n] == cs[..n - 1] + [cs[n - 1]];
    DistinctLast(cs[..n - 1], cs[n - 1]);
    WalkNew(m, avail, col, n);
    RepeatsMore(m, Branches(t, cs, n - 1), cs[n - 1], Below(t, cs[n - 1]));
  }

  lemma DistinctLast(s: seq<Id>, c: Id)
    ensures Distinct(s + [c]) <==> c !in s && Distinct(s)
  {
    var all := s + [c];
    assert all[|s|] == c && forall i :: 0 <= i < |s| ==> all[i] == s[i];
    if Distinct(all) {
      forall i | 0 <= i < |s|
        ensures s[i] != c
      {
        assert all[i] != all[|s|];
      }
    }
  }

  /**
   What the job lists when each folder has one parent: the named collections are every folder reachable from the
   root, once and after its parent; if all are reachable, an empty collection is listed exactly if a folder was
   received twice.
   */
  lemma ReceivedIsListed(fs: seq<EwsFolder>, root: Collection)
    requires OneParent(fs) && root.Rid() !in IdSet(fs) && NULL_ID !in IdSet(fs)
    ensures var w, t := Walk(ParentLists(fs), IdSet(fs), root), ParentsOf(fs);
            && w.left == t.Keys - Below(t, root.Rid())
            && Listing(Named(w.list), root, Below(t, root.Rid()), t)
            && (w.left == {} ==> (HasEmpty(w.list) <==> !DistinctIds(fs)))
            && (DistinctIds(fs) ==> !HasEmpty(w.list))
  {
    var m, t, avail := ParentLists(fs), ParentsOf(fs), IdSet(fs);
    ParentListsName(fs);
    assert Climbs(t, root.Rid(), root.Rid(), 0);
    WalkLists(m, t, avail, root);
    WalkEmpty(m, t, avail, root);
    hide Walk, Listing, NamesChildren;
    if DistinctIds(fs) {
      forall p
        ensures Distinct(Values(m, p))
      {
        ParentListsRepeat(fs, p);
      }
    } else if Walk(m, avail, root).left == {} {
      var i, j :| 0 <= i < j < |fs| && fs[i].id == fs[j].id;
      var p := fs[i].parentId;
      ParentListsRepeat(fs, p);
      OneParentOf(fs, i);
      ParentReached(t, root.Rid(), fs[i].id);
    }
  }

  lemma ParentReached(t: ParentMap, root: Id, k: Id)
    requires k in t && root !in t && t.Keys - Below(t, root) == {}
    ensures t[k] in Below(t, root) + {root}
  {
    assert k !in t.Keys - Below(t, root);
    var n: nat :| n > 0 && Under(t, k, root, n);
    assert Under(t, t[k], root, n - 1);
    assert n == 1 ==> t[k] == root;
  }

  /** A folder received twice, before and after a page failed: an empty collection is listed and nothing is amiss. */
  lemma LeftoverIsEmpty()
    ensures var fs, root := [EwsFolder(2, 1), EwsFolder(2, 1)], Collection(1, NoCollection);
            Walk(ParentLists(fs), IdSet(fs), root) == Walked([Collection(2, root), Collection(NULL_ID, root)], {})
  {
    var fs, root := [EwsFolder(2, 1), EwsFolder(2, 1)], Collection(1, NoCollection);
    var m := ParentLists(fs);
    assert fs[..1][..0] == [] && fs[..1] == [EwsFolder(2, 1)];
    assert ParentLists([EwsFolder(2, 1)]) == Insert(map[], 1, 2) by {
      assert [EwsFolder(2, 1)][..0] == [];
    }
    assert Values(m, 1) == [2, 2] && Values(m, 2) == [];
    assert IdSet(fs) == {2} by {
      assert fs[0].id in IdSet(fs);
    }
    var child := Collection(2, root);
    assert Walk(m, {}, child) == Walked([], {});
    assert WalkOf(m, {2}, root, 0) == Walked([], {2});
    assert {2} - {2} == {};
    assert WalkOf(m, {2}, root, 1) == Walked([child], {});
    assert WalkOf(m, {2}, root, 2) == Walked([child, Collection(NULL_ID, root)], {});
  }

  lemma EmptyWalk(m: MultiHash, avail: set<Id>, col: Collection)
    requires Values(m, NULL_ID) == []
    ensures Walk(m, avail, Collection(NULL_ID, col)) == Walked([], avail)
  {
  }

  lemma Regroup(a: seq<Collection>, b: seq<Collection>, child: Collection, c: seq<Collection>)
    ensures a + b + [child] + c == a + (b + [child] + c) && b + [child] + [] == b + [child]
  {
  }

  lemma NoFolders()
    ensures IdSet([]) == {} && ParentLists([]) == map[]
  {
  }

  lemma IdSetAdd(fs: seq<EwsFolder>, f: EwsFolder)
    ensures IdSet(fs + [f]) == IdSet(fs) + {f.id}
    ensures ParentLists(fs + [f]) == Insert(ParentLists(fs), f.parentId, f.id)
  {
    var all := fs + [f];
    assert all[..|fs|] == fs;
    assert all[|fs|] == f && forall i :: 0 <= i < |fs| ==> all[i] == fs[i];
    forall k | k in IdSet(fs)
      ensures k in IdSet(all)
    {
      var i :| 0 <= i < |fs| && fs[i].id == k;
      assert all[i].id == k;
    }
  }

  /** The server names a parent for each folder. */
  ghost predicate HaveParents(fs: seq<EwsFolder>) {
    forall i :: 0 <= i < |fs| ==> fs[i].parentId != NULL_ID
  }

  lemma NoNullParent(fs: seq<EwsFolder>)
    requires HaveParents(fs)
    ensures Values(ParentLists(fs), NULL_ID) == []
  {
    var vs := Values(ParentLists(fs), NULL_ID);
    if vs != [] {
      assert vs[0] in vs;
      ParentListsHave(fs, NULL_ID, vs[0]);
    }
  }

  /**
   The descent from the root comes to an end: all folders have a parent, or each was received once. Only a folder
   without a parent beside one that was received twice is left open.
   */
  ghost predicate Ends(fs: seq<EwsFolder>, root: Id) {
    HaveParents(fs) || (DistinctIds(fs) && root !in IdSet(fs) && NULL_ID !in IdSet(fs))
  }

  /** The descent from `id` meets no empty collection whose own children it would have to descend into. */
  ghost predicate Descends(m: MultiHash, avail: set<Id>, id: Id, t: ParentMap) {
    Values(m, NULL_ID) == [] || (ListsChildren(m, t) && Grounded(t, id) && NULL_ID !in t && Below(t, id) <= avail)
  }

  lemma EndsDescends(fs: seq<EwsFolder>, root: Id)
    requires Ends(fs, root)
    ensures Descends(ParentLists(fs), IdSet(fs), root, ParentsOf(fs))
  {
    if HaveParents(fs) {
      NoNullParent(fs);
    } else {
      ParentListsName(fs);
      assert Climbs(ParentsOf(fs), root, root, 0);
      hide HaveParents;
      forall p
        ensures Distinct(Values(ParentLists(fs), p))
      {
        ParentListsRepeat(fs, p);
      }
    }
  }

  /** In the descent of `id` the next child is in the map, or nothing hangs from an empty collection. */
  lemma DescendsNext(m: MultiHash, avail: set<Id>, col: Collection, t: ParentMap, n: nat)
    requires Descends(m, avail, col.Rid(), t) && n < |Values(m, col.Rid())|
    ensures var left, c := WalkOf(m, avail, col, n).left, Values(m, col.Rid())[n];
            if c in left then Descends(m, left - {c}, c, t) else Values(m, NULL_ID) == []
  {
    if Values(m, NULL_ID) != [] {
      NotBefore(m, t, col.Rid(), n);
      WalkLeaves(m, t, avail, col, n);
      NextBranch(t, m, avail, col.Rid(), n);
    }
    hide WalkOf, Below, Grounded, Branches, ListsChildren, NamesChildren;
  }

  /** What the job asks the server next. */
  datatype NextRequest = NoRequest | FetchPage | FetchIds | FetchDetails

  predicate AllCreated(changes: seq<Change>) {
    forall i :: 0 <= i < |changes| ==> changes[i].Create?
  }

  function Folders(changes: seq<Change>): seq<EwsFolder>
    requires AllCreated(changes)
  {
    seq(|changes|, i requires 0 <= i < |changes| => changes[i].folder)
  }

  /** The folders of the responses that are no errors. */
  function Successes(responses: seq<Option<EwsFolder>>): seq<EwsFolder> {
    if responses == [] then [] else
      var last := responses[|responses| - 1];
      Successes(responses[..|responses| - 1]) + if last.Some? then [last.value] else []
  }

  function FolderIds(fs: seq<EwsFolder>): seq<Id> {
    if fs == [] then [] else FolderIds(fs[..|fs| - 1]) + [fs[|fs| - 1].id]
  }

  lemma {:induction false} FolderIdsConcat(a: seq<EwsFolder>, b: seq<EwsFolder>)
    ensures FolderIds(a + b) == FolderIds(a) + FolderIds(b)
  {
    if b == [] {
      assert a + b == a;
    } else {
      var n := |b| - 1;
      assert (a + b)[..|a + b| - 1] == a + b[..n] && (a + b)[|a + b| - 1] == b[n];
      FolderIdsConcat(a, b[..n]);
    }
  }

  lemma {:induction false} FolderIdsAt(fs: seq<EwsFolder>)
    ensures |FolderIds(fs)| == |fs| && forall i :: 0 <= i < |fs| ==> FolderIds(fs)[i] == fs[i].id
  {
    if fs != [] {
      FolderIdsAt(fs[..|fs| - 1]);
    }
  }

  lemma {:induction false} OnceInMultiset(ids: seq<Id>, id: Id)
    requires Distinct(ids)
    ensures multiset(ids)[id] <= 1
  {
    if ids != [] {
      var n := |ids| - 1;
      assert ids == ids[..n] + [ids[n]];
      OnceInMultiset(ids[..n], id);
      if id == ids[n] {
        assert id !in ids[..n];
        assert id !in multiset(ids[..n]);
      }
    }
  }

  lemma TwiceInMultiset(ids: seq<Id>, i: nat, j: nat)
    requires i < j < |ids| && ids[i] == ids[j]
    ensures multiset(ids)[ids[i]] >= 2
  {
    assert ids == ids[..j] + [ids[j]] + ids[j + 1..];
    assert ids[..j][i] == ids[j];
    assert ids[i] in multiset(ids[..j]);
  }

  /**
   Folders received for distinct identifiers, in any order, after others that were kept from earlier pages: each has
   one parent, they make up the tree, and they are distinct exactly if none of the kept ones was received again.
   */
  lemma DetailsComplete(fs: seq<EwsFolder>, kept: seq<EwsFolder>, ids: seq<Id>, t: ParentMap)
    requires Distinct(ids) && DistinctIds(kept)
    requires multiset(FolderIds(fs)) == multiset(FolderIds(kept)) + multiset(ids)
    requires t.Keys == IdSet(kept) + set id | id in ids
    requires forall i :: 0 <= i < |fs| ==> fs[i].id in t && t[fs[i].id] == fs[i].parentId
    ensures OneParent(fs) && ParentsOf(fs) == t
    ensures DistinctIds(fs) <==> forall i :: 0 <= i < |kept| ==> kept[i].id !in ids
  {
    hide *;
    SameParents(fs, t);
    RepeatsExactly(fs, kept, ids);
    ParentsOfKeys(fs);
    forall k | k in t
      ensures k in ParentsOf(fs)
    {
      Received(fs, kept, ids, k);
    }
    forall k | k in ParentsOf(fs)
      ensures k in t && ParentsOf(fs)[k] == t[k]
    {
      var i :| 0 <= i < |fs| && fs[i].id == k;
      OneParentOf(fs, i);
    }
  }

  lemma SameParents(fs: seq<EwsFolder>, t: ParentMap)
    requires forall i :: 0 <= i < |fs| ==> fs[i].id in t && t[fs[i].id] == fs[i].parentId
    ensures OneParent(fs)
  {
  }

  lemma Received(fs: seq<EwsFolder>, kept: seq<EwsFolder>, ids: seq<Id>, k: Id)
    requires multiset(FolderIds(fs)) == multiset(FolderIds(kept)) + multiset(ids)
    requires k in ids || k in IdSet(kept)
    ensures exists i :: 0 <= i < |fs| && fs[i].id == k
  {
    FolderIdsAt(fs);
    FolderIdsAt(kept);
    if k in ids {
      assert k in multiset(ids);
    } else {
      var i :| 0 <= i < |kept| && kept[i].id == k;
      assert FolderIds(kept)[i] in multiset(FolderIds(kept));
    }
    assert k in multiset(FolderIds(fs));
    assert k in FolderIds(fs);
    var i :| 0 <= i < |fs| && FolderIds(fs)[i] == k;
    assert fs[i].id == k;
  }

  lemma RepeatsExactly(fs: seq<EwsFolder>, kept: seq<EwsFolder>, ids: seq<Id>)
    requires Distinct(ids) && DistinctIds(kept)
    requires multiset(FolderIds(fs)) == multiset(FolderIds(kept)) + multiset(ids)
    ensures DistinctIds(fs) <==> forall i :: 0 <= i < |kept| ==> kept[i].id !in ids
  {
    FolderIdsAt(fs);
    FolderIdsAt(kept);
    if n :| 0 <= n < |kept| && kept[n].id in ids {
      assert kept[n].id in multiset(ids) && FolderIds(kept)[n] in multiset(FolderIds(kept));
      TwiceNotDistinct(fs, kept[n].id);
    } else {
      forall i, j | 0 <= i < j < |fs|
        ensures fs[i].id != fs[j].id
      {
        if fs[i].id == fs[j].id {
          TwiceInMultiset(FolderIds(fs), i, j);
          OnlyFromOne(kept, ids, fs[i].id);
        }
      }
    }
  }

  lemma OnlyFromOne(kept: seq<EwsFolder>, ids: seq<Id>, k: Id)
    requires Distinct(ids) && DistinctIds(kept) && forall i :: 0 <= i < |kept| ==> kept[i].id !in ids
    ensures multiset(FolderIds(kept))[k] + multiset(ids)[k] <= 1
  {
    FolderIdsAt(kept);
    OnceInMultiset(ids, k);
    DistinctFolderIds(kept);
    OnceInMultiset(FolderIds(kept), k);
    if k in multiset(FolderIds(kept)) {
      assert k in FolderIds(kept);
    }
  }

  lemma DistinctFolderIds(fs: seq<EwsFolder>)
    requires DistinctIds(fs)
    ensures Distinct(FolderIds(fs))
  {
    FolderIdsAt(fs);
    forall i, j | 0 <= i < j < |FolderIds(fs)|
      ensures FolderIds(fs)[i] != FolderIds(fs)[j]
    {
      assert fs[i].id != fs[j].id;
    }
  }

  lemma TwiceNotDistinct(fs: seq<EwsFolder>, k: Id)
    requires multiset(FolderIds(fs))[k] >= 2
    ensures !DistinctIds(fs)
  {
    if DistinctIds(fs) {
      DistinctFolderIds(fs);
      OnceInMultiset(FolderIds(fs), k);
    }
  }

  class EwsFetchFoldersJob {
    const mRootCollection: Collection
    var mRemoteChangedFolders: seq<EwsFolder>
    var mRemoteFolderIds: seq<Id>
    var mPendingFetchJobs: nat
    /** The identifiers of each request for details that runs. */
    var mDetailJobs: seq<seq<Id>>
    var mCollectionMap: map<Id, Collection>
    var mParentMap: MultiHash
    var mFolders: seq<Collection>
    var mError: bool
    /** How many times the job has reported its result. */
    var mResults: nat

    constructor (root: Collection)
      ensures mRootCollection == root && mRemoteChangedFolders == [] && mRemoteFolderIds == []
      ensures mPendingFetchJobs == 0 && mDetailJobs == [] && mCollectionMap == map[] && mParentMap == map[]
      ensures mFolders == [] && !mError && mResults == 0
    {
      mRootCollection := root;
      mRemoteChangedFolders, mRemoteFolderIds, mPendingFetchJobs, mDetailJobs := [], [], 0, [];
      mCollectionMap, mParentMap, mFolders := map[], map[], [];
      mError, mResults := false, 0;
    }

    /** Every folder gets a collection without a parent and an entry under its parent. */
    method ProcessRemoteFolders()
      requires mCollectionMap == map[] && mParentMap == map[]
      modifies this`mCollectionMap, this`mParentMap
      ensures mParentMap == ParentLists(mRemoteChangedFolders)
      ensures mCollectionMap.Keys == IdSet(mRemoteChangedFolders) && Parentless()
    {
      hide IdSet, ParentLists, Insert, Values;
      var i := 0;
      NoFolders();
      while i < |mRemoteChangedFolders|
        invariant 0 <= i <= |mRemoteChangedFolders|
        invariant mParentMap == ParentLists(mRemoteChangedFolders[..i])
        invariant mCollectionMap.Keys == IdSet(mRemoteChangedFolders[..i]) && Parentless()
      {
        var folder := mRemoteChangedFolders[i];
        var c := Collection(folder.id, NoCollection);
        assert mRemoteChangedFolders[..i + 1] == mRemoteChangedFolders[..i] + [folder];
        IdSetAdd(mRemoteChangedFolders[..i], folder);
        mCollectionMap := mCollectionMap[c.rid := c];
        mParentMap := Insert(mParentMap, folder.parentId, c.rid);
        i := i + 1;
      }
      assert mRemoteChangedFolders[..i] == mRemoteChangedFolders;
    }

    /** The collections that have not been taken out have no parent yet. */
    ghost predicate Parentless()
      reads this`mCollectionMap
    {
      forall k :: k in mCollectionMap ==> mCollectionMap[k] == Collection(k, NoCollection)
    }

    /** The collection of a folder is taken out of the map; if it is not there, the empty collection is the answer. */
    method Take(id: Id) returns (c: Collection)
      requires Parentless()
      modifies this`mCollectionMap
      ensures Parentless() && mCollectionMap.Keys == old(mCollectionMap.Keys) - {id}
      ensures c == if id in old(mCollectionMap) then Collection(id, NoCollection) else NoCollection
    {
      if id in mCollectionMap {
        c := mCollectionMap[id];
        mCollectionMap := mCollectionMap - {id};
      } else {
        c := NoCollection;
        assert mCollectionMap.Keys - {id} == mCollectionMap.Keys;
      }
    }

    /** Lists the children of `col`, each followed by its own children. */
    method BuildChildCollectionList(col: Collection, ghost t: ParentMap)
      requires Descends(mParentMap, mCollectionMap.Keys, col.Rid(), t) && Parentless()
      modifies this`mCollectionMap, this`mFolders
      ensures mFolders == old(mFolders) + Walk(mParentMap, old(mCollectionMap).Keys, col).list
      ensures mCollectionMap.Keys == Walk(mParentMap, old(mCollectionMap).Keys, col).left && Parentless()
      decreases mCollectionMap.Keys, |Values(mParentMap, col.Rid())|
    {
      var children := Values(mParentMap, col.Rid());
      var i := 0;
      while i < |children|
        invariant 0 <= i <= |children| && Parentless()
        invariant mFolders == old(mFolders) + WalkOf(mParentMap, old(mCollectionMap).Keys, col, i).list
        invariant mCollectionMap.Keys == WalkOf(mParentMap, old(mCollectionMap).Keys, col, i).left
      {
        ghost var left, done := mCollectionMap.Keys, WalkOf(mParentMap, old(mCollectionMap).Keys, col, i).list;
        DescendsNext(mParentMap, old(mCollectionMap).Keys, col, t, i);
        var child := Take(children[i]);
        child := child.WithParent(col);
        mFolders := mFolders + [child];
        if children[i] !in left {
          EmptyWalk(mParentMap, mCollectionMap.Keys, col);
        }
        Regroup(old(mFolders), done, child, Walk(mParentMap, mCollectionMap.Keys, child).list);
        BuildChildCollectionList(child, t);
        i := i + 1;
      }
    }

    /**
     The list is the root followed by what the descent from it lists, and the job fails exactly if something is
     left in the map.
     */
    method BuildCollectionList(ghost t: ParentMap)
      requires Descends(mParentMap, mCollectionMap.Keys, mRootCollection.Rid(), t) && Parentless() && mFolders == []
      modifies this`mCollectionMap, this`mFolders, this`mError
      ensures mFolders == [mRootCollection] + Walk(mParentMap, old(mCollectionMap).Keys, mRootCollection).list
      ensures mError ==
              (old(mError) || Walk(mParentMap, old(mCollectionMap).Keys, mRootCollection).left != {})
    {
      mFolders := mFolders + [mRootCollection];
      BuildChildCollectionList(mRootCollection, t);
      if mCollectionMap.Keys != {} {
        mError := true;
      }
    }

    /** What the job has listed, and whether it has failed, for all folders that it has received. */
    ghost predicate Built(failed: bool)
      reads this`mFolders, this`mRemoteChangedFolders, this`mError
    {
      var fs := mRemoteChangedFolders;
      var w := Walk(ParentLists(fs), IdSet(fs), mRootCollection);
      mFolders == [mRootCollection] + w.list && mError == (failed || w.left != {})
    }

    /** Builds the folder list from everything received and reports the result. */
    method Finish()
      requires Ends(mRemoteChangedFolders, mRootCollection.Rid()) && Untouched()
      modifies this`mCollectionMap, this`mParentMap, this`mFolders, this`mError, this`mResults
      ensures mResults == old(mResults) + 1 && Built(old(mError))
    {
      ProcessRemoteFolders();
      EndsDescends(mRemoteChangedFolders, mRootCollection.Rid());
      BuildCollectionList(ParentsOf(mRemoteChangedFolders));
      mResults := mResults + 1;
    }

    ghost predicate Untouched()
      reads this`mCollectionMap, this`mParentMap, this`mFolders
    {
      mCollectionMap == map[] && mParentMap == map[] && mFolders == []
    }

    /**
     A page of the full fetch has arrived. A failed page is answered by fetching identifiers only; the
     folders of earlier pages stay in the list.
     */
    method RemoteFolderFullFetchDone(error: bool, changes: seq<Change>, includesLastItem: bool)
      returns (next: NextRequest)
      requires Untouched()
      requires !error && AllCreated(changes) && includesLastItem ==>
                 Ends(mRemoteChangedFolders + Folders(changes), mRootCollection.Rid())
      modifies this
      ensures next ==
              (if error then FetchIds else if AllCreated(changes) && !includesLastItem then FetchPage else NoRequest)
      ensures mRemoteFolderIds == old(mRemoteFolderIds) && mDetailJobs == old(mDetailJobs)
      ensures next != NoRequest ==> mResults == old(mResults) && mError == old(mError) && Untouched()
      ensures next == NoRequest ==> mResults == old(mResults) + 1
      ensures !error && !AllCreated(changes) ==> mError
      ensures !error && AllCreated(changes) ==>
                mRemoteChangedFolders == old(mRemoteChangedFolders) + Folders(changes)
      ensures error ==> mRemoteChangedFolders == old(mRemoteChangedFolders)
      ensures !error && AllCreated(changes) && includesLastItem ==> Built(old(mError))
    {
      if error {
        return FetchIds;
      }
      var i := 0;
      while i < |changes|
        invariant 0 <= i <= |changes| && AllCreated(changes[..i])
        invariant mRemoteChangedFolders == old(mRemoteChangedFolders) + Folders(changes[..i])
        invariant mResults == old(mResults) && mError == old(mError)
        invariant mRemoteFolderIds == old(mRemoteFolderIds) && mDetailJobs == old(mDetailJobs)
        invariant Untouched()
      {
        assert changes[..i + 1] == changes[..i] + [changes[i]];
        if !changes[i].Create? {
          assert changes[i] in changes;
          mError, mResults := true, mResults + 1;
          return NoRequest;
        }
        mRemoteChangedFolders := mRemoteChangedFolders + [changes[i].folder];
        i := i + 1;
      }
      assert changes[..i] == changes;
      if includesLastItem {
        hide Walk, IdSet, ParentLists, Ends;
        Finish();
        return NoRequest;
      }
      return FetchPage;
    }

    /** What the composite job does after the callback of a failed subjob: the first error ends it. */
    method SlotResult()
      modifies this`mError, this`mResults
      ensures mError && mResults == old(mResults) + if old(mError) then 0 else 1
    {
      if !mError {
        mError, mResults := true, mResults + 1;
      }
    }

    /**
     A page of identifiers has arrived; after the last one the details are asked for in batches. A failed request fails
     the job.
     */
    method RemoteFolderIdFullFetchDone(error: bool, changes: seq<Change>, includesLastItem: bool)
      returns (next: NextRequest)
      requires mDetailJobs == []
      modifies this`mRemoteFolderIds, this`mPendingFetchJobs, this`mDetailJobs, this`mError, this`mResults
      ensures next == (if error || !AllCreated(changes) then NoRequest
                       else if includesLastItem then FetchDetails else FetchIds)
      ensures if error
              then && mError && mResults == old(mResults) + (if old(mError) then 0 else 1)
                   && mRemoteFolderIds == old(mRemoteFolderIds)
              else if next == NoRequest then mError && mResults == old(mResults) + 1
              else && mError == old(mError) && mResults == old(mResults)
                   && mRemoteFolderIds == old(mRemoteFolderIds) + FolderIds(Folders(changes))
      ensures next == FetchDetails ==>
                && Flatten(mDetailJobs) == mRemoteFolderIds && mPendingFetchJobs == |mDetailJobs|
                && |mDetailJobs| == (|mRemoteFolderIds| + 49) / 50
                && forall i :: 0 <= i < |mDetailJobs| ==> 0 < |mDetailJobs[i]| <= 50
      ensures next != FetchDetails ==> mDetailJobs == []
    {
      if error {
        SlotResult();
        return NoRequest;
      }
      var i := 0;
      while i < |changes|
        invariant 0 <= i <= |changes| && AllCreated(changes[..i]) && mDetailJobs == []
        invariant mRemoteFolderIds == old(mRemoteFolderIds) + FolderIds(Folders(changes[..i]))
        invariant mResults == old(mResults) && mError == old(mError)
      {
        assert changes[..i + 1] == changes[..i] + [changes[i]];
        if !changes[i].Create? {
          assert changes[i] in changes;
          mError, mResults := true, mResults + 1;
          return NoRequest;
        }
        assert Folders(changes[..i + 1])[..i] == Folders(changes[..i]);
        mRemoteFolderIds := mRemoteFolderIds + [changes[i].folder.id];
        i := i + 1;
      }
      assert changes[..i] == changes;
      if includesLastItem {
        StartDetails();
        return FetchDetails;
      }
      return FetchIds;
    }

    /** Asks for the details of all folders. */
    method StartDetails()
      requires mDetailJobs == []
      modifies this`mPendingFetchJobs, this`mDetailJobs
      ensures Flatten(mDetailJobs) == mRemoteFolderIds && mPendingFetchJobs == |mDetailJobs|
      ensures |mDetailJobs| == (|mRemoteFolderIds| + 49) / 50
      ensures forall i :: 0 <= i < |mDetailJobs| ==> 0 < |mDetailJobs[i]| <= 50
    {
      mPendingFetchJobs := 0;
      var i := 0;
      while i < |mRemoteFolderIds|
        invariant 0 <= i && mPendingFetchJobs == |mDetailJobs|
        invariant Flatten(mDetailJobs) == mRemoteFolderIds[..if i < |mRemoteFolderIds| then i else |mRemoteFolderIds|]
        invariant forall k :: 0 <= k < |mDetailJobs| ==> 0 < |mDetailJobs[k]| <= 50
        invariant i == 50 * |mDetailJobs| && i < |mRemoteFolderIds| + 50
      {
        var end := if i + FETCH_BATCH_SIZE < |mRemoteFolderIds| then i + FETCH_BATCH_SIZE else |mRemoteFolderIds|;
        FlattenAppend(mDetailJobs, mRemoteFolderIds[i..end]);
        assert mRemoteFolderIds[..i] + mRemoteFolderIds[i..end] == mRemoteFolderIds[..end];
        mDetailJobs := mDetailJobs + [mRemoteFolderIds[i..end]];
        mPendingFetchJobs := mPendingFetchJobs + 1;
        i := i + FETCH_BATCH_SIZE;
      }
      assert mRemoteFolderIds[..|mRemoteFolderIds|] == mRemoteFolderIds;
    }

    /**
     One of the requests for details, any one, has its responses; those that are errors are passed over. The first
     request that fails fails the job, which then stays one answer short and does not report again.
     */
    method RemoteFolderDetailFetchDone(error: bool, which: nat, responses: seq<Option<EwsFolder>>)
      requires which < |mDetailJobs| <= mPendingFetchJobs && Untouched()
      requires !error && mPendingFetchJobs == 1 ==>
                 Ends(mRemoteChangedFolders + Successes(responses), mRootCollection.Rid())
      modifies this
      ensures mRemoteFolderIds == old(mRemoteFolderIds)
      ensures mDetailJobs == old(mDetailJobs)[..which] + old(mDetailJobs)[which + 1..]
      ensures mRemoteChangedFolders ==
              if error then old(mRemoteChangedFolders) else old(mRemoteChangedFolders) + Successes(responses)
      ensures mPendingFetchJobs - |mDetailJobs| == old(mPendingFetchJobs - |mDetailJobs|) + if error then 1 else 0
      ensures if error
              then mError && mResults == old(mResults) + (if old(mError) then 0 else 1) && Untouched()
              else if mPendingFetchJobs == 0 then mResults == old(mResults) + 1 && Built(old(mError))
              else mResults == old(mResults) && mError == old(mError) && Untouched()
    {
      hide ParentLists, IdSet, Walk, Ends;
      mDetailJobs := mDetailJobs[..which] + mDetailJobs[which + 1..];
      if error {
        SlotResult();
        return;
      }
      var i := 0;
      while i < |responses|
        invariant 0 <= i <= |responses|
        invariant mRemoteChangedFolders == old(mRemoteChangedFolders) + Successes(responses[..i])
        invariant mDetailJobs == old(mDetailJobs)[..which] + old(mDetailJobs)[which + 1..]
        invariant mPendingFetchJobs == old(mPendingFetchJobs) && mRemoteFolderIds == old(mRemoteFolderIds)
        invariant mResults == old(mResults) && mError == old(mError) && Untouched()
      {
        assert responses[..i + 1][..i] == responses[..i];
        if responses[i].Some? {
          mRemoteChangedFolders := mRemoteChangedFolders + [responses[i].value];
        }
        i := i + 1;
      }
      assert responses[..i] == responses;
      mPendingFetchJobs := mPendingFetchJobs - 1;
      if mPendingFetchJobs == 0 {
        Finish();
      }
    }
  }
}
