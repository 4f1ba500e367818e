/**
 Folder trees as maps from a folder identifier to its parent's identifier, and the facts about
 climbing and descending them that both EWS folder jobs rest on.
 */
module FolderTree {

  /** EWS identifiers are opaque strings that are only compared; `NULL_ID` is the null string. */
  type Id = nat

  const NULL_ID: Id := 0

  /** Immediate parents. A folder with no entry is outside the tree. */
  type ParentMap = map<Id, Id>

  /** A collection object holds a copy of its parent collection, taken when the parent was set. */
  datatype Collection = NoCollection | Collection(rid: Id, parent: Collection) {
    function Rid(): Id {
      if NoCollection? then NULL_ID else rid
    }

    function Parent(): Collection {
      if NoCollection? then NoCollection else parent
    }

    function WithRid(id: Id): (c: Collection)
      ensures c.Rid() == id && c.Parent() == Parent()
    {
      Collection(id, Parent())
    }

    function WithParent(p: Collection): (c: Collection)
      ensures c.Rid() == Rid() && c.Parent() == p
    {
      Collection(Rid(), p)
    }
  }

  /** The fields of a server-side folder that the tree depends on. */
  datatype EwsFolder = EwsFolder(id: Id, parentId: Id)

  /** One entry of a SyncFolderHierarchy response. */
  datatype Change = Update(folder: EwsFolder) | Create(folder: EwsFolder) | Delete(id: Id) | Other

  /** `s` lists every folder of `want` exactly once, with the parent that `want` gives it. */
  ghost predicate ListsOnce(s: seq<Collection>, want: ParentMap) {
    && (forall i :: 0 <= i < |s| ==> s[i].Rid() in want && s[i].Parent().Rid() == want[s[i].Rid()])
    && (forall i, j :: 0 <= i < j < |s| ==> s[i].Rid() != s[j].Rid())
    && (forall k :: k in want ==> exists i :: 0 <= i < |s| && s[i].Rid() == k)
  }

  lemma ListsOnceAppend(s: seq<Collection>, want: ParentMap, c: Collection)
    requires ListsOnce(s, want) && c.Rid() !in want
    ensures ListsOnce(s + [c], want[c.Rid() := c.Parent().Rid()])
  {
    var s', want' := s + [c], want[c.Rid() := c.Parent().Rid()];
    forall k | k in want'
      ensures exists i :: 0 <= i < |s'| && s'[i].Rid() == k
    {
      if k == c.Rid() {
        assert s'[|s|].Rid() == k;
      } else {
        var i :| 0 <= i < |s| && s[i].Rid() == k;
        assert s'[i].Rid() == k;
      }
    }
  }

  /** QMultiHash: the values of a key, the most recently inserted one first. */
  type MultiHash = map<Id, seq<Id>>

  function Values(m: MultiHash, key: Id): seq<Id> {
    if key in m then m[key] else []
  }

  function Insert(m: MultiHash, key: Id, value: Id): MultiHash {
    m[key := [value] + Values(m, key)]
  }

  ghost predicate Distinct<T>(s: seq<T>) {
    forall i, j :: 0 <= i < j < |s| ==> s[i] != s[j]
  }

  /** `m` lists exactly the children that `t` gives each folder, some of them perhaps several times. */
  ghost predicate NamesChildren(m: MultiHash, t: ParentMap) {
    forall p, c :: c in Values(m, p) <==> c in t && t[c] == p
  }

  /** `m` lists, without repetition, exactly the children that `t` gives each folder. */
  ghost predicate ListsChildren(m: MultiHash, t: ParentMap) {
    (forall p :: Distinct(Values(m, p))) && NamesChildren(m, t)
  }

  lemma NotBefore(m: MultiHash, t: ParentMap, p: Id, i: nat)
    requires ListsChildren(m, t) && i < |Values(m, p)|
    ensures Values(m, p)[i] !in Values(m, p)[..i]
  {
    assert Distinct(Values(m, p));
  }

  lemma InsertListsChildren(m: MultiHash, t: ParentMap, child: Id, parent: Id)
    requires ListsChildren(m, t) && child !in t
    ensures ListsChildren(Insert(m, parent, child), t[child := parent])
  {
    var m', t' := Insert(m, parent, child), t[child := parent];
    forall p
      ensures Distinct(Values(m', p))
      ensures forall c :: c in Values(m', p) <==> c in t' && t'[c] == p
    {
      assert child !in Values(m, p);
    }
  }

  /** `n` parent steps lead from `id` to `top`, and `top` is the first folder without an entry. */
  ghost predicate Climbs(t: ParentMap, id: Id, top: Id, n: nat)
    decreases n
  {
    if id !in t then n == 0 && id == top else n > 0 && Climbs(t, t[id], top, n - 1)
  }

  /** `id` is not caught in a cycle: climbing from it leaves the map. */
  ghost predicate Grounded(t: ParentMap, id: Id) {
    exists top, n :: Climbs(t, id, top, n)
  }

  ghost predicate Acyclic(t: ParentMap) {
    forall id :: id in t ==> Grounded(t, id)
  }

  /** `n` parent steps lead from `id` to `anc`. */
  ghost predicate Under(t: ParentMap, id: Id, anc: Id, n: nat)
    decreases n
  {
    if n == 0 then id == anc else id in t && Under(t, t[id], anc, n - 1)
  }

  /** The strict descendants of `id`. */
  ghost function Below(t: ParentMap, id: Id): set<Id> {
    set k | k in t && exists n: nat :: n > 0 && Under(t, k, id, n)
  }

  ghost function Children(t: ParentMap, id: Id): set<Id> {
    set k | k in t && t[k] == id
  }

  /** The subtree that hangs from `id`, with `id` itself. */
  ghost function Branch(t: ParentMap, id: Id): set<Id> {
    {id} + Below(t, id)
  }

  lemma {:induction false} ClimbsUnique(t: ParentMap, id: Id, a: Id, n: nat, b: Id, m: nat)
    requires Climbs(t, id, a, n) && Climbs(t, id, b, m)
    ensures a == b && n == m
    decreases n
  {
    if id in t {
      ClimbsUnique(t, t[id], a, n - 1, b, m - 1);
    }
  }

  lemma {:induction false} UnderThenClimbs(t: ParentMap, id: Id, anc: Id, n: nat, top: Id, m: nat)
    requires Under(t, id, anc, n) && Climbs(t, anc, top, m)
    ensures Climbs(t, id, top, n + m)
    decreases n
  {
    if n > 0 {
      UnderThenClimbs(t, t[id], anc, n - 1, top, m);
    }
  }

  lemma {:induction false} UnderTransitive(t: ParentMap, a: Id, b: Id, c: Id, n: nat, m: nat)
    requires Under(t, a, b, n) && Under(t, b, c, m)
    ensures Under(t, a, c, n + m)
    decreases n
  {
    if n > 0 {
      UnderTransitive(t, t[a], b, c, n - 1, m);
    }
  }

  /** Both ancestors of one folder lie on one path, so one of them is under the other. */
  lemma {:induction false} UnderLinear(t: ParentMap, k: Id, a: Id, b: Id, n: nat, m: nat)
    requires Under(t, k, a, n) && Under(t, k, b, m) && n <= m
    ensures Under(t, a, b, m - n)
    decreases n
  {
    if n > 0 {
      UnderLinear(t, t[k], a, b, n - 1, m - 1);
    }
  }

  lemma GroundedUnder(t: ParentMap, id: Id, anc: Id, n: nat)
    requires Under(t, id, anc, n) && Grounded(t, anc)
    ensures Grounded(t, id)
  {
    var top, m :| Climbs(t, anc, top, m);
    UnderThenClimbs(t, id, anc, n, top, m);
  }

  /** A grounded folder is never its own ancestor. */
  lemma NotUnderItself(t: ParentMap, id: Id, n: nat)
    requires Grounded(t, id) && Under(t, id, id, n)
    ensures n == 0
  {
    var top, m :| Climbs(t, id, top, m);
    UnderThenClimbs(t, id, id, n, top, m);
    ClimbsUnique(t, id, top, m, top, n + m);
  }

  lemma ChildIsBelow(t: ParentMap, child: Id)
    requires child in t
    ensures child in Below(t, t[child])
  {
    assert Under(t, t[child], t[child], 0);
    assert Under(t, child, t[child], 1);
  }

  lemma ChildGrounded(t: ParentMap, child: Id)
    requires child in t && Grounded(t, t[child])
    ensures Grounded(t, child)
  {
    assert Under(t, child, t[child], 1);
    GroundedUnder(t, child, t[child], 1);
  }

  /** The descent shrinks: what hangs below a child is a proper part of what hangs below its parent. */
  lemma BranchShrinks(t: ParentMap, child: Id)
    requires child in t && Grounded(t, t[child])
    ensures Branch(t, child) <= Below(t, t[child])
    ensures child !in Below(t, child)
    ensures Below(t, child) < Below(t, t[child])
  {
    ChildIsBelow(t, child);
    ChildGrounded(t, child);
    assert Under(t, child, t[child], 1);
    forall k | k in Below(t, child)
      ensures k in Below(t, t[child]) && k != child
    {
      var n: nat :| n > 0 && Under(t, k, child, n);
      UnderTransitive(t, k, child, t[child], n, 1);
      assert Under(t, k, t[child], n + 1);
      if k == child {
        NotUnderItself(t, child, n);
      }
    }
  }

  /** A grounded folder is not below any of its own children. */
  lemma ParentNotBelowChild(t: ParentMap, child: Id)
    requires child in t && Grounded(t, t[child])
    ensures t[child] !in Branch(t, child)
  {
    var p := t[child];
    assert Under(t, child, p, 1);
    if p == child {
      NotUnderItself(t, p, 1);
    }
    if p in Below(t, child) {
      var n: nat :| n > 0 && Under(t, p, child, n);
      UnderTransitive(t, p, child, p, n, 1);
      NotUnderItself(t, p, n + 1);
    }
  }

  /** The branches of two siblings share no folder. */
  lemma BranchesDisjoint(t: ParentMap, a: Id, b: Id)
    requires a in t && b in t && a != b && t[a] == t[b] && Grounded(t, t[a])
    ensures Branch(t, a) !! Branch(t, b)
  {
    forall k | k in Branch(t, a) && k in Branch(t, b)
      ensures false
    {
      var n: nat :| Under(t, k, a, n) by {
        if k == a { assert Under(t, k, a, 0); }
      }
      var m: nat :| Under(t, k, b, m) by {
        if k == b { assert Under(t, k, b, 0); }
      }
      if n <= m {
        UnderLinear(t, k, a, b, n, m);
        SiblingNotUnder(t, a, b, m - n);
      } else {
        UnderLinear(t, k, b, a, m, n);
        SiblingNotUnder(t, b, a, n - m);
      }
    }
  }

  lemma SiblingNotUnder(t: ParentMap, a: Id, b: Id, n: nat)
    requires a in t && b in t && a != b && t[a] == t[b] && Grounded(t, t[a])
    ensures !Under(t, a, b, n)
  {
    if Under(t, a, b, n) {
      assert n > 0 && Under(t, t[a], b, n - 1);
      assert Under(t, b, t[b], 1);
      UnderTransitive(t, t[a], b, t[b], n - 1, 1);
      NotUnderItself(t, t[a], n);
    }
  }

  /** Everything below a folder lies in the branch of some child. */
  lemma BelowIsBranches(t: ParentMap, id: Id, k: Id)
    requires k in Below(t, id)
    ensures exists c :: c in Children(t, id) && k in Branch(t, c)
  {
    var n: nat :| n > 0 && Under(t, k, id, n);
    var c := LastStep(t, k, id, n);
    assert k in Branch(t, c) by {
      if n - 1 == 0 { assert k == c; }
    }
  }

  lemma {:induction false} LastStep(t: ParentMap, k: Id, id: Id, n: nat) returns (c: Id)
    requires n > 0 && Under(t, k, id, n)
    ensures c in t && t[c] == id && Under(t, k, c, n - 1)
    decreases n
  {
    if n == 1 {
      c := k;
    } else {
      c := LastStep(t, t[k], id, n - 1);
    }
  }

  /** What hangs from the first `n` of the listed folders. */
  ghost function Branches(t: ParentMap, cs: seq<Id>, n: nat): set<Id>
    requires n <= |cs|
  {
    if n == 0 then {} else Branches(t, cs, n - 1) + Branch(t, cs[n - 1])
  }

  lemma {:induction false} InBranches(t: ParentMap, cs: seq<Id>, n: nat, k: Id)
    requires n <= |cs|
    ensures k in Branches(t, cs, n) <==> exists j :: 0 <= j < n && k in Branch(t, cs[j])
  {
    if n > 0 {
      InBranches(t, cs, n - 1, k);
    }
  }

  /** A descent that goes through the children of `p` one by one meets a new branch with each new child. */
  lemma NextChild(t: ParentMap, m: MultiHash, p: Id, i: nat)
    requires NamesChildren(m, t) && Grounded(t, p) && i < |Values(m, p)| && Values(m, p)[i] !in Values(m, p)[..i]
    ensures var c := Values(m, p)[i];
            && c in t && t[c] == p && Grounded(t, c) && p !in Branch(t, c)
            && c !in Below(t, c) && Below(t, c) < Below(t, p)
            && c in Below(t, p)
            && Branches(t, Values(m, p), i) !! Branch(t, c)
            && Branches(t, Values(m, p), i + 1) == Branches(t, Values(m, p), i) + {c} + Below(t, c)
  {
    var cs := Values(m, p);
    var c := cs[i];
    assert c in cs;
    ChildIsBelow(t, c);
    ChildGrounded(t, c);
    BranchShrinks(t, c);
    ParentNotBelowChild(t, c);
    forall k | k in Branches(t, cs, i)
      ensures k !in Branch(t, c)
    {
      InBranches(t, cs, i, k);
      var j :| 0 <= j < i && k in Branch(t, cs[j]);
      assert cs[j] in cs && cs[..i][j] == cs[j];
      BranchesDisjoint(t, cs[j], c);
    }
  }

  /** The children's branches are all there is below a folder. */
  lemma AllBranches(t: ParentMap, m: MultiHash, p: Id)
    requires NamesChildren(m, t) && Grounded(t, p)
    ensures Branches(t, Values(m, p), |Values(m, p)|) == Below(t, p)
  {
    var cs := Values(m, p);
    forall k
      ensures k in Branches(t, cs, |cs|) <==> k in Below(t, p)
    {
      InBranches(t, cs, |cs|, k);
      if k in Below(t, p) {
        BelowIsBranches(t, p, k);
        var c :| c in Children(t, p) && k in Branch(t, c);
        assert c in cs;
      } else if j :| 0 <= j < |cs| && k in Branch(t, cs[j]) {
        assert cs[j] in cs;
        ChildIsBelow(t, cs[j]);
        BranchShrinks(t, cs[j]);
      }
    }
  }
}
