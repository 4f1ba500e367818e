/**
 Creating a tree of collections with items, level by level, where the collections of the request have
 temporary negative ids.  The server answers the creations in any order and assigns the real ids.
 */
module EntityTree {

  type Id = int

  datatype Collection = Collection(id: Id, parent: Id, name: string)

  /** An item of the request; `tag` is its place in the list of items. */
  datatype Item = Item(tag: nat, parent: Id)

  predicate IsValid(id: Id) {
    id >= 0
  }

  ghost predicate HasId(cs: seq<Collection>, id: Id) {
    exists j :: 0 <= j < |cs| && cs[j].id == id
  }

  /** The temporary ids are negative, and used once within a level and over all levels. */
  ghost predicate DistinctIds(levels: seq<seq<Collection>>) {
    && (forall t, j :: 0 <= t < |levels| && 0 <= j < |levels[t]| ==> levels[t][j].id < 0)
    && (forall t, j, k :: 0 <= t < |levels| && 0 <= j < k < |levels[t]| ==> levels[t][j].id != levels[t][k].id)
    && (forall t, u, j, k :: 0 <= t < u < |levels| && 0 <= j < |levels[t]| && 0 <= k < |levels[u]| ==>
          levels[t][j].id != levels[u][k].id)
  }

  /** Each parent is real or in the level before; nothing is asked of a level after an empty one. */
  ghost predicate ParentsBefore(levels: seq<seq<Collection>>) {
    forall t, j :: 0 <= t < |levels| && 0 <= j < |levels[t]| && !IsValid(levels[t][j].parent) ==>
      t > 0 && (levels[t - 1] == [] || HasId(levels[t - 1], levels[t][j].parent))
  }

  ghost predicate Requested(levels: seq<seq<Collection>>, id: Id) {
    exists t :: 0 <= t < |levels| && HasId(levels[t], id)
  }

  ghost predicate ItemsOk(levels: seq<seq<Collection>>, items: seq<Item>) {
    forall k :: 0 <= k < |items| ==>
            items[k].tag == k && (IsValid(items[k].parent) || Requested(levels, items[k].parent))
  }

  /** No level is empty but the last. */
  ghost predicate NoGap(levels: seq<seq<Collection>>) {
    forall t :: 0 <= t < |levels| - 1 ==> levels[t] != []
  }

  /** A request with an empty level in the middle. */
  lemma Gap(a: Collection, b: Collection)
    requires a.id < 0 && b.id < 0 && a.id != b.id && IsValid(a.parent) && IsValid(b.parent)
    ensures DistinctIds([[a], [], [b]]) && ParentsBefore([[a], [], [b]]) && ItemsOk([[a], [], [b]], [])
    ensures !NoGap([[a], [], [b]])
  {
    var levels := [[a], [], [b]];
    forall t, j | 0 <= t < |levels| && 0 <= j < |levels[t]|
      ensures j == 0 && t != 1 && levels[t][j] == if t == 0 then a else b
    {
    }
    assert levels[1] == [];
    hide HasId;
  }

  /** The real id of a parent, as far as it is known. */
  function Resolve(realIds: map<Id, Id>, parent: Id): Id {
    if parent in realIds then realIds[parent] else parent
  }

  function PatchCollections(cs: seq<Collection>, from: Id, to: Id): (r: seq<Collection>)
    ensures |r| == |cs|
    ensures forall j :: 0 <= j < |cs| ==> r[j] == if cs[j].parent == from then cs[j].(parent := to) else cs[j]
  {
    seq(|cs|, j requires 0 <= j < |cs| => if cs[j].parent == from then cs[j].(parent := to) else cs[j])
  }

  /** The creations of a level, by temporary id. */
  function JobsOf(cs: seq<Collection>): map<Id, Collection> {
    if cs == [] then map[] else JobsOf(cs[..|cs| - 1])[cs[|cs| - 1].id := cs[|cs| - 1]]
  }

  lemma HasIdLast(cs: seq<Collection>, id: Id)
    requires cs != []
    ensures HasId(cs, id) <==> HasId(cs[..|cs| - 1], id) || cs[|cs| - 1].id == id
  {
    var front := cs[..|cs| - 1];
    if HasId(front, id) {
      var j :| 0 <= j < |front| && front[j].id == id;
      assert cs[j].id == id;
    }
    if HasId(cs, id) && cs[|cs| - 1].id != id {
      var j :| 0 <= j < |cs| && cs[j].id == id;
      assert front[j].id == id;
    }
  }

  lemma {:induction false} JobsOfIs(cs: seq<Collection>)
    requires forall j, k :: 0 <= j < k < |cs| ==> cs[j].id != cs[k].id
    ensures |JobsOf(cs)| == |cs| && forall id :: id in JobsOf(cs) <==> HasId(cs, id)
    ensures forall j :: 0 <= j < |cs| ==> cs[j].id in JobsOf(cs) && JobsOf(cs)[cs[j].id] == cs[j]
  {
    if cs != [] {
      var front := cs[..|cs| - 1];
      JobsOfIs(front);
      forall id
        ensures id in JobsOf(cs) <==> HasId(cs, id)
      {
        HasIdLast(cs, id);
      }
      assert !HasId(front, cs[|cs| - 1].id);
      assert forall j :: 0 <= j < |front| ==> cs[j] == front[j];
    }
  }

  /** The items that still have a temporary parent, and the others added to those created. */
  function Waiting(items: seq<Item>): seq<Item> {
    if items == [] then [] else
      var last := items[|items| - 1];
      Waiting(items[..|items| - 1]) + if IsValid(last.parent) then [] else [last]
  }

  function AddReady(items: seq<Item>, before: map<nat, Item>): map<nat, Item> {
    if items == [] then before else
      var last := items[|items| - 1];
      var added := AddReady(items[..|items| - 1], before);
      if IsValid(last.parent) then added[last.tag := last] else added
  }

  ghost predicate Ascending(items: seq<Item>) {
    forall i, j :: 0 <= i < j < |items| ==> items[i].tag < items[j].tag
  }

  lemma {:induction false} WaitingIs(items: seq<Item>)
    requires Ascending(items)
    ensures Ascending(Waiting(items))
    ensures forall item :: item in Waiting(items) <==> item in items && !IsValid(item.parent)
  {
    if items != [] {
      var n := |items| - 1;
      WaitingIs(items[..n]);
      assert items == items[..n] + [items[n]];
    }
  }

  lemma {:induction false} ReadyIsAdded(items: seq<Item>, before: map<nat, Item>, i: nat)
    requires Ascending(items) && i < |items| && IsValid(items[i].parent)
    ensures items[i].tag in AddReady(items, before) && AddReady(items, before)[items[i].tag] == items[i]
  {
    var n := |items| - 1;
    if i < n {
      ReadyIsAdded(items[..n], before, i);
      assert items[i].tag < items[n].tag;
    }
  }

  lemma {:induction false} OthersAreKept(items: seq<Item>, before: map<nat, Item>, tag: nat)
    requires forall item :: item in items && item.tag == tag ==> !IsValid(item.parent)
    ensures tag in AddReady(items, before) <==> tag in before
    ensures tag in before ==> AddReady(items, before)[tag] == before[tag]
  {
    if items != [] {
      OthersAreKept(items[..|items| - 1], before, tag);
    }
  }

  /** Items of the request, in order, that have a temporary parent. */
  ghost predicate Waits(items: seq<Item>, waiting: seq<Item>) {
    Ascending(waiting) && forall item :: item in waiting ==>
            item.tag < |items| && item == items[item.tag] && !IsValid(item.parent)
  }

  /** Each item waits for its parent or has been created under its real parent. */
  ghost predicate ItemsFaithful(items: seq<Item>, waiting: seq<Item>, done: map<nat, Item>, ids: map<Id, Id>) {
    && Waits(items, waiting)
    && (forall k {:trigger ItemFaithful(items, waiting, done, ids, k)} :: 0 <= k < |items| ==>
        ItemFaithful(items, waiting, done, ids, k))
    && (forall k :: k in done ==> k < |items|)
  }

  ghost predicate ItemFaithful(items: seq<Item>, waiting: seq<Item>, done: map<nat, Item>, ids: map<Id, Id>, k: nat)
    requires k < |items|
  {
    if k in done then
      items[k] !in waiting && IsValid(done[k].parent) && done[k] == items[k].(parent := Resolve(ids, items[k].parent))
    else items[k] in waiting && items[k].parent !in ids
  }

  function PatchItems(items: seq<Item>, from: Id, to: Id): (r: seq<Item>)
    ensures |r| == |items|
    ensures forall i :: 0 <= i < |items| ==>
            r[i] == if items[i].parent == from then items[i].(parent := to) else items[i]
  {
    seq(|items|, i requires 0 <= i < |items| => if items[i].parent == from then items[i].(parent := to) else items[i])
  }

  lemma ItemsStart(items: seq<Item>)
    requires forall k :: 0 <= k < |items| ==> items[k].tag == k
    ensures ItemsFaithful(items, Waiting(items), AddReady(items, map[]), map[])
  {
    WaitingIs(items);
    assert Waits(items, Waiting(items));
    forall tag: nat
      ensures tag in AddReady(items, map[]) ==> tag < |items|
      ensures tag < |items| ==> ItemFaithful(items, Waiting(items), AddReady(items, map[]), map[], tag)
    {
      if tag < |items| && IsValid(items[tag].parent) {
        ReadyIsAdded(items, map[], tag);
      } else {
        OthersAreKept(items, map[], tag);
      }
    }
  }

  function PatchItem(item: Item, from: Id, to: Id): Item {
    if item.parent == from then item.(parent := to) else item
  }

  lemma PatchedItem(waiting: seq<Item>, from: Id, to: Id, item: Item)
    ensures item in PatchItems(waiting, from, to) <==> exists w :: w in waiting && item == PatchItem(w, from, to)
  {
    var patched := PatchItems(waiting, from, to);
    if w :| w in waiting && item == PatchItem(w, from, to) {
      var i :| 0 <= i < |waiting| && waiting[i] == w;
      assert patched[i] == item;
    }
    if item in patched {
      var i :| 0 <= i < |patched| && patched[i] == item;
      assert waiting[i] in waiting;
    }
  }

  lemma StepWaiting(items: seq<Item>, waiting: seq<Item>, from: Id, to: Id, item: Item)
    requires Waits(items, waiting) && !IsValid(from) && IsValid(to)
    ensures item in Waiting(PatchItems(waiting, from, to)) <==> item in waiting && item.parent != from
  {
    WaitingIs(PatchItems(waiting, from, to));
    PatchedItem(waiting, from, to, item);
    assert item in waiting ==> PatchItem(item, from, to) == item || item.parent == from;
  }

  lemma StepDone(items: seq<Item>, waiting: seq<Item>, done: map<nat, Item>, from: Id, to: Id, k: nat)
    requires Waits(items, waiting) && !IsValid(from) && IsValid(to)
    requires k < |items| && k in done ==> items[k] !in waiting
    requires forall i :: 0 <= i < |items| ==> items[i].tag == i
    ensures var now := AddReady(PatchItems(waiting, from, to), done);
            && (k in now <==> k in done || (k < |items| && items[k] in waiting && items[k].parent == from))
            && (k in done ==> now[k] == done[k])
            && (k in now && k !in done ==> now[k] == items[k].(parent := to))
  {
    var patched := PatchItems(waiting, from, to);
    forall item | item in patched && item.tag == k
      ensures k < |items| && items[k] in waiting && item == PatchItem(items[k], from, to)
    {
      PatchedItem(waiting, from, to, item);
    }
    if k < |items| && items[k] in waiting && items[k].parent == from {
      PatchedItem(waiting, from, to, PatchItem(items[k], from, to));
      assert Ascending(patched);
      var i :| 0 <= i < |patched| && patched[i] == PatchItem(items[k], from, to);
      ReadyIsAdded(patched, done, i);
    } else {
      OthersAreKept(patched, done, k);
    }
  }

  /** A collection has got its real id: the items in it are created. */
  lemma ItemsStep(items: seq<Item>, waiting: seq<Item>, done: map<nat, Item>, ids: map<Id, Id>, from: Id, to: Id)
    requires ItemsFaithful(items, waiting, done, ids) && from !in ids && !IsValid(from) && IsValid(to)
    requires forall i :: 0 <= i < |items| ==> items[i].tag == i
    ensures var patched := PatchItems(waiting, from, to);
            ItemsFaithful(items, Waiting(patched), AddReady(patched, done), ids[from := to])
  {
    var patched := PatchItems(waiting, from, to);
    var left, now := Waiting(patched), AddReady(patched, done);
    WaitingIs(patched);
    forall item
      ensures item in left <==> item in waiting && item.parent != from
    {
      StepWaiting(items, waiting, from, to, item);
    }
    hide Waiting, AddReady, PatchItems, Ascending;
    forall k: nat
      ensures k in now ==> k < |items|
      ensures k < |items| ==> ItemFaithful(items, left, now, ids[from := to], k)
    {
      assert k < |items| ==> ItemFaithful(items, waiting, done, ids, k);
      StepDone(items, waiting, done, from, to, k);
    }
  }

  /** A collection that has been sent was sent, and is created, under the real id of its parent. */
  ghost predicate Faithful(c: Collection, ids: map<Id, Id>, jobs: map<Id, Collection>, created: map<Id, Collection>) {
    && IsValid(Resolve(ids, c.parent))
    && (c.id in jobs ==> jobs[c.id] == c.(parent := Resolve(ids, c.parent)))
    && (c.id in created ==> created[c.id] == c.(parent := Resolve(ids, c.parent)))
  }

  ghost predicate LevelFaithful(cs: seq<Collection>, ids: map<Id, Id>, jobs: map<Id, Collection>,
                                created: map<Id, Collection>) {
    forall j :: 0 <= j < |cs| ==> Faithful(cs[j], ids, jobs, created)
  }

  lemma LevelAnswered(cs: seq<Collection>, ids: map<Id, Id>, jobs: map<Id, Collection>,
                      created: map<Id, Collection>, from: Id, to: Id)
    requires LevelFaithful(cs, ids, jobs, created)
    requires from in jobs && from !in ids && !IsValid(from) && IsValid(to)
    ensures LevelFaithful(cs, ids[from := to], jobs - {from}, created[from := jobs[from]])
  {
    forall j | 0 <= j < |cs|
      ensures Faithful(cs[j], ids[from := to], jobs - {from}, created[from := jobs[from]])
    {
      assert Faithful(cs[j], ids, jobs, created);
      assert cs[j].parent != from;
    }
  }

  lemma LevelNext(cs: seq<Collection>, ids: map<Id, Id>, created: map<Id, Collection>, jobs: map<Id, Collection>)
    requires LevelFaithful(cs, ids, map[], created) && forall j :: 0 <= j < |cs| ==> cs[j].id !in jobs
    ensures LevelFaithful(cs, ids, jobs, created)
  {
    forall j | 0 <= j < |cs|
      ensures Faithful(cs[j], ids, jobs, created)
    {
      assert Faithful(cs[j], ids, map[], created);
    }
  }

  /** The levels still to come are those of the request; only the parents in the next one are replaced. */
  ghost predicate Ahead(levels: seq<seq<Collection>>, taken: nat, left: seq<seq<Collection>>, ids: map<Id, Id>) {
    && taken + |left| == |levels|
    && (forall t :: 0 < t < |left| ==> left[t] == levels[taken + t])
    && (left != [] && (taken == 0 || levels[taken - 1] != []) ==> Patched(levels[taken], left[0], ids))
  }

  ghost predicate Patched(cs: seq<Collection>, patched: seq<Collection>, ids: map<Id, Id>) {
    && |patched| == |cs|
    && forall j :: 0 <= j < |cs| ==> patched[j] == cs[j].(parent := Resolve(ids, cs[j].parent))
  }

  /** A collection of a level that has been sent. */
  ghost predicate Sent(levels: seq<seq<Collection>>, taken: nat, id: Id) {
    exists t :: 0 <= t < taken && t < |levels| && HasId(levels[t], id)
  }

  /** What has been sent is created or on its way; what runs belongs to the last level sent. */
  ghost predicate Accounted(levels: seq<seq<Collection>>, taken: nat, ids: map<Id, Id>, jobs: map<Id, Collection>) {
    && ids.Keys !! jobs.Keys
    && (forall id :: id in ids || id in jobs <==> Sent(levels, taken, id))
    && (forall id :: id in jobs ==> 0 < taken <= |levels| && HasId(levels[taken - 1], id))
  }

  /** No collection is ever created under a temporary parent; each is created under that of the request. */
  ghost predicate Isomorphic(levels: seq<seq<Collection>>, taken: nat, ids: map<Id, Id>, jobs: map<Id, Collection>,
                             created: map<Id, Collection>) {
    && (forall t {:trigger levels[t]} :: 0 <= t < taken && t < |levels| ==>
        LevelFaithful(levels[t], ids, jobs, created))
    && ids.Keys == created.Keys
    && (forall id :: id in ids ==> IsValid(ids[id]))
    && (forall a, b :: a in ids && b in ids && a != b ==> ids[a] != ids[b])
  }

  lemma SentIsTemporary(levels: seq<seq<Collection>>, taken: nat, id: Id)
    requires DistinctIds(levels) && Sent(levels, taken, id)
    ensures !IsValid(id)
  {
  }

  lemma LastLevelSent(levels: seq<seq<Collection>>, taken: nat, ids: map<Id, Id>, jobs: map<Id, Collection>, id: Id)
    requires Accounted(levels, taken, ids, jobs) && id in jobs && DistinctIds(levels)
    ensures 0 < taken <= |levels| && levels[taken - 1] != [] && !IsValid(id) && id !in ids
  {
    SentIsTemporary(levels, taken, id);
  }

  lemma AccountedAnswer(levels: seq<seq<Collection>>, taken: nat, ids: map<Id, Id>, jobs: map<Id, Collection>,
                        from: Id, to: Id)
    requires Accounted(levels, taken, ids, jobs) && from in jobs
    ensures Accounted(levels, taken, ids[from := to], jobs - {from}) && |jobs - {from}| == |jobs| - 1
  {
    assert jobs.Keys == (jobs - {from}).Keys + {from};
  }

  lemma IsomorphicAnswer(levels: seq<seq<Collection>>, taken: nat, ids: map<Id, Id>, jobs: map<Id, Collection>,
                         created: map<Id, Collection>, from: Id, to: Id)
    requires Isomorphic(levels, taken, ids, jobs, created)
    requires from in jobs && from !in ids && !IsValid(from) && IsValid(to) && forall id :: id in ids ==> ids[id] != to
    ensures Isomorphic(levels, taken, ids[from := to], jobs - {from}, created[from := jobs[from]])
  {
    hide LevelFaithful;
    forall t {:trigger levels[t]} | 0 <= t < taken && t < |levels|
      ensures LevelFaithful(levels[t], ids[from := to], jobs - {from}, created[from := jobs[from]])
    {
      LevelAnswered(levels[t], ids, jobs, created, from, to);
    }
  }

  /** All parents of the next level are real by now, and its ids are new. */
  lemma ParentsKnown(levels: seq<seq<Collection>>, taken: nat, ids: map<Id, Id>, j: nat)
    requires DistinctIds(levels) && ParentsBefore(levels) && Accounted(levels, taken, ids, map[])
    requires forall id :: id in ids ==> IsValid(ids[id])
    requires 0 < taken < |levels| && levels[taken - 1] != [] && j < |levels[taken]|
    ensures IsValid(Resolve(ids, levels[taken][j].parent)) && !Sent(levels, taken, levels[taken][j].id)
  {
    var p := levels[taken][j].parent;
    assert !IsValid(p) ==> Sent(levels, taken, p);
  }

  lemma AccountedNext(levels: seq<seq<Collection>>, taken: nat, ids: map<Id, Id>, jobs: map<Id, Collection>)
    requires Accounted(levels, taken, ids, map[]) && taken < |levels|
    requires forall id :: id in jobs <==> HasId(levels[taken], id)
    requires forall j :: 0 <= j < |levels[taken]| ==> !Sent(levels, taken, levels[taken][j].id)
    ensures Accounted(levels, taken + 1, ids, jobs)
  {
    forall id
      ensures Sent(levels, taken + 1, id) <==> Sent(levels, taken, id) || id in jobs
    {
      if Sent(levels, taken, id) {
        var t :| 0 <= t < taken && t < |levels| && HasId(levels[t], id);
        assert t < taken + 1;
      }
      if Sent(levels, taken + 1, id) {
        var t :| 0 <= t < taken + 1 && t < |levels| && HasId(levels[t], id);
        assert t < taken ==> Sent(levels, taken, id);
      }
      if id in jobs {
        assert HasId(levels[taken], id);
      }
    }
    forall id | id in jobs
      ensures !Sent(levels, taken, id)
    {
      var j :| 0 <= j < |levels[taken]| && levels[taken][j].id == id;
    }
    hide Sent, HasId;
    assert forall id :: id in ids <==> Sent(levels, taken, id);
    assert forall id :: id in jobs ==> id !in ids;
    assert forall id :: id in ids || id in jobs <==> Sent(levels, taken + 1, id);
    assert forall id :: id in jobs ==> HasId(levels[taken], id);
  }

  lemma IsomorphicNext(levels: seq<seq<Collection>>, taken: nat, ids: map<Id, Id>, jobs: map<Id, Collection>,
                       created: map<Id, Collection>)
    requires Isomorphic(levels, taken, ids, map[], created) && taken < |levels|
    requires LevelFaithful(levels[taken], ids, jobs, created)
    requires forall id :: id in jobs ==> !Sent(levels, taken, id)
    ensures Isomorphic(levels, taken + 1, ids, jobs, created)
  {
    forall t {:trigger levels[t]} | 0 <= t < taken
      ensures LevelFaithful(levels[t], ids, jobs, created)
    {
      forall j | 0 <= j < |levels[t]|
        ensures levels[t][j].id !in jobs
      {
        assert HasId(levels[t], levels[t][j].id);
        assert Sent(levels, taken, levels[t][j].id);
      }
      LevelNext(levels[t], ids, created, jobs);
    }
  }

  /** The level that is now the next one has not been patched yet, and needs no patch yet. */
  lemma AheadNext(levels: seq<seq<Collection>>, taken: nat, left: seq<seq<Collection>>, ids: map<Id, Id>,
                  jobs: map<Id, Collection>)
    requires DistinctIds(levels) && ParentsBefore(levels) && Accounted(levels, taken + 1, ids, jobs)
    requires Ahead(levels, taken, left, ids) && left != []
    requires forall id :: id in jobs <==> HasId(levels[taken], id)
    ensures Ahead(levels, taken + 1, left[1..], ids)
  {
    if |left| > 1 && levels[taken] != [] {
      var cs := levels[taken + 1];
      KnownIsTemporary(levels, taken + 1, ids, jobs);
      forall j | 0 <= j < |cs|
        ensures cs[j].parent !in ids
      {
        assert !IsValid(cs[j].parent) ==> HasId(levels[taken], cs[j].parent);
      }
      assert left[1] == cs;
    }
  }

  lemma KnownIsTemporary(levels: seq<seq<Collection>>, taken: nat, ids: map<Id, Id>, jobs: map<Id, Collection>)
    requires DistinctIds(levels) && Accounted(levels, taken, ids, jobs)
    ensures forall id :: id in ids ==> !IsValid(id)
  {
    forall id | id in ids
      ensures !IsValid(id)
    {
      SentIsTemporary(levels, taken, id);
    }
  }

  /** The level as it is sent, when all of its parents are known. */
  lemma LevelSent(cs: seq<Collection>, patched: seq<Collection>, ids: map<Id, Id>, created: map<Id, Collection>)
    requires Patched(cs, patched, ids)
    requires forall j :: 0 <= j < |cs| ==> IsValid(Resolve(ids, cs[j].parent)) && cs[j].id !in created
    requires forall j, k :: 0 <= j < k < |cs| ==> cs[j].id != cs[k].id
    ensures LevelFaithful(cs, ids, JobsOf(patched), created)
    ensures |JobsOf(patched)| == |cs| && forall id :: id in JobsOf(patched) <==> HasId(cs, id)
  {
    JobsOfIs(patched);
    forall id
      ensures HasId(cs, id) <==> HasId(patched, id)
    {
      if HasId(cs, id) {
        var j :| 0 <= j < |cs| && cs[j].id == id;
        assert patched[j].id == id;
      }
    }
    forall j | 0 <= j < |cs|
      ensures Faithful(cs[j], ids, JobsOf(patched), created)
    {
      assert patched[j].id == cs[j].id;
    }
  }

  /** What holds after the next level has been sent. */
  lemma NextIsSent(levels: seq<seq<Collection>>, taken: nat, left: seq<seq<Collection>>, ids: map<Id, Id>,
                   created: map<Id, Collection>)
    requires DistinctIds(levels) && ParentsBefore(levels) && Ahead(levels, taken, left, ids)
            && Accounted(levels, taken, ids, map[])
    requires Isomorphic(levels, taken, ids, map[], created) && left != [] && 0 < taken && levels[taken - 1] != []
    ensures var jobs := JobsOf(left[0]);
            && Ahead(levels, taken + 1, left[1..], ids) && Accounted(levels, taken + 1, ids, jobs)
            && Isomorphic(levels, taken + 1, ids, jobs, created)
            && |jobs| == |left[0]| == |levels[taken]| && taken < |levels|
  {
    var cs, next := levels[taken], JobsOf(left[0]);
    forall j | 0 <= j < |cs|
      ensures IsValid(Resolve(ids, cs[j].parent)) && !Sent(levels, taken, cs[j].id) && cs[j].id !in created
    {
      ParentsKnown(levels, taken, ids, j);
    }
    hide Sent, DistinctIds, ParentsBefore;
    LevelSent(cs, left[0], ids, created);
    assert forall id :: id in next ==> !Sent(levels, taken, id);
    hide HasId, LevelFaithful, JobsOf, Patched;
    AccountedNext(levels, taken, ids, next);
    IsomorphicNext(levels, taken, ids, next, created);
    AheadNext(levels, taken, left, ids, next);
    hide Accounted, Isomorphic;
  }

  class EntityTreeCreateJob {
    var m_collections: seq<seq<Collection>>
    var m_items: seq<Item>
    var m_pendingJobs: nat
    var committed: bool
    /** The creations that run, as they were sent, by the temporary id. */
    var jobs: map<Id, Collection>

    /** The request. */
    ghost var levels: seq<seq<Collection>>
    ghost var items: seq<Item>
    ghost var started: bool
    /** How many levels have been sent. */
    ghost var taken: nat
    /** What the server has: the collections by temporary id with their real id, and the items. */
    ghost var created: map<Id, Collection>
    ghost var realIds: map<Id, Id>
    ghost var createdItems: map<nat, Item>

    ghost predicate Request()
      reads this`levels, this`items
    {
      DistinctIds(levels) && ParentsBefore(levels) && ItemsOk(levels, items)
    }

    /** All creations have been sent exactly when the transaction is to be committed. */
    ghost predicate CommittedExactly()
      reads this`m_collections, this`m_items, this`committed
    {
      committed <==> m_collections == [] && m_items == []
    }

    /** No level sent so far is empty, but for the last one. */
    ghost predicate NoGapYet()
      reads this`taken, this`levels
    {
      forall t :: 0 <= t < taken - 1 && t < |levels| ==> levels[t] != []
    }

    /** When nothing runs any more an empty level has been met, or nothing is left. */
    ghost predicate Progress()
      reads this`taken, this`levels, this`jobs
    {
      jobs == map[] && taken < |levels| ==> 0 < taken && levels[taken - 1] == []
    }

    ghost predicate Valid()
      reads this
    {
      && started && Request() && m_pendingJobs == |jobs|
      && Ahead(levels, taken, m_collections, realIds)
      && Accounted(levels, taken, realIds, jobs)
      && Isomorphic(levels, taken, realIds, jobs, created)
      && ItemsFaithful(items, m_items, createdItems, realIds)
      && CommittedExactly() && NoGapYet() && Progress()
    }

    constructor (collections: seq<seq<Collection>>, requested: seq<Item>)
      requires DistinctIds(collections) && ParentsBefore(collections) && ItemsOk(collections, requested)
      ensures m_collections == levels == collections && m_items == items == requested && !started && taken == 0
              && !committed
      ensures m_pendingJobs == 0 && jobs == map[] && created == map[] && realIds == map[] && createdItems == map[]
    {
      m_collections, m_items, m_pendingJobs, committed, jobs := collections, requested, 0, false, map[];
      levels, items, started, taken := collections, requested, false, 0;
      created, realIds, createdItems := map[], map[], map[];
    }

    /** Starts a creation for each collection of the next level. */
    method CreateNextLevelOfCollections()
      requires m_collections != [] && jobs == map[]
      modifies this`m_collections, this`jobs, this`m_pendingJobs, this`taken
      ensures taken == old(taken) + 1 && m_collections == old(m_collections)[1..]
      ensures m_pendingJobs == old(m_pendingJobs) + |old(m_collections)[0]|
      ensures jobs == JobsOf(old(m_collections)[0])
    {
      var colList := m_collections[0];
      m_collections := m_collections[1..];
      taken := taken + 1;
      var n := 0;
      while n < |colList|
        invariant 0 <= n <= |colList| && m_collections == old(m_collections)[1..] && taken == old(taken) + 1
        invariant jobs == JobsOf(colList[..n]) && m_pendingJobs == old(m_pendingJobs) + n
      {
        assert colList[..n + 1][..n] == colList[..n];
        m_pendingJobs := m_pendingJobs + 1;
        jobs := jobs[colList[n].id := colList[n]];
        n := n + 1;
      }
      assert colList[..n] == colList;
    }

    /** Creates the items that have a real parent. */
    method CreateReadyItems()
      modifies this`m_items, this`createdItems, this`committed
      ensures m_items == Waiting(old(m_items)) && createdItems == AddReady(old(m_items), old(createdItems))
      ensures committed == (old(committed) || (m_items == [] && m_collections == []))
    {
      var all, kept, n := m_items, [], 0;
      while n < |all|
        invariant 0 <= n <= |all| && committed == old(committed) && m_items == kept + all[n..]
        invariant kept == Waiting(all[..n]) && createdItems == AddReady(all[..n], old(createdItems))
      {
        assert all[..n + 1][..n] == all[..n];
        if IsValid(all[n].parent) {
          createdItems := createdItems[all[n].tag := all[n]];
          m_items := kept + all[n + 1..];
        } else {
          assert kept + all[n..] == kept + [all[n]] + all[n + 1..];
          kept := kept + [all[n]];
        }
        n := n + 1;
      }
      assert all[..n] == all;
      if m_items == [] && m_collections == [] {
        committed := true;
      }
    }

    ghost predicate Initial()
      reads this
    {
      && Request() && m_collections == levels && m_items == items && !started && taken == 0 && !committed
      && m_pendingJobs == 0 && jobs == map[] && created == map[] && realIds == map[] && createdItems == map[]
    }

    method DoStart()
      requires Initial()
      modifies this
      ensures Valid() && levels == old(levels) && items == old(items) && realIds == map[]
    {
      hide JobsOf, Waiting, AddReady, ItemsFaithful, HasId;
      started := true;
      ItemsStart(items);
      if m_collections != [] {
        JobsOfIs(levels[0]);
        CreateNextLevelOfCollections();
        assert forall id :: Sent(levels, 1, id) <==> HasId(levels[0], id);
      }
      CreateReadyItems();
    }

    /** The real id of a collection is known from now on. */
    method Answered(creationId: Id, createdId: Id)
      requires creationId in jobs && m_pendingJobs > 0
      modifies this`jobs, this`m_pendingJobs, this`created, this`realIds
      ensures m_pendingJobs == old(m_pendingJobs) - 1 && jobs == old(jobs) - {creationId}
      ensures created == old(created)[creationId := old(jobs)[creationId]]
              && realIds == old(realIds)[creationId := createdId]
    {
      m_pendingJobs := m_pendingJobs - 1;
      created := created[creationId := jobs[creationId]];
      realIds := realIds[creationId := createdId];
      jobs := jobs - {creationId};
    }

    /** Items in the new collection are created. */
    method UpdateItems(creationId: Id, createdId: Id, ghost before: map<Id, Id>)
      requires Request() && ItemsFaithful(items, m_items, createdItems, before)
      requires creationId !in before && !IsValid(creationId) && IsValid(createdId)
      modifies this`m_items, this`createdItems, this`committed
      ensures ItemsFaithful(items, m_items, createdItems, before[creationId := createdId])
      ensures committed == (old(committed) || (m_items == [] && m_collections == []))
      ensures old(m_items) == [] ==> m_items == []
    {
      hide ItemsFaithful, Waiting, AddReady;
      ItemsStep(items, m_items, createdItems, before, creationId, createdId);
      NothingWaits();
      m_items := PatchItems(m_items, creationId, createdId);
      CreateReadyItems();
    }

    lemma NothingWaits()
      ensures Waiting([]) == []
    {
    }

    /** Collections of the next level that are to be in the new collection learn of its id. */
    method UpdateNextLevel(creationId: Id, createdId: Id, ghost before: map<Id, Id>)
      requires m_collections != [] && Ahead(levels, taken, m_collections, before) && 0 < taken
              && levels[taken - 1] != []
      requires creationId !in before && !IsValid(creationId) && IsValid(createdId)
      requires forall id :: id in before ==> IsValid(before[id])
      modifies this`m_collections
      ensures Ahead(levels, taken, m_collections, before[creationId := createdId])
              && |m_collections| == |old(m_collections)|
    {
      m_collections := [PatchCollections(m_collections[0], creationId, createdId)] + m_collections[1..];
    }

    method NextLevel()
      requires Request() && Ahead(levels, taken, m_collections, realIds) && Accounted(levels, taken, realIds, jobs)
      requires Isomorphic(levels, taken, realIds, jobs, created) && NoGapYet()
      requires m_collections != [] && jobs == map[] && m_pendingJobs == 0 && 0 < taken && levels[taken - 1] != []
      modifies this`m_collections, this`jobs, this`m_pendingJobs, this`taken
      ensures Ahead(levels, taken, m_collections, realIds) && Accounted(levels, taken, realIds, jobs)
      ensures Isomorphic(levels, taken, realIds, jobs, created) && NoGapYet() && Progress()
      ensures taken == old(taken) + 1 && m_pendingJobs == |jobs|
    {
      hide Accounted, Isomorphic, Ahead, DistinctIds, ParentsBefore, ItemsOk, JobsOf;
      NextIsSent(levels, taken, m_collections, realIds, created);
      CreateNextLevelOfCollections();
    }

    /** The next level learns of the new collection, and is sent when nothing runs any more. */
    method UpdateLevels(creationId: Id, createdId: Id, ghost before: map<Id, Id>)
      requires Request() && m_pendingJobs == |jobs| && Ahead(levels, taken, m_collections, before)
      requires realIds == before[creationId := createdId] && creationId !in before && !IsValid(creationId)
              && IsValid(createdId)
      requires Accounted(levels, taken, realIds, jobs) && Isomorphic(levels, taken, realIds, jobs, created)
      requires NoGapYet() && 0 < taken <= |levels| && levels[taken - 1] != [] && forall id :: id in before ==>
              IsValid(before[id])
      modifies this`m_collections, this`jobs, this`m_pendingJobs, this`taken
      ensures Ahead(levels, taken, m_collections, realIds) && Accounted(levels, taken, realIds, jobs)
      ensures Isomorphic(levels, taken, realIds, jobs, created) && NoGapYet() && Progress() && m_pendingJobs == |jobs|
      ensures taken == if old(taken) < |levels| && |old(jobs)| == 0 then old(taken) + 1 else old(taken)
      ensures old(m_collections) == [] ==> m_collections == []
      ensures taken <= |levels| && (taken == old(taken) ==> jobs == old(jobs))
    {
      AheadLength(levels, taken, m_collections, before);
      AheadNothing(levels, taken, before, realIds);
      hide Accounted, Isomorphic, Ahead, Request, NoGapYet;
      if m_collections != [] {
        UpdateNextLevel(creationId, createdId, before);
        if m_pendingJobs == 0 {
          NextLevel();
        }
      }
    }

    lemma AnswerIs(creationId: Id, createdId: Id)
      requires Valid() && creationId in jobs && IsValid(createdId) && forall id :: id in realIds ==>
              realIds[id] != createdId
      ensures 0 < taken <= |levels| && levels[taken - 1] != [] && !IsValid(creationId) && creationId !in realIds
      ensures forall id :: id in realIds ==> IsValid(realIds[id])
      ensures Accounted(levels, taken, realIds[creationId := createdId], jobs - {creationId})
              && |jobs - {creationId}| == |jobs| - 1
      ensures Isomorphic(levels, taken, realIds[creationId := createdId], jobs - {creationId},
                         created[creationId := jobs[creationId]])
    {
      LastLevelSent(levels, taken, realIds, jobs, creationId);
      AccountedAnswer(levels, taken, realIds, jobs, creationId, createdId);
      IsomorphicAnswer(levels, taken, realIds, jobs, created, creationId, createdId);
    }

    /** A creation has succeeded. */
    method CollectionCreateJobDone(creationId: Id, createdId: Id)
      requires Valid() && creationId in jobs && IsValid(createdId) && forall id :: id in realIds ==>
              realIds[id] != createdId
      modifies this
      ensures Valid() && levels == old(levels) && items == old(items)
      ensures realIds == old(realIds)[creationId := createdId]
      ensures taken == if old(taken) < |levels| && |old(jobs)| == 1 then old(taken) + 1 else old(taken)
      ensures taken <= |levels| && (taken == old(taken) ==> |jobs| < |old(jobs)|)
    {
      hide Accounted, Isomorphic, Ahead, ItemsFaithful, DistinctIds, ParentsBefore, ItemsOk, NoGapYet, Progress;
      AnswerIs(creationId, createdId);
      ghost var before := realIds;
      Answered(creationId, createdId);
      UpdateItems(creationId, createdId, before);
      UpdateLevels(creationId, createdId, before);
      if m_items == [] && m_collections == [] {
        committed := true;
      }
    }

    /**
     When nothing runs any more: the transaction is committed, and all is there, exactly if no level but the
     last is empty.
     */
    lemma AllIsThere()
      requires Valid() && jobs == map[]
      ensures committed <==> NoGap(levels)
      ensures committed ==>
                && (forall t, j :: 0 <= t < |levels| && 0 <= j < |levels[t]| ==>
                      levels[t][j].id in created && IsCreated(levels[t][j]))
                && (forall k :: 0 <= k < |items| ==>
                        k in createdItems && ItemFaithful(items, m_items, createdItems, realIds, k))
    {
      if NoGap(levels) {
        assert taken == |levels| && m_collections == [];
        forall k | 0 <= k < |items|
          ensures k in createdItems
        {
          assert ItemFaithful(items, m_items, createdItems, realIds, k);
          RequestedIsSent(levels, items[k].parent);
        }
        if m_items != [] {
          OneWaits(items, m_items, createdItems, realIds);
        }
      }
      if committed {
        forall t, j | 0 <= t < |levels| && 0 <= j < |levels[t]|
          ensures levels[t][j].id in created && IsCreated(levels[t][j])
        {
          assert HasId(levels[t], levels[t][j].id);
          assert Sent(levels, taken, levels[t][j].id);
          assert LevelFaithful(levels[t], realIds, jobs, created);
          assert Faithful(levels[t][j], realIds, jobs, created);
        }
        forall k | 0 <= k < |items|
          ensures k in createdItems && ItemFaithful(items, m_items, createdItems, realIds, k)
        {
          assert ItemFaithful(items, m_items, createdItems, realIds, k);
        }
      }
    }

    lemma Injective()
      requires Valid()
      ensures forall a, b :: a in realIds && b in realIds && a != b ==> realIds[a] != realIds[b]
    {
    }

    /** Created as requested, but under the real parent. */
    ghost predicate IsCreated(c: Collection)
      requires c.id in created
      reads this`created, this`realIds
    {
      created[c.id] == c.(parent := Resolve(realIds, c.parent)) && IsValid(created[c.id].parent)
    }
  }

  lemma AheadLength(levels: seq<seq<Collection>>, taken: nat, left: seq<seq<Collection>>, ids: map<Id, Id>)
    requires Ahead(levels, taken, left, ids)
    ensures taken + |left| == |levels|
  {
  }

  lemma AheadNothing(levels: seq<seq<Collection>>, taken: nat, ids: map<Id, Id>, other: map<Id, Id>)
    ensures Ahead(levels, taken, [], ids) ==> Ahead(levels, taken, [], other)
  {
  }

  lemma RequestedIsSent(levels: seq<seq<Collection>>, id: Id)
    ensures Requested(levels, id) ==> Sent(levels, |levels|, id)
  {
  }

  lemma OneWaits(items: seq<Item>, waiting: seq<Item>, done: map<nat, Item>, ids: map<Id, Id>)
    requires ItemsFaithful(items, waiting, done, ids) && waiting != []
    ensures exists k :: 0 <= k < |items| && k !in done
  {
    var k := waiting[0].tag;
    assert ItemFaithful(items, waiting, done, ids, k);
  }

  /** As requested, under the real parents, and without two collections becoming one. */
  ghost predicate SameTree(levels: seq<seq<Collection>>, items: seq<Item>, ids: map<Id, Id>,
                           created: map<Id, Collection>,
                           createdItems: map<nat, Item>) {
    && (forall t, j :: 0 <= t < |levels| && 0 <= j < |levels[t]| ==>
          var c := levels[t][j];
          c.id in created && created[c.id] == c.(parent := Resolve(ids, c.parent)) && IsValid(created[c.id].parent))
    && (forall k :: 0 <= k < |items| ==>
          k in createdItems && createdItems[k] == items[k].(parent := Resolve(ids, items[k].parent))
              && IsValid(createdItems[k].parent))
    && (forall a, b :: a in ids && b in ids && a != b ==> ids[a] != ids[b])
  }

  /**
   A whole run in which every creation succeeds, in any order: the transaction is committed if and only if no level
   but the last is empty, and then the tree of the request is there.
   */
  method CreateTree(levels: seq<seq<Collection>>, items: seq<Item>)
    returns (committed: bool, ghost ids: map<Id, Id>, ghost created: map<Id, Collection>,
             ghost createdItems: map<nat, Item>)
    requires DistinctIds(levels) && ParentsBefore(levels) && ItemsOk(levels, items)
    ensures committed <==> NoGap(levels)
    ensures committed ==> SameTree(levels, items, ids, created, createdItems)
  {
    hide Ahead, Accounted, Isomorphic, ItemsFaithful, DistinctIds, ParentsBefore, ItemsOk, NoGap;
    var job := new EntityTreeCreateJob(levels, items);
    job.DoStart();
    var next := 0;
    while job.jobs != map[]
      invariant job.Valid() && job.levels == levels && job.items == items
      invariant next >= 0 && forall id :: id in job.realIds ==> job.realIds[id] < next
      decreases |levels| - job.taken, |job.jobs|
    {
      SomeJob(job.jobs);
      var creationId :| creationId in job.jobs;
      var createdId :| createdId >= next;
      job.CollectionCreateJobDone(creationId, createdId);
      next := createdId + 1;
    }
    job.AllIsThere();
    committed, ids, created, createdItems := job.committed, job.realIds, job.created, job.createdItems;
    if committed {
      job.Injective();
      forall k | 0 <= k < |items|
        ensures k in createdItems && createdItems[k] == items[k].(parent := Resolve(ids, items[k].parent))
                && IsValid(createdItems[k].parent)
      {
        assert ItemFaithful(items, job.m_items, createdItems, ids, k);
      }
    }
  }

  /** A request with an empty level in the middle is never committed. */
  method GapStops(a: Collection, b: Collection) returns (committed: bool)
    requires a.id < 0 && b.id < 0 && a.id != b.id && IsValid(a.parent) && IsValid(b.parent)
    ensures !committed
  {
    Gap(a, b);
    hide DistinctIds, ParentsBefore, ItemsOk, NoGap, SameTree;
    ghost var ids, created, items;
    committed, ids, created, items := CreateTree([[a], [], [b]], []);
  }

  lemma SomeJob(jobs: map<Id, Collection>)
    requires jobs != map[]
    ensures exists id :: id in jobs
  {
    assert (forall id :: id !in jobs) ==> jobs == map[];
  }
}
