/**
 Linking Gmail messages to the collections of their labels: the labels are resolved one after the other,
 then the links that a message has are compared with those that it should have.
 */
module GmailLinks {

  type Id = string
  type Label = string
  type Collection = nat

  /** A fetched message with its existing links. */
  datatype Item = Item(remoteId: Id, references: seq<Collection>)

  function RemoveOne(s: seq<Collection>, c: Collection): (r: seq<Collection>)
    ensures multiset(r) == multiset(s) - multiset{c}
  {
    if s == [] then []
    else if s[0] == c then
      assert s == [c] + s[1..];
      s[1..]
    else
      assert s == [s[0]] + s[1..];
      [s[0]] + RemoveOne(s[1..], c)
  }

  /** The labels of a message; unknown messages have none. */
  function LabelsOf(links: map<Id, seq<Label>>, remoteId: Id): seq<Label> {
    if remoteId in links then links[remoteId] else []
  }

  /** How many of the labels stand for the collection. */
  function Count(labels: seq<Label>, found: map<Label, Collection>, c: Collection): nat
    requires forall i :: 0 <= i < |labels| ==> labels[i] in found
  {
    if labels == [] then 0 else
      var n := |labels| - 1;
      Count(labels[..n], found, c) + if found[labels[n]] == c then 1 else 0
  }

  lemma {:induction false} CountIs(labels: seq<Label>, found: map<Label, Collection>, c: Collection)
    requires forall i :: 0 <= i < |labels| ==> labels[i] in found
    ensures Count(labels, found, c) > 0 <==> exists i :: 0 <= i < |labels| && found[labels[i]] == c
  {
    if labels != [] {
      var n := |labels| - 1;
      CountIs(labels[..n], found, c);
      if i :| 0 <= i < n && found[labels[i]] == c {
        assert labels[..n][i] == labels[i];
      }
    }
  }

  /** The collections of the labels of a message. */
  ghost predicate Wanted(labels: seq<Label>, found: map<Label, Collection>, c: Collection)
    requires forall i :: 0 <= i < |labels| ==> labels[i] in found
  {
    exists i :: 0 <= i < |labels| && found[labels[i]] == c
  }

  /** Messages per collection. */
  type Lists = map<Collection, seq<Id>>

  function Add(lists: Lists, c: Collection, id: Id): Lists {
    lists[c := (if c in lists then lists[c] else []) + [id]]
  }

  predicate Has(lists: Lists, c: Collection, id: Id) {
    c in lists && id in lists[c]
  }

  lemma AddHas(lists: Lists, c: Collection, id: Id)
    ensures forall d, other :: Has(Add(lists, c, id), d, other) <==> Has(lists, d, other) || (d == c && other == id)
  {
  }

  /** The links of a message after links have been added and others removed. */
  ghost predicate After(existing: seq<Collection>, toLink: Lists, toUnlink: Lists, id: Id, c: Collection) {
    (c in existing || Has(toLink, c, id)) && !Has(toUnlink, c, id)
  }

  /** A link is added for more labels than links, and removed for more links than labels. */
  ghost predicate Compared(item: Item, labels: seq<Label>, found: map<Label, Collection>, toLink: Lists,
                           toUnlink: Lists)
    requires forall i :: 0 <= i < |labels| ==> labels[i] in found
  {
    forall c ::
      && (Has(toLink, c, item.remoteId) <==> Count(labels, found, c) > multiset(item.references)[c])
      && (Has(toUnlink, c, item.remoteId) <==> Count(labels, found, c) < multiset(item.references)[c])
  }

  /** Afterwards the message is linked to exactly the collections of its labels. */
  ghost predicate Linked(item: Item, labels: seq<Label>, found: map<Label, Collection>, toLink: Lists, toUnlink: Lists)
    requires forall i :: 0 <= i < |labels| ==> labels[i] in found
  {
    forall c :: After(item.references, toLink, toUnlink, item.remoteId, c) <==> Wanted(labels, found, c)
  }

  /** The message is linked to none of the collections of its labels more often than it has labels for it. */
  ghost predicate NotTooOften(item: Item, labels: seq<Label>, found: map<Label, Collection>)
    requires forall i :: 0 <= i < |labels| ==> labels[i] in found
  {
    forall c :: Wanted(labels, found, c) ==> multiset(item.references)[c] <= Count(labels, found, c)
  }

  /** In particular the links are right if the message was linked to no collection twice. */
  lemma LinksAreLabels(item: Item, labels: seq<Label>, found: map<Label, Collection>, toLink: Lists, toUnlink: Lists)
    requires forall i :: 0 <= i < |labels| ==> labels[i] in found
    requires Compared(item, labels, found, toLink, toUnlink)
    ensures Linked(item, labels, found, toLink, toUnlink) <==> NotTooOften(item, labels, found)
    ensures (forall c :: multiset(item.references)[c] <= 1) ==> Linked(item, labels, found, toLink, toUnlink)
  {
    forall c
      ensures Wanted(labels, found, c) <==> Count(labels, found, c) > 0
    {
      CountIs(labels, found, c);
    }
    forall c
      ensures c in item.references <==> multiset(item.references)[c] > 0
      ensures After(item.references, toLink, toUnlink, item.remoteId, c) <==>
                (multiset(item.references)[c] > 0 || Count(labels, found, c) > 0)
                    && multiset(item.references)[c] <= Count(labels, found, c)
    {
      assert c in item.references <==> c in multiset(item.references);
    }
  }

  /** A message in collection 5 twice, with one label for it: the label takes one link, and the other one is removed. */
  lemma DoubleLink(toLink: Lists, toUnlink: Lists)
    requires Compared(Item("id", [5, 5]), ["label"], map["label" := 5], toLink, toUnlink)
    ensures !Linked(Item("id", [5, 5]), ["label"], map["label" := 5], toLink, toUnlink)
  {
    var labels, found := ["label"], map["label" := 5];
    assert labels[..0] == [] && Count(labels, found, 5) == 1;
    assert found[labels[0]] == 5;
    LinksAreLabels(Item("id", [5, 5]), labels, found, toLink, toUnlink);
    assert multiset([5, 5])[5] == 2;
  }

  datatype Phase = Collecting | Resolving(name: Label) | Retrieving | Stopped | Finished

  lemma CountStep(labels: seq<Label>, i: nat, found: map<Label, Collection>, c: Collection)
    requires i < |labels| && forall k :: 0 <= k < |labels| ==> labels[k] in found
    ensures Count(labels[..i + 1], found, c) == Count(labels[..i], found, c) + if found[labels[i]] == c then 1 else 0
  {
    assert labels[..i + 1][..i] == labels[..i];
  }

  function Rest(a: nat, b: nat): nat {
    if a < b then b - a else 0
  }

  /** A label takes a link to its collection; when there is none a link is to be added. */
  method TakeLabel(id: Id, newRef: Collection, link: Lists, references: seq<Collection>)
    returns (toLink: Lists, existing: seq<Collection>)
    ensures forall c :: multiset(existing)[c] ==
              if c == newRef && multiset(references)[c] > 0 then multiset(references)[c] - 1
              else multiset(references)[c]
    ensures forall c, other :: Has(toLink, c, other) <==>
              Has(link, c, other) || (c == newRef && multiset(references)[c] == 0 && other == id)
  {
    hide Has, Add, RemoveOne;
    toLink, existing := link, references;
    assert newRef in existing <==> multiset(existing)[newRef] > 0;
    if newRef !in existing {
      AddHas(toLink, newRef, id);
      toLink := Add(toLink, newRef, id);
    } else {
      existing := RemoveOne(existing, newRef);
    }
  }

  /** Each label takes one link to its collection; when there is none a link is to be added. */
  method TakeLabels(item: Item, labels: seq<Label>, found: map<Label, Collection>, link: Lists)
    returns (toLink: Lists, existing: seq<Collection>)
    requires forall i :: 0 <= i < |labels| ==> labels[i] in found
    requires forall c :: !Has(link, c, item.remoteId)
    ensures forall c :: multiset(existing)[c] == Rest(Count(labels, found, c), multiset(item.references)[c])
    ensures forall c :: Has(toLink, c, item.remoteId) <==> Count(labels, found, c) > multiset(item.references)[c]
    ensures forall c, id :: id != item.remoteId ==> (Has(toLink, c, id) <==> Has(link, c, id))
  {
    toLink, existing := link, item.references;
    var i := 0;
    assert labels[..0] == [] && forall c :: Count([], found, c) == 0;
    hide Count, Has, Add, RemoveOne;
    while i < |labels|
      invariant 0 <= i <= |labels|
      invariant forall c :: multiset(existing)[c] == Rest(Count(labels[..i], found, c), multiset(item.references)[c])
      invariant forall c :: Has(toLink, c, item.remoteId) <==>
                  Count(labels[..i], found, c) > multiset(item.references)[c]
      invariant forall c, id :: id != item.remoteId ==> (Has(toLink, c, id) <==> Has(link, c, id))
    {
      var newRef := found[labels[i]];
      forall c
        ensures Count(labels[..i + 1], found, c) == Count(labels[..i], found, c) + if newRef == c then 1 else 0
      {
        CountStep(labels, i, found, c);
      }
      toLink, existing := TakeLabel(item.remoteId, newRef, toLink, existing);
      i := i + 1;
    }
    assert labels[..i] == labels;
  }

  /** The links that are left over are to be removed. */
  method DropRest(id: Id, existing: seq<Collection>, unlink: Lists) returns (toUnlink: Lists)
    ensures forall c, other :: Has(toUnlink, c, other) <==>
            Has(unlink, c, other) || (other == id && multiset(existing)[c] > 0)
  {
    toUnlink := unlink;
    var i := 0;
    while i < |existing|
      invariant 0 <= i <= |existing|
      invariant forall c, other :: Has(toUnlink, c, other) <==>
              Has(unlink, c, other) || (other == id && c in existing[..i])
    {
      hide Has;
      AddHas(toUnlink, existing[i], id);
      toUnlink := Add(toUnlink, existing[i], id);
      assert existing[..i + 1] == existing[..i] + [existing[i]];
      i := i + 1;
    }
    assert existing[..i] == existing;
    assert forall c :: c in existing <==> multiset(existing)[c] > 0;
  }

  /** No label is listed twice. */
  ghost predicate Once(labels: seq<Label>) {
    forall i, j :: 0 <= i < j < |labels| ==> labels[i] != labels[j]
  }

  class GmailLinkItemsTask {
    var mLabels: seq<Label>
    var mLinkMap: map<Id, seq<Label>>
    var mLabelCollectionMap: map<Label, Collection>
    var phase: Phase

    /** The labels that are resolved or will be. */
    ghost function PendingLabels(): set<Label>
      reads this
    {
      (set name | name in mLabels) + mLabelCollectionMap.Keys + (if phase.Resolving? then {phase.name} else {})
    }

    ghost predicate AllPending()
      reads this
    {
      forall id, i :: id in mLinkMap && 0 <= i < |mLinkMap[id]| ==> mLinkMap[id][i] in PendingLabels()
    }

    /** Each label of a message is resolved or will be; in the end all are. */
    ghost predicate Valid()
      reads this
    {
      (!phase.Stopped? ==> AllPending()) && (phase.Retrieving? ==> mLabels == []) && Once(mLabels)
    }

    constructor ()
      ensures Valid() && phase == Collecting && mLabels == [] && mLinkMap == map[] && mLabelCollectionMap == map[]
    {
      mLabels, mLinkMap, mLabelCollectionMap, phase := [], map[], map[], Collecting;
    }

    /** A message has been retrieved with its labels. */
    method LinkItem(remoteId: Id, labels: seq<Label>)
      requires Valid() && phase == Collecting
      modifies this`mLinkMap, this`mLabels
      ensures Valid() && mLinkMap == old(mLinkMap)[remoteId := labels] && old(mLabels) <= mLabels
      ensures forall name :: name in mLabels <==> name in old(mLabels) || name in labels
      ensures mLabels == [] <==> old(mLabels) == [] && labels == []
    {
      var i := 0;
      while i < |labels|
        invariant 0 <= i <= |labels| && mLinkMap == old(mLinkMap) && old(mLabels) <= mLabels
        invariant forall k :: 0 <= k < i ==> labels[k] in mLabels
        invariant forall name :: name in mLabels ==> name in old(mLabels) || name in labels
        invariant Once(mLabels)
        invariant forall name :: name in old(mLabels) ==> name in mLabels
        invariant i == 0 ==> mLabels == old(mLabels)
      {
        if labels[i] !in mLabels {
          mLabels := mLabels + [labels[i]];
        }
        i := i + 1;
      }
      assert labels != [] ==> labels[0] in mLabels;
      assert old(PendingLabels()) <= PendingLabels();
      mLinkMap := mLinkMap[remoteId := labels];
    }

    /** All messages are there; without any label there is nothing to do. */
    method OnRetrievalDone()
      requires Valid() && phase == Collecting
      modifies this`phase, this`mLabels
      ensures Valid() && phase == if old(mLabels) == [] then Finished else Resolving(old(mLabels)[0])
    {
      if mLabels != [] {
        ResolveNextLabel();
      } else {
        phase := Finished;
      }
    }

    method ResolveNextLabel()
      requires mLabels != [] && (phase == Collecting || (phase.Resolving? && phase.name in mLabelCollectionMap))
      requires AllPending() && Once(mLabels)
      modifies this`phase, this`mLabels
      ensures Valid() && phase == Resolving(old(mLabels)[0]) && mLabels == old(mLabels)[1..]
    {
      ghost var before := PendingLabels();
      assert mLabels == [mLabels[0]] + mLabels[1..];
      phase := Resolving(mLabels[0]);
      mLabels := mLabels[1..];
      assert before <= PendingLabels();
    }

    /** A label has been resolved, or has not, which stops everything. */
    method OnLabelResolved(failed: bool, collection: Collection)
      requires Valid() && phase.Resolving?
      modifies this`phase, this`mLabels, this`mLabelCollectionMap
      ensures Valid()
      ensures if failed then phase == Stopped && mLabelCollectionMap == old(mLabelCollectionMap)
              else && mLabelCollectionMap == old(mLabelCollectionMap)[old(phase).name := collection]
                   && phase == (if old(mLabels) == [] then Retrieving else Resolving(old(mLabels)[0]))
                   && |mLabels| == if old(mLabels) == [] then 0 else |old(mLabels)| - 1
    {
      if failed {
        phase := Stopped;
        return;
      }
      ghost var before := PendingLabels();
      mLabelCollectionMap := mLabelCollectionMap[phase.name := collection];
      assert before == PendingLabels();
      if mLabels != [] {
        ResolveNextLabel();
      } else {
        phase := Retrieving;
        assert before == PendingLabels();
      }
    }

    /** Compares one message: for each label a link is kept or added, links that are left over are removed. */
    method Compare(item: Item, link: Lists, unlink: Lists) returns (toLink: Lists, toUnlink: Lists)
      requires Valid() && phase == Retrieving
      requires forall c :: !Has(link, c, item.remoteId) && !Has(unlink, c, item.remoteId)
      ensures LabelsFound(item.remoteId)
      ensures Compared(item, LabelsOf(mLinkMap, item.remoteId), mLabelCollectionMap, toLink, toUnlink)
      ensures forall c, id :: id != item.remoteId ==>
                (Has(toLink, c, id) <==> Has(link, c, id)) && (Has(toUnlink, c, id) <==> Has(unlink, c, id))
    {
      var existing;
      hide Count, Has;
      toLink, existing := TakeLabels(item, LabelsOf(mLinkMap, item.remoteId), mLabelCollectionMap, link);
      toUnlink := DropRest(item.remoteId, existing, unlink);
    }

    /** All messages that have been fetched are compared. */
    method OnVirtualReferencesRetrieved(failed: bool, items: seq<Item>) returns (toLink: Lists, toUnlink: Lists)
      requires Valid() && phase == Retrieving
      requires forall i, j :: 0 <= i < j < |items| ==> items[i].remoteId != items[j].remoteId
      modifies this`phase
      ensures phase == Finished && (failed ==> toLink == toUnlink == map[])
      ensures !failed ==> forall i :: 0 <= i < |items| ==>
                LabelsFound(items[i].remoteId)
                && Compared(items[i], LabelsOf(mLinkMap, items[i].remoteId), mLabelCollectionMap, toLink, toUnlink)
      ensures forall c, id :: Has(toLink, c, id) || Has(toUnlink, c, id) ==> exists i ::
              0 <= i < |items| && items[i].remoteId == id
    {
      toLink, toUnlink := map[], map[];
      if failed {
        phase := Finished;
        return;
      }
      var n := 0;
      while n < |items|
        invariant 0 <= n <= |items| && phase == Retrieving && Valid()
        invariant forall i :: 0 <= i < n ==>
                    LabelsFound(items[i].remoteId)
                    && Compared(items[i], LabelsOf(mLinkMap, items[i].remoteId), mLabelCollectionMap, toLink, toUnlink)
        invariant forall c, id :: Has(toLink, c, id) || Has(toUnlink, c, id) ==> exists i ::
                0 <= i < n && items[i].remoteId == id
      {
        hide Count, Has, Valid, LabelsOf, AllPending;
        toLink, toUnlink := Compare(items[n], toLink, toUnlink);
        n := n + 1;
      }
      phase := Finished;
    }

    ghost predicate LabelsFound(remoteId: Id)
      reads this
    {
      forall i :: 0 <= i < |LabelsOf(mLinkMap, remoteId)| ==> LabelsOf(mLinkMap, remoteId)[i] in mLabelCollectionMap
    }
  }

  /** A message as it is retrieved; the labels retrieved last count. */
  datatype Message = Message(remoteId: Id, labels: seq<Label>)

  function LinkMap(messages: seq<Message>): map<Id, seq<Label>> {
    if messages == [] then map[] else
      var m := messages[|messages| - 1];
      LinkMap(messages[..|messages| - 1])[m.remoteId := m.labels]
  }

  /** The labels that were retrieved last for a message. */
  ghost function LabelsIn(messages: seq<Message>, id: Id): seq<Label> {
    if messages == [] then [] else
      var m := messages[|messages| - 1];
      if m.remoteId == id then m.labels else LabelsIn(messages[..|messages| - 1], id)
  }

  lemma {:induction false} LabelsAreThose(messages: seq<Message>, id: Id)
    ensures LabelsOf(LinkMap(messages), id) == LabelsIn(messages, id)
  {
    if messages != [] {
      LabelsAreThose(messages[..|messages| - 1], id);
    }
  }

  ghost predicate AnyLabel(messages: seq<Message>) {
    exists i :: 0 <= i < |messages| && messages[i].labels != []
  }

  lemma OneMore(messages: seq<Message>, i: nat)
    requires i < |messages|
    ensures LinkMap(messages[..i + 1]) == LinkMap(messages[..i])[messages[i].remoteId := messages[i].labels]
    ensures AnyLabel(messages[..i + 1]) <==> AnyLabel(messages[..i]) || messages[i].labels != []
  {
    assert messages[..i + 1][..i] == messages[..i] && messages[..i + 1][i] == messages[i];
    if AnyLabel(messages[..i]) {
      var k :| 0 <= k < i && messages[..i][k].labels != [];
      assert messages[..i + 1][k].labels != [];
    }
    if AnyLabel(messages[..i + 1]) && messages[i].labels == [] {
      var k :| 0 <= k <= i && messages[..i + 1][k].labels != [];
      assert messages[..i][k].labels != [];
    }
  }

  lemma {:induction false} NoLabels(messages: seq<Message>, id: Id)
    requires !AnyLabel(messages)
    ensures LabelsOf(LinkMap(messages), id) == []
  {
    if messages != [] {
      var n := |messages| - 1;
      assert messages[..n + 1] == messages;
      OneMore(messages, n);
      NoLabels(messages[..n], id);
    }
  }

  /** A message without labels is linked right without any change exactly if it has no links. */
  lemma NothingCompared(item: Item, found: map<Label, Collection>)
    ensures Linked(item, [], found, map[], map[]) <==> item.references == []
  {
    assert forall c :: !Wanted([], found, c);
    assert forall c :: After(item.references, map[], map[], item.remoteId, c) <==> c in item.references;
    assert item.references != [] ==> item.references[0] in item.references;
  }

  /**
   A whole run in which every label is resolved. If no message at all has a label nothing is compared and all links
   stay, which is right exactly for the messages without any; otherwise each message that is fetched ends up with the
   links of its labels, unless it was linked too often.
   */
  method LinkAll(messages: seq<Message>, resolve: Label -> Collection, items: seq<Item>)
    returns (toLink: Lists, toUnlink: Lists, ghost found: map<Label, Collection>)
    requires forall i, j :: 0 <= i < j < |items| ==> items[i].remoteId != items[j].remoteId
    ensures forall name :: name in found ==> found[name] == resolve(name)
    ensures !AnyLabel(messages) ==>
              && toLink == toUnlink == map[]
              && forall i :: 0 <= i < |items| ==>
                   && LabelsIn(messages, items[i].remoteId) == []
                   && (Linked(items[i], [], found, toLink, toUnlink) <==> items[i].references == [])
    ensures AnyLabel(messages) ==> forall i :: 0 <= i < |items| ==>
              var labels := LabelsIn(messages, items[i].remoteId);
              && (forall k :: 0 <= k < |labels| ==> labels[k] in found)
              && (Linked(items[i], labels, found, toLink, toUnlink) <==> NotTooOften(items[i], labels, found))
  {
    hide AnyLabel, LinkMap, LabelsIn, Linked, NotTooOften, Compared, LabelsOf, GmailLinkItemsTask.AllPending;
    var task := new GmailLinkItemsTask();
    NoMessage(messages);
    var n := 0;
    while n < |messages|
      invariant 0 <= n <= |messages| && fresh(task) && task.Valid() && task.phase == Collecting
      invariant task.mLinkMap == LinkMap(messages[..n]) && task.mLabelCollectionMap == map[]
      invariant task.mLabels == [] <==> !AnyLabel(messages[..n])
    {
      OneMore(messages, n);
      task.LinkItem(messages[n].remoteId, messages[n].labels);
      n := n + 1;
    }
    assert messages[..n] == messages;
    task.OnRetrievalDone();
    if task.phase == Finished {
      toLink, toUnlink, found := map[], map[], map[];
      forall i | 0 <= i < |items|
        ensures LabelsIn(messages, items[i].remoteId) == []
        ensures Linked(items[i], [], found, toLink, toUnlink) <==> items[i].references == []
      {
        LabelsAreThose(messages, items[i].remoteId);
        NoLabels(messages, items[i].remoteId);
        NothingCompared(items[i], found);
      }
      return;
    }
    while task.phase.Resolving?
      invariant task.Valid() && task.mLinkMap == LinkMap(messages)
      invariant task.phase.Resolving? || task.phase == Retrieving
      invariant forall name :: name in task.mLabelCollectionMap ==> task.mLabelCollectionMap[name] == resolve(name)
      decreases |task.mLabels|, task.phase.Resolving?
    {
      task.OnLabelResolved(false, resolve(task.phase.name));
    }
    found := task.mLabelCollectionMap;
    toLink, toUnlink := task.OnVirtualReferencesRetrieved(false, items);
    forall i | 0 <= i < |items|
      ensures var labels := LabelsIn(messages, items[i].remoteId);
              && (forall k :: 0 <= k < |labels| ==> labels[k] in found)
              && (Linked(items[i], labels, found, toLink, toUnlink) <==> NotTooOften(items[i], labels, found))
    {
      LabelsAreThose(messages, items[i].remoteId);
      LinksAreLabels(items[i], LabelsIn(messages, items[i].remoteId), found, toLink, toUnlink);
    }
  }

  /** A message that has lost its only label, with no label anywhere else: it stays in collection 5. */
  method LastLabelLost(resolve: Label -> Collection) returns (toLink: Lists, toUnlink: Lists)
    ensures !Linked(Item("id", [5]), [], map[], toLink, toUnlink)
  {
    ghost var found;
    var messages := [Message("id", [])];
    assert !AnyLabel(messages);
    hide AnyLabel, LinkMap, Linked;
    var items := [Item("id", [5])];
    toLink, toUnlink, found := LinkAll(messages, resolve, items);
    assert items[0].references != [];
    NothingCompared(items[0], map[]);
  }

  lemma NoMessage(messages: seq<Message>)
    ensures LinkMap(messages[..0]) == map[] && !AnyLabel(messages[..0])
  {
  }
}
