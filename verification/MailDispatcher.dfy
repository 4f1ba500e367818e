/**
 The outbox queue and the agent that sends its messages one after the other.  The queue tells the
 agent synchronously about new items; item fetches, send jobs and timers answer later.
 */
module MailDispatcher {
  import opened Common
  import opened Sending

  /** The message may be sent once it is time. */
  ghost predicate Complete(item: Item) {
    && item.address && item.mode.Some? && item.behaviour.Some? && item.transport.Some? && item.queued
    && !item.mode.value.Manual? && item.transport.value
    && (item.behaviour.value.MoveToCollection? ==> item.behaviour.value.valid)
  }

  ghost predicate Later(item: Item, now: nat) {
    item.mode.Some? && item.mode.value.Automatic? && item.mode.value.sendAfter.Some?
    && item.mode.value.sendAfter.value > now
  }

  predicate HasId(q: seq<Item>, id: Id) {
    exists i :: 0 <= i < |q| && q[i].id == id
  }

  function IndexOf(q: seq<Item>, id: Id): (i: nat)
    ensures i <= |q| && (i < |q| ==> q[i].id == id)
    ensures HasId(q, id) <==> i < |q|
  {
    if q == [] then 0 else if q[0].id == id then 0 else
      var i := IndexOf(q[1..], id);
      assert forall k :: 0 <= k < |q| - 1 ==> q[1..][k] == q[k + 1];
      1 + i
  }

  function IdsOf(q: seq<Item>): seq<Id> {
    if q == [] then [] else [q[0].id] + IdsOf(q[1..])
  }

  ghost function QueuedIds(q: seq<Item>): (ids: set<Id>)
    ensures forall id :: id in ids <==> HasId(q, id)
  {
    var ids := set i | 0 <= i < |q| :: q[i].id;
    assert forall id :: id in ids <==> HasId(q, id);
    ids
  }

  lemma {:induction false} QueuedFirst(q: seq<Item>)
    requires q != []
    ensures QueuedIds(q) == {q[0].id} + QueuedIds(q[1..])
    ensures IdsOf(q) == [q[0].id] + IdsOf(q[1..])
    ensures SumSizes(q) == q[0].size + SumSizes(q[1..])
    ensures forall k :: 0 <= k < |q| - 1 ==> q[1..][k] == q[k + 1]
  {
    forall id
      ensures HasId(q, id) <==> id == q[0].id || HasId(q[1..], id)
    {
      HasIdFirst(q, id);
    }
    hide HasId;
  }

  lemma {:induction false} HasIdFirst(q: seq<Item>, id: Id)
    requires q != []
    ensures HasId(q, id) <==> id == q[0].id || HasId(q[1..], id)
  {
    if HasId(q[1..], id) {
      var k :| 0 <= k < |q| - 1 && q[1..][k].id == id;
      assert q[k + 1].id == id;
    }
    if HasId(q, id) && id != q[0].id {
      var k :| 0 <= k < |q| && q[k].id == id;
      assert q[1..][k - 1].id == id;
    }
  }

  lemma {:induction false} QueuedAppend(q: seq<Item>, item: Item)
    ensures QueuedIds(q + [item]) == QueuedIds(q) + {item.id}
    ensures IdsOf(q + [item]) == IdsOf(q) + [item.id]
  {
    if q == [] {
      assert q + [item] == [item];
      QueuedFirst([item]);
    } else {
      var r := q + [item];
      assert r[1..] == q[1..] + [item] && r[0] == q[0];
      QueuedAppend(q[1..], item);
      QueuedFirst(r);
      QueuedFirst(q);
      hide HasId, QueuedIds;
    }
  }

  lemma LastInRest(q: seq<Item>)
    requires q != []
    ensures q[|q| - 1] in q && (|q| > 1 ==> q[|q| - 1] in q[1..])
  {
    assert |q| > 1 ==> q[1..][|q| - 2] == q[|q| - 1];
  }

  function SumSizes(q: seq<Item>): nat {
    if q == [] then 0 else q[0].size + SumSizes(q[1..])
  }

  lemma {:induction false} SumRemove(q: seq<Item>, i: nat)
    requires i < |q|
    ensures SumSizes(q[..i] + q[i + 1..]) == SumSizes(q) - q[i].size
  {
    var rest := q[..i] + q[i + 1..];
    if i == 0 {
      assert rest == q[1..];
    } else {
      SumRemove(q[1..], i - 1);
      assert rest[0] == q[0] && rest[1..] == q[1..][..i - 1] + q[1..][i..];
    }
  }

  lemma {:induction false} SumAppend(q: seq<Item>, item: Item)
    ensures SumSizes(q + [item]) == SumSizes(q) + item.size
  {
    if q == [] {
      assert q + [item] == [item];
    } else {
      SumAppend(q[1..], item);
      assert (q + [item])[1..] == q[1..] + [item];
    }
  }

  ghost predicate Distinct(q: seq<Item>) {
    forall i, j :: 0 <= i < j < |q| ==> q[i].id != q[j].id
  }

  /** A message that waits for its time, in the map from due time to message. */
  datatype Future = Future(due: nat, item: Item)

  ghost predicate FutureOk(m: seq<Future>) {
    && (forall i :: 0 <= i < |m| ==> Complete(m[i].item) && m[i].item.mode == Some(Automatic(Some(m[i].due))))
    && (forall i, j :: 0 <= i < j < |m| ==> m[i].due <= m[j].due)
  }

  /** A new entry comes before those with the same due time. */
  function InsertAt(m: seq<Future>, due: nat): (k: nat)
    ensures k <= |m|
    ensures forall i :: 0 <= i < k ==> m[i].due < due
    ensures k < |m| ==> due <= m[k].due
  {
    if m == [] || due <= m[0].due then 0 else
      var k := InsertAt(m[1..], due);
      assert forall i :: 0 < i < 1 + k ==> m[i] == m[1..][i - 1];
      1 + k
  }

  function Insert(m: seq<Future>, e: Future): seq<Future> {
    var k := InsertAt(m, e.due);
    m[..k] + [e] + m[k..]
  }

  lemma InsertIsOk(m: seq<Future>, item: Item)
    requires FutureOk(m) && Complete(item) && item.mode.value.sendAfter.Some?
    ensures FutureOk(Insert(m, Future(item.mode.value.sendAfter.value, item)))
  {
  }

  /** How many entries are due. */
  function DueCount(m: seq<Future>, now: nat): (k: nat)
    ensures k <= |m|
    ensures forall i :: 0 <= i < k ==> m[i].due <= now
    ensures k < |m| ==> m[k].due > now
  {
    if m == [] || m[0].due > now then 0 else
      var k := DueCount(m[1..], now);
      assert forall i :: 0 < i < 1 + k ==> m[i] == m[1..][i - 1];
      1 + k
  }

  function EntryIds(m: seq<Future>): set<Id> {
    set i | 0 <= i < |m| :: m[i].item.id
  }

  /** The messages that come free at `now`: those still registered, in the order of their due times, once each. */
  function Released(m: seq<Future>, registered: set<Id>, known: set<Id>, now: nat): seq<Id> {
    if m == [] || m[0].due > now then [] else
      var id := m[0].item.id;
      var rest := Released(m[1..], registered - {id}, known, now);
      if id in registered && id !in known then [id] + rest else rest
  }

  lemma {:induction false} ReleasedExactly(m: seq<Future>, registered: set<Id>, known: set<Id>, now: nat, id: Id)
    requires forall i, j :: 0 <= i < j < |m| ==> m[i].due <= m[j].due
    ensures id in Released(m, registered, known, now) <==>
            id in registered && id !in known && exists i :: 0 <= i < |m| && m[i].item.id == id && m[i].due <= now
    ensures var r := Released(m, registered, known, now); forall i, j :: 0 <= i < j < |r| ==> r[i] != r[j]
  {
    if m != [] && m[0].due <= now {
      var first := m[0].item.id;
      var rest := Released(m[1..], registered - {first}, known, now);
      assert forall i :: 0 < i < |m| ==> m[1..][i - 1] == m[i];
      ReleasedExactly(m[1..], registered - {first}, known, now, id);
      ReleasedExactly(m[1..], registered - {first}, known, now, first);
      assert first !in rest;
      if id != first && exists i :: 0 <= i < |m| && m[i].item.id == id && m[i].due <= now {
        var i :| 0 <= i < |m| && m[i].item.id == id && m[i].due <= now;
        assert m[1..][i - 1].item.id == id;
      }
    }
  }

  lemma {:induction false} ReleasedKnown(m: seq<Future>, registered: set<Id>, known: set<Id>, now: nat, id: Id)
    requires id !in registered
    ensures Released(m, registered, known + {id}, now) == Released(m, registered, known, now)
  {
    if m != [] && m[0].due <= now {
      ReleasedKnown(m[1..], registered - {m[0].item.id}, known, now, id);
    }
  }

  lemma ReleasedFirst(m: seq<Future>, registered: set<Id>, known: set<Id>, now: nat)
    requires m != [] && m[0].due <= now
    ensures var id := m[0].item.id;
            Released(m, registered, known, now) ==
            (if id in registered && id !in known then [id] else [])
            + Released(m[1..], registered - {id}, known + (if id in registered then {id} else {}), now)
  {
    var id := m[0].item.id;
    ReleasedKnown(m[1..], registered - {id}, known, now, id);
    assert known + {} == known;
  }

  lemma ReleasedNothing(m: seq<Future>, registered: set<Id>, known: set<Id>, now: nat)
    requires m == [] || m[0].due > now
    ensures Released(m, registered, known, now) == []
  {
  }

  lemma {:induction false} DueCountFirst(m: seq<Future>, now: nat)
    requires m != [] && m[0].due <= now
    ensures DueCount(m, now) == 1 + DueCount(m[1..], now)
    ensures m[1..][DueCount(m[1..], now)..] == m[DueCount(m, now)..]
    ensures EntryIds(m[..DueCount(m, now)]) == {m[0].item.id} + EntryIds(m[1..][..DueCount(m[1..], now)])
  {
    var k := DueCount(m[1..], now);
    var a, b := m[..1 + k], m[1..][..k];
    assert a[0] == m[0] && forall i :: 0 <= i < k ==> b[i] == a[i + 1];
    forall id
      ensures id in EntryIds(a) <==> id == m[0].item.id || id in EntryIds(b)
    {
      if i :| 0 <= i < |b| && b[i].item.id == id {
        assert a[i + 1].item.id == id;
      }
      if i :| 0 <= i < |a| && a[i].item.id == id && i > 0 {
        assert b[i - 1].item.id == id;
      }
      assert a[0].item.id in EntryIds(a);
    }
  }

  /**
   What the queue knows: the ids that are queued or ignored, all that has ever been accepted in order, and the messages
   that wait for their time with those of them that are registered.
   */
  datatype Books = Books(known: set<Id>, line: seq<Id>, future: seq<Future>, registered: set<Id>)

  /** The messages whose time has come have joined the line. */
  ghost function FreedAt(b: Books, now: nat): Books {
    var k, r := DueCount(b.future, now), Released(b.future, b.registered, b.known, now);
    Books(b.known + (set id | id in r), b.line + r, b.future[k..], b.registered - EntryIds(b.future[..k]))
  }

  /** The first entry has been looked at. */
  ghost function FirstFreed(b: Books): Books
    requires b.future != []
  {
    var id := b.future[0].item.id;
    Books(b.known + (if id in b.registered then {id} else {}),
          b.line + (if id in b.registered && id !in b.known then [id] else []), b.future[1..], b.registered - {id})
  }

  lemma FreedFirst(b: Books, now: nat)
    requires b.future != [] && b.future[0].due <= now
    ensures FreedAt(FirstFreed(b), now) == FreedAt(b, now)
  {
    var id, m := b.future[0].item.id, b.future;
    DueCountFirst(m, now);
    ReleasedFirst(m, b.registered, b.known, now);
    hide DueCount, Released, EntryIds;
    var first := if id in b.registered && id !in b.known then [id] else [];
    var rest := Released(m[1..], b.registered - {id}, FirstFreed(b).known, now);
    LongerBy(b.line, b.known, first, rest);
    assert FirstFreed(b).known == b.known + set x | x in first;
  }

  lemma LongerBy(line: seq<Id>, known: set<Id>, first: seq<Id>, rest: seq<Id>)
    ensures line + first + rest == line + (first + rest)
    ensures known + (set x | x in first) + (set x | x in rest) == known + set x | x in first + rest
  {
    assert forall x :: x in first + rest <==> x in first || x in rest;
  }

  lemma FreedNothing(b: Books, now: nat)
    requires b.future == [] || b.future[0].due > now
    ensures FreedAt(b, now) == b
  {
    ReleasedNothing(b.future, b.registered, b.known, now);
    assert b.future[..0] == [];
    assert EntryIds([]) == {} && b.line + [] == b.line;
  }

  /** A message that is waiting for its time. */
  function Entry(item: Item): Future
    requires item.mode.Some? && item.mode.value.Automatic? && item.mode.value.sendAfter.Some?
  {
    Future(item.mode.value.sendAfter.value, item)
  }

  /** An unknown complete message joins the line when it may be sent, and until then waits for its time. */
  ghost function AcceptedAs(b: Books, item: Item, now: nat): Books {
    if item.id in b.known || !Complete(item) then b
    else if !Later(item, now) then b.(known := b.known + {item.id}, line := b.line + [item.id])
    else FreedAt(b.(future := Insert(b.future, Entry(item)), registered := b.registered + {item.id}), now)
  }

  /** The messages of a list one after the other. */
  ghost function ReadAs(b: Books, items: seq<Item>, now: nat): Books {
    if items == [] then b else
      AcceptedAs(ReadAs(b, items[..|items| - 1], now), items[|items| - 1], now)
  }

  ghost predicate InOrder(m: seq<Future>) {
    forall i, j :: 0 <= i < j < |m| ==> m[i].due <= m[j].due
  }

  /** No entry of the message is due: it has not been registered before for a time that has come. */
  ghost predicate NoneDue(m: seq<Future>, id: Id, now: nat) {
    forall e :: e in m && e.item.id == id ==> e.due > now
  }

  /** What a step for other messages does to the message `id`. */
  ghost predicate LeavesAlone(b: Books, c: Books, id: Id, now: nat) {
    && InOrder(c.future) && b.known <= c.known
    && (forall e :: e in b.future && e.due > now ==> e in c.future)
    && (id in b.registered + b.known ==> id in c.registered + c.known)
    && (NoneDue(b.future, id, now) ==>
          && NoneDue(c.future, id, now)
          && (id in c.known <==> id in b.known) && (id in c.registered <==> id in b.registered))
  }

  lemma InsertKeepsOrder(m: seq<Future>, e: Future)
    requires InOrder(m)
    ensures InOrder(Insert(m, e)) && forall x :: x in Insert(m, e) <==> x in m || x == e
  {
    var k, r := InsertAt(m, e.due), Insert(m, e);
    hide InsertAt;
    InsertMembers(m, k, e);
    forall i, j | 0 <= i < j < |r|
      ensures r[i].due <= r[j].due
    {
      assert r[i] == (if i < k then m[i] else if i == k then e else m[i - 1]);
      assert r[j] == (if j < k then m[j] else if j == k then e else m[j - 1]);
    }
  }

  lemma InsertMembers(m: seq<Future>, k: nat, e: Future)
    requires k <= |m|
    ensures forall x :: x in m[..k] + [e] + m[k..] <==> x in m || x == e
  {
    assert m == m[..k] + m[k..];
  }

  /** Exactly the entries that are not due are left. */
  lemma LeftAreUndue(m: seq<Future>, now: nat)
    requires InOrder(m)
    ensures var k := DueCount(m, now);
            && InOrder(m[k..]) && forall e :: e in m[k..] <==> e in m && e.due > now
  {
    var k := DueCount(m, now);
    hide DueCount;
    var left := m[k..];
    assert forall i :: 0 <= i < |left| ==> left[i] == m[k + i];
    forall e | e in m && e.due > now
      ensures e in left
    {
      var i :| 0 <= i < |m| && m[i] == e;
      assert i >= k && left[i - k] == e;
    }
  }

  /** Exactly the messages with an entry that is due are taken off the register. */
  lemma FreedAreDue(m: seq<Future>, id: Id, now: nat)
    requires InOrder(m)
    ensures id in EntryIds(m[..DueCount(m, now)]) <==> !NoneDue(m, id, now)
    ensures !NoneDue(m, id, now) <==> exists i :: 0 <= i < |m| && m[i].item.id == id && m[i].due <= now
  {
    var k := DueCount(m, now);
    hide DueCount;
    if i :| 0 <= i < |m| && m[i].item.id == id && m[i].due <= now {
      assert m[i] in m && m[..k][i] == m[i];
    }
    if i :| 0 <= i < k && m[..k][i].item.id == id {
      assert m[i] in m;
    }
    if e :| e in m && e.item.id == id && e.due <= now {
      var i :| 0 <= i < |m| && m[i] == e;
    }
  }

  lemma FreedLeavesAlone(b: Books, id: Id, now: nat)
    requires InOrder(b.future)
    ensures LeavesAlone(b, FreedAt(b, now), id, now)
  {
    ReleasedExactly(b.future, b.registered, b.known, now, id);
    LeftAreUndue(b.future, now);
    FreedAreDue(b.future, id, now);
    hide Released, DueCount, EntryIds, InOrder;
  }

  lemma InsertLeavesAlone(b: Books, item: Item, id: Id, now: nat)
    requires InOrder(b.future) && item.id != id && Complete(item) && Later(item, now)
    ensures LeavesAlone(b, b.(future := Insert(b.future, Entry(item)), registered := b.registered + {item.id}), id, now)
  {
    InsertKeepsOrder(b.future, Entry(item));
    hide Insert, Complete, InOrder;
  }

  lemma LeavesAloneBoth(b: Books, c: Books, d: Books, id: Id, now: nat)
    requires LeavesAlone(b, c, id, now) && LeavesAlone(c, d, id, now)
    ensures LeavesAlone(b, d, id, now)
  {
    hide InOrder, NoneDue;
  }

  lemma AcceptedLeavesAlone(b: Books, item: Item, id: Id, now: nat)
    requires InOrder(b.future) && item.id != id
    ensures LeavesAlone(b, AcceptedAs(b, item, now), id, now)
  {
    hide Insert, Complete, FreedAt, InOrder, NoneDue;
    if item.id !in b.known && Complete(item) && Later(item, now) {
      var c := b.(future := Insert(b.future, Entry(item)), registered := b.registered + {item.id});
      InsertLeavesAlone(b, item, id, now);
      FreedLeavesAlone(c, id, now);
      LeavesAloneBoth(b, c, FreedAt(c, now), id, now);
    }
  }

  /** Messages of which the list has nothing. */
  lemma {:induction false} ReadLeavesAlone(b: Books, items: seq<Item>, id: Id, now: nat)
    requires InOrder(b.future) && forall i :: 0 <= i < |items| ==> items[i].id != id
    ensures LeavesAlone(b, ReadAs(b, items, now), id, now)
  {
    if items != [] {
      var n := |items| - 1;
      ReadLeavesAlone(b, items[..n], id, now);
      AcceptedLeavesAlone(ReadAs(b, items[..n], now), items[n], id, now);
      LeavesAloneBoth(b, ReadAs(b, items[..n], now), ReadAs(b, items, now), id, now);
      hide AcceptedAs, LeavesAlone;
    }
  }

  /**
   A complete message that was unknown at `b` has been taken in: it is known if it may be sent, and waits for its time
   if not. Only one with an older entry that is due may be known instead.
   */
  ghost predicate TakenIn(item: Item, b: Books, c: Books, now: nat) {
    if !Later(item, now) then item.id in c.known
    else
      && (item.id in c.known || (item.id in c.registered && Entry(item) in c.future))
      && (NoneDue(b.future, item.id, now) ==>
            && NoneDue(c.future, item.id, now)
            && item.id !in c.known && item.id in c.registered && Entry(item) in c.future)
  }

  lemma TakenInStays(item: Item, b: Books, c: Books, d: Books, now: nat)
    requires TakenIn(item, b, c, now) && LeavesAlone(c, d, item.id, now)
    ensures TakenIn(item, b, d, now)
  {
    hide NoneDue, InOrder;
  }

  /** Every complete message of the list that was unknown before is taken in. */
  lemma {:induction false} ReadTakesIn(b: Books, items: seq<Item>, i: nat, now: nat)
    requires InOrder(b.future) && Distinct(items) && i < |items|
    requires Complete(items[i]) && items[i].id !in b.known
    ensures TakenIn(items[i], b, ReadAs(b, items, now), now)
  {
    hide Complete, Later, AcceptedAs, TakenIn, LeavesAlone, InOrder;
    var n, item := |items| - 1, items[i];
    var front := ReadAs(b, items[..n], now);
    ReadKeepsOrder(b, items[..n], now);
    if i < n {
      ReadTakesIn(b, items[..n], i, now);
      AcceptedLeavesAlone(front, items[n], item.id, now);
      TakenInStays(item, b, front, ReadAs(b, items, now), now);
    } else {
      ReadLeavesAlone(b, items[..n], item.id, now);
      LastTakenIn(b, front, item, now);
    }
  }

  lemma LastTakenIn(b: Books, front: Books, item: Item, now: nat)
    requires Complete(item) && item.id !in b.known && LeavesAlone(b, front, item.id, now)
    ensures TakenIn(item, b, AcceptedAs(front, item, now), now)
  {
    hide FreedAt, Insert, Complete, InOrder, NoneDue;
    if Later(item, now) && item.id !in front.known {
      AcceptedWaits(front, item, now);
    }
  }

  lemma {:induction false} ReadKeepsOrder(b: Books, items: seq<Item>, now: nat)
    requires InOrder(b.future)
    ensures InOrder(ReadAs(b, items, now).future)
  {
    if items != [] {
      var n := |items| - 1;
      ReadKeepsOrder(b, items[..n], now);
      AcceptedLeavesAlone(ReadAs(b, items[..n], now), items[n], items[n].id + 1, now);
      hide AcceptedAs;
    }
  }

  /** A complete message at its turn. */
  lemma AcceptedWaits(b: Books, item: Item, now: nat)
    requires InOrder(b.future) && Complete(item) && Later(item, now) && item.id !in b.known
    ensures var c := AcceptedAs(b, item, now);
            && InOrder(c.future)
            && (item.id in c.known || (item.id in c.registered && Entry(item) in c.future))
            && (NoneDue(b.future, item.id, now) ==>
                  && NoneDue(c.future, item.id, now)
                  && item.id !in c.known && item.id in c.registered && Entry(item) in c.future)
  {
    var c := b.(future := Insert(b.future, Entry(item)), registered := b.registered + {item.id});
    InsertKeepsOrder(b.future, Entry(item));
    hide Insert, Complete, FreedAt, InOrder;
    FreedLeavesAlone(c, item.id, now);
  }

  /** The message is accepted for the future although it is registered already, against the assertion. */
  ghost predicate Again(item: Item, known: set<Id>, registered: set<Id>, now: nat) {
    item.id !in known && Complete(item) && Later(item, now) && item.id in registered
  }

  /** A message of the list is accepted for the future although it is registered at its turn. */
  ghost predicate AgainAt(b: Books, items: seq<Item>, i: nat, now: nat)
    requires i < |items|
  {
    var before := ReadAs(b, items[..i], now);
    Again(items[i], before.known, before.registered, now)
  }

  /** How far the agent has come: what has been taken out, what is being fetched, and whether it is sending. */
  datatype Front = Front(handed: seq<Id>, fetching: Option<Item>, busy: bool)

  /** At most one message is taken out, and only by an agent that is online and not sending. */
  ghost predicate Advances(f: Front, g: Front, online: bool) {
    f == g || (online && !f.busy && g.busy && g.fetching.Some? && g.handed == f.handed + [g.fetching.value.id])
  }

  lemma FirstIsDue(m: seq<Future>, now: nat)
    requires FutureOk(m) && m != [] && m[0].due <= now
    ensures Complete(m[0].item) && !Later(m[0].item, now) && FutureOk(m[1..])
  {
    hide Complete;
  }

  class OutboxQueue {
    var mQueue: seq<Item>
    var mFutureItems: set<Id>
    var mFutureMap: seq<Future>
    var mTotalSize: int
    var mIgnore: set<Id>
    /** The receiver of the signals. */
    var agent: MailDispatcherAgent?
    /** The items whose fetch jobs are running; there should only be one. */
    var fetching: Option<Item>
    var fetchingToo: Option<Item>

    /** All ids that have been taken out of the queue to be sent, in order. */
    ghost var handed: seq<Id>
    /** The items whose send job has succeeded. */
    ghost var sent: set<Id>
    /** Items of which no fetch has brought anything. */
    ghost var lost: set<Id>

    ghost predicate Disjoint()
      reads this`mQueue, this`mIgnore
    {
      forall i :: 0 <= i < |mQueue| ==> mQueue[i].id !in mIgnore
    }

    ghost predicate Valid()
      reads this`mTotalSize, this`mQueue, this`mIgnore, this`mFutureMap
    {
      mTotalSize == SumSizes(mQueue) && Distinct(mQueue) && Disjoint() && FutureOk(mFutureMap)
    }

    /** Everything that has been accepted, in order: what was taken out to be sent and what still waits. */
    ghost function Line(): seq<Id>
      reads this`handed, this`mQueue
    {
      handed + IdsOf(mQueue)
    }

    ghost predicate Known(id: Id)
      reads this`mIgnore, this`mQueue
    {
      id in mIgnore || HasId(mQueue, id)
    }

    ghost function KnownIds(): (ids: set<Id>)
      reads this`mIgnore, this`mQueue
      ensures forall id :: id in ids <==> Known(id)
    {
      mIgnore + QueuedIds(mQueue)
    }

    ghost function Kept(): Books
      reads this`mIgnore, this`mQueue, this`handed, this`mFutureMap, this`mFutureItems
    {
      Books(KnownIds(), Line(), mFutureMap, mFutureItems)
    }

    constructor ()
      ensures Valid() && mQueue == [] && mIgnore == {} && mFutureMap == [] && mFutureItems == {}
      ensures agent == null && fetching == None && fetchingToo == None && handed == [] && sent == {} && lost == {}
    {
      mQueue, mFutureItems, mFutureMap, mTotalSize, mIgnore := [], {}, [], 0, {};
      agent, fetching, fetchingToo, handed, sent, lost := null, None, None, [], {}, {};
    }

    /** Takes the first item out of the queue and starts to fetch it. */
    method FetchOne()
      requires Valid() && (fetching == None || fetchingToo == None)
      modifies this`mQueue, this`mTotalSize, this`mIgnore, this`fetching, this`fetchingToo, this`handed
      ensures Valid() && Line() == old(Line()) && KnownIds() == old(KnownIds())
      ensures if old(mQueue) == [] then unchanged(this)
              else && mQueue == old(mQueue)[1..]
                   && mIgnore == old(mIgnore) + {old(mQueue)[0].id} && handed == old(handed) + [old(mQueue)[0].id]
                   && old(mQueue)[0].id !in old(mIgnore)
                   && (if old(fetching) == None
                       then fetching == Some(old(mQueue)[0]) && fetchingToo == old(fetchingToo)
                       else fetching == old(fetching) && fetchingToo == Some(old(mQueue)[0]))
    {
      if mQueue == [] {
        return;
      }
      hide HasId, IdsOf, QueuedIds, SumSizes, FutureOk;
      var item := mQueue[0];
      QueuedFirst(mQueue);
      mQueue := mQueue[1..];
      mTotalSize := mTotalSize - item.size;
      mIgnore := mIgnore + {item.id};
      if fetching == None {
        fetching := Some(item);
      } else {
        fetchingToo := Some(item);
      }
      handed := handed + [item.id];
    }

    /** The queue is read again from the folder. */
    method InitQueue()
      requires Valid()
      modifies this`mTotalSize, this`mQueue
      ensures Valid() && mQueue == [] && Line() == handed
    {
      mTotalSize := 0;
      mQueue := [];
    }

    /** A message has gone from the outbox. */
    method ItemRemoved(id: Id)
      requires Valid()
      modifies this`mQueue, this`mTotalSize, this`mFutureItems
      ensures Valid()
      ensures if HasId(old(mQueue), id)
              then && mQueue == old(mQueue[..IndexOf(mQueue, id)] + mQueue[IndexOf(mQueue, id) + 1..])
                   && !HasId(mQueue, id) && mFutureItems == old(mFutureItems) - {id}
              else unchanged(this)
    {
      var index := IndexOf(mQueue, id);
      if index == |mQueue| {
        return;
      }
      SumRemove(mQueue, index);
      mTotalSize := mTotalSize - mQueue[index].size;
      mQueue := mQueue[..index] + mQueue[index + 1..];
      mFutureItems := mFutureItems - {id};
    }

    /** A failed message may be queued again; a sent one is ignored for ever. */
    method ItemProcessed(id: Id, result: bool)
      requires Valid() && id in mIgnore && id !in sent
      modifies this`mIgnore, this`sent
      ensures Valid()
      ensures mIgnore == if result then old(mIgnore) else old(mIgnore) - {id}
      ensures sent == if result then old(sent) + {id} else old(sent)
    {
      if !result {
        mIgnore := mIgnore - {id};
      } else {
        sent := sent + {id};
      }
    }

    /** Appends an item to the queue, without telling the agent. */
    method Append(item: Item)
      requires Valid() && !Known(item.id)
      modifies this`mQueue, this`mTotalSize
      ensures Valid() && mQueue == old(mQueue) + [item]
      ensures Line() == old(Line()) + [item.id] && KnownIds() == old(KnownIds()) + {item.id}
    {
      SumAppend(mQueue, item);
      QueuedAppend(mQueue, item);
      mTotalSize := mTotalSize + item.size;
      mQueue := mQueue + [item];
    }

    /**
     A message of the outbox is new or has changed. The assertion that it is not registered yet fails exactly for a
     message that waits for its time already.
     */
    method AddIfComplete(item: Item, now: nat) returns (ok: bool)
      requires agent != null && agent.mQueue == this && agent.Valid()
      modifies this`mQueue, this`mTotalSize, this`mIgnore, this`fetching, this`fetchingToo, this`handed
      modifies this`mFutureItems, this`mFutureMap
      modifies agent`mSendingInProgress, agent`mSentAnything, agent`mSentItemsSize, agent`mAborting
      modifies agent`mErrorOccurred
      ensures agent.Valid() && agent.mAborting == old(agent.mAborting) && old(KnownIds()) <= KnownIds()
      ensures old(Line()) <= Line() && Advances(old(agent.Ahead()), agent.Ahead(), agent.online)
      ensures ok <==> !Again(item, old(KnownIds()), old(mFutureItems), now)
      ensures mFutureItems <= old(mFutureItems) + {item.id}
      ensures item.id in old(KnownIds()) || !Complete(item) ==> unchanged(this) && unchanged(agent)
      ensures Kept() == AcceptedAs(old(Kept()), item, now)
      ensures Complete(item) && !Later(item, now) && item.id !in old(KnownIds()) ==>
                (item in mQueue || fetching == Some(item)) && (agent.online ==> agent.mSendingInProgress)
      decreases if Complete(item) && Later(item, now) then 2 else 0, 0
    {
      hide HasId, IdsOf, QueuedIds, SumSizes, FutureOk, Distinct, Released, EntryIds, Insert, InsertAt, DueCount,
           IndexOf, Disjoint, FreedAt;
      ok := true;
      if item.id in mIgnore {
        return;
      }
      if HasId(mQueue, item.id) {
        return;
      }
      if !item.address || item.mode.None? || item.behaviour.None? || item.transport.None? {
        return;
      }
      if !item.queued {
        return;
      }
      if item.mode.value.Manual? {
        return;
      }
      if !item.transport.value {
        return;
      }
      if item.behaviour.value.MoveToCollection? && !item.behaviour.value.valid {
        return;
      }
      if item.mode.value.sendAfter.Some? && item.mode.value.sendAfter.value > now {
        InsertIsOk(mFutureMap, item);
        mFutureMap := Insert(mFutureMap, Entry(item));
        ok := item.id !in mFutureItems;
        mFutureItems := mFutureItems + {item.id};
        CheckFuture(now);
        return;
      }
      Append(item);
      LastInRest(mQueue);
      agent.Dispatch();
    }

    /** Messages whose time has come are queued. */
    method CheckFuture(now: nat)
      requires agent != null && agent.mQueue == this && agent.Valid()
      modifies this`mQueue, this`mTotalSize, this`mIgnore, this`fetching, this`fetchingToo, this`handed
      modifies this`mFutureItems, this`mFutureMap
      modifies agent`mSendingInProgress, agent`mSentAnything, agent`mSentItemsSize, agent`mAborting
      modifies agent`mErrorOccurred
      ensures agent.Valid() && agent.mAborting == old(agent.mAborting) && old(KnownIds()) <= KnownIds()
      ensures old(Line()) <= Line() && Advances(old(agent.Ahead()), agent.Ahead(), agent.online)
      ensures Kept() == FreedAt(old(Kept()), now)
      ensures mFutureItems <= old(mFutureItems)
      decreases 1, 0
    {
      hide HasId, IdsOf, QueuedIds, SumSizes, FutureOk, Distinct, Released, EntryIds, DueCount, IndexOf, Complete;
      hide Later, Valid, Known, KnownIds, MailDispatcherAgent.Valid, Disjoint, Line, FreedAt;
      while mFutureMap != []
        invariant agent == old(agent) && agent.Valid() && agent.mAborting == old(agent.mAborting)
        invariant FreedAt(Kept(), now) == FreedAt(old(Kept()), now) && old(Line()) <= Line()
        invariant old(KnownIds()) <= KnownIds() && Advances(old(agent.Ahead()), agent.Ahead(), agent.online)
        invariant mFutureItems <= old(mFutureItems)
        decreases |mFutureMap|
      {
        if mFutureMap[0].due > now {
          break;
        }
        FreedFirst(Kept(), now);
        CheckFirst(now);
      }
      FreedNothing(Kept(), now);
    }

    /** The first entry is due. */
    method CheckFirst(now: nat)
      requires agent != null && agent.mQueue == this && agent.Valid()
      requires mFutureMap != [] && mFutureMap[0].due <= now
      modifies this`mQueue, this`mTotalSize, this`mIgnore, this`fetching, this`fetchingToo, this`handed
      modifies this`mFutureItems, this`mFutureMap
      modifies agent`mSendingInProgress, agent`mSentAnything, agent`mSentItemsSize, agent`mAborting
      modifies agent`mErrorOccurred
      ensures agent.Valid() && agent.mAborting == old(agent.mAborting)
      ensures Kept() == FirstFreed(old(Kept())) && Advances(old(agent.Ahead()), agent.Ahead(), agent.online)
      decreases 0, 1
    {
      FirstIsDue(mFutureMap, now);
      hide HasId, IdsOf, QueuedIds, SumSizes, Distinct, Released, EntryIds, IndexOf, Disjoint, Line, FutureOk,
           Complete, Later, Insert, FreedAt;
      var item := mFutureMap[0].item;
      if item.id in mFutureItems {
        var ok := AddIfComplete(item, now);
        assert ok;
        mFutureItems := mFutureItems - {item.id};
      }
      mFutureMap := mFutureMap[1..];
    }

    /**
     The items of the outbox have been read, or could not be: one after the other they are accepted, to be sent or to
     wait. The assertion holds for all of them exactly if none is accepted for the future that is registered at its
     turn.
     */
    method CollectionFetched(error: bool, items: seq<Item>, now: nat) returns (ok: bool)
      requires agent != null && agent.mQueue == this && agent.Valid()
      modifies this`mQueue, this`mTotalSize, this`mIgnore, this`fetching, this`fetchingToo, this`handed
      modifies this`mFutureItems, this`mFutureMap
      modifies agent`mSendingInProgress, agent`mSentAnything, agent`mSentItemsSize, agent`mAborting
      modifies agent`mErrorOccurred
      ensures agent.Valid() && agent.mAborting == old(agent.mAborting)
      ensures error ==> ok && unchanged(this) && unchanged(agent)
      ensures old(Line()) <= Line() && old(KnownIds()) <= KnownIds()
      ensures Advances(old(agent.Ahead()), agent.Ahead(), agent.online)
      ensures !error ==> Kept() == ReadAs(old(Kept()), items, now)
      ensures !error ==> (ok <==> forall i :: 0 <= i < |items| ==> !AgainAt(old(Kept()), items, i, now))
    {
      hide HasId, IdsOf, QueuedIds, SumSizes, Valid, Insert, Complete, Later, Line, Known, KnownIds,
           MailDispatcherAgent.Valid, AcceptedAs;
      ok := true;
      if error {
        return;
      }
      var i := 0;
      while i < |items|
        invariant 0 <= i <= |items|
        invariant agent == old(agent) && agent.Valid() && agent.mAborting == old(agent.mAborting)
        invariant old(Line()) <= Line() && old(KnownIds()) <= KnownIds()
        invariant Advances(old(agent.Ahead()), agent.Ahead(), agent.online)
        invariant Kept() == ReadAs(old(Kept()), items[..i], now)
        invariant ok <==> forall k :: 0 <= k < i ==> !AgainAt(old(Kept()), items, k, now)
      {
        assert items[..i + 1][..i] == items[..i];
        assert AgainAt(old(Kept()), items, i, now) == Again(items[i], KnownIds(), mFutureItems, now);
        var holds := AddIfComplete(items[i], now);
        ok := ok && holds;
        i := i + 1;
      }
      assert items[..i] == items;
    }

    /** The fetch of an item has brought the item, or nothing. */
    method ItemFetched(result: Option<Item>)
      requires agent != null && agent.mQueue == this && agent.Valid() && fetching.Some?
      requires result.Some? ==> result.value.id == fetching.value.id && result.value.behaviour.Some?
      modifies this`mQueue, this`mTotalSize, this`mIgnore, this`fetching, this`fetchingToo, this`handed, this`lost
      modifies agent`mCurrentJob, agent`mCurrentItem, agent`stalled
      ensures agent.Valid() && Line() == old(Line())
      ensures result.Some? ==>
                && fetching == None && agent.mCurrentItem == result && agent.mCurrentJob != null
                && fresh(agent.mCurrentJob) && agent.mCurrentJob.facts == NOTHING_YET
                && mQueue == old(mQueue) && mIgnore == old(mIgnore) && lost == old(lost) && !agent.stalled
                && handed == old(handed)
      ensures result.None? ==>
                && agent.mCurrentJob == null && agent.mCurrentItem == None
                && lost == old(lost) + {old(fetching).value.id}
                && NextFetched(old(mQueue), old(handed), old(mIgnore))
    {
      var id := fetching.value.id;
      fetching := None;
      if result.None? {
        lost := lost + {id};
        agent.stalled := mQueue == [];
        FetchOne();
      } else {
        agent.ItemFetched(result.value);
      }
    }

    /** The first item of the queue, if there is one, is fetched next; otherwise the agent stalls. */
    ghost predicate NextFetched(q: seq<Item>, taken: seq<Id>, ignored: set<Id>)
      requires agent != null
      reads this`agent, this`mQueue, this`mIgnore, this`handed, this`fetching, agent`stalled
    {
      && (agent.stalled <==> q == [])
      && if q == [] then mQueue == q && fetching == None && handed == taken && mIgnore == ignored
         else && mQueue == q[1..] && fetching == Some(q[0]) && handed == taken + [q[0].id]
              && mIgnore == ignored + {q[0].id}
    }

    /**
     The fetch of an item has ended with an error: as it has not brought an item either, the next one is fetched
     twice. Two fetches are running afterwards exactly if two items were waiting.
     */
    method ItemFetchFailed()
      requires agent != null && agent.mQueue == this && agent.Valid() && fetching.Some?
      modifies this`mQueue, this`mTotalSize, this`mIgnore, this`fetching, this`fetchingToo, this`handed, this`lost
      modifies agent`stalled
      ensures Valid() && Line() == old(Line()) && lost == old(lost) + {old(fetching).value.id}
      ensures fetchingToo.Some? <==> |old(mQueue)| >= 2
      ensures |old(mQueue)| < 2 ==> agent.Valid() && NextFetched(old(mQueue), old(handed), old(mIgnore))
      ensures |old(mQueue)| >= 2 ==>
                && fetching == Some(old(mQueue)[0]) && fetchingToo == Some(old(mQueue)[1])
                && mQueue == old(mQueue)[2..] && handed == old(handed) + [old(mQueue)[0].id, old(mQueue)[1].id]
    {
      hide HasId, IdsOf, QueuedIds, SumSizes, FutureOk, Distinct, Disjoint;
      var id := fetching.value.id;
      fetching := None;
      lost := lost + {id};
      agent.stalled := mQueue == [];
      FetchOne();
      FetchOne();
    }
  }

  class MailDispatcherAgent {
    const mQueue: OutboxQueue
    var mCurrentJob: SendJob?
    var mCurrentItem: Option<Item>
    var mAborting: bool
    var mSendingInProgress: bool
    var mSentAnything: bool
    var mErrorOccurred: bool
    var mSentItemsSize: nat
    var online: bool
    /** Calls of `Dispatch` that have been scheduled. */
    var timers: nat
    /** A fetch that brought nothing has found the queue empty. */
    ghost var stalled: bool

    ghost function Ahead(): Front
      reads this`mSendingInProgress, mQueue`handed, mQueue`fetching
    {
      Front(mQueue.handed, mQueue.fetching, mSendingInProgress)
    }

    /** The items that are being fetched or sent. */
    ghost function InFlight(): set<Id>
      reads this`mCurrentItem, mQueue`fetching
    {
      IdOf(mQueue.fetching) + IdOf(mCurrentItem)
    }

    /** The ignored items are those sent, those in flight, and those lost, each in one of these only. */
    ghost predicate IgnoredExactly()
      reads this`mCurrentItem, mQueue`fetching, mQueue`mIgnore, mQueue`sent, mQueue`lost
    {
      && mQueue.mIgnore == mQueue.sent + mQueue.lost + InFlight()
      && mQueue.sent !! InFlight()
      && mQueue.lost !! InFlight()
      && mQueue.sent !! mQueue.lost
    }

    /** While something is being sent there is one fetch or one live send job, which knows of an abort. */
    ghost predicate OneAtATime()
      reads this`mSendingInProgress, this`stalled, this`mCurrentJob, this`mCurrentItem, this`mAborting
      reads mQueue`fetching, mQueue`fetchingToo, mCurrentJob
    {
      && (mSendingInProgress <==> mQueue.fetching.Some? || mCurrentJob != null || stalled)
      && !(mQueue.fetching.Some? && mCurrentJob != null)
      && (stalled ==> mQueue.fetching.None? && mCurrentJob == null)
      && mQueue.fetchingToo == None
      && (mCurrentJob != null <==> mCurrentItem.Some?)
      && (mCurrentJob != null ==>
            && mCurrentJob.Valid() && !mCurrentJob.finished && mCurrentJob.mItem == mCurrentItem.value
            && mCurrentJob.mAborting == mAborting)
    }

    /** Whoever could go on will be woken up. */
    ghost predicate Awake()
      reads this`online, this`mSendingInProgress, this`mAborting, this`timers, mQueue`mQueue
    {
      online && !mSendingInProgress && (mQueue.mQueue != [] || mAborting) ==> timers > 0
    }

    ghost predicate Safe()
      reads this, mQueue, mCurrentJob
    {
      mQueue.agent == this && mQueue.Valid() && IgnoredExactly() && OneAtATime()
    }

    ghost predicate Valid()
      reads this, mQueue, mCurrentJob
    {
      Safe() && Awake()
    }

    /** The state as a value. */
    ghost function Now(): State
      reads this, mQueue, mCurrentJob
    {
      State(mQueue.mQueue, mQueue.mIgnore, mQueue.mFutureMap, mQueue.mFutureItems, Ahead(), mQueue.sent, mQueue.lost,
            mCurrentItem,
            if mCurrentJob == null then None
            else Some(JobState(mCurrentJob.mCurrentJob, mCurrentJob.mInterface, mCurrentJob.scheduled,
                               mCurrentJob.facts)),
            mAborting, online, timers, stalled)
    }

    constructor ()
      ensures Valid() && fresh(mQueue) && mCurrentJob == null && Now() == START
    {
      mQueue := new OutboxQueue();
      mCurrentJob, mCurrentItem, mAborting, mSendingInProgress := null, None, false, false;
      mSentAnything, mErrorOccurred, mSentItemsSize, online, timers, stalled := false, false, 0, false, 0, false;
      new;
      mQueue.agent := this;
    }

    /** Sends the next message, or ends the series of messages. */
    method Dispatch()
      requires Safe()
      modifies mQueue`mQueue, mQueue`mTotalSize, mQueue`mIgnore, mQueue`fetching, mQueue`fetchingToo, mQueue`handed
      modifies this`mSendingInProgress, this`mSentAnything, this`mSentItemsSize, this`mAborting, this`mErrorOccurred
      ensures Valid()
      ensures mQueue.Line() == old(mQueue.Line()) && mQueue.KnownIds() == old(mQueue.KnownIds())
      ensures Advances(old(Ahead()), Ahead(), online)
      ensures if !online || old(mSendingInProgress) then unchanged(this) && unchanged(mQueue)
              else if old(mQueue.mQueue) != [] then
                && mSendingInProgress && mSentAnything && mAborting == old(mAborting)
                && mErrorOccurred == old(mErrorOccurred)
                && mSentItemsSize == (if old(mSentAnything) then old(mSentItemsSize) else 0)
                && mQueue.fetching == Some(old(mQueue.mQueue)[0]) && mQueue.mQueue == old(mQueue.mQueue)[1..]
                && mQueue.handed == old(mQueue.handed) + [old(mQueue.mQueue)[0].id]
                && mQueue.mIgnore == old(mQueue.mIgnore) + {old(mQueue.mQueue)[0].id}
              else && unchanged(mQueue) && !mSendingInProgress && !mAborting && !mSentAnything && !mErrorOccurred
                   && mSentItemsSize == old(mSentItemsSize)
    {
      hide HasId, IdsOf, QueuedIds, SumSizes, FutureOk, Distinct;
      if !online || mSendingInProgress {
        return;
      }
      if mQueue.mQueue != [] {
        if !mSentAnything {
          mSentAnything := true;
          mSentItemsSize := 0;
        }
        mSendingInProgress := true;
        mQueue.FetchOne();
      } else {
        if mAborting {
          mAborting := false;
          mSentAnything := false;
        } else {
          if mSentAnything {
            mSentAnything := false;
          }
        }
        mErrorOccurred := false;
      }
    }

    /** A scheduled call of `Dispatch` comes; afterwards an online agent is sending or has nothing to do. */
    method TimerFires()
      requires Valid() && timers > 0
      modifies mQueue`mQueue, mQueue`mTotalSize, mQueue`mIgnore, mQueue`fetching, mQueue`fetchingToo, mQueue`handed
      modifies this`mSendingInProgress, this`mSentAnything, this`mSentItemsSize, this`mAborting
      modifies this`mErrorOccurred, this`timers
      ensures Valid() && DispatchStep(old(Now()), Now())
      ensures online ==> mSendingInProgress || (mQueue.mQueue == [] && !mAborting)
      ensures if !online || old(mSendingInProgress)
              then mSentAnything == old(mSentAnything) && mErrorOccurred == old(mErrorOccurred)
              else mSentAnything == mSendingInProgress && mErrorOccurred == (old(mErrorOccurred) && mSendingInProgress)
      ensures mSentItemsSize ==
              if online && !old(mSendingInProgress) && mSendingInProgress && !old(mSentAnything) then 0
              else old(mSentItemsSize)
    {
      hide HasId, IdsOf, QueuedIds, SumSizes, FutureOk, Distinct;
      timers := timers - 1;
      Dispatch();
    }

    method SetOnline(value: bool)
      requires Valid()
      modifies this`online, this`timers
      ensures Valid() && online == value && timers == old(timers) + if value then 1 else 0
    {
      online := value;
      if value {
        timers := timers + 1;
      }
    }

    /** Cancels what is being sent and what is queued. */
    method Abort(killed: bool, sentMail: bool)
      requires Valid()
      modifies this`mAborting, mCurrentJob
      ensures Valid()
      ensures mAborting <==> old(mAborting) || (online && (mSendingInProgress || mQueue.mQueue != []))
      ensures mCurrentJob != null ==>
                && mCurrentJob.facts == old(mCurrentJob.facts)
                && mCurrentJob.mCurrentJob == if old(mCurrentJob.mCurrentJob).Transport? && killed && mAborting
                                                   && !old(mAborting)
                                              then StoreResult(false) else old(mCurrentJob.mCurrentJob)
    {
      if !online {
        return;
      }
      if mAborting {
        return;
      }
      if !mSendingInProgress && mQueue.mQueue == [] {
        return;
      }
      mAborting := true;
      if mCurrentJob != null {
        mCurrentJob.Abort(killed, sentMail);
      }
    }

    /** The item is here: a send job is made for it, which learns of an abort before it starts. */
    method ItemFetched(item: Item)
      requires mSendingInProgress && mCurrentItem.None? && mCurrentJob == null && item.behaviour.Some?
      modifies this`mCurrentJob, this`mCurrentItem
      ensures mCurrentItem == Some(item) && mCurrentJob != null && fresh(mCurrentJob)
      ensures mCurrentJob.Valid() && mCurrentJob.scheduled && !mCurrentJob.finished && mCurrentJob.mItem == item
      ensures mCurrentJob.mAborting == mAborting && mCurrentJob.facts == NOTHING_YET
    {
      mCurrentItem := Some(item);
      mCurrentJob := new SendJob(item);
      if mAborting {
        mCurrentJob.SetMarkAborted();
      }
    }

    /** Any callback of the send job; at the end of the job its result is taken. */
    method JobEvent(e: JobEvent) returns (ok: bool)
      requires Valid() && mCurrentJob != null && mCurrentJob.Expects(e)
      modifies mCurrentJob, mQueue`mIgnore, mQueue`sent
      modifies this`mCurrentJob, this`mCurrentItem, this`mSendingInProgress, this`mSentItemsSize
      modifies this`mErrorOccurred, this`timers
      ensures Valid() && JobStep(old(Now()), e, Now())
      ensures mCurrentJob == null || mCurrentJob == old(mCurrentJob)
      ensures ok <==> !(e.CollectionFetched? && !e.found && !e.sentMail)
      ensures mSentItemsSize ==
              old(mSentItemsSize) + if mCurrentJob == null then old(mCurrentItem).value.size else 0
      ensures mCurrentJob == null ==>
                var id := old(mCurrentItem).value.id; mQueue.Known(id) <==> id in mQueue.sent
    {
      hide IdsOf, QueuedIds, SumSizes, FutureOk, Distinct, Told, Ends, Success;
      ok := mCurrentJob.Handle(e);
      if mCurrentJob.finished {
        SendResult();
      }
    }

    /** The send job has emitted its result. */
    ghost predicate Ending()
      reads this, mQueue, mCurrentJob
    {
      && mQueue.agent == this && mQueue.Valid() && IgnoredExactly()
      && mSendingInProgress && mQueue.fetching.None? && mQueue.fetchingToo.None? && !stalled
      && mCurrentJob != null && mCurrentItem == Some(mCurrentJob.mItem) && mCurrentJob.Valid() && mCurrentJob.finished
    }

    method SendResult()
      requires Ending()
      modifies mQueue`mIgnore, mQueue`sent
      modifies this`mCurrentJob, this`mCurrentItem, this`mSendingInProgress, this`mSentItemsSize
      modifies this`mErrorOccurred, this`timers
      ensures Valid() && mCurrentJob == null && !mSendingInProgress && timers == old(timers) + 1
      ensures mSentItemsSize == old(mSentItemsSize) + old(mCurrentItem).value.size
      ensures var success := old(Success(mCurrentJob.facts, mCurrentJob.mItem)); var id := old(mCurrentItem).value.id;
              && mErrorOccurred == (old(mErrorOccurred) || !success)
              && (mQueue.Known(id) <==> success)
              && mQueue.sent == old(mQueue.sent) + (if success then {id} else {})
              && mQueue.mIgnore == old(mQueue.mIgnore) - (if success then {} else {id})
    {
      hide IdsOf, QueuedIds, SumSizes, FutureOk, Distinct, Success;
      var failed, item := mCurrentJob.error, mCurrentItem.value;
      mCurrentJob := null;
      mSentItemsSize := mSentItemsSize + item.size;
      mQueue.ItemProcessed(item.id, !failed);
      mCurrentItem := None;
      if failed {
        mErrorOccurred := true;
      }
      mSendingInProgress := false;
      timers := timers + 1;
    }
  }

  datatype JobState = JobState(current: Job, interface: bool, scheduled: bool, facts: Facts)

  /** The state of queue, agent and send job. */
  datatype State = State(queue: seq<Item>, ignored: set<Id>, future: seq<Future>, registered: set<Id>, front: Front,
                         sent: set<Id>, lost: set<Id>, sending: Option<Item>, job: Option<JobState>, aborting: bool,
                         online: bool, timers: nat, stalled: bool)

  const START := State([], {}, [], {}, Front([], None, false), {}, {}, None, None, false, false, 0, false)

  ghost function IdOf(item: Option<Item>): set<Id> {
    if item.Some? then {item.value.id} else {}
  }

  ghost function InFlight(s: State): set<Id> {
    IdOf(s.front.fetching) + IdOf(s.sending)
  }

  ghost function Line(s: State): seq<Id> {
    s.front.handed + IdsOf(s.queue)
  }

  ghost function KnownIds(s: State): set<Id> {
    s.ignored + QueuedIds(s.queue)
  }

  ghost function BooksOf(s: State): Books {
    Books(KnownIds(s), Line(s), s.future, s.registered)
  }

  /** What every state of a run satisfies. */
  ghost predicate Sound(s: State) {
    && Distinct(s.queue) && (forall i :: 0 <= i < |s.queue| ==> s.queue[i].id !in s.ignored) && FutureOk(s.future)
    && s.ignored == s.sent + s.lost + InFlight(s)
    && s.sent !! InFlight(s) && s.lost !! InFlight(s) && s.sent !! s.lost
    && (s.front.busy <==> s.front.fetching.Some? || s.sending.Some? || s.stalled)
    && !(s.front.fetching.Some? && s.sending.Some?)
    && (s.stalled ==> s.front.fetching.None? && s.sending.None?)
    && (s.sending.Some? <==> s.job.Some?)
    && (s.online && !s.front.busy && (s.queue != [] || s.aborting) ==> s.timers > 0)
  }

  /** Whatever can happen to a running agent. */
  datatype Event =
    | ItemAdded(item: Item, now: nat)
    | ItemGone(id: Id)
    | OutboxCleared
    | OutboxRead(error: bool, items: seq<Item>, now: nat)
    | FutureTimer(now: nat)
    | DispatchTimer
    | Online(value: bool)
    | AbortRequested(killed: bool, sentMail: bool)
    | Fetched(result: Option<Item>)
    | FetchFailed
    | JobCallback(e: JobEvent)

  /** The queue may have got longer, and the agent may have taken an item out. */
  ghost predicate Queued(s: State, t: State) {
    && t == s.(queue := t.queue, ignored := t.ignored, future := t.future, registered := t.registered, front := t.front)
    && Line(s) <= Line(t) && KnownIds(s) <= KnownIds(t) && Advances(s.front, t.front, s.online)
  }

  ghost predicate AddedStep(s: State, item: Item, now: nat, t: State) {
    var known := item.id in KnownIds(s);
    && Queued(s, t)
    && (known || !Complete(item) ==> t == s)
    && (!known && Complete(item) && !Later(item, now) && s.online ==> t.front.busy)
    && BooksOf(t) == AcceptedAs(BooksOf(s), item, now)
  }

  ghost predicate GoneStep(s: State, id: Id, t: State) {
    if HasId(s.queue, id) then
      var i := IndexOf(s.queue, id);
      t == s.(queue := s.queue[..i] + s.queue[i + 1..], registered := s.registered - {id}) && !HasId(t.queue, id)
    else t == s
  }

  ghost predicate ReadStep(s: State, error: bool, items: seq<Item>, now: nat, t: State) {
    && Queued(s, t) && (error ==> t == s)
    && (!error ==> BooksOf(t) == ReadAs(BooksOf(s), items, now))
  }

  ghost predicate FutureStep(s: State, now: nat, t: State) {
    && Queued(s, t)
    && BooksOf(t) == FreedAt(BooksOf(s), now)
  }

  /** The first item of the queue is taken out and fetched. */
  ghost function Taken(s: State): State
    requires s.queue != []
  {
    var item := s.queue[0];
    s.(queue := s.queue[1..], ignored := s.ignored + {item.id},
       front := Front(s.front.handed + [item.id], Some(item), true))
  }

  ghost predicate DispatchStep(s: State, t: State) {
    if s.timers == 0 then t == s else
      var s := s.(timers := s.timers - 1);
      if !s.online || s.front.busy then t == s
      else if s.queue != [] then t == Taken(s)
      else t == s.(aborting := false)
  }

  ghost predicate OnlineStep(s: State, value: bool, t: State) {
    t == s.(online := value, timers := s.timers + if value then 1 else 0)
  }

  /** An abort changes nothing of what is true of the message. */
  ghost predicate AbortStep(s: State, t: State) {
    && t == s.(aborting := s.aborting || (s.online && (s.front.busy || s.queue != [])), job := t.job)
    && (s.job.Some? <==> t.job.Some?)
    && (s.job.Some? ==> t.job.value.facts == s.job.value.facts)
  }

  /** A lost item stays ignored; without a next one the agent stalls. */
  ghost predicate NothingStep(s: State, t: State)
    requires s.front.fetching.Some?
  {
    var u := s.(lost := s.lost + IdOf(s.front.fetching), front := s.front.(fetching := None));
    t == if s.queue == [] then u.(stalled := true) else Taken(u)
  }

  ghost predicate FetchedStep(s: State, result: Option<Item>, t: State) {
    var f := s.front.fetching;
    if f.None? || (result.Some? && (result.value.id != f.value.id || result.value.behaviour.None?)) then t == s
    else if result.None? then NothingStep(s, t)
    else
      && t == s.(front := s.front.(fetching := None), sending := result, job := t.job)
      && t.job.Some? && t.job.value.facts == NOTHING_YET
  }

  ghost predicate FailedStep(s: State, t: State) {
    if s.front.fetching.None? then t == s else NothingStep(s, t)
  }

  /** A callback tells what is true of the message; at the end of the job it has been sent or may be tried again. */
  ghost predicate JobStep(s: State, e: JobEvent, t: State) {
    if s.job.None? || s.sending.None? || !Answers(e, s.job.value.current, s.job.value.interface, s.job.value.scheduled)
    then t == s
    else
      var facts, item := Told(s.job.value.facts, e, s.aborting), s.sending.value;
      if !Ends(e, item) then
        t == s.(job := t.job) && t.job.Some? && t.job.value.facts == facts
      else
        var success := Success(facts, item);
        t == s.(job := None, sending := None, front := s.front.(busy := false), timers := s.timers + 1,
                sent := s.sent + (if success then {item.id} else {}),
                ignored := s.ignored - (if success then {} else {item.id}))
  }

  ghost predicate Step(s: State, event: Event, t: State) {
    match event
    case ItemAdded(item, now) => AddedStep(s, item, now, t)
    case ItemGone(id) => GoneStep(s, id, t)
    case OutboxCleared => t == s.(queue := [])
    case OutboxRead(error, items, now) => ReadStep(s, error, items, now, t)
    case FutureTimer(now) => FutureStep(s, now, t)
    case DispatchTimer => DispatchStep(s, t)
    case Online(value) => OnlineStep(s, value, t)
    case AbortRequested(_, _) => AbortStep(s, t)
    case Fetched(result) => FetchedStep(s, result, t)
    case FetchFailed => FailedStep(s, t)
    case JobCallback(e) => JobStep(s, e, t)
  }

  /** A failed fetch while two items are waiting. */
  predicate FetchesTwice(s: State, event: Event) {
    event.FetchFailed? && s.front.fetching.Some? && |s.queue| >= 2
  }

  lemma SoundNow(agent: MailDispatcherAgent)
    requires agent.Valid()
    ensures Sound(agent.Now()) && agent.mQueue.mTotalSize == SumSizes(agent.mQueue.mQueue)
    ensures agent.Now().queue == agent.mQueue.mQueue && agent.mQueue.fetchingToo.None?
  {
    hide SumSizes, FutureOk, Distinct;
  }

  lemma LineNow(agent: MailDispatcherAgent)
    ensures Line(agent.Now()) == agent.mQueue.Line() && KnownIds(agent.Now()) == agent.mQueue.KnownIds()
    ensures BooksOf(agent.Now()) == agent.mQueue.Kept()
    ensures agent.Now().front == agent.Ahead()
  {
  }

  /** A new item. */
  method DeliverAdded(agent: MailDispatcherAgent, item: Item, now: nat)
    requires agent.Valid()
    modifies agent, agent.mQueue
    ensures agent.Valid() && agent.mCurrentJob == old(agent.mCurrentJob)
    ensures AddedStep(old(agent.Now()), item, now, agent.Now())
  {
    assert agent.mQueue.agent == agent;
    LineNow(agent);
    hide SumSizes, Distinct, FutureOk, HasId, IdsOf, QueuedIds, Complete, Later, AcceptedAs, Advances,
         MailDispatcherAgent.Valid, Again, OutboxQueue.Line, OutboxQueue.KnownIds, OutboxQueue.Known, Line, KnownIds,
         BooksOf, OutboxQueue.Kept, AddedStep;
    ghost var s := agent.Now();
    var _ := agent.mQueue.AddIfComplete(item, now);
    LineNow(agent);
    IsAddedStep(s, item, now, agent.Now());
  }

  lemma IsAddedStep(s: State, item: Item, now: nat, t: State)
    requires t == s.(queue := t.queue, ignored := t.ignored, future := t.future, registered := t.registered,
                     front := t.front)
    requires Line(s) <= Line(t) && KnownIds(s) <= KnownIds(t) && Advances(s.front, t.front, s.online)
    requires item.id in KnownIds(s) || !Complete(item) ==> t == s
    requires item.id !in KnownIds(s) && Complete(item) && !Later(item, now) && s.online ==> t.front.busy
    requires BooksOf(t) == AcceptedAs(BooksOf(s), item, now)
    ensures AddedStep(s, item, now, t)
  {
  }

  /** The answer of the outbox. */
  method DeliverRead(agent: MailDispatcherAgent, error: bool, items: seq<Item>, now: nat)
    requires agent.Valid()
    modifies agent, agent.mQueue
    ensures agent.Valid() && agent.mCurrentJob == old(agent.mCurrentJob)
    ensures ReadStep(old(agent.Now()), error, items, now, agent.Now())
  {
    assert agent.mQueue.agent == agent;
    LineNow(agent);
    hide SumSizes, Distinct, FutureOk, HasId, IdsOf, QueuedIds, Complete, Later, FreedAt, ReadAs, Advances, IndexOf,
         MailDispatcherAgent.Valid, OutboxQueue.Line, OutboxQueue.KnownIds, OutboxQueue.Known, Line, KnownIds;
    ghost var s := agent.Now();
    var _ := agent.mQueue.CollectionFetched(error, items, now);
    ghost var t := agent.Now();
    assert t == s.(queue := t.queue, ignored := t.ignored, future := t.future, registered := t.registered,
                   front := t.front);
    LineNow(agent);
  }

  /** Items whose time has come. */
  method DeliverFuture(agent: MailDispatcherAgent, now: nat)
    requires agent.Valid()
    modifies agent, agent.mQueue
    ensures agent.Valid() && agent.mCurrentJob == old(agent.mCurrentJob)
    ensures FutureStep(old(agent.Now()), now, agent.Now())
  {
    assert agent.mQueue.agent == agent;
    LineNow(agent);
    hide SumSizes, Distinct, FutureOk, HasId, IdsOf, QueuedIds, Complete, Later, FreedAt, ReadAs, Advances, IndexOf,
         MailDispatcherAgent.Valid, OutboxQueue.Line, OutboxQueue.KnownIds, OutboxQueue.Known, Line, KnownIds;
    ghost var s := agent.Now();
    agent.mQueue.CheckFuture(now);
    ghost var t := agent.Now();
    assert t == s.(queue := t.queue, ignored := t.ignored, future := t.future, registered := t.registered,
                   front := t.front);
    LineNow(agent);
  }

  /** The queue becomes shorter. */
  method DeliverGone(agent: MailDispatcherAgent, event: Event)
    requires agent.Valid() && (event.ItemGone? || event.OutboxCleared?)
    modifies agent.mQueue
    ensures agent.Valid() && Step(old(agent.Now()), event, agent.Now())
  {
    hide SumSizes, Distinct, FutureOk, HasId, IdsOf, QueuedIds, IndexOf, OutboxQueue.Disjoint;
    match event
    case ItemGone(id) => agent.mQueue.ItemRemoved(id);
    case OutboxCleared => agent.mQueue.InitQueue();
  }

  /** The end of a fetch, if one is running. */
  method DeliverFetch(agent: MailDispatcherAgent, event: Event)
    requires agent.Valid() && (event.Fetched? || event.FetchFailed?)
    modifies agent, agent.mQueue
    ensures agent.mCurrentJob == null || agent.mCurrentJob == old(agent.mCurrentJob) || fresh(agent.mCurrentJob)
    ensures agent.mQueue.fetchingToo.Some? <==> FetchesTwice(old(agent.Now()), event)
    ensures agent.mQueue.fetchingToo.None? ==> agent.Valid() && Step(old(agent.Now()), event, agent.Now())
  {
    hide SumSizes, Distinct, FutureOk, HasId, IdsOf, QueuedIds, OutboxQueue.Disjoint;
    var fetching := agent.mQueue.fetching;
    if fetching.None? {
      return;
    }
    match event
    case FetchFailed => agent.mQueue.ItemFetchFailed();
    case Fetched(result) =>
      if result.Some? && (result.value.id != fetching.value.id || result.value.behaviour.None?) {
        return;
      }
      agent.mQueue.ItemFetched(result);
  }

  /** Any other event. */
  method DeliverOther(agent: MailDispatcherAgent, event: Event)
    requires agent.Valid()
    requires event.DispatchTimer? || event.Online? || event.AbortRequested?
    modifies agent, agent.mQueue, agent.mCurrentJob
    ensures agent.mCurrentJob == null || agent.mCurrentJob == old(agent.mCurrentJob)
    ensures agent.Valid() && Step(old(agent.Now()), event, agent.Now())
  {
    hide SumSizes, Distinct, FutureOk, HasId, IdsOf, QueuedIds, OutboxQueue.Disjoint;
    match event
    case DispatchTimer =>
      if agent.timers > 0 {
        agent.TimerFires();
      }
    case Online(value) => agent.SetOnline(value);
    case AbortRequested(killed, sentMail) => agent.Abort(killed, sentMail);
  }

  /** A callback of the send job, if it waits for it. */
  method DeliverCallback(agent: MailDispatcherAgent, e: JobEvent)
    requires agent.Valid()
    modifies agent, agent.mQueue, agent.mCurrentJob
    ensures agent.mCurrentJob == null || agent.mCurrentJob == old(agent.mCurrentJob)
    ensures agent.Valid() && JobStep(old(agent.Now()), e, agent.Now())
  {
    hide SumSizes, Distinct, FutureOk, HasId, IdsOf, QueuedIds, OutboxQueue.Disjoint, SendJob.Valid, Told, Ends;
    hide Success;
    if agent.mCurrentJob != null && agent.mCurrentJob.Expects(e) {
      var _ := agent.JobEvent(e);
    }
  }

  /** One event, if it can happen at all; when a failed fetch is repeated twice the agent is out of order. */
  method Deliver(agent: MailDispatcherAgent, event: Event)
    requires agent.Valid()
    modifies agent, agent.mQueue, agent.mCurrentJob
    ensures agent.mCurrentJob == null || agent.mCurrentJob == old(agent.mCurrentJob) || fresh(agent.mCurrentJob)
    ensures agent.mQueue.fetchingToo.Some? <==> FetchesTwice(old(agent.Now()), event)
    ensures agent.mQueue.fetchingToo.None? ==> agent.Valid() && Step(old(agent.Now()), event, agent.Now())
  {
    hide MailDispatcherAgent.Now, OutboxQueue.Valid, AddedStep, GoneStep, ReadStep, FutureStep, DispatchStep,
         OnlineStep, AbortStep, FetchedStep, FailedStep, JobStep;
    match event
    case ItemAdded(item, now) => DeliverAdded(agent, item, now);
    case OutboxRead(error, items, now) => DeliverRead(agent, error, items, now);
    case FutureTimer(now) => DeliverFuture(agent, now);
    case ItemGone(_) => DeliverGone(agent, event);
    case OutboxCleared => DeliverGone(agent, event);
    case Fetched(_) => DeliverFetch(agent, event);
    case FetchFailed => DeliverFetch(agent, event);
    case JobCallback(e) => DeliverCallback(agent, e);
    case _ => DeliverOther(agent, event);
  }

  /** A run takes its steps from sound state to sound state. */
  ghost predicate IsRun(trace: seq<State>, events: seq<Event>) {
    && 0 < |trace| <= |events| + 1 && trace[0] == START
    && (forall i :: 0 <= i < |trace| - 1 ==> Step(trace[i], events[i], trace[i + 1]))
    && (forall i :: 0 <= i < |trace| ==> Sound(trace[i]))
  }

  /**
   Any run of a new agent, where answers come only to questions that have been asked: every event takes its step. The
   run stops early only where a failed fetch would be followed by two fetches.
   */
  method Run(events: seq<Event>) returns (queue: seq<Item>, size: int, delivered: nat, ghost trace: seq<State>)
    ensures delivered <= |events| && |trace| == delivered + 1 && IsRun(trace, events)
    ensures forall i :: 0 <= i < delivered ==> !FetchesTwice(trace[i], events[i])
    ensures delivered < |events| ==> FetchesTwice(trace[delivered], events[delivered])
    ensures queue == trace[delivered].queue && size == SumSizes(queue)
  {
    hide SumSizes, Step, Sound, MailDispatcherAgent.Valid, MailDispatcherAgent.Now, FetchesTwice;
    var agent := new MailDispatcherAgent();
    delivered, trace := 0, [agent.Now()];
    queue, size := agent.mQueue.mQueue, agent.mQueue.mTotalSize;
    SoundNow(agent);
    while delivered < |events|
      invariant delivered <= |events| && |trace| == delivered + 1
      invariant trace[0] == START && trace[delivered] == agent.Now()
      invariant forall i :: 0 <= i < delivered ==> Step(trace[i], events[i], trace[i + 1])
      invariant forall i :: 0 <= i <= delivered ==> Sound(trace[i])
      invariant forall i :: 0 <= i < delivered ==> !FetchesTwice(trace[i], events[i])
      invariant fresh(agent) && fresh(agent.mQueue) && agent.Valid() && agent.mQueue.fetchingToo.None?
      invariant agent.mCurrentJob != null ==> fresh(agent.mCurrentJob)
      invariant queue == agent.mQueue.mQueue && size == SumSizes(queue) && queue == trace[delivered].queue
    {
      Deliver(agent, events[delivered]);
      if agent.mQueue.fetchingToo.Some? {
        return;
      }
      SoundNow(agent);
      trace := trace + [agent.Now()];
      queue, size := agent.mQueue.mQueue, agent.mQueue.mTotalSize;
      delivered := delivered + 1;
    }
  }

  /** The transport of a message starts with this step. */
  predicate Starts(s: State, t: State) {
    t.job.Some? && t.job.value.facts.started && !(s.job.Some? && s.job.value.facts.started)
  }

  /** What no step does. */
  ghost predicate Keeps(s: State, t: State) {
    && s.sent <= t.sent && s.lost <= t.lost && s.front.handed <= t.front.handed
    && (forall k :: |s.front.handed| <= k < |t.front.handed| ==> t.front.handed[k] !in s.sent + s.lost)
    && (s.stalled ==> t.stalled && t.front == s.front)
    && (s.aborting ==> !Starts(s, t))
    && (s.aborting && !t.aborting ==> t.queue == [] && !t.front.busy)
  }

  lemma QueuedKeeps(s: State, t: State)
    requires Sound(s) && Sound(t) && Queued(s, t)
    ensures Keeps(s, t)
  {
    hide SumSizes, Distinct, FutureOk, Line, KnownIds;
  }

  lemma DispatchKeeps(s: State, t: State)
    requires Sound(s) && Sound(t) && DispatchStep(s, t)
    ensures Keeps(s, t)
  {
    hide SumSizes, Distinct, FutureOk;
  }

  lemma NothingKeeps(s: State, t: State)
    requires Sound(s) && Sound(t) && s.front.fetching.Some? && NothingStep(s, t)
    ensures Keeps(s, t)
  {
    hide SumSizes, Distinct, FutureOk;
  }

  lemma JobKeeps(s: State, e: JobEvent, t: State)
    requires Sound(s) && Sound(t) && JobStep(s, e, t)
    ensures Keeps(s, t)
  {
    hide SumSizes, Distinct, FutureOk, Success;
  }

  lemma StepKeeps(s: State, event: Event, t: State)
    requires Sound(s) && Sound(t) && Step(s, event, t)
    ensures Keeps(s, t)
  {
    hide SumSizes, Distinct, FutureOk, HasId, IdsOf, QueuedIds, IndexOf, Line, KnownIds, Queued, DispatchStep,
         NothingStep, JobStep;
    match event
    case ItemAdded(_, _) => QueuedKeeps(s, t);
    case OutboxRead(_, _, _) => QueuedKeeps(s, t);
    case FutureTimer(_) => QueuedKeeps(s, t);
    case DispatchTimer => DispatchKeeps(s, t);
    case FetchFailed =>
      if s.front.fetching.Some? {
        NothingKeeps(s, t);
      }
    case Fetched(result) =>
      if s.front.fetching.Some? && result.None? {
        NothingKeeps(s, t);
      }
    case JobCallback(e) => JobKeeps(s, e, t);
    case _ =>
  }

  /** A message that has been sent, or of which no fetch has brought anything, is never taken out again. */
  lemma {:induction false} NeverAgain(trace: seq<State>, events: seq<Event>, i: nat, j: nat, k: nat)
    requires IsRun(trace, events) && i <= j < |trace|
    requires |trace[i].front.handed| <= k < |trace[j].front.handed|
    ensures trace[j].front.handed[k] !in trace[i].sent + trace[i].lost
    decreases j
  {
    hide Step, Sound;
    StepKeeps(trace[j - 1], events[j - 1], trace[j]);
    if k < |trace[j - 1].front.handed| {
      NeverAgain(trace, events, i, j - 1, k);
    } else {
      Grows(trace, events, i, j - 1);
    }
  }

  lemma {:induction false} Grows(trace: seq<State>, events: seq<Event>, i: nat, j: nat)
    requires IsRun(trace, events) && i <= j < |trace|
    ensures trace[i].sent <= trace[j].sent && trace[i].lost <= trace[j].lost
    ensures trace[i].front.handed <= trace[j].front.handed
    decreases j
  {
    hide Step, Sound;
    if i < j {
      Grows(trace, events, i, j - 1);
      StepKeeps(trace[j - 1], events[j - 1], trace[j]);
    }
  }

  /** Between an abort and the start of a transport the queue has been drained. */
  lemma {:induction false} NoStartWhileAborting(trace: seq<State>, events: seq<Event>, i: nat, j: nat)
    requires IsRun(trace, events) && i <= j < |trace| - 1 && trace[i].aborting && Starts(trace[j], trace[j + 1])
    ensures exists k :: i < k <= j && !trace[k].aborting && trace[k].queue == [] && !trace[k].front.busy
    decreases j - i
  {
    hide Step, Sound;
    StepKeeps(trace[i], events[i], trace[i + 1]);
    if i < j && trace[i + 1].aborting {
      NoStartWhileAborting(trace, events, i + 1, j);
    }
  }

  /** An agent that has stalled does nothing any more. */
  lemma {:induction false} StalledForEver(trace: seq<State>, events: seq<Event>, i: nat, j: nat)
    requires IsRun(trace, events) && i <= j < |trace| && trace[i].stalled
    ensures trace[j].stalled && trace[j].front == trace[i].front && trace[j].front.busy
    decreases j
  {
    hide Step, Distinct, FutureOk;
    if i < j {
      StalledForEver(trace, events, i, j - 1);
      StepKeeps(trace[j - 1], events[j - 1], trace[j]);
    }
  }

  /** A message that was removed while it waits for its time is queued nevertheless, once it is due. */
  lemma RemovedIsQueued(s: State, id: Id, t: State, now: nat, u: State)
    requires Sound(s) && Step(s, ItemGone(id), t) && Step(t, FutureTimer(now), u)
    ensures Line(t) <= Line(u)
    ensures id in Line(u)[|Line(t)|..] <==>
              && id in s.registered && id !in KnownIds(s)
              && exists i :: 0 <= i < |s.future| && s.future[i].item.id == id && s.future[i].due <= now
  {
    ReleasedExactly(t.future, t.registered, KnownIds(t), now, id);
    assert Line(u)[|Line(t)|..] == Released(t.future, t.registered, KnownIds(t), now);
    hide IdsOf, SumSizes, Distinct, Released, DueCount, EntryIds, IndexOf;
  }

  /** A complete message that may be sent at `due`. */
  function MessageFor(id: Id, due: nat): (item: Item)
    ensures item.id == id && Complete(item) && forall now: nat :: Later(item, now) <==> now < due
  {
    Item(id, 1, true, Some(Automatic(Some(due))), Some(DeleteSent), Some(true), true)
  }

  lemma LinesLength(q: seq<Item>)
    ensures |IdsOf(q)| == |q|
  {
  }

  /** A run in which a message is queued that was removed, and would be registered again if it changed. */
  lemma RemovedAndChanged(s: State, t: State, u: State)
    requires Sound(s) && Step(START, ItemAdded(MessageFor(1, 10), 5), s)
    requires Step(s, ItemGone(1), t) && Step(t, FutureTimer(10), u)
    ensures 1 in Line(u)[|Line(t)|..]
    ensures Again(MessageFor(1, 10), KnownIds(s), s.registered, 6)
  {
    var item := MessageFor(1, 10);
    NothingQueued();
    OneWaits(item, 5);
    assert BooksOf(s) == Books({}, [], [Entry(item)], {1});
    LinesLength(s.queue);
    hide FutureOk, Distinct, Complete, FreedAt, Insert, HasId, Later, IdsOf, QueuedIds, SumSizes;
    assert s.future[0].item.id == 1 && s.future[0].due == 10;
    RemovedIsQueued(s, 1, t, 10, u);
  }

  lemma NothingQueued()
    ensures BooksOf(START) == Books({}, [], [], {})
  {
  }

  /** The first message that has to wait. */
  lemma OneWaits(item: Item, now: nat)
    requires Complete(item) && Later(item, now)
    ensures AcceptedAs(Books({}, [], [], {}), item, now) == Books({}, [], [Entry(item)], {item.id})
  {
    assert Insert([], Entry(item)) == [Entry(item)];
    FreedNothing(Books({}, [], [Entry(item)], {item.id}), now);
    hide FreedAt, Insert, Complete;
  }

  /** A run that stalls: the only message of the queue is fetched and nothing comes. */
  lemma NothingFetched(s: State, t: State, u: State, now: nat)
    requires Sound(t) && Step(START, Online(true), s)
    requires Step(s, ItemAdded(MessageFor(1, 0), now), t) && Step(t, Fetched(None), u)
    ensures u.stalled && u.lost == {1}
  {
    assert Line(s) == [] && KnownIds(s) == {};
    LinesLength(t.queue);
    assert |t.front.handed| == 1 && t.front.handed[0] == 1;
  }

  /** Three messages come while the agent is offline. */
  lemma ThreeAdded(s: State, t: State, u: State, now: nat)
    requires Sound(s) && Sound(t) && Sound(u)
    requires Step(START, ItemAdded(MessageFor(1, 0), now), s) && Step(s, ItemAdded(MessageFor(2, 0), now), t)
    requires Step(t, ItemAdded(MessageFor(3, 0), now), u)
    ensures |u.queue| == 3 && u.front == START.front && !u.online
  {
    LinesLength(u.queue);
    hide FutureOk, Distinct, Complete, FreedAt, Insert, HasId, Later, MessageFor;
    assert KnownIds(START) == {};
    assert KnownIds(s) == {1};
    assert KnownIds(t) == {1, 2};
  }

  lemma FirstOfThree(u: State, v: State, w: State)
    requires |u.queue| == 3 && u.front == START.front && Step(u, Online(true), v) && Step(v, DispatchTimer, w)
    ensures FetchesTwice(w, FetchFailed)
  {
  }

  /** A run that ends with two fetches at a time: a fetch fails while two more messages are queued. */
  method FetchFailsWithTwo(now: nat) returns (delivered: nat)
    ensures delivered == 5
  {
    var events := [ItemAdded(MessageFor(1, 0), now), ItemAdded(MessageFor(2, 0), now), ItemAdded(MessageFor(3, 0), now),
                   Online(true), DispatchTimer, FetchFailed];
    hide Step, Sound, MessageFor, SumSizes, FetchesTwice;
    var _, _, n, trace := Run(events);
    delivered := n;
    if n < |events| {
      OnlyAfterFailure(trace[n], events[n]);
    }
    if n >= 5 {
      ThreeAdded(trace[1], trace[2], trace[3], now);
      FirstOfThree(trace[3], trace[4], trace[5]);
    }
  }

  lemma OnlyAfterFailure(s: State, event: Event)
    requires FetchesTwice(s, event)
    ensures event.FetchFailed?
  {
  }
}
