/**
 Changing the flags of many messages with IMAP STORE commands of a limited size: first the added flags,
 then the removed ones.
 */
module FlagsTask {
  import opened Common

  const MAX_UIDS := 2000

  type Uid = nat
  type Flag = string
  type Mailbox = map<Uid, set<Flag>>

  datatype Phase = Idle | Appending | Removing | Processed | Cancelled

  /**
   Each of the messages gets some flags and loses others; messages that are not there are passed over. STORE with
   `+FLAGS` or `-FLAGS`, RFC 3501 section 6.4.6, does one of the two.
   */
  function Store(box: Mailbox, uids: seq<Uid>, add: set<Flag>, remove: set<Flag>): Mailbox {
    map uid | uid in box :: if uid in uids then (box[uid] + add) - remove else box[uid]
  }

  /** Storing in two parts is storing in one. */
  lemma StoreParts(box: Mailbox, a: seq<Uid>, b: seq<Uid>, add: set<Flag>, remove: set<Flag>)
    requires add !! remove
    ensures Store(Store(box, a, add, remove), b, add, remove) == Store(box, a + b, add, remove)
  {
    var parts, whole := Store(Store(box, a, add, remove), b, add, remove), Store(box, a + b, add, remove);
    forall uid | uid in box
      ensures parts[uid] == whole[uid]
    {
      assert (box[uid] + add) - remove == (((box[uid] + add) - remove) + add) - remove;
    }
    assert parts.Keys == whole.Keys;
  }

  lemma StoreNothing(box: Mailbox, uids: seq<Uid>, add: set<Flag>, remove: set<Flag>)
    ensures Store(box, [], add, remove) == box && Store(box, uids, {}, {}) == box
  {
    var none := Store(box, uids, {}, {});
    assert forall uid :: uid in box ==> (box[uid] + {}) - {} == box[uid];
    assert none.Keys == box.Keys;
    assert Store(box, [], add, remove).Keys == box.Keys;
  }

  lemma TwoPhases(box: Mailbox, uids: seq<Uid>, added: set<Flag>, removed: set<Flag>)
    ensures Store(Store(box, uids, added, {}), uids, {}, removed) == Store(box, uids, added, removed)
  {
    var phases, whole := Store(Store(box, uids, added, {}), uids, {}, removed), Store(box, uids, added, removed);
    forall uid | uid in box
      ensures phases[uid] == whole[uid]
    {
      assert (((box[uid] + added) - {}) + {}) - removed == (box[uid] + added) - removed;
    }
    assert phases.Keys == whole.Keys;
  }

  /** Every STORE names 2000 messages; only the last one, if it names the last message, may name fewer. */
  ghost predicate SmallChunks(chunks: seq<seq<Uid>>, all: bool) {
    forall k :: 0 <= k < |chunks| ==> |chunks[k]| == 2000 || (all && k == |chunks| - 1 && 0 < |chunks[k]| < 2000)
  }

  /** The STOREs of a phase name all messages in order, each in one of them; without flags there is no STORE. */
  ghost predicate PhaseDone(chunks: seq<seq<Uid>>, items: seq<Uid>, flags: set<Flag>) {
    if flags == {} then chunks == [] else SmallChunks(chunks, true) && Flatten(chunks) == items
  }

  class ChangeItemsFlagsTask {
    const items: seq<Uid>
    /** The flags of the change, and those of them that the server supports. */
    const addedFlags: set<Flag>
    const removedFlags: set<Flag>
    const supportedAdded: set<Flag>
    const supportedRemoved: set<Flag>
    var m_processedItems: nat
    var phase: Phase
    /** The UIDs of the STORE that runs. */
    var current: seq<Uid>
    var mailbox: Mailbox

    ghost var before: Mailbox
    /** The UIDs of each STORE so far. */
    ghost var appended: seq<seq<Uid>>
    ghost var removed: seq<seq<Uid>>

    ghost predicate Supported() {
      items != [] && supportedAdded <= addedFlags && supportedRemoved <= removedFlags
    }

    /** The STOREs of a phase name the first messages in order, each once. */
    ghost predicate Named(chunks: seq<seq<Uid>>, n: nat) {
      SmallChunks(chunks, n == |items|) && n <= |items| && Flatten(chunks) == items[..n]
    }

    ghost predicate Valid()
      reads this
    {
      && Supported()
      && match phase
         case Idle => m_processedItems == 0 && appended == removed == [] && current == [] && mailbox == before
         case Appending =>
           && supportedAdded != {} && InFlight(appended) && removed == []
           && mailbox == Store(before, items[..m_processedItems - |current|], supportedAdded, {})
         case Removing =>
           && supportedRemoved != {} && InFlight(removed) && PhaseDone(appended, items, supportedAdded)
           && mailbox == Store(Store(before, items, supportedAdded, {}), items[..m_processedItems - |current|], {},
                               supportedRemoved)
         case Processed =>
           && PhaseDone(appended, items, supportedAdded) && PhaseDone(removed, items, supportedRemoved)
           && mailbox == Store(before, items, supportedAdded, supportedRemoved)
         case Cancelled => true
    }

    /** The last STORE runs; together with those before it it names the items processed. */
    ghost predicate InFlight(chunks: seq<seq<Uid>>)
      reads this
    {
      && Named(chunks, m_processedItems) && chunks != [] && chunks[|chunks| - 1] == current
      && |current| <= m_processedItems && items[..m_processedItems] == items[..m_processedItems - |current|] + current
    }

    /** How far the task is from its end: the phase first, then the items of the phase. */
    ghost function PhasesLeft(): nat
      reads this
    {
      match phase case Idle => 3 case Appending => 2 case Removing => 1 case _ => 0
    }

    ghost function ItemsLeft(): int
      reads this
    {
      |items| - m_processedItems
    }

    constructor (uids: seq<Uid>, added: set<Flag>, removals: set<Flag>, supported: set<Flag>, box: Mailbox)
      requires uids != []
      ensures Valid() && phase == Idle && before == box
      ensures items == uids && supportedAdded == added * supported && supportedRemoved == removals * supported
    {
      items, addedFlags, removedFlags := uids, added, removals;
      supportedAdded, supportedRemoved := added * supported, removals * supported;
      m_processedItems, phase, current, mailbox := 0, Idle, [], box;
      before, appended, removed := box, [], [];
    }

    /** The mailbox is selected. */
    method Begin()
      requires Valid() && phase == Idle
      modifies this
      ensures Valid() && before == old(before) && PhasesLeft() < old(PhasesLeft()) && phase != Cancelled
    {
      StoreNothing(mailbox, items, supportedAdded, supportedRemoved);
      if addedFlags != {} {
        TriggerAppendFlagsJob();
      } else if removedFlags != {} {
        TriggerRemoveFlagsJob();
      } else {
        phase := Processed;
      }
    }

    /** Takes the next UIDs, as many as one command may have. */
    method PrepareJob(ghost chunks: seq<seq<Uid>>)
      requires Named(chunks, m_processedItems) && m_processedItems < |items|
      modifies this`m_processedItems, this`current
      ensures InFlight(chunks + [current])
      ensures m_processedItems > old(m_processedItems) && m_processedItems - |current| == old(m_processedItems)
    {
      var count := if |items| - m_processedItems < MAX_UIDS then |items| - m_processedItems else MAX_UIDS;
      current := [];
      var i := 0;
      while i < count
        invariant 0 <= i <= count && m_processedItems == old(m_processedItems) + i && |current| == i
        invariant items[..m_processedItems] == items[..old(m_processedItems)] + current
      {
        assert items[..m_processedItems + 1] == items[..m_processedItems] + [items[m_processedItems]];
        current := current + [items[m_processedItems]];
        m_processedItems := m_processedItems + 1;
        i := i + 1;
      }
      FlattenAppend(chunks, current);
    }

    method TriggerAppendFlagsJob()
      requires Supported() && removed == [] && (phase == Idle || phase == Appending) && m_processedItems < |items|
      requires phase == Appending ==> supportedAdded != {}
      requires phase == Idle ==> m_processedItems == 0 && appended == []
      requires Named(appended, m_processedItems)
              && mailbox == Store(before, items[..m_processedItems], supportedAdded, {})
      modifies this
      ensures Valid() && before == old(before) && phase != Cancelled && phase != Idle
      ensures phase == Appending ==> m_processedItems > old(m_processedItems)
      ensures old(phase) == Appending ==> phase == Appending
    {
      hide Store, Flatten;
      if supportedAdded == {} {
        assert items[..0] == [];
        StoreNothing(before, items, {}, {});
        StoreNothing(before, items, {}, supportedRemoved);
        assert mailbox == before == Store(before, items, supportedAdded, {});
        if removedFlags != {} {
          m_processedItems := 0;
          TriggerRemoveFlagsJob();
        } else {
          phase := Processed;
          TwoPhases(before, items, {}, {});
        }
      } else {
        PrepareJob(appended);
        appended := appended + [current];
        phase := Appending;
      }
    }

    method TriggerRemoveFlagsJob()
      requires Supported() && phase != Cancelled && phase != Processed && m_processedItems < |items|
      requires phase != Removing ==> m_processedItems == 0 && removed == []
      requires phase == Removing ==> supportedRemoved != {}
      requires Named(removed, m_processedItems) && PhaseDone(appended, items, supportedAdded)
      requires mailbox == Store(Store(before, items, supportedAdded, {}), items[..m_processedItems], {},
                                supportedRemoved)
      modifies this
      ensures Valid() && before == old(before) && (phase == Removing || phase == Processed)
      ensures phase == Removing ==> m_processedItems > old(m_processedItems)
      ensures old(phase) == Removing ==> phase == Removing
    {
      hide Store, Flatten;
      if supportedRemoved == {} {
        assert items[..0] == [];
        StoreNothing(Store(before, items, supportedAdded, {}), items, {}, {});
        TwoPhases(before, items, supportedAdded, {});
        phase := Processed;
      } else {
        PrepareJob(removed);
        removed := removed + [current];
        phase := Removing;
      }
    }

    /** The server has carried out the STORE that ran, or has not. */
    method OnAppendFlagsDone(failed: bool)
      requires Valid() && phase == Appending
      modifies this
      ensures Valid() && before == old(before) && (failed <==> phase == Cancelled)
      ensures failed ==>
                && mailbox == old(mailbox) && appended == old(appended) && removed == old(removed)
                && m_processedItems == old(m_processedItems) && current == old(current)
      ensures PhasesLeft() < old(PhasesLeft()) || (PhasesLeft() == old(PhasesLeft()) && ItemsLeft() < old(ItemsLeft()))
    {
      if failed {
        phase := Cancelled;
        return;
      }
      StoreParts(before, items[..m_processedItems - |current|], current, supportedAdded, {});
      mailbox := Store(mailbox, current, supportedAdded, {});
      hide Store, Flatten;
      if m_processedItems < |items| {
        TriggerAppendFlagsJob();
      } else {
        assert items[..m_processedItems] == items;
        StoreNothing(mailbox, items, {}, supportedRemoved);
        if removedFlags == {} {
          TwoPhases(before, items, supportedAdded, {});
          phase := Processed;
        } else {
          m_processedItems := 0;
          TriggerRemoveFlagsJob();
        }
      }
    }

    method OnRemoveFlagsDone(failed: bool)
      requires Valid() && phase == Removing
      modifies this
      ensures Valid() && before == old(before) && (failed <==> phase == Cancelled)
      ensures failed ==>
                && mailbox == old(mailbox) && appended == old(appended) && removed == old(removed)
                && m_processedItems == old(m_processedItems) && current == old(current)
      ensures PhasesLeft() < old(PhasesLeft()) || (PhasesLeft() == old(PhasesLeft()) && ItemsLeft() < old(ItemsLeft()))
    {
      if failed {
        phase := Cancelled;
        return;
      }
      StoreParts(Store(before, items, supportedAdded, {}), items[..m_processedItems - |current|], current, {},
                 supportedRemoved);
      mailbox := Store(mailbox, current, {}, supportedRemoved);
      hide Store, Flatten;
      if m_processedItems < |items| {
        TriggerRemoveFlagsJob();
      } else {
        assert items[..m_processedItems] == items;
        TwoPhases(before, items, supportedAdded, supportedRemoved);
        phase := Processed;
      }
    }
  }

  /**
   A whole run in which every STORE is carried out: the messages have their flags
   plus those added and minus those removed, and in each phase that has
   flags every UID is in exactly one STORE, in order, and no STORE has more UIDs than one command may have.
   */
  method ChangeFlags(uids: seq<Uid>, added: set<Flag>, removals: set<Flag>, supported: set<Flag>, box: Mailbox)
    returns (after: Mailbox, ghost appended: seq<seq<Uid>>, ghost removed: seq<seq<Uid>>)
    requires uids != []
    ensures after.Keys == box.Keys
    ensures forall uid, f :: uid in box ==>
              (f in after[uid] <==>
                 if uid !in uids then f in box[uid]
                 else (f in box[uid] || f in added * supported) && f !in removals * supported)
    ensures PhaseDone(appended, uids, added * supported) && PhaseDone(removed, uids, removals * supported)
  {
    var task := new ChangeItemsFlagsTask(uids, added, removals, supported, box);
    task.Begin();
    while task.phase == Appending || task.phase == Removing
      invariant task.Valid() && task.before == box && task.phase != Cancelled && task.phase != Idle
      decreases task.PhasesLeft(), task.ItemsLeft()
    {
      if task.phase == Appending {
        task.OnAppendFlagsDone(false);
      } else {
        task.OnRemoveFlagsDone(false);
      }
    }
    after, appended, removed := task.mailbox, task.appended, task.removed;
  }
}
