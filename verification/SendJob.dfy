/**
 Sending one message: transport, then deletion or move to the sent mail, then storing of the result
 in the message.  Each callback is a method; what a callback is told by the outside is a parameter.
 */
module Sending {
  import opened Common

  type Id = nat

  datatype SentBehaviour = DeleteSent | MoveToDefaultSentCollection | MoveToCollection(valid: bool)

  datatype DispatchMode = Automatic(sendAfter: Option<nat>) | Manual

  /** A message with the attributes that the dispatcher looks at; `transport` says whether it exists. */
  datatype Item = Item(id: Id, size: nat, address: bool, mode: Option<DispatchMode>,
                       behaviour: Option<SentBehaviour>, transport: Option<bool>, queued: bool)

  /** How the message leaves, as found out when the transport starts. */
  datatype Route = NoTransport | InvalidType | Traditional | Resource(interface: bool, reply: bool)

  /** The job that a send job waits for. */
  datatype Job = Nothing | Transport | ItemDelete | ItemMove | CollectionFetch | StoreResult(success: bool)

  /** A callback of a send job with what it is told. */
  datatype JobEvent =
    | Started(route: Route, filtered: bool)
    | TransportResult(success: bool, sentMail: bool)
    | ResourceResult(success: bool, sentMail: bool)
    | CollectionFetched(found: bool, sentMail: bool)
    | PostJobResult(success: bool, filtered: bool)
    | ResultStored(success: bool)

  /** What has really happened to the message. */
  datatype Facts = Facts(started: bool, transported: bool, removed: bool, filtered: bool, stored: bool)

  const NOTHING_YET := Facts(false, false, false, false, false)

  /** What is known of the message after a callback; an aborted job starts no transport. */
  function Told(f: Facts, e: JobEvent, aborting: bool): Facts {
    match e
    case Started(route, filtered) =>
      f.(started := !aborting && filtered && (route.Traditional? || (route.Resource? && route.interface)))
    case TransportResult(success, _) => f.(transported := success)
    case ResourceResult(success, _) => f.(transported := success)
    case CollectionFetched(_, _) => f
    case PostJobResult(success, filtered) => f.(removed := success, filtered := success && filtered)
    case ResultStored(success) => f.(stored := success && f.filtered)
  }

  /** The message has left, is out of the outbox, and is marked as sent unless it was deleted. */
  predicate Success(f: Facts, item: Item) {
    f.transported && f.removed && f.filtered && (item.behaviour == Some(DeleteSent) || f.stored)
  }

  /** The job is over with a stored result, or when a message that is to be deleted has gone. */
  predicate Ends(e: JobEvent, item: Item) {
    e.ResultStored? || (e.PostJobResult? && e.success && e.filtered && item.behaviour == Some(DeleteSent))
  }

  /** The event answers the one callback that the job waits for. */
  predicate Answers(e: JobEvent, current: Job, interface: bool, scheduled: bool) {
    match e
    case Started(_, _) => scheduled
    case TransportResult(_, _) => current.Transport?
    case ResourceResult(_, _) => interface && current.Nothing?
    case CollectionFetched(_, _) => current.CollectionFetch?
    case PostJobResult(_, _) => current.ItemDelete? || current.ItemMove?
    case ResultStored(_) => current.StoreResult?
  }

  class SendJob {
    const mItem: Item
    var mCurrentJob: Job
    var mInterface: bool
    var mAborting: bool
    var error: bool
    /** The start has been requested but has not happened. */
    var scheduled: bool
    var finished: bool

    ghost var facts: Facts

    /** Until the job is finished there is always exactly one callback to wait for. */
    ghost predicate OneCallback()
      reads this
    {
      && (scheduled ==> mCurrentJob.Nothing? && !mInterface && !finished)
      && (finished ==> mCurrentJob.Nothing?)
      && (!scheduled && !finished ==> !mCurrentJob.Nothing? || mInterface)
      && (mInterface ==> finished || mCurrentJob.Nothing? || mCurrentJob == StoreResult(false))
    }

    ghost predicate Valid()
      reads this
    {
      && mItem.behaviour.Some?
      && OneCallback()
      && (scheduled ==> !facts.started)
      && (facts.transported ==> facts.started)
      && (facts.removed ==> facts.transported)
      && (facts.filtered ==> facts.removed)
      && (facts.stored ==> facts.filtered)
      && (scheduled || mCurrentJob.Transport? || (mInterface && mCurrentJob.Nothing? && !finished) ==>
            !facts.transported && !error)
      && (mCurrentJob.Transport? || mInterface ==> facts.started)
      && (mCurrentJob.ItemDelete? || mCurrentJob.ItemMove? || mCurrentJob.CollectionFetch? ==>
            facts.transported && !facts.removed && !error)
      && (mCurrentJob.ItemDelete? ==> mItem.behaviour == Some(DeleteSent))
      && (mCurrentJob.ItemMove? || mCurrentJob.CollectionFetch? ==> mItem.behaviour != Some(DeleteSent))
      && (mCurrentJob == StoreResult(true) ==>
            facts.filtered && !facts.stored && !error && mItem.behaviour != Some(DeleteSent))
      && (mCurrentJob == StoreResult(false) ==> !facts.filtered)
      && (finished ==> (error <==> !Success(facts, mItem)))
    }

    predicate Expects(e: JobEvent)
      reads this
    {
      !finished && Answers(e, mCurrentJob, mInterface, scheduled)
    }

    constructor (item: Item)
      requires item.behaviour.Some?
      ensures Valid() && mItem == item && scheduled && !mAborting && !finished && facts == NOTHING_YET
    {
      mItem := item;
      mCurrentJob, mInterface, mAborting, error, scheduled, finished := Nothing, false, false, false, true, false;
      facts := NOTHING_YET;
    }

    /**
     Any callback: what it tells is known afterwards, none of them changes the abort mark, and the job ends without
     error exactly if everything has succeeded. The assertion that no job is running when a result is stored fails
     exactly if there is neither the sent-mail collection nor a default one.
     */
    method Handle(e: JobEvent) returns (ok: bool)
      requires Valid() && Expects(e)
      modifies this
      ensures Valid() && mAborting == old(mAborting) && facts == Told(old(facts), e, mAborting)
      ensures finished <==> Ends(e, mItem)
      ensures finished ==> (error <==> !Success(facts, mItem))
      ensures ok <==> !(e.CollectionFetched? && !e.found && !e.sentMail)
    {
      match e
      case Started(route, filtered) => ok := DoTransport(route, filtered);
      case TransportResult(success, sentMail) => ok := OnTransportResult(success, sentMail);
      case ResourceResult(success, sentMail) =>
        mInterface := false;
        ok := DoPostJob(success, sentMail);
      case CollectionFetched(found, sentMail) => ok := SlotSentMailCollectionFetched(found, sentMail);
      case PostJobResult(success, filtered) => ok := OnPostJobResult(success, filtered);
      case ResultStored(success) =>
        DoEmitResult(success);
        ok := true;
    }

    /** The transport starts exactly if nothing is against it; otherwise the failure is stored. */
    method DoTransport(route: Route, filtered: bool) returns (ok: bool)
      requires Valid() && scheduled
      modifies this
      ensures Valid() && ok && !scheduled && !finished && mAborting == old(mAborting)
      ensures facts == Told(old(facts), Started(route, filtered), mAborting)
      ensures error == mAborting
      ensures mCurrentJob.Transport? <==> !mAborting && filtered && route.Traditional?
      ensures mInterface <==> !mAborting && filtered && route.Resource? && route.interface
      ensures mCurrentJob.StoreResult? <==>
              !(!mAborting && filtered && (route.Traditional? || (route.Resource? && route.interface && route.reply)))
    {
      scheduled := false;
      if mAborting {
        error := true;
        ok := StoreResultOf(false);
        return;
      }
      if route.NoTransport? {
        ok := StoreResultOf(false);
        return;
      }
      if route.InvalidType? {
        ok := StoreResultOf(false);
        return;
      }
      if !filtered {
        ok := StoreResultOf(false);
        return;
      }
      if route.Resource? {
        ok := DoAkonadiTransport(route.interface, route.reply);
      } else {
        mCurrentJob := Transport;
        facts := facts.(started := true);
        ok := true;
      }
    }

    method DoAkonadiTransport(interface: bool, reply: bool) returns (ok: bool)
      modifies this`mInterface, this`facts, this`mCurrentJob
      ensures mInterface == interface && facts == if interface then old(facts).(started := true) else old(facts)
      ensures mCurrentJob == if interface && reply then old(mCurrentJob) else StoreResult(false)
      ensures ok <==> (interface && reply) || old(mCurrentJob).Nothing?
    {
      mInterface := true;
      if !interface {
        ok := StoreResultOf(false);
        mInterface := false;
        return;
      }
      facts := facts.(started := true);
      ok := true;
      if !reply {
        ok := StoreResultOf(false);
      }
    }

    method OnTransportResult(success: bool, sentMail: bool) returns (ok: bool)
      requires Valid() && mCurrentJob.Transport? && !finished
      modifies this
      ensures Valid() && ok && !finished && mAborting == old(mAborting)
      ensures facts == Told(old(facts), TransportResult(success, sentMail), mAborting)
      ensures mCurrentJob.CollectionFetch? <==> success && mItem.behaviour.value.MoveToCollection?
    {
      mCurrentJob := Nothing;
      ok := DoPostJob(success, sentMail);
    }

    /** The transport is over: the message is deleted, moved, or kept with an error. */
    method DoPostJob(transportSuccess: bool, sentMail: bool) returns (ok: bool)
      requires !finished && !scheduled && mCurrentJob.Nothing? && !mInterface && mItem.behaviour.Some? && !error
      requires facts == NOTHING_YET.(started := true)
      modifies this
      ensures Valid() && ok && !finished && mAborting == old(mAborting) && !mInterface
      ensures facts == old(facts).(transported := transportSuccess)
      ensures error == mCurrentJob.StoreResult?
      ensures mCurrentJob.StoreResult? <==>
              !transportSuccess || (mItem.behaviour.value.MoveToDefaultSentCollection? && !sentMail)
      ensures mCurrentJob.CollectionFetch? <==> transportSuccess && mItem.behaviour.value.MoveToCollection?
    {
      ok := true;
      if !transportSuccess {
        error := true;
        ok := StoreResultOf(false);
      } else {
        facts := facts.(transported := true);
        if mItem.behaviour.value.DeleteSent? {
          mCurrentJob := ItemDelete;
        } else if mItem.behaviour.value.MoveToDefaultSentCollection? {
          if sentMail {
            mCurrentJob := ItemMove;
          } else {
            ok := AbortPostJob();
          }
        } else {
          mCurrentJob := CollectionFetch;
        }
      }
    }

    method AbortPostJob() returns (ok: bool)
      modifies this`error, this`mCurrentJob
      ensures error && mCurrentJob == StoreResult(false) && (ok <==> old(mCurrentJob).Nothing?)
    {
      error := true;
      ok := StoreResultOf(false);
    }

    /** Without a collection the failure is stored while the job that has looked for it is still the current one. */
    method SlotSentMailCollectionFetched(found: bool, sentMail: bool) returns (ok: bool)
      requires Valid() && mCurrentJob.CollectionFetch? && !finished
      modifies this
      ensures Valid() && !finished && mAborting == old(mAborting) && facts == old(facts)
      ensures mCurrentJob.ItemMove? <==> found || sentMail
      ensures ok <==> found || sentMail
      ensures error == !(found || sentMail) && mInterface == old(mInterface)
    {
      if !found && !sentMail {
        ok := AbortPostJob();
        return;
      }
      ok := true;
      mCurrentJob := ItemMove;
    }

    /** The message has been deleted or moved, or not. */
    method OnPostJobResult(success: bool, filtered: bool) returns (ok: bool)
      requires Valid() && (mCurrentJob.ItemDelete? || mCurrentJob.ItemMove?) && !finished
      modifies this
      ensures Valid() && ok && mAborting == old(mAborting)
      ensures facts == Told(old(facts), PostJobResult(success, filtered), mAborting)
      ensures finished <==> Ends(PostJobResult(success, filtered), mItem)
      ensures finished ==> Success(facts, mItem) && !error
      ensures error == !success && mInterface == old(mInterface)
    {
      mCurrentJob := Nothing;
      if !success {
        error := true;
        ok := StoreResultOf(false);
      } else {
        facts := facts.(removed := true);
        if !filtered {
          ok := StoreResultOf(false);
          return;
        }
        facts := facts.(filtered := true);
        ok := true;
        if mItem.behaviour.value.DeleteSent? {
          finished := true;
        } else {
          ok := StoreResultOf(true);
        }
      }
    }

    /** It is asserted that no job is running. */
    method StoreResultOf(success: bool) returns (ok: bool)
      modifies this`mCurrentJob
      ensures mCurrentJob == StoreResult(success) && (ok <==> old(mCurrentJob).Nothing?)
    {
      ok := mCurrentJob.Nothing?;
      mCurrentJob := StoreResult(success);
    }

    method DoEmitResult(success: bool)
      requires Valid() && mCurrentJob.StoreResult? && !finished
      modifies this
      ensures Valid() && finished && mAborting == old(mAborting)
      ensures facts == Told(old(facts), ResultStored(success), mAborting)
      ensures error <==> !Success(facts, mItem)
    {
      var stored := mCurrentJob.success;
      mCurrentJob := Nothing;
      if !success {
        error := true;
      } else {
        if !stored {
          error := true;
        } else {
          facts := facts.(stored := true);
        }
      }
      finished := true;
    }

    method SetMarkAborted()
      requires !mAborting
      modifies this`mAborting
      ensures mAborting
    {
      mAborting := true;
    }

    /** A running transport is killed if it can be; nothing else is stopped. */
    method Abort(killed: bool, sentMail: bool)
      requires Valid() && !mAborting && !finished
      modifies this
      ensures Valid() && mAborting && !finished
      ensures facts == old(facts)
      ensures mCurrentJob == if old(mCurrentJob).Transport? && killed then StoreResult(false) else old(mCurrentJob)
    {
      SetMarkAborted();
      if mCurrentJob.Transport? && killed {
        mCurrentJob := Nothing;
        var _ := DoPostJob(false, sentMail);
      }
    }
  }

  /** A job that is not finished waits for a callback that can come. */
  lemma NeverStuck(job: SendJob)
    requires job.Valid() && !job.finished
    ensures exists e :: job.Expects(e)
  {
    var e := match job.mCurrentJob {
      case Nothing => if job.scheduled then Started(NoTransport, true) else ResourceResult(true, true)
      case Transport => TransportResult(true, true)
      case ItemDelete => PostJobResult(true, true)
      case ItemMove => PostJobResult(true, true)
      case CollectionFetch => CollectionFetched(true, true)
      case StoreResult(_) => ResultStored(true)
    };
    assert job.Expects(e);
  }

  /** A run in which the collection for sent mail is gone and there is no default one. */
  method SentMailGone(item: Item) returns (ok: bool)
    requires item.behaviour.Some? && item.behaviour.value.MoveToCollection?
    ensures !ok
  {
    var job := new SendJob(item);
    ok := job.DoTransport(Traditional, true);
    ok := job.OnTransportResult(true, false);
    ok := job.SlotSentMailCollectionFetched(false, false);
  }
}
