# Synchronisation and streaming engines

A Dafny model of those parts of this repository that keep state across callbacks, with proofs of what
they promise. Answers of servers, of the storage and of timers are parameters or events, and a container
that the program walks in hash order is walked in any order.

* `Common`: optional values, and requests cut into batches.
* `FolderTree`, `FetchFolders`, `FetchFoldersIncr`, `FolderSync`: folders of an Exchange server. Two jobs
  compute the local tree, one from a change list and one from scratch; both end in the server's tree, short of
  folders that the server would not give out.
* `ItemSync`, `ItemResource`: items of one folder. Three requests are collected in any order, compared with
  the local items, and the incremental result is that of a full synchronisation.
* `Subscription`: change events, short of those that the resource has caused itself.
* `Pop3Format`, `Pop3`: multi-line responses of RFC 1939 section 3, received in pieces of any size and
  with the commands sent ahead (RFC 2449 section 6.6).
* `BatchFetcher`, `FlagsTask`: IMAP requests cut into batches (RFC 3501 section 6.4.6 for STORE).
* `SendJob` (module `Sending`), `MailDispatcher`: the outbox queue, the agent and the job that sends one message.
* `EntityTree`, `GmailCollections`, `GmailLinks`: trees built level by level or path by path, and the links
  of messages to label collections.

Classes carry the names of the program's classes and their fields. Most of the whole-run statements are the
`Valid()` predicates that all callbacks of a class keep, together with ghost histories. Some methods
(`FirstStage`, `AwaitMoves`, `FetchPages`, `FetchByIds`, `Synchronise`, `FetchMessages`, `FetchSet`, `ChangeFlags`,
`LinkAll`, `CreateTree`, `Subscription.Run`) play the event loop: they deliver the answers in any order and state
what holds at the end of a run.
`MailDispatcher.Run` returns the trace of a run, a sequence of states in which each event has taken its specified
step; what holds of every run is proved of every such trace.

## What the proofs have brought to light

The code is modelled as it is. These are the places where it does not do what one might expect of it, each
with the member that says exactly when and, unless that is plain, with one that has an input.

* A folder that was moved below a folder created in the same change list makes the incremental job fail;
  the full synchronisation then does the work (`FolderSync.EwsResource.FetchChanges`, `FolderSync.MovedIntoNew`).
* When the processing of the folder hash fails and no move was started, the result is reported twice
  (`FetchFoldersIncr.EwsFetchFoldersIncrJob.LocalFolderFetchDone`), and each report starts a full fetch. That is so in
  every order of the hash if the folders that have moved were all moved below created ones (`FetchFoldersIncr.NothingMoved`,
  `FolderSync.EwsResource.FetchChanges`, `FolderSync.ReportsTwice`).
* When the request for changes fails, the incremental job never reports a result: the callback returns, and the request
  is no subjob (`resources/ews/ewsfetchfoldersincrjob.cpp:208-210`, `:567-568`; `FolderSync.EwsResource.FetchChanges`).
* The id-only fetch of an empty server starts no request and never reports a result
  (`FolderSync.EwsResource.FetchAll`, `FolderSync.NothingToFetch`).
* Folders of earlier pages stay in the list when a later page fails. The second time such a folder is taken out of
  the map an empty collection is listed, and nothing is reported as an error (`FetchFolders.ReceivedIsListed`,
  `FolderSync.EwsResource.FetchAll`, `FetchFolders.LeftoverIsEmpty`). Incremental attempts leave the nameless entry
  alone (`FolderSync.EwsResource.FetchChanges`); the next full fetch without such a failure removes it.
* A request for details succeeds even if the response for a single folder is an error. The folder is left out with
  a warning in the log; if no folder below it has arrived, no error is reported, the sync state is taken over, and the
  folder is missing locally (`FolderSync.EwsResource.FetchAll`, `FolderSync.LeafIsLost`). It stays missing until a
  full fetch gets it, which a change that needs the folder brings about, as the incremental attempt fails
  (`FolderSync.MissingUntouched`, `FolderSync.EwsResource.FetchChanges`). Without such responses no run leaves a folder out
  (`FolderSync.EwsResource.Synchronise`).
* After a failed move the item is checked in the destination folder, too. The request names no folder, so the item is
  found where it still is, and the destination takes it in (`ItemResource.EwsResource.RetrieveItems`,
  `ItemResource.ExactIfFoundHere`, `ItemResource.StrayIsTakenIn`). It stays until it is found to be nowhere or until
  the next full retrieval (`ItemResource.StrayStays`).
* A checked item that is found and is also reported as changed makes the incremental item job fail
  (`ItemResource.FitsExactly`, `ItemResource.FoundAndChangedDoesNotFit`).
* The loop over queued updates runs to the end of the hash, not of the key (`Subscription.OwnEntriesExactly`,
  `Subscription.WrongEntryUsed`); with deletions only, which is all that is ever queued, it does no harm.
* An open interval after a split set loses what was set aside (`BatchFetcher.OpenIsExact`,
  `BatchFetcher.RemainderDropped`). The class comment in `resources/imap/batchfetcher.h:30` speaks of reverse-ordered
  batches; the code, and the model, go upwards.
* A message that only waits for its time is not forgotten when it is removed from the outbox: it is queued when its
  time comes (`MailDispatcher.RemovedIsQueued`). When it changes it is registered again, against the assertion in
  `agents/maildispatcher/outboxqueue.cpp:135` (`MailDispatcher.OutboxQueue.AddIfComplete`); the model goes on.
  `MailDispatcher.RemovedAndChanged` has a run for both.
* When a fetch brings no item and the queue is empty the agent stays busy for ever, and the item stays ignored
  (`MailDispatcher.StalledForEver`, `MailDispatcher.NeverAgain`, `MailDispatcher.NothingFetched`).
* A fetch that ends with an error is followed by two fetches if two messages wait, and then more than one message is
  being sent (`MailDispatcher.OutboxQueue.ItemFetchFailed`, `MailDispatcher.FetchFailsWithTwo`). A run of the model
  ends there.
* `slotSentMailCollectionFetched` does not reset the current job before it stores a failure, against the assertion in
  `agents/maildispatcher/sendjob.cpp:364` (`Sending.SendJob.Handle`, `Sending.SentMailGone`); the model goes on.
* An empty level other than the last stops the creation of an entity tree
  (`EntityTree.EntityTreeCreateJob.AllIsThere`, `EntityTree.GapStops`).
* A mailbox directly under the Gmail folder without a system flag keeps the folder as parent that is taken off the
  list; so does a system folder if a mailbox below it is listed before it
  (`GmailCollections.GmailRetrieveCollectionsTask.OnMailBoxesReceived`, `GmailCollections.OrderMatters`).
* Messages that have lost their last label keep their links if no other message of the run has a label
  (`GmailLinks.LinkAll`, `GmailLinks.LastLabelLost`). The comparison counts links, as their list may hold a collection more than once; nothing in
  this repository makes such a list (`GmailLinks.LinksAreLabels`, `GmailLinks.DoubleLink`).

## Model

| member | source | states |
|---|---|---|
| `FolderSync.EwsResource.DoRetrieveCollections` | resources/ews/ewsresource.cpp:320-332 | for every old and new server tree, every faithful change list, every failure outside and every set of folders that are locally missing with all below them: a full fetch is made, for each report of a failure, exactly if there is no sync state or the incremental attempt fails; without one the local tree is the new server tree without the missing folders, and otherwise the new server tree as the last fetch that retrieved anything left it, without the folders that it has lost and with a nameless entry exactly if a folder arrived twice; an incremental attempt keeps such an entry as it was; if no fetch retrieves anything, the local tree is as it was but for moves of the attempt that were under way |
| `FolderSync.EwsResource.Synchronise` | resources/ews/ewsresource.cpp:320-332 | any number of retrievals, with any failures: while a sync state is held the local tree is that of the server at the last retrieval, but for requests for changes that have failed since, without whole branches, and without any if the response for a single folder was never an error |
| `FolderSync.EwsResource.FetchChanges` | resources/ews/ewsresource.cpp:508-533 | the incremental attempt fails exactly if the local fetch fails outside, a collection that is asked for is missing, a folder was moved below a created one, the move of a moved folder fails, or all changes are of unknown type; otherwise the named collections are the new server tree without the folders that were missing before, which are then whole branches of the new tree too; with nothing amiss but folders moved below created ones the failure is reported twice; a failed attempt neither adds nor removes a folder, and every folder is where it was but for some whose move is under way, which are in their new place; none is moved if the local fetch has failed |
| `FolderSync.EwsResource.FetchAll` | resources/ews/ewsresource.cpp:485-506 | the full fetch retrieves the folders exactly if no page fails, or no page of identifiers and no request for details fails, there are folders, and no folder arrives without its parent; then the tree is that of the server without the folders for which the response is an error and that no earlier page had, so exactly the server tree of the named collections if and only if there are none of these; a nameless entry is beside it exactly if a folder of an earlier page arrives again; no result is reported exactly by an id-only fetch without any folders |
| `FolderSync.EwsResource.FetchPages` | resources/ews/ewsfetchfoldersjob.cpp:89-150 | a page fails exactly if the failing one is among the pages, and what is kept then are the folders of the pages before it; otherwise the reachable folders are listed without any empty collection |
| `FolderSync.EwsResource.FetchByIds` | resources/ews/ewsfetchfoldersjob.cpp:152-249 | the id-only fallback fails as a whole exactly if a page of identifiers or a request for details fails; otherwise it lists, whatever order the requests are answered in, what is reachable of the server tree without the folders that are answered with an error and were not kept, fails exactly if something is not reachable, lists an empty collection exactly if a kept folder arrives again, and reports no result exactly if there is no folder to ask for |
| `FolderSync.LeafIsLost` | resources/ews/ewsfetchfoldersjob.cpp:228-234 | a server with one folder below the root, for which the response is an error: the fetch retrieves a tree without the folder, and no error is reported |
| `FolderSync.EwsResource.AwaitMoves` | resources/ews/ewsfetchfoldersincrjob.cpp:474-487 | for every completion order of the moves the result comes once, with an error exactly if the move of one of the folders fails, and otherwise after the last one, with every folder at its target; no other folder is changed, and none whose move fails |
| `FolderSync.BesideNameless` | resources/ews/ewsresource.cpp:528-531 | what is reported turns the named collections into the new server tree, whatever moves were made before, and leaves a nameless entry as it was |
| `FolderSync.IncrementalIsExact` | resources/ews/ewsfetchfoldersincrjob.cpp:327-441 | on a faithful change list no cycle arises, a folder is blocked exactly if it was moved below a created one, local tree plus due changes minus due deletions is the new tree, and exactly the folders with a new parent are moved |
| `FolderSync.PrunedChanges` | resources/ews/ewsfetchfoldersincrjob.cpp:212-275 | when all collections that the changes need are there, the folders that are locally missing are whole branches of the new tree as well, and the changes lead from the old tree to the new one both without them |
| `FolderSync.OrphanIsLeft` | resources/ews/ewsfetchfoldersjob.cpp:274-285 | a folder that has arrived without its parent is not below the root, so the fetch fails |
| `FolderSync.MissingUntouched` | resources/ews/ewsfetchfoldersincrjob.cpp:217-262 | a change of a folder that is locally missing, or of one directly below it, needs a collection that is not there |
| `FolderSync.FetchableExactly` | resources/ews/ewsfetchfoldersincrjob.cpp:217-262 | the local collections asked for all exist exactly if every created folder comes after its created parent and updates and deletions name existing folders |
| `FolderSync.MovedIntoNew` | resources/ews/ewsfetchfoldersincrjob.cpp:327-441 | a created folder, known locally, and a folder moved into it: all that is asked for exists and the condition for a failure is met |
| `FolderSync.ReportsTwice` | resources/ews/ewsfetchfoldersincrjob.cpp:316-323 | an incremental attempt on these changes, with no failure outside, reports its failure twice |
| `FolderSync.NothingToFetch` | resources/ews/ewsfetchfoldersjob.cpp:178-198 | a full fetch from a server with nothing but the root, whose first page fails, reports no result |
| `FolderSync.UpsertIsUnion` | resources/ews/ewsresource.cpp:528-531 | storing a list that has each folder once gives the old tree overridden by the listed parents, whatever the order |
| `FolderSync.FullListIsTree` | resources/ews/ewsfetchfoldersjob.cpp:274-298 | for a tree the listing from the root is the whole tree and leaves no orphan |
| `FolderSync.ListWithEmpties` | resources/ews/ewsresource.cpp:528-531 | a listing of a tree with empty collections in it is stored as the tree with one nameless entry, and as exactly the tree if and only if there are none |
| `FolderSync.OneAnswer` | resources/ews/ewsfetchfoldersjob.cpp:231-238 | one answered detail request moves the folders that it brings from the outstanding to the received ones; with the last one the received folders are the server tree without those that are missing and were not kept, each received once exactly if all kept ones are missing |
| `FetchFolders.EwsFetchFoldersJob.ProcessRemoteFolders` | resources/ews/ewsfetchfoldersjob.cpp:251-272 | each folder has a collection without parent, and the multi-hash lists the folders under their parents as often as they were received |
| `FetchFolders.EwsFetchFoldersJob.BuildChildCollectionList` | resources/ews/ewsfetchfoldersjob.cpp:287-298 | if all folders have a parent, or each was received once, the recursion ends and does what the descent of the specification does: children in the map are taken out and listed with their own, missing ones are listed as empty collections |
| `FetchFolders.EwsFetchFoldersJob.BuildCollectionList` | resources/ews/ewsfetchfoldersjob.cpp:274-285 | the list is the root followed by its descent; the job fails exactly if the descent leaves a folder in the map |
| `FetchFolders.EwsFetchFoldersJob.RemoteFolderFullFetchDone` | resources/ews/ewsfetchfoldersjob.cpp:89-150 | pages accumulate, a failed page starts the id-only fallback and leaves earlier folders in the list, a change that is no creation fails the job, the last page lists what the descent reaches |
| `FetchFolders.EwsFetchFoldersJob.RemoteFolderIdFullFetchDone` | resources/ews/ewsfetchfoldersjob.cpp:152-210 | identifiers accumulate over the pages, and after the last page as few requests as possible of at most 50 partition them in order; a failed request, as a subjob of the composite job, ends the job with an error |
| `FetchFolders.EwsFetchFoldersJob.RemoteFolderDetailFetchDone` | resources/ews/ewsfetchfoldersjob.cpp:212-249 | any of the running requests may answer; responses that are errors are passed over, and with the last answer, and not before, the folders are listed and the result is reported; the first failed request ends the job with an error, and no list is built after it |
| `FetchFolders.DetailsComplete` | resources/ews/ewsfetchfoldersjob.cpp:231-248 | details received in any order for distinct identifiers, after folders kept from earlier pages, make up the same parent map, and are distinct folders if and only if no kept one was received again |
| `FetchFolders.WalkLists` | resources/ews/ewsfetchfoldersjob.cpp:287-298 | through any multi-hash that names the children of a tree, however often, the descent takes out exactly the folders below its start and lists each of them once, after its parent |
| `FetchFolders.WalkEmpty` | resources/ews/ewsfetchfoldersjob.cpp:287-298 | the descent lists an empty collection if and only if some folder that it reaches lists a child twice |
| `FetchFolders.ReceivedIsListed` | resources/ews/ewsfetchfoldersjob.cpp:251-298 | whatever folders were received, those reachable are listed once each and the others are left; with nothing left an empty collection is in the list if and only if a folder was received twice |
| `FetchFolders.LeftoverIsEmpty` | resources/ews/ewsfetchfoldersjob.cpp:101-122 | one folder, received before and after a page failed: the list has it and an empty collection, and the job does not fail |
| `FolderTree.ParentNotBelowChild` | resources/ews/ewsfetchfoldersjob.cpp:287-298 | with acyclic parents the parent of a folder is never inside the branch that the recursion enters |
| `FolderTree.BranchShrinks` | resources/ews/ewsfetchfoldersjob.cpp:287-298 | the branch of a child is a proper part of that of its parent, which bounds the recursion |
| `FolderTree.BranchesDisjoint` | resources/ews/ewsfetchfoldersjob.cpp:287-298 | the branches of two children of one folder have no folder in common |
| `FolderTree.AllBranches` | resources/ews/ewsfetchfoldersjob.cpp:287-298 | the branches of all listed children together are everything below their parent |
| `FolderTree.InsertListsChildren` | resources/ews/ewsfetchfoldersjob.cpp:260-266 | inserting a new child into the multi-hash keeps that each parent lists exactly its children |
| `FetchFoldersIncr.EwsFetchFoldersIncrJob.RemoteFolderIncrFetchDone` | resources/ews/ewsfetchfoldersincrjob.cpp:196-288 | the hash has the changes of each folder, and exactly the local collections needed for them are asked for; without any need, or with nothing but unknown changes, the job ends at once |
| `FetchFoldersIncr.EwsFetchFoldersIncrJob.FillIn` | resources/ews/ewsfetchfoldersincrjob.cpp:302-311 | each local collection is put into its entry, and nothing else changes |
| `FetchFoldersIncr.EwsFetchFoldersIncrJob.LocalFolderFetchDone` | resources/ews/ewsfetchfoldersincrjob.cpp:290-325 | for every iteration order, success means that no folder is blocked, the changed list has each folder once with its due parent, the deletions are exact, each moved folder has exactly one move, no blocked folder has one, and a moved parent is moved before its child; the result is reported once for a failure and once more if no move was started |
| `FetchFoldersIncr.EwsFetchFoldersIncrJob.ProcessRemoteFolders` | resources/ews/ewsfetchfoldersincrjob.cpp:327-441 | on acyclic parents the processing succeeds exactly if no folder is blocked, so the outcome does not depend on the order of the hash; it ends even on cyclic input |
| `FetchFoldersIncr.EwsFetchFoldersIncrJob.ProcessAll` | resources/ews/ewsfetchfoldersincrjob.cpp:339-419 | the first pass over the hash in any order leaves every folder either settled under its parent or deferred for reparenting |
| `FetchFoldersIncr.EwsFetchFoldersIncrJob.ReparentAll` | resources/ews/ewsfetchfoldersincrjob.cpp:421-426 | the second pass reaches every folder that hangs from a top-level one |
| `FetchFoldersIncr.EwsFetchFoldersIncrJob.ReparentRemoteFolder` | resources/ews/ewsfetchfoldersincrjob.cpp:443-461 | the reparent recursion ends and puts every folder of a branch under its due parent, moved if it must be |
| `FetchFoldersIncr.EwsFetchFoldersIncrJob.BuildLists` | resources/ews/ewsfetchfoldersincrjob.cpp:428-440 | the lists succeed exactly if nothing is left unprocessed, and then are the due changes and due deletions |
| `FetchFoldersIncr.FirstPassStep` | resources/ews/ewsfetchfoldersincrjob.cpp:340-417 | one folder of the first pass keeps the invariant over all folders seen so far |
| `FetchFoldersIncr.FirstThenSecond` | resources/ews/ewsfetchfoldersincrjob.cpp:419-426 | the state after the first pass is one from which the reparent pass may start at the top-level folders |
| `FetchFoldersIncr.AdoptStep` | resources/ews/ewsfetchfoldersincrjob.cpp:443-461 | putting a child under its parent keeps the invariant of the reparent pass and moves the child at most once |
| `FetchFoldersIncr.TopsCoverAll` | resources/ews/ewsfetchfoldersincrjob.cpp:421-426 | when all branches of top-level folders are processed, so is every folder that is not on a cycle |
| `FetchFoldersIncr.NextMove` | resources/ews/ewsfetchfoldersincrjob.cpp:463-472 | a move that comes after that of its new parent keeps the moves going down the tree, each folder once |
| `FetchFoldersIncr.AllMoved` | resources/ews/ewsfetchfoldersincrjob.cpp:343-376 | when every folder is processed, exactly the folders with a new parent have been moved |
| `FetchFoldersIncr.NothingMoved` | resources/ews/ewsfetchfoldersincrjob.cpp:343-376 | if every folder that has moved is blocked, no move is started in any order of the hash |
| `ItemResource.EwsResource.RetrieveItems` | resources/ews/ewsresource.cpp:340-359 | for every local state that has the unchanged items, the retrieval leaves the new server items, the checked items that were found and are stored or were local, and after an incremental attempt the strays that are not known to be nowhere; exactly the new server items if and only if there are no such strays and each of those found items is in the folder; the full retry from an empty sync state happens exactly if a checked item was found and is also reported; each item that was fetched carries a revision that the server has reported for it and, if none was added twice, is otherwise as it was or new and not seen, one of which only the flag has changed carries the new flag and its old revision, and every other is as it was |
| `ItemResource.AllCarry` | resources/ews/ewsfetchitemsjob.cpp:261-365 | what the job reports, once stored, gives each fetched item a revision from the lists and each item with a changed flag that flag, and leaves all others alone |
| `ItemResource.EwsResource.ItemsRetrievedIncremental` | resources/ews/ewsresource.cpp:554-558 | changed items are stored as they are reported and deleted ones removed, and all others stay as they were |
| `ItemResource.EwsResource.ItemGone` | resources/ews/ewsresource.cpp:695-705 | an own deletion or move keeps the local items in step with the server, with the deletion queued |
| `ItemResource.EwsResource.RunJob` | resources/ews/ewsfetchitemsjob.cpp:100-135 | for every interleaving of pages, local fetch and check, with or without a tag restart, the job reports once, with an error exactly if the changes do not fit, and otherwise exactly the due changes and deletions; the tags are synchronised exactly if that is needed |
| `ItemResource.EwsResource.FirstStage` | resources/ews/ewsfetchitemsjob.cpp:123-135 | the three requests are answered in any order and with any pages, empty ones too; the comparison follows when the last one is complete and not before, and is given up exactly if the tags are needed first |
| `ItemResource.IncrementalGivesServer` | resources/ews/ewsfetchitemsjob.cpp:247-366 | what the incremental comparison reports turns the local items into the new server items, found items, and strays that are not known to be nowhere |
| `ItemResource.FullGivesServer` | resources/ews/ewsfetchitemsjob.cpp:298-304 | what the full comparison reports does so from any local items, and leaves no strays |
| `ItemResource.ExactIfFoundHere` | resources/ews/ewsfetchitemsjob.cpp:225-232 | new items, found items that are taken, and strays together are the new ones if and only if there are no strays and each item taken is in the folder |
| `ItemResource.StrayIsTakenIn` | resources/ews/ewsresource.cpp:713-722 | an item whose move into the folder has failed is checked there, found in its old folder and taken in without an error |
| `ItemResource.StrayStays` | resources/ews/ewsresource.cpp:340-359 | this item is still there after a further incremental retrieval, and gone after a full one |
| `ItemResource.FitsExactly` | resources/ews/ewsfetchitemsjob.cpp:306-358 | local items in step fit the change lists if and only if no found item is also reported as changed or deleted, wherever the found items are |
| `ItemResource.FoundAndChangedDoesNotFit` | resources/ews/ewsfetchitemsjob.cpp:306-326 | one item that is checked, found and reported as changed: the lists do not fit |
| `ItemResource.ListsTell` | resources/ews/ewsfetchitemsjob.cpp:159-211 | for each item the lists say exactly whether it is new, changed, deleted, unchanged, found or nowhere |
| `ItemSync.EwsFetchItemsJob.Start` | resources/ews/ewsfetchitemsjob.cpp:100-135 | two or three requests are outstanding, the third only if there are items to check |
| `ItemSync.EwsFetchItemsJob.LocalItemFetchDone` | resources/ews/ewsfetchitemsjob.cpp:137-157 | the local items are kept, and the comparison runs exactly if this was the last of the three |
| `ItemSync.EwsFetchItemsJob.RemoteItemFetchDone` | resources/ews/ewsfetchitemsjob.cpp:159-211 | the changes of the pages accumulate, a further page is requested exactly after one that is not the last and has not failed, and the comparison runs exactly if all is complete |
| `ItemSync.EwsFetchItemsJob.CheckedItemsFetchFinished` | resources/ews/ewsfetchitemsjob.cpp:213-245 | a found item is added, one that is not found is deleted, and the comparison runs exactly if all is complete |
| `ItemSync.EwsFetchItemsJob.CompareItemLists` | resources/ews/ewsfetchitemsjob.cpp:247-401 | the comparison is given up with nothing decided exactly if the tags have not been synchronised and an added item of a known type has unknown tags, or in an incremental run a changed one has whose turn comes; otherwise the error is raised exactly if the changes do not fit, and the lists are the due ones |
| `ItemSync.EwsFetchItemsJob.MergeAdded` | resources/ews/ewsfetchitemsjob.cpp:261-296 | the comparison starts again exactly if an added item of a known type has tags that are not known; otherwise added items that are known locally leave the hash, and all with a handler are to be fetched, with a revision from the list and, if no item is added twice, otherwise as they are locally |
| `ItemSync.EwsFetchItemsJob.MergeChanged` | resources/ews/ewsfetchitemsjob.cpp:306-326 | the comparison starts again exactly if the turn of a changed item with unknown tags comes; each changed item must be among the local ones that are left, and failing one is an error exactly if one is missing; what is to be fetched carries a revision from the lists and is otherwise as it is locally |
| `ItemSync.EwsFetchItemsJob.MergeDeleted` | resources/ews/ewsfetchitemsjob.cpp:329-349 | each deletion removes its local item; a missing one is tolerated exactly if it was checked or is an own deletion |
| `ItemSync.EwsFetchItemsJob.MergeFlags` | resources/ews/ewsfetchitemsjob.cpp:351-365 | each flag change finds its local item, which is reported with the new flag and otherwise as it was, or is an error |
| `ItemSync.EwsFetchItemsJob.StartDetails` | resources/ews/ewsfetchitemsjob.cpp:372-400 | as few detail requests as possible of at most 50 items of one type partition the items to fetch |
| `ItemSync.EwsFetchItemsJob.TagSyncFinished` | resources/ews/ewsfetchitemsjob.cpp:444-452 | the comparison starts again from the same lists and gives what it would have given without the restart |
| `Subscription.EwsSubscriptionManager.ProcessEvents` | resources/ews/ewssubscriptionmanager.cpp:244-318 | an answer emits exactly what is pending and what its events make due, and leaves nothing pending; if more events are announced and the answer is finished, it emits nothing, keeps all of it pending and requests more |
| `Subscription.Run` | resources/ews/ewssubscriptionmanager.cpp:244-323 | own deletions and answers in any order: what is emitted with each of them is what the specification of the run says, and what is pending at the end |
| `Subscription.EmittedExactly` | resources/ews/ewssubscriptionmanager.cpp:302-318 | in every run of own deletions and answers, an emission asks for exactly what foreign events have asked for since the last one, however often a folder has been emitted before |
| `Subscription.PendingExactly` | resources/ews/ewssubscriptionmanager.cpp:302-318 | what is pending after a run is exactly what foreign events have asked for since the last emission |
| `Subscription.EwsSubscriptionManager.ProcessEvent` | resources/ews/ewssubscriptionmanager.cpp:250-300 | an event is dropped exactly if it is a deletion that is queued, which uses up one entry, and otherwise marks its folder, with the old folder for moves and copies |
| `Subscription.EwsSubscriptionManager.QueueUpdate` | resources/ews/ewssubscriptionmanager.cpp:320-323 | one more own deletion of the item is expected |
| `Subscription.EwsSubscriptionManager.SkipOwn` | resources/ews/ewssubscriptionmanager.cpp:252-262 | while only deletions are queued, the search to the end of the hash finds and removes an entry of the item itself, exactly if there is one |
| `Subscription.OwnEntriesExactly` | resources/ews/ewssubscriptionmanager.cpp:252-262 | the search never uses the entry of another item if and only if the queue is shielded |
| `Subscription.DeletionsShielded` | resources/ews/ewssubscriptionmanager.cpp:252-262 | a queue of deletions only is shielded |
| `Subscription.WrongEntryUsed` | resources/ews/ewssubscriptionmanager.cpp:252-262 | a queue with a modification in front of another item's deletion where the deletion of the first item uses up the entry of the second |
| `Subscription.OwnUsedUp` | resources/ews/ewssubscriptionmanager.cpp:252-262 | each queued deletion suppresses at most one event, and as many are used up as events are suppressed |
| `Subscription.DueExactly` | resources/ews/ewssubscriptionmanager.cpp:264-293 | over any sequence of events the folders due, and the folder tree, are exactly those of the events that are not the resource's own |
| `Subscription.DueFolders` | resources/ews/ewssubscriptionmanager.cpp:264-293 | spelled out by the fields of the events: the folder of each foreign item, with the folder where it was before for one that was moved or copied, and the tree for each foreign folder |
| `Subscription.DueOfConcat` | resources/ews/ewssubscriptionmanager.cpp:248-300 | events may be cut into pages anywhere without changing what is due |
| `Pop3Format.RoundTrip` | kioslave/pop3/pop3.cpp:933-1007 | un-stuffing inverts stuffing, stopping at the termination line whatever follows, if and only if the message consists of complete lines |
| `Pop3Format.UnstuffAppend` | kioslave/pop3/pop3.cpp:965-993 | un-stuffing may stop between any two bytes and go on from the state kept |
| `Pop3Format.StuffingIsByLine` | kioslave/pop3/pop3.cpp:965-993 | stuffing byte by byte is the stuffing of RFC 1939 section 3, line by line |
| `Pop3.POP3Protocol.MyRead` | kioslave/pop3/pop3.cpp:127-140 | what is handed out, followed by what is buffered and unread, is the stream from before; nothing is handed out only if nothing is left or a read has failed, which on a reliable connection none does |
| `Pop3.POP3Protocol.MyReadLine` | kioslave/pop3/pop3.cpp:142-167 | exactly the next line is handed out and exactly the bytes after it remain, on a reliable connection always |
| `Pop3.POP3Protocol.GetResponse` | kioslave/pop3/pop3.cpp:169-247 | the status is told by the first bytes of the next line, "+OK", "-ERR" or "+ ", and that line is consumed, on a reliable connection always; one command less is unanswered |
| `Pop3.StatusIndicates` | kioslave/pop3/pop3.cpp:197-246 | for every line the three comparisons tell exactly the three status indicators apart, by their bytes, and take everything else as invalid |
| `Pop3.POP3Protocol.DropLineFeed` | kioslave/pop3/pop3.cpp:969-977 | after the end of the message one more byte is taken, from the chunk or from the stream, and the rest of the chunk is put back |
| `Pop3.POP3Protocol.UnstuffChunk` | kioslave/pop3/pop3.cpp:965-993 | one chunk gives what byte-wise un-stuffing of it gives, with the state carried over |
| `Pop3.POP3Protocol.ReceiveMessage` | kioslave/pop3/pop3.cpp:933-1007 | for every way the stream is cut into reads the data is the un-stuffed message and exactly the bytes behind the termination line remain, unless a read fails, which on a reliable connection none does |
| `Pop3.POP3Protocol.SendAhead` | kioslave/pop3/pop3.cpp:920-925 | commands are sent until as many as allowed are unanswered or none are left, and the pending bytes are the replies still to be read |
| `Pop3.POP3Protocol.Download` | kioslave/pop3/pop3.cpp:917-1016 | the k-th reply yields the k-th message and at the end nothing is left over and no command unanswered; the invariant of the class, which each command sent has to meet, is that never more than the maximum are unanswered; on a reliable connection all messages are delivered exactly if all replies are positive; after a negative reply exactly the replies to the unanswered commands are still to come |
| `Pop3.MessageThenRest` | kioslave/pop3/pop3.cpp:933-1007 | a complete message is received whole and what follows it on the wire is untouched |
| `Pop3.EndingIsState` | kioslave/pop3/pop3.cpp:948-963 | the test on the last bytes of a chunk is the state of the un-stuffer |
| `Pop3.StatusLine` | kioslave/pop3/pop3.cpp:169-247 | the status line of a reply is found whatever follows it |
| `BatchFetcher.TakeChunk` | resources/imap/batchfetcher.cpp:132-161 | the first batch of numbers and the others together are the set in order; an open interval is fetched whole with what was taken before it |
| `BatchFetcher.TakeInterval` | resources/imap/batchfetcher.cpp:146-159 | one interval goes to the batch, to the rest, or is split where the batch is full |
| `BatchFetcher.OpenIsExact` | resources/imap/batchfetcher.cpp:139-145 | for an ordered set with an open end nothing is dropped if and only if what is before the open interval fits one batch |
| `BatchFetcher.RemainderDropped` | resources/imap/batchfetcher.cpp:139-145 | from 1:10 and 11:* in batches of five some numbers are never fetched |
| `BatchFetcher.UidsSplit` | resources/imap/batchfetcher.cpp:69-82 | the messages of two adjacent ranges are those of the whole range |
| `BatchFetcher.UidsExactly` | resources/imap/batchfetcher.cpp:67-111 | the wanted list has exactly the messages of the server in the interval, ascending and once each |
| `BatchFetcher.FetchMessages` | resources/imap/batchfetcher.cpp:49-224 | over a whole error-free run, with any number of messages per batch and any requests of the consumer, the batches one after the other are the messages of the interval, each once and ascending; each batch has exactly the batch size, the last one at most that; with a change limit there is one batch |
| `BatchFetcher.FetchSet` | resources/imap/batchfetcher.cpp:113-224 | the same for a given set of closed intervals, which is fetched without a search, in its order |
| `BatchFetcher.RunFetches` | resources/imap/batchfetcher.cpp:113-224 | the fetching ends with nothing left and with everything wanted requested |
| `BatchFetcher.BatchFetcher.SetSearchUids` | resources/imap/batchfetcher.cpp:49-58 | what is wanted are the messages that the server has in the interval |
| `BatchFetcher.BatchFetcher.Start` | resources/imap/batchfetcher.cpp:67-94 | the searches cover the interval without gap or overlap, in chunks of at most 2000 for servers that need it, and then the fetching starts |
| `BatchFetcher.BatchFetcher.OnUidSearchDone` | resources/imap/batchfetcher.cpp:96-111 | found and still to be searched messages together stay what is wanted, and what is left to search shrinks |
| `BatchFetcher.BatchFetcher.FetchNextBatch` | resources/imap/batchfetcher.cpp:113-174 | at most one fetch is in flight: a request during one is remembered; otherwise the next numbers are requested, or the job ends |
| `BatchFetcher.BatchFetcher.StartFetch` | resources/imap/batchfetcher.cpp:127-173 | one more batch follows those before, and all batches together are the beginning of what is wanted |
| `BatchFetcher.BatchFetcher.OnHeadersFetchDone` | resources/imap/batchfetcher.cpp:198-224 | the job ends when all that is wanted has been requested; otherwise the next fetch follows exactly if what the fetches have brought since the count was started is less than a batch, or more was asked for, and after a batch the count starts again |
| `BatchFetcher.CountExactly` | resources/imap/batchfetcher.cpp:207-216 | the count is the sum of what has been brought behind some fetch with which it came to a batch, and has not come to one since |
| `FlagsTask.ChangeFlags` | resources/imap/changeitemsflagstask.cpp:37-165 | over a whole run without errors, for any number of items, each message ends with exactly its flags and the supported added ones without the supported removed ones, and no other message changes; in each phase with flags the commands together name every UID once in order, 2000 each but for the last |
| `FlagsTask.ChangeItemsFlagsTask.Begin` | resources/imap/changeitemsflagstask.cpp:37-79 | the first active phase starts, or the change is done |
| `FlagsTask.ChangeItemsFlagsTask.PrepareJob` | resources/imap/changeitemsflagstask.cpp:81-99 | the next UIDs go into one command, 2000 or all that are left |
| `FlagsTask.ChangeItemsFlagsTask.TriggerAppendFlagsJob` | resources/imap/changeitemsflagstask.cpp:101-118 | the next command of the append phase runs, or with no supported flag the phase is passed over |
| `FlagsTask.ChangeItemsFlagsTask.TriggerRemoveFlagsJob` | resources/imap/changeitemsflagstask.cpp:120-132 | the next command of the remove phase runs, or with no supported flag the change is done |
| `FlagsTask.ChangeItemsFlagsTask.OnAppendFlagsDone` | resources/imap/changeitemsflagstask.cpp:134-151 | each step decreases phase and remaining items; the mailbox has the added flags on the messages named so far |
| `FlagsTask.ChangeItemsFlagsTask.OnRemoveFlagsDone` | resources/imap/changeitemsflagstask.cpp:153-165 | when the change is done every message has its flags plus the supported added ones minus the supported removed ones, and each UID was in exactly one command of each active phase |
| `FlagsTask.TwoPhases` | resources/imap/changeitemsflagstask.cpp:134-165 | adding in one phase and removing in the next gives each message its flags plus the added ones minus the removed ones |
| `FlagsTask.StoreParts` | resources/imap/changeitemsflagstask.cpp:81-99 | storing in two parts is storing in one, even if a message is named twice |
| `MailDispatcher.Run` | agents/maildispatcher/maildispatcheragent.cpp:54-316 | a new agent takes for every event of any sequence the step that is specified for it, through sound states only; it gets out of order exactly where a fetch fails while two items wait; the size is that of the queued items |
| `MailDispatcher.Deliver` | agents/maildispatcher/maildispatcheragent.cpp:54-316 | every event takes its step and keeps the invariant of queue, agent and job, except exactly for a failed fetch while two items wait |
| `MailDispatcher.NeverAgain` | agents/maildispatcher/outboxqueue.cpp:62-67 | in every run an item whose send job succeeded, or of which no fetch brought anything, is never taken out of the queue again |
| `MailDispatcher.NoStartWhileAborting` | agents/maildispatcher/maildispatcheragent.cpp:54-77 | in every run, if a transport starts after an abort, then at some state in between the abort had ended with an empty queue and nothing being sent |
| `MailDispatcher.StalledForEver` | agents/maildispatcher/outboxqueue.cpp:209-215 | once a fetch has brought nothing to an empty queue the agent is busy for ever and takes nothing out any more |
| `MailDispatcher.RemovedIsQueued` | agents/maildispatcher/outboxqueue.cpp:306-320 | a message that is removed joins the line at a later time if and only if it is registered, not queued or ignored, and has an entry that is due then |
| `MailDispatcher.RemovedAndChanged` | agents/maildispatcher/outboxqueue.cpp:129-139 | a run in which a message that was removed is queued, and in which its change would break the assertion |
| `MailDispatcher.NothingFetched` | agents/maildispatcher/outboxqueue.cpp:209-215 | a run that stalls: the only message is fetched and nothing comes |
| `MailDispatcher.FetchFailsWithTwo` | agents/maildispatcher/outboxqueue.cpp:202-219 | a run that ends with two fetches at a time, as a fetch fails while two more messages wait |
| `MailDispatcher.StepKeeps` | agents/maildispatcher/maildispatcheragent.cpp:54-316 | no step forgets a sent or lost item, takes one of them out, ends a stall, starts a transport while aborting, or ends an abort before the queue is drained |
| `MailDispatcher.OutboxQueue.AddIfComplete` | agents/maildispatcher/outboxqueue.cpp:62-146 | an item that is known or incomplete changes nothing; a complete one joins the line once, or waits for its time; at most one item is taken out, by an idle agent that is online; the assertion on registered items fails exactly for a message that waits for its time already |
| `MailDispatcher.OutboxQueue.CheckFuture` | agents/maildispatcher/outboxqueue.cpp:148-183 | exactly the entries that are due leave the map, and the messages among them that are still registered and not known join the line in the order of their times |
| `MailDispatcher.OutboxQueue.CollectionFetched` | agents/maildispatcher/outboxqueue.cpp:185-200 | the messages of the list are taken in one after the other, each as a single new one would be, and a failed read changes nothing; the assertion on registered items fails exactly if one is accepted for the future that is registered at its turn |
| `MailDispatcher.ReadTakesIn` | agents/maildispatcher/outboxqueue.cpp:129-146 | every complete message of a list without repetition that was unknown is known afterwards if it may be sent, and otherwise waits, registered, with an entry of its due time; only one with an older entry that is due may be known instead |
| `MailDispatcher.OutboxQueue.ItemFetched` | agents/maildispatcher/outboxqueue.cpp:202-219 | the fetched item goes to the agent; if the fetch brought nothing the item is lost and the next one is fetched, or the agent stalls |
| `MailDispatcher.OutboxQueue.ItemFetchFailed` | agents/maildispatcher/outboxqueue.cpp:202-219 | a fetch with an error is followed by two fetches if and only if at least two items wait; otherwise it is like one that brought nothing |
| `MailDispatcher.OutboxQueue.ItemRemoved` | agents/maildispatcher/outboxqueue.cpp:306-320 | an item of the queue is taken out with its size; an item that only waits for its time stays registered |
| `MailDispatcher.OutboxQueue.ItemProcessed` | agents/maildispatcher/outboxqueue.cpp:322-329 | a failed item may be queued again, a sent one stays ignored |
| `MailDispatcher.OutboxQueue.FetchOne` | agents/maildispatcher/outboxqueue.cpp:377-394 | the first item leaves the queue and is ignored from now on; it was not ignored, hence never one that has been sent |
| `MailDispatcher.OutboxQueue.InitQueue` | agents/maildispatcher/outboxqueue.cpp:50-60 | the queue is empty with size zero, and ignored items stay ignored |
| `MailDispatcher.ReleasedExactly` | agents/maildispatcher/outboxqueue.cpp:158-177 | a message is released exactly if it is due, still registered and not known, and each one once |
| `MailDispatcher.SumRemove` | agents/maildispatcher/outboxqueue.cpp:306-320 | taking an item out reduces the sum of the sizes by its size |
| `MailDispatcher.MailDispatcherAgent.Dispatch` | agents/maildispatcher/maildispatcheragent.cpp:79-132 | offline or busy nothing happens; otherwise the next item is fetched, or with an empty queue the abort and the series end; afterwards whoever could go on will be woken up |
| `MailDispatcher.MailDispatcherAgent.Abort` | agents/maildispatcher/maildispatcheragent.cpp:54-77 | the abort is set exactly if the agent is online and not idle; a live job learns of it, once, and nothing of what is true of the message changes |
| `MailDispatcher.MailDispatcherAgent.ItemFetched` | agents/maildispatcher/maildispatcheragent.cpp:204-228 | a send job is made for the item, which carries the abort mark exactly if the agent is aborting |
| `MailDispatcher.MailDispatcherAgent.JobEvent` | agents/maildispatcher/maildispatcheragent.cpp:204-228 | any callback of the send job is taken as specified: what it tells is known, no transport starts while aborting, and at the end the item is sent for good exactly if all has succeeded, and known exactly then |
| `MailDispatcher.MailDispatcherAgent.SendResult` | agents/maildispatcher/maildispatcheragent.cpp:268-316 | the agent is free again and woken up; the item was sent for good exactly if transport, removal and storing have all succeeded |
| `MailDispatcher.MailDispatcherAgent.TimerFires` | agents/maildispatcher/maildispatcheragent.cpp:315-315 | after a scheduled call an online agent is sending or has nothing to do; a series of messages starts and ends with its counts |
| `Sending.SendJob.Handle` | agents/maildispatcher/sendjob.cpp:391-404 | every callback keeps exactly one callback to wait for and makes known what it tells, an aborted job starts no transport, the job ends without error exactly if everything has succeeded, and the assertion on stored results fails exactly if there is no collection for sent mail |
| `Sending.NeverStuck` | agents/maildispatcher/sendjob.cpp:55-358 | a job that is not finished always waits for a callback that can come |
| `Sending.SendJob.DoTransport` | agents/maildispatcher/sendjob.cpp:55-93 | the traditional transport or the one of a resource starts exactly if the job is not aborted, the filter works and there is a usable transport of that kind; otherwise the failure is stored |
| `Sending.SendJob.DoPostJob` | agents/maildispatcher/sendjob.cpp:236-275 | after a transport the message is deleted, moved or its collection looked up; otherwise the failure is stored |
| `Sending.SendJob.SlotSentMailCollectionFetched` | agents/maildispatcher/sendjob.cpp:301-321 | the message is moved if there is the collection or a default one; otherwise the failure is stored against the assertion that no job is current, and exactly then that assertion fails |
| `Sending.SentMailGone` | agents/maildispatcher/sendjob.cpp:301-316 | a run of a job in which that assertion fails |
| `Sending.SendJob.OnPostJobResult` | agents/maildispatcher/sendjob.cpp:323-358 | the job ends here exactly for a deleted message, without error; a moved one is still to be marked as sent; anything else is stored as failure |
| `Sending.SendJob.DoEmitResult` | agents/maildispatcher/sendjob.cpp:369-389 | the job ends with an error exactly if storing failed or a failure was stored |
| `Sending.SendJob.Abort` | agents/maildispatcher/sendjob.cpp:412-430 | a running transport is killed if it can be, everything else goes on, and the mark is set once |
| `EntityTree.CreateTree` | migration/entitytreecreatejob.cpp:31-117 | over a whole run with every completion order, the transaction is committed if and only if no level but the last is empty, and then the created collections and items are the request with distinct real ids |
| `EntityTree.EntityTreeCreateJob.DoStart` | migration/entitytreecreatejob.cpp:38-44 | the first level and all items with real parents are sent; with nothing left the transaction is committed |
| `EntityTree.EntityTreeCreateJob.CreateNextLevelOfCollections` | migration/entitytreecreatejob.cpp:46-57 | one creation per collection of the level runs, and the level is off the list |
| `EntityTree.EntityTreeCreateJob.CreateReadyItems` | migration/entitytreecreatejob.cpp:59-74 | items with a real parent are created, the others wait in order; with nothing left the transaction is committed |
| `EntityTree.EntityTreeCreateJob.CollectionCreateJobDone` | migration/entitytreecreatejob.cpp:76-117 | for every completion order: nothing is created under a temporary parent, all that is created is the request with real ids, commit happens exactly when everything has been sent, and the next level follows when the last creation of a level is done |
| `EntityTree.EntityTreeCreateJob.AllIsThere` | migration/entitytreecreatejob.cpp:38-117 | when nothing runs any more, all is committed and created isomorphic to the request if and only if no level but the last is empty |
| `EntityTree.GapStops` | migration/entitytreecreatejob.cpp:101-112 | a request with an empty level in the middle is never committed |
| `EntityTree.ItemsStep` | migration/entitytreecreatejob.cpp:88-99 | with the real id of one collection exactly the items in it are created, under that id |
| `EntityTree.NextIsSent` | migration/entitytreecreatejob.cpp:101-112 | when a level is done all parents of the next one are real, its ids are new, and the level after it needs no patch yet |
| `EntityTree.IsomorphicAnswer` | migration/entitytreecreatejob.cpp:76-112 | an answered creation keeps all that was sent faithful to the request and the ids distinct |
| `EntityTree.AheadNext` | migration/entitytreecreatejob.cpp:101-112 | only the next level has patched parents, and patches are complete when it is sent |
| `GmailCollections.GmailRetrieveCollectionsTask.OnMailBoxesReceived` | resources/gmail/gmailretrievecollectionstask.cpp:40-241 | reported are exactly the root and all paths above accepted mailboxes, without the Gmail folder; dummies are exactly those that are no mailbox; each collection stays where it was put when its path was met first, and its parent is unreported if and only if it is directly in the Gmail folder and was no system folder then; a collection cannot be selected exactly if its first flags say so and it has not turned from a dummy into a mailbox |
| `GmailCollections.OrderMatters` | resources/gmail/gmailretrievecollectionstask.cpp:82-95 | a system folder met first as the parent of another mailbox keeps the Gmail folder as parent, and met first itself it goes to the root |
| `GmailCollections.GmailRetrieveCollectionsTask.AddMailBox` | resources/gmail/gmailretrievecollectionstask.cpp:50-236 | one mailbox adds exactly the paths above it, in any order of mailboxes; phantoms and the chats add nothing |
| `GmailCollections.GmailRetrieveCollectionsTask.AddPart` | resources/gmail/gmailretrievecollectionstask.cpp:80-234 | a new path gets one collection under the path before it, or under the root for system folders; a mailbox takes the place of its dummy |
| `GmailCollections.AcceptedExactly` | resources/gmail/gmailretrievecollectionstask.cpp:50-236 | with one more mailbox the reported paths grow by those above it, and only its own path is no dummy |
| `GmailCollections.SpecialExactly` | resources/gmail/gmailretrievecollectionstask.cpp:133-192 | the system folders are the inbox and the mailboxes with one of seven flags |
| `GmailCollections.JoinSplit` | resources/gmail/gmailretrievecollectionstask.cpp:72-80 | the parts of a name joined again are the name behind a separator |
| `GmailCollections.AboveStep` | resources/gmail/gmailretrievecollectionstask.cpp:77-80 | the paths above a longer path are those above the shorter one and the longer path itself |
| `GmailLinks.GmailLinkItemsTask.LinkItem` | resources/gmail/gmaillinkitemstask.cpp:60-68 | the labels of a message are kept, and exactly these and those before are to be resolved, each once |
| `GmailLinks.GmailLinkItemsTask.OnRetrievalDone` | resources/gmail/gmaillinkitemstask.cpp:70-78 | resolving starts with the first label, or without any label the task is finished |
| `GmailLinks.GmailLinkItemsTask.OnLabelResolved` | resources/gmail/gmaillinkitemstask.cpp:117-135 | one label at a time is resolved; when the references are retrieved every label of every message has a collection; a failure stops the task |
| `GmailLinks.GmailLinkItemsTask.Compare` | resources/gmail/gmaillinkitemstask.cpp:174-193 | a link is added exactly for a collection with more labels than links, and removed exactly for one with more links than labels |
| `GmailLinks.GmailLinkItemsTask.OnVirtualReferencesRetrieved` | resources/gmail/gmaillinkitemstask.cpp:162-203 | all fetched messages are compared and no others are touched |
| `GmailLinks.LinksAreLabels` | resources/gmail/gmaillinkitemstask.cpp:170-193 | links plus added minus removed are exactly the collections of the labels, even with labels that share one, if and only if no such collection is linked more often than it has labels; always if no link is double |
| `GmailLinks.DoubleLink` | resources/gmail/gmaillinkitemstask.cpp:175-193 | two links for one label: the comparison removes one, and with it the link |
| `GmailLinks.LinkAll` | resources/gmail/gmaillinkitemstask.cpp:60-204 | over a whole run from the retrieved messages over the resolved labels to the comparison, every fetched message ends with exactly the links of its labels if and only if it was not linked too often; if no message has any label, nothing is compared, all links stay, and that is right exactly for messages without links |
| `GmailLinks.LastLabelLost` | resources/gmail/gmaillinkitemstask.cpp:70-78 | a message that has lost its only label, with no label anywhere else, stays linked |

## Left out

- Names, rights, mime types, icons and display attributes of folders and collections: bounded lookups beside the tree.
- Folder changes: only the immediate parent of a reported collection is claimed; ancestors further up in its chain of copies may still be those from before the reparent pass.
- Requests that fail in the item job, the tag synchronisation, a POP3 read in mid-message, a STORE or a label look-up: only that no wrong result is reported is claimed, not that the job ends.
- `EwsFetchFoldersJob`: the composite job of the KDE libraries, which is not part of this model, is taken to report the first error of a subjob (`SlotResult`).
- `FetchFolders.EwsFetchFoldersJob.BuildChildCollectionList`: a folder without a parent identifier beside one that was received twice is left out, as the recursion may not end then.
- `FetchFolders.EwsFetchFoldersJob.BuildCollectionList`: likewise.
- `EwsResource`: moves that are still under way when the incremental job has failed are made or not before the full fetches, not during them; the full fetches that follow several reports of a failure run one after the other here, and reports that come late are counted before the first of them ends.
- `EwsFetchFoldersIncrJob` on cyclic parents: only termination and the safety of what is reported are claimed; which folders are left over depends on the hash order there.
- `FetchFoldersIncr.NothingMoved`: that in some order of the hash a move is started before the failure, when a moved folder is not blocked and no blocked one is above it, is not stated.
- `EwsFetchItemsJob`: for a checked item every response that is an error is taken to mean that the item is in no folder, as the code removes the item for any of them (`resources/ews/ewsfetchitemsjob.cpp:232-235`); an item that is there and could not be read is outside of `Truthful`.
- Per-type item handlers and message payloads: a detail request returns the items it was given.
- `EwsSubscriptionManager`: subscribing, watermarks, timers and reconnecting; the queue is proved to be safe for deletions, which are all that is queued.
- `Pop3.POP3Protocol.MyReadLine`: a negative result of a read, which the code adds to the length of the buffer (`kioslave/pop3/pop3.cpp:160-161`), is an empty read here, as is the end of the stream.
- `Pop3`: login, SASL, TLS and the DELE loop; status lines longer than the line limit are excluded by `Proper`, as the buffer cannot hold them.
- `BatchFetcher`: the class invariants are those of closed intervals; an open interval is treated by `TakeChunk` and `OpenIsExact`.
- `ImapSet` arithmetic of the IMAP library: a set is a sequence of intervals in the order they were added, and a search answer is such a sequence.
- `OutboxQueue`: what follows when two fetches run at a time, where the agent asserts that it has no current item.
- `MailDispatcher.OutboxQueue.ItemFetched`: a fetch of one item that brings several is left out.
- `OutboxQueue`: finding the outbox folder, its retries, and moves between folders; the timer interval is not modelled, only what happens when it fires.
- `SendJob`: a late answer of a transport resource after an invalid D-Bus reply; progress reports; sent actions and notifications.
- `EntityTreeCreateJob`: creations that fail; the transaction is then rolled back by the storage library.
- `ChangeItemsFlagsTask`: what a failed STORE has changed on the server; the task is cancelled then.
- `GmailRetrieveCollectionsTask`: the proof is for one answer of the server, starting from the root alone; flags decide only the parent and whether a collection can be selected.
- `GmailLinkItemsTask`: the mapping from label names to collection paths; a failed label leaves the task unfinished.
- Dialogs, notifications, D-Bus adaptors, configuration, wallet and HTTP: user interface and foreign code.
