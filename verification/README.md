# cbfs in Dafny

cbfs is a replicated file store. File content is kept as blobs named by their hash;
every node keeps some blobs on its own disk, and the nodes agree only through documents
in a shared Couchbase bucket that they change by compare-and-swap. This project models
the parts of cbfs where that is difficult and proves what they guarantee, over every
input and every interleaving.

| file | subject |
|---|---|
| `Cas.dfy` | the read / compute / conditional-write loop on one document, any number of updates in flight |
| `Ownership.dfy` | a blob's ownership record and the five operations on it |
| `Cluster.dfy` | garbage collection against uploads and links, in real time |
| `Replicas.dfy` | how many replicas survive guarded removals, and how a reference rescues a blob |
| `Disks.dfy` | whether the listed owners have the file on disk |
| `Leases.dfy` | leases on cluster-wide tasks: expiry, renewal, forced takeover |
| `Views.dfy`, `Collector.dfy` | the sorted file/blob view and the collector's paged walk over it |
| `Planner.dfy` | repairing and pruning replicas |
| `Conditions.dfy`, `Files.dfy`, `ConditionalWrites.dfy` | conditional headers, revisions of a file, concurrent conditional stores |
| `HashStore.dfy`, `Pipe.dfy` | writing a blob under its hash; duplicating a stream to two readers |
| `Mirror.dfy`, `Find.dfy` | the client's `upload -delete` and `find` |
| `Keys.dfy` | one key space for files, blobs and bookkeeping |
| `Options.dfy`, `Hex.dfy` | an optional value; hexadecimal names |

`dafny verify dfyconfig.toml` checks everything.

## How to read it

A protocol is a step function `Next` on a state and a `Run` over a sequence of steps; a
step that is not possible leaves the state as it is, so `Run` covers every schedule of
every length. Code that changes an object or loops is a class or a method proved against
the function that the protocol's steps use, so a theorem about runs is a theorem about
those methods. Beside what a run can never do stand lemmas on what it does: which updates,
renewals, removals and stores go through, and what they leave. A property that the code does not have in general is proved as an
if-and-only-if with the condition under which it holds; the failing direction is a
concrete run.

Six results are of that kind.

- A file can point to a condemned blob unless the two delays of the collection protocol
  together stay under fifteen minutes, unguarded removals do not forget a recent stamp,
  every file that appears has a stamp of its own, and `MinReplicas` is at least 1
  (`Cluster.CollectionIsSafeIff`).
- A node can be listed as an owner without having the file when it works on the same blob
  with two activities at once, when a rename fails while it stores a blob it already has, or
  when the bucket fails during a removal (`Disks.OwnersHoldIff`).
- Two nodes can hold a live lease at once after a forced start (`Leases.ExclusiveIff`), and
  the one that lost it may still begin one page (`Leases.TakeoverStops`).
- A retried store can keep the revision number of a document deleted in the meantime
  (`Files.RetryIsCleanIff`).
- Content and name of a blob disagree when a record is finished after a failed write put
  some bytes into its temporary file (`HashStore.ContentAddressedIff`).
- A mirror leaves remote files in place that have the name of a local directory, lie below
  the name of a local file, or lie below an empty name (`Mirror.MirrorConvergesIff`).

`Conditions.ShouldStoreIff` is similar: `If-Match` accepts an object that the header names
only weakly, where section 3.1 of RFC 7232 asks for strong comparison; that is the only
difference.

## Assumptions

- An update of a document reads it with its version, runs the callback and writes back only
  if the version is unchanged; a missing document is added if it is still missing. Stored
  documents can be decoded. Errors of the bucket appear where a result depends on them: in the
  two removals of `Ownership.Document` and in `Disks.dfy`.
- There is one clock, it does not run backwards, and times are not negative.
- View rows are sorted by array collation: element by element, a shorter array first.
- A hash or digest differs for different inputs, where a lemma says so in its `requires`.
- A pipe closed once stays closed, and after that delivers no byte.

## Model

| member | source | states |
|---|---|---|
| `Cas.CoherentRun` | blobs.go:172-191 | In every interleaving of updates of one document, each update in flight still knows the document exactly if the version it read is the present one, and its decision is the callback's on what it read. |
| `Cas.GuardHoldsAtCommit` | blobs.go:326-359 | When a write is accepted, the callback would decide the same, with the clock reading it used, on the document the write replaces; and an existing document was not changed after the callback looked at the clock. |
| `Cas.UndisturbedUpdate` | blobs.go:172-191 | An update that nobody disturbs does to the document exactly what its callback says at that moment, and leaves the other updates in flight alone. |
| `Cas.CommitEnds` | blobs.go:172-191 | A commit ends its update and no other, so that a late one can start over; the document changes only if it was accepted. |
| `Cas.RunIsSerial` | blobs.go:172-191 | Any run leaves the document as the accepted updates would if executed one after the other, each in one step, in commit order. |
| `Ownership.LatestStamp` | blobs.go:79-91 | An upper bound of all owner stamps that is one of them, or the zero time. |
| `Ownership.LatestReference` | blobs.go:92-98 | The maximum of the owner stamps and the reference stamp. |
| `Ownership.StampsStayPast` | blobs.go:169-359 | No operation leaves a stamp from the future in a record that had none. |
| `Ownership.RefusedIff` | blobs.go:169-359 | For each operation, exactly which records, stamps and counts make it refuse, and with which answer. |
| `Ownership.FieldsAfter` | blobs.go:169-359 | For each operation that is not refused, every field of the record after it: a removal takes one owner and changes nothing else, recording sets its own stamp and the length, a reference the reference, a mark the flag; and exactly when the record is deleted. |
| `Ownership.FieldsCreated` | blobs.go:182-191 | A new record lists just its creator, with the length given. |
| `Ownership.GuardPassesAtCommit` | blobs.go:243-247 | Every update that is accepted also passes its guards at the instant of acceptance; a mark or removal would then decide exactly the same. |
| `Ownership.Document.RecordOwnership` | blobs.go:169-200 | The record becomes what the step `Record` of the protocol makes of it: created, refreshed if forced, untouched if the node is known and nothing is forced; no longer garbage. |
| `Ownership.Document.ReferenceBlob` | blobs.go:202-229 | The record becomes what the step `Reference` makes of it, and is returned; a missing record gives an error. |
| `Ownership.Document.MostRecent` | blobs.go:79-91 | The scan returns the latest stamp and an owner that has it, or no owner and the zero time. |
| `Ownership.Document.MarkGarbage` | blobs.go:231-259 | The record is condemned exactly when it exists and was not referenced for a quarter of an hour; otherwise it stays and the error says why. |
| `Ownership.Document.RemoveOwnershipRecord` | blobs.go:273-313 | The owner is removed without any guard, the record deleted only if the node removed itself as the last one; the number returned is that of the owners left, -1 without a record or after an error of the bucket, and a stale number from the last attempt before if the record has vanished between attempts. |
| `Ownership.Document.MaybeRemoveOwnership` | blobs.go:322-369 | The node is removed unless the blob is live and either stamped within the hour or at its minimum; the result tells the refusals apart, and does not tell when the bucket failed and the record is unchanged. |
| `Cluster.MarkFindsNoLink` | tasks.go:681-725 | With the delays bounded, a mark that is accepted finds no file pointing to the blob and no stamp younger than a quarter of an hour. |
| `Cluster.ReleaseForgetsOnlyOld` | blobs.go:336-359 | With at least one replica required, a guarded removal never deletes the record of a live blob and forgets only stamps that are at least an hour old. |
| `Cluster.RecordRemembers` | blobs.go:169-191 | Recording ownership never lowers the latest reference. |
| `Cluster.QuietForgetsOnlyOld` | blobs.go:279-302 | An unguarded removal that another owner's stamp or a surviving reference makes up for leaves the latest reference as it is, unless it is a quarter of an hour old. |
| `Cluster.StampKept` | blobs.go:172-359 | No accepted update of any kind makes the record forget the stamp of an upload or reference from the last quarter hour. |
| `Cluster.CommitCondemns` | blobs.go:231-259 | Only a mark condemns a record, and it does so only when no file points to the blob. |
| `Cluster.InvRun` | http.go:203-258 | The collection protocol's invariant holds in every state any interleaving reaches: uploads, references, removals, marks, files appearing and vanishing, pages taken. |
| `Cluster.LongDelaysUnsafe` | blobs.go:243-247 | Whenever the delays add up to a quarter of an hour there is a run that condemns a blob a file points to. |
| `Cluster.LoudDropsUnsafe` | blobs.go:273-302 | An unguarded removal that forgets a fresh stamp has such a run too, whatever the delays. |
| `Cluster.NoMinimumUnsafe` | blobs.go:341-359 | With no minimum replica count there is such a run too: the last owner deletes a record just referenced and a late upload recreates it with an old stamp. |
| `Cluster.StamplessUnsafe` | http.go:790-797 | If a file may come back without a new stamp, with a store retried after a delete, or appear after a reference that failed, there is such a run too: the blob is condemned while no file points to it. |
| `Cluster.CollectionIsSafeIff` | http.go:790-813 | No reachable state, in any interleaving, has a file pointing to a condemned blob, if and only if the delays stay under a quarter of an hour, unguarded removals are quiet, every file that appears has a stamp of its own and the minimum is at least 1. |
| `Replicas.OwnersAfter` | blobs.go:169-359 | What each operation that goes through does to the number of owners. |
| `Replicas.BelowFloorIff` | blobs.go:336-345 | An operation takes the owner count below the smaller of its present value and the minimum exactly when the count is at or below the minimum and it is an unguarded removal of an owner, or an owner's guarded removal of a condemned blob. |
| `Replicas.ReplicaFloor` | blobs.go:322-359 | Over every run of interleaved updates without new unguarded removals, a record that is never condemned keeps at least the smaller of its starting count and the minimum, however stale the plans behind the removals. |
| `Replicas.ReferenceStays` | blobs.go:202-229 | Over every such run the record exists and keeps its reference stamp, or a later one. |
| `Replicas.ReferenceRescues` | blobs.go:202-229 | A reference accepted on a record with k owners, condemned or not, protects min(k, minimum) owners from every removal queued or in flight, until the next accepted mark, and that mark consults the clock no earlier than a quarter of an hour after the reference. |
| `Replicas.CondemnedRun` | blobs.go:333-358 | Over every run in which no ownership or reference is accepted, a condemned record stays condemned until it is gone, stays gone then, and gets no new owner. |
| `Replicas.CondemnedReleases` | blobs.go:334-358 | A guarded removal that has read a condemned record goes through whatever the clock and the minimum; the last owner's deletes the record, any other leaves the rest as it is. |
| `Replicas.CondemnedVanishes` | blobs.go:322-369 | From any state the owners of a condemned record can remove themselves one after the other, and the record is gone. |
| `Disks.OwnersAfter` | blobs.go:169-359 | What an operation does to the set of owners: only recording adds, and only the node itself; a removal that goes through takes the node off. |
| `Disks.InvRun` | files.go:33-46 | With one activity per node at a time, no first rename failing over the file and no bucket errors, in every interleaving of stores, fetches, verifications, guarded and forced removals, every owner has the file and a node about to erase its file is no owner. |
| `Disks.OverlapLosesFile` | files.go:43-46 | A store that slips between the two halves of a removal on the same node leaves it listed without a file. |
| `Disks.FailedRenamesLoseFile` | hash.go:94-104 | An owner that stores the blob again, alone and one activity at a time, loses the file and stays listed when both renames fail, as they do once the temporary file was cleaned away. |
| `Disks.BucketErrorLosesFile` | files.go:33-46 | A removal whose update met an error of the bucket erases the file of a listed owner. |
| `Disks.OwnersHoldIff` | hash.go:169-175 | Every listed owner has the file, in every run, if and only if each node finishes one activity on a blob before it starts the next, no first rename fails on a node that has the file, and the bucket makes no errors. |
| `Disks.AttemptEnds` | files.go:33-46 | When the attempt of a removal is over, it goes on to erase the file exactly when it is forced, or the record seen was missing, condemned, or stamped an hour before with more than the minimum of owners; a store ends; nothing else is touched. |
| `Disks.RemovalErases` | files.go:33-46 | In every regime and interleaving, a removal or forced removal that comes to its end without being refused has taken the file off the disk. |
| `Disks.StoreCompletes` | hash.go:169-175 | A node that stores the blob, or verifies the file it has, ends up with the file and listed, with nothing left to do. |
| `Disks.ReplaceCompletes` | hash.go:94-104 | A store whose first rename failed goes on like any other if the second works; if not, the node has no file and nothing is recorded. |
| `Disks.RemovalCompletes` | files.go:33-46 | An undisturbed removal leaves the node without the file and off the record, unless its guard refuses; then nothing has changed. |
| `Disks.ForeignCompletes` | http.go:549-553 | An undisturbed reference, mark or removal by another node takes effect on the record and touches no disk. |
| `Leases.ReadsOkNext` | tasks.go:475-501 | A renewal that has read the present marker belongs to the node the marker names, after every step. |
| `Leases.StartsIff` | tasks.go:229-249 | A start succeeds exactly when it is forced or there is no live marker; then the node holds the lease for the period, otherwise nothing changes. |
| `Leases.ExpiredThenStarts` | tasks.go:229-249 | Once the marker has expired, or if there is none, any node can start. |
| `Leases.RelockReadsIff` | tasks.go:476-489 | A renewal gets past its reading exactly when the marker is live and names the node; otherwise the run ends. |
| `Leases.RenewsIff` | tasks.go:490-507 | A renewal succeeds exactly when the marker is live and still the one that was read: then the node goes on, cleared for a page, with the marker in its name and a fresh expiry; otherwise its run ends and the marker stays. |
| `Leases.HolderGoesOn` | tasks.go:740-743 | A node that renews before each expiry and is not forced out goes through its run as if it were alone, whatever the others try: it keeps the lease and starts exactly one page for each renewal that it follows with a page. |
| `Leases.StartedRunGoesOn` | tasks.go:520-523 | After any history and a start, k renewals each followed by a page start k pages. |
| `Leases.GrantsOkRun` | tasks.go:212-263 | Over every run without forced starts, whoever holds a live lease is the node named in the marker, with the same expiry. |
| `Leases.ExclusiveIff` | tasks.go:229-249 | No two nodes ever hold live leases on a task, if and only if no start is forced. |
| `Leases.OustedRun` | tasks.go:740-743 | A node that is not named in the marker, and does not start the task again, begins exactly one more page if its last renewal had cleared it and it starts the page before it renews, otherwise none; its next renewal ends its run with nothing cleared. |
| `Leases.TakeoverStops` | tasks.go:466-507 | After any run and another node's forced start: the node begins at most the one page an earlier renewal had cleared, exactly when it gets to it before its next renewal, and that renewal, even one already half done, ends its run. |
| `Views.FileRowIff` | database.go:64 | The view has a file row for an object exactly when some file document has it as its current or an older revision. |
| `Views.BlobRowIff` | database.go:64 | The view has a blob row for an object and a node exactly when the object's record lists the node, and one without a node exactly when a record lists nobody. |
| `Views.FilesFirst` | tasks.go:678-687 | In descending order objects descend, and each object's file rows come before its blob rows. |
| `Views.StartIsExclusive` | tasks.go:681-687 | A descending query from a one-element array begins strictly below every row of that object. |
| `Collector.Query` | tasks.go:681-687 | The index where such a query begins separates exactly the rows not below the start object from those below it. |
| `Collector.LatestFileSuffices` | tasks.go:697-712 | At any blob row of a page, wherever the page was cut, comparing with the latest file row of the page decides whether the whole view has a file row for the object. |
| `Collector.NextStart` | tasks.go:706 | The next page skips exactly the rest of the object the last page ended with. |
| `Collector.SweepPage` | tasks.go:697-738 | The loop over a page, which remembers one object, queues and drops exactly what a judgement of each row against the whole view calls for. |
| `Collector.Collect` | tasks.go:673-744 | The walk ends for every limit of at least 1; pages are disjoint, in order and below the first key, the queue is exactly what their rows call for, no row is visited twice, and unless a lease is lost no object below the first key is missed. |
| `Collector.QueuedIff` | tasks.go:713-731 | A removal is queued exactly when a row on some page shows a reachable owner of an object that has no file in the whole view, whose name is that of no object in the backup, and that could be marked. |
| `Collector.DroppedIff` | tasks.go:715-717 | A record is dropped exactly when a row on some page shows it without owners and the whole view has no file for it. |
| `Collector.InBackupIff` | tasks.go:719-722 | Decoding the name and looking the bytes up finds exactly the names of objects in the backup, in either case of the letters. |
| `Collector.ObjectsBelowFirst` | tasks.go:674 | The first key lies above every hexadecimal name, so that a finished walk has visited every object. |
| `Collector.QueueRespectsFiles` | tasks.go:673-744 | Whatever the pages, a queued object is kept by no file document, its name is the hexadecimal name of no object in the backup, and the node asked to remove it is a listed owner. |
| `Collector.SweepRespectsFiles` | tasks.go:713-731 | The same row by row, also for ownerless records that are dropped. |
| `Hex.DecodesIff` | tasks.go:719-720 | Decoding gives a byte string exactly for its hexadecimal name, in any case of the letters. |
| `Hex.RoundTrip` | tasks.go:719-720 | Decoding the name of a byte string gives it back. |
| `Hex.DecodableIff` | tasks.go:719-720 | Exactly the strings of even length that consist of hexadecimal digits decode. |
| `Planner.SelectIff` | nodes.go:326-360 | The filtered list has exactly the nodes of the list that pass the test. |
| `Planner.SelectAppend` | nodes.go:326-360 | The filtered list keeps the order of the list. |
| `Planner.Minus` | nodes.go:326-340 | The double loop filters by names that do not occur in the other list, keeping order. |
| `Planner.WithAtLeast` | nodes.go:352-360 | The loop filters by free space, strictly more than asked, keeping order. |
| `Planner.ResolveNodes` | blobs.go:50-76 | The names found are exactly the owners that have a node document. |
| `Planner.CandidatesFor` | nodes.go:373-387 | Exactly the nodes that do not own the blob and have more room than its length, each once; everybody if there is no record. |
| `Planner.SalvageBlob` | blobs.go:570-591 | Requests go to the first candidates, as many as asked for (to all if the number is not positive or too large), less those the full queue refused; the result says whether any was refused. |
| `Planner.RequestsCount` | blobs.go:579-588 | No node is asked twice, no more are asked than addressed, and all of them if the queue had room. |
| `Planner.DueIff` | blobs.go:400-405 | A blob is due for repair when it has some replicas, fewer than the minimum and fewer than there are nodes, and for pruning when it has more than the maximum. |
| `Planner.Repair` | blobs.go:400-440 | A blob short of replicas: only non-owners with room are asked, each once; owners and asked together are at most the minimum; and if no request was refused and they still fall short, every node with room owns it or was asked. |
| `Planner.PruneBlob` | blobs.go:445-470 | Only owners in the node list are asked, each once; nobody if there are not too many; at least the maximum stays, exactly the maximum if all owners are in the list. |
| `Planner.RepairAndPruneAgree` | blobs.go:400-470 | With 1 <= minimum <= maximum, carrying out any part of a repair never makes the blob due for pruning, and any part of a pruning never makes it due for repair. |
| `Conditions.ContainsIffNamed` | main.go:119-136 | The substring test finds the quoted object name in a well-formed list of entity tags exactly when it is one of the tags: it never straddles two of them. |
| `Conditions.ShouldStoreIff` | main.go:118-139 | On well-formed headers the decision allows whatever sections 3.1 and 3.2 of RFC 7232 allow, and equals theirs unless `If-Match` names the object only weakly. |
| `Files.Upload.Attempt` | main.go:146-175 | One run of the callback: what it leaves in the captured document and what it wants written. |
| `Files.Upload.Store` | main.go:141-176 | A store retried over any documents ends with the decision of the recursive description, the captured document carried from attempt to attempt. |
| `Files.RetriedResult` | main.go:152-172 | A retried store writes, for any documents seen, exactly what a first attempt would have written on the last one of them that existed. |
| `Files.RetryIsCleanIff` | main.go:146-175 | A retried store writes what a first attempt on the last document would have written if and only if that document exists or none was ever seen. |
| `Files.DeletedComesBack` | main.go:153-171 | Otherwise, if old revisions are kept, the newest old revision written is the document deleted in between. |
| `Files.PutStores` | main.go:146-175 | A change without a delete between its attempts has exactly the effect of one clean store. |
| `Files.ShowsNext` | main.go:152-172 | After each store, link, delete or annotation the document shows the newest revision and an unbroken run of the ones just before it; the window grows by one up to the number asked for, annotations survive stores, and an annotation changes nothing else. |
| `Files.WindowOfHistory` | main.go:152-172 | The same after any sequence of changes with any mix of numbers of revisions to keep: the document is a window of the full history with contiguous revision numbers. |
| `Files.FindRevision` | http.go:465-488 | Looking up a revision by number returns the object stored at that revision exactly when it is retained and not the current one; asking for the current one finds nothing. |
| `ConditionalWrites.NoLostUpdate` | main.go:146-175 | After any run, the document an accepted conditional store or delete replaces is one its headers accept: named by `If-Match`, missing or not named by `If-None-Match`. |
| `ConditionalWrites.AllowedIff` | main.go:118-139 | A document passes the test on the header text exactly when the headers accept it in that sense. |
| `ConditionalWrites.CreatedOncePerAbsence` | http.go:725-734 | Over any run, accepted stores with `If-None-Match: *` are at most one more than accepted deletes of an existing file, and no more than those if the file existed. |
| `ConditionalWrites.WindowAfterAnyRun` | main.go:146-175 | After any interleaving of stores, deletes, links and annotations by any number of clients, the document shows a window of the history made by the accepted requests in the order of their commits, provided no delete came between the attempts of an accepted store. |
| `ConditionalWrites.AcceptedStoreWrites` | main.go:152-172 | After any run, what an accepted store writes over the document that is there: its own content, the annotation kept, the next revision number, the window of the length asked for, ending with the replaced revision field by field. |
| `HashStore.HashRecord.Write` | hash.go:72-78 | A write extends file, hash and count together if it succeeds; a failed one extends only the file, by what it managed to write. |
| `HashStore.HashRecord.Finish` | hash.go:80-110 | Outcome, record and stored blobs after closing, comparing with the expected hash and up to two renames, on every failure path. |
| `HashStore.HashRecord.Process` | hash.go:112-120 | If all chunks were taken, the blob stored is the concatenation of the chunks and its length is returned; if one failed, nothing is stored. |
| `HashStore.HashRecord.Close` | hash.go:122-128 | Closing removes the temporary file of an unfinished record and nothing else. |
| `HashStore.StoresRightIff` | hash.go:80-110 | A finished record's content has the hash it is stored under if and only if failed writes put no byte into the file. |
| `HashStore.FinishChanges` | hash.go:88-107 | A hash other than expected changes no stored blob; a success is stored under the expected hash; no other blob changes, and storing a blob again leaves its content. |
| `HashStore.WholeIsStored` | hash.go:80-120 | Content that arrives whole is stored under its hash, with its length counted, if it is the one expected or none was; otherwise it is refused and nothing changes. |
| `HashStore.StoresOnce` | hash.go:107-109 | A record that was stored cannot store again. |
| `HashStore.FailedRenamesErase` | hash.go:94-104 | When both renames fail, whatever was stored under the name is gone. |
| `HashStore.CleanedAwayErases` | hash.go:130-154 | A record whose temporary file was cleaned away can only fail, and takes a blob already stored under its hash with it. |
| `HashStore.ChangesOnly` | hash.go:72-128 | Removing a blob changes that one, finishing a record at most the one under the hash of what was written, nothing else any. |
| `HashStore.ContentAddressedIff` | hash.go:72-128 | Over any interleaving of records, cleanups and removals, every stored blob's content has the hash of its name at every point, if and only if no record is stored after a failed write has put bytes into its file. |
| `HashStore.SaneNextIff` | hash.go:80-110 | One step keeps content and names in agreement exactly when it does not store such a record. |
| `HashStore.LateFailureSpoils` | hash.go:169-175 | The run that a fetch can make: all of the expected content arrives, a further write fails half way, the record is finished all the same and its expected hash matches; the content stored does not. |
| `HashStore.ContentNeverChanges` | hash.go:80-110 | In a run without such a record, a name stored at two points has the same content at both, whatever was stored, refused and removed in between. |
| `Pipe.ClosingPipe.CloseWithError` | ioutil.go:80-84 | Closing takes effect once; the first reason stays. |
| `Pipe.ClosingPipe.StartRead` | ioutil.go:58-66 | Reading from the source: bytes start a push, an error without bytes closes the pipe. |
| `Pipe.ClosingPipe.EndRead` | ioutil.go:66-78 | When the push is over the first reader gets exactly the bytes that went through; an error of the source counts only if all of them did. |
| `Pipe.ClosingPipe.SecondRead` | ioutil.go:96-102 | The second reader gets the next bytes of the push, or end of file once the pipe is closed. |
| `Pipe.BytesConserved` | ioutil.go:58-109 | For every schedule of reads, pushes, source errors and closures: with no push in progress both readers have the same bytes, a prefix of what the source delivered, all of it while the pipe is open. |
| `Pipe.ClosedIsFinal` | ioutil.go:80-90 | After a closure nothing reaches the second reader, and the first ends up with the same bytes. |
| `Pipe.ClosesIff` | ioutil.go:71-84 | Exactly a closure, an error of the source without bytes, or the end of a push that got through and came with an error closes an open pipe, with that reason; the second reader then reads end of file. |
| `Pipe.ChunkPasses` | ioutil.go:58-78 | An undisturbed chunk reaches both readers whole, and an error that came with it closes the pipe after it. |
| `Pipe.ClosureCutsShort` | ioutil.go:66-70 | A push waits for the second reader; cut short by a closure it gives the first reader exactly what the second has taken of it. |
| `Mirror.SyncPath` | tools/cbfsclient/upload.go:317-381 | The three loops over local and remote names emit exactly the planned requests: uploads of files the server lacks or lists as files, both removals for names that are not local. |
| `Mirror.BothRemovals` | tools/cbfsclient/upload.go:362-381 | A listed name is removed, as a file and as a directory, exactly when it is not empty and not local. |
| `Mirror.ExecutedOnly` | tools/cbfsclient/upload.go:253-274 | A request does what it is for, path by path, and touches nothing else. |
| `Mirror.StrangeAbove` | tools/cbfsclient/upload.go:394-406 | Every remote path is a mirrored file, stuck, or at or below a name that some directory's plan removes. |
| `Mirror.StuckStays` | tools/cbfsclient/upload.go:350-381 | A stuck file survives every run. |
| `Mirror.InvRun` | tools/cbfsclient/upload.go:246-291 | While planning and workers interleave in any way, every remote file is wanted or due for removal, and every wanted file is there, still to be planned or queued with a hash that will make the worker send it. |
| `Mirror.MirrorConvergesIff` | tools/cbfsclient/upload.go:246-406 | When nothing is left to do, whatever the order of planning and execution, the server has exactly the mirrored files with the local hashes, if and only if no remote file was stuck at the start. |
| `Mirror.CanFinish` | tools/cbfsclient/upload.go:386-408 | From every state the mirror can be brought to an end. |
| `Find.Reversed` | tools/cbfsclient/find.go:129-133 | The swapping loop reverses the list. |
| `Find.Matcher.Matches` | tools/cbfsclient/find.go:113-139 | The upward walk with its memory reports the new wanted directories, shallow first, then the file, and remembers all directories above it; without a pattern it reports the file. |
| `Find.MetIff` | tools/cbfsclient/find.go:119-128 | After any list of files the memory holds exactly the directories above them, so it is closed under going up. |
| `Find.ReportedIff` | tools/cbfsclient/find.go:113-139 | Over any list of files a directory is reported exactly when it is wanted and above some file, a file exactly when it is wanted and listed. |
| `Find.OutputInOrder` | tools/cbfsclient/find.go:113-139 | Over any list of files no directory is reported twice, and none after anything below it. |
| `Keys.ResolvePath` | http.go:351-365 | The slash-stripping loop computes the name a request path stands for and its key. |
| `Keys.ResolvedIsName` | http.go:351-365 | The name is not empty and has no slash at either end; such names, and only those, stand for themselves. |
| `Keys.ResolvedAs` | http.go:353-362 | Whatever leading slashes it has, a path that ends in a slash stands for itself followed by `index.html`, the empty one for `index.html`, any other for itself. |
| `Keys.StrayKeyIff` | main.go:100-108 | A name's key is that of an ownership record or of bookkeeping exactly when the name itself is, and is short. |
| `Keys.LongKey` | main.go:100-108 | The key of a long name shows its first 32 bytes and its digest, and is short enough itself. |
| `Keys.RawKeyFoundIff` | backup.go:276-284 | A record stored under the name itself, as links and restores do, is where requests look for it exactly when the name is short. |
| `Keys.SharedKeyIff` | main.go:100-108 | Two names without a digest collision share a key exactly when one is, letter for letter, the derived key of the other, which is long. |
| `Keys.RequestsKeepApart` | http.go:351-365 | Request paths share a key exactly when they stand for the same name, and never get the key of a blob record or of bookkeeping. |

## Left out

- Ownership.Document.RecordOwnership: one uncontended run of the update loop; contention is modelled in `Cas.dfy`, where the same decisions run as interleaved steps. The same holds for the other methods of that class.
- Files.Upload.Store: the documents met by the attempts are an input; which of them can occur is the subject of `Cas.dfy`.
- Collector.Collect: the view is fixed during the walk, the limit is at least 1 (with 0 the loop does not end), and rows have three-element keys, as the view always emits.
- Planner.Repair: one row of the repair view; the loop over rows, which stops at the first full queue, and the queries with their limits are not modelled.
- Planner.CandidatesFor: takes no list of nodes to exclude, because the code does not use the one it is given.
- Pipe.ClosingPipe.CloseWithError: that the first reason stays is how the pipe of the Go library behaves; the timer is the `Close` action, possible at any moment.
- Mirror.SyncPath: names with characters that need quoting, listing errors and retries are not modelled; local names are not empty.
- Mirror.MirrorConvergesIff: the local tree does not change, nobody else writes below the destination, the server's listings are up to date (the view behind them is queried without forcing an update), removing a directory is one step, and requests do not fail.
- Find.Matcher.Matches: names are clean and relative, given as components (an absolute name would not end the code's loop); matching a base name against the pattern and the type filter are an input.
- Disks.OwnersHoldIff: storing, verifying and removing are steps of a protocol on values, not methods of a node object, because what matters is what happens between their steps; hashing the file during a verification is not modelled. `Cluster.dfy` and `Leases.dfy` are written as steps for the same reason.
- Leases.ExclusiveIff: expiry periods over thirty days, which the cache reads as absolute times, are not modelled.
- Keys.RequestsKeepApart: is about request paths; links and restores store under the name without its leading slashes as it is, for which `Keys.RawKeyFoundIff` says when requests find it. Node documents, kept under a slash and the node's name, are not modelled.
- Mutual exclusion between tasks that exclude each other, and node-local tasks: the code checks and sets the markers in separate steps, so there is nothing to prove.
- Moving blobs off a node, trimming full nodes and cleaning up after a dead one: they choose nodes and then use the guarded or unguarded removals modelled here.
- Backup and restore: the set of backed-up objects is an input of the collector.
- Expiring files, the access counters of blobs, and caching a remote blob on a read.
- HTTP routing, headers other than the conditional ones, compression, archives, DNS, configuration, logging and the user interfaces.
