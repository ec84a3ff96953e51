# OpenKB verification model

OpenKB is a local knowledge engine: it imports documents, keeps their versions in lineages,
answers questions with streamed text, and does background work next to the requests. This
project models the algorithms and protocols behind that and proves what they promise, for
all inputs, all interleavings and all runs. `dafny verify dfyconfig.toml` checks everything.

| module | models |
|---|---|
| `VersionDiff`, `LineagePositions` | matching the blocks of two document versions; numbering a lineage |
| `LocalLock`, `ReentrantLock` | the reader/writer lock and the reentrant layer over it |
| `AnswerStream` | streaming an answer across model attempts, and the client that shows it |
| `WorkerProtocol` | the three coalescing background services |
| `Conversations` | conversations, messages and answer versions under interleaved commands |
| `VersionLabels`, `VersionCatalog`, `VersionScope` | label order, confirming lineages, resolving version intent |
| `EventQueue` | the bounded log queue and the suppression of repeated events |
| `DocumentParser`, `ReaderPaging`, `SourceWindow`, `Framing` | text to blocks and checkpoints, reader pages, source windows, frames |
| `Values`, `Texts`, `Ordering`, `Predecessors` | shared definitions: options and results, white space and splitting, sorting, pointer walks |

Objects that the program updates in place are classes whose methods are proved against a
state machine or a function of the old state; the properties are lemmas about that machine
or function, over whole runs where that matters. A critical section or a transaction is one
step. Text rules, similarity scores, identifiers, clocks and model calls are parameters.

## Where the code differs from its promises

- Confirming a lineage is documented as taking a complete decision
  (openkb/documents/version_catalog.py:97), but nothing checks completeness. `StrandingDecision`
  is an accepted decision that leaves a lineage whose current document has moved away;
  `CurrentsStayInside` says exactly when that happens. `ExactLineageFound` says exactly when the
  caller's lookup after the commit (openkb/documents/versions.py:142) finds nothing, and
  `UnfoundDecision` is a decision for which it does not.
- A corpus or graph worker whose lease is old still clears the rerun mark in its locked read, so
  it can swallow a start accepted after an invalidation (`SwallowedRequest`, `StaleReadLoses`).
  Page-tree workers test the lease again there.
- In all three services the restart that should serve a marked request makes the checks of a start
  again; when they fail the request is gone although it was accepted (`RefusedRestart`).
  These two are the only ways to lose a request: `RequestNotDropped` gives the exact condition
  and `LostIsNeverRead` what it means.
- A restart already on its way puts a retired gateway back (`RetiredGatewayReturns`,
  `RetiredReturnsIffPending`) and replaces the gateway of a newer start by its own
  (`OlderGatewayWins`, `LastStartsGateway`).
- The check for a running answer (openkb/answers/conversations.py:748-758) looks at the status of
  the messages only. Selecting a version of an answer that is being generated again, or a
  recovery during a generation, takes the mark off, and the next question is let in:
  `TwoAnswersInFlight` is a run that ends with two generations in flight in one conversation.
  `OneAnswerInFlight` and `UnmarkingAllowsTwo` say that this is the only way.
- Two different labels with equal keys compare as greater in both directions (`GreaterBothWays`,
  `EqualKeysWitness`);
  order facts are therefore stated on the outcome -1.
- A heading after a skipped level can be filed below its sibling (`SkippedLevel`);
  `NestedThroughout` gives the condition under which paths are right.
- A heading whose title is white space makes a block without visible text, so a parse can be
  judged empty (`ParseAssessment`, `BlankTitleIsEmpty`).
- An empty answer would leave on screen what was there (`CompletionShowsAnswer`); generation never
  produces one (`Generate`).
- The page after the last one is readable and empty; only the one after it is refused
  (`ContentPage`).

## Model

| member | source | states |
|---|---|---|
| `VersionDiff.MatchVersionBlocks` | openkb/documents/version_diff.py:66-129 | Fails exactly when a side repeats a block id; otherwise its items render the one diff of the two block sets: strict pairs by equal rank among equally many equal bodies, similar pairs that are each other's clear favourites, and everything else unpaired, in key order; and every item says what is true of its blocks (`TellsTruth`) |
| `VersionDiff.DiffUnique` | openkb/documents/version_diff.py:66-129 | The two block sets determine the diff completely, so no tie-break inside the search can show |
| `VersionDiff.InputOrderIrrelevant` | openkb/documents/version_diff.py:66-129 | Permuting the blocks of either version changes neither the outcome nor the diff |
| `VersionDiff.ModifiedPairs` | openkb/documents/version_diff.py:343-390 | The rankings and the scan yield exactly the pairs that agree in kind, reach 0.58 and beat every rival of either block by 0.06, each once |
| `VersionDiff.ClearLeadMeansBest` | openkb/documents/version_diff.py:343-390 | Heading a ranking with a margin over the second entry is the same as beating every rival by the margin; ordinals and ids never decide |
| `VersionDiff.ClearFavourite` | openkb/documents/version_diff.py:374-389 | One scan step returns the mutual clear favourite of an old block, and nothing if there is none |
| `VersionDiff.StrictPass` | openkb/documents/version_diff.py:75-92 | Pairs groups of equal size in order and marks every block of a shared fingerprint, paired or ambiguous |
| `VersionDiff.FingerprintGroups` | openkb/documents/version_diff.py:474-480 | Groups the blocks by fingerprint, each group in document order |
| `VersionDiff.PartnersUnique` | openkb/documents/version_diff.py:66-129 | No block of either version has two partners |
| `VersionDiff.ExactCover` | openkb/documents/version_diff.py:66-129 | Each old and each new block stands in exactly one item, and no other block does |
| `VersionDiff.UnchangedIffStrict` | openkb/documents/version_diff.py:411-434 | An item is unchanged exactly if it is a strict pair, modified exactly if it is a similar pair |
| `VersionDiff.ItemsTellTruth` | openkb/documents/version_diff.py:411-453 | An item carries evidence and locator of the blocks it names; with two blocks it is in the same location exactly if their heading paths agree and moved otherwise, with the score and reason of a strict or a similar pair; with one block the location is unknown, the score 0 and no reason given, and the block has no partner |
| `VersionDiff.RankMeans` | openkb/documents/version_diff.py:71-86 | The rank that decides strict pairs counts the blocks of equal body with a smaller ordinal, or the same one and a smaller id |
| `VersionDiff.RepeatedIff` | openkb/documents/version_diff.py:483-490 | Block ids repeat exactly if there are fewer ids than blocks |
| `VersionDiff.MirrorDiff` | openkb/documents/version_diff.py:66-129 | With scores read the other way round, swapping the versions mirrors every item and adds none |
| `VersionDiff.ResultOrder` | openkb/documents/version_diff.py:114-129 | With distinct ordinals below 10^12 items with an old block come first in old order, additions follow in new order |
| `VersionDiff.KeyMeans` | openkb/documents/version_diff.py:114-129 | Items are sorted by old ordinal, new ordinal, old id and new id; additions come as if behind old ordinal 10^12, a missing new ordinal counts as 0 |
| `VersionDiff.ChangeStats` | openkb/documents/version_diff.py:263-264 | The stored counters are the numbers of items per change kind, and of moved items |
| `VersionDiff.MovedCounted` | openkb/documents/version_diff.py:263-264 | The moved counter is the number of paired blocks whose heading path changed |
| `VersionDiff.CountsAddUp` | openkb/documents/version_diff.py:263-264 | Unchanged, modified and removed items add up to the old blocks; unchanged, modified and added to the new ones |
| `LineagePositions.Positions` | openkb/documents/version_diff.py:322-340 | Terminates for cyclic data too and numbers the members 0 to n-1 without repetition: members that hang from a root in the order of their paths from it, by first different id and predecessors first, and then all members of cycles by id |
| `LineagePositions.PlaceFromRoots` | openkb/documents/version_diff.py:333-339 | The stack loop places every member at most once, each after its predecessor and in the order of the paths, and leaves no waiting child behind |
| `LineagePositions.PlacedIffRooted` | openkb/documents/version_diff.py:322-340 | The walk from the roots reaches a member exactly when its predecessors end at a root |
| `LineagePositions.AcyclicOrdersAll` | openkb/documents/version_diff.py:322-340 | Without cycles every in-lineage predecessor stands before its successors |
| `LineagePositions.ParentIff` | openkb/documents/version_diff.py:328-330 | A predecessor counts exactly if it is a member of the lineage |
| `Predecessors.AcyclicIffEnds` | openkb/documents/version_catalog.py:672-682 | Predecessor pointers are free of cycles exactly when every walk along them ends |
| `Predecessors.OrderedIsAcyclic` | openkb/documents/version_catalog.py:666-671 | A strict order that all pointers respect excludes cycles |
| `LocalLock.NextKeepsInvariant` | openkb/locks.py:58-114 | Every critical section of readers, writers and timed writers keeps the counters right, holders exclusive, and the wait guard of every sleeping thread true |
| `LocalLock.WriterAlone` | openkb/locks.py:58-114 | In every reachable state a writer is inside alone |
| `LocalLock.SomeoneCanEnter` | openkb/locks.py:58-114 | No lost wakeup: whenever nobody holds the lock and some thread wants it, an awake thread can take it at once |
| `LocalLock.ReadersYieldToWriters` | openkb/locks.py:58-71 | A thread never starts reading while a writer waits or writes |
| `LocalLock.SectionDecides` | openkb/locks.py:58-114 | In every reachable state a timed writer enters exactly if nobody is inside, gives up exactly if somebody is and its time is up, and sleeps exactly if somebody is and time remains; an untimed writer enters or sleeps by the same test; a reader enters exactly if no writer is inside or waits |
| `LocalLock.OthersWakeOnly` | openkb/locks.py:67-114 | All sleeping threads wake exactly at a writer's exit, the last reader's exit and when a timed writer gives up; nobody else moves |
| `LocalLock.LocalRwLock.EnterRead` | openkb/locks.py:58-71 | One pass of the reader's wait loop is the read step of the state machine |
| `LocalLock.LocalRwLock.LeaveRead` | openkb/locks.py:58-71 | The reader's exit wakes everybody exactly when it was the last reader |
| `LocalLock.LocalRwLock.EnterWrite` | openkb/locks.py:73-88 | One pass of the writer's wait loop, with the arrival counted once, is the write step |
| `LocalLock.LocalRwLock.EnterTimed` | openkb/locks.py:90-114 | A timed writer enters exactly if the lock is free, gives up exactly if it is taken and the time is up, and sleeps otherwise; giving up wakes the others |
| `LocalLock.LocalRwLock.LeaveWrite` | openkb/locks.py:73-88 | The writer's exit frees the lock and wakes everybody |
| `ReentrantLock.AfterKeepsInvariant` | openkb/locks.py:140-179 | Every step keeps each thread's stage, table entry, nesting and phase in the local lock in agreement |
| `ReentrantLock.ExclusiveMeansAlone` | openkb/locks.py:247-258 | The table says exclusive exactly for a thread inside as the local writer, and then no other thread is inside in either mode |
| `ReentrantLock.NestedNeverBlocks` | openkb/locks.py:146-167 | A nested acquisition is always possible, is refused without any change exactly if it would upgrade, and its exit restores the state before it |
| `ReentrantLock.OutermostExitFrees` | openkb/locks.py:171-179 | The outermost exit clears the thread's entry and its release leaves the thread outside and idle |
| `ReentrantLock.StepsPossible` | openkb/locks.py:140-240 | In every reachable state a thread outside can begin any acquisition, one under way can go on once woken, timed out or let in, one inside can nest and leave, and one leaving can release |
| `ReentrantLock.EndsByGivingUp` | openkb/locks.py:226-240 | An acquisition under way that is over without having got in was ended by an expired attempt while somebody was inside, or by a refusal of the file lock |
| `ReentrantLock.AcquiringStays` | openkb/locks.py:169-174 | An acquisition stays under way until it gets in, its time is up or the file lock refuses; only a thread that holds the local lock gets in or is refused |
| `ReentrantLock.BeginEndsIff` | openkb/locks.py:94-107 | A first attempt is over at once exactly if it is timed, its time is up and somebody is inside |
| `ReentrantLock.KbLock.Enter` | openkb/locks.py:169-174 | The outermost acquisition records one exclusive or shared hold |
| `ReentrantLock.KbLock.EnterNested` | openkb/locks.py:148-154 | Counts a nested hold, or refuses an upgrade and changes nothing |
| `ReentrantLock.KbLock.LeaveNested` | openkb/locks.py:157-166 | Undoes one nested hold |
| `ReentrantLock.KbLock.LeaveOutermost` | openkb/locks.py:177-179 | Drops the thread's entry before the local lock is released |
| `ReentrantLock.KbLock.Acquire` | openkb/locks.py:169-174 | One outermost acquisition through both layers: it waits for the local lock, enters the table if both locks let it in, or gives the local lock back when the file lock fails |
| `ReentrantLock.RefusalRestores` | openkb/locks.py:169-174 | An acquisition that the file lock refuses leaves counters, table and every thread's nesting as they were |
| `ReentrantLock.KbLock.Release` | openkb/locks.py:175-179 | One outermost release through both layers: the entry first, then the local lock |
| `ReentrantLock.AcquireReleaseRestores` | openkb/locks.py:169-179 | An acquisition that enters and its release leave counters, table and every thread's nesting as they were |
| `AnswerStream.StreamedFaithful` | openkb/answers/grounded.py:202-236 | For every interleaving of deltas, stale deltas, resets and new attempts the text a client rebuilds is the visible answer text |
| `AnswerStream.StaleSignalsIgnored` | openkb/answers/grounded.py:208-236 | Signals of an earlier attempt and repeated resets change nothing |
| `AnswerStream.StreamShowsLatest` | openkb/answers/grounded.py:208-236 | The stream is in the latest attempt announced and shows all its deltas in order, or what was there before as long as none has come; only text of that attempt counts as emitted |
| `AnswerStream.ClientShowsLatest` | frontend/src/desktop/features/answers/DesktopConversationPanel.tsx:222-236 | A client shows the latest attempt and exactly what that attempt's own events build up |
| `AnswerStream.DeliveryOrder` | openkb/answers/grounded.py:208-227 | Deliveries that keep the order within each attempt leave the client with the same attempt and text |
| `AnswerStream.ChunksJoin` | openkb/answers/grounded.py:655-657 | The fallback chunks join to the text; all have the full length but the last, which is not empty |
| `AnswerStream.CompletionShowsAnswer` | openkb/answers/grounded.py:258-303 | After an uncancelled completion the client shows the answer up to outer white space, and to the letter if it was streamed again; exactly unless the answer is empty while text is on screen |
| `AnswerStream.LateDeltasIgnored` | openkb/answers/grounded.py:273-278 | A completed answer that replaced what was on screen has a new attempt, so late deltas of earlier ones change nothing; one that only continues keeps its attempt |
| `AnswerStream.FirstAttempt` | openkb/answers/grounded.py:273-278 | An answer of which nothing was streamed goes out as attempt 1 |
| `AnswerStream.SentEvents` | openkb/answers/grounded.py:279-290 | Streaming again sends the chunks in order under one attempt, and only the first of them replaces |
| `AnswerStream.StripMeans` | openkb/answers/grounded.py:275 | Texts are compared without their outer white space, and without nothing else |
| `AnswerStream.Generate` | openkb/answers/grounded.py:390-477 | A generation is an interruption or a non-empty answer, and is undegraded exactly when the model finished in time with checked text |
| `AnswerStream.GenerationTellsCause` | openkb/answers/grounded.py:407-484 | Interruption and its code, and each degradation, occur exactly for their causes; an undegraded answer is the checked text of the model |
| `AnswerStream.EvidenceShown` | openkb/answers/grounded.py:629-635 | The evidence that stands in for an answer shows every excerpt under its number |
| `AnswerStream.AnswerAttempt.EmitDelta` | openkb/answers/grounded.py:208-227 | The emitting closure is the step that drops stale deltas and replaces on a new attempt or a pending reset |
| `AnswerStream.AnswerAttempt.ResetTo` | openkb/answers/grounded.py:229-236 | The reset closure moves to a later attempt and leaves a replacement pending |
| `AnswerStream.AnswerAttempt.StreamAgain` | openkb/answers/grounded.py:279-290 | The fallback loop sends the chunks up to the first cancellation check that says so, or all of them |
| `AnswerStream.AnswerAttempt.Finish` | openkb/answers/grounded.py:238-303 | Without an answer the outcome is interrupted with the generation's code and nothing is sent; otherwise it is interrupted exactly if one of the cancellation checks, two for each chunk streamed again and a last one, says so, with code answer_cancelled and exactly the chunks sent that precede the first such check; what is stored then is what the client saw |
| `WorkerProtocol.NextKeepsInvariant` | openkb/engine/corpus_synthesis.py:31-116 | Every start, invalidation, retirement, switch, shutdown and worker section keeps one worker per knowledge base, and every worker with a current lease (or of page trees) aware of an owed request |
| `WorkerProtocol.OneWorkerPerKb` | openkb/engine/knowledge_graph.py:21-133 | In every reachable state a knowledge base has at most one live worker, and the running mark says exactly whether it has one |
| `WorkerProtocol.RequestNotDropped` | openkb/engine/page_tree_enrichment.py:37-186 | In every run a start accepted and not yet read, retired, invalidated, switched away from or shut down is still going to be served, exactly unless a losing step came before and no start was accepted since: the request recorded in front of a corpus or graph worker with an old lease between loop test and read, or a restart refused by its own check, each with nothing else left to serve it |
| `WorkerProtocol.LostIsNeverRead` | openkb/engine/knowledge_graph.py:59-133 | A losing step is exactly what makes an owed request one that no continuation reads before the next accepted start; otherwise some continuation without a start reads it |
| `WorkerProtocol.StaleReadLoses` | openkb/engine/corpus_synthesis.py:82-85 | After the locked read of a corpus or graph worker with an old lease an owed request is never read before the next accepted start, exactly if no restart is pending |
| `WorkerProtocol.SwallowedRequest` | openkb/engine/corpus_synthesis.py:73-116 | A run after which a start accepted after an invalidation is lost, with no worker and no mark left |
| `WorkerProtocol.RefusedRestart` | openkb/engine/page_tree_enrichment.py:176-184 | A run, for each of the three services, in which the restart that should serve a request fails its own check and loses it |
| `WorkerProtocol.RetiredStaysOut` | openkb/engine/knowledge_graph.py:177-183 | A retired gateway stays out until the next accepted start, if no restart is on its way |
| `WorkerProtocol.RetiredReturnsIffPending` | openkb/engine/page_tree_enrichment.py:229-238 | Before a shutdown, a gateway that is out can come back without an accepted start exactly if a restart is pending |
| `WorkerProtocol.RetiredGatewayReturns` | openkb/engine/corpus_synthesis.py:68-116 | A run in which a restart already on its way puts a retired gateway back |
| `WorkerProtocol.LastStartsGateway` | openkb/engine/knowledge_graph.py:34-39 | The recorded gateway stays that of the last accepted start, whatever follows, exactly if no restart with another gateway was pending then |
| `WorkerProtocol.OlderGatewayWins` | openkb/engine/knowledge_graph.py:116-131 | A run in which a pending restart replaces the gateway of a newer accepted start by its own |
| `WorkerProtocol.FlagReachesRead` | openkb/engine/page_tree_enrichment.py:112-125 | The retry flag of an accepted start stays set while the request is unread, unless a pass takes it, and the pass that reads the request still has it to take |
| `WorkerProtocol.FlagHistory` | openkb/engine/page_tree_enrichment.py:43-186 | The retry flag is set exactly if a start that asked for it was accepted and since then no pass took it, nobody retired the knowledge base and its worker did not end without a rerun |
| `WorkerProtocol.FlagStaysClear` | openkb/engine/page_tree_enrichment.py:122-124 | After a pass took the flag it stays clear until a start that asks for it is accepted |
| `WorkerProtocol.InvalidatedNeverReads` | openkb/engine/page_tree_enrichment.py:94-186 | A worker that was there at an invalidation never reads a request again |
| `WorkerProtocol.InvalidationForgets` | openkb/engine/corpus_synthesis.py:62-66 | Invalidation clears gateways and rerun marks of corpus synthesis, and no tables of the other services |
| `WorkerProtocol.RetirementForgets` | openkb/engine/page_tree_enrichment.py:229-238 | Retirement clears gateway, rerun mark and, for page trees, retry flag of one knowledge base and nothing else |
| `WorkerProtocol.PassTakesGateway` | openkb/engine/knowledge_graph.py:59-133 | A pass that reads works with the gateway recorded at that moment and takes the rerun mark |
| `WorkerProtocol.NothingReadAfterShutdown` | openkb/engine/knowledge_graph.py:59-133 | After a shutdown no request is read any more |
| `WorkerProtocol.StepsPossible` | openkb/engine/page_tree_enrichment.py:94-186 | Which sections a worker can run next, at each point of its loop; a pass of corpus synthesis has no release of its own |
| `WorkerProtocol.WorkerTable.Start` | openkb/engine/corpus_synthesis.py:31-60 | Records the gateway and either marks a rerun or asks for a thread |
| `WorkerProtocol.WorkerTable.Invalidate` | openkb/engine/corpus_synthesis.py:62-66 | Raises the lease; corpus synthesis also clears gateways and marks |
| `WorkerProtocol.WorkerTable.Retire` | openkb/engine/page_tree_enrichment.py:229-238 | Removes the gateway, rerun and retry marks of one knowledge base |
| `WorkerProtocol.WorkerTable.Read` | openkb/engine/page_tree_enrichment.py:94-186 | The locked read takes the gateway and clears the rerun mark; page trees test the lease again first |
| `WorkerProtocol.WorkerTable.TakeRetry` | openkb/engine/page_tree_enrichment.py:122-124 | Takes the retry flag in a section of its own |
| `WorkerProtocol.WorkerTable.Release` | openkb/engine/knowledge_graph.py:59-133 | Check and release in one section: released exactly if no rerun is marked |
| `WorkerProtocol.WorkerTable.Finish` | openkb/engine/knowledge_graph.py:59-133 | Leaves the tables and restarts exactly if a rerun is marked and a gateway is there |
| `Conversations.RunInvariant` | openkb/answers/conversations.py:311-517 | Every run of commands with answers in flight keeps the invariant of messages, versions and tokens |
| `Conversations.OneMessageGenerating` | openkb/answers/conversations.py:748-758 | At most one message of a conversation is marked as generating |
| `Conversations.OneAnswerInFlight` | openkb/answers/conversations.py:178-285 | In every run at most one generation is in flight in a conversation, and its message is marked, as long as no selection and no recovery has taken the mark off a message a generation works on |
| `Conversations.UnmarkingAllowsTwo` | openkb/answers/conversations.py:252-285 | Where at most one marked generation is in flight, a command makes two possible afterwards exactly if it takes that mark off |
| `Conversations.TwoIffUnguarded` | openkb/answers/conversations.py:716-758 | From any consistent state commands that take no further mark off can bring two generations into flight exactly if there are two already or one without its mark |
| `Conversations.TwoAnswersInFlight` | openkb/answers/conversations.py:252-285 | A run of six commands that ends with two generations in flight in one conversation |
| `Conversations.SettledMirrorsSelected` | openkb/answers/conversations.py:432-517 | A settled answer has the status of its selected version, which is its own, or is interrupted without any version |
| `Conversations.VersionNumbers` | openkb/answers/conversations.py:432-482 | Version numbers of an answer are 1 to n without gap or repetition, and completed from 2 on |
| `Conversations.VersionsAppendOnly` | openkb/answers/conversations.py:432-482 | A version never changes while its message exists |
| `Conversations.AnswerOrigin` | openkb/answers/conversations.py:311-380 | In every reachable state each answer belongs to a question that was let in, at the next ordinal, and shows it as it was asked |
| `Conversations.VersionOrigin` | openkb/answers/conversations.py:432-482 | Each stored version has text, number and status of what a generation in flight for its answer produced |
| `Conversations.QuestionStored` | openkb/answers/conversations.py:311-380 | Messages come in only as question and pending answer of a question that is let in |
| `Conversations.MessageFixed` | openkb/answers/conversations.py:161-517 | Of a stored message only status and selection ever change |
| `Conversations.AnswerStored` | openkb/answers/conversations.py:178-250 | A first answer always, and another one if completed, is stored and selected with its text and status; otherwise no version changes and the answer goes back to its selected status |
| `Conversations.EndTakesMark` | openkb/answers/conversations.py:178-250 | A generation that ends takes the generating mark off its answer; a failed first one leaves it interrupted |
| `Conversations.SelectionShows` | openkb/answers/conversations.py:252-285 | A selection of a version of that answer in that conversation shows it with its status; any other changes nothing |
| `Conversations.DeletionTakes` | openkb/answers/conversations.py:161-177 | Deleting takes away exactly the messages of the conversation and their versions |
| `Conversations.TitlesFollowQuestions` | openkb/answers/conversations.py:366-375 | Only a question let in replaces the default title, by its first sixty characters |
| `Conversations.LastShown` | openkb/answers/conversations.py:761-765 | The selected conversation is the one created, asked in or selected in last, and none after its deletion |
| `Conversations.RecoveredSettles` | openkb/answers/conversations.py:716-732 | Recovery leaves nothing generating, settled messages untouched, and is idempotent |
| `Conversations.IssueKeepsDb` | openkb/answers/conversations.py:161-517 | Each command keeps the invariant of the tables |
| `Conversations.IssueKeepsTokens` | openkb/answers/conversations.py:178-250 | Each command keeps answers in flight consistent with their messages |
| `Conversations.ConversationContext` | openkb/answers/conversations.py:596-620 | The context is the latest exchanges, at most four, oldest first, and leaves out no newer eligible one |
| `Conversations.ContextOrigin` | openkb/answers/conversations.py:596-620 | Every exchange of the context is a question that was let in with the text a completed generation for its answer produced |
| `Conversations.LatestFour` | openkb/answers/conversations.py:596-620 | The rows with the largest ordinals in ascending order |
| `Conversations.ConversationStore.BeginTurn` | openkb/answers/conversations.py:311-380 | Fails for an unknown conversation or a running answer; otherwise adds question and pending answer at the next two ordinals |
| `Conversations.ConversationStore.BeginRegeneration` | openkb/answers/conversations.py:382-425 | Fails while an answer runs or without a selected version and question; otherwise marks the answer generating |
| `Conversations.ConversationStore.AppendAnswerVersion` | openkb/answers/conversations.py:432-482 | Adds the next version, selects it and takes over its status |
| `Conversations.ConversationStore.MarkGenerationFailed` | openkb/answers/conversations.py:484-497 | Marks the answer interrupted |
| `Conversations.ConversationStore.RestoreSelectedAnswerStatus` | openkb/answers/conversations.py:499-517 | Gives the answer the status of its selected version, or interrupted |
| `Conversations.ConversationStore.SelectAnswerVersion` | openkb/answers/conversations.py:252-285 | Succeeds exactly for a version of that answer in that conversation and takes over its status |
| `Conversations.ConversationStore.RecoverGeneratingMessages` | openkb/answers/conversations.py:716-732 | Restores every generating message |
| `VersionLabels.SemverOrder` | openkb/documents/version_labels.py:61-68 | Keys of two releases never bring an integer opposite a string, and their order is the precedence of section 11 of Semantic Versioning 2.0.0 on case-folded identifiers |
| `VersionLabels.SemverPrerelease` | openkb/documents/version_labels.py:130-139 | The pre-release loop builds the key of the dot-separated identifiers, numbers before texts |
| `VersionLabels.SchemeComparable` | openkb/documents/version_labels.py:43-107 | Within one scheme two keys are always comparable |
| `VersionLabels.CompareIsOrder` | openkb/documents/version_labels.py:97-107 | The outcome is -1 exactly if the left version comes first, 0 exactly for labels that normalise alike, nothing exactly for non-labels and unordered schemes, and 1 otherwise; the order is that of the fields: first different number or longer list, precedence of Semantic Versioning, or year, month and day |
| `VersionLabels.KeysOrderVersions` | openkb/documents/version_labels.py:56-87 | The keys of each ordered scheme order the versions as their fields do |
| `VersionLabels.NumberOfDecimal` | openkb/documents/version_labels.py:60 | Numbers in labels are read in decimal, leading zeros aside |
| `VersionLabels.FoldIgnoresCase` | openkb/documents/version_labels.py:130-139 | Identifiers are compared without the case of letters |
| `VersionLabels.BeforeIsStrictOrder` | openkb/documents/version_labels.py:97-107 | The outcome -1 is irreflexive, asymmetric and transitive |
| `VersionLabels.GreaterBothWays` | openkb/documents/version_labels.py:103-107 | Two labels compare as 1 in both directions exactly when they differ but have equal keys; otherwise the directions are opposite |
| `VersionLabels.EqualKeysWitness` | openkb/documents/version_labels.py:56-60 | The labels 1.0 and 1.00 each compare as greater than the other |
| `VersionCatalog.CatalogTables.Confirm` | openkb/documents/version_catalog.py:91-236 | One transaction: the error is that of the first failing stage and leaves the tables alone; otherwise the tables become the confirmed ones |
| `VersionCatalog.Transact` | openkb/documents/version_catalog.py:91-236 | Commits exactly the acceptable decisions, and then moves the members, rewrites the target lineage with the next revision and deletes emptied lineages |
| `VersionCatalog.Validate` | openkb/documents/version_catalog.py:98-145 | The checks in their order, each with its error; label and predecessor errors are those of the first offending member |
| `VersionCatalog.AcceptableIff` | openkb/documents/version_catalog.py:98-222 | Exactly these decisions commit: a name, distinct available documents with a full snapshot as current one, labels of the scheme that normalise apart, predecessors that are older members of the same branch without a circle, no expected revisions or exactly the stored ones of the touched lineages, a new lineage or that of a listed document, and names that normalise apart |
| `VersionCatalog.LinksGoBack` | openkb/documents/version_catalog.py:656-671 | The links pass exactly if every named predecessor is a listed member of the same branch and, under an ordered scheme, an older version |
| `VersionCatalog.RevisionsOkIff` | openkb/documents/version_catalog.py:629-648 | Expected revisions pass exactly if there are none or they name every touched lineage with its revision, and no other |
| `VersionCatalog.TargetMeans` | openkb/documents/version_catalog.py:614-626 | Without a lineage of its own the decision goes to that of the listed document created first, the smallest id deciding |
| `VersionCatalog.ConfirmedRows` | openkb/documents/version_catalog.py:185-209 | A committed member's row holds the lineage, its trimmed and its normalised label, its branch or main, its predecessor and its kind |
| `VersionCatalog.ConfirmedLineage` | openkb/documents/version_catalog.py:166-184 | The lineage's row holds the trimmed name, the confirmed state, the scheme and the current document; rows of unlisted documents stay |
| `VersionCatalog.ConfirmedAliases` | openkb/documents/version_catalog.py:210-222 | The lineage's aliases are its name, the decision's aliases and the names of the listed documents, as far as they normalise to anything |
| `VersionCatalog.ParseLabels` | openkb/documents/version_catalog.py:126-142 | Passes exactly if all labels parse and no two normalise alike |
| `VersionCatalog.LabelsDistinct` | openkb/documents/version_catalog.py:126-142 | The members of an accepted decision bear different labels |
| `VersionCatalog.ValidatePredecessors` | openkb/documents/version_catalog.py:651-682 | Reports the first bad link, and otherwise a cycle exactly if there is one; the walk always terminates |
| `VersionCatalog.WalkBack` | openkb/documents/version_catalog.py:672-682 | Following pointers with a seen set ends at a root or proves a cycle |
| `VersionCatalog.OrderRulesOutCycles` | openkb/documents/version_catalog.py:666-671 | For ordered schemes the comparison of neighbours alone excludes cycles |
| `VersionCatalog.OldestIsFirst` | openkb/documents/version_catalog.py:614-626 | No listed document is older than the one whose lineage is preferred |
| `VersionCatalog.MoveMembers` | openkb/documents/version_catalog.py:185-209 | The update loop gives each listed member its new row and leaves the others alone |
| `VersionCatalog.MoveKeepsPartition` | openkb/documents/version_catalog.py:147-236 | Lineages stay a partition of the documents without an empty lineage |
| `VersionCatalog.CurrentsStayInside` | openkb/documents/version_catalog.py:166-236 | Current documents stay inside their lineages exactly when no touched lineage loses its current document while keeping other members |
| `VersionCatalog.CompleteStrandsNothing` | openkb/documents/version_catalog.py:91-97 | A complete decision strands no current document |
| `VersionCatalog.StrandingDecision` | openkb/documents/version_catalog.py:91-236 | An accepted incomplete decision that leaves a lineage with a current document elsewhere |
| `VersionCatalog.UnfoundDecision` | openkb/documents/versions.py:142-147 | An accepted decision on one of two versions after which no lineage has exactly its members |
| `VersionCatalog.TwoVersionsReached` | openkb/documents/version_catalog.py:91-236 | The two-version lineage of these decisions is the end of a run of two imports and one confirmation |
| `VersionCatalog.RevisionsRise` | openkb/documents/version_catalog.py:152-165 | Every touched document sees a revision above all revisions touched; nobody else sees a change |
| `VersionCatalog.ExactLineageFound` | openkb/documents/versions.py:142-147 | The lookup after the commit finds its lineage exactly if the target kept no other member |
| `VersionCatalog.RunInvariant` | openkb/documents/version_catalog.py:91-236 | Along runs of imports, quarantines and confirmations lineages are a partition, and current documents lie inside them as long as decisions are complete |
| `VersionCatalog.SeenNeverFalls` | openkb/documents/version_catalog.py:152-165 | The revision a document shows never falls |
| `VersionCatalog.OneOfTwoCommits` | openkb/documents/version_catalog.py:629-648 | Of two decisions with the same expected revisions and a common document the second is out of date ever after the first committed |
| `VersionCatalog.SharedLineageSharesDocument` | openkb/documents/version_catalog.py:629-648 | Decisions on one state that touch a common lineage share a document if one of them is complete |
| `VersionCatalog.AtMostOneCommits` | openkb/documents/version_catalog.py:629-648 | Of two complete decisions drawn up on one state with the same expected revisions and a common lineage at most one commits in any run, and that once |
| `VersionCatalog.ExpectationIsNotFooled` | openkb/documents/version_catalog.py:629-648 | Even if lineages were deleted and recreated under the same id: where an expectation holds again, all its documents are in their old lineages at their old revisions |
| `VersionScope.Resolve` | openkb/documents/version_scope.py:84-188 | Resolution takes the first applicable outcome: named documents, unknown lineage, all versions, labels, previous version, latest versions |
| `VersionScope.QuestionDecides` | openkb/documents/version_scope.py:115-188 | When the filter leaves the mode open a question that asks for all versions gets them, one with a comparison phrase or two labels is compared, one with a single label is exact, and one without gets the previous or the latest version |
| `VersionScope.FilterDecides` | openkb/documents/version_scope.py:147-188 | A mode in the filter wins over the question |
| `VersionScope.OneLabelResolves` | openkb/documents/version_scope.py:488-498 | A question with one label borne by one confirmed available document is resolved to that document |
| `VersionScope.TwoLabelsResolve` | openkb/documents/version_scope.py:488-498 | A question with two labels borne by one available document each of one lineage compares these two |
| `VersionScope.NamedDocuments` | openkb/documents/version_scope.py:99-111 | A filter that names documents gets those of them that are available |
| `VersionScope.UnknownLineage` | openkb/documents/version_scope.py:113-126 | A filter that asks for a lineage nobody knows gets nothing |
| `VersionScope.KnownLabelsAre` | openkb/documents/version_scope.py:127-133 | The labels a question can name are those of confirmed members of the lineages asked for, or of all |
| `VersionScope.KeptInOrder` | openkb/documents/version_scope.py:106 | Documents named by the filter are kept one by one in its order |
| `VersionScope.ResolutionIsClosed` | openkb/documents/version_scope.py:84-188 | Allowed documents are available, preferred ones allowed, and ambiguous or unavailable outcomes allow nothing |
| `VersionScope.ResolveLabels` | openkb/documents/version_scope.py:272-357 | Resolved exactly if the number of labels fits, each has one confirmed candidate, compared versions share a lineage and all are available; ambiguous exactly if there is too much |
| `VersionScope.CandidatesAre` | openkb/documents/version_scope.py:290-300 | The candidates of a label are the confirmed members of chosen confirmed lineages that bear it |
| `VersionScope.ResolvedExact` | openkb/documents/version_scope.py:336-357 | A resolved exact scope is one available document of a confirmed lineage that bears the label |
| `VersionScope.ResolvedComparison` | openkb/documents/version_scope.py:325-357 | A resolved comparison is two different documents of one confirmed lineage that bear the two labels |
| `VersionScope.ResolutionComparesTwo` | openkb/documents/version_scope.py:134-139 | The labels a question yields differ, so its comparisons name two documents |
| `VersionScope.OneLineageNeverAmbiguous` | openkb/documents/version_scope.py:290-323 | Within one distinctly labelled lineage the right number of labels is never ambiguous |
| `VersionScope.LatestScope` | openkb/documents/version_scope.py:360-402 | Latest allows the independent documents and each selected lineage's pick; degraded exactly if a selected lineage falls back on a predecessor |
| `VersionScope.LatestMeans` | openkb/documents/version_scope.py:360-402 | Allowed are the available documents of unconfirmed lineages and the pick of each confirmed lineage asked for, or of all if none is |
| `VersionScope.LatestInOrder` | openkb/documents/version_scope.py:368-388 | Preferred documents and selected lineages follow the catalog |
| `VersionScope.AvailableMeans` | openkb/documents/version_scope.py:93-99 | Available are the available members of all lineages; offered labels are those of available members of the lineages asked for |
| `VersionScope.LatestOnePerLineage` | openkb/documents/version_scope.py:368-388 | A confirmed lineage contributes its pick, if selected, and nothing else |
| `VersionScope.LatestKeepsIndependent` | openkb/documents/version_scope.py:369-373 | Available documents of unconfirmed lineages are allowed whatever was mentioned |
| `VersionScope.NearestAvailablePredecessor` | openkb/documents/version_scope.py:524-536 | The pointer loop finds the first available predecessor, or nothing when the walk ends or repeats |
| `VersionScope.PreviousIsPredecessor` | openkb/documents/version_scope.py:405-438 | Asking for the previous version moves to the nearest predecessor if it is available and says unavailable otherwise |
| `VersionScope.PreviousApplies` | openkb/documents/version_scope.py:405-420 | The conversation decides what the previous version is exactly if it preferred a document and was about one lineage of the catalog |
| `VersionScope.UniqueVersions` | openkb/documents/version_scope.py:506-515 | The loop keeps the first label of each normal form |
| `VersionScope.FormsAreFirst` | openkb/documents/version_scope.py:506-515 | The kept labels are the values that are the first of a non-empty normal form, all of them and in order |
| `VersionScope.FormsDistinct` | openkb/documents/version_scope.py:506-515 | The kept labels have different normal forms |
| `EventQueue.BoundedQueue.Put` | openkb/diagnostics/handler.py:280-310 | Never overflows; a full queue gives up the newcomer if nothing queued is more expendable, else the oldest of the most expendable records; a closed queue refuses |
| `EventQueue.BoundedQueue.Get` | openkb/diagnostics/handler.py:312-318 | Delivers in order, and nothing exactly from a closed empty queue |
| `EventQueue.BoundedQueue.TaskDone` | openkb/diagnostics/handler.py:320-324 | Counts one delivered record as finished and keeps the account |
| `EventQueue.BoundedQueue.Close` | openkb/diagnostics/handler.py:331-334 | Closing keeps what is queued and the account of records |
| `EventQueue.BoundedQueue.Drained` | openkb/diagnostics/handler.py:326-329 | Joining ends exactly when nothing is queued or in flight, and then every record was delivered or reported dropped |
| `EventQueue.Expendable` | openkb/diagnostics/handler.py:290-305 | The two-level scan finds the oldest record of the lowest class, unless the newcomer is as low |
| `EventQueue.AdmitKeeps` | openkb/diagnostics/handler.py:280-318 | Every put record is queued, delivered or dropped exactly once, and delivery follows the order of puts |
| `EventQueue.BestSelection` | openkb/diagnostics/handler.py:280-310 | While nothing is taken the queue holds, of every class and above, as many records as fit or all of them |
| `EventQueue.Deduplicator.ShouldSuppress` | openkb/diagnostics/handler.py:395-406 | Suppresses within the window and otherwise emits with the count of suppressed repetitions |
| `EventQueue.SuppressionsAddUp` | openkb/diagnostics/handler.py:395-406 | For every key reported and pending counts add up to all suppressions |
| `EventQueue.SuppressedWithinWindow` | openkb/diagnostics/handler.py:395-406 | An event is suppressed exactly when the last emitted event of its key is less than a minute old |
| `DocumentParser.BuildDocumentIr` | openkb/importing/artifacts.py:212-268 | Every line that is not blank is in exactly one block, blocks are ordered, paragraphs are maximal and hold their source lines; fails exactly if all lines are blank |
| `DocumentParser.Scan` | openkb/importing/artifacts.py:237-263 | The line loop with its open paragraph builds those blocks |
| `DocumentParser.BlocksAreDisjoint` | openkb/importing/artifacts.py:212-268 | No line is in two blocks and no blank line is in any |
| `DocumentParser.HeadingIffReadable` | openkb/importing/artifacts.py:15 | A line is a heading exactly if it can be read as marks, blanks, a title and trailing white space |
| `DocumentParser.HeadingIsBestReading` | openkb/importing/artifacts.py:15 | Of all readings the heading pattern takes the one with most blanks and then the shortest title |
| `DocumentParser.NestedThroughout` | openkb/importing/artifacts.py:241-243 | Heading paths name the enclosing sections throughout a document exactly if no heading keeps an entry as deep as itself |
| `DocumentParser.NoSkipsNest` | openkb/importing/artifacts.py:241-243 | Documents that never skip a level keep true paths, one entry for each level |
| `DocumentParser.SkippedLevel` | openkb/importing/artifacts.py:241-243 | After a skipped level the next heading of the same depth is put below its sibling |
| `DocumentParser.StructureIsValid` | openkb/documents/usability.py:123-137 | The check accepts exactly blocks with distinct non-empty ids at their ordinals, with kinds and proper line ranges |
| `DocumentParser.AssessDocumentIr` | openkb/documents/usability.py:49-87 | The verdict is the first failing criterion in the order of the code |
| `DocumentParser.ParseIsValid` | openkb/documents/usability.py:112-137 | Parsed blocks are structurally valid, located and of known kinds |
| `DocumentParser.ParseAssessment` | openkb/documents/usability.py:68-78 | A parse is never judged invalid or unlocated, and empty exactly if it has only headings with blank titles |
| `DocumentParser.BlankTitleIsEmpty` | openkb/importing/artifacts.py:15 | A text of one heading mark and two blanks is parsed and then judged empty |
| `DocumentParser.UsableIff` | openkb/documents/usability.py:68-78 | A document is usable exactly if it has visible text, a valid structure, legible characters in the required share and number, and a location for every block |
| `DocumentParser.EmptyIff` | openkb/documents/usability.py:69-70 | Judged empty exactly if no block but figures has visible text |
| `DocumentParser.InvalidIff` | openkb/documents/usability.py:71-72 | Judged invalid exactly if there is visible text in a broken structure |
| `DocumentParser.GarbledIff` | openkb/documents/usability.py:73-74 | Judged garbled exactly if more than a fifth of the visible characters of a valid structure are illegible |
| `DocumentParser.UnlocatedIff` | openkb/documents/usability.py:75-76 | Judged unlocated exactly if a valid, mostly legible document has a block without a location |
| `DocumentParser.InsufficientIff` | openkb/documents/usability.py:77-78 | Judged insufficient exactly if all else is right and fewer legible characters than asked for are there |
| `DocumentParser.CountInMeans` | openkb/documents/usability.py:56-63 | The characters counted are those of the text of all blocks but figures |
| `DocumentParser.CountMeans` | openkb/documents/usability.py:57-63 | Counting counts the places at which the property holds |
| `DocumentParser.DocumentIrFromCheckpoint` | openkb/importing/artifacts.py:304-360 | Restores the one list of blocks a payload stands for, and fails exactly if there is none |
| `DocumentParser.CheckpointRoundTrip` | openkb/importing/artifacts.py:278-360 | A checkpoint restores exactly what was saved if that was saveable, and is refused otherwise |
| `DocumentParser.RestoredIsSaveable` | openkb/importing/artifacts.py:304-360 | Whatever is restored can be saved again and passes the usability structure check |
| `DocumentParser.ParseRoundTrip` | openkb/importing/artifacts.py:212-360 | A parse survives its checkpoint |
| `DocumentParser.EvidenceFromCheckpoint` | openkb/importing/artifacts.py:462-491 | Restores the one evidence list a payload stands for, and fails exactly if there is none |
| `DocumentParser.EvidenceRoundTrip` | openkb/importing/artifacts.py:453-491 | Saved evidence comes back as it was exactly if it gives every block its own identifier |
| `DocumentParser.FreshEvidenceRoundTrip` | openkb/importing/artifacts.py:271-275 | Fresh evidence of blocks with distinct ids survives its checkpoint |
| `Texts.JoinSplit` | openkb/importing/artifacts.py:214 | Splitting at a separator loses nothing, and no part contains the separator |
| `ReaderPaging.NextPageBoundary` | openkb/documents/raw_assets.py:519-528 | The boundary is the one that fills the page with as many whole characters as fit |
| `ReaderPaging.BoundaryUnique` | openkb/documents/raw_assets.py:519-528 | There is only one such boundary |
| `ReaderPaging.ContentPage` | openkb/documents/raw_assets.py:457-466 | A page can be read exactly if the page before it does not end the text; its text and has_more are right |
| `ReaderPaging.ReadOn` | openkb/documents/raw_assets.py:457-466 | Reading on as long as there is more ends, never fails and gives the whole text |
| `ReaderPaging.PageIsFull` | openkb/documents/raw_assets.py:519-528 | Every page fits 1 MiB, and a page with a successor has no room for the next character |
| `ReaderPaging.PagesJoin` | openkb/documents/raw_assets.py:457-466 | The first k pages are the text up to the start of page k |
| `ReaderPaging.PageForFocusOffset` | openkb/documents/raw_assets.py:507-516 | The focused page is the one that holds the offset, and can be read |
| `ReaderPaging.LineAtOffset` | openkb/documents/raw_assets.py:485-497 | The offset of a line number is where that line stands in the text |
| `ReaderPaging.LinesStart` | openkb/documents/raw_assets.py:485-497 | Numbered lines stand exactly at the start of the text and behind every line break, where a carriage return and a line feed make one |
| `ReaderPaging.LaterLines` | openkb/documents/raw_assets.py:485-497 | A later line stands further on |
| `ReaderPaging.Utf8Ranges` | openkb/documents/raw_assets.py:519-528 | A character takes one to four bytes by the range of its code point, as in section 3 of RFC 3629 |
| `ReaderPaging.ReadDocument` | openkb/documents/raw_assets.py:100-166 | For a valid line the shown page exists and contains the line's first character; otherwise the page asked for is shown if it can be read |
| `SourceWindow.NearbyBlockIndexes` | openkb/documents/source_sections.py:205-214 | All block indexes once, nearest to the anchor first, the later of two equally near first |
| `SourceWindow.PhaseDiverseBlockIndexes` | openkb/documents/source_sections.py:217-242 | With at least two child phases, exactly their blocks, all first blocks before all second ones, phases in order |
| `SourceWindow.OutlineMeans` | openkb/documents/source_sections.py:217-242 | Blocks of one heading go texts first and then by place; of equal rank, shorter headings first and then those that start first; all are under longer headings than the anchor's |
| `SourceWindow.RankMeans` | openkb/documents/source_sections.py:229-238 | The rank of a block counts the texts before a heading and what comes before it under the same heading |
| `SourceWindow.RoundRobin` | openkb/documents/source_sections.py:239-242 | Taking element d of every group for each d visits every slot once in that order |
| `SourceWindow.EveryPhaseFirst` | openkb/documents/source_sections.py:221 | No phase gets a second block before every phase got its first |
| `SourceWindow.BlockOrder` | openkb/documents/source_sections.py:172-177 | The visiting order is a permutation: first heading, then phases in turn, then nearest first |
| `SourceWindow.OrderMeans` | openkb/documents/source_sections.py:172-177 | The first heading comes before everything, blocks that take turns before all others, and the others nearest to the anchor first, the later of two as near |
| `SourceWindow.SectionMeans` | openkb/documents/source_sections.py:152-157 | A section holds the rows under its heading and, unless it is the untitled start, under every longer one |
| `SourceWindow.ChooseBlocks` | openkb/documents/source_sections.py:178-195 | The scan takes exactly the first block, the required ones, and any other that still fits after those before it |
| `SourceWindow.BoundedSourceRows` | openkb/documents/source_sections.py:144-196 | The whole short document, nothing without the anchor, the short section, or a window of the section in document order |
| `SourceWindow.CountAdds` | openkb/documents/source_sections.py:183-203 | The running total is the character count of the chosen blocks |
| `SourceWindow.CountIsLength` | openkb/documents/source_sections.py:199-203 | The character count is the length of the texts joined by blank lines |
| `SourceWindow.WindowHolds` | openkb/documents/source_sections.py:178-196 | A window contains the anchor and the first heading in ascending ordinals |
| `SourceWindow.WindowIsBounded` | openkb/documents/source_sections.py:181-203 | A window's text is at most the larger of 12000 and its first block, plus a separator and the anchor |
| `SourceWindow.WindowIsFull` | openkb/documents/source_sections.py:183-195 | No omitted block would still fit |
| `Framing.FrameReader.ReadExact` | openkb/engine/protocol.py:63-74 | Joins pieces of any size to exactly the requested bytes; a clean end only before the first byte |
| `Framing.FrameReader.ReadFrame` | openkb/engine/protocol.py:39-61 | Reads what the next frame of the remaining bytes is, with its error, and leaves the rest |
| `Framing.FrameReader.ReadAll` | openkb/engine/server.py:117-128 | Reads all frames up to the clean end or the first error |
| `Framing.RoundTrip` | openkb/engine/protocol.py:39-97 | Decoding concatenated frames gives back the list and then a clean end |
| `Framing.CutStream` | openkb/engine/protocol.py:63-74 | A stream cut anywhere yields exactly the whole frames before the cut; clean between frames, truncated inside one |
| `Framing.WholeFramesEndByCut` | openkb/engine/protocol.py:63-74 | The whole frames before a cut are those that end by it |
| `Framing.UnpackPack` | openkb/engine/protocol.py:44 | The four-byte big-endian length is read back as written |
| `Framing.PackUnpack` | openkb/engine/protocol.py:44 | The first of the four bytes weighs most, and every four bytes are those of the number they stand for |
| `Framing.FrameVerdicts` | openkb/engine/protocol.py:39-74 | What reading a frame yields: clean end, too large, truncated, invalid and an object each exactly in their cases, and what is left of the stream |
| `Framing.SentIff` | openkb/engine/protocol.py:90-97 | An object is sent exactly if its text is within the limit, behind its length |

## Left out

- SQL text, migrations, triggers and connections: tables are maps, a transaction is one step; timestamps and published catalog revisions are not modelled.
- Operating-system file locks, fsync, atomic replacement and the environment: the file lock is an arbitrary source of grants and refusals.
- Similarity scores are integers in millionths and an arbitrary function; `SequenceMatcher`, fingerprints' normalisation and floating-point rounding are not modelled.
- Regular expressions other than the heading pattern, Unicode normalisation, JSON text and SHA-256 are parameters or absent; label patterns only promise fields of their scheme.
- ResultOrder: requires non-empty old block ids, because the sort key takes an empty id for a missing one; stored ids are never empty.
- FlagReachesRead: ends with the pass that reads the request; an exception in that pass before the flag is taken drops the flag with the request.
- SharedLineageSharesDocument: speaks of decisions drawn up on the same state; for decisions of different states `OneOfTwoCommits` asks for a common document.
- Thread-start failures, interrupts inside waits, the order in which notified threads run, and join bookkeeping of workers.
- Model gateways, prompts, retrieval and the content of answers: an arbitrary source of attempts, deltas, resets and a final outcome.
- Stream events are recorded in the order in which the stream's lock admits them, while the callback runs outside it; by `DeliveryOrder` the client sees no difference as long as each attempt's events keep their order.
- Renaming conversations, drafts, search, version scopes stored with answers, and deletion as a method (it is a command of the state machine).
- `resolve_candidate`, candidates and the initial backfill of the catalog, which leave lineages unresolved on purpose.
- Navigation snapshots, selection reasons and catalog generation ids of a scope.
- The counters of dropped log records between two writes, which are swapped outside one lock, and the formatting of records.
- Restoring source images from a checkpoint: the images are carried as opaque values.
- Page offsets for structured documents; only line locators of texts are modelled.
- Locators are opaque JSON objects; which of them serialise is a parameter.
- Request routing, settings validation, evaluation gates, diagnostic bundles and the rest of the frontend.
