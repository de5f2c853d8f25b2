# Postreeve, modelled and proved

Postreeve is a mail client server. This project models the parts of it that hold state, loops and arithmetic, and proves
what a reader of the code would like to rely on, over all inputs, all runs and all interleavings. `dafny verify
dfyconfig.toml` checks everything.

Every part follows the same plan. What the code does step by step is a class or a method with the code's own loops; its
contract ties it to a function or a relation on values; and the laws are lemmas about that function or relation, usually
over whole runs. Modules whose names end in `Fields`, and others beside them, state what comes out in terms of the fields of
the input alone, so that the functions of the model are themselves checked.

- **Conversation order** (`Orders`, `PriorityQueue`, `Graphs`, `StrongComponents`, `GreedyOrder`, `GreedyLaws`,
  `DirectedGraphOrder`, `Conversation`, `ConversationLaws`, `ConversationFields`). Messages and the ids they refer to
  form a directed graph (section 3.6.4 of RFC 5322). It is ordered by an iterative search for strongly connected
  components with an explicit stack of frames, a condensation, and Kahn's algorithm over a binary heap. `GreedyOrder`
  says what the result is without any of these: the components, each time the least one whose predecessors are all
  out. That order is unique, so the answer does not depend on the order of the input; and `ConversationFields` says
  what it means for the ids and dates in the messages.
- **Threading metadata** (`ThreadingMetadata`, `ThreadingLaws`, `ThreadingOrder`, `Collation`). Several observations
  of one message merge into one record; nothing is lost, merging again changes nothing, and the order of arrival does
  not matter.
- **Gmail synchronization** (`GmailSynchronization`, `GmailCoverage`, `GmailCursorLaws`, `GmailGenerations`). Each
  call of `fetchPage` is a step of a resumable cursor. A `Feed` is a provider whose pages and label sets stay the
  same; `Step` itself allows any provider. `GmailGenerations` adds the store that keeps the pages.
- **Identity merging** (`MailView`, `MailViewLaws`, `MailViewFields`, `MailViewOrder`). Rows of the message list are
  the connected components of messages that share an identity or an alias.
- **DNS changes** (`DnsNames`, `DnsPlan`, `DnsExecution`, `DnsLaws`, `DnsSafety`, `DnsOthers`). A plan brings a zone
  in line with the required records, an executor carries it out, and a ledger remembers the records Postreeve created.
  A request may be answered, refused, or carried out with the answer lost.
- **Correspondents** (`Correspondents`, `CorrespondentIndex`, `CorrespondentFields`). Triggers keep counts per
  address; they equal a count from scratch.
- **Agent access** (`AgentAccess`, `OAuth`, `OAuthLaws`, `OAuthOrigins`, `OAuthRevocation`, `OAuthRotation`,
  `OAuthBearers`, `OAuthPages`). Grants, authorization codes, refresh rotation and revocation (sections 4.1.2, 6 and
  10.4 of RFC 6749, section 4.6 of RFC 7636) as a state machine over requests.
- **Rate limiter** (`RateLimiter`), **IMAP search** (`ImapSearch`, `ImapSearchLaws`, `ImapSearchDoubles`; section 3.1
  of RFC 4731), **draft lock** (`DraftLifecycle`, `DraftLifecycleLaws`), **draft saving** (`PromiseChain`,
  `DraftSaveQueue`, `DraftSaveLaws`, `DraftSaveInterleaving`, `DraftUploads`), and **Gmail batch actions**
  (`GmailActions`, `GmailMoves`, `GmailUndoLaws`, `GmailRepeatLaws`). `Requests` says what can become of a request.

## Assumptions

- `localeCompare` is a total order on strings (`Orders.TotalOrder`). The other string functions of the platform that
  threading uses (`normalizeMessageIdList`, joining, encoding a sequence as text, the default sort) are parameters of
  which `ThreadingMetadata.SoundText` says what is asked; `Collation.SoundTextExists` shows that it can be met.
- `absolute`, `normalizeValue` and `txtKind` are parameters of the DNS model, and the laws hold for all such functions;
  `DnsNames` has the actual `absolute`, `txtKind` and `recordKey` on ASCII text. The names of required and current
  records are already in absolute form, which is what the type promises (`src/server/dns-providers/types.ts` line 4).
- Random ids and secrets are never repeated, and hashes are injective: a secret, its hash and a counter value are the
  same number. Two changes of a DNS plan have the same id exactly when they are the same change.
- Times are whole milliseconds; a handler reads the clock once.
- Handlers without a pause between two calls of the store are single steps. The consent handler may pause while it looks
  up the accounts; the waiting page was taken out before that and the grant is made after it, and the two halves share no
  state, so they are one step.
- Addresses in the correspondents model are in lower case already.

## Where the code and its promise part

- `DnsSafety.RefusedCreateLosesRecord`: creates come before deletes so that a name is never without its record
  (`src/server/dns-providers/plan.ts` line 73), but when the provider refuses the create the delete still runs. At every
  moment of every execution a type and name has a record if and only if one it had before has not been deleted or one has
  been created (`DnsSafety.ExecutionProvidesIff`); and one that had a record keeps one throughout if and only if that holds
  at the end (`DnsSafety.NeverWithoutIff`). Executions that carry out every create, which the default selection contains,
  are a case of it.
- `CorrespondentIndex.AccountInsertDrifts`: no trigger watches inserts into the accounts table. A new account leaves the
  counts right if and only if every indexed message from its address was own already
  (`CorrespondentIndex.InsertAccountExactIff`); any later change of identities or accounts repairs them
  (`CorrespondentIndex.RecountRepairs`).
- `CorrespondentIndex.WildcardMissesOneLetter`: the SQL test for a wildcard identity asks for an address longer than the
  wildcard, so a local part of one letter is not covered although the comment says every address on the domain is.
- `GmailUndoLaws.SameMessageTwice`: `undoBatch` goes through the operations in the order in which they were applied, so
  two operations on one message are undone in the wrong order. `GmailRepeatLaws.RestoredIff` says for every batch exactly
  when a message gets its labels back; for reading and flagging, `GmailRepeatLaws.RepeatedMarksRestoredIff` reduces it to
  the items: of the operations on a label, the last but one had left it as it was. A single move is undone exactly under the
  condition of `GmailUndoLaws.UndoRestoresIff`.
- `DraftSaveLaws.LostAnswerMisleads`: when the answer to an update is lost, the queue never overwrites anything, but going
  back to the old text then reports success without writing. `DraftSaveLaws.SaveSucceedsIff` says exactly when a save
  does what it reports.
- `DnsNames.KeyTextAmbiguous`: two different records can share a record key, exactly when a part that ends in a `|` moves
  from the name of one to the value of the other (`DnsNames.CollidesIff`). A key is shared by no other one if and only if
  neither its name nor its value has a `|` (`DnsNames.KeyTextUniqueIff`).
- `ImapSearchDoubles.LargestBoundsMiscount`: with the largest bounds that the code admits, an answer is miscounted, because
  the running sum passes 2^53. `ImapSearchDoubles.CountedRightIff` gives the exact condition on the bounds; the default
  bounds of 32 bits meet it.

## Model

| member | source | states |
|---|---|---|
| `PriorityQueue.MinPriorityQueue.Push` | src/server/mail/conversation.ts:262-273 | the heap stays a heap and its contents gain exactly the pushed value |
| `PriorityQueue.MinPriorityQueue.Pop` | src/server/mail/conversation.ts:275-293 | a pop takes out a value no other compares below, keeps all the others and the heap order, and answers nothing exactly when the heap is empty |
| `PriorityQueue.MinPriorityQueue.SiftDown` | src/server/mail/conversation.ts:280-291 | moving the last value down from the root restores the heap with the same contents |
| `PriorityQueue.RootIsLeast` | src/server/mail/conversation.ts:250-294 | in a heap under a total preorder the root compares at most equal to every entry |
| `StrongComponents.FindComponents` | src/server/mail/conversation.ts:145-196 | the search terminates and yields disjoint lists of all nodes such that two nodes share a list exactly when each reaches the other, and edges never lead to a later list |
| `StrongComponents.LookAtNext` | src/server/mail/conversation.ts:168-178 | one pass over an edge keeps the search invariant and makes progress |
| `StrongComponents.Finish` | src/server/mail/conversation.ts:180-194 | closing a frame keeps the invariant, and when the node is the root of its component puts out exactly that component |
| `StrongComponents.PopMembers` | src/server/mail/conversation.ts:186-192 | the stack loop takes off exactly the part of the stack from the root on |
| `StrongComponents.TakeComponent` | src/server/mail/conversation.ts:185-194 | the finished component is put out sorted and the search goes on without it |
| `StrongComponents.ComponentMutual` | src/server/mail/conversation.ts:185-193 | when low and index of a finished node agree, everything at or above it on the stack reaches it and is reached from it |
| `StrongComponents.CloseMember` | src/server/mail/conversation.ts:180-184 | when they do not agree, handing the low value to the parent keeps the search invariant |
| `StrongComponents.ComponentCollected` | src/server/mail/conversation.ts:193 | a closed component joins the collected ones without breaking that they are the mutual-reachability classes in descending edge order |
| `GreedyOrder.GreedyRespectsReachability` | src/server/mail/conversation.ts:198-248 | every visible node comes out once, and a node that reaches another one and is not reached by it comes first, through invisible nodes and despite cycles elsewhere |
| `GreedyOrder.GreedyOrderUnique` | src/server/mail/conversation.ts:214-247 | two graphs with the same nodes and edges have the same greedy order, so the tie-break by insertion never matters |
| `GreedyOrder.GreedyIsLexicographicallyFirst` | src/server/mail/conversation.ts:236-247 | without cycles the result is the lexicographically first of all orders that respect the edges |
| `GreedyOrder.VisibleMembers` | src/server/mail/conversation.ts:238 | the listing has exactly the visible nodes |
| `GreedyLaws.RepresentativeIsLeast` | src/server/mail/conversation.ts:214-219 | a component is represented by its least visible member, or by its least member when none is visible |
| `GreedyLaws.NextIsLeast` | src/server/mail/conversation.ts:224-229 | of the components that can come next one without a visible member comes first, and otherwise the one with the least |
| `GreedyLaws.ListedBefore` | src/server/mail/conversation.ts:198-248 | one value is listed before another by the comparator, or because the other one has to wait for a visible value in between; invisible values and cycles elsewhere make no difference |
| `GreedyLaws.SortedWithoutVisibleEdges` | src/server/mail/conversation.ts:224-247 | when no edge starts at a visible value the listing is sorted, whatever invisible values there are |
| `DirectedGraphOrder.SameComponentIffMutual` | src/server/mail/conversation.ts:198-201 | the component numbers of two nodes agree exactly when each reaches the other |
| `DirectedGraphOrder.IndexComponents` | src/server/mail/conversation.ts:198-201 | every node is looked up in its own component |
| `DirectedGraphOrder.Condense` | src/server/mail/conversation.ts:202-212 | component edges are exactly the edges between different components, once each, and the counts are the numbers of predecessors |
| `DirectedGraphOrder.CondensedAcyclic` | src/server/mail/conversation.ts:202-212 | the condensation has no cycle |
| `DirectedGraphOrder.ReadyIsTotalPreorder` | src/server/mail/conversation.ts:224-229 | the heap's comparator is consistent, as the heap requires; `GreedyLaws` says what it orders by |
| `DirectedGraphOrder.Release` | src/server/mail/conversation.ts:239-245 | exactly the components whose last predecessor just came out enter the heap |
| `DirectedGraphOrder.EveryComponentOut` | src/server/mail/conversation.ts:236-246 | when nothing is ready every component is out |
| `DirectedGraphOrder.ListComponents` | src/server/mail/conversation.ts:230-247 | Kahn's loop terminates and lists every component once, each after its predecessors, always a least one of those ready |
| `DirectedGraphOrder.PickedGreedy` | src/server/mail/conversation.ts:230-247 | that list is the greedy order of the components |
| `DirectedGraphOrder.OrderDirectedGraph` | src/server/mail/conversation.ts:139-248 | the whole function returns the visible members of the greedy order |
| `Conversation.AddParents` | src/server/mail/conversation.ts:91-94 | every id an In-Reply-To field names precedes the message |
| `Conversation.AddSequence` | src/server/mail/conversation.ts:98-105 | along a reference sequence each ancestor precedes the next one and the last one the message, leaving out the message itself |
| `Conversation.AddMessage` | src/server/mail/conversation.ts:89-122 | one message adds exactly the nodes and edges its fields name |
| `Conversation.BuildGraph` | src/server/mail/conversation.ts:67-122 | the graph has exactly the nodes and precedences that some message's fields name |
| `Conversation.NodeOrderIsTotal` | src/server/mail/conversation.ts:124-134 | the comparison of nodes is consistent, so that sorting and the heap are well defined; `ConversationFields` says what it orders by |
| `Conversation.OrderConversationMessages` | src/server/mail/conversation.ts:63-137 | the result lists the messages of the greedy order of the thread graph |
| `ConversationLaws.EveryMessageOnce` | src/server/mail/conversation.ts:135-136 | with distinct ids every message comes out exactly once and nothing else does |
| `ConversationLaws.AncestorsFirst` | src/server/mail/conversation.ts:63-137 | a message that leads to another one, through known or unknown ids, without being led back to by it comes first |
| `ConversationLaws.ReplyFollowsParent` | src/server/mail/conversation.ts:91-94 | a reply follows the message its In-Reply-To field names, unless the fields form a cycle |
| `ConversationLaws.TablesIndependent` | src/server/mail/conversation.ts:67-74 | with distinct keys the lookup tables do not depend on the order of the messages |
| `ConversationLaws.ThreadGraphsAgree` | src/server/mail/conversation.ts:67-122 | permuted input gives the same nodes and precedences |
| `ConversationLaws.ConversationOrderIndependent` | src/server/mail/conversation.ts:63-137 | with distinct ids, message ids and identity keys every permutation of the input gives the same sequence |
| `ConversationFields.FollowsListed` | src/server/mail/conversation.ts:89-122 | a message follows every message that its In-Reply-To, References, reference sequences or threading edges list, unless the fields form a cycle |
| `ConversationFields.AncestorsAsListed` | src/server/mail/conversation.ts:96-116 | messages that a list of ancestors names, whoever brings it, come in the order of that list, unless the fields form a cycle |
| `ConversationFields.DatesDecide` | src/server/mail/conversation.ts:124-136 | without a cycle two messages come oldest first, undated last and then by identity, unless the one that comes later had to wait for a message in between |
| `ConversationFields.UnthreadedByDate` | src/server/mail/conversation.ts:124-136 | messages that name no message of the conversation come simply in that order, whatever other ids they name |
| `ThreadingMetadata.AddAdjacent` | src/server/mail/conversation.ts:53-59 | a sequence adds exactly its adjacent pairs of known values |
| `ThreadingMetadata.MergeReferenceSequences` | src/server/mail/conversation.ts:46-61 | the references come out in the greedy order of the evidence's adjacent pairs |
| `ThreadingMetadata.MergeThreadingMetadata` | src/server/mail/conversation.ts:17-44 | the merged record holds all parents sorted, the ordered references, their union as edges and the evidence |
| `ThreadingLaws.NothingLost` | src/server/mail/conversation.ts:24-43 | an id or sequence is in the merged record exactly when some observation or row has it |
| `ThreadingLaws.MergeDetermined` | src/server/mail/conversation.ts:24-43 | merges that know the same parents, references and sequences return the same record |
| `ThreadingLaws.RowOrderIndependent` | src/server/mail/conversation.ts:24-37 | the rows may come in any order and any number of times |
| `ThreadingLaws.RetainedKnows` | src/server/mail/conversation.ts:17-44 | retaining a merged record is as good as retaining everything that went into it |
| `ThreadingLaws.MergeIdempotent` | src/server/mail/conversation.ts:17-44 | merging the same observation into its own result returns that result |
| `ThreadingLaws.ObservationsCommute` | src/server/mail/conversation.ts:17-44 | two observations one after the other give the same record in either order |
| `ThreadingOrder.ReferencesFollowSequences` | src/server/mail/conversation.ts:53-60 | where the sequences do not contradict one another the references come in their order |
| `ThreadingOrder.UnrelatedSorted` | src/server/mail/conversation.ts:60 | references that no sequence has next to each other come in alphabetical order |
| `ThreadingOrder.EdgesSorted` | src/server/mail/conversation.ts:33-41 | the edges are the parents and references, once each and sorted, and the sequences are sorted by their encoding |
| `Collation.CodeUnitOrderIsTotal` | src/server/mail/conversation.ts:26 | the default sort order compares strings consistently and tells different ones apart |
| `Collation.SoundTextExists` | src/server/mail/conversation.ts:17-44 | there are string functions with everything the threading laws ask for |
| `GmailSynchronization.FillPage` | src/server/mail/gmail-synchronization.ts:102-110 | a page takes as many due locations as the request and the size limit have room for |
| `GmailSynchronization.FinishPage` | src/server/mail/gmail-synchronization.ts:95-147 | the halving loop terminates with a page within the limit that still holds a prefix of the due locations, and fails only when even the smallest page is too large |
| `GmailSynchronization.CutPage` | src/server/mail/gmail-synchronization.ts:138-146 | a page is cut in half as often as it takes to fit and no further, a page of one message first puts off its location set, and only oversized content fails |
| `GmailSynchronization.FetchPage` | src/server/mail/gmail-synchronization.ts:56-148 | one call is one step of the relation that the laws below are about |
| `GmailCoverage.StepAdvances` | src/server/mail/gmail-synchronization.ts:95-137 | a successful step on a stable feed emits the next part of what is owed, leaves exactly the rest owed, and decreases the work that is left |
| `GmailCoverage.StepSucceeds` | src/server/mail/gmail-synchronization.ts:88-147 | on a stable feed nothing but oversized content stops a step |
| `GmailCoverage.NextKeepsRest` | src/server/mail/gmail-synchronization.ts:119-128 | moving to the next message, page or stage skips and repeats nothing |
| `GmailCoverage.RunEmits` | src/server/mail/gmail-synchronization.ts:56-148 | a run emits what its cursor owed, in order and without repetition, all of it when it completes, in at most the bounded number of steps |
| `GmailCoverage.FullSynchronizationCovers` | src/server/mail/gmail-synchronization.ts:46-54 | a complete synchronization from scratch has emitted every location of every listed id once per occurrence, each occurrence's location set after its last location, and then the history since the id read before the listing |
| `GmailCoverage.CheckpointNeverPassesWork` | src/server/mail/gmail-synchronization.ts:74-87 | whenever the history id of a run is no longer the checkpoint it began with, every id of every history page since that checkpoint has had its location set emitted |
| `GmailCoverage.StepSnapshot` | src/server/mail/gmail-synchronization.ts:133-134 | a step of a repair reports exactly the locations it emits to its generation, and completion only on the last one |
| `GmailCoverage.GenerationSeesAll` | src/server/mail/gmail-synchronization.ts:133-134 | when a generation is complete it has seen every location the repair emitted |
| `GmailCursorLaws.CursorAlwaysProgresses` | src/server/sync/store.ts:184 | no page that promises more carries the cursor it was asked with, which the store would refuse |
| `GmailCursorLaws.PagesFit` | src/server/mail/gmail-synchronization.ts:139-146 | every page built from a batch encodes to at most the page limit, whatever the provider answers |
| `GmailCursorLaws.CheckpointMovesOnlyOnCompletion` | src/server/mail/gmail-synchronization.ts:123-128 | the history id changes only on the page that completes a history, with no page, message or location set left |
| `GmailCursorLaws.RestartStep` | src/server/mail/gmail-synchronization.ts:88-93 | a restart of a repair raises its counter by one and takes a freshly read history id; any other unfinished step keeps both |
| `GmailCursorLaws.RepairRestartsBounded` | src/server/mail/gmail-synchronization.ts:33-47 | one repair starts over at most three times, whatever the provider answers |
| `GmailCursorLaws.CheckpointIsReadFirst` | src/server/mail/gmail-synchronization.ts:46-54 | against any provider a repair keeps, until it completes, the history id read before its listing, by itself or by its latest restart |
| `GmailCursorLaws.RepairCompletes` | src/server/mail/gmail-synchronization.ts:74-87 | a repair completes only on a history page that was asked for since that id, and takes over that page's history id |
| `GmailCursorLaws.ErrorsByStatus` | src/server/mail/gmail-synchronization.ts:88-93 | exactly which errors start a repair over and with which cursor, and which fail the step |
| `GmailCursorLaws.GoneMessageSettles` | src/server/mail/gmail-synchronization.ts:95-100 | a message that is gone settles in no mailbox, and any other error about it fails the step |
| `GmailGenerations.SynchronizationStore.TakeSnapshot` | src/server/sync/store.ts:442-479 | a snapshot of a completed generation is refused, and so is one that does not belong to the generation the store is in; otherwise the generation starts, goes on or is completed |
| `GmailGenerations.SynchronizationStore.Commit` | src/server/sync/store.ts:149-218 | a page within the item limit whose cursor moved and whose snapshot is accepted is stored with its cursor; any other one changes nothing |
| `GmailGenerations.CompletingCursor` | src/server/mail/gmail-synchronization.ts:123-128 | a page that completes carries the cursor of an increment at its beginning, with the answered history id and no generation |
| `GmailGenerations.StoreNeverRefuses` | src/server/sync/store.ts:149-218 | whatever the provider answers, and whichever pages are lost or forgotten on the way, every page is accepted |
| `GmailGenerations.CompleteIsFinal` | src/server/sync/store.ts:446 | once a page that completes a generation is stored, no later page carries a snapshot of it |
| `MailView.FindMatched` | src/web/mail-view.ts:213-215 | the indices are exactly those of the groups that share an identity with the incoming message, ascending |
| `MailView.MergeIdentityGroups` | src/web/mail-view.ts:208-245 | the loops compute one step of the merge |
| `MailView.Rebuild` | src/web/mail-view.ts:239-244 | the merged group takes the place of the first matching one, the other matching ones go, the rest stay in order |
| `MailViewLaws.MergeAllComponents` | src/web/mail-view.ts:248-250 | the groups are the connected components of the messages under shared identities |
| `MailViewLaws.ShownOnce` | src/web/mail-view.ts:248-250 | every input is shown by exactly one row |
| `MailViewLaws.SameRowIffLinked` | src/web/mail-view.ts:248-250 | two inputs share a row exactly when a chain of shared identities or aliases links them |
| `MailViewLaws.RowsPartitionIdentities` | src/web/mail-view.ts:172-174 | rows share no identity and together have exactly the identities of the inputs |
| `MailViewLaws.MergeIdempotent` | src/web/mail-view.ts:233-237 | merging the result again changes nothing |
| `MailViewLaws.RowsShowInputs` | src/web/mail-view.ts:230-237 | every row shows the content of one of the inputs |
| `MailViewFields.TouchesByFields` | src/web/mail-view.ts:168-174 | two messages share an identity exactly when they share a canonical id, an alias or, without a canonical id, a written reference |
| `MailViewFields.EachNameOnce` | src/web/mail-view.ts:168-174 | each canonical id and alias of the inputs names exactly one row, unless it is the written reference of an input without a canonical id |
| `MailViewFields.WithoutAliases` | src/web/mail-view.ts:208-250 | messages without aliases are merged by leaving out whatever is the same as an earlier message |
| `MailViewFields.OneRowPerReference` | src/web/mail-view.ts:169 | messages with neither canonical ids nor aliases, whose references have no colons, give one row for each different reference |
| `MailViewFields.RowOfTwo` | src/web/mail-view.ts:230-237 | two messages that share an identity become a row that shows the first one, unless only that one is listed as an alias, and lists all their other identities |
| `MailViewOrder.RowsInOrder` | src/web/mail-view.ts:239-244 | the rows come in the order of the first messages they show |
| `DnsPlan.MatchRequired` | src/server/dns-providers/plan.ts:42-60 | the loop over the required records decides what the specification decides |
| `DnsPlan.DeleteSurplus` | src/server/dns-providers/plan.ts:62-71 | the unused records that are owned or conflict are deleted, in order, and no others |
| `DnsPlan.SortIsIdle` | src/server/dns-providers/plan.ts:73-74 | the closing sort has nothing to move |
| `DnsPlan.ComputePlan` | src/server/dns-providers/plan.ts:33-80 | the planner with its loops and its sort computes the specified plan |
| `DnsExecution.DnsExecutor.Execute` | src/server/dns-providers/service.ts:116-142 | zone, ledger and report after an execution: a refused change leaves both alone, one whose answer is lost changes the zone and not the ledger, and both are reported as failed |
| `DnsExecution.ExecutedZone` | src/server/dns-providers/service.ts:120-136 | the zone is that of the changes that were carried out, answered or not |
| `DnsExecution.ExecutedLedger` | src/server/dns-providers/service.ts:121-139 | the ledger is that of the changes that were answered |
| `DnsExecution.ExecutedInFull` | src/server/dns-providers/service.ts:116-142 | with every change selected and every answer received the plan is applied exactly |
| `DnsExecution.DnsExecutor.Own` | src/server/dns-providers/store.ts:64-66 | the ledger gains the key |
| `DnsExecution.DnsExecutor.Disown` | src/server/dns-providers/store.ts:68-70 | the ledger loses the key |
| `DnsExecution.Origin` | src/server/dns-providers/service.ts:116-142 | every record of the resulting zone was there untouched or was written by one of the changes |
| `DnsLaws.PlanOrderly` | src/server/dns-providers/plan.ts:38-71 | no two changes of a plan touch the same record |
| `DnsLaws.RequiredPresent` | src/server/dns-providers/plan.ts:42-60 | after all changes every required record is in the zone |
| `DnsLaws.RequiredOnce` | src/server/dns-providers/plan.ts:42-71 | and in it only once |
| `DnsLaws.ResultRecords` | src/server/dns-providers/plan.ts:62-71 | every other record left neither conflicts nor is owned |
| `DnsLaws.SettledPlan` | src/server/dns-providers/plan.ts:33-80 | a zone with exactly these properties has an empty plan with everything in sync |
| `DnsLaws.ApplyingConverges` | src/server/dns-providers/plan.ts:33-80 | applying all changes and planning again with the updated ledger yields no changes and as many records in sync as are required |
| `DnsLaws.ExecutionConverges` | src/server/dns-providers/service.ts:116-142 | the same for an execution with everything selected in which every answer arrives |
| `DnsLaws.WrittenIsOwned` | src/server/dns-providers/service.ts:122-135 | what a create, or an update of an owned record, writes is in the ledger afterwards |
| `DnsLaws.LedgerIsHonest` | src/server/dns-providers/service.ts:121-139 | a key enters the ledger only through a selected create or update that was answered, whatever became of other requests |
| `DnsSafety.ProvidesIff` | src/server/dns-providers/plan.ts:42-74 | after any part of a plan a type and name has a record if and only if one it had was not deleted or one was created |
| `DnsSafety.ExecutionProvidesIff` | src/server/dns-providers/service.ts:120-140 | the same at every moment of an execution with any selection and any failures |
| `DnsSafety.NeverWithoutIff` | src/server/dns-providers/plan.ts:73-74 | since creates come first, a type and name that had a record has one throughout an execution if and only if it has one at the end |
| `DnsSafety.RequiredKeptOrCreated` | src/server/dns-providers/plan.ts:42-71 | a plan keeps or creates a record for every required type and name |
| `DnsSafety.NeverWithout` | src/server/dns-providers/plan.ts:73-74 | so a required type and name that had a record keeps one throughout any part of the plan that deletes only after all creates |
| `DnsSafety.ExecutionSafe` | src/server/dns-providers/service.ts:120-140 | every prefix of an execution whose creates are selected and carried out is such a part, whatever else is refused or not selected |
| `DnsSafety.DefaultSelectsCreates` | src/server/dns-providers/service.ts:110-114 | the default selection contains every create |
| `DnsSafety.RefusedCreateLosesRecord` | src/server/dns-providers/service.ts:137-139 | a concrete plan whose create is refused and whose delete still leaves the name without any record |
| `DnsOthers.OthersTouchedOnlyIf` | src/server/dns-providers/plan.ts:50-70 | a change to a record that Postreeve did not create is not selected by default, and only proposed for a record that competes with a required one; an MX record is never overwritten |
| `DnsOthers.NoCompetitorSpared` | src/server/dns-providers/plan.ts:18-24 | whatever is selected, a record of others that competes with no required one, such as a TXT record without a policy kind, stays as it is throughout an execution |
| `DnsOthers.DefaultSparesOthers` | src/server/dns-providers/service.ts:110-140 | with the default selection no record that Postreeve did not create is ever changed |
| `DnsOthers.OnlyRequiredLeft` | src/server/dns-providers/plan.ts:62-71 | after all changes whatever competes with a required record, or was created by Postreeve, is a required record |
| `DnsOthers.NeverReplaced` | src/server/dns-providers/plan.ts:50-60 | a record that could be overwritten with a required value is not deleted next to a create of it |
| `DnsOthers.EveryRequiredCounts` | src/server/dns-providers/plan.ts:42-61 | every required record counts once, as in sync or as written by one of the leading changes |
| `DnsNames.AbsoluteKeepsIff` | src/server/dns-providers/types.ts:45 | normalizing leaves a name alone exactly when it has the form the type promises |
| `DnsNames.TxtKindIff` | src/server/dns-providers/plan.ts:18-24 | a TXT record has a kind exactly when its text starts with it, in whatever order the kinds are tried |
| `DnsNames.CollidesIff` | src/server/dns-providers/types.ts:59 | exactly which different keys have the same text |
| `DnsNames.KeyTextUniqueIff` | src/server/dns-providers/types.ts:59 | a key shares its text with no other one if and only if neither its name nor its value has a bar |
| `DnsNames.KeyTextAmbiguous` | src/server/dns-providers/types.ts:59 | two different records with the same key text |
| `Correspondents.TallyAdds` | src/server/contacts/correspondents.ts:9-21 | one more message changes a recount by exactly one for the addresses it contributes and by nothing for others |
| `Correspondents.AddKeepsExact` | src/server/contacts/correspondents.ts:30-40 | the insert trigger keeps the table equal to a recount |
| `Correspondents.RemoveKeepsExact` | src/server/contacts/correspondents.ts:42-46 | the delete trigger keeps the table equal to a recount and leaves no all-zero row |
| `Correspondents.RemovalNeverClips` | src/server/contacts/correspondents.ts:42 | the `max(0, ...)` of a removal never clips on an exact table |
| `Correspondents.RebuildIsExact` | src/server/contacts/correspondents.ts:52-54 | a rebuild gives the exact table whatever was in it |
| `Correspondents.ExactIsUnique` | src/server/contacts/correspondents.ts:52-54 | accounts, identities and messages determine the exact table |
| `CorrespondentIndex.CorrespondentIndex.Add` | src/server/contacts/correspondents.ts:30-40 | the upsert loop adds one to the row of every contributed address and touches no other row |
| `CorrespondentIndex.CorrespondentIndex.Remove` | src/server/contacts/correspondents.ts:42-46 | update and delete subtract one from every contributed address and drop the rows that reach zero |
| `CorrespondentIndex.CorrespondentIndex.Rebuild` | src/server/contacts/correspondents.ts:54 | emptying the table and adding every message, in any order, gives the recount |
| `CorrespondentIndex.CorrespondentIndex.OnPutMessage` | src/server/contacts/correspondents.ts:74-77 | insert adds; update removes the old and adds the new contributions only when headers changed |
| `CorrespondentIndex.CorrespondentIndex.OnDeleteAccount` | src/server/contacts/correspondents.ts:81 | deleting an account takes its messages along and recounts |
| `CorrespondentIndex.SameHeadersKeepExact` | src/server/contacts/correspondents.ts:48-50 | updates that the trigger's condition skips do not change any count |
| `CorrespondentIndex.StepExact` | src/server/contacts/correspondents.ts:74-82 | every statement keeps the table exact, except possibly the insert of an account |
| `CorrespondentIndex.InsertAccountExactIff` | src/server/contacts/correspondents.ts:74-82 | an account insert keeps it exact if and only if every indexed message from the new address was own already |
| `CorrespondentIndex.RunExact` | src/server/contacts/correspondents.ts:52-82 | after any run of inserts, updates and deletes of messages, identities and accounts the table equals a recount, given that condition at account inserts |
| `CorrespondentIndex.RecountRepairs` | src/server/contacts/correspondents.ts:78-82 | any change of identities and any change or removal of an account makes the table exact again |
| `CorrespondentIndex.AccountInsertDrifts` | src/server/contacts/correspondents.ts:74-82 | a run of two statements after which the counts are wrong |
| `CorrespondentIndex.WildcardCoversIff` | src/server/contacts/correspondents.ts:23-28 | the SQL test covers exactly the addresses on the domain with a local part of at least two characters and no `@` |
| `CorrespondentIndex.WildcardMissesOneLetter` | src/server/contacts/correspondents.ts:23-28 | an address on the domain that the test misses |
| `CorrespondentFields.CountsByFields` | src/server/contacts/correspondents.ts:9-31 | in an exact table the counts are the numbers of messages that an own address sent to the correspondent as To or Cc, and of those it sent without being an own address |
| `AgentAccess.AgentAccessStore.CreateGrant` | src/server/agent-access/store.ts:179-188 | a new grant under a fresh id, nothing else changed |
| `AgentAccess.AgentAccessStore.IssueCode` | src/server/agent-access/store.ts:214-220 | a new unused code under a fresh secret |
| `AgentAccess.AgentAccessStore.ConsumeCode` | src/server/agent-access/store.ts:223-237 | the code is used from now on and the answer shows it as it was |
| `AgentAccess.AgentAccessStore.IssueToken` | src/server/agent-access/store.ts:239-245 | a new unrevoked token under a fresh secret |
| `AgentAccess.AgentAccessStore.RevokeToken` | src/server/agent-access/store.ts:258-260 | the token is revoked, keeping an earlier revocation time |
| `AgentAccess.AgentAccessStore.RevokeGrant` | src/server/agent-access/store.ts:200-208 | the grant and all its tokens are revoked and its codes are gone; the answer says whether it was active |
| `OAuth.OAuthRoutes.TakePending` | src/server/agent-access/oauth.ts:134-140 | expired pages go, and the one asked for is answered and gone |
| `OAuth.OAuthRoutes.GetAuthorize` | src/server/agent-access/oauth.ts:316-322 | one more waiting page, the oldest one making room at the limit |
| `OAuth.OAuthRoutes.PostAuthorize` | src/server/agent-access/oauth.ts:330-362 | consent makes one grant with the chosen tier's scopes and one code for it, everything else makes none |
| `OAuth.OAuthRoutes.PostTokenByCode` | src/server/agent-access/oauth.ts:237-256 | the code exchange, with the code marked used before anything is checked and a used one ending its grant |
| `OAuth.OAuthRoutes.PostTokenByRefresh` | src/server/agent-access/oauth.ts:258-278 | rotation: the presented token is revoked and a pair issued, reuse after the grace period ends the grant |
| `OAuth.OAuthRoutes.PostRevoke` | src/server/agent-access/oauth.ts:282-291 | an access token is revoked alone, any other one with its grant |
| `OAuth.OAuthRoutes.DeleteAgent` | src/server/agent-access/index.ts:138-141 | the owner ends a grant |
| `OAuth.OAuthRoutes.PostPersonalToken` | src/server/agent-access/index.ts:142-155 | a personal token has a grant of its own |
| `OAuthLaws.HandledSound` | src/server/agent-access/oauth.ts:230-362 | every request keeps the invariant of the tables |
| `OAuthLaws.RunSound` | src/server/agent-access/store.ts:179-260 | in every run codes and unrevoked tokens belong to active grants and token scopes lie within the grant's |
| `OAuthLaws.OneCredentialPerGrant` | src/server/agent-access/oauth.ts:166-175 | in every run a grant has at most one unused code or unrevoked refresh token |
| `OAuthLaws.AuthenticatedWithinGrant` | src/server/agent-access/oauth.ts:116-126 | a token that authenticates belongs to an active grant and stays within its scopes |
| `OAuthLaws.RevokedForever` | src/server/agent-access/store.ts:200-208 | a revoked grant stays revoked in every continuation, has no code and no unrevoked token, and never authenticates |
| `OAuthLaws.CodeWorksOnce` | src/server/agent-access/oauth.ts:241-247 | after one attempt with a code, whatever came of it, no request gets tokens for it, and presenting it again ends its grant |
| `OAuthLaws.RefreshWorksOnce` | src/server/agent-access/oauth.ts:263-266 | a refresh token is exchanged at most once; used again by its client after the grace period it ends the grant, within it nothing changes |
| `OAuthLaws.TokensOfReply` | src/server/agent-access/oauth.ts:166-175 | a successful answer comes with one new access and one new refresh token of the same grant, scopes never wider than what was presented, and the refresh token is the grant's credential |
| `OAuthLaws.FreshCodeWorks` | src/server/agent-access/oauth.ts:353-361 | the first attempt in time, by the client that asked, with the matching verifier and address, gets tokens with the tier's scopes unless the grant was revoked |
| `OAuthLaws.RunPendingSound` | src/server/agent-access/oauth.ts:316-322 | at most a hundred consent pages wait |
| `OAuthLaws.ConsentAnsweredOnce` | src/server/agent-access/oauth.ts:134-140 | a consent page is answered at most once |
| `OAuthOrigins.CodeOrigin` | src/server/agent-access/oauth.ts:353-361 | every code in the store was given out by a consent to a page with its client, address, challenge and resource |
| `OAuthOrigins.TokensNeedConsent` | src/server/agent-access/oauth.ts:237-256 | tokens for a code go only to the client that asked, with its verifier and address, within five minutes of a consent to a page shown at most ten minutes before, and with the scopes of the chosen tier |
| `OAuthOrigins.TokenOrigin` | src/server/agent-access/oauth.ts:166-175 | every token in the store was handed out by an answer of the run, with its scopes and lifetime |
| `OAuthOrigins.BearerOrigin` | src/server/agent-access/oauth.ts:116-126 | a token that authenticates was handed out less than an hour ago, or is a personal one |
| `OAuthRevocation.RevokeEndsGrant` | src/server/agent-access/oauth.ts:282-291 | revoking a refresh or personal token ends its grant with all its tokens and codes, in every continuation |
| `OAuthRevocation.RevokeEndsAccessToken` | src/server/agent-access/oauth.ts:286 | revoking an access token ends that token in every continuation and touches nothing else |
| `OAuthRevocation.RevokeUnknown` | src/server/agent-access/oauth.ts:284-288 | revoking what is no token changes nothing |
| `OAuthRevocation.OwnerEndsGrant` | src/server/agent-access/index.ts:138-141 | the owner is told that a grant was ended exactly when it was active, and then it is over in every continuation |
| `OAuthRevocation.OthersStay` | src/server/agent-access/oauth.ts:282-291 | ending one grant leaves the others alone |
| `OAuthRevocation.AccessTokenWorksIff` | src/server/agent-access/oauth.ts:116-126 | in every continuation an access token authenticates exactly at its server, within an hour, and unless it was revoked or its grant has ended; its refresh token never does |
| `OAuthRevocation.PersonalTokenWorksIff` | src/server/agent-access/oauth.ts:116-126 | a personal token authenticates exactly as long as its grant has not ended |
| `OAuthRotation.RefreshWorksIff` | src/server/agent-access/oauth.ts:258-277 | the first attempt with a refresh token succeeds exactly when the client of the grant makes it within thirty days for some of the granted scopes and the grant has not ended |
| `OAuthBearers.GrantOrigin` | src/shared/agent-access.ts:8-12 | every grant stems from a choice of the owner and has exactly the scopes of the chosen tier |
| `OAuthBearers.BearerWithinTier` | src/server/agent-access/oauth.ts:116-126 | whatever a bearer may do, the owner chose a tier that allows it; only the act tier may act |
| `OAuthBearers.TokensForConsent` | src/server/agent-access/oauth.ts:231-255 | the tokens for a code are for the server at which the consent page was asked for, with exactly the scopes of the chosen tier |
| `OAuthBearers.RefreshKeepsHome` | src/server/agent-access/oauth.ts:277 | a refresh keeps the server |
| `OAuthPages.ConsentInTimeIsGranted` | src/server/agent-access/oauth.ts:316-366 | a consent within ten minutes is granted, unless the page was answered before or a hundred others were asked for in between |
| `OAuthPages.AuthorizationSucceeds` | src/server/agent-access/oauth.ts:230-366 | from the request to the tokens: an authorization allowed in time, whose code the same client presents in time, succeeds |
| `RateLimiter.SecondsUntil` | src/server/agent-access/limits.ts:27 | the least whole number of seconds, at least one, that reaches the reset |
| `RateLimiter.RateLimiter.DeleteExpired` | src/server/agent-access/limits.ts:20 | exactly the windows that are over are deleted |
| `RateLimiter.RateLimiter.Take` | src/server/agent-access/limits.ts:18-28 | the answer and the windows after one request |
| `RateLimiter.PruningIsInvisible` | src/server/agent-access/limits.ts:20 | with a clock that never goes back pruning changes no answer of any trace |
| `RateLimiter.AdmissionBound` | src/server/agent-access/limits.ts:21-27 | an interval of one window length admits at most twice the limit less one |
| `RateLimiter.AdmissionBoundIsReached` | src/server/agent-access/limits.ts:21-27 | a trace that reaches the bound |
| `RateLimiter.WaitingAdmits` | src/server/agent-access/limits.ts:27 | waiting the returned seconds admits the next request of the key, whatever other keys do, and no smaller number of seconds does |
| `RateLimiter.AdmittedIff` | src/server/agent-access/limits.ts:18-28 | in a window a request is admitted exactly when it is the first one or there have been fewer than the limit of its key |
| `ImapSearch.MergeRanges` | src/server/mail/imap-search-result.ts:27-32 | the merge loop computes the merged ranges |
| `ImapSearch.SelectUids` | src/server/mail/imap-search-result.ts:39-43 | the nested loops with their early exit compute the selection |
| `ImapSearch.ImapSearchUids` | src/server/mail/imap-search-result.ts:4-45 | the whole function, with the error of the first bad part |
| `ImapSearchLaws.MergedIsCanonical` | src/server/mail/imap-search-result.ts:26-32 | merged ranges are ascending, disjoint and not adjacent and cover the same UIDs |
| `ImapSearchLaws.CanonicalUnique` | src/server/mail/imap-search-result.ts:26-32 | a set of UIDs has one such list of ranges |
| `ImapSearchLaws.CountIsSize` | src/server/mail/imap-search-result.ts:33 | the count is the number of different UIDs |
| `ImapSearchLaws.AcceptedSearch` | src/server/mail/imap-search-result.ts:33-44 | an accepted answer gives the `limit` smallest UIDs of the named set in ascending order, all within the bounds |
| `ImapSearchLaws.WhenAccepted` | src/server/mail/imap-search-result.ts:9-38 | an answer is accepted exactly when it is complete, readable and its count, minimum and maximum are true of the named set, and which error it gets otherwise |
| `ImapSearchLaws.SameUidsSameSelection` | src/server/mail/imap-search-result.ts:3 | accepted answers that name the same UIDs in other pieces or another order select the same ones |
| `ImapSearchDoubles.CountStaysExact` | src/server/mail/imap-search-result.ts:33 | no partial sum exceeds twice the largest UID |
| `ImapSearchDoubles.SmallSumsAreExact` | src/server/mail/imap-search-result.ts:33 | while no partial sum passes 2^53 the count in doubles is the number of UIDs |
| `ImapSearchDoubles.CountedRightIff` | src/server/mail/imap-search-result.ts:7-33 | every answer within the bounds is counted right if and only if they leave no room for two ranges, or twice the upper less the lower one and one stays within 2^53 |
| `ImapSearchDoubles.ThirtyTwoBitsCount` | src/server/mail/imap-search-result.ts:6 | with the default bounds every answer is counted right |
| `ImapSearchDoubles.LargestBoundsMiscount` | src/server/mail/imap-search-result.ts:22 | an answer that the largest bounds let through and that is counted one short |
| `DraftLifecycle.DraftLifecycleTurns.Join` | src/server/core/postreeve.ts:1991-1997 | a call waits for the last one of its key and becomes the last one |
| `DraftLifecycle.DraftLifecycleTurns.Leave` | src/server/core/postreeve.ts:2001-2004 | leaving releases the turn and forgets the key only if nobody joined behind |
| `DraftLifecycle.JoinedOrderly` | src/server/core/postreeve.ts:1991-1997 | joining keeps the chain in order |
| `DraftLifecycle.EnteredOrderly` | src/server/core/postreeve.ts:1998 | whoever enters has everyone in front of it released |
| `DraftLifecycle.LeftOrderly` | src/server/core/postreeve.ts:2001-2004 | deleting the map entry never lets a later call overtake |
| `DraftLifecycleLaws.StepKeepsInv` | src/server/core/postreeve.ts:1260-1273 | every step of every operation keeps the invariant of the nested lock |
| `DraftLifecycleLaws.OneAtATimeInOrder` | src/server/core/postreeve.ts:1260-1273 | in every interleaving operations of an account run one at a time, in the order in which they began |
| `DraftLifecycleLaws.InnerNeverWaits` | src/server/core/postreeve.ts:1272 | the inner lock is never contended |
| `DraftLifecycleLaws.MapHoldsActiveKeys` | src/server/core/postreeve.ts:2003 | a key is in the map exactly while one of its calls is unreleased |
| `DraftLifecycleLaws.NeverStuck` | src/server/core/postreeve.ts:1260-1273 | while an operation is unfinished, it or an earlier one of its account can go on |
| `DraftLifecycleLaws.EveryRunEnds` | src/server/core/postreeve.ts:1260-1273 | each operation takes four steps after it began, so every run comes to its end |
| `GmailActions.GmailAccount.Apply` | src/server/mail/gmail.ts:418-470 | labels and record after applying one action, nothing when the message is stale, missing or refused |
| `GmailActions.GmailAccount.Undo` | src/server/mail/gmail.ts:472-497 | labels and status after undoing one operation |
| `GmailActions.GmailAccount.ApplyApprovedProposal` | src/server/core/postreeve.ts:1604-1621 | the loop applies the items in order |
| `GmailActions.GmailAccount.UndoBatch` | src/server/core/postreeve.ts:1656-1682 | the loop undoes the operations in the same order |
| `GmailMoves.ArchivedLabels` | src/server/mail/gmail.ts:449-459 | archiving takes off the inbox and the mailbox the message was seen in, and no other label |
| `GmailMoves.SpamLabels` | src/server/mail/gmail.ts:449-459 | reporting spam adds the spam label, takes off the inbox and keeps the labels of the user |
| `GmailMoves.MovedLabels` | src/server/mail/gmail.ts:449-459 | moving to a label puts it on and takes off that of the mailbox the message was seen in, except from the archive |
| `GmailMoves.MarkedLabels` | src/server/mail/gmail.ts:430-444 | reading and flagging change one label |
| `GmailMoves.OnlyCurrentMessages` | src/server/mail/gmail.ts:418-424 | a message that changed since it was listed is left alone and reported as failed, and no other message is touched |
| `GmailUndoLaws.UndoRestoresIff` | src/server/mail/gmail.ts:449-495 | undo restores the labels exactly when the action was no move, or its source label was present and its destination label absent, as far as these are labels and the destination is neither the inbox nor the source |
| `GmailUndoLaws.AppliedAlone` | src/server/core/postreeve.ts:1604-1621 | with distinct messages every item does what it would do alone |
| `GmailUndoLaws.BatchUndo` | src/server/core/postreeve.ts:1648-1682 | a message whose undo succeeded has its old labels exactly under that condition; one that was left alone or failed without being carried out never changed |
| `GmailUndoLaws.BatchLeavesOthers` | src/server/core/postreeve.ts:1594-1696 | messages outside the batch are never touched |
| `GmailUndoLaws.ReportedUndoneIsRestored` | src/server/core/postreeve.ts:1683-1684 | a batch reported undone, with no answer lost while applying, has restored every message exactly when every action undone was reversible |
| `GmailUndoLaws.SameMessageTwice` | src/server/core/postreeve.ts:1656-1682 | a batch with one message twice whose undo succeeds and restores the wrong labels |
| `GmailRepeatLaws.UndoneLabel` | src/server/core/postreeve.ts:1656-1682 | a label is on a message after an undo exactly as the last operation on the message whose undo names it says, or as it was if none does |
| `GmailRepeatLaws.RestoredIff` | src/server/core/postreeve.ts:1594-1696 | for any batch, with any repetitions and failures, exactly when a message has its old labels after applying and undoing |
| `GmailRepeatLaws.LabelWhileApplying` | src/server/mail/gmail.ts:430-444 | while read and flag actions are applied the last one on a label decides |
| `GmailRepeatLaws.RepeatedMarksRestoredIff` | src/server/mail/gmail.ts:478-485 | a message that is only read and flagged, any number of times, gets its labels back if and only if of the operations on each label the last but one had left it as it was |
| `DraftSaveQueue.DraftServer.Create` | src/server/core/postreeve.ts:694-724 | the first create makes version 1, a repeated one returns what is there |
| `DraftSaveQueue.DraftServer.Update` | src/server/core/postreeve.ts:740-763 | an update is accepted only at the current version and makes the next one |
| `DraftSaveQueue.DraftServer.Upload` | src/server/db/store.ts:448-476 | a file is stored once, at the current version |
| `DraftSaveQueue.DraftSaveQueue.Save` | src/web/draft-state.ts:52-90 | one save, with its recovery of a lost first create |
| `DraftSaveQueue.DraftSaveQueue.AdoptSavedDraft` | src/web/draft-state.ts:163-173 | the queue holds the stored draft, and exactly the upload bases that stood at the previous one move along |
| `DraftSaveQueue.DraftSaveQueue.Upload` | src/web/draft-state.ts:100-114 | an upload is adopted only when the server has the base with exactly this file added |
| `DraftSaveQueue.DraftSaveQueue.CancelUpload` | src/web/draft-state.ts:128-142 | a cancelled upload adopts the server's draft only when it is the base, with or without the file |
| `DraftSaveQueue.DraftSaveQueue.RefreshAfterSend` | src/web/draft-state.ts:148-161 | a refresh adopts the server's draft only when its content is the held one |
| `DraftSaveLaws.RunTruthful` | src/web/draft-state.ts:20-180 | in every run what the queue holds is a version the server once had |
| `DraftSaveLaws.NoUnseenOverwrite` | src/web/draft-state.ts:52-161 | in every interleaving each write replaces exactly a version the queue held or, recovering its first save, had submitted itself |
| `DraftSaveLaws.AdoptsOnlyOwnContent` | src/web/draft-state.ts:106-157 | no step makes the queue hold content of another client |
| `DraftSaveLaws.SaveSucceedsIff` | src/web/draft-state.ts:54-67 | exactly when a save succeeds with the server holding its content, and exactly when it reports success although the server holds another |
| `DraftSaveLaws.FirstSaveSucceedsIff` | src/web/draft-state.ts:69-86 | exactly when the first save succeeds, and that it writes nothing of its own otherwise |
| `DraftSaveLaws.RefusalsDoNotBlock` | src/web/draft-state.ts:52-90 | after any number of refused requests a save whose request is answered succeeds and the server holds its content |
| `DraftSaveLaws.LostAnswerMisleads` | src/web/draft-state.ts:54-61 | what one lost answer to an update leads to |
| `DraftSaveLaws.UploadRetryRecovers` | src/web/draft-state.ts:103-112 | the same upload again, after a lost answer, stores nothing and succeeds |
| `DraftUploads.UploadSucceedsIff` | src/web/draft-state.ts:99-116 | an answered upload succeeds exactly when the server has the base, or the base with exactly this file; and then the server has the base with the file at its end |
| `DraftUploads.CancelSucceedsIff` | src/web/draft-state.ts:124-146 | removing an upload succeeds exactly when the server has its base, with or without a file of this id |
| `DraftUploads.RefreshSucceedsIff` | src/web/draft-state.ts:148-161 | a refresh succeeds exactly when the server has the held content |
| `DraftUploads.SavesDoNotSpoilUpload` | src/web/draft-state.ts:163-173 | saves of the owner between preparing an upload and its turn do not spoil it, since its base moves along |
| `PromiseChain.SaveTail.Submit` | src/web/draft-state.ts:88-89 | an operation is chained to the tail, and the promise derived from it becomes the tail |
| `PromiseChain.NeverSkipped` | src/web/draft-state.ts:88 | no operation is chained to a promise that can be rejected, since the derived one handles both outcomes |
| `PromiseChain.InSubmissionOrder` | src/web/draft-state.ts:53-88 | in every run operations run one at a time in the order of submission |
| `PromiseChain.FailuresDoNotBlock` | src/web/draft-state.ts:88 | in every run an operation that has not settled, or an earlier one, has a turn to take, and none is skipped for a failure |
| `PromiseChain.EveryRunEnds` | src/web/draft-state.ts:88 | each operation takes three turns after it was submitted |
| `DraftSaveInterleaving.OneRequest` | src/web/draft-state.ts:52-161 | a job with one request, its body cut at the await, is one step of the queue |
| `DraftSaveInterleaving.TwoRequests` | src/web/draft-state.ts:69-86 | and so is a first save that asks twice, with other clients writing in between |
| `DraftSaveInterleaving.EveryInterleavingIsSteps` | src/web/draft-state.ts:20-161 | every interleaving of requests, answers and writes of other clients leads where the jobs settled so far, one after the other in the order of submission, lead |
| `DraftSaveInterleaving.NeverStuck` | src/web/draft-state.ts:88 | while a submitted operation has not settled the machine can go on |
| `DraftSaveInterleaving.NoUnseenRequest` | src/web/draft-state.ts:52-114 | at every moment of every interleaving a request replaces only a version the queue holds, or a first version it had submitted |

## Left out

- HTTP, sessions, Zod validation, JSON, encryption, SQLite itself and all network clients: requests, answers and tables are values.
- `gmailLocationMailboxes`, the removal of repeats and the sorting of history ids: a history answer is modelled as the list of ids the step works on.
- The answer 401 of Gmail, which becomes a request to sign in again: it changes no state.
- GmailSynchronization.FinishPage: sizes in bytes are parameters, so nothing is said about how large a summary may be.
- GmailCoverage.FullSynchronizationCovers: on a feed that changes between steps coverage is not claimed; what the history stage then repeats is outside this model.
- DnsPlan.ComputePlan: record keys are triples of type, name and value, which `DnsNames.KeyTextFaithful` justifies for names without a `|`; the fingerprint is not modelled.
- DnsExecution.DnsExecutor.Execute: provider ids are numbers, and the provider stores the value it is given; a zone that others change meanwhile is not modelled.
- GmailGenerations.SynchronizationStore.Commit: messages, locations, arrivals and schedules of the store are left out, and so is its byte limit, which `GmailCursorLaws.PagesFit` meets; a lost claim is a page that is not committed.
- `#resolve`, choosing the zone for a domain: a search over parents of a name, apart from the plan.
- Correspondents.RebuildIsExact: names, their times and the time of the last message are not counts and are not restored by a removal, so no recount holds for them; ranking of suggestions is left out with them.
- OAuth.OAuthRoutes.PostAuthorize: the session of the owner, redirects and the client table with its pruning are outside the model; whether the client is known and accounts were chosen are parameters.
- OAuth.OAuthRoutes.PostTokenByCode: client authentication is a parameter, because it only compares secrets.
- ImapSearch.ImapSearchUids: counts in an answer are integers; a fraction, which the code refuses as unsafe, does not occur.
- DraftLifecycleLaws.NeverStuck: an operation that never settles, or that asks for the same lock again, is outside the model.
- GmailActions.GmailAccount.Apply: trash is decided by Gmail and not modelled; nor is the record of moves in the local store.
- GmailActions.GmailAccount.Undo: untrash is decided by Gmail and not modelled.
- `applyApprovedProposal` and `undoBatch` check the status of the proposal and of the batch first: plain guards.
- DraftSaveInterleaving.EveryInterleavingIsSteps: what the caller of an upload notes or drops when its save succeeds happens together with the end of that save, because it runs before the next operation begins.
- DraftSaveQueue.DraftSaveQueue.Save: all fields of a draft other than attachments are one text; delivery and mirror states count as refusals; a response of another account or draft does not occur.
- `sendDraft`, the provider mirror of drafts and the migration of local drafts: the calls that decide them are elsewhere.
- Scrolling, folders, filters and sorting in `mail-view.ts`: lookups and library sorts.
