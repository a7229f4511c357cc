# NodeBrain core, verified

NodeBrain is a reactive rule engine. Cells hold values and subscribe to cells; a change is published, and a reaction
re-evaluates what depends on it. Around that core stand a message log that is replicated between the nodes of a cabal,
a message cache for its readers, an algebra of time intervals, and the queues and tables that all of them use. This
project models these parts in Dafny and proves what they are for. `dafny verify dfyconfig.toml` checks everything.

Numbers are mathematical reals and integers, except where the width of a counter matters (message counts wrap at 32
bits, hash sums at 64). Constants are hash-consed in NodeBrain, so comparing pointers to constants is comparing values.
Objects that the C code updates in place are classes here; each carries ghost fields that say what its links and bytes
stand for, and its methods are proved against functions on those values.

## The parts

- `Values.dfy`, `Conditions.dfy`: the three-valued operators and comparisons with their laws, the information order, and
  the solver that asks for a term only while the result is still unknown. The early stop never changes the outcome.
- `Cells.dfy`: scheduling by level and the reaction. From any state in which every cell that disagrees with its operands
  is scheduled, a reaction evaluates each cell at most once, on the final values of its operands, and ends with every
  cell at its meaning.
- `Levels.dfy`: the repair of levels. It ends, restores the order, and raises no level more than it must. The reactor
  can go on after it exactly when no scheduled cell was raised and the levels have stayed below the limit.
- `Subscriptions.dfy`: subscribing to a cell. The first subscriber turns a cell on, which makes it subscribe to its own
  operands, down to cells that are on already. Levels are compared only on the way back from a cell that was turned on,
  so the order does not always survive. `Subscriptions.Fits` is the exact condition, in terms of the network before the
  call: an operand that is found on already must be below the level that its new subscriber gets from the operands that
  it turns on itself. `Subscriptions.StaleLevel` is a call that breaks the order; with levels that are up to date none
  does (`Subscriptions.UpToDateFits`). Each cell that comes on is evaluated, so a settled network with a new subscriber is
  settled again under the same condition (`Subscriptions.Attach`).
- `Axons.dfy`: the accelerators that visit only the subscribers whose outcome changes. They refine plain evaluation for
  numbers, for equality, and for strings with `>=`. The string axon for `>` goes wrong when the operand is published with
  the string that it had, for the condition on that string; the ones for `<` and `<=` pass the edges of their sweep the
  wrong way round. `Axons.StringEdgesVerdict` says for which constants the outcome is wrong, and there is a concrete case
  for each of the three.
- `Messages.dfy`, `Replication.dfy`: state vectors and acceptance of messages, and the replication protocol as a state
  machine whose links may drop at any time. In every reachable state each node holds, for each origin, a prefix of what
  the origin has produced, and its texts are those that the origin was told to write. When two nodes connect and the link
  is left alone, the receiver comes to hold all that the sender holds; nothing goes back to where it has come from, nor to
  a node that held it when it asked. A node that reads its own log back comes to the state that it had.
- `MsgCache.dfy`: the ring of variable-length entries in one byte buffer, with one cursor for each subscriber. Making
  room fails exactly when a message that has to leave is not the next one of its node.
- `Intervals.dfy`, `SegmentHeap.dfy`: the interval algebra on values, and its implementation by circular linked lists
  with a shared free list. The contracts of the heap operations say which one function they add, that everything else in
  the heap is as it was, and that all temporaries are back on the free list; the lemmas on values say what that function
  means: its points and its domain. Complementing twice gives the merged function back exactly when the first complement
  is not empty; one of De Morgan's laws holds always, the other one exactly when the conjunction is not empty.
- `LineQueue.dfy`: the line queue over chained buffers, and the stream of lines it refines.
- `HashLists.dfy`: hash-consed lists, with the search that stops early and the growth of the table.
- `Timers.dfy`, `Delays.dfy`: the timer queue, and the delay cells that use it together with other objects, whose alarms
  may publish as well. A cycle of alarms begins only when everything published has been evaluated, and ends with a
  reaction. In every run a delay cell enters the state that it waits for by an alarm only, and its operand was in that
  state at the end of every reaction since the timer was set.

## Model

| member | source | states |
|---|---|---|
| Values.CompareIsTransitive | lib/nbcondition.c:895-941 | the string order that the relational operators and the axon trees rely on is transitive |
| Values.CompareIsDictionaryOrder | lib/nbcondition.c:895-941 | it is the order of a dictionary: a beginning comes first, else the first character that differs decides |
| Conditions.BooleanTruth | lib/nbcondition.c:655-779 | for each operator, when it is true and when it is false; it is unknown otherwise. Only the constants true and false count for exclusive or |
| Conditions.BooleanLaws | lib/nbcondition.c:655-779 | nand and nor are negations, De Morgan's laws hold with unknown operands too, lazy or is or, and the operands of eager operators can be exchanged |
| Conditions.OrderOfConstants | lib/nbcondition.c:895-941 | two numbers or two strings: exactly one of less, equal and greater holds, less or equal is what it says, and the other two operators exchange the operands |
| Conditions.ComparingOthers | lib/nbcondition.c:873-941 | equality is decided for any known values; values of different types have no order |
| Conditions.BelowThroughOperators | lib/nbcondition.c:655-779 | every Boolean operator is monotone in the information order; lazy and is below and, and differs from it only for an unknown left and a false right operand; lazy or equals or |
| Conditions.MoreInformationKeepsKnownResults | lib/nbcondition.c:625-779 | for every expression, learning more about its terms never changes a result that is known |
| Conditions.LazyIsBelowEager | lib/nbcondition.c:655-757 | replacing all lazy operators of an expression by eager ones can only add information |
| Conditions.EagerIsEager | lib/nbcondition.c:655-757 | no lazy operator is left, and the terms are the same |
| Conditions.LearningIsOnTheWay | lib/nbcondition.c:456-474 | terms learned on the way to a result do not change what full information gives |
| Conditions.Solver.Solve | lib/nbcondition.c:448-480 | the solver returns the value that asking for every unknown term would give, asks for unknown terms of the expression only, and for none when the result is known |
| Conditions.Solver.SolveInfix1 | lib/nbcondition.c:456-466 | the left operand is solved first, and the right one only while the result is unknown, with the outcome of full information |
| Conditions.Solver.SolveInfix2 | lib/nbcondition.c:468-474 | the left operand is solved first, and the right one only when the left one is known, with the outcome of full information |
| Cells.Reactor.Alert | lib/nbcell.c:763-778 | a subscriber that is neither static nor scheduled goes to the front of the list of its level; all lists stay exact, and no other list changes |
| Cells.Reactor.Publish | lib/nbcell.c:622-641 | exactly the subscribers become scheduled, and all lists stay exact |
| Cells.Reactor.Step | lib/nbcell.c:801-827 | one evaluation keeps the agenda, runs the cell for the first time in this reaction, and on operands that no longer change |
| Cells.Reactor.React | lib/nbcell.c:800-833 | every cell ends equal to its evaluation over the final values and to its meaning before the reaction; lists and flags are empty; each cell ran at most once, on final operands, and only if it was scheduled or an operand changed |
| Cells.Reactor.SettledCellsHoldTheirMeaning | lib/nbcell.c:787-789 | when nothing is scheduled, every cached value is the expression computed from the assigned terms alone |
| Cells.Reactor.MeaningFromTerms | lib/nbcell.c:780-799 | the assigned terms alone decide what a cell means |
| Cells.Reactor.AssignTerm | lib/nbterm.c:645-685 | assigning a constant keeps graph, lists and agenda, whatever is waiting; a constant that the term has already changes nothing |
| Cells.Reactor.LastAssignmentDecides | lib/nbterm.c:645-685 | of several assignments to a term the last one counts; a term without one keeps its value |
| Cells.Reactor.AssertAll | lib/nbcell.c:622-641 | after any assignments and one reaction every cell has the meaning that the last assignment of each term gives it |
| Levels.LevelRecurse | lib/nbcell.c:659-677 | the recursion ends on any acyclic graph; it raises cells only, each one for the reason that a publisher was raised, and leaves their subscribers above them |
| Levels.RaisedIsLeast | lib/nbcell.c:659-690 | a repair raises no cell above any order-keeping assignment that is nowhere below the old levels |
| Levels.Level | lib/nbcell.c:679-690 | afterwards every subscriber is above its publisher, with the least levels not below the old ones |
| Levels.RepairKeepsGraph | lib/nbcell.c:679-690 | the reaction has its order of levels back exactly when the levels have stayed below the limit |
| Levels.RepairKeepsLists | lib/nbcell.c:763-778 | the lists of the reaction stay exact exactly when no scheduled cell was raised |
| Levels.RepairKeepsAgenda | lib/nbcell.c:787-789 | a repair does not change which cells agree with their operands |
| Subscriptions.CascadeTwice | lib/nbcondition.c:1080-1083 | turning on one operand after another adds up: each cell comes on once, on behalf of the first cell that asks for it, and is put above what it turns on |
| Subscriptions.RisenAreAbove | lib/nbaxon.c:584-590 | while the operands of a new publisher come on, no cell outside the cascade rises but its subscriber and those above |
| Subscriptions.EnableOperands | lib/nbcondition.c:1072-1083 | a cell that is turned on asks for its operands in order |
| Subscriptions.Enable | lib/nbaxon.c:563-607 | exactly the cells that are off below the publisher come on, with the subscriptions to their operands; each has the value of its evaluation over its operands, and no other value changes; each is put above the operands that it turns on, and levels above the subscriber are repaired, unless it is static; the order survives exactly when the levels fit |
| Subscriptions.StaysLinked | lib/nbaxon.c:563-607 | after a static object, which is its own value, has subscribed, the cells that are on subscribe to exactly their operands, and cells that are off have no subscribers |
| Subscriptions.Attach | lib/nbaxon.c:563-607 | when such an object subscribes to a settled network, the network of the cells that are on afterwards is settled exactly when the levels fit and stay below the limit |
| Subscriptions.LevelsAre | lib/nbaxon.c:584-590 | the levels that the cascade leaves can be told from the network before it |
| Subscriptions.OrderSurvives | lib/nbaxon.c:583-590 | after the cascade every subscriber is above its publisher exactly when every operand that was found on is below the level of its new subscriber |
| Subscriptions.UpToDateFits | lib/nbaxon.c:563-607 | while the levels of cells that are off are up to date, every subscription keeps the order |
| Subscriptions.StaleLevelDoesNotFit | lib/nbaxon.c:583-590 | a concrete network in order whose levels do not allow a subscription |
| Subscriptions.StaleLevel | lib/nbaxon.c:563-607 | the call on that network, which is in order before it and not after it |
| Axons.LessIsAStrictTotalOrder | lib/nbaxon.c:214-293 | the order of constants that the tree is searched by is strict and total on constants of one type |
| Axons.Descend | lib/nbaxon.c:251-275 | descending to the lower edge stacks what the range still owes, at most 32 deep |
| Axons.Unwind | lib/nbaxon.c:276-293 | the loop publishes exactly the conditions in the range, and ends although one subtree is stacked twice |
| Axons.Sweep | lib/nbaxon.c:251-293 | exactly the conditions whose constant the range hits get the new value |
| Axons.EdgesAreRight | lib/nbaxon.c:229-249 | for every operator and all numbers the table of edges hits the constants whose comparison changes, and no others, and gives them their new outcome |
| Axons.RangeAxon.EvalReal | lib/nbaxon.c:214-293 | if all subscribers agree with the old value they agree with the new one, or are scheduled; between two numbers exactly those whose outcome changes are published |
| Axons.StringEdgesVerdict | lib/nbaxon.c:368-490 | for each string axon, exactly which constants the sweep leaves with a wrong outcome: none for >=, the string itself for > when it is published again, those at the edges for < and <= |
| Axons.StringLessMisjudges | lib/nbaxon.c:368-397 | a concrete change after which the axon of a string < is wrong |
| Axons.StringLessOrEqualMisjudges | lib/nbaxon.c:399-428 | a concrete change after which the axon of a string <= is wrong |
| Axons.StringGreaterMisjudges | lib/nbaxon.c:430-459 | a string published again after which the axon of a string > is wrong |
| Axons.RangeAxon.EvalString | lib/nbaxon.c:309-366 | after a change between strings a subscriber agrees with plain evaluation exactly when its constant is not one of those |
| Axons.EqualityAxon.Eval | lib/nbaxon.c:124-200 | the marked condition becomes the one whose constant is the new value; between known values at most two conditions are touched, and all agree |
| Axons.EqualityAxon.OutcomeIsEvaluation | lib/nbcondition.c:873-893 | hit and miss are the two outcomes of comparing with a known value |
| Axons.EqualityAxon.FindMarked | lib/nbaxon.c:140-149 | the search by address finds the one condition with the operand's value, or that there is none |
| Axons.EqualityAxon.Publish | lib/nbaxon.c:124-162 | publishing and reacting keeps the invariant: the mark is unique and right, and every subscriber agrees |
| Axons.EqualityAxon.Enable | lib/nbaxon.c:791-809 | enabling a subscriber keeps the invariant; the addresses need only tell apart the constants that are in use |
| Axons.EqualityAxon.Disable | lib/nbaxon.c:811-827 | disabling one keeps it, also when it was the marked one or the last one |
| Axons.OneIsTrue | lib/nbaxon.c:124-162 | on a new axon with two string constants, publishing one of them makes exactly the condition on it true and marked |
| Messages.StateIsGreatest | lib/nbmsg.c:553-564 | the entry of a node is the greatest of what it was and the messages seen |
| Messages.AcceptedIffNewest | lib/nbmsg.c:553-576 | a message is accepted exactly when it is greater than the initial entry and all earlier messages of its node |
| Messages.AcceptedAtMostOnce | lib/nbmsg.c:514-581 | accepted ids of a node strictly increase |
| Messages.StatesNeverGoBack | lib/nbmsg.c:514-581 | no entry of the state ever decreases |
| Messages.ProcessedAreNewest | lib/nbmsg.c:565-577 | the program is handed exactly the accepted messages |
| Messages.ProcessedIncrease | lib/nbmsg.c:565-577 | for each node the ids handed to the program strictly increase |
| Messages.CountsCompare | lib/nbmsg.c:337-343 | the wrap-around comparison is antisymmetric, puts every count before its successor, also when it wraps, and is the order of numbers away from the wrap |
| Messages.CountsAhead | lib/nbmsg.c:337-343 | a count is before every count that comes within a quarter of the range after it, wherever the range wraps |
| Messages.KeysAsNumbers | lib/nbmsg.c:553-564 | ids are ordered by time, and by count within one second |
| Messages.NextCounts | lib/nbmsg.c:2385-2387 | record numbers go up one by one and wrap to zero; transaction counts skip zero |
| Messages.StateCheckIs | lib/nbmsg.c:353-360 | the check says behind exactly for lesser ids, or greater ones across the wrap of counts within one second, and the same only for the entry itself |
| Messages.IsNextIs | lib/nbmsg.c:317-330 | an id is accepted when its count is one more than the entry, or one behind the last count, or when there is no entry |
| Messages.ProducedIsNext | lib/nbmsg.c:2385-2391 | what a node writes is always accepted as its next id |
| Messages.ArrivesIs | lib/nbmsg.c:520-551 | records of other nodes are due; records of the own log when their number follows, else they are low or high by the order of numbers |
| Messages.AllIsDue | lib/nbmsg.c:520-551 | a log that was written without a gap is due completely when it is read back |
| Messages.NewIdIsNewer | lib/nbmsg.c:2383-2391 | a new id is greater than the last one exactly when the clock has not gone back and the count does not wrap within one second |
| Messages.MsgLog.SetState | lib/nbmsg.c:514-581 | own records out of sequence and footers change no vector; any other record joins both vectors, and the result says for each whether it was newer |
| Messages.MsgLog.Write | lib/nbmsg.c:2306-2310 | the record is appended with the next record number of this node |
| Messages.MsgLog.WriteString | lib/nbmsg.c:2361-2395 | a message of the node's own is appended, with the given text, no path and the next id, which is newer than the state of the log; refused when the clock is behind the log |
| Messages.MsgLog.WriteReplica | lib/nbmsg.c:2440-2480 | a message that is due and new goes to the log, with its id and text, the number it had at the sender in front of its path, and the next record number; the log and its state become what the protocol step of receiving says; it is reported new exactly when it is due and newer than the program state |
| Messages.MsgLog.Replay | lib/nbmsg.c:3531-3542 | reading any records hands the program the accepted ones of those that are due |
| Replication.OriginateIsGood | lib/nbmsg.c:2383-2391 | producing a message keeps the invariant of the protocol |
| Replication.AskIsGood | lib/nbmsg.c:656-714 | asking with the current state record keeps it |
| Replication.AnswerIsGood | lib/nbmsg.c:716-761 | starting to read the log for a receiver's state keeps it |
| Replication.SkippedIsHeld | lib/nbmsg.c:3569-3596 | a message that the sender skips, because of the view or because of the path, is with the receiver |
| Replication.SendIsGood | lib/nbmsg.c:2553-2566 | looking at the next message and sending or skipping it keeps the invariant |
| Replication.NextOfOrigin | lib/nbmsg.c:553-564 | a message that arrives and is new is the very next one of its origin, whatever other links have brought |
| Replication.DeliverIsGood | lib/nbmsg.c:2440-2480 | delivery keeps the invariant |
| Replication.DropIsGood | lib/nbmsg.c:2868-2878 | losing a link, with everything under way on it, keeps the invariant |
| Replication.EveryNodeHoldsAPrefix | lib/nbmsg.c:2440-2480 | after any run, what a node holds of an origin is an in-order, gap-free, duplicate-free prefix of what the origin has produced |
| Replication.TextsAreWhatWasWritten | lib/nbmsg.c:2361-2395 | after any run an origin has produced exactly the texts it was told to write, in order, and every node holds a beginning of them |
| Replication.LinkFinishes | lib/nbmsg.c:2553-2566 | a link that is left alone sends and delivers to the end |
| Replication.ConnectingDeliversAll | lib/nbmsg.c:2553-2566 | after any run, when two nodes connect and the link is left alone, the receiver comes to hold all that the sender holds |
| Replication.NothingIsSentForNothing | lib/nbmsg.c:3569-3596 | after any run, what is under way on a link is without repeats, in the order of each origin, and neither originates at the receiver nor has come from it |
| Replication.NothingHeldIsSent | lib/nbmsg.c:656-714 | over one connection nothing is sent that the receiver held when it asked, but ids of time zero |
| Replication.ReplicaNamesItsSender | lib/nbmsg.c:2440-2480 | a record taken from a link is the message, and names the sender first on its path |
| Replication.LogRestoresState | lib/nbmsg.c:514-581 | after any run, a node that reads its own log from the start finds every message due and comes to the state that it had |
| Replication.IdleLinksHaveDelivered | lib/nbmsg.c:2553-2566 | when a link has nothing left to read or deliver, the receiver has everything of every origin that the sender has |
| MsgCache.DropFirst | lib/nbmsg.c:2701-2716 | stepping over the first entry, or around the end of the buffer, leaves the layout of the others in order |
| MsgCache.ScanIsExact | lib/nbmsg.c:2686-2696 | comparing cursors with the start finds exactly the subscribers that wait for the first message, and the other cursors stay right |
| MsgCache.WalkStep | lib/nbmsg.c:2539-2578 | at every place of a walk stands a stop byte to wrap at, or the next message, and only the end ends it |
| MsgCache.EverythingTaken | lib/nbmsg.c:2539-2581 | a walk whose messages are all taken hands over the messages themselves, in order |
| MsgCache.TakenAre | lib/nbmsg.c:2539-2581 | what is taken is in order, and a message is in it exactly when the subscriber takes it |
| MsgCache.BytesInFile | lib/nbmsg.c:2704-2706 | the position in the log file counts the messages without their flag bytes |
| MsgCache.StateIsLast | lib/nbmsg.c:317-330 | the state at the start holds the last id of each node |
| MsgCache.OutcomeIs | lib/nbmsg.c:2683-2806 | in the subscriber's own terms: who stays, who goes to the log file and where, and who gets which messages |
| MsgCache.Cache.constructor | lib/nbmsg.c:2814-2826 | an empty cache is in order |
| MsgCache.Cache.CursorSeesItsMessage | lib/nbmsg.c:2538-2584 | in every reachable state a cursor in the cache stands at the bytes of the message its subscriber waits for, or at the end when there is none |
| MsgCache.Cache.Evict | lib/nbmsg.c:2683-2716 | exactly the subscribers at the first message move to its file position; it leaves exactly when it is the first or the next one of its node |
| MsgCache.Cache.SetState | lib/nbmsg.c:317-330 | the state at the start of the cache is the last id of each node among the messages that have left |
| MsgCache.Cache.Stomp | lib/nbmsg.c:2653-2726 | the loop ends with a place where the entry touches no other one, or at a message that has to leave and is not the next one of its node; every subscriber whose message was evicted is at its file position, all others are as they were |
| MsgCache.Cache.Store | lib/nbmsg.c:2789-2795 | the entries from start to end are the old ones and the new one |
| MsgCache.Cache.Walk | lib/nbmsg.c:2538-2584 | a walk hands over, in order, the messages from the cursor to the end or to the first one the subscriber is not ready for; from the start this is the whole retained suffix |
| MsgCache.Cache.Publish | lib/nbmsg.c:2538-2584 | the subscriber gets those messages, pauses exactly when it was not ready, and its cursor is right again |
| MsgCache.Cache.Insert | lib/nbmsg.c:2758-2806 | a record out of sequence, or a message whose id is less than the state at the end of the cache (greater, across the wrap within one second), changes nothing but the count; there is no place only if a message in the way is not the next one of its node; otherwise the cache stays in order, for any sequence of messages, and each subscriber moves to the log, stays, or gets the messages from its cursor on |
| MsgCache.Cache.Resume | lib/nbmsg.c:2527-2537 | a subscriber that has read the log to its end continues at the start of the cache |
| Intervals.InsertAllSorts | lib/nbbfi.c:404-418 | inserting any segments one by one gives a sorted list of the same segments |
| Intervals.MergeIsNormal | lib/nbbfi.c:698-710 | merging sorted segments gives proper segments with gaps between them |
| Intervals.MergeCovers | lib/nbbfi.c:698-710 | merging covers exactly the same points |
| Intervals.NormalFormIsUnique | lib/nbbfi.c:499-510 | two normal forms that cover the same points are the same list |
| Intervals.AndOfCovers | lib/nbbfi.c:746-762 | the result is the normal form of the points that two segments share |
| Intervals.DomainIsIntersection | lib/nbbfi.c:390-399 | the common domain is the intersection of both |
| Intervals.NewDomainIs | lib/nbbfi.c:368-383 | the domain of a new function lies between its bounds, whichever comes first |
| Intervals.OperationsKeepDomains | lib/nbbfi.c:390-399 | or, and, union and select are defined where both functions are, reject too unless it copies, and not and merge where their argument is |
| Intervals.OrIsUnion | lib/nbbfi.c:1233-1240 | or covers exactly the points of either function, in normal form |
| Intervals.AndIsIntersection | lib/nbbfi.c:1188-1199 | and covers exactly the points of both functions, in normal form |
| Intervals.CompareDecidesEquality | lib/nbbfi.c:499-510 | on normal forms, equal representations are equal domains and equal points |
| Intervals.AndDistributesOverOr | lib/nbbfi.c:1188-1240 | a Boolean law holds as equality of representations, domains included |
| Intervals.NotIsComplement | lib/nbbfi.c:776-793 | the complement of a function with segments covers a point of the domain exactly when the function does not |
| Intervals.NotOfOr | lib/nbbfi.c:776-793 | the complement of a disjunction is the conjunction of the complements, where both functions are defined |
| Intervals.NotOfAnd | lib/nbbfi.c:776-793 | the complement of a conjunction is the disjunction of the complements exactly when the conjunction is not empty |
| Intervals.DoubleComplement | lib/nbbfi.c:776-793 | complementing twice gives the merged function exactly when the function leaves out a point of its domain |
| Intervals.FullFunctionIsLost | lib/nbbfi.c:780-780 | a concrete function that complementing twice loses |
| Intervals.SelectAndRejectSplit | lib/nbbfi.c:990-1036 | select and reject split the segments, multiplicities included |
| Intervals.SelectedTouch | lib/nbbfi.c:1020-1036 | what is selected are the segments that meet the points of the other function, and what is rejected are the rest |
| Intervals.CursorDecides | lib/nbbfi.c:1027-1030 | a cursor that only moves forward decides correctly |
| Intervals.ReturningCursorDecides | lib/nbbfi.c:997-1003 | a cursor that first moves back decides correctly wherever it stood |
| Intervals.UniquePlace | lib/nbbfi.c:423-437 | a segment that is there already is found next to the place where it would go |
| Intervals.InsertUniqueIntoAdds | lib/nbbfi.c:423-437 | inserting a segment that is not empty adds it, once, although the search may stop at the domain cell |
| Intervals.ConflictIsExact | lib/nbbfi.c:671-683 | what is recorded are exactly the segments that overlap some other segment |
| Intervals.StrictlySortedIsUnique | lib/nbbfi.c:671-683 | with its order the set of conflicts determines the result |
| SegmentHeap.Link | lib/nbbfi.c:411-416 | linking a cell in keeps the circle linked both ways |
| SegmentHeap.FindPlace | lib/nbbfi.c:407-407 | the search from the end finds the place behind all segments that are not greater |
| SegmentHeap.Store.constructor | lib/nbbfi.c:340-340 | the empty heap is in order |
| SegmentHeap.Store.CellsArePartitioned | lib/nbbfi.c:367-460 | in every reachable heap each cell is on the free list, or on the circle of the one function that owns it, and nowhere else |
| SegmentHeap.Store.Alloc | lib/nbbfi.c:349-362 | of a new block of 256 cells all but one go to the free list |
| SegmentHeap.Store.New | lib/nbbfi.c:367-383 | adds one function without segments and keeps the heap in order |
| SegmentHeap.Store.Insert | lib/nbbfi.c:404-418 | one function gets one segment in its place; nothing else changes |
| SegmentHeap.Store.InsertUnique | lib/nbbfi.c:423-437 | the same, unless the segment is there |
| SegmentHeap.Store.Dispose | lib/nbbfi.c:455-461 | all cells of the function are free again; nothing else changes |
| SegmentHeap.Store.Copy | lib/nbbfi.c:468-476 | adds one function, with the same segments |
| SegmentHeap.Store.Compare | lib/nbbfi.c:499-510 | says 1 exactly when both functions have the same domain and segments |
| SegmentHeap.Store.Or_ | lib/nbbfi.c:698-710 | adds exactly one function, the merge of the given one; the rest of the heap is as it was |
| SegmentHeap.Store.And_ | lib/nbbfi.c:746-762 | adds exactly one function, the merged overlaps; its temporary is returned |
| SegmentHeap.Store.AndFunKeepsDomain | lib/nbbfi.c:746-762 | that function is defined where the given one is |
| SegmentHeap.Store.Not_ | lib/nbbfi.c:776-793 | adds exactly one function, the complement; its temporary is returned |
| SegmentHeap.Store.Union | lib/nbbfi.c:1084-1118 | adds exactly one function, all segments of both in order, over the common domain |
| SegmentHeap.Store.Or | lib/nbbfi.c:1233-1240 | adds exactly one function, the union over the common domain; its temporary is returned |
| SegmentHeap.Store.And | lib/nbbfi.c:1188-1199 | adds exactly one function, the intersection over the common domain; its three temporaries are returned |
| SegmentHeap.Store.Select | lib/nbbfi.c:1020-1036 | adds exactly one function, with some of the segments of the first one, and its temporary is returned; when no segment is empty, they are the ones that meet the points of the other function |
| SegmentHeap.Store.Reject | lib/nbbfi.c:990-1008 | adds exactly one function, with some of the segments of the first one, and its temporary is returned; when no segment is empty, they are the ones that do not meet the points of the other function; with nothing to reject or to reject with, a copy |
| SegmentHeap.Store.Conflict_ | lib/nbbfi.c:671-683 | adds exactly one function; when no segment is empty, it has the conflicting segments in order and each once |
| LineQueue.Pool.Alloc | lib/nbmedulla.c:223-239 | a buffer is new or comes off the free list, is empty, and shares its page with none |
| LineQueue.Pool.Free | lib/nbmedulla.c:241-251 | a buffer that is not free goes to the free list, or to the system when that is full |
| LineQueue.Queue.Put | lib/nbmedulla.c:2122-2155 | the bytes are appended to the contents; no buffer is lost |
| LineQueue.Queue.Get | lib/nbmedulla.c:2163-2223 | the first line comes out when it fits; a longer one is cut when the buffer in which it ends begins within the size, and otherwise ends the program; without a complete line nothing changes; every buffer is in the queue, free, or returned, in one place only |
| LineQueue.LinesThatFit | lib/nbmedulla.c:2178-2201 | a get does what it should exactly when the first line is not longer than the size |
| LineQueue.CutLineLosesAByte | lib/nbmedulla.c:2193-2197 | a concrete line that a get cuts, with the byte at the cut lost |
| LineQueue.StreamOfLines | lib/nbmedulla.c:2122-2223 | for any order of puts and gets and any chunks, the lines that come out, followed by those still inside, are the lines of all that was put in |
| LineQueue.LinesAreTheStream | lib/nbmedulla.c:2163-2223 | the lines of a stream, each with its newline, are the stream up to its last newline, and contain none themselves |
| HashLists.MaskIsSlot | lib/nbhash.c:171-182 | masking a hash code is the remainder by the number of slots |
| HashLists.HashCodeIs | lib/nblist.c:229-240 | the hash code is the number with the members as digits to the base eight, cut to 32 bits |
| HashLists.TwoSlots | lib/nbhash.c:178-186 | in a table twice the size a cell belongs to its old slot or to the one as many slots further |
| HashLists.KeptIsSorted | lib/nbhash.c:171-193 | splitting a chain keeps it sorted and free of repeats |
| HashLists.SplitChain | lib/nbhash.c:174-191 | the two tail pointers build, in place, the two parts of the chain in their order |
| HashLists.DoubledOk | lib/nbhash.c:157-193 | growth loses no list, and puts each where it is looked for |
| HashLists.Search | lib/nblist.c:257-270 | the search that stops early finds the list if it is in the chain, else the place where it belongs |
| HashLists.SameMembers | lib/nblist.c:258-264 | two lists are compared member by member |
| HashLists.Table.constructor | lib/nbhash.c:133-150 | a new table has 8 slots or as many as asked for, and grows at three quarters |
| HashLists.Table.Canonical | lib/nblist.c:245-289 | in every reachable table, lists with the same members are the same list |
| HashLists.Table.NotThere | lib/nblist.c:252-257 | when the search finds nothing, no list of the table has these members |
| HashLists.Table.Grow | lib/nbhash.c:157-193 | the table has twice the slots and holds the same lists, each slot the cells that belong to it in their order |
| HashLists.Table.UseList | lib/nblist.c:245-289 | returns the one list with these members: the existing one if there is one, else a new one; the table doubles exactly when a new list brings it to its limit |
| HashLists.Table.Destroy | lib/nblist.c:316-330 | exactly this list leaves the table |
| Timers.CancelledKeepsOthers | lib/nbclock.c:164-170 | cancelling takes out the event of the cell, and leaves the others in their order |
| Timers.PlacedInOrder | lib/nbclock.c:176-178 | the queue stays sorted with one event for each cell; the new event is the last of its time, and the others keep their order |
| Timers.AfterSetHas | lib/nbclock.c:157-179 | what is in the queue after a timer is set or cancelled |
| Timers.Clock.SetTimer | lib/nbclock.c:157-179 | the linked queue does what these functions say, with nodes taken from and returned to the free list |
| Timers.Clock.Pop | lib/nbclock.c:218-222 | the first event comes off the queue, and its node is free |
| Delays.EntersByAlarmOnly | lib/nbcondition.c:803-849 | in every run a delay cell enters the state it waits for by an alarm only: its operand is in that state, was in it at its last evaluation, at least the duration ago, and at the end of every reaction since then, of which there is at least one |
| Delays.EachKindInTurn | lib/nbcondition.c:803-849 | operator by operator and in values: `~^` goes from false or unknown to a true value by an alarm only, with a true operand at every reaction since an evaluation at least the duration ago, and follows a false or unknown operand at once; the others in the same way |
| Delays.EntersInTime | lib/nbclock.c:215-232 | in every run, when a reaction has ended and its timer is not due, a cell that was last evaluated at least the duration ago has its operand's value |
| Delays.RunIsGood | lib/nbclock.c:215-232 | publications, evaluations, ends of reactions, alarms of delay cells and of other objects, and timers set by other objects keep the invariant in any order in which the engine does them |
| Delays.Network.HasEnteredInTurn | lib/nbcondition.c:803-849 | the same for the cells in any reachable state |
| Delays.SettledCellsFollow | lib/nbcondition.c:809-849 | when a reaction has ended, every delay cell has the value of its operand, or has a timer and an operand in the state that its operator waits for |
| Delays.Network.FlagMeansTimer | lib/nbcondition.c:809-849 | in every reachable state the TIMER flag is set exactly when the cell has a timer, and the queue is sorted with at most one per cell |
| Delays.EvaluationIsGood | lib/nbcondition.c:809-849 | evaluating a cell keeps the invariant: timers and flags agree, the operand of each waiting cell has lasted, and unscheduled cells have seen their operands |
| Delays.FirstIsDue | lib/nbclock.c:215-227 | a timer whose time has come belongs to a cell whose operand has lasted since it was set, and has changed only if it was alerted, or published by an alarm, in the same cycle |
| Delays.AlarmIsGood | lib/nbcondition.c:803-807 | an alarm keeps the invariant, for the rest of the cycle too |
| Delays.StirIsGood | lib/nbclock.c:218-228 | the alarm of another object, which may publish operands of delay cells, keeps the invariant for the rest of the cycle too |
| Delays.SettingIsGood | lib/nbclock.c:157-179 | timers that other objects set or cancel keep the invariant |
| Delays.ReactionIsGood | lib/nbcell.c:800-833 | the end of a reaction keeps the invariant, and leaves everything settled |
| Delays.Network.EvalDelay | lib/nbcondition.c:809-849 | for each operator, which operands are followed at once and which set the timer anew and keep the value |
| Delays.Network.Evaluate | lib/nbcell.c:810-822 | one evaluation does what the step on states says, and publishes a change |
| Delays.Network.React | lib/nbcell.c:800-833 | a reaction evaluates each scheduled cell at most once, by level, and ends settled, whatever else was published |
| Delays.Network.Alarm | lib/nbclock.c:218-228 | the first timer goes off: a delay cell follows its operand, publishes, and clears its flag; another object publishes |
| Delays.Network.Cycle | lib/nbclock.c:215-227 | one cycle alerts exactly the delay cells and other objects whose timers go off in the second of the first one, in the order in which they were set |
| Delays.Network.Round | lib/nbclock.c:215-232 | a cycle, a reading of the clock and a reaction lead from a settled state to a settled state |

## Left out

- Cells: cells whose evaluation changes subscriptions or toggles (monitors, captures, lists, the subscription side of the lazy operators), and rule firing; rules are sinks. All cells of a reactor are enabled.
- Cells.Reactor.AssignTerm: assigning an expression to a term is modelled by its parts, the repair of levels and the subscription; assigning to a term that is disabled changes its definition only, and no cell of a reactor is disabled.
- Subscriptions.Enable: relational conditions with a constant on the right, which subscribe through an axon; unsubscribing.
- Levels: the message about circular expressions, which an acyclic graph never reaches.
- Axons.EqualityAxon.Enable: the balanced tree code is not part of this model; the tree after an insertion or removal is a parameter, any search tree with the right conditions.
- Axons.RangeAxon: the reaction of a whole network that contains axon cells, see `Cells` for reactions without; boosting, that is the moment when plain subscriptions become an axon, and reference counts.
- Messages: the byte layout of records, files and sockets; the length limits of messages; reading the clock is a parameter.
- Replication: log state and program state are one object, as the receiving side has it; the branches for two objects copy a time into the count. Counts do not wrap within one second, see `Messages.NewIdIsNewer`. The log of a sender is read from its start after a connection; older files that hold nothing new are not skipped. Nodes do not lose their logs.
- MsgCache.Cache.Insert: the state at the end of the cache is a parameter, which the log keeps up to date; file markers and file switching. The buffer holds at least four entries of maximal size; when a smaller cache runs empty, its start moves to stale bytes.
- MsgCache.Cache.Publish: whether a message is known to the subscriber is its answer, a parameter; redelivery to a subscriber that refused a message which was then evicted, where the state was already advanced.
- SegmentHeap.Store.Select: which segments are selected is not stated for functions with empty segments, which cover no points.
- SegmentHeap.Store.Reject: which segments are rejected is not stated for functions with empty segments.
- SegmentHeap.Store.Conflict_: which segments are recorded is not stated for functions with empty segments.
- SegmentHeap.Store: bfiEval, whose bounds test (lib/nbbfi.c:488) disagrees with the documented domain; coverage is membership in some segment. The Xor family, bfiIndex, bfiKnown, bfiUntil and bfiYield, and parsing. The complement of a function without segments is a function without segments, as in the code.
- LineQueue.Queue.Put: text has no NUL byte; copying stops at one.
- LineQueue.Queue.Get: the terminator behind a short line and the carriage return of Windows; the program end on a line that does not fit is a result.
- HashLists.Table.UseList: freed cells are not reused, and the level of a new list is not computed. The limit of 32 bits on the number of slots.
- Delays.Network.Cycle: what another object publishes at its alarm is a parameter, any values. Timers that such objects set, and reactions that they run, during the cycle are steps of the runs (`Delays.RunIsGood`), but not of this loop.
- Delays.Network.Round: the loop of nbClockAlert over rounds, which ends when no timer is due. What the other cells publish in a reaction is a parameter, any map of values; rules are sinks. Enabling and disabling delay cells: a new cell is waiting for its first evaluation.
