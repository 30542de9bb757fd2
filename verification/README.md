# onet: a verified model of its cores

onet builds communication trees over a roster of servers, runs protocols on them,
and comes with a simulation kit. This project models the parts of it whose
correctness is not visible in one function, and proves what they promise for every
input, every run and every reachable state.

- **Trees** (`Arena`, `HostSearch`, `BigNary`, `LastRow`, `Nary`, `Keys`, `TreeNodes`, `Generated`,
  `Marshal`, `TreeIds`). A tree under construction is a sequence of nodes in the order of their
  creation; a node is named by its position. Keys are elements of a commutative group,
  ids are numbers.
- **Protocols on a tree** (`Aggregation`, `Convergecast`, `Count`, `CountHistory`, `CloseAll`). A step
  system over an arbitrary tree: a bag of messages in flight, delivered in any order or
  lost, and a timeout of the root. `Count` and `CloseAll` are two uses of one convergecast.
- **The overlay** (`TreeStorage`, `TreeTimers`, `OverlayState`, `OverlayInstances`,
  `OverlayMessages`, `OverlayTrees`, `OverlayLog`, `OverlayRuns`, `OverlayOrder`,
  `OverlayProgress`, `OverlayOutcomes`, `OverlayHandlers`, `DispatchQueue`). One
  state machine over trees, planned removals, instances, finished tokens and pending
  messages. Every handler is one step, `RegisterTree` starts the drain of the messages that
  wait, whose transmissions are steps of their own, and `TransmitMsg` is three steps: up to the creation of the instance, its registration, and
  handing over the message. Messages are numbered as they are received. Every method of the
  classes that handles something is proved to be one event, so that an object is always in a
  state of some run, and the theorems about runs hold for every sequence of calls.
- **Clients and connections** (`NodeList`, `FanOut`, `FanOutHistory`, `Framing`). The worker pool of the
  parallel request, with its channels and its lock, and messages with a size in front on a
  byte stream that splits writes and reads as it likes.
- **Numbers of the simulation** (`Stats`, `MiniNet`, `BuildHosts`). Streaming statistics
  over the reals, host addresses, and the size of a simulation.

`Wrappers`, `Arith` and `Geometric` hold what the others share.

What the environment decides is a parameter or an event: which message arrives or is
lost, when a timer expires, whether a request can be wrapped and sent, whether a
protocol can be made, the random permutation of the nodes, how a stream splits and where
it ends.

## Where the code and its documentation differ

The model follows the code.

- `simul/README.md` says that 13 hosts with `BF` 3 are the same as 13 hosts with `Depth` 3.
  The tree has depth 2, and depth 3 gives `BF` 2 (`BuildHosts.ThirteenHosts`).
- `simul/README.md` says that the last row is spread as evenly as possible. For `N` = 4 and 15
  nodes the four parents get 2, 4, 3 and 1 children (`LastRow.FifteenNodes`). The row is even if
  and only if it has few nodes, lacks at most two (three for `N` = 2), or is one of a short list
  (`LastRow.LastRowEvenIff`).
- `websocket_client.go` says that ignored nodes count towards `AskNodes`. They do not
  (`NodeList.IgnoredFirst`); it makes no difference if and only if no ignored node is among the
  first `AskNodes` that are tried, or only ignored ones come after them (`NodeList.DocumentedIff`).
- `simul/monitor/stats.go` documents `Max` as the maximum of the stored values. A fresh
  maximum is 0, so it is the maximum if and only if some value is not negative
  (`Stats.MaxIsRightIff`, `Stats.MaxOfNegatives`).
- `treestorage.go` cancels a planned removal when the tree is asked for. A timer that has
  fired and waits for the lock removes the tree all the same (`TreeTimers.CancelledTooLate`);
  a tree is safe if and only if no timer of its id is left (`TreeTimers.SafeIffNoTimer`). `Close`
  waits for the timers while it holds the lock they want; it returns if and only if none has
  fired and none was orphaned (`TreeTimers.CloseReturnsIff`).
- `treestorage.go` says that `GetRoster` returns nil if it does not find the roster. It reads the
  roster of every tree it meets, and fails on an id that is registered without one
  (`TreeStorage.GetRosterSafeIff`).
- `simul/manage/close_all.go` closes the tree from the leaves up, and `Done` is what the caller
  waits for. A node sends its Close a second before it closes its host, so the root can signal
  `Done` while hosts below it are open (`CloseAll.LeafSleeps`). `Done` means that all hosts are
  closed, in every run, if and only if the root is the only node (`CloseAll.DoneMeansAllClosedIff`).
- Messages that wait for a tree are not always drained in the order of receipt: one that is put
  back because its tree expired goes behind later ones (`OverlayOrder.LaterFirst`), and one that
  comes in once the tree is there overtakes those still drained (`OverlayOrder.SecondHandedFirst`).
  `OverlayOrder.OrderKeptIff` and `OverlayOrder.FairIff` say exactly when that happens.

- `tree.go` adds a mark to the hash of a tree for every leaf, so that trees of the same nodes
  with another structure get another id. A tree in which b has the children c and d, and one in
  which b has c and d is next to b, are hashed alike (`TreeIds.SameMarks`). What is hashed tells
  a tree from all others if and only if no leaf but the last that is visited is deeper than 1
  (`TreeIds.ToldApartIff`).

## Model

| member | source | states |
|---|---|---|
| `HostSearch.PickHost` | tree.go:574-600 | The circular search terminates and returns the first eligible entry on another host than the parent, or the first eligible one if there is none |
| `HostSearch.PickIsUnique` | tree.go:574-600 | The rule for the pick leaves exactly one entry |
| `HostSearch.SameHostOnlyIfForced` | tree.go:574-600 | A pick shares the host of the parent if and only if every eligible entry does |
| `BigNary.QuotaAtMostRest` | tree.go:568-571 | The quotient rule never gives a parent more children than nodes are missing |
| `BigNary.QuotaFull` | tree.go:568-571 | With enough nodes left to fill the level, every parent gets N children |
| `BigNary.QuotaLast` | tree.go:568-571 | Otherwise the parents still to come can take all the nodes still missing |
| `BigNary.ProgressStep` | tree.go:564-611 | The invariant of a level survives serving one parent by the quotient rule |
| `BigNary.AddChildren` | tree.go:574-609 | One parent gets as many children as asked for, next in the order of creation, each by the search rule, and nothing else changes |
| `BigNary.FillLevel` | tree.go:564-611 | A level ends full or with all nodes placed; every parent of it has the children that its quota says |
| `BigNary.FillLevels` | tree.go:564-611 | Level after level the tree reaches exactly `nodes` nodes, filled by level and with every node's children determined |
| `BigNary.GenerateBigNaryTree` | tree.go:549-613 | Fails on the empty roster only; a tree of exactly `nodes` nodes, at most N children each, filled level by level, with the children of every node and the entry of every node determined |
| `BigNary.DistributedStep` | tree.go:564-611 | Once a level is served, all nodes down to it have the children that the quotient rule gives them |
| `BigNary.TreeIsDetermined` | tree.go:549-613 | Any two trees that meet what is stated of the generator are equal: shape, links and roster entries |
| `BigNary.UsesEveryEntryOnce` | tree.go:554-558 | With as many nodes as roster entries, every entry is used exactly once |
| `BigNary.SameHostAsParent` | tree.go:574-600 | A node of the finished tree shares its parent's host if and only if every entry it could have been given does |
| `BigNary.InRosterOrder` | tree.go:574-600 | When every entry is on a host of its own and there are enough, the nodes are the entries in the order of the roster |
| `BigNary.PerfectTree` | tree.go:564-611 | 1 + N + ... + N^d nodes give the perfect tree: height d, N^k nodes on level k |
| `LastRow.ParentsOfLastRow` | tree.go:564-611 | The children of each node above the last row are what the quotient rule leaves for it |
| `LastRow.ShortIff` | tree.go:568-571 | A row with fewer nodes than parents is even if and only if its longest product stays below twice the parents |
| `LastRow.AlmostFullIsEven` | tree.go:568-571 | A row that lacks at most two nodes is even |
| `LastRow.EvenIsAlmostFull` | tree.go:568-571 | An even row in which parents have N and N - 1 children lacks at most two nodes |
| `LastRow.LongRow` | tree.go:568-571 | An even row with at least one node for each parent is almost full or one of the short list |
| `LastRow.EvenIff` | tree.go:568-571 | For every N, number of parents that is one or at least N, and length that they can take, a row is even if and only if a condition on the three numbers holds |
| `LastRow.LastRowEvenIff` | simul/README.md:86-87 | The last row of a generated tree is spread evenly if and only if that condition holds |
| `LastRow.FifteenNodes` | simul/README.md:86-87 | Fifteen nodes with N = 4: the parents of the last row have 2, 4, 3 and 1 children |
| `Arena.LevelsAreFull` | tree.go:564-611 | Level k above the deepest has N^k nodes |
| `Arena.HeightBoundsSize` | tree.go:564-611 | A tree of arity at most n and height h has at most 1 + n + ... + n^h nodes |
| `Arena.LevelFilledIsLowest` | tree.go:564-611 | No tree of the same size and arity is lower than the generated one |
| `Arena.AddChildKeepsTree` | tree.go:940-943 | Adding a child keeps parents, links back and the order of children consistent |
| `Arena.CountIsArity` | tree.go:980-984 | The subtree count of a node whose children are leaves is the number of its children |
| `Arena.Search` | tree.go:483-490 | The first entry with the id, or -1 if there is none |
| `Nary.GenerateNaryTreeWithRoot` | tree.go:639-673 | The nodes are the entries from the root to the end of the roster and then from its start; the parent of node j is the node p with N p < j <= N p + N; no tree if and only if the root is unknown, a crash exactly on an empty roster without root or N = 0 with two entries or more |
| `Nary.NextParent` | tree.go:657-666 | The two queues hold the parents and children in order and their head is the next node with room |
| `Nary.GrowTree` | tree.go:651-673 | The queue loop builds the closed-form layout |
| `Nary.HeadFacts` | tree.go:657-660 | The subtree count of the head parent is its number of children |
| `Keys.SumPermuted` | tree.go:445-457 | A sum of keys does not depend on their order |
| `TreeNodes.ComputeIsVisitSum` | tree.go:286-299 | Every node stores the sum of the keys of its visit, which is its aggregate public key; keys and order are kept |
| `TreeNodes.RosterAggregate` | tree.go:445-457 | The loop of the roster yields the sum of all public keys |
| `Generated.VisitReachesAll` | tree.go:971-976 | A visit from the root reaches every node of a generated tree exactly once |
| `Generated.OrderOnce` | tree.go:971-976 | A visit from a node reaches exactly the nodes below it, each once |
| `Generated.RootSize` | tree.go:980-984 | The subtree of the root has all the nodes |
| `Generated.RootAggregate` | tree.go:286-299 | In a tree that uses every entry once, the root's aggregate is the aggregate of the roster |
| `Generated.LayoutUsesAllOnce` | tree.go:639-673 | The n-ary layout uses every entry once |
| `Generated.GeneratedIsIndexed` | tree.go:894-903 | The nodes of a generated tree carry the index and identity of their roster entry and the link to their parent |
| `Marshal.FailsOnUnknown` | tree.go:362-381 | Rebuilding a node fails if and only if some identity below it is missing from the roster |
| `Marshal.MakeTreeFails` | tree.go:344-359 | With the right roster and a root, `MakeTree` fails if and only if some identity is missing |
| `Marshal.RoundTripNode` | tree.go:331-342 | Copying and rebuilding a node gives it back if and only if it sits at the first entry with its id, with the right links |
| `Marshal.RoundTrip` | tree.go:119-129 | `MakeTree` of `MakeTreeMarshal` gives the tree back, aggregates included, if and only if every node is placed so |
| `Marshal.IndexedIsPlaced` | tree.go:483-490 | With unique ids, being placed so is having the right roster index and parent |
| `Marshal.RebuiltIsEqual` | tree.go:946-962 | A tree that is rebuilt is `Equal` to the original |
| `Marshal.EqualIff` | tree.go:182-188 | Two trees are `Equal` if and only if their ids and roster ids agree and the ids of their nodes and servers form the same tree |
| `TreeIds.VisitMarks` | tree.go:71-87 | The visit hashes the keys and leaf marks of the tree's shape, each node before its children |
| `TreeIds.ToldApartIff` | tree.go:70-94 | What is hashed tells a tree from every other one if and only if no leaf but the last that is visited is deeper than 1 |
| `TreeIds.SameMarks` | tree.go:78-86 | Two different trees of the same four nodes of which the same is hashed |
| `Aggregation.Aggregator.Aggregate` | treenode.go:607-631 | A message from the parent, or of a type that is not aggregated, is returned at once and alone; any other joins those of its type, which are returned and forgotten when there is one for every child |
| `Aggregation.NothingLostOrReordered` | treenode.go:607-631 | For each type, the delivered batches and then the queue are the arrivals in order |
| `Aggregation.ArrivalsKept` | treenode.go:607-631 | For each aggregated type, the batches and then the queue hold its messages that are not from the parent, in the order of arrival; all other messages are handed out in the order of arrival |
| `Aggregation.ParentIsAlone` | treenode.go:609-631 | In every sequence of arrivals a batch with a message from the parent, or of a type that is not aggregated, holds that message only; any other is of one type and has one message for each child |
| `Aggregation.QueueStaysShort` | treenode.go:607-631 | A queue never holds a whole batch |
| `Convergecast.StepInv` | treenode.go:607-631 | Each event keeps the invariant: each message exists at most once, reports are true, batches are whole, and a node reports after its children |
| `Convergecast.BatchComplete` | treenode.go:607-631 | A batch has exactly one report of each child |
| `Convergecast.ReadyMeans` | simul/manage/count.go:136-158 | A node with a batch was prepared, and so were all its children, which have reported |
| `Convergecast.RootSentMeansAll` | simul/manage/count.go:162-177 | When the root has reported, every node has |
| `Convergecast.QuietAllSent` | simul/manage/count.go:98-132 | When nothing is left to happen and nothing was lost, every node has reported |
| `Convergecast.StepShrinks` | simul/manage/count.go:98-177 | Every event, losses included, leaves less work |
| `Count.FuncC` | simul/manage/count.go:162-177 | The loop computes what the node reports: itself and the counts of the batch, as 32 bits below the root |
| `Count.NextInv` | simul/manage/count.go:98-177 | Each event, timeout and loss included, keeps the invariant of the protocol |
| `Count.CountsAreSubtreeSizes` | simul/manage/count.go:162-177 | In every run, every count in flight is the size of the sender's subtree, as a 32-bit number |
| `CountHistory.RootReturns` | simul/manage/count.go:98-132 | In every run the root emits at most one value; after a timeout it is the number of NodeIsUp messages that reached it, otherwise the size of the tree |
| `CountHistory.RepliesAreSeen` | simul/manage/count.go:110-120 | In every run the replies are the NodeIsUp messages that reached the root, and the prepared nodes those that handled PrepareCount |
| `CountHistory.UpsBalance` | simul/manage/count.go:110-143 | In every run the NodeIsUp messages on their way, seen by the root and lost are together as many as the nodes below the root that handled PrepareCount |
| `CountHistory.TimeoutReturns` | simul/manage/count.go:121-127 | A timeout returns the number of NodeIsUp messages seen, which is the number of nodes below the root that handled PrepareCount if and only if none is on its way or lost |
| `CountHistory.UpIsHandled` | simul/manage/count.go:110-120 | A NodeIsUp on its way can be handled if and only if its receiver has not reported and, at the root, not timed out |
| `CountHistory.StuckRunHasCounted` | simul/manage/count.go:98-177 | Without loss and timeout, a run in which none of the protocol's messages can be handled has returned the size |
| `Count.FullCountMeansAllUp` | simul/platform/runsimul.go:145-153 | If the value is the size of the tree, every node has handled PrepareCount and answered |
| `Count.QuietRunHasCounted` | simul/manage/count.go:98-177 | A run that loses nothing and does not time out ends with the size of the tree |
| `Count.RunsEnd` | simul/manage/count.go:98-177 | No run is longer than the work at its start, so every run comes to an end |
| `CloseAll.DoneMeansAllSent` | simul/manage/close_all.go:92-113 | In every run, at Done every node has run FuncClose up to its Close |
| `CloseAll.ClosesAfterBelow` | simul/manage/close_all.go:92-113 | In every run a host closes only after every node below it has sent its Close |
| `CloseAll.EndedRunIsDone` | simul/manage/close_all.go:67-113 | A run that loses nothing and cannot go on has closed every host and signalled Done |
| `CloseAll.RunsEnd` | simul/manage/close_all.go:67-113 | No run is longer than the work at its start |
| `CloseAll.LeafSleeps` | simul/manage/close_all.go:93-111 | A run of a root and a leaf in which Done comes while the leaf's host is open |
| `CloseAll.AllClosedIffNoneAsleep` | simul/manage/close_all.go:101-111 | At Done all hosts are closed if and only if no node is still asleep |
| `CloseAll.DoneTooEarly` | simul/manage/close_all.go:101-111 | Every tree has a run in which Done comes when only the root's host is closed |
| `CloseAll.DoneMeansAllClosedIff` | simul/manage/close_all.go:101-111 | Done means that all hosts are closed, in every run, if and only if the root is the only node |
| `TreeStorage.Store.constructor` | treestorage.go:17-24 | The storage starts empty and open |
| `TreeStorage.RegisterUndone` | treestorage.go:27-43 | Unregistering undoes registering, and keeps a tree that was set in between |
| `TreeStorage.Store.UnregisterId` | treestorage.go:34-43 | An id without a tree is forgotten; one with a tree stays |
| `TreeStorage.Store.Cancel` | treestorage.go:156-162 | The planned removal of the id is dropped, and no other |
| `TreeStorage.Store.GetAndRefresh` | treestorage.go:64-71 | Returns the tree and drops its planned removal |
| `TreeStorage.Store.SetTree` | treestorage.go:74-81 | Stores the tree and drops its planned removal |
| `TreeStorage.Store.RemoveTree` | treestorage.go:84-121 | Plans the removal once, unless the storage is closed |
| `TreeStorage.Store.TimerExpires` | treestorage.go:103-120 | The expired removal takes the tree and the plan away |
| `TreeStorage.Store.Shutdown` | treestorage.go:138-148 | All plans are dropped and no more are made; when the call can return is `TreeTimers.CloseReturnsIff` |
| `TreeStorage.GetRosterSafeIff` | treestorage.go:124-135 | GetRoster cannot panic, in whatever order the trees are gone over, if and only if no id is registered without its tree |
| `TreeStorage.KeptUntilEndangered` | treestorage.go:27-151 | A tree without a planned removal stays through any requests but planning its removal and registering its id anew |
| `TreeTimers.AskIsServe` | treestorage.go:27-162 | With a timer for each plan, every request does to trees and plans what it does without timers |
| `TreeTimers.FireIsExpire` | treestorage.go:108-115 | A timer that fires and gets the lock at once is the expiry of its removal |
| `TreeTimers.StepInv` | treestorage.go:84-162 | A planned removal has a timer for that id, which runs or has fired, and no two have the same, after every event |
| `TreeTimers.SafeIffNoTimer` | treestorage.go:108-115 | A tree without a planned removal stays in every run that does not endanger it if and only if no timer of its id is left |
| `TreeTimers.RefreshSavesIff` | treestorage.go:64-81 | A tree that is asked for or set stays from then on, in every run that does not endanger it, if and only if no timer of its id is left but the planned one, and that has not fired |
| `TreeTimers.CancelledTooLate` | treestorage.go:108-115 | A run after which a tree is stored, not planned for removal, and about to be removed |
| `TreeTimers.CloseReturnsIff` | treestorage.go:138-151 | Close can return if and only if no timer has fired and every running timer is the one planned for its id |
| `OverlayHandlers.Overlay.constructor` | overlay.go:54-75 | A new overlay is in the state of the empty run |
| `OverlayHandlers.Overlay.CleanTreeStorage` | overlay.go:636-648 | The removal of a tree is planned if and only if no instance uses it |
| `OverlayHandlers.Overlay.NodeDelete` | overlay.go:612-631 | Closes, unlists and marks the instance, and cleans up its tree; nothing if it is gone |
| `OverlayHandlers.Overlay.RequestTree` | overlay.go:307-334 | The message is pending; a request is sent if the id is not registered, and the id is forgotten again if that fails |
| `OverlayHandlers.Overlay.CreateInstance` | overlay.go:167-187 | An error unlists the new instance and marks its token done; no protocol leaves it listed and not done; otherwise it waits to be registered |
| `OverlayHandlers.Overlay.Process` | overlay.go:129-187 | Receiving a message is the event Receive: the object stays in a state of a run |
| `OverlayHandlers.Overlay.DrainNext` | overlay.go:257-269 | A drained message is the event Drain |
| `OverlayHandlers.Overlay.RegisterCreated` | overlay.go:208-211 | Registering the protocol made for a message, or refusing the message, is the event RegisterPI |
| `OverlayHandlers.Overlay.RegisterLocalInstance` | overlay.go:783-802 | Registering a local protocol is the event RegisterLocal |
| `OverlayHandlers.Overlay.TakePending` | overlay.go:241-262 | Splits the pending list by tree and keeps the order |
| `OverlayHandlers.Overlay.RegisterTree` | overlay.go:337-341 | Storing a tree and starting its drain is the event LocalTree |
| `OverlayHandlers.Overlay.HandleSendTree` | overlay.go:473-498 | A tree from a peer is the event Response, without effect if its id is not registered |
| `OverlayHandlers.Overlay.NewTreeNodeInstance` | overlay.go:744-756 | Listing a local instance and registering its tree is the event NewInstance |
| `OverlayHandlers.Overlay.ProcessProtocolMsg` | overlay.go:215-219 | Handing the message over, or dropping it for a closing instance, is the event Hand |
| `OverlayHandlers.Overlay.NodeDone` | overlay.go:604-608 | The end of an instance is the event Done |
| `OverlayHandlers.Overlay.TimerExpires` | treestorage.go:111-115 | The expiry of a planned removal is the event Expired |
| `OverlayHandlers.Overlay.Close` | overlay.go:655-665 | Deleting every instance in some order and closing the storage is the event Shutdown |
| `OverlayRuns.RunInv` | overlay.go:129-220 | Every reachable state of the overlay meets the invariant |
| `OverlayRuns.RegisteredIsLive` | overlay.go:783-802 | Every registered protocol instance is the one bound to the live instance of its token |
| `OverlayRuns.FinishedNeverLive` | overlay.go:604-631 | A finished token is never live again in any continuation |
| `OverlayRuns.ClosedAtMostOnce` | overlay.go:612-631 | In every run no instance is closed twice |
| `OverlayRuns.NothingQueuedAfterClose` | treenode.go:500-510 | In every run no message is queued to an instance after it was closed |
| `OverlayRuns.DoneBeforeRegistration` | overlay.go:187-208 | If Done runs before the registration, the message is refused and nothing is bound |
| `OverlayRuns.LiveInstanceHasTree` | treenode.go:181-190 | Before Close, the tree of a live instance is stored and its removal is not planned |
| `OverlayRuns.MessagesConserved` | overlay.go:129-220 | Every message received is in exactly one place: pending, drained, in transmission, queued, dropped or refused |
| `OverlayRuns.PendingLacksTree` | overlay.go:293-301 | No pending message has its tree available |
| `OverlayRuns.NoSecondRequest` | overlay.go:307-334 | Between two requests for a tree its id was forgotten |
| `OverlayRuns.PositionsMatch` | overlay.go:241-262 | The messages taken for a tree are those at the positions where it is waited for |
| `OverlayRuns.DrainTakesWaiting` | overlay.go:241-269 | A new tree moves all messages that wait for it, in the order of the pending list, to a drain, and leaves all others |
| `OverlayOrder.OrderKeptIff` | overlay.go:241-301 | In every run the pending list and all drains keep the order of receipt for each tree if and only if no message is put back behind a later one of its tree |
| `OverlayOrder.OrderKeptUnlessExpired` | overlay.go:241-269 | The order of receipt is kept if no tree expires while its messages are drained |
| `OverlayOrder.LaterFirst` | overlay.go:241-301 | A run in which a message is put back behind a later one of its tree |
| `OverlayOrder.FairIff` | overlay.go:129-220 | In every run messages of each token are queued in the order of receipt, and none that waits is overtaken, if and only if none is handed over while an older one is pending or drained |
| `OverlayOrder.SecondHandedFirst` | overlay.go:137-219 | A run in which a message overtakes an older one that is still drained, and is queued before it |
| `OverlayRuns.FailedSend` | overlay.go:307-334 | After a failed request the message stays pending and an answer that was not asked for is ignored |
| `OverlayRuns.AnswerDrains` | overlay.go:473-498 | An answer for a registered id takes every message that waits for it |
| `OverlayProgress.RunDrains` | overlay.go:241-269 | In every run the messages of one drain are for one tree |
| `OverlayProgress.DeliveryShrinks` | overlay.go:129-220 | Every step of a drain or of a transmission leaves fewer of them to come |
| `OverlayProgress.DeliveryEnds` | overlay.go:129-269 | No run goes on by such steps for longer than three for each drained message and two for the one in transmission |
| `OverlayProgress.StuckHasSettled` | overlay.go:129-269 | When no such step is possible any more, exactly the messages that were drained or in transmission have been queued, dropped or refused, provided that the trees of the drains were there |
| `OverlayProgress.DrainDelivers` | overlay.go:241-269 | From every run a drain whose tree is there can go on until exactly its messages, after the one in transmission, are queued, dropped or refused, whatever the outcomes |
| `OverlayProgress.AnswerDelivers` | overlay.go:473-498 | From every run the answer for a registered id can be followed by steps after which all messages that waited for the tree are queued, dropped or refused |
| `OverlayProgress.PendingDelivers` | overlay.go:241-334 | From every run a pending message is so settled after one more message for its tree, whose request gets out, and the answer |
| `OverlayProgress.FailedSendDelivers` | overlay.go:307-334 | A message whose request could not be sent is settled after the next message for its tree and the answer |
| `OverlayOutcomes.WaitsForTree` | overlay.go:137-147 | A message without its tree is pending; the tree is requested unless it was, and the id forgotten if that fails; nothing else changes |
| `OverlayOutcomes.DroppedIfDone` | overlay.go:155-160 | A message for a token that is done is dropped |
| `OverlayOutcomes.ChosenIfRegistered` | overlay.go:153-162 | A message for a registered protocol instance goes to it |
| `OverlayOutcomes.RefusedIfNoNode` | overlay.go:163-167 | A message for a node that the tree does not have is refused, and no instance is made |
| `OverlayOutcomes.ProtocolFails` | overlay.go:177-183 | When making the protocol fails, the new instance is closed and not listed, the token is done, and the tree is planned for removal if and only if no other instance uses it |
| `OverlayOutcomes.NoProtocol` | overlay.go:184-186 | When there is no protocol, the new instance stays listed and open, and the token is not done |
| `OverlayOutcomes.ProtocolMade` | overlay.go:168-187 | When the protocol is made, the new instance is listed and the message waits for its registration |
| `OverlayOutcomes.AsksAgain` | overlay.go:153-186 | After there was no protocol, the next message for the token asks for one again |
| `OverlayOutcomes.DroppedAfterFailure` | overlay.go:155-183 | After making the protocol failed, the next message for the token is dropped |
| `OverlayOutcomes.RegisteredIff` | overlay.go:783-802 | The protocol instance is registered if and only if its instance is still listed and not bound; otherwise the message is refused |
| `OverlayOutcomes.QueuedIff` | treenode.go:500-520 | The message is queued if and only if the instance is not closing |
| `OverlayOutcomes.DoneIff` | overlay.go:604-665 | In every run a token is done if and only if its protocol finished while it was listed, its protocol could not be made, or the overlay was closed while it was listed |
| `OverlayOutcomes.ListedIff` | overlay.go:153-186 | In every run a token is listed if and only if an instance was made for it and nothing ended it since |
| `OverlayOutcomes.ShutdownEndsAll` | overlay.go:655-665 | Closing the overlay closes and unlists every instance; no removal is planned and none will be |
| `DispatchQueue.Instance.constructor` | treenode.go:93-109 | A new instance is in the state of the empty run |
| `DispatchQueue.Instance.ProcessProtocolMsg` | treenode.go:500-520 | Keeps the queue's invariant; the message is accepted last and a waiting reader can be woken, unless the instance is closing |
| `DispatchQueue.Instance.CloseDispatch` | treenode.go:358-380 | Keeps the invariant; a waiting reader can be woken, and the lock is left held if and only if it was closed before |
| `DispatchQueue.Instance.ReaderRound` | treenode.go:522-553 | Keeps the invariant; the reader leaves a closing instance, takes the oldest message not dispatched, or waits because all were |
| `DispatchQueue.Instance.DispatchMsgToProtocol` | treenode.go:533-541 | Keeps the invariant; what is dispatched is the next of the accepted messages |
| `DispatchQueue.Instance.WakeUp` | treenode.go:546-549 | Keeps the invariant; waking takes and loses no message |
| `DispatchQueue.NoLostWakeUp` | treenode.go:522-553 | In every run a reader that waits with messages queued can be woken |
| `DispatchQueue.DispatchedInOrder` | treenode.go:500-553 | In every run the messages dispatched are the first of those accepted, in order |
| `DispatchQueue.ClosingIsSafe` | treenode.go:358-380 | No send on the closed channel, at most one message dispatched after closing, and the lock is stuck if and only if the instance was closed twice |
| `DispatchQueue.ReaderLeaves` | treenode.go:522-553 | Once closed, the reader can always move and leaves within two steps |
| `DispatchQueue.StuckReaderIsDone` | treenode.go:522-553 | A reader of an instance that is not closed and that cannot move has dispatched all that was accepted |
| `DispatchQueue.ReaderRests` | treenode.go:522-553 | While nothing arrives and nobody closes, the reader goes on for a bounded number of steps |
| `NodeList.OrderIsPermutation` | websocket_client.go:282-296 | Shuffling and starting later still try every position once |
| `NodeList.CandidatesDistinct` | websocket_client.go:294-309 | The candidates are distinct positions of nodes that are not ignored |
| `NodeList.CandidatesCover` | websocket_client.go:294-309 | No node that is not ignored is left out |
| `NodeList.GetParallel` | websocket_client.go:261-281 | 1 <= parallel <= askNodes <= n for a roster that is not empty, and the requested value when it is in range |
| `NodeList.FillChan` | websocket_client.go:293-310 | The channel gets the first askNodes candidates, or all of them, and is never full before a send |
| `NodeList.GetList` | websocket_client.go:261-311 | The nodes tried are the roster or its permutation, moved on by the start; those that are not ignored are offered, in that order, until there are as many as askNodes says or, if it says nothing, as there are from the start on; with nothing ignored, exactly the first so many |
| `NodeList.NobodyIff` | websocket_client.go:261-311 | Nobody is offered if and only if there is no node or all are ignored |
| `NodeList.DocumentedIff` | websocket_client.go:249-251 | The offer is the documented one if and only if no ignored node is among the first askNodes tried, or only ignored ones come after them |
| `NodeList.IgnoredFirst` | websocket_client.go:249-251 | Three nodes, the first ignored, one to be asked: none is documented to be offered, and one is |
| `FanOut.StepInv` | websocket_client.go:337-406 | Each event of the workers and the caller keeps the invariant |
| `FanOut.SendsNeverWait` | websocket_client.go:339-379 | In every run no send on a channel waits |
| `FanOut.ContactedOnce` | websocket_client.go:344-379 | In every run the nodes are contacted in order, each once, and `done` is closed at most once |
| `FanOutHistory.OutcomesAre` | websocket_client.go:344-380 | In every run the errors are those of the nodes that gave no answer or, before `done`, one that does not decode, in that order, and the decoded nodes those whose answer did before `done` |
| `FanOutHistory.GotNodeMeans` | websocket_client.go:344-396 | A node is returned only if one worker took it from the channel, it then answered, and that worker then decoded the answer while `done` was open |
| `FanOutHistory.GotErrorMeans` | websocket_client.go:344-406 | An error is returned only if every offered node failed and none was decoded, and it is that of the first failure |
| `FanOutHistory.AskedWhileOpen` | websocket_client.go:344-351 | A worker takes a node only if it found `done` open in its last event before |
| `FanOut.NoDeadlock` | websocket_client.go:337-406 | As long as the caller collects, some event is possible |
| `FanOut.StoppedMeansFinished` | websocket_client.go:344-390 | When every worker has stopped, an answer was decoded or every node has failed |
| `FanOut.RunsEnd` | websocket_client.go:337-406 | Every event uses up work, so that no run is longer than the work at its start |
| `Framing.HeaderRoundTrip` | network/encoding.go:80 | Four big-endian bytes give a 32-bit size back |
| `Framing.HeaderIsBigEndian` | network/tcp.go:213-217 | The header is the size in four digits to base 256, the most significant first |
| `Framing.SizeIsBigEndian` | network/tcp.go:150-153 | Four bytes are read as digits to base 256, the most significant first |
| `Framing.ReceiveFrame` | network/tcp.go:143-185 | A whole frame in front is returned if and only if it is not too big, and not a byte of what follows is taken |
| `Framing.FramedIff` | network/tcp.go:208-235 | A payload of any length is received as it was sent if and only if it is not larger than the maximum |
| `Framing.ReceiveCut` | network/tcp.go:143-185 | A frame that is cut short is never returned as a payload |
| `Framing.ReceivedFromStream` | network/tcp.go:143-185 | Wherever the stream is cut, the receiver gets the payloads that are whole and come before the first that is too big |
| `Framing.ReceivedIff` | network/tcp.go:143-185 | A payload is received if and only if it arrived whole and it and all before it fit |
| `Framing.RoundTrip` | network/tcp.go:143-235 | Payloads that fit are received as they were sent, and both ends count the sum of 4 + length |
| `Framing.ReceivedInOrder` | network/tcp.go:143-235 | At all times the receiver has the first of the payloads sent, and in the end all of them |
| `Framing.TCPConn.SendRaw` | network/tcp.go:208-235 | Whatever the splits, success puts the frame on the stream and counts it, with the size cut to 32 bits; failure leaves part of it, and counts no more than that |
| `Framing.TCPConn.ReceiveRaw` | network/tcp.go:143-185 | Whatever the splits, returns the payload or the failure that the stream's content determines, and takes and counts the bytes that go with it |
| `Stats.StreamingUpdate` | simul/monitor/stats.go:406-409 | The streaming update takes mean and squared deviations of a batch to those of the batch and one value more |
| `Stats.Value.constructor` | simul/monitor/stats.go:367-369 | A new value holds the statistics of nothing |
| `Stats.Value.Add` | simul/monitor/stats.go:393-412 | One value: all fields stay the batch statistics of all values gone over |
| `Stats.Value.Collect` | simul/monitor/stats.go:384-414 | The store is gone over once more; all fields are the batch statistics of all values gone over, and the sum is that of the store |
| `Stats.Value.CollectTimes` | simul/monitor/stats.go:384-414 | k calls on an unchanged store give the average, sum, minimum and maximum of the first call, and k times its count and squared deviations |
| `Stats.CollectedAgain` | simul/monitor/stats.go:384-414 | Collecting an unchanged store k times keeps the mean; count and squared deviations become k times as large |
| `Stats.ExtremesKept` | simul/monitor/stats.go:393-398 | It keeps minimum and maximum |
| `Stats.VarianceKeptIff` | simul/monitor/stats.go:411 | It keeps the variance if and only if it is done once or nothing deviates |
| `Stats.MaxIsRightIff` | simul/monitor/stats.go:396-398 | The maximum kept is the greatest value if and only if some value is not negative |
| `Stats.MaxOfNegatives` | simul/monitor/stats.go:396-398 | A store for which the maximum is wrong |
| `MiniNet.Increase` | simul/platform/mininet.go:473-478 | The loop gives the next address in place, with the carry |
| `MiniNet.IncreasedNumber` | simul/platform/mininet.go:473-478 | The next address is one more, except that all ones go to zero |
| `MiniNet.NextAddress` | simul/platform/mininet.go:471-481 | Host i gets number 2 + i div S in network i mod S, and no other server's address moves |
| `MiniNet.AssignHosts` | simul/platform/mininet.go:471-481 | All hosts get their addresses so |
| `MiniNet.MakeList` | simul/platform/mininet.go:494-506 | One line for each server that has a host |
| `MiniNet.GetHostList` | simul/platform/mininet.go:435-507 | The addresses of all hosts and the count of each server, and each way to fail exactly when it happens |
| `MiniNet.DistinctIff` | simul/platform/mininet.go:471-481 | No two hosts share an address if and only if there is one server or at most 65536 hosts for each server |
| `MiniNet.InNetworkIff` | simul/platform/mininet.go:451-462 | A host is in the network of its server if and only if it is among the first 65534 there |
| `MiniNet.ListedHaveAll` | simul/platform/mininet.go:494-506 | The counts of the listed servers add up to the number of hosts |
| `MiniNet.StartsItsHosts` | simul/platform/mininet/start.py:182-183 | The start script assigns exactly the numbers that the host list has on that server |
| `BuildHosts.CalcHostsIsGeo` | simul/build.go:310-320 | The quotient is the sum of the powers of the branching factor |
| `BuildHosts.FindBF` | simul/build.go:286-289 | The loop ends at the least branching factor that fits |
| `BuildHosts.FindDepth` | simul/build.go:295-298 | The loop ends at the least depth that fits |
| `BuildHosts.CheckHosts` | simul/build.go:272-302 | The value that is missing is filled in; fatal exactly when it cannot be |
| `BuildHosts.CreateTree` | simulation.go:352-361 | The tree of a configuration has its hosts and the depth that is computed for it |
| `BuildHosts.DepthOfTheTree` | simul/build.go:291-299 | The computed depth is the depth of the generated tree if and only if there are at least two hosts |
| `BuildHosts.DepthIsEnough` | simul/build.go:282-290 | With the computed branching factor the tree stays within the depth asked for |
| `BuildHosts.DepthGivesBack` | simul/build.go:282-290 | A depth gives the branching factor bf if and only if bf is 1 or the tree of bf - 1 is too small for the hosts, and that of bf is not |
| `BuildHosts.HostsFillTheTree` | simul/build.go:276-281 | With the computed number of hosts the tree is perfect |
| `BuildHosts.ThirteenHosts` | simul/README.md:81-84 | Thirteen hosts with a branching factor of 3 have depth 2; with depth 3 the branching factor is 2 |

## Left out

- Sockets, TLS, websockets, protobuf and reflection, hashing and UUIDs: ids are numbers that tell servers apart, keys are elements of a commutative group.
- Logging, tracing, configuration files, the command-line tools, and the deployment platforms apart from the host list.
- The connection maps of `network/router.go` and `network/local.go`: smaller bookkeeping than what is modelled.
- The deprecated exchange of rosters and marshalled trees, and the configuration messages of the overlay.
- Finer interleavings of the overlay than its handlers, such as a message saved just after the drain of its tree. The timers of the tree storage are modelled down to the lock in `TreeTimers`, where a cancelled timer that has not fired ends.
- Aliasing of tree nodes: trees are sequences of nodes or values, so that two links to one object cannot be told from two equal nodes. `computeSubtreeAggregate`, which writes a field of each node, is a function from trees to trees.
- Nil public keys, which the roster aggregate skips, and the aggregate of an empty roster, which stays nil in the source and is the neutral element here.
- Repeated servers in a tree and duplicated messages: the protocol runs assume distinct node ids and delivery at most once. Round ids of local protocols are fresh.
- The option to return on the first error in the parallel client, and an empty list of nodes, for which the caller indexes an empty list of errors.
- Floating-point rounding, in the statistics and in the number of hosts, and the square root of the variance, whose square is modelled.
- The hash function and the encoding of keys in the id of a tree: what is hashed is the list of keys and leaf marks. Random subsets of a roster.
- BigNary.GenerateBigNaryTree: leaves out N < 1 with more than one node, for which the source does not return.
- Framing.TCPConn.SendRaw: a write of 2^32 bytes or more is taken whole or fails, as `net.Conn` promises; shorter ones may be split.
- MiniNet.GetHostList: leaves out the rest of the list file (simulation name, bandwidth, delay, debug flags, physical addresses).
- OverlayHandlers.Overlay.Close: states the order of deletion as a ghost result, since the source iterates over a map.
- BuildHosts.CreateTree: leaves out a branching factor below 1 with more than one host, as the generator does.
- OverlayHandlers.Overlay.Process: waiting for the transmit lock is a precondition, as a message that waits has no effect yet.
- OverlayHandlers.Overlay.NewTreeNodeInstance: a fresh token is a precondition, since the source draws a random round id.
- DispatchQueue.Instance.ProcessProtocolMsg: waiting for the lock is a precondition, here and in the other methods of the instance.
