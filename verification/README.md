# Verification of the push server's data structures

The models follow four parts of the server and its libraries. Each is imperative where the source is: classes with the
fields that the source updates, arrays that are written in place, and the same branches and loops. Each method is
proved to do what a function on values says, and the theorems are about these functions, over all inputs and all runs.

- **Search trees** (`RbTree.dfy`, `SplayTree.dfy`, `SplayCost.dfy`): the red-black and the splay tree of `uv/tree.h`.
  Insertion and removal refine insertion into and removal from a sorted sequence, keep all conditions of the header,
  and terminate. The height bound of the red-black tree follows, and with it the number of rounds of a search; for the
  splay tree the Balance Theorem is proved, with the rounds of its loops as cost.
- **XML** (`XmlText.dfy`, `XmlReferences.dfy`, `XmlPrinter.dfy`, `XmlLayout.dfy`, `XmlTokens.dfy`, `XmlParser.dfy`,
  `XmlRoundTrip.dfy`, `XmlMisread.dfy`, `XmlReading.dfy`, `XmlFaults.dfy`, `XmlDeclarations.dfy`, `ContentIndex.dfy`,
  `XmlContents.dfy`, `Base64.dfy`, `Base64Reading.dfy`): entities, the two-pass printer, the tokenizer and the
  recursive parser, the index that interleaves the contents of an element, and the Base64 codec. Parsing undoes
  printing for every tree in normal form: names made of name characters, trimmed texts that are not empty, no two
  texts next to each other or around one comment, clear nodes that are not closed too early, any attribute values, and
  no content in an element `PRE` without attributes. Apart from the printer, documents are given by how they are
  spelled, with quotes, blanks, references, comments and end tags of any kind, and parseString gives what they mean
  (`XmlReading.dfy`); for documents that are cut off, have wrong end tags or broken tags, it gives the right error,
  and the tree where there is one (`XmlFaults.dfy`).
- **Broadcasting** (`BroadcastQueue.dfy`, `BroadcastLifetimes.dfy`, `BroadcastManager.dfy`): channels as bounded
  linked lists of reference-counted packets, and the scheduler over a chain of priority groups with quotas. Delivery,
  the lifetimes of packets and payloads, work conservation, weighted round robin and bounded priority inversion are
  proved over all runs.
- **Framed streams** (`DataBuffer.dfy`, `Framing.dfy`, `Connection.dfy`): the sliding buffer, the framing by NUL, the
  receive loop, and a connection with one write under way that closes gracefully.

`Options.dfy` holds the type of values that may be missing. Paths in the table are relative to the root of the
repository.

Where the code does less than it seems to promise, the model keeps the code, and a theorem says when the promise
holds:

- Round robin needs a first quota of 2, because the branch that makes a channel the current sink sets its count to 1
  without comparing it to the quota, and no quota of 0, because a count never equals it again; a channel of quota 1
  that shares its group only with quotas of 0 is the one exception (`RoundRobinExactly`). Priority inversion is
  bounded exactly if all lower quotas are at least 2 (`InversionBoundedExactly`).
- Removing the last packet of a channel, and only that, lets its position be used again (`PositionsAreFresh`), so that
  a client can miss a packet for good, also one that was pushed while the removed packet was in its hand
  (`RemovalHidesNextPush`, `RemovalLosesPacket`).
- A payload that is pushed again, to the same channel of a manager or to another one, while a packet that carries it
  is in a list, is parked for its holders, or was given back, can be given back twice, or while it is in use; and only
  then (`FreshPushExactly`, `LifetimesExactly`; `DoublePushIsHeld`, `DoublePushIsGivenBackTwice`,
  `DoublePushInTwoChannels`). A payload that is held when its packet leaves the list is never given back
  (`GivenBackExactly`), and may be pushed again after its last holder is gone (`FreshAgain`).
- An item that is added in front of an item of another type does not get there, and, but for the last place, the index
  is then no longer well-formed (`AddRefines`, `AddKeepsIndex`). `removeOrderElement` returns the new length.
- An element named `PRE` with content and no attributes is taken for a clear tag; no other regular tree is misread
  (`RoundTripExactly`).
- A declaration without attributes takes the question mark that ends it into its name, and is not read back as it was
  printed (`DeclarationRoundTrip`); within an element such an instruction stays open (`InstructionInside`).
- A message with a NUL is received as several messages (`FramingRoundTrip`); one that does not fit the receive buffer
  fills it (`NeverFullExactly`), and the next round closes the connection (`OnReceiveComplete`).
- A push whose write cannot be started leaves bytes that only a further push can send (`FailedPushWaits`,
  `SendsOnlyAfterPushExactly`); a completion after which no write can be started leaves a connection that never sends
  again; and a close that waits never ends when no write is under way (`SendsNoMoreExactly`, `StallsExactly`,
  `CloseDrainsExactly`, `WaitingOutcome`).
- A second first packet on a connection that has a client already takes a worker off the count, so that the connection
  may be deleted while a receive is being processed, and never once none is under way (`UnusedIsIdle`,
  `SecondFirstPacket`).
- The search of `decodeSize` leaves a text of fill characters at its start (`DecodeSizeOf`).

## Model

| member | source | states |
|---|---|---|
| `RbTrees.RbTree.Insert` | WebSocket/third/libuv/win/include/uv/tree.h:597-626 | a duplicate key gives back the node that has it and changes nothing; otherwise the in-order nodes are the old ones with the new node at its place by key, and search order, parent links, colors and black counts hold again |
| `RbTrees.RbTree.InsertColor` | WebSocket/third/libuv/win/include/uv/tree.h:407-449 | from a tree with one red node that may be the root or have a red parent, the loop ends with a red-black tree; it terminates |
| `RbTrees.RbTree.Remove` | WebSocket/third/libuv/win/include/uv/tree.h:530-595 | the node is returned, the in-order nodes are the old ones without it, and all red-black conditions, links and the search order hold again |
| `RbTrees.RbTree.RemoveInner` | WebSocket/third/libuv/win/include/uv/tree.h:539-579 | for a node with two children, whose successor takes its place: exactly that node leaves, and links, search order and all red-black conditions hold again |
| `RbTrees.RbTree.RemoveColor` | WebSocket/third/libuv/win/include/uv/tree.h:451-529 | from a tree in which the paths through one child lack a black node, the loop ends with equal black counts and a black root; it terminates |
| `RbTrees.RbTree.RotateLeft` | WebSocket/third/libuv/win/include/uv/tree.h:342-360 | a rotation changes exactly the links around its two nodes, and keeps every link and the search order consistent |
| `RbTrees.RbTree.RotateRight` | WebSocket/third/libuv/win/include/uv/tree.h:362-380 | the mirror image of a left rotation, with the same promises |
| `RbTrees.RbTree.Find` | WebSocket/third/libuv/win/include/uv/tree.h:629-644 | finds the node with the key if and only if there is one, in at most 2 lg(n + 1) rounds |
| `RbTrees.RbTree.NFind` | WebSocket/third/libuv/win/include/uv/tree.h:647-666 | the least node whose key is not smaller, or null exactly if all are smaller |
| `RbTrees.RbTree.Next` | WebSocket/third/libuv/win/include/uv/tree.h:668-688 | the next larger node, with no key in between, or null for the largest; the climb along parent links terminates |
| `RbTrees.RbTree.Prev` | WebSocket/third/libuv/win/include/uv/tree.h:690-708 | the next smaller node, with no key in between, or null for the smallest |
| `RbTrees.RbTree.ThereAndBack` | WebSocket/third/libuv/win/include/uv/tree.h:668-708 | RB_PREV of RB_NEXT of a node is that node, and RB_NEXT of RB_PREV is too; the missing neighbours are those of the largest and the least node |
| `RbTrees.RbTree.MinMax` | WebSocket/third/libuv/win/include/uv/tree.h:711-724 | the node with the least or the greatest key; null exactly for the empty tree |
| `RbTrees.RbTree.ForEach` | WebSocket/third/libuv/win/include/uv/tree.h:738-741 | stepping from RB_MIN with RB_NEXT visits all nodes, each once, in increasing order, and ends |
| `RbTrees.RbTree.ValidIsRedBlack` | WebSocket/third/libuv/win/include/uv/tree.h:53-61 | what the operations keep implies the conditions at the top of the header, and a height of at most 2 lg(n + 1) |
| `RbTrees.HeightBound` | WebSocket/third/libuv/win/include/uv/tree.h:53-61 | a binary tree that meets the red-black conditions has a height of at most 2 lg(n + 1) |
| `RbTrees.BlackHeightBounds` | WebSocket/third/libuv/win/include/uv/tree.h:53-61 | a subtree with h black nodes on each path has at least 2^h - 1 nodes and a height of at most 2 h, plus one for a red root |
| `SplayTrees.SplayTree.Splay` | WebSocket/third/libuv/win/include/uv/tree.h:209-242 | relinking through the two side trees ends, keeps the in-order nodes, leaves at the root the key, or the nearest node above or below it, and makes exactly the tree of the splay as recursion, in as many rounds |
| `SplayTrees.SplayTree.StepLeft` | WebSocket/third/libuv/win/include/uv/tree.h:219-228 | one round for a key below the root relinks the three trees as the round on values says, and they stay linked and apart |
| `SplayTrees.SplayTree.RoundLeftBetween` | WebSocket/third/libuv/win/include/uv/tree.h:219-228 | after such a round the three trees still hold the same nodes in the same order, with the key between the side trees |
| `SplayTrees.SplayTree.RoundRightBetween` | WebSocket/third/libuv/win/include/uv/tree.h:229-239 | the same for a key above the root |
| `SplayTrees.SplayTree.Assemble` | WebSocket/third/libuv/win/include/uv/tree.h:112-117 | the side trees and the tree in the middle become one tree in that order |
| `SplayTrees.NearFinds` | WebSocket/third/libuv/win/include/uv/tree.h:127-137 | after a splay a key is at the root or nowhere |
| `SplayTrees.NearMax` | WebSocket/third/libuv/win/include/uv/tree.h:198-203 | after a splay for a key above all others the root has no right child, so that the larger half can be hung there |
| `SplayTrees.SplayTree.Find` | WebSocket/third/libuv/win/include/uv/tree.h:127-137 | finds the key if and only if it is in the tree, and keeps the contents |
| `SplayTrees.SplayTree.Next` | WebSocket/third/libuv/win/include/uv/tree.h:139-151 | the node behind a given one in key order |
| `SplayTrees.SplayTree.MinMax` | WebSocket/third/libuv/win/include/uv/tree.h:153-158 | the first or the last node in key order, which becomes the root |
| `SplayTrees.SplayTree.SplayMin` | WebSocket/third/libuv/win/include/uv/tree.h:247-278 | the loop towards the minimum ends with the least node at the root and the contents kept |
| `SplayTrees.SplayTree.Insert` | WebSocket/third/libuv/win/include/uv/tree.h:164-186 | a duplicate key gives back the node that has it; otherwise the node goes in at its place and nothing else moves |
| `SplayTrees.SplayTree.Remove` | WebSocket/third/libuv/win/include/uv/tree.h:188-207 | exactly the node with the key leaves, and the argument is returned if and only if there was one |
| `SplayTrees.SplayTree.ContentsSorted` | WebSocket/third/libuv/win/include/uv/tree.h:163-278 | the contents are strictly sorted by key after every operation |
| `SplayCosts.SplayIsAffordable` | WebSocket/third/libuv/win/include/uv/tree.h:209-242 | the access lemma: a splay of n nodes takes at most 6 lg n + 1 rounds more than twice what it takes out of the potential, the sum of the rounded logarithms of all subtree sizes |
| `SplayCosts.AmortizedCost` | WebSocket/third/libuv/win/include/uv/tree.h:49-51 | any searches, insertions and removals on a tree of n nodes take at most m (12 lg N + 2) + 2 n lg n rounds, for m operations and a size of at most N on the way, so that each takes logarithmic time on average |
| `SplayCosts.BalanceTheorem` | WebSocket/third/libuv/win/include/uv/tree.h:49-51 | on a tree that is empty at first, m operations with n insertions among them take at most m (12 lg n + 2) rounds |
| `SplayCosts.RankIsLog` | WebSocket/third/libuv/win/include/uv/tree.h:49-51 | the rank of a size is its logarithm of base 2, rounded down |
| `BroadcastQueues.RunsSound` | WebSocket/third/websocket/PushFramework/private/BroadcastQueue.cpp:57-74 | over every run of pushes, gets and disposes without removal by key the channel holds exactly the last min(n, maxPacket) pushes under their ordinals, and each client gets strictly increasing ones |
| `BroadcastQueues.PositionsAreFresh` | WebSocket/third/websocket/PushFramework/private/BroadcastQueue.cpp:57-91 | over every run, with removals: no position is used twice, and at every time the next push is visible to a client at any position given so far, if and only if no removal takes the tail; the deliveries of each client strictly increase in any case |
| `BroadcastQueues.NextAfterRemovals` | WebSocket/third/websocket/PushFramework/private/BroadcastQueue.cpp:137-166 | while no removal takes the tail, a client gets a packet if and only if it has not reached the last push, and it is the nearest one behind it that is left |
| `BroadcastQueues.NextAfterRun` | WebSocket/third/websocket/PushFramework/private/BroadcastQueue.cpp:137-166 | after any run without removal the next get returns the packet after the last one that reached the client, or the head if that one was evicted |
| `BroadcastQueues.NoLossWithoutEviction` | WebSocket/third/websocket/PushFramework/private/BroadcastQueue.cpp:109-166 | a channel that never overflows, and from which nothing is removed by key, delivers to each client all pushes in order up to the one it reached: no gap and no repeat |
| `BroadcastQueues.OnlySubscribersGet` | WebSocket/third/websocket/PushFramework/private/BroadcastQueue.cpp:142-143 | over every run of a channel that requires registration: a client that never subscribed has no packet in hand, was delivered none, and gets none |
| `BroadcastQueues.SubscribersGetAll` | WebSocket/third/websocket/PushFramework/private/BroadcastQueue.cpp:93-166 | a client that subscribed, or any client of a channel without registration, gets a packet if and only if it has not reached the last push, as long as no removal takes the tail |
| `BroadcastQueues.PushVisible` | WebSocket/third/websocket/PushFramework/private/PacketInfo.cpp:29-48 | a client can get the next pushed packet if and only if it has not reached the position that packet takes |
| `BroadcastQueues.RemovalHidesNextPush` | WebSocket/third/websocket/PushFramework/private/BroadcastQueue.cpp:76-91 | the exact condition under which, after removePacket, a client gets the next pushed packet in no later run, whether it has a packet in hand or not: the tail is removed, and the client stands, once its packet is delivered, at a position that is used again |
| `BroadcastQueues.RemovalLosesPacket` | WebSocket/third/websocket/PushFramework/private/BroadcastQueue.cpp:76-91 | a concrete run: a client holds the removed packet while another one is pushed to its position, and gets that one in no later run |
| `BroadcastQueues.BroadcastQueue.Lifetimes` | WebSocket/third/websocket/PushFramework/private/BroadcastQueue.cpp:109-135 | a held packet is not deleted; each packet gives its payload back at most once, only when it is deleted, and exactly if nobody held it when it left the list |
| `BroadcastQueues.BroadcastQueue.PayloadLifetimes` | WebSocket/third/websocket/PushFramework/private/BroadcastQueue.cpp:57-135 | of one channel: if no payload was pushed to it twice, it gives none back twice, or while a packet of it that carries it is held or in the list (for all channels of a manager see LifetimesExactly) |
| `BroadcastQueues.DoublePushIsHeld` | WebSocket/third/websocket/PushFramework/private/BroadcastQueue.cpp:57-74 | a payload that was pushed twice is given back while a client holds it |
| `BroadcastQueues.DoublePushIsGivenBackTwice` | WebSocket/third/websocket/PushFramework/private/BroadcastQueue.cpp:57-74 | a payload that was pushed twice is given back twice |
| `BroadcastQueues.DoublePushInTwoChannels` | WebSocket/third/websocket/PushFramework/private/BroadcastQueue.cpp:179-213 | a payload that was pushed to two channels is given back by one while a client of the other holds it |
| `BroadcastLifetimes.FreshPushExactly` | WebSocket/third/websocket/PushFramework/private/BroadcastQueue.cpp:57-135 | on all channels of one manager: no packet in a list, parked or given back carries the pushed payload, if and only if in no continuation with fresh payloads one is given back twice, or while a packet that carries it is in a list or held |
| `BroadcastLifetimes.LifetimesExactly` | WebSocket/third/websocket/PushFramework/private/BroadcastManagerImplBase.cpp:89-112 | over every run on all channels of one manager: each push is of a fresh payload, if and only if at no time a payload is given back twice or while in use, now or in any continuation with fresh payloads |
| `BroadcastLifetimes.GivenBackExactly` | WebSocket/third/websocket/PushFramework/private/BroadcastQueue.cpp:179-213 | over every later run: a packet that leaves its list gives its payload back, if and only if nobody held it then; so a payload that is held then is never given back |
| `BroadcastLifetimes.FreshAgain` | WebSocket/third/websocket/PushFramework/private/BroadcastQueue.cpp:116-134 | when the last holder gives back a packet that left its list, its payload may be pushed again |
| `BroadcastLifetimes.AfterAccounted` | WebSocket/third/websocket/PushFramework/private/BroadcastQueue.cpp:57-213 | every call keeps each packet in one place of the channel it was pushed to, and only a push brings one into play |
| `BroadcastQueues.BroadcastQueue.Free` | WebSocket/third/websocket/PushFramework/private/BroadcastQueue.cpp:179-213 | no packet node is deleted twice or while it is held |
| `BroadcastQueues.BroadcastQueue.PushPacket` | WebSocket/third/websocket/PushFramework/private/BroadcastQueue.cpp:57-74 | the packet is appended, the head leaves exactly when the bound is passed and gives its payload back unless it is held, and links, counts and bookkeeping hold; the book of the channel takes the step PushedNode |
| `BroadcastQueues.BroadcastQueue.RemovePacket` | WebSocket/third/websocket/PushFramework/private/BroadcastQueue.cpp:76-91 | the first packet that matches the key or the category leaves, and nothing else changes; the book takes the step RemovedNode |
| `BroadcastQueues.BroadcastQueue.GetNextPacket` | WebSocket/third/websocket/PushFramework/private/BroadcastQueue.cpp:137-166 | hands out the first packet behind the position of the client, and counts one holder more of exactly that packet; the book takes the step GotNode |
| `BroadcastQueues.BroadcastQueue.DisposePacket` | WebSocket/third/websocket/PushFramework/private/BroadcastQueue.cpp:109-135 | takes back one holder, moves the client only after a success, and deletes the packet exactly if it waited for its last holder; the book takes the step DisposedNode |
| `BroadcastQueues.BroadcastQueue.InternalRemove` | WebSocket/third/websocket/PushFramework/private/BroadcastQueue.cpp:179-213 | the packet leaves the linked list wherever it stands; it is deleted at once, or parked if it is held |
| `BroadcastQueues.BroadcastQueue.SubscribeClient` | WebSocket/third/websocket/PushFramework/private/BroadcastQueue.cpp:93-97 | a client that subscribes starts at position 0 again |
| `BroadcastQueues.BroadcastQueue.UnsubscribeClient` | WebSocket/third/websocket/PushFramework/private/BroadcastQueue.cpp:100-107 | the client is forgotten |
| `BroadcastQueues.PacketInfo.constructor` | WebSocket/third/websocket/PushFramework/private/PacketInfo.cpp:29-48 | the node is linked behind the tail, under the position after the tail, or 1 in an empty list |
| `BroadcastManagers.InsertByQuotaPlace` | WebSocket/third/websocket/PushFramework/private/BroadcastQueueInfo.cpp:55-95 | a new channel stands in front of the first channel whose quota is not larger, and all others keep their order |
| `BroadcastManagers.InsertChannelOrdered` | WebSocket/third/websocket/PushFramework/private/BroadcastManagerImplBase.cpp:129-202 | after an insertion priorities strictly decrease along the chain, and quotas do not increase within a group |
| `BroadcastManagers.InsertChannelContents` | WebSocket/third/websocket/PushFramework/private/BroadcastManagerImplBase.cpp:129-202 | a new channel occurs exactly once more, and no other channel is lost or doubled |
| `BroadcastManagers.BroadcastQueueGroupInfo.InsertChannelInfo` | WebSocket/third/websocket/PushFramework/private/BroadcastQueueInfo.cpp:55-95 | the relinked list of a group is the sorted insertion into the old one |
| `BroadcastManagers.BroadcastManager.InsertChannelIntoOrderedChain` | WebSocket/third/websocket/PushFramework/private/BroadcastManagerImplBase.cpp:129-202 | the relinked chain is the ordered insertion into the old one, into an old group or a new one at its place |
| `BroadcastManagers.BroadcastManager.CreateBroadcastQueue` | WebSocket/third/websocket/PushFramework/private/BroadcastManagerImplBase.cpp:44-52 | a new, empty channel with the given bound and registration stands in the chain at its place |
| `BroadcastManagers.BroadcastManager.GetNextPacket` | WebSocket/third/websocket/PushFramework/private/BroadcastManagerImplBase.cpp:252-278 | serves the first channel with a packet from the current sink on, and otherwise from the head of the chain; only the served channel counts a holder |
| `BroadcastManagers.GetPacketFromGroupChain` | WebSocket/third/websocket/PushFramework/private/BroadcastManagerImplBase.cpp:204-223 | finds the first channel from the given one on that has a packet for the client, or null if none has |
| `BroadcastManagers.BroadcastManager.DisposePacket` | WebSocket/third/websocket/PushFramework/private/BroadcastManagerImplBase.cpp:280-314 | gives the packet back to its channel, and after a success moves the context to the next count, the next channel or no sink |
| `BroadcastManagers.BroadcastManager.PushPacket` | WebSocket/third/websocket/PushFramework/private/BroadcastManagerImplBase.cpp:89-102 | a push into one channel leaves the chain and every other channel alone; the book of that channel takes the step PushedNode, with a packet node that no channel had before |
| `BroadcastManagers.BroadcastManager.RemovePacket` | WebSocket/third/websocket/PushFramework/private/BroadcastManagerImplBase.cpp:104-114 | a removal from one channel leaves the chain and every other channel alone; the book of that channel takes the step RemovedNode |
| `BroadcastManagers.WorkConserving` | WebSocket/third/websocket/PushFramework/private/BroadcastManagerImplBase.cpp:252-278 | null is returned if and only if no channel of the chain has a packet for the subscriber |
| `BroadcastManagers.FromTopHighest` | WebSocket/third/websocket/PushFramework/private/BroadcastManagerImplBase.cpp:266-277 | without a sink the highest priority that has a packet is served, and the first such channel of its group |
| `BroadcastManagers.SaneForever` | WebSocket/third/websocket/PushFramework/private/BroadcastManagerImplBase.cpp:286-313 | if all quotas below a priority are at least 2, a sink below it is never past its quota, over every run |
| `BroadcastManagers.BoundedInversion` | WebSocket/third/websocket/PushFramework/private/BroadcastManagerImplBase.cpp:252-314 | while a higher priority stays deliverable, at most (quota of the sink - sent) + the quotas behind it in its group lower sends succeed in a row |
| `BroadcastManagers.InversionBoundedExactly` | WebSocket/third/websocket/PushFramework/private/BroadcastManagerImplBase.cpp:252-314 | lower sends in a row, after any run, are bounded by the sum of all quotas, if and only if every channel below the waiting priority has a quota of at least 2 |
| `BroadcastManagers.UnboundedInversion` | WebSocket/third/websocket/PushFramework/private/BroadcastManagerImplBase.cpp:307-311 | a low channel with a quota below 2 that was served once is served for ever |
| `BroadcastManagers.StuckSink` | WebSocket/third/websocket/PushFramework/private/BroadcastManagerImplBase.cpp:289-306 | a sink whose count is past its quota keeps the subscriber for as long as it has packets |
| `BroadcastManagers.RoundRobin` | WebSocket/third/websocket/PushFramework/private/BroadcastManagerImplBase.cpp:286-313 | while the top group has packets, successful sends, with any failing ones in between, repeat for ever the cycle of q1 packets of its first channel, then q2 of its second, and so on |
| `BroadcastManagers.SinkServesQuota` | WebSocket/third/websocket/PushFramework/private/BroadcastManagerImplBase.cpp:286-313 | the current sink is served, whatever else is ready, until its successful sends make up its quota, and then hands over to the channel behind it in its group, or to none |
| `BroadcastManagers.TakeOverServesQuota` | WebSocket/third/websocket/PushFramework/private/BroadcastManagerImplBase.cpp:303-312 | a channel that takes over from another sink, or from none, is served for exactly its quota of successful sends, the first one included, with failing ones in between; then the channel behind it is the sink |
| `BroadcastManagers.RoundRobinExactly` | WebSocket/third/websocket/PushFramework/private/BroadcastManagerImplBase.cpp:286-313 | they do so for all turns if and only if q1 is at least 2 and no other quota is 0, or q1 is 1 and all others are 0 |
| `BroadcastManagers.ZeroQuotaIsServed` | WebSocket/third/websocket/PushFramework/private/BroadcastManagerImplBase.cpp:289-306 | with quotas 2 and 0 the second channel is served for ever although it has no place in the cycle |
| `BroadcastManagers.OneQuotaIsStuck` | WebSocket/third/websocket/PushFramework/private/BroadcastManagerImplBase.cpp:307-311 | with quotas 1 and 1 the second channel is not served |
| `BroadcastManagers.RoundRobinStuck` | WebSocket/third/websocket/PushFramework/private/BroadcastManagerImplBase.cpp:307-311 | with a quota below 2 the first channel of the group is never left |
| `XmlText.DecodeEscape` | WebSocket/third/websocket/PushFramework/private/xmlParser.cpp:882-1146 | decoding the escaped form gives back every string, and the counting pass finds its length |
| `XmlText.LengthXmlString` | WebSocket/third/websocket/PushFramework/private/xmlParser.cpp:925-956 | the measured length is the length of the escaped text |
| `XmlText.ToXmlUnsafe` | WebSocket/third/websocket/PushFramework/private/xmlParser.cpp:882-923 | writes the escaped text and one terminator, and no other place of the buffer |
| `XmlText.ToXml` | WebSocket/third/websocket/PushFramework/private/xmlParser.cpp:968-979 | the buffer of the measured length holds exactly the escaped text and its terminator |
| `XmlText.EscapeByTable` | WebSocket/third/websocket/PushFramework/private/xmlParser.cpp:122-130 | the characters that are escaped, and their entities, are those of the table (section 4.6 of XML 1.0) |
| `XmlText.StoreLength` | WebSocket/third/websocket/PushFramework/private/xmlParser.cpp:992-1146 | the second pass stores exactly as many characters as the first pass counted |
| `XmlText.StorePass` | WebSocket/third/websocket/PushFramework/private/xmlParser.cpp:1054-1145 | the second loop fills the buffer of the counted size to its last place, or stops at the first bad reference |
| `XmlText.FromXmlString` | WebSocket/third/websocket/PushFramework/private/xmlParser.cpp:981-1146 | the decoded text, or the error of the first pass, or the error of the second pass |
| `XmlReferences.DecodeSpelled` | WebSocket/third/websocket/PushFramework/private/xmlParser.cpp:981-1146 | a text of characters, named references in any case, and numeric references in either base is decoded to the characters that they stand for, or to the first error among them; numbers are sums of digit values |
| `XmlReferences.DecodeUnspelled` | WebSocket/third/websocket/PushFramework/private/xmlParser.cpp:992-1053 | a text that no such pieces spell fails as one with an unknown reference, whatever else is in it |
| `XmlReferences.DecodePrinted` | WebSocket/third/websocket/PushFramework/private/xmlParser.cpp:1060-1102 | the number of a character in decimal or hexadecimal, in digits of either case and with any leading zeros, is decoded to the character up to 255, and is an error above |
| `XmlPrinter.CreateXmlStringR` | WebSocket/third/websocket/PushFramework/private/xmlParser.cpp:2276-2530 | with and without a buffer the result is the length of the rendered text; with a buffer the text stands there, and besides at most one terminator behind it is touched |
| `XmlPrinter.AppendContent` | WebSocket/third/websocket/PushFramework/private/xmlParser.cpp:2378-2469 | each content is measured and written alike; the format -2 of a lone text reaches no clear node and no child |
| `XmlPrinter.CreateXmlString` | WebSocket/third/websocket/PushFramework/private/xmlParser.cpp:2536-2558 | the buffer of the measured size holds exactly the rendered text and its terminator |
| `XmlLayout.RenderInLines` | WebSocket/third/websocket/PushFramework/private/xmlParser.cpp:2276-2530 | a formatted document is its lines, each with the tabs of its depth: tags, texts and marked sections one by one, and an element with a single text on one line; where a node without a name that holds one text is the exception |
| `XmlTokens.Xml.GetNextToken` | WebSocket/third/websocket/PushFramework/private/xmlParser.cpp:1182-1364 | the token that the specification finds at the current place, and where reading goes on |
| `XmlTokens.NextToken` | WebSocket/third/websocket/PushFramework/private/xmlParser.cpp:1182-1364 | every token but an error is not empty and moves forward, and stays within the text |
| `XmlParser.ParseXmlElement` | WebSocket/third/websocket/PushFramework/private/xmlParser.cpp:1679-2096 | the loop over the tokens with its recursion into children computes the specified parse, its error and its pending end tag; it terminates |
| `XmlParser.ParseText` | WebSocket/third/websocket/PushFramework/private/xmlParser.cpp:2122-2184 | parseString without a tag: the node and the error of the specified parse |
| `XmlParser.MaybeAddTxt` | WebSocket/third/websocket/PushFramework/private/xmlParser.cpp:1626-1674 | a pending text is trimmed, decoded, and added, or joined over a comment |
| `XmlParser.ParseClearTag` | WebSocket/third/websocket/PushFramework/private/xmlParser.cpp:1564-1615 | the contents up to the closing text become a clear node, or an unclosed one is an error |
| `XmlParser.ParseTagEnd` | WebSocket/third/websocket/PushFramework/private/xmlParser.cpp:1842-1889 | an end tag closes this element, or goes up to an ancestor |
| `XmlParser.StepChild` | WebSocket/third/websocket/PushFramework/private/xmlParser.cpp:1734-1840 | a start tag reads a child, and an end tag of an ancestor or an element that closes this one is handed up |
| `XmlParser.StepInsideTag` | WebSocket/third/websocket/PushFramework/private/xmlParser.cpp:1904-2078 | one token inside a start tag: a name, an equals sign, a value or the end of the tag |
| `XmlReading.QuotationIsToken` | WebSocket/third/websocket/PushFramework/private/xmlParser.cpp:1223-1248 | in quotes of either kind, what stands between two of them without a bracket is one token, whatever follows |
| `XmlReading.ReadNames` | WebSocket/third/websocket/PushFramework/private/xmlParser.cpp:1904-2078 | attributes with values in either quote or bare, or without a value, with blanks anywhere between them, are read as those attributes, up to the end of the tag |
| `XmlReading.AddTextMerges` | WebSocket/third/websocket/PushFramework/private/xmlParser.cpp:1626-1674 | what the parser does with a text is what dropping each comment between two texts, and joining these in order, does to all contents |
| `XmlReading.EndSame` | WebSocket/third/websocket/PushFramework/private/xmlParser.cpp:1842-1889 | an end tag matches an element if and only if its name, as a whole or up to a slash, is that of the element in any case |
| `XmlReading.ReadContents` | WebSocket/third/websocket/PushFramework/private/xmlParser.cpp:2122-2184 | for any sequence of texts, elements, comments and marked sections, spelled with blanks, quotes and end tags of any kind: parseString gives the tree that it means |
| `XmlReading.ReadDocument` | WebSocket/third/websocket/PushFramework/private/xmlParser.cpp:2122-2184 | for any spelling of an element, with blanks around it: parseString gives that element without an error |
| `XmlFaults.CutOff` | WebSocket/third/websocket/PushFramework/private/xmlParser.cpp:2079-2096 | a document that is cut off within open elements, at any depth, is read up to there, and the missing end tag is reported |
| `XmlFaults.EndClosesInner` | WebSocket/third/websocket/PushFramework/private/xmlParser.cpp:1785-1809 | the end tag of an outer element closes it and all that is open in it; the rest of the document is read, and a missing end tag is reported |
| `XmlFaults.WrongEnd` | WebSocket/third/websocket/PushFramework/private/xmlParser.cpp:1785-1889 | an end tag that is the one of no open element ends the parse with an error, whatever follows; outside of all elements the tree is kept |
| `XmlFaults.NoTagName` | WebSocket/third/websocket/PushFramework/private/xmlParser.cpp:1741-1752 | a start tag or declaration without a name is an error, at any depth and whatever follows |
| `XmlFaults.NoEndName` | WebSocket/third/websocket/PushFramework/private/xmlParser.cpp:1846-1855 | an end tag without a name is an error |
| `XmlFaults.EndNotClosed` | WebSocket/third/websocket/PushFramework/private/xmlParser.cpp:1858-1864 | an end tag with anything but its closing bracket behind the name is an error |
| `XmlFaults.NeverClosed` | WebSocket/third/websocket/PushFramework/private/xmlParser.cpp:1564-1615 | a CDATA section, document type, comment or preformatted text that is never closed is an error |
| `XmlFaults.BadText` | WebSocket/third/websocket/PushFramework/private/xmlParser.cpp:1626-1674 | a text with a bad reference is reported with the error of that reference, whatever tag follows or if the text ends |
| `XmlFaults.BrokenTag` | WebSocket/third/websocket/PushFramework/private/xmlParser.cpp:1904-2096 | in a tag, behind any complete attributes: which signs are unexpected after nothing, a name, or a name and an equals sign; and what is kept when the text ends there |
| `XmlFaults.BadValue` | WebSocket/third/websocket/PushFramework/private/xmlParser.cpp:2028-2061 | an attribute value with a bad reference is reported with the error of that reference |
| `XmlDeclarations.ReadDeclared` | WebSocket/third/websocket/PushFramework/private/xmlParser.cpp:1972-2007 | an outermost declaration holds all that follows it in the document, unless it ends with a slash; its question mark belongs to no attribute |
| `XmlDeclarations.InstructionInside` | WebSocket/third/websocket/PushFramework/private/xmlParser.cpp:1972-2007 | within an element an instruction is one of its contents if a question mark ends its last word or a slash its tag; otherwise it takes in what follows, and a missing end tag is reported |
| `XmlDeclarations.DeclarationRoundTrip` | WebSocket/third/websocket/PushFramework/private/xmlParser.cpp:2296-2360 | parsing undoes the rendering of a declaration with an element, at every format level, if it has attributes; without any, the question mark is read as part of its name |
| `XmlRoundTrip.RoundTrip` | WebSocket/third/websocket/PushFramework/private/xmlParser.cpp:2122-2558 | parsing undoes rendering for every tree in normal form, unformatted and at every format level |
| `XmlRoundTrip.RenderAndParse` | WebSocket/third/websocket/PushFramework/private/xmlParser.cpp:2122-2558 | createXMLString and then parseString give back the tree, in both modes |
| `XmlMisread.RoundTripExactly` | WebSocket/third/websocket/PushFramework/private/xmlParser.cpp:2122-2558 | for every tree that is in normal form otherwise, at every format level and unformatted, parsing gives the tree back if and only if no element, at any depth, is named PRE and has content but no attributes |
| `XmlMisread.ParseKeeps` | WebSocket/third/websocket/PushFramework/private/xmlParser.cpp:1679-2096 | a parse never changes a child or a clear node that it has added, unless it is a comment |
| `XmlMisread.PreIsNoElement` | WebSocket/third/websocket/PushFramework/private/xmlParser.cpp:2122-2184 | one such input: a root named PRE with a text is read back as a clear tag and reported as no element |
| `XmlRoundTrip.ContentsParsed` | WebSocket/third/websocket/PushFramework/private/xmlParser.cpp:1720-1903 | from any content of a rendered element on, the parse adds the remaining contents and closes the element |
| `XmlRoundTrip.ParseNames` | WebSocket/third/websocket/PushFramework/private/xmlParser.cpp:1904-2078 | from any attribute of a rendered start tag on, the parse adds the remaining attributes and reaches the end of the tag |
| `XmlRoundTrip.SkipToTag` | WebSocket/third/websocket/PushFramework/private/xmlParser.cpp:1182-1364 | a text of any tokens without brackets or quotes is read over, up to the next tag |
| `ContentIndex.AddKeepsIndex` | WebSocket/third/websocket/PushFramework/private/xmlParser.cpp:1461-1495 | addToOrder keeps every code once and the indices of each type increasing, if and only if it appends, inserts in front of the same type, or in front of the last entry |
| `ContentIndex.AddRefines` | WebSocket/third/websocket/PushFramework/private/xmlParser.cpp:1461-1495 | adding is insertion into the sequence of the contents if and only if it is at the end or in front of an item of the same type |
| `ContentIndex.DeleteRefines` | WebSocket/third/websocket/PushFramework/private/xmlParser.cpp:1448-1459 | deleting the i-th item of a type is deletion of exactly that item from the sequence of the contents |
| `ContentIndex.RunRefines` | WebSocket/third/websocket/PushFramework/private/xmlParser.cpp:1438-1495 | over whole runs of such additions and of deletions the contents are those of a plain sequence |
| `XmlContents.XmlNodeData.MakeRoom` | WebSocket/third/websocket/PushFramework/private/xmlParser.cpp:1461-1495 | the index and the array, grown and shifted in place, are the specified ones; every write lands in the memory there is |
| `XmlContents.XmlNodeData.AddChild` | WebSocket/third/websocket/PushFramework/private/xmlParser.cpp:1498-1506 | the new state of the arrays and the index, wherever the child is put |
| `XmlContents.XmlNodeData.AddText` | WebSocket/third/websocket/PushFramework/private/xmlParser.cpp:1528-1540 | the new state of the arrays and the index, wherever the text is put |
| `XmlContents.XmlNodeData.AddClear` | WebSocket/third/websocket/PushFramework/private/xmlParser.cpp:1543-1561 | the new state of the arrays and the index, wherever the clear node is put |
| `XmlContents.XmlNodeData.FindPosition` | WebSocket/third/websocket/PushFramework/private/xmlParser.cpp:1438-1445 | the search ends at the only entry for the item; -1 for a negative index |
| `XmlContents.XmlNodeData.RemoveOrderElement` | WebSocket/third/websocket/PushFramework/private/xmlParser.cpp:1448-1459 | the index without the entry; the returned number is the new length, not the place of the entry |
| `XmlContents.XmlNodeData.DeleteText` | WebSocket/third/websocket/PushFramework/private/xmlParser.cpp:2829-2842 | the text and its entry leave, and the index stays well-formed; nothing happens without such a text |
| `XmlContents.XmlNodeData.DeleteClear` | WebSocket/third/websocket/PushFramework/private/xmlParser.cpp:2878-2891 | the clear node and its entry leave, and the index stays well-formed; nothing happens without such a node |
| `XmlContents.XmlNodeData.DetachChild` | WebSocket/third/websocket/PushFramework/private/xmlParser.cpp:2560-2573 | the child and its entry leave, and the index stays well-formed |
| `XmlContents.RoomForOneMore` | WebSocket/third/websocket/PushFramework/private/xmlParser.cpp:1422-1434 | growing in steps always leaves room for the next element, and for the steps after it |
| `XmlContents.GrowsInSteps` | WebSocket/third/websocket/PushFramework/private/xmlParser.cpp:1422-1434 | an array to which elements are added one by one has room for the next multiple of the step above their number, no more |
| `Base64.DecodeEncode` | WebSocket/third/websocket/PushFramework/private/xmlParser.cpp:3513-3680 | decoding undoes encoding for every byte sequence, with and without line breaks, into a buffer of exactly the decoded size |
| `Base64.DecodeSizeEncode` | WebSocket/third/websocket/PushFramework/private/xmlParser.cpp:3558-3593 | decodeSize of an encoded text is the number of bytes |
| `Base64.EncodeFits` | WebSocket/third/websocket/PushFramework/private/xmlParser.cpp:3506-3511 | encodeLength is exactly what encode writes, and five instead of one for the empty input |
| `Base64.EncodeInto` | WebSocket/third/websocket/PushFramework/private/xmlParser.cpp:3513-3556 | the buffer of encodeLength holds the encoding of section 4 of RFC 4648, a new line behind every 54 bytes if formatted, and the terminator |
| `Base64.QuadByShifts` | WebSocket/third/websocket/PushFramework/private/xmlParser.cpp:3521-3530 | the shifts and masks take the four six-bit groups of three bytes, most significant first |
| `Base64.DecodeStripped` | WebSocket/third/websocket/PushFramework/private/xmlParser.cpp:3606-3623 | spaces and line breaks do not matter to decode, for every text and every buffer, also when an error is reported |
| `Base64.DecodeSizeOf` | WebSocket/third/websocket/PushFramework/private/xmlParser.cpp:3558-3593 | the size and the error for every text, with spaces skipped and fill characters at the end not counted, and exactly when the search from the end stays inside the text |
| `Base64.DecodeInto` | WebSocket/third/websocket/PushFramework/private/xmlParser.cpp:3595-3680 | the bytes, the result and the error for every text and every buffer, never past the end of the buffer |
| `Base64Reading.AlphabetOf` | WebSocket/third/websocket/PushFramework/private/xmlParser.cpp:3477-3492 | the letter of each value and the value of each letter are those of the alphabet in section 4 of RFC 4648 |
| `Base64Reading.EncodeExactly` | WebSocket/third/websocket/PushFramework/private/xmlParser.cpp:3513-3556 | each character of the encoded text, without line breaks, is the letter of six bits of the bytes in order, or a fill character at the end |
| `Base64Reading.EncodeWrapped` | WebSocket/third/websocket/PushFramework/private/xmlParser.cpp:3528-3537 | with line breaks the encoded text is the same, with one behind every 72 characters of whole groups |
| `Base64Reading.CountExactly` | WebSocket/third/websocket/PushFramework/private/xmlParser.cpp:3558-3593 | what is counted for the size: all characters but blanks, or an error if any of them is illegal |
| `Base64Reading.DecodeExactly` | WebSocket/third/websocket/PushFramework/private/xmlParser.cpp:3595-3680 | for every text and every buffer: the letters in front of the first other character give the bytes, and the room and that character decide the result and the error |
| `DataBuffers.DataBuffer.Append` | WebSocket/third/websocket/PushFramework/private/DataBuffer.cpp:51-63 | all of the data is appended, or nothing if it does not fit |
| `DataBuffers.DataBuffer.Pop` | WebSocket/third/websocket/PushFramework/private/DataBuffer.cpp:70-74 | the first bytes leave and the others stay in order |
| `Framing.ChunkingIndependence` | WebSocket/third/websocket/PushFramework/private/Dispatcher_Linux.cpp:76-122 | however a stream of frames is split into receives, exactly the messages that have wholly arrived are taken out, in order, and there is room to receive more |
| `Framing.ReceiveAllIs` | WebSocket/third/websocket/PushFramework/private/Dispatcher_Linux.cpp:86-122 | for any stream, framed or not, the rounds of the loop take out the frames of the whole stream and leave its rest |
| `Framing.FramingRoundTrip` | WebSocket/third/websocket/PushFramework/private/XMLProtocol.cpp:47-100 | the frames of framed messages are the messages, if and only if no message holds a NUL |
| `Framing.NeverFullExactly` | WebSocket/third/websocket/PushFramework/private/PhysicalConnection_Linux.cpp:32-61 | in whatever parts messages arrive, each within what is asked for, there is room for the next receive, if and only if every message fits the buffer with its NUL |
| `Framing.TooLongMessage` | WebSocket/third/websocket/PushFramework/private/PhysicalConnection_Linux.cpp:32-61 | a message that does not fit, behind others that do, fills the buffer, and the next round asks for nothing |
| `Framing.FramesAndRest` | WebSocket/third/websocket/PushFramework/private/XMLProtocol.cpp:74-100 | every stream is its frames and a rest without NUL |
| `Framing.FrameOutgoingPacket` | WebSocket/third/websocket/PushFramework/private/XMLProtocol.cpp:55-70 | a frame is appended as a whole, or nothing |
| `Framing.TryDeframeIncomingPacket` | WebSocket/third/websocket/PushFramework/private/XMLProtocol.cpp:74-100 | finds the first frame in the buffer and its length, or reports that there is none |
| `Framing.ProcessReceived` | WebSocket/third/websocket/PushFramework/private/Dispatcher_Linux.cpp:86-114 | all frames in the buffer are popped, those that decode are handed on in order, and the rest stays; it terminates |
| `Connections.RunConserves` | WebSocket/third/websocket/PushFramework/private/PhysicalConnection_Win.cpp:67-112 | over every run, completed bytes followed by the buffer are the frames of the accepted packets; at most one write is under way, of the first bytes of the buffer, also with partial completions |
| `Connections.EndToEnd` | WebSocket/third/websocket/PushFramework/private/PhysicalConnection.cpp:218-251 | what a sender completes, split in any way on its path, is taken out by the receiver as the first accepted messages in order |
| `Connections.GracefulClose` | WebSocket/third/websocket/PushFramework/private/PhysicalConnection_Win.cpp:88-146 | a connection that waits for its writes accepts nothing more, and is disposable if and only if every accepted byte was sent |
| `Connections.Drains` | WebSocket/third/websocket/PushFramework/private/PhysicalConnection_Win.cpp:88-112 | such a connection is disposable after as many completions as its buffer has bytes, if each makes progress and the next write starts |
| `Connections.SendsNoMoreExactly` | WebSocket/third/websocket/PushFramework/private/PhysicalConnection_Win.cpp:67-112 | no run completes another byte, if and only if no write is under way and the connection takes itself to be writing, or is closed or waits, or has no room for a packet; or if writes are of no bytes |
| `Connections.SendsOnlyAfterPushExactly` | WebSocket/third/websocket/PushFramework/private/PhysicalConnection_Win.cpp:67-112 | no run without a further push completes another byte, if and only if no write is under way (or a write takes no bytes) |
| `Connections.FailedPushWaits` | WebSocket/third/websocket/PushFramework/private/PhysicalConnection.cpp:245-250 | a push whose write cannot be started leaves its frame in the buffer, and no run without a further push sends it; no run at all does, if and only if the buffer is full |
| `Connections.StallsExactly` | WebSocket/third/websocket/PushFramework/private/PhysicalConnection_Win.cpp:88-112 | after a completion no run completes another byte, if and only if bytes were left and the next write could not be started, or none were left and the connection waits for its end; so one that has drained sends again |
| `Connections.NeverStuck` | WebSocket/third/websocket/PushFramework/private/PhysicalConnection_Win.cpp:88-112 | over every run in which all writes start: an open connection has a write under way exactly if not all accepted bytes are completed, and it can always send again |
| `Connections.PushAnswers` | WebSocket/third/websocket/PushFramework/private/PhysicalConnection.cpp:218-251 | what each answer of a push means: accepted and on its way, unchanged for want of room and accepted once drained if it fits at all, or refused or not started |
| `Connections.CloseAtOnce` | WebSocket/third/websocket/PushFramework/private/PhysicalConnection_Win.cpp:117-146 | over every run after a close that does not wait: nothing is accepted and no write starts; only the one under way can still complete |
| `Connections.AttachedExactly` | WebSocket/third/websocket/PushFramework/private/Dispatcher.cpp:254-264 | over every run an open connection is attached if and only if it has left the list of those without a client |
| `Connections.NoReceiveStarted` | WebSocket/third/websocket/PushFramework/private/PhysicalConnection_Win.cpp:30-47 | over every run in which no receive could be started, none is under way and none completes |
| `Connections.CloseDrainsExactly` | WebSocket/third/websocket/PushFramework/private/PhysicalConnection_Win.cpp:117-146 | a close that waits for bytes can ever end, if and only if a write is under way when it is called |
| `Connections.WaitingOutcome` | WebSocket/third/websocket/PushFramework/private/PhysicalConnection_Win.cpp:88-112 | with a write under way, a waiting connection is stuck for ever, if and only if a later write could not be started; otherwise one is under way until every byte was sent |
| `Connections.UnusedIsIdle` | WebSocket/third/websocket/PushFramework/private/PhysicalConnection.cpp:213-216 | a connection may be deleted if and only if it is disposable and as many writes and receives are under way as first packets came too late to attach it; without such packets nothing is under way then and no later event comes back to it, and with one it is never deleted once nothing is under way |
| `Connections.SecondFirstPacket` | WebSocket/third/websocket/PushFramework/private/Dispatcher.cpp:254-259 | a concrete run: after two first packets in one receive the connection may be deleted while that receive is being processed |
| `Connections.PhysicalConnection.Push` | WebSocket/third/websocket/PushFramework/private/PhysicalConnection.cpp:218-251 | accepts a packet only while open and if its frame fits, starts a write only if none is under way, and reports as the source does |
| `Connections.PhysicalConnection.AttachToClient` | WebSocket/third/websocket/PushFramework/private/Dispatcher.cpp:254-264 | attaches a connection exactly if it is still in the list of those without a client; otherwise its workers go down by one more |
| `Connections.PhysicalConnection.OnSendCompleted` | WebSocket/third/websocket/PushFramework/private/PhysicalConnection_Win.cpp:88-112 | pops what was sent unless the connection is disposable, then writes on, goes idle, or closes a waiting connection |
| `Connections.PhysicalConnection.WriteBytes` | WebSocket/third/websocket/PushFramework/private/PhysicalConnection_Win.cpp:67-85 | copies the first bytes of the buffer and starts their write; the copy of another write is never overwritten |
| `Connections.PhysicalConnection.OnWriteComplete` | WebSocket/third/websocket/PushFramework/private/Dispatcher_Win.cpp:33-56 | handles the completed bytes, of which none is lost or doubled, and gives the worker of the write back |
| `Connections.PhysicalConnection.CloseConnection` | WebSocket/third/websocket/PushFramework/private/PhysicalConnection_Win.cpp:117-146 | closes at once, or waits for the buffer to drain; a connection that waits stays as it is |
| `Connections.PhysicalConnection.StartReceive` | WebSocket/third/websocket/PushFramework/private/PhysicalConnection_Win.cpp:30-47 | only an open connection starts a receive, which is counted |
| `Connections.PhysicalConnection.ReadReceivedBytes` | WebSocket/third/websocket/PushFramework/private/PhysicalConnection_Linux.cpp:32-61 | what arrives is appended to the receive buffer, never past its end; a connection that is closed or waits only answers its status |
| `Connections.PhysicalConnection.OnReceiveComplete` | WebSocket/third/websocket/PushFramework/private/Dispatcher_Linux.cpp:41-132 | a round of receiving: nothing when the connection is closed or waits, a close when nothing arrives, which is so when the buffer is full, otherwise the messages that are complete now and a further receive |

## Left out

Sources and members:

- Sockets, epoll, completion ports, listeners, threads and time: results of system calls are parameters, and each
  method under a lock is one step.
- The comparison of tree.h is the difference of two integer keys; another strict total order is not modelled.
- The macros of tree.h are split into helper methods; augmenting (RB_AUGMENT is empty in the source) and
  RB_FOREACH_SAFE are not modelled.
- SPLAY_MINMAX with a direction of 0 loops for ever on a tree and is not modelled.
- The cost of a splay tree is counted in rounds of the splay loops; the walk of SPLAY_NEXT down to the next node is
  not counted.
- 32-bit wrap-around of packet positions, counts, sizes and numeric character references is not modelled.
- RemoveBroadcastQueue frees a channel that stays in the chain, and is not modelled; neither are the statistics.
- Looking up a channel by its name in the map of the manager: the channel is passed instead.
- Parsed elements are values; the arrays behind an element are modelled on their own in XmlContents, with one type for
  the three kinds of items, and without the reference counts of elements.
- Adding an element that already has a parent: the code moves it with the number that removeOrderElement returns.
- parseString with a tag to look for, error lines and columns, faults within a declaration, wide-character builds,
  files and the guess of their encoding.
- The byte table of the encoding, which is UTF-8 at run time unless it is changed (xmlParser.cpp:762): every character
  is one byte, as in all tables for the characters below 0x80.
- A numeric reference to character 0 is stored as a character, which ends the string for a C reader.
- Reading on Windows drops received bytes that do not fit the intermediate buffer; only reading on Linux is modelled.
  Writing on Linux, where WriteBytes sends in a loop and OnSendCompleted sends again, is not: PhysicalConnection joins
  the writes of Windows with the reads of Linux.
- WebSocket messages, OpenSSL, libuv beyond tree.h, the garbage collector and the monitors.

Contracts that state less:

- RunsSound: runs with removePacket are the subject of PositionsAreFresh, because the window of the last pushes has gaps then; a client subscribes once and has at most one packet in hand.
- PayloadLifetimes: it is about one channel and goes one way; FreshPushExactly and LifetimesExactly state the condition for all channels of a manager, both ways.
- BoundedInversion: its condition on the quotas is shown to be the exact one by InversionBoundedExactly.
- DecodeSizeOf: for a text of fill characters only, for which the source reads in front of the text, the size is left open.
- Push: a packet is given by the text that it encodes to, or by the failure to encode.
- AttachToClient: a connection that is still in the list is attached only while it is connected; attaching later would open it again, which GracefulClose does not cover.
- TryDeframeIncomingPacket: which messages the XML parser accepts is a parameter.
