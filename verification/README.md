# A verified model of sea-dsa's points-to graph

sea-dsa abstracts memory by a points-to graph.  A *node* is a memory object, a *cell* is a node and a
byte offset in it, and a node's *links* say which cell is stored at each of its fields.  Whenever the
analysis learns that two cells may be one, it *unifies* them in place: one node starts *forwarding* into
the other, its accesses, flags, allocation sites and links are moved one at a time, and every move may in
turn merge or collapse the very nodes that are being merged.  A *collapsed* node has only offset 0, an
*array* node has its offsets modulo a stride.

The project models that engine as one class that owns a table of nodes named by index, and proves

* **soundness of unification**: over any run of operations equal cells stay equal, no edge, mark or access
  is forgotten, and well-formedness is kept (`Coarsening`, `Steps`, `Runs`, `Engine`);
* **leastness**: the engine merges, links, marks and collapses nothing that some array-free graph satisfying the
  requested merges avoids, in which what was an array is collapsed, over any list of requests (`Candidates`,
  `Runs.UnifyAll`), nor does a whole call: nothing that is apart in some graph which holds the caller and the callee and puts the two cells
  of each tie in one place is merged, linked, collapsed or marked (`Outcomes.CallLeast`);
* **exactness of a single merge**: by kinds, sizes and the offset alone, which objects collapse and which goes into
  which; an object whose accesses fit and whose links meet nothing is taken in whole and nothing else changes; and two
  objects without links collapse exactly when they cannot keep their offsets or an access does not fit, arrays
  included (`MergeLaws.Lawful`);
* **termination** of the mutual recursion `Unify`, `UnifyAt`, `PointTo`, `AddLink`, `CollapseOffsets`,
  `AddAccessedType` on every graph: each method's `decreases` clause is checked, led by a potential that
  gives 2 to each representative with offsets, 1 to each collapsed one and 0 to forwarding nodes;
* **cloning** yields an isomorphic copy of what a node reaches, also for cyclic graphs, with the same kinds, sizes,
  flags and accesses;
* **the simulation mapper** finds the least simulation exactly when there is one, and where root offsets wrap in
  32 bits, what it accepts is a simulation, and puts the cells together, under exact conditions; what a simulation says
  of cells, edges and ties is stated without the mapper's own tests (`MapperLaws`);
* **composition**: after the globals, the return and the arguments of a call have been cloned and unified one by
  one, the caller simulates the callee, which the code only asserts, exactly when every clone taken from the
  cloner's cache is in place (`Calls.CallSimulated`);
* **compression and clean-up** are invisible to clients and keep exactly what the roots reach;
* **GEPs**: all addresses one GEP can compute are one cell, exactly under a condition stated for all inputs, and which
  offsets of the base's object are one cell afterwards and which stay apart;
* **alias queries** and **pointer-free memory transfers** are conservative.

## How it is organised

| file | contents |
|---|---|
| Layout, PointsTo | types; nodes, cells, forwarding, adjusted offsets, well-formedness |
| Forwarding, Strides | acyclic forwarding and the potential; arithmetic of wrapped offsets |
| Coarsening, Changes, Steps, Runs | what a later state keeps; elementary changes; one step; any run |
| Candidates | candidate outcomes, the upper bound on what may be merged |
| EngineFacts, LinkFacts, MergeFacts, TypeFacts, CleanupFacts, Flattening | lemmas for the engine, one file an operation |
| MergeLaws | what merging two objects comes to, by kinds, sizes and the offset |
| Engine | the class `Graph` and its methods |
| Cloning, Mapper, Propagation | cloning, simulation, the direction of propagation |
| MapperLaws | what the mapper's tests and a simulation mean for cells, edges and ties |
| Marks, Composition | later states when one mark is ignored; what a caller keeps of a callee, and what every simulation needs |
| Calls, Outcomes, BottomUp | the steps of a call and what they come to; the least outcome of a call; resolving the roots of a call |
| Gep, Alias, Transfers | offsets of address computations, alias queries, pointer-free transfers |
| Findings | inputs on which the code falls short of what its comments or callers expect |

Proofs hide the definitions they do not need (`hide`), so many small lemmas only read one fact off a definition
for a proof that must not see the rest of it.

Two ghost fields of `Graph` take part in the statements.  `candidate` is an arbitrary array-free graph with
a place for every node of the graph at hand, on a collapsed node for an array; since it is arbitrary, "stays inside
the candidate" is a statement about all of them.  `lost` collects the allocation sites that a merge wrote to a node that had
just stopped being in use.

## What the code does not do

* **Allocation sites can be lost.**  `pointTo` joins the sites into `node` and not into its representative
  (lib/seadsa/Graph.cc:364), although recording the accesses may just have collapsed and retired `node`.
  The sites arrive exactly when the destination is collapsed, has size at most 1, or its stride holds every
  access of the incoming node (`Engine.Graph.Embed`); otherwise, for objects without links, none arrives
  (`MergeFacts.Absorbed`), as on the input of `Findings.LosesSite`.
* **A GEP that goes back drops its stride.**  With a negative constant part the variable indices are ignored
  (lib/seadsa/DsaLocal.cc:1009-1023).  The cell is right exactly when the period of the base's node divides every
  variable stride, or the constant part goes back past the start of an array, which then collapses
  (`Gep.VisitGep`, which is an "if and only if" for every GEP and base).  `Findings.BackWithStride` gives such a GEP, and
  `Findings.BackMisses` the base cells on which its result is wrong.
* **The mapper's root offsets may wrap.**  `insert` subtracts unsigned offsets where the first is the larger, and adds
  the size in 32 bits (lib/seadsa/Mapper.cc:56-66, 92).  What it accepts is a simulation exactly when `Mapper.RootFits`
  holds of the root pair, and the root cells meet exactly when no offset wraps or the stride divides 2^32
  (`Mapper.SimulationMapper.InsertCell`).  `Findings.WrappedRootAccepted` is a pair of graphs on which the decision is not
  "up" although nothing simulates the callee; `Findings.WrappedRootMisses` one on which the cells do not meet.
* **A clone taken from the cache loses its offset.**  `clone` returns the representative of a cached clone
  (lib/seadsa/Cloner.cc:96) and its callers add the raw offset of the original cell.  That is the clone's cell exactly
  when the clone begins where the node that holds it begins (`Cloning.RedirectedRight`).  So the assertion at
  lib/seadsa/DsaGlobal.cc:554 can fail.  In array-free graphs it holds if and only if each clone that was taken from the
  cache began where the node that held it began, or has ended up on a collapsed node (`BottomUp.PropagateBottomUp`,
  `Calls.CallSimulated`).  A caller can check beforehand that no two roots of the call reach one node, which is enough.
  `Findings.BoundTwice` binds one callee node to offset `k` of an object and then to a fresh scalar: facts still have to
  flow up unless `k` is 0.  In `Findings.BoundTwiceToOne` both actuals are that cell; the object collapses, and nothing
  has to flow up.
* **Clearing the mark of a formal may clear a caller's own mark**: `setExternal(false)` (lib/seadsa/DsaBottomUp.cc:126)
  is applied to the node that holds the clone, which may be a node the caller had.  A step loses something if and only
  if its formal has a clone already and the node that holds it is external (`Calls.GraftedOnward`); a whole call does
  if and only if something external has ceased to be (`Calls.CallCoarsens`).  `Findings.BoundTwice` is an instance:
  the caller's object is no longer external, if it was.
* **The memo of `transfersNoPointers` truncates the length** to 32 bits (lib/seadsa/DsaLocal.cc:1536-1540).  All lengths
  that share an entry have one answer if and only if the type is below 4 GiB or holds no pointer
  (`Transfers.MemoAgrees`); every other type is misjudged by two calls (`Transfers.MemoMisleads`), for instance
  2^29 words and a pointer, asked about 8 bytes and then about all (`Findings.MemoMisleadsAtEight`).
* **`removeNodes` can break well-formedness**: removing one of several links at an offset removes the accesses
  recorded there, on which the others rely.  A well-formed graph stays so if and only if no node in use that is not
  collapsed has an offset that loses one link and keeps another (`Engine.Graph.RemoveNodes`); `Findings.BreaksNode` is a
  graph that does not.  Without type awareness an offset has one link and nothing breaks.
* The comment on `unifyAt` promises that the given node comes to point to the current one
  (include/seadsa/Graph.hh:621-623).  When the arrays are exchanged it is the other way round
  (`MergeFacts.GivesWay` in the contract of `Engine.Graph.UnifyAt`), as for strides 8 and 4 in
  `Findings.ExchangesRoles`.  That the two objects are aligned holds in every branch.
* Collapsing a node of size at most 1 leaves its links under their keys (lib/seadsa/Graph.cc:282-285).  A link at an
  offset where no access was recorded is then found no more (`Findings.LooseLinkLost`); loads and stores record one.
* `mayAlias` answers true for accesses that merely touch (lib/seadsa/SeaDsaAliasAnalysis.cc:123), which is
  conservative.

## Model

| member | source | states |
|---|---|---|
| PointsTo.Resolve | lib/seadsa/Graph.cc:766-785 | following forwarding ends at a representative; a representative resolves to itself at offset 0 |
| Engine.Graph.constructor | lib/seadsa/Graph.cc:81-83 | a new graph is empty and well-formed |
| Engine.Graph.Find | lib/seadsa/Graph.cc:766-785 | returns the representative with the summed offset; path shortening changes no resolution and no node but forwarding cells |
| Engine.Graph.ResolveCell | lib/seadsa/Graph.cc:780-785 | the cell on its representative with the raw offset; nothing a client sees changes |
| Coarsening.AdjustTwice | lib/seadsa/Graph.cc:121-131 | when strides only shrink to divisors, adjusting an offset before or after a merge gives the same offset |
| Coarsening.SameLater | include/seadsa/Graph.hh:391-394 | cells once equal are equal in every later state |
| Coarsening.EdgeLater | lib/seadsa/Graph.cc:323-380 | no edge is ever lost: a later state has it at the shifted, adjusted field, with a target equal to the old one |
| Coarsening.AccessLater | lib/seadsa/Graph.cc:254-260 | a recorded access stays recorded at its adjusted place, or its node has collapsed |
| Coarsening.MarksLater | include/seadsa/Graph.hh:442-466 | flags of an object stay set on its representative |
| Coarsening.CoarsensTrans | lib/seadsa/Graph.cc:476-553 | being a later state composes, so what one operation keeps any run of them keeps |
| Runs.RunLater | lib/seadsa/Graph.cc:323-553 | over any run of operations every state is later than every earlier one, sites, potential and validity included |
| Runs.RunKeeps | lib/seadsa/Graph.cc:323-553 | over any run equal cells stay equal, and edges, accesses and flags stay, for all cells, fields and nodes at once |
| Runs.RunKeepsSites | lib/seadsa/Graph.cc:360-364 | over any run the sites of an object are on its representative or have been recorded as lost; in array-free graphs none is lost |
| Runs.EquatesNoMore | lib/seadsa/Graph.cc:476-553 | whatever a graph that sits in a candidate has equated is equated there |
| Runs.EdgesNoMore | lib/seadsa/Graph.cc:412-472 | whatever edge such a graph has, the candidate has, through omni links too |
| Runs.MergesNoMore | lib/seadsa/Graph.cc:476-553 | what is equal, linked, collapsed, marked or allocated among the nodes there were at the start is so in every candidate the graph sat in |
| Runs.UnifyAll | include/seadsa/Graph.hh:391-394 | any list of merge requests: each is met, and nothing more is merged or linked than in any candidate that meets them all |
| Candidates.ImageOfRep | lib/seadsa/Graph.cc:766-785 | a candidate puts a cell and its resolved form in one place |
| Engine.Graph.CollapseOffsets | lib/seadsa/Graph.cc:263-298 | afterwards all offsets are one; the exact state when the size is at most 1 or the object has no links; the potential falls; only forced collapses leave the candidate |
| Engine.Graph.PointTo | lib/seadsa/Graph.cc:323-380 | the retired node sits at the adjusted offset, everything it had is found there, it is reset; exact state when its accesses fit and its links meet nothing; sites stay behind when they do not fit |
| Engine.Graph.Embed | lib/seadsa/Graph.cc:342-364 | accesses and flags have arrived; the sites arrive if and only if the destination stays in use, and it does if and only if it holds the accesses |
| Engine.Graph.JoinAnnotations | lib/seadsa/Graph.cc:360-364 | flags reach the representative, sites reach the node they are written to, and nothing else changes |
| Engine.Graph.JoinAccessedTypes | lib/seadsa/Graph.cc:254-260 | every access is recorded at its shifted place; exactly those are added and the size is the least that fits, or the array overflows and collapses |
| Engine.Graph.AddLinks | lib/seadsa/Graph.cc:366-371 | all links are edges afterwards, although each may merge the nodes under the others; links that meet nothing are stored and nothing else changes |
| Engine.Graph.CellAddLink | include/seadsa/Graph.hh:384-389 | the link is an edge of the object the cell's node has become |
| Engine.Graph.AddLink | lib/seadsa/Graph.cc:412-472 | the link is an edge, earlier edges stay, an omni link stays alone at its offset; a link that meets nothing is stored as it is |
| Engine.Graph.UnifyLink | lib/seadsa/Graph.cc:419-424 | the target under an existing link and the new target become one |
| Engine.Graph.Unify | lib/seadsa/Graph.cc:742-764 | both cells are one afterwards; nothing more is merged than any candidate that equates them merges; first paths are shortened, then the cells' representatives merge as `MergeLaws.Lawful` says |
| Engine.Graph.UnifyOrSet | lib/seadsa/Graph.cc:742-764 | a null cell becomes the other on its representative, with the adjusted offset, and nothing is merged; otherwise the two become one cell, merged as `MergeLaws.Lawful` says, and nothing more than in any candidate that equates them |
| Engine.Graph.UnifyReps | lib/seadsa/Graph.cc:750-762 | the smaller offset goes into the larger and the cells meet |
| Engine.Graph.UnifyAt | lib/seadsa/Graph.cc:476-553 | the second object begins at the given offset of the first, at every byte; what collapses, which object goes into which, and when nothing else happens, by kinds, sizes and the offset alone (`MergeLaws.Lawful`) |
| Engine.Graph.CollapseAndUnify | lib/seadsa/Graph.cc:481-485 | collapsing first still aligns what the two have become, and the result is collapsed; objects without links become one node with exactly their flags and sites, and no other node changes |
| MergeFacts.Decided | lib/seadsa/Graph.cc:489-547 | what each branch may rely on: a node is absorbed only where its period is kept, the exchange happens once, a collapse is never of a collapsed node |
| MergeFacts.MergedExchanged | lib/seadsa/Graph.cc:507-523 | merging the other way round at offset 0 does what the original order asked for |
| MergeFacts.AlignedSelf | lib/seadsa/Graph.cc:543-547 | an object met at an offset that adjusts to 0 is aligned with itself already |
| MergeFacts.AlignedExchanged | lib/seadsa/Graph.cc:492-523 | arrays aligned at 0 are aligned at every offset that the smaller stride divides |
| MergeFacts.AlignedPointed | lib/seadsa/Graph.cc:551-552 | forwarding at the adjusted offset aligns every byte of the two objects in every later state |
| MergeFacts.CollapseForced | lib/seadsa/Graph.cc:480-547 | the engine collapses only what every candidate has collapsed |
| MergeFacts.SameStays | include/seadsa/Graph.hh:391-394 | equal cells stay equal whatever the engine does next |
| MergeFacts.CollapsedMerged | lib/seadsa/Graph.cc:481-485 | collapsing one object and merging the other into it leaves one collapsed node with exactly the flags and sites of both |
| MergeFacts.CollapsedAlone | lib/seadsa/Graph.cc:543-547 | an object merged with itself at another offset collapses and keeps its flags and sites |
| MergeLaws.DecidedLawful | lib/seadsa/Graph.cc:489-547 | the branch taken: objects that cannot keep their offsets collapse; else the array with the smaller stride stays, or the first object |
| MergeLaws.MergedLawful | lib/seadsa/Graph.cc:476-553 | the branches come to what the kinds, sizes and the offset call for: the exact state when the accesses fit and the links meet nothing, and without links collapsed if and only if offsets cannot be kept or an access does not fit |
| MergeLaws.StrideSurvives | lib/seadsa/Graph.cc:507-523 | of two arrays whose strides divide and whose accesses fit, the smaller stride survives, whichever of the two it is on |
| EngineFacts.AdjustAdjusted | lib/seadsa/Graph.cc:121-131 | an adjusted offset is a fixed point of adjusting |
| LinkFacts.EdgeThroughOmni | lib/seadsa/Graph.cc:395-401 | an edge under an omni link is found by any field at its offset |
| LinkFacts.OmniAgrees | lib/seadsa/Graph.cc:390-405 | every edge at an offset with an omni link leads where the omni link leads |
| LinkFacts.OmniGathers | lib/seadsa/Graph.cc:444-471 | once an offset has an omni link, every target linked there before is unified with its target |
| LinkFacts.OmniSet | lib/seadsa/Graph.cc:446-464 | replacing the links at an offset by one omni link leaves a sound node, with the saved links still to deliver |
| LinkFacts.OmniDone | lib/seadsa/Graph.cc:466-471 | re-adding the saved links restores every edge |
| Engine.Graph.GrowSize | lib/seadsa/Graph.cc:133-154 | a plain node is stretched to hold the access; an array too short for it collapses |
| Engine.Graph.AddAccessedType | lib/seadsa/Graph.cc:171-246 | the worklist records exactly the flattened accesses of the type; an array holds all of them or collapses at the first step |
| Flattening.LeavesAre | lib/seadsa/Graph.cc:191-222 | the accesses recorded for a type are exactly the primitives it has, each at its offset: at every struct member and every array element |
| Flattening.ElementsRecorded | lib/seadsa/Graph.cc:209-222 | an array of primitives is recorded at every element and nowhere else |
| Flattening.PushedLeaves | lib/seadsa/Graph.cc:191-222 | replacing a type by its parts keeps the accesses still to record |
| Flattening.ExpandShrinks | lib/seadsa/Graph.cc:178-222 | every expansion leaves less to visit, so the worklist ends |
| TypeFacts.OverflowsAtOnce | lib/seadsa/Graph.cc:187-189 | an array that collapses while a type is expanded does so at the first step |
| TypeFacts.Expanded | lib/seadsa/Graph.cc:171-246 | the finished worklist has recorded the accesses of the recursive definition |
| Engine.Graph.StraightenLinks | lib/seadsa/Graph.cc:892-896 | each link of the node leads straight to a representative and nothing else changes |
| Engine.Graph.StraightenCells | lib/seadsa/Graph.cc:899-904 | every cell is moved to its representative |
| Engine.Graph.Compress | lib/seadsa/Graph.cc:886-920 | only paths are shortened; the result is a later state; forwarding nodes are gone and no root or link in use refers to one |
| CleanupFacts.FlattenedCanon | lib/seadsa/Graph.cc:886-904 | compression changes no cell a client sees |
| CleanupFacts.FlattenedEdges | lib/seadsa/Graph.cc:886-904 | compression keeps exactly the edges there were |
| CleanupFacts.FlattenedDirect | lib/seadsa/Graph.cc:908-920 | after compression nothing in use refers to a deleted or forwarding node |
| Engine.Graph.RemoveDead | lib/seadsa/Graph.cc:923-981 | the nodes left are exactly those reached from scalars, formals and returns |
| CleanupFacts.ChainReached | lib/seadsa/Graph.cc:955-969 | the set the worklist finds contains the end of every chain of links from a root |
| Engine.Graph.RemoveLinks | lib/seadsa/Graph.cc:1026-1055 | exactly the links to matching nodes go, with the accesses at their offsets; a sound node stays sound if and only if no offset loses one link and keeps another |
| CleanupFacts.PrunedChain | lib/seadsa/Graph.cc:1061-1103 | chains of links in what is left are exactly the chains from the roots that keep clear of matching nodes |
| Engine.Graph.RemoveAllLinks | lib/seadsa/Graph.cc:1100-1103 | every node in use loses exactly its links to matching nodes |
| Engine.Graph.RemoveNodes | lib/seadsa/Graph.cc:1058-1125 | the nodes left are exactly those a root reached by links that keep clear of matching nodes; a well-formed graph stays so if and only if no node in use has an offset that loses one link and keeps another |
| CleanupFacts.PrunedReached | lib/seadsa/Graph.cc:1058-1125 | the reached part of the pruned graph is what chains that keep clear of matching nodes reached before |
| CleanupFacts.PrunedValid | lib/seadsa/Graph.cc:1044-1054 | removing links keeps a graph well-formed if and only if each node in use stays so |
| CleanupFacts.PrunedSound | lib/seadsa/Graph.cc:1044-1054 | a pruned node is sound if and only if no offset loses one link and keeps another |
| CleanupFacts.PrunedTyped | lib/seadsa/Graph.cc:1044-1054 | the offset of a link still has an access if and only if no link at that offset was removed |
| Cloning.Cloner.constructor | include/seadsa/Cloner.hh:63-67 | a new cloner has an empty cache |
| Cloning.CopyRecords | lib/seadsa/Graph.cc:93-117 | joining a sound node's accesses onto its own copy adds exactly those accesses |
| Cloning.Cloner.CopyAllocationSites | lib/seadsa/Cloner.cc:163-185 | adds all sites, or exactly the non-stack ones |
| Cloning.Cloner.Reuse | lib/seadsa/Cloner.cc:93-110 | the node that now holds the clone is returned; it gains the sites of the original at the first call at full level, and nothing else changes |
| Cloning.Cloner.CloneNode | lib/seadsa/Cloner.cc:112-125 | a fresh foreign node without links that has the original's size, kind and flags, and its accesses unless it is collapsed, field by field |
| Cloning.Cloner.CopyLink | lib/seadsa/Cloner.cc:145-155 | the same field leads to the node that holds the clone of the target, at the same raw offset |
| Cloning.Cloner.Clone | lib/seadsa/Cloner.cc:49-161 | terminates on cyclic graphs, also when earlier clones have been merged; every new clone is complete, no two nodes share one, only nodes reached from the root are cloned, the target's own nodes are unchanged, and the sites of clones not yet merged are exact |
| Cloning.ClonesReached | lib/seadsa/Cloner.cc:139-156 | the cloned nodes are the least link-closed set around the root |
| Cloning.OwnResemble | lib/seadsa/Graph.cc:93-117 | every clone made by this call agrees with its original in size, kind, flags and accesses |
| Cloning.ClonePaths | lib/seadsa/Cloner.cc:139-156 | every access path reads, in the copy, the clone of what it reads in the original, at the same offset, and the nodes read agree in size, kind, flags and accesses |
| Cloning.RedirectedRight | lib/seadsa/Cloner.cc:93-109 | the cell taken from the cache is the clone's own cell if and only if the clone begins where the node that holds it begins |
| Mapper.SimulationMapper.constructor | include/seadsa/Mapper.hh:40 | a new mapper relates nothing |
| Mapper.SimulationMapper.InsertNode | lib/seadsa/Mapper.cc:71-161 | on success every new pair is compatible with all links matched inside the map; on failure the map is empty; it succeeds, with the least extension, whenever a relation explains the pair, wrapped offsets included |
| Mapper.SimulationMapper.InsertCell | lib/seadsa/Mapper.cc:39-68 | what it accepts stays a simulation if and only if the root pair fits, and puts one cell on the other if and only if no offset wraps or the stride divides 2^32; it succeeds, with the least extension, whenever a relation lets it |
| Mapper.SimulationMapper.IsFunction | lib/seadsa/Mapper.cc:185-190 | true if and only if every node has at most one image |
| Mapper.SimulationMapper.IsInjective | lib/seadsa/Mapper.cc:172-183 | true if and only if no (modified) cell simulates two nodes |
| Mapper.LinkExplained | lib/seadsa/Mapper.cc:124-157 | any simulation that covers a pair covers the pair each of its links leads to |
| Mapper.Unmatched | lib/seadsa/Mapper.cc:132-153 | a link the mapper cannot match is matched by no simulation |
| Mapper.MeetSeats | lib/seadsa/Mapper.cc:56-67 | when no root offset wraps, a simulation that puts one cell on the other has exactly the offset the mapper computes |
| Mapper.CompatibleLies | lib/seadsa/Mapper.cc:88-116 | a plain node accepted inside an array element really lies there if and only if its end does not pass 4 GiB |
| Mapper.RootSettled | lib/seadsa/Mapper.cc:56-100 | inserting the root pair keeps a simulation if and only if the pair fits |
| Mapper.AdmitsItself | lib/seadsa/Mapper.cc:39-68 | what the mapper makes of a root pair is one of the relations that let it accept, and so the least of them |
| Mapper.SeatedCovers | lib/seadsa/Mapper.cc:56-66 | where the mapper puts the nodes the cells meet if and only if no offset wraps or the stride divides 2^32 |
| Mapper.WrapAligns | lib/seadsa/Mapper.cc:56-66 | a wrapped difference leads back to the same place of an array if and only if the stride divides the word |
| MapperLaws.CompatibleMeans | lib/seadsa/Mapper.cc:85-122 | the mapper's test of a pair holds if and only if a collapsed node meets a collapsed one, an array meets an object that repeats with it and begins with it, and a plain node in the middle of an array element ends with it, in 32 bits |
| MapperLaws.LiesInside | lib/seadsa/Mapper.cc:88-100 | a plain node accepted in the middle of an array element has each of its bytes in that element |
| MapperLaws.SimulationCongruent | lib/seadsa/Mapper.cc:71-161 | cells of one callee node that are one cell are one cell of whatever simulates it |
| MapperLaws.SimulationLinks | lib/seadsa/Mapper.cc:124-157 | every link of a simulated node is matched by an edge of the caller whose target covers the link's |
| MapperLaws.FollowRefuses | lib/seadsa/Mapper.cc:132-153 | an edge is refused if and only if the target's cell would begin before the object it leads to |
| MapperLaws.TiesAgree | lib/seadsa/Mapper.cc:39-68 | callee cells that are one cell, at any distances behind two ties, are one cell at the same distances behind the tied caller cells |
| Propagation.ComputeMapping | lib/seadsa/Graph.cc:1229-1298 | it succeeds if and only if each tie in turn is admitted, and makes the least relation of each; that is a simulation respecting every tie if and only if every root pair fits and lands; when no root offset wraps it succeeds exactly when there is a simulation |
| Propagation.DecidePropagation | lib/seadsa/DsaGlobal.cc:505-519 | up, down and none are read off the least relation that admits each tie in turn, for all inputs; when every root pair fits and lands, not up only if a functional simulation respects the ties, and exactly then when no root offset wraps; then the caller also equates, behind the ties, whatever the callee equates |
| Propagation.SimulatedRespects | lib/seadsa/DsaGlobal.cc:505-519 | under a functional simulation that respects the ties the caller equates, behind the ties, every two cells that the callee equates |
| Propagation.WithinKeeps | lib/seadsa/Mapper.cc:172-190 | what is inside a functional or injective relation is functional or injective |
| Propagation.TieMapped | lib/seadsa/Graph.cc:1229-1298 | after each tie the map is a simulation if and only if every root pair so far fits |
| Propagation.ChainAgrees | lib/seadsa/Graph.cc:1229-1298 | there is one chain of least relations at most |
| Composition.LinkMatched | lib/seadsa/Mapper.cc:124-157 | the mapper matches every link of a callee node where the caller keeps its clone |
| Composition.SeatingSimulates | lib/seadsa/DsaGlobal.cc:539-554 | sending each callee node to where its clone now is is a simulation |
| Composition.SeatingCovers | lib/seadsa/DsaGlobal.cc:539-554 | it puts each root exactly where the caller has it, and no root offset wraps |
| Composition.KeptSimulates | lib/seadsa/DsaGlobal.cc:539-554 | a caller that kept every clone's links and landed every root has a functional simulation that respects all ties |
| Composition.TiePins | lib/seadsa/Mapper.cc:39-68 | a simulation that respects a tie has the node under the callee cell exactly where the caller has its copy |
| Composition.LinkPins | lib/seadsa/Mapper.cc:124-157 | and each link of a node it has there puts the next node where the link leads |
| Marks.UnmarkedCoarsens | lib/seadsa/DsaBottomUp.cc:126 | a later state is a later state when some marks are ignored |
| Marks.OnwardCoarsens | lib/seadsa/DsaBottomUp.cc:126 | a state that is later but for one mark is later if and only if whatever had the mark has it still |
| Calls.GraftedOnward | lib/seadsa/DsaBottomUp.cc:119-127 | cloning a root loses nothing if and only if it is no formal, or has no clone yet, or the node that holds it is not external |
| Calls.StepKept | lib/seadsa/DsaBottomUp.cc:119-130 | a root whose reused clones are in place leaves the caller keeping all the callee says, and its scalar holding the clone of its cell |
| Calls.CallKept | lib/seadsa/DsaBottomUp.cc:66-130 | by induction over the roots: all links and collapses of the callee are kept and every scalar holds its root |
| Calls.StepPinned | lib/seadsa/DsaBottomUp.cc:119-130 | a simulation that respects the tie of a root finds every clone taken from the cache for it in place |
| Calls.CallPinned | lib/seadsa/DsaBottomUp.cc:66-130 | by induction over the roots: a simulation that respects all ties finds every reused clone in place |
| Calls.CallNeverWraps | lib/seadsa/Mapper.cc:56-67 | after a call no root offset wraps |
| Calls.CallSimulated | lib/seadsa/DsaGlobal.cc:539-554 | a functional simulation respects all ties of the call if and only if every reused clone is in place |
| Calls.CallCoarsens | lib/seadsa/DsaBottomUp.cc:66-130 | over a whole call the caller loses at most one mark, and nothing if and only if whatever was external is external still |
| Calls.CallApart | lib/seadsa/Cloner.cc:93-109 | roots that reach no common node never take a clone from the cache |
| Calls.OneRootApart | lib/seadsa/DsaGlobal.cc:539-554 | a call with one root shares nothing, so its caller needs no further bottom-up propagation in array-free graphs |
| Outcomes.CopiedAtHome | lib/seadsa/Cloner.cc:93-109 | in a candidate that holds the callee, a copied cell is where the cell is it was copied from, if the clone taken from the cache is flush or collapsed there |
| Outcomes.StepMapped | lib/seadsa/DsaBottomUp.cc:119-127 | a candidate that holds the caller and the callee holds the caller with the clones of a root |
| Outcomes.StepInside | lib/seadsa/DsaBottomUp.cc:119-130 | and, if it puts both cells of the root's tie in one place, the caller with the root resolved |
| Outcomes.CallInside | lib/seadsa/DsaBottomUp.cc:66-130 | by induction over the roots: the caller after all of them |
| Outcomes.CallLeast | lib/seadsa/DsaBottomUp.cc:66-133 | the caller, its clones included, equates, links, collapses and marks nothing that such a candidate does not |
| BottomUp.CloneRoot | lib/seadsa/DsaBottomUp.cc:119-127 | the caller gains exactly one complete clone of each node the root newly reaches; its own nodes are unchanged but for the mark of a formal |
| BottomUp.ResolveRoot | lib/seadsa/DsaBottomUp.cc:119-130 | the caller's scalar and the cell taken for the root become one cell, in a state later than the cloned one, and nothing more is merged than in any candidate that equates the two |
| BottomUp.ResolveCall | lib/seadsa/DsaBottomUp.cc:66-133 | all roots, one after the other with one cache, and compression: every scalar holds the cell its root was given, and the clone's own, with all links kept, if the reused clones are in place; nothing more is merged than in any candidate that suits the call |
| BottomUp.PropagateBottomUp | lib/seadsa/DsaGlobal.cc:539-554 | after bottom-up propagation of a whole call between array-free graphs the decision is not "up" if and only if every reused clone is in place; so if no two roots reach one node; the caller has lost nothing if and only if whatever was external is external still; and it equates, links, collapses and marks nothing that is not so in every graph that holds the caller and the callee, meets the ties and is right about the reused clones |
| Gep.Gcd | lib/seadsa/DsaLocal.cc:862-871 | a number divides the result if and only if it divides both arguments |
| Gep.ComputeGepOffset | lib/seadsa/DsaLocal.cc:880-930 | the fixed part is the offset with all variable indices 0; a number divides the divisor if and only if it divides every variable stride; every run's offset is the fixed part modulo the divisor |
| Gep.OffsetsCongruent | lib/seadsa/DsaLocal.cc:873-879 | any two runs of a GEP differ by a multiple of every divisor of its strides |
| Gep.StridesNeeded | lib/seadsa/DsaLocal.cc:873-879 | a number dividing the difference of all runs divides every stride, so no larger divisor would do |
| Gep.PartAtOffset | lib/seadsa/DsaLocal.cc:880-930 | the offset of constant indices is where the type has the part they number: each primitive of the part is a primitive of the type there |
| Gep.PartBehind | lib/seadsa/DsaLocal.cc:880-930 | the same for a GEP behind a pointer, whose first index goes over elements as over those of an array |
| Gep.SameAdjusted | lib/seadsa/Graph.cc:121-131 | two offsets of a node are one cell if and only if its period divides their distance |
| Gep.InPlaceCell | lib/seadsa/DsaLocal.cc:1003-1014 | a cell of the base's own node is right for all runs if and only if the node's period divides its distance and every stride |
| Gep.FreshArrayCell | lib/seadsa/DsaLocal.cc:1037-1045 | after the fresh array is unified with the base all runs are one cell, whether its stride is kept, shrunk or collapsed |
| Gep.PastStart | lib/seadsa/DsaLocal.cc:1015-1023 | past the start of the base's node all runs are one cell if and only if the node is an array or the GEP has no stride |
| Gep.FreshPlainCell | lib/seadsa/DsaLocal.cc:1015-1023 | a plain base goes into the fresh node as it is, and the strides decide |
| Gep.FreshArrayPeriod | lib/seadsa/DsaLocal.cc:1037-1045 | the stride after a fresh array of the indices' stride has been merged with the base: that one if the base folds into it, an array's own if it divides, else 1 |
| Gep.PastStartPeriod | lib/seadsa/DsaLocal.cc:1015-1023 | past the start of the base's object a plain object keeps its offsets apart and an array collapses |
| Gep.VisitGep | lib/seadsa/DsaLocal.cc:1003-1049 | all addresses of a GEP are one cell if and only if the constant part does not go back, the base repeats with every stride, or it goes back past the start of an array; the run with all variable indices 0 always reaches the cell; and exactly which offsets of the base's object are one cell afterwards: at the greatest stride if the object can be folded, at an array's own stride if that divides it; nothing changes without a fresh node, and otherwise nothing is merged that is apart in some candidate in which the base's object is collapsed |
| Alias.SharedSize | lib/seadsa/SeaDsaAliasAnalysis.cc:63-82 | compares every type with the first: a size is given if and only if all types share it, and it is that size |
| Alias.Query | lib/seadsa/SeaDsaAliasAnalysis.cc:85-124 | answers true exactly when a cell is missing or unsafe, or both are on one node that is collapsed or on which nothing shows that the lower access ends before the higher |
| Alias.NoAliasExactly | lib/seadsa/SeaDsaAliasAnalysis.cc:84-124 | two cells do not alias if and only if neither node has one of the four flags, and the nodes differ or all accesses at the lower offset have one size and end before the higher |
| Alias.NoAliasDisjoint | lib/seadsa/SeaDsaAliasAnalysis.cc:84-124 | cells of one node that may not alias are never accessed at a common byte, in any array elements |
| Alias.MayAliasSymmetric | lib/seadsa/SeaDsaAliasAnalysis.cc:104-112 | the answer does not depend on the order of the cells |
| Alias.SameMayAlias | lib/seadsa/SeaDsaAliasAnalysis.cc:84-124 | cells that were ever unified may alias in every later state |
| Transfers.AggregateIterator.constructor | include/seadsa/TypeUtils.hh:38-40 | an iterator starts with the whole type to visit |
| Transfers.AggregateIterator.DoStep | lib/seadsa/TypeUtils.cc:39-78 | moves to the next leaf in order and adds the last leaf's size to the offset; stays put when only empty aggregates are left |
| Transfers.PartsRemain | lib/seadsa/TypeUtils.cc:57-77 | pushing the parts of a type keeps the leaves still to visit, in order |
| Transfers.PackedBelow | lib/seadsa/TypeUtils.cc:49-53 | under any padded in-order layout the running offset never exceeds the true one |
| Transfers.PackedExactly | lib/seadsa/TypeUtils.cc:49-53 | without padding the leaves fill the type and the running offset is each leaf's true one |
| Transfers.ScanLeaves | lib/seadsa/DsaLocal.cc:1542-1556 | true if and only if the walk meets no pointer leaf before its 32-bit offset reaches the length |
| Transfers.WalkSafe | lib/seadsa/DsaLocal.cc:1542-1556 | a walk that meets no pointer means that no pointer leaf starts before the length, and for types below 4 GiB the converse |
| Transfers.NoPointerCopied | lib/seadsa/DsaLocal.cc:1512-1557 | then every pointer the type has, at whatever offset, begins at the length or behind |
| Transfers.TransferAnalysis.constructor | lib/seadsa/DsaLocal.cc:1536-1537 | nothing is remembered at first |
| Transfers.TransferAnalysis.TransfersNoPointers | lib/seadsa/DsaLocal.cc:1512-1557 | a fresh answer is exactly the walk's and is remembered; a remembered one is the walk's for a length with the same 32 bits, so it is exact whenever those agree; over any calls |
| Transfers.MemoAgrees | lib/seadsa/DsaLocal.cc:1536-1540 | the lengths that share a memo entry all have one answer if and only if the type is below 4 GiB or holds no pointer |
| Transfers.WordCollides | lib/seadsa/DsaLocal.cc:1536-1540 | on any other type lengths 0 and 2^32 share an entry and have different answers |
| Transfers.MemoMisleads | lib/seadsa/DsaLocal.cc:1512-1557 | on any such type two calls make the analysis call a transfer pointer-free whose walk meets a pointer |
| Findings.LosesSite | lib/seadsa/Graph.cc:364 | an input on which a unification loses an allocation site |
| Findings.BackWithStride | lib/seadsa/DsaLocal.cc:1010-1014 | a GEP whose cell is right only on nodes whose period divides 8 |
| Findings.BackMisses | lib/seadsa/DsaLocal.cc:1010-1014 | on a plain object of any size that GEP gets one cell for addresses that are not one cell |
| Findings.BoundTwice | lib/seadsa/DsaGlobal.cc:539-554 | one callee node bound to offset k of an object and to a fresh scalar: still up if and only if k is positive; something is lost if and only if the object was external |
| Findings.BoundTwiceToOne | lib/seadsa/DsaGlobal.cc:539-554 | two actuals that are one cell: not up, although the clone was taken out of place |
| Findings.ExchangesRoles | lib/seadsa/Graph.cc:507-523 | a request to merge one array into another that merges the other into the one |
| Findings.LooseLinkLost | lib/seadsa/Graph.cc:282-285 | a node whose link is found no more after it collapsed in place |
| Findings.WrappedRootAccepted | lib/seadsa/Mapper.cc:92 | a decision that is not "up" although nothing simulates the callee |
| Findings.WrappedRootMisses | lib/seadsa/Mapper.cc:56-66 | a simulation that puts the first root cell beside the second |
| Findings.BreaksNode | lib/seadsa/Graph.cc:1044-1054 | a well-formed graph that removing one node leaves ill-formed |
| Findings.MemoMisleadsAtEight | lib/seadsa/DsaLocal.cc:1536-1540 | two calls on a large structure of which the second gets the first's answer, and a walk would not |

## Left out

- Engine.Graph.UnifyAt: its exact final state is stated for an object whose accesses fit and whose links meet nothing, and for collapsing merges of objects without links; where links meet, the result is bounded from below by what must be merged and from above by what every candidate merges.  Candidates have no arrays, and what was an array is collapsed there: with strides there is no least outcome to compare with, as the code collapses strides 8 and 12 although a stride of 4 would do.
- Engine.Graph.AddLink: the field must carry a recorded access of positive size, as loads and stores see to (lib/seadsa/DsaLocal.cc:702-710, 816-848); otherwise the edge need not survive a collapse (`Findings.LooseLinkLost`), and with it the soundness of every operation that may collapse the node.
- Engine.Graph.CellAddLink: the same.
- Runs.RunKeepsSites: with arrays, sites may be among those recorded as lost.
- BottomUp.PropagateBottomUp: the exact decision is stated for array-free graphs; the outcome is compared with candidates in which every clone taken from the cache began where its holder began or is collapsed, since a clone taken out of place is merged elsewhere.
- Gep.VisitGep: when links meet under the new stride, which offsets stay apart is not stated; what else may be merged is bounded by the candidates in which the base's object is collapsed.
- Propagation.DecidePropagation: where root offsets wrap, the decision is exact for the relations the mapper admits, which need not be simulations; globals, returns and arguments are given as one list of ties.
- Propagation.ComputeMapping: the same.
- Top-down propagation, which uses the same cloner with all allocation sites.
- Visiting LLVM IR beyond the functions above, pass plumbing, call graphs, options, logging and printing.
- Unique scalars, node ids, the memory pool, call sites and their cells, import of call paths.
- The flag and operation for type collapse: in type-unaware mode it is constant, in type-aware mode nothing here calls it.
- `FlatGraph`, whose single node makes collapse a self-forwarding.
- Cloning with a single allocation site and its deferred unification; cloning a node that is already in the target graph.
- `mergeAllocSites` and the agreement of allocation sites over the call graph.
- Null cells in the root maps, and globals that the maps create on demand; actuals are looked up among the scalars.
- 32-bit wrap-around, except where a result depends on it: the mapper's subtraction and addition, the walk over the leaves of a type and the key of its memo.
- Vector types; sizes where allocation size and store size differ.
- The order in which links, sites and accesses are visited: loops take any element, so what is proved holds for every order.
- Accessed types are a set of (offset, type) pairs instead of a map from offsets to sets.
- Deleted nodes stay in the table and are listed in `dropped`, so that nodes can be named by index.
- The mapper, the cloner's source and the alias query read cells without shortening paths, which `Engine.Graph.Find` shows to be invisible.
