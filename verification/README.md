# MeshtasticPass: board layout, CHAT store, connect window

A Dafny model of the deterministic cores of MeshtasticPass, a terminal client for Meshtastic radios, with proofs of
what those cores promise.

- **The MESH board** (`Grid`, `Stretch`, `Slots`, `SlotProperties`, `SlotOrder`, `Placement`, `PlacementAim`,
  `Stability`, `Connector`, `Scene`, `ScenePaint`, `Viewport`, `Relay`, `RelayAim`, `RelayTurns`, `RelayDrawn`). Nodes
  get logical slots by region, remembered slots first; slots are stretched onto a fixed grid; anonymous relay stages are
  placed between YOU and distant clients; connectors are routed with at most one elbow and painted; the layout is
  clipped to a viewport. The main results are that nobody moves over a run of quiet refreshes
  (`Stability.BoardIsStable`), exactly when a remembered slot is safe (`Stability.KeptExactlyWhenNewcomersComeLast`), who is seated first and where
  (`SlotOrder.NewcomersSeatedInOrder`, `PlacementAim.SeatedNearestToTarget`), that relay stages stand along the straight
  way (`RelayAim.BuiltStageStandsNear`), exactly when a relay chain runs clear of itself (`Relay.ChainRunsClear`,
  `RelayTurns.ClientChainIsClearExactly`) and is therefore drawn through its stages
  (`RelayDrawn.BoardChainIsDrawnExactly`), and that every drawn route is a path whose glyphs meet
  (`Connector.RouteJoins`).
- **The CHAT store** (`ProfileKeys`, `ChatRows`, `ChatPaging`, `ChatReading`, `ChatOldest`, `ChatTable`, `ChatChanges`,
  `ChatProfiles`, `ChatStore`, `Encounters`). A table of messages with a composite identity index and a profile on every
  read and write. Paging by cursor refines one sorted filter (`ChatReading.ScrollingListsHistory`), profiles do not
  disturb each other's pages (`ChatProfiles.OtherProfilesReadTheSame`, with the exact cursors in
  `ChatReading.OlderPageIsOwnExactly`), a deletion removes what it names and nothing else
  (`ChatChanges.OnlyThatConversationEmpties`), a rename moves the whole view, and a passport entry depends on what was
  seen and not on the order.
- **The connect window and send tracking** (`Radio`, `RadioRuns`, `RadioAttempts`, `RadioService`, `SendTracking`,
  `SendDestinations`). A step machine whose reader thread, connecting thread and environment interleave freely; packets
  held while the interface is being built are replayed once and in order (`Radio.HeldIsReplayedOnceInOrder`,
  `RadioRuns.HeldTextIsStoredOnce`), and by the connection of their own attempt exactly when none failed meanwhile
  (`RadioAttempts.OwnConnectionExactly`); a send addressed to a node is reported heard for that node's answer alone
  (`SendDestinations.HeardFromDestinationExactly`).
- **Working set, grapheme clusters, column layout** (`WorkingSet`, `WorkingSetProperties`, `WorkingSetRanks`,
  `WorkingSetMembers`, `Grapheme`, `GraphemeBreaks`, `PassLayout`). Who survives, in which order, under which ID
  (`WorkingSetMembers.SurvivesExactly`, `WorkingSetRanks.ShownByPreference`); where clusters begin
  (`GraphemeBreaks.BreaksExactly`); how many columns there are and how wide (`PassLayout.OneColumnIsReserved`).

`Common` and `Sorting` hold shared definitions. Code that loops over and changes variables or fields is a method or a
class whose contract ties it to a function of its inputs or its old state; the promises are lemmas about those functions.
A search that is a loop in the code is specified by what it finds (`Grid.Scan`: the first acceptable cell in scan
order), and a query by the rows it selects (`ChatRows.Newest`), not by the loop.

Where the code does less than its comments say, the model follows the code and states exactly when the promise holds:

- Stickiness is per region (`Stability.KeptExactlyWhenNewcomersComeLast`), although the layout's comments speak of all
  remembered nodes.
- The onward segment of a last relay stage is not checked against the segment entering that stage: the two run over each
  other exactly when the turn is one of three retraces (`RelayTurns.TurnIsClearExactly`), and there is a board on which
  they do (`RelayTurns.LastTurnMayRetrace`).
- A path does treat its own origin as an obstacle: YOU is taken out of the chain's members, and so stays among the
  obstacles (`Scene.OriginIsAnObstacle`), although a comment says never.
- An older page looks its cursor up without asking for the profile (`ChatReading.ForeignCursorIsRead`); exactly which
  cursors make it independent of other profiles' rows is `ChatReading.OlderPageIsOwnExactly`.
- The oldest unread row is searched by SQL within chunks of 500 IDs and by Python across them; the two orders differ on
  zero times, and then the answer can be wrong (`ChatOldest.ChunkedSearchCanMiss`), exactly when a chunk's own oldest row
  overtakes the oldest of all (`ChatOldest.SearchFindsOldestExactly`).
- A text that arrives after the interface is assigned and before ONLINE is handled is neither held nor filed
  (`RadioRuns.LiveArrivalIsFiledExactly`).
- Held packets outlive a failed attempt, and nothing discards them when the target changes: a packet is replayed by the
  connection of its own attempt exactly when none has failed since (`RadioAttempts.OwnConnectionExactly`), and otherwise
  a text can be filed for another radio than the one that delivered it (`RadioAttempts.HeldTextChangesRadio`).
- A repeat of a packet under an unresolved profile fails instead of being recognised
  (`ChatProfiles.UnresolvedRepeatFails`).

`dafny verify dfyconfig.toml` checks the whole project.

## Model

| member | source | states |
|---|---|---|
| Grid.SquareRing | mesh_topology.py:1757-1773 | the loops build exactly the ring, cardinals first, then the rest of the perimeter clockwise |
| Grid.RingExact | mesh_topology.py:1757-1773 | for radius r >= 1 the ring lists every point at Chebyshev distance r, each once, 8r points in all, the four cardinals first |
| Grid.RingInOrder | mesh_topology.py:1757-1773 | the ring's list order is the order of `RingOrder`, so which of two equally distant cells is tried first is fixed |
| Grid.ScanRings | mesh_topology.py:1045-1071 | searching ring after ring returns the first acceptable cell of the whole scan, or nothing when no ring up to the limit has one |
| Grid.ScanBeats | mesh_topology.py:1045-1071 | if an acceptable cell lies within the limit, the search finds one that is no farther away |
| Grid.ReserveBoundedCell | mesh_topology.py:1045-1071 | the bounded search with its row-by-row sweep computes `BoundedCell` |
| Grid.BoundedCellIsNearest | mesh_topology.py:1045-1071 | while the grid has a free cell, the cell returned is free, on the grid, and no free cell of the grid is nearer |
| Grid.BoundedCellOfFullGrid | mesh_topology.py:1045-1071 | on a full grid the wanted cell comes back unchanged |
| Grid.SlotForIsNearest | mesh_topology.py:1264-1280 | the unbounded search gives a free cell, no free cell being nearer, exactly when some cell within 4095 rings is free |
| Grid.SlotForIsFree | mesh_topology.py:1264-1280 | with fewer than 8191 x 8191 cells occupied the 4096 cut-off cannot be reached, so the slot is free (pigeonhole) |
| Stretch.RoundsToNearest | mesh_topology.py:1024-1038 | half-even rounding of a quotient of integers is off by at most a half, and an exact half goes to the even neighbour |
| Stretch.StretchKeepsOrder | mesh_topology.py:1024-1038 | for a factor of at least one, stretching and rounding keeps distinct steps distinct and ordered |
| Stretch.StretchNeverShrinks | mesh_topology.py:1024-1038 | no step gets shorter |
| Stretch.StretchFits | mesh_topology.py:1024-1038 | a step no longer than the farthest one stays within the room |
| Slots.Occupancy.ReserveSlot | mesh_topology.py:1264-1280 | claims the slot of an ideal cell: the result is `SlotFor` and exactly that cell is added to the occupied set |
| Slots.Occupancy.PlaceGroupStickyFirst | mesh_topology.py:464-509 | first claims the remembered cells of a group in rank order, then places the rest, as `PlaceGroup` says |
| Slots.AssignGridSlots | mesh_topology.py:512-743 | the whole assignment: first of each ID, the local node at the origin, then ten region groups in turn, each sticky first |
| SlotProperties.AssignmentIsInjective | mesh_topology.py:512-743 | every node gets one slot, no two slots share a node or a cell, the local node gets the origin |
| SlotProperties.SlotsStay | mesh_topology.py:512-743 | placing later groups never moves a slot already given |
| SlotOrder.NewcomersSeatedInOrder | mesh_topology.py:464-509 | of two unremembered remotes of one region the one with the smaller rank, or of equal ranks the smaller ID, is seated first; each takes its ideal cell unless an earlier slot holds it, and then a nearest cell no earlier slot holds |
| SlotOrder.FirstSeatIsNoFarther | mesh_topology.py:464-509 | of two such newcomers with one ideal cell the one that ranks first is seated no farther from it |
| SlotOrder.FirstOneKeepsCell | mesh_topology.py:464-509 | of the remembered nodes of one region that want one cell, the one that ranks first has it, unless an earlier region took it |
| SlotOrder.LaterOneLosesCell | mesh_topology.py:464-509 | and no other of them ever gets it |
| Placement.PlaceWithinBounds | mesh_topology.py:784-905 | nearest slots first, each stretched, clamped and nudged to a free cell, as `Positions` says |
| Placement.PositionsAreDistinct | mesh_topology.py:784-905 | while slots do not outnumber cells, the cells given are pairwise distinct and on the grid |
| Placement.EveryoneIsPositioned | mesh_topology.py:784-905 | exactly the nodes that have slots get cells |
| Placement.FittingSlotsAreNotNudged | mesh_topology.py:784-905 | when all steps fit their half-axes every slot lands exactly on its stretched cell: no collision nudge occurs |
| Placement.YouAtTheCentre | mesh_topology.py:784-905 | the slot at the origin lands exactly on the centre |
| PlacementAim.TargetIsStretched | mesh_topology.py:784-905 | a slot above YOU is moved up by its step times the room above over the farthest step up, rounded to a nearest row, when there is room to spare, and by its very step when not; likewise to the other three sides; one in YOU's row or column stays in it |
| PlacementAim.OntoGridIsNearest | mesh_topology.py:784-905 | a point off the grid is pulled to the one grid cell nearest to it along both axes |
| PlacementAim.SeatedNearestToTarget | mesh_topology.py:784-905 | each slot is on a cell nearest to that point among those the slots nearer to YOU (by distance, then ID) have left, and on the point's own cell once none is left |
| Stability.RememberedSlotIsKept | mesh_topology.py:464-509 | a remembered node keeps its exact slot when every remote of an earlier region is remembered too |
| Stability.EarlierNewcomerDisplaces | mesh_topology.py:464-509 | stickiness is per region: a newcomer of an earlier region whose ideal cell is somebody's remembered one takes it away |
| Stability.KeptExactlyWhenNewcomersComeLast | mesh_topology.py:464-509 | all remembered slots survive every geometry of the newcomers if and only if no newcomer's region is placed before a remembered node's |
| Stability.QuietRefreshMovesNobody | app.py:9955-10012 | a refresh that brings only departures and UNKNOWN newcomers within the ratchet leaves every node of unchanged region on its cell and YOU on the centre |
| Stability.BoardIsStable | app.py:9955-10012 | over any run of quiet refreshes, with positions and ratchet fed back, a node never leaves the cell it has on some layout, the opening one or the one that first places it, as long as every layout since shows it in the same region |
| Connector.RouteConnector | mesh_topology.py:1283-1310 | the loops draw exactly `Route`: across the start's row, one elbow, down the end's column |
| Connector.RouteConnectorAlternateElbow | mesh_topology.py:1335-1355 | the loops draw exactly `AlternateRoute`: down first, then across |
| Connector.RouteJoins | mesh_topology.py:1283-1310 | a route is &#124;dx&#124;+&#124;dy&#124;-1 cells, each next to the one before and after, from end to end, no cell twice, and each glyph's strokes point at exactly its two neighbours |
| Connector.AlternateRouteJoins | mesh_topology.py:1335-1355 | the same for the other elbow order |
| Connector.RouteConnectorAvoiding | mesh_topology.py:1358-1393 | the primary order unless it hits an obstacle and the alternate does not |
| Connector.AvoidingIsBest | mesh_topology.py:1358-1393 | the chosen segment joins its ends as a path, and hits an obstacle if and only if both elbow orders do |
| Connector.SegmentIsRepeatFree | mesh_topology.py:1358-1393 | a chosen segment never crosses itself |
| Connector.RouteChainAvoiding | mesh_topology.py:1396-1410 | a chain is its segments joined at the waypoints |
| Scene.BuildConnectorScene | mesh_topology.py:1576-1703 | the loop over destinations paints exactly `SceneOf` |
| Scene.DrawnRouteIsRepeatFree | mesh_topology.py:1576-1703 | every drawn route is free of repeated cells: a chain that would retrace is drawn as a direct line |
| Scene.ConnectedExactly | mesh_topology.py:1576-1703 | a relay stage is reported connected exactly when the route drawn for its own destination goes through it |
| Scene.OriginIsAnObstacle | mesh_topology.py:1660-1670 | YOU's own cell is among the obstacles of every destination, explicit or staged |
| Scene.RecordedPathIsDrawn | mesh_topology.py:1576-1703 | the nodes recorded for a destination are the waypoints of the drawn route if and only if the chain was not given up for a direct line (or is itself one) |
| Scene.SelectedRouteStaysAccented | mesh_topology.py:1576-1703 | replaying the cells with the last write winning leaves every cell of a route through the selected node in the accent colour |
| ScenePaint.StrokesAreInked | mesh_topology.py:1576-1703 | every destination's strokes are painted in one piece: accented and last when the selected node is on its chain, dim otherwise; exactly the straight strokes to a stale destination that is not accented are dashed |
| ScenePaint.ChainsAreRecorded | mesh_topology.py:1576-1703 | one chain is recorded for every destination drawn, in order, with its staleness: YOU, the route's relays or the stages that have a place on the board, the destination |
| ScenePaint.DrawableExactly | mesh_topology.py:1576-1703 | a destination is drawn exactly when every node of its chain has a place on the board |
| ScenePaint.ChainIsGivenUpExactly | mesh_topology.py:1576-1703 | a destination is drawn through its chain unless a stage of it is clipped to the edge or the chain's route would visit a cell twice; then it is drawn straight from YOU |
| Viewport.ReserveEdgeCell | mesh_topology.py:977-1021 | the boundary search, with its fall-back to any free cell, computes `EdgeCell` |
| Viewport.EdgeCellIsNearest | mesh_topology.py:977-1021 | while a boundary cell is free, the cell given is a nearest free boundary cell |
| Viewport.ProjectToViewport | mesh_topology.py:908-974 | the loops compute `Project`: visible nodes first, then the clipped ones in ID order |
| Viewport.ClippedGoToNearestEdge | mesh_topology.py:908-974 | a clipped node gets a nearest boundary cell free at its turn, when the visible nodes and the clipped ones with smaller IDs are seated, and is off the boundary only when all of it is taken by then |
| Viewport.ProjectionKeepsVisible | mesh_topology.py:908-974 | nodes inside never move, the edge set is exactly the nodes outside, every result is inside, and every clipped node got a nearest boundary cell free at its turn unless the boundary was full by then |
| Viewport.ProjectionIsInjective | mesh_topology.py:908-974 | distinct visible cells and enough room give pairwise distinct cells |
| Viewport.ProjectionIsIdempotent | mesh_topology.py:908-974 | projecting the result again changes nothing and marks nobody |
| Viewport.ProjectionForgetsOrder | mesh_topology.py:908-974 | the result does not depend on the order of the input |
| PlacementAim.NearbyIsNearest | mesh_topology.py:908-974 | the cell a clipped node looks for room from is the one cell of the viewport nearest to it along both axes |
| Relay.ReserveRelayStageCell | mesh_topology.py:1121-1219 | the constrained search computes `StageCell`: the ideal cell, a nearest suitable one, or any free one |
| Relay.StageCellIsNearest | mesh_topology.py:1121-1219 | while any grid cell satisfies the limits, a nearest such cell is taken |
| Relay.FallbackOnlyWhenNothingSuits | mesh_topology.py:1121-1219 | the whole-grid fall-back is used exactly when no grid cell satisfies the limits |
| Relay.BuildRelayStages | mesh_topology.py:116-242 | the loops over clients and steps build exactly `Build` |
| Relay.StagesAreExact | mesh_topology.py:116-242 | each placed client with a positive count gets exactly stages 1 to count, nobody else gets any, and the order of the hop counts does not matter |
| Relay.StagesAreSeparate | mesh_topology.py:116-242 | stages have cells distinct from each other and from every real node while the grid has capacity |
| Relay.ChainRunsClear | mesh_topology.py:116-242 | in a chain whose stages all satisfied their limits, entering segments are pairwise disjoint and cross no earlier node or stage, and the onward segment is disjoint from all of these but the one entering the last stage |
| Relay.ChainOfClient | mesh_topology.py:116-242 | every client's stages are on the grid, each where the search puts it given all real nodes and all earlier clients' stages, and form such a clear chain whenever every stage found a suitable cell |
| RelayAim.IdealIsOnTheWay | mesh_topology.py:174-199 | stage k of n wants each coordinate to be a nearest whole number, the even one of two, to the point k/(n+1) of the straight way from YOU to the client, which lies between the two ends |
| RelayAim.IdealsGoOneWay | mesh_topology.py:174-199 | later stages want cells no nearer to YOU along either axis |
| RelayAim.BuiltStageStandsNear | mesh_topology.py:116-242 | on the built board every stage is on such a cell when that satisfies the limits, and otherwise on a nearest cell that does |
| RelayTurns.TurnIsClearExactly | mesh_topology.py:1121-1219 | for any distinct pixels the segments P-C and C-D share no pixel if and only if the turn at C is none of three retraces: back along the row, back along the column, or up a column the way in has crossed |
| RelayTurns.WholeChainIsClearExactly | mesh_topology.py:116-242 | a chain that never falls back has all its segments, the onward one included, pairwise disjoint and clear of earlier nodes and stages if and only if its last turn is no retrace |
| RelayTurns.ClientChainIsClearExactly | mesh_topology.py:116-242 | the same for every client's stages on the built board |
| RelayTurns.LastTurnMayRetrace | mesh_topology.py:116-242 | it happens: on a grid of four rows and five columns, one pixel a cell, the stages really built for one client find suitable cells throughout and yet the onward segment runs over the one entering the last stage |
| RelayDrawn.ChainIsDrawnExactly | mesh_topology.py:1576-1703 | an unclipped chain that never fell back, with nobody placed later on its pixels, is drawn through its stages, each segment in the primary order, if and only if all its segments are clear; otherwise the direct line replaces it |
| RelayDrawn.BoardChainIsDrawnExactly | mesh_topology.py:116-242 | from placement to drawing: a client's stages on the built board, shown anywhere on the screen, are drawn through and reported connected if and only if the last turn is no retrace, given suitable cells and no clipped node or later stage on the chain's pixels |
| ProfileKeys.NormalizeIsIdempotent | chat_store.py:281-313 | a normalised node ID is `!` and eight lower-case hexadecimal digits, and normalising it again changes nothing |
| ProfileKeys.SplitInvertsCanonicalKey | chat_store.py:316-328 | splitting a profile key gives back the normalised node ID and short name it was built from |
| ProfileKeys.KeysIdentifyPairings | chat_store.py:235-278 | two pairings have the same key exactly when node ID and short name agree after normalisation |
| ChatRows.ClocksAgreeExactly | chat_store.py:99-109 | for a row as the store writes it, SQL's time and `order_key`'s time agree except when SQL picks 0.0 and a later candidate is not zero |
| ChatRows.ZeroTimeIsReadDifferently | chat_store.py:99-109 | a concrete row with a zero radio time that SQL and Python date differently |
| ChatRows.NewestEndsTimeline | chat_store.py:943-998 | the rows of a descending, limited select, read backwards, are the end of the sorted list of all matching rows |
| ChatPaging.SelectNewest | chat_store.py:943-998 | scanning and inserting with a cut-off yields the `count` newest matching rows, newest first |
| ChatPaging.LoadRecentPage | chat_store.py:943-998 | the newest page is the last `limit` rows of the sorted history of the channel or conversation (1122-1167 for direct messages); a non-positive limit is refused |
| ChatPaging.LoadOlderPage | chat_store.py:1041-1120 | the older page is the `limit` rows that precede the cursor row (1169-1243 for direct messages); an unknown cursor gives an empty page |
| ChatReading.ScrollingListsHistory | chat_store.py:1041-1120 | however the pages are sized, opening and scrolling back shows the end of the sorted filter, each row once and in order, and `has_older` is true exactly when rows are missing |
| ChatReading.HistoryGoesByDate | chat_store.py:943-998 | a conversation goes by the first of the sender's, the radio's, the local and the receipt time that is known, then by receipt, then by ID |
| ChatReading.OlderPageExactly | chat_store.py:1041-1120 | the older page of a row of the channel or conversation ends right before that row and holds as many messages as asked for, or all there are |
| ChatReading.OtherCursorShowsNothing | chat_store.py:1041-1120 | asked for the page before any other row, the store shows nothing |
| ChatReading.ReadAll | chat_store.py:943-1120 | scrolling to the top terminates with the whole history listed |
| ChatReading.OlderPageSeesOnlyOlderRows | chat_store.py:1041-1120 | an older page depends on the cursor row and the visible rows before it only |
| ChatReading.ArrivalsDoNotShiftOlderPages | chat_store.py:1041-1120 | a message that arrives during scrolling and is not earlier than the cursor changes no page still to come |
| ChatReading.ReadsDependOnOwnRows | chat_store.py:487-524 | pages read under one profile depend on that profile's rows alone; an older page does so under the safe-cursor condition |
| ChatReading.OlderPageIsOwnExactly | chat_store.py:1041-1120 | an older page is the same on every table with the same own rows if and only if the cursor or the limit is not positive, or the cursor is an own row, or the profile has no row to show |
| ChatReading.ForeignCursorIsRead | chat_store.py:1041-1120 | the cursor look-up asks no profile: two tables that agree on a profile's rows and differ in a foreign cursor row give that profile different pages |
| ChatReading.UnresolvedShowsNothing | chat_store.py:487-500 | bound to an unresolved profile, a conversation is empty |
| ChatOldest.LoadOldestIncoming | chat_store.py:1286-1340 | the chunked search returns the least unread row among those whose ID is a positive one of the list if and only if no chunk overtakes it, certainly when at most 500 IDs are positive or Python orders the matching rows as SQL does |
| ChatOldest.ValidIdsExact | chat_store.py:1286-1340 | the list cut into chunks holds exactly the positive IDs, in ascending order, each once when the IDs form a set |
| ChatOldest.SearchAnswers | chat_store.py:1286-1340 | the answer is an incoming row of that channel and profile with one of the positive IDs, and there is one whenever such a row exists |
| ChatOldest.SearchFindsOldestExactly | chat_store.py:1286-1340 | the answer is the oldest matching row if and only if no chunk's own oldest row comes, by `order_key`, before the oldest of all |
| ChatOldest.SearchFindsSoonestExactly | chat_store.py:1286-1340 | the answer is the first matching row by `order_key` if and only if that row is SQL's answer for its own chunk |
| ChatOldest.ChunkedSearchCanMiss | chat_store.py:1286-1340 | 501 unread IDs and rows the store can write, one with a zero radio time: the answer is the oldest row neither for SQL nor for Python |
| ChatProfiles.WrittenRowsAgree | chat_store.py:1286-1340 | in a table the store wrote, matching rows without a zero time are ordered alike, so that search is right for any number of IDs |
| ChatTable.AddIncomingSound | chat_store.py:612-674 | a stored packet keeps IDs increasing and the identity index unique and leaves older rows untouched |
| ChatTable.OutgoingDeliverySucceeds | chat_store.py:728-763 | recording the delivery of an outgoing row never collides in the index |
| ChatTable.RekeySound | chat_store.py:446-476 | a rename keeps IDs, index and profile records unique |
| ChatChanges.ConversationIsRemoved | chat_store.py:798-828 | deleting a conversation keeps, in the old order, exactly the rows that are not of that conversation under the bound profile, and exactly the attempts of messages not removed |
| ChatChanges.RemovedAreCounted | chat_store.py:798-828 | the count returned is the number of rows removed |
| ChatChanges.OnlyThatConversationEmpties | chat_store.py:798-828 | the conversation is empty afterwards, and every other conversation and every channel of every profile shows what it showed |
| ChatChanges.MessageIsRemoved | chat_store.py:782-796 | deleting a message keeps, in the old order, exactly the other rows and the attempts of other messages |
| ChatChanges.HistoryWithoutMessage | chat_store.py:782-796 | every conversation shows what it showed without that message |
| ChatChanges.DeliveryIsRecorded | chat_store.py:728-763 | the named row gets the state, and the packet ID when one is given; nothing else of it, and no other row, changes |
| ChatChanges.AttemptIsRecorded | chat_store.py:728-763 | the attempt named, when it is one of that message's, gets the outcome; no other attempt changes |
| ChatChanges.AttemptIsFollowed | chat_store.py:711-763 | an attempt begun and then answered is one more attempt under the next number, with its message, its times and its outcome; earlier attempts are as they were |
| ChatChanges.DeliveryMovesNothing | chat_store.py:728-763 | every conversation shows the same messages in the same order afterwards |
| ChatChanges.MessageIsRedated | chat_store.py:765-780 | the named row, when outgoing, gets the new time; nothing else of it, and no other row, changes |
| ChatChanges.RedatingKeepsConversations | chat_store.py:765-780 | a re-dated message stays in its conversations, and every conversation shows the same messages |
| ChatChanges.ProfileIsEnsured | chat_store.py:394-417 | a usable pairing has a record under its key afterwards: the old one when there is one, else a new one whose halves are those of the key |
| ChatChanges.RenameFailsExactly | chat_store.py:446-476 | a rename fails exactly when two rows would then have one identity, or both keys have a record |
| ChatChanges.RenameKeepsRecords | chat_store.py:446-476 | after a rename the profile's record is under the new key and no other record changes |
| ChatProfiles.DeliveredOnce | chat_store.py:612-674 | after any deliveries under a profile, each identified packet has exactly one row under it and rows stored before are unchanged |
| ChatProfiles.RefusalIsAnsweredExactly | chat_store.py:612-674 | a refused insert stores nothing and is recognised as a repeat if and only if some row has the packet's sender, ID, channel, conversation and profile; the answer is such a row |
| ChatProfiles.RepeatIsRecognised | chat_store.py:612-674 | under a resolved profile whose rows carry its node half the answer is the very row that holds the packet, except when one of the two spells no conversation as an empty ID: then the insert fails |
| ChatProfiles.UnresolvedRepeatFails | chat_store.py:612-674 | under an unresolved profile the re-select matches nothing, so an insert fails exactly when its identity is taken |
| ChatProfiles.DoSound | chat_store.py:612-828 | every statement, renames included, keeps IDs increasing, the index unique and the rows well formed |
| ChatProfiles.OtherProfilesReadTheSame | chat_store.py:612-828 | whatever is added, updated, re-dated, deleted or renamed elsewhere, no newest page of this profile changes, and no older page whose cursor is safe |
| ChatProfiles.RenameSucceeds | chat_store.py:446-476 | a rename to an unused key never collides |
| ChatProfiles.RenameMovesHistory | chat_store.py:446-476 | the new key shows exactly what the old one showed, the old key nothing, every other key what it did |
| ChatProfiles.RenamedPacketIsRecognised | chat_store.py:446-476 | a packet stored before a rename is still recognised afterwards if and only if both keys have the same node half |
| ChatProfiles.RepeatAfterRename | chat_store.py:446-476 | a radio that changes its short name recognises a repeat of a packet stored under the old key: the answer is the row that holds it |
| ChatStore.ChatStore.AddIncoming | chat_store.py:612-674 | the method's new state and result are those of the statement `AddIncoming` |
| ChatStore.ChatStore.AddOutgoing | chat_store.py:676-709 | appends the stamped outgoing row under the next ID |
| ChatStore.ChatStore.AddSendAttempt | chat_store.py:711-726 | records one attempt under the next attempt ID |
| ChatStore.ChatStore.UpdateDeliveryState | chat_store.py:728-763 | updates the row and its attempt, or changes nothing when the index refuses |
| ChatStore.ChatStore.UpdateMessageChronology | chat_store.py:765-780 | re-dates an outgoing row only |
| ChatStore.ChatStore.DeleteMessage | chat_store.py:782-796 | removes one message and its attempts |
| ChatStore.ChatStore.DeleteDmConversation | chat_store.py:798-828 | removes the bound profile's rows of one conversation and their attempts, and counts the rows |
| ChatStore.ChatStore.MigrateProfileAssociation | chat_store.py:446-476 | moves rows and record to the new key, or changes nothing when they would collide |
| ChatStore.ChatStore.EnsureProfile | chat_store.py:394-417 | records a usable pairing once and returns its key |
| ChatStore.ChatStore.LoadRecent | chat_store.py:943-998 | the store's newest page, read under the bound profile, is `Recent` of its rows |
| ChatStore.ChatStore.LoadOlder | chat_store.py:1041-1120 | the store's older page, read under the bound profile, is `Older` of its rows |
| Encounters.Book.Record | chat_store.py:837-900 | inserts or merges one sighting; a blank ID is refused |
| Encounters.Book.RecordAll | chat_store.py:837-900 | after any log of sightings each node's entry is the merge of its own sightings |
| Encounters.EntryHoldsExtremes | chat_store.py:837-900 | the five times are the extremes of all times seen, heard and exchanged |
| Encounters.TimesForgetOrderAndRepetition | chat_store.py:837-900 | two logs with the same sightings, in any order and number, give the same times |
| Encounters.EntryHoldsLastTold | chat_store.py:837-900 | names and hop count are the last ones told; a sighting without them erases nothing |
| Encounters.HeardWithinSeen | chat_store.py:837-900 | first seen <= first heard <= last heard <= last seen whenever heard, and never only one hearing time |
| Radio.StepSteady | radio_service.py:823-1006 | every step keeps: from the handling of ONLINE to the loss of the link the bound profile is that connection's own, none is bound between the handling of the loss and the next ONLINE, at most 256 packets are held, nothing is held while live or replayed while not, and a configuration snapshot belongs to the current generation |
| Radio.HeldIsReplayedOnceInOrder | radio_service.py:2664-2770 | over every interleaving, what was held is what was replayed, then what is being replayed, then what is still held, in arrival order, across failed attempts |
| Radio.ReplaysAreBound | radio_service.py:940-1006 | a replay happens only after ONLINE was handled, under that connection's own profile |
| Radio.RowsBelongToBoundProfile | receive_messages.py:97-186 | no step writes a row under a profile other than the one bound at that moment, or under none |
| RadioRuns.FiledPacketStaysStoredOnce | receive_messages.py:155-186 | a packet filed at any point of a run has exactly one row under its profile ever after |
| RadioRuns.FiledTextAppearsWhereItBelongs | receive_messages.py:155-186 | a filed text becomes one new row with its sender (`unknown` when blank), names, channel and times, dated by sender, radio or receipt in that order, and shows up in exactly its sender's conversation when direct, otherwise in exactly its channel under that channel's identity |
| RadioRuns.ChannelIsKnownByLastIdentity | receive_messages.py:121-128 | a channel is known by the last identity given for it that is not blank, and by none when there is none |
| RadioRuns.SentTextAppearsWhereItBelongs | chat_store.py:676-709 | a sent text becomes one new row and shows up in exactly its destination's conversation, or its channel |
| RadioRuns.ReplayFilesExactly | receive_messages.py:155-186 | a replayed text is filed exactly when its connection's identity resolves to a profile |
| RadioRuns.OnlineBindsThePairing | receive_messages.py:121-143 | handling ONLINE binds the connection's own pairing, leaves a record of it, takes its channels' identities and files nothing |
| RadioRuns.LiveArrivalIsFiledExactly | radio_service.py:2664-2722 | a text on the current interface is filed exactly when ONLINE has been handled with a resolved profile; otherwise nothing at all changes |
| RadioRuns.ArrivalBeforeBindingIsLost | radio_service.py:940-1006 | such a gap exists in every connection: after the interface is assigned and before ONLINE is handled a text is neither held nor filed |
| RadioRuns.HeldExactlyWhileOpening | radio_service.py:2664-2722 | a text from an unknown interface is held exactly while a connect is in progress with room left; failures, lost links and closes by another thread drop nothing held |
| RadioRuns.DrainedMeansAllReplayed | radio_service.py:2742-2770 | once the drain is done every packet held on the way has been replayed |
| RadioRuns.FailureEndsTheAttempt | radio_service.py:940-1006 | an attempt can fail from its beginning until it is ready, before and after the interface is assigned; it ends down, without interface or configuration, and keeps what was held |
| RadioRuns.RefreshOffersWhatIsConnected | radio_service.py:1188-1232 | a refreshed configuration is on offer exactly while there is an interface, under the present connection's number |
| RadioRuns.HeldTextIsStoredOnce | radio_service.py:2664-2770 | over every run the n-th replay is of the n-th packet held, and a text with a packet ID replayed by a connection with a resolved profile has exactly one copy under that profile ever after |
| RadioAttempts.OwnConnectionExactly | radio_service.py:2742-2770 | over every run, when a held packet's turn to be replayed comes, the connection replaying it is the one its own attempt became if and only if no attempt has failed since it was held |
| RadioAttempts.HeldTextChangesRadio | radio_service.py:2742-2770 | a run in which a text heard on the interface of a failed attempt is filed under the key, and with the channel keys, of the radio the next attempt finds |
| RadioService.RadioService.OnTextReceived | radio_service.py:2664-2722 | accepts, holds or drops one packet as `Arrival` says |
| RadioService.RadioService.Take | radio_service.py:823-1006 | each step of the connecting thread has the effect `Step` gives it |
| RadioService.RadioService.HandleOnline | radio_service.py:940-1006 | handling ONLINE has the effect `Step` gives it |
| RadioService.RadioService.HandleOffline | radio_service.py:823-1006 | so has handling ERROR or OFFLINE |
| RadioService.RadioService.DrainConnectArrivals | radio_service.py:2742-2770 | the drain is one swap and one replay per held packet, and leaves nothing held |
| RadioService.RadioService.Close | radio_service.py:2385-2421 | drops interface and snapshot; held packets stay |
| RadioService.MessageRecorder.Bind | receive_messages.py:121-143 | adopts the channel keys, and binds the store to the resolved key or to none |
| RadioService.MessageRecorder.Record | receive_messages.py:155-186 | files one message under the bound profile, or skips it |
| SendTracking.RunOrderly | radio_service.py:2018-2028 | over every run at most 200 sends are tracked, one per packet ID |
| SendTracking.OverflowDropsTheOldest | radio_service.py:2018-2028 | the 201st send replaces the oldest; a re-used packet ID keeps its place |
| SendTracking.NothingAfterTheVerdict | radio_service.py:2036-2070 | over every run a send reported HEARD or FAILED is never reported again |
| SendTracking.DirectHeardExactly | radio_service.py:2072-2134 | a direct message is reported HEARD if and only if a clean response to its request arrives on a live interface from its destination, which is not this radio |
| SendTracking.OtherVerdictsExactly | radio_service.py:2072-2134 | a tracked send is reported FAILED for exactly the named errors of its request, and SENT for exactly the clean responses that do not come from another node |
| SendTracking.OtherNodesChangeNothing | radio_service.py:2072-2134 | a clean response from any other remote node reports nothing and leaves tracking unchanged |
| SendDestinations.AddressIsRead | radio_service.py:240-258 | an exclamation mark and the eight hexadecimal digits of a node number, in either case, with blanks around them or not, are read as that number |
| SendDestinations.SendIsTracked | radio_service.py:1965-2034 | a watched send to such an address is tracked with exactly that node as its destination |
| SendDestinations.HeardFromDestinationExactly | radio_service.py:2072-2134 | over every run such a send is reported HEARD, while tracked, for a clean response to its request from that very node and for nothing else |
| SendDestinations.BroadcastHeardExactly | radio_service.py:2072-2134 | a send without a destination is reported HEARD for exactly the clean responses to its request from another node than this one |
| SendTracking.Watch.SendText | radio_service.py:1965-2034 | the tracking part of a send |
| SendTracking.Watch.OnRoutingResponse | radio_service.py:2036-2070 | reports and untracks as `Reported` and `Step` say |
| WorkingSet.NormalIdIsIdempotent | mesh_state.py:68-90 | a normalised MESH ID is unchanged by normalising it again |
| WorkingSetMembers.SpellingsAgreeExactly | mesh_state.py:68-93 | two spellings, decimal with or without leading zeros or `!` and eight hexadecimal digits of either case, blanks around them or not, get one ID exactly when they name the same node |
| WorkingSetMembers.BlankIsNobody | mesh_state.py:68-93 | nothing but blanks is nobody's ID |
| WorkingSetMembers.OtherIdsAreLowered | mesh_state.py:68-93 | any text that is not all digits is taken as it is, in lower case and without the blanks around it |
| WorkingSetMembers.SurvivesExactly | mesh_state.py:241-382 | an ID that is not YOU's is kept exactly when a node list entry, a message or a relay has it and the entry that stands for it or a message was within a day, or neither has a time and it is a relay |
| WorkingSetMembers.TierIsExact | mesh_state.py:134-180 | whoever was seen within two hours is active, whoever was not within a day is very old; without any time a relay is active and anybody else very old |
| WorkingSetMembers.RolesAreExact | mesh_state.py:321-366 | a survivor is a client exactly when a message has its ID and a relay exactly when a relay has; its times are the latest message's and those of the list entry that stands for it |
| WorkingSetProperties.BuildMeshWorkingSet | mesh_state.py:182-426 | the loops produce the working set of some ranking of the surviving candidates |
| WorkingSetProperties.RankingIsUnique | mesh_state.py:384-400 | there is only one such ranking |
| WorkingSetRanks.RanksFirstIsOutranks | mesh_state.py:384-400 | the ranking puts active nodes first, then favourites, then the more recent, then the smaller ID |
| WorkingSetRanks.PreferredIsShown | mesh_state.py:384-419 | when a survivor that is no relay is shown, so is every survivor preferred to it |
| WorkingSetRanks.ShownByPreference | mesh_state.py:384-419 | after YOU come as many remotes as the cap admits, in that order, and then the other relays, in that order |
| WorkingSetProperties.ShownExactly | mesh_state.py:182-426 | a candidate is shown exactly when the cap admits its rank or it is a surviving relay |
| WorkingSetProperties.LeftOutRanksBelow | mesh_state.py:400-419 | whoever is left out is no relay, the cap is full, and every admitted remote ranks before it |
| WorkingSetProperties.IdsAreUnique | mesh_state.py:182-426 | no ID appears twice on the board, YOU's included |
| WorkingSetProperties.OneYouOrNone | mesh_state.py:273-304 | a local node is on the board exactly when one node claims to be local, and then it leads; nobody shown, relays included, is VERY_OLD |
| WorkingSetProperties.OrderDoesNotMatter | mesh_state.py:182-426 | with distinct normalised IDs the board does not depend on the order in which nodes, messages, favourites or relays are reported |
| WorkingSetProperties.LatestIsMax | mesh_state.py:306-320 | a node's interaction time is its latest over all spellings of its ID |
| Grapheme.GraphemeClusters | grapheme_text.py:65-84 | the loop computes `Clusters` |
| Grapheme.ClustersPartition | grapheme_text.py:65-84 | clusters are non-empty and concatenate to the text |
| Grapheme.RecutGivesSameClusters | grapheme_text.py:65-84 | cutting between clusters and clustering the two halves again gives the same clusters |
| GraphemeBreaks.BreaksExactly | grapheme_text.py:40-84 | a cluster ends before a code point exactly when that is no joiner, variation selector, skin tone or combining mark, no joiner precedes it, and it is not the second half of a flag, counted in pairs from where the run of indicators starts |
| GraphemeBreaks.MarkerIsCut | grapheme_text.py:87-108 | a marker that does not fit shows its beginning, and for a negative width all but that many of its last code points |
| Grapheme.TruncateToCells | grapheme_text.py:87-108 | the loop computes `Truncated` |
| Grapheme.TruncatedFits | grapheme_text.py:87-108 | with a one-cell marker the result is never wider than asked, keeps a run of whole clusters, and one more would not have fitted |
| Grapheme.MergeRegionalIndicatorSpans | grapheme_text.py:111-144 | the loop computes `Merge` |
| Grapheme.MergeKeepsPartition | grapheme_text.py:111-144 | merging keeps a contiguous partition and the total width and leaves no two adjacent single indicators |
| GraphemeBreaks.MergedExactly | grapheme_text.py:111-144 | each merged span is a span left as it was or two halves of a flag that stand next to each other, paired from where their run begins, with the width of both |
| PassLayout.LayOutPasses | pass_layout.py:164-200 | the loops compute `Layout` |
| PassLayout.BoardIsWhole | pass_layout.py:164-212 | the rows in order are all names' cells, every row but the last is full, and on a board of several columns no row is declared wider than the viewport |
| PassLayout.CellsAreEven | pass_layout.py:215-245 | where padding spaces add up, every cell is exactly one column wide |
| PassLayout.NoColumnIsDropped | pass_layout.py:99-212 | when measured and declared width agree the column-dropping loop never fires |
| PassLayout.FewNamesAreCut | pass_layout.py:99-116 | below the cap at most a tenth of the names are wider than the column |
| PassLayout.ColumnIsNoWiderThanNeeded | pass_layout.py:99-116 | the column is 1 to 16 cells wide, and a narrower one would be too narrow for at least a tenth of the names |
| PassLayout.OneColumnIsReserved | pass_layout.py:119-161 | one column more than asked for would still fit at the narrowest gutter, two more would not |
| PassLayout.GutterTakesTheRest | pass_layout.py:119-161 | between several columns the gutter is the widest one from 4 to 8 cells at which a full row fits |

## Left out

- Bearings, ring angles, ring spread and the GPS projection: their results, a node's region and ideal cell, are inputs.
- Floating point: the stretch factor and the straight line of a relay chain are exact rationals, message times are reals.
- The eviction of a remembered slot when a node's hop ring changes, and the reset of a session when the whole population changes (app.py:9921-9955): the runs of `Stability` keep one population.
- Node IDs on the board are opaque ordered values; in the working set and in profile keys they are ASCII text, so Unicode digits, spaces and case folding are not modelled.
- The Unicode tables behind combining marks and the width of a text are parameters of `Grapheme` and `PassLayout`.
- SQLite itself: transactions are atomic steps, the schema, its migrations and locking are not modelled. When several rows answer a look-up without ORDER BY the model takes the first in table order.
- `latest_incoming_message_at`, `list_dm_conversations`, `sort_encounters` and the reconciliation of abandoned sends: easy members beside the ones above.
- Paging before a deleted row, which gives an empty page, is modelled as an unknown cursor.
- Threads are interleaved atomic steps, a close by another thread among them; the SDK's serial and TCP opening, its timeouts and pubsub wiring are environment steps, and the node database a packet is parsed against is left out: a packet is a text or unparseable.
- The local-node bookkeeping of `connect` and `close` (direct observations, link observations) and other message handlers than the recorder.
- Radio.StepSteady: a snapshot refreshed between the interface being assigned and the generation being counted up carries the previous number, as in the code; the invariant says it equals the current count.
- The SDK's own one-shot acknowledgement callback: `SendTracking` models the routing watch that runs beside it.
- Grapheme.TruncatedFits: asks for a one-cell marker, as all callers use; a wide marker can overflow a width smaller than itself.
- PassLayout.CellsAreEven: names that end in a zero-width joiner, where padding would join the last cluster, are excluded by the demand that spaces add up.
- `int(len(widths) * 0.9)` is modelled as nine tenths rounded down, which floating point gives for any list a board can hold.
- Distances, positions and names of nodes in the working set are carried along unseen.
- Widgets, popups, colours, settings, command-line probes and the other user-interface code.
