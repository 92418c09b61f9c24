# Verification of libIntegra

libIntegra is the engine behind a modular music environment. It keeps a tree of named nodes with
endpoints, an index from path strings and ids into that tree, connections between endpoints that are
stored as text, and a small set of commands (new, delete, rename, move, set) that clients, connections,
scripts and audio modules all use. This project models the engine's decision-making in Dafny and proves
what its operations keep true.

What is modelled, and where:

- **The tree and its index** (`Paths`, `Forest`, `StateTable`, `Relocation`, `Relinking`, `Growth`,
  `Server`). Nodes and endpoints are objects with cached paths, in a heap, as in the program. The
  methods that rename, move, insert and delete are proved to keep one invariant: every link, cached path
  and id is consistent, and the three tables are exactly path to node, id to node and path to endpoint.
- **Connections as text** (`Naming`, `Connections`, `Commands`). A connection names its ends by paths
  relative to the scope it hangs in. Such a text is read in two ways: the source of a control connection
  is compared with an endpoint's relative path, everything else is parsed and looked up. Rename and move
  rewrite the texts with prefix tests on characters. It is proved in either reading, for each text of each
  connection and each endpoint it reached, exactly when it reaches that endpoint afterwards.
- **Activation and constraints** (`Activation`, `Creation`, `Constraints`, `Runs`). A node that is not a
  container is active just when every container above it is on. Creating, deleting, renaming and toggling
  keep that, over whole runs; and over any runs every endpoint whose default can be set meets its constraint.
- **Set cascades** (`SetCascade`). A set command sets off others, along connections and by a node's own
  logic. What a cascade comes to is a recursive function that hands down the set of the endpoints being
  set; the commands, with the reentrance checker's stack and map, are proved to do just that. New endpoints
  hold zero or nothing, which their constraints may forbid; it is proved that no cascade ever breaks a
  constraint that held, and that setting the defaults of a new node leaves none broken.
- **Saving and loading** (`FileFormat`, `FileIO`, `Loading`, `Copying`). The file is a stream of object
  starts, attributes and object ends with their depths. The loader, which knows only depths and parent
  pointers, is proved to make a copy of each saved node, hung as the nodes were, and to collect for each
  exactly the values that were saved of its original.
- **Concurrent protocols** (`ThreadedQueue`, `ServerLock`), as state machines over single steps of any
  number of threads.
- **Smaller parts** (`EditDistance`, `MidiFilter`, `RingBuffer`, `PackedStrings`, `DspEngine`, `Player`,
  `ModuleManager`), with `Values`, `Words`, `Decimal` and `FreshNames` shared.

Where the program does less than it seems meant to do, the model does what the program does, and says so:

- The prefix tests of rename and move compare characters and do not look for a `.`. Renaming `Osc` also
  rewrites `Osc2.pitch`: `Naming.RenameSpoilsLongerName`.
- A path element with an illegal character is dropped when a path is parsed, so that an index lookup can
  find an endpoint by a text that does not spell its path: `Naming.DroppedElementLookup`. The rewriting
  misses such texts: `$.Osc.pitch` leads to `Osc.pitch`, is not rewritten when `Osc` is renamed, and leads
  there no more (`Naming.RenameMissesDroppedElement`, and `Naming.RenameMisses` for the whole family).
- `Naming.RenameKeepsReading`, `Naming.MoveKeepsReading` and `Naming.OwnKeptOnMove` give the exact
  conditions for both of these, for any text, and the contracts of the two commands state them for all
  connections of a tree.
- When two loaded modules share an origin, unloading the first forgets the origin although the second is
  still loaded: `ModuleManager.Registry.ForgetsOrigin`. `ModuleManager.UnloadedIsFiled` gives the exact
  condition for origins and for the names of core modules.
- When the only loaded module is in development and has no instance, unloading it takes the loop past the
  end of the emptied map: `ModuleManager.Registry.StraysWithNothingLeft`. It does in no other case.
- The decoder of packed strings stores a length of `unsigned long` in an `int`. The text `4294967285:` is
  read for ever: `PackedStrings.ReadForEver`. `PackedStrings.HaltsIff` says for any text whether reading
  ends, `PackedStrings.ProgressHalts` and `PackedStrings.FieldGoesOn` when it is sure to.
- On Apple's platform every queue opens the semaphore `/semaphore`, and a server has two queues. One can
  then take the signal of the other, whose content waits (`ThreadedQueue.SignalIsTaken`), or whose shutdown
  never ends (`ThreadedQueue.LastSignalIsTaken`). Signals arrive and shutdowns end, in all runs of any
  number of queues, exactly if no two share a semaphore: `ThreadedQueue.SoundIffPrivate`.
- A player that is restarted multiplies a difference of ticks by 1000 in an `int`. The jump is over exactly
  if the product fits (`Player.JumpIsOver`); if it does not the player stands still for ever
  (`Player.StandsStill`). `Player.LateLoopStandsStill` is a player that gets there by playing on.
- A player whose rate is zero, which its interface allows, divides by zero exactly if its last tick is not
  the one it was played from (`Player.WhenItDivides`): on its second turn if a loop takes that tick
  elsewhere, and never if not (`Player.RateZero`).
- A player's last tick is taken back into the loop, its clock is not. Once the rounds come to more than
  thirty seconds, playing on looks like a jump of the clock, and the player stands still for a turn:
  `Player.LongLoopLooksLikeAJump` is such a run, `Player.JumpsAfterRounds` the exact condition.
- What is pushed on a queue after its shutdown may be lost. Exactly what is pushed after the output thread
  has taken the content for the last time stays behind (`ThreadedQueue.EveryRun`); such a push may come
  too late (`ThreadedQueue.LatePushIsLost`) or in time (`ThreadedQueue.LatePushIsDelivered`).
- A ring buffer is taken to be allocated before it is read (the program tests the caller's buffer instead
  of its own, `libIntegra/src/ring_buffer.cpp:176`).

## Model

| member | source | states |
|---|---|---|
| Paths.NameCharsAre | libIntegra/src/string_helper.cpp:42-42 | The characters of a name are the ten digits, the underscore and the letters, small and capital. |
| Paths.ParseJoin | libIntegra/src/path.cpp:43-61 | The text of a path of valid names is parsed back to that path, unless the path is empty; the empty text is not a path of no elements. |
| Paths.JoinParse | libIntegra/src/path.cpp:43-61 | A text comes back from parsing and joining exactly when it has only legal characters and dots. |
| Paths.JoinInjective | libIntegra/src/path.cpp:158-180 | Distinct paths have distinct texts, so an index keyed by text confuses no two paths. |
| Paths.DotPrefix | libIntegra/src/logic.cpp:656-676 | A path's text followed by a dot begins another's exactly when the path is a proper prefix of the other. |
| Paths.RelativeLookup | libIntegra/src/server.cpp:185-198 | Looking up a path relative to a node finds an object exactly when its path is the two element lists, one after the other. |
| Paths.PathObject.constructor | libIntegra/src/path.cpp:43-61 | The parsing loop keeps the legal elements between dots, in order. |
| Paths.PathObject.Copy | libIntegra/src/path.cpp:151-155 | A copy has the same elements and owes nothing to the original. |
| Paths.PathObject.Append | libIntegra/src/path.cpp:137-148 | A legal element goes to the end; an illegal one is dropped. |
| Paths.PathObject.Pop | libIntegra/src/path.cpp:119-134 | Undoes the last append; on an empty path it changes nothing and gives the empty name. |
| Paths.PathObject.GetString | libIntegra/src/path.cpp:107-116 | The text is rebuilt, and is the join of the elements. |
| Paths.PathObject.RebuildString | libIntegra/src/path.cpp:158-180 | The rebuilding loop writes the elements with dots between them. |
| Paths.PathObject.RoundTrip | libIntegra/src/path.cpp:43-61 | Parsing what `get_string` gives makes an equal, separate path. |
| FreshNames.Fresh | libIntegra/src/rename_command.cpp:66-72 | The loop that appends underscores ends, and at the first name that is free. |
| FreshNames.UnderscoredMeans | libIntegra/src/rename_command.cpp:66-72 | What is tried is the wanted name with nothing but underscores behind it, one more each time. |
| FreshNames.FirstFreeIsUnique | libIntegra/src/new_command.cpp:72-81 | There is only one such name. |
| FreshNames.FreeNameIsKept | libIntegra/src/rename_command.cpp:66-72 | A wanted name is kept exactly when no sibling has it. |
| Forest.Node.constructor | libIntegra/src/node.cpp:76-97 | A new node has the path of its parent and its own name, and one endpoint with a value of the declared type for each definition. |
| Forest.NodeEndpoint.constructor | libIntegra/src/node_endpoint.cpp:70-90 | A new endpoint has its node's path and its own name, and holds 0, 0.0 or the empty text if it is stateful, and nothing else. |
| Forest.MayHangMeans | libIntegra/src/logic.cpp:345-366 | Control points hang exactly below envelopes, scenes exactly below players, all else exactly below containers or at the top. |
| Forest.PathUnique | libIntegra/src/state_table.cpp:40-86 | In a consistent tree no two nodes have the same cached path. |
| Forest.KeyUnique | libIntegra/src/state_table.cpp:40-86 | In a consistent tree no two nodes have the same path text. |
| Forest.EndpointKeyUnique | libIntegra/src/state_table.cpp:40-86 | In a consistent tree no two endpoints have the same path text. |
| StateTables.FiledOnce | libIntegra/src/state_table.cpp:40-86 | The tables of a set of nodes are determined by it. |
| StateTables.StateTable.Add | libIntegra/src/state_table.cpp:40-86 | Adding a subtree to the tables of nodes outside it files the whole subtree, and reaches no duplicate-key branch. |
| StateTables.StateTable.Remove | libIntegra/src/state_table.cpp:89-135 | Removing a subtree takes exactly its nodes and endpoints out of the tables, and reaches no missing-key branch. |
| Relocation.UpdateAllPaths | libIntegra/src/node.cpp:154-175 | Exactly the node and what is below it change their cached paths, each by having the old path of the node replaced by the new. |
| Relocation.UpdateEndpointPaths | libIntegra/src/node_endpoint.cpp:100-106 | Exactly the endpoints of the node get its path and their own names. |
| Relinking.RelinkedValid | libIntegra/src/node.cpp:100-113 | After one node has changed its name or parent, its sibling maps, and the paths below it, the tree is consistent again. |
| Relinking.RelinkedBelow | libIntegra/src/node.cpp:161-175 | The subtree of the changed node is the same set of nodes before and after. |
| Growth.AddedValid | libIntegra/src/new_command.cpp:90-101 | Linking in a node with a free name and a new id keeps the tree consistent. |
| Growth.RemovedValid | libIntegra/src/delete_command.cpp:67-85 | Taking out a node without children keeps the tree consistent. |
| Servers.Server.constructor | libIntegra/src/server.cpp:60-100 | A server starts with an empty tree that agrees with its empty tables. |
| Servers.Server.CreateInternalId | libIntegra/src/server.cpp:381-386 | The id given out is no live node's, and never is again. |
| Servers.Server.FindNode | libIntegra/src/server.cpp:207-220 | The lookup by text finds the live node with that path, and finds nothing just when there is none. |
| Servers.Server.FindNodeEndpoint | libIntegra/src/server.cpp:251-264 | The lookup of an endpoint, absolute or relative to a node, finds the live endpoint whose path has the composed text, and nothing just when there is none. |
| Servers.Server.RenameTo | libIntegra/src/rename_command.cpp:74-86 | Unfiling, renaming and filing again leaves tree and tables in agreement, moves the paths of the subtree and of nothing else, and traces no error. |
| Servers.Server.MoveTo | libIntegra/src/move_command.cpp:71-83 | The same for a node that is hung below another. |
| Servers.Server.Insert | libIntegra/src/new_command.cpp:90-101 | Adds one fresh node with its endpoints and links it with its parent; tree and tables agree. |
| Servers.Server.DeleteNode | libIntegra/src/delete_command.cpp:59-88 | Deletes the children, then the node: exactly the subtree goes; tree and tables agree. |
| Servers.Server.Delete | libIntegra/src/delete_command.cpp:51-88 | By path: `PATH_ERROR` and no change without such a node, else exactly the nodes at and below the path go. The recursion through further delete commands ends. |
| Naming.NamesBelow | libIntegra/src/logic.cpp:460-505 | A text in a scope names a path exactly when the scope encloses the path and the text spells the rest. |
| Naming.CanonicalLookup | libIntegra/src/server.cpp:251-264 | Looking up what is parsed of a text is looking up the text itself, behind that of its scope, exactly when it holds only legal characters and dots. |
| Naming.SpelledLeads | libIntegra/src/logic.cpp:488-505 | A text spells a path exactly when it leads there by parsing and lookup and the parser drops nothing of it. |
| Naming.LeadsBelow | libIntegra/src/server.cpp:251-264 | A text in a scope leads to a path exactly when the scope encloses the path and the parser makes the rest of the text. |
| Naming.DroppedElementLookup | libIntegra/src/server.cpp:251-264 | With an illegal element in front, lookup still finds the endpoint that the comparison of texts does not. |
| Naming.RenameKeepsMeaning | libIntegra/src/logic.cpp:656-709 | A text that spelled a path spells it, as moved by the rename, exactly unless the visited scope encloses the renamed node and its relative path ends inside an element of the text. |
| Naming.RenameInto | libIntegra/src/logic.cpp:656-676 | Every text that spelled something below the renamed node spells the same afterwards, without any such hypothesis. |
| Naming.RenamePast | libIntegra/src/logic.cpp:656-676 | A text that spelled something else still does exactly unless the renamed path ends inside one of its elements. |
| Naming.RenameLookedUp | libIntegra/src/logic.cpp:656-676 | For any text that led somewhere by lookup, at a scope around the renamed node: if it led below the node, it leads to the same, as moved, exactly when its own first elements, dropped ones included, are the renamed path; if elsewhere, exactly unless the rewriting replaces characters of an element that the parser keeps. |
| Naming.RenameKeepsReading | libIntegra/src/logic.cpp:656-709 | Both of these in one, for either reading, any text and any scope. |
| Naming.LeftOnRename | libIntegra/src/logic.cpp:675-675 | A text that stays because the rewritten one is refused keeps its meaning exactly if that does not move. |
| Naming.RenameMisses | libIntegra/src/logic.cpp:662-669 | The family that is missed: what leads below the renamed node without starting with its characters stays as it is and leads there no more. |
| Naming.RenameMissesDroppedElement | libIntegra/src/logic.cpp:662-669 | One of them: `$.Osc.pitch` when `Osc` becomes `Synth`. |
| Naming.RenameSpoilsLongerName | libIntegra/src/logic.cpp:656-676 | The failing input: `Osc2.pitch` when `Osc` becomes `Synth`. |
| Naming.MoveKeepsMeaning | libIntegra/src/logic.cpp:712-794 | A text that spelled a path spells it, as moved, exactly when the scope moves too or encloses the new place; a text past the moved node exactly unless its absolute text begins with the moved node's. |
| Naming.MoveOutOfReach | libIntegra/src/logic.cpp:712-794 | Where that fails for a moved path, no text in that scope could spell it. |
| Naming.MoveLookedUp | libIntegra/src/logic.cpp:745-794 | For any text that led somewhere by lookup, at a scope around the new place: it leads to the same, as moved, exactly when its absolute text begins with the characters of the old place just if it led below it. |
| Naming.MoveKeepsReading | libIntegra/src/logic.cpp:714-794 | What a move does to other connections, in either reading, for any text and any scope. |
| Naming.OwnKeptOnMove | libIntegra/src/logic.cpp:714-794 | For the ends of the connection that moves, whose scope changes: kept exactly if the text leads below that node itself and is not rewritten from the new place. |
| Naming.LeftOnMove | libIntegra/src/logic.cpp:793-793 | A text that stays because the rewritten one is refused keeps its meaning exactly if that does not move. |
| Naming.OwnLeftOnMove | libIntegra/src/logic.cpp:793-793 | For the moved connection itself such a text keeps exactly what leads below that node. |
| Connections.UpdateConnectionPathOnRename | libIntegra/src/logic.cpp:656-676 | Where the text begins with the old name's characters and goes on, and the new name with what is behind fits the constraint, the endpoint gets just that; else its text stays. |
| Connections.UpdateConnectionsOnRename | libIntegra/src/logic.cpp:679-709 | Exactly the source and target texts of the connections at every scope around the node are rewritten, each once, with the paths as seen from its scope, as far as their constraints allow. |
| Connections.UpdateConnectionPathOnMove | libIntegra/src/logic.cpp:745-794 | Where the absolute text begins with the old place's characters, the scope encloses the new place, and the new place's relative path with what is behind fits the constraint, the endpoint gets just that; else its text stays. |
| Connections.TextsFit | libIntegra/src/interface_definition.cpp:411-421 | A set command puts a text into an endpoint of texts exactly if its length is within the bounds, or it is listed. |
| Connections.UpdateConnectionsOnMove | libIntegra/src/logic.cpp:714-741 | Exactly the texts of the connections at every scope around the new place are rewritten, each once, as far as their constraints allow. |
| Connections.SiblingsShareScope | libIntegra/src/server.cpp:223-248 | The sibling map of a node holds exactly the nodes of the same scope, under their names. |
| Connections.EndsAboveSplit | libIntegra/src/logic.cpp:679-709 | The texts at the scopes around a node are those among its siblings and those around its parent, and the two share none. |
| Commands.Resolve | libIntegra/src/logic.cpp:510-510 | What the program finds for a target text is exactly the live endpoint that the text reaches by parsing and lookup, if there is one. |
| Commands.RenameCommand.Execute | libIntegra/src/rename_command.cpp:51-89 | Error cases without any change; else the first free name, the new sibling maps, moved paths and rewritten texts, tree and tables in agreement; and in either reading, each end of each connection whose constraint, by length or list, lets the rewritten text be reaches the endpoint it reached exactly under the condition of `KeptOnRename`, and any other exactly if that endpoint does not move or the scope lies elsewhere. |
| Commands.MoveCommand.Execute | libIntegra/src/move_command.cpp:53-88 | The same for a move whose demands are met, with `KeptOnMove`, the ends of the moved connection itself included. |
| Commands.AllReachedAfterRename | libIntegra/src/logic.cpp:244-249 | For all connections and endpoints at once, both readings, and for objects: what was reached is reached exactly under that condition, with the bounds and lists of constraints written out. |
| Commands.AllReachedAfterMove | libIntegra/src/logic.cpp:252-257 | The same for a move. |
| Commands.HandleRename | libIntegra/src/logic.cpp:244-249 | Rewrites from the renamed node upwards and keeps the server valid. |
| Commands.HandleMove | libIntegra/src/logic.cpp:252-257 | Rewrites from the moved node upwards and keeps the server valid. |
| Activation.AreAllAncestorsActive | libIntegra/src/logic.cpp:389-404 | The walk up the parents says whether every ancestor that has a switch is on. |
| Activation.AllOnAboveMeans | libIntegra/src/logic.cpp:389-404 | That is so exactly if no node above has a switch that is at zero. |
| Activation.ActivateTree | libIntegra/src/container_logic.cpp:98-142 | Exactly the switches below the node that are not containers' are set, to on just when the argument and all containers between are; the list gets exactly the nodes that were turned on. |
| Activation.ActivateChildren | libIntegra/src/container_logic.cpp:60-68 | The same from a container's own handler, which looks above and at itself. |
| Activation.LitMeansAllOn | libIntegra/src/logic.cpp:389-404 | Where the series property holds above, all ancestors are on exactly when all container ancestors are. |
| Activation.ToggleKeepsSeries | libIntegra/src/container_logic.cpp:60-142 | Setting a container's switch and then walking its subtree restores the series property everywhere. |
| Activation.LeafKeepsSeries | libIntegra/src/logic.cpp:369-386 | A new node that is on just when all above are keeps the series property. |
| Activation.DeletionKeepsSeries | libIntegra/src/delete_command.cpp:59-85 | Deleting a subtree keeps the series property. |
| Activation.RenameKeepsOrder | libIntegra/src/rename_command.cpp:74-86 | A rename to a free name changes nothing about which path lies above which. |
| Activation.RenameKeepsSeries | libIntegra/src/rename_command.cpp:74-86 | So it keeps the series property. |
| Creation.SetDefault | libIntegra/src/logic.cpp:369-386 | A default that the endpoint's constraint refuses leaves zero or nothing; setting that of a switch below something that is off ends with the switch off; any other default is stored. |
| Creation.InitialValueMeans | libIntegra/src/logic.cpp:369-386 | What a new endpoint starts with, written out: zero or nothing if bounds or list refuse the default, off for the switch of what is no container below something off, and else the default. |
| Creation.SetDefaults | libIntegra/src/new_command.cpp:119-132 | Each stateful endpoint of the new node ends with its initial value, or with zero or nothing where its constraint refuses that; no other endpoint changes. |
| Creation.NewCommand.MakeNodeName | libIntegra/src/new_command.cpp:156-162 | An empty name is replaced by the interface's name and the next id; another is kept. |
| Creation.NewCommand.Execute | libIntegra/src/new_command.cpp:56-153 | Which error comes when, with tree, tables and values unchanged; else one fresh node with the first free name, its initial values, and tree and tables in agreement; and the series property is kept when switches default to on. |
| Creation.LeafInSeries | libIntegra/src/new_command.cpp:119-135 | A tree in series stays so with the new leaf. |
| Runs.ToggleCommand.Execute | libIntegra/src/container_logic.cpp:60-101 | A container's switch is set to the value if its constraint allows that, and below it exactly the switches that follow from it; the series property is kept. A refused value changes nothing. |
| Runs.ReactivateOne | libIntegra/src/container_logic.cpp:76-92 | Setting the switch of one node to what it holds changes no value, whether its constraint allows it or not. |
| Runs.Reactivate | libIntegra/src/container_logic.cpp:76-92 | Looking up the nodes that were turned on finds them all, and setting each switch again changes no value. |
| Runs.MayMove | libIntegra/src/move_command.cpp:53-71 | The demands of a move can be told in advance: exactly no name taken at the new place, not into itself, and a parent of the right kind. |
| Constraints.SwitchAllows | libIntegra/src/logic.cpp:369-386 | Every switch may be set to off and on. |
| Constraints.MetAfterRewriting | libIntegra/src/logic.cpp:656-794 | Rewriting texts leaves every endpoint whose default can be set within its constraint, if it was. |
| Constraints.MetAfterActivating | libIntegra/src/container_logic.cpp:98-142 | So does switching a subtree. |
| Constraints.MetWithNew | libIntegra/src/new_command.cpp:119-132 | So does creating a node. |
| Runs.Serve | libIntegra/src/server.cpp:389-404 | Any command keeps tree and tables in agreement, traces no error, keeps every node below a node of the right kind and every endpoint whose default can be set within its constraint, and keeps the series property unless it is a move, or makes a node whose switch defaults to off. |
| Runs.Run | libIntegra/src/server.cpp:389-404 | After any sequence of new, delete, rename, move and toggle commands, tree and tables agree, no duplicate or missing key has been traced, every node hangs below a node of the right kind, and every stateful endpoint whose default can be set meets its constraint; without moves, and with switches that default to on, the series property holds. |
| Values.Converted | libIntegra/src/value.cpp:190-211 | Conversion gives a value of the target type and changes nothing that has that type already. |
| Values.ConversionMeans | libIntegra/src/value.cpp:190-211 | An integer becomes the same float; a float the integer less than one away on the side of zero; texts are read and written by the given formats; and what has the type already stays. |
| Values.SatisfiedMeans | libIntegra/src/interface_definition.cpp:406-465 | A value meets a range exactly if it is not below the minimum and not above the maximum, texts by their lengths, and a list exactly if it is in it. |
| Values.TruncatedIsNear | libIntegra/src/value.cpp:297-317 | A float becomes the integer next to it on the side of zero; integers survive the way there and back. |
| SetCascade.TestConstraint | libIntegra/src/interface_definition.cpp:392-465 | Texts are tested by their length against the bounds, numbers by their values, floats for integer endpoints after truncation toward zero, and listed states by being in the list. |
| SetCascade.ReentranceChecker.Push | libIntegra/src/reentrance_checker.cpp:43-61 | A reentry is reported exactly for a guarded source and an endpoint that is being set from one; else stack and guarded entries grow by the endpoint. |
| SetCascade.ReentranceChecker.Pop | libIntegra/src/reentrance_checker.cpp:64-74 | Removing the endpoint's map entry removes exactly the guarded entry of the top, although the endpoint may be on the stack twice. |
| SetCascade.ReentranceChecker.DepthBound | libIntegra/src/reentrance_checker.cpp:43-74 | The stack is never deeper than the number of endpoints and one. |
| SetCascade.Net.AcceptsMeans | libIntegra/src/set_command.cpp:88-139 | A stream takes nothing, a bang nothing else, a stateful endpoint numbers for numbers and texts for texts; a set from the module host is ignored exactly when the node's switch is at zero. |
| SetCascade.Net.VerdictMeans | libIntegra/src/set_command.cpp:76-157 | Which error comes when, in the order of the tests, with the constraint tried on what arrives and reentry refused to system, connections and scripts alone. |
| SetCascade.Net.BreakingMeans | libIntegra/src/set_command.cpp:141-168 | What is stored is what arrives of the value at the endpoint's type. |
| SetCascade.Net.SetTo | libIntegra/src/set_command.cpp:76-202 | What a set command comes to is well defined (every cascade ends). From any values of the right types: no endpoint breaks its constraint afterwards that did not before, and the one that was set does not; the notifications replayed give the values; what is set inside comes from guarded sources and is not being set already; the first notification is the command's own; a refused command changes nothing. |
| SetCascade.Net.Performed | libIntegra/src/set_command.cpp:158-199 | The endpoint is heard first, with the stored value; everything after accounts for the rest and never sets an endpoint that is being set. |
| SetCascade.Net.Prepared | libIntegra/src/logic.cpp:209-229 | Any prefix of what every node's logic does before connections are looked at breaks no constraint that held, and is accounted for. |
| SetCascade.Net.Reacted | libIntegra/src/logic.cpp:205-241 | So do the connections after it, and any prefix of the steps of the node's own logic. |
| SetCascade.Net.Sent | libIntegra/src/logic.cpp:460-564 | So does any prefix of the connections at the scopes around the endpoint, the outermost scope first, by way of the node's ancestors. |
| SetCascade.Net.CarriedIsAccepted | libIntegra/src/logic.cpp:516-561 | A value that goes along a connection can be refused only for the destination's constraint or a reentry, and what a bang sends only if the destination breaks its constraint anyway. |
| SetCascade.Net.DestinationMeans | libIntegra/src/logic.cpp:481-518 | A connection leads from one endpoint to another exactly if its switch, if any, is not at zero, its source text is the joined relative path, the endpoint may be a source, and the parsed target text is found, as a control endpoint that may be a target. |
| SetCascade.Net.CarriedMeans | libIntegra/src/logic.cpp:520-548 | What goes along it: the source's own value, or the number or text that becomes of it at the destination's type; from a bang what the destination holds; to a bang nothing. |
| SetCascade.Net.ConnectionFires | libIntegra/src/logic.cpp:460-564 | No connection is passed over, at any scope: one that joins the endpoint to another that is not being set, and brings a value that bounds or list let be, sets that to just this value, and is heard right after what the connections before it did. |
| SetCascade.Net.ConnectionIsHeard | libIntegra/src/set_command.cpp:151-202 | Over a whole cascade: when a connection gets its turn, and as things stand then joins the set endpoint to another and brings it a value, the next thing heard is that this was set to just that value. Sets from initialization and load alone look at no connections. |
| SetCascade.Net.NothingFires | libIntegra/src/logic.cpp:460-564 | And if it joins it to none, nothing is heard between its turn and the next. |
| SetCascade.Net.TurnsInOrder | libIntegra/src/logic.cpp:460-505 | Connections at outer scopes have their turns before those at inner ones, and at a scope in order. |
| SetCascade.Net.BaseStepIsHeard | libIntegra/src/logic.cpp:209-229 | Each step that any node's logic takes first is taken at its turn, as things stand then, and what it issues is heard next exactly if it goes. |
| SetCascade.Net.StepIsHeard | libIntegra/src/logic.cpp:205-241 | The same for each step of the node's own logic. |
| SetCascade.Net.ConnectionsFirst | libIntegra/src/logic.cpp:205-241 | Connections have their turns after the former and before the latter. |
| SetCascade.Net.DefaultGoes | libIntegra/src/new_command.cpp:119-132 | Setting an endpoint to its default goes exactly if the default meets the constraint, and then the endpoint and all others that did before meet theirs. |
| SetCascade.Net.CarriedOver | libIntegra/src/node_endpoint.cpp:70-90 | When endpoints come and go, only new ones can break constraints that held. |
| SetCascade.Net.CarryMeans | libIntegra/src/node_endpoint.cpp:70-90 | What was there keeps its value; what is new holds 0, 0.0 or the empty text. |
| SetCascade.UnheardIsKept | libIntegra/src/set_command.cpp:170-186 | An endpoint that no notification told of holds what it held. |
| SetCascade.Engine.Check | libIntegra/src/set_command.cpp:76-149 | The tests come to the verdict, in the program's order, and touch nothing. |
| SetCascade.Engine.Set | libIntegra/src/set_command.cpp:76-202 | The command does just what `SetTo` says, from the guarded entries of the map; stack and guarded entries are as before. |
| SetCascade.Engine.Enter | libIntegra/src/set_command.cpp:151-202 | Push, perform, pop: the same for a command that passed the tests. |
| SetCascade.Engine.Perform | libIntegra/src/set_command.cpp:158-199 | Stores, tells the sink and lets the logic react, as `Performed` says. |
| SetCascade.Engine.Prepare | libIntegra/src/logic.cpp:209-229 | The steps before connections, as `Prepared` says. |
| SetCascade.Engine.HandleBase | libIntegra/src/logic.cpp:205-241 | Those steps, and then connections unless the source is initialization or load. |
| SetCascade.Engine.HandleSet | libIntegra/src/logic.cpp:205-241 | What every node's logic does, then the steps of its own, as `Reacted` says. |
| SetCascade.Engine.HandleConnections | libIntegra/src/logic.cpp:460-564 | The recursion over the ancestors and the loop over siblings, as `Sent` says. |
| SetCascade.Engine.Rewire | libIntegra/src/node_endpoint.cpp:70-90 | The endpoints of a new node hold zero or nothing; only they can break constraints that held. |
| SetCascade.Engine.SetDefaults | libIntegra/src/new_command.cpp:119-132 | Setting defaults one after the other, whatever each sets off, succeeds for all exactly if all meet their constraints, and leaves each that does with a value that does. |
| SetCascade.Engine.Create | libIntegra/src/new_command.cpp:90-132 | After a node has been created, what breaks its constraint did before or is a new endpoint whose own default does: if all defaults fit, every stateful endpoint meets its constraint again. |
| SetCascade.Perform | libIntegra/src/server.cpp:389-404 | Any set command from outside and any change of the tree leaves only endpoints outside their constraints whose own defaults break them. |
| SetCascade.Run | libIntegra/src/server.cpp:389-404 | So after any sequence of these; if all defaults fit, every stateful endpoint meets its constraint after any run. |
| FileFormat.StepsPrint | libIntegra/src/file_io.cpp:405-539 | Wherever the loader stands below the right parent, reading a printed tree adds exactly its nodes in order and its values, and leaves the loader on the tree's top. |
| FileFormat.LoadPrinted | libIntegra/src/file_io.cpp:405-539 | From the start, the loader makes of a printed tree exactly its records and values. |
| FileFormat.FlattenInjective | libIntegra/src/file_io.cpp:405-539 | Records with parents determine the tree: two trees with the same records are the same tree. |
| FileFormat.ParentsInside | libIntegra/src/file_io.cpp:427-446 | Every record but the first hangs below an earlier one. |
| FileIO.SaveAttributes | libIntegra/src/file_io.cpp:888-923 | Exactly the endpoints that hold a value and are saved are written, each once, with name, type and text. |
| FileIO.SaveNodeTree | libIntegra/src/file_io.cpp:865-934 | The writer writes the printed form of a tree that represents the node: same interface, name, attributes and children, whatever the order of the maps. |
| Loading.StepTo | libIntegra/src/file_io.cpp:427-446 | From depths and parent pointers alone the loader finds the node and parent that the nesting means. |
| Loading.Collect | libIntegra/src/file_io.cpp:485-536 | A value is kept exactly if the node's interface has a saved stateful endpoint of that name and type. |
| FileFormat.ShouldLoadMeans | libIntegra/src/file_io.cpp:496-530 | A value is wanted exactly if the interface has a saved stateful endpoint of its name and type. |
| Loading.CreateNode | libIntegra/src/file_io.cpp:457-470 | The new command creates the node below the parent exactly when it may hang there. |
| Loading.LoadNodes | libIntegra/src/file_io.cpp:381-541 | Loading a printed tree succeeds exactly when every node may hang where the file has it; then the nodes created mirror the tree node by node with interfaces, names and parents (the top one with its first free name), nothing else is created, no value of another node changes, and for each node exactly the saved values are collected. |
| Loading.CollectedIsSaved | libIntegra/src/interface_definition.cpp:273-289 | Of a saved node of known interface, exactly the endpoints that were saved are collected. |
| Loading.RepresentsGood | libIntegra/src/file_io.cpp:865-934 | What is saved of a valid server can be loaded: names are legal and siblings differ. |
| Loading.GentlePrint | libIntegra/src/file_io.cpp:425-483 | In a printed tree depths change by one at a time, so that the loader never steps above the top. |
| Loading.ValueComesBack | libIntegra/src/file_io.cpp:496-504 | A value read back is the value written, as far as the number formats give numbers back. |
| Copying.Originals | libIntegra/src/file_io.cpp:865-934 | A saved tree lists exactly the nodes at and below the saved one, each once, with its interface, name, parent and saved values. |
| Copying.NestedAsIs | libIntegra/src/file_io.cpp:457-470 | The file's objects may hang where it has them exactly if the saved nodes may hang below their parents, and the top one below the target. |
| Copying.Copy | libIntegra/src/file_io.cpp:381-541 | The whole round trip, from one server's node to any server, for any trees and map orders: it succeeds exactly if each node may hang again; then there is one copy of each node at or below the saved one, with its interface and name, hung below the copy of its parent, and for each exactly the saved values of its original are collected, as their texts give them back; the top one has the first free name, and nothing else changes. |
| EditDistance.DistanceIsLeastCost | libIntegra/src/value.cpp:467-489 | The recursion's result is the least cost of any script of insertions, deletions and substitutions. |
| EditDistance.NoScriptIsCheaper | libIntegra/src/value.cpp:467-489 | No script that turns one string into the other costs less. |
| EditDistance.Best | libIntegra/src/value.cpp:467-489 | Some script costs just that. |
| EditDistance.ZeroIffEqual | libIntegra/src/value.cpp:467-489 | The distance is zero exactly for equal strings. |
| EditDistance.Symmetric | libIntegra/src/value.cpp:467-489 | The distance is the same both ways. |
| EditDistance.Triangle | libIntegra/src/value.cpp:467-489 | Going by way of a third string is never shorter. |
| EditDistance.Bounds | libIntegra/src/value.cpp:467-489 | The distance lies between the difference of the lengths and the longer length. |
| EditDistance.ValueDistanceZero | libIntegra/src/value.cpp:222-232 | Between values of one type the distance is zero exactly for equal ones, never negative, and symmetric. |
| EditDistance.NearestAllowedState | libIntegra/src/logic.cpp:567-591 | The search finds an allowed state of the value's type, the value itself if it is allowed, and nothing just when no state has the type; no number of them is nearer by plain difference, and no text by edit distance. |
| ThreadedQueue.InvKept | libIntegra/src/threaded_queue_implementation.h:70-165 | Each step of each thread of a queue keeps order, exclusion and the stages of the shutdown; and, if its semaphore is its own, that signals are under way for what waits. |
| ThreadedQueue.StepKept | libIntegra/src/threaded_queue_implementation.h:127-165 | So does each step of any of several queues, for all of them; what concerns signals if no two share a semaphore. |
| ThreadedQueue.EveryRun | libIntegra/src/threaded_queue_implementation.h:70-165 | In every interleaving of any number of queues, however they share semaphores: what was delivered, is in flight and is queued adds up to what was pushed, in lock order; the queue holds exactly what was pushed since its content was last taken; so when the thread exits everything before that has been delivered, the queue is empty exactly if nothing came after it, and it is when no push met the shutdown. |
| ThreadedQueue.AllIsPushed | libIntegra/src/threaded_queue_implementation.h:101-124 | What counts as pushed there is the items of all pushes that were begun and appended, each push whole, in the order of appending. |
| ThreadedQueue.ShutdownMoves | libIntegra/src/threaded_queue_implementation.h:70-165 | If no two queues share a semaphore, then in every run content that waits has a signal under way, and after a shutdown's signal some step that leads towards the join is always possible. |
| ThreadedQueue.SignalIsTaken | libIntegra/src/threaded_queue_implementation.h:45-46 | Where two share one, a run in which the second takes the signal of a push on the first, which is left with its content, no signal, and a thread that waits. |
| ThreadedQueue.LastSignalIsTaken | libIntegra/src/threaded_queue_implementation.h:45-46 | And a run in which it takes the signal of the shutdown: all threads wait, and the first is not joined. |
| ThreadedQueue.SoundIffPrivate | libIntegra/src/threaded_queue_implementation.h:45-55 | So signals arrive in every run, and shutdowns go on in every run, exactly for the assignments of semaphores in which no two queues share one. |
| ThreadedQueue.LatePushIsLost | libIntegra/src/threaded_queue_implementation.h:101-124 | A run in which a push after the shutdown stays in the queue. |
| ThreadedQueue.LatePushIsDelivered | libIntegra/src/threaded_queue_implementation.h:101-124 | A run in which a push after the shutdown is delivered. |
| ServerLock.InvKept | libIntegra/src/server.cpp:153-182 | Each step of each thread keeps the two mutexes and the recorded owner consistent. |
| ServerLock.EveryRun | libIntegra/src/server.cpp:153-182 | In every interleaving at most one thread has the lock, none has it while nodes are deleted, and the deadlock alarm never sounds. |
| ServerLock.RefusedOrNot | libIntegra/src/server.cpp:162-175 | In every run a thread that has made itself the owner is refused by its next step exactly if the destructor has taken the shutdown mutex. |
| ServerLock.Granting | libIntegra/src/server.cpp:162-175 | If not, it has the lock two steps of its own later, whatever other threads do in between. |
| ServerLock.HolderGoesOn | libIntegra/src/server.cpp:153-182 | In every run, whoever holds the server's mutex can take a step, so that only that mutex is ever waited for. |
| ServerLock.AnyoneCanLock | libIntegra/src/server.cpp:153-182 | In every run, when nobody has the mutex and nodes are not being deleted, any idle thread can lock by steps of its own, and unlock by two more, after which all is as before. |
| ServerLock.AnyoneIsGranted | libIntegra/src/server.cpp:153-182 | So from a new server any thread gets the lock. |
| ServerLock.NoLockAfterShutdown | libIntegra/src/server.cpp:103-118 | Once the destructor has taken the shutdown mutex, no other thread is granted the lock, ever. |
| ServerLock.ShutdownIsFree | libIntegra/src/server.cpp:103-110 | The destructor, once granted the lock, never waits for the shutdown mutex. |
| MidiFilter.KeysMean | libIntegra/src/midi_input_filterer.cpp:117-172 | In terms of bits: legal messages are note off, note on, program change, which nothing replaces, and poly pressure, control change, channel pressure and pitch bend, which replace each other exactly within a kind and channel, and for the first two a number. |
| MidiFilter.Filterer.Reset | libIntegra/src/midi_input_filterer.cpp:103-114 | After a reset nothing counts as replaced. |
| MidiFilter.Filterer.ShouldInclude | libIntegra/src/midi_input_filterer.cpp:117-191 | The four flag arrays say, for a message, whether it is legal and not replaced by a later one, and record it. |
| MidiFilter.FilterBuffer | libIntegra/src/midi_input_filterer.cpp:89-98 | The backward loop, in place, leaves a buffer whose messages that are not zeroed are the filtered ones. |
| MidiFilter.FilterInput | libIntegra/src/midi_input_filterer.cpp:76-100 | Each device's buffer is filtered for itself. |
| MidiFilter.FilterIsSubsequence | libIntegra/src/midi_input_filterer.cpp:76-191 | What is left is a subsequence of what came. |
| MidiFilter.EventsSurvive | libIntegra/src/midi_input_filterer.cpp:168-172 | All messages of status 8, 9 and 12 with legal data bytes survive, in order. |
| MidiFilter.SameControllers | libIntegra/src/midi_input_filterer.cpp:150-190 | Replaying what is left gives each controller the state that replaying everything gives. |
| MidiFilter.LastIsKept | libIntegra/src/midi_input_filterer.cpp:150-190 | Of all messages of one status among 10, 11, 13 and 14, one channel, and for 10 and 11 one number, the last is the same before and after. |
| MidiFilter.OneOfEach | libIntegra/src/midi_input_filterer.cpp:117-191 | And after filtering it is the only one; nothing illegal is left. |
| MidiFilter.BatchesFirst | libIntegra/src/midi_input_dispatcher.cpp:137-163 | Filtering batches and then their concatenation is filtering everything at once: the two stages agree. |
| MidiFilter.FilterTwice | libIntegra/src/midi_input_dispatcher.cpp:137-163 | Filtering twice is filtering once with both sets of replaced controllers. |
| MidiFilter.ProjectFiltered | libIntegra/src/midi_input_dispatcher.cpp:137-163 | With many devices each one's messages are filtered as if alone. |
| MidiFilter.StagesAgree | libIntegra/src/midi_input_dispatcher.cpp:137-163 | Both stages together, for any number of batches and devices: batches filtered for each device and queued in any order of the devices come out as everything would that is filtered at once. |
| MidiFilter.Dispatcher.MakeFilteredItems | libIntegra/src/midi_input_dispatcher.cpp:137-163 | The reverse loop over the map of filters does just that, whatever filters there were before. |
| MidiFilter.Dispatcher.Prune | libIntegra/src/midi_input_dispatcher.cpp:111-131 | Exactly the filters of devices that are no longer active go. |
| RingBuffer.WriteBehind | libIntegra/src/ring_buffer.cpp:129-169 | Overwriting behind the used part, around the end of the array, appends to the queue that the array stands for. |
| RingBuffer.ReadAhead | libIntegra/src/ring_buffer.cpp:172-214 | Moving the read position on, around the end, drops from the front of that queue. |
| RingBuffer.Ring.Write | libIntegra/src/ring_buffer.cpp:129-169 | Appends the longest prefix of frames that fits. |
| RingBuffer.Ring.Read | libIntegra/src/ring_buffer.cpp:172-214 | Hands out the oldest frames, fills the rest with silence, and touches nothing behind. Over any run the frames handed out are a prefix of those accepted since the last reset, and what is left is the rest. |
| RingBuffer.Ring.RecreateBuffer | libIntegra/src/ring_buffer.cpp:62-81 | A fresh, silent and empty buffer, or none when it would hold nothing. |
| RingBuffer.Ring.SetNumberOfChannels | libIntegra/src/ring_buffer.cpp:84-96 | A change of channels empties the buffer; no change keeps its contents. |
| RingBuffer.Ring.SetBufferLength | libIntegra/src/ring_buffer.cpp:99-111 | A change of length empties the buffer; no change keeps its contents. |
| RingBuffer.Ring.Clear | libIntegra/src/ring_buffer.cpp:114-126 | Empties and silences the buffer. |
| Decimal.ReadPrintInteger | libIntegra/src/value.cpp:235-250 | An integer printed and read back is the integer. |
| PackedStrings.PackStrings | libIntegra/src/string_helper.cpp:97-106 | The encoder writes length, colon and text for each string. |
| PackedStrings.UnpackStrings | libIntegra/src/string_helper.cpp:109-148 | The decoder's loop, with lengths as `strtoul` reads them and an `int` of 32 bits holds them, comes to what its turns say, on every text for which they end. |
| PackedStrings.LengthMeans | libIntegra/src/string_helper.cpp:125-132 | A length may have white space and a sign in front and anything but a digit behind; a minus takes it from 2^64, and 32 bits of it are kept. |
| PackedStrings.TurnMeans | libIntegra/src/string_helper.cpp:116-145 | A turn, by the parts of the text: too long a length ends it, a negative one takes all that is left as content and goes back, any other takes so many characters. |
| PackedStrings.HaltsIff | libIntegra/src/string_helper.cpp:109-148 | The loop ends exactly if it never comes to one position twice, and then within as many turns as the text has characters, and one: a test that a caller can make. |
| PackedStrings.FieldGoesOn | libIntegra/src/string_helper.cpp:127-145 | A field takes the decoder forwards exactly if its length is at least zero, or negative by less than the characters that the field's length and colon take. |
| PackedStrings.ProgressHalts | libIntegra/src/string_helper.cpp:109-148 | If all fields do, or lead out of the text, the loop ends. |
| PackedStrings.NeverDone | libIntegra/src/string_helper.cpp:109-148 | If it comes to one position twice, it never ends. |
| PackedStrings.ReadForEver | libIntegra/src/string_helper.cpp:127-145 | The input `4294967285:`, whose length becomes -11: after any number of turns the decoder is at the start, with that many empty strings. |
| PackedStrings.PlainIsRead | libIntegra/src/string_helper.cpp:109-148 | Where lengths are plain digits below 2^31, reading ends, with what the text means, or with failure if it means nothing. |
| PackedStrings.ReadPacked | libIntegra/src/string_helper.cpp:97-148 | The decoder gives back any list of strings shorter than 2^31 that the encoder wrote. |
| PackedStrings.UnpackPack | libIntegra/src/string_helper.cpp:97-148 | In what packed texts mean, any list of strings comes back, empty ones and ones with digits and colons too. |
| PackedStrings.PackInjective | libIntegra/src/string_helper.cpp:97-106 | Different lists have different encodings. |
| PackedStrings.PackConcat | libIntegra/src/string_helper.cpp:97-106 | Encoding turns concatenation of lists into concatenation of strings. |
| DspEngine.ModuleMap.AddModule | libIntegra/src/dsp_engine.cpp:339-341 | A new module gets the number behind all others. |
| DspEngine.ModuleMap.RemoveModule | libIntegra/src/dsp_engine.cpp:380-391 | The loop over the map leaves each module the number of its place in the list of live modules in order of creation. |
| DspEngine.NumbersAreABijection | libIntegra/src/dsp_engine.cpp:399-420 | Numbers that are places in a list are all those below the count, without duplicates: the sanity test never complains. |
| DspEngine.OrderIsUnique | libIntegra/src/dsp_engine.cpp:399-420 | The numbers determine the order of creation. |
| DspEngine.MergeSetCommand | libIntegra/src/dsp_engine.cpp:859-873 | Replacing an earlier command to the same endpoint leaves at most one command for each, and performing the merged list gives the values that performing all commands gives. |
| Player.PlayerState.Update | libIntegra/src/player_handler.cpp:256-292 | One turn of the thread for a player: the new tick, the commands sent, and the restart after a jump of the clock, with elapsed ticks and the restart's product held in 32 bits. |
| Player.TicksStaySane | libIntegra/src/player_handler.cpp:260-269 | Before wrapping, a tick is never further from the last than thirty seconds of ticks, whatever the clock does. |
| Player.ClockTickMeans | libIntegra/src/player_handler.cpp:259-264 | The clock's tick is the initial one and the rate's part of the milliseconds gone, toward zero, and a jump is more than thirty seconds of ticks from the last. |
| Player.WrapsIntoLoop | libIntegra/src/player_handler.cpp:271-279 | A tick at or past a loop's end lands in the loop, a whole number of rounds back. |
| Player.RestartIsClose | libIntegra/src/player_handler.cpp:264-269 | After a restart whose product fits, the same clock gives nearly the last tick, on the near side of the initial one, and is no jump any more. |
| Player.JumpIsOver | libIntegra/src/player_handler.cpp:260-269 | So the jump is over exactly if the product fits an `int`, for all rates that the module allows and many more. |
| Player.StillAway | libIntegra/src/player_handler.cpp:260-269 | If it does not, any clock reading within the next hour is a jump again. |
| Player.StandsStill | libIntegra/src/player_handler.cpp:254-269 | Then the tick stays the same for ever, however often the clock is read, if it is at least once an hour. |
| Player.LateLoopStandsStill | libIntegra/src/player_handler.cpp:254-280 | A player that does: a thousand ticks a second, played from 0 to a loop that begins after fifty minutes, read every 25 milliseconds. It plays on until it has gone through the loop once. |
| Player.WhenItDivides | libIntegra/src/player_handler.cpp:264-267 | A player without a rate divides by it exactly if its last tick is not its first. |
| Player.RateZero | libIntegra/src/player_handler.cpp:256-280 | Played from some tick it does so on its second turn exactly if a loop takes that tick elsewhere; otherwise no turn changes anything. |
| Player.JumpsAfterRounds | libIntegra/src/player_handler.cpp:260-280 | A looping player takes the clock for having jumped exactly if what it went on by and the rounds already gone come to more than thirty seconds of ticks. |
| Player.LongLoopLooksLikeAJump | libIntegra/src/player_handler.cpp:260-280 | Such a run: one second on, after three rounds in thirty seconds. |
| ModuleManager.IsModuleInUse | libIntegra/src/module_manager.cpp:1082-1100 | The search finds a module exactly when some address, by a place among siblings at each step down, leads to an instance of it. |
| ModuleManager.RemoveInUse | libIntegra/src/module_manager.cpp:1103-1113 | Exactly the modules with such an instance are taken from the set. |
| ModuleManager.FoundByAddress | libIntegra/src/module_manager.cpp:1082-1113 | Both of these for any address, of any length. |
| ModuleManager.FoundFromAbove | libIntegra/src/module_manager.cpp:1082-1100 | What is found at or below any node is found from its siblings' level. |
| ModuleManager.FiledMeans | libIntegra/src/module_manager.cpp:727-750 | Filing leaves all entries as they are and gives only a free key to the new module. |
| ModuleManager.UnfiledMeans | libIntegra/src/module_manager.cpp:940-960 | Taking out removes at most the one key, and only if its entry is the module itself. |
| ModuleManager.LoadedIsFiled | libIntegra/src/module_manager.cpp:700-764 | Loading keeps every loaded module filed under its origin, and under its name if it is a core module. |
| ModuleManager.UnloadedIsFiled | libIntegra/src/module_manager.cpp:925-968 | Unloading keeps that exactly unless the entry is the module's own and another loaded module has the same origin, or the same name. |
| ModuleManager.Registry.LoadModule | libIntegra/src/module_manager.cpp:684-764 | Loaded exactly if readable, new and allowed; the tables by origin and name keep the first of equals; all tables agree; if every loaded module was filed under its origin or name, every one is. |
| ModuleManager.Registry.UnloadModule | libIntegra/src/module_manager.cpp:925-968 | Goes from all tables, from those by origin and name only where the entry is its own; all tables agree; and exactly unless the entry was its own and another loaded module shares it, every loaded module stays filed. |
| ModuleManager.Registry.ChangeModuleSource | libIntegra/src/module_manager.cpp:1053-1079 | Changes one module's source; what is shipped stays so. |
| ModuleManager.Registry.InstallModule | libIntegra/src/module_manager.cpp:247-291 | Which error comes when; a new module is loaded, an embedded one becomes a third party module, and nothing else changes. |
| ModuleManager.Registry.InstallEmbeddedModule | libIntegra/src/module_manager.cpp:294-310 | Works exactly for embedded modules, and changes no other. |
| ModuleManager.Registry.UninstallModule | libIntegra/src/module_manager.cpp:313-348 | Works exactly for third party modules; one with an instance anywhere stays loaded as an embedded one. |
| ModuleManager.Registry.UnloadModuleInDevelopment | libIntegra/src/module_manager.cpp:382-418 | Since at most one module is in development, no error is reported; one with an instance becomes embedded, one without goes, and nothing else changes. The loop strays past the end of the map exactly if the module goes and was the only one loaded. |
| ModuleManager.Registry.StraysWithNothingLeft | libIntegra/src/module_manager.cpp:403-408 | The failing case: the only loaded module, in development, without an instance. |
| ModuleManager.Registry.LoadModuleInDevelopment | libIntegra/src/module_manager.cpp:351-379 | The former module in development makes way, unless it has an instance and is kept as embedded; every other module stays as it was; which error comes when; and when the loop over the map strays instead. |
| ModuleManager.Registry.UnloadUnusedEmbeddedModules | libIntegra/src/module_manager.cpp:502-523 | Unloads exactly the embedded modules without an instance. |
| ModuleManager.Registry.UnloadAllModules | libIntegra/src/module_manager.cpp:767-784 | Empties all four tables. |
| ModuleManager.Registry.ForgetsOrigin | libIntegra/src/module_manager.cpp:940-948 | A run after which a loaded module is not found by its origin. |

## Left out

- Commands.MoveCommand.Execute: requires what the program does not check before it moves a node (a free name, not into its own subtree) and the right kind of parent; with the wrong kind the program deletes the node while it is still linked, which is not modelled. `Runs.MayMove` decides these demands.
- Commands.HandleRename: what nodes do when their path has changed, apart from the texts of connections, is left out.
- Commands.HandleMove: the same, and what control points do when they move.
- Runs.Run: the series property is claimed only for runs without moves, because a move does not recompute active flags; a set of a single node's own active flag is not a request of the model for the same reason.
- Runs.Reactivate: what players and envelopes do on activation is not modelled, only that the nodes are found.
- Connections.UpdateConnectionPathOnRename: the set command that rewrites a text is modelled with its constraint test; what it sets off, along a connection that starts at another one's text, is left to `SetCascade`.
- Connections.UpdateConnectionPathOnMove: the same.
- Activation.ActivateTree: the set commands for switches are modelled as far as they store values, which the constraints of switches allow; what they set off along connections is left to `SetCascade`.
- Activation.ActivateChildren: the same.
- Runs.ToggleCommand.Execute: the same; the value is an integer, so that the type test has nothing to refuse.
- Runs.Serve: a set command on an endpoint other than a container's switch is no request, and a move whose demands are not met, or a toggle of what is no container, is passed over.
- Servers.Server.Delete: scenes, players and control points that change values when a node goes are not modelled.
- Creation.NewCommand.Execute: what a new node's logic does behind its defaults is left out, and loading the module into the audio host.
- Creation.SetDefaults: an endpoint of a data directory ends with the directory that the program creates, not with its default; the model says nothing of directories.
- SetCascade.Engine.HandleSet: the logic of a node is any function of the values of the moment that issues finitely many set commands; what players, scenes, control points and envelopes do in particular is not modelled, and an unbounded script is excluded.
- SetCascade.Engine.Set: guarded sources may occur anywhere, the others only as the outermost command, as in the program.
- SetCascade.Engine.Rewire: the tree that a cascade runs in is given as a table of endpoints, paths and connections by scope, and stays as it is while a cascade runs; that such a table is what a tree of objects comes to is said by `Connections.SiblingsShareScope` and not proved again.
- Loading.LoadNodes: reads files that the writer wrote, whose interfaces are all known; skipped elements, version checks and foreign files are not modelled, nor is the second half that sets the collected values.
- Loading.ValueComesBack: the text of a float is left to a pair of functions, since its formatting is.
- Decimal.ReadPrintInteger: the program tests `errno` without clearing it (`libIntegra/src/value.cpp:246`), so that after one number out of range every integer reads as the largest or smallest; that is not modelled.
- PackedStrings.UnpackStrings: `unsigned long` is taken to have 64 bits; texts of 2^31 characters or more, and sums that an `int` cannot hold, which C++ leaves undefined, are not modelled.
- DspEngine.ModuleMap.AddModule: the size is taken before the entry is made, as C++17 has it; before that the order is not fixed.
- RingBuffer.Ring.Read: needs an allocated buffer, since the program tests the caller's pointer in place of its own.
- Player.PlayerState.Update: sums and differences of ticks are taken to fit an `int`, which fails only when a jump of the clock alone comes to nearly 2^31 ticks; what C++ leaves undefined where the restart's product does not is taken to wrap. That the set command for a tick above the endpoint's maximum is refused does not stop the player, and is left to `SetCascade`.
- Values.Converted: floats are reals; rounding, infinities and floats too large for an integer are not modelled, and the numbers in strings are read by functions given from outside.
- EditDistance.ValueDistanceZero: distances of floats are those of reals, and strings are compared whole, not up to a NUL.
- EditDistance.NearestAllowedState: the assignment after the search copies no value in the program, so only the search is modelled; distances are exact, while the program's are `float`, in which those of integers tie beyond 2^24.
- SetCascade.TestConstraint: a NaN, which passes the program's test of a range, is not modelled.
- SetCascade.Net.Reacted: a node's logic is a function of the values of the moment; the value that was there before a set, which some logic is told, is left out.
- SetCascade.Net.Sent: the connections of each scope are read from a given table, as said of `Rewire`.
- MidiFilter.Filterer.Reset: the flag arrays exist from construction, not from the first reset.
- ModuleManager.Registry.InstallModule: module files, their storage and implementation directories are left out; a deletion that fails is a parameter of `UninstallModule`.
- ModuleManager.Registry.ChangeModuleSource: that no storage path can be made for the new source, which the program reports as a failure, is left out.
- ModuleManager.Registry.InstallEmbeddedModule: the same failure is left out.
- ModuleManager.Registry.UninstallModule: the same failure is left out.
- ModuleManager.Registry.UnloadModuleInDevelopment: what the program does once it has strayed is not modelled, only that it does.
- ThreadedQueue.EveryRun: a semaphore that cannot be opened is not modelled, and all queues of a run are there from its start.
- ServerLock.EveryRun: uses of the lock after its destruction are not modelled.
- The order in which a map is iterated is arbitrary in the model, so that nothing depends on it.
- Creation of the host's patches, audio connections and their mirroring in the host, the scaler's and the envelope's arithmetic, scripts, MIDI and OSC output, and scratch directories.
- XML, zip archives, interface definition files and their schema.
- Listing all node paths and the modules to embed, which would add only easy members.
- The unloading of newly loaded modules after a failed load, which does not look for instances.
