# The awesome window manager core, verified

This project models the parts of the awesome window manager that keep data in order: the client list, the
client stack and the `transient_for` links; the stacking requests sent to the X server; the suppression of
enter and leave events; the coalescing of motion events; signals, the registry and the Lua stack they work on;
the translation of D-Bus messages; size hints, titlebars and gravity; and the buffers, arrays and icon parser
underneath. Each piece of imperative code is a method, usually of a class with the fields of the original, that
is proved against a specification; what the program relies on is then proved about that specification.

| file | contents |
|---|---|
| `TransientGraph`, `Stacking`, `ClientLinks`, `ClientState` | chains of parents, the order in which a refresh lists windows, links and the windows that justify them, the state of the window manager and what each operation makes of it |
| `XServer`, `RefreshOrder`, `LayerOrder`, `FamilyOrder`, `WindowManager` | ConfigureWindow as the X protocol defines it, what a refresh does to the order on the server, told by layers, from the attributes and among clients of one rank, the operations themselves |
| `ClientRuns`, `ServerRuns`, `MainLoop` | runs of operations, runs together with the order of the windows on the server, and the operations performed one after the other |
| `StableOrder`, `StaleOrder` | which operations leave the order right without a refresh, and clients for which one does not |
| `EnterLeave`, `EventLoop`, `EventStream`, `ClientOrder` | intervals of request numbers on a 32-bit circle, the event loop, both together, saving and restoring the client order |
| `Options`, `Sequences`, `Memory`, `Arrays`, `Buffers`, `Icons` | optional values, facts on sequences, raw copies, growable arrays, the byte buffer with a sliding start, `_NET_WM_ICON` |
| `Signals`, `Registry`, `Lua`, `Emit`, `DBus` | the sorted signal array, reference counts, the Lua stack, emission of signals, D-Bus arguments |
| `Geometry`, `SizeHints`, `HintFields`, `Gravity`, `Titlebars` | 16-bit areas, size hints and what they mean field by field, moves by gravity, the frame of a client |

## Where the code differs from what one may expect

- The icons of `_NET_WM_ICON` come out in reverse: `cairo_surface_array_push` inserts at the front
  (`common/array.h:110-114`). `Icons.ReadBack` says when the result is the list that was encoded, and
  `Icons.ReadTwoIcons` reads two icons of one pixel that come out swapped.
- `restore_client_order` does not leave its inner loop after a hit. When a saved list names a managed window
  twice it writes behind the end of the client list; `ClientOrder.RestoreClientOrder` stays inside exactly when
  no managed window is named twice, and `ClientOrder.RestoreNamedTwice` steps out.
- `should_ignore` compares wrapped numbers, so an interval that straddles a multiple of 2^32 matches nothing
  (`EnterLeave.StraddlingIntervalMisses`); `EnterLeave.Suppression.ShouldIgnore` gives the exact answer. The
  test that drops old intervals is exact for the distances that `EnterLeave.KeepTestExact` gives.
- The error of a failed reparent request is handled before the events that wait with lower numbers
  (`objects/client.c:2239`), and so drops intervals that some of these lie in
  (`EnterLeave.EarlyErrorLosesInterval`). No interval is lost for an event that comes after none with a higher
  number.
- The shortcut of `luaA_client_lower` agrees with the full operation exactly when the client has no parent; a
  dialog that has just been managed is a case where it does not (`ClientRuns.LoweringMissesTheParent`).
- A change of the focus does not ask for a stack refresh, although it can change the order that a refresh would
  establish. All layers stay as they are exactly when neither the client that loses the focus nor the one that
  gets it is fullscreen without being ontop (`StableOrder.FocusKeepsLayers`). Then the order stays right, but not
  only then (`StableOrder.FocusIsHarmless`, `StaleOrder.LoneFocusIsHarmless`).
- Reading WM_TRANSIENT_FOR asks for a refresh just when it takes the client out of the layer above. Otherwise the
  links stay as they are exactly when the window named belongs to the parent that the client has, or the client
  has none and nobody can become it (`StableOrder.SameParentKeepsLinks`). Again the order stays right then, but not
  only then (`StableOrder.SameParentIsHarmless`, `StaleOrder.NewParentIsHarmless`).
- In both cases every right order stays right exactly when the windows, each at its last mention, are listed in the
  same order before and after (`RefreshOrder.RightOrdersAgree`, `StableOrder.HarmlessExactly`). Runs of such
  operations stay sorted (`ServerRuns.EveryHarmlessRunIsSorted`); `StaleOrder.FocusMakesStale` and
  `StaleOrder.TransientMakesStale` are states that occur in which the order goes stale and no refresh comes.
- A window can come out below its minimum size: for some request exactly if it does when the minimum itself is asked
  for (`SizeHints.MinimumDecides`); `SizeHints.MinimumKept` says for which hints that never happens. A minimum above
  65535 wraps, and every request gets the same size (`SizeHints.HugeMinimumWraps`).
- With an aspect ratio, asking again for the size that was given can give a smaller one: 10 x 4 becomes 1 x 4,
  and that 1 x 3 (`SizeHints.SecondCut`). `SizeHints.AppliedAgainExactly` says for which sizes it does not.
  Without one that only happens on a grid from a negative base, when a cut goes below 0 and wraps beyond the
  maximum (`SizeHints.NegativeBaseDrifts`); `SizeHints.AppliedTwice` has the exact condition.
- An array of file descriptors is counted as an argument but nothing is pushed for it, so that the count is
  right exactly when there is none (`DBus.CountsValues`). As a member of a struct it makes the struct take the
  value before it (`DBus.MemberTakesValue`), or leads to an index below the stack (`DBus.NothingToTake`).
- A dictionary with an entry whose key is an object path, a signature or a file descriptor raises a Lua error
  (`DBus.PathKeysRaise`).
- A signal emitted on something that is not a valid object leaves its arguments on the Lua stack
  (`Emit.Machine.EmitSignal`).
- `check()` (`common/util.h`) only warns. A nested bracket of ignored events forgets the outer one, and an
  unmatched end records an interval from 0; the callers keep the brackets balanced
  (`EnterLeave.Suppression.Bracket`, `EnterLeave.Suppression.GeometryRefresh`).

## Model

| member | source | states |
|---|---|---|
| TransientGraph.LinkAcyclic | objects/client.c:1599-1613 | following parents up from p finds c exactly when making p the parent of c would close a loop |
| TransientGraph.AcyclicMeansNoLoop | objects/client.c:1599-1613 | acyclic, as a finite walk up from every client, is the same as: nobody is an ancestor of itself at any distance |
| ClientLinks.OneToOneIsInjective | objects/client.c:1652-1660 | the counting form of "every window belongs to one client" says just that |
| ClientLinks.RelinkedIs | objects/client.c:1589-1617 | the link found is the owner of the named window, unless c is among that owner and its ancestors |
| ClientLinks.NewcomerLinks | objects/client.c:2045 | for a client just added no loop is possible: it is linked to whoever else owns the window it names |
| ClientLinks.AdoptKeepsLinks | objects/client.c:2185-2187 | linking the clients that waited for the new window keeps links justified and acyclic at every step of the loop |
| WindowManager.Globalconf.CountParents | objects/client.c:1600-1611 | the counter passes the length of the stack exactly when c is met, also while the new client is in the list but not yet in the stack |
| WindowManager.Globalconf.ClientGetByWin | objects/client.c:1652-1660 | finds the owner of a window if there is one |
| WindowManager.Globalconf.ClientFindTransientFor | objects/client.c:1589-1617 | the only link that changes is that of c, to the owner of the named window if that closes no loop and to nobody otherwise |
| WindowManager.Globalconf.PropertyUpdateTransientFor | property.c:104-128 | the named window is recorded, none if the property is missing; c leaves the layer above and keeps its other flags; without a type of its own it becomes a dialog if a window is named and a normal window if none is; its parent becomes the owner of that window unless that closes a loop, and nobody else gets another; a refresh is asked for just when c was above |
| ClientState.PropertyReadsHint | property.c:104-128 | that, field by field, for every state |
| ClientState.HintedLinksAnew | objects/client.c:1589-1617 | the client that c gets for a parent is exactly the one that owns the named window and does not have c among its ancestors |
| WindowManager.Globalconf.ClientSetFullscreen | objects/client.c:2629-2653 | a client made fullscreen leaves the other special layers, and a refresh is asked for just when the flag changes |
| WindowManager.Globalconf.ClientSetAbove | objects/client.c:2735-2753 | the same for above |
| WindowManager.Globalconf.ClientSetBelow | objects/client.c:2760-2778 | the same for below |
| WindowManager.Globalconf.ClientSetOntop | objects/client.c:2803-2821 | the same for ontop |
| ClientState.FlaggedOneLayer | objects/client.c:2742-2748 | after any of the four a client is in at most one special layer if it was before |
| ClientRuns.NobodyInTwoLayers | objects/client.c:2629-2821 | in every reachable state each client is in at most one special layer, if those managed had hints for at most one |
| WindowManager.Globalconf.AdoptTransients | objects/client.c:2183-2187 | the loop links exactly the clients that wait for the window of the new client and are not its ancestors |
| WindowManager.Globalconf.StackClientRemove | stack.c:27-38 | the first occurrence leaves the stack and a refresh is asked for |
| WindowManager.Globalconf.StackClientPush | stack.c:43-50 | the client goes to the bottom, everybody else keeps the order |
| WindowManager.Globalconf.StackClientAppend | stack.c:55-62 | the client goes to the top, everybody else keeps the order |
| WindowManager.Globalconf.ClientManage | objects/client.c:2066-2246 | the new client is first in the list and lowest in the stack, with its window, the window it names and the attributes of its hints, linked, adopted from; nothing else changes but links, and the invariant holds again; when it could not be put in its frame everything is as before |
| ClientState.ManageThenUnmanage | objects/client.c:2234-2242 | unmanaging a client that has just been managed gives back the whole state, links included |
| ClientState.ManagedConsistent | objects/client.c:2066-2246 | managing keeps the invariant of list, stack, links, focus and drawins |
| ClientState.ManagedLinks | objects/client.c:2183-2187 | for every pair of clients, exactly which links exist after managing |
| WindowManager.Globalconf.ClientUnmanage | objects/client.c:2853-2970 | list and stack lose just that client and keep their order, the focus goes if it had it, its fields go, links to and from it go; the rest stays and the invariant holds again |
| ClientState.UnmanagedConsistent | objects/client.c:2853-2970 | unsetting the links to a client while its own link stays until it is freed gives the links without that client |
| ClientState.UnmanagedLinks | objects/client.c:2858-2864 | all links but those from and to the client survive |
| WindowManager.Globalconf.ClientRaise | objects/client.h:263-290 | the stack becomes the others in their order, then root ancestor, ..., parent, client |
| WindowManager.Globalconf.CountLayers | objects/client.h:269-271 | counts the ancestors of a client |
| WindowManager.Globalconf.LuaClientRaise | objects/client.c:3320-3335 | with the shortcut, the same stack as without it, and a refresh is asked for unless the shortcut is taken |
| ClientState.RaiseShortcut | objects/client.c:3326-3328 | raising a client without parent that is on top changes nothing |
| WindowManager.Globalconf.LuaClientLower | objects/client.c:3346-3367 | unless the client is lowest, the chain in the order root, ..., client lies below all others and a refresh is asked for |
| ClientState.LowerShortcut | objects/client.c:3352-3354 | skipping the work for the lowest client is right if and only if it has no parent |
| ClientRuns.LoweringMissesTheParent | objects/client.c:3352-3354 | a window and its dialog, just managed: the dialog is lowest and stays there, where the full operation would put the window first |
| ClientState.RaisedConsistent | objects/client.c:3320-3367 | raise and lower keep the invariant |
| Stacking.RaiseOneMore | objects/client.h:274-280 | appending one more member of the chain is raising a longer chain |
| WindowManager.Globalconf.ClientFocusUpdate | objects/client.c:1793-1825 | the focus becomes c, and whether it is new is told |
| WindowManager.Globalconf.FocusUpdateAndRefresh | event.h:42-52 | a focus change and then a refresh, when none was asked for, send nothing to the server |
| WindowManager.Globalconf.LuaClientSwap | objects/client.c:3195-3230 | two clients change places in the list, nothing else changes |
| WindowManager.Globalconf.DrawinSetVisible | objects/drawin.c:377-413 | showing a drawin that is not in the list puts it last, with its flag, and asks for a refresh; hiding takes just it out; else nothing changes |
| WindowManager.Globalconf.DrawinSetOntop | objects/drawin.c:587-598 | the flag of a drawin, visible or not, and a refresh just when it changes |
| WindowManager.Globalconf.DrawinUnmap | objects/drawin.c:347-357 | the drawin leaves the list |
| ClientRuns.RunConsistent | objects/client.c:1589-3367 | the invariant holds after any run of manage, failed manage, unmanage, raise, lower, swap, focus, transient, flag and drawin operations |
| ClientRuns.EveryReachableState | objects/client.c:1589-3367 | in every reachable state list and stack hold the same clients once, links lead to managed clients whose window is named and never back, the focus is managed |
| ClientRuns.EitherOrderLinks | objects/client.c:2183-2187 | whether a window or its dialog is managed first, the dialog ends up transient for the window |
| StableOrder.FocusKeepsLayers | stack.c:129-156 | a focus change leaves all layers as they are if and only if neither client is fullscreen without being ontop |
| StableOrder.SameParentKeepsLinks | property.c:104-128 | naming another window leaves all links as they are if and only if the owner of that window is the parent already, or the client has no parent and nobody can become it |
| RefreshOrder.RightOrdersAgree | stack.c:162-200 | where the same windows are listed, all orders right for one state are right for another if and only if both list the windows in the same order of last mention |
| StableOrder.HarmlessExactly | stack.c:162-200 | an operation that asks for no refresh leaves every right order right if and only if that order of last mention stays, or a drawin only goes |
| StableOrder.FocusIsHarmless | objects/client.c:1793-1825 | so does a focus change that leaves the layers alone |
| StableOrder.UnfocusIsHarmless | objects/client.c:1706-1711 | and giving the focus to nobody |
| StableOrder.SameParentIsHarmless | property.c:104-128 | and reading WM_TRANSIENT_FOR when the links stay |
| StaleOrder.LoneFocusIsHarmless | objects/client.c:1793-1825 | a single fullscreen client gets the focus: its layer changes and no right order goes wrong |
| StaleOrder.NewParentIsHarmless | property.c:104-128 | a client becomes transient for one under it: a new link and no right order goes wrong |
| ServerRuns.EveryRefreshSorts | stack.c:162-200 | over every run from the start, with the server in it: all clients and visible drawins are on the server, and a refresh that was asked for leaves them sorted |
| ServerRuns.EveryHarmlessRunIsSorted | stack.c:162-200 | over every run of harmless operations, the order on the server is right whenever no refresh is asked for |
| StableOrder.HarmlessInOrder | stack.c:162-200 | a harmless operation that asks for no refresh leaves a right order right |
| StaleOrder.FocusMakesStale | objects/client.c:1793-1825 | two clients with their order right: the fullscreen one gets the focus, its place is wrong from then on, and no refresh is asked for |
| StaleOrder.TransientMakesStale | property.c:104-128 | two clients with their order right: the lower one becomes transient for the other, which should lie under it now, and no refresh is asked for |
| StaleOrder.TwoAreReached | objects/client.c:2066-2246 | the run that leads to these two clients with their order right |
| MainLoop.Perform | objects/client.c:1589-3367 | each operation, as its method performs it, makes the step of the run, asks for a refresh exactly when the run says so and sends just what the run says |
| MainLoop.Handle | event.h:42-52 | the same for a round of operations and refreshes: state, pending refresh and requests are those of the session |
| MainLoop.FromStart | event.h:42-52 | a fresh window manager and any events: it ends in the state of the run with the requests of the run sent, and the windows sorted if no refresh is asked for and nothing went stale |
| XServer.StackingErrorsAreIgnored | event.c:1027-1037 | every way in which a stacking request can fail is an error that is ignored |
| XServer.ReportedErrors | event.c:1027-1037 | which errors are told: bad matches but for setting the focus and configuring, bad values but for killing, all unknown ones |
| XServer.RequestsBuildBlock | stack.c:76-109 | requests to lie just above the previous window build one contiguous block, ordered by last mention; the others keep side and order |
| XServer.RequestsSortOrder | stack.c:76-109 | the same for an order given whole: last mention decides, unlisted windows keep their order |
| WindowManager.Globalconf.StackWindowAbove | stack.c:76-88 | one request, none for the first window |
| WindowManager.Globalconf.StackClientAbove | stack.c:95-109 | the recursion stacks the client and then all its transients, and ends |
| WindowManager.Globalconf.StackRefresh | stack.c:129-200 | when asked for, the requests for desktop clients, drawins, other clients and ontop drawins are sent in that order, otherwise nothing; whatever order of the windows they meet, they leave the clients by rank and over their parents, plain drawins over the lowest rank and under the others, ontop drawins over all |
| LayerOrder.RefreshRanks | stack.c:129-200 | after a refresh clients lie by their ranks, which are told from flags, types, focus and links: an ontop client among itself and its ancestors, a fullscreen one with the focus, one above, an ordinary root, one below, none of these |
| LayerOrder.OntopLiesHighest | stack.c:133-134 | a client with an ontop one in its chain lies over every client without |
| LayerOrder.FullscreenLiesNext | stack.c:136-137 | then those with a fullscreen client that has the focus |
| LayerOrder.AboveLiesThird | stack.c:138-139 | then those with a client above |
| LayerOrder.BelowLiesUnder | stack.c:140-155 | of two clients without parents, one that is below lies under one that no flag moves and that is not a desktop window |
| LayerOrder.DesktopLiesLowest | stack.c:147-150 | a desktop window without parent and flags lies under every client without a parent that is not another such |
| LayerOrder.DrawinsLieBetween | stack.c:162-200 | drawins that are not ontop lie over such desktop windows, and under all other clients without parents and all clients with a flag in their chain |
| LayerOrder.TransientHasParentsRank | stack.c:143-144 | a transient that no flag moves has the rank of its parent, whatever its type |
| FamilyOrder.TransientsLieOnParents | stack.c:95-109 | such a transient lies directly over its parent: what lies over the parent and is not transient for it lies over the transient too |
| FamilyOrder.StackDecides | stack.c:170-189 | clients without parents that are of one rank lie in the order of the stack |
| FamilyOrder.DrawinsInOrder | stack.c:176-199 | drawins with the same flag lie in the order of their list |
| Stacking.EffectiveIsMaximum | stack.c:129-156 | the effective layer is the largest layer among a client and its ancestors |
| Stacking.LayersInOrder | stack.c:170-189 | a client of a lower effective layer is listed for the last time before one of a higher |
| Stacking.PassesFollow | stack.c:95-109 | every mention of a parent is followed by one of its child |
| Stacking.TopOfItsLayer | stack.c:95-109 | a client raised is listed after everything in its effective layer that is not transient for it |
| RefreshOrder.ListedWindows | stack.c:162-200 | a refresh lists exactly the clients and the visible drawins |
| RefreshOrder.RefreshOrders | stack.c:162-200 | after the refresh the order on the server is the order of last mention; other windows keep their order |
| RefreshOrder.InOrderSorts | stack.c:129-200 | any order that agrees with the last mentions has the properties that RefreshSorts names |
| RefreshOrder.RefreshSorts | stack.c:129-200 | parents lie below their transients, clients by effective layer, plain drawins between desktop and the rest, ontop drawins above all |
| RefreshOrder.RaiseThenRefresh | objects/client.h:263-290 | raise and refresh put a client above all of its effective layer but its own transients |
| EnterLeave.KeepTestExact | event.c:1062-1090 | the wrapped comparison decides "not over yet" exactly for distances from -(2^31 + 1) to 2^31 - 2 |
| EnterLeave.MatchTestExact | event.c:1062-1090 | the raw comparison decides membership exactly for intervals that do not straddle a wrap |
| EnterLeave.Suppression.IgnoreEnterLeaveEvents | objects/client.c:1761-1774 | opens an interval with the request that grabs the server, whose number does not wrap to 0; a warning just when one was open, which is forgotten |
| EnterLeave.Suppression.RestoreEnterLeaveEvents | objects/client.c:1776-1787 | closes it with the next request and records it; a warning just when none was open, and then what is recorded begins at 0 |
| EnterLeave.Suppression.Bracket | objects/drawin.c:326-343 | a bracket around n requests records just the interval from its grab to its no-operation request, with the numbers that the connection gives them |
| EnterLeave.Suppression.GeometryRefresh | objects/client.c:1898-1974 | the bracket that is opened in the loop only if needed is closed exactly then: the interval recorded is that from the grab before the first change to the end of all requests and events |
| EnterLeave.ChangesEnclosed | objects/client.c:1953-1970 | this interval begins after all earlier requests and encloses those of every client that changes |
| EnterLeave.Suppression.ShouldIgnore | event.c:1062-1090 | for any number, the answer of the test on wrapped numbers; for one near the present, true exactly for an enter or leave event in a recorded interval that does not straddle a wrap and was not dropped for an earlier event; when no higher number came before, exactly for any interval ever recorded |
| EnterLeave.EarlyErrorLosesInterval | objects/client.c:2236-2240 | an error handled early, and the enter event that should have been ignored and is not |
| EnterLeave.StraddlingIntervalMisses | event.c:1062-1090 | an event inside a straddling interval that is not recognised |
| EventLoop.Loop.PollForEvent | awesome.c:380-391 | the pending event comes before those of the connection |
| EventLoop.Loop.XcbCheck | awesome.c:393-429 | all waiting events are taken and handled as the coalesced list |
| EventLoop.OthersKeepOrder | awesome.c:393-429 | everything but motion is handled, in input order |
| EventLoop.LastMotionsSurvive | awesome.c:393-429 | of the motions exactly the last of each stretch between barriers is handled |
| EventLoop.MotionBeforeBarrier | awesome.c:393-429 | a motion is handled right before the next barrier or at the end |
| EventLoop.BarriersStayInOrder | awesome.c:393-429 | late motions never come between enter and leave events and their numbers, so should_ignore sees rising numbers |
| EventLoop.PressesSplit | awesome.c:404-421 | an enter or leave event or the press or release of a button splits any batch: what comes before it is coalesced for itself, then it is handled, then what comes after it is coalesced for itself |
| EventLoop.OthersDoNotSplit | awesome.c:404-421 | an event of any other kind does not: a motion before it is dropped when another motion follows |
| EventStream.Run | awesome.c:393-429 | over any run of requests, brackets, geometry refreshes and batches with rising numbers, where handlers may send requests and brackets between the events of a batch: the intervals recorded are those of the brackets, and of the events handled, in order, exactly the enter and leave events in one that does not straddle a wrap are ignored |
| EventStream.ReactionFollows | awesome.c:419 | in the steps of a batch each event is followed by the acts of its own handlers, in order |
| ClientOrder.PlaceWindow | awesome.c:181-189 | the inner loop, including where it steps out of the list |
| ClientOrder.RestoreClientOrder | awesome.c:163-192 | the clients are permuted so that the saved ones that exist come first in saved order; in bounds if and only if none is named twice |
| ClientOrder.RestoreNamedTwice | awesome.c:163-192 | a managed window saved twice makes the restore step out of the list |
| ClientOrder.SaveAndRestore | awesome.c:121-129 | an order saved at exit comes back from any permutation |
| ClientOrder.AllPresent | awesome.c:163-192 | nothing of a saved order is lost when all its windows are managed |
| Arrays.Vec.Grow | common/util.h:66-81 | contents kept, table replaced only when too small, and then by one of the size asked for or half as large again with 16 elements to spare, whichever is more |
| Arrays.Vec.Splice | common/array.h:79-92 | sequence replacement, in the same table whenever the result fits |
| Arrays.Vec.Take | common/array.h:93-97 | removes and returns one element |
| Arrays.Vec.Push | common/array.h:110-114 | inserts at the front |
| Arrays.Vec.Append | common/array.h:115-117 | inserts at the end |
| Buffers.Buffer.Ensure | common/buffer.c:37-71 | room is made by shifting left, by reallocation or in a fresh area, and the contents stay |
| Buffers.Buffer.Splice | common/buffer.h:131-155 | the bytes replaced by data, whether the place lies in the buffer, reaches beyond its end or begins there; terminated, also when only the offset moves |
| Buffers.Buffer.Add | common/buffer.h:162-166 | appends |
| Buffers.Buffer.Run | common/buffer.h:131-178 | any run of splices and additions does to the buffer what it does to a sequence |
| Icons.ProductFits | ewmh.c:736-739 | width times height fits the wide product |
| Icons.IconFromReplyNext | ewmh.c:724-745 | takes exactly one encoded icon off the words, or stops at what is malformed, never past the end |
| Icons.IconsFromReply | ewmh.c:747-770 | the icons up to the first malformed entry, in reverse |
| Icons.SplitsUnique | ewmh.c:724-770 | the words determine the icons and the rest |
| Icons.ReadBack | ewmh.c:724-770 | reading back encoded icons gives them reversed; the list itself exactly if it is its own reverse |
| Icons.ReadTwoIcons | ewmh.c:747-770 | the words of two icons of one pixel read as the two in the other order |
| Signals.SignalArrayInsert | common/array.h:122-138 | the search by halving ends at the only place that keeps the array sorted, or at an equal element |
| Signals.SignalArrayGetById | common/signal.h:50-55 | finds the element with a number if and only if there is one |
| Signals.SignalConnect | common/signal.h:70-82 | the sorted array refines the map from signals to handler lists: the handler comes last in the list of its signal, everything else stays |
| Signals.SignalDisconnect | common/signal.h:91-107 | the first occurrence goes, and the signal with its last handler; everything else stays; the answer tells whether there was one |
| Signals.DisconnectedFirst | common/signal.h:95-105 | the list without that occurrence, place by place |
| Signals.OneTable | common/signal.h:35-55 | a sorted array stands for one map only |
| Registry.Registry.Incref | common/luaobject.c:58-101 | the value is stored under its address, its count goes up and it leaves the stack; values without address leave the tables alone; relative indices mean what they meant before the pushes |
| Registry.Registry.Decref | common/luaobject.c:110-160 | the count goes down, the value goes with the last count, an unknown address changes nothing but warns; the stack is as before |
| Registry.Registry.ObjectRef | common/luaobject.h:101-108 | a value anywhere on the stack is referenced and taken off, whether its index counts from the bottom or from the top |
| Registry.Registry.ObjectUnref | common/luaobject.h:129-135 | a reference is given back and the stack is as before |
| Registry.AwesomeConnectSignal | luaa.c:860-867 | an error unless there are a string or number and a function; else the function comes last under the hash of the name, a number as the string it reads as; connecting takes a reference, takes the function off the stack and keeps counts equal to occurrences |
| Registry.AwesomeDisconnectSignal | luaa.c:875-884 | an error unless there are a string or number and a function; else the first occurrence under the hash of the name goes, and the reference is given back exactly when there was one |
| Registry.ConnectAccounts | common/luaclass.c:322-323 | connecting in any list keeps the registry in step with all lists |
| Registry.DisconnectAccounts | common/luaclass.c:326-335 | disconnecting too |
| Registry.OccurrencesAt | common/signal.h:70-107 | occurrences over all lists do not depend on the order of counting |
| Registry.RunCounted | luaa.c:860-884 | over any run: count of an address = occurrences in all lists + references held elsewhere; stored exactly while that is positive |
| Registry.EveryRunCounted | luaa.c:860-884 | the same from the empty registry, and every connected handler is stored under its address then |
| Registry.RunCalls | luaa.c:860-884 | any calls from Lua, with any arguments, and references taken and given back elsewhere: the signal array and the registry end as the run of these says |
| Registry.HandlersAreLive | common/luaobject.c:241-242 | a connected handler is in the registry, so nil is never pushed for it |
| Lua.State.AbsIndex | common/lualib.h:46-50 | the absolute index means the same place; pseudo-indices stay |
| Emit.Machine.DoFunction | common/lualib.h:66-86 | function and arguments are replaced by the results on success and by nothing on error |
| Emit.Machine.SignalObjectEmit | common/luaobject.c:230-259 | for each reference in the table of the class at the start one call, in the order of the table, of the function stored under it, with exactly the arguments; no call when the signal is not in the table; the world is what these calls make of it, and the arguments are gone |
| Emit.Machine.EmitOnObject | common/luaobject.c:281-304 | the same for the table of an object and what its items store, with the object before the arguments |
| Emit.Machine.EmitSignal | common/luaobject.c:266-310 | for a valid object, the calls of its own table, then those of the table that its class has by then, all with the object first, and the stack ends at its height minus the arguments; for anything else nothing happens but a warning, and the arguments stay |
| Emit.EmissionCalls | common/luaobject.c:239-258 | what is looked up and called for a table is one call for each of its references, place by place, and the world is the one these calls lead to |
| Emit.StoredAreConnected | common/luaobject.c:241-242 | while a table accounts for the handlers, what is looked up in it are the functions connected |
| Emit.NoNilIsCalled | common/luaobject.c:241-242 | so neither the handlers of a class, from the registry, nor those of an object, from its own table, are ever nil |
| DBus.MessageIter | dbus.c:73-263 | for any message of the D-Bus type system: what the walk makes of the stack, when it raises an error and when it leaves the stack; for a well-formed one, an error exactly when a dictionary has a key that reads as nil, else the stack below is left alone, the recursive reading of all arguments pushed and their number returned; where each argument leaves a value, that of a number, boolean, byte or string is the one in the message |
| DBus.ReadAllMeans | dbus.c:73-263 | what the walk makes of the stack is the recursive reading when no argument is lost inside another one |
| DBus.MessageItem | dbus.c:80-258 | the same for one argument of any type, nested to any depth; a number pushes itself, and one of type UINT64 the signed 64-bit number that differs by a multiple of 2^64 |
| DBus.PackList | dbus.c:112-122 | the values on top become a list numbered from 1 |
| DBus.CountsValues | dbus.c:73-263 | the number returned is that of the values pushed exactly when there is no array of file descriptors |
| DBus.DescriptorsAreLost | dbus.c:130-178 | two arguments that leave one value |
| DBus.MemberTakesValue | dbus.c:108-125 | a string and a struct of one array of file descriptors leave one struct that holds the string |
| DBus.NothingToTake | dbus.c:108-125 | such a struct alone leads to an index below the stack |
| DBus.PathKeysRaise | dbus.c:180-196 | a dictionary of the D-Bus type system that raises an error |
| DBus.PackDict | dbus.c:180-196 | the pairs on top become a dictionary, stored from the top down; an error exactly at a nil key |
| DBus.PackFixed | dbus.c:130-178 | an array of numbers or booleans becomes a list of as many, numbered from 1, each of which is the element as it would be read alone |
| DBus.ElementTypes | dbus.c:127-203 | what an array of each type can hold |
| DBus.DictionaryReads | dbus.c:180-196 | of several entries with one key the first counts |
| DBus.FirstEntryWins | dbus.c:180-196 | the same for the pairs on the stack |
| DBus.NoOtherKeys | dbus.c:180-196 | a key that no entry has is not in the dictionary |
| Geometry.AroundInside | objects/client.c:2248-2268 | removing and adding the titlebars undo each other, even with wrapped fields |
| HintFields.AppliedFields | objects/client.c:2284-2385 | that, told from the fields of the hints, of the areas and of the bars alone, for all hints; for a grid from a negative base, a negative maximum or a minimum above 65535 with the answers of AppliedMeets |
| HintFields.AspectFields | objects/client.c:2322-2357 | the aspect ratio in whole numbers: cross products decide which dimension is cut, and it becomes the nearest whole number to the quotient, halves up |
| HintFields.AspectUnique | objects/client.c:2322-2357 | there is one such size only |
| SizeHints.AppliedMeets | objects/client.c:2284-2385 | each inner dimension becomes the largest base + k * inc up to the clamp, or the clamp below the base or without increments; with a negative base the start of the cell of the clamp, counted around the field; one size for all requests when minimum or maximum wrap; the place stays |
| SizeHints.AppliedTwice | objects/client.c:2359-2382 | one dimension is given again, for all hints, if and only if it is not cut below 0 on a grid from a negative base and wrapped beyond a maximum in another cell |
| SizeHints.AppliedAgain | objects/client.c:2284-2385 | without an aspect ratio, applying the hints twice is applying them once if and only if both dimensions are given again |
| SizeHints.AppliedAgainExactly | objects/client.c:2284-2385 | with one as well, if and only if what the ratio leaves of each dimension gives it again; without a negative base: if and only if the size is within half a pixel of the ratio or the minimum, or a negative maximum, holds the dimension that would be cut |
| SizeHints.NegativeBaseDrifts | objects/client.c:2372-2382 | a negative base, an increment and a maximum for which the size given is not given again |
| SizeHints.SecondCut | objects/client.c:2322-2357 | a request of 10 x 4 that becomes 1 x 4 and then 1 x 3 |
| SizeHints.HugeMinimumWraps | objects/client.c:2359-2371 | a minimum above 65535 gives all requests the same size, below it |
| SizeHints.MeetsUnique | objects/client.c:2372-2382 | the constrained size is determined |
| SizeHints.MeetsAgain | objects/client.c:2359-2382 | one dimension is stable after one application, also when maximum and minimum contradict each other |
| SizeHints.MinimumDecides | objects/client.c:2359-2382 | for all hints: no request comes out below the minimum if and only if the minimum does not when it is asked for |
| SizeHints.MinimumKept | objects/client.c:2359-2382 | when the grid does not start at a negative base and the maximum is not negative: if and only if the minimum fits 16 bits, the maximum allows it and it is not above the base or lies on the grid |
| SizeHints.AspectShrinks | objects/client.c:2322-2357 | the aspect step changes one dimension, never upwards, to within half a pixel of the ideal size |
| Titlebars.FrameIsTiled | objects/client.c:3381-3421 | every point of the frame lies in exactly one bar or in the window |
| Titlebars.BarPoints | objects/client.c:3381-3421 | the points of each bar: top and bottom over the whole width, left and right between them |
| Titlebars.Client.TitlebarGetArea | objects/client.c:3381-3421 | the step by step computation gives the area of the bar as 16-bit fields hold it, and the area itself in a frame that they can tell |
| Titlebars.Client.GetDrawableOffset | objects/client.c:3423-3439 | finds the first bar that has the point, and its place there, or tells that there is none; where the fields can tell the frame, the top and bottom bars over the whole width and the other two between them |
| Titlebars.Client.OffsetTellsBars | objects/client.c:3423-3439 | in a frame that the fields can tell, a point has a bar exactly when it is not in the window |
| Titlebars.Client.RealGeometry | objects/client.c:1903-1940 | the window gets the rest of the frame, all of it when fullscreen, as 16-bit fields hold it |
| Titlebars.Client.ApplySizeHints | objects/client.c:2284-2385 | the frame stays in its place; the room between its bars has, in each dimension, the largest base + k * inc up to the request held between minimum and maximum, or that itself below the base or without increments, each with its own fields, the minimum for a missing base size and the base size for a missing minimum, after the aspect ratio |
| Titlebars.Client.Resize | objects/client.c:2453-2483 | exactly when a resize happens and what the geometry is then; afterwards the titlebars fit |
| Titlebars.Client.TitlebarResize | objects/client.c:3519-3572 | frame and bar change together as the 16-bit fields hold it for any size; without overflow the frame is the one meant, what the gravity names stays where it is, and the titlebars still fit |
| Titlebars.Client.ResizeBars | objects/client.c:3519-3572 | any run of resizes gives what the fields hold of it; without overflow the bars fit, and when they have their sizes again the frame has its size and has moved by at most half a pixel for each |
| Gravity.StoredAsMeant | objects/client.c:3519-3572 | as long as nothing overflows, what the fields hold is the frame that was meant |
| Gravity.TranslateForGravity | xwindow.c:406-455 | the move for each gravity by name: nothing, minus the size gained, half of that cut towards zero, or minus what is gained before, in each dimension, for any sizes in 16-bit fields |
| Gravity.GravityStays | xwindow.c:406-455 | what each gravity keeps on the root window when a bar is resized: north the middle of the upper side, south-east the lower right corner, static the corner of the inside, and so on; middles within half a pixel |
| Gravity.ReferencePointStays | objects/client.c:3519-3572 | the inside keeps its size and the reference point its place, within half a pixel for middles |
| Gravity.ThereAndBack | objects/client.c:3519-3572 | resizing a bar and back restores the geometry exactly |
| Gravity.DriftIsBounded | objects/client.c:3519-3572 | over n resizes a middle drifts by at most n half pixels, a corner not at all |
| Gravity.RoundTripDrift | objects/client.c:3519-3572 | n resizes that return all bars to their sizes move the window by at most n / 2 pixels |
| Gravity.DriftHappens | xwindow.c:406-455 | three resizes that return to the start but move the window |

## Left out

- Client objects: clients are named by their frame window and the fields of `client_t` are maps from that name; pointers, aliasing and reference counts of client objects are not modelled.
- X11, D-Bus, GLib, cairo and EWMH traffic: only the stacking requests and the request numbers are kept.
- The Lua machine: functions are an arbitrary oracle that yields a new world, results or an error; tables are values because those handled here have one owner; Lua numbers are exact, without NaN.
- Callbacks in the client operations do not call those operations again.
- Screens, tags, banning, minimized and maximized state, strut, selections, systray, keyboard and mouse handling.
- ClientRuns.RunConsistent: the hints read while managing, apart from WM_TRANSIENT_FOR, are one given set of attributes; of the operations that only ask for a refresh, as for modal and maximized clients, there is one.
- ServerRuns.EveryRefreshSorts: other programs may create, destroy and reorder windows, but not destroy or reorder the frames and the visible drawins.
- Unmanaging because of destruction, and the destruction of windows later: they do not touch list, stack and links.
- Emit.Machine.EmitSignal: the limit of the Lua stack is not modelled.
- DBus.MessageIter: what happens after `lua_insert` with an index below the stack, which Lua does not check, is not modelled.
- DBus.PackFixed: the capacity hints of `lua_createtable` have no effect on values.
- Registry.Registry.Incref: the registry is one table of its own, not an entry of the registry of Lua; how a key or a count is pushed is part of the table access; tables that are kept are known by their address.
- Registry.ConnectAccounts: the signal `::connected`, emitted before the connection, is not part of this model.
- Signals.SignalConnect: the hash of a signal name stands for the name; handler lists are sequences inside the elements of the array.
- Signals.SignalArrayGetById: `bsearch` of the C library is written out as a search by halving.
- Arrays.Vec.Splice: sizes are unbounded; `realloc` is a fresh table with the same elements.
- Buffers.Buffer.Ensure: sizes are unbounded, and the shared empty area of a new buffer is an area of its own.
- Icons.IconFromReplyNext: words are unbounded numbers below 2^32, and no surface is made of the pixels.
- EnterLeave.Suppression.RestoreEnterLeaveEvents: after an unmatched end, or a bracket around 2^32 requests, only the queue is told, not the intervals it stands for.
- EnterLeave.Suppression.ShouldIgnore: for numbers that are not near the present the answer is only that of the wrapped comparison.
- EventStream.Run: errors that are handled before the events that wait, as in `EarlyErrorLosesInterval`, are not among its turns.
- SizeHints.AppliedMeets: the aspect ratio is exact where the code uses doubles; a negative size is converted by wrapping.
- SizeHints.MinimumKept: says nothing for a negative maximum or a grid from a negative base; `SizeHints.MinimumDecides` does.
- The drawables of the titlebars and `client_resize_do` beyond the geometry.
