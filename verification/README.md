# Verified model of the Elara IDE's runtime core

A Dafny model of the parts of the Elara IDE (`epa-ide`) that hold algorithms and protocols: the geometry of
the 3D artifact viewer, the concurrent services of the IDE, its wire formats, and the state of its editors.
Everything is stated for all inputs, all interleavings or all runs.

| file | models |
|---|---|
| `Geometry.dfy`, `CutoutSlabs.dfy`, `CutoutTheorems.dfy`, `CutoutArea.dfy` | the slab sweep that turns a wall with rectangular cut-outs into rectangles |
| `EarClip.dfy`, `EarClipTheorems.dfy` | ear-clipping triangulation and its fan fallback |
| `Orientation.dfy`, `Winding.dfy`, `Segments.dfy`, `TwoEars.dfy`, `DartExample.dfy` | why clipping a simple polygon completes: turns of points, winding numbers, common points of segments, the existence of ears, and an example |
| `Refresher.dfy` | the coalescing background refresher of the kernel debug state |
| `Decimal.dfy`, `DapFraming.dfy`, `DapFramingTheorems.dfy` | Content-Length framing of the debug adapter client (the Debug Adapter Protocol's "Base Protocol" section) |
| `DapTables.dfy` | its pending and response tables |
| `Brpc.dfy`, `BrpcTheorems.dfy`, `ByteStream.dfy`, `ByteStreamTheorems.dfy` | the BRPC codec and length-prefixed frames over a socket |
| `EpaDbg.dfy` | the serialised request and reply transaction of the epavm client |
| `ExtProxy.dfy` | the two-thread proxy between Python logic and the C++ side |
| `LevelPath.dfy`, `HitTest.dfy` | projecting, dragging and picking items of the level-path editor |
| `TreeLines.dfy`, `TreeLinesTheorems.dfy` | building a tree from indented lines |
| `EditorText.dfy`, `UndoHistory.dfy`, `TabTable.dfy` | positions and range edits, undo and redo, the tab table |
| `Common.dfy` | `Option` and `Result` |

`dafny verify dfyconfig.toml` checks everything.

How to read it. Code that works on state is a class or a method with a loop whose postcondition ties the new
state to a function of the old one; the lemmas are about these functions. A concurrent protocol is such a class,
one method per critical section, and beside it a transition system whose steps are those sections and the code
between them: `Execute` gives the state after any sequence of steps of any threads, and the theorems speak of
every `Execute`. Coordinates are reals, and the code's tolerances of 1e-6 are kept. A property that does not hold of
the code everywhere is stated as an equivalence with the condition under which it does, next to a concrete input
on which it fails.

Where the code does something its description does not say: a cut-out that sticks out of the wall makes the sweep
paint outside the wall; a partial triangulation is drawn as it is, the fan being a fallback for the empty one only;
a negative Content-Length can make the receive loop spin; a `send` that times out leaves its number registered, so
a late response stays stored, and so does one that arrives before `sendall` raises; an exception in a refresh
sweep leaves the refresher marked as running for ever; a tab open that the UI refuses can leave the active tab
pointing at the removed preview. The model follows the code.

## Model

| member | source | states |
|---|---|---|
| CutoutSlabs.AxisRectsFromCutouts | epa-ide/e3d_runtime.py:612-662 | for any outline and any cut-outs, with no assumption on them: the rectangles are pairwise disjoint, have their corners on input coordinates, and cover exactly the points that lie in a slab taller than 1e-6 and there in a cut-out-free stretch wider than 1e-6 |
| Geometry.Bounds | epa-ide/e3d_runtime.py:615-618 | the bounding box holds every point, and a point lies on each of its four sides |
| CutoutSlabs.CutHole | epa-ide/e3d_runtime.py:643-652 | rebuilds the span list around one hole, as `CutAll` |
| CutoutSlabs.CutAllFree | epa-ide/e3d_runtime.py:640-652 | cutting a crossing hole keeps the spans ordered, disjoint and clear of every hole seen so far, and every clear stretch still lies inside one span |
| CutoutSlabs.FreeSpans | epa-ide/e3d_runtime.py:639-652 | after all holes the spans are ordered, disjoint, clear of every crossing hole, and contain every clear stretch of the slab |
| CutoutSlabs.SlabRects | epa-ide/e3d_runtime.py:638-661 | one slab's rectangles are disjoint, span the slab, and cover exactly its wide clear stretches |
| CutoutSlabs.Sorted | epa-ide/e3d_runtime.py:631 | the distinct values of a list in strictly increasing order |
| CutoutSlabs.CollectHoles | epa-ide/e3d_runtime.py:619-630 | the holes are the bounding boxes of the non-empty groups in order, and the y values are exactly the wall's and the holes' |
| CutoutSlabs.HolesInOrder | epa-ide/e3d_runtime.py:619-628 | there is one hole for each non-empty group and none for an empty one, in the order of the groups, and each is the bounding box of its group |
| CutoutSlabs.CutDepth | epa-ide/e3d_runtime.py:641-642 | a hole cuts a slab if and only if the slab's two edges together lie more than 0.000002 above the hole's lower edge and more than that below its upper one |
| CutoutTheorems.HoleCoversOrMissesSlab | epa-ide/e3d_runtime.py:641-642 | with separated coordinates each hole covers a slab whole or misses it whole, and the tolerant middle-line test tells which |
| CutoutTheorems.KeptIsRemains | epa-ide/e3d_runtime.py:612-662 | with separated coordinates and cut-outs anywhere, what is painted is exactly the wall, stretched to the cut-outs' y range, minus the cut-outs |
| CutoutTheorems.ExactSlabBySlab | epa-ide/e3d_runtime.py:612-662 | for any outline and any cut-outs: the sweep paints exactly the wall minus its cut-outs if and only if, in every slab of the wall, what is too low or too narrow to be painted is all cut out and no cut-out reaches into a painted gap, and nothing is painted in the slabs above and below the wall |
| CutoutTheorems.SeparatedIsExact | epa-ide/e3d_runtime.py:638-661 | coordinates that differ by more than the tolerances, and cut-outs within the wall's y range, meet that condition |
| CutoutTheorems.SlabPartition | epa-ide/e3d_runtime.py:612-662 | for any outline and any cut-outs: every wall point outside the cut-outs lies in exactly one rectangle and every other point in none, if and only if the slabs meet that condition |
| CutoutTheorems.DrawingPainted | epa-ide/e3d_runtime.py:612-662 | from the point lists to the paint: the sweep covers exactly the points that lie, in both coordinates, between points of the outline and not between points of any cut-out, if and only if the slabs meet that condition |
| CutoutTheorems.OverhangPaintsOutsideWall | epa-ide/e3d_runtime.py:629-630 | a concrete cut-out that sticks out above the wall makes the sweep paint beside it, outside the wall |
| CutoutTheorems.ThinHoleIsPaintedOver | epa-ide/e3d_runtime.py:641-642 | a concrete cut-out lower than twice the tolerance is not cut at all |
| CutoutArea.PaintedArea | epa-ide/e3d_runtime.py:656-661 | for any input the rectangles' areas sum to the area of the painted set, measured on any grid through all coordinates |
| CutoutArea.AreaConserved | epa-ide/e3d_runtime.py:612-662 | where the slabs meet that condition, the rectangles' areas sum to the area of the wall minus the union of any number of overlapping cut-outs, that area being measured independently on any grid through all coordinates |
| CutoutArea.CountSumsToArea | epa-ide/e3d_runtime.py:656-661 | summing over a grid how often each cell is covered gives the rectangles' total area |
| EarClip.PolygonSignedArea | epa-ide/e3d_runtime.py:391-397 | half the shoelace sum around the closed polygon |
| EarClip.FindEar | epa-ide/e3d_runtime.py:423-451 | finds the first index that is an ear, if there is one |
| EarClip.FirstEar | epa-ide/e3d_runtime.py:423-449 | the position returned is an ear, none before it is, and the length is returned when there is none |
| EarClip.TriangulatePolygon | epa-ide/e3d_runtime.py:413-454 | the guarded loop returns what clipping without any iteration bound returns, so the n squared guard never ends it |
| EarClip.AddPolygonTriangles | epa-ide/e3d_runtime.py:474-481 | the triangulation is drawn, or the fan when it is empty, or nothing for fewer than three points |
| EarClipTheorems.ClipConserves | epa-ide/e3d_runtime.py:420-451 | at every stage the clipped ears and the polygon still to be cut together weigh what the polygon weighed, for every antisymmetric weighting of directed edges |
| EarClipTheorems.TriangulationConserves | epa-ide/e3d_runtime.py:413-454 | a run that reaches three indices conserves every antisymmetric weight, and one that stops earlier misses exactly the weight of the corners left |
| EarClipTheorems.TriangleAreaIsWeight | epa-ide/e3d_runtime.py:400-401 | the `_cross2` values of triangles sum to their shoelace weight, so the conservation results speak of area |
| EarClipTheorems.DrawnAreaExact | epa-ide/e3d_runtime.py:474-481 | for any polygon at all, crossing itself or not: the drawn triangles' signed areas sum to the polygon's if and only if clipping completed, or found no ear at all, or left corners that enclose no net area |
| EarClipTheorems.FanWeighsPolygon | epa-ide/e3d_runtime.py:478-479 | the fallback fan conserves every antisymmetric weight, so signed area and net edge counts |
| EarClipTheorems.StepsCount | epa-ide/e3d_runtime.py:446-453 | one triangle is emitted per index removed, and at least three indices are left |
| EarClipTheorems.LeftAscends | epa-ide/e3d_runtime.py:447 | the indices left are a strictly increasing subsequence of the original ones |
| EarClipTheorems.StopsOnlyWithoutEars | epa-ide/e3d_runtime.py:450-451 | if more than three indices are left, none of them is an ear |
| EarClipTheorems.CompleteRunCount | epa-ide/e3d_runtime.py:452-453 | a run is complete if and only if it has exactly n - 2 triangles |
| EarClipTheorems.DiagonalsCancel | epa-ide/e3d_runtime.py:413-454 | in a complete run every diagonal is traversed equally often both ways and every side exactly once more forwards than backwards |
| EarClipTheorems.EarIsSound | epa-ide/e3d_runtime.py:424-447 | every ear emitted turns with the winding by more than the tolerance, contains no other corner that remained at that moment, and its tip is what is removed |
| EarClipTheorems.EarsTurnWithArea | epa-ide/e3d_runtime.py:391-436 | on coordinates: every ear emitted turns left by more than 0.000001 if the polygon's signed area is positive, and right by more than that otherwise |
| EarClipTheorems.PointInTriangleIsHull | epa-ide/e3d_runtime.py:404-410 | for a triangle that is not flat the blocking test holds of exactly the convex mixtures of its corners |
| EarClipTheorems.ConvexCompletes | epa-ide/e3d_runtime.py:413-454 | a polygon whose corners all turn one way, of either winding, is cut into n - 2 triangles with its whole area |
| TwoEars.EarMeaning | epa-ide/e3d_runtime.py:424-446 | in a simple polygon whose turns the tolerance resolves, the code's ear test holds exactly where the polygon turns left and no other corner lies in the triangle or on the line that would cut it off |
| TwoEars.EarExists | epa-ide/e3d_runtime.py:423-449 | every simple polygon with its inside on the left has such a corner |
| TwoEars.WithoutIsSolid | epa-ide/e3d_runtime.py:446-447 | cutting any such corner off leaves a simple polygon with its inside on the left |
| TwoEars.SimpleCompletes | epa-ide/e3d_runtime.py:413-454 | every simple polygon, of either winding and of any shape, any three of whose corners lie in line or turn by more than the tolerance, is cut into n - 2 triangles with its whole area, so that the fan is not needed |
| DartExample.DartIsCutToo | epa-ide/e3d_runtime.py:413-454 | a concrete polygon that is not convex, with straight corners and with others in line, meets these conditions |
| EarClipTheorems.TinySquareHasNoEar | epa-ide/e3d_runtime.py:431-436 | a concrete convex square smaller than the tolerance allows has no ear |
| EarClipTheorems.SpikeLosesItsFoot | epa-ide/e3d_runtime.py:478-479 | a concrete simple polygon whose partial triangulation is drawn without its remaining area |
| Refresher.RefreshState.Schedule | epa-ide/app.py:3279-3290 | the critical section of a scheduler: the newest request fills the slot, and a worker is to be started exactly when none was running |
| Refresher.RefreshState.Take | epa-ide/app.py:3294-3296 | empties the slot and returns what was in it |
| Refresher.RefreshState.Retire | epa-ide/app.py:3328-3331 | clears the flag exactly when no request is waiting |
| Refresher.RunKeeps | epa-ide/app.py:3272-3333 | every interleaving of any number of schedulers and workers, failing snapshots and raising sweep calls included, keeps the invariant |
| Refresher.OneWorker | epa-ide/app.py:3288-3331 | in every interleaving at most one worker is live, a waiting request implies `running`, and a worker never takes an empty slot |
| Refresher.NoRequestLost | epa-ide/app.py:3279-3331 | whenever `running` is false after a run that scheduled anything, the slot is empty and the last request taken is the one that the newest `Schedule` step of the run brought; its sweep has an outcome for every kernel in order, and skipped exactly the kernels without a name and the one that step named as active, if it brought a snapshot |
| Refresher.RequestWasAsked | epa-ide/app.py:3279-3296 | every request waiting or last taken was scheduled, under its number, by a step of the run |
| Refresher.OutcomeExplained | epa-ide/app.py:3309-3326 | behind every outcome of the last sweep stand steps of one worker: a kernel skipped was skipped on its visit; one that failed had its snapshot call fail; one that was shown had its snapshot call succeed, was checked next, and shown next |
| Refresher.ShownOnlyIfCurrent | epa-ide/app.py:3315-3326 | in every run a worker about to ask for a snapshot, or to show one that has arrived, has at its last step found its own request to be the newest |
| Refresher.CutOnlyIfSuperseded | epa-ide/app.py:3315-3325 | a sweep is given up only for a newer request, and that request is then waiting with the flag still set |
| Refresher.WorkerCanMove | epa-ide/app.py:3293-3331 | while `running` holds and no sweep call has raised, some worker can take a step |
| Refresher.WorkerProgresses | epa-ide/app.py:3293-3331 | every worker step takes the waiting request or reduces the work left on the one held |
| Refresher.ComesToRest | epa-ide/app.py:3293-3331 | without new requests and exceptions a continuation of any run takes at most the one waiting request, and has at most as many steps as there is work left and taken on |
| Refresher.CrashWedges | epa-ide/app.py:3309-3326 | once a sweep call raises, the flag stays set for ever and no later request is ever taken |
| Refresher.DeadExactlyAfterCrash | epa-ide/app.py:3309-3326 | a worker is dead after a run if and only if some sweep call of the run has raised |
| Refresher.MovesExactlyWhileAlive | epa-ide/app.py:3293-3331 | in every reachable state with `running` set some worker can take a step if and only if no worker is dead |
| Refresher.CrashingRun | epa-ide/app.py:3309-3326 | a concrete run that ends with the refresher stuck |
| DapFraming.Receiver.ProcessBuf | epa-ide/dap_client.py:90-111 | dispatches exactly the frames `Drain` takes off and keeps the rest, or reports that the loop would not end |
| DapFraming.Receiver.RecvLoop | epa-ide/dap_client.py:75-84 | over any list of chunks, dispatches and keeps what `Feed` says, so that the theorems about chunks are about the receiver |
| DapFraming.Receiver.NextFrame | epa-ide/dap_client.py:92-107 | the frame at the front of the buffer, or that more bytes are needed |
| DapFraming.Receiver.ContentLength | epa-ide/dap_client.py:95-102 | the last Content-Length field that parses, else 0 |
| DapFraming.Drain | epa-ide/dap_client.py:90-111 | what is left over, unless the loop spins, is always an incomplete frame |
| DapFramingTheorems.FramingRoundTrip | epa-ide/dap_client.py:36-37 | any list of bodies framed as `send` and `fire` frame them and delivered in any chunks is dispatched in order, unchanged, with nothing left over |
| DapFramingTheorems.ChunkingIrrelevant | epa-ide/dap_client.py:75-111 | any stream without negative lengths gives the same messages and the same rest however it is cut into chunks |
| DapFramingTheorems.DrainAppend | epa-ide/dap_client.py:90-111 | draining what has arrived and then the rest with the later bytes is draining everything at once |
| DapFramingTheorems.DispatchedIsPrefix | epa-ide/dap_client.py:80-82 | what has been dispatched at any moment is a prefix of what the whole stream dispatches |
| DapFramingTheorems.ParseOfFrame | epa-ide/dap_client.py:91-107 | a frame followed by anything at all is taken off whole |
| DapFramingTheorems.LinesJoinBack | epa-ide/dap_client.py:97 | joining the lines a header is split into with line breaks gives the header back |
| DapFramingTheorems.LinesHoldNoBreak | epa-ide/dap_client.py:97 | no line holds a line break, so the header is split at every one |
| DapFramingTheorems.LinesOfJoin | epa-ide/dap_client.py:97 | lines without line breaks in them, joined, are split into those lines again |
| DapFramingTheorems.LastLengthWins | epa-ide/dap_client.py:96-102 | one more line decides the length if it is a readable Content-Length field, and changes nothing otherwise |
| DapFramingTheorems.HeaderDeclares | epa-ide/dap_client.py:95-102 | in a header of any fields in any order the last Content-Length with a number that can be read counts, and without one the length is 0 |
| DapFraming.NamedInAnyCase | epa-ide/dap_client.py:98 | the field name is recognised in any mixture of upper and lower case |
| DapFraming.SliceHolds | epa-ide/dap_client.py:106-107 | a slice holds the characters between its bounds, which count from the end when negative and stop at the ends of the text |
| DapFramingTheorems.ProgressExactly | epa-ide/dap_client.py:103-107 | a turn shortens the buffer if and only if the declared end does not fall on the buffer's first byte, counted from the front or, when negative, from the back; otherwise the buffer stays as it is; a length that is not negative always makes progress |
| DapFramingTheorems.NegativeLengthSpins | epa-ide/dap_client.py:103-107 | a concrete header with a negative length on which the loop never ends |
| Decimal.ParseOfPrint | epa-ide/dap_client.py:100 | reading back a printed length gives the length |
| Decimal.ParseIntReads | epa-ide/dap_client.py:100 | a sign, if any, and digits with single underscores between them, surrounded by white space, are read as that number |
| Decimal.ParseIntOnlyReads | epa-ide/dap_client.py:100-102 | nothing else is read |
| Decimal.PrintOfValue | epa-ide/dap_client.py:37 | every digit text without a leading zero is what printing its value gives |
| Decimal.StripParts | epa-ide/app.py:2009-2020 | a text is white space, what stripping leaves, and white space, and what is left neither starts nor ends with white space |
| Decimal.StripOfPadded | epa-ide/app.py:2009-2020 | a text that neither starts nor ends with white space is what is left when it is put between white space |
| DapTables.PythonDapClient.TakeNumber | epa-ide/dap_client.py:30-32 | the next sequence number |
| DapTables.PythonDapClient.Register | epa-ide/dap_client.py:39-40 | enters a waiter |
| DapTables.PythonDapClient.Abandon | epa-ide/dap_client.py:44-47 | takes a waiter out after a failed send |
| DapTables.PythonDapClient.Collect | epa-ide/dap_client.py:48-50 | takes out and returns the response, if there is one |
| DapTables.PythonDapClient.Dispatch | epa-ide/dap_client.py:113-121 | moves a pending number to the responses and wakes it; any other response changes nothing |
| DapTables.PythonDapClient.ReleaseWaiters | epa-ide/dap_client.py:85-88 | wakes everyone registered |
| DapTables.RunKeeps | epa-ide/dap_client.py:29-121 | every interleaving of sends, fires, failing sends, timeouts and received messages keeps the invariant |
| DapTables.Correlated | epa-ide/dap_client.py:38-50 | the tables' keys are disjoint, and `send` returns nothing or a response to its own request that no other call holds or has returned |
| DapTables.NumbersAreFresh | epa-ide/dap_client.py:30-32 | a number handed out was never used before by `send` or `fire` |
| DapTables.NumbersCount | epa-ide/dap_client.py:30-32 | the numbers handed out are 1, 2, 3 and so on |
| DapTables.UnexpectedResponseDropped | epa-ide/dap_client.py:113-121 | a response to a `fire`, to an unused number, or to a request already answered changes nothing |
| DapTables.FailedSendIsForgotten | epa-ide/dap_client.py:44-47 | after a `send` whose `sendall` raised, a response to its number changes nothing, in every continuation |
| DapTables.WokenSendIsAnswered | epa-ide/dap_client.py:48-50 | while the receive loop runs, a `send` that its event has woken returns the response to its request, whatever other threads do in between |
| DapTables.ExitWakesAll | epa-ide/dap_client.py:85-88 | when the receive loop ends every registered `send` has been woken, waiting or still sending |
| DapTables.Counts | epa-ide/dap_client.py:75-84 | messages are received one by one, and none after the receive loop has ended |
| DapTables.LateSendTimesOut | epa-ide/dap_client.py:38-50 | a `send` that registers after the receive loop has ended is never woken and returns nothing |
| DapTables.StrandingStep | epa-ide/dap_client.py:38-50 | a step strands a response if and only if it stores one for a `send` that has given up, or makes a `send` fail whose response is already stored; no step takes a stranded response out |
| DapTables.StrandedExactly | epa-ide/dap_client.py:38-50 | after any run a response is stranded in the table if and only if some step of the run did that |
| DapTables.LateResponseStays | epa-ide/dap_client.py:48-50 | a stranded response stays in the table in every continuation |
| DapTables.LateResponseIsStored | epa-ide/dap_client.py:48-50 | a concrete run in which a response comes after the timeout |
| DapTables.AnsweredSendFails | epa-ide/dap_client.py:44-47 | a concrete run in which it is there before `sendall` raises |
| Brpc.DecodeData | epa-ide/ext_logic_client.py:90-143 | the cursor-driven decoder computes `Decode`, error cases included |
| Brpc.Cursor.NextField | epa-ide/ext_logic_client.py:116-127 | reads one named string or named byte and advances past it, or fails as Python would |
| Brpc.Cursor.Str | epa-ide/ext_logic_client.py:101-104 | reads a length-prefixed text; short data is cut, not refused |
| BrpcTheorems.MessageRoundTrip | epa-ide/ext_logic_client.py:60-143 | decoding an encoded success response, error response, request or notification gives back the message, its id, a text or any integer, as a text, and whatever is omitted as null |
| BrpcTheorems.HeaderIsExact | epa-ide/ext_logic_client.py:51-57 | the stored byte length is the number of bytes that follow, the stored count is the number of fields, and reading that many fields gives those fields |
| BrpcTheorems.FieldRoundTrip | epa-ide/ext_logic_client.py:36-48 | an encoded field is read back wherever it stands in the data |
| BrpcTheorems.LoadOfDumps | epa-ide/ext_logic_client.py:130-131 | the text `null` stands for None and for nothing else |
| BrpcTheorems.NamesOnTheWire | epa-ide/ext_logic_client.py:60-87 | the field names of the four kinds of messages, in the order sent, and `null` for a result or params left out |
| Brpc.StrIsNumeral | epa-ide/ext_logic_client.py:64 | the text of a numeric id reads as that number and has no leading zero |
| BrpcTheorems.DecodeOfFields | epa-ide/ext_logic_client.py:111-143 | of any array of fields, in any order and with any names, the last value of each name counts |
| BrpcTheorems.FieldsLeftOut | epa-ide/ext_logic_client.py:128-143 | a result or params left out read as null, an error code or message as empty; an id alone lacks its method; no id and no method is an error |
| BrpcTheorems.ShortTextIsCut | epa-ide/ext_logic_client.py:101-104 | a text that claims more bytes than there are is what is left, and reading on fails |
| ByteStream.Socket.RecvExactly | epa-ide/ext_logic_client.py:148-155 | exactly the next n bytes, however delivered; end of file only if fewer were left; an error only if the system reports one meanwhile |
| ByteStream.Socket.RecvRaw | epa-ide/ext_logic_client.py:253-266 | one frame; unless the system reports an error meanwhile the outcome depends on the bytes alone |
| ByteStreamTheorems.FrameRoundTrip | epa-ide/ext_logic_client.py:247-264 | a frame is read back if and only if its length is within the reader's limit |
| ByteStreamTheorems.FramesAreUnique | epa-ide/ext_logic_client.py:247-266 | the same bytes cannot be two different lists of frames |
| ByteStreamTheorems.ReceiveFrames | epa-ide/ext_logic_client.py:253-266 | reading k frames off a concatenation of frames gives those frames, under any delivery; it fails only if the system reports an error meanwhile |
| ByteStreamTheorems.ReceiveMessages | epa-ide/ext_logic_client.py:247-266 | receiving and decoding the frames of a list of payloads gives the messages they stand for, in order, under any delivery; it fails only if the system reports an error meanwhile |
| EpaDbg.EpaDbgClient.Call | epa-ide/epavm_client.py:124-147 | a call gives a result or server error if and only if there is a connection, the request can be encoded, the system reports no error, and the server sends a whole frame within the limit that decodes and carries the own id; it is then the verdict of that frame, with one whole reply consumed per request sent; every other outcome leaves the socket null |
| EpaDbg.EpaDbgClient.SendRaw | epa-ide/epavm_client.py:90-95 | appends one whole frame to what was sent, unless it fails |
| EpaDbg.EpaDbgClient.RecvReply | epa-ide/epavm_client.py:97-110 | consumes exactly one whole frame, unless it fails |
| EpaDbg.ReplyAccepted | epa-ide/epavm_client.py:103-108 | a reply is accepted if and only if the first four bytes, big-endian, are its length, at most 67108864, and that many bytes follow |
| EpaDbg.EpaDbgClient.Connect | epa-ide/epavm_client.py:44-52 | keeps an existing connection, or opens a fresh one with nothing sent or consumed, or leaves none |
| EpaDbg.EpaDbgClient.Close | epa-ide/epavm_client.py:66-73 | leaves no connection |
| EpaDbg.VerdictCarriesOwnId | epa-ide/epavm_client.py:134-141 | a reply gives a verdict if and only if it carries the caller's own id |
| EpaDbg.AnswerReachesItsCaller | epa-ide/epavm_client.py:133-139 | the encoded result of a call is judged as exactly that result by its own caller and as a failure by any other |
| EpaDbg.ErrorReachesItsCaller | epa-ide/epavm_client.py:133-138 | the encoded error of a call is judged as exactly that error by its own caller and as a failure by any other |
| EpaDbg.RequestIsNoVerdict | epa-ide/epavm_client.py:133-141 | a request sent back under the caller's own id is reported as the error "unknown", under any other id as a failure |
| ExtProxy.DecideFrame | epa-ide/app.py:1307-1324 | forward, answer, or end the thread, as `Decide` |
| ExtProxy.ProxySafe | epa-ide/app.py:1303-1347 | in every interleaving, with any failures: the C++ side has exactly the forwardable frames of a prefix of the Python frames, the Python side a shuffle of the answers to the others, in request order, with an in-order prefix of the C++ frames, and nothing in the prefixes is lost |
| ExtProxy.AnswerCarriesOwnId | epa-ide/app.py:1313-1322 | an intercepted frame is a ping or registration with an id, and its answer decodes to a success response with that id |
| ExtProxy.RequestFate | epa-ide/app.py:1311-1324 | of the encoded requests exactly those named `ext.ping` or `ext.register` whose id is not the empty text are intercepted, each getting the encoded success response with its own id; every other request goes to the C++ side |
| ExtProxy.OthersForwarded | epa-ide/app.py:1323-1324 | encoded responses and notifications, a ping without an id among them, are always forwarded |
| ExtProxy.NothingDropped | epa-ide/app.py:1313-1324 | every frame dealt with is forwarded or answered, never both and never neither |
| ExtProxy.WhyItEnds | epa-ide/app.py:1303-1347 | a thread ends if and only if its loop test finds the other one ended, a frame from the Python side is not to be sent on, or a socket operation fails that it was in the middle of |
| ExtProxy.RunningThreadsMove | epa-ide/app.py:1303-1347 | a thread can take a step until it has ended: receive while frames are to come, and fail in any socket operation |
| ExtProxy.StopEndsBoth | epa-ide/app.py:1303-1347 | once one thread has ended, the other reads at most the one frame it is waiting for, and both together take at most six more steps |
| LevelPath.Viewer.MoveItem | epa-ide/level_path_runtime.py:322-345 | moves and rounds the item's points; an item that is not there moves nothing |
| LevelPath.MovedByDelta | epa-ide/level_path_runtime.py:322-345 | moving an item adds to each coordinate of an area's position, or of both ends of a passage, and rounds; missing coordinates count as 0; no other item, shape or size changes |
| LevelPath.Viewer.BeginDrag | epa-ide/app.py:6400-6408 | remembers the item, where it shows, and the world point under the mouse in the item's plane |
| LevelPath.Viewer.DragTo | epa-ide/app.py:6444-6458 | moves the item by the way the mouse went since the last event |
| LevelPath.ScreenRoundTrip | epa-ide/level_path_runtime.py:79-130 | in all six views, at any zoom, projecting the world point under a screen point gives the screen point back, and the world point keeps the anchor's off-plane coordinate |
| LevelPath.ProjectedIsShown | epa-ide/level_path_runtime.py:79-130 | where a point shows, written out for the six views with the centre at 590 and 451 pixels: it is where the point is projected, and the world point found under a screen point shows there |
| LevelPath.DragErrorBound | epa-ide/app.py:6444-6458 | after k moves, at any views and zooms, each point of the item is on every axis within k half-thousandths of its start plus the way the mouse went in the world |
| LevelPath.DragFollowsMouse | epa-ide/app.py:6400-6458 | after k moves each stored coordinate of the dragged item is, to within k half-thousandths, what it was moved by the way from the anchor to the point that shows under the last mouse position in the item's plane |
| LevelPath.DragMovesOnlyItem | epa-ide/level_path_runtime.py:322-345 | a drag of any length moves no other item and changes no shape or size |
| LevelPath.OffPlaneBound | epa-ide/app.py:6444-6458 | in one view the off-plane coordinate is rounded once however many moves there are, so in total it changes by at most half a thousandth |
| LevelPath.WheelRange | epa-ide/app.py:6379-6383 | a turn of the wheel of at most a thousandth changes nothing; any other changes the zoom by 8 per cent, up or down, as far as it stays between 12 and 220 |
| HitTest.ClosestPoint | epa-ide/level_path_runtime.py:281-290 | the distance is attained on the segment, and it is the least over the segment if and only if the segment is not treated as a point or the point does not lie ahead of its start |
| HitTest.ShortSegmentIsAPoint | epa-ide/level_path_runtime.py:281-290 | a concrete segment shorter than the tolerance on which the distance is not the least |
| HitTest.HitMeansInside | epa-ide/level_path_runtime.py:152-176 | a screen point hits an area if and only if the world point under it lies within the area's extent around its position |
| HitTest.ClickHits | epa-ide/level_path_runtime.py:152-176 | a click hits an area if and only if any world point that shows under it lies within half the area's size of its position on both axes of the view: x and z from above and below, x and y from the front and back, z and y from the sides; sizes left out and the thickness of squares are written out |
| HitTest.HitTestItem | epa-ide/level_path_runtime.py:293-319 | the last area that contains the point, else the last passage within 8 pixels, else nothing |
| HitTest.PassageHit | epa-ide/level_path_runtime.py:304-313 | a passage is hit if and only if some point between where its two ends show is at most 8 pixels away, or its first end, if the ends show in the same place to within 0.000001 pixels |
| HitTest.MiddleIsHalfway | epa-ide/level_path_runtime.py:314-318 | the world point reported for a passage is as far from one end as from the other on every axis |
| TreeLines.TreeDocument.ParseTreeLines | epa-ide/app.py:2008-2027 | every non-blank line becomes one node, listed once and in order under the nearest earlier line of smaller indent or the root; a blank text gives the "Unavailable" child |
| TreeLines.IndentCounts | epa-ide/app.py:2017 | the indent is the number of spaces a line starts with |
| TreeLines.BlankMeansSpaces | epa-ide/app.py:2015-2016 | a line is blank if and only if it holds nothing but white space |
| TreeLines.KeptAll | epa-ide/app.py:2014-2016 | the lines that get a node are exactly those that are not blank |
| TreeLines.TreeDocument.PopTo | epa-ide/app.py:2022-2024 | keeps the stack's indents strictly increasing and stops at the nearest open node of smaller indent |
| TreeLines.GrowTree | epa-ide/app.py:2024-2026 | hanging a line under that node keeps the tree |
| TreeLinesTheorems.PreorderReadsLines | epa-ide/app.py:2008-2027 | for any lines, traversing the tree in preorder lists the root and then exactly the non-blank stripped lines in order |
| TreeLinesTheorems.SubtreeIsRun | epa-ide/app.py:2022-2026 | a node's subtree is the run of lines up to the next one indented no further |
| TreeLinesTheorems.ParentIsUnique | epa-ide/app.py:2024-2025 | a node has one parent, the nearest earlier node of smaller indent |
| TreeLinesTheorems.EveryNodeHasParent | epa-ide/app.py:2024-2025 | every node but the root is somebody's child |
| TreeLinesTheorems.IdsDistinct | epa-ide/app.py:2018-2021 | node ids are distinct |
| EditorText.PositionRoundTrip | epa-ide/ai_rpc.py:973-985 | going from any position to its offset and back gives the position it is clamped to |
| EditorText.OutOfRange | epa-ide/ai_rpc.py:973-978 | a line before the first is read as the first and one past the last as the last; a column before the line as the line's start, and one past its end as its end, which is the end of the text or the place before a newline |
| EditorText.LineEnds | epa-ide/app.py:8179 | every line ends at the end of the text or before a newline and holds none |
| EditorText.OffsetRoundTrip | epa-ide/ai_rpc.py:973-985 | going from an offset to its position and back gives the offset, and the position is valid |
| EditorText.Editor.ReplaceRange | epa-ide/app.py:8169-8210 | replaces the range between the two clamped, ordered ends and reports the totals and the cursor of the new text |
| EditorText.ReplaceIsUndone | epa-ide/app.py:8185-8210 | for any range, reversed or out of bounds too: the text from the range's start to the reported cursor is the replacement, and replacing it by what was there restores the document |
| EditorText.EndsOfOffsets | epa-ide/ai_rpc.py:1040-1045 | reading between the positions of two offsets reads between the offsets |
| EditorText.TotalsChange | epa-ide/app.py:8199-8207 | the reported totals change by exactly what was inserted less what was deleted |
| UndoHistory.EditorTab.ScanSuffix | epa-ide/app.py:5753-5756 | the scan computes the longest common suffix |
| UndoHistory.EditorTab.TextChanged | epa-ide/app.py:5743-5762 | pushes the old text with its caret, keeps the newest hundred, clears redo; an unchanged text changes nothing |
| UndoHistory.EditorTab.Undo | epa-ide/app.py:6627-6639 | restores the last undo entry and pushes the current text to redo |
| UndoHistory.EditorTab.Redo | epa-ide/app.py:6640-6651 | restores the last redo entry and pushes the current text to undo |
| UndoHistory.LongestSuffix | epa-ide/app.py:5753-5756 | the suffix is common to both texts and no longer one is |
| UndoHistory.UndoCaretIsEditPoint | epa-ide/app.py:5748-5757 | when one stretch is replaced and the caret is behind the insertion, at the start of the text too, undo puts the caret behind the deleted stretch |
| UndoHistory.UndoCaretWithoutCaret | epa-ide/app.py:5752-5757 | without a caret, undo puts it behind the stretch in which the two texts differ |
| UndoHistory.SwapCaretIsEditPoint | epa-ide/app.py:6629-6648 | the caret stored by undo and redo stands behind the stretch in which the two texts differ |
| UndoHistory.RunBounded | epa-ide/app.py:5758-5761 | over every run from an empty history the stacks hold at most 100 entries together and every stored caret lies within its own text |
| UndoHistory.EditExtendsTimeline | epa-ide/app.py:5757-5761 | an edit drops what could be redone and puts the new text at the end of the timeline; only at a hundred entries does the oldest text go |
| UndoHistory.UndoMovesBack | epa-ide/app.py:6627-6639 | undo moves one step back along an unchanged timeline of texts |
| UndoHistory.RedoMovesOn | epa-ide/app.py:6640-6651 | redo moves one step on along it |
| UndoHistory.UndoRedoRestores | epa-ide/app.py:6618-6653 | k undos then k redos give back the text and both stacks' texts if and only if there were k entries to undo or none to redo |
| UndoHistory.UndoneOnceTooOften | epa-ide/app.py:6618-6653 | a concrete history that one undo and one redo do not give back |
| TabTable.EditorTabs.OpenFileTab | epa-ide/app.py:5327-5439 | activates an open tab, or replaces the preview, or appends; when the UI refuses the new tab the removed preview stays removed; keeps the table's invariant |
| TabTable.InsertPlace | epa-ide/app.py:5421 | where a list insertion puts a tab, for any position |
| TabTable.EditorTabs.CloseTab | epa-ide/app.py:6586-6602 | removes the tab, renumbers, and activates the nearest one; keeps the table's invariant |
| TabTable.RunKeeps | epa-ide/app.py:5327-5439 | every run of opens, previewing, permanent or failing, and closes keeps the table's invariant |
| TabTable.TableConsistent | epa-ide/app.py:5327-5439 | in every such run the tab at position i has index i, paths are distinct, and at most one tab is a preview |
| TabTable.CloseActivatesNeighbour | epa-ide/app.py:6595-6602 | after closing the tab at c the active tab is the one at min(c, length - 1), and there is none in an empty table |
| TabTable.OpenActivates | epa-ide/app.py:5413-5430 | a successful open makes the opened tab active, and it is in the table |
| TabTable.OpenEffect | epa-ide/app.py:5345-5430 | a newly opened path takes the place of the preview, or the end of the table, and every other tab keeps its place and kind |
| TabTable.ReopenEffect | epa-ide/app.py:5332-5343 | opening an open path moves no tab; opening it permanently ends its being a preview and changes no other |
| TabTable.CloseEffect | epa-ide/app.py:6589-6597 | closing takes out that one tab and leaves the others in their order, previews as they were |
| TabTable.FailedOpenDangles | epa-ide/app.py:5345-5357 | when the UI refuses the new tab, the active tab stays in the table if and only if it was not the preview taken out to make room |
| TabTable.DanglingStep | epa-ide/app.py:5327-5439 | after an action the active tab is missing from the table if and only if the action was a refused open that took it out as the preview, or it was missing already and the action opened and closed nothing |
| TabTable.DanglingExactly | epa-ide/app.py:5327-5439 | after any run the active tab is missing from the table if and only if some refused open of the run took it out and nothing was opened or closed since |
| TabTable.RefusedPreviewDangles | epa-ide/app.py:5345-5357 | a concrete run that ends with an active tab and an empty table |
| TabTable.RpcCloseBreaksNumbering | epa-ide/app.py:8110-8122 | closing a tab over RPC keeps the indices right if and only if it closes the last one |
| TabTable.RpcCloseLeavesGap | epa-ide/app.py:8110-8122 | a concrete table on which it does not |

## Left out

- Floating point: coordinates are reals; `round(x, 3)` is any rounding to a nearest thousandth; `math.hypot` is compared by its square.
- The corner lists of the cut-out rectangles: a rectangle is its box; the four corners listed are that box's.
- Ear clipping of simple polygons with three corners that turn, but by no more than the tolerance: it need not complete (`TinySquareHasNoEar`, `SpikeLosesItsFoot`), and what is then drawn is what `DrawnAreaExact` says. Corners exactly in line do no harm (`SimpleCompletes`).
- The straight-line transforms of the artifact viewer (`_compose_transform`, `_transform_point`, `_mirrored_point`), its projection to the screen, depths, colours, edge lines and all other drawing commands of the artifact viewer.
- Sockets, threads, files and timers: byte sequences, steps taken in any order, and outcomes that may fail. Each lock section is one step; `sendall` of one frame on the proxy's Python socket is taken as atomic although two threads write to it without a lock.
- The epavm client's retry on a socket that would block is part of the network's freedom in `Recv`; `connect_retry` only repeats `connect`.
- JSON and UTF-8: a printer and parser that undo each other, and texts given by their bytes; that `decode` refuses invalid UTF-8 is not modelled. `ext_logic_client.py` and `epavm_client.py` share one codec here; the former's limit of 16 MB is a parameter of `RecvRaw`.
- Content-Length fields with non-ASCII digits or blanks, and Python's limit of 4300 digits in `int()`.
- Writing the refreshed state to the sidebars, and whether a snapshot is still current at the moment it is shown, which the code does not check under the lock.
- Event handlers of the debug adapter client: events reach no table.
- The proxy's branch without a C++ side, which answers requests one by one.
- `str.splitlines()` and non-ASCII white space in the tree builder: it starts from the list of lines and strips ASCII white space. Nodes refer to their children by position instead of by reference.
- The keys of the editor state table, saved histories, and texts set by RPC without an undo entry.
- Tab ids: a tab is named by its path; two paths whose truncated hashes collide are not modelled.
- View-cube clicks, placing primitives, and the preview drawing of the level-path editor.
- Build, debugger and process control, dialogs, menus, document builders, and the C and C++ sources.
