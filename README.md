# NanoLeaf skill: cinema mode and the setup latch

This project models the core of the NanoLeaf voice skill in Dafny. That core is
the per-frame step of cinema mode (`do_cinema_mode`) and the settings latch
(`on_websettings_changed`).

- Cinema mode takes the panel-ID list the fixture reports and splits it into a
  lower anchor (the first ID), an upper anchor (the last ID) and a ring (the
  IDs between them). It then listens for UDP datagrams from the ambient-light
  sender. Zone `i` of a datagram is bytes `3i`, `3i+1` and `3i+2`. Each ring
  panel becomes one or two `panel_set` calls on the fixture's effect stream.
  The ring's first panel is mirrored onto the lower anchor, and its last panel
  onto the upper anchor. After each whole frame the loop asks `terminate()`
  whether to stop.
- The settings latch copies the fixture address and token from the web
  settings. It does so until both are non-empty, then keeps them.

Modules:

- `CinemaTopology` (`topology.dfy`): the split of the panel list.
- `CinemaFrame` (`frame.dfy`): the received bytes, zone colours, the mirror
  branches and the calls of one frame. These are pure functions.
- `CinemaSession` (`session.dfy`): the effect stream as a class that records
  its calls, and the frame and session loops as methods. The methods are
  proved against the functions `FrameOf` and `CinemaMode`.
- `SkillSettings` (`settings.dfy`): the latch as a class with the fields
  `isSetup`, `ipString` and `tokenString`, specified by the function
  `OnChanged`.

The model follows the code as written:

- The mirror branches compare panel IDs, not positions.
- With a one-panel ring the first branch wins: the lower anchor and the panel
  are written, and with distinct IDs the upper anchor is never written, although
  mirroring might suggest that both anchors take the panel's colour.
- A datagram with too few bytes raises IndexError partway through the frame.
  The calls for the zones before it have already gone out, and the thread
  ends. The code has no check that would skip such a frame.
- `recvfrom(21)` cuts a longer datagram to its first 21 bytes. A ring of more
  than seven panels therefore always ends in IndexError.
- Fewer than three panels also raise IndexError: at `my_panels[0]` for an
  empty list, and at `PanelIDs[0]` for one or two panels.

The `while True` loop is driven by a finite sequence of `Tick`s. Each tick is
one datagram plus the value `terminate()` returns after that frame. When the
ticks run out, the run ends as `Listening`, which stands for being blocked in
`recvfrom`.

## Model

| member | source | states |
|---|---|---|
| `CinemaTopology.Split` | __init__.py:107-112 | The split succeeds exactly when at least three panels are reported (otherwise IndexError), and the result has a non-empty ring whose ends are `first` and `last`. |
| `CinemaTopology.SplitReassembles` | __init__.py:108-112 | Lower anchor, then ring, then upper anchor gives back the reported list; `first` is the second ID and `last` the next-to-last. |
| `CinemaFrame.Receive` | __init__.py:126 | What `recvfrom(21)` delivers is a prefix of the datagram, of length min(length, 21). |
| `CinemaFrame.ZoneColour` | __init__.py:135-141 | No contract of its own: it reads bytes 3i, 3i+1 and 3i+2 as red, green and blue. The round trip with the sender's layout is stated by `ZoneColourEncodes` and `DecodeEncode`. |
| `CinemaFrame.ZoneColourEncodes` | __init__.py:135-141 | A zone's colour, laid out again as one triple, is exactly that zone's three received bytes. |
| `CinemaFrame.DecodeEncode` | __init__.py:135-141 | Reading zone `i` (bytes 3i, 3i+1, 3i+2) of a frame laid out one triple per zone gives back that zone's colour unchanged. |
| `CinemaFrame.ZoneCalls` | __init__.py:142-151 | A panel equal to any of the four mirror IDs (lower, first, upper, last) gives two calls, any other panel one. The remaining properties of the branches are in `ZoneCallsShape`, `SinglePanelRing` and `DistinctFrameCalls`. |
| `CinemaFrame.ZoneCallsShape` | __init__.py:142-151 | Every call for a zone carries the zone's colour. The zone's own panel is always written. A panel equal to the lower anchor or the first panel writes only those two IDs, never the upper branch. |
| `CinemaFrame.Calls` | __init__.py:131-152 | The first `k` zones together issue between `k` and `2k` calls. |
| `CinemaFrame.ZonesReceived` | __init__.py:135-141 | The number of zones that complete is the largest count whose triples all fit in the received bytes; the next zone's triple is incomplete. |
| `CinemaFrame.FrameOf` | __init__.py:131-152 | A frame fails (IndexError) exactly when the buffer is shorter than 3 bytes per ring panel; otherwise it issues the calls of every zone. |
| `CinemaFrame.ShortFrameIsPrefix` | __init__.py:131-152 | A buffer too short for the ring issues exactly the calls of its `len / 3` complete zones, as any complete buffer starting with the same bytes issues them for those zones. So these calls are a prefix of that buffer's frame. |
| `CinemaFrame.WholeFrameNeedsSmallRing` | __init__.py:126-141 | A frame goes out whole exactly when the datagram holds 3 bytes per ring panel and the ring has at most 7 panels. |
| `CinemaFrame.SinglePanelRing` | __init__.py:142-151 | With a one-panel ring, a frame is exactly `panel_set(lower, c)` then `panel_set(first, c)`; with distinct IDs the upper anchor is never written. |
| `CinemaFrame.DistinctFrameCalls` | __init__.py:131-152 | With distinct IDs and a ring of N >= 2 panels, a whole frame is exactly N+2 calls: lower and first with zone 0's colour, each interior ring panel with its own zone's colour, then upper and last with zone N-1's colour. |
| `CinemaFrame.DistinctFrameIds` | __init__.py:131-152 | Under the same conditions, the IDs a whole frame writes are the reported list with its last two entries swapped (upper anchor before the last ring panel). |
| `CinemaFrame.DistinctFrameWritesEachPanelOnce` | __init__.py:131-152 | Under the same conditions, a frame writes every reported panel exactly once (the multiset of written IDs equals the panel list). |
| `CinemaFrame.FivePanelExample` | __init__.py:131-152 | For panels 1..5 and the frame (10,20,30) (40,50,60) (70,80,90): panels 1 and 2 get the first colour, panel 3 the second, then 5 and 4 the third. |
| `CinemaSession.Turns` | __init__.py:125-141 | Turn `j` of the loop is the frame dispatched for datagram `j` after `recvfrom(21)`, together with `terminate()`'s answer. |
| `CinemaSession.Loop` | __init__.py:125-155 | A run uses at most one turn per datagram. Its exit, the turns it continues through and the calls it sends are stated by `LoopExit`, `LoopContinuesUntilExit` and `LoopSendsFramesInOrder`. |
| `CinemaSession.CinemaMode` | __init__.py:104-156 | A run uses at most one datagram per tick. It crashes before using any datagram exactly when fewer than three panels are reported, and then it has sent nothing. |
| `CinemaSession.LoopContinuesUntilExit` | __init__.py:125-155 | Every turn before the last one used sent a whole frame and was not asked to stop. |
| `CinemaSession.LoopExit` | __init__.py:125-155 | A run stops exactly when its last frame went out whole and `terminate()` then said true. It crashes exactly when its last frame ran out of bytes. It is still listening exactly when every turn was used without either. |
| `CinemaSession.LoopSendsFramesInOrder` | __init__.py:125-155 | What a run sent is the calls of the frames it used, appended one after another. |
| `CinemaSession.StoppedRunSendsWholeFrames` | __init__.py:125-155 | A run that stops has received a full triple for every ring panel in each datagram it used. Only the last turn it used asked to stop. What it sent is those whole frames in order. |
| `CinemaSession.DistinctStoppedRunLength` | __init__.py:104-156 | With distinct IDs and a ring of at least two panels, a stopped run sent exactly one call per reported panel for each frame. |
| `CinemaSession.EffectStream.PanelSet` | __init__.py:143-151 | Each `panel_set` call appends exactly one record of the panel and colour to the stream. |
| `CinemaSession.SetZone` | __init__.py:142-151 | The mirror branches for one ring panel append exactly that zone's calls to the stream. |
| `CinemaSession.DispatchFrame` | __init__.py:130-152 | The for loop appends the calls of `FrameOf` to the stream and reports failure exactly when `FrameOf` fails. |
| `CinemaSession.DoCinemaMode` | __init__.py:104-156 | The loop's recorded calls and its way of ending are those of `CinemaMode`. |
| `SkillSettings.OnChanged` | __init__.py:85-95 | A set-up skill is left unchanged. An unset skill becomes set up exactly when the address and token it has just taken are both non-empty. |
| `SkillSettings.LatchClosesOnComplete` | __init__.py:86-93 | After a settings change the skill is set up exactly when it already was or both the address and the token are non-empty. |
| `SkillSettings.ChangesKeepValid` | __init__.py:45-95 | The initial state, and every state reached by settings changes, is either not set up or holds a non-empty address and token. |
| `SkillSettings.LatchIsSticky` | __init__.py:85-95 | Once set up, no series of later settings changes alters the address or the token. |
| `SkillSettings.LatchKeepsFirstComplete` | __init__.py:85-95 | Starting unset, a series of changes leaves the skill set up with the address and token of the first change in which both were non-empty. |
| `SkillSettings.LatchOpenTracksLatest` | __init__.py:86-88 | Starting unset, if no change carried both settings, the skill stays unset and holds what the last change carried. |
| `SkillSettings.NanoLeafSkill.constructor` | __init__.py:45-48 | A new skill is not set up and holds an empty address and token. |
| `SkillSettings.NanoLeafSkill.OnWebSettingsChanged` | __init__.py:85-95 | The fields after the call are `OnChanged` of the fields before it and the current settings. |

## Left out

- UDP socket creation, `bind` and `recvfrom` (lines 118-119, 126) are I/O. Each datagram is an input byte sequence, and the 21-byte receive buffer is modelled by `Receive`.
- The Aurora library calls are foreign network calls and are not modelled: `Aurora(...)`, `on`, `brightness`, `effect_stream` and `panel_positions` (lines 98-102, 120-124). The panel list is an input. The effect stream is a class that only records `panel_set` calls.
- `sleep(1)` (line 123) and the log lines have no effect on the calls and are not modelled.
- The thread handling is concurrency and is not modelled: the `NewThread` holder, the start and stop intent handlers, the lambda stop flag and `join` (lines 35-38, 158-172). `terminate()`'s answer after each frame is an input.
- The `while True` loop never ends by itself; the model runs it over a finite sequence of datagrams and reports `Listening` when they run out.
- CinemaSession.Loop: its own contract states only that it uses at most one turn per datagram; the lemmas about it carry the rest.
- Exceptions are modelled only for the IndexErrors the core raises itself. Socket and network errors come from code outside this model.
- The core has no fail-safe shutdown, socket close, receive timeout or malformed-frame skip, so nothing is claimed about them.
- The colour-name handler (lines 207-228) depends on the `colour` library's floating-point RGB values and a regular expression; it is not part of this model.
- The token retrieval and the on, off and dim handlers (lines 174-205) are single calls into the Aurora library; they are not part of this model.
- Intent registration, `initialize`, `speak`, `stop` and `create_skill` (lines 54-83, 234-240) are framework plumbing. The web settings store is an input map.
- Panel IDs are unbounded integers. Bytes are integers from 0 to 255, as Python's `list(bytearray)` yields them.
