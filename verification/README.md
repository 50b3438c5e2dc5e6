# plugkill, verified

A model of plugkill in Dafny, with proofs. plugkill is a kill switch for a
machine left alone: a daemon watches the hardware buses, and an unexpected
device, a pulled power cable or a closed lid runs a kill sequence. The project
models four parts of it.

**The daemon.** One poll thread and any number of socket handlers share the
configuration, the baselines and one state record.

- `Daemon`, `Allowances`, `Standing`: the shared records, as classes whose
  methods are proved equal to functions on values.
- `Socket`, `Trigger`: the requests, who may make them, and the relay's hand-off.
- `Usb`, `DeviceSets`, `Displays`, `Capture`, `Detect`: snapshots, whitelists,
  allowances, capturing baselines and checking against them.
- `Grace`: the power, network and lid timers and their law over traces.
- `Poll`, `Machine`, `Loop`, `Runs`: the poll loop. `Machine` interleaves its
  steps with requests, `Loop` shows the imperative loop takes exactly those
  steps, `Runs` proves what every run keeps.
- `Duties`: what the daemon owes. Each re-arm is captured for once, each accepted
  kill delivered once, no bus is skipped, no finding is dropped, a reload takes
  effect, a watched bus keeps its baseline.
- `Pairing`, `Readings`, `Timers`, `Corners`: where paired grants come from, which
  readings the baselines hold and how the timers move, over whole runs, and the
  runs that show where a promise ends.
- `Locks`: the lock discipline, deadlock freedom and mutual exclusion.

**The tracer** (`assets/brand/trace.py`): `Raster`, `Background`, `SmoothMask`,
`Contours`, `Rdp`. Images are flat row-major arrays; floats are reals.

**The relay**: `Utf8` (section 4 of RFC 3629), `Wire` (the datagram codec),
`Replay` (the nonce memory and the receive loop).

**Selectors**: `Selectors` (printer and parser over five buses), `Edid`.

Clock readings, hardware readings, the polkit answer and signatures are
parameters. `HashMap` and `HashSet` order is a free choice (`:|`), so what is
proved of a report holds for every order. Time is an unbounded integer of
nanoseconds; `u32` counts and sums, `u16` and `u64` fields keep their widths.

## Assumptions

Each is a `requires` or a hypothesis where it is used.

- A USB reading lists no device with count 0 (`Usb.Counted`), and whitelist sums
  fit in 32 bits (`Usb.Fits`, `Loop.Sums`).
- Connector names are unique in a display snapshot where a display law says so;
  `Displays.SelfAgreement` gives the exact condition without it.
- That the monitor of a display appearance sits on a connected connector that
  differs from the baseline is stated for readings where only a connected
  connector has an EDID (`Displays.Wired`); the source reads no other.
- The grace laws hold for a fixed configuration from one capture on, call by
  call of a checker; `Timers` states them for the checks of a run. A pass that
  stops at an earlier bus makes no call.
- `Background.Background` leaves out an image with rows but no columns, or columns
  but no rows: there the source indexes a cell that does not exist.
- A PCI baseline survives a failed enumeration, so freshness of PCI is "read, or
  its reading failed, since then" (`Readings.ReadSince`).

## What turned out not to hold

The code is modelled as it is; each of these has its exact condition and an
input that shows it.

- A reason longer than 256 bytes is cut at byte 256. If that splits a character,
  every receiver refuses the datagram (`Wire.LongReasons`, `Wire.LongReasonIsLost`).
- A snapshot with a shared connector name can differ from itself
  (`Displays.SelfAgreement`, `Displays.SharedNamesDisagree`); a re-arm is quiet
  exactly when that does not happen (`Capture.FreshCaptureIsQuiet`).
- Parsing undoes printing for well-formed devices only (`Selectors.PrintThenParse`).
  A FreeBSD PCI selector and a USB id with capital letters are not well-formed
  (`Selectors.SomeSelectorsAreLost`).
- Stripping a standing USB baseline would raise a violation with no hardware
  change (`Usb.StrippingAStandingBaselineFires`); only the `usb_captured` guard
  prevents it.
- A PCI grant filters the live side only, so it is silent exactly when the
  baseline holds no such selector (`DeviceSets.PciGrantIsSilentIff`); otherwise it
  reads as a removal (`DeviceSets.AGrantCanReadAsARemoval`).
- A pairing window is held against the clock reading the pass took at its start
  (`Pairing.GrantsComeFromWindows`), so an admission can come later than the
  deadline by the wall clock (`Corners.AdmissionCanComeLate`).
- A kill accepted in enforce mode is dropped, though counted, if the mode is
  learn when it is handled (`Runs.DeliveryActs`, `Corners.AcceptedKillCanBeDropped`).
- The link timer runs while any link that was up is down, not necessarily the
  same one (`Grace.NetworkLaw`, `Grace.TwoLinksShareATimer`).
- The documentation string of `contours` speaks of the filled side with the y
  axis pointing up; image rows point down. The model follows the code.

## Model

| member | source | states |
|---|---|---|
| Background.Visit | assets/brand/trace.py:120-124 | a cell is marked and queued exactly when it carries the background label and was not yet marked |
| Background.SeedColumns | assets/brand/trace.py:125-126 | afterwards both ends of every column that carry the label are marked, and only page cells are |
| Background.SeedRows | assets/brand/trace.py:127-128 | the same for the rows, keeping what was marked |
| Background.Expand | assets/brand/trace.py:130-137 | popping a cell marks its four neighbours of the label, each at most once |
| Background.Drain | assets/brand/trace.py:129-137 | the queue runs empty, and the marked set is closed under 4-neighbours of the label |
| Background.QueueIsBounded | assets/brand/trace.py:116-138 | the queue can take at most as many cells as the image has, so the fill ends |
| Background.AdjacentMeans | assets/brand/trace.py:130-137 | the neighbours of a cell are those at distance one, counted in steps along both axes |
| Background.ClosedSetHoldsPage | assets/brand/trace.py:116-138 | a closed set that holds the border holds every cell a path of label cells joins to it |
| Background.Background | assets/brand/trace.py:116-138 | marks exactly the label cells a 4-connected path joins to the border, and none in an empty image; no cell is queued twice |
| SmoothMask.BuildTable | assets/brand/trace.py:154-161 | the flat summed-area table holds, at every corner, the number of set pixels above and left of it |
| SmoothMask.TableCounts | assets/brand/trace.py:169-170 | the four-corner difference is the number of set pixels in the rectangle |
| SmoothMask.WindowIsRect | assets/brand/trace.py:163-168 | clipping the window to the image gives the rectangle the code takes |
| SmoothMask.FullWindow | assets/brand/trace.py:163-168 | away from the border the window is the square of side 2r + 1 around the pixel |
| SmoothMask.NeverBothWays | assets/brand/trace.py:169-172 | set pixels win only if they outnumber the unset ones, so never in a mask and its negative both |
| SmoothMask.IsMajority | assets/brand/trace.py:163-172 | the verdict is a strict majority of the clipped window, counted pixel by pixel |
| SmoothMask.Smooth | assets/brand/trace.py:141-173 | for every radius: below 1 the mask itself, else each pixel is 1 exactly when most of its clipped window is |
| Contours.Collect | assets/brand/trace.py:178-191 | the edge dictionary lists exactly the directed sides between a set pixel and an unset one, each once |
| Contours.BoundaryKeepsArtOnOneSide | assets/brand/trace.py:183-191 | for each of the four directions, which pixel has to be set and which unset |
| Contours.LastAddedIsTaken | assets/brand/trace.py:196-203 | of the sides that leave a corner the one added last is walked first |
| Contours.BoundaryIsBalanced | assets/brand/trace.py:176-191 | in every mask every grid corner has as many boundary sides leaving as entering |
| Contours.TakeKeepsBalance | assets/brand/trace.py:196-206 | taking a side keeps every corner balanced but for the walk's two ends |
| Contours.NotStuck | assets/brand/trace.py:196-206 | a walk that has not come back always has a side to take |
| Contours.TraceLoop | assets/brand/trace.py:195-206 | every walk ends at its start, and the sides it used are exactly those gone from the dictionary |
| Contours.LongOnesAreKept | assets/brand/trace.py:207-209 | exactly the loops of more than eight points are returned, in order |
| Contours.Contours | assets/brand/trace.py:176-209 | all loops are closed unit-step walks, together they use each boundary side exactly once, and the result is the loops longer than eight points, in order, so no returned loop runs along a side twice |
| Rdp.Scan | assets/brand/trace.py:233-243 | finds the first farthest point strictly inside a stretch, or none |
| Rdp.OffIsASquaredDistance | assets/brand/trace.py:233-240 | on a chord that is not degenerate, the value compared is the squared distance of the point to the chord's line, up to the chord's squared length |
| Rdp.OffOfAPoint | assets/brand/trace.py:237-240 | where the ends coincide or lie less than 1e-9 apart, the value compared is the squared distance to the first end |
| Rdp.BeyondIsFar | assets/brand/trace.py:237-244 | the comparison with eps is one of plain distances, to the point or to the line, on every chord and for every eps |
| Rdp.MarkKept | assets/brand/trace.py:226-247 | the explicit stack ends, and marks exactly the points the recursive definition keeps |
| Rdp.Simplify | assets/brand/trace.py:222-248 | the output is the recursive simplification, for every line and every eps |
| Rdp.SimplifiedIsFaithful | assets/brand/trace.py:222-248 | a subsequence with both ends, and every dropped point lies within eps of the line through its kept neighbours, or of the first of them where they lie less than 1e-9 apart, in plain distances |
| Rdp.KeptAreNeeded | assets/brand/trace.py:229-247 | a kept inner point is the farthest from a chord of kept points, and farther than eps in plain distance |
| Rdp.CoarserKeepsFewer | assets/brand/trace.py:222-248 | a larger eps keeps a subset of the points |
| Rdp.SimplifiedIsStable | assets/brand/trace.py:222-248 | simplifying again with the same eps changes nothing |
| Rdp.SimplifyRing | assets/brand/trace.py:212-219 | a closed ring is opened at its least point, simplified and closed again |
| Rdp.RingIsFaithful | assets/brand/trace.py:212-219 | the anchor is the least point by row and column, kept, first and once; the others follow in ring order, and every dropped ring point lies within eps, in plain distance, of the chord between the kept points on either side of it, also past the end of the list |
| Rdp.RotationDoesNotMatter | assets/brand/trace.py:212-219 | where the least point is unique, the result does not depend on where the ring was cut |
| Utf8.EncodeThenDecode | crates/plugkill-relay/src/protocol.rs:94-97 | encoding any scalars by section 4 of RFC 3629 gives valid bytes that decode to them |
| Utf8.DecodeThenEncode | crates/plugkill-relay/src/protocol.rs:94-97 | every valid byte string is the encoding of what it decodes to |
| Utf8.TableRows | crates/plugkill-relay/src/protocol.rs:94-97 | the ends of every row of the table in section 3 of RFC 3629, and the first example of its section 7 |
| Utf8.ValidBytes | crates/plugkill-relay/src/protocol.rs:94-97 | anywhere in a valid string: no overlong form, no surrogate, nothing past U+10FFFF, no cut character |
| Utf8.CutIsValid | crates/plugkill-relay/src/protocol.rs:49-61 | a prefix is valid exactly when the cut is at a character boundary |
| Wire.Serialize | crates/plugkill-relay/src/protocol.rs:41-66 | appends field by field the frame of the possibly cut reason, then the signature over that frame |
| Wire.FrameLooksLike | crates/plugkill-relay/src/protocol.rs:41-64 | the layout byte by byte, with its constants |
| Wire.HighBytesFirst | crates/plugkill-relay/src/protocol.rs:41-61 | numbers are big-endian |
| Wire.RoundTrip | crates/plugkill-relay/src/protocol.rs:41-113 | every packet with a valid reason of at most 256 bytes comes back unchanged, with the bytes that were signed and the signature |
| Wire.AcceptedIsSerialized | crates/plugkill-relay/src/protocol.rs:70-113 | writing an accepted datagram's packet with its signature gives the datagram back, up to trailing bytes |
| Wire.AcceptedIff | crates/plugkill-relay/src/protocol.rs:70-113 | a datagram is accepted exactly when it starts with a serialized packet |
| Wire.SignedBytesDetermineThePacket | crates/plugkill-relay/src/protocol.rs:41-66 | equal signed bytes, equal packets |
| Wire.LongReasons | crates/plugkill-relay/src/protocol.rs:49-61 | for a reason of any length, accepted exactly when the limit does not split a character |
| Wire.LongReasonIsLost | crates/plugkill-relay/src/protocol.rs:49-61 | a concrete reason that is signed, sent and refused |
| Replay.NonceCache.CheckAndInsert | crates/plugkill-relay/src/crypto.rs:43-53 | reports a nonce among the last 1000, otherwise remembers it and forgets the oldest past the limit |
| Replay.Receive | crates/plugkill-relay/src/listener.rs:52-114 | acts on exactly the datagrams that pass source, signature, time window and nonce, and remembers only those |
| Replay.OneMoreDatagram | crates/plugkill-relay/src/listener.rs:52-88 | a datagram is accepted exactly when it parses, names a known peer, is signed by it over the bytes read, is at most 5 s off the clock and does not repeat one of the last 1000 nonces |
| Replay.Run | crates/plugkill-relay/src/listener.rs:17-116 | over everything received, acts once on each accepted packet, in order |
| Replay.NearbyNoncesDiffer | crates/plugkill-relay/src/crypto.rs:30-53 | any 1001 consecutive accepted nonces are pairwise distinct |
| Replay.ReplayBound | crates/plugkill-relay/src/listener.rs:54-88 | one packet accepted twice: at most 10 s apart, with at least 1000 others in between, each authentic, their nonces all different |
| Replay.AcceptedAreAuthentic | crates/plugkill-relay/src/listener.rs:54-84 | every accepted packet was read from a datagram whose sender is a known peer, whose signature the check accepts for that sender and message, and whose timestamp is at most 5 s off the clock |
| Replay.AuthenticIsAnswered | crates/plugkill-relay/src/listener.rs:54-88 | no datagram that passes those three checks is lost: its nonce is the next accepted one or among the thousand accepted before it |
| Replay.ActionsOfARun | crates/plugkill-relay/src/listener.rs:90-114 | over a whole run every action is taken exactly as often as an accepted kill calls for it: one local kill for each, none on a dry run, nothing for an acknowledgement |
| Replay.KillComesLast | crates/plugkill-relay/src/listener.rs:90-114 | right before each local kill come its acknowledgement and its relaying to the other peers under the reason with `relay:` before it |
| Selectors.PrintThenParse | crates/plugkill-core/src/allowances.rs:53-153 | parsing undoes printing exactly for well-formed devices |
| Selectors.ThunderboltWord | crates/plugkill-core/src/allowances.rs:53-119 | the word thunderbolt, as printed and as read; an empty identity is refused |
| Selectors.SdCardWord | crates/plugkill-core/src/allowances.rs:53-119 | the same for sdcard |
| Selectors.PciWord | crates/plugkill-core/src/allowances.rs:53-113 | the same for pci, where only a Linux address is read |
| Selectors.UsbIdsAreRead | crates/plugkill-core/src/allowances.rs:78-109 | the word usb; an id is printed as it is, and read in either case in small letters |
| Selectors.MonitorsLookLike | crates/plugkill-core/src/edid.rs:56-61 | the word display, and two monitors as printed, with and without a serial |
| Selectors.SomeSelectorsAreLost | crates/plugkill-core/src/allowances.rs:86-153 | two devices whose own selectors do not parse back, concretely |
| Selectors.ParsedIsWellFormed | crates/plugkill-core/src/allowances.rs:86-153 | whatever the parser accepts is well-formed |
| Selectors.ParseThenPrint | crates/plugkill-core/src/allowances.rs:53-153 | for every accepted string, parsing the printed form of what it means gives the same device |
| Selectors.SelectorsAreUnique | crates/plugkill-core/src/allowances.rs:53-84 | different well-formed devices never print the same selector, on one bus or across buses |
| Selectors.MonitorRoundTrip | crates/plugkill-core/src/edid.rs:56-61 | a monitor's printed identity parses back, with manufacturer, product and serial present or absent |
| Selectors.PrintDecimalParses | crates/plugkill-core/src/allowances.rs:137-143 | decimal digits read back as the number |
| Edid.ParseManufacturer | crates/plugkill-core/src/edid.rs:71-82 | the three letters whose five-bit packing the word holds, or none exactly if it packs none |
| Edid.LettersArePacked | crates/plugkill-core/src/edid.rs:71-82 | packed letters are read back, and only packed letters are read |
| Edid.ParseEdid | crates/plugkill-core/src/edid.rs:63-96 | refuses what is not an EDID block; the identity it reads has a selector that parses back; with it comes the name |
| Edid.MonitorName | crates/plugkill-core/src/edid.rs:98-126 | the first name descriptor up to its line feed, with neither end blank, printable ASCII throughout and at most 13 characters |
| Edid.FirstNameCounts | crates/plugkill-core/src/edid.rs:98-126 | where the name is looked for: the first descriptor of the four that carries the tag |
| Edid.LineAndShownMean | crates/plugkill-core/src/edid.rs:108-120 | what is kept of its text, byte by byte |
| Usb.DetectChanges | crates/plugkill-core/src/usb.rs:149-193 | reports nothing exactly when every count is between baseline and baseline plus whitelist, else a true witness, an excess before a loss |
| Usb.AcceptsMeans | crates/plugkill-core/src/usb.rs:149-193 | accepted exactly when every count lies between the baseline's and baseline plus whitelist |
| Usb.LossAndGainAreNoticed | crates/plugkill-core/src/usb.rs:149-193 | fewer of a device than the baseline has, or more than baseline and whitelist together, is never accepted |
| Usb.BuildWhitelist | crates/plugkill/src/main.rs:1902-1916 | the count of each device is what the entries list of it plus one for an active allowance |
| Usb.ListingsAddUp | crates/plugkill/src/main.rs:1904-1909 | entries for one device add up |
| Usb.OneListing | crates/plugkill/src/main.rs:1904-1909 | one entry allows its own device, by its own count, and no other |
| Usb.FreshCaptureAccepts | crates/plugkill/src/main.rs:1106-1128 | a capture stripped of the allowances accepts the hardware it saw, for all counts, whitelists and allowances |
| Usb.RevocationIsNoticed | crates/plugkill/src/main.rs:1094-1128 | after it, revoking an attached device's allowance is silent exactly when the device is listed, and every possible report names that device as appeared |
| Usb.StrippingAStandingBaselineFires | crates/plugkill/src/main.rs:1101-1110 | what the `usb_captured` guard prevents, concretely |
| DeviceSets.DetectChanges | crates/plugkill-core/src/thunderbolt.rs:109-127 | reports nothing exactly when the live set lies between baseline and baseline plus whitelist, else a true witness |
| DeviceSets.LossAndGainAreNoticed | crates/plugkill-core/src/thunderbolt.rs:109-127 | refused exactly when something of the baseline is gone or something new is not whitelisted |
| DeviceSets.EnumeratedMeans | crates/plugkill/src/main.rs:1057-1067 | a card is dropped exactly when its selector contains a configured token or that of an allowed card |
| DeviceSets.FreshCaptureAccepts | crates/plugkill/src/main.rs:1129-1144 | the fresh capture law on the set buses |
| DeviceSets.RevocationIsNoticed | crates/plugkill/src/main.rs:1129-1144 | revoking is silent exactly when the device is listed, and every possible report names that device |
| DeviceSets.StrippingAStandingBaseline | crates/plugkill/src/main.rs:1129-1144 | stripping a standing set keeps every accepted snapshot accepted, and says exactly which others become so |
| DeviceSets.PciGrantIsSilentIff | crates/plugkill/src/main.rs:1057-1067 | a grant is silent exactly when no selector of the baseline contains it |
| DeviceSets.AGrantCanReadAsARemoval | crates/plugkill/src/main.rs:1057-1067 | a grant that is reported as a removal with the card in its slot, concretely |
| DeviceSets.PciRevocationIsNoticed | crates/plugkill/src/main.rs:1057-1067 | after a capture under the grant, revoking reports exactly the devices only the grant was hiding |
| Displays.DetectChanges | crates/plugkill-core/src/display.rs:288-318 | the first difference in the order the code looks, or none exactly when the snapshots agree |
| Displays.FirstDifferenceIsReported | crates/plugkill-core/src/display.rs:288-318 | once a live connector differs, the first of them is reported |
| Displays.AgreeMeansSameReadings | crates/plugkill-core/src/display.rs:288-318 | with unique names, agreement is equality of connector names, connection and identity, monitor names aside |
| Displays.SelfAgreement | crates/plugkill-core/src/display.rs:283-285 | a snapshot agrees with itself exactly when connectors of one name read alike |
| Displays.SharedNamesDisagree | crates/plugkill-core/src/display.rs:283-285 | a concrete snapshot that differs from itself |
| Displays.HideAllowed | crates/plugkill/src/main.rs:1073-1091 | blanks exactly the connectors whose monitor is allowed |
| Displays.BlankedTwice | crates/plugkill/src/main.rs:1073-1091 | blanking is idempotent |
| Displays.BlankedAgreeMeans | crates/plugkill/src/main.rs:1215-1220 | blanked snapshots agree exactly when names, connections and visible identities do |
| Displays.MovingAnAllowedMonitorIsSilent | crates/plugkill/src/main.rs:1068-1072 | an allowed monitor moved between otherwise empty connectors is no change |
| Displays.AStrangerIsNoticed | crates/plugkill/src/main.rs:1068-1072 | another monitor that is not allowed on a connector is always a change |
| Allowances.AllowanceTable.Add | crates/plugkill-core/src/allowances.rs:240-244 | replaces the device's entry and appends, handing back what it replaced |
| Allowances.AllowanceTable.Remove | crates/plugkill-core/src/allowances.rs:247-250 | drops the device's entry, none exactly when there is none |
| Allowances.AllowanceTable.Sweep | crates/plugkill-core/src/allowances.rs:258-264 | splits the table into active and expired, both in order |
| Allowances.AllowanceTable.DueToWarn | crates/plugkill-core/src/allowances.rs:286-299 | hands back and flags exactly the due entries, in order |
| Allowances.RemoveAndAddMean | crates/plugkill-core/src/allowances.rs:240-250 | one device per table is kept; removing hides exactly that device; adding shows it exactly while its own expiry lies ahead |
| Allowances.AddThenRemove | crates/plugkill-core/src/allowances.rs:240-250 | adding a device and removing it again leaves what was allowed before, without that device |
| Allowances.SweepIsInvisible | crates/plugkill-core/src/allowances.rs:258-274 | a sweep at one time changes nothing `active` reports at any later time, order included |
| Allowances.WarnedOnce | crates/plugkill-core/src/allowances.rs:286-299 | what one warning pass reports, no later pass reports again |
| Allowances.NothingExpiresUnwarned | crates/plugkill/src/main.rs:693-711 | warning before sweeping, every entry swept has been warned about |
| Daemon.DaemonState.RecordViolation | crates/plugkill/src/daemon_state.rs:163-181 | the history after it is `Recorded`, and the state stays consistent |
| Daemon.RecordingMeans | crates/plugkill/src/daemon_state.rs:163-181 | at most fifty entries, no two neighbours with the same bus, device and description, the new event's bus, device and description at the head, only the oldest lost and only when full |
| Daemon.DaemonState.AdmitPaired | crates/plugkill/src/daemon_state.rs:208-231 | true exactly when an open window may take the device; then the window closes |
| Daemon.AdmissionMeans | crates/plugkill/src/daemon_state.rs:208-231 | from then on the device is allowed for the window's time to live, and no other allowance changed |
| Daemon.DaemonState.SoonestGrace | crates/plugkill/src/daemon_state.rs:237-247 | the earliest grace among the buses that count, power before network before lid on a tie, none exactly when none runs |
| Socket.HandleRequest | crates/plugkill/src/socket.rs:307-340 | refuses or carries out each request exactly as `Serve` says, and keeps the state consistent |
| Socket.HandleDisarm | crates/plugkill/src/socket.rs:771-800 | refuses 0 and more than 3600 s; otherwise disarmed with that deadline |
| Socket.HandleArm | crates/plugkill/src/socket.rs:802-830 | armed without deadline; a re-capture is scheduled only on leaving a disarm |
| Socket.HandlePair | crates/plugkill/src/socket.rs:917-954 | refuses long windows and zero expiry, closes on 0, otherwise replaces the window |
| Socket.HandleAllowLast | crates/plugkill/src/socket.rs:961-998 | refuses with nothing recorded, no device, or no display identity; otherwise promotes the newest violation's device |
| Socket.HandleRevoke | crates/plugkill/src/socket.rs:1003-1029 | refuses a bad or unknown selector; otherwise drops that allowance |
| Socket.HandleKill | crates/plugkill/src/socket.rs:1052-1078 | root only; counted and refused in learn mode, otherwise queued |
| Socket.ApplyKeepsConsistency | crates/plugkill/src/socket.rs:307-340 | every request keeps armed exactly when no deadline stands, one allowance per device, and the history |
| Socket.AuthorizationMeans | crates/plugkill/src/socket.rs:261-305 | refused exactly when gated, with authentication on, for a caller neither root nor identified and approved; then nothing changes |
| Socket.ArmArms | crates/plugkill/src/socket.rs:802-830 | whoever asks: armed, no deadline, a re-capture pending if one was or a disarm was left, all else as it was, and the answer is yes |
| Socket.PlainRequestsMean | crates/plugkill/src/socket.rs:307-340 | learn learns, enforce enforces, reload asks for a reload, revoke-all allows nothing; each changes that alone |
| Socket.PairedFor | crates/plugkill/src/socket.rs:917-954 | obeyed exactly for windows up to an hour and a time to live other than zero; a device then taken in is allowed for as long as the command said |
| Socket.AllowLastIsRefusedIff | crates/plugkill/src/socket.rs:961-998 | when it is refused, and that it changes the table alone |
| Socket.KillIsRoots | crates/plugkill/src/socket.rs:1052-1078 | queued exactly for root in enforce mode, counted for root in learn mode |
| Socket.UngatedOnlyTightens | crates/plugkill/src/socket.rs:227-252 | an ungated request of a caller that is not root only makes the daemon stricter |
| Socket.RefusedCallersOnlyTighten | crates/plugkill/src/socket.rs:261-340 | with authentication required, any sequence of requests from refused callers that are not root only tightens |
| Socket.GateIsExact | crates/plugkill/src/socket.rs:233-252 | the gated, runnable requests are exactly those that could loosen some state |
| Socket.RevokeMeans | crates/plugkill/src/socket.rs:1003-1029 | drops exactly the device the selector means; refused exactly when it means none or none in the table |
| Socket.AllowLastAllows | crates/plugkill/src/socket.rs:961-998 | allows exactly the newest violation's device until its expiry, and removing it undoes that |
| Socket.PairOpensFor | crates/plugkill/src/socket.rs:939-945 | a window opened for so many seconds takes a device in exactly until then |
| Trigger.TriggerLocalKill | crates/plugkill-relay/src/trigger.rs:20-50 | every trigger ends in a poweroff or in a queued reason; accepted exactly when answered in enforce mode to root |
| Poll.DrainState | crates/plugkill/src/main.rs:684-719 | one locked step: re-arms on expiry, warns, sweeps, closes a spent window, takes the flags and the kill |
| Poll.DrainMeans | crates/plugkill/src/main.rs:684-719 | what the drain hands over and leaves behind, field by field: flags and kill are taken, a spent disarm ends, a spent window closes |
| Poll.WarningsComeInTime | crates/plugkill/src/main.rs:693-711 | after a drain every allowance is active, and those within 60 s of their expiry are flagged, no others newly |
| Poll.DrainKeepsPermissions | crates/plugkill/src/main.rs:693-715 | from then on the drain changes nothing that is allowed or admissible |
| Poll.AdmitOrKeep | crates/plugkill/src/main.rs:900-921 | a violation is swallowed exactly when it is an appearance that names nobody or that the open window takes, and only the second changes the state |
| Poll.HandleViolation | crates/plugkill/src/main.rs:1588-1603 | proceeds in enforce mode; counts in learn mode |
| Grace.Wait | crates/plugkill/src/main.rs:1353-1387 | the waiting branch common to the three checkers |
| Grace.SinceIsRunStart | crates/plugkill/src/main.rs:1331-1345 | the recorded time is the first call of the unbroken run, through vetoes by an open session |
| Grace.GraceLaw | crates/plugkill/src/main.rs:1310-1387 | a call fires exactly when the condition held unbroken for the grace period and nothing vetoes; a standing countdown ends at run start plus grace, which lies ahead |
| Grace.CheckPower | crates/plugkill/src/main.rs:1278-1397 | every branch of the power checker, as one step of the power timer |
| Grace.PowerLaw | crates/plugkill/src/main.rs:1278-1397 | `ac-required` fires at every overdue call, `trigger-once` at the first only, monitor never; after any call a countdown stands exactly while that call waits, and it ends at run start plus grace, which lies ahead |
| Grace.CapturedOnBatteryNeverFires | crates/plugkill/src/main.rs:1325-1329 | a machine captured on battery never fires and never counts down |
| Grace.MonitoredPowerIsIdle | crates/plugkill/src/main.rs:1297-1309 | in monitor mode the baseline follows the last reading and nothing counts down |
| Grace.DetectLinkDown | crates/plugkill-core/src/network.rs:57-83 | a link that was up and is down or gone, none exactly when there is none |
| Grace.LostLinksMean | crates/plugkill-core/src/network.rs:57-83 | a link up at capture and now down or gone is lost; one that was not up then, or is not down now, is not |
| Grace.LinksDown | crates/plugkill/src/socket.rs:391-407 | counts exactly the links that comparison would report |
| Grace.CheckNetwork | crates/plugkill/src/main.rs:1417-1495 | every branch of the network checker |
| Grace.NetworkLaw | crates/plugkill/src/main.rs:1417-1495 | fires exactly when some link has been down in every call for the whole grace period; until then a countdown stands, from the first of those calls |
| Grace.TwoLinksShareATimer | crates/plugkill/src/main.rs:1417-1495 | a call that fires although no single link was down in both readings, concretely |
| Grace.CheckLid | crates/plugkill/src/main.rs:1510-1582 | every branch of the lid checker |
| Grace.LidLaw | crates/plugkill/src/main.rs:1510-1582 | fires exactly when the lid was not closed at capture and has read closed for the whole grace period; until then a countdown stands, from the first of those calls |
| Grace.MonitoredLidIsIdle | crates/plugkill/src/main.rs:1544-1551 | in monitor mode nothing fires, and a closed lid becomes the baseline |
| Timers.RearmResets | crates/plugkill/src/main.rs:1782-1896 | the capture of a re-arm stops every watched timer and starts it on the state just read |
| Timers.PowerLawInRuns | crates/plugkill/src/main.rs:792-856 | in every run, from a capture on and under a standing policy, a power check raises a violation and leaves a countdown exactly as the power law says of the readings of the checks since, whatever requests and other steps come between |
| Timers.NetworkLawInRuns | crates/plugkill/src/main.rs:792-856 | the same for network checks, whose reports are true of the captured links |
| Timers.LidLawInRuns | crates/plugkill/src/main.rs:792-856 | the same for lid checks |
| Capture.SkipAllowed | crates/plugkill/src/main.rs:1106-1149 | strips every bus of the allowances, USB only if it was just captured, PCI not at all |
| Capture.CaptureBaselines | crates/plugkill/src/main.rs:1782-1896 | what each baseline and timer is afterwards, for a re-arm and for a reload, with enumeration failures |
| Capture.ListedBusesCaptured | crates/plugkill/src/main.rs:1797-1847 | USB, Thunderbolt and SD card: none when unwatched, the standing baseline in a reload, else the reading less what is allowed, device by device |
| Capture.PortsCaptured | crates/plugkill/src/main.rs:1877-1896 | PCI and displays, card by card and connector by connector; a failed PCI enumeration and a reload keep the baseline |
| Capture.TimedBusesCaptured | crates/plugkill/src/main.rs:1848-1876 | power, network and lid, and that a timer starts over exactly where its bus was read |
| Capture.FreshCaptureIsQuiet | crates/plugkill/src/main.rs:1782-1896 | after a re-arm no device bus has anything to report on the hardware just seen, exactly when connectors of one name read alike |
| Capture.UniqueNamesAreSteady | crates/plugkill-core/src/display.rs:283-285 | unique connector names suffice for that |
| Capture.ReloadIsQuiet | crates/plugkill/src/main.rs:1823-1895 | a reload never turns accepted hardware into a violation on a bus that was watched and had a baseline, whatever it changes besides lists and filters |
| Detect.CheckUsb | crates/plugkill/src/main.rs:936-968 | silent exactly when the counts are accepted; otherwise it names a device of a true change under an admissible whitelist, as an appearance exactly for an excess, or reports the failed reading as an event |
| Detect.CheckSet | crates/plugkill/src/main.rs:970-1030 | silent exactly when the set is accepted; otherwise it names a device of a true change, as an appearance exactly when it was added, or reports the failed reading as an event |
| Detect.DetectViolations | crates/plugkill/src/main.rs:926-1033 | what the first bus of USB, Thunderbolt and SD card that is not quiet has found, nothing exactly when all are quiet |
| Detect.UsbQuietMeans | crates/plugkill/src/main.rs:936-968 | quiet exactly when read, with every count between the baseline's and baseline plus configured count plus allowance |
| Detect.SetQuietMeans | crates/plugkill/src/main.rs:970-1030 | quiet exactly when read, with nothing of the baseline gone and all else listed or allowed |
| Detect.PciQuietMeans | crates/plugkill/src/main.rs:1156-1195 | quiet exactly when not read, or when what the filters leave is the baseline |
| Detect.DisplayQuietMeans | crates/plugkill/src/main.rs:1203-1230 | quiet exactly when both sides, blanked, read the same |
| Detect.UncoveredUsbAppears | crates/plugkill/src/main.rs:945-968 | while some device exceeds what covers it, the report is an appearance of such a device |
| Detect.ShownMonitorAppears | crates/plugkill/src/main.rs:1203-1257 | the monitor on the first differing connector is what appeared |
| Detect.FirstBusSpeaks | crates/plugkill/src/main.rs:926-1033 | which bus a report is of |
| Detect.CheckPci | crates/plugkill/src/main.rs:1156-1195 | failure is silent, an appearance names a selector that is read and not in the baseline, a removal names nobody, monitor mode moves the baseline |
| Detect.CheckDisplay | crates/plugkill/src/main.rs:1203-1257 | compares both sides blanked; the report is of the first differing connector or of one gone, and what appears is the monitor that change names; monitor mode moves the baseline |
| Detect.DisplayAppearanceIsUncovered | crates/plugkill/src/main.rs:1203-1257 | a monitor reported as appeared is attached in the reading, is not allowed, and differs from the baseline on its connector |
| Detect.DeviceAppearanceIsUncovered | crates/plugkill/src/main.rs:926-1033 | a device reported as appeared is attached in the reading, and neither baseline nor lists nor allowances account for it |
| Loop.PollPass | crates/plugkill/src/main.rs:674-856 | one pass of the imperative loop, with a reading of its own for every step and only the pass's clock reading shared, takes the machine from drain to drain by allowed steps, runs the kill sequence exactly when the machine does, and ends with the configuration a requested reload read |
| Runs.StepKeepsInvariant | crates/plugkill/src/main.rs:674-856 | every step of either kind of thread keeps the invariant |
| Runs.RunsKeepInvariant | crates/plugkill/src/main.rs:674-856 | it holds in every state of every run |
| Runs.UnstampedIsOld | crates/plugkill/src/main.rs:1782-1896 | a baseline not stamped in a step is the old one, dropped, or stripped of what is allowed |
| Readings.StampedIsNew | crates/plugkill/src/main.rs:1782-1896 | a baseline stamped in a step is what the machine answered in that step, less what the allowances cover, on each of the eight buses |
| Runs.ChecksRunOnFreshBaselines | crates/plugkill/src/main.rs:676-727 | in every interleaving, a check's drain found the daemon armed, and every baseline it uses carries the stamp of a step after each re-arm before that drain |
| Readings.ChecksUseFreshReadings | crates/plugkill/src/main.rs:676-727 | in every interleaving, each of the eight baselines a check uses is what the machine answered in a step after each earlier re-arm, less only devices an allowance covered in a step since; for PCI, or its reading failed since |
| Runs.RearmAcceptsWhatItSaw | crates/plugkill/src/main.rs:721-728 | with machine, configuration and allowances as at the re-arm's capture, the device checks that follow find nothing |
| Runs.DisarmsAreBounded | crates/plugkill/src/socket.rs:776-789 | armed exactly when no deadline stands; a deadline is at most 3600 s after its command |
| Runs.DisarmLasts | crates/plugkill/src/main.rs:687-692 | unless someone arms or disarms anew, a disarm stands with its deadline in every state up to the first drain whose clock has reached it, and that drain re-arms and calls for a capture |
| Pairing.PairingIsConserved | crates/plugkill/src/daemon_state.rs:208-231 | admissions never outnumber the pair commands that opened a window; no device is in the table twice |
| Pairing.GrantsComeFromWindows | crates/plugkill/src/main.rs:900-921 | a paired grant appears only by spending an open window before its deadline by the pass's clock; its device was attached in the reading of a check of that pass, and neither baseline nor configuration nor allowance accounted for it |
| Runs.CarriedGoesOn | crates/plugkill/src/main.rs:881-921 | nothing between drain and handling takes a drained kill |
| Runs.KillIsNeverLost | crates/plugkill/src/main.rs:684-852 | within 29 poll steps a queued kill reaches the mode's decision with its reason, armed or disarmed, whatever requests come |
| Runs.AcceptedKillIsHandled | crates/plugkill/src/socket.rs:1052-1078 | the same from the socket's answer on |
| Runs.DeliveryActs | crates/plugkill/src/main.rs:1588-1603 | the kill sequence runs exactly in enforce mode; in learn mode the kill is counted |
| Duties.CapturesFollowRearms | crates/plugkill/src/main.rs:717-728 | over any stretch of any run, re-captures do not outnumber re-arms, but for what was owed at its start |
| Duties.OneCapturePerRearm | crates/plugkill/src/main.rs:717-728 | two passes that re-capture have a re-arm between their drains or in the second |
| Duties.ArmIsObeyed | crates/plugkill/src/socket.rs:802-830 | after an arm that leaves a disarm, the next drain goes to the capture, in an armed pass unless a new disarm was obeyed |
| Duties.DeliveriesAreAccepted | crates/plugkill/src/main.rs:717-719 | in no run are more kills delivered than the socket accepted |
| Duties.DeliveredWasAccepted | crates/plugkill/src/main.rs:717-719 | every delivered reason is one the socket accepted before |
| Duties.EveryBusIsChecked | crates/plugkill/src/main.rs:792-818 | within fourteen steps of an armed drain without a kill, its pass makes each of the checks, or an earlier one has raised a violation |
| Duties.NothingIsOverlooked | crates/plugkill/src/main.rs:792-818 | a device check passes exactly what is quiet, or in monitor mode anything |
| Duties.AdmittedOrKept | crates/plugkill/src/main.rs:900-921 | an open window takes in exactly an appearance it may take, for its time to live; all else is kept |
| Duties.FindingsAreActedOn | crates/plugkill/src/main.rs:820-853 | within three steps what was found is taken in by the window, or recorded at the head and put to the mode's decision |
| Duties.ReloadTakesEffect | crates/plugkill/src/main.rs:730-783 | a reload asked for is done within eighteen steps: the flag is taken, and what it yields, if it does, is the configuration from then on |
| Duties.PollChangesFlagsOnce | crates/plugkill/src/main.rs:674-856 | the poll thread never changes the mode, and each flag at one point of the pass only |
| Duties.PollChangesRecordsOnce | crates/plugkill/src/main.rs:674-856 | the same of baselines, timers, configuration, history, count and allowances |
| Duties.BaselineStands | crates/plugkill/src/main.rs:1782-1896 | exactly when a bus has a baseline after a step |
| Duties.WatchedKeepsItsBaseline | crates/plugkill/src/main.rs:1782-1896 | while a bus stays watched only a failed re-capture loses its baseline, and a reload never does |
| Corners.AcceptedKillCanBeDropped | crates/plugkill/src/main.rs:841-851 | from any start in enforce mode, a run that accepts a kill, delivers it in learn mode and runs no kill sequence |
| Corners.AdmissionCanComeLate | crates/plugkill/src/main.rs:900-921 | a run that admits a device after the window's deadline by the clock of that moment |
| Locks.CodeIsDisciplined | crates/plugkill/src/socket.rs:429-437 | every stretch of the poll thread and the handlers takes config, baselines and state in that order; only the poll thread writes config or reads it twice |
| Locks.CapturesTake | crates/plugkill/src/main.rs:1782-1896 | what a re-capture and a reload take; only a reload writes the configuration |
| Locks.ChecksTake | crates/plugkill/src/main.rs:926-1400 | what the checks of the device buses and of power, lid and display take |
| Locks.PortChecksTake | crates/plugkill/src/main.rs:1156-1495 | the same for network and PCI |
| Locks.OthersTake | crates/plugkill/src/socket.rs:429-437 | the same for every other stretch of code |
| Locks.RunsAreSafe | crates/plugkill/src/main.rs:684-856 | for any number of threads and any schedule the order is kept, and no lock is shared with a writer |
| Locks.WritersAreAlone | crates/plugkill/src/socket.rs:429-437 | while a thread holds a lock for writing no other holds it; only the poll thread takes the configuration to write |
| Locks.TakenInOrder | crates/plugkill/src/socket.rs:429-437 | nothing is taken under the state, only the state under the baselines, and the configuration again only by the poll thread, to read |
| Locks.NoWaitCycle | crates/plugkill/src/socket.rs:429-437 | no reachable state has a cycle of waiting threads, even if waiting writers block readers |
| Locks.SomeThreadCanMove | crates/plugkill/src/socket.rs:429-437 | whenever a thread is in the middle of something, some thread can move |

## Left out

- The kill sequence (shredding, commands, swap, poweroff): one abstract event.
- Enumeration over sysfs, D-Bus, logind, devd, libusb and ioctls: readings are parameters. The name maps of detailed enumeration are not part of this model, so USB, Thunderbolt and SD violations carry no name.
- Message texts: the wording of violations after the bus prefix, journal lines and JSON replies. Two USB reports for one device count as different events only if their texts do; the model's texts are coarser.
- Sorting in `DisplaySnapshot::from_connectors`: a snapshot is its connectors in any order.
- Overflow of `Instant` for very large expiries: time is unbounded.
- Rounding in the tracer: lengths and cross products are reals, compared squared, so no square root is taken. Label finding, quantization and the spline output are not part of this model.
- Ed25519 and randomness: signing and verifying are uninterpreted functions.
- DNS, UDP sockets, the `fan_out` timing loop, the relay watcher, the graphical client, command line, TOML and JSON.
- Command-line switches applied to a reloaded configuration: what a reload yields is a parameter.
- Grace laws across a reload that changes a policy: stored start times can outlive it.
- Capture.CaptureBaselines: one step, although the code takes the state lock several times inside it; between those the handlers touch neither the timers nor the baselines.
- Socket.HandleRequest: authorization and execution are one step; in the code the configuration may change between the two.
- Locks.CodeIsDisciplined: blocking on I/O under a lock is not modelled, nor is lock poisoning after a panic.
- Usb.BuildWhitelist: requires that sums fit in 32 bits; the code would panic or wrap past that.
- Background.Background: an image with exactly one side of length 0 is left out, see above.
