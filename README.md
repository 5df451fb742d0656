# BMW CAN diagnostic tool: the byte-level core in Dafny

The tool talks to BMW headlight and gear-lever control units over CAN. Its
diagnostic logic sits inside Tk pages and background threads. This project
models that logic as sequential Dafny code and proves what it promises:

- UDS ReadDataByIdentifier (service 0x22 of ISO 14229-1) over ISO 15765-2
  segmentation with extended addressing, in two clients. The table page
  (`bmw.py`) is strict: it raises on a wrong address, a negative answer or an
  unknown PCI, and caps the payload. The trigger finder
  (`bmw_gui/trigger_finder.py`) is lenient: it skips what does not fit until
  its timeout, and restarts its timer after every consecutive frame.
- The LED, AHL and LWR decoders of the table page. Also the value table they
  fill.
- The trigger finder's ground-truth detectors, each with its mutable
  baseline. Also the detector factory, and the main loop: a five-second ring
  of frames, rising-edge events, and the id and bit counters.
- The byte-field tokens of the bulk sender. Also the key validator, the two
  enumeration orders of the combinations, burst batching and the abort flag.
- The gear-lever page's press/hold/release/park state machine and the frames
  it sends.
- The automatic SA search: hex parsing, profiles, the request for each SA,
  and the rule that ends the wait for an answer. Also the result table the
  worker's events update, and the semicolon CSV export.

How the model stands in for what it cannot run:

- **Transport.** The bus is a finite sequence of polls
  `Poll(tick, Option<Frame>)`. `None` is a receive that returned nothing. The
  end of the sequence stands for silence until every deadline has passed.
- **Time.** Ticks are milliseconds. A wait opened at poll `s` examines poll
  `j` exactly when `polls[j].tick - polls[s].tick < timeout`.
- **Sent frames.** What the code sends is returned as a log of frames.
- **Stop and abort flags.** These are a `Cancel` value, `Never` or
  `From(n)`. The flag reads set from its `n`-th check on.
- **Objects.** Objects whose fields the source updates are classes:
  - `Detectors.Detector`;
  - `Correlator.Runner`;
  - `GearLever.Lever`;
  - `Decoders.ValueTable`;
  - `AutoSearchPage.Page`.
- **Loops.** Loops are methods, each proved equal to a recursive
  specification function. The properties are lemmas about those functions.

## Model

| member | source | states |
|---|---|---|
| Text.StripSpec | bmw_gui/can_utils.py:73 | `strip()` keeps an infix with no whitespace at either end and removes only whitespace |
| Text.PyInt16TwoChars | bmw_gui/can_utils.py:80 | two non-blank characters pass `int(s, 16)` iff both are hex digits or the first is a sign and the second a digit |
| Text.PyInt16OneChar | bmw_gui/ui/pages/test.py:128 | a single character passes `int(s, 16)` iff it is a hex digit |
| Text.PyInt16HexByte | bmw_gui/can_utils.py:80 | every byte's upper-case two-digit rendering reads back as that byte |
| Text.FmtBytes | bmw_gui/can_utils.py:31-32 | `fmt_bytes` of n > 0 bytes has length 3n-1; of none it is empty |
| Text.FmtBytesLayout | bmw_gui/can_utils.py:31-32 | byte i sits as its two upper-case hex digits at position 3i, followed by a blank unless it is last |
| Text.FromHexFmtBytes | bmw_gui/can_utils.py:31-32 | `bytes.fromhex` of `fmt_bytes(bs)` gives `bs` back |
| Text.FromHexHexString | bmw.py:794 | `bytes.fromhex` of the concatenated `:02X` renderings gives the bytes back |
| HexToken.NormalizeOutcomes | bmw_gui/can_utils.py:66-81 | `normalize_hex_byte` is a wildcard iff the cleaned text is "", "?" or "??"; it fails on length iff the padded text is not two characters; a token it accepts is the padded text, exactly two characters, accepted by `int(s, 16)` |
| HexToken.NormalizeRoundTrip | bmw_gui/can_utils.py:73-81 | the upper- or lower-case two-digit hex of any byte normalises to its upper-case two-digit hex |
| HexToken.NormalizeIdempotent | bmw_gui/can_utils.py:73-81 | on one or two hex digits, normalisation gives the padded upper-case text, and normalising that again gives the same |
| HexToken.SignedTokenAccepted | bmw_gui/can_utils.py:80-81 | "+1" is accepted as a token |
| HexToken.NormalizeOneChar | bmw_gui/can_utils.py:76-81 | a single remaining character is accepted iff it is a hex digit or whitespace |
| HexToken.NormalizeTwoChars | bmw_gui/can_utils.py:78-81 | two remaining non-blank characters are accepted iff both are hex digits or the first is a sign |
| HexToken.ValidatedNormalizes | bmw_gui/ui/pages/test.py:120-130 | whatever the key validator lets into a field, normalisation accepts |
| HexToken.BlankTokenDisagreement | bmw_gui/ui/pages/test.py:120-130 | the field "0X 0X" is refused by the validator yet normalised to the token "0 " |
| HexToken.BlankTokenNotIdempotent | bmw_gui/can_utils.py:73-81 | the token "0 " normalises again to "00" |
| HexToken.TokensFromBoxes | bmw_gui/can_utils.py:83-94 | the accumulating loop computes `Tokens(values)` |
| HexToken.TokensInOrder | bmw.py:208-220 | a successful `tokens_from_boxes` gives one token per field, in order, each the field's normalisation, for any number of fields |
| HexToken.TokensCount | bmw_gui/can_utils.py:87-94 | the variant count is 256^k for k wildcard tokens |
| HexToken.TokensFailFast | bmw_gui/can_utils.py:89-90 | the list succeeds iff every field normalises; a failure is the first failing field's error |
| HexToken.TokensFailureSticks | bmw_gui/can_utils.py:89-90 | once a prefix fails, the whole list fails with that error |
| HexToken.TotalBounds | bmw_gui/can_utils.py:87-94 | the variant count is at least 1, and exactly 1 iff no field is a wildcard |
| Enumeration.ProductAt | bmw.py:1499 | `itertools.product` puts the choice vector idx at its mixed-radix rank, last field fastest |
| Enumeration.ProductMembers | bmw.py:1499 | the product holds exactly the combinations that pick one choice per field |
| Enumeration.ProductNoDup | bmw.py:1499 | with no repeated choice in a field, no combination repeats |
| Enumeration.ProductLength | bmw.py:1499 | the product has as many combinations as the product of the choice counts |
| Enumeration.FirstFastestAt | bmw_gui/ui/pages/test.py:307-309 | `combo_iter` puts the choice vector idx at its rank with the first field fastest |
| Enumeration.FirstFastestMembers | bmw_gui/ui/pages/test.py:307-309 | `combo_iter` yields exactly the product's combinations, each once |
| Enumeration.FirstFastestLength | bmw_gui/ui/pages/test.py:307-309 | `combo_iter` yields as many combinations as the product |
| BulkSend.MaxParallel | bmw_gui/ui/pages/test.py:271 | the burst size is at least 1, and the entered value when that is positive |
| BulkSend.ChoiceFits | bmw_gui/ui/pages/test.py:287 | a wildcard field runs over all two-digit bytes without repeats; a fixed field holds only its token |
| BulkSend.ChoicesSize | bmw_gui/ui/pages/test.py:287 | the number of combinations is the variant count of `tokens_from_boxes` |
| BulkSend.ComboIterSpec | bmw_gui/ui/pages/test.py:287-309 | `combo_iter` yields exactly the combinations that fit the tokens, each once, 256^k of them |
| BulkSend.OrdersDiffer | bmw.py:1476-1499 | with two wildcards, the second combination is 01 00 on the test page and 00 01 on the `bmw.py` page |
| BulkSend.ConfirmationThresholds | bmw_gui/ui/pages/test.py:283 | more than 65536 variants iff three or more wildcards; more than 4096 (`bmw.py:1468`) iff two or more |
| BulkSend.EncodeHexFields | bmw_gui/ui/pages/test.py:334-335 | a combination of two-digit hex fields builds a frame with one byte per field, of the field's value |
| BulkSend.SignedFieldFails | bmw_gui/ui/pages/test.py:334-335 | a signed field that normalisation accepted makes `bytes.fromhex` raise |
| BulkSend.Transmit | bmw_gui/ui/pages/test.py:333-341 | the send loop of a burst computes `SendBurst` |
| BulkSend.SendBurstSpec | bmw_gui/ui/pages/test.py:333-341 | a burst sends its combinations' frames in order up to the first that cannot be built, and is complete iff there is none |
| BulkSend.SendBurstAppend | bmw_gui/ui/pages/test.py:333-341 | sending a then b is sending a + b, and nothing of b goes out once a raised |
| BulkSend.ListenWindow | bmw_gui/ui/pages/test.py:343-360 | the receive-window loop computes `Listen` |
| BulkSend.ListenSpec | bmw_gui/ui/pages/test.py:343-360 | the window takes in-time polls while the abort flag reads clear, records every frame, checks the flag once per poll, and stops at the end, the deadline or the check that reads set |
| BulkSend.FlushBurst | bmw_gui/ui/pages/test.py:325-368 | sending a full burst computes `Flush` |
| BulkSend.SendCombos | bmw_gui/ui/pages/test.py:314-409 | the burst loop and the last burst compute `SendAll` |
| BulkSend.SendingSpec | bmw_gui/ui/pages/test.py:314-368 | from any loop head, the burst loop ends raised on an unbuildable combination or at a loop head, with every earlier combination sent in whole bursts |
| BulkSend.SendAllSpec | bmw_gui/ui/pages/test.py:314-409 | the frames go out in `combo_iter` order as a prefix of all frames, each with its log row; raising stops at the first unbuildable combination; an `ok` run sent everything; a count that is not a whole number of bursts means a raise or the end of the enumeration; without abort every buildable enumeration completes |
| BulkSend.LastBurst | bmw_gui/ui/pages/test.py:370-409 | a loop that ended with a pending shorter burst sends it and completes the enumeration, unless the listen window is aborted |
| BulkSend.NoLastBurst | bmw_gui/ui/pages/test.py:314-370 | a loop that ended with no pending burst sent a whole number of bursts, a prefix of all frames, and everything when `ok` |
| BulkSend.OnSend | bmw_gui/ui/pages/test.py:262-425 | `on_send` computes `SendOutcome` |
| BulkSend.CompletedSendsAll | bmw_gui/ui/pages/test.py:314-425 | a completed send sent one frame per combination, in `combo_iter` order, as many as the variant count |
| BulkSend.FlushHeeds | bmw_gui/ui/pages/test.py:331-364 | one flush sends at most its burst; when its receive window reads the abort flag set, the run is no longer `ok` |
| BulkSend.HeedsSending | bmw_gui/ui/pages/test.py:314-364 | the burst loop takes each combination at a check that read the flag clear, so no more frames go out than clear checks; a loop that raised never read the flag set |
| BulkSend.AbortStopsSending | bmw_gui/ui/pages/test.py:314-420 | once the abort flag is set no new burst starts: at most as many frames as clear checks, at most two checks after the first that reads it set, no `ok` after it, and when the loop itself read it the shorter last burst is dropped, so only whole bursts went out |
| BulkSend.AbortedSendBound | bmw_gui/ui/pages/test.py:262-425 | with the flag set from check c on, the page sends at most c frames and logs at most c rows |
| BulkSend.AbortedAtStart | bmw_gui/ui/pages/test.py:316-319 | with the flag set at the first check, nothing is sent and the status is "aborted" |
| BulkSend.NoAbortCompletes | bmw_gui/ui/pages/test.py:311-425 | with valid inputs and no abort, every buildable enumeration is sent and the status is OK |
| BulkSend.DeclinedNeedsThreeWildcards | bmw_gui/ui/pages/test.py:283-285 | only three or more wildcards make the page ask, so only then can it be declined |
| BulkSend.LegacySend | bmw.py:1497-1519 | the `bmw.py` send loop computes `LegacySending` |
| BulkSend.LegacySendingSpec | bmw.py:1497-1519 | the `bmw.py` loop sends one frame per combination up to the first it cannot build |
| BulkSend.LegacySendsProduct | bmw.py:1446-1529 | the `bmw.py` page sends in `itertools.product` order and reports OK iff every combination was built |
| UdsStrict.Pad8 | bmw.py:1232-1234 | a received frame is right-padded with zeros to 8 bytes, and longer data is kept whole |
| UdsStrict.RecvUntilLoop | bmw.py:1224-1240 | the polling loop computes `RecvUntil` |
| UdsStrict.RecvUntilScan | bmw.py:1224-1240 | `_recv_until` returns the first in-time frame from the id, padded; it returns None iff the stream ends or the wait runs out first |
| UdsStrict.UdsReadByIdentifier | bmw.py:1242-1273 | the request, first answer and `while True` reassembly compute `ReadByIdentifier` |
| UdsStrict.FlowControlBeforeDidCheck | bmw.py:1245-1262 | the request goes first; flow control follows iff the first answer is a first frame with the right address, even when "Negative Antwort (FF)" follows |
| UdsStrict.StrictErrors | bmw.py:1248-1273 | "no valid answer" iff no answer or a wrong address; "unexpected PCI" iff any PCI other than 0x0 and 0x1, 0x2 included |
| UdsStrict.SingleFramePayloadBound | bmw.py:1253-1257 | a single-frame answer in classic frames carries at most 3 payload bytes |
| UdsStrict.ConsecutiveBound | bmw.py:1264-1270 | reassembly from a 2+6k payload stops at no more than 134 bytes and keeps the 2+6k shape |
| UdsStrict.FirstFramePayloadBound | bmw.py:1259-1271 | a successful first-frame read over classic frames returns at most 134 bytes, 2+6k of them |
| UdsStrict.RecvOpen | bmw.py:1264-1265 | each `_recv_until` of the reassembly opens its own wait: at the start, or just after the last frame from the response id |
| UdsStrict.ConsecutiveSpec | bmw.py:1264-1271 | the payload is the bytes collected so far followed by `cf[2:]` of every frame from the response id, in order; each of those frames arrived within its own wait and carried our address and PCI 0x2N, and each but the last left the payload at most 128 bytes long; the loop stops after the append that passes 128 bytes, on a frame with another address or PCI (consumed), or when the stream ends or the wait runs out |
| UdsStrict.SingleFrameRead | bmw.py:1253-1257 | a single-frame answer with our address: only the request is sent; "Negative Antwort" iff the answer does not echo 62 and the DID; otherwise the payload is the L bytes after the echo, cut at the end of the padded frame |
| UdsStrict.FirstFrameRead | bmw.py:1259-1271 | a first-frame answer with our address: request and one flow control are sent; "Negative Antwort (FF)" iff it does not echo 62 and the DID; otherwise the payload is `first[6:]` followed by the consecutive frames' `cf[2:]` as `ConsecutiveSpec` describes |
| UdsLenient.UdsReadById | bmw_gui/trigger_finder.py:104-137 | the two nested polling loops compute `ReadById` |
| UdsLenient.AwaitScan | bmw_gui/trigger_finder.py:107-137 | the wait is a scan for the first reply: no reply before it and all polls in time; a timeout sends nothing more; a single frame returns `data[5:5+L]`; a first frame sends one flow control and starts reassembly with `data[6:]` |
| UdsLenient.ReadByIdSends | bmw_gui/trigger_finder.py:109-124 | the request goes first; at most one flow control follows, and only on success |
| UdsLenient.CollectAdvances | bmw_gui/trigger_finder.py:127-135 | reassembly never runs past the stream |
| UdsLenient.LastOpen | bmw_gui/trigger_finder.py:126-133 | the wait open at a poll opened at the start or just after the latest consecutive frame |
| UdsLenient.CollectSpec | bmw_gui/trigger_finder.py:125-136 | the payload is the first-frame bytes plus every accepted consecutive frame's `data[2:]` in order; each poll is in time for the wait restarted after the last consecutive frame; it stops at the end, the timeout, or the first accepted non-consecutive frame |
| UdsLenient.ProfilesAsWrittenDoNotBind | bmw_gui/trigger_finder.py:69-72 | both entries of the table as written have upper-case keys, so `uds_read_by_id(api, did, **profile)` cannot bind them to its keyword-only parameters |
| UdsLenient.ProfilesBind | bmw_gui/trigger_finder.py:104 | with lower-case keys, "links" and "rechts" bind to their ids and addresses and the one-second default timeout |
| UdsLenient.SkippedFrameIsSilence | bmw_gui/trigger_finder.py:113-130 | a frame with the wrong id, under two bytes or the wrong address changes nothing: the read is the same as with nothing received |
| Decoders.Padded20 | bmw.py:1191 | the LED record is cut or zero-padded to exactly 20 bytes |
| Decoders.LedLevelsSpec | bmw.py:1180-1197 | always ten duty cycles, byte k clamped to [0, 100], and ten currents, ten times byte 10+k, with missing bytes read as 0 |
| Decoders.LedLevelsFirst20 | bmw.py:1191 | the levels depend only on the first 20 bytes |
| Decoders.LedPaddingAndTruncation | bmw.py:1191 | zero padding and cutting after 20 bytes change nothing |
| Decoders.LedExample | bmw.py:1195-1196 | ten zero duty bytes and ten current bytes of 5 give 0 % and 50 mA for every LED |
| Decoders.DecodeAhl | bmw.py:1199-1208 | the AHL angle in tenths is below 0x10000 |
| Decoders.AhlRoundTrip | bmw.py:1202-1203 | every angle sent big-endian decodes to itself, whatever follows |
| Decoders.AhlShortPayloads | bmw.py:1204-1207 | a one-byte payload reads as that byte and an empty one as 0; `[0x01, 0x2C]` is 30.0 degrees |
| Decoders.LwrFirstByte | bmw.py:1210-1214 | LWR reads only the first byte, and 0 when empty |
| Decoders.ValueTable.ApplyValues | bmw.py:1173-1178 | cell k shows value k where there is one, and "-" otherwise |
| Detectors.LedAnyOnSpec | bmw_gui/trigger_finder.py:154-162 | some LED is on iff an even position below min(len, 20) has a current of at least 50 mA or a following duty byte above 0 |
| Detectors.LedLayoutDisagreement | bmw_gui/trigger_finder.py:156-160 | the detector reads interleaved (mA, %) pairs while the table (`bmw.py:1192-1193`) reads ten duty cycles then ten currents: `[0, 0, 4]` shows LED 3 at 4 % but the detector sees none on |
| Detectors.AhlStep | bmw_gui/trigger_finder.py:175-185 | a payload under two bytes is "not moved" and keeps the baseline; otherwise the first reading only sets the baseline, later ones fire iff the angle moved by at least delta, and the angle becomes the baseline |
| Detectors.LwrStep | bmw_gui/trigger_finder.py:198-208 | the same rule on the first byte; an empty payload keeps the baseline |
| Detectors.MoveBaseline | bmw_gui/trigger_finder.py:172-182 | after a reset the first reading only sets the baseline, and an equal second reading does not fire |
| Detectors.StepTimeout | bmw_gui/trigger_finder.py:137-232 | when the profile's keywords bind to `uds_read_by_id`, a UDS detector whose read times out reports the timeout for its DID and keeps its state |
| Detectors.CustomIndexing | bmw_gui/trigger_finder.py:231-234 | `UDSCustom` compares `payload[index]` with Python indexing: past the end it reads 0, a negative index counts from the end, and below -len it raises `IndexError` |
| Detectors.ParseOpText | bmw_gui/trigger_finder.py:214-225 | exactly the six operator strings are accepted, each as the operator it spells |
| Detectors.BitAndRange | bmw_gui/trigger_finder.py:258 | the masked byte lies between 0 and the byte |
| Detectors.CanScanSpec | bmw_gui/trigger_finder.py:250-264 | the window reads in-time polls; every watched frame overwrites `_last`; it ends out of time with no edge, on an unindexable byte, or on the target value, firing iff the previous masked byte differed |
| Detectors.CanBitUnreachableTarget | bmw_gui/trigger_finder.py:253-262 | a target `value & mask` outside 0..255 never fires |
| Detectors.StepNextBound | bmw_gui/trigger_finder.py:104-264 | a reading never runs past the stream; `CanBit` sends nothing; a UDS detector whose keywords bind sends its request for its DID and at most one flow control; one whose keywords do not bind raises TypeError before sending anything and keeps its state |
| Detectors.InstantiateSpec | bmw_gui/trigger_finder.py:343-366 | a detector is made iff the target is one of the five, with a DID and a valid operator for `UDS_CUSTOM` and all four CAN parameters for `CAN_BIT`; it is the one named, with default deltas; a missing DID is reported first |
| Detectors.Detector.constructor | bmw_gui/trigger_finder.py:168-245 | a new detector has no baseline and `_last` 0 |
| Detectors.Detector.Reset | bmw_gui/trigger_finder.py:143-248 | the movement detectors forget their baseline, `CanBit` sets `_last` to 0, and the others keep everything |
| Detectors.Detector.ReadState | bmw_gui/trigger_finder.py:146-264 | one reading, with the profile passed as keywords, updates the detector's state as `Step` says |
| Detectors.Detector.ScanWindow | bmw_gui/trigger_finder.py:253-264 | the `CanBit` polling loop computes `CanScan`, leaves the baseline alone and updates `_last` |
| Correlator.EvictSpec | bmw_gui/trigger_finder.py:405-406 | eviction drops exactly the leading entries older than the cut; the front entry left is not older |
| Correlator.AppendKeepsWindow | bmw_gui/trigger_finder.py:403-406 | after an append, the ring stays in order, ends with the new frame, and holds exactly the frames at most five seconds older, those at the cut included |
| Correlator.BeforeSpec | bmw_gui/trigger_finder.py:421-424 | an id is in `before` iff a frame with it precedes the window, and it maps to the data of the last such frame |
| Correlator.BitAndPow2 | bmw_gui/trigger_finder.py:438-439 | `x & (1 << b)` is `1 << b` when bit b is set and 0 otherwise |
| Correlator.RiseBits | bmw_gui/trigger_finder.py:439 | a bit counts iff it goes from 0 to 1, never from 1 to 0 |
| Correlator.FrameRisesCount | bmw_gui/trigger_finder.py:433-440 | a frame credits each of its rising bits exactly once and nothing else; skipping equal bytes loses nothing |
| Correlator.WindowIdsSpec | bmw_gui/trigger_finder.py:426-429 | an id is seen iff some frame with that id lies in the window |
| Correlator.WindowRisesSeen | bmw_gui/trigger_finder.py:426-440 | every credited bit belongs to an id seen in the window |
| Correlator.BeforeMap | bmw_gui/trigger_finder.py:421-424 | the `before` loop computes `Before` |
| Correlator.ByteBitHits | bmw_gui/trigger_finder.py:436-440 | the bit loop over one byte computes `ByteRises` over all 8 bits |
| Correlator.FrameBitHits | bmw_gui/trigger_finder.py:433-440 | the xor and bit loops compute `FrameRises` |
| Correlator.WindowHits | bmw_gui/trigger_finder.py:426-440 | the loop over the window computes the seen ids and the bit hits |
| Correlator.Iterate | bmw_gui/trigger_finder.py:400-452 | each pass consumes at least one poll and never runs past the stream |
| Correlator.LoopKeepsBitsWithinIds | bmw_gui/trigger_finder.py:417-442 | the loop keeps every credited bit's id among the credited ids |
| Correlator.Runner.constructor | bmw_gui/trigger_finder.py:389-398 | an empty ring, no hits, last state false |
| Correlator.Runner.Record | bmw_gui/trigger_finder.py:403-406 | the frame is appended, old frames evicted, and the counters are unchanged |
| Correlator.Runner.OnEvent | bmw_gui/trigger_finder.py:417-442 | an event adds one hit per id seen in the window and one per rising bit |
| Correlator.Runner.Receive | bmw_gui/trigger_finder.py:401-406 | a frame read goes into the ring as `Received` says; a failed read leaves it; the counters and last state are unchanged |
| Correlator.Runner.Credit | bmw_gui/trigger_finder.py:417-451 | on a rising edge the event is credited at the given time, otherwise the counters are unchanged; the last state becomes the reading |
| Correlator.Runner.Pass | bmw_gui/trigger_finder.py:401-452 | one pass of the loop computes `Iterate` |
| Correlator.Runner.Run | bmw_gui/trigger_finder.py:400-453 | the loop ends in the state `Loop` gives |
| Correlator.RunFinder | bmw_gui/trigger_finder.py:368-460 | `_run` on a recorded stream, with a given profile table, computes `FinderOutcome` |
| Correlator.FinishedBitsWithinIds | bmw_gui/trigger_finder.py:417-442 | in a finished run, every credited bit's id has been credited |
| Correlator.StoppedAtOnce | bmw_gui/trigger_finder.py:400 | a stop before the first check sends nothing and credits nothing |
| Correlator.UnboundLoopIdle | bmw_gui/trigger_finder.py:400-452 | with a UDS target whose keywords do not bind, every pass makes one stop check and reads one frame into the ring, but the reading is always false: nothing is sent and no id or bit is credited |
| Correlator.AsWrittenUdsTargetsIdle | bmw_gui/trigger_finder.py:69-72 | with the profile table as written, a run on a UDS target ends "unknown profile" or finishes with no hit and nothing sent, whatever the bus carries |
| Correlator.AsWrittenLedRunIdle | bmw_gui/trigger_finder.py:69-72 | on a stream that carries the headlight's "LED on" answer, the table as written credits nothing and sends nothing |
| Correlator.IntendedLedRunCredits | bmw_gui/trigger_finder.py:146-162 | with lower-case keywords, the same run sends the read of 0xD631, sees the LED on and credits the id 0x123 seen around the event |
| GearLever.LookupAt | bmw.py:142 | the dictionary built from the table maps a name to its last row |
| GearLever.GearId | bmw.py:132-140 | the lever's id "65E" parses to 0x65E |
| GearLever.LeverFrames | bmw.py:132-152 | rest, tap and hold forward/back send F1 04 62 D2 00 k on 0x65E, with k = 0..4 |
| GearLever.ParkReleaseFrame | bmw.py:132-152 | park released sends F1 21 00 00 FF FF FF FF on 0x65E |
| GearLever.ParkPressFrame | bmw.py:132-152 | park pressed sends F1 21 00 01 FF FF FF FF on 0x65E |
| GearLever.HoldsSeparated | bmw.py:701-721 | between two holds in the sent log there is always a tap: each press sends at most one hold |
| GearLever.ParkAlternates | bmw.py:740-744 | consecutive park actions in the log differ |
| GearLever.ParkStartsPressed | bmw.py:740-744 | the first park action is a press |
| GearLever.Lever.constructor | bmw.py:562-615 | nothing pressed, no hold sent, no timer, park off, "Ruhestellung" shown, nothing sent |
| GearLever.Lever.SendAction | bmw.py:769-783 | the action is logged, and the state shown changes only when asked |
| GearLever.Lever.ClearHoldTimer | bmw.py:732-738 | the pending hold is cancelled and nothing else changes |
| GearLever.Lever.Press | bmw.py:701-711 | pressing the pressed direction changes nothing; a new press sends the tap and arms the hold for that direction |
| GearLever.Lever.TriggerHold | bmw.py:713-721 | the hold goes out once, only while the same direction is still pressed, and the timer is cleared |
| GearLever.Lever.FireTimer | bmw.py:711-721 | a pending timer sends the hold of its direction; with none, nothing changes |
| GearLever.Lever.Release | bmw.py:723-730 | releasing the pressed direction sends "rest" and clears the state; releasing the other only cancels the timer |
| GearLever.Lever.TogglePark | bmw.py:740-744 | the park flag flips and press or release is sent to match |
| AutoSearch.StripTwice | bmw_gui/ui/pages/auto_search.py:365 | stripping twice strips nothing more |
| AutoSearch.StripEmpty | bmw_gui/ui/pages/auto_search.py:365-367 | text strips to nothing iff it is all whitespace |
| AutoSearch.ParseIntSpec | bmw_gui/ui/pages/auto_search.py:364-371 | blank input gives the "empty" error iff it is all whitespace; the "not hex" error iff `int(s, 16)` refuses non-blank text; success iff `int` accepts, with its value |
| AutoSearch.AllHexParses | bmw_gui/ui/pages/auto_search.py:364-371 | plain hex digits parse to their value |
| AutoSearch.ParseIntHexPad | bmw_gui/ui/pages/auto_search.py:364-384 | the zero-padded hex text `_apply_profile` writes parses back to the same number |
| AutoSearch.ProfileTexts | bmw_gui/ui/pages/auto_search.py:373-384 | a known preset writes four entry texts |
| AutoSearch.ProfileRoundTrip | bmw_gui/ui/pages/auto_search.py:53-384 | the texts written for a preset parse back to its ids and addresses |
| AutoSearch.SaCodeParse | bmw_gui/ui/pages/auto_search.py:252-256 | an SA code is a valid DID iff all four characters are hex digits; it then fits 16 bits, otherwise the error is "not hex" |
| AutoSearch.InvalidCode | bmw_gui/ui/pages/auto_search.py:15-256 | a catalogue code with a letter past F in the third place is not a DID |
| AutoSearch.SkippedCode02PA | bmw_gui/ui/pages/auto_search.py:20-256 | the catalogue's "02PA" is not a DID and is reported as "Ungültige SA" |
| AutoSearch.SkippedCode04U6 | bmw_gui/ui/pages/auto_search.py:27-256 | the catalogue's "04U6" is not a DID and is reported as "Ungültige SA" |
| AutoSearch.FirstCodeDid | bmw_gui/ui/pages/auto_search.py:16-253 | the first code, "0230", is DID 0x0230 |
| AutoSearch.Request | bmw_gui/ui/pages/auto_search.py:258-267 | the request payload has 8 bytes |
| AutoSearch.RequestLayout | bmw_gui/ui/pages/auto_search.py:258-267 | the request is `ea_req & 0xFF`, 0x03, 0x22, the DID big-endian, and three zero bytes |
| AutoSearch.SaRequest | bmw_gui/ui/pages/auto_search.py:252-267 | the DID bytes of a hex SA code's request spell the code, two digits each |
| AutoSearch.CollectTakes | bmw_gui/ui/pages/auto_search.py:280-301 | the window records every frame of the polls it took, in order; it took only in-time polls, found the flag clear before each, and went past no reply |
| AutoSearch.CollectEnds | bmw_gui/ui/pages/auto_search.py:282-301 | the window stops right after a reply; otherwise it stops at a check that finds the flag set, the timeout passed or the stream ended |
| AutoSearch.FramesOfEmpty | bmw_gui/ui/pages/auto_search.py:280-301 | no frame is recorded iff no poll carried one |
| AutoSearch.ResponseTexts | bmw_gui/ui/pages/auto_search.py:293-297 | one response text per recorded frame |
| AutoSearch.AnswerIffReceived | bmw_gui/ui/pages/auto_search.py:280-304 | the status is "Antwort" iff some poll the window took carried a frame, with one text per frame, and "Timeout" otherwise |
| AutoSearch.Receive | bmw_gui/ui/pages/auto_search.py:280-301 | the receive loop computes `Collect` |
| AutoSearch.Visit | bmw_gui/ui/pages/auto_search.py:246-307 | one pass of the SA loop computes `Probe`, and the loop moves on to the next SA exactly when the flag read clear before the announcement |
| AutoSearch.Worker | bmw_gui/ui/pages/auto_search.py:236-317 | the worker's events and sent frames are `Run`'s |
| AutoSearchPage.Initial | bmw_gui/ui/pages/auto_search.py:179-187 | one row per catalogue entry, in order, "Bereit" with no responses |
| AutoSearchPage.Updated | bmw_gui/ui/pages/auto_search.py:350-360 | an index out of range changes nothing; otherwise only that row's status and responses change |
| AutoSearchPage.HandleAllAppend | bmw_gui/ui/pages/auto_search.py:321-348 | handling two batches of events is handling them one after the other |
| AutoSearchPage.StartParamsSpec | bmw_gui/ui/pages/auto_search.py:198-216 | a search starts iff all four ids parse and the timeout is positive, with those values; a bad TX id is reported first |
| AutoSearchPage.SearchOutcome | bmw_gui/ui/pages/auto_search.py:179-348 | after a search, the SAs searched are a prefix of the catalogue, each reported, the rest still "Bereit"; one request per valid code among them; not running. Without a stop every SA is searched and the search completed; a bus that does not open changes no row and sends nothing |
| AutoSearchPage.Page.constructor | bmw_gui/ui/pages/auto_search.py:60-72 | the table is populated, status "Bereit", no worker |
| AutoSearchPage.Page.Populate | bmw_gui/ui/pages/auto_search.py:179-187 | the rows become `Initial(SA_ENTRIES)`, and nothing else changes |
| AutoSearchPage.Page.UpdateResult | bmw_gui/ui/pages/auto_search.py:350-360 | the rows become `Updated(...)`, and nothing else changes |
| AutoSearchPage.Page.ProcessQueue | bmw_gui/ui/pages/auto_search.py:321-348 | the page shows every queued event handled in order |
| AutoSearchPage.Page.StartSearch | bmw_gui/ui/pages/auto_search.py:198-227 | refused and unchanged while running; rejected with the first bad field; otherwise repopulated and running |
| AutoSearchPage.ReadEscaped | bmw_gui/ui/pages/auto_search.py:405-408 | a doubled quote reads as one quote, and the first single quote closes the field |
| AutoSearchPage.QuoteRoundTrip | bmw_gui/ui/pages/auto_search.py:405-408 | every quoted field reads back as written |
| AutoSearchPage.RecordRoundTrip | bmw_gui/ui/pages/auto_search.py:400-409 | a written line reads back as its fields |
| AutoSearchPage.LinesRoundTrip | bmw_gui/ui/pages/auto_search.py:400-409 | the lines read back as every row's four columns, in order |
| AutoSearchPage.SaveRoundTrip | bmw_gui/ui/pages/auto_search.py:386-409 | the export exists iff there are rows; after the header it holds exactly the rows' columns |

## Left out

- Bus plumbing: `open_bus`, python-can and the PCANBasic wrappers, `print_tx`/`print_rx`. The model replaces them with the poll sequence and a log of sent frames. A bus that fails to open appears only as a flag in the auto-search worker.
- Threads, events, queues, Tk `after` and `time.sleep`. The worker's queue is a sequence of events; the gear lever's timer is an explicit `FireTimer` call; delays between bursts are dropped, since they change only timing.
- Floating point. Timeouts are milliseconds and angles are tenths of a degree. The `UDSCustom` threshold is a Dafny `real`, which leaves out NaN and infinities. The table page's `.2f` texts are left out.
- Unicode beyond ASCII in `str.strip`, `str.upper` and `int(s, 16)`. Non-ASCII digits and whitespace are not modelled.
- All layout and theming code. The gear lever's label, the test page's log window, and the messages of message boxes are also left out.
- `UdsTablePage._fetch_values`, the auto mode and the table page's other wiring. These are I/O around the modelled decoders.
- `GearLeverPage._send_state`'s receive loop and status texts. Only the frame it sends is modelled.
- `bmw_gui/sequences.py`, `main_menu.py`, `brake.py`, `gear.py` and `bmw_gui/config.py`. These are I/O loops over constant tables, or configuration.
- `Counter.most_common` log lines. The counters are multisets.
- The file dialog and the file writing of the CSV export. Only the text written is modelled.
- AutoSearch.Worker: exceptions raised by `bus.send`/`bus.recv` ("Senden/Empfang fehlgeschlagen") and the catch-all "Unerwarteter Fehler" are not modelled, because the poll sequence cannot fail. A frame's DLC is its data length.
- AutoSearchPage.StartParams: the timeout field's `float` parse is an `Option<int>` of milliseconds.
- AutoSearchPage.Page.StartSearch: the worker thread it starts is modelled separately by `AutoSearch.Worker`.
- Correlator.Runner.Run: the event time is the tick of the last poll read, not `time.monotonic()`. The ring timestamps and the event clock are taken as one clock. The recorded stream ending ends the run, which otherwise runs until stopped.
- Correlator.RunFinder: `PCANBasic` being missing or failing to initialise is not modelled.
- Detectors.AhlStep: angles are compared in integer tenths of a degree, while the source compares the difference of two float quotients with `delta`; only a move of exactly `delta` can then differ (raw 13 to 23 gives 0.9999999999999998 in floating point, which does not reach 1.0).
- Detectors.LwrStep: the same integer comparison; raw 2 to 7 gives 0.49999999999999994 in floating point, which does not reach 0.5.
- UdsLenient.BindReadArgs: keyword values are integers; `timeout` is read as whole seconds, turned into milliseconds.
- Detectors.InstantiateSpec: the movement detectors are built with their default deltas, which is what `_instantiate_detector` does; other deltas are not modelled.
- The `None` value of a Tk entry (`value or ""`) is not modelled; entries are strings.

## Findings

| source | as written | input that shows it | evidently intended | confidence | as-written member | corrected member |
|---|---|---|---|---|---|---|
| bmw_gui/trigger_finder.py:69-72 | the profile table uses the keys `TX_ID`, `RX_ID`, `EA_REQ`, `EA_RSP`, which `uds_read_by_id(api, did, **profile)` (line 104) cannot bind to its keyword-only parameters, so every UDS read raises TypeError, the catch-all at line 413 turns it into `False`, and no UDS target ever sends a request or credits an event | profile "links", target `LED_ANY_ON`, a bus frame 0x123 followed 10 ms later by the positive answer F1 04 62 D6 31 05 00 00 | lower-case keys `tx_id`, `rx_id`, `ea_req`, `ea_rsp`, so the read goes out and the LED event credits 0x123 | high; not executed | Correlator.AsWrittenUdsTargetsIdle | Correlator.IntendedLedRunCredits |
