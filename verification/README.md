# Verified model of the TXW8301 FMAC driver

The repository is a Linux driver for a HaLow Wi-Fi chip on SDIO, SPI or USB, and its configuration
and upload tools. This project models the parts of it that carry protocols and algorithms, and proves
properties of the model with Dafny 4.11. `dafny verify dfyconfig.toml` checks everything.

What is modelled, one module per part:

* `Crc`, `CrcDivision`, `Checksum`, `Firmware`: the bitwise CRC-16 and CRC-32, the 16-bit checksum of an OTA
  fragment, and the checks made on a firmware image. A CRC register is a number with explicit shifts;
  the proofs see it as a row of bits, the message as one bit stream, and the CRC as a remainder.
* `Serial`, `SpiRead`, `SpiResponse`: what the SPI host receives when a card answers between byte
  boundaries: the block that is realigned in place, command responses R1, R2 and R3, and the response
  to a written block, after sections 7.3.2, 7.3.3.1 and 7.3.3.2 of the SD Physical Layer Simplified
  Specification 2.00.
* `Ota`, `BootDl`, `LibOta`: the three ways of sending firmware: through the driver, through the boot
  loader, and from the upload tool over a network that loses, repeats and delays.
* `FwCtrl`, `CtrlBuffers`, `CtrlCookies`: commands and responses matched by a 15-bit cookie, with callers that time out.
* `UsbPool`, `Events`, `TxWindow`: the USB buffer lists and their semaphore, the event queue and its
  semaphore, the credit window.
* `Frames`, `TxPath`, `RxPath`, `TxRuns`: data frames: aggregation, splitting, numbering, order.
* `Lifecycle`: probe, boot download, initialisation, detection, reload, sleep, and what the transmit
  worker may hand to the bus meanwhile.
* `CText`, `Params`, `Mac`: parameters as text, from the tool's printer to the firmware's encoding.
* `Machine`: 8-, 16- and 32-bit words as numbers, with casts, shifts and bit operations written out;
  `Basics`: optional values and error numbers.

How to read it. Code that changes state step by step is a method or a class whose contract equates the
outcome with a function of the inputs or of the old state; what the code is for is then proved about
that function. Code that runs concurrently is also a state machine: a `Step` is what one party does
under a lock or in one uninterrupted look, `Run` takes any sequence of steps, so a lemma over `Run`
holds in every interleaving; history fields of the state record what the lemmas speak about. Memory
that may run out, replies, losses and grants are parameters, unconstrained unless a contract says so.
The host is little-endian.

Facts of the code that the proofs bring out:

* The comment above hgic_crc32 (utils/fwinfo.c:46-56) gives initial value and final xor with seven
  hexadecimal digits; the code uses all 32 bits, and so does the model.
* The firmware check accepts the CRC in the header or its complement, so for every 32 bits of the code,
  at any bit position, exactly one other content passes it beside the right one
  (`Firmware.OneBurstPasses`); no other burst of at most 32 bits does (`Firmware.BurstPassesOnlyByComplement`).
* The upload tool's checksum adds an odd last byte as `char`; where that is signed it is wrong exactly
  for odd lengths with a last byte of 0x80 or more (`Checksum.LibotaAgrees`).
* A code offset behind the end of an image is not noticed by the boot download: nothing is written and
  the run command carries the negative length as a 32-bit number (`BootDl.WithoutCode`). Length and
  flags of the run word come back exactly for images below 512 MB (`BootDl.RunWordRoundTrip`).
* On SDIO the last fragment is copied, and sent, with up to 63 bytes from behind the image: nothing behind
  it is read exactly if the bus is USB or the code is whole blocks of 64 (`BootDl.CopiesStayInside`).
* The upload tool never gets past the first piece for a station that is not in its table
  (`LibOta.UnknownStaysAtZero`). An upload is safe in all runs exactly if every entry of the station with
  an offset, but its first, has an online entry of the station before it
  (`LibOta.SafeExactlyWhenShielded`): so it is in every table the tool builds itself
  (`LibOta.TablesAreTidy`), but not in every table read from a file (`LibOta.ForeignTableSkips`).
* A second response for a command still listed leaks the first buffer (`CtrlBuffers.SecondAnswerLeaks`),
  and nothing else leaks (`CtrlBuffers.LeaksExactlyWhenOverwritten`): nothing does with a device that
  answers each command once and in time (`CtrlCookies.NothingLeaks`).
* Callers get their own answers exactly as long as fewer than 32768 cookies are drawn while a response is
  under way (`CtrlCookies.CallersGetTheirAnswers`); one more, by commands that all time out, and a late
  response reaches the wrong one (`CtrlCookies.LateResponseAfterWrap`).
* Permits for USB buffers are never more than the free buffers. Each refused submission and each second
  check that finds the error status loses a permit, and a missing aligned copy loses a permit and its
  buffer (`UsbPool.OneBufferLost`); a device at rest has all its permits back exactly if none of the three
  ever happened (`UsbPool.RestoredExactlyWithoutLoss`).
* Dropped events leave permits behind, so readers are let through to an empty list, at most once per
  dropped event (`Events.DropsLeavePermits`, `Events.NoEventStranded`).
* The receive walk goes on for ever exactly if the lengths in an aggregate lead to an accepted header
  with length 0 (`RxPath.WalkIsTheLoop`); nine bytes are enough (`RxPath.NineBytesSpin`).
* The receiver starts with 0 as the number seen last, so it expects 1: a first packet that is an aggregate
  numbered 0 is reported, although nothing is missing (`TxRuns.SenderAndReceiverAgree`).
* With aggregation on, a frame that does not fit an aggregate and has another behind it is put back for
  ever, and nothing more is sent; in every other case something goes out (`TxRuns.PutBackForEver`).
* The credit window can reach -1, exactly when a credit is taken on a look from before a grant of 0
  (`TxWindow.BelowZero`, `TxWindow.WindowRespected`).
* The array for the addresses of paired stations is as long as the text; the six bytes cleared for a
  refused entry can lie behind it, exactly for texts of 1 to 5, 8 to 11, 15 to 17, 22, 23 and 29 characters
  (`Mac.WritesStayInside`).

## Model

| member | source | states |
|---|---|---|
| Crc.Crc16Of | utils/fwinfo.c:28-44 | the nested loops compute the CRC-16 the lemmas below speak about, for every input, the empty one included |
| Crc.Crc32Of | utils/fwinfo.c:57-73 | the nested loops compute the CRC-32, register complemented at the end |
| Crc.BytesAreFeed | utils/fwinfo.c:28-73 | entering a byte whole and shifting eight times is feeding the message bit by bit into a shift register with feedback |
| Crc.BurstDetected | utils/fwinfo.c:28-73 | two messages that differ only inside one burst of at most 32 bits (16 for CRC-16), at any bit position, never have the same CRC |
| Crc.ByteBurstDetected | utils/fwinfo.c:28-73 | in particular, messages that differ only in 4 (2) consecutive bytes never do |
| Crc.FeedInjective | utils/fwinfo.c:28-73 | feeding the same bits is a bijection on the register |
| Crc.Window | utils/fwinfo.c:28-73 | bits no wider than the register enter it injectively |
| Crc.WindowReaches | utils/fwinfo.c:28-73 | and surjectively: as many bits as the register is wide lead from any register to any other |
| Crc.AnyValueReached | utils/fwinfo.c:28-73 | in any window as wide as the register exactly one content gives the message a chosen CRC |
| Crc.BitwiseIsTableDriven | utils/fwinfo.c:57-73 | the bitwise form is the table-driven form of section 8 of RFC 1952 |
| CrcDivision.FeedDivides | utils/fwinfo.c:28-73 | the register is what is left when the message, times x to the width, is divided by the generator |
| CrcDivision.CrcIsRemainder | utils/fwinfo.c:28-73 | the value returned for any data is that remainder, of the generator of RFC 1952 or x^16 + x^15 + x^2 + 1, begun with all ones, and complemented for CRC-32 |
| Firmware.CodeChecksum | utils/fwinfo.c:284-321 | which images pass, with the error for a bad header, a code offset behind the end, and a CRC that is neither the header's nor its complement |
| Firmware.PassesBeside | utils/fwinfo.c:313-318 | beside an image that passes, another with its header passes exactly if its CRC is the same or the complement |
| Firmware.BurstPassesOnlyByComplement | utils/fwinfo.c:313-318 | a burst of at most 32 bits in an image that passes is missed exactly if it turns the CRC into its complement |
| Firmware.OneBurstPasses | utils/fwinfo.c:313-318 | for every image that passes and every window of 32 bits, exactly one other content of the window passes too |
| Checksum.SumAndFold | utils/ota.c:23-38 | the two loops end, never overflow 32 bits for up to 65535 bytes, and give the complement of the folded sum; with signed or unsigned last byte |
| Checksum.OtaCheckSum | utils/ota.c:23-38 | it is the complement of the one's-complement sum of sections 1 and 2 of RFC 1071 |
| Checksum.FoldKeeps | utils/ota.c:34-36 | a fold keeps the value modulo 65535, and keeps non-zero non-zero |
| Checksum.LibotaCheckSum | tools/test_app/libota.c:11-26 | the tool's loops compute the sum with the last byte taken as char |
| Checksum.LibotaAgrees | tools/test_app/libota.c:19-21 | it agrees with the driver's exactly unless char is signed, the length odd and the last byte 0x80 or more |
| Checksum.ChecksumVerifies | utils/ota.c:37-37 | data and checksum together sum to 0xFFFF |
| Checksum.LibotaVerifies | tools/test_app/libota.c:11-26 | with the tool's checksum they do exactly unless char is signed and the data end in an odd byte of 0x80 or more |
| Checksum.ShortSums | utils/ota.c:26-33 | words are little-endian, and an odd last byte counts as the low byte of its own |
| Checksum.OnesSumConcat | utils/ota.c:26-30 | the sum of two parts is the sum of their sums when the first has even length |
| Checksum.OneWordChanged | utils/ota.c:23-38 | a single changed word is missed exactly when it turns 0 into 0xFFFF or back, and the other words do not sum to 0 |
| SpiRead.SplitToken | utils/mmc_spi.c:756-764 | shifting the token left finds its first zero bit, and what is left over are the data bits behind it |
| SpiRead.RealignData | utils/mmc_spi.c:768-780 | the in-place loop over the data writes the carried bits and the bytes read, in order, for any length |
| SpiRead.RealignCrc | utils/mmc_spi.c:781-787 | so do the two CRC bytes, after which the rest is dropped |
| SpiRead.ReadBlock | utils/mmc_spi.c:732-810 | the whole read: the error passed on, the block realigned, the CRC compared when CRCs are used |
| SpiRead.BlockRecovered | utils/mmc_spi.c:756-787 | whatever the card sends behind the zero bit of its token, at any of eight bit positions and of any length, is what data and CRC hold |
| SpiRead.RealignedUnique | utils/mmc_spi.c:756-787 | nothing else is |
| SpiResponse.ResponseGet | utils/mmc_spi.c:246-414 | searching, rotating and extending give the R1, R2 or R3 value that begins at the first zero bit of the stream, and the error that its status bits report, or the read error or time-out |
| SpiResponse.ValueOnWire | utils/mmc_spi.c:323-336 | what the status byte reports, bit by bit on the wire, and which error wins |
| SpiResponse.DelayedResponse | utils/mmc_spi.c:298-396 | a response that comes any number of bits late decodes to the same values as one on time |
| SpiResponse.WriteResponse | utils/mmc_spi.c:667-700 | the shift loop ends on every input; the code is the five bits from the first zero bit on, and the result is decided by it |
| SpiResponse.LateResponse | utils/mmc_spi.c:667-676 | a response 0 to 24 bits late gives its five bits |
| SpiResponse.AcceptedExactly | utils/mmc_spi.c:667-700 | a block counts as accepted, hit by a CRC error, or not written, exactly when the whole token for it arrives 0 to 24 bits late; anything else is a protocol error |
| Ota.Upload.QueueFragments | utils/ota.c:215-245 | the fragments of the image are queued in order, or memory is short for their number |
| Ota.Upload.ParseFw | utils/ota.c:169-246 | which error each unsuitable image gives, and what is queued otherwise |
| Ota.Upload.SendFw | utils/ota.c:248-294 | the queue is empty on every exit; 0 exactly if every fragment was answered in order with error code 0; otherwise the first failure decides and nothing behind it is sent |
| Ota.LoadedExactly | utils/ota.c:115-213 | an upload gets as far as sending exactly if the firmware could be read, its marks, SDK version, chip and CPU are right, it has code with its CRC, and there is memory for every 1500 bytes |
| Ota.FragmentsCover | utils/ota.c:89-113 | offsets begin at 0 and follow each other without gap, lengths are 1 to 1500, checksums verify, and there are size/1500, rounded up |
| Ota.FragmentsTell | utils/ota.c:105-111 | each carries version and chip of the device, and the length of the image |
| Ota.CoverIsWhole | utils/ota.c:220-243 | the payloads together are the image |
| Ota.StoringCover | utils/ota.c:220-243 | a device that stores such fragments ends up with the image |
| Ota.UploadStoresImage | utils/ota.c:248-288 | both, for what a successful upload sends |
| BootDl.CmdEnter | utils/fwdl.c:265-295 | what asking the device to enter its loader ends with |
| BootDl.EnterMeans | utils/fwdl.c:99-111 | running firmware exactly for the answer 0xFF with the check byte and command; a loader for 0, and for error 1; negative for no memory or no answer |
| BootDl.AcknowledgedExactly | utils/fwdl.c:220-262 | which answers count as success for each kind of frame |
| BootDl.FragmentProc | utils/fwdl.c:350-364 | the fragment length, rounded up to blocks on SDIO only below the fragment size |
| BootDl.FragmentBounds | utils/fwdl.c:350-364 | fragments make progress, keep to the bus's limit, are whole blocks on SDIO, and overshoot by less than a block |
| BootDl.CutReaches | utils/fwdl.c:391-421 | together they reach to the end of the code, or of its last block on SDIO |
| BootDl.RunWord | utils/fwdl.c:330-340 | the run word is the length with three flags or-ed in |
| BootDl.RunWordRoundTrip | utils/fwdl.c:330-340 | length and flags decode back exactly for lengths below 2^29 |
| BootDl.SendFragment | utils/fwdl.c:405-416 | a fragment is a write command and, if that is acknowledged, its data |
| BootDl.SendImage | utils/fwdl.c:388-428 | the loop sends the plan up to the first frame that is not acknowledged or that memory is short for, ends although the remaining length goes negative, and returns 0 exactly if all of it was acknowledged |
| BootDl.Download | utils/fwdl.c:366-437 | the whole download, with the errors of the firmware request and the header |
| BootDl.OutcomeMeans | utils/fwdl.c:388-428 | it ends with 0 exactly if everything was sent and acknowledged; else the last frame sent failed or memory was short |
| BootDl.RunsTheCode | utils/fwdl.c:330-340 | the last frame of every download runs the code at the write address, and the length of the code and the header's AES and CRC flags come back from its word exactly if the code is below 512 MB |
| BootDl.PlanCarries | utils/fwdl.c:391-421 | each write command announces the data behind it (1024 more on USB), at the address where the fragment before ended, and the data together are one stretch of the image |
| BootDl.ObeyingPlan | utils/fwdl.c:391-421 | a loader that obeys such frames stores that stretch |
| BootDl.DownloadStoresCode | utils/fwdl.c:366-437 | after a download that returns 0 the loader holds exactly the code at the write address, and nothing else changed but the rest of the last block |
| BootDl.WithoutCode | utils/fwdl.c:187-188 | only the run command is sent exactly when the code offset is not inside the image |
| BootDl.CopiesStayInside | utils/fwdl.c:350-404 | for an image with code: the copying reads nothing behind the image, and what is sent does not depend on it, exactly if the bus is USB or the code is whole blocks |
| LibOta.Libota.FindSta | tools/test_app/libota.c:39-53 | the first entry with the address |
| LibOta.Libota.AddSta | tools/test_app/libota.c:55-77 | a known station keeps its offset, a new one takes the first offline entry, a full table refuses |
| LibOta.Libota.StaNextOff | tools/test_app/libota.c:93-97 | the offset of the first entry, 0 for an unknown station |
| LibOta.Libota.SendFwData | tools/test_app/libota.c:128-156 | the station's offset is reset, and the piece sent if there is memory, with its version, chip, length and checksum |
| LibOta.Libota.RxProc | tools/test_app/libota.c:196-244 | what each packet does to the table, and the status it returns: new station, answer, configuration read or updated, or nothing |
| LibOta.Libota.OtaDevice | tools/test_app/hgota.c:232-273 | the loop is the function Run, for any sequence of rounds the network has in store |
| LibOta.PacketsAreRight | tools/test_app/libota.c:128-156 | in every run each packet carries a piece of the image, of 1460 bytes but for the last, with the image's version, chip and length, and a checksum that verifies exactly unless char is signed and the piece ends in an odd byte of 0x80 or more |
| LibOta.GivesUpAfterTen | tools/test_app/hgota.c:253-264 | without an answer the first piece is sent ten times and no more |
| LibOta.ReportRecorded | tools/test_app/libota.c:55-77 | a report taken in leaves one entry up to date and online, and no other changed |
| LibOta.StatusMeans | tools/test_app/libota.c:196-244 | which packets give which status |
| LibOta.RunIsSafe | tools/test_app/hgota.c:253-264 | in a shielded table, for every pattern of lost, repeated, delayed and rejected replies and any packets of other stations: the offset is 0 or the end of a stored fragment and everything below it is stored |
| LibOta.SafeExactlyWhenShielded | tools/test_app/hgota.c:253-264 | that holds of all runs exactly if each entry of the station with an offset, but the first, has an online entry of the station before it |
| LibOta.FinishedIsStored | tools/test_app/hgota.c:253-264 | leaving the loop with the offset at the end means that the whole image is stored |
| LibOta.LosslessFinishes | tools/test_app/hgota.c:253-264 | without loss, to a known station, the loop does reach the end |
| LibOta.UnknownStaysAtZero | tools/test_app/libota.c:93-97 | to an unknown station it never leaves offset 0 |
| LibOta.TablesAreTidy | tools/test_app/libota.c:55-97 | in every table the tool builds only the first entry of an address has an offset, so it is shielded for every station |
| LibOta.ForeignTableSkips | tools/test_app/hgota.c:69-80 | a table of 32 entries read from elsewhere need not be: after the report of another station bytes are skipped |
| FwCtrl.Ctrl.CtrlCookie | utils/fwctrl.c:24-34 | the n-th draw gives n modulo 32768 |
| FwCtrl.Ctrl.RxResponse | utils/fwctrl.c:139-160 | the first waiter with the cookie gets the response, replacing one it may have |
| FwCtrl.Ctrl.Work | utils/fwctrl.c:174-200 | emptying the receive queue |
| FwCtrl.Ctrl.SendStart | utils/fwctrl.c:206-217 | a waiter goes to the head of the list and its packet to the end of the queue, which drops its oldest when full |
| FwCtrl.Ctrl.SendEnd | utils/fwctrl.c:223-229 | a waiter leaves with what it has got |
| FwCtrl.SendStartIsSteps | utils/fwctrl.c:206-217 | undisturbed, a caller's first steps are SendStart |
| FwCtrl.WorkIsSteps | utils/fwctrl.c:174-200 | one run of the receive work is as many steps as there are buffers |
| FwCtrl.WaitersGetOwnCookie | utils/fwctrl.c:139-160 | in every interleaving a caller gets only a response with its own cookie |
| FwCtrl.PacketsLeaveInOrder | utils/fwctrl.c:211-216 | packets leave the queue in the order in which they were queued |
| FwCtrl.EveryRunFromStart | utils/fwctrl.c:139-230 | both, of every run from the start |
| CtrlBuffers.BuffersConserved | utils/fwctrl.c:139-229 | every received buffer is queued, held, returned, freed, an event or leaked, exactly as often as received |
| CtrlBuffers.KindsGoTheirWay | utils/fwctrl.c:174-200 | in every run events are handed on, responses go to waiters or are freed, anything else is freed |
| CtrlBuffers.LeaksExactlyWhenOverwritten | utils/fwctrl.c:148-152 | a run leaks exactly if a second response came for a waiter still listed |
| CtrlBuffers.EveryRunFromStart | utils/fwctrl.c:139-230 | both, of every run from the start |
| CtrlBuffers.SecondAnswerLeaks | utils/fwctrl.c:148-152 | a run in which a command listed is answered twice leaks the first answer |
| CtrlCookies.FreshCookiesDiffer | utils/fwctrl.c:24-34 | while fewer than 32768 cookies are drawn during their lives, no two pending commands share one |
| CtrlCookies.ResponseReachesItsCommand | utils/fwctrl.c:139-158 | a response reaches no other command, and its own if that is listed, unless an OTA packet or data block with the same cookie stands before it; after a time-out it is freed |
| CtrlCookies.CallersGetTheirAnswers | utils/fwctrl.c:31-31 | that each command gets the answer to itself or none holds of all runs from the start, OTA packets and data blocks with reused cookies included, in which fewer than k cookies are drawn while a response is under way, exactly if k is at most 32768 |
| CtrlCookies.LateResponseAfterWrap | utils/fwctrl.c:31-31 | a run on which it fails: 32768 commands time out, the next gets the late response to the first of them; up to that draw the bound held |
| CtrlCookies.AnsweredOnceNeverOverwritten | utils/fwctrl.c:148-152 | if the device answers no command twice, and in time, no command's answer is ever replaced |
| CtrlCookies.NothingLeaks | utils/fwctrl.c:139-230 | and with commands only, no buffer leaks |
| UsbPool.Pool.Qinit | utils/if_usb.c:114-146 | a free list of new buffers, as many as there is memory for |
| UsbPool.Pool.Deq | utils/if_usb.c:148-162 | the first free buffer becomes the last used one and is flagged |
| UsbPool.Pool.Enq | utils/if_usb.c:164-173 | a buffer leaves the used list, unflagged, for the end of a free one |
| UsbPool.Usb.TxPacket | utils/if_usb.c:243-313 | an undisturbed send is a run of the sender's steps: 0 means submitted and not yet reported, anything else reported once as failed; and which error is returned when |
| UsbPool.Usb.TxComplete | utils/if_usb.c:230-241 | a completion reports the packet the buffer carries, frees the buffer and raises the semaphore |
| UsbPool.Usb.Disconnect | utils/if_usb.c:398-404 | the disconnect stops the device and raises the semaphore once |
| UsbPool.LatecomersRefused | utils/if_usb.c:256-259 | once the device is stopped or in error, whoever comes later takes no permit and no buffer, in every run |
| UsbPool.NobodyGetsBeyond | utils/if_usb.c:267-270 | and nobody gets past the second check any more |
| UsbPool.StepKeepsSorted | utils/if_usb.c:148-173 | every buffer stays in exactly one list, with the flag that goes with it |
| UsbPool.StepKeepsOwned | utils/if_usb.c:243-313 | a used send buffer is with at most one sender, URB or completion, and carries that sender's packet |
| UsbPool.StepKeepsPermitted | utils/if_usb.c:261-276 | permits that exist, are held, are due or are wasted account for the free buffers until the disconnect; afterwards there is still a buffer for everyone past the second check |
| UsbPool.StepKeepsBalanced | utils/if_usb.c:274-299 | every send buffer is free, with a sender, submitted, coming back, or lost for want of memory for a copy |
| UsbPool.StepKeepsReported | utils/if_usb.c:230-241 | a packet is reported when its sender is done with it |
| UsbPool.PoolIsSafe | utils/if_usb.c:148-313 | in every interleaving with completions, receiving and disconnect: one list each, permits at most free buffers, never no buffer after a permit, every send buffer accounted for, one report per packet |
| UsbPool.RestoredExactlyWithoutLoss | utils/if_usb.c:261-313 | in every run, whenever a device not stopped is at rest: permits, wasted and lost ones are all there were, buffers free and lost are all there were, and all permits are back exactly if no refused submission, failing second check or missing copy was among the steps |
| UsbPool.OneBufferLost | utils/if_usb.c:280-285 | a run of one sender after which a pool of one buffer has no permit and no buffer, with nobody under way |
| Events.EventQueue.RxFwEvent | hgic_fmac/event.c:28-79 | a buffer without a whole header and debug output are not queued; of a full list the oldest event is dropped |
| Events.EventQueue.FwEventRead | hgic_fmac/procfs.c:234-256 | an undisturbed read |
| Events.RunsAreAccounted | hgic_fmac/event.c:67-73 | in every interleaving: permits and readers under way, plus reads in vain, are queued plus dropped events; what was appended left in order or is queued |
| Events.NoEventStranded | hgic_fmac/procfs.c:242-256 | at most 17 events; a queued event can always be read; reads in vain are at most the dropped events |
| Events.DropsLeavePermits | hgic_fmac/event.c:68-73 | permits do exceed events once events are dropped |
| Events.UndisturbedProducer | hgic_fmac/event.c:67-73 | undisturbed, the producer's steps are RxFwEvent |
| Events.UndisturbedReader | hgic_fmac/procfs.c:242-255 | undisturbed, a reader's steps are FwEventRead |
| Frames.DecodeEncode | hgic.h:140-146 | the eight header bytes read back |
| Frames.LaterIsSum | hgic_fmac/core.c:89-89 | counting cookies up is addition modulo 65536 |
| TxPath.Fmac.DataCookie | hgic_fmac/core.c:83-92 | draws a number and counts up |
| TxPath.Fmac.TxSingleFrm | hgic_fmac/core.c:429-436 | the bytes of a single frame |
| TxPath.Fmac.TxAggFrm | hgic_fmac/core.c:438-483 | the buffer built in place is a well-formed aggregate, never longer than if_agg, of exactly the frames that fit, and the others stay queued in order |
| TxPath.FillingIsRoom | hgic_fmac/core.c:457-466 | it is as long as its header and the frames taken, and at most if_agg |
| TxPath.AddFrame | hgic_fmac/core.c:462-466 | one more frame, with the aligned length and its number, and the header's length updated |
| TxPath.SingleReadsBack | hgic_fmac/core.c:429-436 | header and payload of a frame sent on its own read back, its interface included |
| TxPath.AggregateReadsBack | hgic_fmac/core.c:446-466 | so do those of every frame of an aggregate, at its place and with its number |
| TxPath.FitIsLongest | hgic_fmac/core.c:457-460 | no more frames would have fitted |
| TxPath.AggregationProgresses | hgic_fmac/core.c:457-460 | a call sends at least one frame exactly if the first, aligned, and the header fit |
| RxPath.SkipPadding | utils/utils.c:25-30 | how many bytes 0xFF are skipped |
| RxPath.Receiver.RxSingleFrm | hgic_fmac/core.c:607-638 | the payload handed up and the number noted |
| RxPath.Receiver.RxAggFrm | hgic_fmac/core.c:640-664 | the check of the number, and the walk over the frames, with how it ends |
| RxPath.Receiver.RxData | hgic_fmac/core.c:667-736 | what is refused, and where each kind of packet goes |
| RxPath.SplitUndoesAggregation | hgic_fmac/core.c:640-703 | an aggregate from the transmit side, received with the receive magic, up to three bytes 0xFF in front and anything behind, yields exactly its frames in order, each with at most 3 bytes behind it |
| RxPath.WalkYieldsFrames | hgic_fmac/core.c:651-663 | the walk over a well-formed aggregate finishes with its frames and the last number |
| RxPath.SingleYieldsFrame | hgic_fmac/core.c:607-638 | a single frame comes out as it went in |
| RxPath.FlagsCutTheEnd | hgic_fmac/core.c:607-638 | a frame with any payload, and as many bytes behind it as its flags say, delivers exactly the payload |
| RxPath.FlagsCutTheEnds | hgic_fmac/core.c:640-703 | so does each of the frames of an aggregate, in order |
| RxPath.ControlPassedOn | hgic_fmac/core.c:688-736 | control packets are handed on whole, a grant sets the credit, and nothing else changes anything |
| RxPath.RefusedExactly | hgic_fmac/core.c:680-693 | what is refused: a wrong magic, or a length longer than what came, but for the loader |
| RxPath.PacketFound | utils/utils.c:25-30 | padding around a packet does not matter |
| RxPath.TurnStandsStill | hgic_fmac/core.c:651-663 | a turn of the loop changes nothing exactly on an accepted header of length 0; otherwise the data shrinks or the loop ends |
| RxPath.WalkIsTheLoop | hgic_fmac/core.c:651-663 | for all data: the turns go on for ever exactly if the lengths lead to such a header; otherwise they end with what the walk says |
| RxPath.NineBytesSpin | hgic_fmac/core.c:651-663 | nine bytes that lead there |
| TxRuns.FramesLeaveInOrder | hgic_fmac/core.c:438-483 | over every run of enqueues, clears and the worker: frames leave in the order they came, unchanged, none twice, and enqueued = sent + kept + cleared |
| TxRuns.WorkerKeepsLive | hgic_fmac/core.c:454-483 | no step of the worker changes the order, putting back at the head included |
| TxRuns.Undisturbed | hgic_fmac/core.c:454-470 | undisturbed, the worker takes what TxAggFrm takes |
| TxRuns.PutBackForEver | hgic_fmac/core.c:454-483 | with a frame at the head of the queue, nothing thrown away and memory each time: nothing is ever sent again exactly if aggregation is on, another frame is behind it, and it does not fit |
| TxRuns.RunKeepsNumbers | hgic_fmac/core.c:429-483 | if every frame fits, what is sent is numbered without a gap |
| TxRuns.NumberingAgrees | hgic_fmac/core.c:644-647 | what is numbered without a gap is received without a mismatch, and every frame delivered in order |
| TxRuns.SenderAndReceiverAgree | hgic_fmac/core.c:613-703 | both, for any lossless mix of single and aggregated frames with any padding, across any number of wraps, and any receiver: every frame is delivered in order, and one packet is reported exactly if the first is an aggregate and the receiver does not expect 0 |
| TxRuns.OnlyFirstReported | hgic_fmac/core.c:644-646 | a receiver that comes in late gets every frame in order and reports exactly the first packet, if that is an aggregate it does not expect, or none |
| TxWindow.Window.CheckTxwnd | hgic_fmac/core.c:318-340 | one check, with grants coming in between its looks |
| TxWindow.CheckIsSteps | hgic_fmac/core.c:330-338 | the steps of one check, with grants between them, are CheckTxwnd |
| TxWindow.WindowRespected | hgic_fmac/core.c:330-338 | in every interleaving the window stays above -2, and is -1 exactly after a grant of 0 with a credit taken on an older look; since a grant of w at most max(1, w - 2) credits are taken, max(0, w - 2) on looks no older; a packet costs one credit whatever is in it |
| TxWindow.BelowZero | hgic_fmac/core.c:728-728 | -1 is reached |
| Lifecycle.Device.TxCtrlFrm | hgic_fmac/core.c:485-517 | a control packet: dropped in the loader unless it belongs to it, putting the device to sleep if it says so |
| Lifecycle.Device.TxWork | hgic_fmac/core.c:520-572 | the worker's loops, pass by pass, until there is nothing to do |
| Lifecycle.Device.DownloadFw | hgic_fmac/core.c:738-777 | the download loop and the one after it; running firmware only if taken for granted or said by an answer 0xFF, and always if said by one of ten, or of fifty after a download |
| Lifecycle.Device.DelayInit | hgic_fmac/core.c:779-849 | the init work, undisturbed, is a run of its steps; it leaves a device that answers ready, and is scheduled again exactly where it must be |
| Lifecycle.Device.Detect | hgic_fmac/core.c:851-885 | so is the detection work; it leaves everything as it is, or reloads, exactly by the flags and four answers |
| Lifecycle.TxKeepsInv | hgic_fmac/core.c:527-570 | a pass hands nothing to the bus asleep, only the loader's packets in the loader, and no data during a reload |
| Lifecycle.InitKeepsInv | hgic_fmac/core.c:738-849 | the init work records running firmware only after it was said so, and creates an interface only once |
| Lifecycle.LifecycleIsSafe | hgic_fmac/core.c:485-885 | over every run of all work items together: all of that |
| Lifecycle.ControlGoesOut | hgic_fmac/core.c:528-541 | the first control packet goes out exactly if the device is awake, running, and it is no foreign one in the loader |
| Lifecycle.DataGoesOut | hgic_fmac/core.c:543-566 | a pass sends data of a device that is ready, has credit and whose first frame fits, as many frames as leave the queue; and of no other |
| Lifecycle.WorkerDrains | hgic_fmac/core.c:520-572 | a pass for each packet hands both queues over, the control packets in order |
| Lifecycle.SleepAndWake | hgic_fmac/core.c:485-517 | after the command to sleep nothing goes out or is queued until the device is woken or the command turns out not to be sent |
| Lifecycle.LostDeviceReloads | hgic_fmac/core.c:851-881 | after a failed packet and four unanswered questions the queues are empty, the device suspended and the init work scheduled |
| Lifecycle.AnsweringMakesReady | hgic_fmac/core.c:738-838 | a device that answers is ready after the init work, with flow control for firmware before version 2 |
| Lifecycle.LostAndFound | hgic_fmac/core.c:738-881 | so a device that is lost and found again carries data again |
| Params.SetIntArray | tools/test_app/iwpriv.c:294-309 | the command printed into the buffer |
| Params.JoinedShort | tools/test_app/iwpriv.c:304-307 | 32 values of 16 bits take at most 191 characters of its 512 |
| Params.IwprivWrite | hgic_fmac/procfs.c:136-171 | the command cut at its spaces, in place |
| Params.SetProc | utils/iwpriv.c:1173-1204 | the copy cut at the equals sign |
| Params.CommandParses | hgic_fmac/procfs.c:136-171 | name and value of a printed command come back |
| Params.PickValues | hgic_def.h:70-80 | the first numbers between commas, in base 0, cut to 16 bits, and how many |
| Params.ChanListBytes | utils/fwctrl.c:407-421 | a count and the values, low byte first |
| Params.SetChanList | utils/iwpriv.c:166-176 | an empty text is refused; otherwise the numbers in it are sent encoded, and what the command returns is passed on |
| Params.DecodedEncoded | utils/fwctrl.c:412-416 | the encoding decodes back |
| Params.ValuesOfJoined | hgic_def.h:75-78 | of any printed integers the first 32 arrive, modulo 65536 |
| Params.ChanListRoundTrip | utils/iwpriv.c:166-176 | 1 to 32 values in 0..65535 go from the printer through both cuts, the parser and the encoding unchanged |
| CText.PrintedReads | hgic_def.h:77-77 | every printed integer reads back in base 0 |
| CText.OtherBasesRead | hgic_def.h:77-77 | so does every number in hexadecimal behind 0x and in octal behind 0 |
| CText.CaseOfNumbers | hgic_def.h:77-77 | case does not matter |
| Mac.PickMacaddr | utils/utils.c:190-206 | which bytes the loop picks from any text, whatever stands behind the 17 characters copied |
| Mac.SetPairedStas | utils/iwpriv.c:186-220 | the addresses between commas up to the first that is none are sent, and how far into the array the picks write |
| Mac.MacRoundTrip | utils/utils.c:168-206 | any printed address is picked unchanged |
| Mac.CaseDoesNotMatter | utils/utils.c:168-206 | an address in upper case is picked like one in lower case |
| Mac.EmptyPartReads | utils/utils.c:181-206 | an empty part borrows the first digit of the next |
| Mac.MacCommandRoundTrip | tools/test_app/iwpriv.c:260-270 | from the tool's command to the parameter |
| Mac.StationsRoundTrip | utils/iwpriv.c:205-215 | so is any printed list of addresses |
| Mac.WritesStayInside | utils/iwpriv.c:197-215 | for texts of n characters the writes always stay inside the array exactly if 7k < n < 6(k + 1) for no k; where it is for some, a text of n characters for which they do not; never more than 5 bytes outside |

## Left out

- Register-level SDIO and MMC set-up, USB probing, SPI message set-up, power and clocks: hardware access without logic to check.
- The one-line command wrappers, the name table of parameters and ah_freqinfo.c: they would only add easy members.
- Sockets, /proc and file reading, ioctl dispatch, printing, interface test mode, teardown after the disconnect, `__RTOS__` variants.
- The layout of the firmware header in the first bytes of an image; images and code offsets of 2 GB and more.
- The boot loader's other check modes (SUM and CRC-8): neither bus selects them.
- Termination of the upload loop: an adversarial network can keep it going; what is proved is safety, and progress without loss.
- Busy waits for the card and time-outs in milliseconds: a wait either ends or times out, at any moment.
- Shared words that two contexts update without a lock (the USB status, a pass of the transmit worker against a flag set during it): each such update or pass is one step.
- Interleaving inside the sequential class methods: they are the undisturbed form, the state machines beside them carry the interleavings.
- The memory of a waiter and of a USB buffer as objects of their own: lists hold values, so aliasing is not captured.
- The content of control packets beyond cookie, kind and whether they read as the sleep command; a firmware block whose bytes read as one is covered by that flag.
- What is in a configuration packet of the upload tool: only whether its checksum holds and what it is answered with.
- What a received frame does behind the network stack, and running out of memory for it: the frame is then dropped and counted.
- `simple_strtol`, `strsep`, `strchr` and `sprintf` belong to the C libraries; they are modelled by what their documentation says, numbers as unbounded integers (only the low 16 bits are used).
- The tool passes a hardware address that is already text of 17 characters on as it is; only printing from bytes is modelled.
- RxPath.Receiver.RxSingleFrm: a frame whose flags take away more than its payload has no defined outcome in the code; the model names that outcome and stops.
- Mac.PickMacaddr: the text behind the 17 copied characters is taken to end somewhere; a search that runs off the stack has no defined outcome.
- TxPath.Fmac.TxAggFrm: aggregates of more than 65535 bytes are not modelled, because the header's length has 16 bits.
- UsbPool.PoolIsSafe: each submitted URB is taken to complete once, as the USB core promises; the RX side is modelled only as far as it moves buffers.
