# NoteUSB: verified model of its core

NoteUSB is a daemon module that hands USB HID devices to client processes. This project models the
four parts of it that hold state, arithmetic or parsing, and proves what they keep over every run.

- **The single-producer single-consumer ring** (`include/dro/spsc-queue.hpp`). `SpscQueue.dfy` is the
  class, its pushes and pops proved against a bounded FIFO. `SpscSteps.dfy` is the same code as two
  threads interleaved at every load, comparison, refresh, slot access and store. Its acquire loads may
  return any entry of the index's modification order not older than the last one that thread read, and
  synchronize with the store that wrote it (release and acquire operations, section 31.4 of ISO C++20);
  slot accesses are ordinary memory, watched by a vector-clock race detector. `SpscInvariant.dfy` keeps
  `Rc <= R <= Wc <= W <= Rc + capacity` over the counters behind the wrapped indices;
  `SpscTheorems.dfy`, `SpscProgress.dfy` and `SpscObservers.dfy` draw the consequences.
- **The crash-recovery registry** (`DeviceRegistry` in `src/device_handler.cpp`): a hand-written
  printer and reader of JSON-shaped text, sections 4 and 5 of RFC 8259 without the escapes of
  section 7. `RegistryText.dfy` is the text as functions, `DeviceRegistry.dfy` the class whose loops
  are proved against them, `RegistryFormat.dfy` says what the text is and what the reader accepts;
  `RegistryScan.dfy`, `RegistryRoundTrip.dfy` and `RegistryExact.dfy` are the proof that it reads back what
  it wrote, and exactly when.
- **Claim and release** (`DeviceHandler`, same file). Five views must agree: descriptors, claims, the
  registry file, the core's ownership registry and the USB world. `UsbWorld.dfy` is libusb as far as
  the module sees it, `DeviceState.dfy` the effect of each operation, `DeviceAnswers.dfy` what
  each answers and changes for which request and outcomes, `DeviceInvariants.dfy` their
  agreement over every run, `RegistryHistory.dfy` the file after runs in which writes fail,
  `ClaimSteps.dfy` and `ReleaseSteps.dfy` a claim and a release interrupted between their steps,
  `DeviceHandler.dfy` the class with every early return. On top of it `NoteUsbModule.dfy` is the
  module's lifecycle (`src/module.cpp`).
- **The streaming pipeline** (`src/hid_streaming_thread.cpp`). `StreamingSteps.dfy` interleaves the
  transfer callback, `stop()` and the process loop at every access to the flag, the queue and the
  counters; `StreamingAnswers.dfy` says what each callback, `stop()` and each round of the process loop
  leave behind; `StreamingTheorems.dfy` proves conservation, order and shutdown; `StreamingEnding.dfy`
  when the process loop can end; `StreamingSubmission.dfy` what depends on submitting the transfer
  again; `HidStreamingThread.dfy` is the class, each method a run of those steps. A callback needs a
  submitted transfer and uses it up. The parameter `rearms` says whether a callback that read a report
  submits the transfer again: false is the code, true the design document. The theorems of
  `StreamingAnswers.dfy`, `StreamingTheorems.dfy` and `StreamingEnding.dfy` hold for both.

Foreign calls (libusb, sockets, opening the registry file for writing, `getpid`) are inputs: every
outcome they can have is a parameter, so every theorem holds for every pattern of failures.

## Where the code does less than it seems to promise

- A capacity of `SIZE_MAX` passes the constructor's size check and gives a ring without slots
  (`SpscQueue.LayoutExact`).
- A failing `try_push` or `try_pop` tells the truth about the queue exactly when its load returned the
  latest index (`SpscObservers.FailureHonestIffLatest`).
- `size()` called by a third thread reports the length at its first load exactly when whole laps were
  popped between its loads, and the length at its second load exactly when whole laps were pushed
  (`SpscObservers.SizeOfLatest`; for loads of older entries `SizeSeenByOthers`). One push and one pop in between make it report "full" of an empty
  queue (`SizeCanMisreport`) or "empty" of a queue that never was (`SizeCanMissEveryLength`).
- The registry round trip holds for a list exactly when every id in it is non-empty, free of quotes and
  balanced in braces (`RegistryExact.RoundTripExact`). Ids of the form "bus:address" always are.
- `write_registry` can fail and its callers ignore that: claims and file then disagree
  (`DeviceInvariants.ClaimFileExact`, `ReleaseFileExact`, `ReleaseAllFileExact`; over runs, id by id,
  `RegistryHistory.FileAgreesOverRuns`), and `remove_device`
  still answers true (`DeviceRegistry.DeviceRegistry.RemoveDevice`).
- A driver whose reattachment fails at release stays detached without a recovery entry
  (`DeviceInvariants.ReleaseStrandsExactly`). A process that dies loses the driver of a claim between
  detaching it and persisting the claim (`ClaimSteps.CrashWindow`), and of a release or bulk release once
  the file was written without it (`ReleaseSteps.ReleaseWindow`, `BulkReleaseWindow`).
- Loading the module clears the registry file: the handler that `init` builds is destroyed by
  `set_ownership_registry`, whose bulk release prints an empty list. The entries that a crashed process
  left for recovery are gone with the next start (`NoteUsbModule.NoteUsbModule.Load`).
- `docs/streaming_thread_design.md` says that the capture thread "resubmits transfer automatically". The
  code submits again only after a completion without data, so one start captures at most one report
  (`StreamingSubmission.AtMostOneReport`).
- The process loop ends through a sentinel whose push may fail: exactly when the queue has no room, or
  has some that a load of an old index hides (`StreamingTheorems.EndsIffRoomForSentinel`). Without it the
  loop polls for ever and a waiting `stop()` never returns (`StopNeverReturns`). That can happen exactly
  when transfers are submitted again or the capacity is below 2
  (`StreamingSubmission.SentinelCanBeLostExactly`): not to the code as it is, whose 256 slots always have
  room (`CodeStops`; two producers at once, below, are apart), but to the documented design at every
  capacity.
- Once `running_` is false the loop can end exactly when the sentinel is in, or a thread is about to push
  it into a queue that has slots (`StreamingEnding.EndsExactly`). Of the four ways in which the flag is
  cleared (`FlagIsClearedBy`) the exchanges of `stop()` and of a lost device lead there. A failed send
  (`src/hid_streaming_thread.cpp:275`) and a failed resubmission (`src/hid_streaming_thread.cpp:162`) do
  not: the loop never ends and `stop()` does nothing (`ClearedFlagEndsExactly`,
  `FailedSendLeavesNoSentinel`, `FailedResubmissionLeavesNoSentinel`, `FailedResubmissionReachable`).
- `stop()` pushes while a callback may be pushing: two producers at once
  (`StreamingTheorems.TwoProducersExactly`, `TwoProducersReachable`). Without overlap it still pushes from
  another thread than the callbacks, exactly as `HandOffExactly` says, and nothing in the code orders its
  push after theirs; the model takes that order as given.
- A second `init` overwrites the first one's libusb context, and shutdown closes only the last
  (`NoteUsbModule.NoteUsbModule.ShutdownWithReason`).
- `docs/streaming_thread_design.md` gives the queue 1024 slots; the header gives it 256. The theorems
  hold for every capacity.

## Model

| member | source | states |
|---|---|---|
| RingArithmetic.SlotIsModulo | include/dro/spsc-queue.hpp:193-195 | Advancing an index by comparison and wrap is counting modulo the ring size. |
| RingArithmetic.FullTest | include/dro/spsc-queue.hpp:193-201 | "Next index equals the read index" holds exactly when the counters are capacity apart. |
| RingArithmetic.DistanceOfCounters | include/dro/spsc-queue.hpp:271-280 | The unsigned two-branch subtraction is the distance of the counters when they are within a lap. |
| RingArithmetic.DistanceIsModulo | include/dro/spsc-queue.hpp:271-280 | For counters any distance apart it is their difference modulo the ring. |
| SpscQueue.LayoutExact | include/dro/spsc-queue.hpp:65-83 | Which capacities the constructor accepts in size_t arithmetic, and which of the two exceptions the others get; each accepted one gets capacity + 1 slots and a buffer that fits, except SIZE_MAX, which gets none. |
| SpscQueue.PaddingIsLeast | include/dro/spsc-queue.hpp:65-65 | The padding is the least number of elements that fills more than 63 bytes. |
| SpscQueue.Create | include/dro/spsc-queue.hpp:69-83 | The logic error exactly for 0, the overflow error exactly for what does not fit; otherwise an empty valid queue of that capacity, and an invalid one for SIZE_MAX. |
| SpscQueue.SpscQueue.constructor | include/dro/spsc-queue.hpp:147-151 | A layout with at least two slots gives an empty queue. |
| SpscQueue.SpscQueue.TryEmplace | include/dro/spsc-queue.hpp:191-208 | Fails exactly on a full queue and leaves it alone; otherwise appends, through stale caches and padding, every index in bounds. |
| SpscQueue.SpscQueue.TryPop | include/dro/spsc-queue.hpp:252-269 | Fails exactly on an empty queue and leaves it alone; otherwise removes the oldest element. |
| SpscQueue.SpscQueue.Emplace | include/dro/spsc-queue.hpp:160-175 | The spinning push ends when there is room and appends. |
| SpscQueue.SpscQueue.Pop | include/dro/spsc-queue.hpp:237-250 | The spinning pop ends when there is an element and removes the oldest. |
| SpscQueue.SpscQueue.WriteAndPublish | include/dro/spsc-queue.hpp:302-320 | Writing the slot and storing the next index appends; no unread slot is overwritten. |
| SpscQueue.SpscQueue.ReadAndPublish | include/dro/spsc-queue.hpp:294-300 | Reading the slot and storing the next index removes the oldest element. |
| SpscQueue.SpscQueue.Size | include/dro/spsc-queue.hpp:271-280 | The length of the contents. |
| SpscQueue.SpscQueue.Empty | include/dro/spsc-queue.hpp:282-285 | True iff there are no contents. |
| SpscInvariant.StepKeeps | include/dro/spsc-queue.hpp:132-144 | Every step of either thread keeps Rc <= R <= Wc <= W <= Rc + capacity, the wrapped indices and the race detector's clocks. |
| SpscInvariant.RunKeeps | include/dro/spsc-queue.hpp:132-144 | The same over every interleaving and every staleness of the acquire loads. |
| SpscTheorems.SlotExclusive | include/dro/spsc-queue.hpp:191-269 | The slot about to be written is neither the one about to be read nor any published unread one. |
| SpscTheorems.NoRaceInStep | include/dro/spsc-queue.hpp:191-269 | In any state of the invariant, no slot access races: the other thread's last access to the slot is already known. |
| SpscTheorems.RaceFree | include/dro/spsc-queue.hpp:191-269 | No run, however stale its loads, is followed by a data race. |
| SpscTheorems.ProducerRefines | include/dro/spsc-queue.hpp:162-208 | Each producer step is invisible in the contents or is one legal FIFO event. |
| SpscTheorems.ConsumerRefines | include/dro/spsc-queue.hpp:237-269 | Each consumer step is invisible in the contents or is one legal FIFO event. |
| SpscTheorems.StepRefines | include/dro/spsc-queue.hpp:191-269 | Every step refines the atomic bounded FIFO. |
| SpscTheorems.RunRefines | include/dro/spsc-queue.hpp:191-269 | Every run refines a run of the atomic bounded FIFO. |
| SpscTheorems.FifoConserves | include/dro/spsc-queue.hpp:191-269 | In any run of the FIFO, contents plus pushed equals popped plus contents, in order. |
| SpscTheorems.Fifo | include/dro/spsc-queue.hpp:191-269 | From the initial queue, the arguments of the successful push calls are what was popped, in order, followed by the published unread slots; never more than the capacity. |
| SpscTheorems.EffectsAreArguments | include/dro/spsc-queue.hpp:191-208 | If calls take effect once on their arguments, the values pushed are the arguments of the calls that succeeded. |
| SpscTheorems.StepProgress | include/dro/spsc-queue.hpp:191-269 | Every step advances its thread's call by the automaton call, effect on the call's argument, return of the effect's result. |
| SpscTheorems.RunProgress | include/dro/spsc-queue.hpp:191-269 | In every run each call takes effect exactly once, on its own argument, before returning that result; the calls carry the clients' arguments. |
| SpscTheorems.Linearizable | include/dro/spsc-queue.hpp:191-269 | With sequentially consistent loads the calls, arguments and results included, are linearizable to the bounded FIFO; a push fails only on capacity elements, a pop only on none, at its effect. |
| SpscProgress.TryingIsWaitFree | include/dro/spsc-queue.hpp:191-269 | Whatever the other thread does and the loads return, try_push has returned after seven steps of its own, try_pop after six. |
| SpscProgress.PushGoesOnIffRoomSeen | include/dro/spsc-queue.hpp:163-208 | A push, trying or spinning, gets from its comparison to the slot iff it has seen room. |
| SpscProgress.PopGoesOnIffElementSeen | include/dro/spsc-queue.hpp:237-269 | A pop, trying or spinning, gets from its comparison to the slot iff it has seen an element. |
| SpscProgress.SpinningPush | include/dro/spsc-queue.hpp:163-172 | One turn of the spinning push refreshes its cache, and the next comparison passes iff the loaded entry shows room. |
| SpscProgress.SpinningPop | include/dro/spsc-queue.hpp:237-244 | The same for the spinning pop. |
| SpscObservers.FailureHonestIffLatest | include/dro/spsc-queue.hpp:198-204 | A failing call is right about the contents iff its refresh load returned the latest index. |
| SpscObservers.FullNeedsALap | include/dro/spsc-queue.hpp:197-204 | A push fails only after at least capacity pushes, however stale its load. |
| SpscObservers.SizeInRange | include/dro/spsc-queue.hpp:271-280 | Whoever calls size() and whatever entries its two loads return, the answer is their difference modulo the ring, in 0..capacity. |
| SpscObservers.SizeSeenByProducer | include/dro/spsc-queue.hpp:271-280 | For the producer, with any entry of the read index it may load: never below the length, and equal to it iff the entry was the latest. |
| SpscObservers.SizeSeenByConsumer | include/dro/spsc-queue.hpp:271-280 | For the consumer, with any entry of the write index it may load: never above the length, and equal to it iff the entry was the latest. |
| SpscObservers.SizeSeenByOthers | include/dro/spsc-queue.hpp:271-280 | For a third thread and any entries its loads return: the length at the first load iff missed pushes and pops ahead add up to whole laps there, at the second load likewise. |
| SpscObservers.SizeOfLatest | include/dro/spsc-queue.hpp:271-280 | With the latest entries: the length at the first load iff whole laps were popped between the loads, at the second iff whole laps were pushed. |
| SpscObservers.SizeCanMisreport | include/dro/spsc-queue.hpp:271-280 | For every ring, a run in which a third thread reads "full" of a queue that is empty at both loads. |
| SpscObservers.SizeCanMissEveryLength | include/dro/spsc-queue.hpp:271-280 | For every ring of three slots or more, a run in which it reads "empty" of a queue that is never empty. |
| Decimal.StollReadsIntText | src/device_handler.cpp:116-125 | Printing an int and reading the prefix of a longer text back gives the int. |
| Decimal.NatTextDigits | src/device_handler.cpp:119-121 | A number is printed as its decimal digits without leading zeros. |
| Decimal.StollReads | src/device_handler.cpp:191-191 | White space, an optional sign and digits read as that number, up to the first other character; out of the range of long long not at all. |
| Decimal.StollNeedsDigit | src/device_handler.cpp:191-191 | Without a digit there, nothing is read. |
| Decimal.ToInt32Congruent | src/device_handler.cpp:202-204 | The cast to int keeps the low 32 bits. |
| RegistryFormat.ObjectFormat | src/device_handler.cpp:116-125 | An entry is printed character by character as the JSON object with its four members in this order. |
| RegistryFormat.FileFormat | src/device_handler.cpp:140-145 | The file is the objects in list order, separated by commas, in brackets, with a newline. |
| RegistryFormat.BalancedIs | src/device_handler.cpp:164-171 | The depth counting accepts as balanced exactly the texts with as many braces of both kinds and no prefix with more closing ones. |
| RegistryFormat.ReadsFirst | src/device_handler.cpp:160-208 | The first object is the text from the first opening brace to its match; the reader goes on behind it. |
| RegistryFormat.ReadsPastUnclosed | src/device_handler.cpp:172-172 | An opening brace that nothing closes is passed over. |
| RegistryFormat.AfterIsFirst | src/device_handler.cpp:180-182 | The key search finds the first place where the key stands, and nothing only if it stands nowhere. |
| RegistryFormat.ReadsBool | src/device_handler.cpp:193-200 | Behind blanks, "true" is true and anything else false. |
| RegistryFormat.ReadsInt | src/device_handler.cpp:186-192 | Behind the key a number reads as such, an out-of-range one as 0. |
| RegistryFormat.ReadsString | src/device_handler.cpp:178-185 | A string reads up to the next quote. |
| RegistryFormat.MissingIsDefault | src/device_handler.cpp:178-198 | A missing key reads as 0, empty or false, a string without a closing quote as empty. |
| RegistryFormat.ParsesKeys | src/device_handler.cpp:202-207 | An object yields one entry of its four keys' values, and none without an id. |
| RegistryScan.ClosePasses | src/device_handler.cpp:164-171 | Brace matching passes over a text that does not close the outermost brace. |
| RegistryScan.CloseInside | src/device_handler.cpp:164-171 | Brace matching ends inside a text that closes the outermost brace, whatever follows. |
| RegistryScan.ReadAppend | src/device_handler.cpp:158-211 | Reading a + b is reading a then b, for any a whose braces balance with no prefix over-closed. |
| RegistryScan.QuotedIsNotKey | src/device_handler.cpp:178-189 | A quoted word is not taken for a key unless it is that word and a ':' follows. |
| RegistryScan.AfterQuoted | src/device_handler.cpp:178-189 | The key search steps over every quoted word that is not the key. |
| RegistryRoundTrip.SearchPassesId | src/device_handler.cpp:186-200 | The searches for the later keys pass the id, even one equal to a key's name. |
| RegistryRoundTrip.FindsId | src/device_handler.cpp:178-185 | The search for the id finds the end of the object's head. |
| RegistryRoundTrip.ParsesBody | src/device_handler.cpp:116-207 | A printed object with a non-empty quote-free id parses to its device, all four fields. |
| RegistryRoundTrip.ReadsObject | src/device_handler.cpp:158-209 | A printed object with a printable id is balanced and reads back alone. |
| RegistryRoundTrip.RoundTrip | src/device_handler.cpp:127-212 | A list of any length with printable ids reads back as the same list in the same order. |
| RegistryExact.EntriesNeedIdKeys | src/device_handler.cpp:178-207 | On every text the reader yields no more entries than the id key occurs. |
| RegistryExact.OneIdKeyEach | src/device_handler.cpp:116-147 | A printed list with quote-free ids holds the id key exactly once per entry. |
| RegistryExact.OverclosedIsDropped | src/device_handler.cpp:164-174 | An id with a closing brace too many cuts its object off before its id ends. |
| RegistryExact.UnderclosedSwallows | src/device_handler.cpp:164-174 | An id with an open brace makes its object swallow the next one's key. |
| RegistryExact.UnbalancedLosesAnEntry | src/device_handler.cpp:158-211 | A list whose first id is unbalanced reads back with fewer entries. |
| RegistryExact.ReadIdsArePlain | src/device_handler.cpp:178-207 | On every text the ids read are non-empty and quote-free. |
| RegistryExact.RoundTripExact | src/device_handler.cpp:127-212 | A list reads back as written iff all its ids are non-empty, quote-free and balanced. |
| DeviceRegistry.DeviceRegistry.FindBrace | src/device_handler.cpp:161-162 | The first opening brace from a position, or the end. |
| DeviceRegistry.DeviceRegistry.MatchBrace | src/device_handler.cpp:164-171 | The depth-counting loop finds the matching brace, or the start when there is none. |
| DeviceRegistry.DeviceRegistry.ReadBool | src/device_handler.cpp:193-200 | The blank-skipping loop reads the flag. |
| DeviceRegistry.DeviceRegistry.ReadRegistry | src/device_handler.cpp:149-212 | The reader's loop ends on every text, never indexes out of range, and yields the text's entries. |
| DeviceRegistry.DeviceRegistry.WriteRegistry | src/device_handler.cpp:127-147 | The printing loop writes the list's text, or nothing when the file cannot be opened. |
| DeviceRegistry.DeviceRegistry.AddDevice | src/device_handler.cpp:64-84 | The file becomes the print of its entries without the id, in their order, and then the new entry. |
| DeviceRegistry.DeviceRegistry.RemoveDevice | src/device_handler.cpp:86-101 | True iff the id was present; then the file becomes the print of the other entries. |
| DeviceRegistry.DeviceRegistry.GetAllDevices | src/device_handler.cpp:103-106 | The entries of the file. |
| DeviceRegistry.DeviceRegistry.RemoveAll | src/device_handler.cpp:108-112 | The file becomes the print of no entries. |
| DeviceRegistry.WithoutKeepsOthers | src/device_handler.cpp:76-78 | The filter removes exactly the entries with the id and shortens the list iff there is one. |
| DeviceRegistry.WithoutSplits | src/device_handler.cpp:76-78 | The filter keeps the others in their order. |
| DeviceRegistry.AddedIsLast | src/device_handler.cpp:75-80 | After an add the new entry is the last, behind the others in their order. |
| DeviceRegistry.FileIsKept | src/device_handler.cpp:93-96 | Removing an absent id, or a write that fails, leaves the file's bytes alone. |
| DeviceRegistry.ChangeAgrees | src/device_handler.cpp:64-112 | A change through the bytes is that change of the list and keeps ids printable and distinct. |
| DeviceRegistry.ChangesAgree | src/device_handler.cpp:64-112 | Any sequence of adds, removes and clears through the bytes agrees with a plain ordered list; ids stay distinct. |
| DeviceRegistry.AddSurvivesIffPrintable | src/device_handler.cpp:64-84 | An added entry is found again, last, iff its id is printable. |
| UsbWorld.IdOfInjective | src/device_handler.cpp:270-272 | "bus:address" is injective on bus and address. |
| UsbWorld.IdReadsBack | src/device_handler.cpp:270-272 | Reading the id as a number gives the bus, reading behind its colon the address. |
| UsbWorld.BusIdsArePrintable | src/device_handler.cpp:270-272 | Every "bus:address" id survives the registry file. |
| DeviceState.DiscoveredExactly | src/device_handler.cpp:263-286 | A scan never touches a known descriptor and adds exactly the usable devices' ids. |
| DeviceState.ListedIs | src/device_handler.cpp:276-281 | A device is listed under its id with the vendor and product id read, interface 0, unclaimed. |
| DeviceState.FirstIsListed | src/device_handler.cpp:263-286 | Of several usable devices with one new id the first is listed. |
| DeviceState.DiscoveryIdempotent | src/device_handler.cpp:263-286 | Scanning the same bus twice is scanning it once. |
| DeviceState.FoundDeviceHasId | src/device_handler.cpp:366-378 | The device a claim opens has the requested id; none is found only if none has it. |
| DeviceState.FoundDeviceIsFirst | src/device_handler.cpp:371-378 | It is the first such device on the bus. |
| DeviceState.ClaimOpensListedDevice | src/device_handler.cpp:263-378 | On a bus with unique places a claim opens the very device discovery listed under the id. |
| DeviceAnswers.ClaimAnswers | src/device_handler.cpp:324-420 | Each answer of a claim iff its cause; success iff the device is listed, unclaimed and on the bus, and opening it and claiming its interface work, whatever its kernel driver does. |
| DeviceAnswers.RefusedClaimChangesNothing | src/device_handler.cpp:324-420 | A refused claim changes none of the views. |
| DeviceAnswers.ClaimClaims | src/device_handler.cpp:422-440 | A success adds exactly that claim, with its handle, owner and driver flag. |
| DeviceAnswers.ClaimShows | src/device_handler.cpp:441-443 | Its descriptor shows handle, owner and driver flag and keeps the rest; the other descriptors stay. |
| DeviceAnswers.ClaimOpens | src/device_handler.cpp:391-428 | The handle is open on a device of that id, its interface claimed, the driver detached iff it was active and could be. |
| DeviceAnswers.ClaimRecords | src/device_handler.cpp:445-451 | The file gets the entry behind the others if it can be written, the core's registry the owner. |
| DeviceAnswers.ReleaseAnswers | src/device_handler.cpp:470-490 | Each answer of a release iff its cause; success for every claim. |
| DeviceAnswers.RefusedReleaseChangesNothing | src/device_handler.cpp:470-490 | A refused release changes nothing. |
| DeviceAnswers.ReleaseReleases | src/device_handler.cpp:505-505 | The claim is gone and the others stay. |
| DeviceAnswers.ReleaseShows | src/device_handler.cpp:507-512 | Its descriptor shows it free and keeps what the device is; the others stay. |
| DeviceAnswers.ReleaseCloses | src/device_handler.cpp:492-503 | Exactly its handle is closed, with its interface; its driver is put back or stranded. |
| DeviceAnswers.ReleaseForgets | src/device_handler.cpp:514-519 | Its entry goes if the file can be written, its owner goes, all others stay in order. |
| DeviceAnswers.ReleaseAllForgets | src/device_handler.cpp:545-551 | Bulk release empties claims, descriptors and, if it can, the file, and takes exactly the claims' ids from the core's registry. |
| DeviceAnswers.ReleaseAllCloses | src/device_handler.cpp:537-543 | Exactly the claims' handles are closed; exactly the drivers not put back are stranded. |
| DeviceState.DetachedDriversAreRecoverable | src/device_handler.cpp:421-446 | With the views in agreement every detached driver has a recovery entry for its device and interface. |
| ClaimSteps.StepsMakeTheClaim | src/device_handler.cpp:391-451 | The seven steps of a claim, in the order of the code, together are the claim. |
| ClaimSteps.ClaimOrder | src/device_handler.cpp:391-451 | Open, interface, driver, claim, descriptor, file, owner: what is done after n steps. |
| ClaimSteps.CrashWindow | src/device_handler.cpp:421-446 | A process that dies after n steps of a claim that nothing stops leaves a driver without a recovery entry iff it was detached and n is 3, 4 or 5, or the write then failed. |
| ReleaseSteps.StepsMakeTheRelease | src/device_handler.cpp:492-518 | The seven steps of a release, in the order of the code, together are the release. |
| ReleaseSteps.ReleaseOrder | src/device_handler.cpp:492-519 | Interface, driver, handle, claim, descriptor, file, owner: what is undone after n steps. |
| ReleaseSteps.NothingLostBefore | src/device_handler.cpp:492-512 | As long as the file is not rewritten every driver detached before has its entry, whatever else was done. |
| ReleaseSteps.ReleaseWindow | src/device_handler.cpp:492-518 | A process that dies after n steps of a release has lost only that claim's driver, and iff its entry is removed and it could not be put back. |
| ReleaseSteps.BulkReleaseWindow | src/device_handler.cpp:536-553 | A process that dies after a bulk release has lost exactly the drivers that could not be put back, iff the file was cleared. |
| DeviceInvariants.ClaimKeepsMaps | src/device_handler.cpp:431-443 | A claim keeps descriptors and claims in agreement. |
| DeviceInvariants.ClaimKeepsHandles | src/device_handler.cpp:391-443 | A claim keeps one non-null handle per claim, on the device of that id, interface claimed, driver flag right. |
| DeviceInvariants.ClaimAccounts | src/device_handler.cpp:391-443 | Whatever call fails, a claim leaves no handle open that no claim holds. |
| DeviceInvariants.ClaimKeepsOwners | src/device_handler.cpp:449-451 | A claim keeps this module's ids in the core's registry equal to the claimed ids. |
| DeviceInvariants.ClaimFileExact | src/device_handler.cpp:446-446 | After a successful claim file and claims agree iff the file was written. |
| DeviceInvariants.ReleaseAccounts | src/device_handler.cpp:492-505 | A release closes the claim's handle and no other. |
| DeviceInvariants.ReleaseFileExact | src/device_handler.cpp:514-514 | After a successful release file and claims agree iff the file was written. |
| DeviceInvariants.ReleaseStrandsExactly | src/device_handler.cpp:493-503 | A release strands its driver iff it had been detached and reattaching failed. |
| DeviceInvariants.AllLive | src/device_handler.cpp:537-538 | With the views in agreement bulk release skips no claim for a null handle. |
| DeviceInvariants.ReleaseAllKeeps | src/device_handler.cpp:536-553 | Bulk release leaves no claim and no open handle of a claim. |
| DeviceInvariants.ReleaseAllKeepsOwners | src/device_handler.cpp:545-547 | Bulk release removes all of this module's ids from the core's registry. |
| DeviceInvariants.ReleaseAllFileExact | src/device_handler.cpp:549-551 | After bulk release file and claims agree iff the file was written or held nothing, from any file; from an agreeing one iff it was written or nothing was claimed. |
| DeviceInvariants.OperationKeeps | src/device_handler.cpp:252-553 | Every operation keeps all agreements. |
| DeviceInvariants.RunKeeps | src/device_handler.cpp:252-553 | Every run keeps all agreements. |
| DeviceInvariants.ViewsAgreeOverRuns | src/device_handler.cpp:252-553 | Over every run with arbitrary libusb failures: open handles are exactly the claims', maps and owners agree; while writes succeed so does the file, and every detached driver is recoverable. |
| RegistryHistory.FileOverRuns | src/device_handler.cpp:64-112 | Whatever writes fail, after every run the file holds for each id what the last operation to write about it wrote, or what it held before. |
| RegistryHistory.FileAgreesOverRuns | src/device_handler.cpp:64-112 | After every run file and claims agree iff for every id the last successful write is what the claims call for. |
| DeviceHandler.DeviceHandler.DiscoverDevices | src/device_handler.cpp:252-291 | The scanning loop computes the scan, nothing without a context or list. |
| DeviceHandler.DeviceHandler.StartDiscovery | src/device_handler.cpp:240-245 | Scans once and sets the flag. |
| DeviceHandler.DeviceHandler.Find | src/device_handler.cpp:366-378 | The search loop finds the first device with the id. |
| DeviceHandler.DeviceHandler.ClaimDevice | src/device_handler.cpp:324-466 | The code and reply of each early return; every failure leaves all five views as they were; it succeeds iff nothing stands in the way, and then is one claim made in all of them. |
| DeviceHandler.DeviceHandler.Acquire | src/device_handler.cpp:391-428 | Open, claim the interface, detach the driver: the first steps, or everything as it was after a failure. |
| DeviceHandler.DeviceHandler.Record | src/device_handler.cpp:430-451 | Claim, descriptor, file and core registry, one step after the other. |
| DeviceHandler.DeviceHandler.ReleaseDevice | src/device_handler.cpp:470-532 | The code and reply; it succeeds iff the id is claimed, and then undoes the claim in all five views and closes its handle. |
| DeviceHandler.DeviceHandler.Forget | src/device_handler.cpp:492-518 | The release step by step: world, claim, descriptor, file, core registry. |
| DeviceHandler.DeviceHandler.GiveUp | src/device_handler.cpp:492-503 | Release of the interface, attempt to reattach, close. |
| DeviceHandler.DeviceHandler.GiveUpAll | src/device_handler.cpp:537-548 | The loop over the claims, in any order, gives all of them up and takes their ids from the core's registry. |
| DeviceHandler.DeviceHandler.ReleaseAllDevices | src/device_handler.cpp:536-553 | All claims are given up and all five views cleared. |
| NoteUsbModule.NoteUsbModule.Init | src/module.cpp:79-112 | Failure changes nothing; success replaces the handler: the old one's claims leave the USB world, the registry file if it can be written, and the core's registry. |
| NoteUsbModule.NoteUsbModule.SetOwnershipRegistry | src/module.cpp:114-124 | Rebuilds an existing handler on the new registry; the old one's claims leave the USB world, the file and the old registry. |
| NoteUsbModule.NoteUsbModule.ReplaceHandler | src/module.cpp:120-123 | The new handler is built before the old one is destroyed; afterwards no handle is open, the file is empty if it could be written, and the old registry lists nothing of this module. |
| NoteUsbModule.NoteUsbModule.Destroy | src/device_handler.cpp:230-236 | Destroying a handler releases everything it had claimed. |
| NoteUsbModule.NoteUsbModule.Start | src/module.cpp:126-164 | Starts discovery once; a second start is refused. |
| NoteUsbModule.NoteUsbModule.Load | src/module.cpp:79-124 | init and then set_ownership_registry leave a new handler on the new registry, and an empty registry file whenever it can be written, whatever it held. |
| NoteUsbModule.NoteUsbModule.StopInternal | src/module.cpp:175-200 | Releases everything iff running; claims made while stopped stay for shutdown. |
| NoteUsbModule.NoteUsbModule.Cleanup | src/module.cpp:399-406 | Releases every claim and drops every session. |
| NoteUsbModule.NoteUsbModule.ShutdownWithReason | src/module.cpp:207-225 | From every state ends with nothing claimed, open, running or owned; a second call changes nothing. |
| NoteUsbModule.NoteUsbModule.Destructor | src/module.cpp:57-63 | Shuts down only what is still live. |
| NoteUsbModule.NoteUsbModule.HandleManagementMessage | src/module.cpp:229-282 | CMD before EVENT; each command has the handler's effect, code and reply, anything else changes nothing and gets no reply. |
| NoteUsbModule.CmdComesFirst | src/module.cpp:232-236 | The CMD field decides, the EVENT field only without one. |
| StreamingTheorems.StepKeeps | src/hid_streaming_thread.cpp:93-222 | Every step of callback, stop and process loop keeps counting, order and sentinel discipline. |
| StreamingAnswers.LateCallbackDoesNothing | src/hid_streaming_thread.cpp:135-138 | With the flag down a callback only ends its transfer. |
| StreamingAnswers.ReportIsQueued | src/hid_streaming_thread.cpp:140-151 | A completion with data is queued last and counted read, or counted dropped iff there is no room. |
| StreamingAnswers.LostDeviceIsNotified | src/hid_streaming_thread.cpp:152-177 | A NO_DEVICE completion takes the flag down, submits nothing and pushes the sentinel. |
| StreamingAnswers.LostDeviceCanEnd | src/hid_streaming_thread.cpp:152-177 | After it the process loop can end iff the queue has a slot. |
| StreamingAnswers.OtherCompletionResubmits | src/hid_streaming_thread.cpp:155-164 | Any other completion submits the transfer again; a failure of that takes the flag down; nothing else changes. |
| StreamingAnswers.StoppedCallbackDoesNotResubmit | src/hid_streaming_thread.cpp:157-157 | If the flag goes down in between, nothing is submitted. |
| StreamingAnswers.StoppedCallbackDoesNotNotify | src/hid_streaming_thread.cpp:170-170 | If it goes down in between, a lost device is not notified again. |
| StreamingAnswers.StopPushesSentinel | src/hid_streaming_thread.cpp:93-109 | With the flag up stop takes it down, pushes the sentinel and joins; with it down it does nothing. |
| StreamingAnswers.StopReturnsExactly | src/hid_streaming_thread.cpp:107-109 | It returns once the process loop has ended and no callback is under way, and not before. |
| StreamingAnswers.ReportIsSent | src/hid_streaming_thread.cpp:208-261 | A round of either loop takes the oldest report, hands it on and counts it; a failed send takes the flag down. |
| StreamingAnswers.PopMovesOn | src/hid_streaming_thread.cpp:207-222 | The sentinel ends the first loop, an empty queue only the second, which skips empty reports. |
| StreamingTheorems.Conservation | src/hid_streaming_thread.cpp:135-260 | Over every run: captured = read + dropped + pending; read = sent + queued + in hand; processed is a prefix of accepted, accepted a subsequence of captured. |
| StreamingTheorems.CountersBalance | src/hid_streaming_thread.cpp:146-151 | Between callbacks and reports the three counters alone balance with the queue. |
| StreamingTheorems.CapturedAreReceived | src/hid_streaming_thread.cpp:136-146 | The captured reports are the non-empty completions delivered while the flag was up, in order. |
| StreamingTheorems.AtMostOneSentinel | src/hid_streaming_thread.cpp:93-100 | However stop and a lost device interleave, at most one sentinel per start. |
| StreamingTheorems.TwoProducersExactly | src/hid_streaming_thread.cpp:93-100 | Two threads come to push at once iff stop wins the flag while a callback is pushing a report. |
| StreamingTheorems.TwoProducersReachable | src/hid_streaming_thread.cpp:136-146 | A two-step run that gets there. |
| StreamingTheorems.HandOffExactly | src/hid_streaming_thread.cpp:93-100 | Another thread than before pushes iff stop pushes its sentinel after a callback has captured a report, and then nobody pushes any more. |
| StreamingTheorems.NothingIsQueuedAgain | src/hid_streaming_thread.cpp:136-138 | Once the flag is down and no push is under way the queue only loses its front. |
| StreamingTheorems.SentinelIsLast | src/hid_streaming_thread.cpp:168-174 | A pushed sentinel is the last element ever queued. |
| StreamingTheorems.PopsAreBounded | src/hid_streaming_thread.cpp:207-222 | After a pushed sentinel the pops still to try count down exactly, from at most capacity + 1. |
| StreamingTheorems.ShutdownDrains | src/hid_streaming_thread.cpp:204-222 | At most capacity + 1 more pops, not counting those that fail for an old index; at the end the queue is empty and every accepted report was processed. |
| StreamingTheorems.ReachesDone | src/hid_streaming_thread.cpp:204-222 | From a pushed sentinel the process loop reaches its end on its own. |
| StreamingTheorems.EndsIffRoomForSentinel | src/hid_streaming_thread.cpp:97-100 | From a push of the sentinel on, the loop can end iff the queue has room and the push sees it. |
| StreamingTheorems.StopNeverReturns | src/hid_streaming_thread.cpp:97-109 | A stop whose sentinel was lost waits for ever. |
| StreamingEnding.EndsExactly | src/hid_streaming_thread.cpp:93-222 | With the flag down and not two producers at once, the loop can end iff the sentinel is in or about to be pushed into a queue with slots. |
| StreamingEnding.FlagIsClearedBy | src/hid_streaming_thread.cpp:93-275 | A step clears the flag iff it is stop's exchange, a lost device's, a failed resubmission or a failed send. |
| StreamingEnding.ClearedFlagEndsExactly | src/hid_streaming_thread.cpp:93-275 | After the step that clears the flag the loop can end iff that was stop or a lost device. |
| StreamingEnding.FailedSendLeavesNoSentinel | src/hid_streaming_thread.cpp:263-278 | A failed send, whatever the callback is doing, clears the flag without a sentinel: a later stop does nothing and the loop ends in no run. |
| StreamingEnding.FailedResubmissionLeavesNoSentinel | src/hid_streaming_thread.cpp:157-163 | So does a failed resubmission. |
| StreamingEnding.FailedResubmissionReachable | src/hid_streaming_thread.cpp:155-163 | The first completion without data can get there. |
| StreamingSubmission.AtMostOneReport | src/hid_streaming_thread.cpp:75-166 | As the code is, one start captures at most one report and no transfer is left; with a slot none is dropped, with two no sentinel is lost. |
| StreamingSubmission.CodeStops | src/hid_streaming_thread.cpp:93-109 | As the code is, with two slots or more, a stop that got the flag has pushed its sentinel and the loop can end. |
| StreamingSubmission.SentinelCanBeLost | src/hid_streaming_thread.cpp:97-100 | A run in which stop loses its sentinel: for every capacity if transfers are submitted again, else for 0 and 1. |
| StreamingSubmission.SentinelCanBeLostExactly | src/hid_streaming_thread.cpp:97-100 | Some run loses a sentinel iff transfers are submitted again or the capacity is below 2. |
| HidStreamingThread.HidStreamingThread.constructor | src/hid_streaming_thread.cpp:17-23 | A thread not yet started: flag down, nothing in flight, counted or queued. |
| HidStreamingThread.HidStreamingThread.Start | src/hid_streaming_thread.cpp:35-91 | While running nothing; a failing allocation or submission only takes the flag back; otherwise the step system's initial state. |
| HidStreamingThread.HidStreamingThread.TransferCallback | src/hid_streaming_thread.cpp:132-166 | One callback, uninterrupted, is a run of the step system; for each status what it leaves of flag, transfer and queue. |
| HidStreamingThread.HidStreamingThread.PushReport | src/hid_streaming_thread.cpp:140-151 | A report is queued and counted read, or counted dropped on a full queue. |
| HidStreamingThread.HidStreamingThread.NotifyDeviceLost | src/hid_streaming_thread.cpp:168-177 | Clears the flag once and pushes the sentinel only then. |
| HidStreamingThread.HidStreamingThread.Stop | src/hid_streaming_thread.cpp:93-109 | Up to the joins stop is a run of the step system; it returns early iff the flag was down. |
| HidStreamingThread.HidStreamingThread.PopAndProcess | src/hid_streaming_thread.cpp:207-215 | One round of the first loop keeps the invariant and shortens the queue. |
| HidStreamingThread.HidStreamingThread.Drain | src/hid_streaming_thread.cpp:217-222 | The draining loop, on any queue: every non-empty report is processed in order, sentinels and empty reports skipped, the queue left empty. |
| HidStreamingThread.HidStreamingThread.DrainedIs | src/hid_streaming_thread.cpp:217-222 | What the draining loop hands on is the reports of the queue in order, without the empty ones. |
| HidStreamingThread.HidStreamingThread.ProcessLoop | src/hid_streaming_thread.cpp:204-226 | After a pushed sentinel both loops end with the queue empty and every accepted report processed. |

## Left out

- The library calls themselves: libusb, sockets, `syslog`, `fork`, `mkdir`, file streams; only their outcomes appear.
- A failing `libusb_init` in `init` is taken to leave the stored context pointer as it was.
- `force_emplace` and `force_push`: they skip the fullness check, nothing calls them, and they break the FIFO.
- `StackBuffer`, the concept constraints, `noexcept`, alignment and allocation failure; `padding` is kept as the index offset it is.
- Bytes above ASCII and a registry text with more than 2^31 nested braces (the reader's depth counter is an `int`): text is a sequence of characters and depth is unbounded.
- Descriptors are shared pointers in the source; here they are values in the handler's map, since nothing outside the handler writes them in the modelled code.
- `DeviceInfo.capabilities` is a constant mask and is dropped; so are the texts of error messages and the item list sent to a client.
- The core's ownership registry is a map from id to module; its own code is not part of this model.
- Relaxed loads of `running_` are taken as sequentially consistent. A push or pop of the streaming steps is atomic, as SpscTheorems.RunRefines justifies for one producer, and may fail for an old index as SpscObservers.FailureHonestIffLatest leaves open; that `stop()` sees the callbacks' pushes is assumed, see StreamingTheorems.HandOffExactly.
- HidStreamingThread.HidStreamingThread.Start: needs a thread that is running or was never started; a second `start()` after a stop reuses `std::thread` objects and a queue that are not part of this model.
- DeviceRegistry.DeviceRegistry.WriteRegistry: a write either replaces the file or leaves it; one that fails after the file was opened, and so truncated, is not modelled.
- ClaimSteps.CrashWindow: steps are the calls of the claim; a process that dies inside the registry's file write is not modelled, here and in ReleaseSteps.
- Timing: polling intervals, timeouts and the libusb event loop around the callbacks.
- SpscQueue.SpscQueue.Emplace: needs a free slot, because with no other thread the source's loop spins for ever; the interleaved form is in SpscSteps.
- SpscQueue.SpscQueue.Pop: needs an element, for the same reason.
- HidStreamingThread.HidStreamingThread.ProcessLoop: needs a pushed sentinel, because with no other thread the source's loop polls for ever without one; StreamingTheorems.EndsIffRoomForSentinel states both directions for all interleavings.
- `handle_client` and `cleanup_client`, which only add and drop sessions; the model keeps the set of client pids for what the lifecycle does to it.
- The monitor process that reads the registry file after a crash (`monitor/note_usb_monitor.cpp`).
- `NoteUSBSession` and `SessionManager`: a session's own claims overwrite its device without closing its handle, so conservation does not hold there; the rest is map bookkeeping.
- Hotplug callbacks (never registered), configuration, `capabilities()`, `check_health` and `resume`: constants, stubs or foreign code.
