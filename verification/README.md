# secDetector: a verified model of its stateful components

This project models the parts of secDetector that hold real state, concurrency or parsing logic, and
proves what they are meant to guarantee for every input, every run and every interleaving.

**Ring buffer** (kernel producers, user-space consumer). `RingMachine` is a step system: any number of
producers that check the arguments, read `consumer_pos` before taking the lock, reserve under the lock,
copy byte by byte and commit or discard outside the lock, and one consumer that polls, sleeps, reads headers and
payloads and releases records. The bytes live in one array indexed modulo its size. `RingInvariant`
holds the invariant, `RingTheorems` the results (delivery, no overwriting, wake-ups, refinement of an
abstract queue), and `Ringbuf` the same operations as methods on a real array, with the other threads
free to act at every shared access of the consumer. `Framing`, `RingPages` and `RingArea` cover the
header word, the page offset in a header, and the double mapping of the pages.

**json11** (vendored in the resource probe). `JsonGrammar` says, position by position, what the parser
reads, with json11's limits, errors and comment mode; `JsonStrings` covers UTF-8 (RFC 3629 section 3) and
surrogate pairs (RFC 2781 section 2.1). `JsonParsing` is the `JsonParser` class with its index, failed
flag and NUL at the end of the text, proved against that, and the printer. `JsonSyntax` states the
grammar of RFC 8259 (sections 2 to 7) on its own, as syntax trees with their text and meaning;
`JsonReading` and `JsonDeriving` prove that the parser accepts exactly the texts of that grammar nested at
most 200 deep and reads them as what they mean, and the same for comment mode with comments in the place
of white space. `JsonRoundTrip`, `JsonStream`, `JsonTheorems` and
`JsonOrder` hold the other laws.

**Hook registry and modules.** `HookTable` is the state (hook lists, kprobe registrations, timers) and
its invariant, `HookRegistry` the operations as the kernel module runs them, `ModuleManager` the
registration of modules with ids and rollback, `ModuleTheorems` and `ModuleRuns` what holds over whole
runs. `ModuleList` is the list of registered modules as its pointers; it shows when they still form a
list and when a write has gone astray. `ModuleCalls` splits a registration where it gives up the mutex, and
`ModuleOverlap` proves what any overlapping of such calls keeps.

**Timers under concurrency.** `TimerMachine` interleaves the self-arming timer interrupt, its work item
with the trylock, and the registrar that links workflows, unlinks them and takes timers down.
`TimerTheorems` proves the absence of use after free, of late calls and of deadlock; `TimerRefinement`
shows that the machine performs the registry operations of `HookTable`.

**Publish/subscribe server.** `PubSubServer` is the service object, `PubSubRuns` any interleaving of
any number of its calls.

**Two smaller units.** `ExecArgs` is the argument concatenation of the exec probe, `SaveCheck` the
change detection of the save-check unit.

## What the code does not guarantee

Some properties one would expect hold only under a condition. Each is proved as an exact condition, or
shown to fail on a concrete run:

- The rollback of a failed registration removes the id the module carries instead of the id just
  allocated, and unlinks every workflow of the module, whoever linked it. It restores the hooks exactly
  when the carried id is known and no workflow of the module was linked before, or the carried id is not
  known and the first workflow was refused; the ids exactly when the two ids agree; a sound module list
  exactly when the module is not on it and was not taken off it before (`FailedRegistration`). Two runs
  show what goes wrong otherwise: a failure strands another module's workflow
  (`FailureStrandsAnotherModule`), and registering a module twice unlinks it (`RegisteringTwiceUnlinks`).
- The test that is to keep a module that is not listed from being unlinked passes for one that was removed
  before, as its pointers are stale and poisoned (`SeemsLinkedExactly`); unlinking it then writes through
  them (`UnlinkFaults`). Putting a listed module on the list again leaves no list at all (`LinkBreaks`).
  `DamageExact` names the events that do either, with two runs (`RemovingTwiceDamages`,
  `FailingAfterRemovalDamages`).
- `OrderlyExact` gives the exact condition under which an event keeps the module list undamaged and the hook
  lists and ids in agreement with it. Nothing is claimed about a list already damaged, or about the memory
  of default response lists. When calls overlap, a rollback takes nothing of modules that share no workflow,
  and takes what its own call inserted exactly under the conditions above (`RollbackAmongOthers`).
- A table entry outlives its call by exactly one kind of step: a call that finds the server killed returns
  while the entry of its name is its own (`EntriesLiveExactly`, with a run in `KilledLeavesEntries`).
- The limit of five bounds entries. It bounds the running calls while each of them owns the entry of its
  name (`OwnersAreLimited`); the one step that ends this is an `UnSubscribe` of a running call's entry
  (`OwnershipExactly`), after which any number of calls can keep running (`CallsAreNotLimited`). A failing
  keepalive then removes whichever entry has the client's name (`FailedKeepalive`).
- The save-check unit moves its baseline before a report is sure to be delivered, so an allocation
  failure after the first report of a round loses changes for good (`RoundTells`). Reports carry names
  only, so they leave no doubt exactly when no two items share one (`ReadingExact`).
- The consumer compares positions with `<`, which is right exactly until the counters wrap at 64 bits
  (`AvailabilityTestExact`); the producer's subtraction survives the wrap (`SpaceTestSurvivesWrap`).
- An `int` of ten or more characters is read back from JSON as a double: equal to what was printed, but
  not stored as an `int` (`IntRoundTrip`, `RereadEqual`).
- A joined command line does not tell where one argument ends if arguments contain spaces: two lists give
  the same text exactly when they have the same words (`SameTextExactly`), so among all lists only a
  single word is determined (`DeterminedExactly`), and splitting at the spaces gives the arguments back
  exactly when none contains one (`JoinReversible`). Beyond 4095 bytes the buffer keeps only the first
  4095 (`SameBufferExactly`), so it tells the words exactly when their text is shorter than that
  (`WordsToldExactly`).

## Model

| member | source | states |
|---|---|---|
| `Framing.FramingAgreement` | observer_agent/service/ringbuffer.cpp:64-71 | for every record size up to the maximum and any busy and discard bits the consumer's shift-and-round length is the producer's length, a positive multiple of 8 |
| `Framing.CommitWordMeaning` | kerneldriver/core/response_unit/secDetector_ringbuffer.c:263-268 | the committed header word is not busy, carries the discard bit exactly for a discard, and still holds the size |
| `Framing.SpaceTestSurvivesWrap` | kerneldriver/core/response_unit/secDetector_ringbuffer.c:233-239 | the producer's 64-bit subtraction of positions gives the true distance even after the counters wrap |
| `Framing.AvailabilityTestExact` | observer_agent/service/ringbuffer.cpp:157 | the consumer's comparison of wrapped counters is right exactly while both lie in the same 64-bit turn |
| `RingMemory.StoreThenLoad` | kerneldriver/core/response_unit/secDetector_ringbuffer.c:341 | bytes stored at a position of the circular area, wrapping or not, are the bytes loaded from it |
| `RingMemory.StoreApart` | kerneldriver/core/response_unit/secDetector_ringbuffer.c:233-239 | a store leaves every range alone that is apart from it within one turn of the area |
| `RingMemory.LoadMasked` | observer_agent/service/ringbuffer.cpp:159 | reading at the masked position reads the bytes of the unmasked one |
| `RingPages.RestoreInvertsPageOff` | kerneldriver/core/response_unit/secDetector_ringbuffer.c:192-206 | the ring buffer is recovered from a record header exactly when the header's page offset fits 32 bits |
| `RingInvariant.InitInv` | kerneldriver/core/response_unit/secDetector_ringbuffer.c:156-160 | a freshly allocated ring buffer satisfies the invariant |
| `RingInvariant.StepInv` | kerneldriver/core/response_unit/secDetector_ringbuffer.c:208-280 | every atomic step of any producer or of the consumer keeps the invariant |
| `RingInvariant.PublishInv` | kerneldriver/core/response_unit/secDetector_ringbuffer.c:246-249 | publishing a reservation adds one busy record at the old `producer_pos` and keeps the invariant |
| `RingInvariant.CommitInv` | kerneldriver/core/response_unit/secDetector_ringbuffer.c:254-268 | exchanging the header word resolves exactly the committing producer's record and keeps the invariant |
| `RingInvariant.InspectInv` | observer_agent/service/ringbuffer.cpp:157-170 | the consumer's look at a header finds the next record in reservation order and keeps the invariant |
| `RingInvariant.StoreConsumerInv` | observer_agent/service/ringbuffer.cpp:173-182 | releasing a record moves `consumer_pos` to the next record boundary and keeps the invariant |
| `RingTheorems.ReachableInv` | kerneldriver/core/response_unit/secDetector_ringbuffer.c:208-344 | the invariant holds in every reachable state of every interleaving |
| `RingTheorems.Delivery` | observer_agent/service/ringbuffer.cpp:152-184 | the payloads handed over are, byte for byte, in order and once each, the non-discarded records of a prefix of the reservations, and of all of them once the buffer is drained |
| `RingTheorems.LiveRecordsDisjoint` | kerneldriver/core/response_unit/secDetector_ringbuffer.c:217-247 | in every reachable state the positions differ by at most the mask and the byte slots of unreleased records are pairwise different |
| `RingTheorems.NoOverwrite` | kerneldriver/core/response_unit/secDetector_ringbuffer.c:217-252 | no step but a record's own copy and commit changes a byte of it while it is unreleased: neither another thread's, nor a later call of the same thread, nor a reservation on a stale `consumer_pos` |
| `RingTheorems.CommitNeverStuck` | kerneldriver/core/response_unit/secDetector_ringbuffer.c:261-263 | a commit, or a discard at any point of the copy, always finds its own ring buffer from the record header |
| `RingTheorems.NoLostWakeup` | kerneldriver/core/response_unit/secDetector_ringbuffer.c:270-279 | if the consumer sleeps while data is there, a wake-up has been queued or delivered once the first record's committer has made its wake-up test, whatever it does since, unless that record asked for none |
| `RingTheorems.WakeTestExact` | kerneldriver/core/response_unit/secDetector_ringbuffer.c:273-278 | the masked comparison in the wake test holds for an unreleased record exactly when it is the next one |
| `RingTheorems.ReservationSucceedsExactly` | kerneldriver/core/response_unit/secDetector_ringbuffer.c:217-239 | in an empty buffer a reservation succeeds exactly when the payload is at most the size less 16 |
| `RingTheorems.RefinesQueue` | kerneldriver/core/response_unit/secDetector_ringbuffer.c:208-344 | every step is a step of an abstract queue of payloads or invisible in it |
| `Ringbuf.RingBuffer.constructor` | kerneldriver/core/response_unit/secDetector_ringbuffer.c:144-161 | a new ring buffer is the initial state |
| `Ringbuf.RingBuffer.BeginOutput` | kerneldriver/core/response_unit/secDetector_ringbuffer.c:334-335 | the flag check and the read of `consumer_pos` are the machine's first step |
| `Ringbuf.RingBuffer.AcquireSpace` | kerneldriver/core/response_unit/secDetector_ringbuffer.c:226-239 | taking the lock and testing for space is the machine's step, success and failure alike |
| `Ringbuf.RingBuffer.GiveUp` | kerneldriver/core/response_unit/secDetector_ringbuffer.c:223-225 | a failed trylock ends the reservation without any other change |
| `Ringbuf.RingBuffer.PutHeader` | kerneldriver/core/response_unit/secDetector_ringbuffer.c:241-244 | writing the busy header in place is the machine's step |
| `Ringbuf.RingBuffer.Reserve` | kerneldriver/core/response_unit/secDetector_ringbuffer.c:246-249 | advancing `producer_pos` and unlocking is the machine's step |
| `Ringbuf.RingBuffer.PutByte` | kerneldriver/core/response_unit/secDetector_ringbuffer.c:341 | one byte of the copy, in the array, is the machine's step |
| `Ringbuf.RingBuffer.ExchangeHeader` | kerneldriver/core/response_unit/secDetector_ringbuffer.c:261-268 | recovering the buffer from the header and exchanging its word, in the array, is the machine's step |
| `Ringbuf.RingBuffer.NotifyIfCaughtUp` | kerneldriver/core/response_unit/secDetector_ringbuffer.c:270-279 | the wake test is the machine's step |
| `Ringbuf.RingBuffer.Notify` | kerneldriver/core/response_unit/secDetector_ringbuffer.c:137-142 | the queued interrupt work wakes the consumer |
| `Ringbuf.RingBuffer.ReserveRecord` | kerneldriver/core/response_unit/secDetector_ringbuffer.c:208-252 | run without interference, a reservation succeeds exactly when the record fits, and then appends one busy record at the old `producer_pos` |
| `Ringbuf.RingBuffer.CopyPayload` | kerneldriver/core/response_unit/secDetector_ringbuffer.c:341 | run without interference, the copy loop completes the caller's record and touches no other |
| `Ringbuf.RingBuffer.CommitRecord` | kerneldriver/core/response_unit/secDetector_ringbuffer.c:254-280 | run without interference, a commit marks the caller's record committed and queues a wake-up exactly when forced or caught up and not suppressed |
| `Ringbuf.RingBuffer.RingbufOutput` | kerneldriver/core/response_unit/secDetector_ringbuffer.c:329-344 | run without interference, the answer is -22 for unknown flags, 0 exactly when the record fits, else -11; on success one committed record with these bytes is added and nothing changes otherwise |
| `Ringbuf.RingBuffer.LoadProducerPos` | observer_agent/service/ringbuffer.cpp:156 | the consumer reads `producer_pos` after the others had their turn |
| `Ringbuf.RingBuffer.LoadHeader` | observer_agent/service/ringbuffer.cpp:159-170 | a busy word stops the consumer, a discarded record is skipped, another is read, and the position moves by the record's length |
| `Ringbuf.RingBuffer.Callback` | observer_agent/service/ringbuffer.cpp:171-179 | the callback gets the payload that was reserved, whatever the other threads do meanwhile |
| `Ringbuf.RingBuffer.StorePosition` | observer_agent/service/ringbuffer.cpp:173-182 | the released position is stored, and an error of the callback ends the loop after it |
| `Ringbuf.RingBuffer.Poll` | observer_agent/service/ringbuffer.cpp:152-187 | one call hands over the next payloads up to and including the first the callback refuses; without interference and errors it stops only at the end or at a busy record |
| `RingArea.AreaAlloc` | kerneldriver/core/response_unit/secDetector_ringbuffer.c:73-135 | success gives exact double mapping of freshly allocated distinct pages; every failure path returns each page taken |
| `RingArea.FreePages` | kerneldriver/core/response_unit/secDetector_ringbuffer.c:171-174 | each allocated page is freed exactly once and no other |
| `RingArea.AllocThenFree` | kerneldriver/core/response_unit/secDetector_ringbuffer.c:163-175 | allocation followed by release leaves the page allocator as it was |
| `RingArea.SecondMapping` | kerneldriver/core/response_unit/secDetector_ringbuffer.c:85-101 | a byte of the second mapping is the same byte of the first |
| `RingArea.StraightReadIsRingRead` | kerneldriver/core/response_unit/secDetector_ringbuffer.c:97-119 | reading straight past the end of the data area reads the bytes of the circular area |
| `JsonStrings.Utf8RoundTrip` | observer_agent/usrdriver/resourcesusage/json11.cc:455-474 | decoding what `encode_utf8` wrote for a scalar value gives it back, whatever follows |
| `JsonStrings.AcceptAssembles` | observer_agent/usrdriver/resourcesusage/json11.cc:482-549 | one turn of the string loop with its deferred code point leaves the assembled result unchanged |
| `JsonReading.SpelledText` | observer_agent/usrdriver/resourcesusage/json11.cc:511-563 | a literal that spells a text, each character raw, by a short escape or by hex digits of either case, means exactly its UTF-8 |
| `JsonReading.SpelledLiteral` | observer_agent/usrdriver/resourcesusage/json11.cc:480-567 | such a literal, in any mixture, is read as exactly that UTF-8 |
| `JsonReading.StringRead` | observer_agent/usrdriver/resourcesusage/json11.cc:480-567 | every string of the RFC 8259 grammar is read as what it means, lone surrogates included |
| `JsonReading.NumeralRead` | observer_agent/usrdriver/resourcesusage/json11.cc:573-622 | every number of the RFC 8259 grammar, with or without fraction and exponent, is read as an int when it is plain and has at most nine characters, else as its exact value |
| `JsonReading.SpacePassed` | observer_agent/usrdriver/resourcesusage/json11.cc:386-435 | white space, with comments if they are allowed, changes nothing of what is found behind it |
| `JsonReading.EndPassed` | observer_agent/usrdriver/resourcesusage/json11.cc:392-398 | the white space a text ends with is passed to the end of the text, even when its last line comment is open |
| `JsonReading.TreeRead` | observer_agent/usrdriver/resourcesusage/json11.cc:644-728 | the text of every syntax tree, anywhere in a text, is read as what it means, or refused for its depth, with or without comments in it |
| `JsonReading.DerivedTextsParse` | observer_agent/usrdriver/resourcesusage/json11.cc:732-744 | under either strategy, every text of its grammar (RFC 8259, or with comments as white space) parses to what it means if it is nested at most 200 deep, and is refused for its depth and nothing else if not |
| `JsonDeriving.GarbageSkipped` | observer_agent/usrdriver/resourcesusage/json11.cc:424-435 | what the parser skips is white space of the strategy's grammar, comments ended where they first can be |
| `JsonDeriving.ParsedTextsDerive` | observer_agent/usrdriver/resourcesusage/json11.cc:732-744 | every text that parses has a syntax tree of the strategy's grammar, nested at most 200 deep |
| `JsonDeriving.AcceptsExactly` | observer_agent/usrdriver/resourcesusage/json11.cc:644-744 | each strategy accepts exactly the texts of its grammar nested at most 200 deep: RFC 8259, or RFC 8259 with comments in the place of white space |
| `JsonTheorems.InsertAssigns` | observer_agent/usrdriver/resourcesusage/json11.cc:688 | assigning a key sets that key's value and no other's |
| `JsonTheorems.InsertAscends` | observer_agent/usrdriver/resourcesusage/json11.cc:671-688 | the members of an object stay strictly sorted by key |
| `JsonTheorems.ValueBounded` | observer_agent/usrdriver/resourcesusage/json11.cc:644-647 | a value read at some depth never reaches below depth 200, and its objects are maps |
| `JsonTheorems.ParsedValues` | observer_agent/usrdriver/resourcesusage/json11.cc:732-744 | whatever parses was read to its end and is a well-formed value nested at most 200 deep |
| `JsonTheorems.ValueAgrees` | observer_agent/usrdriver/resourcesusage/json11.cc:424-449 | a value that reads without comments reads to the same value and position with them |
| `JsonTheorems.CommentsConservative` | observer_agent/usrdriver/resourcesusage/json11.cc:386-435 | every text that parses under the standard strategy parses to the same value with comments allowed |
| `JsonRoundTrip.StringRoundTrip` | observer_agent/usrdriver/resourcesusage/json11.cc:77-112 | any byte string, printed and read, is itself, with its control characters, quotes and line separators |
| `JsonRoundTrip.IntRoundTrip` | observer_agent/usrdriver/resourcesusage/json11.cc:592-595 | a printed int is read back as the same number, as an int when it has at most nine characters |
| `JsonRoundTrip.RereadEqual` | observer_agent/usrdriver/resourcesusage/json11.cc:173-189 | what printing and parsing yields is equal to the original value |
| `JsonRoundTrip.ValueRoundTrip` | observer_agent/usrdriver/resourcesusage/json11.cc:644-728 | a printed value anywhere in a text is read back, or refused as too deep, exactly by its height |
| `JsonRoundTrip.ParseDump` | observer_agent/usrdriver/resourcesusage/json11.cc:732-744 | parsing inverts printing for every value of height at most 200 under both strategies, and a higher one is refused for its depth |
| `JsonStream.MultiReadsLines` | observer_agent/usrdriver/resourcesusage/json11.cc:747-766 | reading printed documents, one a line, yields exactly those up to the first that is nested too deep, with the stop position behind the last good one |
| `JsonStream.MultiReadsAllLines` | observer_agent/usrdriver/resourcesusage/json11.cc:747-766 | if none is too deep all are read back equal, with the stop position at the end and no error |
| `JsonOrder.Trichotomy` | observer_agent/usrdriver/resourcesusage/json11.cc:302-318 | exactly one of less, equal and greater holds of any two values |
| `JsonOrder.LessTransitive` | observer_agent/usrdriver/resourcesusage/json11.cc:311-318 | the order is transitive through nested arrays and objects |
| `JsonOrder.EqualCongruent` | observer_agent/usrdriver/resourcesusage/json11.cc:302-318 | equal values compare alike with every other value |
| `JsonOrder.StrictTotalOrder` | observer_agent/usrdriver/resourcesusage/json11.cc:302-318 | the order is a strict total order agreeing with equality, which is an equivalence |
| `JsonParsing.JsonParser.Fail` | observer_agent/usrdriver/resourcesusage/json11.cc:361-371 | the first error is kept |
| `JsonParsing.JsonParser.ConsumeWhitespace` | observer_agent/usrdriver/resourcesusage/json11.cc:377-380 | the index moves to the first character that is not white space, at most to the end |
| `JsonParsing.JsonParser.ConsumeComment` | observer_agent/usrdriver/resourcesusage/json11.cc:386-418 | the method reads one comment of either form as specified, with the specified errors |
| `JsonParsing.JsonParser.ConsumeGarbage` | observer_agent/usrdriver/resourcesusage/json11.cc:424-435 | white space and, in comment mode, comments are skipped as specified |
| `JsonParsing.JsonParser.GetNextToken` | observer_agent/usrdriver/resourcesusage/json11.cc:442-449 | the next token and position are the specified ones, or a failure with a NUL character |
| `JsonParsing.JsonParser.AppendUtf8` | observer_agent/usrdriver/resourcesusage/json11.cc:455-474 | the bytes appended are the specified encoding of the code point |
| `JsonParsing.JsonParser.ParseString` | observer_agent/usrdriver/resourcesusage/json11.cc:480-567 | the loop with its deferred code point yields the specified string, position or error, and never reads past the end |
| `JsonParsing.JsonParser.ParseNumber` | observer_agent/usrdriver/resourcesusage/json11.cc:573-622 | the number, position or error is the specified one |
| `JsonParsing.JsonParser.Expect` | observer_agent/usrdriver/resourcesusage/json11.cc:629-638 | a literal is recognised from the character before the index, or refused |
| `JsonParsing.JsonParser.ParseJson` | observer_agent/usrdriver/resourcesusage/json11.cc:644-728 | for any text, strategy and depth up to 201 the method ends, keeps the index in the text, and yields the specified value, position or error |
| `JsonParsing.JsonParser.ParseMembers` | observer_agent/usrdriver/resourcesusage/json11.cc:676-700 | the object loop yields the specified object or error |
| `JsonParsing.JsonParser.ParseElements` | observer_agent/usrdriver/resourcesusage/json11.cc:709-724 | the array loop, which steps the index back, yields the specified array or error |
| `JsonParsing.Parse` | observer_agent/usrdriver/resourcesusage/json11.cc:732-744 | the value and error of a whole parse are the specified ones for every text and strategy |
| `JsonParsing.ParseMulti` | observer_agent/usrdriver/resourcesusage/json11.cc:747-766 | the values, stop position and error of a multi-document parse are the specified ones |
| `JsonParsing.PrintString` | observer_agent/usrdriver/resourcesusage/json11.cc:77-112 | the loop appends the quoted and escaped string |
| `JsonParsing.Print` | observer_agent/usrdriver/resourcesusage/json11.cc:140-142 | printing appends the value's text |
| `JsonParsing.PrintItems` | observer_agent/usrdriver/resourcesusage/json11.cc:114-124 | the array loop appends the items' text with separators |
| `JsonParsing.PrintMembers` | observer_agent/usrdriver/resourcesusage/json11.cc:126-138 | the object loop appends the members' text in key order |
| `HookTable.OnlyAtItsPlace` | kerneldriver/core/hook_unit/secDetector_hook.c:160-169 | a workflow is in no list but the one of its own hook type or interval |
| `HookEffects.InsertEffect` | kerneldriver/core/hook_unit/secDetector_hook.c:152-172 | an insertion succeeds exactly when the workflow has a place, is not there, and opening an empty place works; it then heads that list and no other list changes; a refusal changes nothing; the invariant holds after |
| `HookEffects.DeleteEffect` | kerneldriver/core/hook_unit/secDetector_hook.c:174-195 | a deletion takes the workflow out of its list only, never reports an error, and keeps the invariant |
| `HookRegistry.Registry.constructor` | kerneldriver/core/hook_unit/secDetector_hook.c:40-50 | all lists start empty |
| `HookRegistry.Registry.KprobeExists` | kerneldriver/core/hook_unit/secDetector_hook_kprobe.c:112-129 | true exactly for a linked workflow or a type outside the kprobe range |
| `HookRegistry.Registry.TracepointExists` | kerneldriver/core/hook_unit/secDetector_hook_tracepoint.c:93-110 | true exactly for a workflow of another type, as no tracepoint list ever holds one |
| `HookRegistry.Registry.TimerCallbackExists` | kerneldriver/core/hook_unit/secDetector_hook.c:80-98 | stopping at the first timer of the interval is an exact test of membership in any timer |
| `HookRegistry.Registry.InsertKprobeHook` | kerneldriver/core/hook_unit/secDetector_hook_kprobe.c:47-75 | the new lists and the answer, with the kprobe registered before the first workflow |
| `HookRegistry.Registry.DeleteKprobeHook` | kerneldriver/core/hook_unit/secDetector_hook_kprobe.c:77-110 | the workflow is unlinked and the kprobe unregistered with the last one |
| `HookRegistry.Registry.InsertTracepointHook` | kerneldriver/core/hook_unit/secDetector_hook_tracepoint.c:33-63 | always refused, as its table has no functions |
| `HookRegistry.Registry.InsertTimerCallback` | kerneldriver/core/hook_unit/secDetector_hook.c:100-127 | the workflow heads the list of its interval's timer, which is created if there is none |
| `HookRegistry.Registry.UnlinkTimerCallback` | kerneldriver/core/hook_unit/secDetector_hook.c:129-150 | the workflow leaves its interval's timer, which goes with its last workflow |
| `HookRegistry.Registry.InsertCallback` | kerneldriver/core/hook_unit/secDetector_hook.c:152-172 | the table-driven insertion has the specified effect and answer for every hook type and for NULL |
| `HookRegistry.Registry.DeleteCallback` | kerneldriver/core/hook_unit/secDetector_hook.c:174-195 | the table-driven deletion has the specified effect and answer for every hook type and for NULL |
| `ModuleManager.Manager.constructor` | kerneldriver/core/secDetector_manager.c:178-181 | no module is registered at first |
| `ModuleManager.Manager.Register` | kerneldriver/core/secDetector_manager.c:111-175 | registration with its rollback has the specified effect on lists, ids, module list and answer, and its pointer writes are those of the module list until it is damaged; on success every workflow knows its module and its number |
| `ModuleManager.Manager.Unregister` | kerneldriver/core/secDetector_manager.c:20-71 | removal unlinks the workflows only if the id is known, drops the id, and unlinks the module wherever the test on its pointers passes |
| `ModuleList.SeemsLinkedExactly` | kerneldriver/core/secDetector_manager.c:64-65 | the test before the unlinking passes exactly for listed modules and for those taken off the list before |
| `ModuleList.LinkShows` | kerneldriver/core/secDetector_manager.c:167 | putting a module that is not listed in front leaves pointers that form the list with it in front |
| `ModuleList.UnlinkShows` | kerneldriver/core/secDetector_manager.c:66 | unlinking a listed module leaves pointers that form the list without it |
| `ModuleList.UnlinkFaults` | kerneldriver/core/secDetector_manager.c:62-66 | unlinking a module taken off before passes the test and writes through a poisoned pointer |
| `ModuleList.LinkBreaks` | kerneldriver/core/secDetector_manager.c:167 | putting a listed module in front leaves pointers that form no list |
| `ModuleList.DroppedMatches` | kerneldriver/core/secDetector_manager.c:62-66 | the guarded unlinking refines the removal from a sequence, and marks damage exactly when the pointers of a sound list go astray |
| `ModuleList.AddedMatches` | kerneldriver/core/secDetector_manager.c:167 | the linking refines putting an element in front of a sequence, and marks damage exactly when the pointers form no list |
| `ModuleTheorems.InsertFromEffect` | kerneldriver/core/secDetector_manager.c:134-153 | the insertion loop stacks the inserted workflows, newest first, on each list |
| `ModuleTheorems.DeleteAllEffect` | kerneldriver/core/secDetector_manager.c:42-60 | the deletion loop takes exactly the module's workflows out of every list |
| `ModuleTheorems.RollbackRestores` | kerneldriver/core/secDetector_manager.c:42-60 | however far the insertion of fresh workflows got, the deletion loop restores every list, every kprobe and the order of the timers exactly |
| `ModuleTheorems.RollbackExact` | kerneldriver/core/secDetector_manager.c:42-60 | insertion followed by the deletion loop restores the registry exactly when none of the workflows was in it |
| `ModuleTheorems.FailedRegistration` | kerneldriver/core/secDetector_manager.c:171-174 | for every module, linked before or not, a failed registration restores the hooks exactly when the carried id is known and none of its workflows was linked, or is not known and the first was refused; the ids exactly when the two ids agree; a sound module list exactly when the module is not on it and was not taken off it before, and damages it exactly when it was |
| `ModuleRuns.RegistryInvariant` | kerneldriver/core/hook_unit/secDetector_hook.c:152-195 | after any events a kprobe is registered exactly while its list is non-empty, intervals are distinct, every timer has callbacks of its own interval only, and no workflow is in two places |
| `ModuleRuns.OrderlyExact` | kerneldriver/core/secDetector_manager.c:20-175 | an event keeps the module list undamaged and lists and ids in agreement exactly when it is orderly: a success of a module not registered, a failure without an id or with the carried id, nothing linked and the module not taken off the list before, a removal of a registered module or of one whose id is not in use and which was not taken off before |
| `ModuleRuns.ListsAreTheRegisteredModules` | kerneldriver/core/secDetector_manager.c:111-175 | after any run of orderly events the module list is undamaged, each hook's and each interval's list is exactly the registered modules' workflows there, newest first, and the ids in use are theirs, one each |
| `ModuleRuns.RemovalNeedsTheId` | kerneldriver/core/secDetector_manager.c:36-40 | a removal takes a module's linked workflows out exactly when its id is known |
| `ModuleRuns.DamageExact` | kerneldriver/core/secDetector_manager.c:62-66 | a sound module list is damaged exactly by a registration that succeeds for a listed module and by a removal or rollback of a module taken off before |
| `ModuleRuns.RemovingTwiceDamages` | kerneldriver/core/secDetector_manager.c:62-66 | a concrete run in which a module is removed a second time and the list is damaged |
| `ModuleRuns.FailingAfterRemovalDamages` | kerneldriver/core/secDetector_manager.c:62-66 | a concrete run in which a removed module fails to register again, with the id it carries, and the rollback damages the list |
| `ModuleRuns.FailureStrandsAnotherModule` | kerneldriver/core/secDetector_manager.c:171-174 | a concrete run in which a failed registration makes the removal of another module leave its workflow linked |
| `ModuleRuns.RegisteringTwiceUnlinks` | kerneldriver/core/secDetector_manager.c:147-174 | a concrete run in which the second registration of a module fails and unlinks what the first had linked |
| `ModuleCalls.UninterruptedCall` | kerneldriver/core/secDetector_manager.c:111-175 | the stretches of a registration between which the mutex is free make up the whole registration when nothing comes in between |
| `ModuleCalls.RollbackAmongOthers` | kerneldriver/core/secDetector_manager.c:127-173 | among any calls on modules that share no workflow with it, a rollback takes nothing of theirs, and takes exactly what its call inserted exactly when the carried id is known by then and nothing was linked before, or is not known and nothing was inserted |
| `ModuleOverlap.ActsSettled` | kerneldriver/core/secDetector_manager.c:20-175 | every orderly stretch of overlapping calls keeps: hook lists are the insertions of listed modules and of failed calls, the module list is undamaged, every id in use is that of a listed module or of a call |
| `ModuleOverlap.SettledTidy` | kerneldriver/core/secDetector_manager.c:20-175 | once every call has returned, lists and ids are exactly those of the registered modules |
| `ModuleOverlap.OverlapIsTidy` | kerneldriver/core/secDetector_manager.c:20-175 | both hold after any run of overlapping orderly calls on modules that share no workflow |
| `TimerInvariant.StepInv` | kerneldriver/core/hook_unit/secDetector_hook.c:52-150 | every step of the interrupt, the work or the registrar keeps the invariant |
| `TimerTheorems.NoUseAfterFree` | kerneldriver/core/hook_unit/secDetector_hook.c:139-144 | in every interleaving no possible step touches a freed timer |
| `TimerTheorems.FreedStaysQuiet` | kerneldriver/core/hook_unit/secDetector_hook.c:65-78 | a freed timer is never armed, queued or run again |
| `TimerTheorems.NoCallAfterUnlink` | kerneldriver/core/hook_unit/secDetector_hook.c:129-145 | in every run a call starts only on a workflow linked at that moment, and none is in progress when a workflow is unlinked |
| `TimerTheorems.TeardownCannotDeadlock` | kerneldriver/core/hook_unit/secDetector_hook.h:42-54 | wherever the registrar waits with the mutex held, what it waits for can take its next step without the mutex and is nearer its end after it |
| `TimerTheorems.WorkerReleases` | kerneldriver/core/hook_unit/secDetector_hook.h:42-54 | a work function that holds the mutex can always take its next step, and each step brings it nearer to releasing it |
| `TimerTheorems.WalkVisitsAll` | kerneldriver/core/hook_unit/secDetector_hook.h:47-53 | a dispatch that ends has called or passed over every workflow of its timer, once each and in list order |
| `TimerTheorems.WorkOnlyDrains` | kerneldriver/core/hook_unit/secDetector_hook.c:140-142 | while the registrar waits for the work no step of anyone gives the work more to do |
| `TimerTheorems.ListedTimersTick` | kerneldriver/core/hook_unit/secDetector_hook.c:65-78 | a listed timer is armed or about to be re-armed, except while it is created or taken down |
| `TimerRefinement.StepRefinesRegistry` | kerneldriver/core/hook_unit/secDetector_hook.c:100-150 | every step links or unlinks a workflow exactly as the registry operation does, or changes nothing the registry shows |
| `PubSubServer.Server.constructor` | observer_agent/grpc_comm/server.cpp:159-163 | the table starts empty |
| `PubSubServer.Server.Subscribe` | observer_agent/grpc_comm/server.cpp:64-91 | admission, with its three refusals, has the specified effect on the table, the counter and the streams |
| `PubSubServer.Server.Turn` | observer_agent/grpc_comm/server.cpp:96-108 | one turn of the keepalive loop has the specified effect |
| `PubSubServer.Server.Publish` | observer_agent/grpc_comm/server.cpp:116-136 | the walk over the table writes exactly the specified messages and stops at a failure |
| `PubSubServer.Server.UnSubscribe` | observer_agent/grpc_comm/server.cpp:138-156 | the entry of that name goes, or the call fails and changes nothing |
| `PubSubServer.Server.DeleteSubscriberByCliName` | observer_agent/grpc_comm/server.cpp:172-184 | the entry and one count go exactly when the name is in the table |
| `PubSubServer.Server.CloseAllConnection` | observer_agent/grpc_comm/server.cpp:48-54 | only the killed flag changes |
| `PubSubRuns.EntriesAreLiveCalls` | observer_agent/grpc_comm/server.cpp:56-184 | in every reachable state the counter is the number of entries and in 0 to 5, and until the server is killed every stored writer belongs to an unreturned call of that client name, whatever names are reused |
| `PubSubRuns.EntriesLiveExactly` | observer_agent/grpc_comm/server.cpp:94-113 | while every entry belongs to a running call, an event keeps it so exactly unless it is a call that finds the server killed and returns owning the entry of its name |
| `PubSubRuns.KilledLeavesEntries` | observer_agent/grpc_comm/server.cpp:94-113 | a concrete run with such a step: a returned call's writer is still in the table |
| `PubSubRuns.PublicationReaches` | observer_agent/grpc_comm/server.cpp:116-136 | a publication writes at most once to a stream and only to subscribers whose mask meets the topic; it answers OK exactly when each of those writes works, and then it wrote once to each |
| `PubSubRuns.FailedKeepalive` | observer_agent/grpc_comm/server.cpp:102-107 | a failed keepalive removes the entry of the client's name, even when it is another call's, and that other call then returns at its next turn |
| `PubSubRuns.KeepaliveTakesAnotherEntry` | observer_agent/grpc_comm/server.cpp:102-107 | a concrete run in which the entry removed by a failed keepalive is another, running call's |
| `PubSubRuns.OwnersAreLimited` | observer_agent/grpc_comm/server.cpp:64-91 | while every running call owns the entry of its name, at most five calls are running |
| `PubSubRuns.OwnershipExactly` | observer_agent/grpc_comm/server.cpp:138-156 | an event keeps that ownership exactly unless it is an UnSubscribe of a name whose entry belongs to a running call |
| `PubSubRuns.LimitWithoutUnSubscribe` | observer_agent/grpc_comm/server.cpp:56-114 | in every run without UnSubscribe at most five calls are running |
| `PubSubRuns.CallsAreNotLimited` | observer_agent/grpc_comm/server.cpp:94-110 | for every n there is a run without failures after which n + 1 calls keep running on a table of one entry |
| `ExecArgs.ReadStr` | observer_agent/ebpf/fentry.bpf.c:182 | a read copies as much of the string as there is room for, always ends in NUL, and returns the length with it |
| `ExecArgs.Concatenate` | observer_agent/ebpf/fentry.bpf.c:173-191 | if any argument is readable the buffer as a C string is the first 4095 bytes of the readable arguments, at most 64, joined by spaces; otherwise the loop itself writes nothing |
| `ExecArgs.HandleExecve` | observer_agent/ebpf/fentry.bpf.c:173-211 | arguments and environment are each joined in their own buffer, with the case that nothing is readable |
| `ExecArgs.JoinReversible` | observer_agent/ebpf/fentry.bpf.c:188-191 | splitting the untruncated text at its spaces gives the arguments back exactly when none contains a space |
| `ExecArgs.SameTextExactly` | observer_agent/ebpf/fentry.bpf.c:188-191 | two argument lists join to the same text exactly when they have the same words |
| `ExecArgs.SpaceFreeApart` | observer_agent/ebpf/fentry.bpf.c:188-191 | argument lists without spaces that join to the same text are equal |
| `ExecArgs.DeterminedExactly` | observer_agent/ebpf/fentry.bpf.c:188-191 | among all argument lists the text determines the arguments exactly when it has no space |
| `ExecArgs.SameBufferExactly` | observer_agent/ebpf/fentry.bpf.c:182-191 | two argument lists leave the same text in the buffer exactly when they have the same words, or both reach 4095 bytes and agree in the first 4095 |
| `ExecArgs.WordsToldExactly` | observer_agent/ebpf/fentry.bpf.c:182-191 | among all lists of C strings the buffer tells the words of the arguments exactly when their text is shorter than 4095 bytes |
| `SaveCheck.Checker.Initialise` | kerneldriver/core/analyze_unit/secDetector_save_check.c:57-90 | the first baseline holds the measurement of each named number or region, in order |
| `SaveCheck.Checker.Normal` | kerneldriver/core/analyze_unit/secDetector_save_check.c:94-190 | one round has the specified effect on the baseline, answer and reports, whichever allocations fail |
| `SaveCheck.Checker.Analyze` | kerneldriver/core/analyze_unit/secDetector_save_check.c:192-200 | the first successful round sets the baseline and later ones compare with it |
| `SaveCheck.CompareTells` | kerneldriver/core/analyze_unit/secDetector_save_check.c:119-161 | the comparison's reports lead from the old baseline to the new one, whatever the names |
| `SaveCheck.RoundTells` | kerneldriver/core/analyze_unit/secDetector_save_check.c:113-177 | a round's reports lead to the new baseline exactly when nothing changed, or it failed before the first change, or no allocation failed; the number of reports is the number of changes |
| `SaveCheck.ReportsTellTheStory` | kerneldriver/core/analyze_unit/secDetector_save_check.c:134-159 | over any lossless run all reports together lead from the first baseline to the last; each old value is the item's previous new one and nothing unchanged is reported |
| `SaveCheck.BaselineIsLatest` | kerneldriver/core/analyze_unit/secDetector_save_check.c:158 | while allocations succeed the baseline is the latest measurement |
| `SaveCheck.ReadingExact` | kerneldriver/core/analyze_unit/secDetector_save_check.c:144-153 | reports leave no doubt about the values they lead to exactly when no two items share a name |

## Left out

- Positions of the ring buffer are unbounded numbers: runs that wrap the 64-bit counters are not modelled beyond `SpaceTestSurvivesWrap` and `AvailabilityTestExact`.
- The ring buffer's size is a multiple of the page size and both sides use the same one; the mask with a power of two less one is modelled as the remainder.
- Memory order below acquire and release: every shared access is one atomic step. The copy of a payload is one step per byte.
- The consumer thread is the only one; opening, mapping and closing the device are not part of this model. `poll` errors end the call at once and are left out.
- Ringbuf.RingBuffer.ReserveRecord: what other threads do between its steps is in `RingMachine`, not in this method; the steps themselves are AcquireSpace, PutHeader and Reserve.
- Ringbuf.RingBuffer.CopyPayload: the same; its step is PutByte.
- Ringbuf.RingBuffer.CommitRecord: the same; its steps are ExchangeHeader and NotifyIfCaughtUp.
- Ringbuf.RingBuffer.RingbufOutput: the same; what holds under interference are the results of `RingTheorems`.
- Ringbuf.RingBuffer.Poll: the wait in `poll` itself is in `RingMachine` only; the method starts when it returns.
- RingArea.AreaAlloc: the page table array's own allocation is not modelled.
- Floating point in json11: a double is an exact real number, so the rounding of `strtod`, infinities, NaN and the printing of doubles are left out; printing is defined on null, booleans, ints, strings, arrays and objects.
- JsonReading.StringRead: bytes from 0x80 up are not checked to be UTF-8, as the parser does not check them.
- JsonParsing.Print: defined on values without doubles, whose text depends on the rounding of `%.17g`.
- JsonRoundTrip.ParseDump: the same values; numbers that are not ints are read (JsonReading.NumeralRead) but not printed.
- JsonParsing.PrintItems: the same values as Print.
- JsonParsing.PrintMembers: the same values as Print.
- JsonRoundTrip.ValueRoundTrip: the same values as Print.
- JsonStream.MultiReadsLines: the same values as Print.
- JsonParsing.Parse: error messages are reduced to their kind and the offending character.
- json11's shared pointers: values are trees, so the shortcut that compares equal pointers first is not modelled.
- json11's shape checks and accessors.
- HookRegistry.Registry.UnlinkTimerCallback: the calls that stop and free the timer are in `TimerMachine`.
- HookRegistry.Registry.InsertTimerCallback: a timer is a value in the registry's list; its arming, its work item and its teardown are in `TimerMachine`.
- Scheduling of read-copy-update readers: `synchronize_rcu` and the grace period of `kfree_rcu` are taken by their documented contracts; a freed timer counts as freed at once. Timer addresses are never reused.
- Kprobe handlers that walk a hook list while it changes, and the `enabled` flags they consult, except that a timer's dispatch may skip any workflow.
- ModuleManager.Manager.Unregister: freeing the analyze status and the default responses of preset workflows. The entry under /proc that a removed module still points to is removed again by the same events that damage the module list.
- ModuleList.DroppedMatches: list writes are those of a kernel built without list checks; with them a stray unlinking or a second linking is refused with a warning.
- What happens after the module list is damaged: the mark stays and nothing else is claimed.
- The id allocator's own locking: each of its calls is one step, though the original calls it once outside the mutex.
- Kprobe hook type 0: its table entry is empty and `register_kprobe` refuses it; the model leaves the kernel's answer open for every type, and the concrete runs use type 1.
- ModuleManager.Manager.Register: the choice of collect, analyze and response functions, and the entry under /proc apart from whether it could be created.
- The LSM hook type has no row in the registry's table and the tracepoint table is empty; both are modelled as the refusals they are.
- PubSubServer.Server.CloseAllConnection: waking the waiting calls; a call may look at the flag at any time.
- PubSubServer.Server.Turn: the wait of up to 60 seconds between two turns is the time until the next `Check`.
- gRPC itself: whether a write works is an input, and a table may be walked in any order.
- ExecArgs.Concatenate: what a failing `bpf_probe_read_str` leaves in the rest of the buffer is an input.
- SaveCheck.Checker.Initialise: an item of an unknown kind keeps whatever the new memory holds, as in the original.
- The digest of a region is an arbitrary function of its bytes; report texts are triples of name, old and new value.
- SaveCheck.ReportsTellTheStory: the list of named items is the same in every round.
- SaveCheck.Checker.Normal: a round with more named items than the baseline has slots reads past it in the original; the model asks for enough slots.
- SaveCheck.Checker.Analyze: the same.
- ExecArgs.HandleExecve: the other fields of the event.
- File monitoring, procfs, the kfifo log, the resource collectors, the event converters and the SDK library.
