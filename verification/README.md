# Verified model of Chromium base

A Dafny model of the parts of Chromium's `base` library whose correctness spans
many calls, and proofs of what those parts promise.

- **Containers that change while they are walked.** `ObserverListBase` and its
  thread-safe form, `CallbackList` and `IDMap` put removal off while iterators
  live. Each is modelled by its classes, and each class is proved against
  functions on plain values; the lemmas then speak about every sequence of
  operations on those values: what a pass visits, in which order, that
  nobody outside can see that removal was late, and that every observer that a
  thread adds is notified once, whatever all threads do.
- **Pickle.** The growing writer, the bounds-checked reader, the size predictor
  and the search for boundaries in raw bytes, with round trips and total
  behaviour on arbitrary bytes.
- **Text formats.** Quoting for CommandLineToArgvW against its documented
  parser, POSIX command lines, environment blocks, and feature lists as text
  and in shared memory.
- **MD5.** Chunked updates on both byte orders against RFC 1321, written out in
  `Md5Rfc.dfy`.
- **Small protocols.** `LazyInstance` with its compare-and-swap word under every
  interleaving, with who can wait for whom and who outlives whom, the at-exit
  stack, and the cache of `PathService`.
- **Arithmetic.** Rejection sampling, big-endian numbers, alignment and
  logarithms.

Each file holds one module, or two where a standard stands beside the code that
implements it. `dafny verify dfyconfig.toml` checks the project.

## Where the code and its comments part

The model follows the code.

- `pickle.h:36-40` says that reading from the iterator is not possible after a
  failed read. A string16 read whose element count overflows fails without
  exhausting the iterator (`pickle.cc:77-80`), and a later read can succeed:
  `FailedReadExhaustsUnlessCountOverflows`, `ReadAfterOverflowSucceeds`.
- `at_exit.h:47-49` says that callbacks may be registered after
  ProcessCallbacksNow. In debug builds registering is then an error for good,
  because `processing_callbacks_` is never reset (`at_exit.cc:63`, `at_exit.cc:81`):
  `ProcessingIsForGood`, `RegisteringAfterProcessing`.
- `path_service.cc:207` wants no path with `..` to be returned. An override
  given as absolute is stored and returned as it is: `NoParentReferencesIff`,
  `AbsoluteOverrideIsNotCleaned`.
- `feature_list.h:86-88` says that a feature on both lists is disabled, and
  `feature_list.h:90-92` that a name with `*` in front is left at its default.
  The second wins over the first: `DisabledIffNotStarred`, `StarredIsNotDisabled`.
- `lazy_instance.h:9-10` promises that Pointer() returns the instance. A call
  whose chain of waiting threads runs into a cycle never returns:
  `ReturnsIffNoCycle`, `SelfUseIsReachable`, `CrossWaitIsReachable`.
- `id_map.h:62-67` leaves it to callers not to choose an id that Add gives out.
  In release builds Add then overwrites the entry: `AddOverwritesIffChosen`.
- `command_line.cc:102-147` promises arguments that CommandLineToArgvW undoes;
  empty arguments, and arguments with a tab and nothing else to quote, do not
  come back: `RoundTripIffSurvivors`, `EmptyAndTabbedArgumentsAreLost`. Quoted
  placeholders (`command_line.cc:107-110`) stay within their argument, but
  replacing one by nothing can let the backslash before it meet a quote:
  `SubstitutionIff`, `EmptyTextIsExposed`.

## Model

| member | source | states |
|---|---|---|
| ObserverLists.ObserverList.AddObserver | chromium/base/observer_list.h:272-280 | appends the observer unless it is registered already; a null slot left by an earlier removal does not count |
| ObserverLists.ObserverList.RemoveObserver | chromium/base/observer_list.h:282-294 | nulls the first matching slot while some iterator lives, erases it otherwise; an unknown observer changes nothing |
| ObserverLists.ObserverList.ClearAll | chromium/base/observer_list.h:306-316 | nulls every slot in place while some iterator lives, empties the list otherwise |
| ObserverLists.ObserverList.Compact | chromium/base/observer_list.h:318-322 | keeps exactly the slots that are not null, in order |
| ObserverLists.Iter.constructor | chromium/base/observer_list.h:130-136 | an empty list gives a detached iterator that does not count; any other counts, is bounded by the size under NOTIFY_EXISTING_ONLY and rests on the first live slot |
| ObserverLists.Iter.EnsureValidIndex | chromium/base/observer_list.h:261-270 | moves to the first live slot below the limit, and nowhere once the list is gone |
| ObserverLists.Iter.Increment | chromium/base/observer_list.h:223-232 | steps to the next live slot below the limit |
| ObserverLists.Iter.Destroy | chromium/base/observer_list.h:200-205 | the last iterator to die compacts the list; one that outlives the list touches nothing |
| ObserverPasses.TombstonesRefinePlainList | chromium/base/observer_list.h:188-322 | null slots, nested iteration and late compaction are invisible: each event changes the registered observers as it would change a plain list |
| ObserverPasses.RunKeepsValid | chromium/base/observer_list.h:188-322 | in every reachable state the depth counts the live attached iterators, nobody is registered twice, and a list that no iterator walks holds exactly its registered observers in order |
| ObserverPasses.PassNeverOverruns | chromium/base/observer_list.h:223-232 | whatever the callbacks do, destruction of the list included, a loop never advances an iterator that is at its end |
| ObserverPasses.PassNotifiesInOrder | chromium/base/observer_list.h:188-270 | in a whole pass, each observer registered at the start and never removed is notified exactly once and in registration order, whatever is added, removed, cleared or walked meanwhile |
| ObserverPasses.PassReachesTheRegistered | chromium/base/observer_list.h:110-125 | NOTIFY_ALL reaches everyone registered at the end, late comers included; NOTIFY_EXISTING_ONLY exactly those in the slots that existed at the start |
| ObserverPasses.PassCoversSurvivors | chromium/base/observer_list.h:223-270 | the visited registrations that still stand when the pass ends are exactly those in the slots it covered, in order |
| ObserverPasses.VisitsIncrease | chromium/base/observer_list.h:223-270 | slots are visited upwards, so no registration is visited twice in a pass |
| ObserverPasses.ExistingOnlyIsBounded | chromium/base/observer_list.h:110-125 | under NOTIFY_EXISTING_ONLY nothing added during the pass is visited and the number of advances is bounded by the size at the start |
| ObserverPasses.UnregisteredIsNotNotified | chromium/base/observer_list.h:261-294 | from any point of a pass on, an observer not registered there and not added again is not notified |
| ObserverPasses.RemovedBeforeItsTurn | chromium/base/observer_list.h:261-294 | an observer removed by an earlier callback of the pass is not notified by a later visit |
| ObserverLoop.ForEach | chromium/base/observer_list.h:110-125 | the loop over the objects, with begin, end, operator*, the callbacks, operator++ and the destructor, visits exactly what the pass does and leaves the list as it does, also when a callback destroys the list |
| ObserverThreads.RunKeepsInv | chromium/base/observer_list_threadsafe.h:86-210 | every interleaving of adding, removing, notifying, posting and running tasks keeps the safety invariant: who owns contexts, what stacks and queues refer to, and that only added observers are held or called |
| ObserverThreads.EveryInterleavingIsSafe | chromium/base/observer_list_threadsafe.h:86-210 | no freed context is ever touched, none is freed while it is walked, an observer is called only on a thread that added it, and an idle thread keeps no empty list |
| ObserverThreads.StaleTaskIsDropped | chromium/base/observer_list_threadsafe.h:179-192 | a task whose context was freed, replaced or not, is dropped and changes nothing else |
| ObserverThreads.NewContextIsNew | chromium/base/observer_list_threadsafe.h:86-103 | a context made later is not the one any queued task refers to |
| ObserverThreads.RemovedIsNotCalled | chromium/base/observer_list_threadsafe.h:105-129 | after removal an observer is not called again on that thread, also not by notifications already in transit, unless it is added again |
| ObserverDelivery.StepDelivers | chromium/base/observer_list_threadsafe.h:131-192 | every step of every thread keeps a posted notification on its way to a registered observer: waiting in its queue, walking with the observer called exactly if it has been passed, or over with one call made |
| ObserverDelivery.DeliveredOnce | chromium/base/observer_list_threadsafe.h:131-192 | an observer registered on a thread when Notify posts, and not removed there, is called for that notification at most once at any time and exactly once when the thread's task is over, whatever all threads and callbacks do meanwhile |
| ObserverDelivery.CanBeDelivered | chromium/base/observer_list_threadsafe.h:131-192 | at any time until then some continuation makes that one call: a thread can always finish by itself what it has begun and been sent |
| ObserverRegistration.RegisteredIffAdded | chromium/base/observer_list_threadsafe.h:82-129 | over every interleaving, from the calls alone: an observer is registered on a thread exactly when some AddObserver of it there, with a task runner, has returned and the thread has not removed it since |
| ObserverRegistration.AddedIsCalledOnce | chromium/base/observer_list_threadsafe.h:82-192 | an observer that a thread has added, and does not remove, is called there for every later Notify, at most once at any time, exactly once when the thread is done with it, and that can always still happen |
| ObserverRegistration.BegunInOrder | chromium/base/observer_list_threadsafe.h:136-149 | notifications are begun on each thread in the order posted: nobody is called for the later one while a task of the earlier still waits there |
| ObserverRegistration.ListsAreOfKind | chromium/base/observer_list_threadsafe.h:76-100 | every thread's list has the notification type that the whole was constructed with |
| Bits.Log2Floor | chromium/base/bits.h:24-39 | the i with 2^i <= n < 2^(i+1), and -1 for 0 |
| Bits.Log2Ceiling | chromium/base/bits.h:42-49 | the least i with n <= 2^i, and -1 for 0 |
| Bits.LittleEndianDigit | chromium/base/pickle.h:366-369 | the bytes of a number in memory are its digits, the lowest first |
| Alignment.MaskedIsMultiple | chromium/base/bits.h:51-55 | for every size and every power of two the expression with the mask, on words of any width, is the next multiple, wrapped around as the word wraps |
| PickleImage.AlignmentsAreAlign | chromium/base/bits.h:51-55 | the alignments to 4, 64 and 4096 used for fields, payload units and heap pages are what the masked expression gives on 64 bits |
| PickleFormat.ReadBack | chromium/base/pickle.cc:24-208 | one typed read at the place of the matching write returns its value and stops right behind its padding |
| PickleFormat.Layout | chromium/base/pickle.h:225-256 | the bytes of each write: numbers are their digits in two's complement, the lowest first; strings and data a length in four bytes and the bytes, two for each 16-bit character; zeros to a multiple of four |
| PickleFormat.RoundTrip | chromium/base/pickle.cc:24-208 | every sequence of typed writes reads back in order and ends with nothing left |
| PickleFormat.FailedReadExhaustsUnlessCountOverflows | chromium/base/pickle.cc:42-82 | a failing read leaves the iterator at the end, except the string16 read whose element count overflows, which stops after the length |
| PickleFormat.ReadAfterOverflowSucceeds | chromium/base/pickle.cc:73-82 | such an input: after a string16 whose length field says 0x40000000 fails, a bool behind it is still read |
| PickleFormat.ReadsStayInside | chromium/base/pickle.cc:42-82 | on arbitrary bytes a read of any type never moves the index back or past the end, and the bytes of what it hands out, two for each 16-bit character, are a range of the payload between the old and the new index |
| PickleImage.AcceptedIffHeaderFits | chromium/base/pickle.cc:276-293 | arbitrary bytes are accepted exactly when the payload they claim leaves an aligned header of at least four bytes, and then header and payload make up the length |
| PickleImage.ImageIsAccepted | chromium/base/pickle.cc:276-293 | the bytes of a pickle give back the header size it was made with |
| PickleImage.FindNextFindsWholePickles | chromium/base/pickle.cc:401-439 | FindNext finds a boundary exactly where the first bytes are a whole pickle |
| PickleImage.PeekNextTellsTotalSize | chromium/base/pickle.cc:416-439 | as soon as the header of a pickle is in the range PeekNext tells the total size, whether or not the rest is there, and before that it fails |
| PickleImage.PeekNextSaturatesIff | chromium/base/pickle.cc:431-437 | on arbitrary bytes it tells the claimed size, or the largest size_t exactly when that size is not below it |
| PickleImage.ProperPrefixIsRejected | chromium/base/pickle.cc:401-439 | every proper prefix of a pickle is rejected |
| PickleImage.StepsThroughBoundaries | chromium/base/pickle.cc:401-439 | over pickles laid end to end, repeated FindNext yields exactly these pickles, up to one that is cut short |
| PickleImage.GrowthIsGeometric | chromium/base/pickle.cc:459-465 | growing makes room and, in spite of the page rounding minus one unit, multiplies the capacity by at least 3/2 |
| PickleImage.ReserveIsGeometric | chromium/base/pickle.cc:354-364 | so does growing through Reserve |
| Pickles.Pickle.constructor | chromium/base/pickle.cc:254-274 | a new pickle is empty with an aligned header |
| Pickles.Pickle.ReadOnly | chromium/base/pickle.cc:276-293 | refers to the data as it is, or to nothing when the data is rejected |
| Pickles.Pickle.Copy | chromium/base/pickle.cc:295-302 | a deep copy with the same header size, offset and payload, also of a read-only pickle |
| Pickles.Pickle.Assign | chromium/base/pickle.cc:309-328 | takes over header size, offset and payload in its own memory, also from a read-only pickle; self-assignment changes nothing |
| Pickles.Pickle.Reserve | chromium/base/pickle.cc:354-364 | makes room for the length without changing the payload |
| Pickles.Pickle.Resize | chromium/base/pickle.cc:379-385 | capacity becomes a multiple of 64 and the bytes up to the smaller size stay |
| Pickles.Pickle.WriteBytesCommon | chromium/base/pickle.cc:449-480 | appends the bytes with zero padding to four; offset, stored payload size, capacity and the sum of earlier capacities (at most twice the present one) stay in step |
| Pickles.Pickle.WriteInt | chromium/base/pickle.h:228-230 | appends the encoding of the value and nothing else |
| Pickles.Pickle.WriteBool | chromium/base/pickle.h:225-227 | a bool is written as the int 0 or 1 |
| Pickles.Pickle.WriteLong | chromium/base/pickle.h:231-235 | a long takes 64 bits on every platform |
| Pickles.Pickle.WriteString | chromium/base/pickle.cc:330-335 | length, then bytes |
| Pickles.Pickle.WriteString16 | chromium/base/pickle.cc:337-343 | length in characters, then two bytes each |
| Pickles.Pickle.WriteData | chromium/base/pickle.cc:345-347 | length, then bytes |
| Pickles.Pickle.WriteBytes | chromium/base/pickle.cc:349-352 | bytes without a length |
| Pickles.Pickle.Export | chromium/base/pickle.h:206-214 | data() and size() are a whole image of the pickle |
| Pickles.PickleSizer.Add | chromium/base/pickle.cc:214-246 | each Add call adds what the matching Write call appends |
| Pickles.PickleIterator.constructor | chromium/base/pickle.cc:24-28 | starts at the front of the payload and ends at its end |
| Pickles.PickleIterator.Advance | chromium/base/pickle.cc:42-49 | moves over the padded size, or to the end if less is left |
| Pickles.PickleIterator.GetReadPointerAndAdvance | chromium/base/pickle.cc:62-71 | hands out the bytes at the index, or exhausts the iterator on a negative or too large size |
| Pickles.PickleIterator.GetElementsAndAdvance | chromium/base/pickle.cc:73-82 | an overflowing count hands out nothing and leaves the index |
| Pickles.PickleIterator.ReadBuiltin | chromium/base/pickle.cc:30-40 | reads an integer or bool as the format says |
| Pickles.PickleIterator.ReadString | chromium/base/pickle.cc:144-166 | reads a length and that many bytes |
| Pickles.PickleIterator.ReadString16 | chromium/base/pickle.cc:168-190 | reads a length and that many 16-bit characters |
| Pickles.PickleIterator.ReadData | chromium/base/pickle.cc:192-200 | reads a length and that many bytes |
| Pickles.PickleIterator.ReadBytes | chromium/base/pickle.cc:202-208 | reads as many bytes as the caller says |
| Pickles.WriteAll | chromium/base/pickle.cc:214-246 | after any sequence of writes the payload is their encoding, and a PickleSizer fed the same values predicts its size |
| Pickles.ReadValues | chromium/base/pickle.cc:24-208 | any sequence of reads over any payload keeps the index inside |
| Pickles.Journey | chromium/base/pickle.cc:24-208 | write, export, rebuild from the bytes alone, read the same types: the same values and nothing left |
| ArgvQuoting.QuoteForCommandLineToArgvW | chromium/base/command_line.cc:102-147 | the loops over backslash runs compute the quoted form that the lemmas below speak of, which differs from the argument exactly if that holds a blank, a backslash, a quote or, for placeholders, a percent sign |
| ArgvQuoting.SurvivorsRoundTrip | chromium/base/command_line.cc:102-147 | quoting every argument, joining with single spaces and splitting by the CommandLineToArgvW rules (2n and 2n+1 backslashes before a quote) returns the list, if each argument is nonempty and free of tabs or quoted anyway |
| ArgvQuoting.OnlySurvivorsComeOut | chromium/base/command_line.cc:102-147 | no other argument can come out of any command line so made |
| ArgvQuoting.RoundTripIffSurvivors | chromium/base/command_line.cc:102-147 | so the round trip holds exactly for lists of such arguments |
| ArgvQuoting.EmptyAndTabbedArgumentsAreLost | chromium/base/command_line.cc:102-114 | an empty argument and an unquoted one with a tab do break it |
| ArgvPlaceholders.SubstitutionIff | chromium/base/command_line.cc:107-147 | with placeholders quoted, replacing every % of a command line by a text without quotes and backslashes, blanks included, and splitting gives the same arguments with that text in place, exactly if the text is not empty or no backslash is exposed by taking a % away |
| ArgvPlaceholders.EmptyTextIsExposed | chromium/base/command_line.cc:107-147 | such an input: an argument of a backslash and a placeholder, and the empty text |
| ArgvPlaceholders.UnquotedPlaceholderFallsApart | chromium/base/command_line.cc:107-110 | without quoting placeholders a blank for the % of "a%b" makes two arguments of it |
| CommandLineArgs.SturdyIsFixed | chromium/base/command_line.cc:56-98 | a parsed vector without fragile switches parses to itself: same vector, switch map and divider |
| CommandLineArgs.FragileIsNotFixed | chromium/base/command_line.cc:334-356 | with one fragile switch the vector or the divider changes |
| CommandLineArgs.EmptyNameBecomesTerminator | chromium/base/command_line.cc:334-356 | such an input: "--=" is kept as "--", which parses as the terminator |
| CommandLineArgs.SpaceInNameIsTrimmed | chromium/base/command_line.cc:334-356 | and "--a =" is kept as "--a ", which parses as another name |
| CommandLineArgs.ReparseIff | chromium/base/command_line.cc:267-274 | parsing argv() again reproduces vector, switch map and divider exactly when no switch before the terminator has an empty value after = and a name that is empty or ends in whitespace |
| CommandLineArgs.LastValueWins | chromium/base/command_line.cc:339-346 | the switch map holds for each key the value of the last switch with it |
| CommandLineArgs.ArgsArePositional | chromium/base/command_line.cc:376-385 | GetArgs of a parsed vector is, in characters, what before the first "--" is not a dash with something behind it, and everything trimmed after it |
| CommandLineArgs.ArgumentsAreKept | chromium/base/command_line.cc:73-98 | what was left over as arguments holds no switch and is left over again |
| CommandLines.CommandLine.FromArgv | chromium/base/command_line.cc:169-173 | the object is what parsing the vector gives |
| CommandLines.CommandLine.Copy | chromium/base/command_line.cc:175-180 | a copy has the same contents, and its lookup mirror points into its own switch map |
| CommandLines.CommandLine.Assign | chromium/base/command_line.cc:182-188 | so does assignment |
| CommandLines.CommandLine.ResetStringPieces | chromium/base/command_line.cc:487-491 | rebuilds the mirror: the keys of the switch map, pointing into it |
| CommandLines.CommandLine.InitFromArgv | chromium/base/command_line.cc:267-274 | forgets the old contents and parses |
| CommandLines.CommandLine.AppendSwitchNative | chromium/base/command_line.cc:334-356 | the switch goes in front of the arguments as written, the map and the mirror get its value |
| CommandLines.CommandLine.AppendSwitchesAndArguments | chromium/base/command_line.cc:73-98 | the loop appends trimmed switches before and trimmed arguments after, until "--" ends switches |
| CommandLines.CommandLine.AppendArguments | chromium/base/command_line.cc:404-409 | appends another command line's switches and arguments, and takes its program if asked |
| CommandLines.CommandLine.GetArgs | chromium/base/command_line.cc:376-385 | everything behind the divider without the first "--" |
| CommandLines.CommandLine.GetSwitchValueNative | chromium/base/command_line.cc:317-323 | looking up through the mirror gives the switch map's value, or the empty string |
| CommandLines.CommandLine.HasSwitch | chromium/base/command_line.cc:288-296 | the mirror has a key exactly when the switch map has |
| CommandLines.Reparse | chromium/base/command_line.cc:169-180 | parse, copy, parse the copy's vector: equal objects exactly under the condition of ReparseIff |
| CommandLineSpelling.SwitchesInCharacters | chromium/base/command_line.cc:41-98 | after parsing, a switch is there exactly when, before the first argument that trims to "--", some trimmed argument is "--" or "-", its name, and nothing or = and a value; a prefix alone is none; the last such argument has the value |
| CommandLineSpelling.LookUp | chromium/base/command_line.cc:288-323 | HasSwitch, GetSwitchValueNative and GetArgs on the parsed object answer so |
| CommandLineSpelling.AppendedSwitchReadsBack | chromium/base/command_line.cc:334-356 | an appended switch stands behind the other switches, with "--" in front unless a dash is there and = before a value, and parsing argv() again gives it back if its name has no = and nothing white is at its end |
| Md5Bits.F1IsF | chromium/base/md5.cc:53-56 | the optimised selection is the F of RFC 1321, section 3.4 |
| Md5Bits.F2IsG | chromium/base/md5.cc:53-56 | the same with rotated arguments is G |
| Md5.StepIsMixed | chromium/base/md5.cc:58-60 | MD5STEP is the standard's step |
| Md5.OpsAgree | chromium/base/md5.cc:67-147 | the 64 steps on rotating registers agree with the standard's |
| Md5.Md5Transform | chromium/base/md5.cc:67-147 | the state array becomes the standard's compression of the block, register names rotating through the rounds |
| Md5.ByteReverse | chromium/base/md5.cc:24-48 | in place, words become the other byte order on big-endian machines and stay on little-endian ones |
| Md5Rfc.PaddedIsWhole | chromium/base/md5.cc:221-262 | the padding of RFC 1321, sections 3.1 and 3.2, is the shortest that makes whole blocks |
| Md5Contexts.Context.constructor | chromium/base/md5.cc:157-165 | a fresh context has seen nothing |
| Md5Contexts.Context.Update | chromium/base/md5.cc:171-215 | afterwards the context stands for the message with the data appended: the two counter words hold eight times its length modulo 2^64, the buffer its unprocessed tail and the state the fold over its whole blocks |
| Md5Contexts.CounterAdds | chromium/base/md5.cc:178-181 | low word with carry and shifted high word add the bit length modulo 2^64 |
| Md5Contexts.CounterIsLengthField | chromium/base/md5.cc:250-256 | the two words in memory are the 64-bit length field of the padding |
| Md5Contexts.PaddedInOneBlock | chromium/base/md5.cc:238-249 | a tail below 56 bytes pads to one last block |
| Md5Contexts.PaddedInTwoBlocks | chromium/base/md5.cc:238-249 | a longer tail pads to two |
| Md5Contexts.LengthWords | chromium/base/md5.cc:250-256 | reversing fourteen words and storing two gives the standard's block on both byte orders |
| Md5Contexts.Context.Final | chromium/base/md5.cc:221-262 | the digest of RFC 1321 of everything seen, and a wiped context |
| Md5Contexts.Context.Copy | chromium/base/md5.cc:264-270 | a copy of the context stands for the same message |
| Md5Contexts.Context.IntermediateFinal | chromium/base/md5.cc:264-270 | the digest so far, without changing the context |
| Md5Contexts.DigestOfChunks | chromium/base/md5.cc:157-262 | however a message is cut into updates, the result is the digest of the whole |
| Md5Contexts.Md5Sum | chromium/base/md5.cc:286-291 | the one-shot form agrees |
| LazyInstances.StepKeepsInv | chromium/base/lazy_instance.h:140-202 | every access of every thread to a word, and exit processing, keeps the invariant |
| LazyInstances.CreatesOnce | chromium/base/lazy_instance.cc:16-37 | in every interleaving at most one call is in the creating section of a lazy, and its constructor runs at most once between two destructions |
| LazyInstances.ReturnsTheInstance | chromium/base/lazy_instance.h:140-168 | every call returns the lazy's one address, and the instance there is constructed and not destroyed |
| LazyInstances.RegistersOncePerConstruction | chromium/base/lazy_instance.cc:39-51 | when no call is under way the at-exit stack holds each constructed lazy once, and no leaky one |
| LazyInstances.ExitDestroysInReverse | chromium/base/lazy_instance.h:194-202 | at exit exactly the registered instances die, newest registration first, and their words are 0 again |
| LazyInstances.CallbacksDestroyInReverse | chromium/base/at_exit.cc:68-92 | what the at-exit manager of the other module runs, one OnExit for each, makes exactly the registered words 0 and destroys newest first |
| LazyInstances.InnerOutlivesOuter | chromium/base/lazy_instance.cc:39-51 | an instance created inside another's constructor is destroyed after it |
| LazyOrder.DiesAfterIffRegisteredBefore | chromium/base/lazy_instance.cc:39-51 | over every run that reaches exit: one instance is destroyed after another exactly when it was already registered at the step that registered the other |
| LazyOrder.UsedWhenRegisteredOutlives | chromium/base/lazy_instance.cc:39-51 | an instance that is registered, and not merely published, when another's constructor asks for it outlives that other one |
| LazyOrder.UsedInsideMayDieFirst | chromium/base/lazy_instance.cc:43-50 | being used inside is not enough: between the store and the registration of l another constructor can use l, finish and register first, so l dies first |
| LazyOrder.UsedInsideDoesDieFirst | chromium/base/lazy_instance.cc:43-50 | such a run exists from the start for any two lazies and threads |
| LazyProgress.ReturnsIffNoCycle | chromium/base/lazy_instance.cc:16-37 | in every state of every run: some continuation lets a call return its instance exactly when the chain from its thread to the thread that creates what it asks for, and so on, does not run into a cycle |
| LazyProgress.CycleSpins | chromium/base/lazy_instance.cc:25-34 | if it does, the call is still asking after every continuation |
| LazyProgress.TopFinishes | chromium/base/lazy_instance.cc:16-51 | a thread that waits for nobody brings its call to its return by its own steps alone |
| LazyProgress.SelfUseSpinsForever | chromium/base/lazy_instance.cc:25-34 | a constructor that asks for its own lazy never returns, whatever other threads do |
| LazyProgress.SelfUseIsReachable | chromium/base/lazy_instance.cc:16-34 | that state is reached from the start for any lazy |
| LazyProgress.CrossWaitIsReachable | chromium/base/lazy_instance.cc:16-34 | so is the other cycle: two constructors on two threads that ask for each other's lazy, neither of them for its own |
| AtExits.AtExitManagers.RegisterTask | chromium/base/at_exit.cc:56-65 | pushes on the newest manager; without one it is lost |
| AtExits.AtExitManagers.ProcessCallbacksNow | chromium/base/at_exit.cc:68-92 | runs the swapped-out tasks newest first; what they register waits for the next call |
| AtExits.AtExitManagers.DeleteManager | chromium/base/at_exit.cc:37-47 | processes the newest manager unless managers are disabled, then drops it |
| AtExits.EveryTaskIsAccountedFor | chromium/base/at_exit.cc:27-103 | over every run each registration is accounted for exactly once: it ran, waits, or was lost |
| AtExits.LastInFirstOut | chromium/base/at_exit.h:47-49 | tasks run in the reverse of the order they were registered in |
| AtExits.RegisteredAtTheEndNeverRuns | chromium/base/at_exit.cc:37-47 | a task that is handed in once, while its manager is destroyed, never runs in whatever follows |
| AtExits.ProcessingIsForGood | chromium/base/at_exit.cc:68-92 | a manager that has begun to process its callbacks is marked so for as long as it lives |
| AtExits.RegisteringAfterProcessing | chromium/base/at_exit.cc:56-65 | so after ProcessCallbacksNow no registration passes the debug check again, while release builds take it and run it next time |
| PathServices.PathService.LockedGetFromCache | chromium/base/path_service.cc:137-147 | a cached path, unless the cache is off |
| PathServices.PathService.LockedGetFromOverrides | chromium/base/path_service.cc:151-161 | an override, which is then cached unless the cache is off |
| PathServices.PathService.Get | chromium/base/path_service.cc:169-219 | cache, then overrides, then the first provider that answers; an empty answer is none; the current directory is never cached |
| PathServices.PathService.OverrideAndCreateIfNeeded | chromium/base/path_service.cc:229-266 | refuses exactly when the directory is to be created and cannot exist, or the path has to be made absolute and cannot, and then changes nothing; an accepted override clears the cache |
| PathServices.RefusedOverrideChangesNothing | chromium/base/path_service.cc:229-266 | a refused override leaves every later state of every run, and so every answer, as it was |
| PathServices.AcceptedOverrideIsAnswered | chromium/base/path_service.cc:169-285 | from any state Get answers an accepted override, made absolute unless it was given so, until the next one of that key or its removal, whatever else happens |
| PathServices.ProviderIsAnswered | chromium/base/path_service.cc:169-219 | over every run a key without override is answered by the only provider in whose range it lies, made absolute if it refers to a parent |
| PathServices.PathService.RemoveOverride | chromium/base/path_service.cc:269-285 | removing an override clears the cache; without one nothing changes |
| PathServices.PathService.RegisterProvider | chromium/base/path_service.cc:288-317 | a new provider is asked first |
| PathServices.PathService.DisableCache | chromium/base/path_service.cc:320-327 | empties the cache for good |
| PathServices.GetIsCacheless | chromium/base/path_service.cc:169-327 | over every run, Get answers as if there were no cache: the override if there is one, else the first provider that answers |
| PathServices.RegisterKeepsCoherence | chromium/base/path_service.cc:302-316 | a provider that keeps to a range disjoint from all others leaves every cached entry current |
| PathServices.NestedGetsAreHarmless | chromium/base/path_service.cc:192-218 | calls that a provider makes to the service before it answers leave the answer that is then cached current |
| PathServices.CachedIffAsked | chromium/base/path_service.cc:169-327 | over every run the cache holds exactly the keys that were asked for and answered since it was last emptied |
| PathServices.RegisteringIsSafeIff | chromium/base/path_service.cc:288-317 | without the range check, after any run, registering a provider makes an answer wrong exactly when the key was asked for since the cache was last emptied, is not overridden, and the new provider answers it differently |
| PathServices.CollisionLeavesStaleEntry | chromium/base/path_service.cc:302-316 | and otherwise the answer depends on what was asked before |
| PathServices.EmptyCacheIsAlwaysSafe | chromium/base/path_service.cc:320-327 | with nothing cached any provider may be registered |
| PathServices.OnlyAnswererDecides | chromium/base/path_service.cc:194-201 | with disjoint ranges the order of the providers does not matter |
| PathServices.NoParentReferencesIff | chromium/base/path_service.cc:206-266 | after any run some answer has a parent reference exactly when an accepted override that was given as absolute, with such a path, still stands |
| PathServices.AbsoluteOverrideIsNotCleaned | chromium/base/path_service.cc:229-266 | one such override is enough: its path comes back as it is |
| Ascii.SplitAppends | chromium/base/strings/string_split.cc:73-102 | cutting at a separator and cutting what follows it compose |
| Ascii.TrimKeepsExactlyTheTrimmed | chromium/base/strings/string_util.cc:342-351 | trimming changes exactly the strings with whitespace at an end |
| Ascii.TrimInCharacters | chromium/base/strings/string_util.cc:342-351 | trimming takes away exactly the tabs, line feeds, vertical tabs, form feeds, carriage returns and blanks at both ends |
| Ascii.TrimLeavesWhite | chromium/base/strings/string_util.cc:342-351 | every text has such a middle |
| Ascii.SplitJoined | chromium/base/strings/string_split.cc:73-102 | splitting gives back the parts that were joined |
| FeatureText.PiecesRegister | chromium/base/feature_list.cc:339-376 | every piece of a list registers its feature |
| FeatureText.PiecesSay | chromium/base/feature_list.cc:339-376 | every new override is what the first piece of the list that names its feature says |
| FeatureText.FirstPieceDecides | chromium/base/feature_list.cc:339-376 | and every first piece that names a new feature decides |
| FeatureText.DisabledIffNotStarred | chromium/base/feature_list.h:86-92 | for each feature on the disable list, whatever the enable list says: it is disabled exactly when the first piece there that names it does not begin with *, and has the default state exactly when it does |
| FeatureText.StarredIsNotDisabled | chromium/base/feature_list.h:86-92 | such an input: enabled "F", disabled "*F" leaves F at its default |
| FeatureText.DisabledTakesPrecedence | chromium/base/feature_list.cc:83-94 | every feature on the disable list has such a first piece, so none of them is ever enabled |
| FeatureText.PrintedSplits | chromium/base/feature_list.cc:182-214 | cutting a printed list gives the printed pieces, trimmed, without the empty ones |
| FeatureText.ReadPieceIs | chromium/base/feature_list.cc:339-356 | what one printed override is read back as, whatever trimming does to it |
| FeatureText.TextRoundTripIff | chromium/base/feature_list.cc:182-214 | printing and reading back recovers every feature's state and trial, whatever the order, exactly when each printed piece is nonempty with nothing to trim and each trial is known; only overridden_by_field_trial is not preserved |
| FeatureText.PrintedOnTheRightList | chromium/base/feature_list.cc:182-214 | the disable list names exactly the disabled features, the enable list the enabled ones and those with their default state |
| FeatureSpelling.ListsInCharacters | chromium/base/feature_list.h:84-92 | for all lists, parts between commas: a feature has an override exactly if some part names it; the first part of the disable list that does decides, else the first of the enable list; * stands for the default, < for a trial |
| FeatureSpelling.IsEnabled | chromium/base/feature_list.cc:302-323 | IsFeatureEnabled answers so: the first part that names the feature decides, and without one, or with *, the default does |
| FeatureStore.NamesComeBack | chromium/base/feature_list.cc:49-64 | both names come back from the pickled bytes; a missing trial reads as the empty name |
| FeatureStore.StoredEntryRestores | chromium/base/feature_list.cc:96-114 | a stored entry registers its feature with its state and the trial of that name |
| FeatureStore.SharedMemoryRoundTripIff | chromium/base/feature_list.cc:96-180 | storing and restoring recovers every override exactly when each trial is known and, if a trial has an empty name, each feature has one |
| FeatureStore.PartialStoreRestoresPrefix | chromium/base/feature_list.cc:167-170 | without room for all, exactly the features that fitted come back |
| FeatureLists.SplitFeatureListString | chromium/base/feature_list.cc:231-234 | the cutting loop gives the trimmed nonempty pieces |
| FeatureLists.FeatureList.RegisterOverride | chromium/base/feature_list.cc:358-376 | the first override of a feature stands; a leading * means the default state |
| FeatureLists.FeatureList.RegisterOverridesFromCommandLine | chromium/base/feature_list.cc:339-356 | registers every piece of the list in order |
| FeatureLists.FeatureList.InitializeFromCommandLine | chromium/base/feature_list.cc:83-94 | the disable list first, and nothing registered before is replaced |
| FeatureLists.FeatureList.AssociateReportingFieldTrial | chromium/base/feature_list.cc:124-142 | adds a trial to an override that has none, without making it the reason |
| FeatureLists.FeatureList.GetFeatureOverrides | chromium/base/feature_list.cc:182-214 | builds both lists in the map's order |
| FeatureLists.FeatureList.AddFeaturesToAllocator | chromium/base/feature_list.cc:158-180 | stores a prefix of the features, all of them exactly when there is room |
| FeatureLists.FeatureList.InitializeFromSharedMemory | chromium/base/feature_list.cc:96-114 | registers every readable entry in order, under the number it is stored with |
| FeatureLists.FeatureList.IsFeatureEnabled | chromium/base/feature_list.cc:302-323 | an override other than use-default decides, one with an unknown number as not enabled; else the feature's default |
| FeatureLists.GetFeatureAndTrialName | chromium/base/feature_list.cc:49-64 | reads the names through a read-only pickle over arbitrary bytes |
| FeatureLists.TextJourney | chromium/base/feature_list.cc:182-214 | a list printed and read into a new object comes back |
| FeatureLists.SharedMemoryJourney | chromium/base/feature_list.cc:96-180 | a list stored through Pickle and restored into a new object comes back |
| Environments.ParseEnvLine | chromium/base/environment.cc:109-121 | the key up to the first =, or the whole line, and the length with its terminator |
| Environments.AlteredLookup | chromium/base/environment.cc:148-236 | afterwards a changed variable has its new value, or none if that is empty, and every other what it had, for all environments, repeated keys and lines without = included |
| EnvironmentLines.AlteredLines | chromium/base/environment.cc:148-236 | in characters: the lines left are those that are no changed name alone or before =, each as often as before and in order, and behind them stands name, = and value of each change that has one |
| Environments.AlteringTwiceMerges | chromium/base/environment.cc:148-236 | one change after another looks up like the merged change |
| Environments.LookupOfAnyNames | chromium/base/environment.cc:148-236 | for changes of any names: the first change whose line defines the variable decides, unless the variable was there and is not itself changed |
| Environments.SetVariableIsFoundIff | chromium/base/environment.cc:168-176 | a variable that is set is found again exactly when its name has no =, whatever else is set with it, in the order of a std::map |
| Environments.EqualsNameShadows | chromium/base/environment.cc:168-176 | in another order a name with = can shadow the plain one |
| Environments.BlockParsesBack | chromium/base/environment.cc:148-184 | a Windows block parses back line by line and ends in two terminators |
| Environments.AlterBlock | chromium/base/environment.cc:148-184 | the returned block is that of the altered lines |
| Environments.AlterPointers | chromium/base/environment.cc:188-236 | every pointer lands behind the pointer words on a terminated string inside the allocation, the strings are the altered lines in order, the last pointer is null, and the allocation is the fewest whole words |
| Environments.Pack | chromium/base/environment.cc:219-235 | pointers and strings fit into the computed allocation |
| CallbackLists.CallbackList.Add | chromium/base/callback_list.h:105-109 | appends a live node and returns its subscription |
| CallbackLists.CallbackList.Unsubscribe | chromium/base/callback_list.h:85-93 | resets the node while some iterator lives, else erases it and runs the removal callback |
| CallbackLists.CallbackList.Compact | chromium/base/callback_list.h:177-191 | erases exactly the reset nodes and runs the removal callback once if there were any |
| CallbackLists.Iterator.GetNext | chromium/base/callback_list.h:144-154 | the next live callback, with the iterator already on the node after it, or at end() for good |
| CallbackLists.Iterator.Destroy | chromium/base/callback_list.h:138-142 | the last iterator to die compacts |
| CallbackPasses.RunKeepsValid | chromium/base/callback_list.h:85-191 | in every run nodes stay in the order of subscription, the count is that of live iterators, and without iterators no node is reset |
| CallbackPasses.StepRefinesPlainSet | chromium/base/callback_list.h:85-191 | reset nodes and late erasure are invisible: the list is a plain set of subscriptions |
| CallbackPasses.NotifyRunsEachOnce | chromium/base/callback_list.h:214-221 | in a pass each callback subscribed throughout runs exactly once in the order of subscription, and one unsubscribed before does not |
| CallbackPasses.UnsubscribedBeforeItsTurn | chromium/base/callback_list.h:85-93 | one unsubscribed in the pass before its turn does not run in it |
| CallbackPasses.AddedRunsIffNotAtEnd | chromium/base/callback_list.h:144-154 | one added in the pass and kept runs in it exactly when the iterator had not stepped to end() |
| CallbackPasses.RemovalFiresOncePerPass | chromium/base/callback_list.h:138-191 | over an outermost pass, nested ones included, the removal callback runs once if anything was unsubscribed |
| CallbackPasses.RemovalFiresOutside | chromium/base/callback_list.h:85-93 | outside passes it runs at each unsubscription |
| RandUtil.RandGenerator | chromium/base/rand_util.cc:52-67 | the result is the remainder of the first accepted draw |
| RandUtil.RandInt | chromium/base/rand_util.cc:19-30 | the wrapping 64-bit arithmetic gives min plus that remainder, within [min, max] for bounds of either sign |
| RandUtil.EachResultEquallyOften | chromium/base/rand_util.cc:54-67 | each remainder has exactly floor((2^64-1)/range) accepted draws |
| RandUtil.HalfIsAccepted | chromium/base/rand_util.cc:57-58 | at least 2^63 of the 2^64 draws are accepted |
| RandUtil.ExchangeIsSymmetry | chromium/base/rand_util.cc:57-66 | exchanging two results is an involution of the draws that keeps acceptance |
| RandUtil.AllResultsAreAlike | chromium/base/rand_util.cc:60-66 | over any number of draws, exchanging the draws exchanges the results and keeps how many are used: the generator is exactly uniform |
| RandUtil.EachIntEquallyOften | chromium/base/rand_util.cc:19-30 | each integer from min to max has the same number of accepted draws |
| IdMaps.IdMap.Add | chromium/base/id_map.h:208-216 | stores under the next id, over what a caller may have put there, and moves on |
| IdMaps.IdMap.RemoveId | chromium/base/id_map.h:69-82 | erases, or only notes the id while some iterator lives; an unknown id changes nothing |
| IdMaps.IdMap.ReplaceValue | chromium/base/id_map.h:86-94 | swaps the value under an id and returns the old one |
| IdMaps.IdMap.Size | chromium/base/id_map.h:120-123 | the number that SizeCountsLive is about |
| IdMaps.IdMap.ClearAll | chromium/base/id_map.h:96-105 | empties the table, or notes every id while some iterator lives |
| IdMaps.IdMap.CompactTable | chromium/base/id_map.h:225-230 | erases exactly the noted ids and keeps the order of the rest |
| IdMaps.Iterator.Copy | chromium/base/id_map.h:141-144 | a copy counts and stands on the first entry from there that is not noted |
| IdMaps.Iterator.Advance | chromium/base/id_map.h:176-180 | moves to the next entry that is not noted for removal |
| IdMaps.Iterator.Destroy | chromium/base/id_map.h:153-163 | the last iterator to die compacts |
| IdMapPasses.SizeCountsLive | chromium/base/id_map.h:120-123 | in every run the noted ids are stored ids, size() counts the live ones, and without iterators nothing else is stored |
| IdMapPasses.LateRemovalRefinesPlainMap | chromium/base/id_map.h:69-105 | late removal is invisible: the table is a plain map |
| IdMapPasses.IterationVisitsEachOnce | chromium/base/id_map.h:134-202 | in an iteration, nested or copied, each entry ahead that stays live is visited exactly once and none that was removed before |
| IdMapPasses.IteratorsStartOnLive | chromium/base/id_map.h:137-144 | new and copied iterators skip only what is noted for removal |
| IdMapPasses.IdsAreNeverReused | chromium/base/id_map.h:208-216 | ids from Add alone rise over the whole run, so none is given out twice and the next one is always free |
| IdMapPasses.AddOverwritesIffChosen | chromium/base/id_map.h:208-223 | over every run that mixes Add and AddWithID, Add meets an occupied slot exactly when a caller chose that id and its entry is still stored; the caller's value is then lost and every other entry stays |
| IdMapPasses.ChosenEntryIsLost | chromium/base/id_map.h:62-67 | such a run: a caller takes id 1, then Add does |
| BigEndians.ReadBigEndian | chromium/base/big_endian.h:21-29 | the plain big-endian value, whether or not char is signed |
| BigEndians.ShiftMovesExtension | chromium/base/big_endian.h:23-28 | the sign extension of the first byte stays just above the bytes read and is shifted out exactly at the end |
| BigEndians.WriteBigEndian | chromium/base/big_endian.h:33-39 | writes these bytes and no others |
| BigEndians.BytesRoundTrip | chromium/base/big_endian.h:21-39 | decoding what was encoded gives the value back |
| BigEndians.ByteIsDigit | chromium/base/big_endian.h:33-39 | the bytes are the digits, the highest first |
| BigEndians.BigEndianReader.Read | chromium/base/big_endian.cc:37-44 | reads a number and moves behind it, or fails and stays |
| BigEndians.BigEndianReader.ReadBytes | chromium/base/big_endian.cc:21-35 | hands out the next bytes and moves behind them, or fails and stays |
| BigEndians.BigEndianReader.Skip | chromium/base/big_endian.cc:14-19 | skips, or fails and stays |
| BigEndians.BigEndianWriter.Write | chromium/base/big_endian.cc:80-87 | appends a number, or fails and leaves cursor and buffer |
| BigEndians.BigEndianWriter.WriteBytes | chromium/base/big_endian.cc:72-78 | appends bytes, or fails and leaves cursor and buffer |
| BigEndians.WriteItems | chromium/base/big_endian.cc:62-103 | writing goes on exactly while there is room |
| BigEndians.Journey | chromium/base/big_endian.cc:11-103 | any sequence of numbers and byte strings that fits is read back as written |

## Left out

- Memory ordering: accesses of threads are sequentially consistent. OnExit racing with users of an instance, and destructors that use other lazy instances, are not modelled.
- `ObserverListThreadSafe`, `LazyInstance`: state machines on values whose steps are the accesses of one thread; locks are atomic steps, context identities are never reused, and a notification is a number that stands for the bound method.
- `ObserverListBase::Iter`: copying, and comparing iterators, are not modelled; an observer is an identity, a pass is a loop over one iterator.
- ObserverLoop.ForEach: its callbacks add, remove, clear and destroy; callbacks that walk the list themselves are part of the passes on values.
- PathServices.PathService.Get: sequential runs only; Get drops its lock before asking providers, so a concurrent override can be followed by a stale cache write. Providers and the file system are functions, so neither changes with time.
- Pickles.Pickle.Copy: of a pickle whose data was rejected, which has no header to copy; and writes to a copy of a read-only pickle, whose write offset is 0 while its payload is not empty.
- Pickles.Pickle.WriteBytesCommon: the payload must stay within 32 bits, which the code checks in debug builds only; attachments, floats and doubles are not modelled.
- Pickles.PickleIterator.ReadBuiltin: a bool read from a byte other than 0 and 1, undefined in the source, reads as true; alignment faults are not modelled.
- Pickles.PickleIterator.constructor: holds the payload as a value, so a pickle that is changed or freed under its iterator is not modelled.
- Md5Contexts.Context.Update: the context is an object with its arrays, not raw memory; MD5DigestToBase16 and MD5String are not modelled.
- CommandLines.CommandLine.FromArgv: POSIX only; program names on Windows, PrependWrapper, CopySwitchesFrom, command strings, and lower-casing of switches on Windows are not modelled. Texts are bytes and trimming is ASCII.
- Environments.AlterPointers: the pointer words and the bytes of the one allocation are two arrays, pointers being offsets into it. The iteration order of maps is a parameter here and in the feature list. OS calls that read and set variables are not modelled.
- FeatureLists.FeatureList.GetFeatureOverrides: names free of `,`, `<` and `*`, which debug builds check; a field trial is its name in a set of known names, and the persistent allocator an append-only list with limited room. The global instance and the check of feature identities are not modelled.
- AtExits.AtExitManagers.ProcessCallbacksNow: a task is an identity with a fixed list of tasks that it registers; the checks of debug builds stop nothing.
- LazyProgress.ReturnsIffNoCycle: that a call can return, and not that a fair scheduler lets it; a constructor is taken to end unless it waits for another lazy.
- RandUtil.RandGenerator: the draws are a given sequence in which some draw is accepted; RandDouble and random bytes are not modelled.
- IdMaps.IdMap.Add: ids below the largest int32; how a hash table is rearranged by an insertion is a parameter, and nothing is inserted while an iterator lives. Debug builds stop where Add would overwrite. Lookup, which also finds entries noted for removal, is one table read.
- BigEndians.BigEndianReader.Skip: lengths do not overflow the pointer.
- `base64`, `hash`, logging, callbacks and their binding, CPU and OS queries, message loops and run loops: foreign calls, or nothing to prove beyond one call.
