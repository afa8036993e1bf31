# A verified model of com4j

com4j lets Java programs call COM objects. Its generator (`tlbimp`) reads a type
library and writes Java interfaces; its run-time (`runtime`, `native`) turns a
call on such an interface into a call through a COM vtable, on the one thread
that may touch the object. This project models the parts of com4j whose
correctness is not visible in any single function, and proves what they promise.

Each file is one component:

- `ComThread.dfy`, `ComThreadRuns.dfy`, `ComThreadProgress.dfy`,
  `ComThreadFairness.dfy`: the hand-off of Tasks from callers to a COM thread, as
  a transition system with one label per atomic action of a caller, the thread,
  the garbage collector, the peer or `kill`. A statement about all runs is a
  statement about all interleavings of any number of callers; the last file is
  about infinite runs that are fair. `ComThreadHistory.dfy` says what a state
  remembers in terms of the actions alone, `ComThreadLife.dfy` and
  `ComThreadEndless.dfy` when the thread ends by itself. `ComThreadCleanup.dfy` has
  the creation of a wrapper and the two release loops in imperative form.
- `SafeArray.dfy`, `SafeArrayMarshaller.dfy`: nested Java arrays to SAFEARRAY and back.
- `Arithmetic.dfy`, `Bits.dfy`: division, multiples and two's complement bit operations.
- `FfiAlign.dfy`, `FfiLayout.dfy`: `ALIGN` and the layout of aggregates in libffi.
- `FfiFrame.dfy`, `FfiFrameWin64.dfy`: stack reservation and frame writing;
  `FfiReturn.dfy`: from the return registers to the caller's storage.
- `MethodBinder.dfy`, `CallAssembly.dfy`: from the parameters of a COM method,
  through annotations and argument expansion, to the ffi slots of the call.
- `TypeLibCache.dfy`: the two-level cache of type library wrappers.
- `ThunkPool.dfy`: the allocator of executable thunks.
- `GuidText.dfy`, `Guid.dfy`: GUID parsing and printing.
- `CancellableWriter.dfy`, `InterfaceGenerator.dfy`: text that can be taken back,
  and the member loop that relies on it.
- `Walk.dfy`, `DefaultChain.dfy`, `DefaultedComMethod.dfy`: calls through default
  properties, as the generator finds them and as the run-time resolves them.
- `DefaultInterface.dfy`: the primary interface of a co-class.

`dafny verify dfyconfig.toml` checks everything.

## What holds only under a condition

Some promises are not kept by the code on all inputs. The code is modelled as it
is, and the exact condition is proved.

- `kill()` can end the thread while a caller is asleep (`KillStrandsCaller`).
  Whoever is inside `execute` can still return if and only if its Task has run or
  the thread is neither past its loop nor killed at the head of it
  (`ReturnsIffNotStranded`); in a fair run it does, or is stranded for good
  (`EveryCallReturnsOrIsStranded`, `ExitStrands`). Without `kill()` nobody is
  stranded (`OnlyKillStrands`, `NaturalExitLeavesNobody`, `EveryCallReturns`).
- The thread ends by itself, in a fair run without `kill()`, if and only if at some
  moment the peer is dead and the references of all wrappers created by then have
  been handed back (`DiesIff`). So it ends when wrappers are created up to some time
  only, or nobody is inside from some time on, and each comes back (`EndsByItself`,
  `EndsWhenLeftAlone`). That everybody leaves again and again is not enough, since
  each call may leave a new wrapper behind before the old one is collected (`ForeverAlive`).
- Flattening and rebuilding gives a Java array back if and only if it is
  rectangular (`RoundTripIffRectangular`).
- A failed `initialize_aggregate` leaves the size of the elements it had counted,
  so that the same type may be accepted when it is prepared again
  (`RejectedThenAccepted`, `NestedRejected`). A type is rejected for ever if and
  only if the way along first elements leads to an empty aggregate without
  meeting a size; otherwise it is rejected at most as often as there are first
  elements without a size (`PrepareRepeatedly`).
- The bytes that `ffi_prep_cif` reserves are as many as the slots take if and only if
  each slot happens to have the alignment of its type (`NothingSpareIff`).
- The constants for small structs in `win64.asm64` are those of `ffitarget.h` with 1
  and 4 bytes exchanged, `win32.asm` does not know them, and stores every floating
  point result as a float. A result arrives whole on Win64 if and only if it is no
  struct of 1 or 4 bytes and no long double (`DeliveredIff64`), on Win32 if and only
  if it is no struct of 1 or 2 bytes, no double and no long double (`DeliveredIff32`).
- The index map of an overload with omitted defaults lists the returned parameter
  too. Every COM parameter receives its own argument if and only if no default is
  used at or after the out-only return parameter (`Assemble`); all overloads of a
  method are right or all are wrong (`OverloadsAllOrNone`).
- An in/out return parameter in last place is lost when no default is used: its
  annotation has no index, and the run-time takes that for one past the end (`ResultSource`).
- `getRef` never gives back the library reference it obtains. When clients have
  given back everything, no type wrapper is left, and a library wrapper is left if
  and only if `getRef` found a type in it (`LeftBehind`, `Run`).
- Thunks stay inside their page if and only if their size divides it
  (`ThunksFitIffSizeDivides`); with 8-byte pointers it does not (`PageOf4096`).
- The GUID parser does not look at braces and dashes and accepts signs; what it
  accepts prints as it was written if and only if it is well-formed
  (`PrintsAsWrittenIffWellFormed`).
- Cancelling takes back text but not indentation. A cancelled member goes
  unnoticed if and only if it put the layout back (`CancelUnnoticedIffRestored`);
  `declareParameters` does not when a parameter type cannot be bound (`IndentationLeaks`).
- A put of some name comes out if and only if the first one of that name does not
  fail (`PutComesOutIff`); one that fails takes the propputref with it (`LostSetter`).
- The generator gets out of a chain of default properties if and only if it comes
  to no method twice (`EndsIffNoMethodTwice`).
- Generator and run-time look for the default method in different ways. They agree
  for every order of `Class.getMethods` if and only if each interface passed
  through has an annotated member and none that would not serve as well
  (`SameChainIffUnambiguous`); a readable and writable default property has one
  (`SetterForGetter`). A call that throws leaves one reference too many (`Invoke`).
- `getDefaultInterface` removes direct bases only, although its comment speaks of
  deriving. What is left are the candidates from which none derives if and only if
  no interface that is no candidate stands between a candidate and one that is no
  candidate's direct base (`RemainingAreMostDerivedIff`).

## Model

| member | source | states |
|---|---|---|
| ComThreadProtocol.EnterKeeps | runtime/src/main/java/com4j/ComThreadMulti.java:222-224 | entering `execute` with a free Task keeps mutual exclusion, queue order, slot ownership and answers |
| ComThreadProtocol.AddKeeps | runtime/src/main/java/com4j/ComThreadMulti.java:226-229 | appending to the queue gives the caller the last submission and keeps all call invariants |
| ComThreadProtocol.CheckKeeps | runtime/src/main/java/com4j/ComThreadMulti.java:233-236 | testing `isDone`, and giving up the monitor in `wait`, keeps them |
| ComThreadProtocol.WakeUpKeeps | runtime/src/main/java/com4j/ComThreadMulti.java:235 | so does any wake-up, spurious ones included |
| ComThreadProtocol.ReacquireKeeps | runtime/src/main/java/com4j/ComThreadMulti.java:235 | so does getting the monitor back after a wake-up |
| ComThreadProtocol.LeaveKeeps | runtime/src/main/java/com4j/ComThreadMulti.java:242-250 | taking the exception or the result hands out the outcome of the caller's own submission |
| ComThreadProtocol.RemoveKeeps | runtime/src/main/java/com4j/ComThreadMulti.java:173-175 | the server takes the entry it looked at, also when callers append in between |
| ComThreadProtocol.EnterInvokeKeeps | runtime/src/main/java/com4j/Task.java:61-63 | `invoke` enters the monitor for the oldest submission that has not run |
| ComThreadProtocol.FinishKeeps | runtime/src/main/java/com4j/Task.java:64-68 | the outcome stored is that of the submission that ran |
| ComThreadProtocol.SetDoneKeeps | runtime/src/main/java/com4j/Task.java:68-70 | `done` is set for the submission just run and no other |
| ComThreadProtocol.NotifyKeeps | runtime/src/main/java/com4j/Task.java:72-74 | `notify` wakes the owner if it sleeps and releases the monitor |
| ComThreadProtocol.ObjectsKept | runtime/src/main/java/com4j/Wrapper.java:81-95 | creating, disposing, dropping, enqueueing and collecting keep: a reachable wrapper's reference is registered, a pointer is owned until released |
| ComThreadProtocol.ExitStep | runtime/src/main/java/com4j/ComThreadMulti.java:133-136 | once the natural exit test has succeeded every wrapper has been handed back and nobody is or comes inside, step by step |
| ComThreadProtocol.StepInv | runtime/src/main/java/com4j/ComThreadMulti.java:163-252 | every enabled action of every party keeps the whole invariant |
| ComThreadRuns.NaturalExitLeavesNobody | runtime/src/main/java/com4j/ComThreadMulti.java:133-213 | in every run without `kill`, an exiting thread has an empty queue, no caller inside, no reachable wrapper, and nobody can submit again |
| ComThreadRuns.RunsInAppendOrder | runtime/src/main/java/com4j/ComThreadMulti.java:172-183 | in every run, what ran is a prefix of what was appended, followed by the one in flight and the queue |
| ComThreadRuns.ReturnsOwnOutcome | runtime/src/main/java/com4j/ComThreadMulti.java:222-252 | every return carries the outcome of the caller's own submission, at most one per submission |
| ComThreadRuns.NoLostWakeUp | runtime/src/main/java/com4j/Task.java:61-74 | a caller sleeps on a finished Task only while the server is about to notify it |
| ComThreadRuns.MonitorsExclude | runtime/src/main/java/com4j/Task.java:61-74 | server and owner are never both inside the monitor of one Task |
| ComThreadRuns.ReleasedOnce | runtime/src/main/java/com4j/ComThreadMulti.java:186-213 | each pointer is released at most once in every run, by the COM thread, and exactly once when the thread is dead; a reachable wrapper stays in `liveComObjects`, disposed or not |
| ComThreadRuns.ExitStrands | runtime/src/main/java/com4j/ComThreadMulti.java:142-152 | once the thread has left its loop, or has been killed at the head of it, a caller inside whose Task has not run never returns, in any continuation |
| ComThreadRuns.KillStrandsCaller | runtime/src/main/java/com4j/ComThreadMulti.java:142-152 | runs with `kill` that end with the peer asleep and its Task not run, one with the thread dead, one with the thread still at the head of its loop |
| ComThreadProgress.EveryCallCanReturn | runtime/src/main/java/com4j/ComThreadMulti.java:163-252 | from every reachable state, killed or not, whoever is inside `execute` and not stranded returns after finitely many actions of the thread and of callers already inside |
| ComThreadProgress.ReturnsIffNotStranded | runtime/src/main/java/com4j/ComThreadMulti.java:122-252 | some continuation returns a caller that is inside if and only if its Task has run or the thread is neither past its loop nor killed at the head of it |
| ComThreadProgress.OnlyKillStrands | runtime/src/main/java/com4j/ComThreadMulti.java:133-136 | in no run without `kill` is anybody stranded |
| ComThreadFairness.EveryCallReturnsOrIsStranded | runtime/src/main/java/com4j/ComThreadMulti.java:163-252 | in every infinite run that is fair to the thread and to the callers inside, and in which every `call()` ends, each call of `execute` returns or is stranded by `kill` |
| ComThreadFairness.EveryCallReturns | runtime/src/main/java/com4j/ComThreadMulti.java:163-252 | in every such run without `kill`, each call of `execute` returns |
| ComThreadHistory.SubmittedAsAppended | runtime/src/main/java/com4j/ComThreadMulti.java:222-226 | in every run, the submissions are the Tasks their callers entered with last, in the order of the `add` actions |
| ComThreadHistory.RanAsEnded | runtime/src/main/java/com4j/Task.java:61-70 | the executions have the outcomes with which the `call()` actions ended, in order |
| ComThreadHistory.LeavesWithOwnOutcome | runtime/src/main/java/com4j/ComThreadMulti.java:222-252 | in every run, whoever left took away the outcome of the execution of a submission that it had appended itself |
| ComThreadHistory.ObjectsAsLabelled | runtime/src/main/java/com4j/Wrapper.java:234-254 | in every run, a wrapper is reachable until dropped, in the reference queue from being enqueued until polled, and its pointer is released exactly if it was disposed, polled or clobbered, at once in each case |
| ComThreadHistory.LeavesLoopIff | runtime/src/main/java/com4j/ComThreadMulti.java:133-166 | in every reachable state the next step leaves the loop exactly if the thread was killed, at the head of it, or if, on asking, every wrapper ever created has been handed back and polled; it asks exactly if the peer has died and nobody killed the thread |
| ComThreadHistory.CollectsBetweenTasks | runtime/src/main/java/com4j/ComThreadMulti.java:172-183 | between two Tasks garbage is collected until nothing is left |
| ComThreadHistory.MayEnter | runtime/src/main/java/com4j/ComThreadMulti.java:222-224 | in every reachable state, whoever is outside can enter with each Task of its own, the living peer or anybody through a wrapper created and not dropped |
| ComThreadLife.DiesIff | runtime/src/main/java/com4j/ComThreadMulti.java:133-201 | in every fair infinite run without `kill`, the thread ends if and only if at some moment the peer is dead and every wrapper created so far has been handed back |
| ComThreadLife.EndsByItself | runtime/src/main/java/com4j/ComThreadMulti.java:133-201 | it ends if the peer dies, wrappers are created up to some time only, and each is handed back some time |
| ComThreadLife.EndsWhenLeftAlone | runtime/src/main/java/com4j/ComThreadMulti.java:133-201 | the same if from some time on nobody is inside `execute` |
| ComThreadLife.ShortLife | runtime/src/main/java/com4j/ComThreadMulti.java:163-201 | there is such a run: the peer dies at once and the thread with it |
| ComThreadEndless.ForeverAlive | runtime/src/main/java/com4j/ComThreadMulti.java:133-166 | there is a fair infinite run without `kill` in which the peer dies, everybody is outside again and again and every wrapper is handed back, and the thread never leaves its loop |
| ComThreadCleanup.NativePointerPhantomReference.ReleaseNative | runtime/src/main/java/com4j/NativePointerPhantomReference.java:20-25 | releases an owned pointer once and afterwards nothing |
| ComThreadCleanup.ComThreadMulti.Wrap | runtime/src/main/java/com4j/Wrapper.java:81-95 | a null pointer is refused; any other is owned by a new reference that is registered with the thread |
| ComThreadCleanup.ComThreadMulti.CollectGarbage | runtime/src/main/java/com4j/ComThreadMulti.java:205-213 | exactly the queued references are unregistered, and each no longer owns a pointer; the others are untouched |
| ComThreadCleanup.ComThreadMulti.ReleaseEverything | runtime/src/main/java/com4j/ComThreadMulti.java:186-194 | at the end everything registered or queued has been released exactly once |
| SafeArraySpec.SizeIsProduct | native/safearray.h:207-212 | the elements visited row by row are as many as the product of the bounds |
| SafeArraySpec.FoundBounds | native/safearray.h:247-274 | for a rectangular array the bounds found along first elements describe it, and are all its extents when none is zero |
| SafeArraySpec.NestFlat | native/safearray.h:120-142 | rebuilding the flattened array gives it back, any depth and any extents |
| SafeArraySpec.RoundTripIffRectangular | native/safearray.h:120-142 | that round trip holds exactly for rectangular arrays |
| SafeArraySpec.FlatNest | native/safearray.h:225-244 | flattening a rebuilt array gives the data back |
| SafeArraySpec.OffsetInRange | native/safearray.h:225-244 | indices in range have offsets below the product of the bounds |
| SafeArraySpec.IndexFormula | native/safearray.h:225-244 | the element at indices i_{n-1}, ..., i_0 is at offset sum of i_k times the product of the bounds below k |
| SafeArraySpec.OffsetInjective | native/safearray.h:225-244 | distinct index tuples have distinct offsets |
| SafeArrayMarshaller.ToNative.GetArrayDimension | native/safearray.h:247-259 | the dimension found is the number of bounds along first elements |
| SafeArrayMarshaller.ToNative.FillBounds | native/safearray.h:262-274 | bounds are filled from the outermost, in reverse, with lower bound zero |
| SafeArrayMarshaller.ToNative.ToNativeRec | native/safearray.h:225-244 | writes the converted elements of one sub-array at the cursor, moves it by exactly their number, changes nothing before or behind them and stays in the buffer |
| SafeArrayMarshaller.ToNative.GetNative | native/safearray.h:219-222 | the data is the converted flattening and the cursor ends at its length |
| SafeArrayMarshaller.ToJava.FillDimSizes | native/safearray.h:144-152 | sizes are the bound counts, never negative |
| SafeArrayMarshaller.ToJava.ToJavaRec | native/safearray.h:120-142 | reads one sub-array at the shared cursor and moves it by exactly its size |
| SafeArrayMarshaller.ToJava.GetJava | native/safearray.h:114-116 | the result is the nested form of the whole data, and the cursor ends behind the last element |
| SafeArrayMarshaller.ThereAndBack | native/safearray.h:114-244 | both marshallers in sequence give back every rectangular array, for inverse transducers |
| SafeArrayMarshaller.ElementsKeepTheirIndices | native/safearray.h:199-244 | every native element is the converted Java element of the same indices, and the data has the length of the product of the bounds |
| Bits.OrTruncates | libffi/include/ffi_common.h:72 | a word of any width computes the or of two integers modulo its size |
| FfiAlign.AlignIsLeastMultiple | libffi/include/ffi_common.h:72 | for a power of two, ALIGN is the least multiple at or above the value, zero included |
| FfiAlign.AlignIsRoundUp | libffi/include/ffi_common.h:72 | ALIGN equals an independent recursive definition of rounding up; alignment zero gives zero |
| FfiAlign.InWord | libffi/include/ffi_common.h:72 | ALIGN on machine words, with wrapping operands, is ALIGN modulo the word |
| FfiAlign.WordAlignIsLeastMultiple | libffi/include/ffi_common.h:72 | on machine words it is the least multiple whenever that fits |
| FfiAlign.MaskedIsRoundUp | libffi/src/x86/ffi.c:137 | adding `a - 1` and masking rounds up to the same value |
| FfiLayout.StructureIsCLayout | libffi/src/prep_cif.c:48-72 | the computed layout aligns every field, keeps fields disjoint and in order, and pads to the strictest alignment |
| FfiLayout.StructureIsLeast | libffi/src/prep_cif.c:48-72 | no layout of the same fields in the same order has a smaller offset, size or alignment |
| FfiLayout.FfiType.LeastLayout | libffi/src/prep_cif.c:36-78 | the layout of an aggregate is the least C layout of the layouts of its elements, over a whole type graph with sharing, whatever has a size in it already |
| FfiLayout.FfiType.FailsIffEmpty | libffi/src/prep_cif.c:74-77 | a type graph is rejected exactly when an aggregate to be laid out is empty |
| FfiLayout.FfiType.CountElement | libffi/src/prep_cif.c:56-60 | one turn of the loop extends the layout by one element |
| FfiLayout.InitializeAggregate | libffi/src/prep_cif.c:36-78 | the walk terminates, succeeds exactly when a layout exists, stores it, and leaves every other descriptor untouched or laid out; a failure leaves the elements counted so far in each aggregate on the way to the empty one, and nothing else |
| FfiLayout.Prepare | libffi/src/prep_cif.c:105-131 | on descriptors in any state, one is accepted exactly if it stands for a layout with the sizes found; each descriptor is then as it was or laid out, and after a rejection only those without a layout are abandoned |
| FfiLayout.RejectedThenAccepted | libffi/src/prep_cif.c:48-51 | a rejected aggregate whose first element has a layout is accepted when prepared again |
| FfiLayout.FfiType.StaysDoomedIff | libffi/src/prep_cif.c:48-51 | preparing anything, with success or not, changes for no descriptor whether its first elements lead to an empty aggregate |
| FfiLayout.FfiType.FailureClimbs | libffi/src/prep_cif.c:48-60 | a failed walk that does not end there leaves fewer first elements without a size |
| FfiLayout.PrepareRepeatedly | libffi/src/prep_cif.c:105-131 | prepared over and over, a descriptor is rejected every time if and only if its first elements lead to an empty aggregate; otherwise it is accepted after at most as many rejections as it has first elements without a size |
| FfiLayout.NestedRejected | libffi/src/prep_cif.c:48-51 | a struct of a struct of an int and an empty struct is rejected at first and then accepted with size 4 |
| FfiFrame.ReturnFlag | libffi/src/x86/ffi.c:150-228 | the flag is STRUCT exactly for structs that do not travel in registers on that target |
| FfiFrame.NothingToAlign | libffi/src/prep_cif.c:147-151 | skipping ALIGN when the low bits are clear changes nothing |
| FfiFrame.PrepCif | libffi/src/prep_cif.c:88-160 | on descriptors in any state, fails exactly when a type has no layout; else the byte count is the reservation for the laid out types |
| FfiFrame.ReservationDominates | libffi/src/x86/ffi.c:43-144 | the writer's position never passes the reservation for the same arguments, whatever the alignments |
| FfiFrame.SlotFits | libffi/src/x86/ffi.c:43-144 | every slot ends inside the reserved bytes |
| FfiFrame.NothingSpareIff | libffi/src/prep_cif.c:147-151 | the reservation is as long as the slots exactly if every slot has the alignment of its type |
| FfiFrame.SlotsInOrder | libffi/src/x86/ffi.c:65-141 | slots are disjoint and in order |
| FfiFrame.PromotionKeepsValue | libffi/src/x86/ffi.c:94-130 | a promoted integer has the value of the argument, signed or unsigned |
| FfiFrame.SignedWidens | libffi/src/x86/ffi.c:99-116 | storing a signed value in more bytes appends copies of its sign to its own bytes |
| FfiFrame.UnsignedWidens | libffi/src/x86/ffi.c:99-116 | storing an unsigned one appends zeros |
| FfiFrame.ReadsBack | libffi/src/x86/ffi.c:94-130 | the slot of a short integer, read by the callee as a word, has the value the argument has in memory |
| FfiFrame.NextSlot | libffi/src/x86/ffi.c:72-139 | an unaligned end of one argument still rounds up to the next slot |
| FfiFrame.PrepArg | libffi/src/x86/ffi.c:94-134 | byte k of the slot is byte k of the storage for an argument of a word or more and for a short struct, a short integer is its bytes widened to a word by zeros or its sign, and nothing outside the slot changes |
| FfiFrame.PrepArgs | libffi/src/x86/ffi.c:43-144 | in a frame of exactly the reserved size nothing is written outside it, the hidden pointer comes first exactly for a struct not returned in registers, and the arguments follow one after the other, each with the bytes of its storage |
| FfiFrame.BuildFrame | libffi/src/x86/ffi.c:43-144 | reserving and writing in sequence: for every argument list whose types can be laid out, the reserved frame holds the hidden pointer and, word after word, the bytes of every argument as they are in memory, short integers widened |
| FfiFrameWin64.PrepCifMachdep | libffi/src/x86/ffi.c:147-251 | room for the hidden pointer, every argument and the register home area is added to the byte count |
| FfiFrameWin64.SlotsFit | libffi/src/x86/ffi.c:234-247 | one word per argument fits into what was reserved, the home area on top |
| FfiFrameWin64.PrepArg | libffi/src/x86/ffi.c:76-137 | one argument takes one word: an address, or its bytes as they are in memory, a short integer widened |
| FfiFrameWin64.PrepArgs | libffi/src/x86/ffi.c:43-144 | argument i is in slot 8 i, shifted by the hidden pointer, and the bytes beyond the slots stay untouched |
| FfiFrameWin64.CopyStructs | libffi/src/x86/ffi.c:304-317 | structs and long doubles by reference get fresh copies of equal content, distinct from each other; all other arguments keep their address |
| FfiFrameWin64.FfiCall | libffi/src/x86/ffi.c:267-321 | the frame of a call begins with a hidden pointer exactly for a returned struct of other than 1, 2, 4 or 8 bytes, has the bytes of every argument in its word, or the address of a copy of equal content where it travels by reference, and leaves the home area free |
| FfiReturn.Store64 | libffi/src/x86/win64.asm64:76-178 | the bytes stored for each number of a flag, everything behind them untouched |
| FfiReturn.Store32 | libffi/src/x86/win32.asm:89-136 | the same for Win32 |
| FfiReturn.DeliveredIff64 | libffi/src/x86/win64.asm64:16-178 | flag and assembly code together put every result of that type whole into the storage, integers widened to 8 bytes, and change nothing behind it, if and only if it is no struct of 1 or 4 bytes and no long double |
| FfiReturn.DeliveredIff32 | libffi/src/x86/win32.asm:89-136 | on Win32 if and only if it is no double, no long double and no struct of 1 or 2 bytes |
| FfiReturn.IntegerReadsBack | libffi/src/x86/win64.asm64:100-150 | an integer result read as a word of 8 bytes has the value it had in its own bytes of the register |
| FfiReturn.ReturnFrom64 | libffi/src/x86/ffi.c:150-228 | the end of a call on Win64: the result is delivered unless it is one of those |
| FfiReturn.ReturnFrom32 | libffi/src/x86/ffi.c:150-228 | the same on Win32 |
| FfiReturn.FlagsOffWindows | libffi/src/x86/ffi.c:150-228 | off Windows the flags are those of Win32, but that short integers and all structs keep their type |
| MethodBinder.GetReturnParam | tlbimp/src/main/java/com4j/tlbimp/MethodBinder.java:83-105 | the first retval parameter, else the only out-only one, else none |
| MethodBinder.Declare | tlbimp/src/main/java/com4j/tlbimp/MethodBinder.java:107-124 | as many overloads with defaults as there are optional parameters, in their order; number k omits exactly the optional parameters from the k-th on; then one without defaults, which is the only one when overloads are switched off |
| MethodBinder.OneOverloadEach | tlbimp/src/main/java/com4j/tlbimp/MethodBinder.java:114-121 | for every optional parameter exactly one overload omits it and every optional one after it and nothing before it |
| MethodBinder.OverloadsOmitLast | tlbimp/src/main/java/com4j/tlbimp/MethodBinder.java:114-121 | every overload omits the last optional parameter and only optional ones |
| MethodBinder.DeclareWithDefaults | tlbimp/src/main/java/com4j/tlbimp/MethodBinder.java:344-482 | index maps, return annotation and Java parameters of a declaration |
| MethodBinder.MappingCompacts | tlbimp/src/main/java/com4j/tlbimp/MethodBinder.java:364-388 | the map, which lists the return parameter too, sends each visible parameter to its compacted place if nothing from the return parameter on is omitted |
| CallAssembly.Spread | runtime/src/main/java/com4j/Wrapper.java:171-185 | each place gets the last default for it, else the last argument for it, else nothing; expansion fails exactly when an index is out of bounds |
| CallAssembly.CreateComMethod | runtime/src/main/java/com4j/ComMethod.java:75-156 | conversions are spread like arguments, and the return index is the annotated one or one past the Java parameters |
| CallAssembly.ExpandArguments | runtime/src/main/java/com4j/Wrapper.java:169-185 | the arguments of a call spread by the maps of its declaration |
| CallAssembly.FillSlots | native/invoke.cpp:116-529 | the loop ends for every return index, also after an HRESULT step back; it fails exactly on a bad conversion or an in/out return not by reference; slots 0 to the argument count are each filled once, in order, with the return slot inserted at the return index |
| CallAssembly.SpreadPlaces | runtime/src/main/java/com4j/Wrapper.java:171-185 | every parameter ends up at its place in the compacted list |
| CallAssembly.SlotsAreIdeal | native/invoke.cpp:116-197 | generator maps, expansion and slot loop together send COM parameter i to slot i + 1 |
| CallAssembly.MisplacedDefault | native/invoke.cpp:116-200 | a default at or after the hidden return parameter lands one slot too far |
| CallAssembly.ReturnIndexIsHidden | runtime/src/main/java/com4j/ComMethod.java:95-117 | what the run-time takes for the return index is the returned parameter, except for an in/out one in last place without defaults |
| CallAssembly.Assemble | tlbimp/src/main/java/com4j/tlbimp/MethodBinder.java:344-594 | for every parameter list and every set of defaults, each parameter and its conversion reach their slot if and only if no default is used at or after the hidden return parameter |
| CallAssembly.OverloadsAllOrNone | tlbimp/src/main/java/com4j/tlbimp/MethodBinder.java:107-124 | the overloads of one method are all right or all wrong |
| TypeLibCache.KeysAreUnique | native/typelib.h:725-767 | no two live wrappers share a key |
| TypeLibCache.TypeLibraries.Get | native/typelib.h:739-754 | the live wrapper of a library with one more reference, or a new registered one |
| TypeLibCache.TypeLibraries.GetChild | native/typelib.h:756-767 | the live wrapper of a type, or a new one that is registered and counts on its library |
| TypeLibCache.TypeLibraries.DestroyLib | native/typelib.h:725-730 | the destructor finds the library registered and without children, and unregisters it |
| TypeLibCache.TypeLibraries.ReleaseLib | native/typelib.h:725-730 | a release by a holder takes one reference; the library goes exactly with the last |
| TypeLibCache.TypeLibraries.DestroyDecl | native/typelib.cpp:139-147 | the destructor of a type wrapper finds its parent alive and its own entry there |
| TypeLibCache.TypeLibraries.ReleaseDecl | native/typelib.cpp:139-147 | the last release of a type wrapper also releases its library, which may go with it |
| TypeLibCache.TypeLibraries.GetParent | native/typelib.cpp:159-163 | the library of a live type wrapper is alive and gains a reference |
| TypeLibCache.TypeLibraries.GetRef | native/typelib.cpp:6-18 | the wrapper of a referenced type gains a reference; of its library, one reference is lost and nothing else changes |
| TypeLibCache.Step | native/typelib.h:725-767 | every operation of a client that uses only what it was handed keeps the maps equal to the live wrappers and keeps libraries with a lost reference; the counts change by what it is handed or gives back |
| TypeLibCache.Run | native/typelib.h:725-767 | in every run from the empty cache the counts are what clients were handed less what they gave back; a library in which `getRef` found a type stays; with everything given back only those are left |
| TypeLibCache.LeftBehind | native/typelib.cpp:6-18 | when clients have given back all they were handed, no type wrapper is left, and exactly the libraries in which `getRef` found a type, with one reference for each time it did |
| ThunkPool.ThunksFitIffSizeDivides | native/thunkPool.h:71-83 | the thunks made for a page fit it exactly when their size divides it, and are then page size over thunk size many |
| ThunkPool.PageOf4096 | native/thunkPool.h:71-83 | thunks of 32 bytes fill a page of 4096; of 40 bytes, 103 are made and end 24 bytes behind it |
| ThunkPool.MemoryBlock.constructor | native/thunkPool.h:71-83 | a new page has all its thunks on the free list |
| ThunkPool.MemoryBlock.Reclaim | native/thunkPool.h:56-60 | puts a thunk on top of the free list |
| ThunkPool.MemoryBlock.Allocate | native/thunkPool.h:93-97 | hands out the top of the free list, or nothing when it is empty |
| ThunkPool.MemoryBlock.WriteCode | native/thunkPool.h:36-45 | code written over the list words of an allocated thunk does not disturb the free list |
| ThunkPool.ThunkPool.Allocate | native/thunkPool.h:110-127 | serves from the first block with a free thunk, else from a new block in front, and takes exactly one thunk |
| ThunkPool.RegionsDisjoint | native/thunkPool.h:71-83 | if the size divides the page, every thunk handed out lies in its page and different ones do not overlap |
| ThunkPool.AllocateNext | native/thunkPool.h:110-127 | an allocation returns none of the thunks handed out before and takes none back |
| ThunkPool.Serve | native/thunkPool.h:110-127 | over any run of allocations no thunk is handed out twice |
| Guid.MasksAsWritten | runtime/src/main/java/com4j/GUID.java:86-100 | the field masks are the constants of the source, as signed longs |
| Guid.ToHex | runtime/src/main/java/com4j/GUID.java:107-111 | appends the last digits of a number, most significant first |
| Guid.ToString | runtime/src/main/java/com4j/GUID.java:83-103 | appends the fields of both longs between braces and dashes |
| Guid.DigitsOfHex | runtime/src/main/java/com4j/GUID.java:51-53 | parsing printed digits gives the printed bits |
| Guid.HexOfDigits | runtime/src/main/java/com4j/GUID.java:107-111 | printing parsed digits gives them in upper case |
| GuidText.TextShows | runtime/src/main/java/com4j/GUID.java:83-103 | a text made of fields has each at the position where the parser looks |
| GuidText.ShownIsText | runtime/src/main/java/com4j/GUID.java:38-48 | a punctuated text is determined by the fields at those positions |
| Guid.JoinRebuilds | runtime/src/main/java/com4j/GUID.java:40-48 | or-ing the shifted fields of a long gives the long, negative ones included |
| Guid.JoinSplits | runtime/src/main/java/com4j/GUID.java:40-48 | fields in range come out of the or-ed long as they went in |
| Guid.PrintThenParse | runtime/src/main/java/com4j/GUID.java:29-103 | printing any 128 bits and parsing the text gives them back |
| Guid.ParseThenPrint | runtime/src/main/java/com4j/GUID.java:29-103 | a well-formed text, with or without braces, prints as its upper-case braced form |
| Guid.PrintsAsWrittenIffWellFormed | runtime/src/main/java/com4j/GUID.java:29-53 | of the texts the parser accepts, exactly the well-formed ones print as written |
| Guid.PrintsCapitals | runtime/src/main/java/com4j/GUID.java:105-111 | the printed form has its letters in capitals |
| Guid.ParsesAlike | runtime/src/main/java/com4j/GUID.java:29-53 | small and capital letters parse alike, and so do a text of 36 characters and the same in braces; no other length is accepted |
| CancellableWriter.CancellableWriter.Mark | tlbimp/src/main/java/com4j/tlbimp/IndentingWriter.java:227-230 | a mark inside a region commits it first |
| CancellableWriter.CancellableWriter.Cancel | tlbimp/src/main/java/com4j/tlbimp/IndentingWriter.java:235-239 | drops the region; refused outside one |
| CancellableWriter.CancellableWriter.Commit | tlbimp/src/main/java/com4j/tlbimp/IndentingWriter.java:244-249 | sends the region once; refused outside one |
| CancellableWriter.CancellableWriter.Close | tlbimp/src/main/java/com4j/tlbimp/IndentingWriter.java:281-285 | sends an open region before closing |
| CancellableWriter.Run | tlbimp/src/main/java/com4j/tlbimp/IndentingWriter.java:215-286 | for every sequence of operations the sink receives the writes outside cancelled regions, in program order |
| CancellableWriter.ClosedIsComplete | tlbimp/src/main/java/com4j/tlbimp/IndentingWriter.java:281-285 | text buffered before a run that ends with a close is kept unless a cancel comes first |
| CancellableWriter.SentAre | tlbimp/src/main/java/com4j/tlbimp/IndentingWriter.java:215-286 | what the sink receives are the texts, in program order, of exactly those writes before any close that are outside a region or whose region is let through by the next operation other than a write |
| InterfaceGenerator.IndentingWriter.Perform | tlbimp/src/main/java/com4j/tlbimp/IndentingWriter.java:76-204 | each call appends the text, with indentation and commas, that the layout state determines |
| InterfaceGenerator.ListIsSeparated | tlbimp/src/main/java/com4j/tlbimp/IndentingWriter.java:129-153 | a list of tokens comes out with commas between them and none around, whatever was printed before: a comma after it is due if it was due before or the list has a token |
| InterfaceGenerator.CommentIsStarred | tlbimp/src/main/java/com4j/tlbimp/IndentingWriter.java:157-175 | a comment is indented like what follows, its text behind an asterisk |
| InterfaceGenerator.GenerateMember | tlbimp/src/main/java/com4j/tlbimp/InterfaceGenerator.java:92-100 | a member's text appears whole or not at all |
| InterfaceGenerator.Generate | tlbimp/src/main/java/com4j/tlbimp/InterfaceGenerator.java:83-115 | a member comes out if and only if it does not fail and, if it is a put, no put before it has its name; the sink receives the texts of exactly these, in increasing order, each whole and laid out as the members before it, failed ones too, left the writer |
| InterfaceGenerator.ComesOutIff | tlbimp/src/main/java/com4j/tlbimp/InterfaceGenerator.java:88-100 | that condition for the output of every list of members |
| InterfaceGenerator.OutputIsWhole | tlbimp/src/main/java/com4j/tlbimp/InterfaceGenerator.java:92-100 | each piece of it is the text of one whole member, laid out as the members before it left the writer |
| InterfaceGenerator.CancelUnnoticedIffRestored | tlbimp/src/main/java/com4j/tlbimp/IndentingWriter.java:63-65 | a cancelled member goes unnoticed by all later text exactly if it restored the layout |
| InterfaceGenerator.FailuresLeaveNoTrace | tlbimp/src/main/java/com4j/tlbimp/InterfaceGenerator.java:83-115 | if failed members restore the layout, the output is as if they had not been there |
| InterfaceGenerator.IndentationLeaks | tlbimp/src/main/java/com4j/tlbimp/MethodBinder.java:457-478 | a member that fails between `in` and `out` shifts the next one |
| InterfaceGenerator.PutComesOutIff | tlbimp/src/main/java/com4j/tlbimp/InterfaceGenerator.java:83-91 | for every list of members, of the puts of one name at most the first comes out, and one does if and only if the first does not fail |
| InterfaceGenerator.LostSetter | tlbimp/src/main/java/com4j/tlbimp/InterfaceGenerator.java:88-91 | after a failed property put no put and no propputref of that name comes out |
| Walk.EndsIffNeverRevisits | tlbimp/src/main/java/com4j/tlbimp/InvocableInterfaceGenerator.java:106-144 | a walk along determined hops ends if and only if it comes to no place twice |
| DefaultChain.GetDefaultMethod | tlbimp/src/main/java/com4j/tlbimp/DefaultMethodFinder.java:27-35 | the first own method with dispatch id 0, if there is one |
| DefaultChain.HopIs | tlbimp/src/main/java/com4j/tlbimp/InvocableInterfaceGenerator.java:106-144 | the walk goes on exactly from a simple method whose result points to an interface, to the first of its own methods with dispatch id 0 |
| DefaultChain.EndsIffNoMethodTwice | tlbimp/src/main/java/com4j/tlbimp/InvocableInterfaceGenerator.java:106-144 | the loop of the generator ends if and only if it comes to no method twice, whatever else is in the library |
| DefaultChain.ChainIsUnique | tlbimp/src/main/java/com4j/tlbimp/InvocableInterfaceGenerator.java:106-144 | a method has at most one full chain |
| DefaultChain.GenerateFacade | tlbimp/src/main/java/com4j/tlbimp/InvocableInterfaceGenerator.java:102-166 | a shortcut is declared exactly when the chain has a hop, stops at a method of two or more parameters and returns a value; it names the interfaces passed through in order |
| DefaultedComMethod.FindDefaultMethod | runtime/src/main/java/com4j/DefaultedComMethod.java:42-48 | the first annotated declaration in the order found |
| DefaultedComMethod.Resolve | runtime/src/main/java/com4j/DefaultedComMethod.java:22-40 | fails exactly if an interface has no annotated member; else the vtable indices are those of the shortcut and of the first annotated members, the last of which is called with arguments |
| DefaultedComMethod.SameChainIffUnambiguous | runtime/src/main/java/com4j/DefaultedComMethod.java:22-48 | run-time and generator have the same chain for every order of the members, inherited ones and overloads included, if and only if each interface passed through has an annotated member and all of them have the vtable index found by the generator, and the last is its full declaration |
| DefaultedComMethod.SetterForGetter | tlbimp/src/main/java/com4j/tlbimp/MethodBinder.java:350-352 | for a readable and writable default property the run-time may take the setter |
| DefaultedComMethod.GenerateAndResolve | runtime/src/main/java/com4j/DefaultedComMethod.java:22-40 | from any method whose chain comes to no method twice: a shortcut declared on an unambiguous chain resolves to the vtable indices the generator found and to its last method |
| DefaultedComMethod.Invoke | runtime/src/main/java/com4j/DefaultedComMethod.java:50-66 | the default properties are called in the order of their indices, the first on the pointer and each later one on what the call before returned, up to one that throws; the call with arguments goes to what the last returned; every object is alive when called; success leaves all counts as they were, an exception exactly one reference too many on the object reached |
| DefaultedComMethod.CallShortcut | runtime/src/main/java/com4j/DefaultedComMethod.java:22-66 | generator, look-up and call in sequence: on an unambiguous chain the calls made are those of the methods the generator found, in the order it found them, each on what the one before returned, and the last full declaration gets the arguments |
| DefaultInterface.SomethingRemains | tlbimp/src/main/java/com4j/tlbimp/Generator.java:213-222 | with an acyclic base relation a candidate nothing derives from exists and is never removed |
| DefaultInterface.LastStep | tlbimp/src/main/java/com4j/tlbimp/Generator.java:213-222 | an interface derives from another if and only if the other is a direct base of it or of one it derives from |
| DefaultInterface.LeftBehindGap | tlbimp/src/main/java/com4j/tlbimp/Generator.java:213-222 | a candidate that only interfaces between it and the candidates have as direct base stays in although a candidate derives from it |
| DefaultInterface.RemainingAreMostDerivedIff | tlbimp/src/main/java/com4j/tlbimp/Generator.java:213-222 | what is left are the candidates none derives from if and only if there is no such gap: no interface outside the candidates, below which one of them derives, with a direct base that is a candidate and no direct base of one |
| DefaultInterface.GrandparentRemains | tlbimp/src/main/java/com4j/tlbimp/Generator.java:215-222 | a base two steps up is left when the interface between is no candidate |
| DefaultInterface.GetDefaultInterface | tlbimp/src/main/java/com4j/tlbimp/Generator.java:181-223 | the first usable default interface, as its custom interface if it has one and else as a dispatch interface; else a candidate that is a direct base of none, which exists if there is a candidate and is most derived if there is no gap |

## Left out

- Win32, COM and JNI calls are abstract steps or parameters; the message pump, the
  registry and `VariantChangeType` are not modelled.
- Of the assembly (`ffi_call_SYSV`, `ffi_call_STDCALL`, `ffi_call_win64`) only what it
  does with the result is modelled, not the jump; nor the check of `win32.asm` for
  storage that is not there. `sysv.S`, for systems other than Windows, is not part of this model.
- FfiReturn.DeliveredIff64: a long double is taken to be returned like a double, as the
  compilers for Windows that com4j is built with do.
- Buffer ownership inside `Environment::invoke` on error, in/out and BSTR paths;
  the conversion of an argument is represented by whether it succeeds and leaves an unmarshaller.
- `variant.cpp`, `NativeType`, `TypeBinding.bind`, `defaultConversions`: tables and
  dispatch over opaque objects; date conversion depends on the time zone.
- ComThreadSingle, ComObjectCollector, JComObject, CallbackBuilder and SafeArray.java.
- The Maven mojo, samples, javadoc text and libffi's own programs.
- ComThreadRuns.NaturalExitLeavesNobody: `EventProxy.close` and interrupts of a
  waiting caller are outside; each Task has one owner, and the thunk a wrapper
  shares between calls is not modelled as shared. A caller keeps the wrapper it
  calls through reachable until it returns.
- ComThreadProgress.EveryCallCanReturn: the Win32 event with its timeout only makes
  the thread wake earlier, so waking is an action that is always possible.
- ComThreadFairness.EveryCallReturns: fairness is an assumption on the scheduler and on
  monitors, strong for the COM thread and weak for each caller; that `call()` ends is part of it.
- ComThreadLife.EndsByItself: when the garbage collector hands a reference back is up to
  it; that it does is an assumption here.
- ComThreadCleanup.ComThreadMulti.CollectGarbage: the garbage collector enqueues
  between calls here; its interleaving with the loop is covered by the transition system.
- SafeArrayMarshaller.ToNative.GetNative: null elements along the path used for the
  dimensions, and array stores of the wrong type, are not modelled; counts are unbounded integers.
- FfiLayout.InitializeAggregate: element lists form no cycle; sizes are unbounded integers, so overflow of `size_t`
  and of the 16-bit alignment field is not modelled; `InWord` says what ALIGN does when it wraps.
- FfiFrame.BuildFrame: the storage that `ffi_call` allocates when the caller passes none
  for a struct is not modelled on 32 bits; the pointer is passed as it is.
- FfiFrame.PrepArgs: the macro `FFI_ASSERT(0)` on a short type without a case leaves the
  slot unwritten; the storage of a short struct is required to be a whole word, which is what is read.
- FfiFrameWin64.FfiCall: the size of the buffer for a returned struct is not modelled,
  only its fresh address.
- MethodBinder.DeclareWithDefaults: string literals of defaults, Java type names,
  `@MarshalAs`, enumerators and return values bound to Java `void` are left out.
- CallAssembly.FillSlots: a slot is one value with its conversion code, not the two
  arrays of types and addresses that the loop fills side by side.
- TypeLibCache.Run: addresses of freed wrappers may be given out again, but the keys
  (`ITypeLib*`, `ITypeInfo*`) are values; one thread only, as in the source.
- ThunkPool.ThunkPool.Allocate: `free` only asserts and never returns a thunk, so
  nothing is said about reuse; failure of VirtualAlloc is not modelled.
- Guid.PrintsAsWrittenIffWellFormed: digits outside ASCII, which `Long.parseLong`
  accepts, are rejected here; `equals` and `hashCode` are left out.
- InterfaceGenerator.Generate: the header, `generateExtends` and the property loop,
  which has the same shape without the name check, are left out; generation of a member
  is the list of calls it makes and whether it throws.
- InterfaceGenerator.CancelUnnoticedIffRestored: comma modes left open by a cancelled
  member do not show in what balanced members print and are not part of the comparison.
- DefaultedComMethod.Resolve: a declaration that a more derived one hides by having the same
  signature is still listed; which declarations came out is part of the input.
- DefaultChain.GenerateFacade: the generator's cache by GUID is a plain lookup, and a
  type that cannot be bound on the way, which ends the member, is not modelled.
- DefaultInterface.GetDefaultInterface: identity of interface wrappers is equality of
  numbers; an interface type that is neither custom nor dispatch counts as unusable.
