# Verified model of LunaHook and LunaHost

LunaHook injects hooks into a running game and sends the text they catch to LunaHost. This project
models the parts of both where a mistake is easy to make and hard to see, and proves what they do:

- **Hook codes** (`MachineTypes`, `Numerals`, `HookParams`, `HookCode*`): the text form of a hook descriptor. The
  printer and the parser are written as the source writes them, as methods that consume and append,
  and each is proved equal to a function. The main theorem says for which descriptors parsing the
  printed code gives the descriptor back: exactly the canonical ones, for every descriptor the C++
  structure can hold. Codes with their digits in lower case, as people type them, and codes that the engine
  sources give for known games are covered as well.
- **The breakpoint hook manager** (`VehModel`, `VehRuns`, `VehHooks`): a doubly linked list on the heap
  and bytes patched in place, refining a state machine about which runs are proved to lose no byte.
- **The text pipeline** (`TextThread*`): pairing of lead bytes, buffering, repetition removal,
  queueing, delivery and bounded history of one text thread, and flushes that run beside its pushes; when text
  is queued and delivered, and what of the bytes pushed arrives.
- **The call stub** (`X86`, `ShellCode*`): the generator of 32-bit machine code, and the runs of the code
  it generates on a machine with the instructions the stub uses.
- **The hook search** (`Bits`, `HookFinder*`): which texts count as seen, lock-free drawing of record indices under every interleaving of
  `DoSend` calls, the gate in front of them, the same code run alone on real arrays, and the codes of what it finds.
- **The thread registry** (`ThreadRegistry`), **the Cotopha filter** (`Cotopha`), **the LRU duplicate
  filter** (`LruCache`), **splitting and replacing** (`StringUtils`) and **line wrapping** (`Division`, `TextWidth`).

Every file holds one module. Files named `...Model` hold the functions a state machine is made of, files
named `...Runs` what all its runs keep. Run `dafny verify dfyconfig.toml` to check everything.

## How the C++ is read

- The build is 64-bit; `int` and `long` are 32 bits wide and wrap where the model says so
  (`Signed32`), and pointers are numbers. Bitwise or is a function on numbers (`Bits.Or`).
- A `wchar_t` is a Dafny `char`; surrogates, which Dafny's characters leave out, have no counterpart.
  `iswspace` is the set of Unicode blanks and line breaks. Regular expressions follow the ECMAScript
  grammar that `std::wregex` uses, in which `.` does not match a line break.
- `HookParam::type` is the set of its flags. An exception of `std::stoi` or `std::stoull` that
  `Parse` does not catch is the outcome `Raised`, and a `strcpy` past the end of a buffer is `Overrun`.
- What the operating system says about the address of a hook is a parameter of the printer (`Mapping`);
  `Generate` alone is the printer with nothing to ask, as for process id 0.
- Page protection, the answers of callbacks, the clock, text conversion, the lead byte test, memory
  allocation and the readability of memory are parameters, so every theorem holds whatever they do.
- A `call` pushes the address behind it, counted from the start of the stub, and the callee runs until it has
  returned there. A callee is any function of target, registers and memory. The stub makes one call, determined by
  the state at entry (`ShellCodeRuns.TheCall`); what is asked of a callee (`Honours`) is asked for that call alone: it
  keeps the callee-saved registers and the two words of the stub's frame, and may write anything else, also
  through a pointer it gets as an argument or finds in memory (`OutParamIsCalled`, `GlobalIsCalled`).
  Memory is read and written in aligned words.
- `TextThread.delivered` and `TextThread.history` are not fields of the source: they record what the
  output callback was given and what it accepted. The host sets the type of a thread's hook before
  every push, so a push carries its type. In `TextThreadModel` a flush is one step; in `TextThreadFlushes` it
  is one step for each lock it takes and each delivery, with pushes, other flushes, and the messages that the host
  queues for the console thread (`LunaHost/host.cpp:337-343`) in between.
- `VehList.nodes` and `VehList.hooks` are ghost fields; they give the list as a sequence.
- The map of the LRU cache is modelled by its domain, because its iterators always point at their own
  keys. The capacity is at least 1: with capacity 0 the source takes the last element of an empty list.
- In the thread registry each reader sends only its own process id, as the injected library does, and no
  process has the id 0 of the console thread. `RemoveThreads` gives the lock of the map back before it
  iterates over it (`LunaHost/host.cpp:60`, `include/utils.h:65-72`), so other readers create and erase threads
  during the scan. C++ gives such an iteration no meaning; the model takes it to come across every
  entry that stays in the map once, in any order.

## Where the code does less than it seems to promise

Each item names the lemma that says exactly when the code does what is expected, and one at an input where it does not.

- `HookCodeRoundTrip.RoundTrip` is an equivalence, so it also names every way to lose a descriptor:
  offsets -4 to -1 are moved, `HOOK_RETURN` is parsed and never printed, addresses from 2^63 on are printed
  with a minus sign, and names with a slash, a line break, a trailing blank or a JIT suffix do not survive.
- A hexadecimal number that starts with F behind a string codec letter is read as the letter for full
  strings. `HookCodeLeadingF.LeadingFIsMisread` says what comes back; `LeadingFIsLost` is the code "HSF@0". With
  its digits in lower case the same code is read as meant (`HookCodeAnyCase.AnyCaseRoundTrip`).
- The signature that tells two texts of a hook search apart adds two bytes as signed characters; when the sum is
  negative its sign covers the slot, so texts found in different slots are taken for the same
  (`HookFinderTexts.SignaturesTell`; `SlotsAreConfused`).
- A hook found as UTF-16 carries a codepage that its code does not print (`HookFinderCodes.FoundHookCodes`;
  `CodepageIsLost` for the default codepage 932).
- `remove_veh_hook` unlists a hook even when the page cannot be made writable, and the breakpoint stays in the
  code. `VehModel.StepKeeps` says that this is the only way to lose a byte; `VehRuns.LossyRemovalLosesAByte`.
- A single-step trap re-arms the hook that is closest in front of it, and none when no hook lies in the 16 bytes
  in front of it. `VehRuns.HitIsTransparent` says exactly when that is the hook that was hit. Two things go wrong:
  another hook is closer (`NeighbourIsRearmed`: hooks at 4 and 5), or the hooked instruction is a jump, call or
  return, whose trap comes at its target; when no hook lies just in front of the target, the exception is passed
  on and the hook stays unarmed with the trap flag set (`FarTrapDoesNothing`; `JumpLosesHook`: a jump from 4 to 100).
- A hook over a breakpoint of the program, or one whose page cannot be written, is hit again at once instead of
  being stepped over; a rejection then leaves the trap flag set. `VehRuns.StepDisciplined` has the exact condition.
- Two flushes that overlap, which a periodic timer allows, can deliver sentences in the wrong order
  (`TextThreadFlushes.OverlapReorders`); none is lost or doubled.
- Between `OnDestroy` and the erase that follows it, a thread is destroyed and still in the map
  (`ThreadRegistry.Pending`); at all other times the map holds exactly the live threads.
- The stub's jump is one byte wide, so with 17 or more arguments a null block makes it jump out of the stub
  (`ShellCodeProof.JumpReachesZeroStore`; `ShellCodeRuns.SeventeenJumpAway`), and from 32 arguments on the first
  push reads the wrong word (`PushReadsWord`); the callers use at most 6.
- On a text that ends inside a command the Cotopha filter reads on behind the text up to the end of that command, and
  past the buffer when the command does not end there either (`Cotopha.ReadsPastUnlessWellFormed`; `UnfinishedCommandOverreads`).
- `limitTextWidth` with a negative width, which is what a limit from 2^31 on becomes, changes nothing.

## Model

| member | source | states |
|---|---|---|
| HookCodeParseMethods.ConsumeHexInt | include/hookcode.cpp:141-154 | every printed number that ends where a hex number ends is read back and consumed, without a number it is 0 and nothing is consumed, and only a number outside 32 bits raises |
| HookCodeParseMethods.ParseHCode | include/hookcode.cpp:44-234 | consuming the text from the front and filling the descriptor in step by step computes the stage functions, exceptions and overrun included |
| HookCodeParseMethods.ParseECode | include/hookcode.cpp:236-262 | the embed letters in front of an H code |
| HookCodeParseMethods.ParseRCode | include/hookcode.cpp:4-42 | codec, codepage and address of a read code |
| HookCodeParseMethods.ParseHookCode | include/hookcode.cpp:435-447 | slashes and blanks are stripped and the first letter chooses the parser |
| HookCodeGenerator.GenerateHCode | include/hookcode.cpp:292-430 | appending piece by piece writes the code, with the address made relative to the module the operating system names |
| HookCodeGenerator.GenerateRCode | include/hookcode.cpp:270-290 | the read code |
| HookCodeGenerator.GenerateHookCode | include/hookcode.cpp:449-453 | read code or H code by the direct-read flag |
| HookCodeShape.ParsedShape | include/hookcode.cpp:44-262 | for every text: the flags of a parsed descriptor fit together, a field without its flag is zero, a non-PC hook has no address and no offset, PC offset and split are never -4 to -1 |
| HookCodeRoundTrip.RoundTrip | include/hookcode.cpp:435-453 | for every descriptor the structure can hold: parsing the printed code gives it back if and only if it is canonical |
| HookCodeRoundTrip.RelativeRoundTrip | include/hookcode.cpp:380-398 | with a process to ask, the descriptor relative to its module comes back if and only if that one is canonical |
| HookCodeDistance.RelativeIsDistance | include/hookcode.cpp:385-390 | the address becomes the distance from where the module lies, and the two give it back |
| HookCodeDistance.PrintsDistance | include/hookcode.cpp:385-396 | what is printed behind the at sign is that distance and the file name of the module |
| HookCodeRoundTrip.CodesAreDistinct | include/hookcode.cpp:449-453 | two different canonical descriptors never print the same code |
| HookCodeRoundTrip.SlashesAreIgnored | include/hookcode.cpp:437-439 | one slash in front and anything behind a slash at the end change no parse |
| HookCodeRoundTrip.BlanksAreIgnored | include/hookcode.cpp:440 | a blank in front of a code or behind it changes no parse |
| HookCodeRoundTrip.NamesMatch | include/hookcode.cpp:199-201 | behind an address, names are matched if and only if there are any and none holds a line break |
| HookCodeLeadingF.LeadingFIsMisread | include/hookcode.cpp:110-117 | when only a leading F is in the way, exactly which full-string hook comes back, and the one family of codes from which none does |
| HookCodeCase.ValueAlike | include/hookcode.cpp:38-40 | the value of a numeral does not depend on the case of its digits |
| HookCodeCase.VariantFull | include/hookcode.cpp:110-210 | for any text, printed or not: changing the case of hex digits in front of the names changes nothing, but for a first letter F of a string hook |
| HookCodeAnyCase.CaseChangesNothing | include/hookcode.cpp:44-234 | a printed hook code with the digits of its numbers and its address in any case parses to the same as the printed one |
| HookCodeAnyCase.AnyCaseRoundTrip | include/hookcode.cpp:110-210 | with digits in any case, but a first F only for a full-string hook, the code gives the hook back if and only if its numbers and target can be told |
| HookCodeAnyCase.ReadCaseChangesNothing | include/hookcode.cpp:38-40 | the same for the address of a read code |
| HookCodeExamples.Artemis | LunaHook/engine32/Artemis.cpp:15-31 | a documented code of characters with a split parses to the fields listed there |
| HookCodeExamples.AgesCode | LunaHook/engine64/AGES7.cpp:6-18 | a documented code with codepage, register and module parses to its hook, for every module name |
| HookCodeExamples.SilkysCode | LunaHook/engine32/Silkys.cpp:670-700 | a documented embedding code parses to its hook, for every module name |
| HookCodeExamples.LettersMean | LunaHost/GUI/Plugin/extensions/text.cpp:44-51 | each codec letter stands for the coding the help text gives it |
| VehModel.StepKeeps | LunaHook/veh_hook.cpp:13-141 | one step keeps the list well formed, and keeps memory restorable if and only if it does not unlist a hook it could not repair |
| VehRuns.MemoryIsRestorable | LunaHook/veh_hook.cpp:13-141 | from an empty list, memory with the saved bytes put back is the initial memory after every run without such a step, and an empty list has restored it |
| VehRuns.ProtectedIsLossless | LunaHook/veh_hook.cpp:43-62 | a run whose page protection calls all succeed has no such step |
| VehRuns.UnlistedIsUntouched | LunaHook/veh_hook.cpp:13-141 | an address without a hook keeps its byte and stays without one until a hook is added there |
| VehRuns.RejectionIsFinal | LunaHook/veh_hook.cpp:109-118 | a callback that answers false takes its hook out for good, with the byte put back if the page can be written and the breakpoint left behind if not |
| VehRuns.HitIsTransparent | LunaHook/veh_hook.cpp:99-130 | an accepted hit and its trap, at whatever address, leave the whole state as it was if and only if the trap comes at most 16 bytes behind the hook with no other hook closer (or the hook lies over a breakpoint and any hook is found) |
| VehRuns.StepDisciplined | LunaHook/veh_hook.cpp:88-141 | one event of a thread keeps the trap flag set exactly while one hook is unarmed, if and only if it is no hit whose byte cannot be put back, no trap that fails to re-arm, and no rejection during a restart |
| VehRuns.RunDisciplined | LunaHook/veh_hook.cpp:88-141 | throughout a run of one thread that flag discipline holds if and only if no event of the run is one of these three |
| VehRuns.ApartRearms | LunaHook/veh_hook.cpp:120-130 | with hooks more than 16 bytes apart, a trap re-arms its hook if and only if it comes at most 16 bytes behind it |
| VehHooks.VehList.Insert | LunaHook/veh_hook.cpp:166-181 | the node goes to the end of a list that stays well linked |
| VehHooks.VehList.RemoveNode | LunaHook/veh_hook.cpp:64-87 | the first node with the address goes and the others stay in order |
| VehHooks.VehList.Get | LunaHook/veh_hook.cpp:182-201 | walking the list with a shrinking range finds the hook at the smallest distance in the window, or null |
| VehHooks.HookManager.AddVehHook | LunaHook/veh_hook.cpp:13-42 | the heap changes as the model says, and the answer is true exactly for a new, writable address |
| VehHooks.HookManager.RemoveVehHook | LunaHook/veh_hook.cpp:51-62 | the heap changes as the model says, and the answer is true exactly for a listed address |
| VehHooks.HookManager.VehDispatch | LunaHook/veh_hook.cpp:88-141 | heap, memory and trap flag change as one step of the model, and the exception is handled exactly when a hook is found |
| TextThreadModel.CollapsedIs | LunaHost/textthread.cpp:6-13 | on true the result v is longer than 6, the text ends in vvv and v ends in no such triple; on false the text is unchanged and has none |
| TextThreads.RemoveRepetition | LunaHost/textthread.cpp:6-13 | the recursive search terminates with that result |
| TextThreads.TextThread.Push | LunaHost/textthread.cpp:37-85 | the whole state after a push of bytes, lead byte, filter and immediate flush included |
| TextThreads.TextThread.PushWide | LunaHost/textthread.cpp:87-93 | the text is appended |
| TextThreads.TextThread.Flush | LunaHost/textthread.cpp:95-119 | storage is trimmed, the queue delivered in order, and a long or old buffer queued |
| TextThreadRuns.RunKeepsText | LunaHost/textthread.cpp:37-119 | without the repetition filter and with each flush undisturbed, delivered, queued and buffered text together are all input in order, over every run |
| TextThreadFlushes.InterleavedKeepsText | LunaHost/textthread.cpp:37-119 | the same with pushes and further flushes between the steps of a flush, the sentences being delivered included, as long as each delivery belongs to the oldest unfinished flush and messages come on an empty buffer |
| TextThreadFlushes.OneIsTimely | LunaHost/textthread.cpp:95-119 | with one timer thread each delivery does |
| TextThreadFlushes.OverlapReorders | LunaHost/textthread.cpp:95-119 | from a fresh thread, two overlapping flushes deliver the later sentence first |
| TextThreadFlushes.InterleavedKeepsSentences | LunaHost/textthread.cpp:95-119 | with any number of overlapping flushes and with console messages, every queued sentence is delivered, being delivered or queued as often as it was queued |
| TextThreadFlushes.InterleavedKeepsHistory | LunaHost/textthread.cpp:97-112 | with any number of overlapping flushes and with console messages, a trim leaves exactly the last characters of all accepted text |
| TextThreadFlushes.FlushIsARun | LunaHost/textthread.cpp:95-119 | an undisturbed flush is one of the interleavings |
| TextThreadRuns.HistoryIsExact | LunaHost/textthread.cpp:97-100 | over every run, a trim leaves exactly the last characters of all accepted text, up to the limit |
| TextThreadRuns.FilterLeavesNoRepetition | LunaHost/textthread.cpp:69-78 | after every filtered push the buffer ends in no long triple, and is empty or has a character that is not in the repeating set |
| TextThreadRuns.FilterQueuesOneBlock | LunaHost/textthread.cpp:72-77 | what the filter queues stood three times at the end of the buffer |
| TextThreadSteps.FilterIs | LunaHost/textthread.cpp:69-78 | text of known characters only is dropped; other text is queued once, as the block that ends it three times, if and only if a block longer than 6 does, and its characters become the known ones |
| TextThreadSteps.RepetitionIsSwallowed | LunaHost/textthread.cpp:69-78 | over every run of pushes, further text of known characters only leaves nothing behind |
| TextThreadRuns.InputIsTokenized | LunaHost/textthread.cpp:42-63 | bytes pushed one at a time append the decoding of the tokens of the whole stream, and at most one lead byte is held back |
| TextThreadRuns.TokensCoverStream | LunaHost/textthread.cpp:42-57 | the tokens and the pending byte are the stream, in pieces of one or two bytes |
| TextThreadSteps.PushAppends | LunaHost/textthread.cpp:37-85 | without the filter, a push adds what the converter gives for its bytes, a lead byte waiting for the next one, and queues at once only a full-string hook's text without flush delay |
| TextThreadSteps.BytesAreConverted | LunaHost/textthread.cpp:42-64 | over runs of single bytes the text grows by what the converter gives for the tokens of the stream, in order, one line for each longer text of a full-string hook |
| TextThreadSteps.FlushMovesBuffer | LunaHost/textthread.cpp:101-118 | a flush delivers the queue, and queues the buffer if and only if it holds text and is longer than maxBufferSize or older than flushDelay |
| TextThreadSteps.FlushLeavesRestingText | LunaHost/textthread.cpp:113-118 | in every run, the buffer after a flush is empty, or short and young |
| TextThreadSteps.QuietTextIsDelivered | LunaHost/textthread.cpp:95-119 | text left alone stays through every flush that finds it short and young, is queued by the first that does not, and delivered by the next |
| TextThreadSteps.PushedTextIsDelivered | LunaHost/textthread.cpp:66-118 | text pushed at some time is queued by the first flush more than flushDelay later, and delivered by the next |
| TextThreadSteps.NulsAreLeftOut | LunaHost/textthread.cpp:108 | the callback is given each sentence without its NULs and otherwise unchanged |
| TextThreadSteps.HistoryIsAccepted | LunaHost/textthread.cpp:105-110 | over every run the history is what the callback answered to keep, sentence by sentence, each with a line break |
| ShellCode.MakeShellCode | libs/yapi.hpp:713-752 | inserting and patching in a loop gives prologue, one push for each argument in order, and epilogue, with every patch in place |
| ShellCodeProof.JumpReachesZeroStore | libs/yapi.hpp:719 | the je lands on the store of zero if and only if 12 + 7 * cnt is at most 127 |
| ShellCodeProof.PushReadsWord | libs/yapi.hpp:738 | push i reads block word cnt - i if and only if its displacement is at most 127 |
| ShellCodeRuns.NullBlockReturnsZero | libs/yapi.hpp:713-752 | on a null block a stub with up to 16 arguments calls nothing, returns 0 to its caller and restores the registers |
| ShellCodeRuns.BlockIsCalled | libs/yapi.hpp:713-752 | on a block of any contents a stub with up to 31 arguments makes one call, of word 0 with words 1 to cnt above its return address, returns its result and restores the registers, for every callee that in this call keeps the saved registers and the stub's two frame words |
| ShellCodeRuns.CallIsMade | libs/yapi.hpp:713-752 | on a block of any contents that call is made, whatever the callee then does |
| HookFinderModel.AloneIsARun | LunaHook/hookfinder.cc:127-176 | an undisturbed call is one of the interleavings |
| HookFinderRuns.RunSound | LunaHook/hookfinder.cc:139-172 | the invariant of all calls over every interleaving with fewer than 2^31 draws |
| HookFinderRuns.EveryRunStoresApart | LunaHook/hookfinder.cc:146-167 | under every such interleaving: each index is drawn once, records stand at distinct indices from 1 to max - 1 with the contents of their call, and no write goes outside the array |
| HookFinderGate.GatedRunsStoreApart | LunaHook/hookfinder.cc:179-241 | with the check of recordsAvailable in front of the calls, no more than max + 52 indices for each game thread are ever drawn, so while that is below 2^31 the same holds of every interleaving of the game's threads |
| HookFinderGate.GateCloses | LunaHook/hookfinder.cc:179-241 | once the records are used up and every thread is outside, no call is made any more |
| HookFinderBuckets.BucketsStayBounded | LunaHook/hookfinder.cc:146-147 | under every interleaving, a bucket counted up fewer than 2^31 times stores at most 25 records |
| HookFinderRuns.DrawnIsCounted | LunaHook/hookfinder.cc:277 | the count in the closing message is the number of indices drawn, and none was skipped |
| HookFinderRuns.WarnsExactlyWhenFull | LunaHook/hookfinder.cc:168-172 | with all calls at rest, the out-of-records message has been given once if the records are used up and otherwise not at all |
| HookFinder.InitRecords | LunaHook/hookfinder.cc:309-321 | the first size in the row of halves that can be allocated is taken, and failure means that none can |
| HookFinder.HalvedIs | LunaHook/hookfinder.cc:316 | the row of halves is the wanted size divided by the powers of two, toward zero |
| HookFinder.HookSearch.DoSend | LunaHook/hookfinder.cc:127-176 | run alone on the arrays, a call measures the text, signs it, and does what its atomic steps do |
| HookFinderTexts.TextIsMeasured | LunaHook/hookfinder.cc:134-138 | a UTF-16 text is looked at if and only if it has 7 to 249 characters, and its length and sum are those of its characters |
| HookFinderTexts.SignaturesTell | LunaHook/hookfinder.cc:140-143 | two texts have the same signature if and only if address, slot and the sum of their third and fourth byte agree, with the exact exceptions for negative sums |
| HookFinderTexts.CallIs | LunaHook/hookfinder.cc:141-172 | a text seen changes nothing; any other is counted, the first 25 of a bucket fill the next record while there is one, and the first to find none warns |
| HookFinderTexts.FirstTextIsFound | LunaHook/hookfinder.cc:127-302 | on a fresh search a text of 7 to 249 characters is stored in record 1, counted in the bucket of its sum, and reported as a UTF-16 string hook where it was found |
| HookFinderTexts.SameTextIsDropped | LunaHook/hookfinder.cc:140-142 | after a call, one with the same slot, address and pair of bytes stores nothing |
| HookFinderTexts.OtherTextIsStored | LunaHook/hookfinder.cc:140-165 | a second text with another slot, address or pair sum is stored in record 2 |
| HookFinder.HookSearch.Report | LunaHook/hookfinder.cc:275-308 | the filled records are reported in order, the records freed and both caches cleared |
| HookFinder.ReportsWhatWasStored | LunaHook/hookfinder.cc:275-302 | after every such interleaving, the hooks of the calls that stored a record are reported, once for each call and in the order of their slots, and no other |
| HookFinderCodes.FoundHookCodes | LunaHost/host.cpp:100-122 | the code of each announced copy of a found hook of any kind, printed with its process, gives the hook relative to its module back if and only if it is no UTF-16 hook with a codepage, its numbers can be printed, its target told, and no number starts with F |
| HookFinderCodes.CopiesAre | LunaHost/host.cpp:104-121 | the announced copies are the UTF-16 string as found, the string in the codepage of the search, and the string in UTF-8 |
| HookFinder.EraseFailed | LunaHook/hookfinder.cc:413-417 | erasing places from the back leaves exactly the addresses whose place is not listed, in order |
| HookFinder.CreateHooks | LunaHook/hookfinder.cc:399-417 | listing the places where a hook could not be created and erasing them leaves exactly the addresses with a hook, in order |
| StringUtils.JoinOfSplit | include/stringutils.cpp:32-49 | joining the pieces with the delimiter gives the text back |
| StringUtils.PiecesAreClean | include/stringutils.cpp:32-49 | no piece contains the delimiter |
| StringUtils.SplitOfJoin | include/stringutils.cpp:32-49 | with one character as the delimiter, splitting joined clean pieces gives the pieces back |
| StringUtils.StrReplace | include/stringutils.cpp:21-30 | the loop terminates and joins the pieces with the new text, also when that contains the old one |
| StringUtils.StrSplit | include/stringutils.cpp:32-49 | the loop gives the pieces between the leftmost occurrences |
| TextWidth.ChunksAre | LunaHook/embed_util.cc:177-187 | a line of n characters becomes max(1, ceil(n / w)) lines of at most w characters |
| TextWidth.LimitedLines | LunaHook/embed_util.cc:174-197 | the lines of the result are the pieces of the lines of the text, and none is longer than the width |
| TextWidth.LimitedKeepsText | LunaHook/embed_util.cc:174-197 | apart from line breaks the text is unchanged |
| TextWidth.LimitedIsIdempotent | LunaHook/embed_util.cc:174-197 | limiting twice is limiting once |
| TextWidth.LimitTextWidth | LunaHook/embed_util.cc:174-197 | splitting, wrapping in place and joining compute the limited text; a negative width changes nothing |
| LruCache.SuppressedWhenRecent | LunaHook/engine32/EME.cpp:108-116 | a text is suppressed if and only if fewer than capacity distinct texts came since it was last seen; a text never seen passes |
| LruCache.LRUCache.Contains | LunaHook/engine32/EME.cpp:57-66 | a hit moves the key to the front, a miss changes nothing |
| LruCache.LRUCache.Put | LunaHook/engine32/EME.cpp:68-86 | a new key comes to the front and at capacity the last one falls out of list and map |
| LruCache.LRUCache.FilterAll | LunaHook/engine32/EME.cpp:108-116 | over a whole stream the key list is the first capacity entries of the history, most recent first, and decides what passes |
| Cotopha.FilterRenders | LunaHook/engine32/Cotopha.cpp:596-629 | for every buffer and size, the stream of tokens that start within the size leaves base texts, plain characters and spaces for newlines behind output |
| Cotopha.WholeTextRenders | LunaHook/engine32/Cotopha.cpp:596-629 | a text that is a well-formed stream by itself leaves its rendering |
| Cotopha.ResultFits | LunaHook/engine32/Cotopha.cpp:604-628 | for a text that is a well-formed stream starting with a command, nothing behind it is read and the result with its space fits it |
| Cotopha.ReadsPastUnlessWellFormed | LunaHook/engine32/Cotopha.cpp:605-624 | the scan stays inside the buffer if and only if the buffer starts with a well-formed stream whose last token starts within the size |
| Cotopha.CotophaFilter | LunaHook/engine32/Cotopha.cpp:596-629 | in place: the front of the buffer is the scan's output with one space behind it if it is not empty, the rest is untouched, other inputs are left alone, and the new size fits the old when the text ends with its last token |
| ThreadRegistry.RunSound | LunaHost/host.cpp:57-182 | the invariant under every interleaving of readers, their unlocked scans included |
| ThreadRegistry.RegistryIsConsistent | LunaHost/host.cpp:57-182 | under every interleaving: callbacks alternate, the map holds exactly the threads created and not destroyed (but for one whose erase is next), nothing is left of a process that is gone, a removal leaves no thread of its process and hook, and it destroys no other |
| ThreadRegistry.ConsoleStays | LunaHost/host.cpp:200-201 | the console thread is in the map if Start put it there, and no other callback ever concerns it |
| ThreadRegistry.Registry.OnText | LunaHost/host.cpp:150-158 | a text creates its thread when there is none |
| ThreadRegistry.Registry.RemoveThreads | LunaHost/host.cpp:57-66 | run alone, the loops are a run of the atomic steps after which exactly the threads of the process, or of its one hook, are gone |

## Supporting members

The steps of the main proofs and the smaller methods, by module:

- `Numerals`: `ValueOfPrint`, `RunOfPrint`, `ScanOfHexString`, `ScanOfNothing` (printing and `stoi`).
- `Bits`, `Division`: `OrAbove`, `OrOfOnes`, `HalfOfQuotient`.
- `HookCodeParser`: `CutAt`, `TrimRight`, `CopyCString`, `LazyStop` (text and regex pieces).
- `HookCodeParseMethods`, `HookCodeGenerator`: one method for each part of the long functions of the source,
  `ParseAfterCodec`, `ParseNumbers`, `ParseUnityFunction`, `ParseModuleAddress`, `MoveToEmulator`,
  `GenerateBody`, `GenerateOptions`, `GenerateModifiers`, `GenerateCodepage`, `GenerateNumbers`, `GenerateSplit`,
  `GenerateTarget`, `MakeRelative`, `PrintTarget`; `FileName` and `RelativeStart` for module names.
- `HookCodeStages`, `HookCodeText`, `HookCodeRoundTrip`: an equivalence for each parse stage, among them
  `FullReads`, `BodyReads`, `HookReads`, `PcReads`, `EmulatorReads`, `UnityReads`, `ReadRoundTrip`, `HookRoundTrip`;
  `UnmappedIsPlain` (with nothing mapped, as for process id 0, `GenerateFor` is `Generate`);
  `StrippedCode` and `CutIgnoresRest` for what is stripped; `ReturnIsLost`.
- `HookCodeCase`, `HookCodeAnyCase`, `HookCodeExamples`: `DigitIsPlace`, `VariantTarget`, `LettersAreRead`, `PrintedIsWritten`,
  `WrittenParses`, `NumbersRead`; `LowerCaseRead` is the code "RS@a".
- `VehModel`, `VehRuns`: `Nearest`, `WindowWithoutWrap`, `FindExact` (the lookup), `RunKeeps`, `TrapFinds`, `TrapDisciplined`.
- `VehHooks`: `BypassedIsLinked`, `NearestOfMore`, `NearestIsUnique`, the constructors, `VehList.Unlink`, `VehList.Bypass`,
  `HookManager.RepairOrigin`, `TakeOut`, `StepOver`, `DispatchBreakpoint`, `DispatchSingleStep`.
- `TextThreadModel`, `TextThreadRuns`, `TextThreads`: `LongestTriple`, `RepeatsIffTripled`, `BytesAreTokenized`,
  `TextThread.AddSentence`, `Filter`, `Deliver`; `TextThreadSteps`: `TokensAreConverted`, `RestingTextStays`.
- `ShellCode`, `ShellCodeProof`, `ShellCodeRuns`: `PatchedTemplate`, `StubAtPush`, one `Step...` lemma for each instruction,
  `Enter`, `PushAll`, `TheCallIs`, `MakeCall`, `KeepResult`, `Leave`; `CallElsewhere`, `StoringKeeps`.
- `HookFinderRuns`, `HookFinderBuckets`, `HookFinderGate`, `HookFinder`: `StepSound`, `RunBounded`, `GatedIsARun`, `GateHolds`,
  `SignatureIs`, `SameSignatureIsDropped`, `FreshIsInitial`, `HookSearch.constructor`, `TextEnd`, `MeasureText`, `HookSearch.Sift`, `HookSearch.Store`, `HookSearch.Write`, `KeepsStretch`.
- `TextWidth`, `StringUtils`, `LruCache`, `Cotopha`: `WrapLine`, `JoinLines`, `Find`, `TakeAfterUse`, `PositionIsDistinctSince`,
  `LRUCache.Filter`, `ScanOfEncode`, `TokensOf`, `CopyBase`, `SkipToColon`, `Compact`.
- `ThreadRegistry`: `CallbacksAlternate`, `StepSound`, `InitialIsSound`, `Registry.Scan`, `Registry.RemoveOne`.

## Left out

- `HexString` of -2^63, whose negation C++ leaves undefined; a descriptor with such a number is never canonical.
- The calls that find the module of an address: what they answer is the parameter `Mapping`.
- HookCodeRoundTrip.SlashesAreIgnored: stated for codes that do not start with a slash themselves, because only one slash is removed.
- Vectored exception handler registration, page protection values and the second `VirtualProtect`
  of each operation; in a single step the protection call is made on the address of the trap, and its
  result is ignored by the source, so the model writes the byte in any case.
- Callbacks that run while another thread adds or removes hooks: each dispatch is one step.
- VehRuns.RunDisciplined: for one thread.
- The timer, the mutexes and the embed callback of the text pipeline, and the console message for text that cannot be converted.
- TextThreadRuns.RunKeepsText: stated with the repetition filter off, because the filter drops text by design.
- TextThreadRuns.InputIsTokenized: for bytes pushed one at a time under one text type, where converting no bytes gives no text; longer pushes leave a pending lead byte waiting.
- The 64-bit branch of `makeShellCode`, `x64Call` and the remote memory helpers of yapi.
- ShellCodeRuns.BlockIsCalled: for stacks and blocks that are word-aligned and do not overlap, because memory is modelled in words.
- HookFinderRuns.EveryRunStoresApart: for fewer than 2^31 draws, which `HookFinderGate` derives from the number of game threads; with a 2^31st draw the index is negative (`TooManyDrawsStray`).
- HookFinderBuckets.BucketsStayBounded: nothing in the source keeps a long search from counting a bucket up 2^31 times, after which it takes records again (`TooManyCountsPass`).
- HookFinderCodes.FoundHookCodes: leaves out the `hookcode` field, into which the host writes the code it has just printed.
- TextThreadFlushes.InterleavedKeepsText: for deliveries in the order of the swaps, because others reorder, and for messages on an empty buffer, as the console thread's is, because one behind buffered text overtakes it; a call of the output callback and the storing of what it kept are one step.
- `IsBadReadPtr` and its page cache, the access violations that `DoSend` swallows, hook installation and memory search of the hook finder.
- After a failed allocation of every size the search goes on with no records; `InitRecords` states that case, the runs do not start from it.
- An empty delimiter or an empty old text, with which the loops of `strSplit` and `strReplace` do not end.
- StringUtils.SplitOfJoin: for one-character delimiters, because a longer delimiter can arise across the seams of a join.
- TextWidth.LimitTextWidth: for a width other than 0, as its caller checks; width 0 divides by zero.
- Cotopha.CotophaFilter: the array is the text with all that lies readable behind it; only a command that does not end there either (exactly then, `ReadsPastUnlessWellFormed`) is not modelled, as the source leaves its memory.
- ThreadRegistry.RunSound: takes the unlocked scan to come across every entry that stays in the map once, in any order; C++ gives an iteration during which another reader inserts or erases no meaning.
- Pipes, connection events, console and embed messages of the host; a reader is its notification loop.
- `TextHook::Send` and trampolines, `utf16_to_utf32`, text hashing and translation caching, all other
  engine filters and hook descriptors, fonts, languages, and the command line.
