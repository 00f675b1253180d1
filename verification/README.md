# cmocka: a verified model

cmocka is a unit-testing framework for C. This project models what decides the verdict of a test:

* the expectations a test declares (values for mocks, parameter checks, expected calls) and how the
  code under test uses them up (`_will_return`, `_mock`, `_expect_check`, `_check_expected`,
  `_expect_function_call`, `_function_called`, and the end-of-test pass for what is left over);
* one phase (setup, test or teardown), one test with its fixtures, and a group of tests;
* the guarded allocator with its heap checkpoints;
* the in-place string replacement, the XML escape built on it, the glob used by the filters, the dump
  of a memory difference, and the evaluator of the example calculator.

| file | what it holds |
|---|---|
| `Wrappers.dfy`, `Sequences.dfy` | optional values, and what several modules need of sequences |
| `CircularList.dfy` | the circular doubly linked list, on node objects with `next` and `prev`, refining sequences; which nodes are freed |
| `Expectations.dfy` | the symbol store as a value: a finite map from paths of names to non-empty queues |
| `SymbolTree.dfy` | the same store in C memory: linked list nodes, map values and records by address, `free`, and who owns what; the lists as sequences are a ghost view |
| `MockRuns.dfy`, `CallOrder.dfy` | whole runs: first-in first-out order, leftover verdict, the language of accepted call traces |
| `Phases.dfy` | a phase as a value: what its calls do to the three lists, how it ends, when a test passes |
| `Framework.dfy` | the three lists and the flags in memory; the API functions and one whole phase |
| `HeapPhases.dfy` | a phase whose function also calls the guarded allocator, and its check for leaks |
| `Runner.dfy` | one test with fixtures, selection by filters, a group, its totals, its checkpoints and its return value |
| `Words.dfy`, `Allocator.dfy`, `ClientRuns.dfy` | word arithmetic, the guarded allocator on a byte memory, runs of a client |
| `StringReplace.dfy`, `XmlEscape.dfy`, `Glob.dfy`, `DataDiff.dfy`, `Calculator.dfy` | the text engines, the dump, the evaluator |

How C is rendered:

* Code that changes things in place is imperative: the methods of the classes `Heap`, `Cmocka` and
  `Allocator`, methods on linked nodes, on character arrays and on the array of test states. Each is
  proved against a specification function or predicate, and the properties are proved about those.
* A jump out of a phase (`longjmp` in `exit_test`) is an explicit outcome: `End` for an API call,
  `Fails` for an allocator call. The function of a phase is any finite sequence of API calls and calls of the
  allocator; what the code under test does with the values is not modelled, so all sequences are covered.
* A call of the allocator that C gives no meaning to (a block that is not there, an answer that libc cannot
  give) is left out of a run; every other one is made.
* `free` on something that is not allocated sets a ghost flag (`fault`). Reading or writing it is ruled
  out by Dafny itself: memory is a map, and an access outside its domain does not verify.
* `malloc` of the C library is any address, or any block of bytes, not in use; whether it finds one is a
  parameter, and open where the code must not ask for it (a sum that wraps). `sizeof(struct MallocBlockInfoData)` and the width of a word are arbitrary.
* A count is an integer: n > 0 is "exactly n", -1 "at least once" (-2 after its first use), -2 and
  below "any number of times".

## What the code does that its documentation does not say

* `will_return_maybe` (include/cmocka.h:557-582) is documented never to cause a test to fail because its value is
  not returned. It does if another value is declared for the same function after it, be it a second such value:
  `MockRuns.UnboundedMustBeLast`.
* A counted expected call that comes after `ignore_function_calls` for the same function makes every
  trace fail; otherwise the documented meaning is exact: `CallOrder.AcceptedTraces`,
  `CallOrder.ShadowedEntryRejects`.
* A mock that asks for another type tag than the stored one frees the record. If the count was not 1, the
  record is still in its queue and is freed again at the end of the phase. This is the only way a phase frees
  anything twice: `Framework.Cmocka.RunOneTestOrFixture`; it does happen: `Framework.FreesStoredHappens`.
* `_will_return` allocates its record before it rejects a count of 0, so that record is lost:
  `Framework.LosesRecordHappens`. `_expect_check` does not reject 0 at all: the check can then never be used.
* `skip()` in a fixture leaves the skip flag set, and the next test body that fails is reported as skipped:
  `Runner.PendingExactly`, `Runner.FailureReportedAsSkip`.
* In the filters, a star is documented as zero or more characters (include/cmocka.h:3300-3322). A pattern that
  ends in two or more stars asks for at least one character there. For these patterns, and no others, the code
  disagrees with the documented language on some string, the shortest match for one: `Glob.AgreesExactly`.
* A group teardown that fails is reported, but not counted, so that the group can still return 0:
  `Runner.FailingTeardownReturnsZero`.
* With an empty pattern, `c_strreplace` puts in copies of the replacement until there is no more room, and then
  returns false: `StringReplace.FillUp`. If the replacement is empty, too, and there is room, each round of the
  loop comes back to the same string and the same position: `StringReplace.EmptyRound`.
* The checkpoint of a phase is the block allocated last before it. If the phase frees that block (a test, the last
  block of its setup), the check for leaks starts from a freed node and has no meaning: `HeapPhases.CheckpointFreed`.
* The return value of a group is a `size_t` converted to `int`, so it is 0 also if a multiple of 2^32 tests
  failed: `Runner.ZeroMeansSuccess`.
* If a guard of the old block is damaged, `test_realloc` has already made the new block, which stays
  allocated: `Allocator.Allocator.Move`.

## Model

| member | source | states |
|---|---|---|
| CircularList.ListInitialize | src/cmocka.c:637-643 | a node linked to itself is the head of the empty list |
| CircularList.ListAdd | src/cmocka.c:662-670 | appends at the tail; next and prev stay inverse |
| CircularList.ListAddValue | src/cmocka.c:650-658 | a fresh node with the given value and count becomes the last one |
| CircularList.ListRemove | src/cmocka.c:674-684 | takes out exactly the given node, wherever it is, and keeps the order of the others |
| CircularList.ListEmpty | src/cmocka.c:714-717 | true exactly for the empty list |
| CircularList.ListFirst | src/cmocka.c:738-747 | the first node, if there is one |
| CircularList.ListFind | src/cmocka.c:724-735 | the first node that matches, and false only if none does |
| CircularList.ListRemoveFree | src/cmocka.c:688-693 | the node is taken out and freed; it was in use, and only it goes |
| CircularList.ListFree | src/cmocka.c:702-710 | removing the first node again and again ends, with the empty list; the nodes that were freed are those of the list, each once |
| CircularList.RemoveAlways | src/cmocka.c:892-905 | the walk with the saved successor takes out and frees exactly the nodes with a count below -1, each once, and keeps the order of the others; no node is read after it was freed |
| Expectations.AddShape | src/cmocka.c:792-823 | adding keeps sibling names distinct and leaves no empty list under a name |
| Expectations.AddMeaning | src/cmocka.c:792-823 | adding appends to the queue of its path and changes no other queue |
| Expectations.GetShape | src/cmocka.c:832-884 | a failed lookup changes nothing; a successful one hands out the front value with its old count |
| Expectations.GetMeaning | src/cmocka.c:832-884 | a lookup uses up one of the front value of its path, changes no other queue, and prunes what it emptied |
| Expectations.SweepMeaning | src/cmocka.c:912-943 | the end-of-test pass treats each queue alone and prunes what it emptied |
| Expectations.LeftoversMeaning | src/cmocka.c:969-1007 | the leftover count is the number of top-level names, and 0 exactly if every queue is empty |
| SymbolTree.RingAppend | src/cmocka.c:662-670 | the four assignments to next and prev put the node at the end of the ring |
| SymbolTree.RingRemove | src/cmocka.c:674-693 | the two assignments take the node out of the ring, wherever it is, and the ring does not need it any more |
| SymbolTree.Heap.ListAddValue | src/cmocka.c:650-670 | a node is allocated and linked at the end of one list; all other lists keep their links |
| SymbolTree.Heap.ListFind | src/cmocka.c:724-735 | the walk along next ends, at the first node whose map value has the name |
| SymbolTree.Heap.FindOrAddSymbol | src/cmocka.c:804-812 | the map value for a name, found or newly made at the end |
| SymbolTree.Heap.AddSymbolValue | src/cmocka.c:792-823 | in memory: the tree becomes that of Expectations.Add, nothing outside it changes, the value passes from the caller to the tree; each new list node is in exactly one list |
| SymbolTree.Heap.TakeFirst | src/cmocka.c:853-867 | hands out the first value; it becomes the caller's, and its list node is freed, exactly if the count was 1; the internal assertion never fires |
| SymbolTree.Heap.GetSymbolValue | src/cmocka.c:832-884 | in memory: the tree becomes that of Expectations.Get, with pruning at both levels, and nothing outside it changes; what is pruned is freed once, node and map value |
| SymbolTree.Heap.RemoveAlwaysReturnValues | src/cmocka.c:912-943 | in memory: the tree becomes that of Expectations.Sweep; values, map values and list nodes that go are freed once, and the saved successor of a node is in use when the walk comes to it |
| SymbolTree.Heap.CheckForLeftoverValues | src/cmocka.c:969-1007 | the number of names that still hold something; every leftover record is read for the message, in order, and is still allocated |
| SymbolTree.Heap.ListFree | src/cmocka.c:702-710 | frees the list and all below it, list nodes included; no fault if nothing was freed before, and a fault if something in it was |
| SymbolTree.Heap.ListRemoveFree | src/cmocka.c:688-693 | takes a list node out of its list and frees it; it was in use |
| SymbolTree.Heap.FreeFirstSymbol | src/cmocka.c:759-776 | frees a map value, its list node, and everything below it |
| SymbolTree.Heap.DropAt | src/cmocka.c:688-693 | takes a value out of a queue and frees it and its list node, once |
| MockRuns.FifoOrder | src/cmocka.c:853-867 | a run of declarations and lookups succeeds exactly if each lookup has an element in the expansion of what was declared before it, and then lookup k returns element k |
| MockRuns.StoreFifo | src/cmocka.c:832-884 | over a run of the whole store: all lookups succeed exactly if each has an element in the expansion of what was declared for its path before it, and then lookup k on a path returns element k |
| MockRuns.OrderForgotten | src/cmocka.c:853-867 | what is left depends only on what was declared and on how many lookups there were |
| MockRuns.QueueVerdict | src/cmocka.c:912-1007 | for one path, nothing is left over exactly if the declared counts were met |
| MockRuns.UnboundedMustBeLast | include/cmocka.h:557-582 | an unbounded value that is not the last one declared always fails the test |
| MockRuns.Independent | src/cmocka.c:832-884 | each path sees only the operations on itself |
| MockRuns.RunSucceedsIff | src/cmocka.c:832-884 | all lookups of a run succeed exactly if, path by path, those of its projections do |
| MockRuns.WholeRunVerdict | src/cmocka.c:587-611 | after a run with no failed lookup, the leftover check passes exactly if for every path the counts were met |
| CallOrder.CalledTakesFirst | src/cmocka.c:1067-1129 | a call that changes the list is the first call it still asks for |
| CallOrder.ChangedSpellExpansion | src/cmocka.c:1067-1129 | on an accepted run with nothing left, the calls that changed the list spell the expansion of the declarations, in order |
| CallOrder.AcceptedTraces | src/cmocka.c:1067-1129 | the accepted traces are exactly those of the documented meaning, provided no counted entry is shadowed by an earlier unbounded one |
| CallOrder.ShadowedEntryRejects | src/cmocka.c:1085-1118 | a trace with the documented meaning that is rejected because of shadowing |
| CallOrder.PositiveTraces | src/cmocka.c:1067-1129 | with positive counts only, a trace is accepted exactly if it is the expansion |
| Phases.ListsIndependent | src/cmocka.c:587-611 | in a phase that runs to its end, each of the three lists is as if the calls about it had run alone |
| Phases.MocksInOrder | src/cmocka.c:1011-1064 | in a phase that runs to its end, call k of a mock is given element k of the expansion of the values declared for its function before it |
| Phases.ReturnsExactly | src/cmocka.c:3583-3609 | a phase body runs to its end exactly if nothing in it jumps, every lookup finds a value of the right tag that accepts what it is given, and every call is expected |
| Phases.NothingLeftOver | src/cmocka.c:587-611 | then nothing is left over exactly if all declared counts were met and no expected call is missing |
| Phases.StopsExactly | src/cmocka.c:3583-3609 | a body ends in stop() exactly if what comes before its first stop() runs to its end |
| Phases.PassesExactly | src/cmocka.c:3543-3640 | when a test passes, in terms of its calls alone: up to its first stop() if it has one, and then without the leak check |
| Phases.SetupExactly | src/cmocka.c:3583-3609 | when a setup succeeds: the same without the leak check, and if it does not stop, it must return 0 |
| Phases.TeardownExactly | src/cmocka.c:3583-3609 | when a teardown succeeds: with both the leak check and the return value |
| Phases.SkipsExactly | src/cmocka.c:3583-3609 | skip() is reported exactly if a call of it is reached, and the phase then fails |
| Phases.FailureFails | src/cmocka.c:3583-3609 | a phase that has a failure, a call of skip() or a declared count of 0 before its first stop() does not succeed, whatever its other calls do |
| Phases.ChecksHold | src/cmocka.c:2205-2246 | in a phase that runs to its end, value j for a parameter satisfies the check that element j of the expansion stands for |
| Phases.CheckOnce | src/cmocka.c:2205-2246 | with one check and one value, the phase goes on exactly if the check accepts the value |
| Phases.MocksHold | src/cmocka.c:1011-1064 | in a phase that runs to its end, call j of a mock is given the value and the tag of element j of the expansion, and asked for no tag or for that very one |
| Phases.MockOnce | src/cmocka.c:1011-1064 | with one value and one mock, the phase goes on exactly if the mock asks for no tag or for the tag of the value; a value without a tag does not do for one that is asked for |
| Framework.Cmocka.constructor | src/cmocka.c:577-585 | the framework starts with three empty lists and nothing allocated: no record, no map value, no list node |
| Framework.Cmocka.WillReturn | src/cmocka.c:1132-1152 | does what Phases says; a count of 0 loses exactly one record |
| Framework.Cmocka.Mock | src/cmocka.c:1011-1064 | does what Phases says and returns the front value; a stored record is freed exactly if the tag does not match and the count is not 1 |
| Framework.Cmocka.ExpectCheck | src/cmocka.c:1160-1176 | does what Phases says and loses nothing; an event made by the caller passes to the store |
| Framework.Cmocka.CheckExpected | src/cmocka.c:2205-2246 | does what Phases says; the check event is freed exactly if it was used up |
| Framework.Cmocka.ExpectFunctionCall | src/cmocka.c:1184-1202 | does what Phases says; a count of 0 is rejected before anything is allocated |
| Framework.Cmocka.FindExpected | src/cmocka.c:1083-1103 | the search stops at the first entry for the function or the first that may not be skipped |
| Framework.Cmocka.FunctionCalled | src/cmocka.c:1067-1129 | does what Phases says |
| Framework.Cmocka.RemoveAlwaysReturnValuesFromList | src/cmocka.c:892-905 | every expected call that may be skipped goes, and is freed once, with its list node |
| Framework.Cmocka.CheckForLeftoverValuesList | src/cmocka.c:945-963 | the number of expected calls that are left, and their functions, read from records that are still allocated |
| Framework.Cmocka.Run | src/cmocka.c:3583-3609 | the calls of a phase up to the one that jumps do what Phases says; the values that mocks return are those of Phases.Handed |
| Framework.Cmocka.HasLeftoverValues | src/cmocka.c:587-611 | true exactly if one of the three lists has something left after its pass |
| Framework.Cmocka.TeardownTesting | src/cmocka.c:620-634 | the three lists are empty and nothing is allocated but records that were lost before: no map value, no list node; a record freed too early is freed again |
| Framework.Cmocka.RunOneTestOrFixture | src/cmocka.c:3543-3640 | however a phase ends, the lists are empty and the running and stop flags clear after it; every record, map value and list node of the phase is freed once, except exactly in the two cases above; the return code is that of Phases.RunPhase |
| Framework.FreesStoredHappens | src/cmocka.c:1022-1041 | a phase that frees a record twice: a value declared twice with one tag and asked for with another |
| Framework.LosesRecordHappens | src/cmocka.c:1132-1152 | a phase that loses a record: a value declared with count 0 |
| HeapPhases.Play | src/cmocka.c:3583-3609 | API calls and calls of the allocator, in any order: the framework does what Phases says of the API calls, up to a jump or to memory that was refused; the heap does what ClientRuns.Run says |
| HeapPhases.CheckBlocks | src/cmocka.c:2878-2887 | with intact guards, reports a leak exactly if there is a block after the checkpoint, and then frees exactly those |
| HeapPhases.RunOneTestOrFixture | src/cmocka.c:3543-3640 | a phase on both heaps: its return code is that of Phases.RunPhase with the leak that the check finds, against the checkpoint handed on or taken at the start; blocks that no call was about keep every byte |
| HeapPhases.LeaksExactly | src/cmocka.c:2823-2887 | with the checkpoint taken at the start, and not freed: a leak is reported exactly if the function ran to its end and some block it allocated was not freed, and no new block is there afterwards |
| HeapPhases.TestPassesExactly | src/cmocka.c:3543-3640 | when a test that uses both heaps passes, in terms of its calls alone |
| HeapPhases.PhaseExactly | src/cmocka.c:3543-3640 | when any phase that uses both heaps succeeds, in terms of its calls, its return value and the blocks behind its checkpoint: a fixture must return 0, and unless it is a setup, nothing may be left; and when it is skipped |
| HeapPhases.RefusedFails | src/cmocka.c:2688-2690 | a phase that is refused memory, and does not stop, fails, whatever else it does |
| HeapPhases.SeenAll | src/cmocka.c:3583-3609 | if no memory is refused, the framework sees all API calls of the function, in order |
| HeapPhases.PhaseSplit | src/cmocka.c:2857-2887 | what a phase allocates comes behind every earlier checkpoint that it keeps; a check against that one leaves nothing behind it |
| HeapPhases.CheckpointFreed | src/cmocka.c:2830-2853 | a test that frees the last block that was there before it leaves the check for leaks without its checkpoint |
| Runner.RunOneTests | src/cmocka.c:3669-3750 | the status of a test and the skip flag after it, as functions of what its phases returned and of the flag before it; which phases run, with which checkpoint, and the blocks after each |
| Runner.StatusExactly | src/cmocka.c:3669-3750 | the status of a test in terms of what its functions do: an error exactly if its setup or its teardown did not go well, else passed exactly if its function went well, else skipped exactly if its function came to skip() or the flag was set |
| Runner.NonzeroIsError | src/cmocka.c:3676-3744 | a setup or a teardown that returns something else than 0 makes the test an error; after such a setup, neither the test nor its teardown runs |
| Runner.PassedByItself | src/cmocka.c:3669-3750 | between fixtures that went well, a test passes exactly by its own calls and the blocks it allocated itself |
| Runner.TeardownByItself | src/cmocka.c:3725-3744 | without a setup, a teardown goes well exactly by its own calls, its return value and the blocks it allocated itself |
| Runner.NothingLeft | src/cmocka.c:3669-3750 | if the teardown of a test runs to its end, no block is left that its setup, its function or its teardown allocated, whether or not they failed |
| Runner.PendingExactly | src/cmocka.c:3715-3717 | the skip flag is set at a test exactly if an earlier fixture (or the time before the run) set it and no test body failed since |
| Runner.SkippedOnlyByItself | src/cmocka.c:3704-3723 | if no fixture calls skip(), a test is skipped exactly if its own body did and its fixtures ran well |
| Runner.FailureReportedAsSkip | src/cmocka.c:3715-3717 | a run in which a failing test is reported as skipped |
| Runner.SelectTests | src/cmocka.c:3777-3809 | the loop selects the tests that pass both filters, which the next rows say without the predicate that the loop computes |
| Runner.SelectionInOrder | src/cmocka.c:3777-3809 | the selection is read off at increasing positions, which are exactly those of the tests that are selected |
| Runner.NoFilters | src/cmocka.c:3777-3809 | without filters, exactly the tests with a name and a function are selected |
| Runner.FilterByName | src/cmocka.c:3782-3797 | a test filter without wildcards selects exactly the tests of that name; as a skip filter, it selects exactly the others |
| Runner.FilterByPattern | src/cmocka.c:3782-3790 | a pattern that does not end in two stars selects exactly the tests whose name it matches, in the documented language |
| Runner.FiltersSplit | src/cmocka.c:3782-3797 | for any pattern, what it selects as a test filter and as a skip filter are the two parts of the tests that can run |
| Runner.FiltersCombine | src/cmocka.c:3782-3797 | with both filters, a test is selected exactly if each of them alone would select it |
| Runner.RunSelected | src/cmocka.c:3824-3886 | every selected test runs, its status is counted, and the internal-error branch is never reached |
| Runner.CountsAddUp | src/cmocka.c:3824-3886 | passed, failed, skipped and errors add up to the number of tests that ran |
| Runner.TotalsAreSizes | src/cmocka.c:3824-3886 | each of the totals is the number of tests that ended with its status |
| Runner.RunGroupTests | src/cmocka.c:3752-3927 | totals and outcome of a group; no test runs if the group setup failed; a failing teardown is reported only; the process exits exactly if a block allocated since the start of the group is left; at the end no list node or map value is left, and no record was lost if no function that may run loses one |
| Runner.FailingTeardownReturnsZero | src/cmocka.c:3888-3905 | a group whose teardown fails, and that returns 0 |
| Runner.ZeroMeansSuccess | src/cmocka.c:3926 | the result is 0 exactly if the group setup succeeded and every test that ran passed or was skipped, for less than 2^32 tests; in general exactly if the number of failures is a multiple of 2^32 |
| Runner.GroupVerdict | src/cmocka.c:3907-3926 | a group of less than 2^32 tests returns 0 exactly if nothing is left that it allocated, its setup succeeded and every test passed or was skipped; the process exits exactly if something is left |
| Runner.TeardownClears | src/cmocka.c:3888-3926 | after a group teardown that ran to its end, nothing is left that the group allocated, so that the process does not exit |
| Words.AlignDownRounds | src/cmocka.c:2669-2674 | masking a word with ~(a - 1), for a power of two, rounds it down to a multiple |
| Words.SumTest | src/cmocka.c:2685-2687 | the wrapped sum is greater than its first term exactly if it did not wrap |
| Words.ProductTest | src/cmocka.c:2720-2723 | the test by division is true exactly if the product does not fit |
| Allocator.Allocator.Layout | src/cmocka.c:2691-2704 | header and front guard fit below the aligned address, payload and rear guard above it, for every base and size |
| Allocator.Allocator.PlaceBlock | src/cmocka.c:2689-2711 | the new block is aligned, guarded, filled, last in the list; no byte in use and no other header changes |
| Allocator.Allocator.TestMalloc | src/cmocka.c:2678-2712 | succeeds exactly if the size with header, guards and alignment fits in a word and memory is found; the block is then a new one, aligned, guarded and filled, and no byte in use changes |
| Allocator.Allocator.TestCalloc | src/cmocka.c:2716-2730 | null exactly if the product does not fit; jumps exactly if the sum of the parts does not, or no memory is found; otherwise a zeroed block |
| Allocator.Allocator.CheckGuards | src/cmocka.c:2748-2773 | passes exactly if all 32 guard bytes hold the pattern |
| Allocator.Allocator.TestFree | src/cmocka.c:2736-2778 | rejects a block exactly if a guard byte differs, and then changes nothing; otherwise the block goes and nothing else does |
| Allocator.Allocator.Move | src/cmocka.c:2801-2818 | the new block holds the first min(old, new) bytes of the old one; the old one goes exactly if its guards are intact |
| Allocator.Allocator.TestRealloc | src/cmocka.c:2782-2819 | all cases of realloc, with null and with size 0 |
| Allocator.LeakAccounting | src/cmocka.c:2823-2856 | over any run that keeps the checkpoint's block, the blocks after the checkpoint are exactly those allocated since and not yet freed, and the others were there before |
| Allocator.NothingSince | src/cmocka.c:2823-2825 | a new checkpoint has no block after it |
| Allocator.Allocator.CheckPoint | src/cmocka.c:2823-2825 | the checkpoint is in the list, and nothing comes after it |
| Allocator.Allocator.DisplayAllocatedBlocks | src/cmocka.c:2830-2853 | counts the blocks after the checkpoint |
| Allocator.Allocator.FreeAllocatedBlocks | src/cmocka.c:2857-2874 | frees the blocks after the checkpoint in order, up to the first damaged one; those before keep every byte |
| Allocator.Allocator.FailIfBlocksAllocated | src/cmocka.c:2878-2887 | jumps exactly if there is a block after the checkpoint; the blocks before it keep every byte, and those after it are freed up to the first damaged one |
| ClientRuns.Do | src/cmocka.c:2678-2819 | any call of the four functions and any write to a payload keep the heap invariant and all guards; no free fails; the block that is handed out has the size asked for, from calloc it is zero, from realloc it starts with the bytes of the old block, and a write changes just its byte; every byte of the blocks it is not about stays; it jumps exactly if it needs memory, and none is found or the sum of the parts does not fit |
| ClientRuns.Run | src/cmocka.c:2678-2819 | over any run of such calls (those C gives a meaning to are made, the others skipped): each call serves its caller as in the row above, the invariant and all guards are kept, the list of blocks is that of the allocations and frees made, and a block that no call was about keeps every byte |
| ClientRuns.ReadsBack | src/cmocka.c:2678-2819 | a byte of a payload reads back after any run, in the block to which realloc has moved it, until it is overwritten, freed, or cut off by realloc |
| ClientRuns.WriteReadsBack | src/cmocka.c:2678-2819 | so does a byte that was written in the middle of a run |
| ClientRuns.CallocReadsZero | src/cmocka.c:2716-2730 | so does every byte of memory from calloc, as zero |
| ClientRuns.WriteThenRead | src/cmocka.c:2678-2712 | memory that fits and is found can be written at every offset below its size, and reads back |
| ClientRuns.CallocThenRead | src/cmocka.c:2716-2730 | calloc that fits and is found hands out a block whose bytes are zero |
| ClientRuns.ReallocThenRead | src/cmocka.c:2801-2818 | realloc takes the bytes below both sizes along; the block is last in the list then, and the old one is gone |
| ClientRuns.FreeGivesBack | src/cmocka.c:2736-2778 | free takes exactly its block out of the list |
| ClientRuns.OverrunDetected | src/cmocka.c:2748-2773 | one byte written up to 16 places before or behind a payload is found at the free, exactly if it is not the byte that was there |
| ClientRuns.LeaksOfRun | src/cmocka.c:2823-2853 | after any run that keeps the checkpoint's block, the count displayed is the number of blocks allocated since and not yet freed |
| ClientRuns.PayloadByte | src/cmocka.c:2692-2710 | a byte of a payload is in no header, no guard and no other block |
| ClientRuns.PayloadChanged | src/cmocka.c:2692-2710 | so writing to it leaves all guards and all other blocks as they are |
| StringReplace.SubstLength | src/cmocka.c:470-516 | each replacement changes the length by the difference of the two strings |
| StringReplace.ReplaceAt | src/cmocka.c:499-505 | the two copies replace one occurrence in place, inside the buffer |
| StringReplace.FillUp | src/cmocka.c:470-516 | with an empty pattern, copies of the replacement are put in front until there is no more room |
| StringReplace.EmptyRound | src/cmocka.c:470-516 | with an empty pattern and an empty replacement, and room in the buffer, a round changes neither the string nor the position, so that the loop does not end |
| StringReplace.CStrReplace | src/cmocka.c:470-516 | the buffer holds the source with its first k leftmost occurrences replaced, where k is all of them or as many as there was room for; for an empty pattern, FillUp; nothing beyond the buffer is written |
| StringReplace.AllReplacedExactly | src/cmocka.c:492-507 | all occurrences are replaced exactly if the buffer has the room that is computed from the lengths and the number of occurrences |
| XmlEscape.UnescapeEscape | src/cmocka.c:3096-3104 | decoding the predefined entities gives back the source |
| XmlEscape.EscapeInjective | src/cmocka.c:3096-3104 | different sources have different escapes |
| XmlEscape.NoRawMarkup | src/cmocka.c:3096-3104 | the escape has no raw angle bracket or quote |
| XmlEscape.StagesAreEscape | src/cmocka.c:3099-3103 | the five replacements, with the ampersand first, equal one escape of each character |
| XmlEscape.LargeFits | src/cmocka.c:3096-3104 | a buffer of more than six times the source plus two is always large enough |
| XmlEscape.PrepareXmlAttributeString | src/cmocka.c:3096-3104 | the buffer holds the escape of the source exactly if it was large enough; in any case it holds what five replacements, each as far as there was room, leave of the source, cut off to the size of the buffer |
| XmlEscape.StagesLeaveOne | src/cmocka.c:3096-3104 | what is left is determined by the source and the size |
| Glob.AsReadMeaning | src/cmocka.c:537-556 | which patterns are read differently: those that end in two or more stars |
| Glob.TailIsRun | src/cmocka.c:537-556 | what counts as trailing stars: a run that ends the pattern and has no star before it |
| Glob.CodeIsGlob | src/cmocka.c:518-574 | what the code accepts is the glob language of the pattern as it reads it |
| Glob.AgreesExactly | include/cmocka.h:3300-3322 | the code agrees with the documented language on every string exactly if the pattern does not end in two or more stars; if it does, the shortest match is rejected |
| Glob.MatchesConcat | include/cmocka.h:3300-3322 | the documented language of two patterns in a row: strings made of a string of each |
| Glob.MatchesLetter | include/cmocka.h:3300-3322 | the documented language of one character: any string for a star, any one character for a question mark, and itself for any other |
| Glob.StrMatch | src/cmocka.c:518-574 | the recursion from any pair of positions ends, and accepts the rest of the string exactly as CodeIsGlob says |
| Glob.CStrMatch | src/cmocka.c:518-574 | the glob language of the pattern as the code reads it, which is the documented one without two trailing stars; null matches nothing |
| DataDiff.AllZero | src/cmocka.c:1646-1653 | comparing the bytes with themselves shifted by one tells whether all are zero |
| DataDiff.Lossless | src/cmocka.c:1702-1760 | both blocks, with their lengths, can be read back from the dump |
| DataDiff.Injective | src/cmocka.c:1702-1760 | two dumps are the same only if the blocks were |
| DataDiff.ShownExactly | src/cmocka.c:1702-1760 | the dump has exactly these lines: one for a row that is the same in both blocks, two for a row that is not, and a notice if rows of zeros are left out |
| DataDiff.DifferenceShown | src/cmocka.c:1747-1757 | the dump shows a difference exactly if the blocks are not equal |
| DataDiff.PrintDataDiff | src/cmocka.c:1702-1760 | what the loop prints leaves out only full rows of zeros, neither the first nor the last, and can be read back into both blocks |
| Calculator.FindOperatorFunction | example/calculator.c:143-159 | the first operator with the symbol, none exactly if there is none |
| Calculator.ValueIsFold | example/calculator.c:214-247 | the value of an expression is the left fold of its operations, each taken from the table by its symbol, with the total so far as the first operand |
| Calculator.MinusChain | example/calculator.c:214-247 | with subtraction in the table, a chain of it is the first integer minus the sum of the others |
| Calculator.PerformOperation | example/calculator.c:175-256 | succeeds exactly on no arguments and on well-formed expressions; the result is the value, and the intermediate values are those of the shorter expressions |

## Left out

* Messages, source locations and all output formats, except for the rows of the memory dump: I/O.
* Signals, Windows exceptions, `setjmp`, `CMOCKA_TEST_ABORT`: platform control flow; jumps are outcomes.
* Assertions on values, sets, ranges and floating-point numbers, and the check functions behind
  `expect_*`: one-branch facts; a check is an arbitrary predicate on integers that returns.
* `expect_assert_failure` and `mock_assert`: a single jump.
* Run times, threads and thread-local storage.
* The `state` that fixtures and tests share: nothing in the verdict depends on it.
* `CMockaValueData` is an integer; the type tag is what `_mock` compares.
* CircularList.ListRemove: what its callers do to the value of the node (the cleanup function) is in SymbolTree.
* Framework.Cmocka.RunOneTestOrFixture: whether blocks of the test are still allocated at its end is an input
  (`leaks`); HeapPhases.RunOneTestOrFixture has the allocator in it. Both are about memory that no phase has
  broken: after a double free nothing more is claimed.
* HeapPhases.RunOneTestOrFixture: the two heaps are separate; the records of the framework are not blocks of
  the guarded allocator, as in the source, where they come from the C library. If the block of the checkpoint was
  freed (`dangling`), nothing more is claimed.
* Runner.RunGroupTests: the functions of a group are given by the calls they make; a function used in two
  tests is two bodies. It asks of the selected tests and of the group fixtures that no mock frees a record that
  stays in its queue.
* The allocations of the expectation store find their memory; the source does not check that they do.
* Allocator.Allocator.StoreHeader: the links of the list node and the source location inside a header, and the bytes that a
  header consists of, are not modelled; the list of blocks is a sequence of header addresses.
* Allocator.Allocator.TestFree: freeing an address that test_malloc did not return, or one whose header was
  overwritten, is not modelled; C gives it no meaning.
* DataDiff.PrintDataDiff: the index may not wrap, as lengths are mathematical integers.
* StringReplace.CStrReplace: with an empty pattern, an empty replacement and room in the buffer, the loop does not
  end; this is left out.
* ClientRuns.LeaksOfRun: it claims nothing if the checkpoint's block was freed; the checkpoint is then a dangling
  address.
* Calculator.PerformOperation: `strtol` is an arbitrary partial function, operators are total, integers do not
  overflow, and `calloc` finds its memory.
