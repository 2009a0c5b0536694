# The x87-to-AArch64 lowering, as a verified model

Rosetta's x87 extension turns x86 floating-point stack instructions into AArch64 code while the
guest runs.  This project models that code generator and proves what the generated code does.

* A small AArch64 machine (`Arm.dfy`) runs instruction lists: X registers with zero-extending
  32-bit views, D registers that hold 64-bit patterns, NZCV, memory, and forward branches.
* `TranslationResult` (`Translation.dfy`) is the instruction buffer with its scratch registers.
  A ghost field follows the state that the code emitted so far reaches from an arbitrary,
  ghost start; every emitter says how that state changes, so a contract about one emitter is a
  statement about its code on all machine states.
* `X87Model.dfy` gives each x87 instruction its plain meaning on the 8-slot ring, with TOP, tag
  word, status word, flags and AX; floating-point arithmetic is any functions on 64-bit
  patterns.  `X87Deferred.dfy` is the meaning with the translator's three postponements: TOP in a
  register, tag updates of pushes and pops, exchanges as a permutation.
  `X87Refinement.dfy`, `X87Tags.dfy` and `X87Runs.dfy` prove when the two agree; `X87Code.dfy`,
  `TagDigits.dfy`, `PermFlush.dfy`, `X87Batches.dfy`, `X87Compare.dfy`, `X87Translator.dfy`,
  `X87Ops.dfy` and `X87Program.dfy` prove that the emitted code has the deferred meaning inside
  a run and the plain one outside, down to every register and memory cell.
* `X87Fused.dfy`, `X87FusedRuns.dfy`, `X87Fusions.dfy` and `X87FusedProgram.dfy` do the same for
  the fusions of two instructions, alone and in whole runs; `X87Lent.dfy` is about runs that end
  between the two.
* `X87Build.dfy` is the construction of the intermediate form from register-form instructions;
  `X87Denotes.dfy` and `X87Built.dfy` prove that it means what they do, and `X87Compiled.dfy`
  follows it through the passes to what the compiled run writes back.  `X87Lower.dfy` lowers the
  nodes that compute values to instructions, and states the laws the passes need as laws of the
  floating-point unit.
* `X87IR.dfy` gives the intermediate form of a whole run its meaning; `X87Uses.dfy`,
  `X87Rules.dfy`, `X87Optimize.dfy`, `X87ConstArith.dfy`, `X87Parallel.dfy` and `X87Passes.dfy` prove which passes of
  the optimizer keep it, under which laws of arithmetic.
* `X87Numbers.dfy` says in numbers what the names stand for: constants, AX, memory layout.
* `BitmaskImmediate.dfy`, `LoadImmediate.dfy`, `FmovImm8.dfy`, `Addressing.dfy` and
  `OperandAccess.dfy` cover immediates and guest addresses, against DecodeBitMasks and
  VFPExpandImm of the Arm Architecture Reference Manual.
* `Fstp80.dfy` is the branching conversion to the 80-bit format, `X87Store80.dfy` the instruction
  FSTP m80 around it: exchanges, conversion, pop and end of run.
* `Lookahead.dfy` and `Driver.dfy` are the translation driver as a protocol over one mask.
* `Trace.dfy` and `Coalesce.dfy` are the trace file parsers of the scripts.

`dafny verify dfyconfig.toml` checks everything.

## What was found

The deferred translation is exact but for the tag word in every run without FLDCW that does not
end in FNSTSW (`X87Runs.PlainRunAgrees`).  For all other runs `X87Refinement.RunExact` says exactly
when memory, flags and AX come out right, and `X87Tags.TagsExact` does so for the tag word of every
run: a function of the instructions, the entry TOP and the entry tags, stack overflow and wrapped
counters included.

* FNSTSW does not go through `x87_end`.  As the last instruction of a run it leaves an exchange
  unwritten (`ExchangeBeforeStatus`) and popped registers tagged valid (`PopBeforeStatus`).
* FLDCW writes TOP in the middle of a batch of pushes; after FLD, FLDCW, FLD, FSTP, FSTP the TOP
  in memory is one too low (`FldcwInsideBatch`).  FCOM fused with FNSTSW does the same: so after
  FLD, FCOM, FNSTSW, FLD, FSTP, FSTP (`X87FusedRuns.ComparisonInBatch`).
* 128 pending pops wrap the `int8_t` counter and no register is tagged empty (`PopCounterWraps`);
  `PopRun` says for every number of pops when the tags are right.
* Cancelling a push against a pop is exact if and only if the registers pushed onto were tagged
  empty (`CancelledRun`, for the deferred run itself).
* FNSTSW AX clears bits 63 to 32 of RAX, which x86 keeps.  RAX above AX survives a run if and only if
  no FNSTSW is in it or RAX was below 2^32 (`RaxSurvives`, `RaxLost`).
* FSTP m80 compares without saving NZCV.  The guest's flags survive if and only if the exponent is
  zero or they happen to be what the comparison leaves (`FlagsSurvive`, `FlagsLost`).
* `emit_x87_base` reaches 24-bit offsets only (`BaseExact`, `BaseMissed`).
* In the intermediate form FNSTSW keeps its register and its stack offset in `inputs`, where the
  constant pass renames node numbers.  After FLD1, FMULP, FCOMPP, FNSTSW the stored stack offset is
  1 instead of 2, so AX reports the wrong TOP (`X87ConstArith.StatusAfterFold`).  The passes keep
  what a run means if and only if no node is folded whose number an FNSTSW holds
  (`X87ConstArith.ConstArithExact`, `X87Passes.Context.Optimize`).
* FXCH fused with a popping operation takes the tick of the FXCH off the counter, and gives it back
  only if the counter is still positive.  If that was the last tick of a run whose cache is open, the
  operation is translated as outside a run: it reads TOP from memory, where pending pushes have not
  arrived, and computes with the wrong registers; afterwards the cache stays open with no run, and
  its registers are in the free mask.  The pair keeps its meaning from all states if and only if that
  is not the case (`X87Lent.LentTickExact`), and the mask invariant survives a call of the driver if
  and only if it is not (`Driver.TranslationDriver.TranslateInstruction`).  FLD ST(0); FXCH; FADDP
  with FADDP disabled and the whole-run compiler off or declining is an input
  (`X87Lent.CutRun`, `Lookahead.DisabledEndsRun`), and so is a run that the 16-bit counter cuts
  there.  The fixed scratch registers taken there are pinned, which a build with assertions stops at.
  The next run of the block finds the cache open; with bridge and keepalive off, its base, TOP and
  st[0] registers are handed out as scratch (`Driver.TranslationDriver.Prepare`).
* FXCH in the whole-run compiler does not look at whether the two slots could be read.  Once the 128
  nodes are used up the exchange of an unread slot is lost: after 126 FADD and FXCH ST(2) the
  registers are right if and only if ST(0) and ST(2) were equal (`X87Compiled.ExchangeLost`).  In
  general `X87Compiled.BuiltExact` says when they are, and lists with room left always are
  (`RoomIsRight`).
* The fused FSTP, FLD ST(7) reads one element past the permutation when exchanges are pending
  (`X87Fusions.InBounds`); that pair is a stack fault for every guest (`NoFaultInBounds`).
* The comments on register-offset accesses say SXTW; the encoding used is LSL, which the model
  follows.

All but those about the intermediate form concern the translators of single instructions and of
pairs; the driver tries the whole-run compiler first.

## Model

| member | source | states |
|---|---|---|
| X87Program.CompileRun | rosetta_core/src/TranslatorX87.cpp:36-2709 | the code emitted for any list of register-form x87 instructions, from any machine state, leaves the meaning of the list in the X87State, the flags and AX; RAX above AX is as it was, or has lost bits 63 to 32 if an FNSTSW is in the list; no other guest register, no other memory and no other D register of the guest changes |
| X87Program.TranslateList | rosetta_core/src/X87Cache.cpp:191-207 | any list, cut into runs as the driver does with a 16-bit counter, from translator state to translator state; afterwards all scratch registers are free |
| X87Program.TranslateSegment | rosetta_core/src/X87Cache.cpp:191-207 | a run of n instructions counts down once per instruction and has the deferred meaning of its instructions |
| X87Program.TranslateOp | rosetta_core/src/Translator.cpp:295-475 | one instruction has the deferred meaning inside a run, with the last one ending it, and the one it has alone outside |
| X87Program.RunMeaningPlain | rosetta_core/src/TranslatorX87Internal.hpp:73-127 | without FLDCW and a final FNSTSW, registers, TOP, condition codes, control word, flags and AX equal those of executing each instruction at once, from every state |
| X87Program.RunMeaningExact | rosetta_core/src/TranslatorX87Internal.hpp:73-127 | for every run and state, with no precondition: the whole architectural state equals the undeferred one if and only if no lag of TOP is left or was read, the lost exchange swaps equal values and the tag updates agree |
| X87Program.MachineFor | rosetta_core/include/rosetta_core/TranslatorX87Helpers.hpp:28-38 | every x87 state, flags and AX occur in a machine state that CompileRun accepts, with the operand of an FLDCW of any value behind RCX |
| X87Program.Tick | rosetta_core/src/X87Cache.cpp:196-207 | the countdown; at zero the pins are dropped and deferred state is forgotten, but not a pending exchange |
| X87Program.AloneIsPlain | rosetta_core/src/TranslatorX87Internal.hpp:243-320 | with nothing pending, what the uncached translators emit writes the instruction through |
| X87Program.ListIsRun | rosetta_core/src/Translator.cpp:189-211 | up to 32767 instructions are one run |
| X87Program.ListPlain | rosetta_core/src/Translator.cpp:189-211 | a list of any length without FLDCW, none of whose runs ends in FNSTSW, leaves everything but the tag word as the undeferred instructions do |
| X87Program.RaxSurvives | rosetta_core/src/TranslatorX87.cpp:1374-1394 | RAX above AX survives if and only if no FNSTSW is in the list or bits 63 to 32 were clear |
| X87Program.RaxLost | rosetta_core/src/TranslatorX87.cpp:1374-1394 | a RAX that does not |
| X87Program.FcmovAfterFcomi | rosetta_core/src/TranslatorX87.cpp:2501-2539 | FCOMI followed by FCMOVcc, translated in a run or not, moves exactly when the x86 condition on CF, ZF, PF holds |
| X87Refinement.RunExact | rosetta_core/src/TranslatorX87Internal.hpp:243-320 | for every run from every state: control word and flags agree; status word, AX and registers agree exactly when TOP lag, TOP lag at the last FNSTSW and the final permutation allow it |
| X87Tags.TagsExact | rosetta_core/src/TranslatorX87Internal.hpp:199-320 | for every run from every state the tag words agree if and only if the last tag writes of the deferred and of the undeferred run agree at every register, or keep a tag that has that value already |
| X87Tags.RunFollows | rosetta_core/src/TranslatorX87Internal.hpp:199-320 | the tag word after a deferred run is that function of instructions and entry TOP |
| X87Refinement.LostPopsOnly | rosetta_core/src/TranslatorX87Internal.hpp:199-241 | without overflow and with at most 127 pending pops, exactly the pops whose update was lost can make a difference |
| X87Refinement.RunRefines | rosetta_core/src/TranslatorX87Internal.hpp:188-320 | the simulation relation holds after every run: all eight ST(i) read through permutation and TOP register agree, and tags once deferred updates are applied |
| X87Refinement.PushRefines | rosetta_core/src/TranslatorX87Internal.hpp:243-266 | a deferred push refines a push |
| X87Refinement.PopRefines | rosetta_core/src/TranslatorX87Internal.hpp:268-301 | a cancelled or deferred pop refines a pop |
| X87Refinement.Pop2Refines | rosetta_core/src/TranslatorX87Internal.hpp:303-320 | the fused double pop refines two pops |
| X87Refinement.FlushPermRefines | rosetta_core/src/TranslatorX87Internal.hpp:59-71 | after the flush the registers in memory are those of executing every exchange at once |
| X87Refinement.SwapRefines | rosetta_core/src/TranslatorX87.cpp:1606-1617 | swapping two entries of the permutation refines exchanging two registers |
| X87Runs.PlainRunAgrees | rosetta_core/src/TranslatorX87Internal.hpp:73-127 | the class of runs that always come out right |
| X87Runs.PlainRunTags | rosetta_core/src/TranslatorX87Internal.hpp:73-127 | such a run is right in everything if and only if its tag writes are |
| X87Runs.NoOverflowIsRight | rosetta_core/src/TranslatorX87Internal.hpp:73-127 | they are without stack overflow, unless the counter of pops wraps |
| X87Runs.FullAgreement | rosetta_core/src/TranslatorX87.cpp:2629-2652 | a run that does not end in FNSTSW agrees in everything if and only if no lag of TOP is left and the tag writes agree, for every run and state |
| X87Runs.FldcwInsideBatch | rosetta_core/src/TranslatorX87.cpp:2629-2652 | from every state FLD, FLDCW, FLD, FSTP, FSTP leaves TOP one too low in memory |
| X87Runs.ExchangeBeforeStatus | rosetta_core/src/TranslatorX87.cpp:1336-1408 | FXCH, FNSTSW leaves the registers as they were; right if and only if the two values are equal |
| X87Runs.PopBeforeStatus | rosetta_core/src/TranslatorX87.cpp:1366-1374 | FCOMP, FNSTSW leaves the tag word as it was; right if and only if the register was already empty |
| X87Runs.PopCounterWraps | rosetta_core/include/rosetta_core/X87Cache.h:24-25 | after 128 pops in a run no tag has changed, where all should be empty |
| X87Runs.PopRun | rosetta_core/include/rosetta_core/X87Cache.h:24-25 | for every number n of pops: the tags are right if and only if the registers that the wrapped counter leaves out were empty |
| X87Runs.CancelledRun | rosetta_core/src/TranslatorX87Internal.hpp:268-290 | a deferred run of balanced pushes and pops at most eight deep leaves the tag word alone; right if and only if the registers it passed through were empty |
| X87Runs.BalancedEffect | rosetta_core/src/TranslatorX87Internal.hpp:268-290 | any balanced sequence of pushes and pops restores TOP and marks empty exactly the registers it passed through |
| X87Runs.CancellingIsExact | rosetta_core/src/TranslatorX87Internal.hpp:268-290 | undeferred, a balanced sequence restores the whole state if and only if these were empty before |
| X87Batches.PushTimesIs | rosetta_core/src/TranslatorX87Helpers.cpp:226-262 | k eager pushes in closed form |
| X87Batches.PopTimesIs | rosetta_core/src/TranslatorX87Helpers.cpp:316-350 | k eager pops in closed form, for every k |
| X87Batches.EmitPushBatch | rosetta_core/src/TranslatorX87Helpers.cpp:499-632 | k deferred pushes, the batched tag update with its wrap fold and one store of TOP equal k eager pushes |
| X87Batches.EmitPopBatch | rosetta_core/src/TranslatorX87Helpers.cpp:515-590 | k deferred pops, the batched tag update and one store of TOP equal k eager pops |
| X87Fused.FusionExact | rosetta_core/src/TranslatorX87Fusion.cpp:186-604 | each of seven kinds of pairs, fused, has the meaning of its two instructions if and only if what it does not write is there already |
| X87Fused.FusedRefines | rosetta_core/src/TranslatorX87Fusion.cpp:186-604 | inside a run the fused form refines that meaning with everything deferred |
| X87Fused.LoadFusionExact | rosetta_core/src/TranslatorX87Fusion.cpp:186-444 | FLD with a popping operation or FSTP ST(1): equal but for one register and its tag, which is empty |
| X87Fused.ExchangeFusionExact | rosetta_core/src/TranslatorX87Fusion.cpp:297-480 | FXCH with a popping operation or FSTP ST(1): equal but for the register popped, if FADDP and FMULP commute on the operands |
| X87Fused.StoreFusionExact | rosetta_core/src/TranslatorX87Fusion.cpp:1800-1899 | FSTP with a load: equal but for one tag |
| X87Fused.StatusFusionExact | rosetta_core/src/TranslatorX87Fusion.cpp:505-604 | FCOM, FCOMP and FCOMPP with FNSTSW: equal, AX included |
| X87Fused.LoadPairs | rosetta_core/src/TranslatorX87Fusion.cpp:186-444 | what FLD with a popping operation, reversed or not, or with FSTP ST(1) leaves in ST(0) |
| X87Fused.ExchangePairs | rosetta_core/src/TranslatorX87Fusion.cpp:297-480 | and FXCH with them |
| X87FusedRuns.FusionAlike | rosetta_core/src/TranslatorX87Fusion.cpp:186-604 | no program without stack faults can tell a fusion from its two instructions |
| X87FusedRuns.EagerAlike | rosetta_core/src/TranslatorX87.cpp:36-2709 | no single instruction without a stack fault can tell apart states that differ in the contents of empty registers |
| X87FusedRuns.JointRun | rosetta_core/src/TranslatorX87Fusion.cpp:2021-2074 | over every run of instructions and fusions without stack faults the instructions, the fused forms and the deferred translation stay in step, and never more than eight pops are pending |
| X87FusedRuns.FusedRunExact | rosetta_core/src/TranslatorX87Fusion.cpp:2021-2074 | every such run, also one that ends in FNSTSW, leaves what the program can see as its instructions do, if and only if no lag of TOP is left or was read, no pop is pending and the exchanges left pending move equal values |
| X87FusedRuns.FlushedRunExact | rosetta_core/src/TranslatorX87Internal.hpp:73-127 | for a run that ends in anything else only the lag of TOP matters |
| X87FusedRuns.FusedRunPlain | rosetta_core/src/TranslatorX87Fusion.cpp:2021-2074 | that is so for all runs with neither FLDCW nor the two fusions that store TOP |
| X87FusedRuns.ComparisonInBatch | rosetta_core/src/TranslatorX87Fusion.cpp:505-604 | a run in which it is not, from every state with room for two pushes |
| X87Fusions.TranslateFusion | rosetta_core/src/TranslatorX87Fusion.cpp:2021-2074 | the emitted code of every such pair, outside a run or with any counter, and the end of the run if the pair or its first instruction is the last; with the last tick lent and the cache open, what the code does instead |
| X87Fusions.FuseFxchArithp | rosetta_core/src/TranslatorX87Fusion.cpp:297-376 | FXCH with a popping operation, the counter lowered and raised again around it |
| X87Fusions.FuseLent | rosetta_core/src/TranslatorX87Fusion.cpp:328-374 | with the last tick lent and the cache open: TOP is read from memory, tags and exchanges are flushed against it, and the cache stays open outside any run |
| X87Lent.LentTickExact | rosetta_core/src/TranslatorX87Fusion.cpp:328-374 | FXCH with a popping operation keeps its meaning from all states if and only if it is not the last tick of a run whose cache is open |
| X87Lent.OthersKeepMeaning | rosetta_core/src/TranslatorX87Internal.hpp:73-127 | the other six kinds keep it with any counter |
| X87Lent.LentStatus | rosetta_core/src/TranslatorX87Internal.hpp:28-50 | with the tick lent, the status word is right if and only if memory already held the right TOP |
| X87Lent.RunByWhole | rosetta_core/src/X87Cache.cpp:191-207 | a run whose counter ends inside its last pair means what the whole run does, unless that pair lends its tick |
| X87Lent.RunByClosed | rosetta_core/src/X87Cache.cpp:191-207 | and also if it does, where nothing before it opened the cache |
| X87Lent.CutRun | rosetta_core/src/TranslatorX87Fusion.cpp:328-374 | FLD ST(0); FXCH, FADDP with FADDP not counted: from every state TOP ends one too high and the two registers below the loaded one are added |
| X87Fusions.FuseFcomFstsw | rosetta_core/src/TranslatorX87Fusion.cpp:505-604 | the comparison codes reach memory and AX, and TOP in AX is the one after the pops; bits 63 to 32 of RAX are cleared |
| X87FusedProgram.CompileItems | rosetta_core/src/Translator.cpp:262-295 | from machine state to machine state: the code of a run of instructions and fusions, whose counter may end inside the last pair, has the meaning the translators give it (the deferred one by `RunByWhole`), with RAX exactly as stated and everything else as it was |
| X87FusedProgram.NoFaultInBounds | rosetta_core/src/TranslatorX87Fusion.cpp:1862-1867 | no run without stack faults looks past the permutation |
| X87Passes.Context.Optimize | rosetta_core/src/X87IROptimize.cpp:681-706 | after all passes the run leaves the same stack, condition codes and world on every machine that obeys the laws, if and only if the constant pass folded no node whose number an FNSTSW holds |
| X87Compiled.Compile | rosetta_core/src/X87IRLower.cpp:2003-2037 | the list is built and optimized in place; for every lawful floating-point unit the optimized run, written back, leaves what its instructions leave if and only if unread slots were left in place or hold equal values; if no FNSTSW comes with TOP above its start, the passes change nothing for any machine that obeys the laws |
| X87Compiled.BuiltExact | rosetta_core/src/X87IRBuild.cpp:794-1184 | the same for the list as built, on any floating-point unit for which FCHS twice is nothing: for every list of register-form instructions and every state in which they cause no stack fault |
| X87Compiled.RoomIsRight | rosetta_core/src/X87IRBuild.cpp:1038-1051 | a list with room left is right from every such state |
| X87Compiled.ExchangeLost | rosetta_core/src/X87IRBuild.cpp:1038-1051 | a list that fills the nodes before an FXCH: right if and only if the two registers were equal |
| X87Compiled.WrittenExact | rosetta_core/src/X87IRLower.cpp:1407-1515 | registers, TOP and tags as written back at the end, relative to the final TOP |
| X87Compiled.OptimizedExact | rosetta_core/src/X87IROptimize.cpp:681-706 | for every lawful floating-point unit any list equivalent to the one built leaves the same, with the same condition |
| X87Denotes.OpDenotes | rosetta_core/src/X87IRBuild.cpp:808-1181 | building any one instruction (an FNSTSW with TOP less than 128 above its start) adds its meaning to what the list means, stack faults or not, and where it fails leaves that meaning as it was |
| X87Denotes.MachineOfImplements | rosetta_core/include/rosetta_core/X87IR.h:28-100 | every floating-point unit and state at entry have a machine for the list |
| X87Built.RunTracks | rosetta_core/src/X87IRBuild.cpp:808-1181 | over the whole run: that meaning, the tag word as a function of the move of TOP, popped slots empty, and unread slots in place while there is room |
| X87Built.EagerTags | rosetta_core/src/X87IRLower.cpp:1468-1510 | without stack faults every instruction keeps the tag word what the move of TOP says it is |
| X87Build.Build | rosetta_core/src/X87IRBuild.cpp:808-1181 | the loop over the instructions, which stops at the first that does not build; by `BuiltExact` and `LoweredIs` its nodes are the instructions' operations |
| X87Lower.LoweredIs | rosetta_core/src/X87IRLower.cpp:941-1058 | the instruction a value node is lowered to, by the opcode fields of its encoding and with the registers of its inputs in order, leaves the value of the node in its register and changes nothing else |
| X87Lower.LoweredConstants | rosetta_core/src/X87IRLower.cpp:941-952 | the two constants of the builder become the numbers 1 and positive zero |
| X87Lower.ObeysExact | rosetta_core/src/X87IROptimize.cpp:39-396 | a machine of a floating-point unit obeys what the passes need if and only if the unit does: x + (-y) is x - y, x / 1 is x, dividing by a power of two is multiplying by its reciprocal, and so on |
| X87Lower.ReciprocalIs | rosetta_core/src/X87IROptimize.cpp:128-139 | the constant written for the reciprocal, times the old one, is 1, and the old one is a power of two |
| X87Lower.PowerOfTwoExact | rosetta_core/src/X87IROptimize.cpp:133-139 | which patterns are taken: no fraction, and an exponent from 1 to 2045 |
| X87ConstArith.LowNoHit | rosetta_core/src/X87IROptimize.cpp:82-99 | if no FNSTSW holds a stack offset above zero, the constant pass folds no node whose number one holds |
| X87ConstArith.FoldsExactly | rosetta_core/src/X87IROptimize.cpp:101-126 | folded are x * 1, 1 * x, x / 1, x - 0 and x + (-0), and nothing else |
| X87ConstArith.ConstArithExact | rosetta_core/src/X87IROptimize.cpp:66-170 | for every list: that pass keeps the meaning if and only if it never does so |
| X87ConstArith.StatusAfterFold | rosetta_core/src/X87IROptimize.cpp:82-99 | FLD1, FMULP, FCOMPP, FNSTSW is a list for which it does |
| X87ConstArith.InvertSame | rosetta_core/src/X87IROptimize.cpp:128-139 | division by a power of two becomes multiplication, with the constant overwritten in place |
| X87ConstArith.FoldSame | rosetta_core/src/X87IROptimize.cpp:82-126 | folding a neutral operation, renaming it everywhere and killing it and its constant keeps the meaning |
| X87Passes.Context.ConstArith | rosetta_core/src/X87IROptimize.cpp:66-170 | the loop over the nodes, with its renaming loops, is that pass |
| X87Passes.Context.DeadCompares | rosetta_core/src/X87IROptimize.cpp:23-37 | exactly the comparisons that a later one overwrites before an FNSTSW reads them are killed, and the meaning is kept on every machine |
| X87Optimize.DeadCompareSame | rosetta_core/src/X87IROptimize.cpp:23-37 | so does each of them |
| X87Passes.Context.Dse | rosetta_core/src/X87IROptimize.cpp:178-249 | dead-store elimination keeps the meaning; afterwards every live value is used |
| X87Passes.Context.FnegFold | rosetta_core/src/X87IROptimize.cpp:264-319 | absorbing negations keeps the meaning where adding a negation is subtracting; the list afterwards is the one that `AllAtOnce` describes |
| X87Passes.Context.Fma | rosetta_core/src/X87IROptimize.cpp:331-396 | fusing products keeps the meaning where a fused operation is the two it replaces; the list afterwards is the one that `AllAtOnce` describes |
| X87Parallel.Turn | rosetta_core/src/X87IROptimize.cpp:264-396 | the loop with its running counters does with each node what the initial list alone says: a sum absorbs a product or a negation that is used once there, a negated product becomes FNMUL first, and each node absorbed dies |
| X87Parallel.AtTurn | rosetta_core/src/X87IROptimize.cpp:264-396 | at the turn of a node its input has not been absorbed, and its counter is one if and only if it was used once in the initial list |
| X87Passes.FmaLawExact | rosetta_core/src/X87IROptimize.cpp:331-396 | on a machine, all fusions of products in all lists keep the meaning if and only if a fused operation is the two it replaces |
| X87Passes.FmaExact | rosetta_core/src/X87IROptimize.cpp:331-396 | for each form of the fusion and any three constants a list of five nodes on which the law is needed |
| X87Optimize.RewritingStep | rosetta_core/src/X87IROptimize.cpp:278-317 | with counters that are never too low, a single-use input can be absorbed and killed |
| X87Passes.Context.CountUses | rosetta_core/src/X87IROptimize.cpp:68-79 | the counters at the start of a pass are exact |
| X87Passes.Context.FuseStatus | rosetta_core/src/X87IROptimize.cpp:651-677 | every FNSTSW paired with a comparison is fused with it |
| X87Passes.FusedReads | rosetta_core/src/X87IROptimize.cpp:651-677 | the condition codes such an FNSTSW reads are those of its comparison |
| X87IR.Simulates | rosetta_core/include/rosetta_core/X87IR.h:117-177 | a list whose nodes follow those of another, over changed values, has its effects |
| X87Code.EmitPush | rosetta_core/src/TranslatorX87Helpers.cpp:226-263 | the code is a push on the X87State; only the named scratch registers change besides |
| X87Code.EmitPop | rosetta_core/src/TranslatorX87Helpers.cpp:316-350 | the code is a pop |
| X87Code.EmitPopN | rosetta_core/src/TranslatorX87Helpers.cpp:402-444 | n registers from TOP become empty and TOP moves by n |
| X87Code.EmitPopNDeferred | rosetta_core/src/TranslatorX87Helpers.cpp:452-486 | the same with TOP in its register only |
| X87Code.EmitTagClear | rosetta_core/src/TranslatorX87Helpers.cpp:533-548 | the register at TOP becomes valid |
| X87Code.EmitTagSetEmptyBatch | rosetta_core/src/TranslatorX87Helpers.cpp:562-590 | the count registers below TOP become empty |
| X87Code.EmitTagSetValidBatch | rosetta_core/src/TranslatorX87Helpers.cpp:605-632 | the count registers from TOP become valid, cyclically |
| X87Code.FoldedIsArc | rosetta_core/src/TranslatorX87Helpers.cpp:620-625 | the folded mask covers exactly the cyclic range |
| X87Code.FoldedValue | rosetta_core/src/TranslatorX87Helpers.cpp:614-625 | the number computed by the shift and the folding ORR is that mask |
| TagDigits.BicDigits | rosetta_core/src/TranslatorX87Helpers.cpp:626-629 | BIC with a mask of 2-bit fields clears exactly these fields |
| TagDigits.OrDigits | rosetta_core/src/TranslatorX87Helpers.cpp:330-335 | ORR with such a mask sets exactly these fields |
| TagDigits.MaskValue | rosetta_core/src/TranslatorX87Helpers.cpp:614-620 | the mask of a range of fields is all ones shifted |
| X87Code.EmitStoreTop | rosetta_core/src/TranslatorX87Helpers.cpp:90-103 | only the TOP field of the status word changes |
| X87Code.EmitBase | rosetta_core/src/TranslatorX87Helpers.cpp:17-36 | the base address, for offsets modulo 2^24 |
| X87Code.BaseExact | rosetta_core/src/TranslatorX87Helpers.cpp:17-36 | it is the address meant if and only if the offset is below 2^24 |
| X87Code.BaseMissed | rosetta_core/src/TranslatorX87Helpers.cpp:17-36 | an offset for which it is not |
| X87Code.EmitLoadTop | rosetta_core/src/TranslatorX87Helpers.cpp:62-86 | TOP is read through either addressing form |
| X87Code.EmitLoadSt | rosetta_core/src/TranslatorX87Helpers.cpp:139-168 | ST(i) is loaded, cached and uncached, and the key returned addresses the same slot |
| X87Code.EmitStoreSt | rosetta_core/src/TranslatorX87Helpers.cpp:174-197 | ST(i) and nothing else is stored |
| X87Code.EmitStoreStAtOffset | rosetta_core/src/TranslatorX87Helpers.cpp:205-212 | a store through the key of an earlier load |
| PermFlush.EmitPermFlush | rosetta_core/src/TranslatorX87Helpers.cpp:727-759 | the cycle-by-cycle moves terminate and set every ST(i) to the old ST(perm[i]) |
| PermFlush.Inverse | rosetta_core/src/TranslatorX87Helpers.cpp:741-757 | every permutation has an inverse, which the cycles follow |
| X87Translator.Translator.Begin | rosetta_core/src/TranslatorX87Internal.hpp:28-50 | base, TOP and, inside a run, the address of st[0] are in the pinned registers; memory and deferred state are untouched |
| X87Translator.Translator.Push | rosetta_core/src/TranslatorX87Internal.hpp:243-266 | the code and bookkeeping of a push, registers in use elsewhere survive |
| X87Translator.Translator.Pop | rosetta_core/src/TranslatorX87Internal.hpp:268-301 | the code and bookkeeping of a pop |
| X87Translator.Translator.PopTwo | rosetta_core/src/TranslatorX87Internal.hpp:303-320 | the code and bookkeeping of the double pop |
| X87Translator.Translator.FlushTags | rosetta_core/src/TranslatorX87Internal.hpp:199-239 | pending pops, then pending pushes, are written to the tag word |
| X87Translator.Translator.FlushPermutation | rosetta_core/src/TranslatorX87Internal.hpp:59-71 | the pending exchanges are written, scratch registers returned |
| X87Translator.Translator.End | rosetta_core/src/TranslatorX87Internal.hpp:73-127 | the last instruction of a run flushes everything in order; scratch registers not pinned are free |
| X87Ops.TranslateFld | rosetta_core/src/TranslatorX87.cpp:228-247 | FLD ST(i) pushes the value ST(i) had before TOP moved |
| X87Ops.TranslateConstant | rosetta_core/src/TranslatorX87.cpp:36-93 | FLDZ and FLD1 push positive zero and the number 1, inside a run and alone |
| X87Numbers.LoadsNumbers | rosetta_core/src/TranslatorX87.cpp:66-86 | undeferred, FLD1 leaves the number 1 in ST(0) and FLDZ positive zero |
| X87Program.RunLoadsNumbers | rosetta_core/src/TranslatorX87.cpp:36-93 | so does any run without FLDCW that ends in one of them |
| X87Numbers.ImmediateIs | rosetta_core/src/AssemblerHelpers.cpp:575-602 | the number every FMOV immediate stands for |
| X87Numbers.CompareReported | rosetta_core/src/TranslatorX87.cpp:1336-1555 | after FCOM and FNSTSW bits 8, 10 and 14 of AX say less, unordered and equal, bit 9 is clear and bits 11 to 13 are TOP |
| X87Numbers.PushAndPop | rosetta_core/src/TranslatorX87Helpers.cpp:226-350 | a push moves TOP down and marks its register 0, a pop moves it up and marks the register it leaves 3 |
| X87Numbers.Operands | rosetta_core/src/TranslatorX87.cpp:426-531 | which operand of the reversed and the popping forms is on the left |
| X87Numbers.Transfers | rosetta_core/src/TranslatorX87.cpp:1268-1746 | what FCHS, FABS, FSQRT, FST and FXCH do to every register |
| X87Numbers.RegisterAt | rosetta_core/include/rosetta_core/TranslatorX87Helpers.hpp:28-38 | ST(i) is eight bytes at 8 + 8 * ((TOP + i) mod 8) of the X87State |
| X87Numbers.StatusAtTwo | rosetta_core/include/rosetta_core/TranslatorX87Helpers.hpp:28-38 | the control word, TOP and the condition codes in it |
| X87Numbers.TagAtFour | rosetta_core/include/rosetta_core/TranslatorX87Helpers.hpp:28-38 | the tag of register k is bits 2k and 2k + 1 |
| X87Ops.TranslateArith | rosetta_core/src/TranslatorX87.cpp:426-440 | register-form add, subtract, multiply, divide, and the reversed forms |
| X87Ops.TranslateArithPop | rosetta_core/src/TranslatorX87.cpp:504-531 | the popping forms store before TOP moves |
| X87Ops.TranslateUnary | rosetta_core/src/TranslatorX87.cpp:1663-1746 | FCHS, FABS and FSQRT replace ST(0) |
| X87Ops.TranslateFst | rosetta_core/src/TranslatorX87.cpp:1268-1305 | FST and FSTP to a register, ST(0) included |
| X87Ops.TranslateFxch | rosetta_core/src/TranslatorX87.cpp:1586-1641 | an exchange: bookkeeping only inside a run, two loads and two stores outside |
| X87Ops.TranslateFcom | rosetta_core/src/TranslatorX87.cpp:1457-1555 | the condition codes of the comparison are in the status word, the guest's flags survive, and the pop follows |
| X87Ops.TranslateFcompp | rosetta_core/src/TranslatorX87.cpp:1457-1555 | the same with two pops |
| X87Ops.TranslateFtst | rosetta_core/src/TranslatorX87.cpp:2315-2345 | comparison with zero, after TOP and tags are written |
| X87Ops.TranslateFcomi | rosetta_core/src/TranslatorX87.cpp:2228-2294 | the guest's flags become those of the comparison |
| X87Ops.TranslateFcmov | rosetta_core/src/TranslatorX87.cpp:2496-2545 | ST(0) receives ST(i) exactly when the condition holds |
| X87Ops.TranslateFstsw | rosetta_core/src/TranslatorX87.cpp:1336-1408 | AX receives the status word with TOP and push tags written, other deferred state left as it is; bits 31 to 16 of RAX survive and bits 63 to 32 are cleared |
| X87Ops.EmitStatusToAx | rosetta_core/src/TranslatorX87.cpp:1374-1394 | bits 31 to 16 of EAX survive, bits 63 to 32 of RAX are cleared |
| X87Ops.TranslateFldcw | rosetta_core/src/TranslatorX87.cpp:2629-2652 | the control word is loaded through any operand that OperandAccess addresses after TOP is written; tags and exchanges stay deferred |
| X87Compare.EmitFcomCcPack | rosetta_core/src/TranslatorX87Helpers.cpp:777-807 | from the flags of a comparison the packed C3, C2, C0, for every outcome; the saved flags are restored |
| X87Compare.EmitFcomCcWriteSw | rosetta_core/src/TranslatorX87Helpers.cpp:843-863 | C3, C2, C0 are set, C1 cleared, every other bit of the status word kept |
| X87Compare.JoinedCc | rosetta_core/src/TranslatorX87Helpers.cpp:852-857 | ORR of the cleared status word and the packed codes is the new status word |
| X87Compare.EmitFcomiFlags | rosetta_core/src/TranslatorX87.cpp:2246-2282 | NZCV in the layout later instructions expect, unordered included |
| BitmaskImmediate.IsBitmaskImmediate | rosetta_core/src/AssemblerHelpers.cpp:26-104 | at both widths: a triple is returned if and only if one exists, and it decodes to the value |
| BitmaskImmediate.FindElementSize | rosetta_core/src/AssemblerHelpers.cpp:42-56 | the value repeats with the size found, and its halves differ |
| BitmaskImmediate.SameSize | rosetta_core/src/AssemblerHelpers.cpp:42-56 | no value has a logical-immediate element of any other size |
| BitmaskImmediate.ContiguousIs | rosetta_core/src/AssemblerHelpers.cpp:66-68 | the fill-and-carry test accepts exactly the single runs of ones |
| BitmaskImmediate.EncodeDecodes | rosetta_core/src/AssemblerHelpers.cpp:98-103 | the three fields decode to the replicated rotated run |
| BitmaskImmediate.UniformNotEncodable | rosetta_core/src/AssemblerHelpers.cpp:29-38 | zero and all ones have no encoding |
| LoadImmediate.EmitLoadImmediate | rosetta_core/src/TranslatorHelpers.cpp:68-145 | the register returned holds the value truncated to the width; which register, and how many instructions |
| LoadImmediate.EmitLoadImmediateNoXzr | rosetta_core/src/TranslatorHelpers.cpp:147-155 | the same for zero, always in the given register |
| LoadImmediate.EmitChunks | rosetta_core/src/TranslatorHelpers.cpp:99-142 | MOVZ, MOVN and MOVK build the value in exactly max(1, chunks - max(zero chunks, 0xFFFF chunks)) instructions |
| LoadImmediate.CountSpan | rosetta_core/src/TranslatorHelpers.cpp:114-142 | the instructions between the highest and the lowest significant chunk add up to that number |
| FmovImm8.FmovImm8 | rosetta_core/src/AssemblerHelpers.cpp:587-598 | an imm8 is returned if and only if one expands to the pattern, and it is the only one |
| Addressing.ComputeMemOperandAddress | rosetta_core/src/TranslatorHelpers.cpp:194-466 | for every operand shape, width and hint the register returned holds the effective address; only the hint and one free register change, flags and memory do not |
| Addressing.EncodeDispIs | rosetta_core/src/TranslatorHelpers.cpp:209-240 | which displacements one ADD or SUB can add, and that it adds them |
| Addressing.AddressOf | rosetta_core/src/TranslatorHelpers.cpp:194-208 | [RBX + 8 * RSI - 16] at both widths |
| OperandAccess.ComputeOperandAddress | rosetta_core/src/TranslatorHelpers.cpp:480-608 | the same with FS and GS overrides and absolute operands; exactly the register returned leaves the pool |
| OperandAccess.ComputeOperandAccess | rosetta_core/src/TranslatorHelpers.cpp:610-633 | folded or not, the access reaches the operand's address and the second access the one above it; folding emits nothing |
| OperandAccess.EncodedOffset | rosetta_core/src/AssemblerHelpers.cpp:312-318 | the scaled or the sign-extended field holds the displacement |
| OperandAccess.FoldedEncodes | rosetta_core/src/AssemblerHelpers.cpp:312-318 | a displacement that is classified fits its field, also 8 bytes on |
| OperandAccess.EmitMemAccess | rosetta_core/src/TranslatorHelpers.cpp:635-662 | one load or store at the operand's address; the pool is as before and no register in use changes |
| OperandAccess.EmitLoadIntOperand | rosetta_core/src/TranslatorHelpers.cpp:664-685 | the register returned holds the sign-extended operand and is the only one taken |
| Fstp80.EmitStoreF80 | rosetta_core/src/TranslatorX87.cpp:1133-1250 | for every pattern and operand exactly the ten bytes of the 80-bit form are written and the flags are exactly those the comparison left, or untouched if the exponent is zero; the pool is as before |
| Fstp80.FlagsSurvive | rosetta_core/src/TranslatorX87.cpp:1194-1202 | when the guest's flags survive |
| Fstp80.FlagsLost | rosetta_core/src/TranslatorX87.cpp:1194-1202 | a value and flags for which they do not |
| X87Store80.TranslateFstp80 | rosetta_core/src/TranslatorX87.cpp:1133-1259 | FSTP m80 in and outside a run: ST(0), through the pending exchanges, in the ten bytes of the operand, then the pop and the end of the run |
| Fstp80.ConversionPath | rosetta_core/src/TranslatorX87.cpp:1189-1243 | every pattern takes one of the three paths, and all meet at the end with the right bytes stored |
| X87Numbers.OneIn80Bits | rosetta_core/src/TranslatorX87.cpp:1205-1225 | the ten bytes of the number 1 |
| Fstp80.NormalKeepsValue | rosetta_core/src/TranslatorX87.cpp:1205-1225 | normal numbers keep their value |
| Fstp80.KeepsClass | rosetta_core/src/TranslatorX87.cpp:1205-1243 | infinities, NaNs and the sign are kept, denormals become zeros, and the encoding is always a proper one |
| Fstp80.Injective | rosetta_core/src/TranslatorX87.cpp:1205-1243 | no two patterns other than denormals are merged, so payloads are kept |
| Lookahead.Lookahead | rosetta_core/src/X87Cache.cpp:351-390 | the scan computes the run length |
| Lookahead.RunIsSound | rosetta_core/include/rosetta_core/X87Cache.h:118-129 | a run consists of members and bridgeable instructions and ends on a member |
| Lookahead.RunContents | rosetta_core/src/X87Cache.cpp:354-388 | who is in a run: x87 instructions that are not disabled, transcendentals with keepalive on, and with the bridge on what needs at most four registers; a run begins and ends with one of the first two |
| Lookahead.PlainRun | rosetta_core/src/X87Cache.cpp:354-370 | without the bridge a run is exactly the leading ones |
| Lookahead.GapsAreShort | rosetta_core/include/rosetta_core/X87Cache.h:122-131 | any seventeen instructions of a run include a member |
| Lookahead.DisabledEndsRun | rosetta_core/src/X87Cache.cpp:343-358 | a disabled instruction ends the run just before it, also between the two of a pair |
| Lookahead.RunIsMaximal | rosetta_core/src/X87Cache.cpp:365-388 | a run cannot be extended: no member follows it, and no bridge of at most 16 instructions leads to one |
| Driver.FreshRunIs | rosetta_core/src/Translator.cpp:201-211 | if exactly n instructions from here on are x87 instructions that are not disabled, or transcendentals with keepalive on, the counter of a new run without the bridge is n as a 16-bit number, and zero below two |
| Driver.FreshRunCounts | rosetta_core/include/rosetta_core/X87Cache.h:118-129 | a new run lies in the block and, not cut to 16 bits, ends on an instruction with a translator or a keepalive transcendental |
| Driver.TranslationDriver.TranslateInstruction | rosetta_core/src/Translator.cpp:176-590 | with any outcome of compiler and fusions: the index moves by as many instructions as the compiler or the fusion took, else by one, and the counter of the run by the same number or to zero; the mask excludes the pins on return if and only if no tick was lent with the cache open; an admissible instruction handed over finds more free registers than its demand, and one that is neither bridged nor kept alive finds all eight |
| Driver.TranslationDriver.FuseLending | rosetta_core/src/TranslatorX87Fusion.cpp:328-374 | the counter around a lent tick; nothing is pinned outside a run afterwards if and only if it was not the last tick with the cache open |
| Driver.TranslationDriver.CountRun | rosetta_core/src/Translator.cpp:201-211 | outside a run, and with the cache on, the counter becomes that of the run that starts here, and is left alone below two instructions |
| Driver.TranslationDriver.Prepare | rosetta_core/src/Translator.cpp:185-222 | new block, new run, mask: the counter is kept in a run, else that of a new run; after a lent tick in the same block the next run finds its cache open, and the mask excludes the pins if and only if a run starts and bridge or keepalive is on |
| Driver.TranslationDriver.HandOver | rosetta_core/src/Translator.cpp:477-568 | keepalive, bridge or invalidation; the first two keep the cache, and otherwise no run is left and all registers are free |
| Driver.TranslationDriver.Bridge | rosetta_core/src/Translator.cpp:513-561 | carried registers are dropped or given back as needed; strictly more registers than the demand are free |
| Driver.TranslationDriver.HookTranslate | rosetta_core/src/CustomTranslationHook.cpp:51-74 | what one call translates and who does it; the end of a run does not move while the run lasts, and the run stays inside the block; the mask invariant survives, the reset after the stock translator included, if and only if no tick was lent with the cache open |
| Driver.TranslationDriver.TranslateBlock | rosetta_core/src/CustomTranslationHook.cpp:51-74 | any number of calls with any outcomes cut the block into consecutive pieces, each as long as its component says, up to its end or the first lent tick with the cache open; the mask invariant holds up to there and not beyond |
| Driver.EveryOnce | rosetta_core/src/Translator.cpp:575-589 | consecutive pieces have every instruction exactly once |
| Driver.TranslationDriver.ManyFree | rosetta_core/include/rosetta_core/X87Cache.h:35-40 | at least three registers stay free whatever is pinned, five when nothing is carried |
| Driver.TranslationDriver.CarriedRelease | rosetta_core/src/X87Cache.cpp:97-103 | all carried registers return to the mask |
| Driver.TranslationDriver.CarriedDropWritten | rosetta_core/src/X87Cache.cpp:105-116 | exactly the bases computed from a written register are dropped |
| Driver.PopCount | rosetta_core/src/Translator.cpp:537-539 | the bit-clearing loop counts the free registers |
| Driver.ClearLowest | rosetta_core/src/Translator.cpp:537-539 | v & (v - 1) has one bit fewer |
| Trace.RoundTrip | scripts/parse_rosetta_trace.py:11-19 | both parsers recover every list of records, and records are 8-aligned |
| Trace.LoaderCut | scripts/ida_rosetta_trace_loader.py:156-182 | from a file cut at any byte the loader returns exactly the records with header and payload before the cut |
| Trace.WholeMeans | scripts/ida_rosetta_trace_loader.py:164-175 | which records these are, by offsets |
| Trace.ScriptCut | scripts/parse_rosetta_trace.py:171-191 | the script returns these and, if only payload is missing, one short record more |
| Trace.ParseRecords | scripts/ida_rosetta_trace_loader.py:156-182 | the loop computes the loader's parser, which `LoaderReads` gives by bytes |
| Trace.ParseTrace | scripts/parse_rosetta_trace.py:171-191 | the loop computes the script's parser, which `ScriptReads` gives by bytes |
| Trace.LoaderReads | scripts/ida_rosetta_trace_loader.py:156-182 | the loader accepts a first record if and only if 48 bytes are there of which the first is 1 to 6 and the next seven are zero, and as many more as bytes 40 to 47 say; its fields are the bytes by weight, and it goes on at the next multiple of eight |
| Trace.ScriptReads | scripts/parse_rosetta_trace.py:171-191 | the script takes whatever record 48 bytes begin, with the payload cut at the end of the file |
| Trace.FieldIs | scripts/parse_rosetta_trace.py:35-36 | byte i of a field has weight 256 to the i |
| Trace.UnLeIsSum | scripts/parse_rosetta_trace.py:35-36 | a word is the sum of its bytes with their weights |
| Coalesce.CoalesceRanges | scripts/ida_rosetta_trace_loader.py:185-196 | sorted ranges more than the gap apart; every input lies in one; each begins and ends where an input does and has no hole wider than the gap |
| Coalesce.CoveredOnce | scripts/ida_rosetta_trace_loader.py:185-196 | no input lies in two |
| Coalesce.MergedOnce | scripts/ida_rosetta_trace_loader.py:185-196 | no other list has these properties |
| Coalesce.TwoRanges | scripts/ida_rosetta_trace_loader.py:48-48 | two ranges become one if and only if the second begins at most 0x100000 after the end of the first |
| Translation.TranslationResult.AllocFreeGpr | rosetta_core/src/TranslatorHelpers.cpp:23-29 | the lowest free register is taken |
| Translation.TranslationResult.FreeGpr | rosetta_core/src/TranslatorHelpers.cpp:37-41 | only scratch registers return to the pool |

## Left out

- Floating-point arithmetic: any functions on 64-bit patterns; rounding, exceptions and NaN selection are not modelled. The laws the optimizer relies on are hypotheses. Of IEEE arithmetic they hold with these provisos: FADD and FSUB of a negation, and FNMUL, up to the sign of a NaN; x*1, x/1, x-0 and x+(-0) up to quieting a signalling NaN; FMADD, FMSUB and FNMSUB up to one rounding instead of two.
- Instruction words: the model appends instructions, not their 32-bit encodings.
- X87Program.CompileRun: the machine state is a ghost argument of the method; that the code is the same for all states follows from ghost arguments being erased, not from the contract.
- Memory is three maps of cells, one per access width (16, 32 and 64 bits); accesses of different widths to the same bytes are not related, and neither are overlapping accesses at different addresses.
- Memory and integer operand forms of FLD, FST, FILD, FIST and arithmetic are covered only through OperandAccess and, for FSTP m80, X87Store80; FRNDINT, FICOM, FNSTCW and the five FLD constants are left out as easy members.
- X87Ops.TranslateFldcw: an operand addressed through RAX is not covered once an FNSTSW in the same list has written RAX.
- The fusions of three and four instructions, of FLD with FCOMP, of arithmetic with FSTP or FADDP, and those with memory operands.
- X87Fusions.TranslateFusion: FSTP, FLD ST(7) with an exchange pending, which indexes the permutation out of its bounds.
- The lowering of the intermediate form beyond single value nodes (`X87Lower`): register allocation and its limits, loads, stores and comparisons, constants that FMOV cannot load, constant TOP, paired loads and stores, elision of flag saves. What it writes back is modelled by values. Also the opt-in f32 passes and the opt-in reciprocal for divisors that are not powers of two.
- X87Compiled.BuiltExact: a run entered with deferred state from an earlier one, memory operands and guest integer instructions are not modelled; lists with stack faults are covered by `X87Denotes.OpDenotes` but for registers whose slots were popped, and for tags.
- The whole-run compiler, the choice of fusions and the demand model of bridged instructions appear in Driver as arbitrary outcomes; assumed are the limits on what the compiler carries, and that a fusion takes two to four instructions that are there. The stock translator is taken to translate one instruction per call.
- Driver.TranslationDriver.TranslateBlock: the model stops at a lent tick with the cache open; of what follows in the same block only `Prepare` is modelled.
- Driver: ARPL, the extended set of D registers, logging, and the masks of D registers.
- OperandAccess.ComputeOperandAddress: immediate operands (ADRP and fixups) are not modelled, nor is the fixup list of the TLS routine, which is taken to write X29 only.
- Addressing.ComputeMemOperandAddress: shift amounts below the register width; x86 has 0 to 3.
- parse_record, which gives records a type, and the rest of the IDA plugin.
- The switch that disables deferred FXCH, the extended D register pool, hooking and memory protection.
