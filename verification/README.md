# Garuda: proofs about the deterministic parts

Garuda drives language models through a chip design flow. Around the models sit deterministic
algorithms that check, repair, lay out, harden and exercise whatever the models produce. This
project models those algorithms in Dafny and proves what they promise: over every input, every run
and every interleaving where the promise is kept. Where the code promises more than it keeps, the
model follows the code, the condition under which the promise holds is proved, exactly where the
table says so, and a concrete input shows the failure.

Loops and objects that the source updates in place are `while`/`for` methods and classes, each
proved equal to a specification function or tied to a declarative predicate; the theorems are
about those functions and predicates.

| file | models |
|---|---|
| `Digraph.dfy`, `FeedbackEdges.dfy`, `Layering.dfy`, `Columns.dfy`, `Diagram.dfy` | the block diagram: walks, feedback edges by an iterative depth-first search, longest-path layers, column merging, the nets and arrows of the figure |
| `BraceRepair.dfy`, `ModuleGraph.dfy`, `PortRename.dfy` | the RTL structure checker: brace repair, dependency cones, top selection and file closure, port renaming |
| `AutoTune.dfy`, `TuningRules.dfy`, `Signoff.dfy`, `HardenRun.dfy`, `HardenHistory.dfy` | the hardening auto-tuner, its rules on the metrics by name, the sign-off, one call with its run reuse and any interleaving of calls and edits, what persisting the tuning is worth over many calls |
| `SerialBench.dfy` | the UART bench: sender and receiver over a line |
| `LoopGuard.dfy` | the guards that stop a spinning agent |
| `JobQueue.dfy` | the life of an EDA job under interleaved API calls and one worker |
| `Vcd.dfy` | the VCD reader and the streaming cycle counter (section 18.2 of IEEE 1364-2005) |
| `Basics.dfy` | options, suffixes, cardinality of subsets |

`dafny verify dfyconfig.toml` checks everything.

Readings of the source that the model makes explicit:

- `run_harden` writes to its log before the log is bound (lines 611, 630 and 651; bound at 677).
  The model does what the code then does: line 611 ends the call; line 630 is inside a `try`
  whose handler deletes the state file anyway; line 651 is inside a `try` whose handler ignores
  the exception, so nothing of the saved tuning is loaded. Whatever LibreLane answers, a call
  goes on climbing the ladder of the persisted tuning exactly when it does not come to run
  LibreLane, does not run into line 651, or has nothing to lose by it (`CallClimbsIff`; all three
  can be told before the call). A history of such calls climbs one ladder (`HistoryClimbs`). From a
  workspace without saved tuning, calls climb one ladder whatever LibreLane answers exactly when none
  after the first declares a clock (`HistoryClimbsIff`); `TierFiresTwice` is a history that does not.
- The tuner reads the latest metrics in the chip directory, which after a run that wrote none are
  those of an earlier run. The clock may then be relaxed twice for one delay
  (`StaleSlackRelaxesTwice`); `ClockRelaxedOnceIff` says exactly when a call relaxes it at most once.
- A hardening run adds to the chip directory: a GDS that is already there stays there, is reported
  with the new ones and gets the new fingerprint. That no GDS of other RTL is ever reported is
  therefore due to the removal of the directory (lines 681-683).
- Run reuse is keyed on the RTL alone, so the reuse property speaks about RTL only: a run made
  with another voltage or utilization may be reused.
- The `try` block of `process_job` still covers logging and publishing after the commit of
  COMPLETED, so COMPLETED may become FAILED; `CompletedFailsIff` says exactly when, and
  `CompletedMayFail` is such a run.
- The brace repair looks at the character behind an inserted `end`, never at the one in front
  of it: no separation on the left is claimed. On the right `EndIsGluedIff`
  says exactly when it fails, as on `};}` (`TwoEndsAreGlued`).
- The docstring of `reconcile_ports` promises that a name is renamed only when no other child in
  the same file declares it; the code looks at the children of one module. `KeptThroughoutIff`
  is the exact condition for any file, `OneModuleIsCovered` and `RunIsSafe` show that a file
  with one module always meets the promise, and `SecondModuleIsBroken` is a file with two that does not.
- `pick_top` compares only modules nothing instantiates; on a cyclic design a larger module may
  be passed over (`CycleIsPassedOver`). `TopHasLargestConeIff` says exactly when the promise holds.
- An x or z bit in a vector is read as 0 (`HalfKnownVector`), so a dump reads back exactly when it
  has none (`ScanPrintedIff`). The streaming counter does not see vector changes of the clock; with
  such changes its count may be wrong and may still be right (`VectorsMayBeMissed`, `CountIsExactIff`).
- `max_columns` below 1 makes `_compress_layers` fail on an empty minimum; the model returns None.

## Model

| member | source | states |
|---|---|---|
| FeedbackEdges.ChildrenAre | agent-service/reporting/diagrams.py:282-284 | the adjacency list of a node holds exactly the edges leaving it, each once, in edge order |
| FeedbackEdges.BuildAdjacency | agent-service/reporting/diagrams.py:282-284 | the dictionary built in one pass over the edges gives every node that list |
| FeedbackEdges.StackWalk | agent-service/reporting/diagrams.py:290-305 | the explicit stack spells a walk over followed edges from any of its entries to the top one |
| FeedbackEdges.TurnKeeps | agent-service/reporting/diagrams.py:291-305 | every turn of the search keeps its invariant: phases, cursors, stack links, marked edges, and finishing order descending along all kept edges |
| FeedbackEdges.TurnProgresses | agent-service/reporting/diagrams.py:291-305 | every turn visits a new node, or finishes one, or moves a cursor: the search terminates on every graph |
| FeedbackEdges.Explore | agent-service/reporting/diagrams.py:290-305 | the search from one root finishes everything it opens and pushes every node it meets once |
| FeedbackEdges.FeedbackEdges | agent-service/reporting/diagrams.py:273-306 | all listed nodes are finished; without the returned edges finishing ranks descend along every edge; each returned edge, put back alone, closes a cycle; each node is pushed exactly once |
| Digraph.DescentIsAcyclic | agent-service/reporting/diagrams.py:279-306 | edges along which a rank descends form no cycle |
| FeedbackEdges.NothingSetAsideIffAcyclic | agent-service/reporting/diagrams.py:273-306 | the returned set is empty exactly when the drawn graph has no cycle |
| Digraph.WalkBound | agent-service/reporting/diagrams.py:315 | a walk in an acyclic graph has fewer edges than the graph has nodes, which is what the sweep budget rests on |
| Layering.Sweep | agent-service/reporting/diagrams.py:316-320 | after sweep number k all walks of at most k edges are accounted for, no layer exceeds a walk, and a sweep that changes something has a number below the number of nodes |
| Layering.Settle | agent-service/reporting/diagrams.py:314-322 | the fixpoint is always reached inside the budget of sweeps, and every layer is the exact length of a longest forward walk ending there |
| Layering.LayerNodes | agent-service/reporting/diagrams.py:309-325 | the whole layering: sources at 0, every other node at its longest-walk length over an acyclic remainder |
| Layering.AscendsIffSourcesAreFirst | agent-service/reporting/diagrams.py:323-325 | layers ascend along every non-feedback edge exactly when none of these edges enters a source |
| Columns.SortedRanks | agent-service/reporting/diagrams.py:336 | the distinct layers, each once, in ascending order |
| Columns.FindCheapest | agent-service/reporting/diagrams.py:342-343 | the first pair of neighbours with the smallest combined population |
| Columns.CheapestIs | agent-service/reporting/diagrams.py:342-343 | no pair of neighbours holds fewer nodes, and none before it holds as few |
| Columns.MergeBuckets | agent-service/reporting/diagrams.py:341-345 | merging stops at exactly the allowed number of buckets, none empty, in layer order, reached by always merging the cheapest pair |
| Columns.MergingIsDeterministic | agent-service/reporting/diagrams.py:341-345 | always merging the cheapest pair has one outcome, so the specification fixes the columns |
| Columns.CompressLayers | agent-service/reporting/diagrams.py:328-346 | the same nodes in densely numbered columns, as many as the ranks or the limit allow, weak order of layers preserved, and strictly when no ranks are merged; fails exactly when the limit is below 1 and exceeded |
| Diagram.WiredMeans | agent-service/reporting/diagrams.py:363-405 | a net has a recorded producer exactly when some block drives it, and its recorded readers are exactly the blocks that read it |
| Diagram.WiresAre | agent-service/reporting/diagrams.py:387-405 | a connection counts when its net is a name, neither port nor net is clock or reset, and the child's last declaration of the port has the direction |
| Diagram.FeederIsUnique | agent-service/reporting/diagrams.py:363-404 | the block an arrow leaves from is determined by the design: the input pin, else the first instance with an output on the net |
| Diagram.AddPads | agent-service/reporting/diagrams.py:369-380 | sources and sinks are exactly the input and output pins that are neither clock nor reset, and every pin is entered as driver or reader |
| Diagram.AddInstances | agent-service/reporting/diagrams.py:382-405 | after all instances the two dictionaries agree with the wiring, and the first driver of each net is kept |
| Diagram.DrawArrows | agent-service/reporting/diagrams.py:406-422 | one arrow per ordered pair of blocks, carrying exactly the nets fed by the one and read by the other |
| Diagram.PutLast | agent-service/reporting/diagrams.py:426-427 | output pins end up past every other block, each in a layer of its own in port order, while all non-feedback edges keep ascending |
| Diagram.Place | agent-service/reporting/diagrams.py:425-427 | input pins at 0, instances at the length of a longest walk without feedback edges, output pins past all others in order; layers ascend along every non-feedback edge |
| Diagram.Layout | agent-service/reporting/diagrams.py:425-436 | exactly the instances and connected pins are placed, at these layers, in as many columns as there are layers, or five when there are more, by merging the cheapest neighbours; the order of layers is kept, strictly with at most five, and no non-feedback arrow points left |
| Diagram.TopLevelDiagram | agent-service/reporting/diagrams.py:349-436 | every arrow stands for nets its source feeds and its target reads, one arrow per pair, each net once; every driven net reaches all its readers; exactly the shown instances and the connected pins are listed and get a column; their layers are longest walks without feedback edges, pins at the ends, and fill exactly the smaller of five and their number of columns; the feedback edges are a minimal cycle breaker; no other arrow points left, and with at most five layers each points right; no figure only when there is nothing to draw |
| Diagram.ShownIs | agent-service/reporting/diagrams.py:360 | only the first instances are shown |
| BraceRepair.LexIsSpelledIff | agent-service/verilog_check.py:83-129 | the lexer finds the one way of cutting a text into line comments up to a newline, block comments up to the first closer, strings up to the first quote behind an even number of backslashes, and characters that open none of these |
| BraceRepair.AutofixText | agent-service/verilog_check.py:67-133 | the single pass over characters computes the repair of the lexed text, and its counter counts the replaced braces |
| BraceRepair.RepairJoin | agent-service/verilog_check.py:113-127 | a closing brace cuts the text in two that are repaired on their own: what a brace becomes stands in its place |
| BraceRepair.ReplacedIsLargestExcess | agent-service/verilog_check.py:113-127 | as many braces are replaced as the largest prefix excess of closing over opening braces in code |
| BraceRepair.UnchangedIffNeverNegative | agent-service/verilog_check.py:67-133 | a text is left unchanged exactly when its braces in code never go negative |
| BraceRepair.FixedTwice | agent-service/verilog_check.py:67-133 | a second pass replaces nothing and changes nothing |
| BraceRepair.SkippedVerbatim | agent-service/verilog_check.py:85-107 | every comment and string literal survives character by character, and no new one appears |
| BraceRepair.CodeAccountedFor | agent-service/verilog_check.py:108-129 | each replaced brace leaves for one `end`, taking at most one semicolon with it; apart from blanks all other code stays, character by character and in order |
| BraceRepair.LexFixed | agent-service/verilog_check.py:83-129 | lexing the repaired text gives the repaired lexemes: an insertion never opens or closes a comment or string |
| BraceRepair.EndIsGluedIff | agent-service/verilog_check.py:121-126 | an inserted `end` runs into a word character on its right exactly when the next brace is replaced, too |
| BraceRepair.TwoEndsAreGlued | agent-service/verilog_check.py:121-126 | `};}` becomes `endend` |
| ModuleGraph.ConeSize | agent-service/verilog_check.py:250-263 | the worklist with duplicate entries terminates on every design, cyclic or not, and counts exactly the defined modules reachable from the root |
| ModuleGraph.NeededModules | agent-service/verilog_check.py:299-308 | the other worklist collects exactly the same set |
| ModuleGraph.PickTop | agent-service/verilog_check.py:266-287 | the top is an uninstantiated module, or any when all are instantiated, with the widest cone of these; among equals it has a telling name if one has, then the most instances, then it comes first; none exactly when nothing is defined |
| ModuleGraph.BestOf | agent-service/verilog_check.py:287 | the first of the best under the order of cone, name bonus and number of children |
| ModuleGraph.ParentIsBigger | agent-service/verilog_check.py:250-263 | the cone of a module on no cycle is strictly smaller than its parent's |
| ModuleGraph.RootAbove | agent-service/verilog_check.py:276-281 | above every module there is one that nothing instantiates, or one on a cycle |
| ModuleGraph.TopHasLargestConeIff | agent-service/verilog_check.py:266-287 | the top has the largest cone of all modules exactly when every module on a cycle is matched by a candidate whose cone is at least as large |
| ModuleGraph.TopHasLargestCone | agent-service/verilog_check.py:266-287 | on acyclic designs the top has the largest cone of all modules |
| ModuleGraph.CycleIsPassedOver | agent-service/verilog_check.py:281-287 | two modules instantiating each other are passed over for a smaller lone module |
| ModuleGraph.ClosureFiles | agent-service/verilog_check.py:290-319 | the build list holds exactly the present files of reachable modules, what they include and the headers of the directory, each once, headers first; with a defined top every source file of the directory is in exactly one of build list and orphans; without one all is built |
| PortRename.BestPortIsSafe | agent-service/verilog_check.py:349-378 | a proposed name is a declared port differing in letter case alone, or the only one that adds a direction to a directionless name; a direction is never changed |
| PortRename.BestPortExistsIff | agent-service/verilog_check.py:370-378 | a rename is proposed exactly when there is such a port |
| PortRename.BestPortIsSpelled | agent-service/verilog_check.py:342-378 | the proposed port is the last that differs in letter case alone, or, for a name without one of the five directions, the only one that is the name and `_i`, `_o`, `_io`, `_in` or `_out`; else nothing is proposed |
| PortRename.ResetIsLeftAlone | agent-service/verilog_check.py:370-378 | nothing is proposed for `rst` where the port is `rst_n` |
| PortRename.EditSource | agent-service/verilog_check.py:393-399 | every planned edit comes from a bad connection of the file and leads to a port its child declares |
| PortRename.EditPlanned | agent-service/verilog_check.py:393-399 | every bad connection with a proposal plans an edit |
| PortRename.ReconcileFile | agent-service/verilog_check.py:400-420 | the loop applies the planned edits one after the other, skips the withheld ones and reports exactly those that changed the text |
| PortRename.EffectiveIs | agent-service/verilog_check.py:413-416 | the reported edits are exactly those that change the text in their turn, in order |
| PortRename.OneModuleIsCovered | agent-service/verilog_check.py:406-412 | in a file with one module the check on sibling ports sees every child of the file |
| PortRename.RunIsSafe | agent-service/verilog_check.py:381-420 | then no connection that named a declared port is touched, renames land on declared ports, the number of bad connections drops with each applied edit, and no name is left that an edit was to remove |
| PortRename.KeptThroughoutIff | agent-service/verilog_check.py:381-420 | for any file, no edit of the run touches a connection that named a declared port exactly when no edit that passes the check has such a connection's name |
| PortRename.RenameIsSafeIff | agent-service/verilog_check.py:413 | one file-wide substitution breaks no correct connection exactly when none has the old name on a child lacking the new one |
| PortRename.SecondModuleIsBroken | agent-service/verilog_check.py:387-413 | a file with two modules in which a correct connection becomes a bad one |
| AutoTune.DeclaredPeriodIsPlausible | eda-service/toolchain/harden_runner.py:248-257 | a declared clock is unknown or between 1 and 1000 ns after rounding |
| AutoTune.DeclaredPeriodIsClose | eda-service/toolchain/harden_runner.py:248-257 | between 1 MHz and 1 GHz it is the exact period to the nearest hundredth, else unknown |
| AutoTune.RelaxationCovers | eda-service/toolchain/harden_runner.py:752-754 | with a critical delay of at least 0.05 ns the rounded relaxed period covers it |
| AutoTune.RelaxationMissesIff | eda-service/toolchain/harden_runner.py:752-754 | for every critical delay, the rounded relaxed period falls short of it exactly in five gaps, and never from 0.041 ns on |
| AutoTune.ShortDelayIsNotCovered | eda-service/toolchain/harden_runner.py:753 | a delay in one of the gaps |
| AutoTune.RelaxationGrows | eda-service/toolchain/harden_runner.py:752-754 | from 0.04 ns on, relaxing never shortens the period |
| AutoTune.ClockNeverFalls | eda-service/toolchain/harden_runner.py:730-754 | from 1 ns on, the period never falls in a call, whatever the tool reports |
| AutoTune.ClockRelaxedOnce | eda-service/toolchain/harden_runner.py:749-754 | a tuner that always sees the slack at the present clock, for an unchanged delay outside the gaps, relaxes the clock at most once |
| AutoTune.AdjustClimbs | eda-service/toolchain/harden_runner.py:777-822 | an electrical tier fires only from the level right below it |
| TuningRules.ViolationsAre | eda-service/toolchain/harden_runner.py:767-774 | the electrical violations are the whole parts of the slew, capacitance and fanout counts, each under the first of three names that is reported |
| TuningRules.AdjustedIs | eda-service/toolchain/harden_runner.py:750-826 | the recipe after a run, by the names of its metrics: clock to a tenth above the delay, utilization eight lower but not below 20, density ten higher, the next of five recipes, the antenna fix |
| TuningRules.ChangesAre | eda-service/toolchain/harden_runner.py:750-828 | each change is reported exactly when its metric calls for it |
| TuningRules.TenRecipes | eda-service/toolchain/harden_runner.py:757-822 | from a fresh recipe on only ten sets of constraints are ever reached |
| AutoTune.LoopEnds | eda-service/toolchain/harden_runner.py:730-842 | the loop goes on while runs come to something and there is something to change, and ends at the first where that is not so, or with the last |
| AutoTune.AdjustIsClimb | eda-service/toolchain/harden_runner.py:750-826 | one adjustment climbs: tiers in order, one antenna fix, bounded density, utilization down in eights and not below 20, and each change but the clock's uses up work |
| AutoTune.LoopIsClimb | eda-service/toolchain/harden_runner.py:730-842 | so does a whole call, for any answers of the tool |
| AutoTune.ClimbOn | eda-service/toolchain/harden_runner.py:635-662 | climbs compose across calls although the clock is chosen anew |
| AutoTune.LadderOn | eda-service/toolchain/harden_runner.py:635-662 | their electrical, antenna and density parts compose although the utilization is chosen anew, too |
| AutoTune.FreshLadderIsShort | eda-service/toolchain/harden_runner.py:730-842 | from a fresh recipe at most four tiers, one antenna fix and two density bumps |
| HardenRun.Adjust | eda-service/toolchain/harden_runner.py:750-826 | the chain of branches computes the adjusted recipe and the list of changes |
| HardenRun.HardenRunner.Attempts | eda-service/toolchain/harden_runner.py:730-842 | the loop of at most four attempts: runs add to the chip directory, the latest metrics are tuned on, each adjustment is persisted at once |
| HardenRun.HardenRunner.RunHarden | eda-service/toolchain/harden_runner.py:545-858 | one call: state discarded for other RTL, resumed, run reused or directory removed, fingerprint written and files reported by what is then in the directory |
| HardenRun.AttemptedTunes | eda-service/toolchain/harden_runner.py:730-842 | the attempts tune as the loop over the metrics they see does, and persist the recipe where it ends |
| HardenRun.AttemptsAdd | eda-service/toolchain/harden_runner.py:843-856 | attempts add GDS files of the current RTL to those in the directory, which stay and are reported |
| HardenRun.CallKeepsMark | eda-service/toolchain/harden_runner.py:681-683 | a call leaves no fingerprint beside a GDS of RTL with another one, because it removed the directory first |
| HardenRun.KilledKeepsMark | eda-service/toolchain/harden_runner.py:681-845 | nor does a call that is killed, at any attempt and with any leftovers |
| HardenRun.ChipStaysMarked | eda-service/toolchain/harden_runner.py:595-691 | over any interleaving of calls, killed calls and edits, a fingerprint is that of the RTL of every GDS beside it |
| Signoff.SignedOffIff | eda-service/toolchain/harden_runner.py:1092-1130 | a run is worth reusing exactly when the nine hard counts and the typical-corner slew, capacitance and fanout counts are absent or nought, the setup slack is met, and the whole parts of the all-corner counts add up to nought |
| Signoff.SignedOffIsLeftAlone | eda-service/toolchain/harden_runner.py:663-676 | what is worth reusing leaves the tuner nothing to change |
| HardenRun.ReuseIsSound | eda-service/toolchain/harden_runner.py:595-691 | a call skips the tool only for GDS files from RTL with the current fingerprint whose run is signed off; a call that runs it reports, of all it finds in the directory, only files from the current RTL |
| HardenRun.ReuseIff | eda-service/toolchain/harden_runner.py:663-676 | a call reuses exactly a completed, signed-off run with the current fingerprint, and then leaves the directory as it is |
| HardenRun.NextCallReuses | eda-service/toolchain/harden_runner.py:663-676 | a run that made a GDS and is signed off is reused by the next call on the same RTL |
| HardenRun.LoadIs | eda-service/toolchain/harden_runner.py:617-662 | a call starts from the tuning saved for this RTL, at the slower of its clock and the requested one, unless that tuning is slower than a declared clock |
| HardenRun.OutcomeIs | eda-service/toolchain/harden_runner.py:583-728 | when a call ends before it runs the tool |
| HardenHistory.CallClimbs | eda-service/toolchain/harden_runner.py:617-842 | a call that continues goes on with the climb of the persisted recipe |
| HardenHistory.CallClimbsIff | eda-service/toolchain/harden_runner.py:617-842 | for every call known but for the tool's answers: it goes on climbing whatever they are exactly when it does not come to run the tool, or resumes, or has nothing to lose |
| HardenHistory.HistoryClimbs | eda-service/toolchain/harden_runner.py:617-842 | any number of such calls on one RTL climb one ladder, whatever utilizations they ask for: what one tried, none tries again, and the work left bounds the re-hardenings |
| HardenHistory.HistoryClimbsAtOne | eda-service/toolchain/harden_runner.py:617-842 | if they all ask for one utilization, it falls in eights from above 20 and never below |
| HardenHistory.HistoryIsShort | eda-service/toolchain/harden_runner.py:617-842 | so together they fire each tier and the antenna fix at most once and the density bump at most twice, and re-harden for anything but the clock a bounded number of times |
| HardenHistory.HistoryClimbsIff | eda-service/toolchain/harden_runner.py:617-842 | calls that can run the tool, known but for its answers, without saved tuning: they climb one ladder whatever the answers are exactly when none after the first declares a clock |
| HardenHistory.UndeclaredContinues | eda-service/toolchain/harden_runner.py:650 | calls on a design without a declared clock always continue |
| HardenHistory.FailedResumeStartsOver | eda-service/toolchain/harden_runner.py:650-662 | a call that fails to resume does what it would do without saved tuning |
| HardenHistory.OtherRtlStartsOver | eda-service/toolchain/harden_runner.py:623-633 | tuning saved for other RTL makes no difference |
| HardenHistory.ResumedClockNeverFalls | eda-service/toolchain/harden_runner.py:650-657 | where a call resumes, the persisted clock does not fall by it |
| HardenHistory.TierFiresTwice | eda-service/toolchain/harden_runner.py:609-662 | a declared clock, relaxed once, makes the next call forget the ladder and fire the first tier again |
| HardenHistory.ClockRelaxedOnceIff | eda-service/toolchain/harden_runner.py:730-754 | for any answers whose slacks are true of an unchanged delay outside the gaps, a call relaxes the clock at most once exactly when the first relaxation is followed by new metrics, by a run that comes to nothing, or by none |
| HardenHistory.StaleSlackRelaxesTwice | eda-service/toolchain/harden_runner.py:749-754 | a run that dies without metrics after a relaxation has the clock relaxed again for the old slack |
| SerialBench.Sender.SendByte | agent-service/agents/hwsw.py:499-511 | the task puts one frame on the line: start bit, data bits lowest first, stop bit, each for a bit time |
| SerialBench.FrameIs | agent-service/agents/hwsw.py:499-511 | the frame clock by clock: low for a bit time, each bit from the lowest for a bit time, high for a bit time |
| SerialBench.Sender.SendAll | agent-service/agents/hwsw.py:540-542 | the sending process puts the frames on the line back to back |
| SerialBench.RecvByte | agent-service/agents/hwsw.py:513-524 | the receiving task, at whichever edge it starts and whoever runs first at an edge |
| SerialBench.CaptureAll | agent-service/agents/hwsw.py:543-549 | the capture loop stores the received values in order |
| SerialBench.SamplesInCells | agent-service/agents/hwsw.py:518-522 | from three clocks per bit on, each sample and the clock before it lie in their bit cell |
| SerialBench.SampledMidBit | agent-service/agents/hwsw.py:518-521 | each bit is sampled in the middle of its cell, up to one clock |
| SerialBench.ReceiveFrame | agent-service/agents/hwsw.py:513-524 | a receive returns the value of the coming frame and ends inside its stop bit |
| SerialBench.CaptureAfter | agent-service/agents/hwsw.py:543-549 | from any waiting position the coming values are stored, whatever the idle gaps |
| SerialBench.RoundTripHolds | agent-service/agents/hwsw.py:499-549 | for any values, gaps and process order the values read are the values sent |
| SerialBench.TooFastFails | agent-service/agents/hwsw.py:517-522 | with one or two clocks per bit a value is misread |
| SerialBench.RoundTripsIff | agent-service/agents/hwsw.py:499-549 | sender and receiver are inverse for all signals exactly from three clocks per bit |
| SerialBench.LoopBack | agent-service/agents/hwsw.py:539-550 | the fork and join over a line of any latency captures the stimulus |
| LoopGuard.ProcessMessage | agent-service/agents/deep_agent.py:625-660 | one message: counters bumped or cleared call by call |
| LoopGuard.Run | agent-service/agents/deep_agent.py:603-665 | the nested loops stop after the first batch that raises the flag, and not before |
| LoopGuard.GuardTracks | agent-service/agents/deep_agent.py:603-665 | the counters count what the history says, and the flag is up exactly when a path was written too often, a call repeated too often since the last progress, or a thought repeated |
| LoopGuard.UnstoppedIsBounded | agent-service/agents/deep_agent.py:648-660 | an unstopped run with P paths, K call keys and G other progress calls has at most P(W-1)+G + (P(W-1)+G+1)K(C-1) tool calls, although counts are cleared at every progress |
| LoopGuard.ThoughtsAreBounded | agent-service/agents/deep_agent.py:634-639 | at most two messages of each thought without a tool call |
| LoopGuard.EveryRunIsBounded | agent-service/agents/deep_agent.py:617-665 | both bounds hold in every run up to its last batch |
| JobQueue.EDAJobManager.CreateJob | eda-service/jobs/manager.py:291-317 | a fresh row, queued at 0 |
| JobQueue.EDAJobManager.EnqueueJob | eda-service/jobs/manager.py:333-335 | the id goes to the end of the queue |
| JobQueue.EDAJobManager.DeleteJob | eda-service/jobs/manager.py:324-331 | the row goes, and nothing else; reports whether it was there |
| JobQueue.EDAJobManager.PopJob | eda-service/jobs/manager.py:343-350 | the worker takes the head of the queue |
| JobQueue.EDAJobManager.BeginJob | eda-service/jobs/manager.py:352-362 | a job still there becomes RUNNING at 10, a deleted one is dropped |
| JobQueue.EDAJobManager.UpdateProgress | eda-service/jobs/manager.py:372-376 | the next progress mark, if the row is still there |
| JobQueue.EDAJobManager.CommitReport | eda-service/jobs/manager.py:407-422 | COMPLETED or FAILED by the nonblank errors of the report, committed at once |
| JobQueue.EDAJobManager.HandleException | eda-service/jobs/manager.py:439-447 | a row that is still there becomes FAILED, also after the commit |
| JobQueue.RunIsOk | eda-service/jobs/manager.py:291-458 | the invariant of table, queue, worker and history holds after every interleaving |
| JobQueue.RunEvolves | eda-service/jobs/manager.py:291-458 | in every interleaving a deleted row never reappears, progress never decreases, FAILED is final and COMPLETED can only become FAILED |
| JobQueue.RunStep | eda-service/jobs/manager.py:352-447 | a status moves only from QUEUED to RUNNING to a terminal state, or from COMPLETED to FAILED |
| JobQueue.FinishStores | eda-service/jobs/manager.py:400-422 | when the stage returns and the row is there, it stores this very report and becomes COMPLETED exactly when all errors of it are blank, else FAILED with the others, stripped, joined in order; no other row changes |
| JobQueue.JoinedMore | eda-service/jobs/manager.py:410 | a semicolon and a blank between each text and the next |
| JobQueue.CompletedMeansNoErrors | eda-service/jobs/manager.py:400-422 | a COMPLETED row has a report whose errors are all blank |
| JobQueue.SegmentMoves | eda-service/jobs/manager.py:291-458 | in every run, what each segment does to the one row it may change, and to the queue |
| JobQueue.ProgressShown | eda-service/jobs/manager.py:357-374 | a job that is worked on shows 10, 25, 55 or 80 by the marks that are done |
| JobQueue.StartsInOrder | eda-service/jobs/manager.py:333-358 | jobs start in the order they were enqueued, each at most once |
| JobQueue.CompletedFailsIff | eda-service/jobs/manager.py:423-447 | a step turns COMPLETED into FAILED exactly when logging or publishing after the commit raises |
| JobQueue.CompletedMayFail | eda-service/jobs/manager.py:412-447 | a run that reaches COMPLETED without errors, and then FAILED |
| JobQueue.Interleave | eda-service/jobs/manager.py:291-458 | every interleaving of the methods takes the manager through the states of the run the lemmas speak of |
| Vcd.ParseVcd | eda-service/toolchain/vcd.py:22-49 | the cursor loop appends to the series of each declared id exactly the changes of that id |
| Vcd.SeriesIs | eda-service/toolchain/vcd.py:24-45 | the series of an id are the times and values of its changes, all of them, in order |
| Vcd.DecimalReads | eda-service/toolchain/vcd.py:28-32 | printed times read back |
| Vcd.BinaryReads | eda-service/toolchain/vcd.py:37-45 | a number printed in binary, with any zeros in front, reads back |
| Vcd.ScanPrintedIff | eda-service/toolchain/vcd.py:13-49 | reading a printed dump of times, scalars, vectors, skipped reals and directives gives back its timed values, with scalar x and z as unknown, exactly when no vector has an x or z bit |
| Vcd.VectorIsFaithfulIff | eda-service/toolchain/vcd.py:40-45 | a vector reads as its 4-state value exactly when it has no x or z bit: such bits are read as 0 |
| Vcd.HalfKnownVector | eda-service/toolchain/vcd.py:43 | the vector 1x is read as 2 |
| Vcd.CountCycles | agent-service/reporting/evidence.py:113-132 | the constant-memory loop counts the rises among the edge lines of the clock and keeps the last time |
| Vcd.EndTimeIs | agent-service/reporting/evidence.py:122-126 | on a printed dump the counter ends at the last time |
| Vcd.RisesCounts | agent-service/reporting/evidence.py:127-132 | rises are the places where a 0 is followed by a 1 |
| Vcd.CounterRefinesParse | agent-service/reporting/evidence.py:113-132 | on one change per line the counter sees the clock's parsed series without its unknowns exactly when no vector changes the clock, and then counts its 0-to-1 steps |
| Vcd.CountIsExactIff | agent-service/reporting/evidence.py:104-132 | on a clock of one bit the count never exceeds the 0-to-1 steps of the parsed series, and equals them exactly when the vector changes lead the clock straight from each scalar change to the next, and never up before the first or after the last |
| Vcd.VectorsMayBeMissed | agent-service/reporting/evidence.py:127-132 | a dump with a vector change of the clock whose count is wrong, and one whose count is right |

## Left out

- Everything that calls a language model, a tool, a database, the network or a clock: their answers are parameters (LibreLane's runs, raised exceptions, the order of processes at a clock edge), and the LLM agents, reports, research, uploads and the frontend are not modelled.
- Regular expressions: parsing RTL into modules, instances, ports and connections, net and control names in the diagram, telling top names and repeated reasoning are inputs or arbitrary predicates.
- Diagram: labels are the list of nets, an arrow's drawing and the order of nodes inside a column are left out, and connections of an instance are listed in the order of its dictionary.
- Diagram.TopLevelDiagram: asks for distinct port names, which the port scanner guarantees (lines 107-121).
- BraceRepair: the test for a letter, digit or underscore is an arbitrary predicate.
- ModuleGraph.ClosureFiles: does not model the alphabetical order inside the headers and inside the sources, which is that of the file system's names.
- PortRename.RunIsSafe: a file is its named connections in the order the audit meets them; connections the parser did not attach to an instance, and the writing back of files, are not modelled, and letters are lowered as in ASCII.
- Findings of the audit other than bad ports (duplicates, missing modules, multiple drivers) are not modelled.
- HardenRun.HardenRunner.RunHarden: metrics are their numeric entries; the removal of the chip directory and the write of the tuning file succeed and are one step each, RTL edits happen between calls, all GDS files count as reported where the source prefers those of a final step, and the names of report warnings and log lines are left out.
- AutoTune.RelaxationCovers: arithmetic is over real numbers with rounding half to even at two decimals, not over binary floating point; a declared clock of 0.0 stands for none.
- AutoTune: clock buffers are known by their size, and a voltage does not occur because neither the tuner nor the reuse key looks at it.
- SerialBench: the line has two levels (x and z before reset are left out), the 15 clocks before the fork are left out, and the fork is run as sender, then receiver, since the line carries nothing back.
- SerialBench.LoopBack: the bench's timeout is a parameter, assumed not shorter than the transmission.
- LoopGuard.UnstoppedIsBounded: the time budget and exceptions of the stream can only end a run earlier and are left out; keys stand for the truncated texts the source compares.
- JobQueue: report files, artifact indexes, service restarts and the texts of log lines are left out; blanks are the ASCII ones.
- JobQueue.EDAJobManager.CreateJob: ids are fresh and each is enqueued once, as the API does with uuid4.
- Vcd.ParseVcd: the header's variable table is given as the set of declared ids, a token list stands for the split text, and numbers are unsigned digits (signs and underscores, which `int` also takes, are not modelled).
- Vcd.CountCycles: the choice of the clock net and the time scale are left out, as are `_rank_by_activity` and `to_wave_json`, which only cut and sort the series for display.
