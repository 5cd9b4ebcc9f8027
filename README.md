# TestVerifyBeforeAndAfterGCFlags, modelled in Dafny

This project models HotSpot's GC regression test `TestVerifyBeforeAndAfterGCFlags`.
The test runs a small allocating program (`GarbageProducer`) in a child JVM under
each combination of `-XX:{+|-}VerifyBeforeGC` and `-XX:{+|-}VerifyAfterGC`. It then
checks the child's output for the log markers the collector's verification prints.
The model covers the test's own logic:

- `invocation.dfy` (module `Invocation`): the child command line built by
  `testVerifyFlags`. It has a partner decoder, `EffectiveSwitch`, that reads back
  the value a command line gives a boolean `-XX` flag. HotSpot lets the last
  occurrence of a flag win, and the decoder follows that rule.
- `markers.dfy` (module `Markers`): hand-written recognisers for the four marker
  patterns (well-formed and corrupted, for the before-GC and after-GC families). It
  also gives reference descriptions of the well-formed payload and of the
  lookahead body, and proves that each scan accepts exactly its description. It
  proves the two patterns of a family exclusive, and checks the sample lines of the test's comments as test vectors.
- `verdict.dfy` (module `Verdict`): the assertions made on one run, the
  `testVerifyFlags` method, and the driver's fixed matrix of four runs.
- `workload.dfy` (module `Workload`): `GarbageProducer` as a class over a
  ten-slot array, with the ring-position loop and its invariant.
- `wrappers.dfy` (module `Wrappers`): `Option` (`None` is Java's `null`) and `Outcome`.

A pattern "occurs" in a text when it matches at some position, which is what a
regular-expression `find` reports. The well-formed pattern
`Name:\[Verifying\s+([^]\s]+\s+)+\]` is scanned by maximal runs. Token
characters, whitespace and `]` are pairwise disjoint, so maximal runs are the only
way the pattern can match, and no backtracking is needed. In `java.util.regex`, a
`]` right after `[^` is a literal, so `[^]]` means "any character but `]`".
`\s` is Java's set: space, tab, newline, vertical tab, form feed and carriage return.

Each `OutputAnalyzer` assertion throws, so a run reports only its first
violation, in the order exit value, corrupted before-GC marker, corrupted after-GC
marker, before-GC marker, after-GC marker. The driver likewise stops at the first
failing run, because `main` does not catch the exception.

## Model

| member | source | states |
|---|---|---|
| Invocation.Switch | hotspot/test/gc/arguments/TestVerifyBeforeAndAfterGCFlags.java:81-84 | Defined as `-XX:`, then `+` when the flag is set and `-` otherwise, then the flag name. Characterised by `SwitchRendering` and `SwitchInjective`. |
| Invocation.ArgumentList | hotspot/test/gc/arguments/TestVerifyBeforeAndAfterGCFlags.java:71-85 | Defined as the inherited options (none for a null array) followed by the seven fixed entries. `BuildVmOpts` is proved to build exactly this list; `SwitchesTakeEffect` and `ArgumentListInjective` characterise it. |
| Invocation.BuildVmOpts | hotspot/test/gc/arguments/TestVerifyBeforeAndAfterGCFlags.java:71-85 | The list holds the options in their order (nothing for a null or empty array), then `-Xmx5m`, `-Xms5m`, `-Xmn3m`, `-XX:+UnlockDiagnosticVMOptions`, the before switch, the after switch and the workload class name. Its length is the option count plus 7. |
| Invocation.SwitchRendering | hotspot/test/gc/arguments/TestVerifyBeforeAndAfterGCFlags.java:81-84 | Each verify switch is `-XX:+Name` exactly when its own flag is set, and `-XX:-Name` otherwise. |
| Invocation.SwitchInjective | hotspot/test/gc/arguments/TestVerifyBeforeAndAfterGCFlags.java:81-84 | Two rendered switches are equal only when both the flag name and the polarity are equal. |
| Invocation.EffectiveSwitch | hotspot/test/gc/arguments/TestVerifyBeforeAndAfterGCFlags.java:76-85 | The decoder returns a value only when a matching `-XX:+flag` or `-XX:-flag` entry is present, and `None` exactly when there is none. |
| Invocation.EffectiveSwitchIsLast | hotspot/test/gc/arguments/TestVerifyBeforeAndAfterGCFlags.java:76-85 | When the decoder returns a value, some entry is the switch of that polarity and no later entry is a switch for the same flag: the last switch decides. |
| Invocation.EffectiveSwitchSkips | hotspot/test/gc/arguments/TestVerifyBeforeAndAfterGCFlags.java:76-85 | Appending entries that are not switches for a flag does not change that flag's value. |
| Invocation.SwitchesTakeEffect | hotspot/test/gc/arguments/TestVerifyBeforeAndAfterGCFlags.java:71-85 | Decoding the built list gives back both requested flags, whatever the inherited options hold, because the generated switches come after them. |
| Invocation.ArgumentListInjective | hotspot/test/gc/arguments/TestVerifyBeforeAndAfterGCFlags.java:71-85 | Equal command lines come from equal flag pairs and equal inherited options, so no two runs of the matrix share a command line. |
| Markers.Groups | hotspot/test/gc/arguments/TestVerifyBeforeAndAfterGCFlags.java:46 | Defined as the maximal-run scan of `([^]\s]+\s+)+\]` at the start of a text. Characterised by `GroupsIff`. |
| Markers.Payload | hotspot/test/gc/arguments/TestVerifyBeforeAndAfterGCFlags.java:46 | Defined as a whitespace run followed by `Groups`: the part `\s+([^]\s]+\s+)+\]` after `Name:[Verifying`. Characterised by `PayloadIff`. |
| Markers.Bracketed | hotspot/test/gc/arguments/TestVerifyBeforeAndAfterGCFlags.java:48 | Defined as the lookahead body `[Verifying[^]]+\]` at the start of a text: the opening literal, then a first `]` after at least one other character. Characterised by `CorruptedIff`. |
| Markers.WellFormedStart | hotspot/test/gc/arguments/TestVerifyBeforeAndAfterGCFlags.java:46 | Defined as the marker literal, then `[Verifying`, then a `Payload`: the well-formed pattern anchored at the start of a text. |
| Markers.CorruptedStart | hotspot/test/gc/arguments/TestVerifyBeforeAndAfterGCFlags.java:48 | Defined as the marker literal not followed by a `Bracketed` text: the corrupted pattern with its negative lookahead, anchored at the start of a text. Characterised by `CorruptedIff`. |
| Markers.WellFormedOccurs | hotspot/test/gc/arguments/TestVerifyBeforeAndAfterGCFlags.java:46-51 | Defined as: the well-formed pattern of the family matches at some position of the text, which is what `find` reports. |
| Markers.CorruptedOccurs | hotspot/test/gc/arguments/TestVerifyBeforeAndAfterGCFlags.java:48-53 | Defined as: the corrupted pattern of the family matches at some position of the text. |
| Markers.CloseAtAfter | hotspot/test/gc/arguments/TestVerifyBeforeAndAfterGCFlags.java:48 | When a prefix holds no `]`, the first `]` of the text is found after that prefix. |
| Markers.GroupsSound | hotspot/test/gc/arguments/TestVerifyBeforeAndAfterGCFlags.java:46 | Whatever the token-group scan `([^]\s]+\s+)+\]` accepts starts with a token character, and its last character before the first `]` is whitespace. |
| Markers.GroupsComplete | hotspot/test/gc/arguments/TestVerifyBeforeAndAfterGCFlags.java:46 | The token-group scan accepts every text of that shape. |
| Markers.GroupsIff | hotspot/test/gc/arguments/TestVerifyBeforeAndAfterGCFlags.java:46 | The token-group scan and the shape description agree on every text. |
| Markers.PayloadIff | hotspot/test/gc/arguments/TestVerifyBeforeAndAfterGCFlags.java:46-51 | The payload scan accepts a text exactly when the text has a first `]` and the part before it is non-empty, starts and ends with whitespace, and holds a token character. |
| Markers.PayloadBracketed | hotspot/test/gc/arguments/TestVerifyBeforeAndAfterGCFlags.java:46-53 | Every well-formed payload satisfies the body `[Verifying[^]]+\]` of the corrupted pattern's lookahead. |
| Markers.CorruptedIff | hotspot/test/gc/arguments/TestVerifyBeforeAndAfterGCFlags.java:48-53 | The lookahead scan holds exactly when the text is `[Verifying`, then `n > 0` characters none of which is `]`, then `]`. So the corrupted pattern matches exactly where the marker literal is followed by no such text. |
| Markers.Exclusive | hotspot/test/gc/arguments/TestVerifyBeforeAndAfterGCFlags.java:46-53 | Where a family's well-formed pattern matches, its corrupted pattern does not match at the same occurrence of the marker name. |
| Markers.WellFormedLine | hotspot/test/gc/arguments/TestVerifyBeforeAndAfterGCFlags.java:46 | A marker name, then `:[Verifying`, then a well-formed payload, is a match of the well-formed pattern. |
| Markers.SamplePayload | hotspot/test/gc/arguments/TestVerifyBeforeAndAfterGCFlags.java:45 | The subsystem list of the sample comment line is a well-formed payload. |
| Markers.WellFormedSampleMatches | hotspot/test/gc/arguments/TestVerifyBeforeAndAfterGCFlags.java:45-51 | The sample `Name:[Verifying threads heap ... code cache ]` lines match the well-formed pattern of their family. |
| Markers.CorruptedSampleMatches | hotspot/test/gc/arguments/TestVerifyBeforeAndAfterGCFlags.java:47-53 | The sample `Name: Name: Name:` lines match the corrupted pattern of their family. |
| Markers.NotExhaustive | hotspot/test/gc/arguments/TestVerifyBeforeAndAfterGCFlags.java:46-48 | `Name:[Verifying ]` matches neither pattern of its family at any position: the two patterns are exclusive but not exhaustive. |
| Markers.AbsentMarker | hotspot/test/gc/arguments/TestVerifyBeforeAndAfterGCFlags.java:46-53 | A text in which a family's marker name never appears matches neither pattern of that family. |
| Verdict.RunCombination | hotspot/test/gc/arguments/TestVerifyBeforeAndAfterGCFlags.java:68-106 | Defined as `Check` applied to what the launcher returns for the built command line. `TestVerifyFlags` is proved to compute exactly this outcome. |
| Verdict.ExpectWellFormed | hotspot/test/gc/arguments/TestVerifyBeforeAndAfterGCFlags.java:95-105 | The family check passes exactly when the well-formed pattern occurs iff the flag is set. A failure says "missing" when the flag is set and "unexpected" when it is not. |
| Verdict.Check | hotspot/test/gc/arguments/TestVerifyBeforeAndAfterGCFlags.java:91-105 | A run passes iff the exit value is 0, neither corrupted pattern occurs, and each well-formed pattern occurs exactly when its flag is set. A nonzero exit value is always the reported failure, and every reported failure is a real violation. Each failure also implies that every assertion made before it held: a corrupted after-GC failure means no corrupted before-GC marker, a marker failure means exit value 0 and no corrupted marker, and an after-GC marker failure means the before-GC marker was as expected. |
| Verdict.OneCombinationPerOutput | hotspot/test/gc/arguments/TestVerifyBeforeAndAfterGCFlags.java:91-105 | One captured output can pass the checks of at most one flag pair. |
| Verdict.BlankMarkerGoesUnnoticed | hotspot/test/gc/arguments/TestVerifyBeforeAndAfterGCFlags.java:91-105 | A run that prints `VerifyBeforeGC:[Verifying ]` with exit value 0 passes when both flags are off. |
| Verdict.CombinationsCoverAllPairs | hotspot/test/gc/arguments/TestVerifyBeforeAndAfterGCFlags.java:62-65 | The driver's four pairs are distinct, and together they cover every pair of boolean values. |
| Verdict.Step | hotspot/test/gc/arguments/TestVerifyBeforeAndAfterGCFlags.java:62-65 | Defined as: run one pair; on failure stop and report it with that pair's flags, otherwise continue with the remaining pairs. Characterised by `RunAllReportsFirstFailure`. |
| Verdict.RunAll | hotspot/test/gc/arguments/TestVerifyBeforeAndAfterGCFlags.java:62-65 | Defined as `Step` folded over a sequence of pairs. Characterised by `RunAllPasses` and `RunAllReportsFirstFailure`. |
| Verdict.Drive | hotspot/test/gc/arguments/TestVerifyBeforeAndAfterGCFlags.java:55-66 | Defined as `RunAll` over the four pairs of `main`, each run built from the same inherited options. Characterised by `DriveSteps` and `DrivePassesIffEveryPairPasses`. |
| Verdict.RunAllPasses | hotspot/test/gc/arguments/TestVerifyBeforeAndAfterGCFlags.java:62-65 | A sequence of runs passes exactly when each of its runs passes. |
| Verdict.RunAllReportsFirstFailure | hotspot/test/gc/arguments/TestVerifyBeforeAndAfterGCFlags.java:62-65 | A failing sequence reports its first failing run, with that run's flags and failed assertion. Every earlier run passed. |
| Verdict.DriveSteps | hotspot/test/gc/arguments/TestVerifyBeforeAndAfterGCFlags.java:62-65 | The driver runs (false,false), (true,true), (true,false) and (false,true), in that order, and stops at the first failure. |
| Verdict.DrivePassesIffEveryPairPasses | hotspot/test/gc/arguments/TestVerifyBeforeAndAfterGCFlags.java:62-65 | The driver passes exactly when the checks pass for every pair of flag values, each run built from the same options. |
| Verdict.TestVerifyFlags | hotspot/test/gc/arguments/TestVerifyBeforeAndAfterGCFlags.java:68-106 | One run's outcome is the checks applied to what the child leaves behind when launched with the built command line. |
| Verdict.RunMatrix | hotspot/test/gc/arguments/TestVerifyBeforeAndAfterGCFlags.java:55-66 | The four sequential calls, each ending the run on failure, give exactly the driver's verdict. |
| Workload.LastWriter | hotspot/test/gc/arguments/TestVerifyBeforeAndAfterGCFlags.java:112-116 | The last iteration before `i` that wrote slot `k` comes before `i`, writes slot `k`, and no later iteration before `i` writes slot `k`. |
| Workload.LastWriterStep | hotspot/test/gc/arguments/TestVerifyBeforeAndAfterGCFlags.java:114-115 | Iteration `i` becomes the last writer of slot `i % 10` and of no other slot. |
| Workload.LastWritersAtEnd | hotspot/test/gc/arguments/TestVerifyBeforeAndAfterGCFlags.java:113-116 | After 1000 iterations, slot `k` was last written by iteration `990 + k`. |
| Workload.GarbageProducer.constructor | hotspot/test/gc/arguments/TestVerifyBeforeAndAfterGCFlags.java:109 | The ring is a fresh array of ten empty (null) slots. |
| Workload.GarbageProducer.Run | hotspot/test/gc/arguments/TestVerifyBeforeAndAfterGCFlags.java:111-117 | Each iteration writes only slot `j`. After the loop, `j` is 0, and each slot holds the 10000-element array from the last iteration that wrote it. |

## Left out

- `Utils.getFilteredTestJavaOpts` (lines 56-61) is not part of this model. Its filtering rules live in the test library, so the inherited options are an arbitrary, possibly null, list of strings.
- Launching the child (`ProcessTools.createJavaProcessBuilder`, `start`, lines 86-89) is operating-system I/O. It is modelled as a function parameter from the argument list to the exit value and output, so one command line always yields the same result.
- `OutputAnalyzer` searches standard output and standard error separately. Its internals are not part of this model, and the model searches one combined text.
- The failure messages and the exception mechanics of `throws Exception` are modelled only as an outcome that names the first failed assertion.
- `java.util.regex` in general is left out. Only the four fixed patterns are written as recognisers. That the maximal-run scan is the only way the pattern can match is argued above, not proved against a formal regular-expression semantics.
- `Invocation.EffectiveSwitch` encodes HotSpot's rule that the last occurrence of a `-XX` flag wins. That rule belongs to the JVM, not to this test.
- The JVM and collector behaviour that makes the markers appear is left out. So are the memory and collection effects of `new long[10000]`: an allocation is only a fresh `Chunk` value, numbered by its iteration, stored into a slot.
- Workload.GarbageProducer.Run: returns the final ring position `j`, a local of the original loop, so that its final value can be stated.
