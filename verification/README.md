# BorisType core in Dafny

BorisType compiles TypeScript into a legacy scripting dialect that has no
modules, no block scoping, no spread or destructuring, no iterator
protocol and few built-in methods. This project models the logic at its
core and proves properties about the model:

- **Lowering passes** over one small syntax tree (`Ast`):
  - the TypeScript transformers: functional-chain lowering
    (`ArrayFunctional`, with the meaning of the generated loops in
    `ChainLoops` and an evaluator of the generated statements in
    `ChainEval`), the array, string and `Math` dispatch passes
    (`ArrayGeneral`, `StringTransform`, `MathTransform`);
  - the Babel plugins: array and object spread (`SpreadArray`,
    `SpreadObject`), destructuring (`Destructuring`), loop-variable
    hoisting (`LoopHoist`), `for-of` to `for-in` (`ForOfToForIn`), `$`
    renaming (`ReplaceDollar`) and import/export removal
    (`RemoveImportExport`);
  - the fixed order in which the build runs them (`Passes`).
- **The runtime library**: the Array polyfills (`ArrayPolyfill`), the
  guarded helpers the compiler injects (`ArrayResources`), the rest helpers
  (`Rest`), and the `String` and `Object` polyfills (`StringPolyfill`,
  `ObjectPolyfill`), over the run-time values of `Values` and `Objects`.
- **The test extractor** of `botest` (`TestParser`).
- **Linking**: dependency flattening and the linking filter
  (`Dependencies`, `PackageJson`), reading the linking fields of a package
  and writing `api_ext.xml` (`Linking`).
- **Post-processing of emitted files** (`Build`): capture of script
  outputs, the `@xml-init` and `@html` envelopes, renaming, `\uXXXX`
  decoding and the byte order mark.

The TypeScript type checker is an oracle parameter that answers whether
an expression is array-like or string-like. Fresh names are the plain
text the source asks for, without the renaming that keeps them unique,
except for a functional-chain temporary of a declaration that binds a
pattern: the source builds its name from the pattern's source text, and
the model uses the word `pattern` instead (see `ArrayFunctional.Name`
under "## Left out").
The dialect's built-ins are given their documented meaning: `ArrayCount`
is the length, `Int` is the identity on integers, `Max` and `Min` are as
named, `ArrayUnion` is concatenation and `ObjectUnion` is right-biased
override. Each pass is paired with an independent meaning or an
invariant. The statements the functional-chain lowering emits are run by
a small evaluator and shown to compute the supported method's result,
one call at a time. Each call the general array pass replaces keeps its
meaning. The other loops are proved equal to a sequence function. A
rewrite is proved to leave no construct it removes and to leave alone a
file without one. A writer is proved to be undone by a reader. Where a
pairing holds only under conditions, "## Left out" names them.

Three behaviours of the code are narrower than the names of its passes
suggest, and the model follows the code:

- `for-of` loops become `for-in` loops with the same header. They are
  not turned into index-based loops.
- The general array pass rewrites only `at`, `concat`, `copyWithin`,
  `fill`, `length`, `Array.isArray` and `Array.from`. `splice`, `unshift`
  and `toSpliced` calls are left as they are.
- The `Math` pass rewrites `Math.max` and `Math.min` even in a file that
  uses no helper. Such a file is returned rewritten, without helpers.

Where the code has a bug listed under "## Findings", the model has both a
member that does what the code does and a corrected one. The operations
built from it use the corrected one, and "## Left out" names each of them.

## Model

| member | source | states |
|---|---|---|
| ArrayPolyfill.Clamp | polyfill/src/polyfill/Array.ts:58-59 | a relative index counts back from the end when negative and is capped into `[0, len]` |
| ArrayPolyfill.At | polyfill/src/polyfill/Array.ts:1-12 | `at` finds an element exactly for indices in `[-len, len)`, reading negative ones from the end; otherwise `undefined` |
| ArrayPolyfill.AtNegativeAlias | polyfill/src/polyfill/Array.ts:7-11 | index `i - len` names the same element as `i` |
| ArrayPolyfill.AtExamples | tests/src/arrayCommon.test.ts:4-50 | concrete `at` results, including out-of-range and empty-array cases |
| ArrayPolyfill.CopyWithin | polyfill/src/polyfill/Array.ts:16-42 | the backward and forward in-place loops equal a copy from a snapshot of the source window into the target window, where a missing, unreadable or zero end stands for the length |
| ArrayPolyfill.CopyBackward | polyfill/src/polyfill/Array.ts:29-32 | copying from the last element down reads every source element before it is overwritten, so the result is the snapshot copy even when the windows overlap with the target ahead |
| ArrayPolyfill.CopyForward | polyfill/src/polyfill/Array.ts:33-37 | copying from the first element up gives the snapshot copy whenever the target window does not start inside the source window |
| ArrayPolyfill.CopyWithinEndZeroAsWritten | polyfill/src/polyfill/Array.ts:23 | an explicit end of 0 is falsy and copies up to the length: `copyWithin([1,2,3,4,5], 0, 3, 0)` gives `[4,5,3,4,5]` |
| ArrayPolyfill.CopyWithinIntendedSpec | polyfill/src/polyfill/Array.ts:23 | with the end read as ECMA-262 reads it, an end of 0 leaves the array unchanged, and every other end gives what the code as written gives |
| ArrayPolyfill.CopyWithinExamples | polyfill/src/polyfill/Array.ts:23-27 | default end, negative target and a target past the end give the expected arrays |
| ArrayPolyfill.Fill | polyfill/src/polyfill/Array.ts:52-66 | the loop writes `value` exactly to the normalised window and leaves the rest |
| ArrayPolyfill.FillExamples | polyfill/src/polyfill/Array.ts:55-63 | default, negative and out-of-range bounds give the expected arrays |
| ArrayPolyfill.Slice | polyfill/src/polyfill/Array.ts:196-210 | the result is the sub-sequence between the normalised bounds, empty when they cross |
| ArrayPolyfill.WindowMeaning | polyfill/src/polyfill/Array.ts:198-201 | in-range bounds are taken as given, a negative start counts from the end, absent bounds cover the array |
| ArrayPolyfill.IndexOf | polyfill/src/polyfill/Array.ts:102-114 | the result is the first position at or after the start holding the element, and -1 exactly when there is none |
| ArrayPolyfill.IncludesIffIndexOf | polyfill/src/polyfill/Array.ts:88-100 | `includes` is true exactly when `indexOf` with the same start finds the element |
| ArrayPolyfill.LastIndexOf | polyfill/src/polyfill/Array.ts:142-154 | the result is the last position at or before the start holding the element, and -1 exactly when there is none |
| ArrayPolyfill.FirstAndLastOccurrence | polyfill/src/polyfill/Array.ts:102-154 | with default starts, `indexOf` and `lastIndexOf` agree on membership and bracket the occurrences |
| ArrayPolyfill.SearchExamples | polyfill/src/polyfill/Array.ts:102-154 | concrete search results with positive and negative `fromIndex` |
| ArrayPolyfill.Join | polyfill/src/polyfill/Array.ts:116-130 | the loop yields the parts separated by the separator, `','` by default, with none after the last |
| ArrayPolyfill.JoinedSnoc | polyfill/src/polyfill/Array.ts:122-127 | appending a part appends the separator and the part |
| ArrayPolyfill.Keys | polyfill/src/polyfill/Array.ts:132-140 | one key per position, equal to the position |
| ArrayPolyfill.Entries | polyfill/src/polyfill/Array.ts:44-50 | one `[index, element]` pair per position, in order |
| ArrayPolyfill.ValuesOf | polyfill/src/polyfill/Array.ts:274-276 | a copy with the same elements in the same order |
| ArrayPolyfill.FlatAppend | polyfill/src/polyfill/Array.ts:68-86 | flattening distributes over concatenation |
| ArrayPolyfill.FlatNonPositiveDepth | polyfill/src/polyfill/Array.ts:75 | depth 0 or less gives a shallow copy |
| ArrayPolyfill.FlatCompose | polyfill/src/polyfill/Array.ts:75-79 | flattening `d + 1` levels is one level followed by `d` more |
| ArrayPolyfill.FlatRemovesAllNesting | polyfill/src/polyfill/Array.ts:68-86 | a depth at least the nesting depth leaves no array element |
| ArrayPolyfill.FlatExamples | polyfill/src/polyfill/Array.ts:69 | the default depth is 1; a negative depth copies |
| ArrayPolyfill.ReversedInvolution | polyfill/src/polyfill/Array.ts:172-184 | reversing twice gives the array back |
| ArrayPolyfill.ReverseWith | polyfill/src/polyfill/Array.ts:174-181 | the swap loop reverses the array whichever way `Int(len / 2)` rounds |
| ArrayPolyfill.Reverse | polyfill/src/polyfill/Array.ts:172-184 | the in-place swaps leave the reversed array |
| ArrayPolyfill.ToReversed | polyfill/src/polyfill/Array.ts:253-262 | the new array holds the elements in reverse order |
| ArrayPolyfill.PopShiftUndoPush | polyfill/src/polyfill/Array.ts:156-194 | `pop` undoes a push at the end, `shift` a push at the front, and both give `undefined` on an empty array |
| ArrayPolyfill.Write | polyfill/src/polyfill/Array.ts:235 | a write past the end grows the array, and other positions keep their element |
| ArrayPolyfill.SpliceBoundsAsWritten | polyfill/src/polyfill/Array.ts:217-221 | the start is normalised and the count is capped at the elements left, but it is not kept non-negative |
| ArrayPolyfill.SpliceAsWrittenPastEnd | polyfill/src/polyfill/Array.ts:217-236 | `splice([1,2,3], 5)` as written leaves `[1,2,3,2,3]` |
| ArrayPolyfill.SpliceBounds | polyfill/src/polyfill/Array.ts:217-221 | the corrected bounds keep the deleted run inside the array |
| ArrayPolyfill.SpliceSpecAt | polyfill/src/polyfill/Array.ts:223-250 | region by region: the prefix is kept, then the items, then the tail after the deleted run, then the stale positions of a never-shrunk array |
| ArrayPolyfill.SpliceSpecPastEnd | polyfill/src/polyfill/Array.ts:217-221 | an omitted count with a start past the end changes nothing |
| ArrayPolyfill.ShiftLeftPhase | polyfill/src/polyfill/Array.ts:228-231 | the tail moves down over the deleted run, and the last positions keep their element |
| ArrayPolyfill.ShiftRightPhase | polyfill/src/polyfill/Array.ts:233-236 | the run moves up by the item count, last element first, without clobbering |
| ArrayPolyfill.InsertPhase | polyfill/src/polyfill/Array.ts:238-241 | the items land at the start position, and the other positions are kept |
| ArrayPolyfill.Splice | polyfill/src/polyfill/Array.ts:216-251 | returns the deleted run, and the three loops leave the array `SpliceSpec` describes |
| ArrayPolyfill.SortMessage | polyfill/src/polyfill/Array.ts:212-214 | `sort` always throws, with the fixed message naming the method and saying that its polyfill is not implemented yet |
| ArrayPolyfill.ToSortedMessage | polyfill/src/polyfill/Array.ts:264-266 | the same for `toSorted` |
| ArrayPolyfill.UnshiftMessage | polyfill/src/polyfill/Array.ts:270-272 | the same for `unshift` |
| ArrayResources.ArrayAt | btc/resources/Array.js:1-10 | anything but an array gives `undefined`; an array gives what `at` gives |
| ArrayResources.ArrayCopyWithin | btc/resources/Array.js:12-32 | anything but an array gives `undefined`; an array gets the snapshot copy of `copyWithin` as the library writes it, an end of 0 included |
| ArrayResources.ArrayFill | btc/resources/Array.js:34-44 | anything but an array is handed back unchanged; an array gets the window filled |
| ArrayResources.ArrayAtExamples | btc/resources/Array.js:1-10 | concrete results, including `null` and non-array arguments |
| Rest.Without | btc/resources/destructuring.js:1-8 | exactly the keys not excluded are kept |
| Rest.ObjectRest | polyfill/src/polyfill/destructuring.ts:1-10 | the copy holds exactly the non-excluded keys, in key order, with their values |
| Rest.ArrayRest | polyfill/src/polyfill/destructuring.ts:12-20 | the copy is the suffix from `start`, empty when `start` is past the end |
| Rest.WithoutExample | tests/src/destructuring.test.ts:11-18 | `{a, b, ...rest}` of `{a:1, b:2, c:3}` leaves only `c` |
| StringPolyfill.SliceFrom | polyfill/src/polyfill/String.ts:2 | one-argument `slice` counts a negative start from the end and stops at 0 |
| StringPolyfill.EndsWithNonEmpty | polyfill/src/polyfill/String.ts:1-3 | for a non-empty search string the polyfill answers exactly "is a suffix" |
| StringPolyfill.EndsWithEmptyAsWritten | polyfill/src/polyfill/String.ts:1-3 | for the empty search string it answers true only on the empty string |
| StringPolyfill.EndsWith | polyfill/src/polyfill/String.ts:1-3 | the corrected test is true exactly for suffixes |
| StringPolyfill.EndsWithSelf | polyfill/src/polyfill/String.ts:1-3 | every string ends with itself, in both versions when it is non-empty |
| ObjectPolyfill.Entries | polyfill/src/polyfill/Object.ts:1-3 | one `[key, value]` pair per key, in key order |
| Objects.Set | polyfill/src/polyfill/destructuring.ts:6 | setting a property updates its value and appends a new key at the end |
| ArrayFunctional.ContainsSupportedMethodIff | btc/src/transformers/arrayFunctional.ts:19-33 | the classification holds exactly when some call on the callee/receiver spine names one of the twelve supported methods |
| ArrayFunctional.ContainsSupportedIsAny | btc/src/transformers/arrayFunctional.ts:19-33 | the recursive classification equals a search of the spine |
| ArrayFunctional.Spine | btc/src/transformers/arrayFunctional.ts:19-47 | the spine starts at the expression itself |
| ArrayFunctional.RootCharacterisation | btc/src/transformers/arrayFunctional.ts:35-47 | the root is the receiver of the outermost `map`/`filter`/`flatMap` on the spine, or else the spine's end, which is neither a call nor a property access |
| ArrayFunctional.FirstArrayCall | btc/src/transformers/arrayFunctional.ts:38-40 | the first array-returning call on the spine, with none before it |
| ArrayFunctional.NamesDistinct | btc/src/transformers/arrayFunctional.ts:65-84 | temporaries of different chain depths get different names |
| ArrayFunctional.NonReturns | btc/src/transformers/arrayFunctional.ts:184-185 | exactly the non-`return` statements of the callback block are kept |
| ArrayFunctional.FirstReturnValue | btc/src/transformers/arrayFunctional.ts:187-215 | the step result is the first `return`'s value, and `undefined` for a bare `return` or none |
| ArrayFunctional.LowerSupported | btc/src/transformers/arrayFunctional.ts:63-657 | a supported call adds one loop, plus a temporary unless it is `forEach`; the chain's value is that temporary, or `undefined` for `forEach`; what the added statements compute is proved per method by the `ChainEval` lowering lemmas |
| ArrayFunctional.TransformChain | btc/src/transformers/arrayFunctional.ts:49-701 | the incoming statements stay in front of whatever the chain adds |
| ArrayFunctional.LowerSupportedLoops | btc/src/transformers/arrayFunctional.ts:274-287 | each supported call contributes exactly one `for` statement |
| ArrayFunctional.ChainLoops | btc/src/transformers/arrayFunctional.ts:55-701 | a chain gets one loop per supported call reached through receivers |
| ArrayFunctional.ChainLengthNameIndependent | btc/src/transformers/arrayFunctional.ts:49-701 | how many statements a chain emits does not depend on the prefix or depth |
| ArrayFunctional.ChainUnchangedWhenNothingEmitted | btc/src/transformers/arrayFunctional.ts:692-700 | a chain that emits nothing comes back as it was |
| ArrayFunctional.TransformUnchangedWhenNothingEmitted | btc/src/transformers/arrayFunctional.ts:703-803 | when nothing is hoisted the expression comes back unchanged |
| ArrayFunctional.EmittedCountPrefixIndependent | btc/src/transformers/arrayFunctional.ts:703-803 | whether anything is hoisted does not depend on the prefix |
| ArrayFunctional.Hoist | btc/src/transformers/arrayFunctional.ts:805-880 | a hoisting declaration becomes the hoisted statements followed by a declaration of the same kind, and likewise a `return` and an exported declaration; only a standalone expression whose result is not a call can vanish |
| ArrayFunctional.VisitStmt | btc/src/transformers/arrayFunctional.ts:805-883 | whether or not it hoists, a declaration still ends in a declaration of the same kind and a `return` in a `return`; only a standalone expression can vanish |
| ArrayFunctional.VisitUntouched | btc/src/transformers/arrayFunctional.ts:805-883 | a file in which no supported method is called, at any depth, comes back exactly as it was |
| ArrayFunctional.NestedBodyVisited | btc/src/transformers/arrayFunctional.ts:882 | a statement that hoists nothing has its children visited, so a function body inside a declaration's initialiser is visited too |
| ArrayFunctional.NestedChainLowered | btc/src/transformers/arrayFunctional.ts:805-883 | `xs.map(g)` inside an arrow function's body is lowered in place: the body gains the temporary and its loop, and the declaration reads the temporary |
| ArrayFunctional.TempCallBranchNeverHoists | btc/src/transformers/arrayFunctional.ts:853-873 | the `temp_call` branch cannot hoist anything once `temp_standalone` hoisted nothing |
| ChainLoops.MapLoop | btc/src/transformers/arrayFunctional.ts:572-584 | the generated `map` loop yields the step result of every index, in order |
| ChainLoops.FilterLoop | btc/src/transformers/arrayFunctional.ts:585-600 | the generated `filter` loop keeps the elements with truthy results, in order |
| ChainLoops.FilteredMeaning | tests/src/arrayFunc.test.ts:115-120 | filtering keeps exactly the elements with truthy results and never adds any |
| ChainLoops.FlatMapLoop | btc/src/transformers/arrayFunctional.ts:601-633 | the inner loop appends every element of each step result, in order |
| ChainLoops.EveryLoop | btc/src/transformers/arrayFunctional.ts:433-487 | `every` is true exactly when all results are truthy, and it stops at the first falsy one |
| ChainLoops.SomeLoop | btc/src/transformers/arrayFunctional.ts:433-487 | `some` is true exactly when a result is truthy, and it stops at the first truthy one |
| ChainLoops.FindIndexLoop | btc/src/transformers/arrayFunctional.ts:488-553 | the first index with a truthy result, or -1 exactly when there is none |
| ChainLoops.FindLastIndexLoop | btc/src/transformers/arrayFunctional.ts:488-553 | scanning down, the last index with a truthy result, or -1 exactly when there is none |
| ChainLoops.FindLoop | btc/src/transformers/arrayFunctional.ts:488-553 | the first element with a truthy result, or `undefined` exactly when there is none |
| ChainLoops.FindLastLoop | btc/src/transformers/arrayFunctional.ts:488-553 | the last element with a truthy result, or `undefined` exactly when there is none |
| ChainLoops.ReduceLoop | btc/src/transformers/arrayFunctional.ts:82-290 | the loop computes the left fold from the initial value |
| ChainLoops.ReduceRightLoop | btc/src/transformers/arrayFunctional.ts:82-290 | the loop computes the right fold from the initial value |
| ChainLoops.FoldLeftIsFoldPairs | btc/src/transformers/arrayFunctional.ts:263-283 | `reduce` visits the (element, index) pairs in index order |
| ChainLoops.FoldRightIsReversedFoldPairs | btc/src/transformers/arrayFunctional.ts:263-283 | `reduceRight` visits the same pairs in reverse, each with its own index |
| ChainLoops.ChainLoopExamples | tests/src/arrayFunc.test.ts:185-205 | concrete sum, right-concatenation and filter results |
| ChainEval.BindingsRun | btc/src/transformers/arrayFunctional.ts:290-347 | running the parameter declarations binds callback parameter `q` to argument `q`: the element, its index and the array, with the accumulator first for `reduce` (lines 104-180); the loop index, the receiver and the temporary keep their values |
| ChainEval.AscForRuns | btc/src/transformers/arrayFunctional.ts:636-657 | the ascending `for` statement runs the body for indices 0 up to the end, stopping after the first iteration that breaks, and leaves in the temporary what those iterations compute in turn |
| ChainEval.DescForRuns | btc/src/transformers/arrayFunctional.ts:527-553 | the descending `for` statement does the same from the last index down to 0 |
| ChainEval.MapLowering | btc/src/transformers/arrayFunctional.ts:554-657 | on a receiver bound to an array, the statements a `map` call adds leave as the chain's value the array of step results, one per element, in order |
| ChainEval.FilterLowering | btc/src/transformers/arrayFunctional.ts:554-657 | for `filter` the chain's value is the elements whose step result is truthy, in order, which is `ChainLoops.Filtered` |
| ChainEval.InnerLoopRuns | btc/src/transformers/arrayFunctional.ts:601-633 | the inner loop of `flatMap` appends every element of the step result to the temporary, in order |
| ChainEval.FlatMapLowering | btc/src/transformers/arrayFunctional.ts:554-657 | for `flatMap` with array step results the chain's value is their elements, concatenated in element order |
| ChainEval.ExitRunUp | btc/src/transformers/arrayFunctional.ts:433-553 | an ascending early-exit loop breaks exactly when some element is a hit, at the first hit, storing what it found there; otherwise the temporary keeps its seed |
| ChainEval.ExitRunDown | btc/src/transformers/arrayFunctional.ts:488-553 | a descending early-exit loop breaks at the last hit, or keeps its seed when there is none |
| ChainEval.EveryLowering | btc/src/transformers/arrayFunctional.ts:433-487 | for `every` the chain's value is true exactly when every step result is truthy |
| ChainEval.SomeLowering | btc/src/transformers/arrayFunctional.ts:433-487 | for `some` the chain's value is true exactly when some step result is truthy |
| ChainEval.FindLowering | btc/src/transformers/arrayFunctional.ts:488-553 | for `find` the chain's value is the first element with a truthy step result, and `undefined` when there is none |
| ChainEval.FindIndexLowering | btc/src/transformers/arrayFunctional.ts:488-553 | for `findIndex` it is the index of the first truthy step result, and -1 exactly when there is none |
| ChainEval.FindLastLowering | btc/src/transformers/arrayFunctional.ts:488-553 | for `findLast` it is the last element with a truthy step result, and `undefined` when there is none |
| ChainEval.FindLastIndexLowering | btc/src/transformers/arrayFunctional.ts:488-553 | for `findLastIndex` it is the index of the last truthy step result, and -1 exactly when there is none |
| ChainEval.FoldRunDown | btc/src/transformers/arrayFunctional.ts:82-287 | after some iterations of the descending fold, folding the untouched prefix from the accumulator gives the whole right fold |
| ChainEval.ReduceLowering | btc/src/transformers/arrayFunctional.ts:82-287 | for `reduce` the chain's value is the left fold of the step function over the elements, starting from the initial value, or from `undefined` when none is given |
| ChainEval.ReduceRightLowering | btc/src/transformers/arrayFunctional.ts:82-287 | for `reduceRight` it is the right fold, from the last element to the first |
| ChainEval.ForEachLowering | btc/src/transformers/arrayFunctional.ts:417-432 | for `forEach` the loop runs to the end and the chain's value is `undefined` |
| ChainEval.IdentityMapCopies | btc/src/transformers/arrayFunctional.ts:554-584 | `xs.map(x => x)` gives back the elements of `xs`: a callback that meets the step assumption the lowering lemmas rely on |
| ArrayGeneral.ReplaceKeepsMeaning | btc/src/transformers/arrayGeneral.ts:10-125 | every replacement keeps the meaning of the node it replaces: on an array receiver, the injected helper, `ArrayUnion`, `ArrayCount`, `IsArray` or `ArraySelectAll` call returns what ECMA-262 says the method call returns, except that `copyWithin` with an end of 0 copies up to the length |
| ArrayGeneral.ReplaceMethodKeepsMeaning | btc/src/transformers/arrayGeneral.ts:21-72 | for the four instance methods, the helper call with the receiver put first reads the same receiver and arguments and returns the method's result, a `copyWithin` with an end of 0 excepted |
| ArrayGeneral.ConcatJoined | btc/src/transformers/arrayGeneral.ts:32-39 | `ArrayUnion` of the receiver and the arguments holds the receiver's elements followed by the arguments', which is what `concat` returns |
| ArrayGeneral.FillArgs | btc/src/transformers/arrayGeneral.ts:55-60 | the `fill` helper gets exactly three arguments and reads as its value, start and end the same expressions the method call reads, a missing one being `undefined`, so it fills the same window |
| ArrayGeneral.FillArgsExamples | btc/src/transformers/arrayGeneral.ts:55-60 | one, four and no arguments give the expected triples |
| ArrayGeneral.TransformShape | btc/src/transformers/arrayGeneral.ts:127-138 | at most three helpers are prepended, only used ones, with `at` first; a file with nothing selected comes back as it was |
| StringTransform.Replace | btc/src/transformers/string.ts:7-169 | a node is replaced exactly when it is selected: string `length` becomes `StrCharCount`, `trim` becomes `Trim`, and `startsWith`/`includes`/`endsWith` become `StrBegins`/`StrContains`/`StrEnds`, taking the substring first when a second argument is given |
| StringTransform.TransformUntouched | btc/src/transformers/string.ts:167-171 | a file without string calls or string lengths is unchanged |
| StringTransform.StartsWithRewrite | btc/src/transformers/string.ts:63-96 | the rewritten test agrees with `startsWith`, with and without a position |
| StringTransform.IncludesRewrite | btc/src/transformers/string.ts:98-131 | the rewritten test agrees with `includes`, with and without a position |
| StringTransform.EndsWithRewrite | btc/src/transformers/string.ts:133-162 | the rewritten test agrees with `endsWith`, with and without a length |
| MathTransform.Rewrite | btc/src/transformers/math.ts:19-47 | handled `Math` calls become `___btt_Math_<m>`, `Max` or `Min` calls with the same arguments, no handled call is left, and anything else is kept |
| MathTransform.UsedMethods | btc/src/transformers/math.ts:26-27 | only `abs`, `ceil`, `floor` and `trunc` are recorded as used |
| MathTransform.SortedUsed | btc/src/transformers/math.ts:54 | exactly the used methods are listed |
| MathTransform.SortedUsedSorted | btc/src/transformers/math.ts:54 | the list is strictly sorted, so it has no repeats |
| MathTransform.ReplaceMethodsSorted | btc/src/transformers/math.ts:13 | the method table is in sorted order |
| MathTransform.FindDecl | btc/src/transformers/math.ts:63-67 | the resource's declaration under either spelling of the name, or none when there is no such declaration |
| MathTransform.HelperDecls | btc/src/transformers/math.ts:54-105 | one declaration per used helper: the resource's, or the `unsupported yet` stub |
| MathTransform.TransformShape | btc/src/transformers/math.ts:49-110 | helpers come first, sorted and without repeats, and are declared under the names the rewritten calls use |
| MathTransform.HelperAbs | btc/resources/Math.js:1-7 | the result is non-negative and is the number or its negation |
| MathTransform.HelperCeilIsCeiling | btc/resources/Math.js:9-18 | the `ceil` helper rounds up |
| MathTransform.HelperFloorIsFloor | btc/resources/Math.js:20-25 | the `floor` helper rounds down |
| MathTransform.HelperTruncTowardZero | btc/resources/Math.js:27-32 | the `trunc` helper rounds toward zero |
| MathTransform.RoundBounds | btc/resources/Math.js:12 | `Math.round` is within one half of its argument |
| SpreadArray.GroupFromShape | btc/src/plugins/spreadArray.ts:21-43 | every `ArrayUnion` argument is a spread source or a non-empty literal run without spreads |
| SpreadArray.GroupFromKeepsElements | btc/src/plugins/spreadArray.ts:25-43 | the union of the arguments yields the pending run followed by the remaining elements, in order |
| SpreadArray.RewriteKeepsElements | btc/src/plugins/spreadArray.ts:11-49 | a literal becomes a call exactly when it has a spread, and the call yields exactly the original elements whatever its parts mean |
| SpreadArray.ValuesAppend | btc/src/plugins/spreadArray.ts:25-38 | the elements of a concatenated list are the concatenated elements |
| SpreadArray.UnionValuesAppend | btc/src/plugins/spreadArray.ts:46-48 | `ArrayUnion` over concatenated argument lists concatenates the results |
| SpreadArray.GroupExamples | tests/src/testSpread.ts:3-15 | `[...a]` becomes `ArrayUnion(a)`; literal runs around a spread stay grouped, holes included |
| SpreadObject.TransformDeclaresHelper | btc/src/plugins/spreadObject.ts:14-70 | exactly one helper declaration is added, in front, when some literal has a spread |
| SpreadObject.RewriteKeepsObject | btc/src/plugins/spreadObject.ts:71-134 | the nested `ObjectUnion` calls denote the object the literal denoted, for every meaning of its values and spread sources |
| SpreadObject.GroupFromKeepsObject | btc/src/plugins/spreadObject.ts:83-105 | folding the parts builds the pending run and then the properties |
| SpreadObject.FoldPartsMeaning | btc/src/plugins/spreadObject.ts:114-130 | the left-nested calls, and the `ObjectUnion({}, p)` single-part case, are a left fold from `{}` |
| SpreadObject.UnionAssoc | btc/src/plugins/spreadObject.ts:123-130 | `ObjectUnion` is associative, so left nesting loses nothing |
| SpreadObject.UnionEmptyLeft | btc/src/plugins/spreadObject.ts:114-120 | `{}` is a left identity of `ObjectUnion` |
| SpreadObject.ApplyIsUnion | btc/src/plugins/spreadObject.ts:83-105 | adding properties to an object is a union with the object they build |
| SpreadObject.ApplyAppend | btc/src/plugins/spreadObject.ts:87-100 | adding two lists of properties is adding one after the other |
| SpreadObject.FoldUnionAppend | btc/src/plugins/spreadObject.ts:123-130 | folding two lists of parts is folding one after the other |
| SpreadObject.FlushMeaning | btc/src/plugins/spreadObject.ts:90-93 | closing a run gives the object that run builds |
| SpreadObject.SpreadStep | btc/src/plugins/spreadObject.ts:88-95 | a spread closes the pending run and contributes its source |
| SpreadObject.ItemStep | btc/src/plugins/spreadObject.ts:96-99 | any other property joins the pending run |
| SpreadObject.NewKeys | btc/src/plugins/spreadObject.ts:46-63 | exactly the keys not already present, in order |
| SpreadObject.NewKeysTwice | btc/src/plugins/spreadObject.ts:28-63 | filtering by two key sets in turn is filtering by their union |
| SpreadObject.CopyInto | btc/src/plugins/spreadObject.ts:28-45 | one `for-in` loop of `SetProperty` calls yields the union of the target and the source |
| SpreadObject.ObjectUnionHelper | btc/src/plugins/spreadObject.ts:18-66 | the helper returns the union: all keys of `obj1`, then the new keys of `obj2`, with `obj2`'s values winning |
| SpreadObject.CopyStepProps | btc/src/plugins/spreadObject.ts:52-58 | one `SetProperty` step extends the copied values by one key |
| SpreadObject.CopyStepKeys | btc/src/plugins/spreadObject.ts:52-58 | one `SetProperty` step appends the key exactly when it is new |
| Destructuring.Transform | btc/src/plugins/destructuring.ts:14-115 | the plugin fails exactly when some `for-in` or `for-of` head declares a pattern it would replace; otherwise the program starts with the `throwNotSupported` declaration |
| Destructuring.HeadOfOne | btc/src/plugins/destructuring.ts:100-103 | a loop head declaring one pattern can stay only when that pattern collects no declaration |
| Destructuring.LoopHeadPatternFails | tests/src/destructuring.test.ts:37-47 | `for (const [key, value] of pairs)` and `for (const {a} in o)` make the plugin, and so Babel on the file, fail |
| Destructuring.LoopBodyPatternLowered | btc/src/plugins/destructuring.ts:14-103 | the same array pattern declared inside the loop's body is lowered |
| Destructuring.ObjectPatternMeaning | btc/src/plugins/destructuring.ts:22-56 | for handled properties, each generated declaration binds its name to what destructuring binds it to, in pattern order; an object rest fails |
| Destructuring.PropMeaning | btc/src/plugins/destructuring.ts:26-54 | one property binds its value name to the value under its key, a computed key read as its value |
| Destructuring.ArrayPatternMeaning | btc/src/plugins/destructuring.ts:58-97 | each element name is bound to the copy's element at its position; an array rest fails |
| Destructuring.ArrayCopyFirst | btc/src/plugins/destructuring.ts:62-69 | an array pattern first copies its initialiser into a fresh name with `ArrayDirect` |
| Destructuring.LowerKind | btc/src/plugins/destructuring.ts:37-39 | every generated declaration has one declarator and the statement's kind |
| Destructuring.PatternKind | btc/src/plugins/destructuring.ts:37-93 | each generated declaration of one declarator has one declarator and the statement's kind |
| Destructuring.NoPatternKept | btc/src/plugins/destructuring.ts:100-103 | a declaration without patterns is left as it is |
| Destructuring.LowerKeepsPlain | btc/src/plugins/destructuring.ts:20-103 | the corrected replacement keeps every plain declarator |
| Destructuring.LowerAsWrittenDropsPlain | btc/src/plugins/destructuring.ts:20-103 | as written, `const a = 1, {b} = o` loses `a` |
| Destructuring.ComputedKeyAsWritten | btc/src/plugins/destructuring.ts:28-36 | as written, `{[k]: v} = o` reads the property named "k" |
| ForOfToForIn.TransformRemovesForOf | btc/src/plugins/forOfToForIn.ts:10-18 | the output has as many statements as the input and no `for-of` remains at any depth, function bodies included |
| ForOfToForIn.ForOfBecomesForIn | btc/src/plugins/forOfToForIn.ts:11-17 | a `for-of` becomes a `for-in` with the same header, iterated expression and body, rewritten inside |
| ForOfToForIn.TransformIdempotent | btc/src/plugins/forOfToForIn.ts:10-18 | a file without `for-of` is unchanged, so running the pass twice equals running it once |
| ReplaceDollar.SanitizeSpec | btc/src/plugins/replaceDollar.ts:11-14 | a renamed identifier holds no `$`, grows by three characters per `$`, is each character with `$` expanded to `_24_`, and equals the old name exactly when the old name had no `$` |
| ReplaceDollar.ReplaceAllSpec | btc/src/plugins/replaceDollar.ts:13 | the global replacement expands each `$` to `_24_` and leaves every other character |
| ReplaceDollar.SanitizeIdempotent | btc/src/plugins/replaceDollar.ts:11-14 | renaming a renamed identifier changes nothing |
| ReplaceDollar.SanitizeCollides | btc/src/plugins/replaceDollar.ts:13 | `a$` and `a_24_` end up with the same name, so the renaming is not injective |
| ReplaceDollar.TransformSpec | btc/src/plugins/replaceDollar.ts:10-16 | no identifier of the output holds `$`, a file without `$` is unchanged, and the pass is idempotent |
| ReplaceDollar.OkSanitize | btc/src/plugins/replaceDollar.ts:12-14 | every renamed identifier is free of `$` |
| RemoveImportExport.StripClean | btc/src/plugins/removeImportExport.ts:9-30 | one statement becomes at most one statement, never an import or export, and a plain statement stays |
| RemoveImportExport.TransformSpec | btc/src/plugins/removeImportExport.ts:9-30 | no top-level import or export is left, and a file without them is unchanged |
| RemoveImportExport.TransformAppend | btc/src/plugins/removeImportExport.ts:9-30 | statements are handled one at a time, so the pass distributes over concatenation |
| RemoveImportExport.TransformIsKept | btc/src/plugins/removeImportExport.ts:9-30 | imports, `export *` and bare export lists are dropped, and an exported declaration is kept without its `export` |
| LoopHoist.PutSpec | btc/src/plugins/loopHoistVariables.ts:35 | setting a name in the loop's variable map binds that name, leaves every other name, keeps an existing name in place and appends a new one, and keeps names distinct |
| LoopHoist.LookupMember | btc/src/plugins/loopHoistVariables.ts:4 | a lookup fails exactly when no entry has the name, and otherwise returns an entry of that name |
| LoopHoist.RecordSpec | btc/src/plugins/loopHoistVariables.ts:140-153 | recording declared names maps each of them to its `_loop<counter>` name with the declaration's kind and leaves the other names as they were |
| LoopHoist.RecordGood | btc/src/plugins/loopHoistVariables.ts:140-153 | recording keeps the map's names distinct, each mapped to its own `_loop<counter>` name |
| LoopHoist.LoopNameCounter | btc/src/plugins/loopHoistVariables.ts:34 | two loop sessions never give one name the same new name |
| LoopHoist.LoopNameName | btc/src/plugins/loopHoistVariables.ts:34 | within one loop session two names never get the same new name |
| LoopHoist.TransformNumbersLoops | btc/src/plugins/loopHoistVariables.ts:20-26 | after a file the plugin is outside any loop with an empty map, and its counter is the number of top-level loops |
| LoopHoist.StepsStmt | btc/src/plugins/loopHoistVariables.ts:20-26 | visiting a statement advances the counter once per top-level loop it holds and leaves the loop state as it found it |
| LoopHoist.ExitSteps | btc/src/plugins/loopHoistVariables.ts:53-80 | leaving a top-level loop resets the map and the in-loop flag and keeps the counter |
| LoopHoist.HoistTopLoop | btc/src/plugins/loopHoistVariables.ts:53-80 | a top-level loop becomes its declarations followed by the loop, and the rewritten loop declares no variable |
| LoopHoist.FreeStmts | btc/src/plugins/loopHoistVariables.ts:134-168 | inside a loop no variable declaration survives among the statements of the loop header or body (function bodies inside expressions are not searched) |
| LoopHoist.AssignsTargets | btc/src/plugins/loopHoistVariables.ts:138-161 | a declaration inside a loop becomes one assignment per bound name, in order, to that name's new name |
| LoopHoist.PreDeclsSpec | btc/src/plugins/loopHoistVariables.ts:61-67 | one declaration per recorded variable, with distinct new names and the recorded kind, initialised with `null` exactly when the kind is `const` |
| LoopHoist.WrapFree | btc/src/plugins/loopHoistVariables.ts:163-167 | a declaration replaced by several assignments, or by none, leaves no declaration |
| TestParser.SkipSpace | botest/src/parser.ts:26 | the scan stops at the first non-space character at or after the position, or at the end |
| TestParser.FindFrom | botest/src/parser.ts:42 | the position found is the first occurrence of the pattern at or after the start, or the end when there is none |
| TestParser.Match | botest/src/parser.ts:53-68 | brace counting stops at the `}` that balances the opening brace, or at the end of the text, and the count never drops to zero before |
| TestParser.Take | botest/src/parser.ts:29-71 | a test found after an opening quote has its body between a `{` after the quote and the matching `}`, with one leading and one trailing newline trimmed |
| TestParser.FramesIntro | botest/src/parser.ts:53-71 | the range computed from a `{` and its matching `}` frames a body that never closes more braces than it opens |
| TestParser.Scan | botest/src/parser.ts:20-82 | every extracted body lies after the scan start, inside the text, within a `{`-matched frame, and the bodies come out in order without overlap |
| TestParser.NoMarkerNoTests | botest/src/parser.ts:15-16 | content without `test(` yields no tests and its trimmed text as preamble; every test body lies after the first `test(` |
| TestParser.TrailEnd | botest/src/parser.ts:184 | the scan back stops exactly at the trailing run of white space: everything after the stop is white space and the character before it, if any within the bounds, is not |
| TestParser.TrimSpec | botest/src/parser.ts:184-186 | `trim` yields the slice between the leading and the trailing white space, neither end of it is white space, and trimming twice equals trimming once |
| TestParser.NonTestSlice | botest/src/parser.ts:182-187 | the preamble is a slice of the text before the first `test(` (of the whole text when there is none) |
| TestParser.NonTestHasNoMarker | botest/src/parser.ts:182-187 | the preamble never contains `test(` |
| TestParser.Substring | botest/src/parser.ts:88 | `substring` never yields more than the string |
| TestParser.DedentSpec | botest/src/parser.ts:91-92 | dedenting keeps the number of lines and cuts the same width from each, and a zero width changes nothing |
| TestParser.LeadingSpace | botest/src/parser.ts:90 | the width counted is exactly the run of white space at the start |
| TestParser.TextAsWrittenDropsCharacter | botest/src/parser.ts:90 | as written, the body of `function(){x();}` is dedented by one and loses its first character |
| TestParser.TextKeepsUnindented | botest/src/parser.ts:87-93 | with the corrected width, a body without leading white space is kept verbatim and the first line loses exactly its own indentation |
| TestParser.ExtractTests | botest/src/parser.ts:98-109 | one test case per extracted body, in order, named as extracted, its code the preamble, a newline and the dedented body |
| TestParser.ExtractTestsSpec | botest/src/parser.ts:103-108 | every test case's code starts with the whole preamble followed by a newline, and an unindented body follows it verbatim |
| Dependencies.ReachesStep | btc/src/core/dependencies.ts:148-193 | a dependency of a reachable package is reachable |
| Dependencies.PathRank | btc/src/core/dependencies.ts:148-193 | in an acyclic tree, following dependencies never climbs in rank |
| Dependencies.RootIsNoDependency | btc/src/core/dependencies.ts:159-162 | in an acyclic tree, the root is no dependency of any package it reaches |
| Dependencies.Unvisited | btc/src/core/dependencies.ts:170 | the unprocessed dependencies are exactly those not yet visited, in their order |
| Dependencies.Pushes | btc/src/core/dependencies.ts:181-188 | every unprocessed dependency off the current path is pushed with the extended path, and nothing else is |
| Dependencies.FlattenStep | btc/src/core/dependencies.ts:156-189 | one turn of the loop keeps the loop invariant, only appends to the result, and strictly lowers a well-founded weight of the stack |
| Dependencies.PopKeeps | btc/src/core/dependencies.ts:156-167 | popping a visited entry keeps the stack's paths and pending entries consistent |
| Dependencies.EmitKeeps | btc/src/core/dependencies.ts:172-175 | a package is listed only after all its dependencies, and only once |
| Dependencies.ExpandKeeps | btc/src/core/dependencies.ts:176-188 | putting a package back under its unprocessed dependencies keeps the invariant |
| Dependencies.ExpandStepWeight | btc/src/core/dependencies.ts:176-188 | putting a package back under its dependencies lowers the weight, since each pushed dependency has a lower rank |
| Dependencies.FlattenTree | btc/src/core/dependencies.ts:148-193 | for an acyclic tree the result lists every package reachable from the root exactly once, each after all its dependencies, and ends with the root |
| Dependencies.FlattenDone | btc/src/core/dependencies.ts:155-192 | when the stack is empty the result is exactly the reachable packages |
| Dependencies.ExtractWs | btc/src/core/dependencies.ts:214-220 | the filter returns when no node's test throws, and then keeps exactly the nodes with a string `ws:root` and an object `ws:apiext` whose `libs` is an array |
| Dependencies.ExtractWsAppend | btc/src/core/dependencies.ts:214-220 | filtering distributes over concatenation, so the kept nodes stay in flattened order |
| PackageJson.IsWsPackage | btc/src/core/dependencies.ts:215-219 | the test throws exactly when the document itself is `null`, or when `ws:root` is a string and `ws:apiext` is `null`, and holds exactly when `ws:root` is a string and `ws:apiext` is an object whose `libs` is an array |
| Linking.ParseWsPackageInfo | btc/src/core/linking.ts:69-85 | no reading exactly when the linking test fails; a throw exactly when it throws or a library entry is not a string; otherwise the root, the project path, the name, the `x-local://` root URL and one rewritten path per library, in order |
| Linking.ParseRewritesLibsOnly | btc/src/core/linking.ts:74 | reading a package rewrites its `ws:apiext.libs` in place and changes nothing else of the document |
| Linking.ParseTwicePrefixesAgain | btc/src/core/linking.ts:74 | reading the same document a second time prefixes every already prefixed library path once more |
| Linking.ExtractedPackagesParse | btc/src/core/linking.ts:38 | every package kept by the extraction reads to a package description, so the non-null assertion holds |
| Linking.LibsTextSnoc | btc/src/core/linking.ts:98-102 | appending one library appends its `<lib>` entry |
| Linking.ApisTextSnoc | btc/src/core/linking.ts:93-105 | appending one package appends its `<api>` entry |
| Linking.AppendLibs | btc/src/core/linking.ts:98-102 | the loop appends one `<lib><path>` entry per library, in order |
| Linking.AppendApi | btc/src/core/linking.ts:94-104 | one package adds its `<api>` entry: name, libraries, closing tag |
| Linking.BuildApiExt | btc/src/core/linking.ts:87-111 | the document is the XML declaration, the opening tags, one `<api>` entry per package in order, and the closing tags |
| Linking.ReadUntilTag | btc/src/core/linking.ts:96-100 | reading text up to the next tag splits the input into a tag-free part and the rest |
| Linking.ReadLibsText | btc/src/core/linking.ts:98-102 | the `<lib>` entries read back as the libraries written, when no path holds `<` |
| Linking.ReadApiBlock | btc/src/core/linking.ts:94-104 | an `<api>` entry reads back as the package written |
| Linking.ReadApisText | btc/src/core/linking.ts:93-107 | the `<api>` entries followed by the closing tags read back as the packages written |
| Linking.ApiExtRoundTrip | btc/src/core/linking.ts:87-111 | the document determines the packages: reading it gives back the names and library paths written, in order, when none holds `<` |
| Linking.UnescapedNameBreaksDocument | btc/src/core/linking.ts:96 | a package name holding `</name>` is written unescaped and the document no longer reads back as written |
| Build.Units | btc/src/core/build.ts:129 | a string of UTF-16 code units is the same sequence of units |
| Build.Route | btc/src/core/build.ts:29-35 | every `.js`, `.jsx` and `.mjs` output is captured, every other output is written through, and no output is lost or duplicated |
| Build.RouteAppend | btc/src/core/build.ts:29-35 | capturing keeps the emit order on both sides |
| Build.ReplaceFirst | btc/src/core/build.ts:113 | `String.prototype.replace` with a string pattern replaces the first occurrence only, and changes nothing when there is none |
| Build.CapturedExt | btc/src/core/build.ts:30 | the extension found is empty exactly for files that are not captured, and otherwise ends the name |
| Build.Rename | btc/src/core/build.ts:113 | the corrected renaming keeps the stem and replaces only the captured extension at the end of the name; other names are left alone |
| Build.RenameAgreesOnPlainNames | btc/src/core/build.ts:113 | when `.js` occurs only as the final extension the renaming as written and the corrected one agree |
| Build.RenameAsWrittenEditsDirectory | btc/src/core/build.ts:113 | as written, `d.js/f.js` becomes `d.xml/f.js`: the directory is renamed and the file keeps `.js` |
| Build.RenameAsWrittenKeepsX | btc/src/core/build.ts:113 | as written, `f.jsx` becomes `f.xmlx` |
| Build.XmlInitRoundTrip | btc/src/core/build.ts:111-112 | the `@xml-init` envelope indents every line by two tabs, and removing the envelope and the indentation gives the code back |
| Build.HexDigit | btc/src/core/build.ts:124 | each value below 16 has a hexadecimal digit that reads back as it |
| Build.HexRoundTrip | btc/src/core/build.ts:124-125 | a `\uXXXX` escape of a unit is matched by the pattern and decodes to that unit |
| Build.DecodeUndoesEscape | btc/src/core/build.ts:122-127 | the corrected decoding undoes `\u` escaping of non-ASCII units and leaves ASCII text, escaped backslashes included, as it is |
| Build.DecodeAsWrittenUndoesEscape | btc/src/core/build.ts:124-126 | as written, decoding undoes the escaping of text without backslashes |
| Build.DecodeAsWrittenBreaksEscapedBackslash | btc/src/core/build.ts:124 | as written, the escaped text `\\u0041` loses its escape and becomes a backslash followed by `A`; the corrected decoding leaves it |
| Build.DecodeAsWrittenMakesQuote | btc/src/core/build.ts:123-126 | as written, `\u0022` becomes a bare quote, an ASCII character the comment does not mean to decode; the corrected decoding leaves it |
| Build.DecodeAsWrittenChanges | btc/src/core/build.ts:124-126 | decoding never lengthens the code and changes it exactly when an escape is present |
| Build.ShiftEscape | btc/src/core/build.ts:124 | whether an escape starts at a position does not depend on the text before it |
| Build.PostProcess | btc/src/core/build.ts:106-132 | every written file starts with the byte order mark |
| Build.PostProcessSpec | btc/src/core/build.ts:106-129 | code without markers is written with only the byte order mark added; an `@xml-init` file becomes a `.xml` file whose envelope holds the code |
| Build.HtmlWrapSpec | btc/src/core/build.ts:116-120 | an `@html` file becomes a `.html` file whose content between `<%` and `%>` is the code |
| Build.ProcessCaptured | btc/src/core/build.ts:99-146 | at most one file is written per captured output, each starting with the byte order mark |
| Build.ProcessCapturedAll | btc/src/core/build.ts:99-146 | when Babel succeeds on every captured output, each output is written once, processed, in emit order |
| Passes.RunBabelSplit | btc/src/core/build.ts:69-93 | running the plugins in two parts is running them whole, and a failure in the first part fails the whole |
| Passes.RunTsSplit | btc/src/core/build.ts:232-239 | running the transformers in two parts is running them whole |
| Passes.BabelOutputHasNoModuleSyntax | btc/src/core/build.ts:92 | the import remover runs last, so when the plugin list succeeds no top-level import or export survives it, whatever the other plugins do |
| Passes.Position | btc/src/core/build.ts:69-93 | each plugin has a position in the configured list |
| Passes.PluginsDistinct | btc/src/core/build.ts:69-93 | every plugin is configured, and each exactly once |
| Passes.BabelOrder | btc/src/core/build.ts:80-92 | `for-of` lowering precedes spread lowering, which precedes destructuring, block scoping, `$` renaming, loop hoisting and, last, import removal |

## Left out

- The TypeScript compiler, its type checker and Babel's traversal are not modelled. The type checker is an oracle parameter. Babel's `path`/`scope` API is replaced by rewrites of the tree, and `generateUidIdentifier` by a name-supply parameter (`Destructuring.Transform`'s `uid`).
- Passes.RunBabel: Babel merges the visitors of all plugins into one traversal. The model runs the plugins one after another, each over the whole file. The enum and namespace transformers and Babel's own plugins are parameters (`Passes.Env`), because their code is not part of this model; they are taken never to fail. Of the modelled plugins only `Destructuring.Transform` can fail, and a failure fails the whole file, as an exception thrown inside Babel does in btc/src/core/build.ts:141-145.
- Build.ProcessCaptured: Babel is a parameter that returns the new code, or nothing when it fails. Babel's error and warning logging, and diagnostics reporting, are left out.
- Source maps, `buildNonTypescriptFiles`, `collectNonTypescriptFiles` and the unused `decorateHostWriteFile` of `build.ts` are left out. They are file-system I/O or dead code.
- `processLinking`, `copyWithPrefix` and `copyRecursive` of `linking.ts`, and `buildDependencyTree`, `getCompilerRequiredDependencies` and the print helpers of `dependencies.ts`, are left out. They are file-system I/O, asynchronous reads and console output.
- Dependencies.FlattenTree: requires an acyclic dependency graph. On a cycle the source's loop re-pushes the same entry forever, and the `console.warn` for cycles is not modelled. Random `hash` strings are natural-number identities. The tree builder, left out above, can itself produce a cycle. Its cycle check compares declared version ranges, while its table of shared nodes is keyed by resolved versions. So two packages that name each other with different spellings of a range (`^1.0.0` and `1.0.0`) become each other's dependency.
- Linking.ParseWsPackageInfo: `path.posix.normalize` is a parameter. JSON numbers are integers only.
- Linking.BuildApiExt: the XML is built as written, with names and paths unescaped. The round trip holds only for text without `<` (see `Linking.UnescapedNameBreaksDocument`).
- `extractTestsReliably` (a near copy of the parser, in `botest/src/parser.ts` and `botest/src/runner.ts`) and the rest of the test harness are left out. The harness is console output, a VM sandbox and interpreter evaluation.
- TestParser.Match: braces are counted in strings and comments too, as in the source.
- LoopHoist: `scope.rename` is modelled as a substitution applied to the whole top-level loop with the loop's final table. Uses after the loop are not renamed. The run-time results of the hoisting tests (such as `[20,20,22,22,24,24]`) need the dialect's interpreter and are not modelled.
- ForOfToForIn.TransformRemovesForOf: the meaning of `for-in` over arrays in the dialect (visiting elements) is not modelled. The iteration tests need the interpreter.
- ReplaceDollar.SanitizeCollides: the renaming is not injective, so distinct source names can clash. The model records this instead of preventing it.
- The floating-point `Math` helpers of `Math.js` are modelled on exact reals. NaN, infinities and rounding of binary doubles are left out.
- Sparse arrays, holes in run-time arrays, and `Int` on non-numeric input are left out.
- ArrayFunctional.LowerSupported: its own contract gives the shape of what a call adds. What the added statements compute is proved in `ChainEval`, for a receiver that is a plain name bound to an array. There, the callback's statements are described by what they compute for one element, and by their leaving the loop's own names alone (`StepMaps`, `StepFolds`); they are not run. Arrays are values, so a callback that changes the array being walked is not modelled. Loops run with a fuel bound, and a run that needs more is `Stuck`. `flatMap` is proved only for step results that are arrays.
- ArrayFunctional.TransformChain: a chain of several supported calls is proved one call at a time, each reading the previous call's temporary. The whole chain is not proved end to end, because the lemma for one call does not show that the temporary it reads is bound.
- ArrayFunctional.VisitStmt: expressions inside binding patterns (default values and computed keys) are not visited, as in every rewrite of this model. The source visits them too.
- ArrayFunctional.Name: generated names are the plain text of a prefix, `_` and the chain depth. The source's `createUniqueName` also keeps them apart from each other and from the program's own names; the model does not. So `xs.map(f); ys.map(g);` declares `temp_standalone_1` twice in the model, which the source never does. `NamesDistinct` covers only different depths of one chain. For a declaration that binds a pattern, as in `const [first] = xs.filter(p);`, the source's prefix is `temp_` followed by the pattern's source text (`temp_[first]`), which is not an identifier, so the emitted file does not parse. The model uses the prefix `temp_pattern` instead, since the source text and its whitespace are not part of the tree.
- ArrayGeneral.HelperDecl: the injected helpers are declared by name and parameters, with empty bodies. What a call of a helper returns is given by `TargetMeaning`, which reads it as the guarded algorithm of the same name in `ArrayResources`; the text of the emitted bodies is not modelled.
- SpreadObject.UnionDecl: the `ObjectUnion` helper is declared by name and parameters, with an empty body. What a call of it returns is `ObjectUnionHelper`; the text of the emitted body is not modelled.
- Build.PostProcess: runs the corrected `Rename` and `Decode` (see "## Findings"). As written, an `@xml-init` file named `f.mjs` keeps its name, `d.js/f.js` becomes `d.xml/f.js`, and `\u0022` is decoded to a quote.
- Build.PostProcessSpec: the `.xml` name comes from the corrected `Rename`. As written, `f.mjs` keeps its name and `d.js/f.js` becomes `d.xml/f.js`.
- Build.HtmlWrapSpec: the `.html` name comes from the corrected `Rename`, which replaces only the final extension. As written, the first `.js` anywhere in the path is replaced.
- Build.ProcessCaptured: writes the corrected `PostProcess`, with the differences listed for it.
- Build.ProcessCapturedAll: each output equals the corrected `PostProcess`, not the one as written.
- TestParser.ExtractTests: composes the corrected `Text`. As written, an unindented body loses its first character.
- TestParser.ExtractTestsSpec: "an unindented body follows verbatim" holds for the corrected `Text` only. As written, the body `function(){x();}` gives `();`.
- Destructuring.Transform: runs the corrected `Lower`, which keeps plain declarators and reads computed keys as computed. As written, `const a = 1, {b} = o` loses `a`, and `{[k]: v}` reads `o.k`. `Passes.ApplyBabel` inherits this.
- Destructuring.Transform: a pattern declared in a `for (init; …)` header or under `export` is kept as it is. In the source, Babel's placement of several statements in those slots decides the outcome, and Babel's insertion rules are not modelled. Only `for-in` and `for-of` heads are modelled as failures.
- ArrayFunctional.Hoist: names the temporary of a pattern declaration `temp_pattern_<n>` where the source emits the pattern's text (see `ArrayFunctional.Name`).
- Objects.Set: keys are enumerated in insertion order. ECMAScript lists integer-like keys first, in ascending order; the model assumes keys that are not integer-like.
- ArrayPolyfill.Join: the elements arrive already converted to text. The dialect's conversion of each element, `null` and `undefined` included, and a `null` separator are not modelled.
- LoopHoist.BoundNames: a nested pattern's names are listed depth-first, left to right. Babel's `getBindingIdentifiers` lists them breadth-first, so only the order of the hoisted names of a nested pattern differs.
- ArrayFunctional.TempCallBranchNeverHoists: the `temp_call` branch of the visitor is unreachable. It is proved to do nothing rather than modelled as a separate path.
- RemoveImportExport: only top-level module statements are handled, which is where the language allows them.
- Strings are sequences of UTF-16 code units in `Build` and sequences of characters elsewhere. No Unicode normalisation or case folding is modelled: `StrUpperCase`, `StrLowerCase` and `Trim` are dialect built-ins named by the rewrite only.

## Findings

| source | as written | input that shows it | evidently intended | confidence | as-written member | corrected member |
|---|---|---|---|---|---|---|
| polyfill/src/polyfill/Array.ts:217-221 | an omitted `deleteCount` becomes `len - start` with no floor at 0, so a start past the end gives a negative count | `splice([1,2,3], 5)` leaves `[1,2,3,2,3]` | the count is at least 0, as ECMA-262 defines `Array.prototype.splice`, and the array is unchanged | high; not executed | ArrayPolyfill.SpliceAsWrittenPastEnd | ArrayPolyfill.Splice |
| polyfill/src/polyfill/Array.ts:23 | the end is chosen by a truth test on `OptInt(end)`, so an explicit end of 0 falls back to the length; the same line is in btc/resources/Array.js:17 | `copyWithin([1,2,3,4,5], 0, 3, 0)` gives `[4,5,3,4,5]` | an explicit end of 0 is an empty source window, as ECMA-262 defines `Array.prototype.copyWithin`, and the array is unchanged | high; not executed | ArrayPolyfill.CopyWithinEndZeroAsWritten | ArrayPolyfill.CopyWithinIntendedSpec |
| polyfill/src/polyfill/String.ts:2 | `slice(-0)` is the whole string, so an empty search string is found only at the end of an empty string | `endsWith("abc", "")` is false | every string ends with the empty string | high; not executed | StringPolyfill.EndsWithEmptyAsWritten | StringPolyfill.EndsWith |
| btc/src/plugins/destructuring.ts:20-103 | the replacement holds only the declarations made from patterns | `const a = 1, {b} = o` loses `a` | plain declarators are kept in their place | high; not executed | Destructuring.LowerAsWrittenDropsPlain | Destructuring.LowerKeepsPlain |
| btc/src/plugins/destructuring.ts:28-36 | the key node is used as a non-computed member name | `const {[k]: v} = o` reads `o.k` | the computed key is read as `o[k]` | medium; not executed | Destructuring.ComputedKeyAsWritten | Destructuring.ObjectPatternMeaning |
| botest/src/parser.ts:90 | an empty indentation match is falsy and is replaced by a one-character string | the body of `function(){x();}` becomes `();` | a body without indentation is kept as it is | high; not executed | TestParser.TextAsWrittenDropsCharacter | TestParser.TextKeepsUnindented |
| btc/src/core/build.ts:113 | `replace('.js', …)` replaces the first `.js` anywhere in the path | `d.js/f.js` becomes `d.xml/f.js`, and `f.jsx` becomes `f.xmlx` | only the file's own script extension is replaced | medium; not executed | Build.RenameAsWrittenEditsDirectory | Build.Rename |
| btc/src/core/build.ts:122-126 | every `\uXXXX` is decoded, including one preceded by an escaping backslash and ASCII escapes | `"\\u0041"` becomes a backslash and `A`, and `\u0022` becomes a bare quote | only escapes of non-ASCII characters are decoded, and an escaped backslash is kept | medium; not executed | Build.DecodeAsWrittenBreaksEscapedBackslash | Build.DecodeUndoesEscape |
