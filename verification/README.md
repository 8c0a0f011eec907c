# Verification of the recipe build core and of the matrix inversion kernel

This project models, in Dafny, the parts of the repository in which a small mistake has far-reaching
effects, and proves what they are relied on for. Every statement is for all inputs or for all runs.

* **Matrix inversion** (`Complex`, `Matrices`, `QrSteps`, `LinearAlgebra`, `MatrixInverse`): the modified
  Gram-Schmidt kernel, loop by loop on two-dimensional arrays, over exact complex numbers. The pipeline
  succeeds exactly on the matrices with linearly independent columns, and then its result is the two-sided
  inverse.
* **Dependency resolution** (`RecipeCache`, `FailurePropagation`, `FailureBound`, `Exploration`, `TaskData`):
  the class `TaskData` with its mutually recursive failure propagation. One failure fails exactly the least
  set of files closed under "every provider of a needed target has failed". Whole runs end, every requested
  target is answered and everything it leads to is settled, and nothing fails that does not have to.
* **The variable store** (`DataStore`, `StoreWrites`, `OverrideChoice`, `Expansion`, `ExpandCache`,
  `StoreObjects`, `DataSmart`): copy-on-write layers refine one flat map; a copy shares dictionaries and
  lists with its parent and leaves the parent alone; the override index and the override loop; expansion,
  and a cache that does not show in the answers.
* **What a write means for a read** (`ExpansionLaws`, `ReferenceLaws`, `OperationLaws`, `OverrideLaws`): the
  value that comes of a setting, a `${...}` reference, an `_append`, `_prepend` or `_remove`, a conditional
  variable and a default value, stated with the texts and keywords spelled out.
* **Signatures** (`SortedNames`, `BaseHash`, `TaskHash`, `SignatureRun`): two separately written worklists
  compute the same reachable set; a whole run hashes every task, in whatever order the tasks come, and hashes
  recomputed from dumped data are the ones computed during the run.
* **Smaller cores**: the chains between two tasks (`TasksBetween`), provider choice (`Providers`), checksum
  differences (`ChecksumDiff`) and virtual file names (`VirtualNames`). `Strings`, `Sequences` and `Options`
  hold what several modules share.

`dafny verify dfyconfig.toml` checks the whole project.

## Reading guide

Classes and methods follow the source step by step: `TaskData`, `SignatureGenerator`, `DataSmart`,
`ChainWalk` and `TaskList` have the source's fields and change them in place; the matrix methods work on
`array2`. The dictionaries and lists that a `DataSmart` shares with its copies are objects of their own
(`StoreObjects`): a layer, a variable's dictionary, a list of operations, a list of the index. Each such method is specified by a function or relation on values (`Spread`, `FlatWriteOne`,
`Eval`, `Filtered`, ...), and the lemmas prove what the source promises about that function or relation.

Calls into code outside the model are parameters: the square root (known only by `s >= 0 && s * s == x`), the hash
function, the comparison of versions (a total preorder), the test for ignored names, the result of `build_dependencies`,
the content of a taint file, a fresh UUID, the wanted version of a recipe, and the resolved OVERRIDES.

## Where the code falls short of its promise

Each of these is proved. The lemmas and methods named say when the code does meet the promise, with an
if-and-only-if wherever a caller could check the condition, and give a case in which it does not.

* `foo_append = "..."` files the variable `foo` in the override index as the override `foo` of a variable
  `fo`, because `rfind` gives -1 when there is no `_`. The index spells its variables as base_override after
  a write if and only if the write does not put an operation keyword on a name without `_` that starts with
  a lower-case letter or digit (`DataStore.FlatWriteSpelled`, `DataStore.MisspelledExample`).
* `delVar` asks `islower()` of a whole override where the index was filled by a match of `[a-z0-9]+` at its
  start, and skips names without `_`. A variable that was written and then deleted is listed nowhere if and
  only if `Forgettable` holds: every suffix of the name under which a write files it passes `islower()`, and
  a name without `_` does not look like an override (`DataStore.DeletionUnlists`,
  `DataStore.DeletedStaysListed`).
* The override loop shortens keys with `str.replace`, which also cuts into longer names. For OVERRIDES whose
  names have no `_`, a variable is selected whenever an override is in force, for every list of pairs, if and
  only if no name in OVERRIDES begins with another one (`OverrideChoice.SelectsExactlyWhenPrefixFree`,
  `OverrideChoice.PrefixOverrideLost`).
* The cache key of the flag `b` of `A` is that of a variable called `A[b]`. A read of a variable shares its
  key with some read of a flag if and only if its name holds a `[`, ends in `]`, and has a flag name between
  the two (`ExpandCache.ContentSharesKey`). Proper reads never share a key, and every read that is not proper
  shares one with a read that is (`ExpandCache.ProperKeysDiffer`, `ExpandCache.ImproperSharesKey`). A run in
  which the second read gets the answer of the first is `DataSmartModel.WrongAnswer`.
* A taint is tested with `startswith` when a task hash is computed and with `in` when it is recomputed. Both
  read the same text if and only if `TaintAgrees` holds (`TaskHash.TaintRecomputed`,
  `TaskHash.TaintMismatchExample`).
* `tasksbetween` looks at its end task only from inside a loop over other tasks, so in a recipe without any
  task besides the end it returns nothing (`TasksBetween.TasksBetweenTwo`).
* `filterProviders` iterates over the integer 0 when there are no candidates and the item has a preferred
  provider (`Providers.FilterProviders`, outcome `Raised`).
* Virtual names are decoded to what was encoded if and only if `VirtualNames.Encodable` holds, and the variant
  `mc:M:C` names the same file as the pair does if and only if M is not empty and C does not start with `:`.

## Model

| member | source | states |
|---|---|---|
| MatrixInverse.Invert | hardware/lib/matrix_inverse_complex_stream/src/mgs_inverse_complex.cpp:94-109 | one matrix through the whole pipeline: it succeeds if and only if the columns of A are linearly independent, and then InverseA * A = I and A * InverseA = I |
| MatrixInverse.Decompose | hardware/lib/matrix_inverse_complex_stream/src/mgs_inverse_complex.cpp:121-191 | either Q * R = A, the columns of Q are orthonormal, and R is upper triangular with a positive real diagonal, or a magnitude was zero, and then the columns of A are linearly dependent |
| MatrixInverse.EliminateColumns | hardware/lib/matrix_inverse_complex_stream/src/mgs_inverse_complex.cpp:154-190 | the main loop: it ends with the decomposition invariant for all columns, and a zero magnitude on the way shows that the columns are dependent |
| MatrixInverse.MagnitudeColumn | hardware/lib/matrix_inverse_complex_stream/src/mgs_inverse_complex.cpp:193-204 | the non-negative number whose square is the inner product of the column with itself |
| MatrixInverse.ProjectColumn | hardware/lib/matrix_inverse_complex_stream/src/mgs_inverse_complex.cpp:173-187 | R gets the inner product of the finished column with a residual column, and the residual column loses its projection; nothing else changes |
| MatrixInverse.InvertR | hardware/lib/matrix_inverse_complex_stream/src/mgs_inverse_complex.cpp:224-254 | fills the upper triangle with the triangular inverse, which depends on R alone, whatever the array held before; the rest is left as it was |
| MatrixInverse.MultiplyRinvQt | hardware/lib/matrix_inverse_complex_stream/src/mgs_inverse_complex.cpp:257-273 | the product of the triangular inverse with the adjoint of Q, from the upper triangle only |
| QrSteps.PassKeepsInvariant | hardware/lib/matrix_inverse_complex_stream/src/mgs_inverse_complex.cpp:154-190 | one pass of the main loop keeps: A is Q * R so far plus the residual, finished columns are orthonormal, residual columns are orthogonal to them, R is positive triangular |
| QrSteps.InvariantAtEnd | hardware/lib/matrix_inverse_complex_stream/src/mgs_inverse_complex.cpp:126-142 | after the last pass the invariant is the decomposition itself |
| LinearAlgebra.VanishedResidual | hardware/lib/matrix_inverse_complex_stream/src/mgs_inverse_complex.cpp:157-158 | a residual column that vanishes makes the columns of A dependent |
| LinearAlgebra.PassKeepsSpan | hardware/lib/matrix_inverse_complex_stream/src/mgs_inverse_complex.cpp:182-187 | every residual column stays a column of A plus a combination of earlier ones |
| LinearAlgebra.TriangularInverseInverts | hardware/lib/matrix_inverse_complex_stream/src/mgs_inverse_complex.cpp:236-253 | back substitution gives X with X * R = I for every upper triangular R with a non-zero diagonal |
| LinearAlgebra.TriangularRightInverse | hardware/lib/matrix_inverse_complex_stream/src/mgs_inverse_complex.cpp:236-253 | and R * X = I |
| LinearAlgebra.OrthonormalRows | hardware/lib/matrix_inverse_complex_stream/src/mgs_inverse_complex.cpp:218-219 | a square matrix with orthonormal columns has orthonormal rows |
| LinearAlgebra.InverseFromFactors | hardware/lib/matrix_inverse_complex_stream/src/mgs_inverse_complex.cpp:206-222 | from A = Q * R, orthonormal Q and the triangular inverse of R, the product is the inverse on both sides |
| LinearAlgebra.LeftInverseIndependent | hardware/lib/matrix_inverse_complex_stream/src/mgs_inverse_complex.cpp:94-109 | only matrices with independent columns have a left inverse |
| TaskDataModel.TaskData.FailFn | sources/core/bitbake/lib/bb/taskdata.py:438-460 | terminates, and leaves the state that the least spread of the failure from the file describes: failed files, pruned lists, failed targets; target names are unchanged |
| TaskDataModel.TaskData.RemoveBuildTarget | sources/core/bitbake/lib/bb/taskdata.py:462-484 | the target fails, and with it the least spread from every file that needs it, by package or by inter-task dependency |
| TaskDataModel.TaskData.RemoveRunTarget | sources/core/bitbake/lib/bb/taskdata.py:486-505 | the same for run-time targets |
| TaskDataModel.TaskData.GetDependees | sources/core/bitbake/lib/bb/taskdata.py:280-288 | exactly the files that list the target among their dependencies |
| FailurePropagation.SpreadIsLeastFailure | sources/core/bitbake/lib/bb/taskdata.py:438-505 | the spread is the least set of files that holds the failed one and is closed under "all providers of a needed target failed"; no list keeps a failed file; exactly the emptied targets have failed |
| FailurePropagation.SpreadDeterministic | sources/core/bitbake/lib/bb/taskdata.py:451-460 | two runs of the propagation from one state end in the same state, in whatever order they walk the dictionaries |
| FailurePropagation.SpreadTransitive | sources/core/bitbake/lib/bb/taskdata.py:462-480 | nested and successive failures compose to one spread, also when outer frames are still pruning lists |
| FailurePropagation.SoundSpread | sources/core/bitbake/lib/bb/taskdata.py:438-505 | spreading a failure keeps: no dependency of a seen, live file has failed |
| TaskDataModel.TaskData.AddTasks | sources/core/bitbake/lib/bb/taskdata.py:67-166 | a new file is seen once and its dependencies are recorded; it stays unless one of them had failed already, and then its failure spreads |
| TaskDataModel.TaskData.AddTaskEntries | sources/core/bitbake/lib/bb/taskdata.py:105-126 | exactly the file's tasks are recorded with their dependencies, the entries of other files stay, and only targets mentioned by the tasks become known |
| TaskDataModel.TaskData.AddProviderInternal | sources/core/bitbake/lib/bb/taskdata.py:337-383 | succeeds if and only if the name is ignored, has providers already, or has a candidate that has not failed; then its list is its candidates without the failed files, in order, and otherwise nothing changes |
| TaskDataModel.TaskData.AddRprovider | sources/core/bitbake/lib/bb/taskdata.py:388-436 | the same for run-time targets, where more than one preferred provider is an error |
| TaskDataModel.TaskData.GetUnresolvedBuildTargets | sources/core/bitbake/lib/bb/taskdata.py:244-257 | exactly the known targets that are neither ignored, nor provided for, nor failed |
| TaskDataModel.TaskData.AddUnresolved | sources/core/bitbake/lib/bb/taskdata.py:507-532 | terminates; afterwards every known target is ignored, provided for, or failed (or, with incomplete results allowed, without a live candidate); every dependency of every seen, live file is ignored or has a non-empty list of live files whose tasks were added; settled targets stay settled; and only what has to fail has failed: the failed files lie within every set of files that holds all files asking for a target without a candidate, with more than one preferred run-time candidate, or with its first candidate in the set, and every failed target is of that kind |
| TaskDataModel.TaskData.NothingFails | sources/core/bitbake/lib/bb/taskdata.py:438-505 | when every name that the parsed files mention has a candidate, and no run-time name has more than one preferred, no file fails, and a target fails only for want of a candidate of its own or for too many |
| TaskDataModel.BuildTaskData | sources/core/bitbake/lib/bb/taskdata.py:327-335 | a whole run over any list of requested targets: each of them is ignored, has failed, or has the non-empty list of its candidates without the failed ones, all of them added; the run ends settled, resolved and consistent; only what has to fail has failed; and only what the requested targets lead to was looked at |
| FailureBound.BoundedSpread | sources/core/bitbake/lib/bb/taskdata.py:438-505 | spreading a failure that had to happen fails only what has to fail |
| FailureBound.BoundedGaveUp | sources/core/bitbake/lib/bb/taskdata.py:507-532 | so does giving up a target without a hope |
| FailureBound.NobodyDoomed | sources/core/bitbake/lib/bb/taskdata.py:507-532 | the empty set holds every file that has to fail if and only if every mentioned name is provided for |
| Exploration.ExploredFileAdded | sources/core/bitbake/lib/bb/taskdata.py:67-166 | adding a candidate of a wanted target stays within what the requested targets lead to, and makes the targets of its tasks known |
| DataStore.FlatIsFind | sources/core/bitbake/lib/bb/data_smart.py:459-468 | the chained lookup is lookup in one flat map in which the nearest layer wins and an empty entry hides what is below |
| DataStore.FlatWrite | sources/core/bitbake/lib/bb/data_smart.py:470-479 | writing an entry in the nearest layer writes the flat map |
| DataStore.UpdateOverridesSpelled | sources/core/bitbake/lib/bb/data_smart.py:567-583 | recording a name keeps every pair spelled base_override and unrepeated, if and only if the name has a `_` or does not look like an override |
| DataStore.MisspelledExample | sources/core/bitbake/lib/bb/data_smart.py:512-513 | the name `foo` is filed under `fo` |
| DataStore.UpdateOverridesLists | sources/core/bitbake/lib/bb/data_smart.py:567-583 | recording a name lists it under exactly the splits that the loop visits, and nothing else changes |
| DataStore.ForgetOverridesSpelled | sources/core/bitbake/lib/bb/data_smart.py:639-664 | deleting a variable keeps the index spelled |
| DataStore.DeletionUnlists | sources/core/bitbake/lib/bb/data_smart.py:647-664 | a variable that was written and then deleted is listed nowhere if and only if its name is forgettable |
| DataStore.RunThenDelete | sources/core/bitbake/lib/bb/data_smart.py:639-664 | after any run of writes, deleting a forgettable name leaves it listed nowhere |
| DataStore.FlatRunWellFiled | sources/core/bitbake/lib/bb/data_smart.py:567-583 | over any run, every pair sits under a split of its variable, once |
| DataStore.DeletedStaysListed | sources/core/bitbake/lib/bb/data_smart.py:651-656 | `A_1` is still listed under `A` after it was deleted |
| DataStore.FlatWriteSpelled | sources/core/bitbake/lib/bb/data_smart.py:482-551 | any single write keeps the index spelled if and only if it is not an operation on a name as above |
| DataStore.FlatRunSpelled | sources/core/bitbake/lib/bb/data_smart.py:567-583 | so does any run of such writes |
| DataStore.FlatRunLonger | sources/core/bitbake/lib/bb/data_smart.py:529-540 | after any run whatever, pairs name variables longer than their base; this is why deleting the conditional variables cannot remove the key that is deleted afterwards |
| OverrideChoice.PassLighter | sources/core/bitbake/lib/bb/data_smart.py:716-728 | a pass that shortens a key lowers the total length of the keys, so the `while mod` loop ends |
| OverrideChoice.SelectVariable | sources/core/bitbake/lib/bb/data_smart.py:705-729 | the nested loops compute the selection function |
| OverrideChoice.SelectsLastOverride | sources/core/bitbake/lib/bb/data_smart.py:716-729 | for distinct OVERRIDES and overrides without `_`, the selected variable is base_o for the last name o in OVERRIDES that has one; none is selected if and only if there is none |
| OverrideChoice.SelectedListed | sources/core/bitbake/lib/bb/data_smart.py:729-730 | whatever the names, only a variable of the index is selected |
| OverrideChoice.SelectsWhenInForce | sources/core/bitbake/lib/bb/data_smart.py:705-730 | when no name in OVERRIDES begins with another, a variable is selected if and only if some override, of one part or several, is in force |
| OverrideChoice.SelectsExactlyWhenPrefixFree | sources/core/bitbake/lib/bb/data_smart.py:705-730 | that holds for every list of pairs if and only if no name in OVERRIDES begins with another |
| OverrideChoice.PrefixOverrideLost | sources/core/bitbake/lib/bb/data_smart.py:721-725 | whenever one name in OVERRIDES begins another, there is an override in force that `str.replace` destroys |
| Expansion.EvalDeeper | sources/core/bitbake/lib/bb/data_smart.py:689-814 | an outcome of evaluation reached within some depth is the outcome at every greater depth |
| Expansion.ModesAgree | sources/core/bitbake/lib/bb/data_smart.py:776-812 | the two modes of reading, which look at removals under different conditions, agree whenever the one used for selected variables has a result; so what it caches is what a later read would compute |
| ExpansionLaws.SetThenGet | sources/core/bitbake/lib/bb/data_smart.py:519-551 | after setVar the unexpanded value is the one set, whatever operations and conditional variables there were, and without references so is the expanded one |
| ExpansionLaws.OverrideThenGet | sources/core/bitbake/lib/bb/data_smart.py:705-741 | after setVar of base_o, with no listed override of base behind o in OVERRIDES and none of several parts in force, the value of base is the one set with the operations of base around it |
| ExpansionLaws.DeleteThenGet | sources/core/bitbake/lib/bb/data_smart.py:639-647 | after delVar there is no value, not even a conditional one |
| ExpansionLaws.AppendLandsLast | sources/core/bitbake/lib/bb/data_smart.py:743-754 | one more append adds its text at the very end, behind all prepends and appends, if its override is in force |
| ExpansionLaws.PrependLandsFirst | sources/core/bitbake/lib/bb/data_smart.py:756-768 | one more prepend adds its text at the very front |
| ExpansionLaws.RemovalsLeave | sources/core/bitbake/lib/bb/data_smart.py:788-804 | the words left by removals are exactly the words that no removal names, in order |
| ExpansionLaws.WordsOf | sources/core/bitbake/lib/bb/data_smart.py:791 | the words of a text are the pieces between runs of white space, in order, for every list of words and runs |
| ExpansionLaws.NothingToRemove | sources/core/bitbake/lib/bb/data_smart.py:793-804 | when no word of the value is named by a removal, the value stays as it is, white space included |
| ReferenceLaws.ReferencesReplaced | sources/core/bitbake/lib/bb/data_smart.py:391-420 | a text with any number of `${key}` references evaluates to the text with each value in the place of its reference, and with the reference itself where a key has no value, provided the result has no reference or no key had a value |
| ReferenceLaws.ReferenceReplaced | sources/core/bitbake/lib/bb/data_smart.py:398-401 | a variable with the text a, `${key}`, b evaluates to a, the value of key, b; and to its own text when key has no value |
| ReferenceLaws.SelfReferenceFails | sources/core/bitbake/lib/bb/data_smart.py:92-102 | a variable that refers to itself cannot be evaluated |
| ReferenceLaws.NoNameStays | sources/core/bitbake/lib/bb/data_smart.py:32 | braces around a text with a character that the pattern does not admit, or around nothing, are left alone |
| OperationLaws.AppendWritten | sources/core/bitbake/lib/bb/data_smart.py:490-517 | a write of t to n_append or n_append_o, when no keyword fits earlier in the name, adds the operation (t, o) behind the appends of n and leaves its flags, its other operations and all other variables alone |
| OperationLaws.PrependWritten | sources/core/bitbake/lib/bb/data_smart.py:490-517 | the same for n_prepend and n_prepend_o |
| OperationLaws.RemoveWritten | sources/core/bitbake/lib/bb/data_smart.py:490-517 | the same for n_remove and n_remove_o |
| OperationLaws.PlainName | sources/core/bitbake/lib/bb/data_smart.py:30-31 | a name is that of a plain variable if and only if at no place the rest is a keyword, alone or with `_` and a text without capitals behind it |
| OperationLaws.FirstKeyword | sources/core/bitbake/lib/bb/data_smart.py:30-31 | a keyword behind a plain name is the first that fits |
| OperationLaws.AppendThenGet | sources/core/bitbake/lib/bb/data_smart.py:743-754 | after the append getVar n is the old value followed by t, if there is no override or all its parts are in OVERRIDES, and the old value otherwise; for an old value and a result without references and no removals |
| OperationLaws.PrependThenGet | sources/core/bitbake/lib/bb/data_smart.py:756-768 | after the prepend it is t followed by the old value, likewise |
| OperationLaws.RemoveThenGet | sources/core/bitbake/lib/bb/data_smart.py:780-804 | after the removal its words are the old ones without those of t, in order, likewise |
| OperationLaws.SetAppendPrepend | sources/core/bitbake/lib/bb/data_smart.py:482-551 | from any state, setting n to v, appending a and prepending b makes getVar n b, v, a |
| OperationLaws.OperationsDropped | sources/core/bitbake/lib/bb/data_smart.py:816-831 | deleting the flag `_append`, `_prepend` or `_remove` takes the operations of that kind and nothing else |
| OperationLaws.FlagThenRead | sources/core/bitbake/lib/bb/data_smart.py:666-687 | a flag that was set reads as its value, and a deleted one has none |
| OperationLaws.FlagElsewhere | sources/core/bitbake/lib/bb/data_smart.py:666-687 | setting a flag leaves other flags, operations and variables alone |
| OverrideLaws.ForcedMeans | sources/core/bitbake/lib/bb/data_smart.py:708-714 | an override is in force if and only if it is a name in OVERRIDES or several of them joined by `_` |
| OverrideLaws.SettingDisplaces | sources/core/bitbake/lib/bb/data_smart.py:529-540 | setVar of n empties exactly the conditional variables of n that are in force, which have no value afterwards, and leaves every other variable as it was |
| OverrideLaws.ConditionalValue | sources/core/bitbake/lib/bb/data_smart.py:705-734 | after setVar of base_o for the last name o in OVERRIDES, getVar of base is that value |
| OverrideLaws.ConditionalIgnored | sources/core/bitbake/lib/bb/data_smart.py:567-583 | a setting of base_o for an o that is not in OVERRIDES, or does not start with a lower-case letter or digit, leaves the value of base alone |
| OverrideLaws.DeletionTakesOut | sources/core/bitbake/lib/bb/data_smart.py:648-657 | delVar of base_o takes it out of the list of base if and only if o has a lower-case letter and no capital |
| OverrideLaws.FallsBack | sources/core/bitbake/lib/bb/data_smart.py:736-738 | a selected variable without a value leaves the variable with its own content |
| OverrideLaws.DefaultThenGet | sources/core/bitbake/lib/bb/data_smart.py:736-740 | a default value is the value as long as there is no content |
| StoreObjects.Chain.FindVar | sources/core/bitbake/lib/bb/data_smart.py:459-468 | finds the dictionary of the nearest layer that has the variable |
| StoreObjects.Chain.MakeShadowCopy | sources/core/bitbake/lib/bb/data_smart.py:470-479 | the own layer gets a new dictionary that says what was visible and shares its lists; nothing visible changes, and no other dictionary is written |
| StoreObjects.Chain.AddOp | sources/core/bitbake/lib/bb/data_smart.py:497-499 | the operation is added to what is visible by storing a longer new list; the list that was there, perhaps shared, is not written |
| StoreObjects.Chain.ClearOps | sources/core/bitbake/lib/bb/data_smart.py:519-528 | the operations go from what is visible, and the flags stay, in a dictionary of the own layer |
| StoreObjects.OverrideIndex.FilePair | sources/core/bitbake/lib/bb/data_smart.py:572-577 | one pair is added unless it is there; only the index's own dictionary is written, never a list that was there before |
| StoreObjects.OverrideIndex.UnfilePair | sources/core/bitbake/lib/bb/data_smart.py:652-657 | one pair is taken out, with the same care |
| StoreObjects.OverrideIndex.Update | sources/core/bitbake/lib/bb/data_smart.py:567-583 | the loop files the name as the index function says |
| StoreObjects.OverrideIndex.Forget | sources/core/bitbake/lib/bb/data_smart.py:646-664 | what delVar takes out is what the index function says |
| DataSmartModel.DataSmart.SetVar | sources/core/bitbake/lib/bb/data_smart.py:482-551 | what setVar does, with and without `parsing`, is the flat write, and the cache is empty; of the objects that existed before only the store's own are written |
| DataSmartModel.DataSmart.DelVar | sources/core/bitbake/lib/bb/data_smart.py:639-664 | the same for delVar |
| DataSmartModel.DataSmart.SetVarFlag | sources/core/bitbake/lib/bb/data_smart.py:666-687 | the same for setVarFlag |
| DataSmartModel.DataSmart.DelVarFlag | sources/core/bitbake/lib/bb/data_smart.py:816-831 | the same for delVarFlag |
| DataSmartModel.DataSmart.Run | sources/core/bitbake/lib/bb/data_smart.py:482-687 | any run of writes through the layers is the run on the flat map, with the same frame |
| DataSmartModel.DataSmart.CreateCopy | sources/core/bitbake/lib/bb/data_smart.py:896-915 | the copy has a fresh own layer over the parent's layers, a fresh index dictionary with the parent's own lists, and sees what the parent sees |
| DataSmartModel.DataSmart.RunOnCopy | sources/core/bitbake/lib/bb/data_smart.py:896-915 | any run of writes on a copy changes nothing the parent reads, its cache included, although dictionaries and lists are shared |
| DataSmartModel.DataSmart.CopyAndRun | sources/core/bitbake/lib/bb/data_smart.py:896-915 | the same from the moment of copying; the copy is the flat run from where the parent stands |
| DataSmartModel.DataSmart.Keys | sources/core/bitbake/lib/bb/data_smart.py:938-973 | iteration yields each name once: the names with an override in force, and the other names of the flat map |
| StoreWrites.WalkLayer | sources/core/bitbake/lib/bb/data_smart.py:941-959 | what one layer lists and hides accounts for the flat map of the layers from there on |
| ExpandCache.ContentSharesKey | sources/core/bitbake/lib/bb/data_smart.py:690-699 | a read of a variable shares its cache key with some read of a flag if and only if its name is ambiguous |
| ExpandCache.ProperKeysDiffer | sources/core/bitbake/lib/bb/data_smart.py:690-699 | two different proper reads have different keys |
| ExpandCache.ImproperSharesKey | sources/core/bitbake/lib/bb/data_smart.py:690-699 | every read that is not proper shares its key with another read that is |
| DataSmartModel.DataSmart.GetVar | sources/core/bitbake/lib/bb/data_smart.py:585-586 | a read through the cache gives what evaluation without a cache gives, and has a result whenever that has one within the same depth, except that a cached entry under an ambiguous name is returned as it is |
| DataSmartModel.DataSmart.GetFlag | sources/core/bitbake/lib/bb/data_smart.py:689-699 | the same for the other flags |
| DataSmartModel.DataSmart.Evaluate | sources/core/bitbake/lib/bb/data_smart.py:701-814 | evaluation with nested cached reads agrees with the one without, for every name, and keeps every cache entry right unless the name is ambiguous |
| DataSmartModel.DataSmart.ReadFlagThenContent | sources/core/bitbake/lib/bb/data_smart.py:690-699 | once a flag has been read, the variable that shares its key reads as the flag, whatever its content |
| DataSmartModel.WrongAnswer | sources/core/bitbake/lib/bb/data_smart.py:690-699 | a run from a new store in which a variable is `1` and reads as `2` |
| DataSmartModel.DataSmart.ExpandWithRefs | sources/core/bitbake/lib/bb/data_smart.py:391-420 | the substitution loop, with cached values, gives the uncached expansion |
| DataSmartModel.DataSmart.SubstituteRefs | sources/core/bitbake/lib/bb/data_smart.py:92-102 | one substitution pass, with the self reference as an error |
| DataSmartModel.DataSmart.Surround | sources/core/bitbake/lib/bb/data_smart.py:743-768 | the two loops over the operations |
| DataSmartModel.DataSmart.RemoveWords | sources/core/bitbake/lib/bb/data_smart.py:793-804 | the loop over the tokens |
| DataSmartModel.DataSmart.Script | sources/core/bitbake/lib/bb/data_smart.py:689-814 | in any run of writes and proper reads, every read answers what evaluation without a cache gives on the flat map at that point |
| BaseHash.ClosureIsReachability | sources/core/bitbake/lib/bb/data.py:383-398 | the closure both worklists compute is what is reachable through names that are not whitelisted |
| BaseHash.GenerateDependencies | sources/core/bitbake/lib/bb/data.py:383-398 | the table holds exactly the tasks and what they reach, so it covers every lookup made later |
| BaseHash.GenerateDependencyHash | sources/core/bitbake/lib/bb/data.py:400-435 | each task's list is its sorted reachable set in the untouched graph, though whitelisted names are removed in place on the way, and its hash is that of its data |
| BaseHash.KeysDiffer | sources/core/bitbake/lib/bb/data.py:431-433 | two tasks of a file have different hash keys |
| BaseHash.ReachedValueCounts | sources/core/bitbake/lib/bb/data.py:411-432 | changing the value of the task or of one variable it reaches, the rest alike, changes the hashed text, and an unset variable counts as an empty one |
| SortedNames.AscendingUnique | sources/core/bitbake/lib/bb/data.py:425 | the sorted list is determined by the set alone |
| SortedNames.BelowMeans | sources/core/bitbake/lib/bb/data.py:425 | a name comes before another if it is where that one starts, or has the smaller character where the two first differ |
| TaskHash.SignatureGenerator.BuildData | sources/core/bitbake/lib/bb/siggen.py:184-207 | every task of the file is recorded with its dependencies and base hash |
| TaskHash.CalcBasehash | sources/core/bitbake/lib/bb/siggen.py:1002-1016 | hashes the same text as the parser did |
| TaskHash.SignatureGenerator.GetTaskhash | sources/core/bitbake/lib/bb/siggen.py:310-335 | the hash of base hash, dependency hashes, checksums and taint, in this order |
| TaskHash.SignatureGenerator.PrepTaskhash | sources/core/bitbake/lib/bb/siggen.py:259-308 | records the filtered dependencies; fails exactly when one has no hash yet |
| TaskHash.SignatureGenerator.PrepareTaskHash | sources/core/bitbake/lib/bb/runqueue.py:1192-1196 | called once for each task in dependency order, it keeps every recorded hash the hash of what is recorded |
| SignatureRun.HashAll | sources/core/bitbake/lib/bb/runqueue.py:1177-1184 | the passes over the tasks left end, reach every task of an acyclic run, and leave for each what was brought along and its hash |
| SignatureRun.OrderDoesNotMatter | sources/core/bitbake/lib/bb/runqueue.py:1178-1184 | with the same data recorded for every task, the hashes are the same, in whatever order the tasks were dealt with |
| SignatureRun.WholeRun | sources/core/bitbake/lib/bb/siggen.py:184-402 | every recipe parsed, every task hashed with the base hash from parsing, every dump recomputed: the base hash is the recorded one, and the task hash is for every taint both sides read alike |
| TaskHash.CalcTaskhash | sources/core/bitbake/lib/bb/siggen.py:1018-1034 | the hash of the text that the dumped data spells |
| TaskHash.SignatureGenerator.DumpSigtask | sources/core/bitbake/lib/bb/siggen.py:349-394 | what is dumped for a task |
| TaskHash.SignatureGenerator.DumpAndRecompute | sources/core/bitbake/lib/bb/siggen.py:396-402 | the recomputed base hash equals the recorded one, and the recomputed task hash is taken of the same text if and only if the taint is one both sides read alike |
| TaskHash.TaintRecomputed | sources/core/bitbake/lib/bb/siggen.py:1028-1032 | both computations read a taint as the same text if and only if it starts with `nostamp:`, or comes from a taint file that does not contain it |
| TaskHash.TaintMismatchExample | sources/core/bitbake/lib/bb/siggen.py:326-330 | a taint read in two ways |
| TasksBetween.BetweenBySuccessor | sources/core/bitbake/lib/bb/build.py:1013-1022 | lying on a chain, in terms of the successors |
| TasksBetween.FreshSuccessor | sources/core/bitbake/lib/bb/build.py:1008-1023 | in an acyclic graph the shared chain never repeats a task, so the recursion ends |
| TasksBetween.ChainWalk.FollowChain | sources/core/bitbake/lib/bb/build.py:1008-1023 | the walk restores the shared chain and adds exactly the chain's tasks and those between |
| TasksBetween.TasksBetweenTwo | sources/core/bitbake/lib/bb/build.py:1000-1025 | each task on some dependency chain from start to end, once, and no other; nothing at all when no task besides the end is listed |
| TasksBetween.TaskList.AddTask | sources/core/bitbake/lib/bb/build.py:937-959 | adds exactly the asked-for order to the dependency lists, without repetition |
| TasksBetween.PrefixOnce | sources/core/bitbake/lib/bb/build.py:938-939 | the prefix `do_` is put on a name that lacks it, once |
| Providers.SortPriorities | sources/core/bitbake/lib/bb/providers.py:63-88 | the nested dictionaries and loops compute the groups by priority |
| Providers.SortedByPriority | sources/core/bitbake/lib/bb/providers.py:63-88 | the groups hold every file as often as before, are never empty, have one priority each, descend strictly in priority, and ascend in preference inside |
| Providers.FindPreferredProvider | sources/core/bitbake/lib/bb/providers.py:135-143 | the first file of a matching version, group by group |
| Providers.FindLatestProvider | sources/core/bitbake/lib/bb/providers.py:173-190 | the loop computes the latest file |
| Providers.LatestIsFirstMaximum | sources/core/bitbake/lib/bb/providers.py:173-190 | no file has a higher preference or, with the same preference, a later version, and every earlier file has a lower preference or an earlier version |
| Providers.VersionMatchFits | sources/core/bitbake/lib/bb/providers.py:91-105 | a wanted version fits a file exactly when epoch and revision are absent or equal and the version is equal, or the wanted one ends in `%` and the version starts with the rest |
| Providers.FirstMatchMeaning | sources/core/bitbake/lib/bb/providers.py:135-143 | the first file of a fitting version, or none when no version fits |
| Providers.ChoiceLaw | sources/core/bitbake/lib/bb/providers.py:193-210 | what is chosen for a recipe name is a file of the wanted version, of the highest priority that has one and there of the lowest preference; without one, a file that none beats by priority, preference and version |
| Providers.FindBestProvider | sources/core/bitbake/lib/bb/providers.py:193-210 | the preferred file if there is one, else the latest of the highest priority |
| Providers.FilterCandidates | sources/core/bitbake/lib/bb/providers.py:213-267 | collation, the two loops over recipe names and the move to the front, or 0 when there is nothing |
| Providers.FilterProviders | sources/core/bitbake/lib/bb/providers.py:270-296 | its list, its flag, the recorded preference, and when it raises |
| Providers.FilteredLaw | sources/core/bitbake/lib/bb/providers.py:213-296 | the list is a permutation of one chosen file for each recipe name, without repetition, headed by the preferred recipe's, else by that of the recipe named like the item |
| Providers.OnePerNameMeaning | sources/core/bitbake/lib/bb/providers.py:242-256 | such a permutation holds for each name the chosen file and no other |
| Providers.OrderDoesNotMatter | sources/core/bitbake/lib/bb/providers.py:222-225 | candidates listed in any order lead to the same list |
| ChecksumDiff.PairRemoved | sources/core/bitbake/lib/bb/siggen.py:838-850 | surplus items are paired by name with added ones, first come first served, or removed |
| ChecksumDiff.FileChecksumsDiff | sources/core/bitbake/lib/bb/siggen.py:822-853 | its lists come from lists that explain the difference; no name is both added and removed |
| ChecksumDiff.Conserved | sources/core/bitbake/lib/bb/siggen.py:822-853 | taking removed items and old sides out of a and putting added items and new sides in gives b, as multisets |
| ChecksumDiff.NothingToReport | sources/core/bitbake/lib/bb/siggen.py:822-853 | nothing is reported if and only if both sides hold the same items |
| VirtualNames.RoundTrip | sources/core/bitbake/lib/bb/cache.py:236-263 | decoding undoes encoding if and only if the name is encodable: no `:` in the multiconfig name, none in the file name beside a class, and no file name that starts like a virtual one |
| VirtualNames.VirtualNamesDiffer | sources/core/bitbake/lib/bb/cache.py:255-263 | no two encodable names share a virtual name |
| VirtualNames.VariantAgrees | sources/core/bitbake/lib/bb/cache.py:265-276 | the variant `mc:M:C` agrees with the pair (C, M) if and only if M is not empty and C does not start with `:` |
| VirtualNames.VariantIsClass | sources/core/bitbake/lib/bb/cache.py:265-276 | any other variant is a class name |

## Left out

- MatrixInverse.Invert: floating-point rounding, pipelining directives, the stream interface and the loop over a batch of independent matrices are not modelled; the source has no check for a zero magnitude, which is where the model reports failure.
- TaskDataModel.TaskData.AddUnresolved: only `abort = False`; the exceptions of `abort = True` leave the recursion half done. Inter-task dependencies spread failures and become known targets, which end settled; but a live file may keep an inter-task dependency on a failed target, because the source does not look at them when it adds a file.
- TaskDataModel.TaskData.AddTasks: `parents`, multiconfig dependencies, `extradepsfunc` and malformed dependency strings are left out; task identifiers are pairs of file and task.
- TaskDataModel.TaskData.AddTaskEntries: `tdepends`, `mcdepends` and `parents` of an entry are left out, as nothing modelled here reads them.
- TaskDataModel.TaskData.AddRprovider: the outcome of run-time selection is given with the parsed data, without repetitions.
- TaskDataModel.TaskData.AddProviderInternal: the outcome of provider selection is given with the parsed data, without repetitions; events and messages are left out.
- DataSmartModel.DataSmart.SetVarFlag: the `__exportlist` set that `export` and `unexport` change in place is left out (the shadow copy is shallow, so isolation does not hold for it), and so is storing another value under `_append`, `_prepend` or `_remove`.
- DataSmartModel.DataSmart.SetVar: writes to variables that OVERRIDES depends on, and the variable history, are left out; a trailing newline in a name is not treated like its end.
- DataSmartModel.DataSmart.CreateCopy: the overrides that the copy resolves on its first use are a parameter; the computation of OVERRIDES itself is left out.
- DataSmartModel.DataSmart.GetVar: a store whose override index lists a variable with an ambiguous name is not read, since selecting that variable would store its value under the key of a flag; `${@...}` is left as text; Python's recursion limit is the depth given, and exceeding it is the outcome `Unfinished`; reading after a write to an ancestor's layer is not covered, since only a store's own writes empty its cache; the sets of removals are lists without repetition.
- DataSmartModel.DataSmart.RemoveWords: white space is the six ASCII characters; the further characters that Python counts as white space are left out.
- DataSmartModel.DataSmart.Keys: the order in which names are yielded is left open.
- OverrideChoice.SelectsLastOverride: among several overrides in force of which some have a `_`, which one the loop prefers is not stated; that one is selected at all is SelectsWhenInForce.
- BaseHash.GenerateDependencies: `build_dependencies` (parsing of shell and Python code) is a given finite graph.
- TaskHash.SignatureGenerator.GetTaskhash: equivalence servers are left out, so the reported hash of a dependency is its task hash.
- TaskHash.SignatureGenerator.PrepTaskhash: sorting the dependencies by `clean_basepath` and the test for multiconfig data caches are left to the caller, who passes the sorted list and the filter.
- SignatureRun.WholeRun: emptying the parse-time tables after parsing (`postparsing_clean_cache`) is left out; a run in which dependencies form a cycle does not end and is excluded.
- TasksBetween.TasksBetweenTwo: the filter that lists the tasks is not modelled; its list is given.
- Providers.FindPreferredProvider: taking PREFERRED_VERSION apart with a regular expression, and the messages, are left out.
- Run-time provider selection (`filterProvidersRunTime`, `getRuntimeProviders`): its outcome is given to `TaskData`; the selection repeats the patterns of `filterProviders`.
- `renameVar`, `setVarFlags`, `delVarFlags`, `expandVarref`, COW dictionaries: not part of this model.
- Server, user interface, event, stamp, fetcher and report code: not part of this model.
