# Aspect loading in Go! AOP, modelled in Dafny

This project models how the Go! AOP framework turns aspects into pointcuts and
advisors, and the logic of its advisor debug command.

The aspect loader keeps loader extensions in buckets, one per reflection target
(class, method, property). To load an aspect, it offers the aspect's class to
the class extensions, then each method to the method extensions, then each
property to the property extensions. A reflection-kind extension is asked about
the point itself. An annotation-kind extension is asked about each annotation
of the point, in order. An extension's `load` runs only when its `supports`
said yes, and any other kind is rejected. Everything produced is merged with
PHP's `+=`, so the first entry for an id wins.

The incremental reload works out which container resources (files) are not
loaded yet and returns at once if there are none. Otherwise it loads only the
tagged aspects defined in those files. It then registers each pointcut and
advisor under its id and records the container's resources as loaded. A
failing load leaves the container and the loaded-resource list untouched.

The debug command filters the application's files. A file passes if it is a
PHP file, lies under an include path (when any are given) and lies under no
exclude path; the cache directory is always excluded. The command looks an
advisor up and, on a miss, loads the aspect named by the id's text before
`->`, then looks it up once more.

Files:

- `aop.dfy`: the values. Pointcuts, advisors, loaded items, errors, annotations, aspects and reflection points.
- `merging.dfy`: the first-wins merge `+=`. `MergeAll` folds it over a sequence of producers and stops at the first failure. The lemmas prove what first-wins means.
- `extension.dfy`: the loader-extension record: targets, kind, `supports`, `load`.
- `container.dfy`: the aspect container. It holds aspects, pointcuts, advisors and resources; lookups fail on a miss.
- `aspect_loader.dfy`: functions stating what each loading step computes. The class `AspectLoader` carries the loader's state, and its methods are proved to compute those functions.
- `loader_properties.dfy`: lemmas about loading: first wins, the supports gate, error cases, stage order, and what the reload reads.
- `advisor_debug.dfy`: the file filter, the split of an advisor id, and `LoadAdvisor`.

The loader keeps both resource lists as arrays and compares them with
`array_diff`. Nothing keeps the loaded list a subset of the container's list
once resources change. The model keeps both as sequences and proves only that
nothing is left to load after a successful reload.

## Model

| member | source | states |
|---|---|---|
| `Merging.FirstWins` | src/Core/AspectLoader.php:90 | `$items += $more`: the result holds every id of both maps; an id already accumulated keeps its entry, and only ids new to the accumulator take the new entry |
| `Merging.MergeAllExtends` | src/Core/AspectLoader.php:86-107 | no entry already accumulated is ever overwritten by a later producer |
| `Merging.MergeAllPrefixWins` | src/Core/AspectLoader.php:157-185 | whatever the first k producers merged survives entry for entry in the final result |
| `Merging.MergeAllOrigin` | src/Core/AspectLoader.php:157-185 | every id that was not already accumulated carries the entry of the first producer that yielded it, and no earlier producer yielded it |
| `Merging.MergeAllCollects` | src/Core/AspectLoader.php:86-107 | on success, every id any producer yielded is in the result |
| `Merging.MergeAllOkIff` | src/Core/AspectLoader.php:159-183 | the fold succeeds if and only if every producer succeeds, so an exception anywhere aborts the whole loop |
| `Merging.MergeAllFirstError` | src/Core/AspectLoader.php:159-183 | the fold fails with error e if and only if some producer fails with e and all producers before it succeeded |
| `Merging.MergeAllNothing` | src/Core/AspectLoader.php:170-177 | producers that all yield nothing leave the accumulator as it was |
| `Merging.FirstWinsAssociative` | src/Core/AspectLoader.php:172-176 | merging each annotation's items straight into the accumulator equals merging them first and then merging the result in |
| `Container.AspectContainer.RegisterPointcut` | src/Core/AspectLoader.php:134 | the pointcut is stored under its id, overwriting; nothing else in the container changes |
| `Container.AspectContainer.RegisterAdvisor` | src/Core/AspectLoader.php:137 | afterwards getAdvisor finds this advisor under its id, every other id looks up as before, and nothing else in the container changes |
| `AspectLoading.ResourcesToLoad` | src/Core/AspectLoader.php:117-118 | array_diff: a resource is to be loaded if and only if it is a container resource and not a loaded one |
| `AspectLoading.SnapshotLeavesNothingToLoad` | src/Core/AspectLoader.php:141 | once the loaded list equals the container's resources, nothing is left to load, so the next reload returns at once |
| `AspectLoading.OnlyAddedResourcesToLoad` | src/Core/AspectLoader.php:117-122 | after resources are appended to the loaded ones, exactly the appended ones not loaded before are to be loaded |
| `AspectLoading.LoadedPrefixVanishes` | src/Core/AspectLoader.php:117-118 | a run of already-loaded resources at the front contributes nothing to the list to load |
| `AspectLoading.ResourcesToLoadConcat` | src/Core/AspectLoader.php:118 | array_diff works element by element: the resources to load from a concatenation are those of each part, concatenated |
| `AspectLoading.LoadedResourcesVanish` | src/Core/AspectLoader.php:117-118 | already-loaded resources contribute nothing to the list to load, wherever they stand among the container's resources |
| `AspectLoading.FreshResourcesAllLoad` | src/Core/AspectLoader.php:117-118 | resources none of which was loaded are all to be loaded, in their order |
| `AspectLoading.RoutingPartitionsItems` | src/Core/AspectLoader.php:132-139 | routing partitions the loaded items: no id is registered both as a pointcut and as an advisor, an id is registered exactly when its item is a pointcut or an advisor, and only loaded ids are registered |
| `AspectLoading.AspectLoader.constructor` | src/Core/AspectLoader.php:56-60 | a new loader holds the given container, no extensions and no loaded resources |
| `AspectLoading.AspectLoader.RegisterLoaderExtension` | src/Core/AspectLoader.php:69-75 | each target's bucket grows at its end by one copy of the extension per occurrence of that target in getTarget; every other bucket is unchanged; no bucket disappears |
| `AspectLoading.AspectLoader.Load` | src/Core/AspectLoader.php:84-108 | computes LoadSpec: class stage, then one loadFrom per method, then one per property, merged first-wins; a stage with no extensions is skipped; the first failure is returned |
| `AspectLoading.AspectLoader.LoadPoints` | src/Core/AspectLoader.php:93-105 | the method or property stage: loadFrom for each reflected point in order, merged first-wins into what earlier stages produced, stopping at the first failure; equals the fold that LoadSpec uses for that stage |
| `AspectLoading.AspectLoader.LoadFrom` | src/Core/AspectLoader.php:155-186 | computes LoadFromSpec: per extension in order, a reflection extension's load when supports holds for the point, an annotation extension's load for each supported annotation, UnsupportedLoaderKind for any other kind, merged first-wins |
| `AspectLoading.AspectLoader.LoadAdvisorsAndPointcuts` | src/Core/AspectLoader.php:115-142 | nothing new to load: no change at all; a failing load: that error and no change; otherwise every pointcut and advisor loaded from the aspects in new files is registered by id and the loaded list becomes the container's resources; after success nothing is left to load |
| `AspectLoading.AspectLoader.RegisterItems` | src/Core/AspectLoader.php:132-139 | the pointcut index gains exactly the pointcut items and the advisor index exactly the advisor items; aspects, tags and resources are unchanged |
| `AspectLoading.AspectLoader.LoadAndRegister` | src/Console/Command/AdvisorDebugCommand.php:166 | loads one aspect; on failure nothing changes, on success its pointcuts and advisors are registered |
| `LoaderProperties.LoadFromFirstWins` | src/Core/AspectLoader.php:159-177 | what the first k extensions produced for a point survives unchanged in loadFrom's result |
| `LoaderProperties.LoadedItemsAreSupported` | src/Core/AspectLoader.php:164-177 | every item loadFrom returns came from a load call whose extension's supports had said yes for that point, and for an annotation extension for that annotation of the point |
| `LoaderProperties.UnsupportedExtensionIsInert` | src/Core/AspectLoader.php:164-177 | an extension whose supports always says no contributes nothing, whatever its load would do |
| `LoaderProperties.LoadFromRejectsUnknownKind` | src/Core/AspectLoader.php:179-180 | an extension of any other kind makes loadFrom fail with UnsupportedLoaderKind, unless an earlier extension already failed |
| `LoaderProperties.LoadFromRejectsForeignPoint` | src/Core/AspectLoader.php:170-171 | an annotation extension on a point that is not a class, method or property makes loadFrom fail with the UnsupportedPoint that getAnnotations throws, unless an earlier extension failed |
| `LoaderProperties.LoadStageOrder` | src/Core/AspectLoader.php:89-105 | the class stage's items survive the method stage, and those of both survive the property stage: the class wins over methods, methods over properties |
| `LoaderProperties.ReloadReadsOnlyNewFiles` | src/Core/AspectLoader.php:125-131 | every item the reload collects comes from loading an aspect whose file is to be loaded, namely the first such aspect whose load yields that id; every failure is the failure of such a load |
| `AdvisorDebug.GetFileFilter` | src/Console/Command/AdvisorDebugCommand.php:106-111 | include paths are kept; exclude paths are the given ones plus the cache directory, so a file under the cache directory is never accepted |
| `AdvisorDebug.Filter` | src/Console/Command/AdvisorDebugCommand.php:112-137 | accepts if and only if the extension is exactly `php`, and there are no include paths or the real path starts with one, and it starts with no exclude path |
| `AdvisorDebug.AspectIdOf` | src/Console/Command/AdvisorDebugCommand.php:164 | the aspect id is a prefix of the advisor id that contains no `->`, and is either the whole id or followed by `->` |
| `AdvisorDebug.AspectIdOfAdvisorId` | src/Console/Command/AdvisorDebugCommand.php:164 | splitting `<aspect>-><member>` gives back the aspect, for any member name, when the aspect id contains no `->` |
| `AdvisorDebug.LoadAdvisor` | src/Console/Command/AdvisorDebugCommand.php:159-171 | a known advisor is returned without loading anything; otherwise an unknown aspect fails with NotFound, a failing load fails with its error, and a successful load registers the aspect's items before one retry, whose miss fails with NotFound; in every case the container's aspects, tagged aspects and resources are unchanged |

## Left out

- Reflection and the annotation reader are outside the model. An aspect arrives already reflected: its id, file name, class annotations, and its methods and properties, each with its annotations in reader order.
- Loader extensions are modelled as pure total functions. Their own side effects are left out, and so is an exception thrown by `supports`, `getTarget` or `getKind`. A failing `load` is an `Err` result.
- An item that implements both the `Pointcut` and the `Advisor` interface is not modelled. Items form a sum type, so each item is routed to one index at most, where the code would register such an item twice.
- The insertion order of loaded items is not modelled. PHP arrays are ordered, and `+=` appends new ids in the order they were produced; loaded items are maps here. So the order of `load`'s result is lost, and so is the order of the `registerPointcut`/`registerAdvisor` calls; `RegisterItems` routes the ids in an arbitrary order. The model states only which pointcuts and advisors end up registered under which ids. It does not capture registration order, which can decide the order of stacked advice.
- `AspectLoader::loadAndRegister` is called by the debug command but is not among the source files. `LoadAndRegister` assumes it loads the aspect and registers its pointcuts and advisors as the reload does.
- The container's internals are not modelled: tags other than `aspect`, aspect registration, and how resources get added. The model reads only its maps, its tagged-aspect list and its resource list.
- Paths in the file filter are taken as already resolved by `realpath`. The case where `realpath` returns false is not modelled. A path prefix is a textual prefix, as with `strpos(...) === 0`, so `/app/src` also covers `/app/srcgen`. The model follows PHP 8 for an empty prefix: it matches every path. Before PHP 8, `strpos` with an empty needle returns false with a warning, so an empty prefix matched nothing.
- `in_array` compares loosely, and the model compares file names as exact strings. The two differ only for numeric strings, which file paths are not.
- Console I/O is left out: `configure`, `execute`, the directory walk, source parsing and the advice output in `showAdvisorInformation` and `writeInfoAboutAdvices`, and the whole aspect debug command.
- The advice matcher (`getAdvicesForClass`) is not part of this model.
