# Verified models of the deployment SDK

The deployment SDK is mostly calls to clouds. Between the calls sit a few small algorithms that have to be
right on every input and in every interleaving. This project models them in Dafny and proves what they promise.
`dafny verify dfyconfig.toml` checks everything.

| Area | Modules | What is proved |
|---|---|---|
| Interpolating environment variables | `Visiting`, `ReferencePattern`, `Templates`, `References`, `Interpolation`, `InterpolationCycles`, `InterpolationOrder`, `InterpolationCap`, `StandardEnv`, `StandardReferences`, `DeployedValues` | A variable that reaches no cycle gets its full recursive expansion in every visiting order of the maps, whatever the other variables hold; the pass cap is enough unless a chain has 2^98 variables. If no variable it reaches refers to itself, all results agree on it exactly if it reaches no cycle. What a deploy writes is also stated by the names and values themselves. |
| OpenTelemetry attributes | `Ordering`, `Otel`, `OtelPositions`, `OtelParses`, `OtelRoundTrip`, `OtelReparse`, `OtelIdempotence`, `CharacterClasses` | For every text: when it parses, to which keys and values, and with which error it fails otherwise, by positions in the text. Printing then parsing gives back exactly the maps described by a checkable condition. Updating sets two attributes and keeps the others. Updating twice is updating once exactly under a condition on the parsed map, the version and the commit. |
| Image references and pod templates | `ImageRef`, `PodTemplate`, `PodTemplateLaws` | Round trips both ways, exactly when the last tag wins, and the update of an environment list as an update of a map. |
| Kubernetes log streamers | `StopOnce`, `Totals`, `PodStream`, `PodProgram`, `PodRegistry`, `PodNames`, `LogLines`, `ContainerLog`, `ContainerRun`, `ContainerView`, `FlushEnds` | Any interleaving of adds, removes, waits, stops and stream ends keeps one running streamer per pod name, closes no channel twice and flushes each container once. Streamers that are stopped finish. Inside a container, the flush and its reader write the lines of both streams in order, and exactly when a flush leaves lines behind is known. Which pods have a streamer, why a flush returned and what each goroutine can do next follow from what happened before. The goroutines of a container refine the container that its pod sees. |
| Deployment watchers | `DeployWatch`, `DeployVerdicts`, `DeployProgram`, `PollingWatch` | The three-channel protocol never deadlocks or panics, and returns last. The verdict is that of the first answer that decides, and the log holds exactly the recent tracked events. A polling watch is decided by its first decisive step and polls a bounded number of times. |
| Incremental log readers | `LogEvents`, `EcsEvents`, `EcsMessages` | Each event once and in order, and exactly which events a run emits or misses. |
| Metric queries and endpoint changes | `MetricExpressions`, `MetricQueries`, `MetricOrder`, `Endpoints`, `EndpointLaws` | Renaming metric ids keeps the meaning of an expression in every order. There is one query for each metric asked for, of that metric, statistics first. Each endpoint diff is exact, and replaying all of them gives the last state. |

## How to read the models

- A Go map is iterated in an arbitrary order. The methods pick any key not yet visited, and the functions that
  specify them take the order as an argument (`orders`, `order`). A statement for all orders is one about every run.
- The goroutines of the streamers and of the deployment watcher are transition systems: a state holds every program
  counter, a label is one atomic step of one goroutine, and a statement about every `labels` with `IsRun` is one about
  every interleaving. What the cluster answers is part of the label. The invariants (`Inv`) are not assumed anywhere:
  they are proved of the initial state and of every step.
- What clouds, clocks and timers answer is input: `script` in `PollingWatch`, `polls` and `responses` in the log
  readers, `labels` in the transition systems.
- Laws about a run come in two kinds. Some speak of the states it reaches. Those of `PodNames`, `PodProgram`,
  `DeployVerdicts`, `DeployProgram` and `FlushEnds` tell the outcome from the labels alone, without the step function.
- Code that updates variables in loops is a method with loop invariants, proved equal to a specification function, and
  the laws are lemmas about that function.

## Where the code and its documentation differ

The models follow the code.

- `splitPairs` (otel/resource_attributes.go:100) calls a comma escaped when the byte before it is a backslash, even if
  that backslash is itself escaped. A value that ends in a backslash therefore swallows the next entry, unless it is
  printed last. `OtelRoundTrip.RoundTrip` has the exact condition, `OtelRoundTrip.BackslashLost` an input.
- An image that carries both a tag and a digest keeps its old tag inside the repository name when it is parsed
  (docker/image_url.go:83-89), so retagging it goes wrong. `ImageRef.ColonKept` and `ImageRef.LastTagWins` say exactly when,
  `ImageRef.TagAndDigest` is an input.
- The diff of two endpoint states looks a new address up in the old state (k8s/service_watcher.go:179), so
  `AddedToNotReady` is always empty. `Endpoints.AddedNotReadyIsMissed` says when that matters,
  `Endpoints.FirstAddressReportedReady` shows it, and `Endpoints.LookingInNewState` says that looking in the new state
  would be right.
- The expression rewriting uses up the separator after a match (aws/cloudwatch/metrics/mappings.go:127-130), so of two
  equal ids with one character between them the second stays (`MetricExpressions.SecondStays`).
  `MetricExpressions.RewriteRenames` has the exact result.
- The comment on `ResolveUser` says that cyclic references are left as literals. They are, but which literals depends on
  the visiting order, also for variables that only reach a cycle. `InterpolationOrder.OrderMatters` says exactly when,
  `InterpolationOrder.TwoResults` is an input.
- Updating the attributes a second time is not always without effect: the text `a=x\\` is changed again
  (`OtelIdempotence.FailingInput`). `OtelIdempotence.UpdateIdempotent` has the exact condition.
- The first refresh of the ECS logger that finds the deployment sets the starting point to the newest event it lists.
  What is not newer is never printed (`EcsEvents.RunPrintsOnlyLater`), in particular what happened between the start of
  the deployment and that refresh. Later, an event is printed only if it is strictly newer than everything seen before
  (`EcsEvents.RunPrints`), so of two events of one second the one listed later is lost (`EcsEvents.SameTimeSkipped`).
- A flush that goes idle or out of time returns while its reader still runs (k8s/logs/container_streamer.go:153-185). The
  deferred close ends the reader's stream, and then it writes what it had fetched, also after `writer.Close()`.
  `ContainerRun.LateLineWritten` is such a run, `ContainerRun.LateLines` says exactly when lines are left.
- `Stream` of a workload waits for the streamers that were counted by then. It can return before the first pod is seen
  (k8s/logs/workload_streamer.go:127, 160-162), and the streamers added afterwards are waited for by nobody
  (`PodRegistry.WaitSeesAllFinished`, `WaitReturnsEarly`).
- A log event that is stored late, older than the last event emitted by then, is never emitted
  (aws/cloudwatch/write_latest_events.go:31-33). `LogEvents.EmitsExactlyTheWindow` has the exact condition,
  `LogEvents.OlderEventMissed` an input.
- `UpdateStandard` is documented to return an updated map; it changes the one it is given.

## Model

| member | source | states |
|---|---|---|
| ReferencePattern.MatchIsPattern | env-vars/user.go:12 | The matcher succeeds with length n at the start of a text exactly if the first n characters are braces, blanks, the name, blanks, braces; so a match is unique although blanks can also be part of the name. |
| ReferencePattern.OneEnd | env-vars/user.go:12 | Two ways to read the pattern at one place end at the same character. |
| Templates.RefHead | env-vars/user.go:52-57 | A spelled reference is matched as a whole by the pattern of its own trimmed name, and not at all by that of any other name. |
| Templates.ReplaceRendered | env-vars/user.go:57 | On values that read as text and references, the regular-expression replacement on characters is substitution of references, whatever the inserted value. |
| Templates.FlattenSubst | env-vars/user.go:51-62 | Replacing a name by a value with the same full expansion leaves the full expansion of every value as it was. |
| Interpolation.SubstituteRef | env-vars/user.go:51-63 | For every iteration order of the user map one reference name is replaced in every other value, the lookup map stays the standard variables overlaid by the user's, the captured value is never stale, and `changed` says exactly whether anything changed. |
| Interpolation.RunPass | env-vars/user.go:50-64 | One pass visits each known name once in some order, and reports no change exactly if writing any known value into any other is without effect. |
| Interpolation.ResolveUser | env-vars/user.go:26-68 | For every input, cyclic or not, the result is what 100 passes in some orders give, although the loop stops early; the names are the user's. |
| Interpolation.ResolvesWithin | env-vars/user.go:46-65 | For variables that reach no cycle, n + 2 passes in any orders give each its full recursive expansion if no chain of theirs has 2^n variables, whatever the values of the other variables; unknown references stay literal. |
| Interpolation.ResolveUserExpands | env-vars/user.go:14-68 | The cap of 100 passes suffices for every variable that reaches no cycle and no chain of 2^98 variables, in every visiting order and whatever the others hold, so its value does not depend on the order. |
| StandardReferences.VersionInterpolated | env-vars/standard.go:8-13 | In every result of `ResolveUser`, a user value that is text around `{{ NULLSTONE_VERSION }}` is that text around the version, if that name is not overridden and the version refers to no variable. |
| StandardReferences.CommitInterpolated | env-vars/standard.go:8-13 | The same of `NULLSTONE_COMMIT_SHA` and the commit. |
| StandardReferences.PlainRefersToNone | env-vars/user.go:12 | A version or commit without an opening double brace refers to no variable. |
| StandardReferences.VersionExample | env-vars/user.go:26-68 | The one variable `V` with the value `{{NULLSTONE_VERSION}}` resolves to the version `1.2`. |
| CharacterClasses.OneBlank | env-vars/user.go:12 | A character before the name of a reference is passed over exactly if it is a space, tab, newline, carriage return or form feed; with any other the value stays as it is. |
| Interpolation.SweepPart | env-vars/user.go:50-64 | A pass over the whole environment rewrites a part that refers to nothing outside itself as if it were alone. |
| Interpolation.SettledForGood | env-vars/user.go:49-65 | After a pass that changes nothing, any further passes in any orders change nothing. |
| InterpolationCap.CapCounts | env-vars/user.go:46-65 | There are exactly 100 passes while a value still changes: with `A` as `{{B}}` and `B` as `{{B}}x`, every result has 100 letters after `{{B}}` in `A`. |
| References.StepReaches | env-vars/user.go:46-65 | What refers to a name that reaches a cycle reaches it too, so the names that reach none refer to each other only. |
| References.RankExists | env-vars/user.go:46-65 | Names without a cycle among them, self-references included, have a rank below their number that every reference lowers. |
| InterpolationOrder.CalmExpands | env-vars/user.go:14-68 | With at most 2^98 variables, every result gives each variable that reaches no cycle its full recursive expansion. |
| InterpolationCycles.CyclesDependOnOrder | env-vars/user.go:46-65 | A user variable that reaches, through any chain of user variables, one on a cycle, which does not refer to itself and to which no standard value refers, ends differently under two visiting orders, for any number of passes. |
| InterpolationCycles.ResolutionsDiffer | env-vars/user.go:26-68 | So interpolation may return two results that differ in that variable. |
| InterpolationOrder.RestlessDiffers | env-vars/user.go:26-68 | A variable that reaches one on a cycle, which does not refer to itself, has different results, if the standard values refer to no known name. |
| InterpolationOrder.OrderMatters | env-vars/user.go:26-68 | All results agree on a variable if and only if it reaches no cycle, if no variable it reaches refers to itself, the standard values refer to no known name, and there are at most 2^98 variables. |
| InterpolationOrder.TwoResults | env-vars/user.go:46-65 | With z = {{a}}, a = {{b}} and b = {{a}}, z and a each have different results, whatever the version and the commit. |
| StandardEnv.Variables.UpdateStandard | env-vars/standard.go:19-27 | Exactly the standard variables that exist are overwritten, in any visiting order. |
| StandardEnv.Variables.ReplaceOtelResourceAttributes | env-vars/standard.go:29-37 | Only the OpenTelemetry variable is rewritten, and the flag says whether it exists. |
| StandardEnv.DeployedSets | aws/lambda-zip/deployer.go:72-76 | A deploy adds no variable, sets the standard ones, keeps all others but the OpenTelemetry one, and the two updates commute. |
| StandardEnv.DeployedTwice | aws/lambda-zip/deployer.go:72-76 | Deploying again is without effect exactly if the environment has no attribute text that parses, or the condition of `OtelIdempotence.UpdateIdempotent` holds of the parsed map. |
| DeployedValues.MapAfterDeploy | env-vars/standard.go:15-37 | After a deploy an environment map has the same names; an existing `NULLSTONE_VERSION` is the version, an existing `NULLSTONE_COMMIT_SHA` the commit, an existing `OTEL_RESOURCE_ATTRIBUTES` its own update, and no other value changes. |
| Ordering.SortAscends | otel/resource_attributes.go:65 | Sorting distinct strings gives them in strictly ascending byte order. |
| Ordering.SortOfListing | otel/resource_attributes.go:57-65 | Sorting the keys gives the same list whatever order the map was visited in. |
| Otel.EscapeOtel | otel/resource_attributes.go:82-92 | The loop builds the escaped text. |
| Otel.UnescapeOtel | otel/resource_attributes.go:142-157 | The loop with its flag builds the unescaped text. |
| Otel.SplitPairs | otel/resource_attributes.go:95-116 | The loop cuts at the commas that do not follow a backslash, and drops an empty last part. |
| Otel.SplitPair | otel/resource_attributes.go:119-140 | The loop finds the first unescaped equals sign, or none. |
| Otel.ParseResourceAttributes | otel/resource_attributes.go:13-43 | Parsing, with the two errors and the blank inputs. |
| Otel.PrintAttributes | otel/resource_attributes.go:52-79 | The text is the same for every order in which the map is visited. |
| OtelParses.TrimCuts | otel/resource_attributes.go:22-33 | Trimming cuts off all spaces at both ends and nothing else. |
| OtelParses.UnescapeEach | otel/resource_attributes.go:142-157 | Unescaping keeps every character, in order, but a backslash that is not itself escaped. |
| OtelParses.StretchesAre | otel/resource_attributes.go:95-116 | The stretches between neighbouring commas that do not follow a backslash, listed from left to right, and no others. |
| OtelParses.PartsAreStretches | otel/resource_attributes.go:95-116 | The text is cut into exactly these stretches, an empty one at the end dropped. |
| OtelParses.ParseFails | otel/resource_attributes.go:13-43 | For every text, parsing fails if and only if some stretch that is not blank has no unescaped equals sign or a blank key. |
| OtelParses.ParseError | otel/resource_attributes.go:27-37 | The first such stretch gives the error: an invalid entry, with its trimmed text, if it has no unescaped equals sign, and an empty key otherwise. |
| OtelParses.ParseKeys | otel/resource_attributes.go:21-39 | Otherwise the keys are exactly the trimmed, unescaped texts before the first unescaped equals sign of the stretches. |
| OtelParses.ParseValue | otel/resource_attributes.go:21-39 | And the value of a key is the trimmed, unescaped text after that sign in the last stretch with the key. |
| OtelParses.FailingTextStays | otel/update_resource_attributes.go:3-8 | The update of a text that fails so is the text itself. |
| OtelParses.NoEqualsExample | otel/resource_attributes.go:27-30 | The text `a=x,b` fails with the invalid entry `b`. |
| CharacterClasses.OneSpace | otel/resource_attributes.go:22-33 | A character before a key is dropped exactly if it is Unicode white space. |
| CharacterClasses.OneEscaped | otel/resource_attributes.go:82-92 | A character is printed with a backslash before it exactly if it is a backslash, a comma or an equals sign. |
| OtelParses.BlankKeysDropped | otel/resource_attributes.go:52-64 | Keys that are empty or all spaces are not printed. |
| OtelRoundTrip.UnescapeEscape | otel/resource_attributes.go:82-157 | Unescaping undoes escaping for every text. |
| OtelRoundTrip.ParsedIsClean | otel/resource_attributes.go:13-43 | Every parsed map has trimmed, non-empty keys and trimmed values. |
| OtelRoundTrip.CutsLost | otel/resource_attributes.go:99-108 | If a value other than the last printed one ends in a backslash, the text falls into fewer parts than entries. |
| OtelRoundTrip.RoundTrip | otel/resource_attributes.go:13-157 | For every map, parsing the printed text gives the map back if and only if keys are trimmed and non-empty, values are trimmed, and only the value of the greatest key may end in a backslash. |
| OtelRoundTrip.BackslashLost | otel/resource_attributes.go:99-108 | Such a map that is not given back. |
| OtelRoundTrip.UpdateResourceAttributes | otel/update_resource_attributes.go:3-18 | Parse, update and print; text that does not parse is returned as it is. |
| OtelRoundTrip.UpdatedSets | otel/update_resource_attributes.go:10-16 | Version and commit are the new ones, unless a kept `$(...)`; no other attribute changes and none is lost. |
| OtelRoundTrip.UpdateReads | otel/update_resource_attributes.go:3-18 | The output parses to the updated map if and only if what was written is trimmed and no value but the last ends in a backslash. |
| OtelReparse.Reparsed | otel/resource_attributes.go:13-79 | Every printed map with trimmed, non-empty keys parses again, whatever its values, to the map described by the next two rows. |
| OtelReparse.RereadKey | otel/resource_attributes.go:95-116 | A key is read back unless the value before it ends in a backslash and takes its entry in; no other key is. |
| OtelReparse.RereadValue | otel/resource_attributes.go:95-157 | Its value is the trimmed text up to the next cut, unescaped, with the entries it took in. |
| OtelReparse.PrintInjective | otel/resource_attributes.go:46-79 | Different maps with trimmed, non-empty keys are printed differently. |
| OtelIdempotence.UpdateIdempotent | otel/update_resource_attributes.go:3-18 | For every text, version and commit, updating again changes nothing if and only if the text does not parse, or no value but the last printed ends in a backslash and no untrimmed value written would be taken for a kept `$(...)`, or the commit takes in just the version's entry, which is written again, and is not taken for a `$(...)` then. |
| OtelIdempotence.FailingInput | otel/update_resource_attributes.go:3-18 | Updating the text `a=x\\` twice is not updating it once, for every version and commit. |
| ImageRef.ParseImageUrl | docker/image_url.go:61-92 | The assignments compute the parsed reference. |
| ImageRef.RegistryOrUser | docker/image_url.go:70-81 | Of two segments the first is the registry exactly if it holds a dot or a colon or is `localhost`, and the user otherwise. |
| ImageRef.PrintParse | docker/image_url.go:44-92 | Printing what was parsed gives the text back if and only if no leading segment, tag or digest piece is empty. |
| ImageRef.ParsePrint | docker/image_url.go:44-92 | Parsing what was printed gives the reference back if and only if it is well formed; one with a tag and a digest is not. |
| ImageRef.ColonKept | docker/image_url.go:83-89 | The parsed repository keeps a colon exactly if the name has a tag before a digest. |
| ImageRef.RetagReads | k8s/set_container_image_tag.go:8-13 | For every image and tag, the retagged text parses to the same registry, user and repository with the new tag and no digest, if and only if the name did not carry both a tag and a digest, the tag has no at sign, and the segments before the name are read as they were; which holds if none is empty and the tag is plain. |
| ImageRef.LastTagWins | k8s/set_container_image_tag.go:8-13 | For every image and all tags, retagging twice is retagging with the second tag, if and only if of the image without tag and digest no leading segment is empty and the name holds no colon or at sign, and the first tag holds no at sign, and a slash only if two segments lead the name. |
| ImageRef.TagKept | k8s/set_container_image_tag.go:8-13 | That is exactly when such a text with a tag added is read as ending in the tag. |
| ImageRef.TagAndDigest | k8s/set_container_image_tag.go:8-13 | Retagging `r:1@d` twice is not retagging it once. |
| ImageRef.FilledTagWins | k8s/set_container_image_tag.go:8-13 | For an image with no empty leading segment: if and only if its name did not carry both a tag and a digest, and the first tag holds no at sign, and a slash only behind a registry and a user. |
| PodTemplate.Container.SetImageTag | k8s/set_container_image_tag.go:8-13 | Only the image changes, to the retagged one. |
| PodTemplate.Container.ReplaceEnvVars | k8s/replace_env_vars.go:8-14 | Every literal entry with a standard name gets the standard value; entries with a `ValueFrom` stay. |
| PodTemplate.Container.UpsertEnvVar | k8s/replace_env_vars.go:30-38 | The first entry of the name becomes a literal, or one is appended. |
| PodTemplate.Container.ApplyUserEnvVars | k8s/replace_env_vars.go:19-28 | Each user variable is written once, in any order. |
| PodTemplate.Container.ReplaceOtelResourceAttributes | k8s/replace_env_vars.go:40-55 | The first entry of the name is rewritten if it is a literal. |
| PodTemplate.UpdatePodTemplate | k8s/deployer.go:166-187 | The whole update including the interpolation of the user's variables: label, image and environment of the main container, the missing container, and the panic on missing labels; the other containers stay. |
| DeployedValues.TemplateAfterDeploy | k8s/deployer.go:166-186 | The outcome for every template: a panic exactly without labels, an error exactly if there are labels but no container of the name. The version label is the version and every other label stays. All containers but the first of the name stay; that one keeps its name, is retagged, and its variables are updated. |
| DeployedValues.EnvAfterDeploy | k8s/replace_env_vars.go:8-55 | For every name, its entry in the container afterwards: the user's value if the user gives one; else the version or the commit for a literal of the two standard names, and the entry as before for any other. The OpenTelemetry entry is its own update. |
| PodTemplateLaws.UpdatedLookup | k8s/deployer.go:176-184 | Looking a name up in the updated list gives the user's value, else the standard one for an existing literal, else the old entry, with the OpenTelemetry entry rewritten on top. |
| PodTemplateLaws.UpdatedNames | k8s/deployer.go:176-184 | Names stay unique, existing entries keep their place, and nothing is appended if the user's names were all there. |
| PodTemplateLaws.UpdateTwice | k8s/deployer.go:176-184 | With unique names, updating the environment a second time changes nothing, even if the user's variables are visited in another order, if and only if the user gives the OpenTelemetry variable, or it is no literal that parses, or the condition of `OtelIdempotence.UpdateIdempotent` holds of the parsed map. |
| PodTemplateLaws.UpdateSpecTwice | k8s/deployer.go:174-184 | The same for the whole container, for every image and version, if and only if also the condition of `ImageRef.LastTagWins` holds. |
| MetricExpressions.ReplaceExpressionWithGeneratedIds | aws/cloudwatch/metrics/mappings.go:124-134 | The result is that of replacing each id once, in some order. |
| MetricExpressions.ReplaceIdRenames | aws/cloudwatch/metrics/mappings.go:127-130 | Replacing one id on characters renames whole words, each one unless its separator was used up by a match before it. |
| MetricExpressions.RewriteRenames | aws/cloudwatch/metrics/mappings.go:124-134 | For every order of the ids the result is the same, and it renames every whole-word id if and only if no id stands twice with a single character between. |
| MetricExpressions.SecondStays | aws/cloudwatch/metrics/mappings.go:127-130 | Of an id, one separator and the id again, only the first is renamed. |
| MetricExpressions.EmptyIdFillsGaps | aws/cloudwatch/metrics/mappings.go:127-130 | The empty id is replaced exactly where an odd number of separators, the start of the text being one more, comes before and a separator or the end after. |
| CharacterClasses.WordEnds | aws/cloudwatch/metrics/mappings.go:127 | A character after an id ends it exactly if it is no letter, digit or underscore. |
| MetricExpressions.RewriteKeepsMeaning | aws/cloudwatch/metrics/mappings.go:111-134 | Then the rewritten expression over the generated ids is the expression over the original ids, whatever evaluates it. |
| MetricQueries.GenInjective | aws/cloudwatch/metrics/mappings.go:107-109 | Generated ids are different for different groups or metrics, for every id text. |
| MetricQueries.GoodIdMap | aws/cloudwatch/metrics/mappings.go:75-80 | The condition of the rewriting on a group's ids holds if and only if they are words and none is the generated id of another. |
| MetricQueries.FindByMetricId | aws/cloudwatch/metrics/mappings.go:96-105 | The search returns a metric with this generated id, and fails exactly if there is none. |
| MetricQueries.OneMetric | aws/cloudwatch/metrics/mappings.go:96-109 | At most one metric has a generated id, so the search inverts generation for every map order. |
| MetricQueries.UpdateQueryExpressions | aws/cloudwatch/metrics/mappings.go:114-122 | Expressions are rewritten, stat queries stay. |
| MetricQueries.BuildMetricQueries | aws/cloudwatch/metrics/mappings.go:66-94 | One query for each metric of each requested group and no other, with distinct ids, stat queries before expressions, each part ascending. |
| MetricQueries.ResultUnique | aws/cloudwatch/metrics/mappings.go:66-94 | Two results of the same input are equal, so the order in which maps are visited does not matter. |
| MetricOrder.DigitsAre | aws/cloudwatch/metrics/mappings.go:107-109 | The number in a generated id is decimal, without a leading zero. |
| MetricOrder.GeneratedExample | aws/cloudwatch/metrics/mappings.go:107-109 | The metric `cpu` of the group at 12 gets `group_12_cpu`. |
| MetricOrder.StatsFirst | aws/cloudwatch/metrics/mappings.go:86-93 | Queries of statistics come before expressions, and both kinds ascend by id. |
| MetricOrder.QueriedIfAskedFor | aws/cloudwatch/metrics/mappings.go:68-85 | There is a query under the generated id of a metric if and only if its group was asked for, or no group was. |
| MetricOrder.QueryIsOfMetric | aws/cloudwatch/metrics/mappings.go:32-85 | That query has the account of the metric, and its statistic and the period, or its expression rewritten to the generated ids of the same group. |
| Endpoints.EndpointsStateFromSubsets | k8s/service_watcher.go:117-131 | The loops collect the addresses by key. |
| Endpoints.ReadyKeys | k8s/service_watcher.go:117-131 | A key is ready exactly if some subset lists an address with it as ready, and not ready exactly if some subset lists one so. |
| Endpoints.ComputeDiff | k8s/service_watcher.go:157-202 | The five loops compute the five parts, as written. |
| Endpoints.DiffExact | k8s/service_watcher.go:157-202 | The old keys without the removed ones and with both added parts, which are disjoint and new, are the current keys. |
| Endpoints.SurvivorsSplit | k8s/service_watcher.go:187-199 | A surviving key is promoted, demoted or unchanged, and exactly one of these. |
| Endpoints.AddedNotReadyIsMissed | k8s/service_watcher.go:176-185 | `AddedToNotReady` is always empty, and a reader of the diff knows the readiness of every address if and only if no new address is not ready. |
| Endpoints.FirstAddressReportedReady | k8s/service_watcher.go:117-185 | A first address that is not ready is reported as ready. |
| Endpoints.LookingInNewState | k8s/service_watcher.go:176-185 | With the new state looked into instead, the reader always knows it. |
| Endpoints.Stream | k8s/service_watcher.go:60-76 | The loop emits the diffs of successive states until a deletion or an error. |
| Endpoints.StreamReplays | k8s/service_watcher.go:60-76 | Replaying all emitted diffs from nothing gives the keys of the last state, for every stream of events. |
| EndpointLaws.OneKey | k8s/service_watcher.go:204-214 | Two addresses have one key exactly if IP, node and target agree, a missing name counting as empty. |
| EndpointLaws.StateValue | k8s/service_watcher.go:117-131 | Of several addresses of a key the last one listed, in the last subset that lists it, is in the state. |
| EndpointLaws.DiffByKey | k8s/service_watcher.go:157-202 | For each key, in which parts of the difference it is and with which of the two addresses. |
| EndpointLaws.StatesInOrder | k8s/service_watcher.go:64-76 | Changes are seen in order up to the first deletion or error, other objects are skipped. |
| EndpointLaws.EachDiff | k8s/service_watcher.go:73-75 | Every difference is that of a state to the one before it. |
| LogEvents.Writer.WriteLatest | aws/cloudwatch/write_latest_events.go:30-54 | One poll with its pages, its resume time and its failure. |
| LogEvents.RunNeverTwice | aws/cloudwatch/write_latest_events.go:40-47 | No event id is emitted twice over any run, whatever the service answers. |
| LogEvents.EmitsTheTimely | aws/cloudwatch/write_latest_events.go:27-54 | After every successful poll of a run the emitted events are, in time order, the stored ones of the window without those that were stored late, failed polls before it or not. |
| LogEvents.EmitsExactlyTheWindow | aws/cloudwatch/write_latest_events.go:27-54 | So they are the whole window if and only if each of its events was, when it was stored, not older than the last event emitted by then; events outside the window do not matter. |
| LogEvents.LateEventMissed | aws/cloudwatch/write_latest_events.go:31-33 | A late event of the window is not emitted at any time of the run. |
| LogEvents.OlderEventMissed | aws/cloudwatch/write_latest_events.go:31-47 | Any event stored between two polls that is older than the one the first poll emitted is such an event. |
| EcsEvents.DeployLogger.Refresh | aws/ecs/deploy_logger.go:111-143 | One refresh with its early returns. |
| EcsEvents.DeployLogger.InitLastSeenEvent | aws/ecs/deploy_logger.go:212-226 | The starting point is the newest listed time, and is set once. |
| EcsEvents.DeployLogger.LogNewEvents | aws/ecs/deploy_logger.go:287-320 | The events newer than the last seen one are printed in order of time, each shown as the next two rows say. |
| EcsMessages.DeploymentMessage | aws/ecs/deploy_logger.go:308-315 | A message that names the deployment is shown under it, with the first naming shortened to one word; the first place where that word is then followed by itself loses the second, in particular right at the start, and otherwise nothing else changes. |
| EcsMessages.ServiceMessage | aws/ecs/deploy_logger.go:308-317 | A message of the service that does not name the deployment is shown under the service, with a short prefix. |
| EcsMessages.PrefixedMessages | aws/ecs/deploy_logger.go:308-317 | The prefixes by their text: `(service s) (deployment d) deployment` at the start becomes `Deployment`, and `(service s)` becomes `Service` if the deployment is not named. |
| EcsEvents.SortSorts | aws/ecs/deploy_logger.go:304-306 | The sort orders by time and keeps every event. |
| EcsEvents.SortKeepsTies | aws/ecs/deploy_logger.go:304-306 | The sort is stable. |
| EcsEvents.SeedingPrintsNothing | aws/ecs/deploy_logger.go:212-226 | In the refresh that sets the starting point no listed event is newer than it. |
| EcsEvents.RefreshPrintsAll | aws/ecs/deploy_logger.go:287-320 | A refresh that gets to print skips no listed event that is newer than everything seen before. |
| EcsEvents.RunInOrder | aws/ecs/deploy_logger.go:287-320 | Over a whole run printed times never decrease, what was printed stays, and everything printed after a refresh is strictly newer than all that refresh had seen, in particular than the starting point. |
| EcsEvents.RunPrintsOnce | aws/ecs/deploy_logger.go:287-320 | Over a whole run each service event is printed at most once. |
| EcsEvents.RunPrints | aws/ecs/deploy_logger.go:111-320 | A run prints an event if and only if some refresh that gets to print lists it as newer than everything seen before. |
| EcsEvents.RunPrintsOnlyLater | aws/ecs/deploy_logger.go:212-226 | Everything a run prints is strictly newer than its starting point. |
| EcsEvents.PrintedIfLaterAtFirst | aws/ecs/deploy_logger.go:287-303 | An event newer than the starting point is printed if and only if, when it is first listed, it is newer than everything listed before. |
| EcsEvents.RunSkipsNone | aws/ecs/deploy_logger.go:287-303 | A run prints everything newer than the starting point if and only if that holds of every event. |
| EcsEvents.SameTimeSkipped | aws/ecs/deploy_logger.go:291 | Two events of one second, the second listed a refresh later: the second is skipped. |
| PollingWatch.PollingDeployWatcher.Watch | app/polling_deploy_watcher.go:55-111 | The watch ends as the first decisive step says, the getter is closed exactly once when it returns and not before, and the number of polls is bounded. |
| PollingWatch.DecidedByFirst | app/polling_deploy_watcher.go:72-110 | Success, failure, cancellation and timeout are each characterised by the first decisive step alone; earlier errors and undecided answers do not matter. |
| PollingWatch.OneOutcome | app/polling_deploy_watcher.go:72-110 | The contract of the watch leaves one outcome and one number of polls for each script. |
| PollingWatch.HasOutcome | app/polling_deploy_watcher.go:64-110 | Every script has an outcome: the watch ends at the first decisive step, or goes on if there is none. |
| PollingWatch.AtMostPolls | app/polling_deploy_watcher.go:64-109 | Under an ideal clock there are at most timeout / delay + 1 polls, however long each takes. |
| PollingWatch.AtMostDefaultPolls | app/polling_deploy_watcher.go:12-15 | With the default delay and timeout there are at most 181. |
| PollingWatch.UnboundedIfNegative | app/polling_deploy_watcher.go:64-70 | A negative delay allows any number of polls. |
| DeployWatch.ChannelsAreSafe | k8s/deploy_watcher.go:75-187 | In every interleaving nothing is sent on a closed channel, none is closed twice, `started` carries at most one value and is closed before `ended`, the send always finds its receiver, and no event older than the start is logged. |
| DeployWatch.ReturnsLast | k8s/deploy_watcher.go:75-82 | `Watch` returns only after `streamEvents` has, with each channel closed exactly once and existing events listed exactly once. |
| DeployWatch.NeverStuck | k8s/deploy_watcher.go:113-240 | In every reachable state that is not final some goroutine can step. |
| DeployWatch.EndsAfterDecision | k8s/deploy_watcher.go:80-82 | Once decided, the verdict is the one returned, and at most eight more steps are taken besides events that happen to be read. |
| DeployVerdicts.DecidedByFirst | k8s/deploy_watcher.go:128-186 | In every run the verdict is that of the first label that decides: success exactly for a check that said complete; a failure exactly for a check that failed, or a fetch that failed otherwise, with that reason; deleted for a fetch that found nothing; timed out and cancelled for the end of the context with and without a deadline; invalidated for a newer generation than the one watched, if that is not 0. |
| DeployVerdicts.LogsExactly | k8s/deploy_watcher.go:206-272 | The log is, in order, the events listed or received that are kept, counted from the start that was sent or the beginning of the watch. |
| DeployVerdicts.KeptEach | k8s/deploy_watcher.go:257-272 | An event is kept if and only if it is tracked and not older than that. |
| DeployProgram.MonitorRounds | k8s/deploy_watcher.go:128-186 | The monitor polls first and after each sleep, sends the first deployment it finds before it checks, checks after every answer that did not decide, and sleeps exactly if the rollout is in progress. |
| DeployProgram.MonitorCloses | k8s/deploy_watcher.go:80-115 | Once decided it closes `started`, then `ended`, and returns when `flushed` is closed. |
| DeployProgram.StreamerSteps | k8s/deploy_watcher.go:203-240 | The event stream receives the start or sees `started` closed, lists, watches only if it received the start, reads until it sees `ended` closed, and closes `flushed` last. |
| StopOnce.ClosedOnce | k8s/logs/pod_streamer.go:70-80 | For any number of concurrent callers of `Stop` the channel is made once, never closed twice, closed when any call returns, and some call can always go on. |
| StopOnce.CallsReturn | k8s/logs/pod_streamer.go:70-80 | The calls that have arrived return within a bounded number of steps in any order. |
| PodStream.StepKeepsPod | k8s/logs/pod_streamer.go:28-64 | Every step of the stream, the fan-out and the containers keeps the invariant that ties program counters, stop channels, flush counts and the WaitGroup. |
| PodStream.FinishedPodFlushed | k8s/logs/pod_streamer.go:54-63 | When a pod's stream has returned, all its containers have, and each whose follow stream opened was stopped and flushed exactly once. |
| PodStream.StoppedPodCanStep | k8s/logs/pod_streamer.go:46-63 | A stopped pod is never stuck, and its fan-out can always go on. |
| PodStream.FannedOutPodEnds | k8s/logs/pod_streamer.go:46-63 | After the fan-out every step of the pod brings its end nearer. |
| PodProgram.PodFollowsProgram | k8s/logs/pod_streamer.go:28-64 | In every run the goroutine of a pod takes the steps of its program in order: it starts the fan-out, launches each container, waits, stops itself. It can always take the next one, but the wait ends exactly when all containers have. |
| PodProgram.FanFollowsProgram | k8s/logs/pod_streamer.go:46-52 | The fan-out goes on exactly once the pod is stopped, by another or by itself, and stops each container in turn. |
| PodRegistry.StepKeepsInv | k8s/logs/workload_streamer.go:160-197 | Every step of every goroutine keeps the registry's invariant. |
| PodRegistry.OneStreamerPerName | k8s/logs/workload_streamer.go:164-197 | In every interleaving each streamer is in the map under its name or stopped, so at most one of a name runs; no stop channel is closed twice. |
| PodNames.ListedIfAddedLast | k8s/logs/workload_streamer.go:164-197 | In every run a name is in the map if and only if the last insert or delete completed for it is an insert. |
| PodNames.AddStarts | k8s/logs/workload_streamer.go:169-185 | An `Add` that holds the mutex creates a new, running streamer under the name if the name was never inserted or deleted since, and does nothing otherwise. |
| PodNames.RemoveStops | k8s/logs/workload_streamer.go:188-196 | A `Remove` that holds the mutex finds a streamer exactly if the name was inserted last, and stops that one and no other. |
| PodNames.DeletedIsStopped | k8s/logs/workload_streamer.go:193-196 | Every streamer taken out of the map is stopped, and only it is taken out. |
| PodNames.AddedAgain | k8s/logs/workload_streamer.go:164-197 | A pod added, removed and added again gets a second streamer. |
| PodRegistry.CounterIsConserved | k8s/logs/workload_streamer.go:181-185 | The WaitGroup's counter is streamers spawned less streamers finished, and never negative. |
| PodRegistry.WaitSeesAllFinished | k8s/logs/workload_streamer.go:160-162 | `Wait` can return if and only if every streamer that was counted has finished, and then each opened container of theirs was flushed exactly once. |
| PodRegistry.WaitReturnsEarly | k8s/logs/workload_streamer.go:127-197 | It can return before the first pod is added, and the streamer added then runs on. |
| PodRegistry.NeverStuck | k8s/logs/workload_streamer.go:164-197 | The holder of the mutex and every stopped streamer can always go on. |
| PodRegistry.StoppedPodEnds | k8s/logs/pod_streamer.go:46-63 | In any run only a fixed number of steps of a pod are left once its fan-out is done, whatever the others do. |
| LogLines.LinesSpell | k8s/logs/container_streamer.go:188-198 | Lines contain no newline and spell out exactly the bytes read, including an unterminated tail. |
| LogLines.LinesOfTerminated | k8s/logs/container_streamer.go:188-198 | The converse: lines and a tail without newlines are what is read back from their text. |
| ContainerLog.ContainerStreamer.Stop | k8s/logs/container_streamer.go:95-105 | The stop channel is closed afterwards, once. |
| ContainerLog.ContainerStreamer.WriteLine | k8s/logs/container_streamer.go:188-198 | The next line is written, without its newline; nothing is written for an empty tail. |
| ContainerLog.ContainerStreamer.Follow | k8s/logs/container_streamer.go:75-92 | The read loop writes the lines read before it sees the stop, calls the flush once from the one or the other place, and the streamer is stopped afterwards. |
| ContainerLog.ContainerStreamer.Stream | k8s/logs/container_streamer.go:44-93 | What the streamer does itself, in order, for every time of a stop and both failures before; the streamer is stopped when a stream that opened returns. |
| ContainerLog.FollowedSpells | k8s/logs/container_streamer.go:75-92 | The followed lines spell a prefix of the bytes delivered, and all of them if no stop came first. |
| ContainerLog.StreamBrackets | k8s/logs/container_streamer.go:60-92 | Without a getter nothing is opened. Else the writer is opened first and closed last; a stream that opened writes exactly its first lines, as many as come before the stop, and then calls the flush once. |
| ContainerRun.StepKeepsInv | k8s/logs/container_streamer.go:75-186 | Every step of the streamer, the flush's reader, the closing goroutine, the timers and other callers of `Stop` keeps the invariant. |
| ContainerRun.FlushesOnce | k8s/logs/container_streamer.go:75-105 | In every interleaving the flush is called exactly once by the time the stream returns, from whichever place; `stopCh`, `doneCh` and the writer are closed at most once, and `doneCh` exactly when the reader has ended. |
| ContainerRun.NothingFollowedAfter | k8s/logs/container_streamer.go:75-92 | Once the flush began, nothing more of the follow stream is written. |
| ContainerRun.FollowedInOrder | k8s/logs/container_streamer.go:75-92 | What is written of the follow stream are its first lines, and all of them if its end was seen. |
| ContainerRun.FlushedInOrder | k8s/logs/container_streamer.go:127-186 | The flush writes the lines of what its reader fetched, in order; the reader never blocks on `lineCh`; a flush that returned through `doneCh` has written all lines of its stream, unless its time was up. |
| ContainerRun.ReaderEnds | k8s/logs/container_streamer.go:141-164 | Once the flush stream is closed nothing more is fetched, and the reader ends within a bounded number of steps, having written exactly the lines of what it fetched. |
| ContainerRun.LateLines | k8s/logs/container_streamer.go:153-186 | After the flush returned no line of its stream is written in any continuation, if and only if its reader has nothing fetched that is not written. |
| ContainerRun.ReturnedClosed | k8s/logs/container_streamer.go:132-145 | A flush that opened its stream has closed it when it has returned. |
| ContainerRun.NeverStuck | k8s/logs/container_streamer.go:75-186 | The streamer can always go on; while its flush waits, the time of its context still has to run out. |
| ContainerRun.LateLineWritten | k8s/logs/container_streamer.go:132-186 | A run in which a line is written after the writer was closed. |
| ContainerView.OpenedIsStart | k8s/logs/container_streamer.go:68-75 | The container a pod sees is, when its follow stream opens, at the start of a run of the container's goroutines, stopped before or not. |
| ContainerView.FailedOnlyLeaves | k8s/logs/container_streamer.go:55-72 | One whose streamer or stream cannot be had leaves without a flush. |
| ContainerView.StepSeen | k8s/logs/container_streamer.go:75-186 | Every step of the container's goroutines is a step of the pod's container, a stop, or not seen by the pod. |
| ContainerView.RunSeen | k8s/logs/container_streamer.go:75-186 | So every run of the goroutines is a run of the pod's container. |
| ContainerView.ViewCanStep | k8s/logs/container_streamer.go:75-92 | What the pod's container can do next is what the goroutines do next; whether it reads a line or its end depends on the text left. |
| FlushEnds.WhyItReturned | k8s/logs/container_streamer.go:127-185 | Why a flush returned is its last deciding step: the reader's end, the idle timer, the context, or that it was switched off or did not open. A line never decides. The context is cancelled when it has returned. |
| FlushEnds.GoesOnWaiting | k8s/logs/container_streamer.go:167-186 | After a line the flush resets its timer and waits again, until one of the other three cases is taken. |
| FlushEnds.WhatItTakes | k8s/logs/container_streamer.go:167-186 | What a waiting flush can take: the end of the reader once that ended, a line signalled since the last one taken, the idle timer if it fired since it was last set, the context once its time is up. |
| FlushEnds.ReaderGoesOn | k8s/logs/container_streamer.go:154-164 | What the reader does next: it takes a line that is in its buffer, else waits for more text while the stream is open and has some, and fails otherwise; one of them is always possible. |
| FlushEnds.CloserGoesOn | k8s/logs/container_streamer.go:141-144 | The goroutine that closes the flush stream goes on exactly once the time is up or the flush has returned. |
| FlushEnds.SelectSeesStop | k8s/logs/container_streamer.go:75-83 | A select sees the stop exactly if a stop came before it. |

## Left out

- All calls to Kubernetes, AWS, GCP, Azure, Docker and HTTP: their answers are inputs of the models.
- Text is a sequence of characters, not of bytes: invalid UTF-8, which Go's loops over runes replace, is not modelled, and Go's byte-wise order of strings is taken to be that of the characters.
- Interpolation.ResolveUserExpands: the expanded variables have values that read as references and text (text without an opening double brace, reference bodies without braces), and no name has braces or blanks at its ends; other variables may have any values, and `ResolveUser`, `SubstituteRef` and `SettledForGood` assume nothing. `StandardReferences.VersionInterpolated` asks the same of the names. `InterpolationOrder.OrderMatters` speaks of the same environments.
- InterpolationOrder.OrderMatters: with `CalmAgrees` and `RestlessDiffers`, one case is not decided: a variable that reaches cycles, but only through variables on them that all refer to themselves as well. Standard values that refer to known names are only covered by `InterpolationCycles.CyclesDependOnOrder`.
- MetricExpressions.ReplaceExpressionWithGeneratedIds: a `$` in an id, which Go would expand in the replacement, is copied.
- MetricExpressions.RewriteRenames: is about ids that are words and not generated ids of one another, which a caller can check; the result for other ids is only known for each order.
- MetricQueries.BuildMetricQueries: the order of a query's dimension list and `HideFromResults` are not modelled.
- PodTemplate.UpdatePodTemplate: works on values, so it does not capture that Go shares the container slice with the template it was given; kinds of `ValueFrom` are one text.
- ContainerLog.ContainerStreamer.Stream: the retries while a container is being created, the debug log and splitting a timestamp off a line are not modelled.
- ContainerRun.FlushedInOrder: that a closed stream delivers nothing more and that a closed reader's `Read` returns is the transport's part; a value a timer sent while it was being reset cannot be received later, as since Go 1.23.
- PodStream.FannedOutPodEnds: a read that blocks on the network is one step here; that it returns is the network's part.
- PodRegistry.OneStreamerPerName: the watch loop that turns pod events into adds and removes is not modelled; any goroutine may add or remove any pod at any time, which covers it.
- DeployWatch.NeverStuck: reading the deployment reference before the goroutines start, the service watcher started beside them, and the wording of events are not modelled.
- LogEvents.EmitsExactlyTheWindow: is about runs in which stored events stay stored under unique ids and every answer lists the events of the window it was asked for in ascending time order, perhaps cut short by an error; an event without an id, on which the code panics, is not modelled.
- EcsEvents.RunPrintsOnce: the deployment is found by the first refresh, as without it the code dereferences nil; creation times are naturals with 0 as Go's zero time, an id stands for the identity of a service event, and the other messages of the logger are not modelled.
- PollingWatch.PollingDeployWatcher.Watch: the run is a finite script; a provider that never answers is not modelled.
- The near copies of the environment and retag code for ECS, Batch, Cloud Run, Cloud Functions and Container Apps.
- Rollout status tables, failure classification, job phases and traffic targets: ordered branches that one reading settles.
- `outputs/` and `contract/`: reflection and JSON.
- Storage and Composer pushers, credentials, terminal colour and the textual forms of times.
