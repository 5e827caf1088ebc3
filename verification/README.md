# A verified model of HAMi-DRA

This project models the parts of HAMi-DRA that keep state or rewrite objects, and proves what they keep:

- the monitor's device-usage cache (`usage_model`, `usage_places`, `usage_theorems`, `usage_examples`,
  `usage_cache`) and the per-pod sums read from it (`pod_usage`);
- the admission webhooks that turn resource limits into ResourceClaims and take them away again
  (`device_config`, `claim_names`, `annotation_values`, `selectors`, `capacities`, `object_store`, `claim_conversion`,
  `conversion_order`, `pod_conversion`, `pod_names`, `pod_webhook`, `volcano_conversion`, `job_names`,
  `volcano_webhook`);
- the layered device configuration of the fake driver (`fake_driver`).

`options` and `string_order` hold the shared result types and the order of Go's `sort.Strings`.

Code that changes things step by step is a class with methods and loops (`UsageCache.NodeDevices`,
`UsageCache.Cache`, `ObjectStore.ApiServer`, `PodWebhook.Container`, `PodWebhook.Pod`, the admission handlers). Each
such method is proved against a function of the old state, and the theorems are about these functions.

## The device-usage cache

The state is the node lists, the counters of every device and the claim table. Each informer callback is one
step. Under the informer contract (an add comes first; an update's old object and a deleted object are the last
delivered ones) and with nonnegative quantities, every run keeps the claim table equal to the allocations of the
delivered claims and every counter at or above the claims charged to it, so the two clamps to zero never act.

The comment on `setSliceDevices` says that usage is recomputed from the cached claims. The code keeps the counters
of the devices of the node's other slices and adds all claims on top of them. `RefinementTheorem` gives the exact
condition on the delivered objects: at every moment of a run the cache equals usage computed from scratch if and only
if, at every rebuild, the delivered claims use none of the kept devices, and no slice update takes the node name away
(`onUpdateSlice` ignores such an update, and the devices stay listed). So every run with one slice per node at a time
and no such update is exact (`OneSliceExact`), and two of them that deliver the same objects agree
(`OneSliceSameCache`). With the kept counters set to zero first, any number of slices is exact (`ResetExact`).
`UsageExamples` holds a run of three events on which the code shows too much: a second slice without any device is
enough.

## The webhooks

The API server is a table from kind, namespace and name to objects. `Create` fails on a taken name and may fail for
any other reason unless the server is called reliable. `Handle` creates and lists exactly the claims that the
original limits ask for, or leaves the table as it found it, whatever fails; on a reliable server it refuses a pod
only if a limit cannot be converted or a name is taken. `AdmittedAsks` says what these claims are, from the limits,
annotations and published devices alone: which devices they accept, and how many, with which cores and memory. Deleting the pod afterwards restores the table, with an
exact condition on what the user lists in the pod. Applying the original manifest again is undone by the update
path, again with an exact condition.

A Volcano task is translated as a pod named after its job and itself would be, without annotations, in a cluster
that publishes no devices, by configs without a percentage name. `JobTurn` proves that this is what the Volcano
code does, `JobConfigsApart` that such configs are as distinct as the resolved ones, and `TaskAtOnce` states the
result on conversion for a container of a Volcano task.

Places where the code does not do what one would expect of it, each with a concrete input:

- a type annotation made of parentheses only normalises to the empty string and matches every product
  name (`IntendedIff`, `ParenthesesMatchEverything`);
- a generated name is not recognised as its owner's when it is cut right behind an owner prefix that ends in two
  dashes (`OwnershipIff`, `OwnershipExample`); this cannot happen for the names that Kubernetes accepts, which do
  not end in a dash (`OwnershipComplete`);
- the core conversion wraps when percentage times reference exceeds an int64, and only then fails to be the
  rounded-up share of a percentage that is not negative (`CoreUnitsIff`, `CoreUnitsWrapExample`); above 100 percent
  it exceeds the reference (`CoreUnitsWithinReference`);
- resolution accepts claim suffixes of which one is a tail of another, such as "b" and "a-b"; the containers "c"
  and "c-a" of one pod can then need one name, and the pod is refused (`TailChipsCollide`). Resolved configs keep the
  claims of all pods apart, as far as hashes of cut names do, if and only if no suffix is a tail of another
  (`SuffixesApartIff`), as with the built-in chips (`BuiltinSuffixesApart`);
- a template's name joins the names of job, Volcano task and container with dashes, so Volcano task "a-b" with
  container "c" and Volcano task "a" with container "b-c" need one name for one device, and the job is refused
  (`ClashingJobRefused`); `JobCollisionFreeIff` says for which jobs this does not happen;
- two configs with an empty memory name, which resolution accepts, both read a limit with the empty name, and the
  first of them gets it (`EmptyNameExample`, `TailChipsOrder`). For resolved configs the claims are those of the
  original limits if and only if that limit is read in one place at most (`AtOnceIff`), and they do not depend on the
  order of the configs if and only if one requested config at most reads it (`OrderIff`);
- a core reference derived from a fractional capacity is rounded up, and then a request for all of a device asks for
  more than it has (`FractionalExample`, `DerivedReferenceFits`).

## Assumptions

- Callbacks and admission requests are atomic. In the code the claim snapshot is taken before the node
  lock (pkg/cache/nodedevices.go:170-172) and usage is raised before the claim is stored
  (pkg/cache/nodedevices.go:277, 292-294).
- Deletes succeed, and one admission request sees one listing of the ResourceSlices, which may fail as a whole.
- Quantities are the integers of `Value()`. Counters are unbounded; int64 is modelled in the unit conversions.
- SHA-256 is a function to strings of eight hexadecimal digits, random name segments are an input, label-selector
  matching and quantity parsing in the fake driver are functions given from outside.
- Lower-casing and white space cover ASCII (and the two Latin-1 spaces).
- The limit of eight subrequests is FirstAvailableDeviceRequestMaxSize of the resource.k8s.io API.
- Logical operators on selectors absorb errors as the "Logical Operators" section of the CEL language definition
  says; a selector on an attribute that is not a string is an error only where the string is lower-cased.

## Model

| member | source | states |
|---|---|---|
| StringOrder.SortedAscending | pkg/cache/nodedevices.go:199-203 | the sorted list of distinct names is strictly ascending |
| UsageModel.ClaimKeyInjective | pkg/cache/nodedevices.go:253 | two claims share a table key only if namespace and name agree, namespaces having no slash |
| UsageModel.NodeIff | pkg/cache/nodedevices.go:401-415 | a claim's node is the first value of the first metadata.name In-field over all terms, and there is none otherwise |
| UsageModel.AllocationMeaning | pkg/cache/nodedevices.go:247-296 | a claim is counted exactly with an allocation, results and a node; then it holds one entry for each result with consumed capacity and a device, in their order, with the result's device, its "memory" and its "cores", or "computeUnits" if there are none, and zero for what is missing |
| UsageModel.ParsedMeaning | pkg/cache/nodedevices.go:90-143 | a device keeps its name, driver and string attributes; its core total is "cores" on a scale of 100, or else "computeUnits" on a scale of themselves; what is missing is zero or empty |
| UsagePlaces.TargetIff | pkg/cache/nodedevices.go:199-222 | usage is charged to a device exactly if it has the name and precedes every other device of that name, slices in name order |
| UsageCache.NodeDevices.Find | pkg/cache/nodedevices.go:358-366 | the scan stops at the record of the first device of that name, or finds none |
| UsageCache.NodeDevices.IncreaseNodeUsage | pkg/cache/nodedevices.go:345-367 | one counter grows by the usage, all else stays |
| UsageCache.NodeDevices.DecreaseNodeUsage | pkg/cache/nodedevices.go:369-399 | one counter shrinks by the usage, clamped at zero, all else stays |
| UsageCache.NodeDevices.AddClaim | pkg/cache/nodedevices.go:247-296 | the whole new state: counters raised result by result, the allocation stored, which AllocationMeaning describes; nothing without allocation, results or node |
| UsageCache.NodeDevices.DeleteClaim | pkg/cache/nodedevices.go:298-338 | the whole new state: the cached allocation released and dropped, or the claim's own results released |
| UsageCache.NodeDevices.UpdateClaim | pkg/cache/nodedevices.go:340-343 | deletion of the old claim, then addition of the new one |
| UsageCache.NodeDevices.ParseNodeDevice | pkg/cache/nodedevices.go:90-143 | fresh records at zero usage carrying the parsed attributes and totals |
| UsageCache.NodeDevices.RebuildNode | pkg/cache/nodedevices.go:175-207 | the node lists after storing or removing a slice; records of other slices stay the same objects |
| UsageCache.NodeDevices.RecomputeUsage | pkg/cache/nodedevices.go:211-224 | every counter of the node grows by the claims charged to it, in whatever order the claims come |
| UsageCache.NodeDevices.SetSliceDevices | pkg/cache/nodedevices.go:169-225 | the rebuild as a whole refines the abstract step that keeps other slices' counters |
| UsageCache.Cache.OnAddSlice | pkg/cache/cache.go:165-178 | the cache stays in the state the abstract machine reaches on the delivered events |
| UsageCache.Cache.OnUpdateSlice | pkg/cache/cache.go:180-198 | the same for slice updates, including a move to another node |
| UsageCache.Cache.OnDeleteSlice | pkg/cache/cache.go:200-220 | the same for slice deletions |
| UsageCache.Cache.OnAddClaim | pkg/cache/cache.go:129-135 | the same for new claims |
| UsageCache.Cache.OnUpdateClaim | pkg/cache/cache.go:137-147 | the same for claim updates, those of equal status being skipped |
| UsageCache.Cache.OnDeleteClaim | pkg/cache/cache.go:149-162 | the same for claim deletions |
| UsageTheorems.ChargeRemove | pkg/cache/nodedevices.go:211-224 | the sum over the claim table does not depend on the order of the claims |
| UsageTheorems.ReleaseNeverClamps | pkg/cache/nodedevices.go:384-393 | at every point inside the release of a cached claim, releasing with clamps equals plain subtraction |
| UsageTheorems.SetSliceExact | pkg/cache/nodedevices.go:204-224 | a rebuilt node is exact if and only if its kept devices were idle or reset; other nodes are as exact and as idle as before |
| UsageTheorems.AllocationDependsOnStatus | pkg/cache/cache.go:143-145 | equal status means equal allocation, so skipping an update loses nothing |
| UsageTheorems.TableStep | pkg/cache/nodedevices.go:247-343 | after any callback the claim table is the table of the delivered claims |
| UsageTheorems.FallbackReleasesNothing | pkg/cache/nodedevices.go:305-327 | deleting a delivered claim that is not cached changes nothing |
| UsageTheorems.StepInvariant | pkg/cache/nodedevices.go:169-399 | every callback keeps counters at or above their claims, nonnegative, and the table faithful |
| UsageTheorems.StepExact | pkg/cache/nodedevices.go:169-225 | from an exact state a callback leads to an exact one if and only if the kept devices are idle or reset |
| UsageTheorems.LayoutStore | pkg/cache/cache.go:165-178 | storing a slice keeps the node lists equal to the delivered slices |
| UsageTheorems.LayoutRemove | pkg/cache/cache.go:200-220 | removing a slice keeps the node lists equal to the delivered slices, and drops a node left without slices |
| UsageTheorems.LayoutStep | pkg/cache/cache.go:165-220 | the node lists follow the delivered slices through a callback if and only if it does not take a slice off its node |
| UsageTheorems.UnassignLosesLayout | pkg/cache/cache.go:186-189 | after an update that clears the node name the node lists are not those of the delivered slices |
| UsageTheorems.RunInvariant | pkg/cache/nodedevices.go:169-399 | the invariant holds after every run, as written and with the reset |
| UsageTheorems.StepRefines | pkg/cache/nodedevices.go:169-343 | one callback keeps the cache equal to usage from scratch exactly under the two conditions |
| UsageTheorems.RefinementTheorem | pkg/cache/nodedevices.go:166-225 | along a run the cache equals usage from scratch at every moment if and only if no update clears a node name and no rebuild keeps a device that the objects delivered so far use |
| UsageTheorems.SameObjectsSameCache | pkg/cache/nodedevices.go:209-224 | runs meeting that condition on the delivered objects, in any order of the same objects, end in the same cache |
| UsageTheorems.OneSliceExact | pkg/cache/nodedevices.go:166-225 | as written, a run with one slice per node at a time and no cleared node name is exact at every moment |
| UsageTheorems.OneSliceSameCache | pkg/cache/nodedevices.go:166-225 | two such runs that deliver the same objects in any order end in the same cache |
| UsageTheorems.ResetExact | pkg/cache/nodedevices.go:166-168 | with the kept counters reset first, a run with any number of slices per node and no cleared node name is exact at every moment |
| UsageTheorems.TableOnRuns | pkg/cache/nodedevices.go:247-343 | after every run under the informer contract, whatever the quantities, the claim table is the table of the delivered claims |
| UsageTheorems.DisturbedDiffers | pkg/cache/nodedevices.go:204-224 | an event that breaks the condition makes an exact cache differ from usage from scratch |
| UsageTheorems.NeverClampsOnRuns | pkg/cache/nodedevices.go:384-393 | after every run, with any number of slices, no release of a cached claim reaches a clamp at any point |
| UsageExamples.ExampleBefore | pkg/cache/nodedevices.go:209-224 | one slice and one claim: the cache is exact and shows the 30 cores |
| UsageExamples.SecondSliceOvercounts | pkg/cache/nodedevices.go:204-224 | adding a second, empty slice makes the cache differ from usage from scratch |
| UsageExamples.SecondSliceReset | pkg/cache/nodedevices.go:166-168 | with the kept counters reset first the same run is exact |
| PodUsage.PodDevices | pkg/metrics/collector.go:232-272 | a series for exactly the pods that share a published device, with the pod's share of every claim, and per device the sum over results times reserving pods, for any order of claims |
| PodUsage.CreditResultsTotal | pkg/metrics/collector.go:238-269 | one claim adds to a device's total over pods its results times its reserving pods |
| PodUsage.PodsAddUpToDevice | pkg/metrics/collector.go:253-268 | with one reserving pod per claim and exact usage, the pods' shares add up to the cached usage |
| ClaimNames.TrimRight | pkg/utils/claimname.go:33 | the result is the prefix that ends before the trailing dashes |
| ClaimNames.TruncateMeaning | pkg/webhook/dra/mutating.go:295-307 | a short name stays; of a long one the part up to the last character before position 54 that is no dash is kept, followed by a dash and the hash |
| ClaimNames.TruncationApart | pkg/webhook/dra/mutating.go:295-307 | different names are truncated to different names where the hashes tell the cut ones apart |
| ClaimNames.OwnershipIff | pkg/utils/claimname.go:30-36 | a generated name is recognised if and only if it is not cut right behind a prefix ending in two dashes |
| ClaimNames.OwnsIff | pkg/utils/claimname.go:30-36 | of all names exactly those are an owner's that begin with the owner prefix, or, if it is longer than 54 characters, with its first 54 stripped of trailing dashes |
| ClaimNames.OwnershipExample | pkg/utils/claimname.go:30-36 | a concrete name that is not recognised, under an owner that ends in a dash |
| ClaimNames.OwnershipComplete | pkg/utils/claimname.go:24-36 | every generated name is recognised, at all lengths, for an owner not ending in a dash |
| ClaimNames.TruncatedIsLabelIff | pkg/webhook/dra/mutating.go:295-307 | a truncated name is a label of RFC 1123 section 2.1 if and only if the kept part has label characters only |
| ClaimNames.NamesAreLabels | pkg/webhook/dra/mutating.go:284-307 | names made of label parts are labels |
| ClaimNames.SeparatesIff | pkg/webhook/dra/mutating.go:284-293 | two suffixes keep all container names apart if and only if neither is a dash-separated tail of the other |
| ClaimNames.RawNamesInjective | pkg/webhook/dra/mutating.go:284-293 | untruncated names under owners of one length are equal only for one owner, container and suffix |
| DeviceConfigs.BuiltinSuffixesSeparate | pkg/config/dra_device.go:89-94 | with the built-in chips the suffixes of any two configs of any vendors keep names apart |
| DeviceConfigs.ConvertMemory | pkg/config/dra_device.go:138-146 | MiB become bytes exactly when the bytes fit an int64, and then without wrapping |
| DeviceConfigs.CoreUnitsIff | pkg/config/dra_device.go:152-159 | the conversion is the rounded-up share, at least one, if and only if the product fits an int64; a negative percentage gives one unit if and only if its product does not wrap above 100 |
| DeviceConfigs.ConvertCoresIff | pkg/config/dra_device.go:148-161 | a core limit is refused exactly for "hcu" and "amdgpu" without a positive reference; without a reference it stays as it is; with one it is the just-enough share where the product fits an int64, and otherwise the share of what the product wraps to |
| DeviceConfigs.CoreUnitsWrapExample | pkg/config/dra_device.go:152-159 | a concrete percentage whose product wraps to zero and gives one unit |
| DeviceConfigs.CoreUnitsWithinReference | pkg/config/dra_device.go:152-159 | without wrapping the units stay within the reference if and only if at most 100 percent are asked for |
| DeviceConfigs.CoreUnitsMonotone | pkg/config/dra_device.go:152-159 | without wrapping more percent never means fewer units |
| DeviceConfigs.SharedDeviceUnits | pkg/config/dra_device.go:152-159 | n requests of at least one percent and 100 together need at most the reference plus n - 1 units |
| DeviceConfigs.DraDevicesFromAscend | pkg/config/dra_device.go:272-329 | the loop gives the configs of the chips and the indexes of those without a resource name |
| DeviceConfigs.AscendDevicesAre | pkg/config/dra_device.go:294-327 | there is one config for every chip with a resource name, made from that chip, in the order of the chips |
| DeviceConfigs.ConfigsMeaning | pkg/config/dra_device.go:163-329 | for any vendors, every setting of every config is the configured text or its default, vendor by vendor, and for Ascend chip by chip: listed, legacy and built-in |
| DeviceConfigs.ResolvedUnique | pkg/config/dra_device.go:163-329 | these settings determine the configs |
| DeviceConfigs.VendorConfiguredIff | pkg/config/dra_device.go:349-367 | a vendor has configs exactly if it is one of the four, and for Ascend unless chips are listed and none names a resource |
| DeviceConfigs.SuffixMeaning | pkg/config/dra_device.go:89-94 | the claim suffix is the chip's word with capitals made small, or the vendor where there is none |
| DeviceConfigs.CheckConfig | pkg/config/dra_device.go:374-391 | a config passes if and only if it clashes neither with itself nor with what was seen |
| DeviceConfigs.DRADevices | pkg/config/dra_device.go:331-396 | resolution succeeds if and only if the selection is admissible: supported distinct vendors, count names, distinct names and suffixes; the configs then are blocks of the selected vendors with each setting as configured or by default |
| DeviceConfigs.VendorBlock | pkg/config/dra_device.go:347-394 | every selected vendor has a nonempty block of its own configs, in the order of selection |
| Selectors.AddAnnotationSelectors | pkg/webhook/dra/mutating.go:354-409 | the loop appends the selectors of the annotations present, or fails |
| Selectors.RuleMeaning | pkg/webhook/dra/mutating.go:383-403 | the outcome of each of the four selectors on every device, errors included |
| Selectors.AcceptsIff | pkg/webhook/dra/mutating.go:365-407 | the selectors accept exactly the devices that every annotation allows |
| Selectors.RejectedIff | pkg/webhook/dra/mutating.go:379-382 | annotations are rejected if and only if one has no usable value |
| Selectors.AnnotationsMeaning | pkg/webhook/dra/mutating.go:354-409 | a device is accepted exactly if each use annotation lists its uuid or product name and no nouse annotation does, missing and non-string attributes included |
| Selectors.UnusableIff | pkg/webhook/dra/mutating.go:379-382 | they are refused exactly if one of the four annotations is there without any value |
| AnnotationValues.ValuesOfIff | pkg/webhook/dra/mutating.go:339-349 | the values of an annotation are exactly its nonempty pieces between commas without the white space around them |
| AnnotationValues.NamePartJoins | pkg/webhook/dra/mutating.go:414-416 | a type is normalised character by character |
| AnnotationValues.NamePartOfChar | pkg/webhook/dra/mutating.go:414-416 | parentheses are dropped, a space becomes "_", a capital becomes small, any other character stays |
| AnnotationValues.NamePartEmptyIff | pkg/webhook/dra/mutating.go:414-416 | a value normalises to nothing if and only if it is made of parentheses |
| Selectors.IntendedIff | pkg/webhook/dra/mutating.go:385-394 | a substring list is read as intended if and only if no value is made of parentheses only |
| Selectors.ParenthesesMatchEverything | pkg/webhook/dra/mutating.go:411-416 | the value "()" is accepted and matches every product name |
| Capacities.EnumerationUnique | pkg/webhook/dra/mutating.go:505-522 | the ascending list of sizes is determined by the set of sizes |
| Capacities.DeviceCapacities | pkg/webhook/dra/mutating.go:496-523 | the loops list each size of the driver's devices of the type once, ascending |
| Capacities.PrimaryMeaning | pkg/config/dra_device.go:96-136 | the request has the config's name and class, and accepts exactly the devices whose "type" in the driver's domain is the config's, and which for three device types have its driver |
| Capacities.CountedIffAccepted | pkg/webhook/dra/mutating.go:507-514 | the devices whose sizes are listed are exactly those that the request's selector accepts |
| Capacities.IntegerValueIff | pkg/webhook/dra/mutating.go:515-518 | a fractional capacity counts as the next whole number away from zero |
| Capacities.ShareIff | pkg/webhook/dra/mutating.go:439-444 | the share is the greatest number of whole MiB within the percentage of the whole MiB of the device, at least one |
| Capacities.RequestMemoryPercentage | pkg/webhook/dra/mutating.go:422-459 | one subrequest per size, or a failure for a percentage, listing or number of sizes out of range |
| Capacities.ShareBounds | pkg/webhook/dra/mutating.go:440-444 | a share not raised to one MiB lies in the exact percentage minus two MiB, excluded, up to the exact percentage |
| Capacities.ShareFitsIff | pkg/webhook/dra/mutating.go:440-444 | a share is at most the device's memory if and only if that is at least one MiB |
| Capacities.SharesFitTogether | pkg/webhook/dra/mutating.go:440-444 | shares not raised, of at most 100 percent together, fit on one device |
| Capacities.OneSubrequestPerDevice | pkg/webhook/dra/mutating.go:440-455 | a published device matches the size of one subrequest, and gets the share of its own memory, if and only if its memory is whole bytes, and never two |
| Capacities.WithReferenceComputeUnits | pkg/webhook/dra/mutating.go:472-491 | the reference is the configured one, or the one size published, or missing, and a failure for several sizes |
| Capacities.ReferenceIff | pkg/webhook/dra/mutating.go:472-491 | the reference is n exactly if n is configured, or for "amdgpu" without one n is the only size published, or nothing is published and it stays unset |
| Capacities.DerivedReferenceFits | pkg/webhook/dra/mutating.go:472-491 | a request converted by a derived reference asks for no more than any published device's capacity rounded up, and for no more than the capacity itself if and only if that is whole or the request is below the rounded one |
| Capacities.FractionalExample | pkg/webhook/dra/mutating.go:515-518 | all of a device of 7.5 units is converted to 8 units |
| ObjectStore.ApiServer.Create | pkg/webhook/dra/mutating.go:269-273 | creation adds one object under a free name, or changes nothing |
| ObjectStore.ApiServer.DeleteAll | pkg/webhook/dra/mutating.go:185-192 | exactly the named objects are gone |
| ObjectStore.FreshMore | pkg/webhook/dra/mutating.go:269-275 | a list of names can be created if and only if its first part can, and then its second |
| ObjectStore.Undone | pkg/webhook/dra/mutating.go:185-192 | deleting what was created restores the table |
| ObjectStore.CleanedUp | pkg/webhook/dra/mutating.go:206-208 | the clean-up of a container removes its own objects and those of the containers before, and no other |
| ClaimConversion.TurnAtOnce | pkg/webhook/dra/mutating.go:210-267 | if no limit is read in two places, removing the names of one config as they are converted reads the same values as reading all first |
| ClaimConversion.TurnLeaves | pkg/webhook/dra/mutating.go:221-256 | whatever the names, a turn leaves limits and requests without the names it reads |
| ConversionOrder.ResolvedUsedOnceIff | pkg/config/dra_device.go:374-386 | for resolved configs a limit is read in two places if and only if it has the empty name and two requested places read that |
| ConversionOrder.EmptyNameExample | pkg/webhook/dra/mutating.go:237-246 | concrete limits with the empty name for which the order of two configs decides the claims |
| ClaimConversion.WantedIff | pkg/webhook/dra/mutating.go:217-267 | a claim is refused for exactly four reasons; otherwise it has the config's class and request name, asks for the count, cores and memory of the limits, and accepts exactly the devices of the type that the annotations allow, with one subrequest per published size for a percentage |
| ClaimConversion.ConvertAtOnce | pkg/webhook/dra/mutating.go:204-278 | if no limit is read in two places, the delete-as-you-go loop gives the claims of the original limits and leaves those limits without the converted names |
| ClaimConversion.ConvertLeaves | pkg/webhook/dra/mutating.go:204-278 | configs that do not take each other's counts, as resolved ones do not, leave the original limits and requests without the converted names, whatever the limits |
| ClaimConversion.WantedMeaning | pkg/webhook/dra/mutating.go:204-278 | the claims are exactly those of the configs whose count is in the limits |
| ConversionOrder.ConvertMeaning | pkg/webhook/dra/mutating.go:204-278 | conversion fails exactly if some config's turn does, on the original limits without the names taken before it, and the claims are exactly those of these turns |
| ConversionOrder.AtOnceIff | pkg/webhook/dra/mutating.go:204-278 | for resolved configs the loop gives the claims of the original limits if and only if the limit with the empty name is read in one place at most |
| ConversionOrder.ResolvedCoresNamed | pkg/config/dra_device.go:82-87 | no resolved config calls its core capacity "memory", as AtOnceIff and OrderIff ask |
| ConversionOrder.OrderIrrelevant | pkg/webhook/dra/mutating.go:204-278 | if no two requested configs read one limit, any order of the configs gives the same claims and the same leftover resources |
| ConversionOrder.OrderIff | pkg/webhook/dra/mutating.go:204-278 | for resolved configs every other order has the outcome of a successful conversion if and only if at most one requested config reads the limit with the empty name |
| PodWebhook.Container.RemoveResource | pkg/webhook/dra/mutating.go:330-337 | the name leaves limits and requests |
| PodWebhook.MutatingAdmission.BuildClaim | pkg/webhook/dra/mutating.go:210-267 | the statements of one config's turn refine its specification |
| PodWebhook.MutatingAdmission.HandleContainer | pkg/webhook/dra/mutating.go:204-278 | success creates exactly the specified claims; a failure leaves the table without this and the earlier containers' claims |
| PodWebhook.MutatingAdmission.Handle | pkg/webhook/dra/mutating.go:60-122 | a refused pod leaves the table as it was; an admitted one gets exactly the specified claims, entries and label; a reliable server refuses only for a conversion or a taken name |
| PodWebhook.MutatingAdmission.StripContainer | pkg/webhook/dra/mutating.go:146-159 | every configured name leaves the container, and the report says whether there was one |
| PodWebhook.MutatingAdmission.HandleUpdate | pkg/webhook/dra/mutating.go:126-162 | the stripped pod, patched exactly if something was found |
| PodConversion.AdmittedAt | pkg/webhook/dra/mutating.go:85-104 | each container is converted by itself and lists its own claims |
| PodConversion.ClaimsResolve | pkg/webhook/dra/mutating.go:92-103 | every claim made for a container is listed by it, and by the pod under the same name, which refers to a created object of that name and of the mode's kind, labelled if it is a template |
| PodConversion.AdmittedAsks | pkg/webhook/dra/mutating.go:60-122 | for every config whose count a container limits there is an object that the container lists, and it asks for exactly the devices, count, cores and memory of the original limits |
| PodConversion.EntriesOwned | pkg/webhook/dra/mutating.go:284-293 | every claim of a named pod is recognised as the pod's |
| PodConversion.DeletionIff | pkg/webhook/dra/validating.go:59-106 | whatever else changed since, deletion takes away exactly what admission created if and only if the pod is unlabelled or lists no user object that looks like the webhook's |
| PodConversion.RoundTripIff | pkg/webhook/dra/validating.go:64-106 | creation then deletion returns the table to its starting contents under the same condition, in claim and template mode |
| PodConversion.SparesMoreIff | pkg/webhook/dra/validating.go:64-106 | the objects made for another pod are spared if and only if the pod does not list one of their names |
| PodConversion.OthersSurviveIff | pkg/webhook/dra/validating.go:64-106 | deleting a pod leaves all other objects, those of a pod admitted after it included, if and only if it is unlabelled or lists neither an owned-looking object of the user's nor one of the other pod's names |
| PodNames.NamesAreApart | pkg/webhook/dra/mutating.go:284-307 | with distinct containers, separated suffixes and telling hashes every container and config of a pod has a name of its own |
| PodNames.CollisionFree | pkg/webhook/dra/mutating.go:204-278 | the claims of such a pod can be created if and only if no other object has one of their names; nothing is asked of hashes of names of at most 63 characters |
| PodNames.TailCollides | pkg/webhook/dra/mutating.go:284-293 | wherever one suffix is a tail of another, a pod with distinct containers is refused, whatever the store holds |
| PodNames.SuffixesApartIff | pkg/webhook/dra/mutating.go:284-293 | for resolved configs only other objects can be in the way of any pod with distinct containers and telling hashes if and only if no suffix is a tail of another |
| PodNames.ResolvedSuffixed | pkg/config/dra_device.go:89-94 | no resolved config has an empty suffix |
| PodNames.BuiltinSuffixesApart | pkg/config/dra_device.go:89-94 | resolved configs with the built-in chips have suffixes that keep names apart |
| PodNames.TailChipsOrder | pkg/config/dra_device.go:374-386 | two resolvable chips without memory names for which the order decides who gets a limit with the empty name |
| PodNames.TailChipsCollide | pkg/config/dra_device.go:387-391 | two resolvable chips for which this happens to the containers "c" and "c-a" |
| PodConversion.StripChangesIff | pkg/webhook/dra/mutating.go:139-162 | the update path changes the pod exactly if it reports a find |
| PodConversion.StripOnce | pkg/webhook/dra/mutating.go:139-162 | a second update finds nothing |
| PodConversion.TakenIsAllIff | pkg/webhook/dra/mutating.go:146-158 | stripping equals converting if and only if each configured name is a limit beside its count and no limit under the empty name was converted |
| PodConversion.ReapplyIff | pkg/webhook/dra/mutating.go:124-162 | for resolved configs and any limits, applying the original manifest again and updating restores the admitted pod if and only if that holds in every container with claims |
| PodWebhook.ValidatingAdmission.DeleteResourceClaimTemplate | pkg/webhook/dra/validating.go:91-106 | a template is deleted exactly if it exists with the DRA label |
| PodWebhook.ValidatingAdmission.Handle | pkg/webhook/dra/validating.go:47-87 | for a labelled pod exactly the owned claims and labelled templates it lists are deleted |
| PodWebhook.ListedClaims | pkg/webhook/dra/validating.go:108-116 | the names of exactly the entries that refer to a claim |
| PodWebhook.ListedTemplates | pkg/webhook/dra/validating.go:118-126 | the names of exactly the entries that refer to a template |
| VolcanoConversion.JobTurn | pkg/webhook/volcano/mutating.go:161-194 | a job's config is a pod's config without percentage, annotations and published devices |
| VolcanoConversion.JobConfigsApart | pkg/webhook/volcano/mutating.go:159-194 | the configs of a job are as distinct, and read limits as seldom, as those they come from |
| VolcanoConversion.TaskAtOnce | pkg/webhook/volcano/mutating.go:141-206 | a container of an admitted Volcano task gets the claims of its original limits and keeps these without the converted names |
| VolcanoConversion.TemplateOwned | pkg/webhook/volcano/mutating.go:168-172 | a template's name is recognised as the job's |
| JobNames.JobCollisionFreeIff | pkg/webhook/volcano/mutating.go:141-206 | with separated suffixes and telling hashes the templates of a job can be created if and only if no other object has one of their names and no two containers that ask for one device have the same joined name |
| JobNames.JoinedClash | pkg/webhook/volcano/mutating.go:150-172 | two such containers give two templates one name, whatever the suffixes |
| JobNames.ClashingJobRefused | pkg/webhook/volcano/mutating.go:150-172 | a concrete job that is refused by any resolved configs, whatever the store holds |
| JobNames.JobSettingsApart | pkg/webhook/volcano/mutating.go:159-194 | the configs of a job are as resolved and their suffixes as separated as those they come from |
| VolcanoWebhook.MutatingAdmission.BuildTemplate | pkg/webhook/volcano/mutating.go:161-194 | the statements of one config's turn refine its specification |
| VolcanoWebhook.MutatingAdmission.HandleContainerTemplate | pkg/webhook/volcano/mutating.go:159-206 | the returned names are exactly the templates created, on success and beside an error |
| VolcanoWebhook.MutatingAdmission.HandleTask | pkg/webhook/volcano/mutating.go:141-157 | the same over all containers of a Volcano task |
| VolcanoWebhook.MutatingAdmission.Handle | pkg/webhook/volcano/mutating.go:53-112 | a refused job leaves the table as it was; an admitted one gets exactly the specified templates, entries and label |
| VolcanoConversion.JobDeletionIff | pkg/webhook/volcano/validating.go:57-78 | deletion takes away exactly what admission created if and only if the job is unlabelled or no owned-looking name the user listed is taken by another template |
| VolcanoConversion.JobRoundTripIff | pkg/webhook/volcano/validating.go:45-81 | creation then deletion returns the table to its starting contents under the same condition |
| VolcanoWebhook.ValidatingAdmission.GetResourceClaimName | pkg/webhook/volcano/validating.go:83-91 | the names of all entries of all Volcano tasks |
| VolcanoWebhook.ValidatingAdmission.Handle | pkg/webhook/volcano/validating.go:45-81 | for a labelled job exactly the templates with listed, owned names are deleted |
| FakeDriver.MergeAttributeMaps | cmd/fake-driver/config.go:339-352 | the loops give the later map's value for every key it has, in any key order |
| FakeDriver.MergeCapacityMaps | cmd/fake-driver/config.go:354-371 | capacities in both maps are merged part by part, in any key order |
| FakeDriver.MergeDevice | cmd/fake-driver/config.go:202-213 | merging in place refines the field-wise override |
| FakeDriver.MergeAssociative | cmd/fake-driver/config.go:202-213 | merging is associative |
| FakeDriver.MergeIdentity | cmd/fake-driver/config.go:202-213 | the empty device is a left and right identity |
| FakeDriver.MergeAllMeaning | cmd/fake-driver/config.go:111-129 | every field, attribute and capacity part of merged layers is the last one defined |
| FakeDriver.ToAttribute | cmd/fake-driver/config.go:215-239 | an attribute converts if and only if exactly one of its four values is set, to that value with its type |
| FakeDriver.ToCapacity | cmd/fake-driver/config.go:241-322 | a capacity converts if and only if its value and every text of its policy are quantities, each part to the quantity of its own text |
| FakeDriver.ConvertCapacities | cmd/fake-driver/config.go:177-192 | sharing turns on exactly if it is not configured and some capacity has a request policy, in any key order |
| FakeDriver.ToResourceDevice | cmd/fake-driver/config.go:160-200 | a device converts if and only if it has a name and all its parts convert |
| FakeDriver.MergeLayers | cmd/fake-driver/config.go:111-129 | the table holds for each name the merge of its layers, groups in order and the node on top |
| FakeDriver.DevicesForNode | cmd/fake-driver/config.go:98-146 | fails exactly for a bad selector or an inconvertible device; otherwise one device per name from the layers of its name |
| FakeDriver.OneDevicePerName | cmd/fake-driver/config.go:131-145 | names are strictly ascending and are exactly the layers' names |
| FakeDriver.DeviceMeaning | cmd/fake-driver/config.go:98-146 | every part of a device comes from its last definition |

## Left out

- Locks and interleavings inside a callback; informer start-up, listers, the ready flag and tombstones.
- JSON decoding and patches, HTTP responses, dry runs, DeviceClass warnings, context timeouts.
- Overflow of the usage counters, and negative consumed quantities, with which the clamps to zero can act.
- Pods and jobs without a name at admission: their names get a random segment, so deletion does not recognise them;
  atomicity and translation are proved for them, the round trip is not.
- UID preconditions on template deletion, finalizers and deletes that fail.
- The collision resistance of SHA-256: where two long names of one pod are cut to one name, the pod is refused
  because the name is taken.
- Core ratios and the emission of metrics, which are floating point.
- Error texts, and which of several errors is reported; log lines and warnings.
- The kubelet plugin, the config generator and its web pages, charts, options and feature gates.
