# DockBridge reconciler and update checker in Dafny

DockBridge is a Velocity proxy plugin that watches Docker for containers carrying an
auto-register label and keeps the proxy's server table in step with them. This project
models its core and proves properties of that model:

- **The reconciliation pass of `DockerService`** (`refreshContainers` and the methods it calls).
  A scan of labelled containers is sorted by id. Each container gets:
  - a base name, a port and a host, each with a fixed precedence of label overrides over
    structural defaults;
  - a unique server name, chosen in this order:
    1. stickiness to the name the same short id had in the previous pass;
    2. the primary/suffix rule within a group of containers that share a base name;
    3. a collision loop `base-suffix`, then `base-suffix-1`, `base-suffix-2`, ….

  Each container is then applied to the proxy's server table as REGISTERED, UNCHANGED or
  UPDATED, or it fails. Afterwards the servers the service registered earlier but did not see
  this pass are unregistered. Finally the bookkeeping (`registeredNames`, `lastRegistrations`,
  `lastMatchedCount`) is replaced.
- **The Modrinth update check of `UpdateChecker`**:
  - the `YYYY-MM-DD[a-z]*` version scheme;
  - its comparator;
  - the loop that picks the newest published version and reports it only when it is newer
    than the running one.

Layout, one module per file:

- `wrappers.dfy` (`Wrappers`): `Option`, for Java's null and `Optional`.
- `java_strings.dfy` (`JavaStrings`): the `String`, `Character` and `Integer` behaviour the core
  relies on:
  - `trim`, `isBlank`, `compareTo`, `equalsIgnoreCase` and `toLowerCase`, the last two over ASCII;
  - `Integer.parseInt` and `Integer.toString`.
- `containers.dfy` (`Containers`): the container record, the name/port/host resolvers, the
  short ids, and the sort by id.
- `proxy.dfy` (`Proxy`): the proxy's server table and "try" list as a class. This is the
  external collaborator. It includes `addressesMatch`.
- `naming.dfy` (`Naming`): `DuplicateStrategy.from`, the `Registration` record, and the
  duplicate-name resolver (`chooseServerName`, `ensureUniqueName`, `nameConflicts`).
- `reconciler.dfy` (`Reconciler`): the `DockerService` class:
  - `registerContainer`, `ensureTryIncludes`, `unregisterServer`, `unregisterMissing`;
  - `refreshContainers`, split into one method per phase of the pass.
- `update_checker.dfy` (`UpdateChecker`): `parseVersion`, `compareVersions` and `checkForUpdate`.

Four behaviours of the Java code shape the model of a pass:

- **A port outside 0..65535 aborts the pass.** Such a port makes the `InetSocketAddress`
  constructor throw (DockerService.java:148). That happens outside any `try`, so the exception
  leaves `refreshContainers`:
  - every table change made earlier in the pass stays;
  - the bookkeeping is not replaced.

  The model calls this outcome `InvalidPort`, and the pass result `Interrupted`.
- **An id shorter than 12 characters aborts the pass when it is the last resort for a base
  name.** `resolveServerName` reaches `id.substring(0, 12)` only for a container with neither a
  non-blank name label nor any names (DockerService.java:313-322). For an id shorter than 12
  characters that substring throws. It is first called inside `groupingBy`, before anything
  changes, so such a container interrupts the pass with nothing changed.
- **A failed scan drains everything.** `listMatchingContainers` turns a failed Docker call into
  an empty list, and the empty branch then unregisters every tracked server. The model has only
  the scan result, so an empty scan drains everything, as the code does.
- **A refused registration is a failed outcome.** `registerContainer` returns null when the
  proxy refuses the server (DockerService.java:165 and :179). The model's `Failed` outcome
  carries the name that was tried, so the pass record can say which (name, address) pair the
  proxy refused.

## Model

| member | source | states |
|---|---|---|
| JavaStrings.Trim | src/main/java/net/uebliche/dockbridge/DockerService.java:315 | `String.trim`: the result is the infix of the input left after dropping only characters up to U+0020 at both ends, and it neither starts nor ends with such a character |
| JavaStrings.CompareToAntisymmetric | src/main/java/net/uebliche/dockbridge/DockerService.java:82 | `String.compareTo(a, b)` is the negation of `compareTo(b, a)` |
| JavaStrings.CompareToZero | src/main/java/net/uebliche/dockbridge/DockerService.java:82 | `compareTo` is zero exactly for equal strings |
| JavaStrings.CompareToTransitive | src/main/java/net/uebliche/dockbridge/DockerService.java:82 | `compareTo` is a transitive order, so sorting by id is well defined |
| JavaStrings.CompareToStrictTransitive | src/main/java/net/uebliche/dockbridge/DockerService.java:82 | a strictly smaller step followed by a weak one stays strictly smaller |
| JavaStrings.NatToString | src/main/java/net/uebliche/dockbridge/DockerService.java:251 | the counter's decimal text is non-empty and all digits |
| JavaStrings.NatToStringValue | src/main/java/net/uebliche/dockbridge/DockerService.java:251 | the decimal text of a counter reads back as that counter |
| JavaStrings.NatToStringInjective | src/main/java/net/uebliche/dockbridge/DockerService.java:251 | different counters give different decimal texts |
| JavaStrings.ParseInt | src/main/java/net/uebliche/dockbridge/DockerService.java:330 | `Integer.parseInt` succeeds only on an optional sign followed by digits, with a value in the 32-bit range |
| JavaStrings.ParseIntRoundTrip | src/main/java/net/uebliche/dockbridge/DockerService.java:330 | `parseInt` reads back every decimal text of a value in range, with or without a minus sign |
| Containers.ShortContainerId | src/main/java/net/uebliche/dockbridge/DockerService.java:220-225 | the short id is the prefix of the id of length min(12, id length) |
| Containers.ShortContainerSuffix | src/main/java/net/uebliche/dockbridge/DockerService.java:227-230 | the suffix is a prefix of the short id, of length min(length, 12, id length) |
| Containers.ResolveHost | src/main/java/net/uebliche/dockbridge/DockerService.java:346-353 | the host is the first name, with a leading "/" dropped if present, or "localhost" when the container has no names |
| Containers.NamePrecedence | src/main/java/net/uebliche/dockbridge/DockerService.java:311-323 | the base name is the trimmed name label if present and not blank; else the host from the first name; else the 12-character short id; it is missing (the substring throws) exactly when none applies and the id is shorter than 12 |
| Containers.PortPrecedence | src/main/java/net/uebliche/dockbridge/DockerService.java:325-344 | a parsable port label wins; an unparsable or missing one falls through to the first container-side port if it is positive, and else to 25565; a fallback port is always positive |
| Containers.InsertByIdSorted | src/main/java/net/uebliche/dockbridge/DockerService.java:82 | inserting into a list sorted by id keeps it sorted |
| Containers.SortById | src/main/java/net/uebliche/dockbridge/DockerService.java:81-82 | the sorted scan is a permutation of the scan, ascending by id under `compareTo` |
| Containers.SortByIdMembers | src/main/java/net/uebliche/dockbridge/DockerService.java:81-82 | sorting keeps exactly the containers of the scan |
| Containers.ResolveAll | src/main/java/net/uebliche/dockbridge/DockerService.java:88-89 | grouping by base name succeeds exactly when every container's base name can be derived, and then yields each container's base name in order |
| Proxy.AddressesMatchEquivalence | src/main/java/net/uebliche/dockbridge/DockerService.java:406-412 | `addressesMatch` (equal port, host equal ignoring case) is reflexive, symmetric and transitive |
| Proxy.ProxyServer.RegisterServer | src/main/java/net/uebliche/dockbridge/DockerService.java:175-180 | registering succeeds exactly when the name is free and the info is not refused; on success the table gains that one entry, on failure it is unchanged |
| Proxy.ProxyServer.UnregisterServer | src/main/java/net/uebliche/dockbridge/DockerService.java:160 | unregistering removes exactly that name from the table |
| Proxy.ProxyServer.AppendToOrder | src/main/java/net/uebliche/dockbridge/DockerService.java:385-392 | `order.add` appends the name when the list is mutable and throws (changing nothing) otherwise |
| Naming.StrategyFrom | src/main/java/net/uebliche/dockbridge/DockerService.java:296-308 | OVERWRITE exactly when the raw value is present and its trimmed, lower-cased form is "overwrite"; null, "suffix" and every unknown value give SUFFIX |
| Naming.IndexBy | src/main/java/net/uebliche/dockbridge/DockerService.java:84-87 | the index of the previous registrations holds every key of the list, each mapped to a registration of the list that has that key |
| Naming.IndexByFirst | src/main/java/net/uebliche/dockbridge/DockerService.java:84-87 | with the merge `(a, b) -> a`, a key maps to the first registration in the list that has it |
| Naming.NumberedInjective | src/main/java/net/uebliche/dockbridge/DockerService.java:251 | different counters give different `base-suffix-n` names |
| Naming.NumberedIsFresh | src/main/java/net/uebliche/dockbridge/DockerService.java:249-253 | the collision loop never proposes a name it has already rejected |
| Naming.NumberedBelowSize | src/main/java/net/uebliche/dockbridge/DockerService.java:249-253 | before trying counter n, the loop has rejected n - 1 distinct names |
| Naming.NumberedBelowGrows | src/main/java/net/uebliche/dockbridge/DockerService.java:250-252 | every name the loop rejects is taken this pass or present in the table |
| Naming.ConflictsBelowAll | src/main/java/net/uebliche/dockbridge/DockerService.java:249-253 | "every earlier counter conflicted" means every `base-suffix-k` with 1 <= k < n conflicts |
| Naming.FirstFreeNumbered | src/main/java/net/uebliche/dockbridge/DockerService.java:249-254 | the collision loop terminates with the first `base-suffix-n` (n >= 1) that does not conflict; all lower counters conflict |
| Naming.EnsureUniqueName | src/main/java/net/uebliche/dockbridge/DockerService.java:232-255 | the result does not conflict. It is the candidate if the candidate is free, else `base-suffix` if that is free, else the first free `base-suffix-n` |
| Naming.GroupSize | src/main/java/net/uebliche/dockbridge/DockerService.java:208-209 | `group.size()` is the number of containers of the pass with that base name; it is zero exactly when no container has it |
| Naming.PrimaryHasLowestId | src/main/java/net/uebliche/dockbridge/DockerService.java:211-214 | in the id-sorted pass, a group's primary has the lowest id of the group. In a group of more than one, no other member's candidate is the bare base name |
| Naming.IndexesAgreeOf | src/main/java/net/uebliche/dockbridge/DockerService.java:84-87 | when the previous registrations have distinct names, the registration indexed under a short id is also the one indexed under its server name |
| Naming.ChooseServerName | src/main/java/net/uebliche/dockbridge/DockerService.java:190-218 | OVERWRITE gives the base name. Under SUFFIX: a previous name of the same short id that is not taken this pass is reused; otherwise the group candidate (the base name for a lone container or the primary, else `base-suffix`) goes through `ensureUniqueName`. The name is never one taken this pass, and is in the table only if the previous registration of that name belongs to the same short id, on the sticky path too when the two indexes come from one list with distinct names |
| Reconciler.AppliedCount | src/main/java/net/uebliche/dockbridge/DockerService.java:103-110 | every applied outcome is counted under exactly one of REGISTERED, UPDATED and UNCHANGED |
| Reconciler.RegsMap | src/main/java/net/uebliche/dockbridge/DockerService.java:105 | `newRegistrations` is keyed by exactly the applied names, each mapped to an applied registration of that name |
| Reconciler.RegsMapSnoc | src/main/java/net/uebliche/dockbridge/DockerService.java:105 | putting one more registration replaces the entry under its name |
| Reconciler.RegsMapDistinct | src/main/java/net/uebliche/dockbridge/DockerService.java:105 | with distinct names no registration is replaced, so each is kept under its name |
| Reconciler.DistinctNamesSize | src/main/java/net/uebliche/dockbridge/DockerService.java:116 | a list of registrations with distinct names has as many names as entries |
| Reconciler.WithTry | src/main/java/net/uebliche/dockbridge/DockerService.java:380-393 | after `ensureTryIncludes` the order is unchanged when the name is already in it or the list is immutable, and is the old order with exactly that name appended otherwise; so no duplicate is introduced and on success the name appears once |
| Reconciler.OrderAfterSnoc | src/main/java/net/uebliche/dockbridge/DockerService.java:99 | one more applied outcome passes the order through `ensureTryIncludes` of its name; a refusal leaves it as it was |
| Reconciler.OrderAfterGrows | src/main/java/net/uebliche/dockbridge/DockerService.java:380-393 | over a pass, the order only grows and gains no duplicate; it holds exactly the initial names plus, when mutable, the applied names; an immutable order is never changed |
| Reconciler.StepFacts | src/main/java/net/uebliche/dockbridge/DockerService.java:96-99 | one step of the pass: the container's port is valid; an applied outcome carries the container's host, port, short id and base name under its name, and UNCHANGED leaves the table as it was; a failed one is a (name, address) pair the proxy refuses, with any old entry of the name removed; under OVERWRITE the name is the base name, under SUFFIX it was not applied earlier in the pass |
| Reconciler.OutcomesForAt | src/main/java/net/uebliche/dockbridge/DockerService.java:96-111 | each recorded outcome is the step of the pass for its container, given the names applied before it and the table before and after it |
| Reconciler.OutcomesForSnoc | src/main/java/net/uebliche/dockbridge/DockerService.java:96-111 | recording one more step extends the record of the pass by that outcome and the table after it |
| Reconciler.OutcomeFacts | src/main/java/net/uebliche/dockbridge/DockerService.java:96-111 | the facts of `StepFacts` hold for every recorded outcome of a pass, with the names applied by the outcomes before it |
| Reconciler.PortsValid | src/main/java/net/uebliche/dockbridge/DockerService.java:148 | every container the pass recorded an outcome for has a port in 0..65535 |
| Reconciler.OutcomesDistinct | src/main/java/net/uebliche/dockbridge/DockerService.java:98-105 | when no step applies a name applied earlier in the pass, the names the pass applies are distinct |
| Reconciler.SuffixStepsFresh | src/main/java/net/uebliche/dockbridge/DockerService.java:202-217 | under SUFFIX no step applies a name applied earlier in the pass |
| Reconciler.AppliedEvery | src/main/java/net/uebliche/dockbridge/DockerService.java:100-105 | when every outcome is applied, the applied registrations are the outcomes' registrations in order |
| Reconciler.FirstPassRegistrations | src/main/java/net/uebliche/dockbridge/DockerService.java:96-111 | under SUFFIX, a pass that applied every container applied one registration per container, in order, each for its container and base name, with distinct names |
| Reconciler.OwnByContainer | src/main/java/net/uebliche/dockbridge/DockerService.java:86-87 | when the previous registrations are one per container with distinct short ids, the index by short id maps each container's short id to its own registration |
| Reconciler.SettledOwn | src/main/java/net/uebliche/dockbridge/DockerService.java:202-203 | in a pass that repeats the previous one, `previousByContainer` holds each container's own registration |
| Reconciler.StickyStepUnchanged | src/main/java/net/uebliche/dockbridge/DockerService.java:202-205 | under SUFFIX, a container whose previous registration is not taken this pass and is in the table at a matching address keeps that name and is UNCHANGED, with the table left as it is |
| Reconciler.SettledSteps | src/main/java/net/uebliche/dockbridge/DockerService.java:96-99 | under SUFFIX, in a pass that repeats the previous one, every step that finds the earlier registrations applied and the table as it was records its container's registration as UNCHANGED and leaves the table as it is |
| Reconciler.UnchangedPass | src/main/java/net/uebliche/dockbridge/DockerService.java:96-111 | a pass whose every step keeps its registration, starting from the table as it was, records every registration as UNCHANGED, in order, and never changes the table |
| Reconciler.SettledAfterFirstPass | src/main/java/net/uebliche/dockbridge/DockerService.java:84-117 | after a SUFFIX pass that applied every container with distinct short ids, the next pass over the same scan starts from previous registrations that are exactly those applied, indexed by short id, and held by the table |
| Reconciler.SettledPassUnchanged | src/main/java/net/uebliche/dockbridge/DockerService.java:96-111 | under SUFFIX, a pass over a scan whose previous registrations are those of the same containers, held by the table, records every container as UNCHANGED and leaves the table as it is |
| Reconciler.SecondPassUnchanged | src/main/java/net/uebliche/dockbridge/DockerService.java:61-117 | `refreshContainers` is idempotent under SUFFIX: after a pass that applied every container of a scan with distinct short ids, a second pass over the same scan and the table it left records every container as UNCHANGED under the name the first pass gave it, and changes no table entry |
| Reconciler.Record | src/main/java/net/uebliche/dockbridge/DockerService.java:100-110 | a failed outcome changes nothing; an applied one adds its name, puts its registration under that name, and adds one to the total of the counters |
| Reconciler.TallyStep | src/main/java/net/uebliche/dockbridge/DockerService.java:100-110 | recording one more outcome keeps the bookkeeping equal to that of the outcomes so far. Under SUFFIX the applied names stay distinct |
| Reconciler.ListingOfDistinct | src/main/java/net/uebliche/dockbridge/DockerService.java:116 | under distinct names, `lastRegistrations` holds exactly the applied registrations, each once |
| Reconciler.ListValues | src/main/java/net/uebliche/dockbridge/DockerService.java:116 | `new ArrayList<>(newRegistrations.values())` lists every entry of the map once, in some order |
| Reconciler.ListingTracks | src/main/java/net/uebliche/dockbridge/DockerService.java:113-116 | the recorded registrations stay in the table at matching addresses after the other tracked names are removed |
| Reconciler.DockerService.constructor | src/main/java/net/uebliche/dockbridge/DockerService.java:43-49 | a new service tracks nothing and reads its strategy with `DuplicateStrategy.from` |
| Reconciler.DockerService.EnsureTryIncludes | src/main/java/net/uebliche/dockbridge/DockerService.java:380-393 | the order becomes `WithTry` of the old order: appended only when absent and mutable |
| Reconciler.DockerService.UnregisterServer | src/main/java/net/uebliche/dockbridge/DockerService.java:355-366 | the name leaves the table if it was there, and leaves the tracked names in any case |
| Reconciler.DockerService.UnregisterMissing | src/main/java/net/uebliche/dockbridge/DockerService.java:368-378 | exactly the tracked names not seen are removed, from the table and from the tracked names. Seen names are untouched, and the count is the size of that set |
| Reconciler.DockerService.RegisterContainer | src/main/java/net/uebliche/dockbridge/DockerService.java:144-188 | a matching entry gives UNCHANGED and no table change. A free name gives REGISTERED with the name added. A different address gives UPDATED with the entry replaced. A refused add gives a failure carrying the name, after the old entry is removed on the update path, and leaves the order as it was. Applied outcomes go through `ensureTryIncludes`. No other name is touched. A bad port throws before any change |
| Reconciler.DockerService.ChooseFor | src/main/java/net/uebliche/dockbridge/DockerService.java:98 | the name is the one `chooseServerName` gives for the pass's indexes, the names taken so far and the current table; under SUFFIX it is not taken this pass, and the table has it only if this service registered it |
| Reconciler.DockerService.ApplyContainer | src/main/java/net/uebliche/dockbridge/DockerService.java:99 | the outcome and the new table are what `registerContainer` makes of the name (UNCHANGED, UPDATED, REGISTERED or a refusal). The order is `WithTry` of the old order for an applied name, and unchanged after a refusal or a bad port. The pass invariants hold: recorded names stay in the table at matching addresses, and foreign servers are untouched |
| Reconciler.DockerService.ApplyNext | src/main/java/net/uebliche/dockbridge/DockerService.java:96-111 | one loop iteration extends the record of the pass by the step for the next container, with the name `chooseServerName` gives and the outcome `registerContainer` gives. It keeps the bookkeeping, the table invariants and the exact order (`OrderAfter`: the initial order after `ensureTryIncludes` of each applied name), all bundled in `Progress`. A bad port changes nothing and keeps `Progress` for the steps so far |
| Reconciler.DockerService.ApplyAll | src/main/java/net/uebliche/dockbridge/DockerService.java:91-111 | the loop stops early exactly when some container has an invalid port, and then at the first such container. Whether or not it stops, `Progress` holds for the containers it went through: each outcome is the step of the pass for its container (chosen name, registration status or refusal), from the table before it to the table after it, the current table is the last step's, the order is `OrderAfter` of the applied outcomes, and the bookkeeping matches; under SUFFIX the recorded names are in the table at matching addresses |
| Reconciler.DockerService.Commit | src/main/java/net/uebliche/dockbridge/DockerService.java:113-117 | the unseen tracked names are unregistered. `registeredNames` becomes the applied names, `lastRegistrations` a listing of the applied registrations, and `lastMatchedCount` the scan size. Under SUFFIX the recorded registrations are in the table and foreign servers are untouched |
| Reconciler.DockerService.Reconcile | src/main/java/net/uebliche/dockbridge/DockerService.java:80-117 | a non-empty pass completes exactly when every base name and port is valid. A completed pass records, for each container of the sorted scan, the step of the pass (chosen name, registration status or refusal). The final table is the last step's table without the unseen tracked names, and the order is `OrderAfter` of the outcomes. `registeredNames` equals the names of `lastRegistrations` and `lastMatchedCount` the scan size, with each applied registration once. Under SUFFIX the names are distinct and the recorded registrations are in the table. The summary counts are right. These facts form the predicate `CompletedPass`. A pass stopped by a port keeps the steps before it: their record, the last step's table and their `OrderAfter` (`PortInterruptedPass`) |
| Reconciler.DockerService.RefreshContainers | src/main/java/net/uebliche/dockbridge/DockerService.java:61-122 | an empty scan unregisters every tracked server, clears the bookkeeping and reports them as unregistered. Otherwise each container's outcome is the step of the pass for it, as in `Reconcile`. Every completed pass, the empty one included, satisfies the same `CompletedPass` as `Reconcile`, order included. An interrupted pass keeps the bookkeeping. It keeps the table and order too when a base name cannot be derived. When a port stops it, the table and order are those the earlier steps left (`PortInterruptedPass`). `Valid` (tracked names = names of the last registrations, distinct) always holds |
| UpdateChecker.LowerSuffixUnchanged | src/main/java/net/uebliche/dockbridge/UpdateChecker.java:125 | `toLowerCase` leaves an `[a-z]*` suffix as it is |
| UpdateChecker.ParseVersionSplits | src/main/java/net/uebliche/dockbridge/UpdateChecker.java:119-127 | a matching version splits into a well-formed date and suffix that concatenate back to it; a non-matching string parses as (whole string, empty suffix) |
| UpdateChecker.ParseVersionOfParts | src/main/java/net/uebliche/dockbridge/UpdateChecker.java:119-127 | parsing `date + suffix` for a well-formed date and suffix gives back exactly that date and suffix |
| UpdateChecker.ParseVersionInjective | src/main/java/net/uebliche/dockbridge/UpdateChecker.java:119-127 | different strings never parse to the same parts |
| UpdateChecker.CompareVersionsOrder | src/main/java/net/uebliche/dockbridge/UpdateChecker.java:97-117 | `compareVersions` is negative exactly when the parts come first lexicographically on (date, suffix) under `compareTo`, and zero exactly for equal parts |
| UpdateChecker.CompareVersionsReflexive | src/main/java/net/uebliche/dockbridge/UpdateChecker.java:97-117 | every string compares equal to itself |
| UpdateChecker.CompareVersionsAntisymmetric | src/main/java/net/uebliche/dockbridge/UpdateChecker.java:97-117 | comparing the other way round negates the result |
| UpdateChecker.CompareVersionsZero | src/main/java/net/uebliche/dockbridge/UpdateChecker.java:97-117 | two versions compare equal exactly when they are the same string |
| UpdateChecker.CompareVersionsTransitive | src/main/java/net/uebliche/dockbridge/UpdateChecker.java:97-117 | "not newer than" is transitive |
| UpdateChecker.DateDominates | src/main/java/net/uebliche/dockbridge/UpdateChecker.java:101-104 | for well-formed versions with different dates, the order is that of the dates, whatever the suffixes |
| UpdateChecker.SuffixOrder | src/main/java/net/uebliche/dockbridge/UpdateChecker.java:106-116 | on one date, the release without a suffix is older than any suffixed one, and two suffixed releases compare by their suffixes |
| UpdateChecker.NonMatchingIsAllDate | src/main/java/net/uebliche/dockbridge/UpdateChecker.java:119-123 | two strings outside the scheme compare by plain `compareTo` |
| UpdateChecker.NewestUnique | src/main/java/net/uebliche/dockbridge/UpdateChecker.java:51-60 | a list has at most one newest candidate |
| UpdateChecker.LatestReplaced | src/main/java/net/uebliche/dockbridge/UpdateChecker.java:57-59 | replacing the kept version by a strictly newer candidate keeps it the newest of the entries scanned |
| UpdateChecker.LatestKept | src/main/java/net/uebliche/dockbridge/UpdateChecker.java:52-59 | skipping a null or blank entry, or one that is not newer, keeps the kept version the newest |
| UpdateChecker.NothingNewer | src/main/java/net/uebliche/dockbridge/UpdateChecker.java:62-65 | if the newest candidate is not newer than the running version, no candidate is |
| UpdateChecker.CheckForUpdate | src/main/java/net/uebliche/dockbridge/UpdateChecker.java:43-66 | a missing or empty list gives nothing. A result is the newest trimmed, non-blank entry of the list and is strictly newer than the running version. No result means no entry is newer than the running version |

## Left out

- Docker I/O is not modelled: `buildClient`, `initialize` and the Docker call in
  `listMatchingContainers`. The scan is a parameter.
- Logging and the summary log line's condition are not modelled. They change no state.
- The `lastScan` field is not modelled. It is set on every pass (DockerService.java:67), also
  on one that is interrupted, and read back only to report the time of the last scan
  (DockerService.java:286). Reading the clock is I/O, and nothing else in the pass depends on it.
- `fetchVersions` is not modelled. It is HTTP plus JSON parsing, and its result is a parameter:
  - `None` for a null array;
  - `None` entries for a null element or a null `version_number`.
- `DockBridgeConfig`, `DockBridgePlugin` and `DockBridgeCommand` are not part of this model:
  configuration loading, scheduling and chat output.
- The proxy's `registerServer` is an oracle: a set of refused (name, address) pairs fixed with
  the table.
- `InetSocketAddress` is reduced to its (host, port) pair. Name resolution is not modelled; only
  its port-range exception is.
- Iteration order of `HashMap.values()` and `HashSet` is not fixed:
  - `lastRegistrations` is specified as some listing of the map (`Listing`);
  - `unregisterMissing` picks its names in any order.
- `equalsIgnoreCase` and `toLowerCase` are ASCII-only here. Java folds all of Unicode; the model
  folds only A–Z.
- `Integer.parseInt` accepts only ASCII digits here. Java also accepts other Unicode decimal
  digits.
- Java strings are UTF-16 while Dafny characters are Unicode scalar values. `compareTo` agrees
  on characters of the Basic Multilingual Plane only.
- A container is never null, and neither are its id, its labels or its entries.
  - A null `names` or `ports` array is the empty sequence, since the code treats both alike.
  - A null id is not modelled. In the Java code such a container sorts last (`Comparator.nullsLast`,
    DockerService.java:82) and has the short id "unknown" (DockerService.java:221-222);
    `resolveServerName` throws for it only when it has no non-blank name label and no names
    entry (DockerService.java:322).
- The counters `registeredCount`, `updatedCount`, `unchangedCount` and the collision counter are
  `nat`. A 32-bit wrap-around would need more than 2^31 containers or names in one pass.
- Reconciler.DockerService.RefreshContainers: the properties "failed containers are absent" and
  "names are distinct" are stated under SUFFIX only. Under OVERWRITE two containers with the
  same base name overwrite each other's entry, as the code does.
- Reconciler.DockerService.RegisterContainer: "the name is in the connection order exactly once"
  holds only when the configured list had no duplicates (`WithTry` preserves that). The model
  does not assume it.
- `refreshContainers` is split into `Reconcile`, `ApplyAll`, `ApplyNext`, `ChooseFor`,
  `ApplyContainer` and `Commit`. These are modelling conveniences: they are the phases of that
  one Java method, run in the same order.
- Containers.ResolvePort and Containers.ResolveServerName carry their precedence in the lemmas
  `PortPrecedence` and `NamePrecedence`, not in their own contracts.
