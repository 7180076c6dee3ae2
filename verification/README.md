# Verified models of the nekobox algorithms

This project models the algorithms and state machines of the repository that are worth
proving something about: the speed test engine, the game catalog generator, the ruleset
cache and system proxy of the core, the UTF-8/hex encoder of the updater, the search
teaser, and version comparison with release selection. One module per component; methods
and classes where the program updates state, functions where it computes values.
`dafny verify dfyconfig.toml` checks everything.

| module | models | main results |
|---|---|---|
| `StopProtocol` | start/stop of one test direction, as a transition system with one step per lock, channel, once or wait-group action | safety of every interleaving, the exact runs that call a nil close function, no deadlock, every call of the close function ends the test |
| `WorkerAllocation` | handler registration and worker distribution in `Start` | termination, exact count, even spread |
| `UploadAccounting` | chunks, byte counters, snapshot history | bytes balance over every run; the objects refine the transition system |
| `Statistics` | `StandardDeviation`, `sampleVariance`, `pautaFilter` in 64-bit arithmetic | variance within one of the exact value, overflow bound, majority bound of the filter |
| `DomainCover`, `DomainOwnership` | `collapse_domains`, ownership while portals are merged | unique minimum cover, first claim wins over whole runs, exactly what the second collapse preserves |
| `PortRules` | port entries of `convert_rule` | emitted ports are exactly the denoted valid ones; which texts denote what |
| `VariantCoalescing`, `Grouping` | name merge and `coalesce_application_variants` | every id on exactly one card, ids and profiles exactly those of the family, and which entry a card represents |
| `Atlas` | tile allocation | service *i* has tile *i*; decoding inverts encoding; what fits |
| `UrlPath`, `RulesetCache` | `urlToPath`, lookups and `ClearRulesets` | exactly when two URLs share a file; every lookup serves its URL, exactly when no nested URL is cached |
| `SystemProxy` | proxy globals driven by RPC steps | one enabled controller over every run |
| `Utf8Hex` | `utf8Encode` to `stringToHex` | round trip on all UTF-16 strings, validity exactly without lone surrogates |
| `Teaser` | `makeTeaser` | offsets, weights, window choice, the returned string is a tagged slice of the body |
| `Versions`, `ReleaseSelection` | version order, sort, the flag-driven release loop | strict weak order, exactly which versions lie on a cycle, maximum found, asset names read back, loop equals its take-while specification |
| `Text`, `Lists`, `Numerals`, `Options` | shared helpers | split and join are inverse, decimal round trip |

## What the proofs found

Where a natural promise does not hold of the code, the code is modelled as it is, a lemma
gives an input, and another lemma gives the exact condition.

- The rate capture goroutine starts before the close function is installed. A first tick that
  reports convergence calls a nil function: `EarlyTickCrashes`, exact in `CrashIffTickBeatsInstall`.
- Lowering the thread count after registering many handlers makes `Start` launch more workers
  than threads: `LoweredThreadCountOvershoots`, exact in `ExactIff`.
- A second `UploadHandler` on a chunk records an error but does not return, so the chunk can
  deliver more than its length: `SecondHandlerOverdelivers`. By `EofExactIff` that happens
  exactly on runs that start a chunk, read from it, and start it again.
- `pautaFilter` divides by zero on one sample, and its strict comparison drops every sample
  when the integer deviation is zero: `ConstantSamplesVanish`, exact in `MajorityIff`.
- `Start` while an instance is held clears the handle and leaves the proxy enabled:
  `SecondStartOrphans`, exact per step in `OrphanedExactly`.
- A URL below another cached URL is served a path that is not its file, because `os.Stat`
  reports such paths as existing: `NestedLookupFails`, exact in `ServedIff`.
- An empty scheme makes `urlToPath` merge two URLs: `EmptySchemeCollides`. Any two URL texts
  share a file exactly as `SharedFileIff` says; for scheme://segments that is exactly when
  scheme and segments, read as one path, agree (`UrlsShareFileIff`).
- A failed download leaves the file it created, and later lookups serve it:
  `LeftoverIsServed`, correct exactly if it was complete.
- The second `collapse_domains` does not always match what was collected. A name that cleaning
  left without a dot is dropped (`DotlessDomainIsLost`), and a name such as "a.b. ", which comes
  from the raw "a.b. .", is cleaned once more and lost (`SpacedDomainIsLost`). Nothing changes
  exactly if cleaning again keeps the roots (`FinishPreservesIff`); below a single name, exactly if
  some collected name with a dot still covers it (`CollectedDomainMatchesIff`). Cleaning twice
  differs from cleaning once exactly if white space has come to an end of the name
  (`CleanTwiceIff`), so on files without white space the dot alone decides
  (`TidyFilesPreservedIff`).
- The manual service is not counted when the atlas is sized: `ManualServiceOverflows`, exact in
  `FitsIff`.
- The sort comparator agrees with itself on two names exactly if both parse and some field is a
  number in both and differs (`ComparatorConsistentIff`); on readable names, exactly if their
  tuples differ (`ReadableComparatorIff`). Otherwise it answers 1 both ways.
- "1.5.0", "2.1.0" and "x.3.0" run in a circle (`UnreadableFieldsCycle`). A version lies on a
  circle with two readable ones exactly if it parses and has a field that is not a number
  (`OnCircleIff`).

## Model

| member | source | states |
|---|---|---|
| `StopProtocol.StepKeepsInv` | core/server/speedtest/data_manager.go:204-311 | every lock, channel, once and wait-group action of every goroutine keeps the protocol invariant |
| `StopProtocol.CloserStepKeepsInv` | core/server/speedtest/data_manager.go:211-222 | each action inside the close function keeps it, for any number of concurrent callers |
| `StopProtocol.WorkerStepKeepsInv` | core/server/speedtest/data_manager.go:234-248 | each action of a worker loop keeps it, including the wait-group count |
| `StopProtocol.InvIsSafe` | core/server/speedtest/data_manager.go:204-275 | the invariant implies the safety promise |
| `StopProtocol.EveryRunIsSafe` | core/server/speedtest/data_manager.go:204-311 | in every interleaving: one send then one close of stopCapture, done closed at most once, a blocked sender has its receiver, at most one late handler call per worker, Start returns only with running false and all workers gone |
| `StopProtocol.CrashIffTickBeatsInstall` | core/server/speedtest/data_manager.go:204-211 | a nil close function is called exactly on runs where a converged tick precedes its installation |
| `StopProtocol.EarlyTickCrashes` | core/server/speedtest/data_manager.go:296-298 | the shortest such run |
| `StopProtocol.EveryCallIsMade` | core/server/speedtest/data_manager.go:224-298 | in every run that does not crash the close function is called once for each fired timer, converged tick and watcher that sees the cancelled context, and by nothing else |
| `StopProtocol.StartCanReturn` | core/server/speedtest/data_manager.go:183-275 | from every invariant state that has not crashed some continuation lets Start return; it needs no further call once one was made, and no timer once the context is cancelled |
| `StopProtocol.NoDeadlock` | core/server/speedtest/data_manager.go:183-311 | so no interleaving leads into a deadlock |
| `StopProtocol.OneCallSuffices` | core/server/speedtest/data_manager.go:204-274 | after any call of the close function, whoever made it, Start can return without another one |
| `StopProtocol.CancellationStops` | core/server/speedtest/data_manager.go:224-231 | after the context is cancelled Start can return before the timer fires |
| `StopProtocol.EveryFairRunCloses` | core/server/speedtest/data_manager.go:211-222 | under any interleaving, ten steps at most of the caller inside the once finish the close; until then it waits only for the capture callback and for readers |
| `StopProtocol.EveryFairRunReturns` | core/server/speedtest/data_manager.go:234-274 | after the close function has run, under any interleaving: Start and its workers take a bounded number of steps, and when none of them can move Start has returned |
| `StopProtocol.EverythingEnds` | core/server/speedtest/data_manager.go:204-274 | after Start has returned, the watcher and every pending call of the close function can end, without any further call |
| `WorkerAllocation.DataManager.RegisterUploadHandler` | core/server/speedtest/data_manager.go:161-166 | appends unless full, and keeps the handler count within nThread |
| `WorkerAllocation.DataManager.RegisterDownloadHandler` | core/server/speedtest/data_manager.go:168-173 | the same for downloads |
| `WorkerAllocation.DataManager.SetNThread` | core/server/speedtest/data_manager.go:348-355 | the thread count stays positive; the handler bound is not kept |
| `WorkerAllocation.DataManager.Reset` | core/server/speedtest/data_manager.go:361-366 | empties both directions and so restores the bound |
| `WorkerAllocation.DataManager.StartUpload` | core/server/speedtest/data_manager.go:183-275 | with the bound kept by registration exactly nThread workers are launched |
| `WorkerAllocation.RegistersFirstNThread` | core/server/speedtest/data_manager.go:161-173 | over any run of registrations the direction holds the first nThread handlers |
| `WorkerAllocation.Start` | core/server/speedtest/data_manager.go:183-273 | terminates for every input; total count, the main handler's share at the index requested, and counts of any two other handlers differing by at most one, earlier ones ahead |
| `WorkerAllocation.LaunchMain` | core/server/speedtest/data_manager.go:234-248 | the main handler gets its share, the others nothing |
| `WorkerAllocation.LaunchRound` | core/server/speedtest/data_manager.go:250-272 | one pass launches at least one worker, each handler but the main one at most once, earlier ones first |
| `WorkerAllocation.LaunchAux` | core/server/speedtest/data_manager.go:249-273 | the rounds end with exactly auxN workers, spread evenly |
| `WorkerAllocation.BoundedStartsExactly` | core/server/speedtest/data_manager.go:190-200 | 1 to nThread handlers give exactly nThread workers |
| `WorkerAllocation.MainShare` | core/server/speedtest/data_manager.go:190-199 | the main handler gets at least one worker, exactly one below twenty handlers, and a tenth of the handlers rounded down above |
| `WorkerAllocation.ExactIff` | core/server/speedtest/data_manager.go:190-200 | exactly which handler counts give nThread workers |
| `WorkerAllocation.LoweredThreadCountOvershoots` | core/server/speedtest/data_manager.go:190-200 | 20 handlers and one thread give two workers |
| `UploadAccounting.ReadSize` | core/server/speedtest/data_manager.go:478-487 | a read never exceeds buffer, chunk unit or remainder, and makes progress while something remains |
| `UploadAccounting.Snapshots.Push` | core/server/speedtest/data_manager.go:580-585 | keeps the newest maxSize elements in order |
| `UploadAccounting.DataManager.NewChunk` | core/server/speedtest/data_manager.go:313-320 | a fresh empty chunk, recorded at the end of the current snapshot |
| `UploadAccounting.DataManager.Reset` | core/server/speedtest/data_manager.go:361-366 | the snapshot moves to the store, both directions are replaced by fresh zero counters |
| `UploadAccounting.DataChunk.UploadHandler` | core/server/speedtest/data_manager.go:458-472 | panics exactly on sizes that are not positive, records an error exactly on reuse, and still restarts the chunk |
| `UploadAccounting.DataChunk.Read` | core/server/speedtest/data_manager.go:478-492 | end of file exactly when nothing remains; the bytes written are taken from the chunk and credited to the current direction; the rest of the buffer is untouched |
| `UploadAccounting.StepKeepsInv` | core/server/speedtest/data_manager.go:313-328 | each operation keeps the balance of counters, chunks and snapshots |
| `UploadAccounting.EveryRunBalances` | core/server/speedtest/data_manager.go:361-366 | over every run all counters sum to the bytes delivered, each chunk is in one snapshot, the store is the ten newest snapshots |
| `UploadAccounting.Execute` | core/server/speedtest/data_manager.go:313-585 | running the operations on the objects ends in the state the transition system predicts, for every run |
| `UploadAccounting.RunRead` | core/server/speedtest/data_manager.go:478-492 | a read on the objects is a read step, with its byte count and end of file |
| `UploadAccounting.RunReset` | core/server/speedtest/data_manager.go:361-366 | a reset on the objects is a reset step that adds a counter |
| `UploadAccounting.EofAfterExactlyContentLength` | core/server/speedtest/request.go:185-191 | with one UploadHandler per chunk the end is reported exactly when ContentLength bytes were delivered |
| `UploadAccounting.EofExactIff` | core/server/speedtest/data_manager.go:458-492 | at its end a chunk has delivered its length exactly if the run did not start it, read from it, and start it again |
| `UploadAccounting.SecondHandlerOverdelivers` | core/server/speedtest/data_manager.go:458-461 | 15 bytes delivered for a length of 10 |
| `Statistics.SumAndExtremes` | core/server/speedtest/data_manager.go:543-554 | the true minimum and maximum, and the exact sum when no partial sum overflows |
| `Statistics.WrapIs` | core/server/speedtest/request.go:359-369 | 64-bit results differ from exact ones by a multiple of 2^64 |
| `Statistics.TruncRemainder` | core/server/speedtest/request.go:367-371 | the remainder of a division is smaller than the divisor and has the sign of the dividend |
| `Statistics.AccumulateSquares` | core/server/speedtest/data_manager.go:556-558 | the exact scatter around the mean when nothing overflows |
| `Statistics.StandardDeviation` | core/server/speedtest/request.go:351-374 | extremes always; mean, population variance and integer root when nothing overflows |
| `Statistics.SampleVariance` | core/server/speedtest/data_manager.go:539-562 | the same with n - 1, and a division by zero exactly for one sample |
| `Statistics.PautaFilter` | core/server/speedtest/data_manager.go:518-536 | the samples closer than three deviations, in order |
| `Statistics.MeanBetween` | core/server/speedtest/request.go:367-367 | min <= mean <= max under truncating division |
| `Statistics.ScatterAroundTruncatedMean` | core/server/speedtest/request.go:367-370 | n times the accumulated squares is n*sum(v^2) - sum(v)^2 plus a square below n^2 |
| `Statistics.VarianceWithinOne` | core/server/speedtest/request.go:351-374 | the reported variance differs from the exact population variance by less than one |
| `Statistics.SampleVarianceWithin` | core/server/speedtest/data_manager.go:555-560 | the sample variance lies below the exact one by less than one, or above it by less than n / (n - 1) |
| `Statistics.SafeRangeNeverOverflows` | core/server/speedtest/request.go:356-371 | values in [0, L] with n*L^2 < 2^63 never overflow a step |
| `Statistics.FilterStrikesOut` | core/server/speedtest/data_manager.go:526-531 | the filter is an order-preserving subsequence keeping exactly the near positions |
| `Statistics.FilterKeepsMajority` | core/server/speedtest/data_manager.go:518-562 | with deviation >= 1 the d dropped samples satisfy 9*d < 4*(n-1) |
| `Statistics.MajorityIff` | core/server/speedtest/data_manager.go:518-562 | a majority survives exactly if the scatter reaches n - 1 |
| `Statistics.ZeroDeviationDropsAll` | core/server/speedtest/data_manager.go:528-528 | deviation zero drops every sample |
| `Statistics.ConstantSamplesVanish` | core/server/speedtest/data_manager.go:518-536 | two equal samples give an empty result |
| `DomainCover.ParentHasFewerDots` | script/generate_game_mod_catalog.py:322-323 | a covering entry has strictly fewer dots, so it sorts first |
| `DomainCover.CoversTransitive` | script/generate_game_mod_catalog.py:323-323 | covering is transitive |
| `DomainCover.SortByKey` | script/generate_game_mod_catalog.py:322-322 | the elements in order of dots, length and text |
| `DomainCover.CleanAll` | script/generate_game_mod_catalog.py:316-320 | the set of cleaned strings that contain a dot |
| `DomainCover.CleanedIsSlice` | script/generate_game_mod_catalog.py:316-318 | a cleaned name is a piece of the folded text; exactly white space, then "*" and "." are cut off in front, and "." and white space behind |
| `DomainCover.LexLessIs` | script/generate_game_mod_catalog.py:322-322 | the last sort key is the order of the text: the first difference decides |
| `DomainCover.CleanTwiceIff` | script/generate_game_mod_catalog.py:316-318 | cleaning a cleaned name changes it exactly if white space stands at one of its ends |
| `DomainCover.SpacelessStays` | script/generate_game_mod_catalog.py:316-318 | a text without white space is clean after one pass |
| `DomainCover.CollapseDomains` | script/generate_game_mod_catalog.py:315-326 | for every list the sorted entries that no other cleaned entry covers |
| `DomainCover.RootsMatchTheSame` | script/generate_game_mod_catalog.py:321-326 | a host is matched by the result iff by the cleaned set |
| `DomainCover.RootsIndependent` | script/generate_game_mod_catalog.py:323-325 | no result entry covers another |
| `DomainCover.RootsAreLeast` | script/generate_game_mod_catalog.py:321-326 | every covering subset of the cleaned set contains the result |
| `DomainCover.SameHostsIffSameRoots` | script/generate_game_mod_catalog.py:321-326 | the result is canonical: two sets match the same hosts iff their results agree |
| `DomainCover.SortedUnique` | script/generate_game_mod_catalog.py:322-322 | the order fixes the list once its elements are fixed |
| `DomainCover.OrderIndependent` | script/generate_game_mod_catalog.py:316-326 | input order and repetitions do not matter |
| `DomainOwnership.Catalog.ClaimNames` | script/generate_game_mod_catalog.py:745-746 | names without an owner go to the service, others keep theirs |
| `DomainOwnership.Catalog.ClaimService` | script/generate_game_mod_catalog.py:743-746 | one service claims exactly those domains of its rules that nobody owns |
| `DomainOwnership.Catalog.ClaimRules` | script/generate_game_mod_catalog.py:739-746 | every domain of a rule gets an owner, existing owners stay, and a new owner is the first service to name the domain |
| `DomainOwnership.Catalog.FindTarget` | script/generate_game_mod_catalog.py:755-782 | the service of the first candidate that names one; else that of the brand; else one new service, registered under all candidates |
| `DomainOwnership.Catalog.ClaimDomains` | script/generate_game_mod_catalog.py:783-790 | after the loop every domain has an owner, only unowned ones were given away, to the target, and its list gained exactly the unowned or own ones |
| `DomainOwnership.Catalog.AddPortal` | script/generate_game_mod_catalog.py:752-796 | owners never change; new ones are this portal's collapsed domains, all of them end owned, by the service of its first known candidate, else of its brand, else by a new one; only its cleaned names are collected |
| `DomainOwnership.Catalog.AddFiles` | script/generate_game_mod_catalog.py:748-796 | over all files: the owner table only grows, so earlier files win, every collapsed portal domain ends with an owner that holds it, and only names from the files are collected |
| `DomainOwnership.Catalog.Finish` | script/generate_game_mod_catalog.py:798-812 | each service gets one rule with the collapsed collected domains, or none |
| `DomainOwnership.Catalog.Build` | script/generate_game_mod_catalog.py:736-812 | end to end: on files without white space every host below a collapsed portal domain with a dot is matched by some service, or the domain is named by its rules |
| `DomainOwnership.CollectKeepsConsistent` | script/generate_game_mod_catalog.py:785-790 | collecting keeps owner table and lists pointing at each other |
| `DomainOwnership.SetDefaultsKeepsConsistent` | script/generate_game_mod_catalog.py:743-746 | claiming by rules keeps it too |
| `DomainOwnership.Disjoint` | script/generate_game_mod_catalog.py:783-790 | lists of distinct services are disjoint |
| `DomainOwnership.CollectedDomainsMatch` | script/generate_game_mod_catalog.py:798-809 | a host below a collected domain that cleaning leaves alone is matched by the finished rules |
| `DomainOwnership.CollectedDomainMatchesIff` | script/generate_game_mod_catalog.py:798-809 | everything below a name stays matched iff some collected name with a dot covers it after cleaning |
| `DomainOwnership.FinishPreservesIff` | script/generate_game_mod_catalog.py:798-809 | for any collected names: the added rule matches the same hosts iff cleaning them again keeps their roots |
| `DomainOwnership.CleanNamesPreservedIff` | script/generate_game_mod_catalog.py:798-809 | for names that cleaning leaves alone: iff all of them contain a dot |
| `DomainOwnership.TidyFilesPreservedIff` | script/generate_game_mod_catalog.py:748-809 | the same for everything collected from files without white space |
| `DomainOwnership.DotlessDomainIsLost` | script/generate_game_mod_catalog.py:799-800 | a collected name without a dot adds no rule |
| `DomainOwnership.SpacedDomainIsLost` | script/generate_game_mod_catalog.py:316-320 | "a.b. ." is collected as "a.b. ", finished as "a.b", and no longer matched |
| `PortRules.ReadSpelled` | script/generate_game_mod_catalog.py:458-477 | numbers, spans and spans with an excluded port are read back from their spelling |
| `PortRules.MatchSpanIff` | script/generate_game_mod_catalog.py:462-463 | a span is read exactly if the text starts with a number, a dash and a number, with only white space between |
| `PortRules.ExceptAtIff` | script/generate_game_mod_catalog.py:467-467 | the word "except" in any mixture of cases, not preceded by a word character |
| `PortRules.SearchExceptIff` | script/generate_game_mod_catalog.py:467-467 | an exclusion is read exactly if some number stands behind the first such word |
| `Text.TrimIs` | script/generate_game_mod_catalog.py:459-459 | white space, and nothing else, goes from both ends |
| `PortRules.EntryIs` | script/generate_game_mod_catalog.py:458-477 | which texts are numbers, spans, spans with an excluded port, or malformed |
| `PortRules.EntryNumbers` | script/generate_game_mod_catalog.py:463-474 | the bounds and the excluded port are the numbers that stand in the text |
| `PortRules.RangeTextMeaning` | script/generate_game_mod_catalog.py:455-456 | a written range stands for both bounds inclusive |
| `PortRules.AppendPortSpan` | script/generate_game_mod_catalog.py:447-456 | adds exactly the valid ports of the span |
| `PortRules.AppendEntry` | script/generate_game_mod_catalog.py:458-477 | adds exactly the valid ports the entry denotes |
| `PortRules.CompilePorts` | script/generate_game_mod_catalog.py:444-481 | a port is emitted iff it is in 1..65535 and some entry denotes it; no repeated values |
| `VariantCoalescing.ApplicationFamily` | script/generate_game_mod_catalog.py:208-212 | the loop computes the family |
| `VariantCoalescing.TrimDropsSuffixes` | script/generate_game_mod_catalog.py:210-211 | exactly the trailing suffixes go, one token always stays |
| `VariantCoalescing.FamilyIdempotent` | script/generate_game_mod_catalog.py:153-154 | the family of a family is itself |
| `VariantCoalescing.TokensAre` | script/generate_game_mod_catalog.py:153-154 | tokens end exactly at characters that are no letters or digits |
| `VariantCoalescing.FamilyTokens` | script/generate_game_mod_catalog.py:208-212 | a family is made of the leading tokens of the folded name; what is left out are suffixes |
| `VariantCoalescing.MergeNames` | script/generate_game_mod_catalog.py:532-567 | the dictionary holds the groups of equal case-folded names, each absorbed in order |
| `VariantCoalescing.MergeKeepsIdsApart` | script/generate_game_mod_catalog.py:541-567 | distinct ids end in distinct entries, each entry's id among its own |
| `VariantCoalescing.MergedEntryLeader` | script/generate_game_mod_catalog.py:541-562 | an entry takes id and name from the first of its applications that is not technical, else from the very first |
| `VariantCoalescing.PrimaryIsFirstBest` | script/generate_game_mod_catalog.py:226-233 | the primary variant is the first that no other is preferred to |
| `VariantCoalescing.ChoosePrimary` | script/generate_game_mod_catalog.py:226-233 | the scan finds it |
| `VariantCoalescing.GroupVariants` | script/generate_game_mod_catalog.py:218-220 | variants grouped by family in order of first occurrence |
| `VariantCoalescing.Combine` | script/generate_game_mod_catalog.py:234-265 | the card of one family |
| `VariantCoalescing.CoalesceApplicationVariants` | script/generate_game_mod_catalog.py:215-267 | one card per family, in order |
| `VariantCoalescing.CardCarries` | script/generate_game_mod_catalog.py:237-255 | a card carries each id of its variants once and the union of their profiles |
| `VariantCoalescing.CardsFollowEntries` | script/generate_game_mod_catalog.py:215-267 | a card's ids and profiles are those of exactly the entries of its family, its id belongs to one of them |
| `VariantCoalescing.CardStandsFor` | script/generate_game_mod_catalog.py:226-236 | the card takes id and name from an entry with the family's own name if there is one, among those from the shortest name, then the smallest number as id, then the first |
| `VariantCoalescing.CardNames` | script/generate_game_mod_catalog.py:256-265 | a card is found by the names of its entries, the family and the name it shows, and by nothing else |
| `VariantCoalescing.IdOnExactlyOneCard` | script/generate_game_mod_catalog.py:215-267 | every id is on exactly one card, once, and families are pairwise distinct |
| `VariantCoalescing.IdentityConserved` | script/generate_game_mod_catalog.py:532-623 | through merge, restored profiles and coalescing, every icon-bearing application's id is on exactly one card |
| `VariantCoalescing.MergedEntryProfiles` | script/generate_game_mod_catalog.py:563-563 | an entry has exactly the profiles of the applications with its name |
| `VariantCoalescing.MergedEntryNames` | script/generate_game_mod_catalog.py:567-567 | and exactly their names as variant names |
| `VariantCoalescing.CardIdsAre` | script/generate_game_mod_catalog.py:532-623 | a card carries the ids of exactly the icon-bearing applications of its family |
| `VariantCoalescing.CardProfilesAre` | script/generate_game_mod_catalog.py:532-623 | a card carries the profiles of exactly those applications, and the restored ones |
| `VariantCoalescing.BuildCards` | script/generate_game_mod_catalog.py:532-623 | the whole pass: each id on one card, ids and profiles of a card exactly those of its family plus the restored profiles, families distinct, id and name those of the entry that stands for the family |
| `VariantCoalescing.BuildCatalog` | script/generate_game_mod_catalog.py:111-142 | the same with the suffix table of the catalog |
| `Grouping.GroupByPartitions` | script/generate_game_mod_catalog.py:218-220 | groups have distinct keys and hold exactly the items of their key |
| `Grouping.GroupsInOrder` | script/generate_game_mod_catalog.py:218-220 | groups stand in the order in which their keys first occur |
| `Lists.UniqueIsOrdered` | script/generate_game_mod_catalog.py:145-146 | duplicates go, first occurrences stay in order |
| `Atlas.DecodeTile` | script/generate_game_mod_catalog.py:820-825 | decoding a rectangle inverts encoding an index |
| `Atlas.TilesDisjoint` | script/generate_game_mod_catalog.py:824-834 | two tiles share a pixel only if they are the same |
| `Atlas.PlaceExported` | script/generate_game_mod_catalog.py:661-677 | exported service i gets tile i |
| `Atlas.LastIndex` | script/generate_game_mod_catalog.py:820-823 | the largest index in use, or -1 |
| `Atlas.PlaceRest` | script/generate_game_mod_catalog.py:816-834 | exported, manual and portal services together use tiles 0 to n-1, each once |
| `Atlas.CropContainsTiles` | script/generate_game_mod_catalog.py:839-841 | the crop contains every tile and is no higher than the last one needs |
| `Atlas.FitsIff` | script/generate_game_mod_catalog.py:637-639 | exactly when all tiles lie inside the allocated height |
| `Atlas.CountedServicesFit` | script/generate_game_mod_catalog.py:637-639 | no more services than source entries and portals is enough |
| `Atlas.ManualServiceOverflows` | script/generate_game_mod_catalog.py:704-734 | 28 exported services and the manual one do not fit |
| `UrlPath.PassesAreSubstitution` | core/server/internal/utils.go:166-174 | the nine passes equal one character-wise substitution |
| `UrlPath.UnescapeEscape` | core/server/internal/utils.go:166-174 | a decoder inverts it for every string |
| `UrlPath.CleanIdempotent` | core/server/internal/utils.go:175-176 | cleaning a cleaned path changes nothing |
| `UrlPath.ParentSteps` | core/server/internal/utils.go:175-176 | a component and ".." cancel, ".." stays at the root and is kept in front of a relative path, "." and empty components go |
| `UrlPath.ReadBack` | core/server/internal/utils.go:175-176 | the components of a rendered path are read back |
| `UrlPath.CleanAllEscape` | core/server/internal/utils.go:166-175 | cleaning and escaping commute |
| `UrlPath.UrlToPathIsPlace` | core/server/internal/utils.go:164-178 | where any URL text is cached: its components, escaped one by one, behind the directory |
| `UrlPath.SharedFileIff` | core/server/internal/utils.go:164-178 | any two URL texts share a file iff these places agree |
| `UrlPath.SharedFileIffSameFlat` | core/server/internal/utils.go:164-178 | for URLs that do not climb with "..": iff they name the same components, so escaping merges nothing |
| `UrlPath.UrlsShareFileIff` | core/server/internal/utils.go:164-178 | for any scheme but "..": iff scheme and segments, read as one path, agree |
| `UrlPath.ParentSchemePlace` | core/server/internal/utils.go:175-176 | with the scheme ".." the file moves up by one component of the directory |
| `UrlPath.UrlToPathIs` | core/server/internal/utils.go:164-178 | the cache file of scheme://segments is the directory, the escaped scheme and the escaped segments |
| `UrlPath.UrlToPathInjective` | core/server/internal/utils.go:164-178 | a corollary: different well-formed URLs have different cache files |
| `UrlPath.EmptySchemeCollides` | core/server/internal/utils.go:165-165 | with an empty scheme "://a/b" shares the file of "a://b" |
| `RulesetCache.Cache.CacheHttp` | core/server/internal/utils.go:180-210 | empty URL, hit, download and fatal cases with the resulting file store, also the file a failed download leaves |
| `RulesetCache.Cache.ClearRulesets` | core/server/internal/utils.go:225-236 | the four scheme directories are removed |
| `RulesetCache.Cache.Serve` | core/server/internal/utils.go:180-236 | any sequence of calls on the store follows the run of the model |
| `RulesetCache.StepKeepsInv` | core/server/internal/utils.go:180-236 | every file holds the body of the URL it is named after and no file is below another |
| `RulesetCache.ServedIff` | core/server/internal/utils.go:180-210 | after any run a lookup serves its URL's body exactly when no cached URL is nested with it |
| `RulesetCache.EveryLookupServesItsUrl` | core/server/internal/utils.go:180-210 | on every run without nested URLs the returned path holds that URL's body |
| `RulesetCache.NestedFiles` | core/server/internal/utils.go:164-178 | URLs are nested exactly if one cache file lies below the other |
| `RulesetCache.NestedLookupFails` | core/server/internal/utils.go:180-183 | a nested lookup is served something else |
| `RulesetCache.LeftoverIsServed` | core/server/internal/utils.go:95-161 | a file left by a failed download is served later, correctly iff it was complete |
| `RulesetCache.ClearIs` | core/server/internal/utils.go:225-236 | clearing keeps exactly the files outside the four directories |
| `RulesetCache.ClearedUrlMisses` | core/server/internal/utils.go:225-236 | after a clear every http, https, ftp and ftps URL misses, on every run |
| `SystemProxy.Globals.constructor` | core/server/internal/utils.go:33-44 | no instance, no controller, nothing recorded |
| `SystemProxy.Globals.ResetSystemProxy` | core/server/internal/utils.go:49-54 | disables the current controller if it is enabled |
| `SystemProxy.Globals.SetSystemProxy` | core/server/internal/utils.go:56-73 | the new globals, in each of its branches |
| `SystemProxy.Globals.Start` | core/server/server.go:67-140 | holds an instance after success, none after any error |
| `SystemProxy.Globals.Stop` | core/server/server.go:172-205 | disables the proxy and drops the instance |
| `SystemProxy.Globals.EnableSystemProxy` | core/server/server.go:142-155 | an enable step with the port cut to 16 bits |
| `SystemProxy.Globals.DisableSystemProxy` | core/server/server.go:157-170 | a disable step |
| `SystemProxy.Globals.Serve` | core/server/server.go:67-205 | any sequence of requests and cancellations follows the run of the model |
| `SystemProxy.StepKeepsSingleProxy` | core/server/internal/utils.go:49-73 | each step keeps at most one enabled controller: the current one, built for the recorded endpoint |
| `SystemProxy.EnableTurnsOn` | core/server/internal/utils.go:56-73 | with an instance held a working Enable leaves the proxy on for the requested endpoint, also after a Disable |
| `SystemProxy.EnableEnablesNothingElse` | core/server/internal/utils.go:56-73 | without an instance nothing changes; a failing Enable enables nothing |
| `SystemProxy.OffIsOff` | core/server/server.go:157-200 | Disable, Stop and a cancelled context leave no controller enabled |
| `SystemProxy.EveryRunHasSingleProxy` | core/server/server.go:67-205 | so over every run |
| `SystemProxy.OrphanedExactly` | core/server/server.go:71-89 | a step leaves an enabled proxy without instance exactly if Start meets a running instance with the proxy on |
| `SystemProxy.EnabledImpliesHeld` | core/server/server.go:67-205 | on runs that start only when idle, enabled implies an instance |
| `SystemProxy.SecondStartOrphans` | core/server/server.go:86-89 | a run that leaves such a proxy |
| `Utf8Hex.PushPoint` | res/updater.js:106-130 | appends the encoding of one code point |
| `Utf8Hex.Utf8Encode` | res/updater.js:96-134 | the loop encodes the string code point by code point |
| `Utf8Hex.CustomPadStart` | res/updater.js:136-145 | the string behind exactly the missing number of repeated pad characters |
| `Utf8Hex.Utf8EncodeHex` | res/updater.js:147-157 | two hexadecimal digits per byte, in order |
| `Utf8Hex.StringToHex` | res/updater.js:159-161 | the same, a missing value counting as empty |
| `Utf8Hex.DecodeEncodePoint` | res/updater.js:106-130 | each code point is recovered from its byte group |
| `Utf8Hex.RoundTrip` | res/updater.js:96-134 | every UTF-16 string, lone surrogates included, is recovered from its bytes |
| `Utf8Hex.ValidIff` | res/updater.js:96-134 | the bytes are UTF-8 as RFC 3629 defines it exactly when no surrogate stands alone |
| `Utf8Hex.UnhexHex` | res/updater.js:147-157 | two digits per byte, and the digits give the bytes back |
| `Utf8Hex.StringToHexInjective` | res/updater.js:159-161 | different strings have different hexadecimal forms |
| `Teaser.CollectWords` | pages/static/goyo.js:32-51 | the weighted words of one sentence, the index behind it, and whether a term was found |
| `Teaser.CollectAll` | pages/static/goyo.js:31-54 | the same over all sentences |
| `Teaser.Collect` | pages/static/goyo.js:25-54 | the same for a text |
| `Teaser.WeighIs` | pages/static/goyo.js:29-54 | the words are the nonempty pieces between blanks, sentence by sentence; 40 for words that start with a term, else 8 for the first word of a sentence, else 2 |
| `Text.SplitStrPieces` | pages/static/goyo.js:29-29 | no sentence contains the separator |
| `Teaser.OffsetsLocateWords` | pages/static/goyo.js:29-54 | each recorded offset locates its word in the lower-cased text, in order |
| `Teaser.SlidingWindow` | pages/static/goyo.js:60-72 | each window value is the direct sum of its weights |
| `Teaser.ChooseWindow` | pages/static/goyo.js:74-83 | the last window of greatest weight when a term was found, else the first |
| `Teaser.Cut` | pages/static/goyo.js:85-104 | the pieces of the window, term words in bold, ellipsis last |
| `Teaser.MakeTeaser` | pages/static/goyo.js:16-106 | the body if it has no words; else, for the chosen window, the text since the word before and the word, term words between "<b>" and "</b>", and an ellipsis |
| `Teaser.TeaserIsSlice` | pages/static/goyo.js:85-105 | when lower-casing keeps the length: the same pieces without tags are exactly the body from the first to the last chosen word |
| `Versions.ParseReadsBack` | res/public/check_new_release.js:23-36 | X.Y.Z, X.Y.Z-stage.N and X.Y.Z.W are read back to their tuple |
| `Versions.ParseReadsAny` | res/public/check_new_release.js:23-36 | X-Y.Z.T is read back with any signs behind the first field |
| `Versions.ParseIntIs` | res/public/check_new_release.js:26-26 | white space, a sign and digits are read, the rest is ignored, and without digits there is no number |
| `Versions.ExtraPartsIgnored` | res/public/check_new_release.js:27-33 | parts behind a complete tail do not count |
| `Versions.MissingNumberIsZero` | res/public/check_new_release.js:28-30 | a stage without a readable number counts as number 0 |
| `Versions.UnreadableRevisionIsZero` | res/public/check_new_release.js:31-33 | a fourth part that is neither stage nor number counts as revision 0 |
| `Versions.TailsOrder` | res/public/check_new_release.js:21-36 | behind one base: pre-releases by stage and number, then the stable version, then its revisions |
| `Versions.CompareFields` | res/public/check_new_release.js:42-45 | the early-exit loop decides the field comparison |
| `Versions.IsNewerVersion` | res/public/check_new_release.js:38-47 | unreadable versions are never newer, others by their fields |
| `Versions.NewerIsLex` | res/public/check_new_release.js:38-47 | on readable versions this is the lexicographic order of the tuples |
| `Versions.NewerIsStrictWeakOrder` | res/public/check_new_release.js:38-47 | a strict weak order whose ties are exactly equal tuples |
| `Versions.UnreadableFieldsCycle` | res/public/check_new_release.js:42-45 | 1.5.0, 2.1.0 and x.3.0 are each newer than the one before, in a circle |
| `Versions.OnCircleIff` | res/public/check_new_release.js:23-47 | a version lies on a circle with two readable ones iff it parses and a field is not a number |
| `Versions.ComparatorConsistentIff` | res/public/check_new_release.js:88-95 | on any two names the comparator agrees with itself iff both parse and a field that is a number in both differs |
| `Versions.ReadableComparatorIff` | res/public/check_new_release.js:88-95 | on readable names: iff their tuples differ |
| `Versions.DistinguishableIsTotal` | res/public/check_new_release.js:88-95 | on lists whose distinct names have distinct tuples it is a consistent total order |
| `Versions.LastIsNewest` | res/public/check_new_release.js:88-98 | whatever algorithm sorts, the last element is one that no other is newer than |
| `Versions.SortVersions` | res/public/check_new_release.js:88-95 | a permutation, sorted whenever the comparator is a total order |
| `Versions.LatestVersion` | res/public/check_new_release.js:83-98 | "0.0.0" without versions, else a listed version that no other is newer than |
| `ReleaseSelection.FindAsset` | res/public/check_new_release.js:189-216 | the first asset that is acceptable, none exactly if no asset is |
| `ReleaseSelection.NameWithoutDash` | res/public/check_new_release.js:137-140 | a name without a dash carries no version |
| `ReleaseSelection.NameWithVersion` | res/public/check_new_release.js:142-142 | the part behind the first dash is the version |
| `ReleaseSelection.NameWithThirdPart` | res/public/check_new_release.js:142-148 | a third part belongs to the version exactly if it contains beta, alpha or rc |
| `ReleaseSelection.NameReadsBack` | res/public/check_new_release.js:137-148 | an asset named after X.Y.Z, X.Y.Z-stage.N or X.Y.Z.W has the tuple of that version |
| `ReleaseSelection.NamedAssetIsNewerIff` | res/public/check_new_release.js:128-151 | such an asset is newer than a reference exactly if its tuple is greater |
| `ReleaseSelection.BlankReference` | res/public/check_new_release.js:128-140 | a blank reference is older than everything; otherwise an asset without a version is not newer |
| `ReleaseSelection.SelectReleases` | res/public/check_new_release.js:182-222 | the flag-driven loop collects the first candidate and, only if it is newer, the run of newer candidates behind it |
| `ReleaseSelection.SelectedIsMaximalRun` | res/public/check_new_release.js:182-222 | that selection is the longest such prefix of the candidates |
| `ReleaseSelection.CandidatesAreAcceptable` | res/public/check_new_release.js:183-194 | candidates are considered releases with an acceptable asset of their own |
| `ReleaseSelection.CandidatesAre` | res/public/check_new_release.js:182-195 | the candidates are all qualifying releases in order, each with its first suitable asset |
| `ReleaseSelection.OfferedIsNewer` | res/public/check_new_release.js:128-151 | an offered asset is for this platform, strictly newer than the current version, not newer than the bound, and stable unless betas are allowed |
| `ReleaseSelection.OfferedTupleIsGreater` | res/public/check_new_release.js:128-151 | with versions in the written forms the first candidate counts as newer exactly if its tuple is greater than the installed one |
| `ReleaseSelection.CandidatesWithinBound` | res/public/check_new_release.js:192-194 | and no candidate has a tuple above the bound |

## Left out

- HTTP, ping, file and process calls: a download is a map from URL to body, a handler call is one step that returns.
- The Welford and EWMA estimator: whether a tick reports convergence is an arbitrary boolean.
- Floating point: the main load factor 0.1 * n is n / 10 rounded down, `math.Sqrt` is the integer root, and the comparison in the filter is on exact integers.
- Reads of the running flag inside `DownloadHandler`, writer preference of the read-write lock (more interleavings are allowed than Go permits), a close function left over from an earlier `Start`, and both directions active at once.
- Execute: does not cover runs in which a size that is not positive makes UploadHandler panic, because a panic ends the run.
- Data races between concurrent RPC calls (steps are atomic), the extra process, and failing creation or disabling of a controller.
- Windows path rules.
- Rates, durations, unit formatting, `Latest`, `All` and `Clean` of the snapshot store: easy members.
- The other fields of `convert_rule` (domains, networks, process names, network), and digits or letters outside ASCII in port entries.
- Display names, brands and match candidates of portals, categories, restoration of profiles by executable name (an arbitrary list here), image drawing, the final sort of the services, command line.
- Integer precision of JavaScript numbers in `parseInt`, the composed release note, dialogs and downloads.
- Case folding, lower-casing, white space and word characters are Unicode tables and enter as parameters; premises about them are stated where needed.
- The user interface, translations, installers, platform elevation and scheduled tasks.
