# A verified model of the VyOS renderer and apply engine

The repository turns a controller payload into VyOS `set` commands and applies such
commands to a router in one transaction. This project models the three parts of it
that carry its guarantees, and proves them.

* **The apply transaction.** `Transaction` is one run of the default executor as a
  small-step machine: lock, begin, deletes, sets, commit, save, discard, close,
  release. Every call may fail, and cancellation may arrive before every call.
  `RunProperties` proves what every run keeps, `Concurrency` what any number of
  interleaved runs keep, and `Reconcile` what plans of the default policy do to the
  device. `StaleSessions` has the executions in which a session left behind does harm.
  `Executor` is the same executor as code, over a `Device` object that holds
  the world and the session; it is proved to do exactly the steps of the machine and
  to return the machine's result. `Effects` says what one execution does to the active
  configuration, whatever world it meets. `Outputs` says what of the device's output is
  reported. `Engine` puts planning and execution together.
* **Normalization.** `Interfaces`, `ServiceLans` and `Nat` turn decoded records into
  the data that is printed. `Netip` and `Ipv4` hold the address arithmetic: prefixes
  of section 3.1 of RFC 4632 and the directed broadcast address of section 3.2.1.3
  of RFC 1122. `Sections`, `Lans` and `LanErrors` say in terms of the payload alone which
  entries are accepted, what becomes of every field, and what is reported otherwise.
* **The text bridge.** `Templates` prints that data, `Parser` validates text,
  `Tokenizer` and `Runner` split it once more before it is run. `RoundTrip`,
  `Rendering`, `ReadBack`, `VlanMembership` and `Normalization` prove that what is
  printed is accepted and loses nothing, and that what is accepted is what is run.
  `Grammar` says what a command line is, `Allowlist` and `CommandText` which lines
  and texts are accepted, `NothingToRender` which payloads give a text at all,
  `TemplateText` what the text of every line is, `LineOrder` in which order the lines
  come, and `ReadAll` what a device learns from all of them.
  `EndToEnd` joins the three parts: from a payload to the active configuration.
  `Payloads` has small payloads whose normalization is known. Among them are ones for
  which normalization leaves a choice (`Ties`), for which the rendered text is refused
  (`UncleanName`), and whose bridge is not read back (`SharedVlans`).

`Text`, `Decimal`, `Sorting`, `Validate`, `RenderData` and `Config` are the vocabulary:
Go's string functions, decimal numbers, the contract of Go's sorting functions,
character checks, the records, and configurations as finite sets of token paths.

## What is assumed of the environment

* A failed commit leaves the active configuration unchanged.
* An exclusive `flock` is an atomic test-and-set. It is given back by the unlock or,
  if that fails, possibly by closing the file.
* A delete that reports a missing node changes nothing, and reports it only if
  nothing is under the deleted path (`Concurrency.Honest`).
* `set` adds its path. It displaces at most siblings of the path's last token, below
  nodes that hold one value only. Which nodes these are is a parameter, the `Schema`.
* All runs of one process share one session, named by the process id. A session that
  was not torn down may be found again, with its candidate, by the next begin.
* A begin that fails changes nothing, and nobody else edits the configuration.
* A failed delete, set or discard may leave any candidate behind.
* While a run waits for the lock, others may change anything.

Two properties need more: serializability, and the frame of unmanaged paths in
interleaved runs. Both hold provided that a teardown never fails while its candidate
still holds changes (`Concurrency.CleansUp`). Without that assumption both fail, for
plans that the planner builds (`StaleSessions.StaleCandidate` and
`StaleSessions.FrameBroken`), and both are decided by a condition on the candidate and
the active configuration at every commit (`Concurrency.SerializableExactly` and
`Reconcile.FrameExactly`). The frame needs no cleanup at all if failing calls leave the
unmanaged part of the candidate alone (`Reconcile.TameDevicesFrame`).
`Concurrency.LastAppliedWins` and `Reconcile.ManagedAlwaysReconciled` hold without any
such assumption.

## Where the code does not do what one would expect

* A plan without commit is reported as applied although nothing was committed, unless
  the guards refuse one of its commands (`RunProperties.TruthfulExactly`). Prepared
  plans always commit (apply/planner.go:27), so the results about runs speak of such
  plans.
* A lease-time text with a large negative number can be accepted as a positive lease
  time, because the overflow guard bounds the product only from above
  (`ServiceLans.NegativeLeaseAccepted`). An accepted text means what it says exactly
  if its number is positive (`ServiceLans.LeaseTimeExact`).
* An interface name may contain characters that the parser of the apply engine
  forbids. Rendered text is accepted exactly if no interface that is rendered has one
  in its name (`Normalization.RendererOutputIsApplyInput`); `UncleanName.Refused` is a
  payload with one.
* The order of VIFs that agree in id, description and joined members is up to the
  sorting algorithm. The section is determined by the payload exactly if no two
  different VIFs tie in this way (`Ties.SectionDetermined`); `Ties.Undetermined` is a
  payload with two results.
* VIFs of one id share their membership on the device. A bridge is stated completely by
  its lines exactly if VIFs of one id have the same members
  (`VlanMembership.BridgeRecovered`); `SharedVlans.Unrecovered` is a payload whose bridge
  is not.
* Ethernet descriptions are only ever added or displaced. A description of an interface
  that a payload no longer names stays on the device
  (`Reconcile.DescriptionForgotten`).

## Model

| member | source | states |
|---|---|---|
| RunProperties.RunLanguage | apply/default_executor.go:49-187 | the calls of a complete run: lock, begin, a prefix of the deletes and then of the sets, at most one commit, a save only after a commit; after a begin exactly one close and one release, and exactly one discard unless the run committed, then none |
| RunProperties.FirstFailureDecides | apply/default_executor.go:65-113 | the error is that of the first failing call; only discards, closes and releases are ever appended to it, and a deferred discard always finds an earlier error, so the branch that makes a failed discard the error is unreachable |
| RunProperties.SuccessMeans | apply/default_executor.go:115-148 | no error if and only if every call succeeded or deleted a missing node |
| RunProperties.FlagsTruthful | apply/default_executor.go:150-186 | for plans that commit, Applied if and only if a commit succeeded; Saved if and only if a save succeeded, and then Applied and requested |
| RunProperties.AppliedWithoutCommit | apply/default_executor.go:150-167 | every plan without commit whose commands the guards let pass has a run that is reported applied with no commit among its calls |
| RunProperties.TruthfulExactly | apply/default_executor.go:150-167 | Applied tells the truth about the commit in every run of a plan if and only if the plan commits or the guards refuse one of its commands |
| RunProperties.StepKeeps | apply/default_executor.go:49-187 | every step, in whatever world and with whatever answer, keeps the shape of the calls, the flags, and the error as a function of the calls |
| RunProperties.CanceledStartsNothing | apply/default_executor.go:246-256 | once the context is canceled no delete, set, commit or save is started any more: what a step logs is the poll that noticed, or cleanup |
| Concurrency.MutualExclusion | apply/default_executor.go:268-303 | in every interleaving of any number of runs at most one is between lock and release |
| Concurrency.Serializable | apply/default_executor.go:61-113 | if no teardown fails while its candidate holds changes, the active configuration is what the plans of the applied runs produce one after the other in commit order; each applied run commits once and no other run does |
| Concurrency.SerializableExactly | apply/default_executor.go:61-165 | with no assumption on cleanups: the active configuration is always that of the serial execution if and only if at every commit the candidate the session began with agreed with the active configuration on the surviving paths the plan does not set itself |
| Concurrency.LastAppliedWins | apply/default_executor.go:150-165 | even if cleanups fail, the active configuration is the first one or the latest applied plan's effect on the candidate its session began with |
| Concurrency.CommitExact | apply/default_executor.go:150-165 | a commit has the effect of its plan on the active configuration if and only if the candidate its session began with agrees with it on the surviving paths the plan does not set itself |
| StaleSessions.Takeover | internal/vyos/runner.go:87-87 | for any two committing plans: a run whose last set, discard and close fail leaves its candidate to the next run, which commits it with its own changes |
| StaleSessions.StaleCandidate | internal/vyos/runner.go:87-87 | two plans of the default policy: the first sets a description and fails, the second commits that description although only the second was applied |
| StaleSessions.FrameBroken | internal/vyos/runner.go:87-87 | two plans of the default policy, with honest deletes: the failing calls of the first leave an unmanaged path in the candidate, and the second commits it |
| Reconcile.AcceptedInPlace | apply/parser.go:100-221 | every accepted set path lies strictly below a managed root or below an ethernet description |
| Reconcile.Reconciles | apply/policy.go:44-63 | deleting the managed roots and setting paths in place leaves the managed subtrees a function of the set paths alone, and everything outside the managed roots and the ethernet descriptions as it was |
| Reconcile.DefaultPlanReconciles | apply/planner.go:9-30 | the same for every plan prepared under the default policy and every prior configuration, and applying it again changes nothing |
| Reconcile.DescriptionsExactly | apply/parser.go:100-221 | after such a plan an ethernet description is there if and only if the sets produce it, or it was there and no set displaces it |
| Reconcile.DescriptionForgotten | apply/policy.go:44-63 | whatever the schema, the description of an interface that no set names stays |
| Reconcile.ManagedAlwaysReconciled | apply/default_executor.go:115-165 | in every interleaving, failed cleanups included, the managed subtrees are what the set commands of the latest applied run produce |
| Reconcile.UnmanagedNeverTouched | apply/default_executor.go:115-165 | in every interleaving in which no teardown fails while its candidate holds changes, paths outside the managed roots and the ethernet descriptions never change |
| Reconcile.FrameExactly | apply/default_executor.go:115-165 | with no assumption on cleanups: these paths are always those of the first configuration if and only if at every commit the candidate the session began with agreed with the active configuration on them |
| Reconcile.TameDevicesFrame | apply/default_executor.go:115-165 | with no assumption on cleanups: they never change if failing deletes, sets and discards leave them alone in the candidate |
| Config.DeletePhase | apply/default_executor.go:115-132 | the delete phase removes exactly what lies under some root, so duplicate and nested roots do no harm |
| Config.DeleteOrderIrrelevant | apply/policy.go:57-63 | the configuration after the deletes does not depend on the order of the roots |
| Config.ReplaceIdempotent | apply/default_executor.go:115-148 | applying the same deletes and sets twice is applying them once |
| Config.ReplaceAgrees | apply/default_executor.go:115-148 | two configurations lead to the same result if and only if they agree on the surviving paths that are not set anyway |
| Config.ReplaceExactly | apply/default_executor.go:115-148 | a path is there after a plan if and only if one of its sets puts it there and no later one displaces it, or it was there, lies under no root, and no set displaces it |
| Executor.Execute | apply/default_executor.go:49-187 | unless the lock is still awaited, the execution is a complete run of the machine, and the returned result and error are the machine's |
| Executor.Lock | apply/default_executor.go:268-303 | the retry loop ends holding the lock at the begin of a session, or with an executor_failed run, or has only waited |
| Executor.DeletePhase | apply/default_executor.go:115-132 | the delete loop does the machine's delete steps and reports the joined outputs, and the next phase follows if and only if nothing is canceled and every delete reaches the device and succeeds there or fails with an output that tells of a missing node |
| Executor.SetPhase | apply/default_executor.go:134-148 | the set loop does the machine's set steps and reports the joined outputs |
| Executor.CommitPhase | apply/default_executor.go:150-163 | the commit is the machine's commit step, and its failure leaves the run to the right discard |
| Executor.SavePhase | apply/default_executor.go:171-186 | the save is the machine's save step; Applied survives its failure |
| Executor.CleanUp | apply/default_executor.go:82-113 | the deferred cleanup is the machine's discard, if one is due, and close, and rewrites result and error as the machine does |
| Executor.DiscardAfterFailure | apply/default_executor.go:189-202 | an explicit discard keeps the primary code and puts its own failure into the discard output |
| Executor.Device.Delete | internal/vyos/runner.go:134-143 | a delete changes the candidate only if the guards let the command pass, and logs the classified answer |
| Executor.Device.Set | internal/vyos/runner.go:145-154 | the same for a set |
| Executor.Device.TryLock | apply/default_executor.go:281-301 | one attempt takes a free lock, fails, waits, or gives up when the context is done |
| Histories.MissingExactly | apply/default_executor.go:208-213 | an output is taken for a missing node if and only if some slice of it reads, in lower case, "nothing to delete" or "does not exist" |
| Histories.ClassifyExactly | apply/default_executor.go:121-131 | a delete counts as one of a missing node if and only if it failed with such an output; any other answer keeps its own kind |
| Histories.MissingAnywhere | apply/default_executor.go:208-213 | a failed delete whose output has one of these phrases, in whatever capitals and whatever stands around it, is one of a missing node |
| Histories.HistoryBehaves | apply/default_executor.go:49-187 | an execution is a behaviour of the machine, so that all results about runs hold of it |
| Effects.NothingUnlessApplied | apply/default_executor.go:61-165 | all or nothing: an execution that is not applied leaves the active configuration as it was when the lock was taken |
| Effects.FoundFirst | apply/default_executor.go:268-303 | if the lock is free, the world found when the lock is taken is the first one |
| Effects.AppliedEffect | apply/default_executor.go:115-165 | an applied execution leaves its plan's effect on the candidate its session began with |
| Effects.AppliedBase | internal/vyos/runner.go:87-87 | that candidate is the active configuration found when the lock was taken, or the candidate of a session found with it |
| Effects.StepBoot | apply/default_executor.go:171-186 | only a save changes the boot configuration, and makes it the active one |
| Effects.BootExactly | apply/default_executor.go:171-186 | a saved execution leaves the active configuration as the boot configuration, and any other one leaves the boot configuration it found |
| Engine.Apply | apply/engine.go:69-96 | a rejected input changes nothing and is rejected for the reason planning gives; otherwise the world went through an execution of a plan for the input, the answer reports truthfully whether it was committed and saved and with which error, without a commit the active configuration is the one it found, and the boot configuration is the active one if it was saved and otherwise the one it found |
| Engine.CorrectionIdle | apply/engine.go:81-115 | the correction of Applied and the mask on Saved never change what the default executor reports |
| Engine.CorrectionExactly | apply/engine.go:79-115 | whatever any executor reports, a failed delete, set or commit is not passed on as applied, nor as saved what was not to be saved, and all else is passed on as it is |
| EndToEnd.ExecutionPlays | apply/default_executor.go:49-187 | an execution of the code in any state of the system, while others act until it gets the lock, is a play of the system of interleaved runs, so that the results about that system hold of it |
| EndToEnd.AppliedReconciles | apply/engine.go:69-96 | whatever an execution of a default plan meets and whatever fails: if it is applied, the managed subtrees of the active configuration are what its set commands alone produce; if not, the active configuration is the one it found |
| EndToEnd.UnmanagedExactly | apply/engine.go:69-96 | an execution of a default plan leaves everything outside the managed roots and the ethernet descriptions as it found it if and only if it is not applied or its session began with a candidate that agrees there |
| EndToEnd.UnmanagedKept | apply/engine.go:69-96 | so it does, with no assumption on cleanups, if it finds no candidate, or one that agrees with the active configuration there |
| EndToEnd.DescriptionsApplied | apply/engine.go:69-96 | after an applied execution of a default plan an ethernet description is there if and only if the sets produce it, or the session began with it and no set displaces it |
| EndToEnd.RenderedIsConfigured | renderer/renderer.go:114-164 | a payload that was rendered and applied is what the device is configured with, whatever it met: the managed subtrees are exactly those that the rendered lines set, and the ethernet descriptions are those they set and the earlier ones they do not displace; if it was not applied, the active configuration has not changed |
| EndToEnd.RenderedReadBack | renderer/renderer.go:114-164 | the commands that are accepted of a rendered payload, split into words, tell a device exactly the data the payload was normalized to |
| Outputs.OutputsReported | apply/default_executor.go:215-224 | the reported delete and set outputs are the non-blank outputs of those calls, trimmed, one per line, in order |
| Outputs.EndsReported | apply/default_executor.go:154-202 | the reported commit and save outputs are those of the calls as they are; the discard output is that of the discard, with its failure noted if a failed call led to it |
| Planner.Prepare | apply/planner.go:9-55 | the first failing input check is reported; otherwise the plan has one delete per root, exactly the accepted commands, and one commit |
| Planner.InputExactly | apply/planner.go:32-55 | an input passes if and only if the context is live, the target is vyos and neither id nor commands are blank; each error is reported exactly when it is the first that applies |
| Planner.GuardsNeverFire | internal/vyos/runner.go:407-462 | on a prepared plan every delete reaches the device as its root's words and every set as its validated tokens |
| Policy.ValidateResetPolicy | apply/policy.go:26-42 | a policy is accepted if and only if every normalized root is on the allowlist; the first bad root decides the error |
| Policy.DeleteIsRun | apply/policy.go:57-63 | the delete command of an allowed root splits into the operation and exactly the root's words |
| Policy.RootExactly | apply/policy.go:22-55 | a reset root passes if and only if its words are one of six paths, and its delete command deletes exactly that path |
| Policy.EmptyExactly | apply/policy.go:30-32 | the error for an empty root is that of exactly the blank roots |
| Policy.FullExactly | apply/policy.go:33-35 | the error for the full configuration is that of exactly the roots with the one word / |
| Policy.FieldsAreTokens | apply/policy.go:22-24 | the fields of a text without quotes are the tokens that the parser and the runner read from it |
| Parser.ParseCommands | apply/parser.go:13-53 | the result is the trimmed accepted lines in order, or the number of the first bad line, or the error for no command at all |
| Parser.VerdictUnique | apply/parser.go:13-53 | no text has two verdicts |
| Allowlist.ServiceExactly | apply/parser.go:136-221 | a service path is accepted if and only if it has the words of a line that the templates print for some LANs or some SSH port, up to how a positive number is spelled |
| Allowlist.NumbersPositive | apply/parser.go:165-198 | the number of an accepted lease or subnet-id is read as at least 1, and a port as at least 1 and at most 65535 |
| Allowlist.PathExactly | apply/parser.go:100-134 | a set path is accepted if and only if it lies below interfaces bridge or nat source, is a description of a named ethernet, or is such a service path |
| Allowlist.LineExactly | apply/parser.go:19-47 | a line is accepted, as it stands but trimmed, if and only if the runner would run it as the setting of such a path, and skipped if and only if it is blank |
| CommandText.TextExactly | apply/parser.go:13-53 | a text of given lines, whatever breaks them, is accepted with these lines, trimmed and without the blank ones, if and only if each is blank or would be run as the setting of an allowed path, and not all are blank |
| CommandText.BadLineExactly | apply/parser.go:13-53 | the line number reported is that of the first line that is neither |
| CommandText.ShellRefused | apply/parser.go:27-29 | a line with one of seven shell characters anywhere is refused by the parser and by the runner |
| CommandText.OthersAccepted | apply/parser.go:11-11 | every other character that a name may have can be set in a description |
| Parser.ValidatedIsRun | internal/vyos/runner.go:407-462 | every accepted command passes the runner's guards as a set of exactly the validated tokens |
| Tokenizer.TokenizeCommand | apply/parser.go:64-98 | the scanning loop computes the scan function that the lemmas below are about |
| Grammar.TokenizeExactly | apply/parser.go:64-98 | a line has given tokens if and only if it is words between spaces, spelled out of plain characters and quoted runs that mean these tokens |
| Tokenizer.QuoteTokenizeInverse | internal/templates/templates.go:149-156 | appending a space and a quoted value to balanced text appends exactly the value as one token, whatever it contains |
| Tokenizer.TokenizePrint | internal/templates/interface/bridge.tmpl:1-8 | tokenizing a printed line gives back its words |
| Runner.SplitExact | internal/vyos/runner.go:407-462 | some command reaches the device as a given call if and only if the call is a set or a delete of a non-empty path whose words have no forbidden character and no line break |
| Runner.SplitSafe | internal/vyos/runner.go:407-462 | no command that passes, however it is quoted, brings a forbidden character or a line break to the device |
| RoundTrip.PrintedSplits | internal/vyos/runner.go:407-462 | a printed line splits into exactly its words, and is refused if and only if it is no set or delete, has no path, or has a forbidden character in a word |
| Netip.ParsePrintPrefix | internal/normalize/service.go:173-181 | the printed form of a prefix is read back as the same prefix |
| Netip.AddrExactly | apply/parser.go:231-237 | an address is read from its printed form and from no other text |
| Netip.PrefixExactly | apply/parser.go:223-229 | a prefix is read from its printed form and from no other text |
| Netip.AddrText | internal/normalize/service.go:176-183 | the printed form of an address is its four bytes, the highest first, in decimal with dots between |
| Netip.PrefixText | internal/normalize/service.go:176-183 | the printed form of a prefix is that of its address, a slash and the number of bits |
| Decimal.AtoiItoa | internal/normalize/interface.go:333-342 | decimal printing and parsing are inverse on 64-bit integers |
| Decimal.AtoiExactly | apply/parser.go:239-245 | a number is read from exactly its numerals: an optional sign, any leading zeros, and its digits, inside 64 bits |
| Decimal.ItoaExactly | internal/normalize/interface.go:145-145 | a number is printed as the shortest text that is read as it |
| Text.LinesExactly | apply/parser.go:14-17 | whatever mixture of the three line breaks separates the lines, splitting gives the lines |
| Text.BlankExactly | apply/parser.go:20-23 | nothing is left of a trimmed text if and only if it is only of the characters with property White_Space |
| Text.LessExactly | internal/normalize/interface.go:202-204 | the order of strings is that of their first difference, a proper prefix being the smaller |
| Ipv4.AddExact | internal/normalize/service.go:316-331 | the guarded addition is the mathematical one, refused exactly when it leaves 32 bits; nothing wraps |
| Ipv4.BroadcastIsLast | internal/normalize/service.go:333-352 | the bit operations compute the last address of the block, inside the 32-bit space |
| Ipv4.ContainsIsInBlock | internal/normalize/service.go:187-204 | equal network bits mean lying in the block's interval |
| Ipv4.OverlapExact | internal/normalize/service.go:187-204 | two blocks share an address if and only if one contains the base of the other |
| ServiceLans.ParseLeaseTimeString | internal/normalize/service.go:255-285 | the suffix switch and the guard compute the number times the unit, in 64-bit arithmetic, or refuse it |
| ServiceLans.LeaseSecondsExact | internal/normalize/service.go:255-285 | the product is the duration meant if and only if that fits into 64 bits; only durations that are too long are refused |
| ServiceLans.LeaseTimeExact | internal/normalize/service.go:230-253 | an accepted lease-time text means what it says if and only if its number is positive |
| Lans.DurationExactly | internal/normalize/service.go:255-285 | a text is read as a duration if and only if it is, between spaces, a numeral and no suffix or one of s, m, h and d for 1, 60, 3600 and 86400 seconds |
| Lans.LeaseExactly | internal/normalize/service.go:230-253 | a lease time is accepted with given seconds if and only if it is that positive number, or a text of a duration of which these are the positive 64-bit product |
| Lans.RequiredExactly | internal/normalize/service.go:287-299 | a required number is accepted if and only if it is a positive number or the trimmed text of one |
| ServiceLans.NegativeLeaseAccepted | internal/normalize/service.go:281-284 | the text of -106751991167301 days is accepted as the lease time 9223372036854745216 |
| ServiceLans.RangeExact | internal/normalize/service.go:156-228 | a pool is accepted if and only if the closed interval fits into 32 bits, lies in the prefix, and avoids network, broadcast and router |
| ServiceLans.ResolveExact | internal/normalize/service.go:125-185 | which inputs are accepted, exactly, and that an accepted one has lease-count addresses from network + lease-first on and a prefix of at most 30 bits |
| ServiceLans.RecordReadsBack | internal/normalize/service.go:171-184 | the printed record of an accepted LAN reads back as its block, router, range and lease, with the VLAN id or 4051 plus the input index as subnet id |
| Lans.LanExactly | internal/normalize/service.go:125-185 | a LAN input becomes a given record if and only if the record describes it: its name, router and block, a pool of lease-count addresses from lease-first on that fits and avoids the reserved ones, its lease time, and its subnet id |
| LanErrors.TextReason | internal/normalize/service.go:125-139 | a bad name is reported exactly if the name is no token, and a bad subnet exactly if the name is one and the subnet is no printed prefix |
| LanErrors.NumberReason | internal/normalize/service.go:143-154 | then a bad lease time, first address or count is reported, exactly if it is the first of the three that cannot be read |
| LanErrors.PoolReason | internal/normalize/service.go:156-169 | and last a pool that begins or ends above 32 bits, leaves the block, or has its last address or the router, exactly if it is the first of these |
| Lans.SubnetIdExactly | internal/normalize/service.go:171-174 | the LAN of a tagged entry has as subnet id the id of the VIF that the same entry becomes, and that of a plain one 4051 plus its place |
| Lans.SubnetIdsDistinct | internal/normalize/service.go:171-174 | if the VLAN ids differ and are at most 4050, all LANs have different subnet ids |
| ServiceLans.FindOverlap | internal/normalize/service.go:187-204 | the nested loops find the first pair of intersecting blocks, or prove all disjoint |
| ServiceLans.NormalizeServiceLans | internal/normalize/service.go:81-123 | it succeeds if and only if every LAN is accepted and no two blocks share an address, and then returns the LANs in the comparator's order |
| Lans.OrderExactly | internal/normalize/service.go:100-116 | plain LANs come first, by their place, then VLANs by id, then by name, then by block |
| Lans.EntryExactly | internal/normalize/service.go:84-95 | the order and the search for overlaps go by the place, kind, VLAN id and block of the input |
| Lans.ResultExactly | internal/normalize/service.go:118-122 | the LANs returned are the records of the inputs, one for each |
| Lans.SshExactly | internal/normalize/service.go:44-79 | SSH is off without a port, and on with exactly the given port from 1 to 65535; anything else is an error |
| ServiceLans.LanLessTotal | internal/normalize/service.go:100-116 | on accepted LANs no two entries tie |
| ServiceLans.OrderUnique | internal/normalize/service.go:100-122 | any correct sort gives the same list |
| ServiceLans.PoolsSafe | internal/normalize/service.go:81-98 | no address is in two pools, and no pool contains any LAN's router, network or broadcast address |
| ServiceLans.PoolsBounded | internal/normalize/service.go:81-98 | all pools together have less than 2^32 addresses |
| Interfaces.NormalizeInterfaces | internal/normalize/interface.go:57-207 | the first bad entry decides the error; otherwise the section is the one described by the rows below |
| Interfaces.AddressExactly | internal/normalize/interface.go:314-331 | an address is resolved if and only if addressing is dynamic, to dhcp, or static with a valid subnet, to the subnet as it stands |
| Sections.AcceptedExactly | internal/normalize/interface.go:77-170 | it succeeds if and only if every entry that counts has a valid name, mapped ports and a fitting address, at most one is an uplink, and there is a downstream bridge if there are VIFs |
| Sections.ReasonExactly | internal/normalize/interface.go:91-130 | each error of an entry is reported exactly when it is the first that applies: the name, then the ports, then the address |
| Sections.FirstFaultExactly | internal/normalize/interface.go:77-136 | the entry reported is the first one at fault, for itself or as a second uplink |
| Sections.VifsExactly | internal/normalize/interface.go:100-117 | the VIFs are one for every tagged downstream entry, with its id, subnet, name and mapped ports |
| Sections.VifOrder | internal/normalize/interface.go:172-180 | a bridge has its VIFs in order of id, then of description, then of joined ports |
| Sections.InputsExactly | internal/normalize/interface.go:118-159 | the service inputs are the static downstream entries, tagged or not, in order, each with its place, name, subnet, DHCP fields and VLAN id |
| Sections.EthernetsExactly | internal/normalize/interface.go:281-291 | a port is described by the first untagged entry with a name for it, and only if there is none by the first tagged one |
| Interfaces.ResolveMappedPorts | internal/normalize/interface.go:252-279 | the ports are exactly those the selectors are mapped to, ascending, each once; none is an error |
| Sections.MappedExactly | internal/normalize/interface.go:259-273 | a port belongs to an entry if and only if some selector of some ethernet of it is mapped to it |
| Interfaces.MergeSortedUnique | internal/normalize/interface.go:293-312 | the merge is the ascending list of the union |
| Interfaces.AttachVifs | internal/normalize/interface.go:167-191 | the patched bridge has every VIF once, in order, and the union of all members |
| Interfaces.BridgesConserved | internal/normalize/interface.go:132-160 | the non-VLAN upstream and downstream entries correspond one to one to the bridges, and a bridge has its entry's name and mapped ports, and the address dhcp if that is dynamic or its subnet if it is static, and no other addressing occurs; only br1 has other members, the ports of the VIFs |
| Interfaces.BridgesNumbered | internal/normalize/interface.go:194-196 | the sorted bridges are br0, if there is an uplink, then br1, br2, ... in input order, and only br1 carries VIFs |
| Interfaces.VifsConserved | internal/normalize/interface.go:167-192 | every downstream VLAN entry is exactly one VIF on br1, ids ascend, and every port of a VIF is a member of br1 |
| Interfaces.IndicesExact | internal/normalize/interface.go:77-165 | the entries counted for a kind are all entries of that kind, each once, in input order; service inputs are the static ones among them |
| Interfaces.FirstNameExact | internal/normalize/interface.go:281-291 | a port's description of one priority is the name of the first entry that has one |
| Interfaces.EthernetsUnique | internal/normalize/interface.go:198-204 | the list of ethernets is determined by the entries, whatever order the map is iterated in |
| Ties.SectionDetermined | internal/normalize/interface.go:172-196 | a section is the only one for its input if and only if no two different VIFs tie in the comparison |
| Ties.Undetermined | internal/normalize/interface.go:172-180 | two VLAN entries alike in id, name and ports and different in subnet make a payload that normalizes in two different ways |
| Nat.NormalizeNat | internal/normalize/nat.go:9-59 | success means all rules valid with distinct ids, sorted; otherwise the first bad or repeated rule is reported |
| Nat.RuleExactly | internal/normalize/nat.go:61-102 | an entry becomes a given rule if and only if it has exactly its number, interface, source and translation, and these are valid tokens, a slash being allowed in addresses only |
| Nat.RulesExactly | internal/normalize/nat.go:54-58 | the rules are those of the entries, one for each, in strictly ascending order of their numbers |
| Nat.SucceedsExactly | internal/normalize/nat.go:40-52 | it succeeds if and only if every rule is valid and no id is repeated |
| Nat.OrderIrrelevant | internal/normalize/nat.go:40-58 | permuted rules have the same result |
| Validate.TokenIsBare | internal/normalize/validate.go:32-57 | a valid token needs no quoting and contains nothing the parser forbids |
| Validate.DescriptionIsQuotable | internal/normalize/validate.go:9-22 | a valid description can be quoted and has no line break |
| Validate.TokenExactly | internal/normalize/validate.go:32-57 | a token is valid if and only if it is not empty and has only ASCII letters, digits and . _ - :, and slashes where they are allowed |
| Validate.DescriptionExactly | internal/normalize/validate.go:9-22 | a description is valid if and only if it can be quoted and has no control character beyond ASCII |
| Templates.AllowedVlansForMember | internal/templates/templates.go:108-123 | the ids are those of the VIFs a port is a member of, strictly ascending |
| Templates.NormalizeSection | internal/templates/templates.go:88-106 | trimming and filtering leave exactly the lines that are not blank, each ended by a newline |
| RoundTrip.JudgeLine | apply/parser.go:19-47 | a printed line is accepted as it is if and only if it has no forbidden character |
| RoundTrip.RenderedText | internal/templates/templates.go:43-106 | rendering cannot fail and leaves every printed line, in order, and nothing else |
| TemplateText.BridgeText | internal/templates/interface/bridge.tmpl:1-2 | the text of the address and description lines of a bridge |
| TemplateText.MemberText | internal/templates/interface/bridge.tmpl:3-6 | the text of the lines of a member: one for every VLAN it is allowed on and then its native one, or a bare one |
| TemplateText.VifText | internal/templates/interface/bridge.tmpl:6-7 | the text of the two lines of a VIF |
| TemplateText.EthernetText | internal/templates/interface/ethernet.tmpl:1-1 | the text of the line of an ethernet |
| TemplateText.DhcpText | internal/templates/service/dhcp-server.tmpl:1-8 | the text of the six lines of a LAN |
| TemplateText.DnsTexts | internal/templates/service/dns-forwarding.tmpl:1-9 | the text of the DNS lines: the block of every LAN, the cache size, and the router of every LAN |
| TemplateText.SshText | internal/templates/service/ssh.tmpl:1-3 | the text of the SSH line, and that there is one if and only if SSH is on |
| TemplateText.NatText | internal/templates/nat.tmpl:1-5 | the text of the three lines of a rule |
| LineOrder.SectionsInOrder | internal/templates/templates.go:43-80 | the lines of all bridges come first, then ethernets, DHCP, DNS, SSH and NAT |
| LineOrder.PartsInOrder | internal/templates/interface/bridge.tmpl:1-8 | a bridge has its own lines before those of its members, and these before those of its VIFs |
| Rendering.RenderedIsInput | internal/templates/interface/bridge.tmpl:1-8 | for valid data the text is accepted as exactly the printed lines if and only if no description has a forbidden character |
| Normalization.NormalizedIsValid | internal/normalize/normalize.go:132-149 | everything normalization lets through is valid data for the templates |
| Normalization.Normalize | internal/normalize/normalize.go:132-149 | it succeeds if and only if all entries conform, all rules are valid with distinct ids, the port is one or absent, and all service LANs are accepted and disjoint; otherwise the error is that of the first section that fails: interfaces, NAT, SSH, service LANs |
| Normalization.RendererOutputIsApplyInput | renderer/renderer.go:114-164 | for every payload that normalizes, rendering does not fail and a non-empty text is accepted as exactly the rendered lines if and only if no rendered interface has a forbidden character in its name |
| UncleanName.Refused | internal/normalize/validate.go:9-22 | a payload whose one interface is named with a semicolon normalizes, and its rendered text has a line that the parser refuses |
| Normalization.RenderedIsRun | internal/vyos/runner.go:145-154 | a plan prepared from rendered text tells the device exactly the words of the rendered lines, in order |
| Normalization.RenderPayload | renderer/renderer.go:132-155 | a payload that does not normalize is reported as such, with the error of its first bad section; the templates never fail on any other, and a result without lines is the missing_config error |
| NothingToRender.NothingRendered | renderer/renderer.go:152-154 | nothing is printed of a normalized payload if and only if it has no downstream entry, no untagged uplink, no rule and no SSH port |
| NothingToRender.RenderExactly | renderer/renderer.go:132-155 | text is returned if and only if the payload normalizes and says something of these; missing_config if and only if it normalizes and says nothing |
| ReadBack.BridgeReadBack | internal/templates/interface/bridge.tmpl:1-8 | taking in the printed lines of a bridge one by one gives back its name, address, description and members, and its VIFs without their members |
| VlanMembership.BridgeRecovered | internal/templates/interface/bridge.tmpl:1-8 | together with the pairs of the allowed VLANs they give back the whole bridge, the members of every VIF included, if and only if VIFs of one id have the same members |
| SharedVlans.NotRecovered | internal/templates/interface/bridge.tmpl:1-8 | two VLAN entries of one id on different ports make a bridge that its lines do not give back |
| SharedVlans.Unrecovered | internal/templates/interface/bridge.tmpl:1-8 | a payload that normalizes to such a bridge |
| ReadBack.LanReadBack | internal/templates/service/dhcp-server.tmpl:1-8 | the same for a service LAN: lease, router, name server, range and subnet id |
| ReadBack.RuleReadBack | internal/templates/nat.tmpl:1-5 | the same for a NAT rule |
| ReadAll.DnsReadBack | internal/templates/service/dns-forwarding.tmpl:1-9 | taking in the DNS lines gives back the blocks of all LANs as allowed ones and their routers as listening addresses, in order, and a cache size of 0 if and only if there is a LAN |
| ReadAll.SshReadBack | internal/templates/service/ssh.tmpl:1-3 | the SSH line gives back the port, and there is none if SSH is off |
| ReadAll.EthernetsTaken | internal/templates/interface/ethernet.tmpl:1-1 | the ethernet lines give back the names and descriptions, in order |
| ReadAll.AllReadBack | internal/templates/templates.go:43-106 | taking in all lines of all sections gives back the data: bridges with their members and VIFs, ethernets, rules, LANs, name server and port |
| ReadAll.CommandsReadBack | internal/vyos/runner.go:407-462 | so does a device that splits the printed commands into words first |
| VlanMembership.PrintedPairs | internal/templates/interface/bridge.tmpl:3-6 | the pairs read back from a bridge's lines are those of its members, in order |
| VlanMembership.MembershipExact | internal/normalize/interface.go:182-191 | these are exactly the pairs of a VIF's id and one of its ports, each once, by member and then by id |

## Left out

* JSON decoding, alias and field-presence checks, payload metadata matching: the model starts from decoded records. A raw number is missing, a 64-bit integer (`null` reads as zero), a string, or something else.
* The `text/template` engine: each template is a function from data to the lines it prints, with the blank lines around them. `internal/templates/interface/vlan.tmpl` is not used by the bridge template and not modelled.
* The checks of `WithPortMap` itself: the model takes a port map whose interfaces are valid tokens, which is what they establish.
* `os/exec`, command paths, environment parsing, timers and the five-second cleanup deadline: a device call is an answer chosen by the environment.
* Custom executors, nil receivers, nil contexts and missing executors, and option handling in `New`.
* Error messages: an error is its code and the cleanup steps appended to it, or the reason and index it is reported for. The output that `withOptionalOutput` adds to messages is left out with them.
* Strings that are not valid UTF-8, and lower-casing beyond the letters whose lower case is ASCII, which is all that the search for missing-node messages can see.
* IPv6 prefixes: they are refused by the code and by the model alike, without being read.
* Uniqueness of DHCP subnet ids for all payloads: VLAN ids may repeat, or be as large as 4051 plus a place; `Lans.SubnetIdsDistinct` has the case where they do not.
* A slice is as long as 63-bit memory allows, so that adding 4051 to an input index does not wrap.
* Go's sorting algorithms: `Sorting.Sort` stands for them, and only its contract, a permutation without inversions, is used.
* Executor.Execute: other runs change the world only while it waits for the lock; that they do not act while it holds it is `Concurrency.MutualExclusion`, proved of the machine.
* Executor.Lock: termination of the retry loop; the wait is observed for a bounded number of attempts, for every bound, and each attempt may find another world, in which the lock may have been given back.
* Interfaces, ServiceLans, Nat: slices that Go sorts in place or appends to are immutable sequences held in variables; aliasing of slices is not captured.
* Concurrency.Serializable: weaker than the bare claim, because a teardown that fails with changes pending breaks it; see `StaleSessions.StaleCandidate` and, for the exact condition, `Concurrency.SerializableExactly`.
* Reconcile.UnmanagedNeverTouched: weaker than the bare claim for the same reason; see `StaleSessions.FrameBroken` and, for the exact condition, `Reconcile.FrameExactly`.
