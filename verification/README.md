# Verified models of the banking lab and the EKS assessment toolkit

A Dafny model of the stateful and the recursive parts of this repository, with proofs. `dafny verify dfyconfig.toml`
checks everything. Each source component is one or two modules: the first models its operations (a class where the
source updates fields or a table, a method with a loop where the source loops), the second states what holds over
whole runs, or for every input.

**Collection supervisor** (`Supervisor`, `SupervisorProtocol`). Each critical section is a method on the shared record,
proved equal to a function from old record to new. The protocol interleaves one owner thread with any number of
cancelling threads, one event per critical section or per action outside the lock, and keeps the table of spawned leader
processes. No live child of a stopped collection is ever without a thread bound to kill it, and that thread does so
within two of its own steps, whatever the others do. The first stop wins until the next start, and the percentage is
monotone, below 100 while active and 100 exactly for COMPLETED.

**Payments and transfers** (`Payments`, `PaymentProtocol`, `PaymentRuns`, `Transfers`, `TransferProtocol`, `TransferRuns`,
`TransferOverlap`, `TransferRegress`, `Luhn`, `Text`). Each SQL statement is one atomic method on a table; calls interleave,
repeat and stop anywhere. Payments: the guarded update gives agreement even with an issuer that contradicts itself, and which
requests count as the same is decided field by field. Transfers: the account service takes two steps, the test of the key and the part under the row locks, and a request lives on without its caller. In every interleaving
balances are conserved, moves match their rows, and one retry repairs a row; whether a key can move twice is decided
exactly (see below), and so is whether a completed row can still be shown as failed.

**Request budget** (`ApiBudgets`, `AwsCalls`). The lock sections of the budget over integer time, for every interleaving;
the two retry loops on top. The kubectl budget is never exceeded; the AWS one, checked only before its loop, is
exceeded by at most its retries, and that bound is reached.

**Collectors** (`CollectorPlan`, `CollectorState`). The planner's set-growing recursion computes the least dependency
closure, on cyclic registries too; the state file survives crashes and resumes.

**Portable bundle** (`BundlePaths`, `Bundles`, `BundleImport`, `BundleTheorems`, `BundleExport`, `BundleRoundTrip`,
`BundleExactly`, `BundleLimits`). Export, verification and import over archives whose member names may repeat and need
not be normalised.

**Trees** (`Validator`, `ValidatorLaws`, `Sensitive`, `Sanitizer`, `SanitizerLaws`, `SanitizerFixpoints`,
`SanitizerExactly`). The JSON Schema subset validator, whose reports are exactly the violations, against the standard
(draft 2020-12), and the two snapshot sanitizers.

**Arithmetic and codecs** (`HalfEven`, `PodRequests`, `Utf8Logs`, `Numerals`, `Money`). Rounding, effective pod requests, UTF-8
cuts under a byte budget (RFC 3629), and money text.

## What turned out not to hold as documented

- A transfer key can move money twice. The account service tests the key before it takes its row locks and not again
  (app/account-service-java/src/main/java/com/banklab/accounts/AccountService.java:101-108), at the default isolation
  level; saving the record of a key that has one is no conflict, and the ledger has no unique journal. `KeyMovesTwice`
  is a run in which two same-payload requests overlap and both move. `SecondMoveExactly` says from which states a second move can come, and `PostIsSafeExactly` what a caller has to
  check before it posts: that the key has moved already, or that no earlier request for it is still unanswered. Without
  careless posts a key moves at most once (`MovesOnce`).
- The status of a transfer is not monotone: its update has no guard, so a Completed row can become Failed
  (`StatusCanRegress`). `RegressesExactly` says when: exactly if a call for the key has been rejected and not finished, or
  waits for a request that is past the test of its key. The completion time stays.
- app/README-banking.md:93-97 promises a conflict for a reused transfer key with another payload. The transfer service
  gives it; the account service's transfer answers a known key without comparing (AccountService.java:101-103,
  `KnownKeyIsDone`, `PayloadIsNotCompared`).
- The program's constants compare like Python: `{"const": true}` also accepts the number 1 (`BooleanConstant`).
  `ComparisonAgreesExactly` says for which pairs of value and constant the comparison means what the standard says, and
  `ConstantAgreesExactly` for which constants it does so for every value.
- Keywords beside `anyOf` are ignored (`SiblingsAgreeExactly`, `SiblingIgnored`), and `1.0` is not an integer
  (`TypeAgreesExactly`). But for the latter, the validator accepts whatever the standard accepts (`StandardIsAccepted`).
- An exported bundle need not verify: export counts neither directories nor the manifest, and does not ask for a tool
  version. `RoundTripExactly` gives the exact bounds. `EveryCollectionOutgrows`: any collection that exports with up to
  9 900 files, extended by directories of one empty file each, still exports, and then no manifest verifies its archive.
- The money type prints the smallest int64 as `--92233720368547758.-8` (`RoundTripExactly` in `Money`), and reads texts
  beyond int64 with wrap-around (`ExactWhenItFits`, `BeyondRangeWraps`): `92233720368547759.00` comes out negative
  (`FirstBeyondRange`).
- A passed collector can run again when it is marked otherwise afterwards (`RerunExactly`, `RemarkedIsRerun`); the shell
  driver marks the final contract validation that way (tools/eks-assessment/bin/eks-assessment.sh:758-766).

## Model

| member | source | states |
|---|---|---|
| `Supervisor.CollectionSupervisor.Start` | tools/eks-assessment/src/assessment_process_supervisor.py:65-99 | Start refuses while active; otherwise it clears the stop, the handle and the record and sets a deadline of one minute to two hours |
| `Supervisor.CollectionSupervisor.SetStop` | tools/eks-assessment/src/assessment_process_supervisor.py:101-106 | The stop flag, the kind, the status and the reason are set together, nothing else changes |
| `Supervisor.CollectionSupervisor.Cancel` | tools/eks-assessment/src/assessment_process_supervisor.py:108-117 | An inactive collection refuses; an active one is stopped as CANCELLED unless stopped already, and the published process is handed to the caller |
| `Supervisor.CollectionSupervisor.EnterRun` | tools/eks-assessment/src/assessment_process_supervisor.py:119-138 | run is admitted with the lesser of its own and the remaining time, at least 50 ms; a stop refuses it with 124 if it timed out and 130 if it was cancelled, an exhausted deadline stops the collection and refuses it with 124 |
| `Supervisor.CollectionSupervisor.Publish` | tools/eks-assessment/src/assessment_process_supervisor.py:155-158 | Publishing the handle and reading the stop flag are one step |
| `Supervisor.CollectionSupervisor.TimeoutExpired` | tools/eks-assessment/src/assessment_process_supervisor.py:167-170 | A component timeout stops the collection as TIMED_OUT unless it is stopped already |
| `Supervisor.CollectionSupervisor.Release` | tools/eks-assessment/src/assessment_process_supervisor.py:174-189 | The handle is withdrawn if it is still the published one, the component counts as completed once, the percentage is the rounded completed weight capped at 99 |
| `Supervisor.CollectionSupervisor.Finish` | tools/eks-assessment/src/assessment_process_supervisor.py:205-213 | finish reports a recorded stop before the status it is given, and shows 100 only for COMPLETED |
| `Supervisor.PercentGrows` | tools/eks-assessment/src/assessment_process_supervisor.py:182-187 | Completing one more component never lowers the rounded percentage |
| `Supervisor.PercentIsNearest` | tools/eks-assessment/src/assessment_process_supervisor.py:184-187 | The percentage is the nearest one to the completed share of the weight, and never more than 99 |
| `Supervisor.CompletedIsPlannedPart` | tools/eks-assessment/src/assessment_process_supervisor.py:185-186 | What counts as completed is the weight of the completed components that were planned |
| `SupervisorProtocol.NoOrphan` | tools/eks-assessment/src/assessment_process_supervisor.py:108-172 | In every interleaving, a live child of a stopped collection is unpublished with its spawner yet to read the flag, or some thread has already decided to kill it |
| `SupervisorProtocol.StopLeavesNoChild` | tools/eks-assessment/src/assessment_process_supervisor.py:155-172 | With no kill pending and the owner outside its windows, a stop leaves no spawned leader process alive |
| `SupervisorProtocol.CommitmentKills` | tools/eks-assessment/src/assessment_process_supervisor.py:115-172 | Nothing can block the committed thread: left to itself it kills the child within two steps |
| `SupervisorProtocol.OwnerKills` | tools/eks-assessment/src/assessment_process_supervisor.py:155-172 | In every interleaving, while the child lives a bound owner stays bound and has taken at most one of its two steps |
| `SupervisorProtocol.HolderKills` | tools/eks-assessment/src/assessment_process_supervisor.py:108-117 | In every interleaving, while the child lives a cancelling thread that holds it still does, and its next step kills |
| `SupervisorProtocol.StopCause` | tools/eks-assessment/src/assessment_process_supervisor.py:112-170 | The stop flag rises exactly at an accepted cancel, a component timeout or an exhausted deadline, and the kind says which |
| `SupervisorProtocol.FirstStopWins` | tools/eks-assessment/src/assessment_process_supervisor.py:101-213 | Until the next start the cause, reason and status never change, and every run reports that first stop, save one spawn that fails in a run admitted before |
| `SupervisorProtocol.CancelledRunsReturn130` | tools/eks-assessment/src/assessment_process_supervisor.py:108-196 | After an accepted cancel of a running collection every run that ends before the next start returns 130, save that failing spawn, which returns 127 |
| `SupervisorProtocol.TimedOutRunsReturn124` | tools/eks-assessment/src/assessment_process_supervisor.py:127-196 | After a component timeout or an exhausted deadline it returns 124, with the same exception |
| `SupervisorProtocol.UndisturbedRunReturnsItsCode` | tools/eks-assessment/src/assessment_process_supervisor.py:159-196 | A run that nothing stops returns its own code and process |
| `SupervisorProtocol.AliveExactly` | tools/eks-assessment/src/assessment_process_supervisor.py:149-172 | A process lives from its spawning until it exits or the thread that holds it kills it |
| `SupervisorProtocol.NothingBlocks` | tools/eks-assessment/src/assessment_process_supervisor.py:108-196 | No thread is kept from cancelling or killing, and the owner waits for nothing but the end of its process |
| `SupervisorProtocol.OwnerAdvances` | tools/eks-assessment/src/assessment_process_supervisor.py:127-196 | Every step of its own brings the owner closer to the end of its run, and other threads leave it where it is |
| `SupervisorProtocol.OneOutcomePerRun` | tools/eks-assessment/src/assessment_process_supervisor.py:127-196 | A run that is let in returns exactly once, when it ends; a refused one returns at once |
| `SupervisorProtocol.StopBoundsSpawns` | tools/eks-assessment/src/assessment_process_supervisor.py:127-151 | Runs begun after the stop spawn nothing; the run already past its check spawns at most one process |
| `SupervisorProtocol.ProgressOverRun` | tools/eks-assessment/src/assessment_process_supervisor.py:182-212 | Between starts the percentage never falls, is at most 99 while active, and is 100 exactly when the status is COMPLETED |
| `SupervisorProtocol.StepKeepsInv` | tools/eks-assessment/src/assessment_process_supervisor.py:65-213 | Every step keeps the invariant on processes, record, handover and progress |
| `SupervisorProtocol.Perform` | tools/eks-assessment/src/assessment_process_supervisor.py:50-213 | The class, driven by any event, holds the protocol's shared record and gives each thread the answer the protocol goes on with |
| `HalfEven.RoundDivMonotone` | tools/eks-assessment/src/collector_registry.py:133-133 | Half-to-even rounding keeps the order of shares |
| `HalfEven.ReadsHundred` | tools/eks-assessment/src/collector_registry.py:125-133 | A rounded share reads 100 exactly when at most half a percent is missing, and never more |
| `Luhn.AcquirerLuhn` | app/acquirer-service-dotnet/PaymentCoordinator.cs:84-96 | The acquirer's loop decides the positional Luhn sum |
| `Luhn.StoreLuhn` | app/store-service-go/main.go:411-426 | The store's loop decides the same predicate, so the two agree on every digit string |
| `Luhn.SingleErrorDetected` | app/acquirer-service-dotnet/PaymentCoordinator.cs:84-96 | At any length, changing one digit of a valid number makes it invalid |
| `Luhn.TranspositionDetected` | app/acquirer-service-dotnet/PaymentCoordinator.cs:84-96 | Swapping neighbours goes unnoticed exactly when they are equal or are 0 and 9 |
| `Payments.PaymentTable.InsertIfAbsent` | app/acquirer-service-dotnet/PostgresPaymentRepository.cs:10-28 | A new row is the trimmed request, its last four digits, its hash and PENDING; an existing row is untouched |
| `Payments.PaymentTable.SelectWithHash` | app/acquirer-service-dotnet/PostgresPaymentRepository.cs:66-86 | The payment and the stored hash of an id, with the request's type where the card type is null |
| `Payments.PaymentTable.UpdateIfPending` | app/acquirer-service-dotnet/PostgresPaymentRepository.cs:38-61 | A decision is written only to a pending row |
| `Payments.CurrencyIsTrimmed` | app/acquirer-service-dotnet/PaymentCoordinator.cs:40-42 | An accepted currency has nothing to trim, so the untrimmed column and the trimmed fingerprint agree |
| `Payments.ValidateExactly` | app/acquirer-service-dotnet/PaymentCoordinator.cs:25-65 | The conditions under which a request is accepted, field by field, and the card number handed on |
| `PaymentProtocol.StepKeepsInv` | app/acquirer-service-dotnet/PaymentCoordinator.cs:9-22 | Every step keeps the invariant and never rewrites a hash or a decided row |
| `PaymentProtocol.HistoryIsKept` | app/acquirer-service-dotnet/PostgresPaymentRepository.cs:10-63 | Over whole runs the request hash of an id is written once and a decided payment never changes |
| `PaymentProtocol.Agreement` | app/acquirer-service-dotnet/PaymentCoordinator.cs:9-22 | All successful calls with one id return the same payment, whatever the issuer told each of them |
| `PaymentProtocol.ReturnsOwnRequestDecided` | app/acquirer-service-dotnet/PaymentCoordinator.cs:17-82 | A result repeats the caller's own trimmed request, the last four digits of its card, and an issuer answer that is captured with an authorization code alone or declined with a decline code alone |
| `PaymentProtocol.ReadConflictsExactly` | app/acquirer-service-dotnet/PaymentCoordinator.cs:11-18 | After one call made the row of an id, another call with that id gets a conflict exactly if the two requests differ in one of thirteen listed fields; otherwise it returns what is decided or asks the issuer |
| `PaymentProtocol.PrintsAgreeExactly` | app/acquirer-service-dotnet/PaymentFingerprint.cs:19-41 | The fingerprints of two accepted requests are equal exactly if all listed fields agree |
| `PaymentProtocol.RowHasOrigin` | app/acquirer-service-dotnet/PostgresPaymentRepository.cs:10-28 | Every row was made by the insert of one call |
| `PaymentProtocol.AnswerTakenExactly` | app/acquirer-service-dotnet/PaymentCoordinator.cs:18-82 | An issuer answer is taken exactly if identity, last four digits, card type, status and codes are as listed; otherwise the call fails |
| `PaymentProtocol.FinishedStays` | app/acquirer-service-dotnet/PaymentCoordinator.cs:9-22 | A call that has returned or failed never changes again |
| `PaymentRuns.UndisturbedCallReturns` | app/acquirer-service-dotnet/PaymentCoordinator.cs:9-22 | From any state, an accepted request under a new id with an acceptable answer asks the issuer its own request, returns that decision, and adds only its row |
| `PaymentProtocol.DifferentRequestConflicts` | app/acquirer-service-dotnet/PaymentCoordinator.cs:14-16 | A caller whose normalised request differs from the stored one never reaches the issuer and gets a conflict |
| `PaymentProtocol.IssuerSeesOneRequest` | app/acquirer-service-dotnet/PaymentCoordinator.cs:14-18 | However many calls ask under one id, the requests the issuer sees agree in every listed field |
| `PaymentProtocol.Perform` | app/acquirer-service-dotnet/PostgresPaymentRepository.cs:6-86 | The table, driven by any event, holds the protocol's rows, and its selects return what the protocol's reads go by |
| `Transfers.TransactionTable.InsertIfAbsent` | app/transaction-service-dotnet/PostgresTransactionRepository.cs:40-52 | A new row is the payload with a trimmed description and Pending; an existing row is untouched |
| `Transfers.TransactionTable.Update` | app/transaction-service-dotnet/PostgresTransactionRepository.cs:63-80 | Status and failure code are overwritten without a guard; a completion time is set or kept |
| `Transfers.TotalAfterUpdate` | app/account-service-java/src/main/java/com/banklab/accounts/Account.java:70-79 | A change to one balance changes the total by the same amount |
| `Transfers.KnownKeyIsDone` | app/account-service-java/src/main/java/com/banklab/accounts/AccountService.java:96-103 | A request between different accounts with a positive amount is answered as done before the locks exactly if its key was processed, whatever its payload, and otherwise goes on; any other is refused |
| `Transfers.PayloadIsNotCompared` | app/account-service-java/src/main/java/com/banklab/accounts/AccountService.java:101-103 | A request for another account and amount under a key that moved is answered as done |
| `Transfers.MovedExactly` | app/account-service-java/src/main/java/com/banklab/accounts/AccountService.java:105-118 | Money moves exactly if both accounts exist and the source covers the amount; every balance changes by what it gives or takes, and a rejection changes nothing |
| `TransferProtocol.TransferConserves` | app/account-service-java/src/main/java/com/banklab/accounts/AccountService.java:105-118 | The locked part of a transfer, applied or rejected, leaves the total balance as it was |
| `TransferProtocol.MoveKeepsBank` | app/account-service-java/src/main/java/com/banklab/accounts/AccountService.java:105-118 | It overdraws nobody, books every account and records its key, even for a key that moved before |
| `TransferProtocol.StepKeepsInv` | app/transaction-service-dotnet/TransferCoordinator.cs:6-29 | Every step keeps the invariant, and no step changes a payload, clears a completion time or undoes a move |
| `TransferRuns.HistoryIsKept` | app/transaction-service-dotnet/PostgresTransactionRepository.cs:40-83 | The same over whole runs |
| `TransferRuns.TransferSafety` | app/transaction-service-dotnet/TransferCoordinator.cs:11-42 | In every reachable state, however requests overlap, money moved only as its row says, nobody is overdrawn, balances add up, and a completion time implies a move |
| `TransferOverlap.ReturnMeansMoved` | app/transaction-service-dotnet/TransferCoordinator.cs:11-18 | A caller that gets its transaction back had exactly its own payload moved; and once, if nobody posted carelessly |
| `TransferRuns.DifferentPayloadStops` | app/transaction-service-dotnet/TransferCoordinator.cs:31-43 | A call whose payload differs from the stored one never reaches the account service or a result |
| `TransferRuns.ReadStopsExactly` | app/transaction-service-dotnet/TransferCoordinator.cs:11-43 | After one call made the row of a key, another call with that key is stopped exactly if source, destination, amount or trimmed description differ; otherwise it returns a completed row or goes on |
| `TransferRuns.RowHasOrigin` | app/transaction-service-dotnet/PostgresTransactionRepository.cs:40-52 | Every row was made by the insert of one call |
| `TransferRuns.FinishedStays` | app/transaction-service-dotnet/TransferCoordinator.cs:6-29 | A call that has returned or stopped never changes again |
| `TransferRuns.RetryCompletes` | app/transaction-service-dotnet/TransferCoordinator.cs:11-18 | From any row whose money moved, Failed included, one same-payload retry reaches Completed and moves nothing |
| `TransferProtocol.Perform` | app/transaction-service-dotnet/PostgresTransactionRepository.cs:35-83 | The table, driven by any event, holds the protocol's rows |
| `TransferOverlap.MovesOnce` | app/account-service-java/src/main/java/com/banklab/accounts/AccountService.java:96-118 | In every run without a careless post, money moves at most once per key |
| `TransferOverlap.StepKeepsSafe` | app/account-service-java/src/main/java/com/banklab/accounts/AccountService.java:101-117 | Every step but a careless post for the key keeps it safe from a second move |
| `TransferOverlap.SecondMoveExactly` | app/account-service-java/src/main/java/com/banklab/accounts/AccountService.java:101-118 | Without another post for the key, it can come to have moved twice exactly if it already has, or two unanswered requests overlap before its first move, or one is past the test after it |
| `TransferOverlap.PostIsSafeExactly` | app/account-service-java/src/main/java/com/banklab/accounts/AccountService.java:101-118 | While a key is safe, a post makes a second move possible exactly if its key has not moved and another request for it is unanswered |
| `TransferOverlap.KeyMovesTwice` | app/account-service-java/src/main/java/com/banklab/accounts/AccountService.java:96-118 | A run from the empty system that ends with two moves of one key |
| `TransferRegress.RegressesExactly` | app/transaction-service-dotnet/PostgresTransactionRepository.cs:57-83 | From a Completed row some run reaches Failed exactly if a call for its key has been rejected and not finished, or waits for a request past the key test |
| `TransferRegress.StepKeepsSettled` | app/transaction-service-dotnet/PostgresTransactionRepository.cs:57-83 | Without such a call every step keeps the row Completed and lets none arise |
| `TransferRegress.StatusCanRegress` | app/transaction-service-dotnet/PostgresTransactionRepository.cs:63-83 | Even without careless posts a run ends with a Failed row whose money moved |
| `ApiBudgets.ApiBudget.BeforeRequest` | tools/eks-assessment/src/eks_comprehensive_assessment.py:443-461 | Refusals in the order recorded reason, requests, duration; a grant takes the next start slot |
| `ApiBudgets.ApiBudget.AfterResponse` | tools/eks-assessment/src/eks_comprehensive_assessment.py:463-471 | Bytes and throttles are added; going over the byte limit records a reason unless there is one |
| `ApiBudgets.SlotsAreSpaced` | tools/eks-assessment/src/eks_comprehensive_assessment.py:455-461 | In every interleaving and for every clock, granted slots i before j are at least (j - i) delays apart |
| `ApiBudgets.WindowBound` | tools/eks-assessment/src/eks_comprehensive_assessment.py:455-461 | A window of length n holds at most n / delay + 1 slots |
| `ApiBudgets.NoNeedlessWait` | tools/eks-assessment/src/eks_comprehensive_assessment.py:455-461 | A slot is the moment of asking or one delay after the slot before it, never later |
| `ApiBudgets.GrantsAreCounted` | tools/eks-assessment/src/eks_comprehensive_assessment.py:448-458 | The request counter counts the grants exactly and they never pass the limit |
| `ApiBudgets.GrantedExactly` | tools/eks-assessment/src/eks_comprehensive_assessment.py:443-461 | A request is granted exactly while no reason is recorded, the requests are below the limit and the duration has not passed |
| `ApiBudgets.TotalsAddUp` | tools/eks-assessment/src/eks_comprehensive_assessment.py:455-471 | Over any interleaving the byte, throttle and retry counters are the sums over the run |
| `ApiBudgets.FirstReasonIsFinal` | tools/eks-assessment/src/eks_comprehensive_assessment.py:446-447 | The first exhaustion reason is permanent and blocks all later grants |
| `ApiBudgets.RefusalIsFinal` | tools/eks-assessment/src/eks_comprehensive_assessment.py:446-453 | A refusal leaves its reason behind, so the budget never reopens |
| `ApiBudgets.ReasonStaysJustified` | tools/eks-assessment/src/eks_comprehensive_assessment.py:443-471 | A recorded reason is a true one, the duration included, and bytes over the limit never go unrecorded |
| `ApiBudgets.RunRound` | tools/eks-assessment/src/eks_comprehensive_assessment.py:490-495 | One try takes one grant and accounts for one response, with other threads in between |
| `ApiBudgets.RunKubectl` | tools/eks-assessment/src/eks_comprehensive_assessment.py:487-499 | At most retries + 1 grants; each try but the last failed transiently; the result is the last response, or a refusal |
| `AwsCalls.AwsCollector.Call` | tools/eks-assessment/src/aws_eks_assessment.py:212-250 | Requests, retries and the coverage entry after one call, for every pattern of answers |
| `AwsCalls.CallAll` | tools/eks-assessment/src/aws_eks_assessment.py:212-250 | Any calls in turn on one collector send Used requests, never more than the maximum plus the retries, and record each key |
| `AwsCalls.OverrunIsBounded` | tools/eks-assessment/src/aws_eks_assessment.py:216-226 | Over any calls the requests stay within the maximum plus the retries |
| `AwsCalls.OverrunIsReached` | tools/eks-assessment/src/aws_eks_assessment.py:216-226 | That bound is met for every maximum and every number of retries |
| `CollectorPlan.LoadRegistry` | tools/eks-assessment/src/collector_registry.py:37-55 | Accepted exactly if not empty, ids unique, weights and timeouts positive, dependencies known |
| `CollectorPlan.Planner.AddDependencies` | tools/eks-assessment/src/collector_registry.py:88-105 | Terminates on cycles; adds only what every closed set must hold; an error names such a member that may not run; the cycle test cannot fire from an empty trail |
| `CollectorPlan.BuildPlan` | tools/eks-assessment/src/collector_registry.py:62-119 | Each error exactly when its condition holds; otherwise the plan is the least closure of the base selection, with every required collector, and fails exactly if that closure leaves what may run |
| `CollectorPlan.SelectionExactly` | tools/eks-assessment/src/collector_registry.py:75-90 | Which collectors a channel offers, which of them are required, and what the selection starts from, in terms of the entries |
| `CollectorPlan.ClosureIsReachability` | tools/eks-assessment/src/collector_registry.py:88-108 | A collector is planned exactly if a dependency chain from the base selection reaches it |
| `CollectorPlan.PlanInRegistryOrder` | tools/eks-assessment/src/collector_registry.py:109-119 | The plan lists exactly the closure's entries, each once and in registry order |
| `CollectorState.StateFile.InitState` | tools/eks-assessment/src/collector_registry.py:136-171 | The file after a start or a resume: kept records, with preflight and interrupted ones reset |
| `CollectorState.StateFile.UpdateState` | tools/eks-assessment/src/collector_registry.py:174-196 | A mark outside the plan is refused; otherwise that one record and the percentage change |
| `CollectorState.InitialExactly` | tools/eks-assessment/src/collector_registry.py:147-159 | Attempts are kept; preflight, interrupted records and, if asked, failures become PENDING, and a collector without a record is fresh |
| `CollectorState.MarkedExactly` | tools/eks-assessment/src/collector_registry.py:174-196 | One record gets the status, and one more attempt if it is RUNNING; the others stay |
| `CollectorState.ShouldRunExactly` | tools/eks-assessment/src/collector_registry.py:199-208 | A collector runs unless it passed, was skipped, or failed without being retried |
| `CollectorState.ProgressIsAccurate` | tools/eks-assessment/src/collector_registry.py:122-196 | Over any inits, marks and crashes the stored percentage is the one its own states give |
| `CollectorState.HundredExactly` | tools/eks-assessment/src/collector_registry.py:122-133 | 100 is shown exactly when 200 times the missing weight is at most the total; early only when the total is 200 or more |
| `CollectorState.ProgressIsNearest` | tools/eks-assessment/src/collector_registry.py:122-133 | The percentage is the nearest one to the ended share of the weight |
| `CollectorState.DoneAddsUp` | tools/eks-assessment/src/collector_registry.py:124-132 | The ended weight is the sum over planned collectors that passed, failed, were skipped, cancelled or timed out |
| `CollectorState.FinishingNeverLowers` | tools/eks-assessment/src/collector_registry.py:122-133 | Recording that a collector ended never lowers the percentage |
| `CollectorState.RunsExactlyThePending` | tools/eks-assessment/src/collector_registry.py:147-208 | After init, should_run with the same flag is true exactly for PENDING |
| `CollectorState.PassIsKeptExactly` | tools/eks-assessment/src/collector_registry.py:147-190 | A pass survives an event exactly unless it is a fresh start, the preflight reset, a plan without the collector, or another mark |
| `CollectorState.PassedIsNeverRerun` | tools/eks-assessment/src/collector_registry.py:136-208 | Across crashes and resumes, with RUNNING only after should_run, the record of a passed collector never changes |
| `CollectorState.RerunExactly` | tools/eks-assessment/src/collector_registry.py:136-208 | Over any run of resumes and marks by whomever, a passed collector is run again exactly if its last mark is neither PASS nor SKIPPED, nor a FAIL that nobody retries |
| `CollectorState.RemarkedIsRerun` | tools/eks-assessment/bin/eks-assessment.sh:758-766 | A pass marked FAIL afterwards is run again by a resume that retries failures |
| `BundlePaths.PartsOfJoin` | tools/eks-assessment/src/collection_bundle.py:59-60 | Spelling path parts out and reading them back gives the same parts |
| `BundlePaths.JoinIsInjective` | tools/eks-assessment/src/collection_bundle.py:174-174 | Different paths never share a normalised name |
| `Bundles.ScanMembers` | tools/eks-assessment/src/collection_bundle.py:163-174 | The member loop accepts exactly archives whose members are all admitted and fit the size limit, and collects the last content of each name |
| `Bundles.InspectBundle` | tools/eks-assessment/src/collection_bundle.py:154-195 | Inspection succeeds exactly if the declarative condition holds for some root and manifest |
| `Bundles.CollectExpected` | tools/eks-assessment/src/collection_bundle.py:203-210 | Unsafe manifest paths are refused, and the last entry of a path wins |
| `Bundles.CheckContents` | tools/eks-assessment/src/collection_bundle.py:214-226 | Passes exactly if every expected name has its declared size and digest |
| `Bundles.VerifyBundle` | tools/eks-assessment/src/collection_bundle.py:198-235 | Verification succeeds exactly if the archive is Verified for some manifest, and returns that manifest |
| `Bundles.RootIsCollection` | tools/eks-assessment/src/collection_bundle.py:175-213 | Acceptance forces the archive's root directory to be named collectionId |
| `BundleExactly.PartsOfSegments` | tools/eks-assessment/src/collection_bundle.py:59-60 | A name is read segment by segment, empty segments and single dots dropped |
| `BundleExactly.InspectedExactly` | tools/eks-assessment/src/collection_bundle.py:154-195 | Inspection accepts exactly: at most 10 100 entries, 2 GiB of files, safe names under one well-formed root, allowed kinds, and a manifest that meets the schema |
| `BundleExactly.VerifiedExactly` | tools/eks-assessment/src/collection_bundle.py:198-235 | A bundle is accepted exactly if it can be inspected, its root is the collection, its manifest paths are safe, no file stands in the place of the root, and it holds the declared files with sizes and digests and no others |
| `BundleImport.Tree.MakeDir` | tools/eks-assessment/src/collection_bundle.py:255-257 | A directory and its parents appear unless a file is in the way |
| `BundleImport.Tree.WriteFile` | tools/eks-assessment/src/collection_bundle.py:260-265 | A file is created or replaced unless a file is above it or a directory in its place |
| `BundleImport.PlaceMember` | tools/eks-assessment/src/collection_bundle.py:249-266 | One turn of the extraction loop: what it changes and exactly when it fails |
| `BundleImport.CollectionRoot.Extract` | tools/eks-assessment/src/collection_bundle.py:246-266 | Extraction succeeds exactly if no path is wanted as file and directory, and leaves the last content of each path |
| `BundleImport.CollectionRoot.ImportBundle` | tools/eks-assessment/src/collection_bundle.py:238-271 | Success adds exactly the extracted files under the collection's id; failure changes nothing and has one of three causes |
| `BundleTheorems.FilesAreMembers` | tools/eks-assessment/src/collection_bundle.py:163-266 | The verified name-to-content map and the extracted path-to-content map agree, whatever the spelling and repetition of names |
| `BundleExactly.LastFileCounts` | tools/eks-assessment/src/collection_bundle.py:246-266 | Of several members for one path the last gives the content |
| `BundleExactly.LastEntryCounts` | tools/eks-assessment/src/collection_bundle.py:203-210 | Of several manifest entries for one path the last counts |
| `BundleTheorems.VerifiedIsImported` | tools/eks-assessment/src/collection_bundle.py:198-271 | For any accepted archive, the imported files are exactly the manifest's paths and the manifest file, with declared sizes and digests, all strictly inside |
| `BundleExport.ExportFiles` | tools/eks-assessment/src/collection_bundle.py:63-74 | A symbolic link refuses the export; otherwise it takes, in order, exactly the regular files with no dot-led part whose name is none of the three and has none of the four extensions |
| `BundleExport.ExportedExactly` | tools/eks-assessment/src/collection_bundle.py:28-74 | A file is exported exactly if it is regular, no part starts with a dot, and its lower-cased name is not bundle-manifest.json, dashboard-token or kubeconfig nor a stem with .log, .pid, .lock or .tmp |
| `BundleExport.DescribeFiles` | tools/eks-assessment/src/collection_bundle.py:108-119 | The entries of all files, or a refusal exactly if their total passes the limit |
| `BundleExport.CopyFiles` | tools/eks-assessment/src/collection_bundle.py:139-142 | The staging tree holds exactly the exported files and the directories above them |
| `BundleExport.ExportBundle` | tools/eks-assessment/src/collection_bundle.py:97-151 | Export succeeds exactly if Exportable, and stages the files with their manifest |
| `BundleExactly.ExportableExactly` | tools/eks-assessment/src/collection_bundle.py:97-151 | Export goes through exactly for a well-named valid collection without links, with at most 10 000 files and 2 GiB, none below a directory named bundle-manifest.json |
| `BundleExport.ExportedFitTogether` | tools/eks-assessment/src/collection_bundle.py:139-142 | No exported file stands where another needs a directory |
| `BundleRoundTrip.TotalIgnoresOrder` | tools/eks-assessment/src/collection_bundle.py:170-173 | The size of an archive does not depend on its member order |
| `BundleRoundTrip.ImportReproducesExport` | tools/eks-assessment/src/collection_bundle.py:97-271 | Extracting the archive of an export, in any member order, gives byte for byte the exported files and the manifest |
| `BundleRoundTrip.RoundTripExactly` | tools/eks-assessment/src/collection_bundle.py:97-235 | The archive of an export verifies exactly if entries with directories and manifest, and bytes with the manifest, fit the limits and the tool names its version |
| `BundleRoundTrip.ImportExportsTheSame` | tools/eks-assessment/src/collection_bundle.py:63-74 | Exporting the imported directory selects the same files as the original |
| `BundleLimits.WideExportIsRefused` | tools/eks-assessment/src/collection_bundle.py:97-160 | Any collection that exports still does with n more directories of one empty file each, validation included; once the entries pass the limit no manifest verifies the archive |
| `BundleLimits.EveryCollectionOutgrows` | tools/eks-assessment/src/collection_bundle.py:97-160 | Every collection that exports with up to 9 900 files has such an extension that exports and is refused |
| `BundleLimits.RootFilesStay` | tools/eks-assessment/src/assessment_contracts.py:152-201 | The added directories leave the root files, which validation reads, as they were |
| `Validator.ValidateValue` | tools/eks-assessment/src/assessment_contracts.py:77-126 | No report exactly if the value conforms; the reports are exactly the violations, each with its kind and the steps to the sub-value where it stands |
| `Validator.ItemReports` | tools/eks-assessment/src/assessment_contracts.py:108-114 | No report exactly if every item conforms to the item schema; otherwise exactly the violations inside the items |
| `Validator.PropertyReports` | tools/eks-assessment/src/assessment_contracts.py:120-125 | No report exactly if every known property conforms and, in a closed schema, none is unknown; otherwise exactly the violations inside known properties and the unknown ones |
| `Validator.ValueReports` | tools/eks-assessment/src/assessment_contracts.py:93-96 | const and enum, under Python equality, each reported exactly when it is violated |
| `Validator.TextReports` | tools/eks-assessment/src/assessment_contracts.py:97-102 | minLength and pattern, for strings only, each reported exactly when it is violated |
| `Validator.RangeReports` | tools/eks-assessment/src/assessment_contracts.py:103-107 | minimum and maximum, for numbers that are not booleans, each reported exactly when it is violated |
| `Validator.MemberReports` | tools/eks-assessment/src/assessment_contracts.py:108-119 | minItems and required, with the names of the missing properties |
| `Validator.ViolationLeads` | tools/eks-assessment/src/assessment_contracts.py:77-126 | Every violation stands at a sub-value of the value examined |
| `ValidatorLaws.StrengtheningShrinks` | tools/eks-assessment/src/assessment_contracts.py:77-126 | Strengthening a sub-schema at any depth only shrinks the accepted set |
| `ValidatorLaws.JsonEqExactly` | tools/eks-assessment/src/assessment_contracts.py:93-96 | The standard's equality is Python's together with equal kinds at every aligned number or boolean |
| `ValidatorLaws.ComparisonAgreesExactly` | tools/eks-assessment/src/assessment_contracts.py:93-96 | Comparing a value with a constant means the standard's equality exactly unless they are equal in Python with a boolean against a number somewhere |
| `ValidatorLaws.BooleanConstant` | tools/eks-assessment/src/assessment_contracts.py:93-94 | A boolean constant is confused with the number it stands for and with nothing else |
| `ValidatorLaws.ConstantAgreesExactly` | tools/eks-assessment/src/assessment_contracts.py:93-96 | const means the standard's equality for every value exactly if it holds no boolean and no 0 or 1 |
| `ValidatorLaws.TypeAgreesExactly` | tools/eks-assessment/src/assessment_contracts.py:59-74 | The type keyword differs from the standard, given constructor by constructor, exactly on whole floats as integers and on unknown names |
| `ValidatorLaws.AgreesWithStandard` | tools/eks-assessment/src/assessment_contracts.py:77-126 | For every schema and value where anyOf stands alone and each type name, const and enum entry that the value meets reads alike, the validator decides what the standard defines |
| `ValidatorLaws.StandardIsAccepted` | tools/eks-assessment/src/assessment_contracts.py:77-126 | For every schema, the validator accepts what the standard accepts, but for integers written with a fractional point |
| `ValidatorLaws.PlainSchemaIsAligned` | tools/eks-assessment/src/assessment_contracts.py:77-126 | A schema with unmistakable constants and anyOf alone is aligned with every value that has no whole floats |
| `ValidatorLaws.SiblingsAgreeExactly` | tools/eks-assessment/src/assessment_contracts.py:80-84 | Keywords beside anyOf change nothing, so where the alternatives agree the schema agrees with the standard exactly if an accepted value meets those keywords too |
| `ValidatorLaws.SiblingIgnored` | tools/eks-assessment/src/assessment_contracts.py:80-84 | A value the standard rejects is accepted because of that |
| `Sensitive.TruncationStaysClean` | tools/eks-assessment/src/eks_comprehensive_assessment.py:293-299 | Cutting a value at 600 characters and adding dots never makes it match the sensitive pattern |
| `Sensitive.MatchesExactly` | tools/eks-assessment/src/eks_comprehensive_assessment.py:58-58 | A text is sensitive exactly if it contains, in any case, one of five words or one of four pairs of words with at most one character between |
| `Sensitive.FoldExactly` | tools/eks-assessment/src/eks_comprehensive_assessment.py:58-58 | Ignoring case folds the ASCII capitals and four further letters |
| `SanitizerLaws.SanitizeTwice` | tools/eks-assessment/src/eks_comprehensive_assessment.py:319-367 | Both sanitizers are idempotent on every tree |
| `SanitizerLaws.ManifestAfterSnapshot` | tools/eks-assessment/src/eks_comprehensive_assessment.py:319-367 | The manifest sanitizer gives the same result before and after the snapshot sanitizer |
| `SanitizerLaws.SanitizeHides` | tools/eks-assessment/src/eks_comprehensive_assessment.py:275-367 | Trees that differ only in withheld places have equal output |
| `SanitizerLaws.EnvTwice` | tools/eks-assessment/src/eks_comprehensive_assessment.py:302-316 | Sanitizing an environment list twice is sanitizing it once |
| `SanitizerLaws.MetadataTwice` | tools/eks-assessment/src/eks_comprehensive_assessment.py:275-285 | Cleaning metadata twice is cleaning it once |
| `SanitizerLaws.KeyListKeys` | tools/eks-assessment/src/eks_comprehensive_assessment.py:355-358 | The keys under which key lists are stored are not themselves treated specially |
| `SanitizerExactly.MetadataField` | tools/eks-assessment/src/eks_comprehensive_assessment.py:275-285 | Six volatile fields go, annotations with sensitive names are redacted, everything else stays |
| `SanitizerExactly.EnvEntry` | tools/eks-assessment/src/eks_comprehensive_assessment.py:293-316 | Only the value of an entry changes: shown, cut after 600 characters, for a runtime setting with harmless name and value, else redacted |
| `SanitizerExactly.EmitExactly` | tools/eks-assessment/src/eks_comprehensive_assessment.py:319-367 | What a field comes out as, by its key: metadata, environment, data as its key names, redacted, or sanitized in turn |
| `SanitizerExactly.LastFieldComesOut` | tools/eks-assessment/src/eks_comprehensive_assessment.py:324-341 | The last retained field with an output key is the one that comes out under it |
| `SanitizerFixpoints.FixedExactly` | tools/eks-assessment/src/eks_comprehensive_assessment.py:319-367 | A tree comes out unchanged exactly if it is clean: nothing else is removed |
| `SanitizerFixpoints.OutputIsClean` | tools/eks-assessment/src/eks_comprehensive_assessment.py:319-367 | Every output is clean: no dropped key, no volatile metadata, nothing under a redacted key, only presentable environment values |
| `PodRequests.AddQuantity` | tools/eks-assessment/src/operational_insights.py:80-86 | Each resource grows by what is asked of it, an absent quantity counting zero |
| `PodRequests.Total` | tools/eks-assessment/src/operational_insights.py:92-96 | The load of all containers together |
| `PodRequests.InitPeak` | tools/eks-assessment/src/operational_insights.py:99-109 | One pass over the init containers finds the sidecar load and the highest stage before the regular containers |
| `PodRequests.PodRequest` | tools/eks-assessment/src/operational_insights.py:89-117 | The result is overhead plus the larger of the pod-level request and the peak of the whole ordered start-up |
| `PodRequests.PeakIsTight` | tools/eks-assessment/src/operational_insights.py:97-117 | The peak bounds every stage and some stage reaches it |
| `PodRequests.EffectiveRefinesSimple` | tools/eks-assessment/src/eks_semantic_assessment.py:163-177 | Never below the simpler form; without sidecars equal to it exactly if the pod-level request does not exceed the rest |
| `Utf8Logs.DecodeOfEncode` | tools/eks-assessment/src/operational_insights.py:511-514 | Decoding undoes encoding on every string of scalar values |
| `Utf8Logs.FrontExactly` | tools/eks-assessment/src/operational_insights.py:511-514 | The decoder recognises exactly the encodings of section 3 of RFC 3629 |
| `Utf8Logs.DecodeOfCut` | tools/eks-assessment/src/operational_insights.py:514-514 | Decoding a cut encoding, ill-formed bytes ignored, gives the characters that fit whole |
| `Utf8Logs.PrefixIsLongest` | tools/eks-assessment/src/operational_insights.py:510-514 | The result is the longest prefix that fits, wastes at most 3 bytes if cut, and the flag says whether anything was cut |
| `Utf8Logs.Collect` | tools/eks-assessment/src/operational_insights.py:525-536 | A target's content is the longest fitting prefix of the redacted longest fitting prefix of its output |
| `Utf8Logs.SanitizedLogs` | tools/eks-assessment/src/operational_insights.py:517-539 | At most 20 targets in order; the byte count is the sum of the stored contents and within the limit; an early stop means the limit is used up exactly |
| `Money.MarshalJSON` | app/store-service-go/main.go:38-46 | Prints the canonical text of every amount but the smallest, which comes out garbled |
| `Money.MoneyVariable.UnmarshalJSON` | app/store-service-go/main.go:48-77 | Accepts exactly the texts with a reading whose units fit, stores the wrapped amount, and leaves the variable alone otherwise |
| `Money.WrapExactly` | app/store-service-go/main.go:64-76 | Arithmetic leaves the int64 that differs by a multiple of two to the power 64 |
| `Money.ReadingIsUnique` | app/store-service-go/main.go:48-63 | A text has at most one reading |
| `Money.RoundTripExactly` | app/store-service-go/main.go:38-77 | Reading back a printed amount gives it again exactly if it is not the smallest int64 |
| `Money.ExactWhenItFits` | app/store-service-go/main.go:64-76 | An accepted text is read without loss exactly if its amount lies in the int64 range |
| `Money.BeyondRangeWraps` | app/store-service-go/main.go:64-76 | Every amount beyond the range whose units fit is accepted and read as another one |
| `Money.FirstBeyondRange` | app/store-service-go/main.go:64-76 | The text 92233720368547759.00 is read as a negative amount |
| `Money.CanonicalIsUnique` | app/store-service-go/main.go:38-46 | The printed reading is the only canonical one of its amount |
| `Money.ReprintingIsCanonical` | app/store-service-go/main.go:38-77 | Re-printing an accepted text gives the canonical text of the same amount, and the text itself exactly if it was canonical |

## Left out

Modelled more simply than the source:

- Killing is atomic and a handle is never reused; grace periods, operating-system signals and thread start-up are not
  modelled.
- `SupervisorProtocol.StopLeavesNoChild`: speaks of the spawned leader processes. Helpers of a leader that has exited by
  itself are not ended (assessment_process_supervisor.py:24-25) and are not modelled.
- Time is an integer number of milliseconds and an input to each step. Timestamps, durations and error texts that are
  only displayed are not part of the records.
- `Supervisor.CollectionSupervisor.Cancel`: only the locked part; the kill that follows is a step of the protocol. Standard
  output and error of a run are not modelled.
- `PaymentProtocol.Agreement`: the keyed hash is taken to be free of collisions, and the issuer may answer anything.
  String lengths count scalar values instead of UTF-16 units, and case mapping covers the ASCII letters.
- `TransferRuns.TransferSafety`: the part of a transfer under the row locks, up to the commit, is one step; same-key
  requests lock the same accounts. Reversals, which are another entry point, and card payments appear only as other money
  that enters or leaves an account. A completion time may be rewritten by a second completion; it is never cleared.
- `ApiBudgets.RunKubectl`: the number of retries is not negative, as the command line guarantees; back-off sleeps are part
  of the next clock reading. The same holds for `AwsCalls.AwsCollector.Call`.
- `CollectorPlan.BuildPlan`: labels are not carried, and the registry is one that `LoadRegistry` accepts.
- `CollectorState.StateFile.UpdateState`: exit codes, details and timestamps are not kept. Replacing the file is atomic, so
  a crash falls between writes.
- `Bundles.VerifyBundle`: the archive, read three times by the program, is one value. Digests and the manifest's JSON are
  parameters; the schema's demands are those on the fields modelled. File modes are not modelled.
- `BundleImport.CollectionRoot.Extract`: a file system that takes every name. Names that a real one refuses, with a NUL
  character or an over-long component, fail the extraction as well.
- `BundleExport.ExportBundle`: whether validation passes is an input; where it matters (`BundleLimits`) it is any predicate
  of the files directly in the collection, the only ones it reads. A directory listing is well formed: one entry a
  path, nothing below a regular file.
- `Validator.ValidateValue`: messages are not rendered, patterns are matched by a parameter, floats are reals without NaN,
  and the keys of an object are visited in any order;
  so the reports are determined as a set, not in their order.
- `SanitizerLaws.SanitizeTwice`: how values other than strings print, which environment names are runtime settings, and the
  order of sorted keys are parameters. The event sanitizer is not modelled.
- `PodRequests.PodRequest`: over non-negative quantities already parsed, as reals.
- `HalfEven.RoundDivMonotone`: rounds the exact quotient; the program rounds a float, which agrees while the total weight
  stays below 2^45.
- `Utf8Logs.SanitizedLogs`: redaction is an arbitrary function from text to text, and the form of a target name is an input.
  A log command that times out is not modelled, nor are lone surrogates, which decoded output does not contain.
- `Money.MoneyVariable.UnmarshalJSON`: the input is text; bytes that are not UTF-8 are not modelled.

Not modelled:

- The dashboard, the React front end, HTTP clients, kubectl and cloud commands, health checks, database set-up and the
  message queue: foreign input and output, or thin.
- The rule catalogues (CIS checks, semantic findings, best practices, gate tables): long lists of one-branch verdicts.
- Quantity parsing, Prometheus queries and capacity estimates: floating point or foreign data.
- Pruning of old collections and bundles: a filter over dates.
