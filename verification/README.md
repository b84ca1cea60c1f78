# Idena test bot: a verified model

The bot drives a network of Idena nodes through validation epochs. A JSON scenario says which users to
create, start, stop and test; a process creates them, sends every user through a validation round in its own
goroutine, answers flips, hands pool owners to other bots over HTTP and writes a log. This project models the
cores of that system and proves what they keep.

- **Scenario compiler** (`Nums`, `NewUsersPlan`, `NewUsersValidation`, `Ceremonies`, `CeremonyLookup`,
  `NodeSwitches`): the number-list parser with its exact grammar, the validator, the population table, and the
  conversion to maps indexed by epoch, node and user. What the validator accepts is stated as a predicate on
  the scenario; the conversion is shown never to overwrite an accepted entry.
- **Population of a run** (`Nodes`, `Population`, `PopulationOverrun`, `PopulationGodNode`, `NamedUsers`): creating
  users, their ports and the share of low-power nodes; when the validator's table, the converted sections and
  `process.users` agree at the end of every epoch, and so when the users a ceremony names exist.
- **A validation round** (`Round`, `RoundInviters`, `RoundSafety`, `RoundTesting`, `RoundOverlap`, `RoundOverrun`, `RoundGodNode`,
  `RoundLateInviter`, `RoundProgress`, `FlipGate`): a transition system of any number of goroutines over the
  pre-charged WaitGroup, the mutex around user creation and the suffix of users taken after unlocking; and the
  buffered channel that bounds concurrent flip submissions.
- **Answers** (`Answers`, `PreparedAnswers`): the greedy filter with its conservation law and optimality, the
  alignment to flip positions and the cap on reports.
- **Pools** (`Pools`): the first-fit allocator over whole request streams, its panics and its wire format.
- **Logging** (`Logfmt`, `LogfmtDecoder`, `LogfmtColumns`, `LogContext`, `LogReach`, `LogPipeline`, `LogFile`,
  `Utf8`, `LogRecovery`, `Glog`, `GlogRuleset`, `GlogRace`): the printer, its columns and a decoder that undoes it;
  record contexts on their way through the handlers, the sinks they reach and the lines printed there; recovery and
  rotation of log files; and the rules and the call-site cache of the glog handler under every interleaving.
- **Transaction ring** (`TxRing`). `Text`, `Lines`, `Lists` and `Wrappers` hold shared definitions.

Strings are sequences of valid runes (bytes in `LogFile` and, encoded, in `LogRecovery`). Random draws, clocks,
node replies, map iteration orders and outcomes of I/O are inputs. Rates are exact reals. Locks and atomics are
atomic steps.

What the code turned out to do, beyond what its comments and messages say:

- Taking the newcomers after unlocking lets two inviters test the same user twice. That can happen exactly when
  two users that exist can come to have sections at the same time, which going through the sections one by one
  decides (`RoundOverlap.TestedTwiceExactlyByOverlap`).
- A god bot whose god node is alone drives the WaitGroup below zero, and with inviters that exist at the start
  nothing else does (`RoundGodNode.NegativeExactly`). An inviter created during the round can be tested twice and
  drive it below zero too (`RoundLateInviter.LateInviterGoesNegative`).
- The bot goes on as soon as the counter is zero. When the counter can go negative, and only then, it can go on with
  goroutines running and with more users than the table has (`RoundOverrun.OverrunExactly`,
  `PopulationOverrun.TableFailsExactly`); an accepted scenario of two users and three sections does
  (`PopulationOverrun.AcceptedRunOverruns`). The table is right when the inviters of every epoch exist at its start or
  two are never at work at once (`Population.RunMatchesTable`).
- A god bot that starts with one user has fewer users than the table from the first listed epoch on
  (`PopulationGodNode.LoneGodRun`).
- An inviter that returns early leaves the counter positive for good, so the round ends in its timeout
  (`RoundProgress.StuckExactly`, `RoundProgress.CounterCanStayPositive`).
- A ceremony section whose epoch list parses to nothing, such as `"5-3"`, makes the validator index an empty
  list (`Ceremonies.ValidateCeremonies`, with `Nums.DescendingRangeParsesToNothing`).
- The limit on a ceremony's users is that of its last listed epoch, so an accepted user can be missing in an
  earlier one (`NamedUsers.AcceptedUserIsMissing`); it exists in all of them if and only if it is below the limit
  of the smallest (`NamedUsers.NamedUsersExist`).
- The check for two newUsers sections with the same epoch and inviter compares addresses of inviters and finds
  only sections without an inviter (`NewUsersValidation.SameSectionTwice`).
- A rotation that fails to open its next file makes every later call close a nil writer (`LogFile.CrashExactly`,
  `LogFile.OneFailedRotation`).
- A log file whose last chunk holds no complete record keeps the bot from starting its log: a chunk that was created
  and not yet written to is enough (`LogFile.RotatingFile.Start`, `LogRecovery.Restart`).
- A log call is not atomic with respect to `Verbosity` and `Vmodule` together (`GlogRace.LogIsNotAtomic`), only
  with respect to each alone (`GlogRace.CallIsAtomicForOneWriter`); it fits neither configuration exactly when the
  level is raised and the rules are taken away (`GlogRace.CallFitsNeitherExactly`).
- Logging an odd number of arguments from a slice with spare capacity writes into that slice's array
  (`LogContext.Normalized`).
- A rate above one makes a pool request panic, with a place lost for each address and one more, exactly when more
  places are free than the request has addresses (`Pools.PlacesAreLostExactly`).
- A single delegatee named `OK` is lost on the wire, and an empty address list arrives as one empty address
  (`Pools.ReplyRoundTrip`, `Pools.RequestRoundTrip`).

## Model

| member | source | states |
|---|---|---|
| Nums.ParseNums | scenario/utils.go:13-39 | the parsing loops compute the specification Parse: pieces in order, an error in any piece an error of the whole |
| Nums.AppendRange | scenario/utils.go:27-29 | the range loop appends exactly the numbers from first to last, none when the range descends |
| Nums.ParseFailsExactly | scenario/utils.go:13-39 | parsing fails if and only if some comma piece is neither a number without a dash nor a number, a dash and anything Atoi accepts |
| Nums.PieceGrammar | scenario/utils.go:17-36 | one piece parses if and only if it is a number or splits at its first dash into two |
| Nums.ParsedNumbersAreNotNegative | scenario/validation.go:244-247 | no successful parse yields a negative number, so the later checks for negative epochs and users cannot fire |
| Nums.RenderParseRoundTrip | scenario/utils.go:13-39 | any list of singletons and ranges, written out and parsed, yields their numbers in order |
| Nums.DescendingRangeParsesToNothing | scenario/utils.go:27-29 | a descending range is accepted and stands for no number |
| NewUsersPlan.AddSection | scenario/validation.go:193-201 | a section adds its count once per listing of an epoch and raises the last epoch to its greatest |
| NewUsersPlan.BuildEpochUserCounts | scenario/validation.go:187-209 | the table ends at the last listed epoch, and its entry for e is the scenario's users plus all counts listed for epochs 0 to e |
| NewUsersPlan.AppendSection | scenario/conversion.go:67-78 | each epoch's list grows by one copy of the section per listing |
| NewUsersPlan.ConvertEpochNewUsers | scenario/conversion.go:56-80 | every epoch holds, in scenario order, one section per listing, behind the section of the scenario's own users in epoch 0 |
| NewUsersPlan.EntriesBySection | scenario/conversion.go:67-78 | the converted list of an epoch consists of one block per section, in scenario order, as long as the section lists the epoch often, each entry with the section's inviter, command, count, shared node and invite amount |
| NewUsersPlan.TotalOfEntries | scenario/conversion.go:67-78 | the counts converted for an epoch are the counts listed for it |
| NewUsersPlan.ConvertedIsListed | scenario/conversion.go:56-80 | converted sections of both kinds up to an epoch hold the scenario's users plus everything listed up to then |
| NewUsersValidation.ValidateEpochNodes | scenario/validation.go:101-112 | accepts exactly lists that parse, repeat no epoch and meet no used key of the same pointer; takes exactly these keys |
| NewUsersValidation.ValidateNewUsers | scenario/validation.go:73-87 | accepts exactly sections with a fitting epoch list, a positive count and no negative inviter |
| NewUsersValidation.ValidateAllNewUsers | scenario/validation.go:63-71 | accepts exactly when every section is in order and no two sections without an inviter share an epoch |
| NewUsersValidation.SameSectionTwice | scenario/validation.go:232-242 | a section may stand twice if and only if it has an inviter or lists nothing, although the key was meant to prevent it |
| Population.TableMatchesConversion | scenario/validation.go:187-209 | at every epoch the table, read past its end at its last entry, equals the converted sections up to then, less what an override of the user number added |
| Population.CreateEpochNewUsers | process/process.go:163-173 | going through an epoch's sections creates users to the population BeforeFlips says, those of each section on the node it names or on their own, keeping those there were |
| Population.PopulationIsTheSumExactly | process/process.go:229-247 | created in order from nothing, the population is the summed count if and only if the god node is not left alone by a first section of one user followed by another |
| Population.AcceptedSectionsCreate | scenario/validation.go:63-87 | an accepted scenario converts to sections that all create somebody and have valid inviters |
| Population.EpochAddsItsSections | process/verification.go:26-60 | any interleaving of an epoch's round up to a zero counter adds at least the counts of its later sections, and no more if and only if everybody is done; everybody is when the inviters exist at its start or two are never at work at once |
| Population.RoundEndsAtTheSum | process/verification.go:180-188 | a round that spawned every section once and brought the counter to zero has everybody done and the summed counts added |
| Population.RunMatchesTableExactly | process/verification.go:48-60 | in every run of an accepted scenario, while nobody was left running before, an epoch ends with at least the table's entry, corrected by the override, and with no more if and only if everybody is done; in god mode with two starting users |
| Population.RunMatchesTable | scenario/validation.go:187-209 | when the inviters of every epoch so far exist at its start or two are never at work at once, which the scenario alone decides, every run ends the epoch with the corrected entry and everybody done |
| Population.RunMatchesTableWhenSpawnedOnce | process/verification.go:180-188 | whoever the inviters are, a run in which every section was spawned once ends its epochs with the corrected entries |
| PopulationOverrun.TableFailsExactly | process/verification.go:39-48 | the next epoch of a run can end with a population other than the corrected entry if and only if the counter of its round can go negative |
| PopulationOverrun.AcceptedRunOverruns | process/verification.go:39-48 | two users, then one more each by users 0, 1 and 3 after the flips of epoch 0: accepted, five in the table, and a run that ends the epoch with more and somebody running |
| PopulationGodNode.LoneGodRun | process/process.go:229-247 | in every run of a god bot that starts with one user and creates none after flips, the table is right at an epoch if and only if nothing is listed up to it |
| Ceremonies.ValidateEpochs | scenario/validation.go:89-99 | accepts exactly lists that parse, repeat no epoch and meet no used epoch; marks exactly these |
| Ceremonies.ValidateCeremonyUsers | scenario/validation.go:329-353 | accepts exactly lists that parse, repeat no user, stay below the limit and meet no used user; marks exactly these |
| Ceremonies.ValidateUserCeremony | scenario/validation.go:265-281 | adds the checks on submitFlips and the deprecated answers to those on the users |
| Ceremonies.ValidateUserCeremonies | scenario/validation.go:255-263 | accepts exactly entries that are each in order and list pairwise different users |
| Ceremonies.ValidateCeremony | scenario/validation.go:211-230 | accepted, rejected or panicking: panics exactly when the epochs parse to nothing, else checks the users against the last listed epoch, clamped to the table |
| Ceremonies.ValidateCeremonies | scenario/validation.go:177-185 | accepted if and only if all sections are in order with pairwise different epochs; panics if and only if some section parses to no epoch behind sections in order |
| CeremonyLookup.WriteAll | scenario/conversion.go:163-165 | the inner loop maps exactly the listed keys to the value and leaves the others |
| CeremonyLookup.ConvertUserCeremonies | scenario/conversion.go:177-187 | a user finds the last entry that lists it, and nobody else is in the map |
| CeremonyLookup.ConvertCeremonies | scenario/conversion.go:158-168 | an epoch finds the conversion of the last section that lists it, and no other epoch is in the map |
| CeremonyLookup.LookupFindsTheOnlyListing | scenario/conversion.go:158-187 | once the sections are accepted nothing is overwritten: an epoch finds the one section that lists it, in it each user the one entry that lists it, below the limit, and nothing else is found |
| CeremonyLookup.OrderDoesNotMatter | scenario/conversion.go:158-187 | accepted sections in any other order are accepted too and convert to the same maps |
| NamedUsers.ExistsExactly | scenario/validation.go:187-209 | in every run of an accepted scenario with orderly epochs (inviters that exist at the start of the round, or never two at work at once) exactly the users below the table's entry, corrected by any override, exist at the end of an epoch |
| NamedUsers.NamedUsersExist | scenario/validation.go:211-225 | with orderly epochs, a user that an accepted ceremony names exists in all its listed epochs of a run if and only if it is below the corrected table entry of the smallest of them |
| NamedUsers.NamedUsersExistFromTheLastEpoch | scenario/validation.go:215-222 | acceptance compares with the last listed epoch: from there on the user exists, unless the override takes users away |
| NamedUsers.AcceptedUserIsMissing | scenario/validation.go:215-222 | one user, a second in epoch 5, a ceremony for user 1 in the epochs "0,5": accepted, and a run ends epoch 0 without user 1 |
| NodeSwitches.AddSwitch | scenario/conversion.go:116-128 | one round of the inner loop leaves the list of that epoch and node equal to its stably sorted extension and no other list changed, although an epoch's first entry is not sorted |
| NodeSwitches.AddSection | scenario/conversion.go:111-131 | a section extends every list by one entry per listing of epoch and node and leaves it sorted |
| NodeSwitches.ConvertNodeSwitches | scenario/conversion.go:96-134 | every list equals one stable sort of all its entries, starts before stops |
| NodeSwitches.EntriesBySection | scenario/conversion.go:109-124 | the entries of a node in an epoch come section by section, each once per listing of epoch and node, with its direction and its seconds as nanoseconds |
| NodeSwitches.SwitchIsMade | scenario/conversion.go:120-124 | a delay is a thousand million times its seconds, wrapped to 64 bits when that does not fit |
| NodeSwitches.SwitchListIsOrdered | scenario/conversion.go:96-134 | the list is ascending, has the multiset of the entries, keeps ties in scenario order with starts first, and is the only list that does |
| NodeSwitches.SortingEarlyIsHarmless | scenario/conversion.go:126-128 | sorting before appending more and sorting again equals sorting everything at once |
| NodeSwitches.StableSortSorts | scenario/conversion.go:126-128 | the sort is ascending, loses nothing and keeps the order of equal delays |
| NodeSwitches.StableOrderIsUnique | scenario/conversion.go:126-128 | two ascending lists with the same entries per delay are equal, so every stable sort gives this result |
| Nodes.Process.constructor | process/init.go:105-138 | the god bot starts with the god node, shared profile and first ports, as its only user; others with none |
| Nodes.Process.DefineNewNodeProfile | process/process.go:348-366 | shared exactly for the god node and shared nodes; low power exactly when the rate is not zero, somebody has an own node and the low-power nodes do not exceed the rate times these |
| Nodes.Process.CreateUser | process/process.go:297-346 | appends the user of that index, on its own node or the one named, with its ports or its parent's and low power exactly when due, counts it and keeps the class invariant |
| Nodes.Process.CreateUsers | process/process.go:278-284 | appends count users, all on the node named or each on its own, and keeps the others |
| Nodes.Process.StartNewNodes | process/process.go:229-247 | returns the last count users; the population grows by count, less one when the god bot was alone; all newcomers live on the node named or on their own |
| Nodes.PortsAreDistinct | process/process.go:299-321 | ports of two nodes differ within each family, and across families while the users fit the gap between the first ports |
| Nodes.CreationKeepsRate | process/process.go:348-366 | one creation keeps the low-power share between its bounds |
| Nodes.LowPowerShare | process/process.go:348-366 | for every creation sequence with a rate r in [0,1] the low-power count lies between r(n-1) - rs and r(n-1) + 1 |
| Round.StepKeepsInv | process/verification.go:180-188 | every step of every goroutine keeps the counter equation, the indices, the block layout and each goroutine's local state |
| Round.ExecKeepsInv | process/verification.go:26-74 | the invariant holds after every run |
| RoundInviters.WhoInvites | process/verification.go:180-188 | in every reachable state whoever checks, creates or has created for a section is the user its inviter names, or user 0 when it names none |
| RoundInviters.WhoGoesOn | process/verification.go:180-188 | in the loop a goroutine begins with exactly the sections of its user and passes exactly the others |
| RoundInviters.SpawnedByItsInviter | process/verification.go:180-188 | in every reachable state of every round a section was spawned once by each goroutine of its inviter that has passed it, and by no other |
| RoundInviters.NeverSpawnedForIt | process/verification.go:150-188 | in a run in which a user that exists at the start took the early return none of its sections is spawned; those without an inviter are user 0's |
| RoundInviters.EverySectionCanBeSpawned | process/verification.go:33-74 | when the inviters exist at the start, some run spawns every section once and ends at counter zero with everybody done and exactly the summed counts added |
| RoundInviters.OneUserSpawnsItAll | process/verification.go:180-188 | one user and one section without an inviter: some run ends at counter zero with all its users |
| RoundSafety.CounterEquation | process/verification.go:33-39 | in every reachable state the counter is the running goroutines plus the counts of sections not yet spawned, and user i carries index i |
| RoundSafety.BlocksAreDisjoint | process/process.go:236-247 | the index blocks of different creations are disjoint and lie behind the initial users, whatever the interleaving |
| RoundSafety.WaitGroupIsSafe | process/verification.go:33-74 | with inviters that exist at the start and no lonely god node the counter is never negative, and zero if and only if every section was spawned once and every goroutine finished |
| RoundSafety.UsersPlusCounter | process/verification.go:33-74 | in every reachable state, whoever the inviters are, users plus counter equal the initial users, all counts, the users made and not yet tested, and the goroutines running |
| RoundSafety.PopulationAtTheEnd | process/process.go:229-247 | when everybody is done, process.users has grown by exactly the summed counts if and only if the counter is zero |
| RoundSafety.SpawnedOnceEach | process/verification.go:33-74 | once every section was spawned once, the counter is the goroutines still running, and zero if and only if everybody is done |
| RoundSafety.ZeroExactly | process/verification.go:48-60 | whoever the inviters are, at a zero counter all the round's users exist, and no others if and only if nobody is still running |
| RoundSafety.ZeroMeansDone | process/verification.go:48-60 | with inviters that exist at the start a zero counter means that everybody is done |
| RoundTesting.EachUserIsTestedOnce | process/verification.go:180-188 | with one inviter, or with the suffix taken under the mutex, goroutine g tests user g, and outside creations every user has its goroutine |
| RoundTesting.WaitGroupIsSafeForLateOwners | process/verification.go:180-188 | under the same condition the counter is safe even when inviters are created during the round |
| RoundTesting.TwoOwnersCanTestTwice | process/verification.go:184-185 | for any two sections with different inviters there is a run that tests a user twice |
| RoundTesting.TestedTwiceExactly | process/verification.go:184-185 | among inviters that exist at the start, some run tests a user twice if and only if two sections have different inviters |
| RoundOverlap.SafeWithoutOverlap | process/verification.go:150-188 | when two inviters can never be at work at once, no run tests a user twice, and the counter is never negative and zero only at the very end |
| RoundOverlap.TestedTwiceExactlyByOverlap | process/verification.go:180-188 | wherever the inviters come from, some run tests a user twice if and only if, spawning the sections one at a time, two existing users come to have sections to spawn |
| RoundOverrun.EverybodyCanFinish | process/verification.go:62-74 | from every reachable state a run goes on to one in which everybody is done, losing no user |
| RoundOverrun.PassesZero | process/verification.go:62-74 | a run to a negative counter passes a zero one with somebody still running |
| RoundOverrun.OverrunExactly | process/verification.go:39-48 | the bot can take a round for over with too many users, and with goroutines running, if and only if the counter can go negative |
| RoundOverrun.CalmRoundsEndDone | process/verification.go:39-60 | with inviters that exist at the start, or never two at work at once, a zero counter means that everybody is done and exactly the round's users exist |
| RoundOverrun.LateInviterOverruns | process/verification.go:180-188 | every round of two inviters and a third that both of them create can be taken for over with too many users |
| RoundGodNode.LonelyGodNode | process/process.go:231-247 | a god bot alone with a section to spawn has a run that ends with a negative counter |
| RoundGodNode.NegativeExactly | process/verification.go:39-74 | for inviters that exist at the start, the counter can become negative if and only if the god bot is alone and has a section to spawn |
| RoundLateInviter.LateInviterGoesNegative | process/verification.go:180-188 | two inviters whose suffixes overlap in a newcomer that invites too: some run tests it twice, spawns its section twice and ends with a negative counter |
| RoundProgress.SomebodyCanMove | process/verification.go:62-74 | in every reachable state with an unfinished goroutine some goroutine can move, whoever holds the mutex |
| RoundProgress.StuckExactly | process/verification.go:150-188 | a round that cannot go on has finished every goroutine, and its counter is zero if and only if no inviter of a section took the early return |
| RoundProgress.StuckWithoutOverlap | process/verification.go:150-188 | the same for later inviters, two of which are never at work at once, where an inviter may also never have been created |
| RoundProgress.CounterCanStayPositive | process/verification.go:144-174 | every round with a section has a run that ends stuck, with the counter at all the users that were to come |
| FlipGate.StepKeepsInv | process/verification.go:367-404 | every step keeps the gate's invariant and brings the submissions closer to their end |
| FlipGate.TokensAreUsersInside | process/verification.go:385-402 | in every interleaving the tokens are the users inside, within the capacity, and a user outside has returned all it took |
| FlipGate.GateOpensExactly | process/verification.go:385-402 | in every interleaving a user outside with a flip to guard may enter exactly while fewer than the capacity are inside, and one inside may leave |
| FlipGate.SomebodyCanMove | process/verification.go:385-402 | while a flip is left to submit some user can move |
| FlipGate.EveryRunCompletes | process/verification.go:367-404 | every run is bounded, and one that cannot go on has submitted every flip and emptied the channel |
| Answers.GetAnswers | process/verification.go:734-781 | position i holds the hash of flip i, no answer when it is not ready, else left exactly when the last but one byte of its hash is even, exchanged in a failed short session; and the grade its mode makes of the draws: all 1, none above 1, all as drawn, or only the first above 2 |
| Answers.AtMostOneIncreasedGrade | process/verification.go:743-768 | unless the draw allows several, at most one flip gets a grade above 2 |
| Answers.ReverseIsAnInvolution | process/verification.go:449-460 | reversing twice changes nothing, and only left and right change |
| Answers.FilterAnswers | process/verification.go:708-725 | the filter loop keeps exactly the answers of the greedy selection over the common prefix of both lists |
| Answers.GreedyRespectsTheBudget | process/verification.go:711-725 | the greedy selection keeps every regular flip and pays for every extra one |
| Answers.ReadyPlusBudgetIsRegular | process/verification.go:708-725 | for every selection within the budget, ready answers kept plus the remaining budget equal the regular flips seen |
| Answers.GreedyBudgetIsLeast | process/verification.go:708-725 | no other selection within the budget has less budget left |
| Answers.GreedyKeepsMostReadyAnswers | process/verification.go:708-725 | at every prefix no other selection within the budget keeps more ready answers |
| PreparedAnswers.PrepareAnswers | user/user_shared.go:203-244 | position i holds the direction and, in a long session, the grade of the first answer that names flip i, a report possibly dropped, or is blank |
| PreparedAnswers.ReportsAreCapped | user/user_shared.go:230-240 | the positions marked as reported are the first k that were graded so, k the largest number with 100k below 34n |
| PreparedAnswers.AlignmentFindsTheKeptAnswer | user/user_shared.go:204-212 | with distinct flips, searching by identifier finds the answer to that flip if and only if the filter kept it |
| PreparedAnswers.PreparedAnswerAtEachPosition | user/user_shared.go:203-244 | the whole pipeline marks a kept ready flip by the last but one byte of its hash, reversed in a failed short session, without a grade in a short session and with its own in a long one, capped reports apart; any other position is blank |
| PreparedAnswers.SubmitAnswers | process/verification.go:692-732 | answering, filtering and preparing one after the other yields these marks, with grades as the mode prescribes |
| PreparedAnswers.SubmittedAnswersAreOptimal | process/verification.go:708-725 | the answers finally submitted plus the budget left are the regular flips, and no filter within the budget would submit more |
| Pools.PoolsCtx.CreateInvites | api/api.go:68-106 | a failed invite request changes nothing; the first requests set the owners and are answered OK; later ones take as many places as the truncated product of addresses and rate, at least one when it is zero, within what is free and one beyond the addresses, which is the panic |
| Pools.PoolsCtx.AssignDelegatees | api/api.go:84-100 | n rounds of first fit, which index past the addresses if and only if there are more rounds than addresses and more free places than addresses; the place taken then stays taken |
| Pools.PoolsCtx.FindOpen | api/api.go:90-98 | finds the first pool with a free place, if there is one |
| Pools.RequestTakes | api/api.go:84-100 | once all owners are set, a request takes the least of the whole part of addresses times rate (one when that is zero), the addresses and one, and what is free, from the front of the places, and panics exactly when the first exceeds the addresses and more are free than addresses |
| Pools.OneDelegateeEach | api/api.go:84-106 | at rate one the reply joins one delegatee for each address while places last |
| Pools.AllocateTakesPrefix | api/api.go:89-100 | n rounds hand out the first n places of the stream "owner j, size j times, pool by pool" and leave the rest |
| Pools.AllocateConserves | api/api.go:89-100 | places left plus delegatees handed out are conserved, sizes only shrink and never below zero |
| Pools.RunHandsOutPrefix | api/api.go:78-104 | over any request stream and at any rate the places taken are a prefix of the stream of places as long as the places asked for, and the rest is left |
| Pools.BatchingDoesNotMatter | api/api.go:78-104 | two request streams with the same first owners that ask for equally many places take the same ones |
| Pools.PlacesAreLostExactly | api/api.go:84-100 | the clients get every place taken if and only if no request both asks for more than its addresses and finds more places left than that |
| Pools.NothingLostUpToOne | api/api.go:84-88 | at rates up to one no request panics and the clients get every place taken |
| Pools.ReplyRoundTrip | apiclient/client.go:57-62 | the client reads a reply back if and only if no delegatee holds a comma and the reply is not the single name OK |
| Pools.RequestRoundTrip | api/api.go:69 | the server reads the addresses back if and only if there is one and none holds a comma; no address arrives as one empty address |
| Logfmt.EscapeString | log/format.go:364-405 | the two loops compute the escaped form: verbatim, escaped only, or escaped in quotes |
| Logfmt.EscapedForm | log/format.go:364-405 | the escaped text stands in quotes if and only if a character is a blank or below, an equals sign or a quote; without these and without a backslash it is the text itself |
| Logfmt.EscapeTable | log/format.go:379-394 | the escapes of the special characters |
| Logfmt.FormatLogfmtValue | log/format.go:326-358 | whatever the branch, the rendering is the escaped form of the text the value stands for, the word nil for nil; nil, numbers, booleans and times may skip the escaping |
| Logfmt.Printer.WriteField | log/format.go:172-194 | widens the key's padding to the value and writes the padded cell |
| Logfmt.Printer.Logfmt | log/format.go:160-197 | appends the line of the context's fields with the padding the map prescribes, and widens the map |
| Logfmt.Printer.LogfmtFormat | log/format.go:151-158 | a record's line holds time, level, message and its context |
| LogfmtColumns.PaddingIsWidest | log/format.go:172-184 | after any fields the padding map holds for each key the widest of what it held and of the values written under the key |
| LogfmtColumns.CellsArePadded | log/format.go:172-194 | a field that is not the last takes the widest value of its key up to then |
| LogfmtColumns.FieldStands | log/format.go:160-197 | key and value of every field stand in the line where the widths of the fields before it say |
| LogfmtColumns.ColumnsAlign | log/format.go:160-197 | a line with the same different keys as the line before, and no wider values than seen, has every field in the same column |
| LogfmtDecoder.EscapedIsInjective | log/format.go:364-405 | two strings with the same escaped form are equal, across all three forms |
| LogfmtDecoder.ValueReadsBack | log/format.go:364-405 | a value followed by a blank or newline is read back with what follows untouched |
| LogfmtDecoder.LineReadsBack | log/format.go:160-197 | a line behind any number of blanks decodes to its fields |
| LogfmtDecoder.LineRoundTrip | log/format.go:160-197 | whatever the padding, a line decodes to its fields if and only if no key holds an equals sign or starts with a blank |
| LogfmtDecoder.LineIsOneLine | log/format.go:160-197 | the only newline is the last character if and only if no key holds one |
| LogfmtDecoder.LvlNameRoundTrip | log/logger.go:50-88 | the printed name of a level reads back as that level |
| LogfmtDecoder.RecordRoundTrip | log/format.go:151-158 | a record's line is one physical line from which every field is read back |
| LogfmtDecoder.SessionRoundTrip | log/format.go:172-184 | printed one after the other through one padding map, every record is read back from its line |
| LogContext.Append | log/logger.go:210 | append completes a slice in its own array while the capacity suffices and in a new one otherwise; elements within the slice never change |
| LogContext.Normalized | log/logger.go:196-214 | a lone Ctx is expanded and an odd list completed with nil and an error pair, in the caller's own array when it has room for three more; nothing else of it changes |
| LogContext.NewContext | log/logger.go:155-161 | the result is a new array holding the prefix and the normalized suffix; the caller's array changes in spare elements at most |
| LogContext.Normalize | log/logger.go:196-214 | the normalized list has even length |
| LogContext.NormalizeCases | log/logger.go:196-214 | a lone Ctx gives its pairs, an even list stays, an odd one is completed with nil and the error pair |
| LogContext.Chain | log/logger.go:149-161 | the context of any chain of child loggers has even length |
| LogContext.Logger.New | log/logger.go:149-153 | the child holds its parent's context and the normalized arguments in an array of its own, and the parent's context stays |
| LogContext.Logger.Write | log/logger.go:133-147 | the handlers see the logger's context and the arguments; of all that existed before, only spare elements of the caller's argument array can change, so no logger's context does |
| LogContext.Record.EvaluateLazies | log/handler.go:384-411 | the in-place loop replaces every lazy value at an odd position by its result or an error, leaves all else, and adds the pair that reports errors exactly when there was one |
| LogContext.Record.Log | log/handler.go:208-411 | any tree of lazy, failover, multi, caller and filter handlers rewrites the context and calls the sinks as the specification Run says |
| LogContext.Record.LogFailover | log/handler.go:340-353 | handlers are tried in order until one succeeds, each failure adding a pair; the last error is returned |
| LogContext.Record.LogMulti | log/handler.go:315-323 | every handler gets the record as its predecessors left it, and errors are dropped |
| LogContext.SinksSeePairs | log/format.go:161-169 | through any tree of handlers a paired context stays paired, keeps its keys and all values but lazy ones, which become their results, and gains only pairs that these handlers add |
| LogReach.ErrorIsReturned | log/handler.go:257-353 | a tree of handlers returns an error exactly when it is a failing sink, a failover with handlers all of which fail, or passes on to such a tree; a multi handler and a blocking filter never do |
| LogReach.SinksReached | log/handler.go:208-411 | a record is delivered to a sink, and once, if and only if every filter above it passes and at every failover above it all earlier handlers failed; deliveries come in the order of the tree, and each carries the caller's pairs, evaluated lazy values and failover errors that the handlers above it leave |
| LogReach.ContextsGrow | log/handler.go:315-353 | all handlers work on one record: a later delivery finds what earlier ones found, and the record ends with all of it |
| LogPipeline.BotLogs | main.go:141 | the bot's own handler prints a record on the console and then in the file exactly when its level is within the verbosity, even if the console fails, and never returns an error |
| LogPipeline.HandlersAddCleanKeys | log/handler.go:208-411 | with clean keys on its caller handlers, a tree of handlers adds only keys that read back |
| LogPipeline.PrintSeen | log/format.go:151-158 | the contexts that reached sinks are printed as one session of records through the shared printer |
| LogPipeline.EveryLineTellsItsCall | log/format.go:160-197 | when the keys logged and those of the caller handlers read back, every line a sink prints is one physical line that decodes to time, level, message and, pair by pair, to the context logged, lazy values apart |
| LogPipeline.Emit | log/logger.go:133-147 | a log call through any chain of loggers and any tree of handlers prints such lines only, one at each sink that is reached and in their order, returns an error exactly when the tree does, and leaves the logger's context alone |
| LogFile.PrepFile | log/handler.go:100-132 | cuts a file to its longest prefix that ends in a newline and reports that length; fails exactly when there is no newline, leaving the file alone |
| LogFile.RotatingFile.Start | log/handler.go:137-160 | the last regular file of the listing whose name ends in .log is recovered and continued when below the limit; without one nothing is touched; it fails exactly when that file holds no complete line |
| LogFile.LastLogByPosition | log/handler.go:145-149 | the file chosen is the last entry that is a log, if there is one |
| LogFile.RotatingFile.Log | log/handler.go:162-180 | one call writes, fails to open or crashes as the specification LogStep says |
| LogFile.RunAgrees | log/handler.go:162-180 | with fresh names and opening files the directory holds exactly the reference chunks and every other file as before |
| LogFile.ChunkingIsFaithful | log/handler.go:137-180 | the chunks hold all records in order and unsplit, concatenate to the recovered text plus the records, and each is within the limit without its last record |
| LogFile.CrashExactly | log/handler.go:163-179 | a call crashes if and only if an earlier rotation failed to open its file |
| LogFile.OneFailedRotation | log/handler.go:163-179 | a first record beyond the limit and one file that does not open make every later record crash |
| Lines.CompletePartIsUnique | log/handler.go:97-99 | the recovered part is the only prefix with no newline behind it that is empty or ends in one |
| Utf8.DecodeOfEncode | log/format.go:380-394 | the bytes of a text decode to it |
| Utf8.KnownEncodings | log/format.go:380-394 | characters of one to four bytes are written as section 7 of RFC 3629 shows |
| Utf8.LinesStay | log/handler.go:97-99 | the bytes of a line are a line: no byte of a longer rune is a newline |
| LogRecovery.InterruptedSessionRecovers | log/handler.go:97-132 | of a session cut off at any byte, even within a rune, the part up to the last newline is exactly the completely written records, and each of them decodes; there is a newline if and only if there is such a record |
| LogRecovery.Restart | log/handler.go:137-160 | a handler started on the chunk of an interrupted session starts if and only if one record is complete, and then continues behind the complete ones; otherwise it fails and leaves the torn bytes |
| Glog.GlogHandler.Vmodule | log/handler_glog.go:93-144 | a well-formed rule set replaces the rules and empties the cache; a syntax error anywhere changes nothing |
| GlogRuleset.SeparatedPiece | log/handler_glog.go:96-129 | a pattern, an equals sign and a number make a rule, or nothing at levels up to zero, when something is left of both after trimming and the number is one |
| GlogRuleset.RuleFailsExactly | log/handler_glog.go:95-116 | a comma piece is a syntax error if and only if it is neither empty nor such a piece |
| GlogRuleset.RulesetParsesExactly | log/handler_glog.go:93-131 | a rule set is accepted if and only if none of its pieces is a syntax error |
| GlogRuleset.RulesetReadsBack | log/handler_glog.go:93-131 | rules written out and separated by commas are read back in order |
| Glog.FirstMatchByPosition | log/handler_glog.go:216-227 | the level of a site is that of the rule with no matching rule before it, and 0 when no rule matches |
| Glog.RulesBehindDoNotMatter | log/handler_glog.go:216-221 | rules appended behind one that matches a site change no verdict there |
| Glog.GlogHandler.ComputeAndStore | log/handler_glog.go:214-227 | computes the level of the first rule that matches, by position, under the lock and caches it, 0 when there is none |
| Glog.GlogHandler.Log | log/handler_glog.go:200-232 | alone, a record passes exactly when the level admits it, or the rule count does not wrap to zero and the first rule that matches admits it |
| GlogRace.InvariantIsKept | log/handler_glog.go:135-143 | every atomic step keeps the cache, the flag and every thread's local knowledge right |
| GlogRace.CacheIsAlwaysRight | log/handler_glog.go:200-232 | in every state of every interleaving each cached level is that of the first rule, by position, that matches in the current rules, and no nil map was written |
| GlogRace.VerdictIsUncached | log/handler_glog.go:200-232 | the deciding step lets a record pass exactly when the level loaded admits it or the first matching rule, by position, of the rules in force at that step does |
| GlogRace.VerdictFitsExactly | log/handler_glog.go:200-232 | a verdict differs from the configuration at its deciding step if and only if the level was raised to the record's since it was loaded and no rule admits it, or a rule does whose flag wrapped to zero |
| GlogRace.VerdictFitsConfiguration | log/handler_glog.go:200-232 | when the rule count does not wrap the flag, only the raised level is left as a reason |
| GlogRace.CallVerdict | log/handler_glog.go:200-232 | a whole call gives the verdict of the level at its load and of the rules published at its decision |
| GlogRace.CallIsAtomicForOneWriter | log/handler_glog.go:200-232 | if the rules stand during a call, its verdict is that of the configuration at its load; if the level stands, that of the configuration at its decision |
| GlogRace.CallFitsNeitherExactly | log/handler_glog.go:200-232 | a verdict fits neither the configuration at its load nor that at its decision if and only if the level was raised to the record's and the rules that admitted it were taken away; an emitted record is admitted by one of the two |
| GlogRace.LogIsNotAtomic | log/handler_glog.go:200-232 | with both at work there is a run with one call whose record is dropped although every configuration during the call would have kept it |
| TxRing.GenerateTxs | process/background.go:36-64 | for any number of iterations over n positions each in turn, from the first on, sends to the next and the last to the first, nobody to itself; numbers sent differ by at most one between positions, and by at most one between sent and received at each |

## Left out

- RPC, HTTP transport, node process control, configuration merging, file copying and the command line.
- Cryptography, transaction encoding, identifier parsing (an abstract partial map) and the bit layout of prepared answers (one record per position).
- Rounding of 32-bit and 64-bit floats: rates, the 34 percent cap and invite counts are exact.
- Integer overflow of counts, ports and ranges, and exhaustion of memory; the override flag of the glog handler and the switch delays do wrap.
- Waiting, polling, retries and timeouts: they are arbitrary steps, and nothing is claimed about node replies.
- Regular expressions of Vmodule rules (an abstract match predicate), stack capture and backtraces.
- Colours, the terminal and JSON formats, and invalid UTF-8.
- Concurrent use of the padding map: a printer runs alone, and lines decode for every padding.
- Failing and partial writes to a log file, and chunk names that clash.
- SetHandler, channel, buffered and network handlers; a filter's decision and a sink's failure are inputs.
- Deprecated answer rates and answers: whether they are in order is an input to the ceremony check.
- Ceremony assertions and the conversions of transactions, node updates, delegations, stakes and kills, which follow the patterns already modelled.
- The userStates map across nested testUsers calls, each of which makes a mutex of its own.
- RoundTesting.EachUserIsTestedOnce: assumes one inviter or a suffix taken under the mutex, because without it the statement is false, as RoundTesting.TestedTwiceExactly shows.
- RoundSafety.WaitGroupIsSafe: assumes inviters that exist at the start, because with a later one it is false, as RoundLateInviter.LateInviterGoesNegative shows; RoundOverlap.SafeWithoutOverlap covers later ones, two of which are never at work at once.
- RoundTesting.TestedTwiceExactly: for inviters that exist at the start; RoundOverlap.TestedTwiceExactlyByOverlap is the condition for all.
- RoundGodNode.NegativeExactly: for inviters that exist at the start; with later ones it takes an overlap, but whether the counter then goes negative depends on the sums of counts over the schedules, and only RoundOverrun.OverrunExactly, which ties it to the overrun, is stated for all.
- Population.EpochRun: ends at the state in which the counter reaches zero, and a goroutine still running then is not carried into the next epoch, where it would lower the next counter; the lemmas on later epochs assume that none is.
- Population.RunMatchesTable: assumes orderly epochs, because without them it is false, as PopulationOverrun.AcceptedRunOverruns shows, and two users in god mode; PopulationGodNode.LoneGodRun says what one user gives without sections after flips, and with them the counter can go negative.
- LogFile.RunAgrees: assumes that every file opens; LogFile.CrashExactly says what happens otherwise.
- LogContext.Append: models slices that begin at their array's first element.
- Pools.PoolsCtx.CreateInvites: a panic ends the request only, as the HTTP server recovers it.
- GlogRace.CallVerdict: assumes a rule count that is not a multiple of 2 to the 32nd, where the flag wraps to zero; GlogRace.VerdictFitsExactly does not.
- Nodes.LowPowerShare: models one creation at a time, as the mutex ensures.
