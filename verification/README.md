# A verified model of the Mattermost load test

The Mattermost load test fills a server with generated teams, channels, users and posts, and then drives users
against it from many machines at once. Most of its code is network glue; this project models the parts that are
algorithms or protocols, and proves what they guarantee. `dafny verify dfyconfig.toml` checks everything.

* **Instance registry** (`InstanceRegistry`, `InstanceProtocol`, `InstanceAttempts`, `InstanceOutcomes`). Machines claim a slot in a shared SQL table with a
  SELECT followed by a separate INSERT. The query is modelled as the relation its joins define, the table as a
  class, and any number of machines as a transition system in which every SQL statement is a step of its own.
  `InstanceOutcomes` tells what becomes of each machine by the events of the run, down to the users it drives.
* **Bulk-load lock** (`BulkloadLock`, `LockLimits`, `LockOutcomes`). The admin's nickname is used as a lock by read, write, pause, read. Every
  request of every contender is a step, and time passes between them. `LockLimits` says for how many contenders it works
  as it is used, and `LockOutcomes` who gets true or false, and why.
* **Random selection** (`RandUtil`). Draws are inputs, so that "uniform" and "weighted" become counting statements.
* **Bulk-load generator** (`DirectChannels`, `GroupChannels`, `Names`, `Membership`, `MembershipFacts`, `Volumes`, `Emission`,
  `EmissionFacts`, `Encoder`, `BulkFile`, `WrittenFile`, `FileContents`, `ImportedFile`). Direct channels are decoded from a linear index, groups are picked by
  swapping, users are put into teams and channels by nested loops in place, and the lines go through a buffered
  channel to an encoder that shares the user records with the producer. `Emission` has the lines as sent, `WrittenFile`
  the file as the encoder writes it, `FileContents` what it says line by line, and `ImportedFile` what an importer makes of it.
* **File re-chunking** (`Chunker`, `ChunkedImport`). The import file is sent to the server in segments that repeat its
  first line, until one is refused.
* **Post loading** (`Posts`, `PostImport`). The loops that make one channel's posts, and the system of four senders,
  an unbuffered channel and four batching importers.
* **Timing** (`Timing`, `TimingPipeline`). Statistics are accumulated, logged in windows and reset; the results
  parser merges the windows again.
* **Deployment and thread splitting** (`ForkJoin`, `ThreadSplit`). Tasks that spawn tasks and report failures on a
  channel; an index range cut among goroutines; the slots that logins write.

Loops and objects that change in place are methods and classes, proved against functions on values; protocols are
`Enabled`/`Step`/`Run` over sequences of events, so that a lemma about `Run` is a statement about every
interleaving. Goroutines, other machines, random numbers, clocks and the outcomes of requests are inputs or
events. Go's panics are error results or explicit flags.

## Where the code differs from what it says

The model follows the code in each of these, and the named lemma states exactly what holds.

* `loadtest/bulkload.go:375-378` promises the maximum possible number of direct channels. The cap is that maximum
  exactly for one user or an even number of users (`DirectChannels.CapIsSafe`); it is below it otherwise. The loop at line 387
  ranges over the positions of the permutation it draws, so the channels come in row order and always the same ones.
* `loadtest/bulkload.go:689-690` promises a line of another type between users and memberships. The promise is kept
  exactly when there is an emoji (`BulkFile.SeparatedIffEmoji`).
* `loadtest/bulkload.go:701` promises a user line without channel memberships. The line is encoded from a record
  that is changed back later; it is stripped in every interleaving exactly if at least 101 lines are sent in between
  (`Encoder.StrippedIffFarEnough`, `BulkFile.PlainLineStrippedExactly`). Otherwise the user is at risk: in some
  interleaving its first line carries all its memberships already. The written file is the one the generator means,
  refers only to what earlier lines introduce, and gives back every channel list, in every interleaving if and only if
  no user at risk has a channel (`WrittenFile.FileIsDetermined`, `ImportedFile.ReferencesExactly`,
  `ImportedFile.RoundTripExactly`). Whatever the interleaving, users end up in exactly their channels
  (`ImportedFile.WrittenLoads`), and schemes, teams and channels come before their use
  (`ImportedFile.OthersAlwaysIntroduced`). Such a line is not cut either: the file keeps to 100 channels a line, which is
  what `loadtest/bulkload.go:683-686` wants, in every interleaving if and only if no user at risk has more than 100
  channels (`FileContents.ShortExactly`).
* `loadtest/setup_server.go:376-388` waits for the lock to clear and returns true without taking it, and line 120 lets
  every contender that got true release. With the two-second pause as the bound on write latency, everyone who got true
  is exclusive exactly for at most two contenders, and the winners alone exactly for at most three
  (`LockLimits.HoldersExclusiveExactly`, `LockLimits.WinnersExclusiveExactly`). If only winners release, winners are
  exclusive for any number of contenders (`BulkloadLock.WinnersExclusive`).
* `terraform/cluster_deploy.go:71-73` means to report a group without addresses, but wraps a nil error, which is nil
  (`vendor/github.com/pkg/errors/errors.go:181-184`); such a group is not counted (`ForkJoin.DeployReports`).
* `loadtest/client.go:59-64` drops the tokens of failed logins, and `loadtest/run.go:146-148` pairs the rest with
  entities by position. An entity gets its own user's token exactly if no login up to its own failed
  (`ThreadSplit.TokenIsOwnExactly`).
* `loadtest/run.go:106` does not log a last window without a success. What is lost, and when nothing is, is stated by
  `TimingPipeline.WindowsRefineAccumulation` and `TimingPipeline.NothingLostExactly`.
* `loadtest/bulkload.go:564-571` and `599-606` compare positions that start at zero with `>`. As long as the high share
  is not everything, one team (and one channel of a team) more than the share counts as high volume; the mid class gets
  its share unless nothing is left for the low class, which is one short otherwise (`Volumes.SharesExactly`,
  `Volumes.TeamVolumesExact`, `Volumes.ChannelVolumesExact`; `Volumes.OneHighUnasked` is an input).
* `loadtest/instance.go:43-80` tries five times, while `kubernetes/cluster_profile.go:167` starts six machines. Without
  any failing statement, five attempts are enough exactly for at most five machines
  (`InstanceAttempts.AttemptsSufficeExactly`).
* `randutil/randutil.go:72` says that it is never reached. It is, exactly when the weights sum to zero and no partial
  sum is positive (`RandUtil.InternalErrorExactly`, `RandUtil.UnpickableExactly`); `PickTeam` and `PickChannel` then panic.

## Model

| member | source | states |
|---|---|---|
| `InstanceRegistry.ReturnsFreeIndex` | loadtest/instance.go:45-61 | On any table with distinct, non-negative indices, every row the slot query can return names a non-negative index nobody uses; the NULL arm is unreachable. |
| `InstanceRegistry.QueryAnswers` | loadtest/instance.go:45-61 | A non-empty table always yields a row. |
| `InstanceRegistry.ScansFreeIndex` | loadtest/instance.go:44-64 | What ends up in the scanned variable, including zero for no row, is a free, non-negative index. |
| `InstanceRegistry.ScansExactly` | loadtest/instance.go:45-61 | Which indices the query can yield: exactly the free ones just below a used one, or just above a used one that has no gap below it. |
| `InstanceRegistry.HeartbeatTolerance` | loadtest/instance.go:85-101 | With truncation to seconds a stamp is safe from pruning for every recording time exactly if it is at most 119 s old, and pruned for every recording time exactly from 120 s on. |
| `InstanceRegistry.InstanceTable.Insert` | loadtest/instance.go:66-78 | The row is added exactly if neither its id nor its index is taken, and the table is untouched otherwise. |
| `InstanceRegistry.InstanceTable.RecordHeartbeat` | loadtest/instance.go:85-89 | Only the one row's stamp changes, to the milliseconds of the whole second the time is in; a pruned row is not brought back. |
| `InstanceRegistry.InstanceTable.Prune` | loadtest/instance.go:91-101 | A row survives exactly if it is not expired, unchanged. |
| `InstanceRegistry.InstanceTable.Delete` | loadtest/instance.go:113-118 | Exactly the one row is removed. |
| `InstanceRegistry.InstanceTable.SelectIndex` | loadtest/instance.go:44-64 | The scanned index is free and not negative, whichever result row is read. |
| `InstanceRegistry.InstanceTable.InsertInstance` | loadtest/instance.go:40-83 | With any interference of other machines between its statements: a reported index is the one the row of the instance holds, from the first INSERT that was not refused, with both times of the row the milliseconds of the whole second `now` is in; after a failure no row is its own, and either a query failed or five INSERTs were refused. |
| `InstanceProtocol.StepKeepsInv` | loadtest/instance.go:40-172 | Every SELECT, INSERT, heartbeat, prune, delete and failure of any machine keeps indices distinct and each machine's index and stamp in step with its row. |
| `InstanceProtocol.RegisteredIndicesDistinct` | loadtest/instance.go:40-83 | Over every run from any table, two machines with rows hold different indices, and their ranges of entities (index times entities per machine) are disjoint. |
| `InstanceProtocol.LiveMachinesNeverOverlap` | loadtest/instance.go:85-101 | If every prune finds every live machine's stamp at most 119 s old, all live machines still have their rows after every step, and never share an index or an entity. |
| `InstanceProtocol.LateHeartbeatSharesIndex` | loadtest/instance.go:91-101 | A run with a stamp 119 s and one nanosecond old after which a live machine has lost its row and shares its index with another. |
| `InstanceProtocol.AgeBoundIsExact` | loadtest/instance.go:85-101 | With stamps at most `bound` old at every prune, no run lets two live machines share an index, and no run loses the row of a live machine, if and only if the bound is at most 119 s. |
| `InstanceProtocol.DenseScan` | loadtest/instance.go:45-61 | When the indices in use are 0..m-1 the query can only yield m. |
| `InstanceProtocol.NoRemovalsCoordinate` | loadtest/instance.go:103-172 | Without removals, in every interleaving, the registered indices are exactly 0..m-1 and every machine whose NewInstance succeeded has the same seed. |
| `InstanceProtocol.NoUserSelectedTwice` | loadtest/client.go:29-45 | Such machines, if they pass the range check of RunTest, never select the same user, in order or through the seeded permutation. |
| `InstanceProtocol.AllReplicasPass` | kubernetes/cluster_profile.go:173 | With users divided by replicas as the number of entities, every one of at most that many machines that have registered passes the range check. |
| `InstanceAttempts.CountedStep` | loadtest/instance.go:43-80 | Without faults and removals every statement keeps: each refused attempt of a machine stands for a row that another one inserted, and a machine has failed only if there are six. |
| `InstanceAttempts.AttemptsSufficeExactly` | loadtest/instance.go:43-82 | In all runs of at most n machines from an empty table, without failing statements and removals, no machine ever fails, if and only if n is at most 5. |
| `InstanceOutcomes.ProgramOrder` | loadtest/instance.go:40-200 | The statements of a machine come in the order of its program, with at most five attempts, and touch no other machine. |
| `InstanceOutcomes.NobodyWaits` | loadtest/instance.go:40-200 | In every state that keeps the invariant, each machine can make its next statement, with any answer, whatever the others do. |
| `InstanceOutcomes.OutcomeOfEach` | loadtest/instance.go:40-172 | In every run from any table: a machine has sent at most five INSERTs, is trying again only before the fifth, and has failed only by a failed query, a fifth refusal or a seed query. |
| `InstanceOutcomes.SeedIsFirstStart` | loadtest/instance.go:103-172 | In every run without removals from an empty table, the seed of every machine whose NewInstance succeeded is the starting time of the machine with index 0, in milliseconds of its whole second. |
| `InstanceOutcomes.HeartbeatSavesRow` | loadtest/instance.go:85-101 | A heartbeat stamps its own row only, and the row outlives every prune of the next 119 s. |
| `InstanceOutcomes.CloseFreesIndex` | loadtest/instance.go:113-118 | A Close whose DELETE succeeds frees the machine's index and leaves every other row; one that fails leaves the table. |
| `InstanceOutcomes.UsersOfOne` | loadtest/client.go:29-43 | The machine with index a drives users a*active to a*active+active-1 in order, or that stretch of the seeded permutation when randomizing. |
| `InstanceOutcomes.UsersTogether` | loadtest/client.go:29-43 | Machines 0 to m-1 that pass the check drive together exactly users 0 to m*active-1 in order, or exactly the first m*active of the seeded permutation, each once. |
| `InstanceOutcomes.RunDrives` | loadtest/client.go:29-43 | In every run without removals each machine that passes the check drives the stretch of its own index, by the permutation that any other machine's seed gives. |
| `BulkloadLock.StepKeepsInv` | loadtest/setup_server.go:354-403 | Every request of every contender keeps the lock's timing invariant, as long as writes land within two seconds of their reads and no contender that only waited releases; `LockLimits.WinnersInvStep` covers the other releases. |
| `BulkloadLock.WinnersExclusive` | loadtest/setup_server.go:354-374 | If in addition only winners release: in every interleaving of any number of contenders, at most one at a time holds the lock through the "we got the lock" branch. |
| `BulkloadLock.RecordedIffWinner` | loadtest/setup_server.go:354-389 | Under the same discipline: of all contenders that got true, exactly the one that won is recorded in the nickname. |
| `BulkloadLock.NotExclusiveAcrossReleases` | loadtest/setup_server.go:376-388 | A run of three contenders, the least number, after which two have got true, one of them through the waiting loop. |
| `BulkloadLock.WavedReleaseBreaksWinners` | loadtest/setup_server.go:391-403 | A run of four contenders, the least number, in which the release of one that only waited lets two winners hold the lock. |
| `BulkloadLock.PauseIsExact` | loadtest/setup_server.go:361-365 | When only winners release: winners are exclusive for a bound on the write latency if and only if the bound is at most the two-second pause. |
| `BulkloadLock.SlowWriter` | loadtest/setup_server.go:361-374 | The run with a write of exactly two seconds after which both contenders have won. |
| `LockLimits.HoldersExclusiveExactly` | loadtest/setup_server.go:354-403 | All runs of at most n contenders with writes within the bound, every contender that got true releasing when it likes, keep everyone who got true exclusive if and only if the bound lets nobody write, or n is at most 1, or n is at most 2 and the bound at most the pause. |
| `LockLimits.WinnersExclusiveExactly` | loadtest/setup_server.go:354-403 | The same for those who won: n at most 3 with the bound at most the pause. |
| `LockLimits.WinnersRecordedExactly` | loadtest/setup_server.go:391-403 | In all such runs the nickname names every winner: again exactly for n at most 2 with the bound at most the pause. |
| `LockLimits.WaitingNeverRecorded` | loadtest/setup_server.go:376-388 | In any run whatever, a contender that got true by waiting is not the one the nickname names. |
| `LockLimits.WinnersInvStep` | loadtest/setup_server.go:354-403 | Every request of any contender, releases of waiting ones included, keeps: whoever got past a cleared lock owes it to a contender that is gone, and either the timing invariant holds or two contenders are spent. |
| `LockLimits.OrphanedExactly` | loadtest/setup_server.go:354-403 | A step leaves the nickname to a contender that is gone exactly if it is a failing request of the contender the nickname names: an applied write, the check, or either request of the release. |
| `LockLimits.WaitingEndsUnlessFailure` | loadtest/setup_server.go:354-403 | For any number of contenders, with whoever releasing: without a failing request the nickname is empty or names a contender that is about to check or has won; and once everyone waits or is gone under a taken lock, nobody gets true in any continuation. |
| `LockLimits.FailedWriteOrphans` | loadtest/setup_server.go:361-364 | A run with one failing answer to a write that was applied, after which the next contender waits for ever. |
| `LockOutcomes.OutcomeExactly` | loadtest/setup_server.go:354-403 | In any run whatever, a contender holds the lock by winning if and only if its check read its own id back, by waiting if and only if a poll read an empty nickname, until its release is over; it is gone if and only if a request failed or its release is over, and after a failed request it never holds the lock in any continuation. |
| `LockOutcomes.TrueTakesTwoSeconds` | loadtest/setup_server.go:354-388 | Nobody gets true in less than two seconds from its first request, through either branch. |
| `LockOutcomes.NobodyBlocks` | loadtest/setup_server.go:354-403 | Whatever the others have done, two seconds later every contender can make its next request, and it can be answered either way. |
| `LockOutcomes.SharedStateExactly` | loadtest/setup_server.go:354-403 | The nickname is always what the last update that reached the server set it to: the id of a write, or empty by a release. |
| `RandUtil.IntRange` | randutil/randutil.go:19-32 | Fails exactly for an inverted range; otherwise the result is in the half-open range, or the bound itself when the range is empty. |
| `RandUtil.IntRangeUniform` | randutil/randutil.go:19-32 | Each number of the range is returned for exactly one draw. |
| `RandUtil.Shuffle` | randutil/randutil.go:35-43 | The array in place becomes the arrangement the draws prescribe, and is always a permutation of what it was. |
| `RandUtil.ShuffledPermutes` | randutil/randutil.go:35-43 | Any draws rearrange and never lose or repeat an element. |
| `RandUtil.ShuffledInjective` | randutil/randutil.go:35-43 | For distinct elements, different vectors of draws give different arrangements. |
| `RandUtil.ShuffleUnbiased` | randutil/randutil.go:35-43 | For distinct elements, every permutation comes from exactly one vector of draws d_i in [0, i]. |
| `RandUtil.WeightedChoice` | randutil/randutil.go:46-74 | The position picked is the first whose running sum exceeds the draw, or the only one there is; it fails exactly without choices or if no draw picks one. |
| `RandUtil.PickedInterval` | randutil/randutil.go:58-71 | The draws that pick a choice are a contiguous interval between two prefix sums. |
| `RandUtil.WeightsExact` | randutil/randutil.go:46-74 | With non-negative weights exactly Weight_i of the possible draws return choice i, and every draw returns some choice. |
| `RandUtil.InternalErrorExactly` | randutil/randutil.go:66-73 | For weights with a sum of at least zero and whatever was drawn, no choice has a running sum above the value exactly if the sum is zero and no running sum is positive. |
| `RandUtil.UnpickableExactly` | randutil/randutil.go:58-73 | With at least two choices and non-negative weights, no choice can be picked if and only if all weights are zero. |
| `DirectChannels.HalfRootExact` | loadtest/bulkload.go:390 | The integer form of floor(sqrt(d)/2 - 0.5) equals the real expression for an exact square root. |
| `DirectChannels.DecodeInvertsPosition` | loadtest/bulkload.go:389-391 | Decoding the row-major position of a pair gives the pair back. |
| `DirectChannels.DecodeCorrect` | loadtest/bulkload.go:389-391 | For every n and k below n(n-1)/2 the decoded pair satisfies 0 <= i < j < n and is the one with exactly k pairs before it. |
| `DirectChannels.CapIsSafe` | loadtest/bulkload.go:377-382 | The cap never exceeds n(n-1)/2; it equals it exactly for one user or an even number of users, and is (n-1)/2 below it otherwise. |
| `DirectChannels.MakeDirectChannels` | loadtest/bulkload.go:374-408 | There are min(requested, n/2*(n-1)) channels, in row order; the k-th has the two different users of the k-th pair, and no two channels have the same pair. |
| `GroupChannels.SortedUnique` | loadtest/bulkload.go:446-451 | A set of names has only one sorted duplicate-free list, so the key of a group does not depend on the order of the draws. |
| `GroupChannels.JoinInjective` | loadtest/bulkload.go:447-451 | For names without commas the joined key determines the list of names. |
| `GroupChannels.Picker.Draw` | loadtest/bulkload.go:428-442 | The names array stays a permutation of itself, the names picked end up at its back in the order they were picked, and it fails exactly if there are too few names. |
| `GroupChannels.Picker.PickRandomUsernames` | loadtest/bulkload.go:425-458 | A result is a sorted, duplicate-free group of the asked size whose key was not seen; it fails exactly if there are too few names or after three groups that were all seen before. |
| `GroupChannels.RejectedIsDuplicate` | loadtest/bulkload.go:447-451 | With comma-free names, a candidate's key is among the keys of the groups made, which is what the seen set holds, if and only if a group with the same members was made. |
| `GroupChannels.MakeGroupChannels` | loadtest/bulkload.go:416-483 | Every group is sorted, duplicate-free, of three to eight of the users, and no two groups have the same members; there are as many as requested, or the size wanted next exceeds the number of users, or three candidates for it each had the key (with comma-free names: the members) of a group already made. |
| `Names.UserNamesDistinct` | loadtest/bulkload.go:353-355 | Whatever names are made up, numbered user names are pairwise distinct. |
| `Names.ChannelNamesDistinct` | loadtest/bulkload.go:357-359 | Equal channel names have equal numbers. |
| `Names.TeamNamesDistinct` | loadtest/bulkload.go:268-270 | Equal team names have equal numbers. |
| `Names.ItoaReadBack` | loadtest/bulkload.go:353-359 | The number at the end of a name is its decimal form: reading it in base ten gives it back, and there are no leading zeros. |
| `Membership.GenerateTeamChannels` | loadtest/bulkload.go:507-528 | A team's channels are appended in order, named by their number and the team's, with their schemes, and its index points exactly at them. |
| `Membership.GenerateChannels` | loadtest/bulkload.go:503-529 | Every team's index points at the channels of that team, and the indices together list every channel once. |
| `Membership.AddUsersToTeam` | loadtest/bulkload.go:573-585 | Exactly the picked users get the team, with a choice pointing at it; the other records are untouched. |
| `Membership.AddUsersToChannel` | loadtest/bulkload.go:607-621 | Exactly the drawn members of the team get the channel, at the end of their last team. |
| `Membership.AssignMemberships` | loadtest/bulkload.go:557-624 | After all nested loops every user's record is the one the permutations prescribe, user by user. |
| `Membership.ListedFacts` | loadtest/bulkload.go:607-612 | The users drawn for a channel are different, are of its team, and are as many as its clamped number. |
| `Volumes.PositionCount` | loadtest/bulkload.go:562-571 | Of n positions, min(n, high + 1) are high volume, min(mid, max(0, n - high - 1)) mid, and the rest low, for any shares. |
| `Volumes.SharesExactly` | loadtest/bulkload.go:550-571 | When the shares fit: the high class has one more than its share unless the share is everything, the mid class exactly its share or one fewer if the shares fill the list, the low class one fewer than the rest if there is a rest; all shares are met if and only if the high share is everything. |
| `Volumes.OneHighUnasked` | loadtest/bulkload.go:562-571 | Of three things with no high share and a mid share of one, one of each class. |
| `Volumes.TeamVolumesExact` | loadtest/bulkload.go:557-571 | Whatever permutation is drawn, that many teams are in each class. |
| `Volumes.ChannelVolumesExact` | loadtest/bulkload.go:587-606 | The same for the channels of every team. |
| `MembershipFacts.RecordIsFilter` | loadtest/bulkload.go:557-624 | Each record is the list of the teams the user was picked for, each with the list of the channels it was drawn for, in loop order. |
| `MembershipFacts.GeneratedNamesDistinct` | loadtest/bulkload.go:504-526 | Team names, and channel names within a team, made the generator's way are distinct. |
| `MembershipFacts.TeamsExact` | loadtest/bulkload.go:575-585 | A user has a team if and only if it was picked for it, and no team twice. |
| `MembershipFacts.ChannelsExact` | loadtest/bulkload.go:594-623 | A user lists a channel if and only if it was drawn for it. |
| `MembershipFacts.TeamSizesExact` | loadtest/bulkload.go:562-585 | The team at position s has exactly the configured number of high-volume users if s is at most the number of high-volume teams, of mid-volume users if it is at most that of high and mid ones, and of low-volume users otherwise. |
| `MembershipFacts.ChannelSizesExact` | loadtest/bulkload.go:594-623 | Each channel is listed by exactly the configured number of users of its position's class, clamped to the team's size, all of them members of its own team. |
| `MembershipFacts.MemberByPosition` | loadtest/bulkload.go:573-585 | Which users a team has: those at the first positions of its user permutation, as many as its class has. |
| `MembershipFacts.ListerByPosition` | loadtest/bulkload.go:607-612 | Which users list a channel: those at the first positions of its own permutation of the team's users, as many as its class has. |
| `MembershipFacts.TeamChoicesExact` | loadtest/bulkload.go:560-585 | A record's entries are teams in the order of the team permutation, and the choice for each names its position with the weight configured for the team's class. |
| `MembershipFacts.ChannelChoicesExact` | loadtest/bulkload.go:594-621 | An entry's channels are channels of its own team in the order of the team's index, and the choice for each names its position with the weight configured for the channel's class. |
| `MembershipFacts.FinalChoicesPointHome` | loadtest/bulkload.go:580-620 | Every team choice and channel choice names its own position. |
| `MembershipFacts.PickTeam` | loadtest/bulkload.go:223-235 | Never indexes out of range: nothing for a user without teams, otherwise a team of the user's own, chosen by weight; it panics exactly if no draw picks a choice. |
| `MembershipFacts.PickChannel` | loadtest/bulkload.go:246-258 | The same for the channels of a team. |
| `Emission.ChunksFacts` | loadtest/bulkload.go:750-760 | The chunks concatenate to the list, none is empty, none is above 100, all but the last are full. |
| `Emission.SendTeamChannels` | loadtest/bulkload.go:722-760 | The loop fills one buffer again and again and sends a copy of it with every line; at the end the slices sent still hold exactly the chunks of the list, in order. |
| `Emission.SendHeader` | loadtest/bulkload.go:643-680 | Version, schemes, teams and channels, in this order. |
| `Emission.SendPlainUsers` | loadtest/bulkload.go:682-707 | One line for each user without channels; records end stripped with their teams set aside. |
| `Emission.SendMemberships` | loadtest/bulkload.go:717-762 | From the stripped records: all membership lines, and every record is back to what it was. |
| `Emission.SendFile` | loadtest/bulkload.go:643-770 | The whole stream, and the user records end as they began. |
| `EmissionFacts.ReferencesPointBackwards` | loadtest/bulkload.go:643-770 | Of the lines as sent: every scheme, team, channel and user a line refers to was introduced by an earlier line. |
| `EmissionFacts.ClosedExactly` | loadtest/bulkload.go:643-770 | What that means, spelled out: earlier lines hold the scheme and the team named, the channel of that team, the user itself if the line lists channels, and every member of a direct channel. |
| `EmissionFacts.FileRoundTrip` | loadtest/bulkload.go:717-762 | Of the lines as sent: reading them in order gives each user, in each of its teams, exactly its channel list, in order. |
| `Encoder.StepKeepsInv` | loadtest/bulkload.go:629-641 | Every step of producer and encoder keeps what was sent equal to what was written, is held and is queued, and each written line a snapshot from within 101 sends. |
| `Encoder.OutputInOrder` | loadtest/bulkload.go:629-773 | In every interleaving the file is an in-order prefix of what was sent, at most 101 lines short, and complete when doneChan closes. |
| `Encoder.NeverStuck` | loadtest/bulkload.go:629-641 | Until doneChan is closed, producer or encoder can move. |
| `Encoder.RunsAreBounded` | loadtest/bulkload.go:629-641 | Every run of producer and encoder ends after at most three steps for each operation of the producer, and two. |
| `Encoder.EncodingsExactly` | loadtest/bulkload.go:629-641 | What a line can look like in the file over all interleavings: exactly the snapshots of its record while at most 100 later lines have been sent. |
| `Encoder.StrippedIffFarEnough` | loadtest/bulkload.go:692-719 | A user's plain line is written without channel memberships in every interleaving if and only if at least 101 sends separate it from the restoring of the user's Teams. |
| `BulkFile.GeneratedFileRefersBackwards` | loadtest/bulkload.go:643-770 | The lines as sent for the generated users, whatever was drawn, refer only to what earlier lines introduce. |
| `BulkFile.GeneratedFileRoundTrip` | loadtest/bulkload.go:717-762 | Reading the lines as sent gives each generated user exactly the channel lists the membership loops gave it. |
| `BulkFile.GenerateTeams` | loadtest/bulkload.go:260-280 | Numbered teams, all with one scheme of the list or all with none. |
| `BulkFile.GeneratePlan` | loadtest/bulkload.go:485-612 | Whatever is configured and drawn, as long as no team is to have more users than there are, the generator makes what `FromGenerator` describes: the other results are about everything it can make. |
| `BulkFile.GeneratorIsSound` | loadtest/bulkload.go:495-529 | Teams, channels, their index and names made the generator's way satisfy what the other results ask: the index points at channels of the right team, names are distinct, and every scheme and team named exists. |
| `BulkFile.SeparatedIffEmoji` | loadtest/bulkload.go:684-690 | A line of another type separates users and memberships if and only if there is an emoji. |
| `BulkFile.PlainLineStrippedExactly` | loadtest/bulkload.go:682-762 | For the generator's own program: user u's plain line is always stripped if and only if later users, emoji and earlier users' memberships make at least 101 lines. |
| `WrittenFile.FileComesOut` | loadtest/bulkload.go:629-773 | In every interleaving the finished file is the sequential generator's, section by section, except that the first line of a user with fewer than 101 lines before its restoring may carry the user's memberships. |
| `WrittenFile.EarlyHappens` | loadtest/bulkload.go:692-719 | For every user at risk some run of generator and encoder ends with that line in the file. |
| `WrittenFile.FileIsDetermined` | loadtest/bulkload.go:629-773 | The finished file is the same in every interleaving if and only if no user at risk has a channel; with 101 emoji none is at risk. |
| `FileContents.FileReadBack` | loadtest/bulkload.go:643-770 | Reading the lines as sent by kind gives back the lists: the schemes of teams and then of channels, teams and channels with their schemes, emoji, and the members of the direct channels, each in order. |
| `FileContents.WrittenReadBack` | loadtest/bulkload.go:629-773 | The same of every file that generator and encoder can write together. |
| `FileContents.PlainUsersReadBack` | loadtest/bulkload.go:682-707 | The lines without channels are one for each user in order, with the names of all the user's teams. |
| `FileContents.FirstLineExactly` | loadtest/bulkload.go:682-707 | In every written file the line of user u comes u places after the header and names the user and all its teams; it lists either no channel or, if early, all of the user's. |
| `FileContents.MembershipsAreChunks` | loadtest/bulkload.go:722-760 | Every membership line lists between one and 100 channels, all of one team of its user. |
| `FileContents.SentLinesShort` | loadtest/bulkload.go:682-690 | No line as sent lists more than 100 channels. |
| `FileContents.ShortExactly` | loadtest/bulkload.go:682-690 | No line of the written file lists more than 100 channels, in every interleaving, if and only if no user at risk has more than 100 channels in all. |
| `ImportedFile.WrittenLoads` | loadtest/bulkload.go:629-773 | Reading the written file in order gives a user each of its channel lists, twice if its first line came out early and once otherwise; so in every interleaving it is put into exactly its channels. |
| `ImportedFile.RoundTripExactly` | loadtest/bulkload.go:629-773 | A user's channel lists come back from the file in every interleaving if and only if the user is not at risk or has no channel. |
| `ImportedFile.ReferencesExactly` | loadtest/bulkload.go:629-773 | Every scheme, team, channel and user a line of the written file refers to was introduced by an earlier line, in every interleaving, if and only if no user at risk has a channel. |
| `ImportedFile.OthersAlwaysIntroduced` | loadtest/bulkload.go:629-773 | Without any condition: in every interleaving everything a written line refers to was introduced by an earlier line, save that a first line may itself bring the user it is about. |
| `ImportedFile.GeneratedRoundTripExactly` | loadtest/bulkload.go:485-773 | The exact round trip for every user of the generator, whatever it makes up and draws. |
| `ImportedFile.MakeAllDirectChannels` | loadtest/bulkload.go:626-627 | The direct channels are min(requested, n/2*(n-1)) pairs, the k-th of which has the k-th pair of names, and then the groups, each of three to eight of the names. |
| `ImportedFile.GeneratedReferencesExactly` | loadtest/bulkload.go:485-773 | The exact condition for backward references, for everything the generator makes up and draws, direct channels included. |
| `Chunker.SendInSegments` | loadtest/setup_server.go:142-173 | The scanner loop sends exactly the segments of the file, in order, up to the first refusal. |
| `Chunker.SegmentsShape` | loadtest/setup_server.go:146-171 | Number, headers and sizes of the segments from any point of the loop on. |
| `Chunker.SegmentsPayload` | loadtest/setup_server.go:146-171 | The segments without repeated headers are the rest of the file. |
| `Chunker.SegmentsCorrect` | loadtest/setup_server.go:142-173 | For any file of L > 0 lines: floor((L+1)/1000)+1 segments, each headed by the version line, the first of at most 999 lines, inner ones of 1+1000, and without the repeated headers they are the file. |
| `Chunker.CarriedExactly` | loadtest/setup_server.go:146-173 | The first k segments carry exactly the first 1000k - 1 lines of the file, or all of them; and all of them only when at most a last segment of the header alone is missing. |
| `ChunkedImport.SegmentsLoad` | loadtest/setup_server.go:124-173 | Importing the first k segments loads exactly what those lines of the file load, the repeated version lines notwithstanding. |
| `ChunkedImport.ServerHas` | loadtest/setup_server.go:112-173 | From generator to server, in every interleaving: when the segment after k accepted ones is refused a user has what the first 1000k - 1 lines of the written file give it, and after no refusal exactly its channel lists, twice if its first line came out early. |
| `Posts.RandomTime` | loadtest/bulkload.go:829-836 | The time is within the range before now, or between the root's time and now; it panics exactly where the draw has no positive bound. |
| `Posts.EachMomentOnce` | loadtest/bulkload.go:829-836 | For a reply, each moment from the root post up to now is the result of exactly one draw. |
| `Posts.EachSecondOnce` | loadtest/bulkload.go:829-836 | Without a root post, each whole number of seconds below the range is taken back by exactly one draw. |
| `Posts.EachRootOnce` | loadtest/bulkload.go:919-920 | Each root post sent before is answered for exactly one draw. |
| `Posts.CreateAt` | loadtest/bulkload.go:926-931 | The milliseconds of the whole second a time is in: a multiple of 1000, within a second below it. |
| `Posts.ChannelPosts` | loadtest/bulkload.go:908-950 | The two loops send at least n and fewer than n+100 posts, a multiple of 100, and panic exactly if there is no user, no time range or a reply made before the clock has passed its root. |
| `Posts.RepliesFollowRoots` | loadtest/bulkload.go:915-924 | A reply names a root sent earlier in the same channel that is no reply itself, and its CreateAt is not before the root's nor after the clock; every hundredth post is a root. |
| `Posts.RepliesInStream` | loadtest/bulkload.go:909-947 | In the stream a channel sends, a post is a reply exactly if it is not the first of a hundred and its draw says so; every reply answers an earlier root post with CreateAt not after its own; users take turns, starting with the channel's number modulo the users. |
| `Posts.TimesInStream` | loadtest/bulkload.go:908-931 | A post's CreateAt is the whole second of its moment: drawn back from the clock, or for a reply drawn forward from the root's moment and before the clock. |
| `PostImport.Import` | loadtest/bulkload.go:957-983 | An importer's batches concatenate to its lines; all are of 1000 lines but the last, which is shorter and possibly empty. |
| `PostImport.StepKeepsInv` | loadtest/bulkload.go:887-983 | Every transfer, load and close moves lines without losing or repeating one. |
| `PostImport.EachLineLoadedOnce` | loadtest/bulkload.go:887-983 | In every interleaving of any senders and importers each line is still to be sent or with exactly one importer, and at the end the loaded lines are exactly those of all streams, in batches of at most 1000. |
| `PostImport.ImportersKeepOrder` | loadtest/bulkload.go:957-983 | Whatever the schedule, an importer writes and loads the lines in the order it receives them. |
| `PostImport.NeverStuck` | loadtest/bulkload.go:887-953 | Until all importers are done someone can move. |
| `PostImport.RunsAreBounded` | loadtest/bulkload.go:887-983 | Every schedule ends after at most two steps for each line and each importer, and one. |
| `PostImport.StreamsCover` | loadtest/bulkload.go:898 | The goroutines of ThreadSplit together send every channel's posts once. |
| `PostImport.PostsConserved` | loadtest/bulkload.go:887-953 | For one team, whatever the schedule of four senders and four importers: when the wait is over the table holds the posts the loops of all its channels sent, the same number for each channel, at least n and fewer than n+100 and a multiple of 100. |
| `Timing.RouteStats.AddSample` | loadtest/client_timing_stats.go:56-64 | A hit is counted, and the duration is appended if 200 <= status < 300 and an error counted otherwise; the name stays. |
| `Timing.RouteStats.Merge` | loadtest/client_timing_stats.go:66-84 | A fresh object with the sums of hits and errors, the concatenated durations and the name of the later operand; either operand may be nil and neither is changed. |
| `Timing.ClientTimingStats.AddRouteSample` | loadtest/client_timing_stats.go:114-122 | Exactly the route's statistics change, by one hit and either the duration or an error, and they are made if absent; no two routes share an object. |
| `Timing.ClientTimingStats.Merge` | loadtest/client_timing_stats.go:124-139 | A fresh object holding, for each route of either operand, the merged statistics, whatever order the maps are visited in. |
| `Timing.ClientTimingStats.CountResults` | loadtest/client_timing_stats.go:196-203 | The number of durations of all routes, whatever order the map is visited in. |
| `Timing.ClientTimingStats.Reset` | loadtest/client_timing_stats.go:206-209 | Nothing is left. |
| `Timing.MergedAssociative` | loadtest/client_timing_stats.go:124-139 | Merging is associative and empty statistics are neutral. |
| `Timing.ConsistencyKept` | loadtest/client_timing_stats.go:56-84 | NumHits = NumErrors + len(Duration) for every route is kept by samples and by merging. |
| `Timing.AddAfterMerge` | loadtest/client_timing_stats.go:114-139 | Adding a sample commutes with merging in what came before. |
| `Timing.AccumulatedExactly` | loadtest/client_timing_stats.go:56-122 | After any samples a route has the durations of its samples with 200 <= status < 300 in order, as many hits as samples, and as many errors as others; a route is reported if and only if there was a sample of it. |
| `TimingPipeline.RunMonitor` | loadtest/run.go:97-110 | The monitor loop logs exactly the windows of its report stream. |
| `TimingPipeline.WindowSizes` | loadtest/run.go:100-109 | For c successful reports there are (c+100)/101 windows; the first c/101 hold exactly 101 successes, and a last one the remaining c%101 if any remain. |
| `TimingPipeline.WindowsRefineAccumulation` | ltparse/results.go:44-72 | Merging an instance's windows in order gives, per route, the durations of never resetting, and hits and errors short of exactly the reports not covered, all of which failed: none if c%101 is not zero, otherwise those after the last success. |
| `TimingPipeline.NothingLostExactly` | loadtest/run.go:106-109 | Nothing is lost if and only if there was no report, or the last one succeeded, or the number of successes is no multiple of 101. |
| `TimingPipeline.ParseTimings` | ltparse/results.go:44-87 | Each instance's accumulator is the fold of its own windows, however the entries are interleaved, and the instances without a name share "default"; fails exactly on a malformed entry or without any timings. |
| `TimingPipeline.InstancesShareExactly` | ltparse/results.go:44-72 | Two entries go to one accumulator if and only if their ids agree, an absent one counting as "default". |
| `TimingPipeline.ParsedIsAccumulated` | ltparse/results.go:44-87 | Monitor and parser together: the parser's map has an accumulator for an instance if and only if one of its reports succeeded, and it holds the statistics of the instance's covered reports. |
| `TimingPipeline.ParsedExactly` | ltparse/results.go:44-87 | Written out by the reports: an instance is in the parser's map if and only if a report had 200 <= status < 300, and then each route has the durations of all these in order, and the hits and errors of the covered reports. |
| `TimingPipeline.AggregateOrderFree` | ltparse/results.go:103-110 | Aggregating the instances in any map order gives the same hits, errors and multiset of durations per route. |
| `TimingPipeline.AggregateIsSum` | ltparse/results.go:103-110 | From all machines to the result: the aggregate has, per route, the sum of the hits, errors and durations of every instance's covered reports, in any map order; an instance that is missing covers none. |
| `TimingPipeline.AggregateExactly` | ltparse/results.go:103-110 | Written out by the reports: the aggregate has per route the durations of every successful report of every instance, and the hits and errors of the covered ones; an instance that is missing had no successful report. |
| `ForkJoin.StepKeepsInv` | terraform/cluster_deploy.go:21-66 | Every step of every goroutine keeps the WaitGroup counter, the failures and the tasks accounted for, and uses up a bounded measure. |
| `ForkJoin.PanicsExactly` | terraform/cluster_deploy.go:44-66 | What counts as a panic: a send on the closed channel, or a Done that takes the counter below zero. |
| `ForkJoin.WaitIsComplete` | terraform/cluster_deploy.go:44-66 | For every forest of nested tasks and every schedule: Wait returns only after all tasks have ended, nothing is sent on the closed channel and the counter never goes below zero. |
| `ForkJoin.CountIsExact` | terraform/cluster_deploy.go:35-46 | When Deploy returns, failedCount is the number of actions that returned an error. |
| `ForkJoin.NeverStuck` | terraform/cluster_deploy.go:21-66 | No reachable state before the return is a deadlock. |
| `ForkJoin.RunsAreBounded` | terraform/cluster_deploy.go:21-66 | Every schedule ends after at most four steps for each task and five more. |
| `ForkJoin.DeployReports` | terraform/cluster_deploy.go:21-144 | The count for the tasks of DeployMattermost and DeployLoadtests, whichever of the two run: one for each group that fails as a whole, one for each failing server of the others, none for a group without addresses. |
| `ThreadSplit.Worker` | loadtest/thread_split.go:14-26 | One goroutine calls the action with each index of its range in order: len/n of them from t*(len/n) on, and the last goroutine all the rest. |
| `ThreadSplit.EachIndexOnce` | loadtest/thread_split.go:10-29 | For any positive number of threads and every interleaving, no index is used twice, and after Wait each index below the length was used once. |
| `ThreadSplit.SplitEnds` | loadtest/thread_split.go:10-29 | Each thread goes through its range in order; until Wait returns some thread can go on, and it returns exactly after as many calls as there are indices. |
| `ThreadSplit.WriteSlot` | loadtest/client.go:47-56 | A successful login writes its own slot and no other. |
| `ThreadSplit.SlotsComplete` | loadtest/client.go:34-57 | Whatever the schedule, after the split slot i holds the outcome of login i. |
| `ThreadSplit.ActiveTokens` | loadtest/client.go:59-66 | The filter keeps exactly the filled slots, in order. |
| `ThreadSplit.TokenIsOwnExactly` | loadtest/run.go:144-148 | Token k belongs to entity k's own user if and only if no login up to k failed. |

## Left out

- SSH, kubectl, helm, terraform and HTTP calls, the Mattermost client, the user actions, command lines, configuration files, templates and log writers: input and output with systems that are not here.
- JSON and CSV encoding, temporary files and LOAD DATA: a line is a value, and writing a batch or loading it does not fail.
- Go's integer width: integers are unbounded, so overflow is not modelled.
- Floating point: the square root is exact, the products of counts and percentages are given as counts, and durations are integers.
- Percentiles, medians and other figures of CalcResults and GetScore: they come from a library.
- processCommonPaths: regular expressions of a library; a sample arrives with its route.
- Aggregated baselines (ltparse/results.go:117-119) are folded from the actual timings, and without aggregation the instance shown depends on map order: neither is modelled.
- Random attributes of users and channels other than their names, teams and schemes; roles of memberships, which are never set.
- Creating the schema, and Kubernetes profiles other than the division of users among replicas.
- Websocket retries, wait timeouts and the restart of entities that panic.
- `InstanceRegistry.InstanceTable.InsertInstance`: a failing INSERT leaves no row behind; an INSERT that is applied although its answer is lost is not modelled. The sleeps between attempts only let others run.
- `LockLimits.HoldersExclusiveExactly`: each API request is one atomic step and of the user record only the nickname is modelled; nothing is said about contenders that wait for ever after a holder has crashed.
- `Encoder.StepKeepsInv`: encoding one line is one atomic step, so a record that changes in the middle of an encoding is not modelled.
- `GroupChannels.MakeGroupChannels`: draws are arbitrary choices, so nothing is said about how likely a group or its size is.
- `Chunker.SendInSegments`: a line too long for the scanner, which ends the setup with an error, is not modelled.
- `TimingPipeline.ParseTimings`: the accumulators are values (the class they are objects of is proved in `Timing`), and an instance id that is no string, which panics, is not modelled.
- `TimingPipeline.AggregateIsSum`: two monitors that log under one instance id are not modelled.
- `TimingPipeline.RunMonitor`: the timing channel is the sequence of reports taken from it.
- `ThreadSplit.EachIndexOnce`: the number of threads is positive, as in both uses; the source returns at once for zero and panics below zero.
- `ThreadSplit.WriteSlot`: a login is its resulting token, or the empty string if any of its three requests failed.
- `PostImport.EachLineLoadedOnce`: an importer that returns early because no temporary file can be made is not modelled.
- `Posts.ChannelPosts`: the text of a post and the columns that are constant are not modelled; ids are inputs.
