# iptracking, verified

A Dafny model of the parts of iptracking that keep state, and proofs about them: the event queue of the PAM
daemon and the two threads around it, the block list that the database derives and its rate-based updates, the
rebuild of the kernel set by the firewall daemon, the event record parser, and the small loop algorithms they
rest on.  `dafny verify dfyconfig.toml` checks everything.

## What is modelled

- `LogRecords`, `LogParse`, `LogPrint`, `Chartest`: the fixed-layout event record, its check, the parser with its
  cursor and remaining length, the character pattern test, and the canonical text line the parser undoes.
- `QueueSpec`, `Backoff`, `LogQueue`, `Daemon`: the bounded FIFO with its growth law, for every configuration the
  configuration check accepts; the waits of a blocked push in C's int; the class that implements the queue with pools
  of slots threaded on a free and a used chain; the event thread and the database thread as a state machine whose runs
  are all interleavings of lock-held steps, and which of its configurations lead to undefined behaviour.
- `Cidr`, `BlockList`, `LogCounts`, `RateBlock`: CIDR blocks of both families with prefix comparison proved equal to
  inclusion of address sets; the views that turn raw blocks and static rules into `block_now`; the counting views;
  the insert trigger and the cleanup as steps of a run with a clock that never goes back.
- `BlocklistEnum`, `Ipset`, `IpsetThreads`, `IpsetNames`: the two drivers' enumerators as refinements of one
  iterator; the ipset session helper and the update built on it; the same commands issued by several threads in
  any order; the names the daemon accepts.
- `PgArena`, `YamlPath`, `LastSession` (and `Options`, `Bounds`, which they share): the PostgreSQL driver's one-block string packing, path lookup in a possibly
  cyclic YAML graph, and the first and last session table kept by a rule and rebuilt by a function.

Code that changes things in place is a class or a method with loops, proved against a function; code that is an
expression or a query is a function.  Failures of foreign calls (memory, kernel commands, parsing of names,
queries, the steps of a statement) are parameters, so every statement holds however they go.  Text is a sequence of characters; integer
widths are explicit (`uint16`, `int32`, a `uint32` newtype whose arithmetic is proved not to wrap).

## Where the code and its documentation differ

- `firewall.static_rules` is documented as the rules not contained in others, but its count compares with `<<=`, so
  every rule counts itself and only rows with a NULL disposition remain.  The view is the documented one exactly when no
  rule has a disposition (`BlockList.StaticRulesDocumentedIff`); `BlockList.SameCoverageIff` says when the addresses
  blocked are nevertheless the documented ones, and `BlockList.OneDenyRule` is a table where they are not.  The culling
  theorem holds for every rules relation.
- The pushes that wait are documented to start at a shortest period and to be incremented up to a longest one.  The
  configuration check lets through a zero maximum with any minimum, negative values, and increments that leave int; the
  promise holds exactly under the condition of `Backoff.BackoffPromiseIff`, and each kind of failing setting has an example.
- `grow-threshold` is documented as the number of tries at each period.  After the first period the code makes one more;
  `Backoff.ThresholdDocumentedIff` says when that shows.
- A zero `records.min` or `records.delta` is accepted and makes the queue read through a NULL free list;
  `Daemon.NullReadIff` says under which configurations a run gets there.
- The parser's overflow check on 16-bit fields misses some values: a field is read wrong exactly when its value does not
  fit and, read digit by digit, never falls modulo 65536 (`LogPrint.ReadRightIff`).  The least such value is 72817.
- A comment in the parser lists six fields; the header and the code have seven, with the pid.
- `libiptracking/yaml_helpers.h` documents indices such as `ipv4.addr[2]`, but the closing bracket is looked for before
  the number is passed, so no path with an index resolves (`YamlPath.IndexNeverResolves`, `YamlPath.HeaderExample`); the
  lookup is the documented one exactly as `YamlPath.DocumentedIff` says.
- A successful update is meant to publish the block list.  A failed query and a failed allocation of the enumerator look
  like an empty list, and a SQLite step that fails inside the list looks like its end; the update activates what it got
  and reports success.  `Ipset.PublishesWholeIff` says exactly when the whole list is published, and
  `Ipset.FailedQueryPublishesNothing` and `Ipset.FailedStepPublishesPart` are updates that publish less.
- Every add sets the EXIST option of the ipset session and nothing clears it, so from then on a create succeeds over a
  rebuild set that could not be destroyed, and the update publishes the left-over entries too: exactly when they are not
  all in its list (`Ipset.Helper.FirewallNotify`, `IpsetThreads.SerialRunsPublishWhole`).
  `IpsetThreads.LeftOverIsPublished` is such a run of two updates.
- Activation issues its last destroy even when the name before it was not parsed; ipset(8) takes a destroy without a
  name to mean every set.  The contracts of `Ipset.Helper.Activate` and `FirewallNotify` say exactly when that happens.
- The trigger's comments promise to extend the end date of a tuple that already exists.  The code does so only once it
  has expired; `RateBlock.ExtendDocumentedIff` says when that makes no difference.  A tuple that starts later keeps its
  start, so a met threshold need not block anything; `RateBlock.AddressInForceIff` and `RateBlock.Net16InForceIff` say when it does.
- The trigger has thresholds for /24 networks, and they never act (`RateBlock.Net24BranchIsDead`);
  `RateBlock.Net24LimitIgnored` is a log that meets one.
- An update from two threads at once can publish part of a list (`IpsetThreads.InterleavingPublishesPart`); what
  the latest activated load built is published in every run exactly when there are not two threads
  (`IpsetThreads.ExpectedIffOneThread`).

## Model

| member | source | states |
|---|---|---|
| LogRecords.ValidIffStrings | libiptracking/log_data.c:14-25 | a record passes the check exactly when its event is one of the four kinds and each text field is a nonempty C string that ends inside its field |
| Chartest.Test | libiptracking/chartest.c:11-40 | the two loops decide whether the characters that are there pass the flattened pattern, and end after the pattern or the buffer |
| LogParse.LogDataParse | libiptracking/log_data.c:55-151 | the cursor loops compute the specified parse of every buffer, with every access in bounds |
| LogPrint.ParseUndoesPrint | libiptracking/log_data.h:113-127 | parsing the line of any canonical record, followed by anything, gives that record and the end of the line; a cut-short timestamp is allowed at the buffer end |
| LogPrint.PrintIsNormalForm | libiptracking/log_data.c:63-148 | for every accepted buffer, printing the record and parsing again gives the same record |
| LogPrint.RangeOfParse | libiptracking/log_data.c:63-148 | the records the parser can return are exactly the canonical ones |
| LogPrint.ParsedValidIff | libiptracking/log_data.c:14-25 | a parsed record passes the daemon's check exactly when its event is known and its three text fields are nonempty |
| LogPrint.AcceptedIsCongruent | libiptracking/log_data.c:88-116 | an accepted 16-bit field is congruent to its decimal value modulo 65536, for digit strings of any length |
| LogPrint.CheckHoldsBelow72817 | libiptracking/log_data.c:88-116 | up to 72816 a field is accepted, and exactly, if and only if it fits 16 bits |
| LogPrint.CheckMisses72817 | libiptracking/log_data.c:88-116 | 72817 is read as 7281 and no smaller value is misread; 131072, though larger, is refused as it should be |
| LogPrint.AcceptedIff | libiptracking/log_data.c:88-116 | a digit string of any length is accepted exactly when its value never falls modulo 65536 from digit to digit |
| LogPrint.ReadRightIff | libiptracking/log_data.c:88-116 | a 16-bit field of any length is read as its value or refused as too large, as it should be, exactly when the value fits or falls modulo 65536 at some digit |
| LogPrint.LastDigitCheck | libiptracking/log_data.c:90-99 | the special case of that where all digits but the last fit: the check compares the value's quotient by ten with its remainder modulo 65536 |
| LogPrint.Uint16FieldReads | libiptracking/log_data.c:88-116 | what a record gets from digits followed by a comma is the wrapping accumulation of those digits |
| LogPrint.PidScan | libiptracking/log_data.c:118-131 | the pid is read exactly up to INT32_MAX and the arithmetic is undefined beyond |
| LogPrint.TimestampIff | libiptracking/log_data.c:30-53 | the timestamp test takes nineteen characters, or as many as there are, exactly when digits, dashes, a blank and colons stand at their places |
| LogPrint.LeadingSpacesSkipped | libiptracking/log_data.c:69-71 | any white space before a canonical line is skipped and changes nothing else |
| QueueSpec.TryPushMeaning | pam-daemon/log_queue.c:96-144 | under every accepted configuration the limit is reported exactly when all records it allows are in use; otherwise the event joins the end, memory ran out and nothing changes, or, exactly when the parameter that sizes the next pool is zero below the limit, a NULL free list is read; the pool count stays least |
| QueueSpec.GrowthLaw | pam-daemon/log_queue.c:105-127 | after k >= 1 pools the total the code adds up is min(limit, min + (k - 1) * delta) |
| QueueSpec.LeastPoolsIsLeast | pam-daemon/log_queue.c:105-127 | the pool count is the least whose capacity holds the peak load |
| QueueSpec.StarvedOnlyAtCapacity | pam-daemon/log_queue.c:105-131 | a queue asks for a pool of no record exactly when the configuration can starve it and it is filled to its capacity, which it never exceeds |
| Backoff.BackoffClosedForm | pam-daemon/log_queue.c:266-285 | for all parameters, the k-th sleep of a push happens exactly when no sum has left int before, and then has a closed-form length |
| Backoff.BackoffFormula | pam-daemon/log_queue.c:266-285 | for every increment and threshold the wait is min(max, min + delta * steps), with steps = k div (threshold + 1) for a positive threshold, exactly when min <= max |
| Backoff.BackoffDefinedIff | pam-daemon/log_queue.c:266-285 | a push can stay blocked for ever without leaving int exactly when the increment is zero, or positive with room above the larger bound |
| Backoff.BackoffMaximumIff | pam-daemon/log_queue.c:266-285 | the sleeps made never exceed the maximum, as the unsigned argument of sleep(), exactly when 0 <= min <= max and the increment is not negative |
| Backoff.BackoffPromiseIff | README.md:358-363 | the sleeps start at min, never shrink, never exceed max and go on for ever exactly when 0 <= min <= max and the increment is zero, or positive with max + delta inside int |
| Backoff.ThresholdDocumentedIff | README.md:362 | while that promise holds, the waits are those of exactly threshold tries (at least one) at every period exactly when the threshold is not positive, nothing is stepped, or the first step reaches the maximum |
| Backoff.ZeroMaximumBreaksBackoff | pam-daemon/iptracking-pamd.c:415-418 | an accepted configuration whose second wait is zero |
| Backoff.NegativeIncrementBreaksBackoff | pam-daemon/iptracking-pamd.c:415-418 | an accepted configuration whose waits are 5 seconds, none, and then 136 years |
| Backoff.LargeIncrementBreaksBackoff | pam-daemon/iptracking-pamd.c:415-418 | an accepted configuration whose second step leaves int |
| Backoff.NegativeMinimumBreaksBackoff | pam-daemon/iptracking-pamd.c:415-418 | an accepted configuration whose first wait is 136 years |
| LogQueue.Queue.AddPool | pam-daemon/log_queue.c:60-92 | the new slots go before the old free chain, both chains stay sound, and a failed allocation changes nothing |
| LogQueue.Queue.AllocRecord | pam-daemon/log_queue.c:96-144 | under every accepted configuration the linked representation performs the abstract push attempt, appends one slot to the used chain, and otherwise changes nothing, or stands before a NULL free list |
| LogQueue.Queue.DeallocRecord | pam-daemon/log_queue.c:148-176 | a slot at any position of the used chain is removed, its event with it, and goes to the head of the free chain; an unknown slot changes nothing |
| LogQueue.Queue.Pop | pam-daemon/log_queue.c:302-323 | the oldest event is returned and removed, or the empty queue and the buffer are left alone |
| LogQueue.Queue.Push | pam-daemon/log_queue.c:258-298 | over any rounds of memory outcomes and removals: what is popped is exactly what the consumer removes; the popped events and the queue are the old queue with the event appended if accepted; with a free slot the event is stored at once whatever memory does; exactly when memory runs out, a NULL is read, or the push sleeps; each sleep has its closed length, and the first removal ends the wait |
| LogQueue.EachSlotOnce | pam-daemon/log_queue.c:61-176 | a slot of some pool is on exactly one chain, once, and no other slot is on either |
| Daemon.EveryRun | pam-daemon/iptracking-pamd.c:67-93 | in every interleaving accepted = popped ++ queue, logged is an in-order at-most-once selection of accepted and that of the valid records received, all are accounted for, and the queue stays within its limit |
| Daemon.NoFailureNoLoss | pam-daemon/iptracking-pamd.c:222-229 | in every run in which memory is always granted and the database takes every event, the records received are the logged ones, the one being logged, the queue and the one being pushed, in order |
| Daemon.AnswersCount | pam-daemon/iptracking-pamd.c:67-93 | the events logged are as many as the database took, and those that failed as many as it refused |
| Daemon.RoundsLog | pam-daemon/iptracking-pamd.c:67-93 | from any point where no event is being logged, n rounds of the database thread log the first n queued events in order and leave the rest |
| Daemon.ReceivedIff | pam-daemon/iptracking-pamd.c:222-229 | a record is taken off a connection exactly when the thread is idle, it is 128 bytes, and its event and texts are valid |
| Daemon.ReceivedIsStored | pam-daemon/iptracking-pamd.c:222-229 | a record taken below the capacity with memory granted joins the end of the queue |
| Daemon.RefusedIsDropped | pam-daemon/log_queue.c:286-288 | a record for which no slot is free and memory is not granted is dropped and nothing else changes |
| Daemon.EmptyQueueWaits | pam-daemon/log_queue.c:310-316 | on an empty queue the database thread waits, and calls pop again when the wait ends with nothing there |
| Daemon.BlockedPushResumes | pam-daemon/log_queue.c:275-287 | a blocked push goes through after one removal, whatever memory does |
| Daemon.SleepLengths | pam-daemon/log_queue.c:266-285 | in every interleaving and under every accepted configuration a sleeping push waits for the closed-form length |
| Daemon.NullReadIff | pam-daemon/log_queue.c:105-131 | some run reads through the NULL free list exactly when records.min is zero, or records.delta is zero and records.min below the limit |
| Daemon.WaitOverflowIff | pam-daemon/log_queue.c:279-281 | some run adds a wait out of int exactly when the queue can fill to its limit and the waits do not fit |
| Daemon.AcceptedAndFaulting | pam-daemon/iptracking-pamd.c:409-413 | two accepted configurations with runs that read through the NULL free list |
| Daemon.InOrderPositions | pam-daemon/iptracking-pamd.c:67-93 | an in-order selection sits at strictly increasing positions |
| Cidr.WithinIsSubset | firewall-daemon/psql-db.schema:36-39 | `<<=` holds exactly when every address of the one block is in the other |
| Cidr.NestedOrDisjoint | firewall-daemon/psql-db.schema:98-102 | two blocks that share an address are nested |
| Cidr.StrictlyWithinMeaning | firewall-daemon/psql-db.schema:98-102 | `<<` is containment without equality |
| Cidr.NetworkOfUnique | pam-daemon/psql-db.schema:163-171 | network(set_masklen(a, n)) is the one block of length n that holds a |
| Cidr.AddressesAre | firewall-daemon/psql-db.schema:16-21 | addresses are the numbers of 32 and of 128 bits |
| BlockList.BlockNowMeans | firewall-daemon/psql-db.schema:98-124 | for every table, rules relation and instant, block_now covers exactly the addresses of active raw blocks outside every static allow, and of static denies |
| BlockList.CulledDisjoint | firewall-daemon/psql-db.schema:107-124 | the entries that come from raw blocks are pairwise disjoint and inside no rule |
| BlockList.CulledAreMaximal | firewall-daemon/psql-db.schema:98-116 | they are exactly the largest active raw blocks outside the rules |
| BlockList.StaticRulesAsWritten | firewall-daemon/psql-db.schema:36-47 | the view static_rules holds exactly the rules with a NULL disposition |
| BlockList.BlockNowAsWritten | firewall-daemon/psql-db.schema:36-124 | hence block_now covers exactly what the active raw blocks cover |
| BlockList.StaticRulesDocumentedIff | firewall-daemon/psql-db.schema:36-47 | the view is the documented one (no rule inside another of its disposition) exactly when no rule has a disposition |
| BlockList.BlockNowAsDocumented | firewall-daemon/psql-db.schema:40-124 | with the documented view block_now covers the active raw blocks inside no allow rule of the table, and its deny rules |
| BlockList.SameCoverageIff | firewall-daemon/psql-db.schema:36-124 | as written it covers the documented addresses exactly when every denied address is in an active raw block and every address in one is denied or in one that no allow rule contains |
| BlockList.AlwaysSameCoverageIff | firewall-daemon/psql-db.schema:36-124 | it does so for every block table and instant exactly when no rule has a disposition |
| BlockList.OneDenyRule | firewall-daemon/psql-db.schema:36-47 | a table of one deny rule for which the view and block_now are empty and should not be |
| LogCounts.ColumnsAreAttempts | pam-daemon/psql-db.schema:309-337 | the four columns are the numbers of log rows that are authentications from the block in the last 5 minutes, 15 minutes, hour and day |
| LogCounts.OtherRowsNotCounted | pam-daemon/psql-db.schema:309-337 | a log row that is no authentication, or older than a day, changes no counting view |
| LogCounts.AggNetsCounts | pam-daemon/psql-db.schema:142-171 | each value of a grouped view is the number of log rows from its network |
| LogCounts.AggNetsAddUp | pam-daemon/psql-db.schema:142-171 | the values of a grouped view add up to the log |
| LogCounts.AggNetsConserve | pam-daemon/psql-db.schema:142-171 | each value is the sum of the values of the longer-prefix rows inside its network |
| LogCounts.NetCountsConserve | pam-daemon/psql-db.schema:319-337 | the same for each of the four columns, which is the number of attempts in its window, by any prefix lengths |
| LogCounts.PrefixGroupingConserves | pam-daemon/psql-db.schema:142-171 | for any network and any window of at most a day, or in total, the attempts from it are those from the longer-prefix rows inside it |
| LogCounts.ViewRowsNest | pam-daemon/psql-db.schema:309-337 | five minutes <= fifteen minutes <= hour <= day |
| LogCounts.OneRowPerAddress | pam-daemon/psql-db.schema:319-337 | at most one row of a fixed-prefix view holds an address, its own network, and it is there exactly when that network had an attempt in the last day |
| LogCounts.LongerRowImpliesShorter | pam-daemon/psql-db.schema:319-337 | a longer-prefix row implies a shorter-prefix row |
| RateBlock.Database.InsertLogRow | firewall-daemon/psql-db.schema:162-284 | an insert and its trigger perform one insert step |
| RateBlock.Database.CleanupBlockTable | firewall-daemon/psql-db.schema:131-139 | the cleanup performs one cleanup step and counts the expired rows |
| RateBlock.Net24BranchIsDead | firewall-daemon/psql-db.schema:233-266 | without a /16 row the /24 branch never changes the table |
| RateBlock.DecisionsAreShortest | firewall-daemon/psql-db.schema:170-216 | each decision is the shortest interval among the thresholds met by the number of authentication rows of the log in their windows, and none exactly when none is met |
| RateBlock.ThresholdBlocks | firewall-daemon/psql-db.schema:184-232 | after an insert that meets an address or /16 threshold some row holding it has a NULL end date or one later than now |
| RateBlock.InsertChanges | firewall-daemon/psql-db.schema:184-232 | every row an insert changes or adds holds the tested block, had expired or starts now, and ends the decided interval from now; all others are untouched |
| RateBlock.Net16AddsOnlyUncovered | firewall-daemon/psql-db.schema:220-231 | the /16 test adds a row only when no row of the table contains the /16 |
| RateBlock.QuietInsert | firewall-daemon/psql-db.schema:162-284 | an insert that meets no address and no /16 threshold leaves the table as it was, whatever the /24 counts |
| RateBlock.ThresholdCovers | firewall-daemon/psql-db.schema:162-232 | in a run from the empty table, an insert that meets a threshold has the address, or every address of the /16, covered at every later instant until the end of a row that has not ended |
| RateBlock.AddressInForceIff | firewall-daemon/psql-db.schema:184-199 | for any table, after a met address threshold the address's own row has not ended, and has started exactly when the table held no row for it that starts later |
| RateBlock.Net16InForceIff | firewall-daemon/psql-db.schema:217-232 | the same for a row that holds the /16 |
| RateBlock.InForceIff | firewall-daemon/psql-db.schema:121-124 | a row with time left is active from now until its end exactly when it does not start later |
| RateBlock.LaterStartDoesNotBlock | firewall-daemon/psql-db.schema:187-193 | a table on which a met threshold changes nothing and the address is not covered |
| RateBlock.ExtendDocumentedIff | firewall-daemon/psql-db.schema:185-198 | extending as the comment has it and as the code does agree exactly when there is no tuple, it has expired, or it ends then anyway |
| RateBlock.ExtensionWithheld | firewall-daemon/psql-db.schema:185-193 | a block ending in a second that a week's decision leaves so |
| RateBlock.Net24LimitIgnored | firewall-daemon/psql-db.schema:233-266 | a log that meets a /24 limit and on which no table changes |
| RateBlock.CleanupInvisible | firewall-daemon/psql-db.schema:131-139 | from the instant of a cleanup on, the covered addresses and the agent's view are what they were |
| RateBlock.CoverageNeverLost | firewall-daemon/psql-db.schema:131-232 | over any run, what a table covers at an instant not before the last call, every later table covers |
| RateBlock.EndNeverEarlier | firewall-daemon/psql-db.schema:131-232 | the end date of a block never moves earlier, even across deletion and reinsertion |
| RateBlock.BlockNowNeverLoses | firewall-daemon/psql-db.schema:113-232 | the agent's view never loses an address over a run while the static rules stay |
| BlocklistEnum.PostgresqlEnum.Next | libiptracking/db_drivers/db_instance_postgresql.c:465-473 | each call returns and removes the first pending row, and NULL for ever after the last |
| BlocklistEnum.SqliteEnum.Next | libiptracking/db_drivers/db_instance_sqlite3.c:318-342 | the pre-stepped cursor keeps the same contract over the rows before the first step that fails |
| BlocklistEnum.OpenPostgresql | libiptracking/db_drivers/db_instance_postgresql.c:493-545 | an opened enumerator has every row pending, and is NULL exactly when there is none or the query or allocation failed |
| BlocklistEnum.OpenSqlite | libiptracking/db_drivers/db_instance_sqlite3.c:362-398 | the same for the driver that steps before it answers, NULL also when that first step fails |
| BlocklistEnum.LoopMeetsAll | libiptracking/db_drivers/db_instance_sqlite3.c:318-342 | a fill loop meets the pending rows in order up to the first NULL, hence all of them exactly when none is NULL |
| BlocklistEnum.SqliteLoop | libiptracking/db_drivers/db_instance_sqlite3.c:318-342 | with SQLite it meets a front of the query's rows, and all of them exactly when no row is NULL and no step fails |
| BlocklistEnum.PostgresqlLoop | libiptracking/db_drivers/db_instance_postgresql.c:465-473 | with PostgreSQL it meets every row, a NULL one as the empty string |
| Ipset.Helper.Activate | firewall-daemon/ipset_helper.c:305-345 | exactly when it succeeds is stated; the production set is then the rebuilt one, else unchanged, and switches at most once, unless a destroy without a name goes through and leaves no set, which is also stated exactly |
| Ipset.Helper.Populate | firewall-daemon/iptracking-firewalld.c:364-374 | the rebuilt set gets exactly the nonempty fetched entries whose add succeeded, no other set changes at any instant, and the EXIST option is set once an entry was parsed |
| Ipset.Helper.FirewallNotify | firewall-daemon/iptracking-firewalld.c:346-409 | at every instant the production set is the old content or the new one, except after a destroy without a name; on success it is the loaded list and what was left over, the loaded list alone exactly when it contains the left-over, and unchanged otherwise; when the create succeeds over a left-over set is stated |
| Ipset.Helper.Serve | firewall-daemon/iptracking-firewalld.c:346-409 | over a run of serialised updates, with no destroy without a name, the production set is at every instant what the latest activated update published (its list and what was left over in the kernel it started with) or during an activated one what it held before, and never goes back |
| Ipset.LatestIsOne | firewall-daemon/iptracking-firewalld.c:346-409 | that is what the last of the activated updates published, or the initial content when there is none |
| Ipset.PublishesWholeIff | firewall-daemon/iptracking-firewalld.c:302-322 | for an update over the table's distinct nonempty rows, with either driver and nothing left over, nothing else is published, and the whole list exactly when it is empty or the query and the allocation went well, no SQLite step failed and every add was parsed and carried out |
| Ipset.SqlitePublishesRows | firewall-daemon/iptracking-firewalld.c:364-374 | with SQLite only rows of the query are published, whatever they are, and all nonempty ones when none is NULL and no step fails |
| Ipset.FailedQueryPublishesNothing | firewall-daemon/iptracking-firewalld.c:364-379 | a failed query or enumerator allocation publishes the empty list with either driver, all commands succeeding |
| Ipset.PostgresqlPublishesWhole | firewall-daemon/iptracking-firewalld.c:364-374 | with PostgreSQL every nonempty row is published when every add succeeds |
| Ipset.FailedStepPublishesPart | libiptracking/db_drivers/db_instance_sqlite3.c:333-339 | an update whose second step fails publishes one of two rows |
| Ipset.DriversLoadSame | firewall-daemon/iptracking-firewalld.c:364-374 | over rows without NULL and steps without failure both drivers load exactly the set of nonempty rows |
| IpsetThreads.ProductionEntriesAreSourced | firewall-daemon/iptracking-firewalld.c:287-409 | in every interleaving of any number of threads each production entry came from the initial set or a fetched list |
| IpsetThreads.ProductionPersistsIff | firewall-daemon/ipset_helper.c:305-345 | once the production set exists it exists at every later point of a run exactly when no destroy without a name goes through |
| IpsetThreads.UnnamedDestroyWipes | firewall-daemon/ipset_helper.c:336-342 | a run of one thread whose last name parse fails and after which no set exists |
| IpsetThreads.SerialRunsPublishWhole | firewall-daemon/iptracking-firewalld.c:287-409 | in every run with one update at a time, commands free to fail but no destroy without a name going through, the production set holds what the latest activated load built, or what it held at the start; that is the added entries of the list alone exactly when they contain what was left over |
| IpsetThreads.LeftOverIsPublished | firewall-daemon/ipset_helper.c:290-297 | a run of one thread and two updates that publishes an entry of neither list |
| IpsetThreads.ExpectedIffOneThread | firewall-daemon/iptracking-firewalld.c:278-409 | from every start, all runs without a destroy that names no set leave the production set as the latest activated load built it exactly when there are fewer than two threads |
| IpsetThreads.AloneCompletes | firewall-daemon/iptracking-firewalld.c:302-335 | an uninterrupted thread whose create and activation go through publishes, in one move for each entry and five more, what was left over and exactly the nonempty entries whose own add went through, whatever becomes of the others, and cleans up |
| IpsetThreads.FailedCreateEnds | firewall-daemon/iptracking-firewalld.c:305-335 | a failed create ends the update; at most the rebuild set is gone |
| IpsetThreads.FailedActivationCleans | firewall-daemon/ipset_helper.c:318-342 | a failed activation leaves the production set alone and still issues the destroy |
| IpsetThreads.InterleavingPublishesPart | firewall-daemon/iptracking-firewalld.c:278-409 | a run of two threads, all commands succeeding, after which the latest activated list is the whole one and the production set holds part of it |
| IpsetNames.IsValidName | firewall-daemon/iptracking-firewalld.c:35-47 | the scan accepts exactly the nonempty names of at most 256 letters, digits and underscores |
| IpsetNames.ValidateNames | firewall-daemon/iptracking-firewalld.c:181-197 | which names are accepted, and that the rebuild name is the configured or default one, or the production name with _update when only that was configured |
| IpsetNames.NamesDiffer | firewall-daemon/iptracking-firewalld.c:189-197 | the rebuild name always differs from the production name |
| IpsetNames.DerivedNameValidIff | firewall-daemon/iptracking-firewalld.c:193-197 | the derived rebuild name is itself valid exactly when the production name leaves room for the suffix |
| PgArena.Alloc | libiptracking/db_drivers/db_instance_postgresql.c:138-271 | the bytes reserved are the bytes handed out, every write stays in the block, and every key, value and schema reads back, the keys at increasing places of the key table, clear of the structure and the address lists |
| PgArena.Measure | libiptracking/db_drivers/db_instance_postgresql.c:156-204 | the first pass finds the configured pairs in table order and adds up the bytes of the lists and strings |
| PgArena.StoredStringsRead | libiptracking/db_drivers/db_instance_postgresql.c:224-236 | following a stored address finds the configured C string |
| PgArena.SelectedMeaning | libiptracking/db_drivers/db_instance_postgresql.c:159-169 | the packed pairs are exactly the configured keys with their values |
| YamlPath.NodeAtPath | libiptracking/yaml_helpers.c:13-82 | the loop ends on every graph and computes the reference lookup |
| YamlPath.PathsCompose | libiptracking/yaml_helpers.c:13-82 | resolving a.b is resolving b from the result of a, NULL going through, for nonempty a and b |
| YamlPath.EmptyHalvesDoNotCompose | libiptracking/yaml_helpers.c:54-60 | the composition fails for an empty half |
| YamlPath.OneKey | libiptracking/yaml_helpers.c:50-78 | a path of one plain key selects that key's value from a mapping and nothing from any other node |
| YamlPath.FindPairMeaning | libiptracking/yaml_helpers.c:61-76 | the value of the first pair with the key is chosen, and none exactly when there is no such pair |
| YamlPath.IndexNeverResolves | libiptracking/yaml_helpers.c:35-48 | no path with an opening bracket resolves, on any document and from any node |
| YamlPath.DocumentedIff | libiptracking/yaml_helpers.h:21-35 | the lookup is the documented one, with indices, exactly when the path has no index or the documented lookup finds nothing either |
| YamlPath.HeaderExample | libiptracking/yaml_helpers.h:21-35 | the documented path ipv4.addr[2] selects 10.10.10.30 as documented and nothing as written |
| YamlPath.IndexThenKey | libiptracking/yaml_helpers.h:21-35 | a key after an index at a sequence root is selected as documented and not as written |
| YamlPath.CyclicDocument | libiptracking/yaml_helpers.c:22-80 | a path of any length resolves through a mapping that contains itself |
| LastSession.Database.InsertAll | pam-daemon/psql-db.schema:45-49 | inserting a sequence of events extends the log by it and makes the rule replay it into the table |
| LastSession.Database.Import | pam-daemon/psql-db.schema:55-71 | the loop replays the ordered open_session rows into the table |
| LastSession.ImportIsMinMax | pam-daemon/psql-db.schema:55-71 | on an empty table each uid gets the least and greatest of its dates |
| LastSession.ImportIsIdempotent | pam-daemon/psql-db.schema:55-71 | importing again, in any order of equal dates, changes nothing |
| LastSession.RuleAgreesInOrder | pam-daemon/psql-db.schema:45-49 | with events arriving in date order the rule keeps the table the import builds |
| LastSession.RuleAgreesIff | pam-daemon/psql-db.schema:45-71 | for any arrival order they agree on a uid exactly when its first arrival is its least date and its last its greatest |

## Left out

- Sockets, polling, signals, command lines, YAML parsing, database and netlink libraries, and logging: foreign calls.
- The condition variable of the queue: a pop that waits is a step of `Daemon`; that a wake-up is never lost is not claimed.
- The queue structure moving when it grows: a queue is one object; callers hold it by reference.
- LogQueue.Queue.Push: after a wait that left int nothing more is described; the sleeps are rounds given by the caller, so that the wait ends at all is not claimed, only that it ends once something is removed.
- LogQueue.Queue.AllocRecord: what a program does after it has read through the NULL free list is not described; `Daemon` stops there.
- LogParse.LogDataParse: beyond INT32_MAX the pid arithmetic is undefined in C and a separate outcome here; the partly filled record of a refused text is not described.
- PgArena.Alloc: the two address lists are sequences of offsets whose bytes are reserved in the block; their own bytes are not laid out.
- YamlPath.NodeAtPath: the number in a sequence index is read by strtol, a parameter that takes a number only from text not starting with a closing bracket.
- RateBlock.Database.InsertLogRow: the checksum and notification step, the subnet filter of log_one_event, source addresses with a netmask, and daylight saving in day and week intervals.
- Creation and modification dates of blocks, the ORDER BY of the views, and views grouped by destination address.
- Ipset.Helper.FirewallNotify: entries are compared as text, not normalised as the kernel does; the timer thread runs the same update and differs only in when it fetches the list.
- Ipset.Helper.Serve: a create under the EXIST option over an existing set succeeds or fails as its fate has it, whatever the set's type; a destroy without a name either fails or removes every set, as ipset(8) describes it; libipset is not part of this model.
- IpsetThreads.ProductionEntriesAreSourced: the threads share one ipset session; mixing of its data inside a command is not modelled, a command is one step.
- The argv variant of the ipset helper, the MySQL and CSV drivers, the session views, and the maintenance script.
