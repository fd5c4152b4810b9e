# Trackarr: verified model of its pool, templates, catalogue and points

This project models the parts of the Trackarr tracker that have the most state, branching or
arithmetic, and proves what they keep. `dafny verify dfyconfig.toml` checks all of it.

**Listing templates** (`Template*.dfy`). The hand-written, one-pass Mustache parser is modelled as
it runs: a forward-only line counter, a stack whose entries alias lists already placed in the tree,
and the rule that a section tag alone on its line takes the line with it. It is proved to compute a
functional grammar, and that grammar is proved exact: a template parses to a tree if and only if its
tags are well formed and its tokens are the flattening of that tree, within the depth limit.
Printing and parsing are inverse. The renderer and the variable listing are walks over the same heap
tree; `TemplateSections.dfy` says what they show, and `TemplateErrors.dfy` which error a malformed
template gives.

**Freeleech pool and bonus events** (`BonusEvents.dfy`, `FreeleechPool.dfy`, `Pool*.dfy`). Each
database transaction is a function from tables to tables or to the error that rolls it back; the two
sweeps are a read followed, at any later time and on any number of replicas, by one transaction per
row read. Row transactions do not look at the status again, so a reset or another replica between
read and transaction can do harm. `PoolFaults.dfy` says exactly when: all states of a run satisfy
the invariant if and only if all its steps meet a condition on the tables before them.
`PoolFaultRuns.dfy` has runs that do not, `PoolAlways.dfy` and `PoolShares.dfy` what every run keeps
all the same (money and the event table, and the shares). `PoolDisplaced.dfy` follows displaced
events through whole runs, and `PoolHandBacks.dfy` says of every run when displaced time comes back
more than once. `PoolContributions.dfy` and `PoolAdmin.dfy` say exactly when a contribution and an
admin's write go through. `PoolStore.dfy` is the same code over mutable tables, statement by
statement, with rollback.

**Grouped catalogue** (`TorrentGroups.dfy`, `GroupListing.dfy`, `GroupPaging.dfy`, `GroupPages.dfy`,
`GroupTotals.dfy`, `RemoteGroups.dfy`). Queries are functions over rows. The split into a tagged and
an untagged half, the rewritten member and scope predicates, the two-part count and the pushed-down
limit are each compared with the plain query they stand for; the order of equal sort keys is left
open, as SQL does, which decides when paging on repeats a work. Columns are conserved by the
grouping.

**Points economy** (`Points.dfy`, `BonusEarning.dfy`, `FirstSeederRule.dfy`, `Economy.dfy`,
`EconomyRuns.dfy`, `EconomyFaults.dfy`, `BountyBoard.dfy`, `BountyRules.dfy`). Earned credits, the
shop, the pool and the bounty board move the same balances. Runs interleave all of them, and every
bounty transaction may act on a row read at any earlier moment.

**Lock and schedules** (`CronLock.dfy`, `MonthlyGrants.dfy`, `Milestones.dfy`, `MilestoneRuns.dfy`).
The leased key with compare-and-delete, with ticks that crash or outlive their lease, the thirty-day
grants of ticks that run under it, and the seed-time milestones, paid once by one tick and by ticks
side by side.

**Compact algorithms** (`PoolWindows.dfy`, `RateLimit.dfy`, `RateLimitFallback.dfy`, `Strings.dfy`,
`SafeFetch.dfy`, `AddressForms.dfy`, `AddressRanges.dfy`, `UploadRules.dfy`). Recurring windows, the
sliding-window limiter and its fixed-window fallback, the IPv6 literal parser and its refused
ranges, and pattern inheritance over arbitrary parent links.

## Assumptions

- Times are integers in milliseconds and clock readings are parameters; identifiers are fresh
  numbers.
- A transaction is atomic and a thrown error restores the tables; the advisory locks make the pool's
  and the event table's transactions run one at a time.
- A pool event's `schedule`, a displaced remainder's `claim`, a market's `paid` log, a limiter's
  `history` and a line counter's `steps` are history variables: nothing the code decides depends on
  them.
- The clock a limiter reads does not go back.
- Lock tokens are unique in `CronLock`. The code builds them from the process id and the clock, so
  two are equal only on hosts with equal process ids and clocks apart by exactly the time between
  the starts; `SharedTokensBreakTheLock` shows what happens then.

## Where the code and its comments differ

- The unique index on open cycles covers `status` alone (packages/db/src/schema.ts:724-726), so it
  allows a filling and an active cycle side by side; at most one open cycle is a property of the
  code under the lock.
- `attemptTrigger` steps back from `active` and `ended` rows but not from `cancelled` ones
  (apps/api/utils/freeleechPool.ts:646-648). `LateStartIsExact` is the exact condition under which
  the start that follows keeps the invariant, and `ResetBetweenReadAndStart` a run in which it does
  not. The invariant does not speak of time handed back: `RemainderComesBackTwice` is a run that
  meets that condition and still resumes a sale twice. When displaced time comes back at most once
  is `PoolHandBacks.HandedBackOnceIff`; `ClosedOnceIff` reads the simpler case off the closing
  times.
- The comment says that ordering by `latest` keeps a member from meeting the same work twice
  (apps/api/utils/torrentGroups.ts:305-307). It does not when key and `latest` tie, nor under `age`
  when the one column it orders by ties; `NextPageRepeatsNothingIff` is the exact condition.
- The comment lists NAT64 as 64:ff9b::/96 (apps/api/utils/safeFetch.ts:146); the test compares two
  groups, a 32-bit prefix (line 169). The model follows the code. Likewise 224.0.0.0 is refused as a
  3-bit prefix, wider than the commented /4.
- A cancellation refunds the reward it read before its transaction
  (apps/api/routes/api/requests/[id].delete.ts:70-72), so a raise in between is lost;
  `StaleCancelLosesTheRaise` is such a run. Points are never created.

## Model

| member | source | states |
|---|---|---|
| `TemplateLexer.SourceAccounting` | packages/shared/src/templateEngine.ts:124-178 | every source character is charged, in order and exactly once, to a text, a tag, or the blank indent and tail of a standalone tag; on a well-formed template nothing is left over |
| `TemplateLexer.PlainTextHoldsNoTag` | packages/shared/src/templateEngine.ts:124-128 | no text handed to the tree contains an opening pair of braces, and neither does the final rest |
| `TemplateLexer.DropsOnlyWholeLines` | packages/shared/src/templateEngine.ts:156-176 | a tag takes more than its braces only as a whole line of the template: from a line's start over blanks to that line's end or the end of input; and a section, closing or comment tag that is alone on its line always takes exactly that line |
| `TemplateLexer.StandaloneLineIsAhead` | packages/shared/src/templateEngine.ts:161-175 | whenever a tag is standalone its line starts at or after the scan position, so taking the maximum of the two never changes the slice |
| `TemplateGrammar.ParseIsGrammar` | packages/shared/src/templateEngine.ts:96-214 | parsing returns a tree if and only if every tag is well formed and the template's tokens are exactly the flattening of that tree, with no section nested deeper than the limit; so sections are balanced and name-matched |
| `TemplateGrammar.RunConsumes` | packages/shared/src/templateEngine.ts:180-204 | at every point the open sections and the tree so far account for exactly the tokens read |
| `TemplateGrammar.RunStaysShallow` | packages/shared/src/templateEngine.ts:181-189 | no state of the parser holds a tree nested deeper than the limit |
| `TemplateGrammar.RunFlatten` | packages/shared/src/templateEngine.ts:180-204 | running the parser over the flattening of any forest within the depth left appends exactly that forest |
| `TemplateGrammar.LimitOnlyRejects` | packages/shared/src/templateEngine.ts:182-184 | raising the depth limit never changes the tree of a template that already parses |
| `TemplateErrors.ErrorsAreExact` | packages/shared/src/templateEngine.ts:124-212 | which error a malformed template gives: the first tag that nests too deep, closes nothing or closes another section than the innermost open one, with both names and both lines; without such a tag, what stopped the scan; and without that, the innermost section left open |
| `TemplateErrors.LinesAreExact` | packages/shared/src/templateEngine.ts:106-130 | the line a tag is reported on is one more than the newlines among the characters before its braces |
| `TemplateParser.LineCounter.AdvanceTo` | packages/shared/src/templateEngine.ts:106-117 | the forward-only counter always equals the naive newline count and last line start, at one step a character, so all scanning costs at most the length of the template |
| `TemplateParser.Standalone` | packages/shared/src/templateEngine.ts:161-176 | the forward scan past a tag finds the line end exactly when the tag is alone on its line (blank indent, blanks, then end of input, LF or CRLF) |
| `TemplateParser.PushSection` | packages/shared/src/templateEngine.ts:185-187 | the new list is a node of its parent and the top of the stack at once; the heap still denotes the machine's tree |
| `TemplateParser.CloseInnermost` | packages/shared/src/templateEngine.ts:190-202 | popping a section leaves its list where it was placed, now a finished node |
| `TemplateParser.Turn` | packages/shared/src/templateEngine.ts:124-203 | one turn of the loop makes one step of the grammar's machine, or reports its error, and moves forward |
| `TemplateParser.Parse` | packages/shared/src/templateEngine.ts:96-214 | the one-pass parser over aliased mutable lists returns the grammar's verdict: the same error with the same line, or a fresh heap tree that denotes the grammar's tree |
| `TemplateRoundTrip.TagIsExact` | packages/shared/src/templateEngine.ts:129-154 | the braces at a position hold a variable, an opening, inverted or closing section tag exactly when the characters up to the first closing pair are its sigil, padding, that legal name and padding; a comment exactly when they start with its sigil |
| `TemplateRoundTrip.TagErrors` | packages/shared/src/templateEngine.ts:129-154 | which error malformed braces give: never closed exactly when no closing pair follows, a refused sigil exactly when it comes first, and otherwise the name without its padding exactly when that is not legal |
| `TemplateSyntax.NameAlphabet` | packages/shared/src/templateEngine.ts:58-58 | the characters a name may start with, unaccented letters and the underscore, and those it may go on with, figures besides |
| `TemplateSyntax.TrimAlphabet` | packages/shared/src/templateEngine.ts:145-146 | padding is made of the white space and line terminators of ECMA-262, listed one by one |
| `TemplateRoundTrip.PrintPaddedThenParse` | packages/shared/src/templateEngine.ts:96-214 | writing any tree with any padding around the names inside the braces and parsing it gives the tree back, provided no block tag is alone on its line |
| `TemplateRoundTrip.OneLinePaddedRoundTrip` | packages/shared/src/templateEngine.ts:96-214 | on one line the padded round trip holds without that condition |
| `TemplateRoundTrip.PrintThenParse` | packages/shared/src/templateEngine.ts:96-214 | printing any writable forest and parsing it gives the forest back, provided no block tag of the text is alone on its line |
| `TemplateRoundTrip.OneLineNoneStandalone` | packages/shared/src/templateEngine.ts:156-176 | in the print of a forest without line breaks no block tag can be alone on its line |
| `TemplateRoundTrip.OneLineRoundTrip` | packages/shared/src/templateEngine.ts:96-214 | every newline-free forest within the depth limit, with legal names and non-empty, non-adjacent texts that cannot be read as tags, survives printing and parsing unchanged |
| `TemplateRender.TidyIsTidy` | packages/shared/src/templateEngine.ts:266-266 | the closing pass leaves no run of four newlines and no trimmed character at either end, is idempotent and never lengthens its input |
| `TemplateRender.RenderIsTidy` | packages/shared/src/templateEngine.ts:230-267 | every successful render is trimmed, holds no run of four newlines and is within the size limit |
| `TemplateRender.VariablesAreTheNames` | packages/shared/src/templateEngine.ts:287-298 | the reported names are exactly the names the tree refers to, sections included, without repeats and in order of first appearance |
| `TemplateSections.NamesAreTagNames` | packages/shared/src/templateEngine.ts:287-298 | the names of a tree are those of its variable and opening tags as they are written, in reading order |
| `TemplateRender.RenderDependsOnVariables` | packages/shared/src/templateEngine.ts:230-298 | two contexts that agree on the reported names give the same output, or the same failure |
| `TemplateRender.Output.Emit` | packages/shared/src/templateEngine.ts:238-247 | a chunk is refused exactly when the running size would pass the limit |
| `TemplateRender.Walk` | packages/shared/src/templateEngine.ts:250-264 | walking the heap tree emits exactly the rendered text of the tree it denotes, and fails exactly when that text does not fit |
| `TemplateRender.RenderTemplate` | packages/shared/src/templateEngine.ts:230-267 | rendering gives the parser's error, the size error, or the tidied text, as the specification on trees does |
| `TemplateSections.SectionLaw` | packages/shared/src/templateEngine.ts:219-264 | where the name is bound to a non-empty string or true a section renders as its body and an inverted one as nothing, and the other way round where it is unbound, null, undefined, false or empty; at any place of any tree |
| `TemplateSections.LeafLaw` | packages/shared/src/templateEngine.ts:250-258 | a text renders as it stands and a variable as its string, as true or false, or as nothing, at any place of any tree |
| `TemplateSections.SectionsRender` | packages/shared/src/templateEngine.ts:230-267 | the section law for templates: any written form, with any padding, of a tree with a section renders to the outcome of the tree with the body in its place, or without it |
| `TemplateSections.VariablesRender` | packages/shared/src/templateEngine.ts:230-267 | the variable law for any written form of a tree |
| `TemplateSections.CollapseIsExact` | packages/shared/src/templateEngine.ts:266-266 | a run of line ends between two texts becomes at most three and nothing else is changed |
| `TemplateSections.TidyIsTrimmed` | packages/shared/src/templateEngine.ts:266-266 | the closing pass takes nothing but trimmed characters off the two ends of the collapsed text |
| `TemplateRender.AssertTemplateValid` | packages/shared/src/templateEngine.ts:275-277 | validating fails exactly as rendering in any context fails on the template itself |
| `TemplateRender.TemplateVariables` | packages/shared/src/templateEngine.ts:287-298 | the mutable walk returns the specified list of names |
| `BonusEvents.ResolveActive` | apps/api/utils/bonusEvents.ts:73-101 | returns an enabled row covering the instant with the latest creation time, and nothing only when no row does |
| `BonusEvents.ResolvedIsUnique` | apps/api/utils/bonusEvents.ts:73-101 | while enabled windows are disjoint there is at most one candidate, so the tie-break never decides |
| `BonusEvents.OverlapIsSharedInstant` | apps/api/utils/bonusEvents.ts:252-270 | the overlap query finds exactly the windows that share an instant with an enabled event other than the one left out |
| `BonusEvents.InsertKeepsDisjoint` | apps/api/utils/bonusEvents.ts:252-270 | an insert guarded by the overlap query keeps enabled windows pairwise disjoint |
| `BonusEvents.EditKeepsDisjoint` | apps/api/utils/bonusEvents.ts:252-270 | so does an edit that leaves its own row out of the query |
| `BonusEvents.DisableFreesInstant` | apps/api/utils/freeleechPool.ts:681-701 | disabling the resolved event leaves nothing active at that instant |
| `PoolWindows.WeeklyIsExact` | apps/api/utils/freeleechPool.ts:246-276 | a weekly row covers an instant if and only if some whole-week shift of its anchored window contains it, for all weekdays 0-6 and minutes 0-1440, wraparound included |
| `PoolWindows.MonthlyIsExact` | apps/api/utils/freeleechPool.ts:281-315 | a monthly row covers an instant if and only if the window of some listed calendar day, possibly spilling past midnight, contains it |
| `PoolWindows.YearlyIsCyclic` | apps/api/utils/freeleechPool.ts:323-343 | a yearly row covers a date if and only if, going onwards through the year from the first date, it comes no later than the last |
| `PoolWindows.IsWindowOpen` | apps/api/utils/freeleechPool.ts:192-242 | open when no row is enabled or some enabled row means a window containing the instant; a row with a missing bound means none |
| `PoolInvariant.DebitKeeps` | apps/api/utils/freeleechPool.ts:509-585 | an accepted contribution is positive, at most what was asked, debits exactly itself with one ledger row, and leaves the cycle below target or exactly full |
| `PoolInvariant.TriggerKeeps` | apps/api/utils/freeleechPool.ts:634-716 | starting, queueing or overlaying a full cycle keeps the whole invariant, disjoint windows included |
| `PoolInvariant.TriggerTakesOver` | apps/api/utils/freeleechPool.ts:654-805 | once a full cycle is triggered a freeleech is in force: it waits, and nothing else changes, if and only if one was running already; otherwise the pool's event is in force for exactly the cycle's days with the displaced event's upload multiplier and the text for that case, that event is off with its remainder on the cycle, and every other event and column is untouched |
| `PoolInvariant.CloseHandsBack` | apps/api/utils/freeleechPool.ts:852-887 | closing switches the pool's event off and brings the displaced one back for its remainder exactly when nothing overlaps |
| `PoolInvariant.EndOpensNext` | apps/api/utils/freeleechPool.ts:915-938 | ending closes that row alone, at that instant, and opens one fresh cycle as configured now exactly when the pool is on |
| `PoolInvariant.ContributeKeeps` | apps/api/utils/freeleechPool.ts:473-618 | a contribution keeps the whole invariant |
| `PoolInvariant.StartQueuedKeeps` | apps/api/utils/freeleechPool.ts:812-840 | a start of a queued row keeps the whole invariant |
| `PoolInvariant.EndExpiredKeeps` | apps/api/utils/freeleechPool.ts:892-951 | whatever row the sweep remembers, closing a cycle that has run out keeps the whole invariant when no other cycle is open or none is opened |
| `PoolInvariant.EndExpiredCommits` | apps/api/utils/freeleechPool.ts:930-938 | from a sound state the fresh cycle never hits the unique index |
| `PoolInvariant.ResetKeeps` | apps/api/utils/freeleechPool.ts:962-995 | an admin reset keeps the whole invariant |
| `PoolInvariant.AdminCreateKeeps` | apps/api/routes/api/admin/bonus-events/index.post.ts:60-89 | a guarded insert keeps the whole invariant |
| `PoolInvariant.AdminUpdateKeeps` | apps/api/routes/api/admin/bonus-events/[id].patch.ts:66-124 | an edit, checked against the window it would have with its own row left out, keeps the whole invariant; pool events are refused |
| `PoolInvariant.AdminToggleKeeps` | apps/api/routes/api/admin/bonus-events/[id]/toggle.post.ts:31-55 | switching an event, checked against all other rows when it goes on, keeps the whole invariant |
| `PoolInvariant.AdminDeleteKeeps` | apps/api/routes/api/admin/bonus-events/[id].delete.ts:30-48 | deleting a manual event, which also clears the references to it, keeps the whole invariant |
| `PoolAdmin.CreateIsExact` | apps/api/routes/api/admin/bonus-events/index.post.ts:60-89 | an event is created exactly when it is disabled or shares no instant with an enabled one, with the columns given |
| `PoolAdmin.UpdateIsExact` | apps/api/routes/api/admin/bonus-events/[id].patch.ts:66-124 | an event is edited exactly when it is not the pool's and, if enabled, shares no instant with another enabled one; no other row changes |
| `PoolAdmin.ToggleIsExact` | apps/api/routes/api/admin/bonus-events/[id]/toggle.post.ts:31-55 | an event can always be switched off, and on exactly when it shares no instant with another enabled one |
| `PoolAdmin.DeleteIsExact` | apps/api/routes/api/admin/bonus-events/[id].delete.ts:30-48 | an event is deleted exactly when it is not the pool's, and cycles that waited for it wait for none |
| `PoolRuns.EmptyPoolIsInitial` | apps/api/utils/freeleechPool.ts:347-375 | an empty pool with non-negative balances satisfies the invariant |
| `PoolRuns.SightingIsCurrent` | apps/api/utils/freeleechPool.ts:894-928 | what a sweep reads of a running row never changes later, so a late transaction acts on the row as it is apart from its status |
| `PoolRuns.StepKeeps` | apps/api/utils/freeleechPool.ts:473-995 | one step, sweep reads and row transactions included, keeps the invariant and moves rows and money only as permitted |
| `PoolRuns.RunKeepsInvariant` | apps/api/utils/freeleechPool.ts:473-995 | in every state of every run in which no reset or second replica gets between a sweep's read and its transaction: at most one open cycle, totals equal to contributions and never above target, full exactly when out of filling, exact durations, disjoint windows, ledger rows matching contributions, no negative balance; `PoolFaults.RunIsExact` covers every other run |
| `PoolRuns.RunMakesProgress` | apps/api/utils/freeleechPool.ts:473-995 | between any two states of such a run targets and durations are fixed, totals only grow and only while filling, ended and cancelled rows stay as they are, ledgers only grow, and each balance moves by exactly its new ledger rows |
| `PoolAlways.EveryRunKeepsCore` | apps/api/utils/freeleechPool.ts:473-995 | in every state of every run, however late or often the sweeps' transactions come: enabled events are disjoint and on schedule, totals equal contributions and stay within the target, ledger rows match contributions one to one, and no balance is negative |
| `PoolAlways.EveryRunKeepsBooks` | apps/api/utils/freeleechPool.ts:543-585 | between any two states of any run every balance moves by exactly the ledger rows added, and no row's target changes |
| `PoolShares.RunKeepsShares` | apps/api/utils/freeleechPool.ts:517-541 | in every run, late transactions included, while the basis points stay the same no user's share of any cycle passes floor(target * bp / 10000) |
| `PoolDisplaced.DisplacedTimeIsConserved` | apps/api/utils/freeleechPool.ts:684-887 | however many cuts are made in an event, the segments run plus the last window add up to the scheduled duration, with multipliers and text preserved |
| `PoolDisplaced.RestoreInsertsResumed` | apps/api/utils/freeleechPool.ts:852-887 | a resume inserts exactly the remainder of the displaced event, with its multipliers and text, or nothing when something overlaps |
| `PoolDisplaced.StepDisplaces` | apps/api/utils/freeleechPool.ts:684-796 | whichever step starts a cycle and switches a running event off leaves exactly that event's remainder, multipliers and text on the cycle |
| `PoolDisplaced.StepCloses` | apps/api/utils/freeleechPool.ts:892-995 | whichever step closes an active cycle, sweep or reset, hands back at its closing instant exactly what that row holds |
| `PoolDisplaced.HopHandsBack` | apps/api/utils/freeleechPool.ts:684-995 | in every timely run: the event a cycle displaced comes back at the cycle's end or reset for exactly the time it had left, or not at all when something overlaps, with every other event as it was |
| `PoolDisplaced.RunConservesDisplacedTime` | apps/api/utils/freeleechPool.ts:473-995 | in every timely run: however often an event is displaced and brought back, the times it ran and the window it has in the end add up to its scheduled duration, with multipliers and text preserved; and two hops of the same cycle end in the same step |
| `PoolFaults.LateEndCommits` | apps/api/utils/freeleechPool.ts:907-939 | a late end is rolled back by the unique index exactly when it would open a cycle while another is filling |
| `PoolFaults.LateEndKeepsOneOpen` | apps/api/utils/freeleechPool.ts:907-939 | a committed late end leaves at most one open cycle exactly when it opens none or no other cycle is open |
| `PoolFaults.LateEndIsExact` | apps/api/utils/freeleechPool.ts:893-938 | in a timely world the end of a row once read keeps the whole invariant if and only if it opens no cycle or no other cycle is open |
| `PoolFaults.EndIsExact` | apps/api/utils/freeleechPool.ts:893-938 | whatever row the sweep remembers, its end keeps the whole invariant if and only if the row as it is now has run out and, should a cycle be opened, no other is open |
| `PoolFaults.LateEndRewritesHistory` | apps/api/utils/freeleechPool.ts:925-928 | closed rows are left as they are if and only if the row is still active, or was ended at that same instant |
| `PoolFaults.LateStartReopens` | apps/api/utils/freeleechPool.ts:640-648 | a start that comes after a reset always reopens the cancelled row, and leaves one open cycle exactly when there was none |
| `PoolFaults.LateStartCommits` | apps/api/utils/freeleechPool.ts:640-774 | a late start commits if and only if no other cycle has the status it gives and, unless it only queues, no later event is scheduled inside its window |
| `PoolFaults.LateStartIsExact` | apps/api/utils/freeleechPool.ts:640-679 | a late start keeps the whole invariant if and only if no cycle is open and, should it only queue the row, the row has never run |
| `PoolFaults.RemainderHandedBackTwice` | apps/api/utils/freeleechPool.ts:786-887 | the pattern behind a second hand-back: a reset hands the displaced event back, a late start with nothing running leaves its remainder on the row, and the next close hands it back once more; `PoolHandBacks.HandedBackOnceIff` says exactly when this happens |
| `PoolFaults.StepIsExact` | apps/api/utils/freeleechPool.ts:473-995 | from a sound state a step keeps the invariant if and only if it is harmless, which its tables tell beforehand |
| `PoolFaults.RunIsExact` | apps/api/utils/freeleechPool.ts:473-995 | for every run, with any number of replicas acting on any old reads: all its states satisfy the whole invariant if and only if all its steps are harmless |
| `PoolFaults.TriggerSucceeds` | apps/api/utils/freeleechPool.ts:654-774 | a full pool starts or queues if and only if a freeleech is running or no later event is scheduled inside its window; otherwise everything is rolled back |
| `PoolFaultRuns.ResetBetweenReadAndEnd` | apps/api/utils/freeleechPool.ts:893-995 | a concrete run, from an empty pool, that ends with two open cycles because a reset came between the sweep's read and its transaction |
| `PoolFaultRuns.ResetBetweenReadAndStart` | apps/api/utils/freeleechPool.ts:812-995 | a concrete run, from an empty pool, that ends with two open cycles because a reset came between the start sweep's read and its transaction |
| `PoolFaultRuns.RemainderComesBackTwice` | apps/api/utils/freeleechPool.ts:640-995 | a concrete run, from an empty pool, in which a sale displaced once is resumed twice, each time for all it had left, so that the run does not hand back every displacement at most once; its late start meets the condition under which the invariant is kept |
| `PoolHandBacks.HandBackEvents` | apps/api/utils/freeleechPool.ts:852-995 | a close changes the event table exactly as closing the row it read calls for |
| `PoolHandBacks.StepSetsClosed` | apps/api/utils/freeleechPool.ts:473-995 | after any step a row bears a closing time if and only if it did before or the step closed that cycle |
| `PoolHandBacks.ClosedIffHandedBack` | apps/api/utils/freeleechPool.ts:892-995 | in every run from an empty pool a row bears a closing time if and only if an earlier step closed it; so the tables show before a close whether it repeats one |
| `PoolHandBacks.ClosedOnceIff` | apps/api/utils/freeleechPool.ts:892-995 | in every run: no cycle is closed twice if and only if every close finds its row without a closing time |
| `PoolHandBacks.TimelyClosesOnce` | apps/api/utils/freeleechPool.ts:892-995 | in every timely run every cycle is closed at most once |
| `PoolHandBacks.SameHandBackIff` | apps/api/utils/freeleechPool.ts:852-995 | in every run, late starts and late second ends included: two closes hand back the same displacement if and only if they close the same cycle and no start between their two reads of its row displaced another event |
| `PoolHandBacks.HandedBackOnceIff` | apps/api/utils/freeleechPool.ts:852-995 | in every run: every displacement is handed back at most once if and only if, between any two reads of a remainder by closes of the same cycle, some start displaced an event |
| `PoolHandBacks.FirstClosesHandBackOnce` | apps/api/utils/freeleechPool.ts:892-995 | a run in which every close finds its row without a closing time hands every displacement back at most once |
| `PoolHandBacks.TimelyHandsBackOnce` | apps/api/utils/freeleechPool.ts:892-995 | in every timely run displaced time comes back at most once |
| `PoolHandBacks.LateStartReplacesRemainder` | apps/api/utils/freeleechPool.ts:640-805 | a start replaces the remainder on its row if and only if an event is running that is not a freeleech, and then by the remainder of an event displaced just now; otherwise the old one stays |
| `PoolStore.Store.Contribute` | apps/api/utils/freeleechPool.ts:473-618 | for whichever open row the query returned: accepted exactly when the tables and the configuration allow it, at the cost the receipt states, triggered exactly when the row became active; the mutable transaction has the specified effect, and leaves every table as it was when it throws |
| `PoolContributions.ContributionIsExact` | apps/api/utils/freeleechPool.ts:473-618 | a contribution is accepted if and only if the pool is on with a target, open and not asked for less than its minimum; the row is filling with room left; what fits stays within the user's part of the target (a share that reaches it exactly is accepted); the user has it; and, should it fill the row, a freeleech runs or nothing scheduled lies in the pool's window, and the index holds |
| `PoolContributions.ContributionTakesEffect` | apps/api/utils/freeleechPool.ts:509-618 | an accepted contribution takes from its giver exactly what the receipt says and what fits, in one row of each ledger, and raises the total by it; a filled row is active or, beside a running freeleech, queued; the receipt says triggered exactly when the row became active |
| `PoolContributions.RefusalsInOrder` | apps/api/utils/freeleechPool.ts:473-556 | each refusal is given exactly when its check is the first to fail |
| `PoolStore.Store.UserContribution` | apps/api/utils/freeleechPool.ts:399-414 | the running sum equals the user's share of the cycle |
| `PoolStore.Store.FindOpen` | apps/api/utils/freeleechPool.ts:355-362 | finds an open cycle, and nothing only when none is open |
| `PoolStore.Store.GetOrCreateCurrentCycle` | apps/api/utils/freeleechPool.ts:351-375 | returns an open cycle, whichever the query finds, or opens one with the configured target and duration when there is none |
| `PoolStore.Store.AttemptTrigger` | apps/api/utils/freeleechPool.ts:634-716 | the mutable trigger reaches the specified state and reports a start exactly when the cycle became active |
| `PoolStore.Store.StartFreeleechEvent` | apps/api/utils/freeleechPool.ts:728-805 | inserts the pool's event and activates the cycle for exactly its duration, or reports the overlap |
| `PoolStore.Store.RestorePausedEvent` | apps/api/utils/freeleechPool.ts:852-887 | inserts the resumed event exactly when time is left and nothing overlaps |
| `PoolStore.Store.StartRow` | apps/api/utils/freeleechPool.ts:821-834 | one row of the start sweep, rolled back when it throws |
| `PoolStore.Store.EndRow` | apps/api/utils/freeleechPool.ts:907-947 | one row of the end sweep on the row as it was read, rolled back when the index refuses it |
| `PoolStore.Store.AdminReset` | apps/api/utils/freeleechPool.ts:962-995 | cancels the open cycle the query found, drops its event and brings the displaced one back; does nothing exactly when none is open |
| `PoolStore.Store.TickEndExpired` | apps/api/utils/freeleechPool.ts:892-951 | an undisturbed end sweep does exactly the closing transaction of the one expired cycle, or nothing, counts it, leaves no cycle expired and keeps the invariant |
| `PoolStore.Store.TickStartQueued` | apps/api/utils/freeleechPool.ts:812-840 | an undisturbed start sweep does exactly the start transaction of the one queued cycle, or nothing when none is queued or it throws, counts it if and only if the cycle is active now, and keeps the invariant |
| `TorrentGroups.ParseInvertsKey` | apps/api/utils/torrentGroups.ts:109-181 | parsing the key of any row gives back the work it belongs to, whatever characters its id holds |
| `TorrentGroups.KeysIdentify` | apps/api/utils/torrentGroups.ts:109-117 | two rows share a key exactly when they belong to the same work |
| `TorrentGroups.MemberWhereIsKeyEquality` | apps/api/utils/torrentGroups.ts:538-553 | for the key of any row the column predicate selects exactly the visible rows with that key |
| `TorrentGroups.ScopesPartitionSeries` | apps/api/utils/torrentGroups.ts:125-137 | inside a series the three scope predicates agree with the scope expression, so they are a partition |
| `TorrentGroups.OutsideSeriesOnlyAll` | apps/api/utils/torrentGroups.ts:125-137 | a row of any other group has the one scope that narrows nothing |
| `GroupListing.UntaggedFilterIsFilter` | apps/api/utils/torrentGroups.ts:387-392 | dropping the untagged half under any scope filter but `all` is what filtering it would do |
| `GroupListing.AggregateOfOne` | apps/api/utils/torrentGroups.ts:453-470 | aggregating one untagged row gives exactly the literals the untagged half selects |
| `GroupListing.SplitIsPlain` | apps/api/utils/torrentGroups.ts:399-486 | the union of the two halves is one group per distinct key, aggregated over all its rows, for every filter and scope |
| `GroupTotals.GroupingConserves` | apps/api/utils/torrentGroups.ts:399-486 | for every table and filter, over any ordering of the listing, the seeder, leecher, completion, size and release totals of the groups add up to those columns summed over the accepted, active rows the filters let through |
| `GroupTotals.GroupIsSum` | apps/api/utils/torrentGroups.ts:413-451 | each total of a listed group is the sum of that column over the listed rows of its key |
| `GroupTotals.TotalsAdd` | apps/api/utils/torrentGroups.ts:413-451 | a group's totals are additive over any split of its rows |
| `GroupTotals.UnitsGrow` | apps/api/utils/torrentGroups.ts:438-447 | the units of a scope are none without releases and grow by one with each of its releases, except another of an episode or a season already there |
| `GroupTotals.DatesAndCategories` | apps/api/utils/torrentGroups.ts:413-424 | a group's dates are those at which its first and last release went live, by approval or else by upload, and its categories those of its releases |
| `GroupListing.SpansHoldEveryRelease` | apps/api/utils/torrentGroups.ts:413-451 | the spans shown on a row contain every release and both ends are attained; the lead is one of the heaviest releases |
| `GroupListing.SplitCountIsDistinctKeys` | apps/api/utils/torrentGroups.ts:491-498 | the two-part count equals the number of distinct keys of the visible, filtered rows |
| `GroupListing.PickDefault` | apps/api/utils/torrentGroups.ts:361-367 | picks the first scope whose newest release is newest of all; `all` when there is none |
| `GroupListing.ScopesAreAdvertised` | apps/api/utils/torrentGroups.ts:344-358 | a scope is shown exactly when the group holds a release of it, dated by its newest one |
| `GroupListing.DefaultScope` | apps/api/utils/torrentGroups.ts:344-367 | the scope opened for a group holds a release as new as the group's newest |
| `GroupPaging.CappedPageIsLegal` | apps/api/utils/torrentGroups.ts:405-488 | under `age desc`, every page of the query capped at limit + offset is a page of the uncapped query, ties in any order |
| `GroupPaging.UncappedPageIsCapped` | apps/api/utils/torrentGroups.ts:405-488 | and every page of the uncapped query can come out of the capped one |
| `GroupPaging.CapBreaksOtherKeys` | apps/api/utils/torrentGroups.ts:478-482 | under every other ordering a table of two untagged releases shows it: the capped query gives as its first page a release that neither the uncapped query nor the plain one puts first |
| `GroupPaging.CapIsUsedExactlyWhereSound` | apps/api/utils/torrentGroups.ts:283-411 | over all tables, queries and pages, the cap is sound if and only if the ordering is the one it is applied to |
| `GroupPaging.ListingIsPlain` | apps/api/utils/torrentGroups.ts:377-489 | the split, capped query gives exactly the pages that ordering one row per work may give, for every filter, ordering, limit and offset |
| `GroupTotals.ListingIsSorted` | apps/api/utils/torrentGroups.ts:283-309 | the listing is sorted by the sums over the rows of each work in the direction asked for, equal works by recency except under age |
| `GroupPages.NextPageRepeatsNothingIff` | apps/api/utils/torrentGroups.ts:283-309 | for every table, filter, ordering, limit and offset: two adjoining pages, each with ties in any order, never show the same work if and only if, in any one ordering of the plain result, the two groups at the cut are not tied |
| `GroupPages.TwinsComeTwice` | apps/api/utils/torrentGroups.ts:305-308 | a table of two untagged releases with equal columns and equal live time: under every ordering the same one may be on the first page of one and on the second |
| `RemoteGroups.MemberWhereIsKeyEquality` | apps/api/utils/remoteGroups.ts:234-251 | for the key of any mirror row the column predicate selects exactly the rows with that key |
| `RemoteGroups.PartnerReleaseCounts` | apps/api/utils/remoteGroups.ts:278-322 | every requested key with an external id gets the distinct-release count the whole mirror gives it, absent or present alike; no key is counted too high; without external ids nothing is counted |
| `RemoteGroups.MirrorGrows` | apps/api/utils/remoteGroups.ts:301-321 | the mirror's count of a key is its number of distinct releases among the rows of active partners, adult ones only on request: a row adds one exactly when it is seen and its release is not there yet |
| `RemoteGroups.UnrequestedKeysMayUndercount` | apps/api/utils/remoteGroups.ts:301-321 | a key nobody asked for may come back lower than the mirror's count |
| `Points.CreditIsLedgered` | apps/api/utils/bonusEarning.ts:254-276 | a balance moves exactly by the ledger row written with it, and first-seeder grants stay unique per torrent |
| `Points.PayUndoesHold` | apps/api/utils/requestPoints.ts:52-93 | paying back what was held restores every balance |
| `Points.CreditIsExact` | apps/api/utils/bonusEarning.ts:254-276 | a credit goes through exactly when there is nothing to pay or the user exists and no first seeder of that torrent was paid, and then balance and ledger gain exactly the amount |
| `Points.TransfersAreExact` | apps/api/utils/requestPoints.ts:52-93 | a hold goes through exactly when the balance covers it, a payment exactly when the user exists; each moves exactly the amount |
| `Points.PurchaseIsExact` | apps/api/utils/shop.ts:117-217 | a purchase goes through exactly when the item is sold, in stock and of a known kind and the user can pay, and costs and logs exactly its price |
| `Points.PurchaseIsLogged` | apps/api/utils/shop.ts:117-217 | a balance plus its purchases, and a bounded stock plus its sales, are what they were; stock never goes below zero |
| `Points.PurchaseDelivers` | apps/api/utils/shop.ts:160-200 | what every user has of upload, bonus upload and invites grows by exactly what the log of purchases delivers to them |
| `Points.PointsStore.CreditPoints` | apps/api/utils/bonusEarning.ts:254-276 | credits and logs together, or changes nothing when the insert is refused |
| `Points.PointsStore.HoldReward` | apps/api/utils/requestPoints.ts:52-69 | deducts exactly the amount and reports the balance left, or refuses and changes nothing |
| `Points.PointsStore.RefundReward` | apps/api/utils/requestPoints.ts:71-93 | credits exactly the amount to an existing user; a non-positive amount does nothing |
| `Points.PointsStore.PurchaseItem` | apps/api/utils/shop.ts:117-217 | checks in the source's order, then applies the effect, the debit, the stock and the log row together, or nothing |
| `BonusEarning.SeedMultiplierIsTightest` | apps/api/utils/bonusEarning.ts:215-223 | on sorted tiers the lookup takes the tightest bound that still holds the count, and 100 exactly when none does |
| `BonusEarning.AgeMultiplierIsTightest` | apps/api/utils/bonusEarning.ts:230-238 | on sorted tiers the lookup takes the greatest bound not above the age, and 100 exactly when no tier is reached |
| `BonusEarning.ResolveSeedCountMultiplier` | apps/api/utils/bonusEarning.ts:215-223 | on sorted tiers the first-match scan returns the multiplier of the tightest tier that still holds the count, and 100 when none does |
| `BonusEarning.ResolveAgeMultiplier` | apps/api/utils/bonusEarning.ts:230-238 | on sorted tiers the first-match scan returns the multiplier of the tier with the greatest bound not above the age, and 100 when none is reached |
| `BonusEarning.PairPointsAreWorth` | apps/api/utils/bonusEarning.ts:346-360 | a row earns the integer nearest to rate times hours times the two percentages of its tightest tiers, halves upwards, and never more than the cap |
| `BonusEarning.BuildRows` | apps/api/plugins/bonus-collector.ts:225-254 | a row for exactly each user of each known torrent, with its number of seeders and its whole days of age, and a pair for exactly each torrent with a single seeder |
| `BonusEarning.GroupByUser` | apps/api/utils/bonusEarning.ts:346-372 | users in order of first appearance, each with exactly what its rows earn together; the totals add up to what all rows earn |
| `BonusEarning.ApplySeedingRule` | apps/api/utils/bonusEarning.ts:313-389 | each user's balance grows by exactly what its rows earn, in one ledger row; a missing user stops the tick and what was credited stands |
| `FirstSeederRule.InsertAfterRace` | apps/api/utils/bonusEarning.ts:433-451 | whatever other replicas earn, buy, hold or pay back between the look and the insert, the torrent ends with its one grant unless the user is gone, and every balance moves as the ledger, the purchases and the rivals' transfers say |
| `FirstSeederRule.ApplyFirstSeederRule` | apps/api/utils/bonusEarning.ts:405-460 | under any such interference every torrent ends with exactly one grant, every balance is accounted for by ledger rows, purchases and the rivals' own transfers, and only rows this call inserted are counted |
| `Milestones.Ledger.ApplyMilestoneRule` | apps/api/utils/bonusEarning.ts:471-524 | after a whole tick every threshold with a reward that a row's seed time has reached is paid, each once and of exactly its reward; only such rows are added, every balance grows by exactly its new rows, and the report counts them; a missing user stops the tick and what was paid stands |
| `Milestones.BelowLowestNothingDue` | apps/api/utils/bonusEarning.ts:478-489 | rows below the smallest threshold have nothing due, so the query may leave them out |
| `MilestoneRuns.InsertRepeatsIff` | apps/api/utils/bonusEarning.ts:495-518 | in every run of overlapping ticks: a payment is the second for its milestone if and only if some tick has inserted that milestone since this one looked |
| `MilestoneRuns.RivalMeansOverrun` | apps/api/plugins/bonus-collector.ts:107-123 | whenever a rival inserts between the look and the payment, some tick of the run has outlived its lease |
| `MilestoneRuns.LockedTicksPayOnce` | apps/api/utils/bonusEarning.ts:491-518 | in every state of every run of the lock in which no tick outlives its lease, crashes included, every milestone is paid at most once |
| `MilestoneRuns.OverrunPaysTwice` | apps/api/utils/bonusEarning.ts:495-518 | for every lease, a concrete run in which a tick outlives it and the next one pays the same milestone again |
| `Economy.PoolMoney` | apps/api/utils/freeleechPool.ts:543-585 | in every state the pool takes from balances exactly what it writes to the grants ledger |
| `EconomyRuns.ActionKeeps` | apps/api/plugins/request-auto-validate.ts:83-136 | every action, on however stale a read, keeps balances non-negative and accounted for, and payouts single and covered |
| `EconomyRuns.RunConserves` | apps/api/plugins/request-auto-validate.ts:83-136 | over every interleaving: each balance moves by its grants less purchases and holds plus payouts, no torrent has two first-seeder grants, and each request pays at most once and never more than it holds |
| `EconomyRuns.CloseIsExact` | apps/api/plugins/request-auto-validate.ts:83-116 | a close pays what its row calls for if and only if the reward and filler it read are still the row's |
| `EconomyRuns.CurrentRunsPayExactly` | apps/api/routes/api/requests/[id]/validate.post.ts:50-91 | when every close acts on a current read, every payout is the whole reward to the right user |
| `BountyRules.BountyIsExact` | apps/api/routes/api/requests/[id].patch.ts:50-120 | a post, raise, fill, rejection, validation or withdrawal goes through if and only if the caller may, the row as read and as it is both have the status the step starts from, and whoever is charged has the points and whoever is paid exists; then exactly one row and one balance change |
| `EconomyFaults.CloseIsExactInRuns` | apps/api/plugins/request-auto-validate.ts:83-136 | over whole runs: a close acting on the row as it was looked up at an earlier step pays exactly what the row calls for if and only if nobody has raised the reward since and, for a validation, the last fill since, if there was one, is by the same filler |
| `EconomyFaults.SeenWasLooked` | apps/api/plugins/request-auto-validate.ts:42-75 | every read a close acts on is the row as it was at some earlier look of the run |
| `EconomyFaults.StaleSweepPaysFormerFiller` | apps/api/plugins/request-auto-validate.ts:83-116 | a sweep that read a fill before it was rejected and filled again pays the whole reward it read to the filler it read, validates the row and changes nothing else |
| `EconomyFaults.RejectionBetweenReadAndSweep` | apps/api/plugins/request-auto-validate.ts:83-116 | a concrete run in which a fill is rejected and filled again by another between the sweep's read and its payout, and the sweep pays the first filler |
| `EconomyFaults.StaleCancelLosesTheRaise` | apps/api/routes/api/requests/[id].delete.ts:51-72 | a concrete run in which a cancellation gives back less than was held |
| `BountyBoard.Board.ValidateRow` | apps/api/plugins/request-auto-validate.ts:96-131 | pays exactly when the conditional flip succeeded, and undoes the flip when the payment throws |
| `BountyBoard.Board.Sweep` | apps/api/plugins/request-auto-validate.ts:42-165 | an undisturbed sweep validates exactly the rows filled before the cutoff by somebody who can be paid, leaves every other row as it was, and pays each filler exactly what they owe |
| `CronLock.AtMostOneWithinLease` | apps/api/utils/cronLock.ts:14-49 | in every run, crashes and late finishes included, at most one tick is within its lease |
| `CronLock.ShortTicksNeverOverlap` | apps/api/utils/cronLock.ts:14-49 | ticks shorter than the lease never overlap |
| `CronLock.LateFinishSparesSuccessor` | apps/api/utils/cronLock.ts:34-43 | a late compare-and-delete leaves the key of the tick that holds it by then |
| `CronLock.StartsBesideOnlyExpired` | apps/api/plugins/bonus-collector.ts:107-123 | a replica starts beside a running tick only when that tick has outlived its lease |
| `CronLock.SharedTokensBreakTheLock` | apps/api/utils/cronLock.ts:19-19 | a late release deletes the key of a tick that took over after the lease if and only if the process ids are equal and the second clock lags by exactly the time between the two starts; otherwise the tokens differ |
| `CronLock.SharedKey.Acquire` | apps/api/utils/cronLock.ts:22-28 | succeeds exactly when the key is absent or expired, and then sets token and lease |
| `CronLock.SharedKey.Release` | apps/api/utils/cronLock.ts:34-43 | deletes the key only when it is live and holds the caller's token |
| `MonthlyGrants.Collector.ApplyAccountAgeMonthlyRule` | apps/api/utils/bonusEarning.ts:567-621 | one tick grants only listed, unbanned members who joined more than thirty days before and had no grant in the last thirty, each at most once and between its start and end; unless a credit throws, which ends the tick with what was credited standing, nobody like that is left without one |
| `MonthlyGrants.TicksServeTheEntitled` | apps/api/utils/bonusEarning.ts:583-606 | over whole runs, with members, bans and partial ticks changing in between: every tick grants only entitled members who were waiting, and after each whole tick no entitled member is left waiting |
| `MonthlyGrants.SerialTicksSpaceGrants` | apps/api/utils/bonusEarning.ts:583-606 | under ticks that do not overlap, whole or cut short and with users and bans changing in between, any two grants to a user are at least thirty days apart, the first that long after joining |
| `MonthlyGrants.LockMakesTicksSerial` | apps/api/plugins/bonus-collector.ts:107-123 | in every run of the lock in which no tick outlives its lease, each tick ends before the next one starts |
| `MonthlyGrants.LockedTicksSpaceGrants` | apps/api/utils/bonusEarning.ts:574-606 | under the lock, with ticks shorter than the lease that may fail or crash midway, grants to one user are at least thirty days apart |
| `MonthlyGrants.GrantsWithinAge` | apps/api/utils/bonusEarning.ts:574-606 | a user of age A holds at most A / 30 days of these grants |
| `RateLimit.SlidingWindow.Request` | apps/api/utils/rateLimit.ts:260-301 | admits exactly when this request and all requests of the window before it, refused ones included, are within the limit; trimming and expiry never show; after waiting as told fewer requests count, and a second earlier still as many |
| `RateLimit.SlidingWindow.Trim` | apps/api/utils/rateLimit.ts:279-282 | expiry and trimming together leave exactly the entries of the window |
| `RateLimit.NoWindowOverflows` | apps/api/utils/rateLimit.ts:260-301 | in every run with a forward clock no interval of the window's length admits more than the limit |
| `RateLimit.RetryAfter` | apps/api/utils/rateLimit.ts:289-298 | the least number of whole seconds, at least one, after which the oldest counted request has left the window |
| `RateLimit.BoundedStore.SetBounded` | apps/api/utils/rateLimit.ts:32-40 | the store never passes its capacity; only a new key evicts, and it evicts the oldest |
| `RateLimit.BoundedStore.RateLimitMemory` | apps/api/utils/rateLimit.ts:314-336 | a fresh or lapsed key starts a window, then requests pass up to the limit and nothing changes beyond it; a refusal reports the least whole number of seconds that reaches the reset instant; no other key is changed, though the oldest may be evicted |
| `RateLimit.WaitOpensWindow` | apps/api/utils/rateLimit.ts:325-332 | waiting exactly as the in-memory limiter tells opens a new window if and only if the time to the reset is not a whole number of seconds |
| `RateLimitFallback.WindowPassesFirst` | apps/api/utils/rateLimit.ts:314-336 | of the requests of a window, up to and at its reset instant, exactly the first max(1, limit) pass, and the entry counts them |
| `RateLimitFallback.FallbackIntervalBound` | apps/api/utils/rateLimit.ts:314-336 | in every run with a forward clock that keeps the entry, no interval of the window's length, both ends included, lets more than 2 * max(1, limit) - 1 requests pass |
| `RateLimitFallback.FallbackBoundIsMet` | apps/api/utils/rateLimit.ts:314-336 | for every limit and window a concrete run lets that many pass within one interval of the window's length, so the fallback passes more than the limit for every limit above one |
| `AddressForms.FormsExpand` | apps/api/utils/safeFetch.ts:110-137 | every textual form of section 2.2 of RFC 4291, full, compressed or with a dotted quad, in any case and with any zone, expands to the groups it means |
| `SafeFetch.GroupIsPositional` | apps/api/utils/safeFetch.ts:133-136 | a group of up to four digits is read in base sixteen, the last digit counting ones |
| `SafeFetch.OctetIsPositional` | apps/api/utils/safeFetch.ts:115-120 | an octet of an embedded dotted quad is read in base ten |
| `SafeFetch.OctetsAreFigures` | apps/api/utils/safeFetch.ts:115-119 | every number below a thousand is read from its decimal figures, and no octet reads as more; the limit of 255 is the expansion's |
| `AddressForms.ExpandIsExact` | apps/api/utils/safeFetch.ts:110-137 | a text expands to eight groups if and only if it is a textual form of exactly that address |
| `AddressRanges.BlockedV4IsPrefixes` | apps/api/utils/safeFetch.ts:83-97 | an IPv4 address is refused if and only if one of the listed prefixes contains it |
| `AddressRanges.BlockedV6IsPrefixes` | apps/api/utils/safeFetch.ts:149-171 | an IPv6 address is refused if and only if it carries a refused IPv4 address or lies in one of the listed prefixes |
| `AddressRanges.CarriedIPv4DecidesVerdict` | apps/api/utils/safeFetch.ts:152-162 | however an address that carries IPv4 is written, it gets the verdict of that IPv4 address |
| `AddressRanges.MalformedFailsClosed` | apps/api/utils/safeFetch.ts:150-151 | what is not the text of any address is refused |
| `UploadRules.Climb` | apps/api/utils/uploadRules.ts:129-140 | climbing with a seen set gives the nearest ancestor's pattern, or nothing exactly when no ancestor has one, cycles and dangling parents included |
| `UploadRules.ClosedChain` | apps/api/utils/uploadRules.ts:131-139 | stopping at a repeat loses nothing: the chain never leaves the ids already seen |
| `UploadRules.InheritsIsChain` | apps/api/utils/uploadRules.ts:121-142 | inheriting is exactly having a chain of parents, each named by the last row of the one below, that ends at the first category with a non-empty pattern |
| `UploadRules.ResolveInheritance` | apps/api/utils/uploadRules.ts:121-142 | a listed category maps to a pattern if and only if that pattern is at the end of a chain of parents, by the last row of each id, with none before it; no other id is mapped |

## Left out

- HTTP routes, sessions, notifications, metrics, settings getters and the Redis snapshot of the active event: plumbing without a property of its own.
- Trimming of the configured event texts, and their defaults: carried as opaque values.
- `PoolStore.Store.Contribute`: stated for disjoint windows, which every run keeps (`PoolAlways.EveryRunKeepsCore`) and which make the active event the query returns the only one.
- `PoolDisplaced.RunConservesDisplacedTime`: for timely runs; `PoolHandBacks.HandedBackOnceIff` says of every run when it comes back at most once. A chain follows an event that nobody edits between coming back and being displaced again.
- Admin edits carry all fields at once, where the route keeps the fields a request leaves out; validation of their ranges is not modelled.
- `GroupListing.SplitIsPlain`: the lead release is the first heaviest row; the database may pick any of several equally heavy ones.
- `GroupPaging.ListingIsPlain`: the collation of names is any ranking of strings.
- `TorrentGroups.MemberWhereIsKeyEquality`: for keys of rows only; a `solo:` key of a tagged row is not asked about, since its local predicate has no null checks.
- Free-text search, extra listing filters beyond an arbitrary predicate, and the page of federated groups.
- `creditBonusForUserSeeds` writes no ledger row and is not part of the economy; the daily-login rule is not modelled beyond the credit it makes.
- `FirstSeederRule.ApplyFirstSeederRule`: users are not deleted while the tick runs.
- `MonthlyGrants.LockedTicksSpaceGrants`: a tick's inserts are stamped between the instants at which it takes the lock and ends, by the clock the lease runs on.
- `Milestones.Ledger.ApplyMilestoneRule`: for a tick nothing else interferes with; `MilestoneRuns.LockedTicksPayOnce` covers ticks that look and insert side by side.
- `MilestoneRuns.LockedTicksPayOnce`: balances are left to the single tick; a run follows the lock and the ledger rows.
- `GroupPages.NextPageRepeatsNothingIff`: the catalogue is the same at both requests.
- `RateLimitFallback.FallbackIntervalBound`: while the store keeps the key's entry; evicting it from a full store forgets its count. The five-minute cleanup removes only lapsed entries, which count as absent.
- `EconomyRuns.RunConserves`: the attempt rows and per-user caps of bounty fills, edits that do not touch the reward, and deleted users are not modelled.
- `BonusEarning.ApplySeedingRule`: rates and intervals are exact reals, where the code has floating point.
- `BonusEarning.BuildRows`: takes the swarm as gathered; the scan over Redis, its persisted cursor and its time budget are not modelled.
- `CronLock.ShortTicksNeverOverlap`: an unreachable Redis, which skips the tick or the release, is the crash step.
- `TemplateParser.Parse`: characters are Unicode scalar values where the code counts UTF-16 units, so sizes of astral text differ; contexts are plain maps without prototype names.
- `TemplateRoundTrip.OneLineRoundTrip`: for forests without line breaks; `PrintThenParse` covers the others as long as no block tag stands alone on a line, where the parser drops the line by design.
- `AddressForms.ExpandIsExact`: letters are folded in ASCII, which decides every literal that can expand.
- `AddressRanges.BlockedV4IsPrefixes`: on four numbers; the dotted text is split by a call whose number parsing is not modelled.
- The masks of the IPv6 ranges are written as arithmetic on the cleared low bits.
- IP blacklisting and its escalating penalties: an expired entry takes its violation count with it, so durations need not grow.
- `BountyRules.BountyIsExact`: a validation by hand also requires the caller to be the requester, which is not modelled.
- `UploadRules.ResolveInheritance`: patterns and parents are maps without prototype names; title matching itself is not modelled.
