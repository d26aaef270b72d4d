# Verified model of the KMT portal's core logic

A Dafny 4.11 model of the parts of the application whose correctness depends on order, time or
arithmetic, with proofs over every input, every run and every interleaving:

- the polling scheduler `useSafePolling` and the team-chat panel that runs on top of it;
- Cairo civil time: date inputs, adding days, and finding the instant a local time names;
- the admin route policies: which policy governs a path and who may open it;
- the redaction of error events before they leave the application;
- the public locale prefixes and the site map built on them, the sign-in redirects, the keyboard
  search of the portal's select, and the page window of the admin lists.

`dafny verify dfyconfig.toml` checks everything.

## How it is built

Code that changes things step by step is a class or a method with a loop (`PollingClosure`,
`ClientTeamChatPanel`, `UtcDate`, `PathMap`, `CairoLocalDateTimeToIso`, `NextEnabledIndex`,
`PageWindow`, ...). Each is proved equal to a function of the old state or of the inputs, and the
theorems are about those functions. Pure code is functions.

**Polling** (`SafePolling.dfy`, `PollingEffect.dfy`). A `Poller` is the value of one effect run's
closure variables plus the browser's timer queue. `run` is split at its `await`. An adversary chooses
which timer fires, when a poll settles and how, what each reading of visibility and connectivity says,
and when `pollNow` or the cleanup comes. The log says what the closure did, so history properties
are properties of the log.

**Team chat** (`TeamChat*.dfy`). Loads, polls and sends are split at every `await` into asked, served
and arrived; the adversary interleaves them with typing, locale changes, retries, unmounting and
remounting, and with other people writing on the server. The server is an assumption: a thread never
loses a message; a 2xx answer to a send comes after the text was stored as a new message, in the thread
addressed if one was, and any snapshot it contains was taken then; and the list of threads is empty only
when there is no thread (`src/server/conversations/conversation-service.ts:301-421`).
`TeamChatHistory.dfy` says what a log may look like, `TeamChatProofs.dfy` and `TeamChatLoads.dfy` prove
that every step keeps it so, `TeamChatTheorems.dfy` and `TeamChatOutcomes.dfy` read off what may be
displayed and what must be. `TeamChatPanel.dfy` is the component as an object: every handler keeps the
invariant and takes the model's step, so the object after any run is the panel the theorems speak of.

**Civil time** (`Calendar.dfy`, `DateText.dfy`, `LegalFormat.dfy`, `LocalTime.dfy`). `Date.UTC`, the
`getUTC*` calls and `setUTCDate` follow section 21.4.1 of ECMA-262, including the twentieth-century rule
for years 0 to 99 and the range of time values. A time zone is any function from minutes to offsets in
minutes; where uniqueness matters, offsets are positive and bounded and at most one transition lies in
the window that the correcting loop visits.

## Where the code does less than one would expect

Each of these has a lemma with the exact condition and one with an input that shows it.

- After signing in, a user comes back to the page of their area they asked for with its query intact,
  except that the bare `/admin` or `/client` followed by a query loses the query
  (`AuthRouting.LoginReturnsExactly`, `AuthRouting.BareRootLosesItsQuery`).
- A date input of the years 0000 to 0099 is rejected, because `Date.UTC` reads it as the twentieth century
  (`LegalFormat.AcceptedExactly`, `LegalFormat.FirstCenturyIsRejected`).
- Adding days gives a text that the function itself does not accept exactly when the result leaves the
  years 0100 to 9999 (`LegalFormat.TextDenotesDay`, `LegalFormat.YearTenThousandIsNotRead`).

## Hypotheses

- Finding an instant: the zone has positive bounded offsets and one transition in the window the loop
  visits. `LocalTime.OneTransitionIsNeeded` shows that the last cannot be dropped for zones in general.
- Final URLs of the site map: slugs are lowercase kebab-case, as they must be to be stored
  (`src/server/admin/content-social-service.ts:16`) and as the built-in ones are, and resolving a path of
  such letters, digits, hyphens and slashes puts the site's origin before it.
- Team chat: the model lets the panel be unmounted and mounted again with its state at any time, as the
  effect that restores `mounted` allows for, though the application does not do so. A send that ends in
  between then blocks further ones: `TeamChatOutcomes.UnmountedFailureBlocks`.
- Redaction: the scrubbing of a string is idempotent, adds no query or fragment mark and leaves the
  truncation text alone.

## Model

| member | source | states |
|---|---|---|
| SafePolling.NeverStuck | src/lib/use-safe-polling.ts:75-139 | after any run at most one timer is queued and one poll suspended; a closure neither disposed nor terminal has one of them, an ended one has no timer |
| SafePolling.AlwaysPollsAgain | src/lib/use-safe-polling.ts:75-139 | from every reachable live state, settling the outstanding poll and firing the queued timer starts a poll |
| SafePolling.OnePollAndAbsorbingEnd | src/lib/use-safe-polling.ts:82-153 | two polls of one closure never overlap; after disposal or a terminal status no timer is armed, no poll starts and no callback fires, however late a promise settles |
| SafePolling.FailureCountIsTheRun | src/lib/use-safe-polling.ts:82-117 | after every run the failure count is the number of counted failures since the last success |
| SafePolling.BackoffFollowsFailures | src/lib/use-safe-polling.ts:103-104 | every failure of any run asks for interval times 2^k capped at the maximum, k counting it and the failures before it since the last success |
| SafePolling.DelaysGrowInARun | src/lib/use-safe-polling.ts:103-104 | between two failures without a success the delay does not decrease, and it never exceeds the cap |
| SafePolling.DoubledIsPower | src/lib/use-safe-polling.ts:104 | the doubled interval is interval times a power of two |
| SafePolling.BackoffMonotone | src/lib/use-safe-polling.ts:104 | the delay grows with the failures and stays within the maximum |
| SafePolling.OnlySettledPollsCount | src/lib/use-safe-polling.ts:89-105 | only an unaborted poll that settles in a live closure moves the failure count: to 0 on success, up by one on a failure that is neither an abort nor terminal |
| SafePolling.TimersAskForTheDueDelay | src/lib/use-safe-polling.ts:75-116 | every timer asks for no delay or for the one that is due: initial, back-off of the failure just seen, or interval |
| SafePolling.RequestsAccumulate | src/lib/use-safe-polling.ts:119-139 | while a poll is in flight, any events amount to one pending flag, the last word winning, and abort it exactly when the page was once not ready |
| SafePolling.RequestsCoalesce | src/lib/use-safe-polling.ts:106-139 | any number of requests during a poll collapse to a single timer when it settles: immediate exactly when the last word asked and the page is ready, else after interval or back-off |
| SafePolling.StartArmsTheInitialDelay | src/lib/use-safe-polling.ts:68-143 | a closure starts with one timer, for the initial delay |
| SafePolling.TimerPollsExactlyWhenReady | src/lib/use-safe-polling.ts:82-91 | a firing timer starts a poll if and only if the page is ready and polling is not paused; otherwise the same wait is armed again, as the only timer |
| SafePolling.TimerWaitsForAnAbortedPoll | src/lib/use-safe-polling.ts:82-83 | a timer that fires while an aborted poll has not settled changes nothing else |
| SafePolling.PageEventsRearm | src/lib/use-safe-polling.ts:119-139 | an unready page aborts the poll, withdraws requests and waits one interval; otherwise an event or `pollNow` polls at once, or notes a request during a poll |
| SafePolling.SettledPollReports | src/lib/use-safe-polling.ts:92-117 | what a settling poll reports: nothing if disposed, aborted or an abort, else success, the end for 401 and 403, or a counted failure with its back-off |
| SafePolling.CleanupEnds | src/lib/use-safe-polling.ts:145-153 | the cleanup leaves no timer and aborts the poll under way |
| SafePolling.StepKeeps | src/lib/use-safe-polling.ts:68-153 | every turn of the event loop keeps the invariant and only extends the log |
| SafePolling.RunKeeps | src/lib/use-safe-polling.ts:68-153 | so does every run |
| PollingEffect.PollingClosure.constructor | src/lib/use-safe-polling.ts:68-143 | an effect run starts with fresh variables and its initial timer armed |
| PollingEffect.PollingClosure.ScheduleTimer | src/lib/use-safe-polling.ts:75-80 | replaces the timer, or only clears it once ended |
| PollingEffect.PollingClosure.RunFromTimer | src/lib/use-safe-polling.ts:82-91 | `run` up to the await is the model's timer step and keeps the invariant |
| PollingEffect.PollingClosure.AfterAwait | src/lib/use-safe-polling.ts:92-105 | the try and catch clauses, with the delay they leave |
| PollingEffect.PollingClosure.Finally | src/lib/use-safe-polling.ts:106-116 | the finally clause |
| PollingEffect.PollingClosure.ResumeRun | src/lib/use-safe-polling.ts:92-117 | `run` from the await on is the model's settling step and keeps the invariant |
| PollingEffect.PollingClosure.EnvironmentChanged | src/lib/use-safe-polling.ts:119-131 | the listener is the model's environment step and keeps the invariant |
| PollingEffect.PollingClosure.RunNowRequested | src/lib/use-safe-polling.ts:133-139 | `pollNow` is the model's request step and keeps the invariant |
| PollingEffect.PollingClosure.CleanUp | src/lib/use-safe-polling.ts:145-153 | the cleanup is the model's disposal and keeps the invariant |
| PollingEffect.HookStepKeeps | src/lib/use-safe-polling.ts:62-154 | every effect rerun and every late turn of an old closure keeps all closures consistent and all but the newest disposed |
| PollingEffect.EffectReplacesClosure | src/lib/use-safe-polling.ts:62-154 | a rerun of the effect disposes the closure before and starts a new one exactly if polling is enabled |
| PollingEffect.OneActivityPerHook | src/lib/use-safe-polling.ts:62-154 | of all closures one use of the hook ever made, only the live one can have a timer or an unaborted poll, and never both |
| TeamChatTheorems.DisplayedReadsOverlapNoSend | src/features/client/client-team-chat-panel.tsx:112-182 | a read whose result is displayed overlaps no send anywhere in its lifetime |
| TeamChatTheorems.AcknowledgedMessagesStay | src/features/client/client-team-chat-panel.tsx:112-229 | once a send is acknowledged, no later displayed snapshot of its thread lacks the message that was sent or any other the reply showed, and no load displays "no conversation" |
| TeamChatTheorems.EachSendHasItsMessage | src/features/client/client-team-chat-panel.tsx:188-229 | different acknowledgements are for different messages, so what is sent twice stays displayed twice |
| TeamChatTheorems.StoredWhereItWasWritten | src/features/client/client-team-chat-panel.tsx:202-211 | an acknowledged message is in the thread that was on display when its send began, unless none was or it was closed, and a reply is of that thread |
| TeamChatTheorems.DisplayNeverLosesAReply | src/features/client/client-team-chat-panel.tsx:112-229 | from the display of a reply on, what the panel shows of that thread has the message sent and all of the reply's |
| TeamChatTheorems.ArbitrationIsExact | src/features/client/client-team-chat-panel.tsx:124-182 | a finishing read passes the three tests if and only if it is alive and overlapped no send |
| TeamChatTheorems.AtMostOneSend | src/features/client/client-team-chat-panel.tsx:188-221 | between the beginnings of two sends there is the end of one |
| TeamChatTheorems.OneSendUnderWay | src/features/client/client-team-chat-panel.tsx:188-221 | at most one send is suspended, and the pending flag says exactly whether one is |
| TeamChatTheorems.DisplayedRepliesKeepContext | src/features/client/client-team-chat-panel.tsx:99-211 | a reply is displayed only if locale and mounting did not change since its send began |
| TeamChatTheorems.StaleExactlyAfterContextChange | src/features/client/client-team-chat-panel.tsx:99-228 | a send ends stale exactly when the panel is mounted and the context changed during it; no read begun during a send is ever displayed after it |
| TeamChatTheorems.StaleSendIsReloaded | src/features/client/client-team-chat-panel.tsx:112-228 | after a stale send a load begins or the panel unmounts; until then the reload stays requested, and it starts at a version that send can no longer bump |
| TeamChatTheorems.ComposerLosesOnlyAcknowledgedText | src/features/client/client-team-chat-panel.tsx:188-288 | besides typing, only an acknowledged send changes the composer, and what it removes is exactly the acknowledged draft |
| TeamChatTheorems.ComposerClearedExactly | src/features/client/client-team-chat-panel.tsx:212-288 | an acknowledged send clears the composer if and only if the panel is mounted and nothing was typed since the send began |
| TeamChatTheorems.NothingAfterUnmount | src/features/client/client-team-chat-panel.tsx:104-214 | nothing is displayed or cleared while unmounted |
| TeamChatOutcomes.WinsExactly | src/features/client/client-team-chat-panel.tsx:112-182 | the three tests pass exactly for a load that nothing overtook, or an unaborted poll, during which no send was under way |
| TeamChatOutcomes.DetailIsDisplayed | src/features/client/client-team-chat-panel.tsx:133-178 | the thread's answer is displayed if and only if it still counts and, for a poll, has a thread; otherwise the display stays |
| TeamChatOutcomes.ListIsDisplayed | src/features/client/client-team-chat-panel.tsx:121-132 | an empty list is displayed if and only if it still counts; otherwise its first thread is asked for |
| TeamChatOutcomes.ReadFailureIsReported | src/features/client/client-team-chat-panel.tsx:142-150 | a failed load is reported if and only if it still counts, a failed poll never, and the display stays |
| TeamChatOutcomes.DisplayedLoadsAreLatest | src/features/client/client-team-chat-panel.tsx:112-162 | no later load, change of locale or unmounting comes between the beginning of a load and its display |
| TeamChatLoads.RunKeepsAlive | src/features/client/client-team-chat-panel.tsx:112-162 | in every run a load is alive as long as nothing overtook it |
| TeamChatOutcomes.ReplyIsDisplayed | src/features/client/client-team-chat-panel.tsx:208-228 | a reply is displayed if and only if the panel is mounted in the context in which its send began; the send is over either way |
| TeamChatOutcomes.SendFailureIsReported | src/features/client/client-team-chat-panel.tsx:215-228 | so is a failed send reported, and display and composer stay |
| TeamChatOutcomes.SendBeginsExactly | src/features/client/client-team-chat-panel.tsx:188-207 | a submit begins a send if and only if the panel is mounted, the draft not blank, no send under way and none ended unmounted; it sends the composer's text to the open thread on display |
| TeamChatOutcomes.TrimIs | src/features/client/client-team-chat-panel.tsx:190-191 | trimming takes the white space off both ends and nothing else; a draft is blank exactly when it is all white space |
| TeamChatOutcomes.SendingFlagExactly | src/features/client/client-team-chat-panel.tsx:188-223 | the sending flag is up exactly while a send is under way, or for good once one ended unmounted |
| TeamChatOutcomes.SendingFlagWithoutRemount | src/features/client/client-team-chat-panel.tsx:188-223 | in a panel never mounted again the flag is exact while mounted |
| TeamChatOutcomes.UnmountedFailureBlocks | src/features/client/client-team-chat-panel.tsx:104-223 | a send that fails while unmounted leaves the flag up if the panel is mounted again with its state |
| TeamChatOutcomes.ComposerKeepsWhatIsTyped | src/features/client/client-team-chat-panel.tsx:212-288 | typing replaces the text; an acknowledged send empties the composer if and only if the panel is mounted and nothing was typed since it began |
| TeamChatOutcomes.PollAsksForTheDisplayedThread | src/features/client/client-team-chat-panel.tsx:170-173 | a poll asks for the thread on display |
| TeamChatOutcomes.EffectsBeginALoad | src/features/client/client-team-chat-panel.tsx:99-162 | a change of locale, a mounting and a retry each begin a load of the list, then the only load alive, and clear the last load error |
| TeamChatProofs.StepKeeps | src/features/client/client-team-chat-panel.tsx:99-229 | every moment keeps the panel's invariant, whatever the adversary chose |
| TeamChatProofs.RunKeeps | src/features/client/client-team-chat-panel.tsx:99-229 | so does every run |
| TeamChatPanel.ClientTeamChatPanel.constructor | src/features/client/client-team-chat-panel.tsx:83-120 | the first commit with its effects satisfies the invariant |
| TeamChatPanel.ClientTeamChatPanel.ListResponse | src/features/client/client-team-chat-panel.tsx:121-133 | `load` between its awaits is the model's step and keeps the invariant |
| TeamChatPanel.ClientTeamChatPanel.DetailResponse | src/features/client/client-team-chat-panel.tsx:134-178 | the end of `load` and of a poll is the model's step and keeps the invariant |
| TeamChatPanel.ClientTeamChatPanel.ReadError | src/features/client/client-team-chat-panel.tsx:142-150 | a failed read is the model's step and keeps the invariant |
| TeamChatPanel.ClientTeamChatPanel.Poll | src/features/client/client-team-chat-panel.tsx:170-173 | a poll up to its await is the model's step and keeps the invariant |
| TeamChatPanel.ClientTeamChatPanel.SubmitDraft | src/features/client/client-team-chat-panel.tsx:188-207 | `submit` up to its await, or its early return, is the model's step and keeps the invariant |
| TeamChatPanel.ClientTeamChatPanel.SubmitReply | src/features/client/client-team-chat-panel.tsx:208-229 | `submit` resumed by a 2xx answer, finally clause included, is the model's step and keeps the invariant |
| TeamChatPanel.ClientTeamChatPanel.SubmitError | src/features/client/client-team-chat-panel.tsx:215-229 | `submit` resumed by a failure, finally clause included, is the model's step and keeps the invariant |
| TeamChatPanel.ClientTeamChatPanel.OnChange | src/features/client/client-team-chat-panel.tsx:285-288 | typing is the model's step and keeps the invariant |
| TeamChatPanel.ClientTeamChatPanel.LocaleEffect | src/features/client/client-team-chat-panel.tsx:99-162 | what a new locale reruns is the model's step and keeps the invariant |
| TeamChatPanel.ClientTeamChatPanel.RerunLoad | src/features/client/client-team-chat-panel.tsx:112-162 | the rerun of the load effect, when a reload was requested, is the model's step and keeps the invariant |
| TeamChatPanel.ClientTeamChatPanel.UnmountCleanups | src/features/client/client-team-chat-panel.tsx:99-161 | unmounting is the model's step and keeps the invariant |
| TeamChatPanel.ClientTeamChatPanel.Remount | src/features/client/client-team-chat-panel.tsx:99-162 | mounting again runs every effect on the same refs, is the model's step and keeps the invariant |
| TeamChatPanel.ClientTeamChatPanel.AbortPoll | src/features/client/client-team-chat-panel.tsx:170-178 | the abort of a poll's signal is the model's step and keeps the invariant |
| TeamChatPanel.ClientTeamChatPanel.RequestReload | src/features/client/client-team-chat-panel.tsx:261-263 | the retry button is the model's step and keeps the invariant |
| TeamChatPanel.ClientTeamChatPanel.Moment | src/features/client/client-team-chat-panel.tsx:99-229 | dispatching any moment to its handler is the model's step |
| TeamChatPanel.Play | src/features/client/client-team-chat-panel.tsx:83-229 | the object after any sequence of moments is the panel of the theorems for that sequence |
| Calendar.DaysFollowTheCalendar | src/lib/legal-format.ts:73-85 | the ECMA-262 day arithmetic is the calendar: day 0 is 1 January 1970 and the next day is the next date |
| Calendar.DayRoundTrip | src/lib/legal-format.ts:73-85 | every day number is the number of the real date it denotes |
| Calendar.DateRoundTrip | src/lib/legal-format.ts:73-85 | every real date is the date of its day number |
| Calendar.DateOrderIsDayOrder | src/lib/legal-format.ts:73-85 | dates are ordered as their day numbers |
| DateText.ParseFormat | src/lib/legal-format.ts:70-86 | a written date of the years 0 to 9999 reads back as itself |
| DateText.FormatParse | src/lib/legal-format.ts:70-86 | a text read as a real date is written back as itself |
| DateText.OddYearsDoNotParse | src/lib/legal-format.ts:70-86 | a written date of any other year is rejected by the pattern |
| DateText.TextOrderIsDateOrder | src/lib/legal-format.ts:82-86 | code-unit order of written dates is date order |
| LegalFormat.AddCairoDateInputDays | src/lib/legal-format.ts:69-87 | the code computes the specified result |
| LegalFormat.UtcDate.SetUtcDate | src/lib/legal-format.ts:81 | `setUTCDate` renormalises month and year, and invalidates a date out of range |
| LegalFormat.AcceptedExactly | src/lib/legal-format.ts:70-80 | an input is accepted exactly when it is the text of a real date of the years 100 to 9999, and denotes that day |
| LegalFormat.CenturyLater | src/lib/legal-format.ts:73-80 | a year 0 to 99 never survives `Date.UTC` |
| LegalFormat.FirstCenturyIsRejected | src/lib/legal-format.ts:73-80 | `0099-12-31` is the text of a real date and not an input |
| LegalFormat.YearTenThousandIsNotRead | src/lib/legal-format.ts:69-87 | the day after `9999-12-31` is `10000-01-01`, which is not an input |
| LegalFormat.AddDaysDomain | src/lib/legal-format.ts:69-87 | a result exists exactly for a whole amount and such a text |
| LegalFormat.AddDaysCounts | src/lib/legal-format.ts:69-87 | adding n gives the text of the day n days on, which denotes it if its year allows; adding 1 gives the next date of the calendar |
| LegalFormat.EndOfFebruary | src/lib/legal-format.ts:69-87 | 28 February is followed by the 29th in 2024 and by 1 March in 2026 |
| LegalFormat.AddDaysActs | src/lib/legal-format.ts:69-87 | adding a then b is adding a+b if the middle date has a year 100 to 9999, and has no result otherwise |
| LegalFormat.AddDaysUndoes | src/lib/legal-format.ts:69-87 | adding 0 changes nothing, and adding -a undoes adding a |
| LegalFormat.TextDenotesDay | src/lib/legal-format.ts:69-87 | a result is an acceptable input exactly when its year is 100 to 9999, and then denotes the day computed |
| LegalFormat.InputOrderIsDayOrder | src/lib/legal-format.ts:69-87 | string order of accepted inputs is day order |
| LocalTime.CairoLocalDateTimeToIso | src/lib/legal-format.ts:89-121 | the code, loop included, computes the specified result for every zone |
| LocalTime.FindsTheInstant | src/lib/legal-format.ts:110-119 | with one transition in the window, the loop answers exactly when some instant shows the reading, and answers the latest such instant |
| LocalTime.ConversionIsExact | src/lib/legal-format.ts:89-121 | for a calendar time: null exactly when no instant shows it; else the answer has 24 characters, ends in ":00.000Z", and its date and time read as the UTC minute of the latest instant that does |
| LocalTime.AnswersAreRight | src/lib/legal-format.ts:117-120 | for every zone without hypotheses, an answer reads as the UTC minute of an instant that shows the reading asked for |
| LocalTime.OneTransitionIsNeeded | src/lib/legal-format.ts:110-119 | the one-transition hypothesis cannot be dropped: an abstract zone with more transitions in the window where an instant exists and the loop misses it |
| LocalTime.DesiredExactly | src/lib/legal-format.ts:90-109 | an input passes validation exactly when it is the text of a calendar time of the years 100 to 9999 |
| LocalTime.IsoTextNames | src/lib/legal-format.ts:120 | the text of an instant of the years 100 to 9999 reads back, up to its seconds, as that instant's minute |
| LocalTime.SummerMornings | src/lib/legal-format.ts:89-121 | three hours ahead of UTC, "2026-07-22T00:00" gives "2026-07-21T21:00:00.000Z" and "2026-07-22T10:30" gives "2026-07-22T07:30:00.000Z" |
| LocalTime.IsoTextIsInjective | src/lib/legal-format.ts:120 | the answer's text determines the instant |
| AdminRoutes.ResolveGoverns | src/lib/admin-route-policy.ts:89-108 | filter, sort, first is the unique matching policy that beats every other: no answer exactly when none matches, and every other match is a strictly shorter prefix |
| AdminRoutes.ResolveIgnoresOrder | src/lib/admin-route-policy.ts:103-108 | the order of the table does not matter |
| AdminRoutes.EveryHrefResolvesToItself | src/lib/admin-route-policy.ts:89-108 | a policy's own href resolves to it |
| AdminRoutes.ResolveIgnoresDecoration | src/lib/admin-route-policy.ts:89-108 | queries, fragments and trailing slashes do not change the answer |
| AdminRoutes.PlainPathResolves | src/lib/admin-route-policy.ts:89-108 | a plain path resolves to the longest href that it is or goes on from after a slash, exact hrefs counting only for themselves; to none exactly when there is none |
| AdminRoutes.PagesBelowResolve | src/lib/admin-route-policy.ts:94-108 | every page below a prefix policy's href resolves: to its own policy or to a prefix policy at least as long |
| AdminRoutes.ExactOnlyAtItself | src/lib/admin-route-policy.ts:94-96 | an exact policy answers only for its own href, however decorated |
| AdminRoutes.AtMostOneActive | src/lib/admin-route-policy.ts:110-112 | at most one policy is active on a path, and one is exactly when the path resolves |
| AdminRoutes.FilteringByPathIsByPolicy | src/components/layout/dashboard-shell.tsx:15-20 | filtering navigation by path shows exactly the routes that filtering by policy allows |
| AdminRoutes.AccessGrowsWithPermissions | src/lib/admin-route-policy.ts:114-136 | with a fixed role, more permissions never take a route or a path away |
| AdminRoutes.RouteGrows | src/lib/admin-route-policy.ts:114-128 | the same for any pair of principals whose permission tests are ordered |
| AdminRouteTable.TheTableIsWellFormed | src/lib/admin-route-policy.ts:54-75 | the actual table has distinct ids and hrefs, so all of the above holds of it |
| AdminRouteTable.CasePagesResolve | src/lib/admin-route-policy.ts:61-108 | every plain path below `/admin/cases` but `new` resolves to the cases' list, and that one to the creation of a case |
| AdminRouteTable.WhoOpensWhat | src/lib/admin-route-policy.ts:54-128 | in the actual table: staff only; the super administrator opens every route, all staff the dashboard, nobody else the roles page, and any other route exactly whoever holds one of its permissions |
| SentryPrivacy.ScrubSentryEvent | src/lib/sentry-privacy.ts:6-22 | the deletions and reassignments compute the specified event |
| SentryPrivacy.RedactedIsBoundedAndPrivate | src/lib/sentry-privacy.ts:24-49 | a redacted tree is bounded in depth and list length; at every level sensitive fields are blanked, URL fields have no query or fragment, and strings are scrubbed |
| SentryPrivacy.RedactKeepsKeys | src/lib/sentry-privacy.ts:24-40 | down to the depth bound every object keeps its keys in order and every list its first fifty places; a string becomes its scrub, a URL the scrub of what precedes its first mark, a sensitive value the blank, and nothing else changes |
| SentryPrivacy.UntouchedExactly | src/lib/sentry-privacy.ts:24-49 | redaction leaves a tree alone if and only if it is within the bounds and private already |
| SentryPrivacy.ShallowFits | src/lib/sentry-privacy.ts:24-27 | a tree of short lists nested no deeper than eight levels is within the bounds |
| SentryPrivacy.NinthLevelIsTruncated | src/lib/sentry-privacy.ts:25-27 | a number inside eight lists stays, inside nine it is truncated |
| SentryPrivacy.FiftyItemsAreKept | src/lib/sentry-privacy.ts:27 | of a list at most the first fifty items are kept, each redacted |
| SentryPrivacy.MentionsExactly | src/lib/sentry-privacy.ts:1-2 | a key is sensitive, or a URL's, exactly when a listed word stands somewhere in it in any letter case |
| SentryPrivacy.SomeKeys | src/lib/sentry-privacy.ts:1-2 | "Authorization" and "userEmail" are sensitive, "redirectUrl" is a URL's, "level" is neither |
| SentryPrivacy.RedactTwice | src/lib/sentry-privacy.ts:24-49 | redaction is idempotent at every depth |
| SentryPrivacy.ScrubbingIsIdempotent | src/lib/sentry-privacy.ts:6-49 | so is the scrubbing of a whole event |
| SentryPrivacy.ScrubbedEventIsPrivate | src/lib/sentry-privacy.ts:6-22 | a scrubbed event is bounded and private, has no user, and its request has no body, cookies, headers or query |
| SentryPrivacy.OtherFieldsSurvive | src/lib/sentry-privacy.ts:6-22 | every field of an event but user and request is in the scrubbed event with its redacted value, and no other |
| SentryPrivacy.RequestFieldsSurvive | src/lib/sentry-privacy.ts:10-19 | every field of a request but body, cookies and headers is in the scrubbed request with its redacted value, and no other |
| SentryPrivacy.LevelIsKept | src/lib/sentry-privacy.ts:6-49 | an event of a level alone leaves with the scrubbed text of that level |
| SentryPrivacy.AlikeRedactsAlike | src/lib/sentry-privacy.ts:24-49 | trees that differ only in what redaction removes redact to the same tree |
| SentryPrivacy.ScrubHidesSecrets | src/lib/sentry-privacy.ts:6-49 | events that differ only in what is to be removed scrub to the same event |
| PublicLocale.SwitchingBackIsIdentity | src/lib/public-locale.ts:30-70 | to Arabic and back is the identity exactly for paths that are not Arabic |
| PublicLocale.SwitchingFromArabicAndBack | src/lib/public-locale.ts:30-70 | to English and back is the identity on an Arabic path exactly when it is not `/ar/` and has a single prefix |
| PublicLocale.LocalizationIsInjective | src/lib/public-locale.ts:30-70 | localisation of unprefixed paths is injective in path and locale together |
| PublicLocale.LocaleIsReadBack | src/lib/public-locale.ts:26-70 | the locale of a localised path is the one asked for |
| PublicLocale.LocalizedExactly | src/lib/public-locale.ts:30-70 | the English form of a rooted path is the path without its Arabic prefix, the Arabic form has exactly one more than that |
| PublicLocale.ServicesPage | src/lib/public-locale.ts:58-70 | "/services" is "/ar/services" in Arabic and back, "/" is "/ar" |
| PublicLocale.ForeignLinksStay | src/lib/public-locale.ts:58-61 | http, mailto, tel and fragment links are returned unchanged |
| PublicLocale.AlternatesAreLocalizations | src/lib/public-locale.ts:72-90 | the alternates of a path are its localisations, x-default preferring English |
| PublicLocale.FillAlternates | src/lib/public-locale.ts:83-90 | the filled record has exactly the keys of the given locales and x-default, with those values |
| Sitemap.PathMap.AddPath | src/app/sitemap.ts:33-38 | mutating the Map of Sets adds the locale to the path's set, a new path at the end |
| Sitemap.PathMap.AddStatic | src/app/sitemap.ts:40-43 | the loop over the static paths makes their additions in order |
| Sitemap.PathMap.AddSlugs | src/app/sitemap.ts:45-52 | a loop over slugs makes their additions in order |
| Sitemap.BuildSitemap | src/app/sitemap.ts:32-57 | for any resolution of paths, the whole computation is the specified list of entries |
| Sitemap.AddAllMeans | src/app/sitemap.ts:33-52 | the map holds exactly the pairs ever added, each once |
| Sitemap.SiteAdditionsAre | src/app/sitemap.ts:40-52 | exactly what is added: each static path in both languages, and each slug of a language's content under its section |
| Sitemap.OneEntryPerAddition | src/app/sitemap.ts:32-69 | before resolution, exactly one entry per path and locale ever added, whatever order and repetition, with the path and alternates it must have, and no localised path twice |
| Sitemap.AlternatesAreReciprocal | src/app/sitemap.ts:54-69 | before resolution, every language an entry lists has its own entry with that path and the same alternates |
| Sitemap.ResolvedAlternatesAreReciprocal | src/app/sitemap.ts:59-69 | the same of the final URLs, however paths are resolved |
| Sitemap.SiteMapIsSound | src/app/sitemap.ts:10-69 | every path the sources can add is unprefixed, so before resolution there is exactly one entry per addition, whatever the slugs; with kebab-case slugs every URL is the origin followed by its localised path, and no final URL is listed twice |
| OptionSearch.NextEnabledIndex | src/components/layout/client-portal-select.tsx:27-41 | -1 exactly when every option is disabled, else the enabled option fewest moves away, the start considered last |
| OptionSearch.NextEnabledIsUnique | src/components/layout/client-portal-select.tsx:27-41 | that describes one answer only |
| OptionSearch.ThereAndBack | src/components/layout/client-portal-select.tsx:27-41 | forward then back from an enabled option returns to it |
| OptionSearch.EveryIndexIsVisited | src/components/layout/client-portal-select.tsx:32-38 | as many moves as there are options visit every option |
| OptionSearch.SelectionStartsInside | src/components/layout/client-portal-select.tsx:64-66 | there is a selected index exactly when some option is enabled or has the current or fallback value; it is the first index of the selected value |
| OptionSearch.AnswerIsEnabled | src/components/layout/client-portal-select.tsx:27-41 | a search answers -1 exactly when no option is enabled, else an enabled option |
| OptionSearch.OpenFromButton | src/components/layout/client-portal-select.tsx:130-135 | an arrow key on the closed select searches from a valid selection whenever an option is enabled and makes the next enabled option active, else keeps the selection |
| OptionSearch.MoveInList | src/components/layout/client-portal-select.tsx:159-164 | an arrow key in the open list makes the next enabled option active, from the active option or else the selection; -1 exactly when none is enabled |
| AdminPagination.PageWindow | src/components/admin/admin-pagination.tsx:47-67 | the loops compute the specified page count, page and window |
| AdminPagination.PageCountCovers | src/components/admin/admin-pagination.tsx:47 | the page count covers the total and no page but a single one is empty |
| AdminPagination.EveryWindowIsGood | src/components/admin/admin-pagination.tsx:47-67 | for all integers, the window starts at 1, ends at the last page, has at most seven items, holds the current page and its neighbours, has no other page of many and every page of few, and has an ellipsis exactly where at least one page is omitted; the current page is the one asked for, clamped |
| AdminPagination.NumbersIncrease | src/components/admin/admin-pagination.tsx:50-67 | the numbers of a window strictly increase |
| AuthRouting.RedirectIsSafe | src/lib/auth-routing.ts:3-60 | for every request the answer is a path the role may open, never a login path, and asking again gives it back |
| AuthRouting.RedirectKeepsExactly | src/lib/auth-routing.ts:11-60 | exactly which requested paths are kept |
| AuthRouting.RedirectExactly | src/lib/auth-routing.ts:19-60 | where each role is led for each path: the two AI pages for everybody, the client area for clients, the admin area for staff, anything else home |
| AuthRouting.SafeExactly | src/lib/auth-routing.ts:3-9 | which paths are safe: one leading slash, and not the API's |
| AuthRouting.UnderMeans | src/lib/auth-routing.ts:41-47 | a path is under a root if it is the root or goes on from it after a slash |
| AuthRouting.LoginReturnsExactly | src/lib/auth-routing.ts:52-76 | for every role and protected page, the `next` of the login URL leads back to the page with its query exactly when it is in the role's area and not the bare root with a query, else to that root |
| AuthRouting.BareRootLosesItsQuery | src/lib/auth-routing.ts:31-76 | a client sent to sign in from `/client?tab=files` arrives at `/client` |
| AuthRouting.OpenProtected | src/lib/auth-routing.ts:31-50 | which protected pages a role may open, query included |
| AuthRouting.LoginUrlForProtectedPath | src/lib/auth-routing.ts:71-76 | `next` is always a safe internal path; it is the path and query asked for exactly when those are safe, as they are for every protected path, and `/` otherwise |

## Left out

- React: rendering and batching. A setter takes effect at once and an event handler sees the committed state; which effects a change reruns is part of the model.
- Team chat: loading flags, refresh errors and error texts; HTTP and JSON are outcomes chosen by the adversary.
- Team chat: how often polls start. Any number may start at any moment while a thread is shown, which covers every schedule of `useSafePolling` and its pauses.
- Team chat: order among reads. The code orders reads against sends only, so a poll may display an older snapshot than an earlier load did; nothing more is claimed.
- Polling: callbacks that throw or call `pollNow` themselves, and intervals that are negative or not whole numbers.
- LocalTime.LocalOrdinal: the zone is an offset in whole minutes, so sub-minute historical offsets and the twentieth-century rule inside the wall-clock reading (the first years of the first century only) are not modelled.
- LocalTime.IsoText: only the four-digit years that `toISOString` writes without a sign.
- LegalFormat.AddDays: amounts beyond the exact integers of a double.
- `Intl` formatting and every other function of `legal-format.ts`.
- AdminRoutes: lookup by id, groups, labels and icons; the permissions of each role are a parameter.
- SentryPrivacy: the patterns for e-mail addresses and telephone numbers are a parameter, assumed idempotent, adding no query or fragment mark and leaving the truncation text alone; cyclic objects.
- SentryPrivacy.ScrubSentryEvent: the redacted tree is freshly built, so it is treated as a value that local variables reassign; its identity is not modelled.
- Sitemap: how a path resolves against the site's origin is a parameter; an absent database is an empty list of articles.
- AuthRouting: URL encoding; the `next` parameter is kept decoded.
- `groupDashboardNavItems`, `formationReview` and `combineServices` are not modelled.
- Everything else: pages, components, copy, themes, API routes and server services.
