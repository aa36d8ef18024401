# Verification of the proxy broker's core

This project models the parts of the broker that hold state, follow a protocol or take bytes apart, and
proves what they are for. Each part is written twice where the program changes state in place: as steps
on values, about which the theorems are proved over every run or input, and as a class whose methods
update their fields the way the program does and are proved to perform exactly those steps.

- `Options.dfy`, `Protocols.dfy`, `Entities.dfy`: shared values, protocol bit masks, the address record.
- `Rotation.dfy`, `ProxyRotator.dfy`: the active list. Takes, admissions, finished logs, timed removals
  and queue ends are the steps; the history of what was handed out is part of the state. The counter
  `odd` of every entry turns out to be its exact distance to its last take. `AddressSpacing.dfy` looks at
  addresses instead of entries, `WithoutReuse.dfy` at a rotator whose `reuse` is 0. `TakeLaws.dfy` says in
  the entries' own fields what a take, a removal and the order promise, `EntryHistory.dfy` what the
  counters of a listed entry stand for.
- `Refill.dfy`: one fetch at a time per query, its jobs, and paging; `BatchPages.dfy`: which rows the
  batches hold.
- `Ledger.dfy`, `RotatorLog.dfy`: the rating record, blocking, and the fetch filter; a whole log call.
- `ProxyServer.dfy`: header edits of a request and the retry chain, with the environment's answers as an
  arbitrary function; `RetryOverRotation.dfy` composes it with the rotator, so that every choice of the
  chain is a take among arbitrary other steps of the active list. `RetryLaws.dfy` says in the fields of
  the answers which attempts are repeated, what is logged and how a chain ends.
- `Text.dfy`, `Headers.dfy`: first occurrences, lines, trimming; header lists in which the first field
  of a name wins.
- `RequestHelper.dfy`, `HeaderMerge.dfy`, `HttpHeaderTransform.dfy`, `SocketHandle.dfy`,
  `ResponseMonitor.dfy`: splitting, printing, merging and accumulating the heads of messages;
  `HeadLaws.dfy`: TLS markers, status codes and header lines character by character.
- `LevelDetection.dfy`, `LevelPipeline.dfy`: the judge's level detection with its stateful patterns, and
  a request sent through the proxy server to the judge; `LevelLaws.dfy`: what the levels mean for the
  headers received.
- `ProxyValidator.dfy`: version-stamped states, streak counters, protocol masks.

Text is one character per byte, so for ASCII data a buffer equals its `toString()`. Time is an integer
number of milliseconds passed in by the caller. Tables of the database are maps and sequences. A thrown
exception is a result value. Counters that the program keeps as JavaScript numbers are unbounded.

Where the code differs from what it looks like, the code is modelled: the sort key `update_at` is absent
from the entries and separates nothing; the cleanup rule is a conjunction whose first half never decides
(`Rotation.CleanupExact`); the fallback header is removed before it is looked for, so the fallback
connection is never made for a request that came in through the entry points
(`ProxyServer.FallbackNeverHappens`); a CONNECT request whose proxy answers with an error status is logged
as failed and yet not repeated, since only a failed socket counts there (`RetryLaws.RetryLaw`); a header value is cut at its second colon, which loses the port of
a `Host` header (`SocketHandle.PortIsLost`); the repeat counter belongs to the client socket
(`ProxyServer.SessionBudget`); with `reuse` 0 the cool-down counters are unbounded and no entry is ever
handed out twice (`WithoutReuse.BoundNeedsReuse`, `WithoutReuse.HandedOutOnce`); the cool-down protects
entries, and it protects addresses exactly as long as no admission brings back an address that one of the
last `reuse` takes handed out (`AddressSpacing.SafeAdmission`); and the address flags of single headers
are exact only for matches the remembered index has not passed (`LevelDetection.FlagsExactWhen`), although
the level always is.

## Model

| member | source | states |
|---|---|---|
| Rotation.CoolDown | src/libs/proxy/ProxyRotator.ts:395-413 | in every run of takes, admissions, logs, removals and queue ends with `reuse` at least 1: no entry is handed out twice within `reuse + 1` consecutive takes, counters stay in 0..`reuse`, no two entries share a non-zero counter, no address is listed twice |
| Rotation.CounterIsDistance | src/libs/proxy/ProxyRotator.ts:401-413 | in every run a listed entry's counter is the number of takes since it was handed out, or 0 exactly when the last `reuse` takes did not hand it out |
| WithoutReuse.BoundNeedsReuse | src/libs/proxy/ProxyRotator.ts:404-410 | the counters of all runs have a common bound if and only if `reuse` is at least 1, which then is one itself |
| WithoutReuse.CountersGrow | src/libs/proxy/ProxyRotator.ts:404-410 | with `reuse` 0 some run takes a listed entry's counter beyond any given number |
| WithoutReuse.UsedNeverReturns | src/libs/proxy/ProxyRotator.ts:404-410 | with `reuse` 0 a listed entry with a use on record is not handed out after the next take, whatever happens |
| WithoutReuse.HandedOutOnce | src/libs/proxy/ProxyRotator.ts:395-410 | with `reuse` 0 no entry is handed out twice in a whole run |
| WithoutReuse.TakeLawWithoutReuse | src/libs/proxy/ProxyRotator.ts:401-413 | with `reuse` 0 a take stamps the chosen entry, counts used ones on and leaves unused ones idle |
| AddressSpacing.AddressesSpaced | src/libs/proxy/ProxyRotator.ts:197-204 | for `reuse` at least 1: in every run in which no admission appends an address that one of the last `reuse` takes handed out, no address is handed out twice within `reuse + 1` consecutive takes |
| AddressSpacing.SafeAdmission | src/libs/proxy/ProxyRotator.ts:197-204 | for `reuse` at least 1: in a run with only such admissions, a further admission that appends an address leaves every continuation of the same kind spaced if and only if none of the last `reuse` takes handed that address out |
| Rotation.AddressReturnsAtOnce | src/libs/proxy/ProxyRotator.ts:105-109 | the input that shows it: for every `reuse` at least 1 and every rested HTTP proxy, removed by the timer and admitted again it is handed out at the very next take |
| Rotation.TakeMoves | src/libs/proxy/ProxyRotator.ts:395-413 | in every state that keeps the invariant, the list after a take consists exactly of the entries that are not useless, the chosen one stamped, a cooling one advanced by one, all others idle |
| Rotation.AdmittedOnce | src/libs/proxy/ProxyRotator.ts:197-204 | an admission keeps the list as a prefix and leaves exactly one entry with the address |
| Rotation.Availability | src/libs/proxy/ProxyRotator.ts:441-485 | in every run, once more than `reuse` listed entries match the selector and rested 2 s, a take finds one |
| Rotation.BestChoice | src/libs/proxy/ProxyRotator.ts:441-485 | after a take or queue end with only removals since, a take hands out the eligible entry with most successes, then least average duration, then first in the list; it misses only if none is eligible |
| Rotation.CleanupExact | src/libs/proxy/ProxyRotator.ts:727-735 | an entry is cleaned up exactly when it was used over 99 times with a success ratio of at most .15 |
| Rotation.SortIsStableSort | src/libs/proxy/ProxyRotator.ts:707-711 | the list is reordered as lodash promises: sorted, a permutation, and ties keep their order |
| Rotation.FirstEligible | src/libs/proxy/ProxyRotator.ts:441-468 | the found index is the first eligible entry, or the length when there is none |
| TakeLaws.TakeLaw | src/libs/proxy/ProxyRotator.ts:441-468 | for every list, time and selector: a hit is out of cool-down, untouched for 2000 ms, of at most the asked level and duration and of the asked destination; a take misses if and only if no listed entry is all of that |
| TakeLaws.WiderWishHits | src/libs/proxy/ProxyRotator.ts:452-464 | a higher or absent level or speed limit never turns a hit into a miss |
| TakeLaws.LaterTakeHits | src/libs/proxy/ProxyRotator.ts:446-448 | what a take finds now it finds later, while the list stays |
| TakeLaws.SortOrders | src/libs/proxy/ProxyRotator.ts:707-711 | the sorted list goes by counter ascending, then successes descending, then average duration ascending |
| TakeLaws.QueueEndLaw | src/libs/proxy/ProxyRotator.ts:258-266 | the end of a queue run leaves exactly the entries not used over 99 times with a ratio of at most .15, in that order |
| TakeLaws.RemovalLaw | src/libs/proxy/ProxyRotator.ts:105-109 | the removal timer takes out exactly the entries untouched for longer than the offset in seconds |
| EntryHistory.EntryAccounts | src/libs/proxy/ProxyRotator.ts:306-316 | in every run, for every `reuse`: a listed entry's successes and errors are its candidate's plus the logs credited to it since its admission, its average that of the last successful one, its use count and time those of the takes that handed it out since |
| EntryHistory.LogLaw | src/libs/proxy/ProxyRotator.ts:306-316 | one log removes its own entry or raises that entry's successes or errors by one, and touches no other |
| Rotation.RunKeepsInv | src/libs/proxy/ProxyRotator.ts:105-109 | every step keeps identities, addresses and the exactness of all counters, over whole runs |
| Rotation.OddNamesEntry | src/libs/proxy/ProxyRotator.ts:395-413 | in every state that keeps the invariant a non-zero counter value identifies one entry |
| ProxyRotator.ProxyRotator.Take | src/libs/proxy/ProxyRotator.ts:435-485 | the synchronous part of a take returns a listed object that was idle, rested and of the asked level, speed and destination, or null if and only if there is none; it stamps that object, performs the take step on the list and keeps the invariant; a chosen object may have just been cleaned up |
| ProxyRotator.ProxyRotator.UpdateList | src/libs/proxy/ProxyRotator.ts:401-413 | the list becomes the cleaned, ticked and sorted old list, whatever `reuse` is |
| ProxyRotator.ProxyRotator.TickObjects | src/libs/proxy/ProxyRotator.ts:404-410 | every listed object's counter is advanced or reset, nothing else changes |
| ProxyRotator.ProxyRotator.UseAddr | src/libs/proxy/ProxyRotator.ts:395-399 | the object's counter is 1, its use count grew by one, its time is now |
| ProxyRotator.ProxyRotator.CleanupList | src/libs/proxy/ProxyRotator.ts:727-735 | only useless objects leave, order is kept |
| ProxyRotator.ProxyRotator.OrderActiveList | src/libs/proxy/ProxyRotator.ts:707-711 | the objects are put in the stable sort order |
| ProxyRotator.ProxyRotator.FindEligible | src/libs/proxy/ProxyRotator.ts:441-468 | the search loop finds the first eligible object |
| ProxyRotator.ProxyRotator.FindActiveEntry | src/libs/proxy/ProxyRotator.ts:268-275 | returns a listed object with the address, or null exactly when there is none |
| ProxyRotator.ProxyRotator.Admit | src/libs/proxy/ProxyRotator.ts:197-204 | unless an object with its address is listed, a proxy that passed its test request joins the end of the list with the successes, errors and uses of its rating record, or zeros, and the current time; the invariant is kept |
| ProxyRotator.ProxyRotator.FinishLog | src/libs/proxy/ProxyRotator.ts:306-316 | a finished log takes the one object captured when it began out of the list, or raises its successes and sets its average, or raises its errors; no other object changes, also when the object left the list meanwhile |
| ProxyRotator.ProxyRotator.RemoveUnusedProxies | src/libs/proxy/ProxyRotator.ts:105-109 | exactly the objects untouched for longer than the offset in seconds leave; the invariant is kept |
| ProxyRotator.ProxyRotator.OnEmpty | src/libs/proxy/ProxyRotator.ts:258-266 | exactly the useless objects leave and the rest is sorted, without ticking; the invariant is kept |
| ProxyRotator.SnapsKeep | src/libs/proxy/ProxyRotator.ts:107-107 | removing objects in place is removing their values |
| ProxyRotator.SnapsOrder | src/libs/proxy/ProxyRotator.ts:707-711 | sorting objects is sorting their values |
| RotatorLog.DoLog | src/libs/proxy/ProxyRotator.ts:277-330 | a log call updates the record, blocks exactly from over 100 uses with under 15 percent successes, marks for deletion exactly from over 100 without any, and removes the listed object or credits it with the outcome and the average; when the database fails or does not know the address nothing changes |
| Refill.SingleFlight | src/libs/proxy/ProxyRotator.ts:111-176 | in every interleaving a query has at most one running fetch; its counter is -1 exactly when idle, 0 exactly while fetching, n exactly while n jobs are unfinished |
| Refill.StepKeepsInv | src/libs/proxy/ProxyRotator.ts:111-176 | every step keeps the single-flight invariant: registering, enqueuing, each phase of a fetch, finished jobs |
| Refill.FetchStartsWhenIdle | src/libs/proxy/ProxyRotator.ts:115-121 | in every reachable state a fetch starts if and only if the query is cached and nothing of its last batch is outstanding |
| Refill.FetchHolds | src/libs/proxy/ProxyRotator.ts:115-141 | in every interleaving, until a fetch pushes its batch the counter stays 0 and no other fetch for the query starts; it is ready to push exactly when its read has ended |
| Refill.BatchDrains | src/libs/proxy/ProxyRotator.ts:143-172 | in every interleaving after the push, while jobs are unfinished the counter is their number and no fetch for the query runs or can start; the job that finishes last, or the push of an empty batch, sets it to -1 |
| Refill.BatchReturnsToIdle | src/libs/proxy/ProxyRotator.ts:111-176 | every fetch of every reachable state, once its read ended, its batch was pushed and its last job finished, leaves the query idle, whatever else happened in between |
| Refill.DrainsInterleaved | src/libs/proxy/ProxyRotator.ts:151-165 | from every sound state with n unfinished jobs and no fetch, after any events that finish k < n of them exactly n - k are left and no fetch runs |
| Refill.PagingSweep | src/libs/proxy/ProxyRotator.ts:586-592 | over fixed rows and any positive limits, the pages laid end to end are the whole table once per empty page plus the part before the current position |
| Refill.PagingCycle | src/libs/proxy/ProxyRotator.ts:669-681 | with a constant limit the remaining rows come in non-empty pages exactly once, then one empty page resets the query |
| BatchPages.ReadLaw | src/libs/proxy/ProxyRotator.ts:130-148 | in every interleaving, a fetch that reads, closes well and pushes queues one job for each row of the table from its query's position up to the limit, in order; one whose close fails queues none |
| BatchPages.FailedReadLaw | src/libs/proxy/ProxyRotator.ts:130-141 | a fetch whose read fails queues nothing and leaves the position alone |
| BatchPages.BatchesAreOutcomes | src/libs/proxy/ProxyRotator.ts:143-148 | in every interleaving, a query's batches, with the one its running fetch holds, are in number and order what its reads brought |
| BatchPages.OutcomesAreSweep | src/libs/proxy/ProxyRotator.ts:672-689 | over a fixed table the pages a query's fetches read are those of one sweep that starts at row 0 when the query is cached, whatever fails or happens in between |
| BatchPages.BatchesSweepTable | src/libs/proxy/ProxyRotator.ts:586-592 | while reads and closes succeed, a query's batches laid end to end are the whole table once per empty batch and the rows before the current position |
| Refill.FetchRequests.CacheQuery | src/libs/proxy/ProxyRotator.ts:415-432 | an unknown query is registered idle, a known one keeps its counters |
| Refill.FetchRequests.DoEnqueue | src/libs/proxy/ProxyRotator.ts:111-127 | an enqueue performs the step on the records: it starts a fetch and sets the counter to 0 exactly for an idle known query; for a name never cached it throws and changes nothing, since the fetch reads the missing record first (src/libs/proxy/ProxyRotator.ts:586-592) |
| Refill.FetchRequests.FinishRead | src/libs/proxy/ProxyRotator.ts:586-681 | the page starts where the last one ended; position and size move on, or back to the start after an empty page; a good close hands the page on, a failed one nothing |
| Refill.FetchRequests.PushBatch | src/libs/proxy/ProxyRotator.ts:143-172 | the loop queues and counts one job per row and leaves the counter at their number, or -1 for none |
| Refill.FetchRequests.FinishJob | src/libs/proxy/ProxyRotator.ts:151-165 | a finished job is counted down, the last one makes the query idle |
| Ledger.LedgerSummarises | src/libs/proxy/ProxyRotator.ts:348-370 | after any history of uses the record holds their number, successes plus errors, number mod 10, the sum of successful durations and its rounded-up mean |
| Ledger.AverageBetween | src/libs/proxy/ProxyRotator.ts:362-367 | the average lies between the shortest and the longest successful duration |
| Ledger.CeilDiv | src/libs/proxy/ProxyRotator.ts:366-366 | the quotient is rounded up |
| Ledger.IpRotate.DoLog | src/libs/proxy/ProxyRotator.ts:355-370 | one log performs the ledger step on the record |
| Ledger.Hysteresis | src/libs/proxy/ProxyRotator.ts:602-609 | a record passing the fetch filter is not blocked by its next log, and from 100 logs on not before more than 6/5 as many further logs |
| Ledger.IntegerFilterIsStricter | src/libs/proxy/ProxyRotator.ts:606-609 | a record passing the filter with integer division passes it with exact division |
| Ledger.FilterLaw | src/libs/proxy/ProxyRotator.ts:606-609 | the filter passes up to 10 uses, then from 16 percent successes, and from 100 uses on from 34 percent |
| Ledger.FetchLaw | src/libs/proxy/ProxyRotator.ts:602-609 | after any logs an address may be fetched for a protocol if and only if it is neither blocked nor marked and that protocol's uses meet those bounds |
| Ledger.BlockedWhen | src/libs/proxy/ProxyRotator.ts:290-304 | an address is blocked exactly when after one of its logs that protocol's uses were over 100 with under 15 percent successes, marked for deletion exactly when they were over 100 with none |
| Ledger.BlockedForGood | src/libs/proxy/ProxyRotator.ts:602-603 | a blocked address passes the fetch filter never again, whatever is logged |
| ProxyServer.ChainTerminates | src/libs/server/ProxyServer.ts:216-325 | from any counter and header list, against any environment: at most the repeats left plus one proxy rounds, at most one direct attempt and only with a fallback header, counter never over the limit, and the chain is orderly |
| ProxyServer.RetriesExact | src/libs/server/ProxyServer.ts:216-325 | the chain asks again after every failed attempt while repeats are left and in no other case, then connects directly exactly when it may, and finishes exactly when its last attempt worked |
| RetryLaws.RetryLaw | src/libs/server/ProxyServer.ts:216-325 | over every chain: a plain request is repeated after a stored attempt with any error, a CONNECT request after one whose socket failed too, exactly while repeats are left, proxies are on and none is selected; each tried proxy is logged with its handle's error; the end is an error answer, a finish or silence by the last answer, the fallback header and the direct attempt |
| RetryLaws.DirectFlags | src/libs/server/ProxyServer.ts:407-435 | a direct attempt fails by any error of its handle, for CONNECT only together with one of its socket |
| RetryLaws.DirectLaw | src/libs/server/ProxyServer.ts:390-436 | a request that goes over no proxy is connected directly, once, and answered with an error if that fails |
| RetryLaws.NoTargetLaw | src/libs/server/ProxyServer.ts:390-436 | without a target a request is connected directly first |
| RetryLaws.ProxiedLaw | src/libs/server/ProxyServer.ts:340-355 | a request that goes over proxies obeys the retry law with its edited header list |
| RetryLaws.EditLaw | src/libs/server/ProxyServer.ts:145-168 | a field is left by the edit exactly when its name is none of the six selecting ones nor one the level sets, or it is the level's own Via or sender field |
| RetryLaws.FallbackLaw | src/libs/server/ProxyServer.ts:207-213 | the fallback is wanted exactly when the first field of that name has a value |
| ProxyServer.ConnectOrderly | src/libs/server/ProxyServer.ts:272-325 | each dialled proxy is logged exactly once right after it, nothing but the close follows an attempt without an error, the chain closes exactly once |
| ProxyServer.ConnectCounts | src/libs/server/ProxyServer.ts:216-269 | the counter moves by the number of repeats; the k-th dialled proxy is the k-th choice |
| ProxyServer.FallbackNeverHappens | src/libs/server/ProxyServer.ts:390-436 | a request served through the entry points over proxies makes no direct connection, whatever fails |
| ProxyServer.EditedHasNoFallback | src/libs/server/ProxyServer.ts:145-168 | after the request's headers were edited no fallback header is found |
| ProxyServer.SessionBudget | src/libs/server/ProxyServer.ts:446-463 | all requests of one client socket together get one proxy round each plus the repeat limit |
| ProxyServer.Server.ServeRequest | src/libs/server/ProxyServer.ts:340-436 | both entry points run the chain on the handle in place |
| ProxyServer.Server.ConnectToExternProxy | src/libs/server/ProxyServer.ts:272-325 | choosing, dialling, logging and the follow-up, with the handle's counter and headers updated in place |
| ProxyServer.Server.AfterFinishedRequest | src/libs/server/ProxyServer.ts:216-269 | repeat, fall back, answer with an error or finish, by the counter, the options and the header list |
| ProxyServer.Server.ConnectDirectly | src/libs/server/ProxyServer.ts:407-435 | a direct attempt and its follow-up |
| ProxyServer.Server.OnProxyRequest | src/libs/server/ProxyServer.ts:145-168 | the select headers go, and the headers of the level are set in place of older ones |
| ProxyServer.Server.HasFallbackHeader | src/libs/server/ProxyServer.ts:207-213 | true exactly when the first fallback header has a value |
| RetryOverRotation.TriedEntriesDistinct | src/libs/server/ProxyServer.ts:224-227 | in the composition of chain and rotator the entries one request tries are pairwise distinct as long as the takes it made lie within `reuse + 1` consecutive takes, whatever else happens before and between them |
| RetryOverRotation.ComposedDials | src/libs/server/ProxyServer.ts:188-197 | the k-th proxy the composed chain dials is what its k-th take handed out |
| RetryOverRotation.ConsecutiveTakesDistinct | src/libs/server/ProxyServer.ts:255-257 | with a repeat limit of at most `reuse` and no other take between its own, a request never tries an entry twice |
| RequestHelper.BuildAfterParse | src/libs/http/RequestHelper.ts:41-106 | printing a parsed buffer gives the buffer back exactly when it is not TLS and some CRLF precedes its blank line; otherwise printing throws |
| RequestHelper.ParseAfterBuild | src/libs/http/RequestHelper.ts:41-106 | parsing a printed request gives its three parts back if and only if the first line is not TLS and has no CRLF and the header block is non-empty, has no blank line and does not start or end with CRLF |
| RequestHelper.FramedGap | src/libs/http/RequestHelper.ts:55-62 | the lengths of the three slices are never negative, and a header block is never empty |
| RequestHelper.StatusFrom | src/libs/http/RequestHelper.ts:69-77 | the status code is the first run of three digits between blanks |
| HeadLaws.TlsLaw | src/libs/server/SocketHandle.ts:80-83 | a handle takes its connection for TLS exactly when some chunk starts with byte 0x16, 0x80 or 0 |
| HeadLaws.StatusLaw | src/libs/http/RequestHelper.ts:69-77 | the status code is the number of the first three digits between blanks, if there are any |
| HeadLaws.FailureLaw | src/libs/http/RequestHelper.ts:69-77 | a framed plain buffer counts as failed exactly when its status code is at least 400 |
| HeadLaws.FirstChunkLaw | src/libs/server/SocketHandle.ts:88-129 | a fresh handle has an error after its first chunk exactly when that is a complete plain head whose lines all have a colon and whose code is at least 400; it throws exactly when a line has none |
| HeadLaws.KeptLaw | src/libs/http/RequestHelper.ts:112-113 | the merged overrides are all but host and connection, as often as given |
| HeadLaws.KeptGrows | src/libs/http/RequestHelper.ts:112-113 | they keep their order |
| HeadLaws.LineLaw | src/libs/http/RequestHelper.ts:117-121 | a line of a name, white space, a colon and a value is read as that name and the trimmed value, colons included |
| HeadLaws.NoColonLaw | src/libs/http/RequestHelper.ts:117-121 | a line without a colon is read as its own name and value |
| HeadLaws.BadStatusLaw | src/libs/judge/RequestResponseMonitor.ts:267-283 | a head whose first line has three words closes the socket exactly when the second is a three-digit code outside the two hundreds |
| HeadLaws.ShortStatusLaw | src/libs/judge/RequestResponseMonitor.ts:267-283 | a first line of fewer words closes nothing |
| HeaderMerge.AddHeaders | src/libs/http/RequestHelper.ts:109-137 | the header buffer becomes the printed merge, everything else is untouched |
| HeaderMerge.MergeContents | src/libs/http/RequestHelper.ts:112-132 | the merge is the allowed overrides followed by the first line of every other name and nothing else; its names are unique exactly when the overrides' are |
| HeaderMerge.HostStays | src/libs/http/RequestHelper.ts:112-112 | an override for host or connection never wins: the request's own first such line is the only one in the merge |
| HeaderMerge.MergeIdempotent | src/libs/http/RequestHelper.ts:109-137 | merging clean overrides twice is merging them once, if and only if there was a header block or an override to add |
| HeaderMerge.ReadPrinted | src/libs/http/RequestHelper.ts:117-121 | a clean field printed and read as a line is the same field |
| HeaderMerge.ReadIsClean | src/libs/http/RequestHelper.ts:117-121 | whatever line is read, name and value come out trimmed, the name without a colon |
| HttpHeaderTransform.OnlyFirstChunk | src/libs/server/HttpHeaderTransform.ts:28-44 | over any chunk stream at most the first chunk is changed, and none without override headers |
| HttpHeaderTransform.RewritePasses | src/libs/server/HttpHeaderTransform.ts:28-44 | a TLS or incomplete first chunk passes unchanged, whatever the overrides |
| HttpHeaderTransform.RewriteReplacesHeaders | src/libs/server/HttpHeaderTransform.ts:28-44 | any other first chunk is parsed at the far end into the same first line, the merged headers and the same body if and only if no merged override, printed as a line, has a blank line or starts or ends with CRLF |
| HttpHeaderTransform.HeaderTransform.TransformChunk | src/libs/server/HttpHeaderTransform.ts:28-44 | one chunk performs the transform step and remembers that a first chunk was seen |
| SocketHandle.BufferInvariant | src/libs/server/SocketHandle.ts:75-129 | after any chunks the buffer is all chunks before the first TLS one, and once a head was read it is first line, CRLF, header block, blank line and body |
| SocketHandle.RebuildExact | src/libs/server/SocketHandle.ts:148-171 | without edits and TLS the printed request equals the received bytes if and only if every header line is `Name: value`, trimmed, without a colon in the value |
| SocketHandle.RebuildRaw | src/libs/server/SocketHandle.ts:148-156 | without a head, or once TLS was seen, the buffered bytes go out as they came |
| SocketHandle.LineSurvives | src/libs/server/SocketHandle.ts:105-112 | a header line survives reading and printing exactly when it has that form |
| SocketHandle.PortIsLost | src/libs/server/SocketHandle.ts:106-106 | a value with a colon is cut there, for every name, host and port |
| SocketHandle.SocketHandle.OnData | src/libs/server/SocketHandle.ts:75-129 | one data event performs the receive step in place and tells whether it threw |
| SocketHandle.SocketHandle.ReadHeaderLines | src/libs/server/SocketHandle.ts:105-112 | the fields before the first line without a colon are appended; it throws exactly when there is such a line |
| SocketHandle.SocketHandle.Build | src/libs/server/SocketHandle.ts:148-171 | returns the printed request, or the raw buffer when no head was read or TLS was seen |
| SocketHandle.SocketHandle.RemoveHeader | src/libs/server/SocketHandle.ts:131-134 | every field of the name goes, in any case of it; every other field stays as often as it was, and in its order |
| SocketHandle.SocketHandle.SetHeader | src/libs/server/SocketHandle.ts:136-140 | the last field is the new one, no other has its name, and all fields of other names stay as often as they were, in their order |
| ResponseMonitor.HeadOfStream | src/libs/judge/RequestResponseMonitor.ts:248-287 | after any chunks the head is the stream's part before its first blank line, complete exactly when there is one, with all bytes counted and exactly one status check made then |
| ResponseMonitor.CutsAgree | src/libs/judge/RequestResponseMonitor.ts:248-287 | two ways of cutting one stream leave the monitor in the same state |
| ResponseMonitor.RequestResponseMonitor.OnSocketData | src/libs/judge/RequestResponseMonitor.ts:248-287 | one data event performs the step in place |
| LevelDetection.LevelExact | src/libs/judge/LevelDetection.ts:138-210 | after any rounds of adding and detecting, the level is the one a stateless matcher gives for all headers received |
| LevelLaws.LevelLaw | src/libs/judge/LevelDetection.ts:120-210 | after any rounds the next detection reports 3 if and only if a header other than host arrived whose value shows an address of the client, 1 if and only if none arrived that shows client or proxy or is named a via or forward header, and otherwise 2 |
| LevelLaws.MatchLaw | src/libs/judge/LevelDetection.ts:120-135 | the address pattern matches a value if and only if one of its addresses stands in it, in any case, followed by the end, white space or a colon |
| LevelLaws.SearchLaw | src/libs/judge/LevelDetection.ts:120-135 | a search ends after the leftmost such address and the character that follows it, the first alternative counting |
| LevelLaws.AddressWithPortIsSeen | src/libs/judge/LevelDetection.ts:120-125 | a value that ends with the client's address, a colon and anything makes the next detection report 3, in every header but host and after any rounds |
| LevelLaws.LongerAddressIsNotSeen | src/libs/judge/LevelDetection.ts:120-125 | values in which every such address is followed by another character never make it 3 |
| LevelDetection.VerdictMonotone | src/libs/judge/LevelDetection.ts:198-207 | the verdict depends only on which headers there are and never drops as headers are added |
| LevelDetection.DetectExact | src/libs/judge/LevelDetection.ts:167-210 | one detection from any sound state yields the stateless verdict and keeps the state sound, where a pattern standing in mid-value has already counted a match |
| LevelDetection.DetectFlags | src/libs/judge/LevelDetection.ts:167-196 | after a detection every header keeps its earlier flags and gains exactly those its tests yield from the index the headers before it left behind |
| LevelDetection.FlagsExactWhen | src/libs/judge/LevelDetection.ts:174-181 | from any sound flags, one header's flags after a detection are those of a stateless matcher if and only if everything it matches was flagged before or starts at or after the index left by the headers before it |
| LevelDetection.AllFlagsExactWhen | src/libs/judge/JudgeRequest.ts:287-303 | all flags, by which the judge chooses its messages, are exact if and only if that holds for every header |
| LevelDetection.SecondMatchIsMissed | src/libs/judge/LevelDetection.ts:174-181 | two headers with one value whose match uses it up: only the first is flagged, although both match |
| LevelDetection.AddressTwiceIsMissed | src/libs/judge/LevelDetection.ts:174-181 | the input that shows it: two headers that consist of the client's address, for every address |
| LevelDetection.GlobalRegex.Test | src/libs/judge/LevelDetection.ts:158-164 | a test searches from the remembered index and remembers the end of the match, or 0 |
| LevelDetection.Search | src/libs/judge/LevelDetection.ts:120-135 | a search succeeds exactly when some position from its start on matches, with the end of the leftmost match |
| LevelDetection.LevelDetection.AddRecvHeader | src/libs/judge/LevelDetection.ts:138-155 | all headers but host are appended with no flag set |
| LevelDetection.LevelDetection.DetectLevel | src/libs/judge/LevelDetection.ts:167-210 | detection sweeps all headers in place and sets the level |
| LevelPipeline.PipelineLevel | src/libs/server/ProxyServer.ts:157-167 | a request silent about proxies and addresses is judged by what the server adds: level 1 always 1; level 2 is 2 if and only if the Via text does not show the client; level 3 is 3 if and only if sender or Via text does |
| LevelPipeline.PipelineDetected | src/libs/judge/LevelDetection.ts:167-210 | under those conditions the stateful detector reports the server's own level, after any earlier rounds without headers |
| LevelPipeline.OwnAddressMatches | src/libs/judge/LevelDetection.ts:120-125 | an address matches the pattern made of it |
| ProxyValidator.VersionStamping | src/libs/proxy/ProxyValidator.ts:123-194 | after any stores an address's version counts its stores, no state is newer, and the fetch join yields exactly the states of its latest store |
| ProxyValidator.JoinedLaw | src/libs/proxy/ProxyValidator.ts:38-69 | each result of an address's latest store is one joined state with its level and protocols, enabled exactly without an error and with a level of at least 0 |
| ProxyValidator.LastCheckedLaw | src/libs/proxy/ProxyValidator.ts:123-139 | the time of the last check is that of the latest store |
| ProxyValidator.GoodLaw | src/libs/proxy/ProxyValidator.ts:196-214 | a check is good exactly when one of its results has no error and a level of at least 0 |
| ProxyValidator.StreaksAreRuns | src/libs/proxy/ProxyValidator.ts:196-214 | the counters are the lengths of the trailing good and bad runs, the dates the times these runs began, exactly one run is non-empty after the first check |
| ProxyValidator.MasksAreUnions | src/libs/proxy/ProxyValidator.ts:63-66 | a protocol is in a mask exactly when some stored enabled result of the address had it |
| ProxyValidator.Tail | src/libs/proxy/ProxyValidator.ts:196-214 | the trailing run is the longest tail with one outcome |
| ProxyValidator.ProxyValidator.StoreResults | src/libs/proxy/ProxyValidator.ts:123-222 | storing one result set performs the store step on the tables |
| ProxyValidator.ProxyValidator.BuildState | src/libs/proxy/ProxyValidator.ts:38-69 | the state carries the address's version and is enabled exactly for an error-free result with a level; only then the masks grow |
| ProxyValidator.ProxyValidator.NoteOutcome | src/libs/proxy/ProxyValidator.ts:196-214 | one outcome extends its streak and ends the other |
| Protocols.MaskIsSet | src/entities/IpAddr.ts:89-115 | adding or removing a protocol changes membership of that protocol only |
| Protocols.StoredBits | src/libs/specific/ProtocolType.ts:2-5 | bit 0 of a stored mask stands for HTTP, bit 1 for HTTPS |
| Entities.IpAddr.RemoveSourceProtocol | src/entities/IpAddr.ts:93-97 | exactly the given source protocol leaves the mask |
| Entities.IpAddr.RemoveProtocol | src/entities/IpAddr.ts:104-106 | exactly the given target protocol leaves the mask |
| Entities.IpAddr.AddSourceProtocol | src/entities/IpAddr.ts:89-91 | exactly the given source protocol joins the mask, all others are supported as before |
| Entities.IpAddr.AddProtocol | src/entities/IpAddr.ts:100-102 | exactly the given target protocol joins the mask, all others are supported as before |

## Left out

- RotatorLog.DoLog: the database awaits inside one log call are not separate steps; the part that touches the list, ProxyRotator.FinishLog, is proved for an object that may have left the list meanwhile.
- Refill.FetchRequests.DoEnqueue: for a name never cached, the failing fetch and the exception after it are one step; a call without any name fetches without counters and is left out.
- HeaderMerge.AddHeaders: a header name is matched literally, where the source builds a regular expression from it; names with pattern characters are not modelled. The same holds wherever a line of the request is read: HeaderMerge.MergeContents, HeaderMerge.HostStays, HeaderMerge.MergeIdempotent and HttpHeaderTransform.RewriteReplacesHeaders are about names of letters, digits and hyphens.
- Refill.SingleFlight: each queued job finishes exactly once and never synchronously, and the hash that names a query is taken as injective; the startup fetches without a query name keep no counters and are left out.
- LevelDetection.Search: the patterns are address texts compared without regard to ASCII case; name lookups that produce further addresses are parameters.
- LevelPipeline.PipelineDetected: Node's HTTP parser between proxy and judge is taken to deliver each header with its lower-case name and its value.
- ProxyValidator.ProxyValidator.StoreResults: stores of one address do not overlap, and the location record written along is left out.
- ProxyServer.ChainTerminates: bytes piped to the client during an attempt are not modelled, only which attempts are made and how the chain ends.
- RetryOverRotation.ConsecutiveTakesDistinct: entries are distinguished by object, since an address can be removed and admitted again.
- A missed `take` waiting for an admission and taking again: each of its attempts is a take of its own, and in RetryOverRotation a round's earlier attempts are among the steps before its take.
- The selection filters and sort rotation of the database query, apart from the block and rating filter.
- `parseProxyHeader`: the selector is an arbitrary parameter.
- Socket life cycle events (`finish`, timeouts, errors) and the order of Node's event queues; an attempt's outcome is an answer of the environment.
- Log messages, `handleError` and `addLog` of the monitor, non-ASCII text, TLS, DNS, timers and configuration.
- Negative `reuse` and fractional or negative durations.
