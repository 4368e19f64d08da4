# libcurl: queues, cookies, races, pools, globs, resolver and clock

A Dafny model of six parts of libcurl whose correctness rests on an invariant that no single
function shows, with proofs of that invariant over every call, run or interleaving.

- **Byte queue** (`BufqChunk`, `Bufq`, `BufqRuns`; lib/bufq.c). Chunks, queues and the shared pool
  are objects updated in place. A queue is a byte FIFO for every sequence of calls, chunk size,
  limit, option and pool, although emptiness and peeking look at the first chunk only.
- **Happy Eyeballs** (`HappyLists`, `HappyEyeballs`; lib/cf-ip-happy.c). The race as an object with
  its running list, winner and iterators. What the sockets report when polled is a parameter.
- **Connection pool and shutdown list** (`ConnLists`, `ConnPool`, `ConnRuns`; lib/conncache.c,
  lib/cshutdn.c). Ownership over every run, the exact meaning of the limit check, and eviction.
- **Glob matcher** (`FnmatchSpec`, `Fnmatch`; lib/curl_fnmatch.c). The backtracking matcher
  against a language defined by cutting the string into pieces, one per token.
- **Threaded resolver** (`ThreadedResolver`; lib/asyn-thrdd.c). Main thread and workers as
  interleaved steps; counters, result slots and ownership over every run.
- **Cookies** (`CookieText`, `CookieLists`, `CookieOrder`, `CookieHeader`, `CookieJar`,
  `CookieFile`, `CookieStore`, `CookieRuns`; lib/cookie.c). The jar with its 63 buckets, counter and
  noted expiry; what a header may set; what is sent; and the file format, there and back, for one
  cookie and for a whole jar.
- **FILETIME** (`FileTime`; lib/curl_ntlm_core.c). 32-bit limb arithmetic against the 64-bit formula.

Conventions. `mem` says whether allocations succeed. A socket, a worker, a writer or a clock is a
value chosen freely (`*`) or a parameter. Cookies, connections and connect attempts are immutable
records; the lists and tables that hold them, and all their flags that change, are updated in place.

## Where the code does not do what one would expect

Each has a witness and, where there is one, the exact condition.

- A stored cookie path loses one trailing slash each time it is stored: kept exactly if it has none
  (`CookieText.SanitizeKeeps`). Path matching agrees with section 5.1.4 of RFC 6265 on every request
  exactly for cookie paths that are `/` or do not end in a slash (`CookieText.PathMatchAgrees`).
- The index can lose a tail-matched cookie for a domain without a dot: `localhost` is in bucket 53
  and `a.localhost` in bucket 38 (`CookieText.NoDotNoBucket`), so that what the latter sets for the
  former (`CookieRuns.LocalhostLost`) is never sent back to it (`CookieRuns.SetElsewhere`). Of
  cookies set by headers these are the ones for `localhost` or a numeric address, and they are lost
  only for hosts strictly below that domain (`CookieRuns.HeaderFindable`).
- Any host may set a cookie with the domain `:` (`CookieHeader.ColonFits`), which is then for no host
  but `:` and what ends in `.:` (`CookieRuns.ColonForNone`). A domain that is accepted is the host's
  own or one it lies in exactly if it is not that one (`CookieHeader.FitsIff`).
- The comment at lib/cookie.c:892-897 says that `/loginhelper` may be set beside a secure cookie at
  `/login`; the code refuses it (`CookieRuns.LoginHelper`), as it refuses `/a/c` beside `/a/b`
  (`CookieRuns.SecondSegment`). Nothing at or below the path of the secure cookie gets through
  (`CookieRuns.OverlayRefused`). That is all it keeps away exactly if its path is `/`
  (`CookieRuns.OverlayExact`).
- Cookies that tie on all lengths are sent newest first, where section 5.4 of RFC 6265 asks for the
  oldest first (`CookieOrder.NewerFirst`, with cookies in `CookieOrder.TwoOfAKind`). What is sent is
  in the order of that section exactly if, of any two cookies with equally long paths, the older one
  has the longer domain, or an equally long one and the longer name (`CookieOrder.RfcOrderIff`).
- Each save and load turns the ages of cookies round (`CookieStore.Reload`).
- Named classes of a set are not united: `[[:alpha:][:digit:]]` matches no digit
  (`Fnmatch.TwoClasses`). In a set that lists no characters they are exactly if the first class
  tested contains the others (`Fnmatch.UnitedIffNested`); in any set, that is enough
  (`Fnmatch.NestedUnited`). A third group of stars is refused even if the string is in the language
  (`Fnmatch.ThirdGroupRefused`).
- `[[:space:]]` matches blank and tab only (`Fnmatch.SpaceSet`): the code tests for blanks.
- In a cookie file an empty flag counts as set, as does any beginning of the word `TRUE`
  (`CookieFile.LineSays`).
- The shutdown timer is never armed for time still left: it is the smallest time left exactly if
  some time left is negative or all are 0 (`ConnPool.NextExpire`).
- The evaluation of the race may go round for as long as the clock stands still, leaving the race as
  it was (last clauses of `HappyEyeballs.Ballers.Evaluate` and `Decide`): with a time left of 0, which
  by lib/connect.c:63-66 means no limit (`HappyEyeballs.SpinUnlimited`), and with a delay of 0
  (`HappyEyeballs.SpinRestarts`). Otherwise it ends (`HappyEyeballs.Ballers.Run`).
  While connecting the time left is never 0, because lib/connect.c:85-86 turns an exact 0 into -1.

## Model

| member | source | states |
|---|---|---|
| BufqChunk.Chunk.Append | lib/bufq.c:49-61 | a prefix of the input, as long as fits, follows the unread bytes |
| BufqChunk.Chunk.Read | lib/bufq.c:63-82 | what is returned followed by what is left is what was there; an emptied chunk has both offsets at 0 |
| BufqChunk.Chunk.Skip | lib/bufq.c:123-134 | drops min(amount, length) bytes at the front; an emptied chunk has both offsets at 0 |
| BufqChunk.Chunk.Slurp | lib/bufq.c:84-104 | appends a prefix of what the reader has, at most the limit and the room |
| Bufq.Pool.Take | lib/bufq.c:156-184 | a chunk leaves the pool or is new; the pool's counter stays the length of its list |
| Bufq.Pool.Put | lib/bufq.c:186-198 | a chunk joins the pool unless that is full; never more than the pool's limit of spares |
| Bufq.Queue.constructor | lib/bufq.c:206-233 | an empty, intact queue with the given limit, options and pool |
| Bufq.Queue.Reset | lib/bufq.c:243-253 | the content is gone, every chunk is kept as a spare |
| Bufq.Queue.Len | lib/bufq.c:255-264 | the length of the content |
| Bufq.Queue.HeadFirst | lib/bufq.c:266-269 | in an intact queue the first chunk is empty exactly if the content is, and shows a prefix of it |
| Bufq.Queue.IsEmpty | lib/bufq.c:266-269 | true exactly if the content is empty, although only the first chunk is looked at |
| Bufq.Queue.IsFull | lib/bufq.c:271-281 | true exactly if no room is left, room being that of the tail and of the chunks still allowed |
| Bufq.Queue.RoomIs | lib/bufq.c:271-281 | under a hard limit the room is that of the tail and chunk size times the chunks still allowed |
| Bufq.Queue.GetSpare | lib/bufq.c:283-316 | a chunk of the queue's own spares, of the pool or new; none only at the hard limit or without memory |
| Bufq.Queue.DropHead | lib/bufq.c:322-343 | the first chunk goes to the pool or, if that is full, is freed; without a pool it is freed above the limit or without spares, and is kept otherwise; nothing else moves and none is lost |
| Bufq.Queue.PruneHead | lib/bufq.c:318-344 | drops empty chunks at the front, each as in `DropHead`; the content is the same |
| Bufq.Queue.GetTail | lib/bufq.c:346-365 | a tail with room, linked last if it is new; the content is the same |
| Bufq.Queue.Write | lib/bufq.c:367-392 | appends exactly the first n bytes; n is min(length, room) under a hard limit and everything under a soft one; the code returned says which |
| Bufq.Queue.Read | lib/bufq.c:401-415 | removes and returns exactly the first min(length, content) bytes |
| Bufq.Queue.Peek | lib/bufq.c:423-436 | shows a non-empty prefix of the content exactly if there is content, which is unchanged |
| Bufq.Queue.PeekAt | lib/bufq.c:438-459 | shows bytes of the content from the offset on exactly if there are any |
| Bufq.Queue.Skip | lib/bufq.c:461-470 | drops exactly the first min(amount, content) bytes |
| Bufq.Queue.Pass | lib/bufq.c:472-502 | for any writer: bytes emitted followed by bytes left are the old content; it ends, and with content left only if the writer failed or took nothing when last called |
| Bufq.Queue.WritePass | lib/bufq.c:504-551 | for any writer: bytes emitted followed by bytes left are the old content followed by the accepted input, whose length is reported unless memory ran out; the loop ends |
| Bufq.Queue.Sip | lib/bufq.c:553-577 | appends what one read gives, within the limit |
| Bufq.Queue.Slurp | lib/bufq.c:579-613 | appends what repeated reads give, in order and within the limit; ends at the limit, at a read that fails, gives nothing or leaves room in the tail; a block after some bytes is no block |
| BufqRuns.Apply | lib/bufq.c:367-613 | for each kind of call: what the caller sees, what is added and what is removed, in content and in length; old content followed by what was added is what was removed followed by the content |
| BufqRuns.ApplyShared | lib/bufq.c:156-198 | a call on one queue over a pool leaves the content of every other queue as it was, and loses no chunk |
| BufqRuns.OnePlace | lib/bufq.c:156-198 | each chunk ever made is in the pool, freed, or in the head or spare list of one queue, and in one of these only |
| BufqRuns.Run | lib/bufq.c:156-613 | after any script of calls on queues sharing a pool, with one event per call: each call sees and does what it should to the content the events before lead to, a write under a hard limit accepts min(length, room), the final content is what all events lead to, and each chunk is in exactly one place |
| BufqRuns.RunAlone | lib/bufq.c:218-613 | the same for a queue without a pool, each of whose chunks is in its head list, in its spare list or freed, and in one of these only |
| BufqRuns.ExplainsAt | lib/bufq.c:367-613 | any event of such a run is explained by its call and the events before it |
| HappyLists.EveryStart | lib/cf-ip-happy.c:137-150 | each address started is the next of its family's list, below the number known, and from the other family than the one before if both families had some left |
| HappyLists.NeverTwice | lib/cf-ip-happy.c:137-150 | no address is started afresh twice |
| HappyLists.NoneSkipped | lib/cf-ip-happy.c:137-150 | every address below the iterator was started |
| HappyLists.OneAttempt | lib/cf-ip-happy.c:490-523 | no two attempts are made for one address |
| HappyLists.FailsForGood | lib/cf-ip-happy.c:245-287 | an attempt that failed stays as it is however often it is polled, and is inconclusive exactly if the result was the weird one |
| HappyLists.StartsOver | lib/cf-ip-happy.c:289-317 | a restarted attempt is for the same address, and otherwise what the new report alone says |
| HappyEyeballs.Ballers.Clear | lib/cf-ip-happy.c:319-332 | everything that was running, and the winner, is freed once |
| HappyEyeballs.Ballers.PollAt | lib/cf-ip-happy.c:245-287 | the attempt becomes what the socket's report makes of it, and no other changes |
| HappyEyeballs.Ballers.Win | lib/cf-ip-happy.c:416-430 | one winner, nothing running, and every other attempt freed once |
| HappyEyeballs.Ballers.CheckRunning | lib/cf-ip-happy.c:408-437 | with what each socket reports: the winner is the first attempt that is up and all others are freed; if none is, each attempt is what its report makes of it and the two counts are exact |
| HappyEyeballs.Ballers.Prune | lib/cf-ip-happy.c:362-389 | discards the oldest ongoing attempts until at most the limit is left, each freed once |
| HappyEyeballs.Ballers.NextFamily | lib/cf-ip-happy.c:467-484 | the families take turns while both have addresses; none is due exactly if both lists are exhausted |
| HappyEyeballs.Ballers.TakeAddress | lib/cf-ip-happy.c:137-150 | the next index of the family is taken, and logged with the numbers of addresses known of each family |
| HappyEyeballs.Ballers.Create | lib/cf-ip-happy.c:490-523 | room is made first, by discarding the oldest ongoing attempts and no others, so that at most the limit is ongoing; the new attempt, last in the list, is for the address just taken; one that fails to be set up is freed at once |
| HappyEyeballs.Ballers.Restart | lib/cf-ip-happy.c:289-317 | the first inconclusive attempt of the list, and no other, is reset and polled, only when none is ongoing |
| HappyEyeballs.Ballers.DoMore | lib/cf-ip-happy.c:461-549 | if an address is left, the next one is started; or else a restart that is due is done; or else nothing |
| HappyEyeballs.Ballers.Evaluate | lib/cf-ip-happy.c:407-597 | connected exactly if some attempt is up after its report; otherwise an address or a restart that is due is started, and only if none is does it rest: giving up exactly if both lists are exhausted, DNS resolved and nothing ongoing or inconclusive, timing out exactly if the time is over and it does not give up; evaluating again is preceded by progress if the delay is positive and the time left is not 0; a race that spins is evaluated again, is as it was and still spins |
| HappyEyeballs.Ballers.Decide | lib/cf-ip-happy.c:438-597 | the same from the state after polling: which address is started, from which family, with which attempts kept; and it evaluates again with the race as it was exactly if a restart is due that changes nothing, or it waits for an attempt with an address left and a time left of 0 |
| HappyEyeballs.Ballers.Run | lib/cf-ip-happy.c:391-597 | the goto loop ends, by addresses left and restarts due, whatever the sockets report, with a still clock, a positive delay and a time left other than 0; then nothing is due, and it gave up exactly if nothing is left to try |
| HappyEyeballs.SpinUnlimited | lib/cf-ip-happy.c:563-593 | a race that spins, with a time left of 0 and a positive delay |
| HappyEyeballs.SpinRestarts | lib/cf-ip-happy.c:519-541 | another one, with a delay of 0 and time left |
| HappyEyeballs.Happen | lib/cf-ip-happy.c:391-597 | after every event the limit on ongoing attempts holds, at most one address was started, logged with the numbers known; what was due was started, and the outcome says what state the race is in |
| HappyEyeballs.Race | lib/cf-ip-happy.c:319-597 | over every run and clock: every attempt is for the address its number has in the log, which is in list order, without gap or repetition, and by turns while the addresses that events brought before that start leave some of both families; after each event at most the limit is ongoing; there is a winner exactly if an evaluation said so; it is given up only when every address that had come in was tried; every attempt is freed exactly once |
| ConnLists.AddToAdds | lib/conncache.c:90-97 | a bundle found or made for the destination gains the connection; bundles stay non-empty and keyed |
| ConnLists.RemoveFromFlat | lib/conncache.c:99-106 | exactly one occurrence leaves the pool |
| ConnLists.RemoveFromKeyed | lib/conncache.c:154-181 | no bundle is left empty, and each holds its own destination only |
| ConnLists.InOwnBundle | lib/conncache.c:147-152 | a pooled connection is in the bundle of its own destination |
| ConnLists.LiveCount | lib/conncache.c:411-413 | the size of the destination's bundle is the number of pooled connections to it |
| ConnPool.Pool.Add | lib/conncache.c:483-516 | a new id, one more connection in its destination's bundle, nothing else moved |
| ConnPool.Pool.RemoveConn | lib/conncache.c:162-182 | exactly that connection leaves its bundle, which goes too if emptied; one that is not in the pool changes nothing |
| ConnPool.Pool.DestroyOldest | lib/cshutdn.c:167-193 | the first connection in shutdown (to the destination), and no other, leaves the list and is freed, or there is none |
| ConnPool.Pool.ShutdownAdd | lib/cshutdn.c:395-424 | a connection goes last on the shutdown list, from which the oldest is closed first exactly if the total is reached; it is freed instead exactly if its events fail |
| ConnPool.Pool.Discard | lib/conncache.c:184-229 | a connection in hand is freed if aborted, connect-only or shut down at once, and goes to the shutdown list otherwise |
| ConnPool.Pool.ConnTerminate | lib/conncache.c:652-702 | an in-use connection that is not aborted stays; any other, in the pool or not, goes to shutdown or is freed, and is freed at once if aborted or connect-only |
| ConnPool.Pool.Evict | lib/conncache.c:374-384 | exactly one idle connection leaves the pool, for shutdown or freed |
| ConnPool.Pool.OldestInBundle | lib/conncache.c:308-334 | an idle connection no other of the bundle has been idle longer than, or none is idle |
| ConnPool.Pool.OldestInPool | lib/conncache.c:336-368 | the same over all bundles, leaving out those marked to close or connect-only |
| ConnPool.Pool.EaseDest | lib/conncache.c:409-448 | ends; nothing is closed if there is room for the destination, and on success no more than needed; evictions are in turn, the longest idle to it first, and only after all to it in shutdown were closed; failure is that nothing to it is in shutdown and nothing idle was last used by now |
| ConnPool.Pool.EaseTotal | lib/conncache.c:450-476 | ends; the same for the total and all connections fit for reuse |
| ConnPool.Pool.CheckLimits | lib/conncache.c:386-481 | ends; with room under both limits nothing changes; on success one limit has room for just one more; each connection evicted was the longest idle to the destination, or of all, among those left, and what was in shutdown there had been closed before; no in-use connection is evicted; OK, DEST and TOTAL mean exactly what they should about both limits and what is left to close |
| ConnPool.Pool.NowIdle | lib/conncache.c:570-610 | at most one connection leaves, the longest idle one fit for reuse, and only above the limit; none leaves above it only if there is no such one; the answer says whether this one was kept |
| ConnPool.Pool.NwChanged | lib/conncache.c:862-892 | the reaping loop ends, every connection left is in use and marked no-reuse, and none that was in use is gone |
| ConnPool.Pool.Perform | lib/cshutdn.c:228-260 | finished connections leave the shutdown list and are freed once |
| ConnPool.Pool.TerminateAll | lib/cshutdn.c:266-317 | the shutdown list is empty and every connection ever added is pooled or freed, once |
| ConnPool.NextExpire | lib/cshutdn.c:235-263 | the timer value is never positive, and when it is the smallest time left |
| ConnRuns.GetConn | lib/conncache.c:786-818 | the pooled connection with the id, none exactly if there is none |
| ConnRuns.Run | lib/conncache.c:90-702 | over every run, each connection added is in exactly one place; the counter is the sum of the bundle sizes; no bundle is empty |
| FnmatchSpec.DerivesIsLanguage | lib/curl_fnmatch.c:251-344 | matching token by token is membership in the language defined by cuts of the string |
| FnmatchSpec.OneCharacter | lib/curl_fnmatch.c:251-344 | the language of a pattern of one character: all strings, all of length one, or that character |
| Fnmatch.ParseKeyword | lib/curl_fnmatch.c:69-122 | succeeds exactly where a class name and `:]` stand, and marks that class |
| Fnmatch.DigitSet | lib/curl_fnmatch.c:99-121 | `[[:digit:]]` is a set, with exactly 0 to 9 as members |
| Fnmatch.AlnumSet | lib/curl_fnmatch.c:99-121 | `[[:alnum:]]` is a set, with exactly 0 to 9, A to Z and a to z as members |
| Fnmatch.AlphaSet | lib/curl_fnmatch.c:99-121 | `[[:alpha:]]` is a set, with exactly A to Z and a to z as members |
| Fnmatch.XdigitSet | lib/curl_fnmatch.c:99-121 | `[[:xdigit:]]` is a set, with exactly 0 to 9, A to F and a to f as members |
| Fnmatch.PrintSet | lib/curl_fnmatch.c:99-121 | `[[:print:]]` is a set, with exactly 9 to 13 and blank to `~` as members |
| Fnmatch.GraphSet | lib/curl_fnmatch.c:99-121 | `[[:graph:]]` is a set, with exactly 9 to 13 and `!` to `~` as members |
| Fnmatch.SpaceSet | lib/curl_fnmatch.c:315-316 | `[[:space:]]` is a set, with exactly blank and tab as members |
| Fnmatch.BlankSet | lib/curl_fnmatch.c:99-121 | `[[:blank:]]` is a set, with exactly blank and tab as members |
| Fnmatch.UpperSet | lib/curl_fnmatch.c:99-121 | `[[:upper:]]` is a set, with exactly A to Z as members |
| Fnmatch.LowerSet | lib/curl_fnmatch.c:99-121 | `[[:lower:]]` is a set, with exactly a to z as members |
| Fnmatch.OtherSet | lib/curl_fnmatch.c:69-122 | any other word in its place stands for the characters it is written with |
| Fnmatch.Escaped | lib/curl_fnmatch.c:291-296 | after a backslash any character stands for itself alone |
| Fnmatch.SetCharOrRange | lib/curl_fnmatch.c:137-156 | marks one character, or exactly those between the ends of a range within one class |
| Fnmatch.SetCharset | lib/curl_fnmatch.c:159-249 | accepts exactly the well-formed sets, with exactly their marks |
| Fnmatch.Enumeration | lib/curl_fnmatch.c:159-249 | a set of plain characters has exactly those as members |
| Fnmatch.Complement | lib/curl_fnmatch.c:159-249 | a negated set of plain characters has exactly the others as members |
| Fnmatch.Range | lib/curl_fnmatch.c:137-156 | a range set has exactly the characters between its ends as members |
| Fnmatch.EscapedRange | lib/curl_fnmatch.c:137-156 | so has one whose end is written with a backslash |
| Fnmatch.BracketFirst | lib/curl_fnmatch.c:159-249 | a right bracket that comes first is a member |
| Fnmatch.UnitedIffNested | lib/curl_fnmatch.c:303-327 | in a set without listed characters, negated or not, membership is that of the union of its classes exactly if the first class tested contains the others |
| Fnmatch.NestedUnited | lib/curl_fnmatch.c:303-327 | in any set, that is enough |
| Fnmatch.TwoClasses | lib/curl_fnmatch.c:303-327 | a pattern with two classes that misses members of one of them |
| Fnmatch.StarStar | lib/curl_fnmatch.c:265-276 | two stars in a row mean one |
| Fnmatch.StarAny | lib/curl_fnmatch.c:270-273 | a question mark in a group can be taken at once |
| Fnmatch.AfterGroup | lib/curl_fnmatch.c:277-282 | what follows a group of stars matches some suffix of the string, and never the empty one |
| Fnmatch.Loop | lib/curl_fnmatch.c:251-344 | the search ends and is true exactly if the rest of the string is in the language of the rest of the pattern, within the star groups allowed |
| Fnmatch.FnMatch | lib/curl_fnmatch.c:349-358 | match exactly if every set is well formed, there are at most two star groups, and the string is in the language; an error exactly for missing arguments |
| Fnmatch.ThirdGroupRefused | lib/curl_fnmatch.c:262-264 | a pattern with three star groups whose language has the string |
| ThreadedResolver.StepKeeps | lib/asyn-thrdd.c:276-300 | every step of main thread or worker keeps the books and the ownership of items |
| ThreadedResolver.SendKeeps | lib/asyn-thrdd.c:599-675 | so does sending a query, accepted or not |
| ThreadedResolver.DispatchBooks | lib/asyn-thrdd.c:550-584 | so does dispatching an answer, whose slot is free |
| ThreadedResolver.TeardownKeeps | lib/asyn-thrdd.c:258-300 | so does tearing a resolve down at any time |
| ThreadedResolver.RunKeeps | lib/asyn-thrdd.c:276-763 | so does every interleaving |
| ThreadedResolver.CounterExact | lib/asyn-thrdd.c:550-626 | in every run the counter of a live resolve is its items queued, in a worker or awaiting dispatch; done means answered and none outstanding |
| ThreadedResolver.SlotFilledOnce | lib/asyn-thrdd.c:550-584 | no result slot is filled twice, and done comes with the last answer |
| ThreadedResolver.NegativeExact | lib/asyn-thrdd.c:719-763 | a negative answer is recorded exactly if every A and AAAA query asked for came back negative |
| ThreadedResolver.AllAsked | lib/asyn-thrdd.c:599-675 | in every run, once a start has ended with no query refused, the queries in flight or answered are exactly those asked for, less AAAA if A is asked for an IPv4 address; done means that there are such queries and all are answered |
| ThreadedResolver.TeardownClears | lib/asyn-thrdd.c:258-300 | a torn-down resolve has no item in either queue; only workers may still hold some |
| ThreadedResolver.OneOwner | lib/asyn-thrdd.c:276-584 | in every run each item made is in one queue, worker, slot or freed, and once |
| CookieText.TailMatchIsDomainMatch | lib/cookie.c:74-101 | for a host name, the suffix test is domain matching of section 5.1.3 of RFC 6265 |
| CookieText.PathMatchAgrees | lib/cookie.c:107-157 | for which cookie paths the test is path matching of section 5.1.4, on every request path |
| CookieText.SanitizeKeeps | lib/cookie.c:227-249 | exactly which paths are stored unchanged |
| CookieText.LastDot | lib/cookie.c:162-180 | the last dot |
| CookieText.HashDomain | lib/cookie.c:191-210 | the loop computes the hash, on 64 bits |
| CookieText.BucketFolds | lib/cookie.c:212-222 | domains that differ in case share a bucket |
| CookieText.TopOfHost | lib/cookie.c:162-180 | a host below a domain with a dot has the same last two labels, case aside |
| CookieText.BucketBelow | lib/cookie.c:162-222 | and is in the same bucket |
| CookieText.NoDotNoBucket | lib/cookie.c:162-222 | `localhost` is in bucket 53 and a host below it in bucket 38 |
| CookieLists.SweepLeaves | lib/cookie.c:274-316 | a sweep leaves exactly the cookies that have not expired |
| CookieLists.LastingLeaves | lib/cookie.c:1430-1451 | without session cookies, exactly those with an expiry are left |
| CookieLists.ReceivedCounted | lib/cookie.c:946-1068 | replacing or adding a cookie keeps counter, stamps and keys right |
| CookieLists.ThinCounted | lib/cookie.c:299-312 | so does removing cookies |
| CookieHeader.Capped | lib/cookie.c:53-62 | an expiry is at most 400 days and half a minute away, and unchanged if within 400 days |
| CookieHeader.AgeWins | lib/cookie.c:530-587 | a max-age beats every expires, before or after it: one of n seconds gives now plus n, cut to 400 days, and none, 0 or less an expiry long past |
| CookieHeader.ExpiryLives | lib/cookie.c:530-587 | the last max-age decides, or else the first date that parses, which is kept if within 400 days; with neither it is a session cookie |
| CookieHeader.AgeExpires | lib/cookie.c:530-560 | a cookie whose last max-age is up to 400 days has expired exactly when that many seconds have passed; one of 0, less or no number has expired from time 2 on; a longer one lasts 400 days to the minute |
| CookieHeader.NoAgeNoExpiry | lib/cookie.c:562-587 | without max-age, a cookie lasts exactly if some date parses |
| CookieHeader.Directory | lib/cookie.c:388-396 | the request path up to its last slash |
| CookieHeader.SetDomain | lib/cookie.c:477-528 | a domain is accepted exactly if it fits the host, or is `:` |
| CookieHeader.ColonFits | lib/cookie.c:493-518 | any host may set a cookie for the domain `:` |
| CookieHeader.FitsIff | lib/cookie.c:493-518 | a domain that is accepted is the host's own or one it lies in exactly if it is not `:` |
| CookieHeader.FitsExactly | lib/cookie.c:477-528 | which domains are accepted: `:`, and those the host matches that have a dot before their last character or are `localhost`; for a numeric address only itself |
| CookieHeader.Parse | lib/cookie.c:373-668 | a header is turned down exactly for an empty name, too much text, or an attribute that rejects it; otherwise the cookie says what the attributes say, with the expiry they give, is for the host's own domain, one above it or `:`, and is not secure if that is not allowed |
| CookieJar.Jar.constructor | lib/cookie.c:1100-1117 | an empty, intact jar |
| CookieJar.Jar.RemoveExpired | lib/cookie.c:274-316 | with its early exit, the same jar as a full sweep; the noted time bounds every expiry |
| CookieJar.Jar.FindReplaced | lib/cookie.c:860-949 | refused exactly if some cookie of the bucket is a reason to; otherwise finds the one with the same key |
| CookieJar.Jar.Add | lib/cookie.c:974-1084 | the whole new jar: swept, and the cookie in its bucket in the place of the one with its key, whose stamp it takes over, unless refused; the jar stays intact |
| CookieJar.Jar.OnePerKey | lib/cookie.c:913-961 | no two cookies of a jar have the same name, domain up to case, tail matching and path |
| CookieJar.Jar.OnePerStamp | lib/cookie.c:1030-1030 | no two cookies of a jar have the same creation stamp |
| CookieJar.Jar.GetList | lib/cookie.c:1300-1400 | exactly the wanted cookies that have not expired, at most 150 of them, in the order to send; for an indexed jar, what a scan of all buckets gives |
| CookieJar.Jar.ClearAll | lib/cookie.c:1407-1423 | an empty jar that is still intact |
| CookieJar.Jar.ClearSession | lib/cookie.c:1430-1451 | exactly the session cookies are gone |
| CookieOrder.OrdersAreTotal | lib/cookie.c:1238-1280 | both sort orders are strict and total on cookies with distinct stamps |
| CookieOrder.OrderIsUnique | lib/cookie.c:1379-1379 | so that any sort gives the same list |
| CookieOrder.SortInOrder | lib/cookie.c:1379-1379 | the list sent is in that order |
| CookieOrder.RfcOrderIff | lib/cookie.c:1238-1267 | when the list sent is in the order of section 5.4 of RFC 6265 |
| CookieOrder.NewerFirst | lib/cookie.c:1266-1267 | two cookies that tie on lengths are sent the newer first, against that section |
| CookieOrder.TwoOfAKind | lib/cookie.c:1266-1267 | two such cookies |
| CookieOrder.Collect | lib/cookie.c:1325-1358 | the first 150 wanted cookies of a bucket, in its order |
| CookieOrder.ForHostIsDomainMatch | lib/cookie.c:1330-1333 | for a tail-matched cookie and any host, numeric or not, the test made is domain matching of section 5.1.3, and equality for others |
| CookieOrder.InHostBucket | lib/cookie.c:1300-1344 | an indexed cookie for a host is in the host's bucket |
| CookieOrder.OneBucket | lib/cookie.c:1325-1358 | the host's bucket gives exactly what all 63 buckets would |
| CookieFile.ReadNumber | lib/curlx/strparse.c:171-211 | the number a text begins with, with an exact overflow test |
| CookieFile.NumberRoundTrip | lib/curlx/strparse.c:171-211 | a printed time is read back exactly if it is not negative |
| CookieFile.FieldsJoin | lib/cookie.c:704-707 | joined fields come apart again |
| CookieFile.ParseLine | lib/cookie.c:670-801 | the field loop reads exactly what the line says, missing path and blank value included |
| CookieFile.LineSays | lib/cookie.c:704-801 | what a line of seven fields means, field by field; a flag is set by any beginning of the word in any case |
| CookieFile.MissingPath | lib/cookie.c:727-740 | a line of six fields without a path gives the path `/` |
| CookieFile.PrintIs | lib/cookie.c:1472-1495 | the layout of a printed line, with its words |
| CookieFile.RoundTrip | lib/cookie.c:670-801 | a printed cookie is read back with all it had exactly if its domain, path, expiry, text and flags are as described |
| CookieStore.Gather | lib/cookie.c:1545-1559 | the array sized by the counter is never overrun and holds exactly the cookies with a domain |
| CookieStore.Save | lib/cookie.c:1507-1572 | the lines of all unexpired cookies with a domain, the newest first |
| CookieStore.Load | lib/cookie.c:1129-1200 | an intact jar after any file; and for printed cookies with distinct keys, each in its bucket in the order of the lines |
| CookieStore.Reload | lib/cookie.c:1129-1572 | a jar of writable cookies, saved and loaded, has exactly the same cookies in the same buckets, with their ages turned round |
| CookieStore.AgesReversed | lib/cookie.c:1274-1280 | by its place in the file, the newer of two cookies gets the lower stamp |
| CookieRuns.SecureStays | lib/cookie.c:860-912 | an insecure cookie from an insecure origin removes no secure cookie |
| CookieRuns.NoneOverlaid | lib/cookie.c:868-912 | nor comes to lie at or below the path of one with its name and a related domain |
| CookieRuns.OverlayRefused | lib/cookie.c:886-911 | what is at or below the path of a secure cookie is refused |
| CookieRuns.OverlayExact | lib/cookie.c:886-911 | the cookies a secure one keeps away are just those at or below its path exactly if that is `/` |
| CookieRuns.LoginHelper | lib/cookie.c:892-911 | a path that the comment allows and the code refuses |
| CookieRuns.SecondSegment | lib/cookie.c:899-911 | a path beside that of the secure cookie, in the same first segment, is refused |
| CookieRuns.MustStore | lib/cookie.c:860-961 | a cookie set by a header is stored if each one of its bucket has another name, or is not secure (or the new one is, or comes from a secure origin), or has a domain that matches neither way; of those only the one with its name, path and domain goes |
| CookieRuns.PrefixSays | lib/cookie.c:1009-1025 | a cookie let in is secure if its name begins with `__Secure-` or `__Host-`, and in the latter case of one host and for all paths |
| CookieRuns.SetCookie | lib/cookie.c:454-475 | in a running jar a header from an insecure origin removes no unexpired secure cookie and overlays none; what is stored is what the header says, and what the prefix of its name promises |
| CookieRuns.SetterSees | lib/cookie.c:477-528 | the host that sets a cookie is one the cookie is for, unless its domain is `:`, and looks in the cookie's bucket if that is indexed or the host is its domain |
| CookieRuns.HeaderFindable | lib/cookie.c:320-335 | which cookies set by headers the index may lose: tail matched for localhost or a numeric address, and set by a host below that |
| CookieRuns.ColonForNone | lib/cookie.c:1330-1333 | exactly which hosts a cookie for the domain `:` is for, none of them a host name |
| CookieRuns.SetElsewhere | lib/cookie.c:1300-1344 | a cookie that a host sets for a domain other than itself, in another bucket, is for the host unless the domain is `:`, but is never sent back to it |
| CookieRuns.LocalhostLost | lib/cookie.c:320-335 | `a.localhost` may set a cookie for `localhost`, which is in another bucket |
| CookieRuns.SetThenSend | lib/cookie.c:974-1400 | a cookie a host sets is sent back to it exactly if it is for the host, not expired, allowed and below its path, if the index does not lose it |
| CookieRuns.Live | lib/cookie.c:974-1572 | every jar that any operations at any times lead to is intact: places, counter, stamps, keys and noted time |
| FileTime.Carry | lib/curl_ntlm_core.c:480-483 | the wrapped sum and the carry read off it |
| FileTime.NextByte | lib/curl_ntlm_core.c:474-484 | multiplying one more byte while the word is being updated keeps the total right and the high word in range |
| FileTime.Bias | lib/curl_ntlm_core.c:456-469 | the time shifted to 1601, as two words |
| FileTime.Limbs | lib/curl_ntlm_core.c:446-487 | for every 32-bit time, signed or not, the two words of (t + 11644473600) * 10000000, with every product within 32 bits |

## Left out

- Sockets, polling, TLS, system resolver calls, signals and logging: replaced by arbitrary results or left out.
- Allocation failure: `mem` covers the byte queue; cookies, connections and resolver items are taken to be allocated.
- Bufq.Queue.WritePass: after memory runs out the reported length may be less than what was accepted, as in the code.
- Bufq.Queue.Slurp: the reader has finitely many bytes to give; one that never ends is not modelled.
- Curl_bufq_free and Curl_bufcp_free, and views that outlive the call that gave them.
- A chunk's buffer is a value inside the chunk object, as it lies inside the C struct.
- HappyEyeballs.Ballers.Run: leaves out a delay of 0 and a time left of 0, which means no limit and does not occur while connecting; for both there are races in which the loop does not end while the clock stands still. `Evaluate`, `Happen` and `Race` have no such condition.
- Builds without IPv6, and what shutdown and query callbacks of the race do.
- ConnPool.Pool.TerminateAll: the clock is a bound on the rounds; waiting between rounds is left out.
- Curl_cpool_prune_dead, upkeep and Curl_cpool_destroy, which rest on code not modelled here or add little.
- HTTPS-RR queries of the resolver; the worker queue is taken to deliver each accepted item at most once.
- Splitting a header line into attributes with its filter of control bytes, the date parser, and numeric address recognition: header attributes are values, dates are parsed or not, and addresses are told by any function that is blind to letter case.
- `Set-Cookie:` lines in files, and so the reading back of a domain that begins with that word; the length limit on lines.
- Builds with libpsl: the model is the build without it, where lib/cookie.c:320-335 stands in.
- The limit of 50 cookies per response, and wrap-around of the creation stamp.
- Characters above 127 in a domain are hashed as if `char` were unsigned.
- CookieHeader.Parse: admits the domain `:`, as the code does.
- CookieText.BucketBelow: one way only; whether a domain without a dot shares a bucket with a host depends on the hash of both.
- CookieJar.Jar.GetList: above 150 matches, which ones are sent depends on the order of the bucket.
- Alt-Svc, HSTS, proxies, content encodings, DES keys and the rest of the library.
