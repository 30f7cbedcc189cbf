# DNS ad-blocker: a verified model

The repository is a DNS proxy for a microcontroller. It answers queries for listed domains
itself and passes all others to one of two upstream servers. This project models its logic
in Dafny and proves what the parts promise, alone and together:

* **Proxy** (`ProxyState`, `ProxyHistory`, `ProxyFailover`, `ProxyLog`, `Proxy`): many clients share one upstream socket;
  each query's id is replaced by the number of its slot. `ProxyState` has one pure function
  per step, `Proxy` is the imperative program whose every method is proved to take exactly
  that step, and `ProxyHistory` proves safety over all runs: conservation of queries, one
  right reply per query, no crossed replies on a disciplined network, deadlines, failovers.
* **Blocking** (`Blocker`, `Decision`, `BloomFilter`, `BloomFormat`, `BlocklistBuild`,
  `DomainList`, `Allowlist`, `Fnv1a64`): filter, allowlist and exact list together decide
  membership, although they are computed through hashing, a bit array, lines cut in place and
  binary search, and although one side is written in Python and the other in C.
* **Wire format** (`DnsWire`, `DnsResponse`): the question parser is the inverse of name
  encoding, and the answers made in place read back as intended by an independent reader.
* **Updates** (`BloomUpdate`, `ListUpdate`, `Slots`, `Delivery`, `Deployment`, `Crc32`,
  `CrcPolynomial`):
  validate-then-switch with a failure or power loss possible between any two steps, which
  damage to a download the checks notice, up to whole histories of update cycles and what the
  proxy then blocks. `Enforcement` joins these histories with the runs of a proxy that holds
  the filter and the list of some moment of them.
* **Records** (`QueryLog`, `RollingWindow`): a ring buffer and 24 reused buckets refine
  unbounded histories.

`Words`, `CStrings` and `Options` hold words, bits, C strings, lines and optional values. Bytes
are integers below 256. Machine words are natural numbers with every wrap written out; `size_t` is a parameter (2^32
values on the device, 2^64 on a host), and so are the table size (1 to 65536), the log size
(at least 1), the timeout and the failure threshold (at least 1).

`dafny verify dfyconfig.toml` checks the whole project.

## What is assumed

* Calls from other tasks (reloads, configuration changes) happen between steps, never inside
  one; the code has no lock around the filter, the allowlist and the exact list.
* One update runs at a time; the code does not prevent two.
* The monotonic clock and the hour of the wall clock never run backwards, and the wall clock
  is not before 1970.
* What the code reads from outside (clocks, results of send, connect, flash, file and
  settings calls, contents fetched over HTTP, memory being available, the log mutex being
  obtained in time) is a parameter.
* A slot byte is set and then committed. One that is set but whose commit failed is what the
  getter returns from then on; it may reach the flash at any later time (a commit for any other
  setting takes it along) or be lost with the power. A committed byte survives.
* The theorems about runs are about the handlers and the sweep. With no upstream socket open the
  main loop (components/dns_proxy/dns_proxy.c:513-516) adds -1 to its descriptor set; that call
  is taken to be harmless.
* A connect always yields a socket number never used before; datagrams of an old socket do
  not arrive on a new one.
* `bsearch` halves its range and compares as `cmp_domain` does; SHA-256 is any function.
* In `Deployment`, a fetch that passes the updater's checks is something that was published
  (`Honest`). The checks alone do not guarantee it, see below; `FaultsAreHonest` derives it
  from kinds of faults.
* A file on the card is read completely by the list loader, except in `DomainList`, where a
  short read is allowed.

## What the model shows about the code

* Upstream replies are matched by slot number alone. `ReplyReachesItsQuery` says exactly when
  a reply reaches the query it answers; `LateReplyIsMisdelivered` shows a run in which a reply
  that comes after its timeout goes to another client, which is the case exactly when its slot
  is in use again; `RepliesAreNeverCrossed` shows that on a network without late or duplicate
  replies none goes astray. Failing over closes the old socket: no query in flight is relayed
  after it, each waits or ends in a SERVFAIL (`FailoverStrandsQueriesInFlight`), and it does not
  wait longer than the timeout and one sweep interval (`EveryReplyIsInTime`).
* The zero-address answer echoes QDCOUNT but keeps one question: the message is well-formed if
  and only if the query had exactly one (`ZeroAnswerIsWellFormedIff`).
* Acceptance of a filter header bounds every probe if and only if neither the 64-bit addition
  in `(m_bits + 7) / 8` nor the cast to `size_t` wraps (`AcceptanceBoundsProbes`). A header
  with `m_bits == 0` is accepted, and the probe loop then divides by zero unless it has no
  probes (`AcceptedIsReadable`, `ZeroBitImageIsUnreadable`).
* No erase or write reaches the mapped partition during an attempt that starts with the mapping
  on the active partition. That holds again afterwards unless the slot byte was set and its
  commit failed while a mapping was held (`CoherenceIsKeptExactly`). The next attempt then
  erases the partition the running filter is mapped from, which is also the one a power loss
  would leave named (`CommitFailureExposesMapping`). A commit for any other setting, the list's
  own included, settles the slot byte but leaves the mapping where it was
  (`OtherCommitLeavesMapping`), so the running filter is still erased (`CarefulIsNotOrderly`,
  `ErasedFilterIsNotEnforced`).
* So there are two exact conditions. A power loss can leave the device without its flash filter
  if and only if an attempt gets to erase while a slot change waits for its commit
  (`NeverWithoutAValidFilter`). The running filter can lose its content, too, if and only if an
  attempt gets to erase with the mapping off the named partition or while a slot change waits
  (`NeverWithoutARunningFilter`). The exact list can be lost if and only if a transfer begins
  while a slot change waits (`NeverWithoutAList`). `Deployment.EveryHistoryServesExactly` joins
  them for whole update cycles.
* The CRC covers the bit array only. Cut images and bursts of at most 32 changed bits in the
  bit array are always refused (`Delivery.OnlyIntactPasses`), but of the header only magic,
  version and checksum are checked (`Delivery.HeaderChecks`): an image whose number of probes
  was changed passes. Fewer probes never miss a listed name, more probes can miss every one
  (`ProbeCountChanged`, `AddedProbeMissesNames`).
* The comment at components/dns_proxy/dns_proxy.c:63 says that the rolling window survives a
  reboot; its buckets are static variables and start empty, and so they do here.
* With the exact list loaded the filter cannot add names; with none loaded every listed name
  is still blocked, at the price of the filter's false positives.

## Model

| member | source | states |
|---|---|---|
| ProxyHistory.EveryQueryIsAccountedFor | components/dns_proxy/dns_proxy.c:403-506 | in every reachable state, modulo 2^32: received = blocked + relayed + SERVFAILed + slots in use, and forwarded = relayed + timed out + slots in use; every query has one fate |
| ProxyHistory.EveryReplyIsTheOnlyRightOne | components/dns_proxy/dns_proxy.c:366-506 | over every run a waiting query has had no reply and any other exactly one, through its own socket and address, under its own id. Its bytes: for a blocked query the zero-address record for an address query if that was the policy, else response code 3 over its own bytes; for a relayed one the upstream datagram; else response code 2 over its own bytes |
| ProxyHistory.RepliesAreNeverCrossed | components/dns_proxy/dns_proxy.c:463-480 | if upstream answers each query at most once, under its id and not after its timeout, every relayed reply is relayed to the query it answers, over every run, across slot reuse, failover and configuration resets |
| ProxyHistory.ReplyReachesItsQuery | components/dns_proxy/dns_proxy.c:463-480 | a reply echoing a query's slot number is relayed to that query if and only if the query is still waiting, and to another query's client if and only if it is not and the slot is in use again |
| ProxyHistory.LateReplyIsMisdelivered | components/dns_proxy/dns_proxy.c:470-478 | with one slot, every run query, timeout, query, late reply sends the reply to the first query to the second client |
| ProxyHistory.FailoverStrandsQueriesInFlight | components/dns_proxy/dns_proxy.c:116-147 | where datagrams arrive only on the open socket, in answer to queries that left through it: over every run a query in flight at a failover or reset is never relayed afterwards, it waits or ends in a SERVFAIL |
| ProxyHistory.ReconnectStrands | components/dns_proxy/dns_proxy.c:116-147 | after a reset, or a sweep that fails over, no unanswered query belongs to the open socket |
| ProxyHistory.EveryReplyIsInTime | components/dns_proxy/dns_proxy.c:482-536 | if sweeps are at most d apart, over every run each query is answered or given up before arrival + timeout + d, and none is given up before its timeout |
| ProxyHistory.FailoversArePaidFor | components/dns_proxy/dns_proxy.c:141-147 | over every run failovers * threshold + counter is at most the number of timeouts, equal to it until a reply or reset; the index is 0 or 1, and is the parity of the failovers until a reset |
| ProxyFailover.CounterIsStreak | components/dns_proxy/dns_proxy.c:463-506 | over every run the timeout counter is the number of timeouts since the last relayed reply, failover or configuration change; the proxy fails over exactly at every threshold-th timeout in a row; the index is the parity of the failovers since the last configuration change; an open socket is one to the upstream in use |
| ProxyFailover.FailoverTakesTimeouts | components/dns_proxy/dns_proxy.c:482-506 | every failover has threshold timeouts directly before it, with no relayed reply and no configuration change between them |
| ProxyFailover.ConnectOpensSocket | components/dns_proxy/dns_proxy.c:116-139 | in every reachable state a successful connect leaves an open socket no query has left through, a failed one none |
| ProxyFailover.ForwardedQueryIsSent | components/dns_proxy/dns_proxy.c:441-461 | a forwarded query leaves, if the send succeeds on an open socket, as one datagram: its own bytes under its slot's number, through the socket recorded for it; else nothing leaves |
| ProxyLog.LogTellsTheRun | components/dns_proxy/dns_proxy.c:326-344 | over every run the log is one entry per arrival or timeout of a query with a question for which the mutex was obtained, in order, with its time, client address, name, type and outcome; and the window's history is the hours of the blocks |
| ProxyLog.NotesFitTheRun | components/dns_proxy/dns_proxy.c:403-506 | each query is noted for the log once when it arrives, under the outcome it got, and once more, as SERVFAIL, exactly if it timed out |
| ProxyHistory.RunKeepsInv | components/dns_proxy/dns_proxy.c:403-562 | slots and waiting queries stay in one-to-one correspondence, each slot holding its query's client, id and bytes, together with all other invariants, over every run |
| ProxyHistory.EveryVerdictIsTheDeciders | components/dns_proxy/dns_proxy.c:415-424 | over every run a query is answered from the block list if and only if the settings and lists in force when it came block its name |
| Enforcement.PublishedNamesNeverGoUpstream | components/dns_proxy/dns_proxy.c:366-461 | over every run under reloads of settings and published lists: while blocking is on, a name in any list the filter in force was built from, and in the exact list in force if one is loaded, and not allowlisted is answered from the block list and never goes upstream; no allowlisted name, and none outside the exact list, is blocked; a filter in force was built from some published list |
| Enforcement.UpdatedProxyEnforces | components/blocklist_updater/blocklist_updater.c:110-266 | the same for every run of a proxy whose filter and exact list are those of moments of an admissible update history, cycles under way included |
| Enforcement.OneListIsEnforced | components/dns_proxy/dns_proxy.c:366-461 | with one published list, while blocking is on with a filter: every listed name that is not allowlisted is blocked, over every run, and with the exact list loaded nothing else is |
| ProxyState.TimeoutResponseIsFaithful | components/dns_proxy/dns_proxy.c:482-506 | the SERVFAIL of an expired query is the error response to the original datagram, byte for byte despite the rewritten id, and parses to the same question for the log |
| ProxyState.BlockResponseIsRight | components/dns_proxy/dns_proxy.c:380-401 | what a blocked client gets, in the terms of an independent reader: with the zero-address policy and type 1 or 28 the zero reply, in every other case QR set, response code 3 and all other bytes the query's |
| ProxyState.StoredQueryRestored | components/dns_proxy/dns_proxy.c:441-456 | writing the client's id back into a stored query gives the client's bytes again |
| ProxyState.UpstreamSeesTheQuery | components/dns_proxy/dns_proxy.c:403-461 | what goes upstream is never a blocked query, and otherwise the client's datagram with only its id replaced, by the number of a slot that was free; no other slot changes |
| ProxyState.SweepTouchesOnlyExpired | components/dns_proxy/dns_proxy.c:482-506 | a sweep frees exactly the expired slots and leaves every other slot as it was |
| ProxyState.SweepLeavesNothingExpired | components/dns_proxy/dns_proxy.c:482-506 | after a sweep no occupied slot is as old as the timeout |
| ProxyState.SweepFailoverArithmetic | components/dns_proxy/dns_proxy.c:482-506 | a sweep expiring k slots from counter c below threshold T ends with counter (c + k) mod T, and flips the upstream and reconnects (c + k) div T times |
| ProxyState.FirstFree | components/dns_proxy/dns_proxy.c:149-157 | the first slot not in use, or the table size when all are |
| Proxy.Proxy.FindFreeSlot | components/dns_proxy/dns_proxy.c:149-157 | the loop finds the first free slot, or -1 |
| Proxy.Proxy.HandleClientDatagram | components/dns_proxy/dns_proxy.c:403-461 | the in-place program takes exactly the client step: whole new state, window, log and datagrams sent |
| Proxy.Proxy.HandleUpstreamDatagram | components/dns_proxy/dns_proxy.c:463-480 | ... exactly the upstream step |
| Proxy.Proxy.SweepTimeouts | components/dns_proxy/dns_proxy.c:482-506 | ... exactly the sweep: order of replies, log entries, counter, failovers |
| Proxy.Proxy.ConnectUpstreamSocket | components/dns_proxy/dns_proxy.c:116-139 | the old socket is gone whatever happens; one is open afterwards if and only if the connect succeeded, and then to the upstream the index names |
| Proxy.Proxy.FailOverUpstream | components/dns_proxy/dns_proxy.c:141-147 | the other upstream, counter zero, a fresh socket |
| Proxy.Proxy.ApplyUpstreamConfigNow | components/dns_proxy/dns_proxy.c:557-562 | first upstream, counter zero, a fresh socket |
| Proxy.Proxy.GetStats | components/dns_proxy/dns_proxy.c:538-542 | the lifetime counters, and of all blocks ever recorded those of the last 24 hours |
| Proxy.Proxy.constructor | components/dns_proxy/dns_proxy.c:52-86 | the initial statics: an empty table, zero counters, first upstream, no socket, whatever the decider |
| Proxy.Proxy.Start | components/dns_proxy/dns_proxy.c:564-609 | zeroes the statistics, loads filter and allowlist even if a socket then fails, connects the first upstream; success if and only if every step succeeds |
| Decision.BlockedSetIsSandwiched | components/dns_proxy/dns_proxy.c:366-401 | with a filter built from one list and another list loaded, the blocked names lie between the intersection and the exact list, each without the allowlist |
| Decision.BlockingIsMembership | components/dns_proxy/dns_proxy.c:366-401 | with one list in both, a name is blocked if and only if it is listed and not allowlisted |
| Decision.WithoutExactListNothingListedPasses | components/dns_proxy/dns_proxy.c:366-401 | with no exact list loaded every listed name that is not allowlisted is blocked |
| Decision.PublishedListIsEnforced | tools/blocklist_build.py:104-131 | from the two files the builder writes, through header acceptance, the filter loader with any seed, and the list loader, to the verdict: a message is blocked if and only if the name it asks for is published and not allowlisted |
| Decision.SeedListIsEnforced | components/dns_proxy/dns_proxy.c:230-256 | with the active partition unmapped or rejected, an embedded image built from a published list takes over: blocked if and only if listed and not allowlisted with the exact list loaded, and every listed name without |
| Decision.NoFilterBlocksNothing | components/dns_proxy/dns_proxy.c:252-255 | with both rejected nothing is blocked |
| Decision.EverySpellingIsBlocked | components/dns_proxy/dns_proxy.c:415-424 | every mixed-case wire spelling of a listed domain, in any message with a question, parses to the listed string and is blocked |
| Blocker.Blocker.Decide | components/dns_proxy/dns_proxy.c:366-379 | the chain of early returns over the loaded structures computes the decision |
| Blocker.Blocker.TryBlock | components/dns_proxy/dns_proxy.c:366-401 | a blocked client gets the zero-address answer or NXDOMAIN and nothing else changes; an unblocked query leaves the buffer as received |
| Blocker.Blocker.ReloadBloomFilter | components/dns_proxy/dns_proxy.c:192-256 | the mapped partition's filter if its header is accepted, else the embedded seed's, else none; everything else unchanged |
| Blocker.Blocker.ReloadAllowlist | components/dns_proxy/dns_proxy.c:258-314 | the stored setting's non-empty lines, or none; everything else unchanged |
| BlocklistBuild.ListedDomainParses | tools/blocklist_build.py:32-57 | the 253-character and 63-octet limits guarantee that the parser never refuses a listed domain, however it is spelled |
| BlocklistBuild.ListedDomainIsNormal | tools/bloom_format.py:37-42 | a listed domain is its own normal form and survives C strings and line files |
| BlocklistBuild.ListableExactly | tools/blocklist_build.py:32 | the accepted domains in terms of what lies between the dots: 1 to 253 characters, no hyphen at the end, at least two parts of 1 to 63 lower-case letters, digits or hyphens that do not start with a hyphen |
| BlocklistBuild.NormalFormOf | tools/bloom_format.py:37-42 | a listed domain with any spaces around it, any capitals and a trailing dot or none has the domain as its normal form |
| CStrings.LowerForgetsCase | components/dns_proxy/dns_wire.c:56-62 | two strings have the same lower-case form if and only if they are equal but for the case of letters A to Z |
| BlocklistBuild.PublishedIndexLoads | tools/blocklist_build.py:104-131 | the device reads back exactly the published list |
| BloomFormat.NoFalseNegatives | tools/blocklist_build.py:72-78 | every domain the builder inserted is found by the C filter, for every m_bits above 0 and every k |
| BloomFormat.BuildBitarray | tools/blocklist_build.py:72-78 | the bits set are exactly those some listed domain probes |
| BloomFormat.BitIndices | tools/bloom_format.py:45-59 | the masked Python index sequence is the wrapping C one |
| BloomFormat.UnpackPack | tools/bloom_format.py:86-121 | packing a header and reading it over the bytes is the identity, whatever follows |
| BloomFormat.HeaderLayout | components/bloom_filter/include/bloom_filter.h:19-37 | the packed fields lie little-endian at the offsets of the C structure |
| BloomFormat.ImageLayout | tools/bloom_format.py:93-106 | the numbers in the first 44 bytes of a built image: reserved fields zero, sizes, time, and the checksum of the bits that follow |
| BloomFormat.ImageIsAccepted | components/bloom_filter/bloom_filter.c:7-23 | the built image, with any padding, is accepted with the packed fields, and its checksum matches |
| BloomFormat.PrefixIsRejected | components/bloom_filter/bloom_filter.c:7-23 | every proper prefix of the image is rejected |
| BloomFormat.ZeroBitImageIsUnreadable | components/bloom_filter/bloom_filter.c:25-35 | an image with no bits and some probes is accepted and cannot be probed |
| BloomFormat.ImageIsBuiltFilter | tools/blocklist_build.py:104-131 | what the device maps from a written image is a filter with exactly the builder's bits |
| BloomFilter.Init | components/bloom_filter/bloom_filter.c:7-23 | accepts exactly on length, magic, version and the (wrapping) bit-array length |
| BloomFilter.Test | components/bloom_filter/bloom_filter.c:25-43 | the probe loop, in bounds on a readable filter, is true if and only if every probed bit is set |
| BloomFilter.ProbeIsDoubleHashing | tools/bloom_format.py:45-59 | probe i is (h1 + i * h2) modulo 2^64, modulo m_bits, for FNV-1a under the two published seeds in their order |
| BloomFilter.BitSetArithmetic | components/bloom_filter/bloom_filter.c:37-40 | a bit of the array is binary digit idx mod 8 of byte idx div 8, low digits first |
| BloomFilter.BlankIsRejected | components/bloom_filter/bloom_filter.c:7-13 | erased flash of any length is rejected |
| BloomFilter.AcceptedStartsWith | components/bloom_filter/bloom_filter.c:7-13 | every accepted buffer starts with the letters BLOM and version 1, low byte first |
| BloomFilter.AcceptanceBoundsProbes | components/bloom_filter/bloom_filter.c:14-20 | acceptance keeps every bit inside the buffer, for all lengths, if and only if nothing wraps on m_bits |
| BloomFilter.AcceptedIsReadable | components/bloom_filter/bloom_filter.c:25-43 | an accepted filter that does not wrap is safe to probe if and only if m_bits is not 0 or there are no probes |
| BloomFilter.TrailingBytesIgnored | components/bloom_filter/bloom_filter.c:25-43 | bytes after the claimed bit array never change a verdict |
| Fnv1a64.HashInFirmware | components/bloom_filter/fnv1a64.c:3-11 | the wrapping C loop computes the hash |
| Fnv1a64.HashInHostTool | tools/bloom_format.py:29-34 | the masked Python loop computes the same hash |
| Fnv1a64.CheckValues | components/bloom_filter/fnv1a64.c:3-11 | the published check values of 64-bit FNV-1a for the empty message and "a" |
| Fnv1a64.HashIsBijectiveInSeed | components/bloom_filter/fnv1a64.c:3-11 | for any fixed bytes the hash is a bijection of the 64-bit seed, with its inverse given |
| Fnv1a64.TwoSeedsNeverAgree | components/bloom_filter/bloom_filter.c:27-29 | the two hashes of the double-hashing scheme differ on every name |
| Fnv1a64.OneByteNeverCollides | components/bloom_filter/fnv1a64.c:3-11 | two byte strings differing in exactly one byte never collide under one seed |
| DomainList.List.Load | components/sd_storage/sd_storage.c:82-173 | loads exactly when mounted, present, non-empty, with a newline and memory; the list is then the non-empty newline-terminated lines in order, otherwise empty |
| DomainList.CutLines | components/sd_storage/sd_storage.c:158-169 | cutting lines in place and storing addresses yields those lines, never more pointers than newlines counted |
| DomainList.Bsearch | components/sd_storage/sd_storage.c:75-80 | halving through the stored pointers computes the bisection of the list |
| DomainList.List.Confirm | components/sd_storage/sd_storage.c:175-182 | unavailable, blocked or not blocked for the loaded list |
| DomainList.ConfirmationIsMembership | components/sd_storage/sd_storage.c:175-182 | never confirms an unlisted name; on a sorted list confirms exactly the listed ones; unavailable if and only if empty |
| DomainList.IndexRoundTrip | components/sd_storage/sd_storage.c:134-173 | loading the builder's joined list gives exactly that list; an unterminated tail is dropped |
| CStrings.StrCmpIsPythonOrder | components/sd_storage/sd_storage.c:75-80 | strcmp orders names exactly as Python's sorted does |
| CStrings.SplitThenJoin | components/sd_storage/sd_storage.c:134-169 | cutting any file at its newlines loses nothing but the newlines |
| CStrings.KeptMembers | components/sd_storage/sd_storage.c:158-169 | for any file, sorted or not, a name is loaded if and only if it is not empty and some complete line reads as it |
| Allowlist.Allowlist.Reload | components/dns_proxy/dns_proxy.c:258-314 | the allowlist is every non-empty line of the setting, the last one included, and empty when the setting or memory is missing |
| Allowlist.Allowlist.IsAllowlisted | components/dns_proxy/dns_proxy.c:316-324 | true if and only if the name is one of those lines |
| Allowlist.AllowedLines | components/dns_proxy/dns_proxy.c:280-312 | a setting of lines and a possibly unterminated last line splits into exactly those |
| Decision.StoredLinesAreAllowed | components/dns_proxy/dns_proxy.c:258-314 | what is loaded of a stored setting of lines, whatever lies behind its terminator |
| DnsWire.ParseQuestion | components/dns_proxy/dns_wire.c:18-79 | the in-place parser accepts exactly the messages the specification does, and fills in its fields |
| DnsWire.ParseInvertsEncoding | components/dns_proxy/dns_wire.c:18-79 | parsing succeeds if and only if the message has a header, a question counted and labels of 1 to 63 octets encoded at byte 12 with dotted length at most 254 and four more bytes; the result is their lower-cased dotted join, type, class and end |
| DnsWire.ParsedNameRecoversLabels | components/dns_proxy/dns_wire.c:37-69 | for labels without dots, splitting the parsed name gives back the lower-cased labels |
| DnsWire.DottedIsReversible | components/dns_proxy/dns_wire.c:37-69 | joining labels without dots loses nothing |
| DnsWire.QuestionEndBound | components/dns_proxy/dns_wire.c:18-79 | a parsed question ends at byte 17 to 272 and inside the message |
| DnsWire.ReadU16 | components/dns_proxy/dns_wire.c:5-8 | the shift-and-or of two bytes is their big-endian number; reads the id, QDCOUNT, type and class |
| DnsResponse.SetTxidInPlace | components/dns_proxy/dns_wire.c:10-16 | the id becomes the given one, the other bytes stay |
| DnsResponse.MakeErrorResponse | components/dns_proxy/dns_wire.c:81-91 | the in-place flag edits, nothing for short messages, nothing past the length |
| DnsResponse.ErrorResponseHeader | components/dns_proxy/dns_wire.c:81-91 | bit by bit: QR and RA set, AA, TC, Z and extension bits clear, OPCODE and RD echoed, RCODE as given; all else untouched |
| DnsResponse.ErrorResponseIsReply | components/dns_proxy/dns_wire.c:81-91 | as a number: the last flags byte is 128 plus the response code; a message shorter than a header comes back unchanged |
| DnsResponse.ErrorResponseKeepsQuestion | components/dns_proxy/dns_wire.c:81-91 | an error response parses to the same question under the same id |
| DnsResponse.MakeZeroAnswer | components/dns_proxy/dns_wire.c:93-138 | refuses without touching the buffer on a wrong type or too little room, otherwise leaves the specified answer |
| DnsResponse.ZeroAnswerIsCorrect | components/dns_proxy/dns_wire.c:93-138 | to a parsed A or AAAA query in 512 bytes: never refused, at most 300 bytes, QR and RA set, AA and TC clear, OPCODE and RD echoed, no error, same question and id, and an independent RFC 1035 reader finds one record with that name through the pointer, that type, class IN, 60 seconds, all-zero data ending the message |
| DnsResponse.ZeroAnswerIsWellFormedIff | components/dns_proxy/dns_wire.c:109-135 | the whole answer is a well-formed message if and only if the query had one question |
| Crc32.Crc32Ieee | components/bloom_filter/crc32.c:3-14 | the nested masked loops compute the checksum |
| CrcPolynomial.ChecksumIsRemainder | components/bloom_filter/crc32.c:3-14 | for every message the checksum, complemented and in opposite bit order, is the one remainder of the message, extended by 32 zero bits and its first 32 bits complemented, by x^32 + x^26 + x^23 + x^22 + x^16 + x^12 + x^11 + x^10 + x^8 + x^7 + x^5 + x^4 + x^2 + x + 1 |
| CrcPolynomial.RemainderIsUnique | components/bloom_filter/crc32.c:3-14 | that remainder is unique |
| Crc32.ChecksumIsRfc1952 | components/bloom_filter/crc32.c:3-14 | the bitwise loop is the table-driven algorithm of section 8 of RFC 1952, its table made with 0xedb88320 |
| Crc32.BurstIsDetected | components/bloom_filter/crc32.c:3-14 | any burst of at most 32 consecutive bits, on byte borders or not, in a message of any length changes the checksum |
| Crc32.ShortChangeIsBurst | components/bloom_filter/crc32.c:3-14 | any change confined to four consecutive bytes is such a burst |
| Crc32.StepIsInjective | components/bloom_filter/crc32.c:8-11 | one shift loses nothing on 32-bit registers |
| Crc32.StepIsLinear | components/bloom_filter/crc32.c:8-11 | one shift distributes over xor |
| BloomUpdate.Updater.UpdateBloom | components/blocklist_updater/blocklist_updater.c:110-166 | the ordered steps pass through exactly the specified states of flash, slot byte and mapping, and end in the last of them |
| BloomUpdate.Updater.Validate | components/blocklist_updater/blocklist_updater.c:134-147 | header and checksum verdict; the checksum loop stays inside the download when the length does not wrap |
| BloomUpdate.ResultNamesFailure | components/blocklist_updater/blocklist_updater.c:110-161 | each result is reported if and only if that is the first thing not in order |
| BloomUpdate.EveryMomentIsSafe | components/blocklist_updater/blocklist_updater.c:110-166 | at every moment of an attempt begun with no slot change waiting, the named partition, and the one a power loss would leave named, is the untouched old one or holds the whole validated download |
| BloomUpdate.AttemptIsBootableExactly | components/blocklist_updater/blocklist_updater.c:110-166 | no moment of an attempt could lose the filter to a power loss if and only if no slot change waits for its commit or nothing gets erased |
| BloomUpdate.SyncIsKeptExactly | components/app_config/app_config.c:143-147 | after an attempt a slot change waits for its commit exactly when: it reached the switch and the commit failed with none waiting before, or it did not switch and one was waiting |
| BloomUpdate.ValidWhenMapped | components/dns_proxy/dns_proxy.c:192-222 | an image validated at its own length is valid, with the same header and bits, when mapped at partition size |
| BloomUpdate.MappedPartitionIsNeverTouched | components/blocklist_updater/blocklist_updater.c:149-159 | begun with the mapping on the named partition, until the final reload mapping and mapped content do not change |
| BloomUpdate.MappingIsValidExactly | components/blocklist_updater/blocklist_updater.c:110-166 | no moment of an attempt takes valid content away under the running filter if and only if it begins with the mapping on the named partition or nothing gets erased |
| BloomUpdate.OtherCommitLeavesMapping | components/app_config/app_config.c:143-147 | after a failed commit, a commit for another setting leaves nothing waiting and the mapping off the named partition |
| BloomUpdate.CarefulIsNotOrderly | components/blocklist_updater/blocklist_updater.c:110-166 | failed commit, other commit, next attempt: no power loss could lose the filter to boot from, and the running filter is erased |
| BloomUpdate.CoherenceIsKeptExactly | components/blocklist_updater/blocklist_updater.c:161-162 | an attempt ends with the mapping on the named partition, unless partition, memory, download, checks, erase and write are all in order, the commit fails and a mapping is held |
| BloomUpdate.CommitFailureExposesMapping | components/blocklist_updater/blocklist_updater.c:110-161 | after such a failure the next attempt that gets to erase blanks the partition the running filter is mapped from, which is also the one a power loss would leave named |
| BloomUpdate.NeverWithoutAValidFilter | components/blocklist_updater/blocklist_updater.c:110-166 | over every history of attempts, failures, power losses and reboots a device with a valid filter could boot one at every moment if and only if no attempt gets to erase while a slot change waits for its commit |
| BloomUpdate.NeverWithoutARunningFilter | components/blocklist_updater/blocklist_updater.c:110-166 | over every history a device with a valid filter runs on valid content and could boot a valid filter at every moment if and only if no attempt gets to erase unless the mapping is on the named partition and no slot change waits |
| BloomUpdate.NamedContentIsKept | components/blocklist_updater/blocklist_updater.c:110-166 | over every history in which no attempt gets to erase while a slot change waits, from any content and any slot bytes, what is named holds an original content or a valid image |
| BloomUpdate.RebootServesNamedPartition | components/dns_proxy/dns_proxy.c:192-241 | after any such history a reboot runs a valid flash filter, not the embedded one |
| BloomUpdate.SuccessServesTheDownload | components/blocklist_updater/blocklist_updater.c:110-166 | after success the filter in service gives the verdict of the validated download on every name |
| ListUpdate.Updater.UpdateDomainList | components/blocklist_updater/blocklist_updater.c:200-248 | the ordered steps pass through exactly the specified states of the card |
| ListUpdate.ResultNamesFailure | components/blocklist_updater/blocklist_updater.c:200-246 | each result is reported if and only if that is the first thing not in order |
| ListUpdate.EveryMomentIsSafe | components/blocklist_updater/blocklist_updater.c:200-248 | at every moment of an attempt begun with no slot change waiting, the loader would open the untouched old file or the received file, whose digest matches, and so it would after a power loss |
| ListUpdate.AttemptIsSafeExactly | components/blocklist_updater/blocklist_updater.c:200-248 | where there is a list to lose, that holds if and only if no slot change waits for its commit or there is no transfer |
| ListUpdate.NeverWithoutAList | components/blocklist_updater/blocklist_updater.c:200-248 | over every history a card with a list has one to open at every moment, and after a power loss then, if and only if no transfer begins while a slot change waits |
| ListUpdate.SyncIsKeptExactly | components/app_config/app_config.c:172-176 | when an attempt leaves a slot change waiting for its commit |
| ListUpdate.ActivationMeansDigestMatched | components/blocklist_updater/blocklist_updater.c:224-247 | the slot changes if and only if something was received, its digest is the published one and the slot byte is set; the loader then opens the received file, and the same file as before otherwise |
| ListUpdate.DigestDecides | components/blocklist_updater/blocklist_updater.c:222-245 | with everything else in order the slot changes if and only if the first 64 characters fetched spell, in either case, the hex digest of the received file; what follows them does not matter |
| ListUpdate.NoDigestNoActivation | components/blocklist_updater/blocklist_updater.c:222-227 | a missing or shorter digest never changes the slot |
| ListUpdate.RefusedFileIsRemoved | components/blocklist_updater/blocklist_updater.c:216-245 | a received file that is refused is removed; one of which nothing was received stays as it is |
| Deployment.Installation.CheckAndApply | components/blocklist_updater/blocklist_updater.c:253-266 | both updates, the list regardless of the filter, and the reload; either half's commit takes the other half's waiting slot byte along; success if and only if all succeed |
| Deployment.IntactListIsInstalled | components/blocklist_updater/blocklist_updater.c:200-251 | the builder's index file and its digest file (digest and newline), with nothing else failing, put exactly the published list in use |
| Deployment.IntactImageIsInstalled | components/blocklist_updater/blocklist_updater.c:110-166 | the builder's image, with nothing else failing, puts a filter built from the published list in use, mapping and slot settled |
| Deployment.LegacyListIsLoaded | components/sd_storage/sd_storage.c:97-113 | a card with only the list file of before the two slots loads it |
| Deployment.ReloadedIsLoaded | components/dns_proxy/dns_proxy.c:192-256 | the loader in the update histories is the proxy's: partition, else embedded image, else none |
| Deployment.BlankDeviceRunsSeed | components/dns_proxy/dns_proxy.c:230-256 | a device with blank flash boots with the filter of the embedded list |
| Delivery.HeaderChecks | components/blocklist_updater/blocklist_updater.c:134-147 | for every header over a bit array of the claimed length: refused on magic or version, then on checksum, else valid, whatever the other fields say |
| Delivery.BurstIsRefused | components/blocklist_updater/blocklist_updater.c:140-147 | a burst of at most 32 changed bits anywhere in a published bit array ends as a checksum error |
| Delivery.CutIsRefused | components/blocklist_updater/blocklist_updater.c:134-139 | every cut of a published image fails header validation |
| Delivery.OnlyIntactPasses | components/blocklist_updater/blocklist_updater.c:134-147 | under these kinds of damage an image passes if and only if it is the published one |
| Delivery.ProbeCountChanged | components/bloom_filter/bloom_filter.c:25-43 | with another number of probes a listed name is still found if and only if the added probes hit |
| Delivery.AddedProbeMissesNames | components/blocklist_updater/blocklist_updater.c:140-147 | an image whose number of probes was changed in transit passes every check and misses every name |
| Deployment.FaultsAreHonest | components/blocklist_updater/blocklist_updater.c:110-248 | transfers that arrive whole, cut or with such a burst, and digests without collisions, satisfy the assumption of the histories below |
| Deployment.EveryMomentEnforces | components/blocklist_updater/blocklist_updater.c:110-266 | at every moment of an update cycle that erases only with the mapping on the named partition and nothing waiting, and receives only with nothing waiting on the card once the filter half is done: what is in use, what would be loaded, and what a power loss would leave to be loaded, is published or absent |
| Deployment.ErasedFilterIsNotEnforced | components/blocklist_updater/blocklist_updater.c:112-153 | with the mapping off the named partition, even with nothing waiting, a cycle that gets to erase passes a moment at which the filter in use serves no published list |
| Deployment.EveryHistoryServesExactly | components/blocklist_updater/blocklist_updater.c:110-266 | over every history of honest cycles, power losses and reboots every moment enforces published lists from valid flash with a list on the card, now and after a power loss, if and only if no cycle gets to erase or receives outside those conditions |
| Deployment.EveryHistoryEnforces | components/blocklist_updater/blocklist_updater.c:110-266 | the same through any history of such cycles, independent failures of the two artifacts, power losses at any moment, reboots and commits made for other settings |
| Deployment.HonestHistoryEnforces | components/blocklist_updater/blocklist_updater.c:110-266 | where no commit fails, every history satisfies that condition |
| Deployment.EnforcementIsMembership | components/dns_proxy/dns_proxy.c:366-401 | in every such state with a filter, it was built from some published list, and for every one it was built from the blocked names lie between its intersection with the exact list (itself, if none is loaded) and the exact list, without the allowlist |
| QueryLog.Log.LogQuery | components/dns_proxy/dns_proxy.c:326-344 | appends the entry to the unbounded history, unless the mutex was not obtained |
| QueryLog.Log.GetQueryLog | components/dns_proxy/dns_proxy.c:346-360 | exactly the newest min(total, capacity, wanted) entries, newest first, through any number of wraparounds |
| QueryLog.SlotBehind | components/dns_proxy/dns_proxy.c:354-356 | the ring index read back is that of the i-th newest entry |
| RollingWindow.Window.Record | components/dns_proxy/dns_proxy.c:93-102 | adds one event to the history, reusing the bucket of its hour |
| RollingWindow.Window.BlockedLast24h | components/dns_proxy/dns_proxy.c:104-114 | the number of all events ever recorded that are less than 24 hours old, modulo 2^32 |
| RollingWindow.OneBucket | components/dns_proxy/dns_proxy.c:104-114 | a bucket contributes all events of its share of the window, or the window has none there |

## Left out

- Sockets, select, HTTP, flash, memory mapping, the card and the settings store: their results are parameters.
- Data races between tasks, overlapping updates, allocation beyond success or failure, logging text.
- Hardware bring-up, firmware update, web interface, JSON and the getters and setters of the settings: no logic of the proxy in them.
- The choice of m_bits and k and the false-positive rate: floating point and probability; both numbers are parameters.
- Recognising a line of a hosts file, Unicode lower-casing, fetching sources and the builder's own allowlist: `BlocklistBuild.DomainShape` describes the accepted domains over ASCII bytes instead.
- Blocker.Blocker.TryBlock, Proxy.Proxy.HandleClientDatagram: require what `BloomFilter.Test` does, a filter that can be probed; past a header whose length wraps, or whose m_bits is 0 with probes to make, the C behaviour is undefined (`BloomFilter.AcceptedIsReadable` says exactly when).
- BloomUpdate.Updater.Validate: a checksum loop that would leave the buffer after a wrapped length ends the modelled run as out of bounds.
- A datagram of one byte reads its second id byte from the receive buffer's old content, and so does the model, which is why buffers are 512 bytes with a length.
- Labels with a NUL or a dot inside: they parse and are decided as the C string they make; only the label-level statements exclude dots.
- Deployment.EveryHistoryEnforces: content that passes the updater's checks without being published, such as an image with a changed number of probes, is assumed not to occur; cycles that erase with the mapping off the named partition or while a slot change waits, or receive while one still waits on the card, are excluded: `Deployment.EveryHistoryServesExactly` shows that they are exactly the ones that break service.
- Deployment.EveryHistoryServesExactly: what a failing erase leaves in the target is assumed to pass the updater's checks only if it is published.
- RollingWindow.Window.Record: the hour is a natural number, so a wall clock before 1970 is not modelled.
- DomainList.Bsearch: the order in which a C library probes is not fixed by its standard; halving is modelled.
- ListUpdate.Updater.UpdateDomainList: ends at the switch; the reload and its result are in `Deployment.Installation.CheckAndApply`.
