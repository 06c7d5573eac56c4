# A model of mirenai's resolver core

mirenai is a per-client screening DNS resolver. This project models its domain layer in
Dafny and proves what it promises:

- **The answer cache** (`OrderedDict`, `TtlCache`, `CacheKeys`, `Answers`): least-recently-used
  eviction plus expiry, the text key, RFC 2308 negative TTLs, clamping and counting down.
- **Matching** (`Policy`, `Blocklist`): the scored policy selection against the documented
  precedence, and one suffix semantics behind three implementations.
- **Blocklists** (`BlocklistParser`, `BlocklistSyntax`, `BlocklistStore`): the three-syntax parser,
  what every kind of line stands for, format detection, the diffing store with its `first_seen`
  history, and the chunked lookups.
- **Local zones** (`IpAddress`, `DomainNames`, `LocalZones`, `ZoneSyntax`, `AliasChase`,
  `LocalAnswers`): what a zone line stands for, forward and reverse records, the index,
  the private reverse-name test, and the alias chase on any alias graph.
- **Aggregation** (`Aggregation`, `QueryBuffers`, `HourlyStats`, `Uncacheable`, `UpstreamStats`):
  counters swapped out and upserted on arbitrary schedules, and hourly gap probing.
- **The resolver** (`Upstreams`, `Resolver`, `Screening`, `Decisions`, `OverrideText`, `ResolverRuns`,
  `Accounting`): one query as a step, the answer it must get, and what holds over every run of
  queries, reloads and cache flushes.
- **The cross-process flush** (`FlushSignal`): the request and poll protocol through the database.

The source's objects are classes whose methods change their fields: `TTLCache`, `QueryBuffer` with
its mutable counter objects, the statistics buffers, the tables, the flusher, `DnsResolver`. Each
method is proved equal to a step function on values (`AfterGet`, `AddEvent`, `Replaced`, `Next`,
`Handled`), and the theorems over whole runs are lemmas about those functions.

`dafny verify dfyconfig.toml` checks the whole project.

## What the code does where its documentation says more

- Blocklist overrides (README.md:84-87) are described as exempting a domain. They remove verbatim
  entries, so a listed parent still blocks the name; `OverrideExemptsIff` gives the exact condition and
  `OverrideFailsToExempt` an input.
- The documented policy precedence (README.md:65-66) is scored. The edge of the scoring scheme is a
  suffix of 999,000 characters, from where it would outscore an exact name. No query can carry such a
  name (section 2.3.4 of RFC 1035), so on every DNS name the code keeps the precedence.
- The precedence does not say what happens to two rules whose patterns differ in case or trailing
  dots only; the first one loaded wins. `OrderIrrelevantIff` gives the exact condition.
- A flush request is recorded with one-second resolution. A second request within the second of one
  already acted on is lost (`SameSecondRequestLost`); with requests in distinct seconds none is
  (`EveryRequestFlushes`). A request made while the worker is starting, before its first read, is
  lost too (`EarlyRequestLost`).
- "At most once each per hour" (dns_server.py:117-119) holds for distinct upstream addresses; two
  upstreams on one address are probed twice by one pass.
- A cached reply's authority and additional TTLs are rewritten to the time left of the whole entry,
  which may be more than they came with; and with a minimum cache TTL above an upstream's TTL even
  answers outlive it (`AnswerOutlivesItsTtl`). `PositiveCountDown`, `NegativeCountDown` and
  `AuthorityTtlGrows` say exactly when.
- The retention windows differ: client statistics and round-trip times are kept for 500 hours, cache
  outcomes for 100 (docs/frontend-integration.md:646). Comparing the tables over older hours shows a
  difference no query caused (`OutcomesPurgedFirstIff`).

## Model

| member | source | states |
|---|---|---|
| TtlCache.TTLCache.Get | src/mirenai/domain/cache.py:34-44 | The live entry or nothing; a hit becomes the newest item, an expired item goes, a miss changes nothing. |
| TtlCache.TTLCache.Set | src/mirenai/domain/cache.py:46-57 | The key ends up newest with its new entry, whatever it was before; the oldest items beyond the capacity go, the others keep their order. The eviction loop is proved by invariants. |
| TtlCache.AfterGetFind | src/mirenai/domain/cache.py:34-44 | A lookup leaves the key's item if it is live and nothing of it if it has expired, and every other item. |
| TtlCache.AfterSetFind | src/mirenai/domain/cache.py:46-57 | A store leaves the new entry, and every other item as it was unless evicted, which none is while there is room. |
| TtlCache.TTLCache.Clear | src/mirenai/domain/cache.py:59-61 | Nothing is left. |
| TtlCache.TTLCache.Snapshot | src/mirenai/domain/cache.py:63-77 | The rows of the live items, oldest first. |
| TtlCache.SnapshotMatchesLookup | src/mirenai/domain/cache.py:63-77 | A row is in the snapshot if and only if a lookup at that moment would hit, with that value, TTL and whole seconds left. |
| OrderedDict.AssignThenMove | src/mirenai/domain/cache.py:51-54 | Assigning to a key that may or may not exist and moving it to the end comes to the same: the key last, the rest in order. |
| TtlCache.RunBounded | src/mirenai/domain/cache.py:46-57 | No reachable cache outgrows its capacity or repeats a key. |
| TtlCache.LruInclusion | src/mirenai/domain/cache.py:34-61 | One trace of gets, sets and clears on capacities c1 <= c2: the small cache is always an ordered subsequence of the large one, the gap never exceeds c2 - c1, and every hit in the small one is the same hit in the large one, expiry deletions and hits of the large one alone included. |
| TtlCache.LruRetention | src/mirenai/domain/cache.py:29-57 | A key just set or hit is still returned while unexpired, uncleared, not overwritten, and while fewer than `capacity` distinct other keys were set or hit since. |
| TtlCache.RetentionBoundExact | src/mirenai/domain/cache.py:34-57 | Over any run of sets, hits and misses without a clear, without lookups of expired items and not touching the key itself, a key just set or hit is still stored if and only if fewer than `capacity` distinct keys were set or hit since. |
| TtlCache.RetentionBoundTight | src/mirenai/domain/cache.py:55-57 | In particular `capacity` sets of distinct other keys in a row push the key out. |
| CacheKeys.SplitUndoesKey | src/mirenai/domain/cacheview.py:48-53 | Splitting off the right undoes key building for every name, one containing `|` included. |
| CacheKeys.KeyIdentifiesQuestion | src/mirenai/domain/resolver.py:75-76 | Two keys are equal if and only if normalized name, type and class are. |
| Text.LowerSameIff | src/mirenai/domain/policy.py:48-49 | Two strings fold to one if and only if they differ in the case of letters only. |
| Text.StripDotsExact | src/mirenai/domain/policy.py:48-49 | Trailing dots go and nothing else. |
| Answers.ClampWithinBounds | src/mirenai/domain/resolver.py:466-468 | The clamped TTL always lies in [min, max] if and only if min <= max. |
| Answers.ClampExact | src/mirenai/domain/resolver.py:466-468 | A TTL inside the bounds is left alone, one outside moves to the nearer bound, and a minimum above the maximum always wins. |
| Answers.FirstSoaIsFirst | src/mirenai/domain/resolver.py:86-88 | The SOA that counts is the first record of type 6 in the authority section. |
| Answers.NegativeKept | src/mirenai/domain/resolver.py:79-91 | A reply without answers is kept for the smaller of its first SOA's TTL and MINIMUM, clamped, and not at all without an SOA or when that leaves nothing. |
| Answers.PositiveKept | src/mirenai/domain/resolver.py:376-394 | A reply with answers is kept for its smallest answer TTL, clamped, if that leaves anything; an error is never kept. |
| Answers.CountsDownIff | src/mirenai/domain/resolver.py:341-343 | A record is served with at most max(0, own TTL - elapsed) at every later time if and only if it is kept no longer than its own TTL. |
| Answers.ServedTtlFalls | src/mirenai/domain/resolver.py:341-343 | For one expiry time the served TTL is never negative, no more than the kept time, and no larger at a later time. |
| Answers.PositiveCountDown | src/mirenai/domain/resolver.py:388-393 | Every answer record of a cached positive reply counts down within its own TTL for all time if and only if the minimum cache TTL is at most the smallest answer TTL. |
| Answers.AnswerOutlivesItsTtl | src/mirenai/domain/resolver.py:466-468 | An answer of TTL 5 under a minimum cache TTL of 60 is kept for 60 seconds and outlives its own TTL. |
| Answers.NegativeCountDown | src/mirenai/domain/resolver.py:79-91 | A negative reply counts down within both the TTL and the MINIMUM of its SOA (sections 3 and 5 of RFC 2308) if and only if the minimum cache TTL is at most the smaller of them. |
| Answers.KeptWithinIff | src/mirenai/domain/resolver.py:388-408 | A kept reply is kept no longer than its own TTL allows if and only if the minimum cache TTL is at most that TTL. |
| Answers.AuthorityTtlGrows | src/mirenai/domain/resolver.py:341-343 | An authority or additional record with a shorter TTL than the kept time is served with more than it came with: the rewrite of all three sections bounds the answers only. |
| Resolver.JudgedKeepsForSource | src/mirenai/domain/resolver.py:376-408 | Across all branches a reply is stored exactly for as long as the upstream's own word and the clamp allow, and is counted as cached if and only if it is stored. |
| Resolver.DnsResolver.CacheNegative | src/mirenai/domain/resolver.py:396-408 | Stores and counts a negative answer exactly when its clamped SOA bound is positive, else touches nothing and says so. |
| Resolver.DnsResolver.CacheOrRecordSkip | src/mirenai/domain/resolver.py:358-394 | New cache, outcome counts and detail counts for every kind of reply. |
| Resolver.DnsResolver.SkipCache | src/mirenai/domain/resolver.py:410-415 | One detail and one outcome under the same reason; nothing else. |
| Resolver.DnsResolver.ForwardOrCache | src/mirenai/domain/resolver.py:328-356 | A hit is served with the question's id and counted-down TTLs and contacts no upstream; otherwise the reply is a best upstream's, SERVFAIL if none answers; the whole new state. |
| Resolver.DnsResolver.FromCache | src/mirenai/domain/resolver.py:336-344 | The in-place rewrite of id and TTLs of a hit, and what the lookup does to the cache. |
| Resolver.DnsResolver.Handle | src/mirenai/domain/resolver.py:160-213 | One query's reply, result and whole new state, the round-trip samples and coverage included; upstreams are contacted only for a forwarded query, in failover order. A result `forward` means the reply is exactly what an upstream of the best answering priority sent; `servfail` means none answered, and the reply is rcode 2 with the question's id and no records. |
| Resolver.DnsResolver.RecordForeign | src/mirenai/domain/resolver.py:153-158 | Of the counts modelled here, a query from an untrusted network adds one to the hour's foreign row and touches nothing else. |
| Resolver.DnsResolver.Screen | src/mirenai/domain/resolver.py:176-194 | The screening decision, in the order of the code's branches. |
| Resolver.DnsResolver.Reload | src/mirenai/domain/state.py:84-99 | A reload swaps the configuration and its record index and leaves the cache and every count alone. |
| Resolver.BuildOverride | src/mirenai/domain/resolver.py:225-250 | The loop over the rule's values builds the reply that OverrideExact characterises. |
| OverrideText.OverrideOfAddresses | src/mirenai/domain/resolver.py:225-250 | A rule text listing any addresses, spaces around them or not, answers a question with exactly those of the asked family, in the order written, under the question's spelling and with the rule's TTL. |
| Screening.OverrideExact | src/mirenai/domain/resolver.py:232-243 | An override answers with the addresses of the asked family among its values and nothing else. |
| Screening.OwnedNamesStayLocal | src/mirenai/domain/resolver.py:252-282 | A name in the local records never reaches the cache or an upstream, and its answer and result are the same for any two cache contents and any two things the upstreams might say. |
| Screening.BlockedNamesNotResolved | src/mirenai/domain/resolver.py:188-192 | A name at or below a listed domain is never resolved for a client that is not exempt: without an override it gets no records and leaves the cache alone. |
| Screening.Ipv4OnlyMode | src/mirenai/domain/resolver.py:179-181 | With IPv6 off every AAAA question is answered empty, whatever policies, lists or zones say. |
| Screening.WinningRuleDecides | src/mirenai/domain/resolver.py:176-194 | The rule that wins by the documented precedence decides: denial and override answer before any list, local record, cached or forwarded answer; any other action leaves only the blocklist to deny. |
| Decisions.SilentIff | src/mirenai/domain/resolver.py:165-173 | A query is dropped silently if and only if the setting asks for it and it asks for the pointer of a private address's reverse name that no local record has; it then changes no state and is answered empty. |
| Decisions.NoRuleDecides | src/mirenai/domain/resolver.py:176-194 | A query no rule matches, by default action: denial with NXDOMAIN, or else blocked if and only if the client is not exempt and a listed domain covers the name, local if and only if a record has the name, and resolved otherwise. |
| Decisions.MatchedRuleDecides | src/mirenai/domain/resolver.py:176-194 | A query some rule matches gets what the documented winner says: denial, that rule's override, or the same three-way choice of list, local records and resolving. |
| Decisions.SuppressedExact | src/mirenai/domain/resolver.py:179-181 | A suppressed IPv6 question counts as `nodata` and gets NOERROR without records under its own id. |
| Decisions.ResolvedAnswer | src/mirenai/domain/resolver.py:336-356 | A resolved query is a hit if and only if caching is on and a live entry is stored, and then serves that entry with its own id and every TTL the whole seconds left; otherwise it is answered with exactly what the upstreams brought back, or with a bare SERVFAIL when they brought nothing. |
| Decisions.CountsQuery | src/mirenai/domain/resolver.py:196-202 | Each counted query adds one to its client's hour and to its client, name and type, where it leaves its result and answers; a silent one adds nothing. |
| Decisions.SummaryExact | src/mirenai/domain/resolver.py:70-72 | The logged answer is the answers' data in order, joined by a comma and a space. |
| Decisions.CountsOutcome | src/mirenai/domain/resolver.py:346-415 | With caching on a forwarded query counts exactly one outcome, `cached` if and only if the reply is kept, and unless cached one detail under the same reason; any other query counts none. |
| Decisions.UncachedReason | src/mirenai/domain/resolver.py:376-394 | Which of the four reasons a reply that is not kept counts under, and the TTL noted with it. |
| ResolverRuns.RunCoherent | src/mirenai/domain/resolver.py:328-408 | In every reachable state, over any sequence of queries, foreign queries, reloads and flushes, each cached item is the latest stored report about its question. |
| ResolverRuns.CacheCoherence | src/mirenai/domain/resolver.py:336-344 | After any run a reply from the cache equals, but for header id and TTLs, the latest stored upstream reply for the same normalized name, type and class, stored strictly less than its kept time ago with no flush since. |
| ResolverRuns.InterleavedCoherence | src/mirenai/domain/resolver.py:336-356 | The same at the grain of the locked calls: in any interleaving of the lookups and stores of any number of queries with flushes, a lookup that hits gives a reply that repeats the latest report about its question at that moment. |
| ResolverRuns.QueryIsSteps | src/mirenai/domain/resolver.py:328-394 | A query handled in one step does to the cache what its lookup and its store in a row do. |
| ResolverRuns.CacheCountsDown | src/mirenai/domain/resolver.py:336-344 | Over any run, whatever else it fetched: a reply from the cache repeats the latest report, and if that report was kept no longer than its own TTL it promises no more than what is left of the upstream's TTLs, per answer record, and of SOA TTL and MINIMUM for a negative reply. |
| ResolverRuns.ReportCountsDownIff | src/mirenai/domain/resolver.py:336-344 | The condition is exact: a stored report counts down at all later times if and only if it is kept no longer than its own TTL. |
| ResolverRuns.LaterHitsFall | src/mirenai/domain/resolver.py:336-344 | Of any two hits about one question in a run, the later repeats the same report or a later one; if the same, then with the same records and no TTL grown in any section. |
| Accounting.OutcomesAccounted | src/mirenai/domain/resolver.py:346-415 | Over any run with caching on, an hour's outcomes are as many as its forwarded queries (answered or failed), and its `cached` outcomes as many as its cache stores. |
| Accounting.OutcomesAccountedAnySchedule | src/mirenai/repository/cache_outcome.py:52-66 | The same of table, batch in flight and buffer together, for any flush schedule of the run's own outcomes without failed writes, for hours inside the outcome table's 100. |
| Accounting.TotalsAccounted | src/mirenai/domain/clientstats.py:25-34 | Over any run each client's hourly total is the sum of its result columns plus its suppressed IPv6 queries. |
| Accounting.RunCounted | src/mirenai/domain/resolver.py:196-202 | Over any run, whatever the settings, the client statistics, the query log and the cache outcomes are each one count of what the run logged. |
| Accounting.QueriesAccounted | src/mirenai/repository/query_log.py:38-60 | Over any run and any flush schedule without failed writes, a query-log row counts the run's queries of its client, name and type and shows what the latest did; there is a row if and only if there was a query. |
| Accounting.RowsAccounted | src/mirenai/domain/clientstats.py:67-74 | Over any run each column of an hour and client's row is the number of its logged queries with that column's result, and there is a row if and only if there was a query. |
| Accounting.StatsMatchOutcomes | src/mirenai/domain/resolver.py:153-213 | Over any run with caching on, foreign queries and flushes included: over all rows, the client statistics show as many forwarded and failed queries as the cache outcomes show hits, and as many queries but for foreign ones as the query log counts. |
| Accounting.TablesMatch | src/mirenai/repository/client_stats.py:80-114 | The same of what the three tables, batches in flight and buffers hold, each flushed on a schedule of its own, without failed writes and with every row inside its table's retention. |
| Upstreams.BalancedOrder | src/mirenai/domain/resolver.py:455-464 | For any shuffles the order is a priority-sorted permutation of the upstreams. |
| Upstreams.ForwardQuery | src/mirenai/domain/resolver.py:417-453 | The reply is one of the best priority class that responds, none if and only if all fail; a worse class is contacted only after every better upstream failed; a truncated UDP reply is asked for again over TCP; only the upstream that answers is timed and covered for the hour. |
| Upstreams.AttemptExact | src/mirenai/domain/resolver.py:423-443 | An upstream's reply is one it sent, untruncated or received over TCP; a complete first reply is taken as it is, and an attempt fails only if a send does. |
| Policy.SelectPolicy | src/mirenai/domain/policy.py:75-95 | The loop returns the first rule with the greatest score pair. |
| Policy.SelectDocumentedOrder | src/mirenai/domain/policy.py:52-95 | Nothing is selected if and only if nothing matches; otherwise, for names under 999,000 characters, the first rule no other beats by exact > longest suffix > `*`, then exact client over `*`, stated without scores. |
| Policy.SuffixesOfOneName | src/mirenai/domain/policy.py:60-64 | Two suffixes of one name of equal length are equal, and the longer is below the shorter. |
| Policy.ExactOutscoresSuffixIff | src/mirenai/domain/policy.py:52-68 | Where the scores stop following the precedence: an exact rule outscores a suffix rule if and only if the suffix has fewer than 999,000 characters. |
| Policy.OrderIrrelevantIff | src/mirenai/domain/policy.py:75-95 | For any rule list, and names under 999,000 characters: every permutation selects the same rule if and only if no two different matching rules are both unbeaten. |
| Policy.FirstUnbeatenSelected | src/mirenai/domain/policy.py:92-94 | Whichever unbeaten rule is moved to the front is the one selected. |
| Policy.UnbeatenAreVariants | src/mirenai/repository/models.py:42 | Two unbeaten rules have the same client and the same pattern but for case and trailing dots, which is what the uniqueness constraint on raw strings lets through. |
| Policy.SelectIgnoresOrder | src/mirenai/domain/policy.py:75-95 | In particular permuting the rules does not change the selection when (client, normalized pattern) pairs are distinct. |
| Policy.CaseVariantsTie | src/mirenai/repository/models.py:42 | The smallest case, for names of any length: of two matching rules differing in case or trailing dots only, the first one wins. |
| Blocklist.SuffixesExact | src/mirenai/domain/blocklist.py:168-179 | The looked-up strings of a name are exactly the domains that equal it or end it after a dot. |
| Blocklist.BlockedIffCovered | src/mirenai/domain/blocklist.py:182-184 | Label-suffix lookup in the set is suffix matching against each listed domain, for non-empty names. |
| Blocklist.BlockedIffWildcardPolicy | src/mirenai/domain/policy.py:60-65 | Listing d blocks exactly the names the policy pattern `*.d` matches. |
| Blocklist.ApplyOverrides | src/mirenai/domain/blocklist.py:68-78 | Exactly the entries that are not overridden verbatim remain. |
| Blocklist.OverrideExemptsIff | src/mirenai/domain/blocklist.py:68-78 | An overridden name is exempt if and only if every listed parent of it is overridden too. |
| Blocklist.OverrideFailsToExempt | src/mirenai/domain/blocklist.py:68-78 | With example.com and a.example.com listed, overriding a.example.com leaves it blocked. |
| BlocklistStore.PageLookupAgrees | src/mirenai/repository/blocklists.py:395-407 | Looking up only a page's suffixes gives the verdict of the fully loaded set. |
| BlocklistStore.SourcesIffBlocked | src/mirenai/repository/blocklists.py:341-392 | A name has a blocking row if and only if the resolver would block it. |
| BlocklistStore.Tables.LoadBlocklistDomains | src/mirenai/repository/blocklists.py:291-303 | Every domain of every enabled list. |
| BlocklistStore.EnabledExact | src/mirenai/repository/blocklists.py:291-303 | A domain is in the resolver's set if and only if some known, enabled list stores it. |
| BlocklistStore.Tables.FindBlockedDomains | src/mirenai/repository/blocklists.py:310-338 | The non-empty candidates an enabled list holds verbatim, for any chunk size. |
| BlocklistStore.Tables.AnnotateBlocked | src/mirenai/repository/blocklists.py:395-407 | Marks each row in place with the resolver's verdict on the full loaded set, for any chunk size, and changes no name. |
| BlocklistStore.Tables.FindDomainSources | src/mirenai/repository/blocklists.py:341-392 | The blocked candidates, each with one source per enabled (list, suffix) row, none missing and none twice, under the list's name. |
| BlocklistParser.ExtractAdblockDomain | src/mirenai/domain/blocklist.py:106-116 | The four searches cut at the first terminator of any kind. |
| BlocklistParser.ParseBlocklist | src/mirenai/domain/blocklist.py:45-55 | The loop keeps the first occurrence of each line's domain, in order. |
| BlocklistParser.ParsedDomains | src/mirenai/domain/blocklist.py:45-55 | Parsing yields no duplicates, only valid normalized domains, and exactly those some line denotes. |
| BlocklistParser.ParseRoundTrip | src/mirenai/domain/blocklist.py:81-116 | Any duplicate-free list of valid domains written as plain lines, `0.0.0.0 d` lines or `||d^` lines parses back to itself, in order. |
| DomainNames.LabelsMakeName | src/mirenai/domain/blocklist.py:27-29 | Any labels of 1 to 63 letters, digits, hyphens and underscores, no hyphen at their ends, joined by dots to at most 253 characters, are a name, and a domain from two labels on. |
| DomainNames.NameHasLabels | src/mirenai/domain/blocklist.py:27-29 | And only those are. |
| BlocklistSyntax.HostsLine | src/mirenai/domain/blocklist.py:81-103 | A hosts line denotes its second word, for any first word without a marker of another syntax, any spaces, further words and comment. |
| BlocklistSyntax.PlainLine | src/mirenai/domain/blocklist.py:81-103 | A line of one word denotes it, spaces and comment aside. |
| BlocklistSyntax.AnchorLine | src/mirenai/domain/blocklist.py:106-116 | An anchor rule denotes the text up to its first terminator, whatever follows. |
| BlocklistSyntax.NoiseLine | src/mirenai/domain/blocklist.py:81-97 | Comments, sections, exceptions, cosmetic rules and blank lines denote nothing. |
| BlocklistSyntax.MixedListReadsBack | src/mirenai/domain/blocklist.py:45-116 | A list in any mix of the syntaxes, with any sinks, spaces, comments, modifiers and noise, and with LF or CRLF line ends, reads back as its domains in order, each once. |
| BlocklistSyntax.TwoWordsClass | src/mirenai/domain/blocklist.py:129-141 | Without Adblock markers, two words or more vote `hosts` if and only if the first is an address and the second a domain, else `unknown`. |
| BlocklistSyntax.OneWordClass | src/mirenai/domain/blocklist.py:129-141 | Without Adblock markers, one word votes `domain` if and only if it is one, else `unknown`. |
| BlocklistSyntax.AdblockClass | src/mirenai/domain/blocklist.py:129-131 | Anchors, exceptions and lines with a `^` vote `adblock`. |
| BlocklistParser.DetectFormat | src/mirenai/domain/blocklist.py:144-165 | The voting loop, its sample limit and its early exit give the winner of the sample's votes. |
| BlocklistParser.VotesCount | src/mirenai/domain/blocklist.py:152-160 | The votes of a format are its occurrences in the sample. |
| BlocklistParser.DetectedPlurality | src/mirenai/domain/blocklist.py:163-165 | The detected format has the most votes, ties going to the better recognised syntax. |
| BlocklistParser.PriorityOrder | src/mirenai/domain/blocklist.py:125-126 | On a tie hosts and Adblock syntax rank equal, before domains, and those before `unknown`. |
| BlocklistParser.SampleSize | src/mirenai/domain/blocklist.py:152-162 | The sample is the first fifty entry lines, or all when there are fewer. |
| BlocklistParser.DetectRendered | src/mirenai/domain/blocklist.py:129-165 | A non-empty list of valid domains written in one syntax is detected as that syntax, however long. |
| BlocklistStore.Tables.ReplaceDomains | src/mirenai/repository/blocklists.py:102-138 | The chunked deletes and the insert leave exactly the desired domains; those that stay keep their first_seen, the others get `now`, other lists are untouched. |
| BlocklistStore.DiffIsReplacement | src/mirenai/repository/blocklists.py:113-138 | Deleting the difference and inserting the difference is replacement, for any order and chunking of the names. |
| BlocklistStore.Tables.RecordSuccess | src/mirenai/repository/blocklists.py:270-278 | Count, format, status and time of one known list; an unknown id changes nothing. |
| BlocklistStore.Tables.RecordFailure | src/mirenai/repository/blocklists.py:281-288 | Status (cut at 255 characters) and time only. |
| BlocklistStore.Tables.RefreshBlocklist | src/mirenai/workers/blocklist_downloader.py:65-82 | A failed download changes no domain and records the error; a success stores the parsed set minus overrides and returns the row with its count, format, status and time; no other list's row changes. |
| BlocklistStore.FirstSeenHistory | src/mirenai/repository/blocklists.py:102-138 | After any sequence of refreshes of any lists a domain is stored if and only if it has an unbroken presence to the end, and its first_seen is the time that presence began. |
| BlocklistStore.StoredIsLastSuccess | src/mirenai/workers/blocklist_downloader.py:79-81 | A list's stored set is what its last successful refresh stored. |
| LocalZones.ParseZone | src/mirenai/domain/localzones.py:83-109 | The nested loops keep each (name, type, value) at its first occurrence, in order. |
| LocalZones.ZoneNoRepeats | src/mirenai/domain/localzones.py:103-108 | No (name, type, value) occurs twice in a zone. |
| LocalZones.FirstOccurrenceWins | src/mirenai/domain/localzones.py:103-108 | A record is in the zone if and only if some line has it and no earlier line has its key, so the first TTL wins. |
| LocalZones.ForwardReverseBijection | src/mirenai/domain/localzones.py:67-109 | For every text, an address record is in the zone if and only if the reverse record with the same address, name and TTL is, although the two are deduplicated separately. |
| LocalZones.ZoneRecordShapes | src/mirenai/domain/localzones.py:67-80 | Every A, AAAA and PTR record of a zone is one of such a pair, and every alias target is a valid name. |
| ZoneSyntax.LineMeans | src/mirenai/domain/localzones.py:92-104 | `value,name[,ttl]` with any spaces and comment stands for exactly the address record and the pointer back, or the alias, in that order of columns, with the written TTL or the default. |
| ZoneSyntax.AddressLine | src/mirenai/domain/localzones.py:67-80 | `address,name,ttl` for every address of either family: the name's address record and the pointer from its reverse name, both with that TTL, or the default without one. |
| ZoneSyntax.AliasLine | src/mirenai/domain/localzones.py:70-75 | `target,alias` stands for exactly the alias of `alias` to `target`. |
| ZoneSyntax.ZoneMeans | src/mirenai/domain/localzones.py:83-109 | A file of any such lines, ended by LF or CRLF, parses to exactly the records they stand for, line by line. |
| ZoneSyntax.NothingDropped | src/mirenai/domain/localzones.py:103-108 | When no key occurs twice the zone is all the lines' records in order. |
| ZoneSyntax.TtlNumeral | src/mirenai/domain/localzones.py:60-64 | A numeral of any size is its value. |
| ZoneSyntax.TtlSigned | src/mirenai/domain/localzones.py:60-64 | A negative numeral counts as zero and a plus sign says nothing. |
| ZoneSyntax.TtlUnderscore | src/mirenai/domain/localzones.py:60-64 | An underscore between digits says nothing, as Python reads integers. |
| ZoneSyntax.TtlNotANumber | src/mirenai/domain/localzones.py:60-64 | Text with a lower-case letter in it leaves the default. |
| LocalZones.LocalRecords.constructor | src/mirenai/domain/localzones.py:115-125 | The index built in one pass answers as the record list would. |
| LocalZones.LocalRecords.Lookups | src/mirenai/domain/localzones.py:127-138 | Ownership, lookup by type in file order, and the first alias, all read off the index. |
| AliasChase.AddAddressChain | src/mirenai/domain/resolver.py:284-309 | The recursive method appends exactly the chain to the reply it is building. |
| AliasChase.AddRecords | src/mirenai/domain/resolver.py:311-318 | Appends one answer per alias or pointer record, in order. |
| AliasChase.AnswerLocally | src/mirenai/domain/resolver.py:261-282 | The local answer for each question type; nothing for a name not owned. |
| AliasChase.ChainReaches | src/mirenai/domain/resolver.py:284-309 | From any depth: an alias path that reaches the wanted type at its least index k within the depth left gives its k aliases in order under the right owners, then the address records there. |
| AliasChase.ChainMisses | src/mirenai/domain/resolver.py:284-309 | From any depth: otherwise only aliases of the path come back, no more than the depth left, and fewer only where the path ends. |
| AliasChase.ChaseExact | src/mirenai/domain/resolver.py:261-309 | On any alias graph, cycles included, the answer to an address question for an owned name is fully determined by the alias path (section 4.3.2 of RFC 1034), with at most eight aliases and no address when the path reaches none. |
| LocalAnswers.OwnRecordsAnswer | src/mirenai/domain/resolver.py:269-301 | A question about a name with records of the asked type is answered with exactly those, in file order, each under the question's spelling with its own TTL and value: type 1 from A, 28 from AAAA, 5 from CNAME, 12 from PTR records; any other type with NOERROR and nothing. |
| LocalAnswers.ChaseAnswers | src/mirenai/domain/resolver.py:284-309 | The chase record by record: each alias under its owner with type 5, its TTL and target, and at the end of the path exactly the records of the asked family that build, in file order. |
| LocalAnswers.FamilyKept | src/mirenai/domain/resolver.py:294-307 | Every answer to an A question is an A record of the zone with type 1 or an alias of it with type 5; likewise AAAA and 28. |
| LocalAnswers.FirstAliasExact | src/mirenai/domain/localzones.py:135-138 | The alias of a name is its first alias record in the file. |
| IpAddress.ParseV4Text | src/mirenai/domain/resolver.py:117-120 | The IPv4 parser accepts exactly the formatted form of each address. |
| IpAddress.DottedQuad | src/mirenai/domain/resolver.py:117-120 | The text of an address is its four octets in decimal, most significant first. |
| IpAddress.ReversedQuad | src/mirenai/domain/localzones.py:79 | Its reverse name is the octets the other way round under in-addr.arpa. |
| IpAddress.ReversedAddressExact | src/mirenai/domain/resolver.py:105-120 | A name yields an address if and only if it is, but for trailing dots, that address's reverse pointer (section 3.5 of RFC 1035). |
| IpAddress.PrivateReverseNameExact | src/mirenai/domain/resolver.py:97-121 | A name is recognised if and only if it is the reverse name of an address in 10/8, 172.16/12 or 192.168/16, and that address is unique. |
| IpAddress.ReversePointerInjective | src/mirenai/domain/localzones.py:79 | No two addresses of either family share a reverse name. |
| Aggregation.FoldAppend | src/mirenai/repository/query_log.py:51-59 | Counting two event sequences separately and combining is counting them in one go. |
| Aggregation.FoldAnyOrder | src/mirenai/repository/client_stats.py:98-111 | When combining does not depend on order, neither does the count of events. |
| Aggregation.UpsertAllMerges | src/mirenai/repository/query_log.py:42-60 | Upserting a batch row by row, in any row order, merges it into the table. |
| Aggregation.FlushScheduleIndependence | src/mirenai/domain/querybuffer.py:48-79 | Without failed writes, table plus batch in flight plus buffer is one count of all events in order, for any interleaving of adds, swaps and writes, at every key inside retention. |
| Aggregation.HeldIsFold | src/mirenai/domain/querybuffer.py:48-79 | The whole held table, not only single rows, is one count of all events. |
| Aggregation.HeldIsKept | src/mirenai/domain/querybuffer.py:76-79 | With failed writes it is one count of the events that were not lost. |
| Aggregation.HeldPlusLost | src/mirenai/domain/upstreamstats.py:99-118 | For counts that combine in any order, held plus lost is one count of everything. |
| Aggregation.LedgerComplete | src/mirenai/domain/querybuffer.py:59-79 | Every event of a run is in exactly one place: table, lost batch, batch in flight or buffer. |
| QueryBuffers.QueryBuffer.Add | src/mirenai/domain/querybuffer.py:48-57 | Counts the event in its key's counter object, created or updated in place; no two keys share an object. |
| QueryBuffers.QueryBuffer.Take | src/mirenai/domain/querybuffer.py:59-64 | Swaps the live counters out whole. |
| QueryBuffers.FlushDuringAdds | src/mirenai/domain/querybuffer.py:59-79 | Adds between the swap and the write never change the swapped-out counters and are all in the new buffer; a failed write changes no row and no stamp. |
| QueryBuffers.QueryLog.RecordQueries | src/mirenai/repository/query_log.py:38-60 | Counts add up, the batch's last action and response win, and each row is stamped as it is written. |
| QueryBuffers.StampsExact | src/mirenai/repository/query_log.py:53-58 | A written key keeps its first_seen if it had one and its last_seen is the time of its row; any other key keeps both. |
| QueryBuffers.QueryTotals | src/mirenai/repository/query_log.py:38-60 | In any flush schedule a row counts the queries of its key and shows the latest one's action and response. |
| HourlyStats.ClientStatsBuffer.Add | src/mirenai/domain/clientstats.py:67-74 | Incrementing the counter dict adds one query to the hour and client's row. |
| HourlyStats.ClientStatsBuffer.Take | src/mirenai/domain/clientstats.py:80-101 | The flushed rows are what the counter dicts stand for, missing columns being zero. |
| HourlyStats.HourExact | src/mirenai/domain/clientstats.py:55-56 | A moment belongs to an hour if and only if it lies within its 3600 seconds. |
| HourlyStats.OneQueryCells | src/mirenai/domain/clientstats.py:25-34 | A query counts in the total and under its own result's column and no other. |
| HourlyStats.FoldRows | src/mirenai/domain/clientstats.py:67-101 | Counting any events gives a row for exactly the hours and clients that occur, each column counting its own result. |
| HourlyStats.KeptForWindow | src/mirenai/repository/client_stats.py:113-114 | A row survives every purge up to 499 hours after the moment it counts (99 for an outcome) and none from 501 (101) on. |
| HourlyStats.RecentStatRetained | src/mirenai/repository/client_stats.py:113-114 | In any schedule whose writes all come within 499 hours of a query, no purge reaches its row: the retention the totals ask for. |
| HourlyStats.ClientStatsTable.RecordClientStats | src/mirenai/repository/client_stats.py:80-114 | All nine columns add up per (hour, client); rows past retention go; an empty batch does not even purge. |
| HourlyStats.TotalsAccountedFor | src/mirenai/domain/clientstats.py:25-34 | Whatever the schedule and the failed writes, a total is the sum of its columns plus the kept queries whose result has no column. |
| HourlyStats.CacheOutcomeBuffer.Add | src/mirenai/domain/cacheoutcome.py:66-69 | One more hit for the hour and reason. |
| HourlyStats.CacheOutcomeTable.RecordCacheOutcomes | src/mirenai/repository/cache_outcome.py:52-66 | Hits add up per (hour, reason); rows more than 100 hours old go; an empty batch does not even purge. |
| HourlyStats.RecentOutcomeRetained | src/mirenai/repository/cache_outcome.py:65-66 | The same of outcomes within 99 hours. |
| HourlyStats.OutcomesPurgedFirstIff | src/mirenai/repository/cache_outcome.py:21 | An hour's outcomes are purged while its client statistics stay exactly when the hour is over 100 and at most 500 hours old. |
| HourlyStats.OutcomeTotals | src/mirenai/domain/cacheoutcome.py:66-84 | Held and lost rows together count every outcome reported in an hour inside the outcome table's retention. |
| Uncacheable.UncacheableBuffer.Add | src/mirenai/domain/uncacheable.py:54-61 | A tracked key always counts; a new one only while there is room. |
| Uncacheable.CappedKeys | src/mirenai/domain/uncacheable.py:54-61 | Only seen keys are held: all of them up to the cap, and exactly the cap beyond. |
| Uncacheable.CappedCounts | src/mirenai/domain/uncacheable.py:54-61 | A key is held if and only if its first event came before the cap filled, and then with every one of its hits and its latest TTL. |
| UpstreamStats.UpstreamRttBuffer.Add | src/mirenai/domain/upstreamstats.py:70-80 | Samples and milliseconds add up, the maximum is kept, the address is covered for the hour. |
| UpstreamStats.UpstreamRttBuffer.Uncovered | src/mirenai/domain/upstreamstats.py:92-97 | The addresses not covered in the current hour, in order. |
| UpstreamStats.UpstreamRttTable.RecordUpstreamRtt | src/mirenai/repository/upstream_stats.py:56-78 | Sum, sum and maximum per (hour, address); rows past retention go. |
| UpstreamStats.RecentRttRetained | src/mirenai/repository/upstream_stats.py:77-78 | In any schedule whose writes all come within 499 hours of a sample, no purge reaches its row. |
| UpstreamStats.RttTotals | src/mirenai/repository/upstream_stats.py:68-75 | In any schedule, held and lost rows together give the number, the sum and the maximum of all samples of an hour. |
| UpstreamStats.ProbeRttGaps | src/mirenai/workers/dns_server.py:110-132 | One pass probes what was uncovered when it began, in order, marking before contacting; only answers become samples; and it is exactly a run of the steps the run theorem is about. |
| UpstreamStats.UncoveredExact | src/mirenai/domain/upstreamstats.py:63-97 | Exactly the addresses without a sample or a probe attempt in the current hour are uncovered. |
| UpstreamStats.AtMostOneProbePerHour | src/mirenai/workers/dns_server.py:110-132 | Over any run of samples and passes, with a clock that does not run backwards and no uncovered address given twice, no address is probed twice in an hour, failed probes included. |
| UpstreamStats.PassIsRun | src/mirenai/workers/dns_server.py:121-132 | The coverage, the remaining targets and the probes of a whole pass are those of its steps: a probe of each target, and a sample when it answers. |
| UpstreamStats.PassKeeps | src/mirenai/workers/dns_server.py:121-132 | With a clock that does not run backwards a whole pass keeps what every run keeps: exact coverage, and no address probed twice in an hour. |
| UpstreamStats.PassProbesOnceIff | src/mirenai/domain/upstreamstats.py:92-97 | One pass probes no address twice if and only if no uncovered address is given twice. |
| UpstreamStats.RepeatedAddressProbedTwice | src/mirenai/workers/dns_server.py:121-132 | An uncovered address configured twice is probed twice by one pass. |
| FlushSignal.AppSettings.RequestCacheFlush | src/mirenai/repository/cache_control.py:23-33 | Overwrites the one stored stamp and no other setting. |
| FlushSignal.CacheFlusher.PollOnce | src/mirenai/workers/dns_server.py:142-150 | A failed poll changes nothing; a successful one clears the cache exactly when the stored stamp is not the one acted on last. |
| FlushSignal.FailedPollsOnlyDelay | src/mirenai/workers/dns_server.py:143-147 | Until a poll succeeds the worker remembers what it saw and the cache follows its own operations only. |
| FlushSignal.FlushTakesEffect | src/mirenai/workers/dns_server.py:135-150 | At the first successful poll after a request the cache is cleared, and everything held later was stored later, if the stored stamp is a new one; otherwise the poll changes nothing. Requests between polls coalesce. |
| FlushSignal.DistinctSecondsAlwaysFlush | src/mirenai/repository/cache_control.py:23-39 | With at most one request in any second the stamp is always a new one, whatever happens between request and poll. |
| FlushSignal.EveryRequestFlushes | src/mirenai/workers/dns_server.py:135-150 | Over a whole run from any state older than its requests, a restarted worker with an old stamp stored included, with at most one request in any second: after the first successful poll following any request, everything the cache holds at any later time was stored after that poll. |
| FlushSignal.CacheFlusher.constructor | src/mirenai/workers/dns_server.py:137-141 | A worker starts with the stored stamp taken as acted on, or with none when the first read fails, whatever the cache holds by then. |
| FlushSignal.RestartIsConsistent | src/mirenai/workers/dns_server.py:137-141 | Whatever the table holds from earlier seconds and whether or not the first read succeeds, the start is one the whole-run theorem covers. |
| FlushSignal.SameSecondRequestLost | src/mirenai/repository/cache_control.py:23-33 | Two requests within one second around a poll: the second is lost, and what was stored between them goes on being served. |
| FlushSignal.EarlyRequestLost | src/mirenai/workers/dns_server.py:137-141 | A request made before the worker's first successful read is taken as acted on: until another request the cache follows its own operations only. A failed first read saves it. |

## Left out

- Wire format: `pack` followed by `parse` is taken to be the identity on the modelled fields, a request's send to an upstream is a function giving a reply or a failure, and building an A or AAAA record from text either works or not, as a parameter says. EDNS OPT records, whose TTL field the hit rewrite touches too, are not part of this model.
- Text: strings are ASCII; Unicode case folding, digits and spaces, and a trailing newline let through by `$` in a pattern are not part of this model. Neither is Python's limit of 4300 digits on text converted by `int`.
- IPv6: the 128-bit addresses, their reverse names and everything that depends on telling them apart are concrete; the text form (zero compression and the like) is a parameter with the laws that formatting is undone by parsing (`Faithful`) and that the text is of hexadecimal digits, colons and dots with at least one colon (`ColonText`). Scoped addresses are not part of this model.
- Time: clock readings are parameters, real seconds for the monotonic clock, whole seconds or microseconds for wall clocks, with hours counted from a fixed origin instead of local time. The ISO text of a flush stamp is stood for by the decimal number of its second, which is equal and different in the same cases; a wall clock set back (at the end of daylight saving, say) is not part of this model.
- Concurrency: each locked method is one atomic step. `handle` is one step relative to `reload`, and in the run theorems also relative to other queries and flushes, except in InterleavedCoherence, where queries interleave call by call. One buffer's flushes are serialised, so that at most one batch is in flight. What a query sees when a reload happens in its middle is not modelled.
- Logging, the request, event, host and foreign-client buffers, and the trusted-network check: they would repeat the aggregation results or are configuration tests.
- The table behind the uncacheable buffer.
- The chunk size of deletes and lookups is a parameter of any positive value where the source passes 500, and one refresh has one clock reading where the source reads the clock for the domains and again for the list's row.
- The order in which SQL and Python sets give their elements is arbitrary: the contracts hold for every order, and say nothing about it.
- UpstreamStats.UpstreamRttBuffer.Add: does not model the accumulator as a separate mutable object, because QueryBuffers has that form of aliasing and the accumulators are otherwise values.
- BlocklistStore.Tables.FindDomainSources: does not state the order of a name's sources, which is the database's row order in the source.
- UpstreamStats.AtMostOneProbePerHour: requires that no pass is given an uncovered address twice, because the claim is false without; PassProbesOnceIff shows the condition is exact.
- Policy.SelectIgnoresOrder: requires distinct (client, normalized pattern) pairs, because the database enforces uniqueness of raw strings only; OrderIrrelevantIff is the exact statement.
- Rounding: millisecond totals and expiry times are exact reals here and floats in the source, so that RttTotals holds of the source up to rounding.
- Network is a function of the upstream's row and of TCP or not: two identical rows, which nothing in the schema prevents, answer alike here, and one upstream answers alike within one query.
- The HTTP API, settings coercion, paging, searching and gap-filling queries, decoding a cache snapshot into rows beyond splitting its key, new-domain materialization, download code and migrations: no invariant as deep as the above.
