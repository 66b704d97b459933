# Zulia merge and routing core in Dafny

This project models the core of Zulia, a distributed search server built on Lucene. Each index is split into shards spread over the nodes of a cluster. A query is sent to every shard, and the shard answers are merged into one response. The model covers that merge and the rules around it. Each module is proved against its own specification:

- **Facet merge** (`FacetCombining`, FacetCombiner.java). Per-shard facet counts are summed. Each facet gets a `maxError` that bounds the count the shards that did not report it could add. The top `maxFacets` facets are emitted, and `possibleMissing` is set when an unreported facet could beat the last one emitted.
- **Stat merge** (`StatCombining`, StatCombiner.java). Per-shard numeric statistics are combined into counts, sums, minima and maxima through a `StatCarrier`. A facet that some shards did not report carries a `maxSumError`. Facet stats are sorted by sum, largest first.
- **Result merge** (`QueryValidation`, `QueryCombining`, `PostSorting`; QueryCombiner.java and ZuliaPostSortingComparator.java). The shard responses are validated: no repeated shard, a known index, the right shard count and every shard present. Hits are merged and sorted with the typed comparator, where missing values sort first or last and descending negates the order. The first `amount + start` hits are kept, `start` of them are skipped, each shard's last kept hit is recorded, and `isShort` is computed.
- **Term merge** (`TermsFederating`, GetTermsRequestFederator.java). Term frequencies are summed per term, put in key order, filtered by `minDocFreq` and `minTermFreq`, and cut at `amount`.
- **Routing and node selection** (`MasterSlaveSelection`, `RequestNodeSelection`, `ClusterNodes`). A unique id is sent to the shard given by its Java `String.hashCode`. MASTER_ONLY, SLAVE_ONLY and MASTER_IF_AVAILABLE pick a node or fail as MasterSlaveSelector and RequestNodeBase do.
- **Cluster bookkeeping.**
  - `Membership`: heartbeat liveness, and the added/removed diff with its callbacks.
  - `IndexManagement`: merging, replacing and removing settings by key, alias lookup, and shard assignment at index creation.
  - `ShardCommitPolicy`: the commit counter and idle-commit state of `ShardWriteManager`.
- **Request validation and defaults** (`CreateIndexValidation`, `QueryRequestValidation`). This covers index settings, field configurations, facet and stat requests, and highlights.
- **Buffered S3 upload** (`S3Streaming`). `S3OutputStream` keeps a fixed byte buffer, sends full buffers as numbered multipart parts and completes (or puts) on close. The S3 client is a log of requests that the model appends to.
- **Utilities.**
  - `ZuliaUtility`: `handleLists`, `handleListsUniqueValues`, the weighted Levenshtein distance and `minimum`.
  - `DateUtil` and `Calendar`: `getParseDate` and the proleptic Gregorian calendar it relies on.
  - `QueryParser`: length-field rewriting, int/long/date/float range bounds, term queries and `getDateAsLong`.
  - `FieldTypes` and `IndexConfigData`: field-type predicates and names, the index field mappings, and facet-group lookup.
  - `QueryValues`: value quoting and query strings.
  - `DocumentCache`: `ClientDocumentCache.fetchNeeded`.
  - `SchemaStats`: the `FieldStats` counters.

Java's fixed-width arithmetic is written out where the source relies on it (`JavaInt`). This covers 32-bit `int` wrap-around, `Math.abs(Integer.MIN_VALUE)`, `Math.addExact` overflow, and `String.hashCode` and `String.compareTo` over UTF-16 code units. A thrown exception becomes an `Err`/`Failure` value that carries the exception's message or kind. Classes whose fields the source updates in place (`StatCarrier`, `StatCombiner`, `FacetCombiner`, `QueryCombiner`, `MembershipTask`, `ShardWriteManager`, `S3OutputStream`, `ServerIndexConfigData`, `ClientDocumentCache`, `FieldStats`, `Values`, the index-settings builder and the `handleLists` counter) are Dafny classes. Each of their methods is proved against a function of the old state and its inputs.

## Model

| member | source | states |
|---|---|---|
| ClusterNodes.FirstEqual | zulia-server/src/main/java/io/zulia/server/index/RequestNodeBase.java:63-68 | the position of the first node in list order that denotes the target (same address and service port), or the list length when none does |
| RequestNodeSelection.SelectMasterNode | zulia-server/src/main/java/io/zulia/server/index/RequestNodeBase.java:56-71 | this node when it is the shard's primary; otherwise only a node equal to the primary can be chosen |
| RequestNodeSelection.ThisNodeReplica | zulia-server/src/main/java/io/zulia/server/index/RequestNodeBase.java:75-79 | true exactly when some replica of the shard denotes this node |
| RequestNodeSelection.SelectSlaveNode | zulia-server/src/main/java/io/zulia/server/index/RequestNodeBase.java:73-90 | this node when it is a replica; otherwise the first replica, in list order, that is an active other node, or none |
| RequestNodeSelection.NodeFromShardMappingFacts | zulia-server/src/main/java/io/zulia/server/index/RequestNodeBase.java:26-54 | the chosen node is this node or an active other node, and it is the shard's primary or one of its replicas; an unknown setting always fails |
| RequestNodeSelection.LocalCopyPreferred | zulia-server/src/main/java/io/zulia/server/index/RequestNodeBase.java:26-94 | when this node holds the copy a setting may use, that setting selects this node, so nodeIsLocal holds |
| DocumentCache.CachedCopyServes | zulia-client/src/main/java/io/zulia/client/cache/ClientDocumentCache.java:127-142 | fetchNeeded is false exactly when a copy is cached and either no version is asked for or the cached copy has that version |
| DocumentCache.NeededOrCached | zulia-client/src/main/java/io/zulia/client/cache/ClientDocumentCache.java:93-105 | each search result is either queued for a fetch or served from the cache, never both; each cached copy served has the version the search saw, and each fetch asks for a version |
| DocumentCache.PutFetchedFacts | zulia-client/src/main/java/io/zulia/client/cache/ClientDocumentCache.java:109-110 | only fetch results that hold a document enter the cache, each under its own id; every other entry keeps its value |
| DocumentCache.ClientDocumentCache.constructor | zulia-client/src/main/java/io/zulia/client/cache/ClientDocumentCache.java:28-31 | a new cache is empty |
| DocumentCache.ClientDocumentCache.Evict | zulia-client/src/main/java/io/zulia/client/cache/ClientDocumentCache.java:26-30 | the size-bounded cache may drop entries between calls; the dropped entries are gone and every remaining entry is unchanged |
| DocumentCache.ClientDocumentCache.Fetch | zulia-client/src/main/java/io/zulia/client/cache/ClientDocumentCache.java:60-76 | a cached copy that serves is returned and the cache is unchanged; otherwise the server's answer for that version is returned and cached when it holds a document |
| DocumentCache.ClientDocumentCache.Partition | zulia-client/src/main/java/io/zulia/client/cache/ClientDocumentCache.java:88-105 | the loop splits the results into the cached copies to use and the fetches to make, as NeededOrCached describes them |
| DocumentCache.ClientDocumentCache.FetchAll | zulia-client/src/main/java/io/zulia/client/cache/ClientDocumentCache.java:84-119 | one batch fetch for the results the cache cannot serve, its answers followed by the cached copies, and the documents fetched are cached; no request at all when the cache serves everything |
| FieldTypes.StorageClasses | zulia-analyzer/src/main/java/io/zulia/server/field/FieldTypeUtil.java:19-70 | int and bool are stored as int, long and date as long; every type handled as a number is stored in exactly one of the int, long and floating-point ways, and only strings and vectors are not handled as numbers |
| FieldTypes.TypeNameInjective | zulia-analyzer/src/main/java/io/zulia/server/field/FieldTypeUtil.java:96-105 | distinct field types print distinct enum names |
| FieldTypes.ListLengthIndexField | zulia-analyzer/src/main/java/io/zulia/server/field/FieldTypeUtil.java:72-74 | the list-length index field carries the list-length prefix and then the field name unchanged |
| FieldTypes.ListLengthSortField | zulia-analyzer/src/main/java/io/zulia/server/field/FieldTypeUtil.java:76-78 | the list-length sort field is the list-length index field followed by the sort suffix, and is recognised as a list-length field |
| FieldTypes.CharLengthIndexField | zulia-analyzer/src/main/java/io/zulia/server/field/FieldTypeUtil.java:84-86 | the character-length index field carries the character-length prefix and then the field name unchanged |
| FieldTypes.CharLengthSortField | zulia-analyzer/src/main/java/io/zulia/server/field/FieldTypeUtil.java:88-90 | the character-length sort field is the character-length index field followed by the sort suffix, and is recognised as a character-length field |
| FieldTypes.SortFieldShape | zulia-analyzer/src/main/java/io/zulia/server/field/FieldTypeUtil.java:96-98 | a sort field's name starts with the field name and ends with the type's name |
| FieldTypes.IndexField | zulia-analyzer/src/main/java/io/zulia/server/field/FieldTypeUtil.java:100-106 | a string field is indexed under its own name; any other type under the name, an underscore and the type's name |
| FieldTypes.CharLengthWrap | zulia-analyzer/src/main/java/io/zulia/server/field/FieldTypeUtil.java:108-110 | the field between single bars, recoverable by dropping one character at each end |
| FieldTypes.ListLengthWrap | zulia-analyzer/src/main/java/io/zulia/server/field/FieldTypeUtil.java:112-114 | the field between triple bars, recoverable by dropping three characters at each end |
| FieldTypes.IndexFieldTypesDistinct | zulia-analyzer/src/main/java/io/zulia/server/field/FieldTypeUtil.java:100-106 | one field name indexed as two different non-string types gives two different index names |
| FieldTypes.SortFieldTypesDistinct | zulia-analyzer/src/main/java/io/zulia/server/field/FieldTypeUtil.java:96-98 | one field name sorted as two different types gives two different sort names |
| SchemaStats.Inc | zulia-common/src/main/java/io/zulia/util/schema/FieldStats.java:21-37 | `x++` on an int: one more below the int limit, and the largest int wraps to the smallest |
| SchemaStats.TallyFacts | zulia-common/src/main/java/io/zulia/util/schema/FieldStats.java:19-30 | a tally moves exactly one of number, string and date by one, chosen by the value's kind, and nothing for any other value; collection and document never move |
| SchemaStats.Add | zulia-common/src/main/java/io/zulia/util/schema/FieldStats.java:60-66 | every field of the merged counts is an int |
| SchemaStats.AddInt | zulia-common/src/main/java/io/zulia/util/schema/FieldStats.java:61-65 | `x += y` on ints gives an int |
| SchemaStats.WrapCongruent | zulia-common/src/main/java/io/zulia/util/schema/FieldStats.java:61-65 | values that differ by a multiple of 2^32 wrap to the same int |
| SchemaStats.WrapAddAssociative | zulia-common/src/main/java/io/zulia/util/schema/FieldStats.java:61-65 | int addition with wrap-around is associative |
| SchemaStats.AddCommutes | zulia-common/src/main/java/io/zulia/util/schema/FieldStats.java:60-66 | merging two statistics is commutative, wrap-around included |
| SchemaStats.AddAssociates | zulia-common/src/main/java/io/zulia/util/schema/FieldStats.java:60-66 | merging is associative, so the totals of a scan do not depend on how partial results are grouped |
| SchemaStats.AddFacts | zulia-common/src/main/java/io/zulia/util/schema/FieldStats.java:60-66 | merging with zero counts changes nothing; each field whose sum fits an int is the plain sum; sums of non-negative counts that fit stay non-negative |
| SchemaStats.Presence | zulia-common/src/main/java/io/zulia/util/schema/FieldStats.java:90-106 | one for each kind the other statistics saw at least once, zero otherwise |
| SchemaStats.IncrementIfExistsAddsPresence | zulia-common/src/main/java/io/zulia/util/schema/FieldStats.java:90-106 | incrementByIfExists adds one to a field exactly when the other statistics' field is positive |
| SchemaStats.IncrementAllCounts | zulia-common/src/main/java/io/zulia/util/schema/FieldStats.java:90-106 | applied once per document, incrementByIfExists counts the documents that held a date, never more than the documents |
| SchemaStats.FieldStats.constructor | zulia-common/src/main/java/io/zulia/util/schema/FieldStats.java:15-17 | a new statistics object has its key and all counts zero |
| SchemaStats.FieldStats.TallyType | zulia-common/src/main/java/io/zulia/util/schema/FieldStats.java:19-30 | the counts become the tally of the old counts for the value's kind |
| SchemaStats.FieldStats.TallyCollection | zulia-common/src/main/java/io/zulia/util/schema/FieldStats.java:32-34 | only collection moves, by `++` |
| SchemaStats.FieldStats.TallyDocument | zulia-common/src/main/java/io/zulia/util/schema/FieldStats.java:36-38 | only document moves, by `++` |
| SchemaStats.FieldStats.IncrementByCounts | zulia-common/src/main/java/io/zulia/util/schema/FieldStats.java:60-66 | the counts become the field-by-field int sums with the other statistics, read before the update, so adding an object to itself doubles it |
| SchemaStats.FieldStats.IncrementByIfExists | zulia-common/src/main/java/io/zulia/util/schema/FieldStats.java:90-106 | the counts move by the presence of each kind in the other statistics |
| ShardCommitPolicy.RamBufferSize | zulia-server/src/main/java/io/zulia/server/index/ShardWriteManager.java:159-162 | the RAM buffer is the configured size, or 128 MB when that is 0; never 0 |
| ShardCommitPolicy.IdleThresholdAsWritten | zulia-server/src/main/java/io/zulia/server/index/ShardWriteManager.java:142 | `idleTimeWithoutCommit * 1000` is an int product: exact within ±2147483 seconds, wrapped beyond |
| ShardCommitPolicy.IdleThreshold | zulia-server/src/main/java/io/zulia/server/index/ShardWriteManager.java:142 | the idle time in milliseconds without wrapping: a whole number of seconds, non-negative for a non-negative setting |
| ShardCommitPolicy.IdleThresholdWraps | zulia-server/src/main/java/io/zulia/server/index/ShardWriteManager.java:135-149 | an idle time of 2147484 seconds wraps to a negative threshold, so an idle commit is due the very millisecond after a change |
| ShardCommitPolicy.IdleCommitDueFacts | zulia-server/src/main/java/io/zulia/server/index/ShardWriteManager.java:135-149 | no idle commit is due without a change, nor after a commit made at or after the last change; a change after the last commit is due once the threshold has passed |
| ShardCommitPolicy.CommitNeeded | zulia-server/src/main/java/io/zulia/server/index/ShardWriteManager.java:151-157 | `count % shardCommitInterval` throws when the interval is 0, and is 0 exactly when the interval divides the count |
| ShardCommitPolicy.DivisorFacts | zulia-server/src/main/java/io/zulia/server/index/ShardWriteManager.java:155 | a remainder of 0 means the count is a multiple of the divisor |
| ShardCommitPolicy.RequestsPerInterval | zulia-server/src/main/java/io/zulia/server/index/ShardWriteManager.java:151-157 | from a fresh counter, n changes ask for exactly n / shardCommitInterval commits |
| ShardCommitPolicy.ShardWriteManager.constructor | zulia-server/src/main/java/io/zulia/server/index/ShardWriteManager.java:44-64 | nothing changed or committed yet, counter 0, and the RAM buffer setting applied |
| ShardCommitPolicy.ShardWriteManager.Commit | zulia-server/src/main/java/io/zulia/server/index/ShardWriteManager.java:125-133 | lastCommit becomes the commit time and nothing else changes; once a commit follows the last change no idle commit is due, whatever the threshold |
| ShardCommitPolicy.ShardWriteManager.NeedsIdleCommit | zulia-server/src/main/java/io/zulia/server/index/ShardWriteManager.java:135-149 | true exactly when a change was made, more than the int threshold ago, and after the last commit, if any |
| ShardCommitPolicy.ShardWriteManager.MarkedChangedCheckIfCommitNeeded | zulia-server/src/main/java/io/zulia/server/index/ShardWriteManager.java:151-157 | lastChange becomes now, the counter grows by one, and a commit is asked for when the current interval divides the new count (an error when it is 0) |
| ShardCommitPolicy.ShardWriteManager.UpdateIndexSettings | zulia-server/src/main/java/io/zulia/server/index/ShardWriteManager.java:159-162 | the writer takes the configured RAM buffer, 128 MB when it is 0, and the commit state is unchanged |
| S3Streaming.Stored | zulia-server/src/main/java/io/zulia/server/filestorage/io/S3OutputStream.java:133-167 | S3 holds an object only once the upload was completed or the object was put; later aborts leave it as it is |
| S3Streaming.AbortKeepsStored | zulia-server/src/main/java/io/zulia/server/filestorage/io/S3OutputStream.java:157-167 | an abort request changes nothing S3 holds |
| S3Streaming.InProgressStoresNothing | zulia-server/src/main/java/io/zulia/server/filestorage/io/S3OutputStream.java:110-130 | while a multipart upload is in progress S3 holds no object |
| S3Streaming.UploadAppends | zulia-server/src/main/java/io/zulia/server/filestorage/io/S3OutputStream.java:120-130 | sending one more part appends its bytes and its number and nothing else |
| S3Streaming.CompleteStores | zulia-server/src/main/java/io/zulia/server/filestorage/io/S3OutputStream.java:136-149 | completing an upload stores exactly the bytes uploaded in its parts, in part order |
| S3Streaming.InProgressFullParts | zulia-server/src/main/java/io/zulia/server/filestorage/io/S3OutputStream.java:87-118 | every part of an upload in progress is a full buffer, so the bytes uploaded are a whole number of buffers |
| S3Streaming.S3OutputStream.constructor | zulia-server/src/main/java/io/zulia/server/filestorage/io/S3OutputStream.java:59-67 | a new stream is open, with an empty buffer, no upload and nothing sent |
| S3Streaming.S3OutputStream.UploadPartOfBuffer | zulia-server/src/main/java/io/zulia/server/filestorage/io/S3OutputStream.java:120-130 | the buffer up to the position goes up as the next consecutive part number of the upload |
| S3Streaming.S3OutputStream.FlushBufferAndRewind | zulia-server/src/main/java/io/zulia/server/filestorage/io/S3OutputStream.java:110-118 | a full buffer starts the upload if needed, goes up as a part, and the position returns to 0; the bytes written are unchanged |
| S3Streaming.S3OutputStream.CopyIntoBuffer | zulia-server/src/main/java/io/zulia/server/filestorage/io/S3OutputStream.java:92-98 | the arraycopy puts the given bytes into the buffer right after the position, keeping what was before |
| S3Streaming.S3OutputStream.Write | zulia-server/src/main/java/io/zulia/server/filestorage/io/S3OutputStream.java:87-100 | on a closed stream it throws and changes nothing; otherwise the bytes from o to o + l are appended to what was written, full buffers being uploaded on the way |
| S3Streaming.S3OutputStream.FillAndFlush | zulia-server/src/main/java/io/zulia/server/filestorage/io/S3OutputStream.java:91-97 | one round of write's loop appends the bytes that fill the buffer, which then goes up as a part |
| S3Streaming.S3OutputStream.Append | zulia-server/src/main/java/io/zulia/server/filestorage/io/S3OutputStream.java:98-99 | the tail of write appends bytes that fit in the buffer without sending anything |
| S3Streaming.S3OutputStream.WriteByte | zulia-server/src/main/java/io/zulia/server/filestorage/io/S3OutputStream.java:170-176 | on a closed stream it throws and changes nothing; otherwise the low eight bits of b are appended, after uploading a full buffer |
| S3Streaming.S3OutputStream.Flush | zulia-server/src/main/java/io/zulia/server/filestorage/io/S3OutputStream.java:106-108 | flush fails exactly on a closed stream |
| S3Streaming.S3OutputStream.Close | zulia-server/src/main/java/io/zulia/server/filestorage/io/S3OutputStream.java:133-155 | the first close leaves S3 holding exactly the bytes written, as one put when no part was sent or as a completed upload; later closes do nothing |
| S3Streaming.S3OutputStream.Cancel | zulia-server/src/main/java/io/zulia/server/filestorage/io/S3OutputStream.java:157-167 | the stream closes and a started upload is aborted; cancelling an open stream leaves S3 without the object, and cancelling a closed one leaves the stored object as it was |
| QueryValues.TrimFacts | zulia-client/src/main/java/io/zulia/client/command/factory/Values.java:22 | `trim` leaves one slice of the input with only characters up to ' ' before and after it, and its own ends are not such characters |
| QueryValues.TrimUnchanged | zulia-client/src/main/java/io/zulia/client/command/factory/Values.java:22 | a string whose ends are not trimmable is its own trim |
| QueryValues.Quote | zulia-client/src/main/java/io/zulia/client/command/factory/Values.java:21-30 | VALUE_QUOTER yields the trimmed value, either bare or between double quotes |
| QueryValues.QuoteFacts | zulia-client/src/main/java/io/zulia/client/command/factory/Values.java:21-30 | a value gains quotes exactly when, trimmed, it is not already quoted and holds a space or a '-'; otherwise it is only trimmed |
| QueryValues.QuoteIdempotent | zulia-client/src/main/java/io/zulia/client/command/factory/Values.java:21-30 | quoting a quoted value changes nothing |
| QueryValues.QuoteProtects | zulia-client/src/main/java/io/zulia/client/command/factory/Values.java:21-30 | a value that still holds a space or '-' after VALUE_QUOTER is quoted |
| QueryValues.SplitJoin | zulia-client/src/main/java/io/zulia/client/command/factory/Values.java:15 | field names free of commas are read back by splitting COMMA_JOINER's output on commas (also line 113) |
| QueryValues.JoinAvoids | zulia-client/src/main/java/io/zulia/client/command/factory/Values.java:15-19 | a joiner never introduces a character that is in neither the items nor the separator |
| QueryValues.DigitsRoundTrip | zulia-client/src/main/java/io/zulia/client/command/factory/Values.java:127 | the decimal digits written for a number read back as that number |
| QueryValues.IntToStringRoundTrip | zulia-client/src/main/java/io/zulia/client/command/factory/Values.java:127 | the text appended for an Integer minimum reads back as the same int, negative ones included |
| QueryValues.RenderHeader | zulia-client/src/main/java/io/zulia/client/command/factory/Values.java:104-117 | the query string starts with '-' exactly when excluded, then holds the comma-joined fields and ':' only when fields are given, then the parenthesised values; reading the header back gives the exclusion, the fields and the values part |
| QueryValues.RenderSuffix | zulia-client/src/main/java/io/zulia/client/command/factory/Values.java:119-128 | with AT_LEAST and a minimum the string ends in '~' and the minimum, which reads back; ANY and ALL end with ')' |
| QueryValues.SingleValue | zulia-client/src/main/java/io/zulia/client/command/factory/Values.java:118-124 | one value renders the same for ANY and ALL: the joiners differ only between values |
| QueryValues.RenderExclusion | zulia-client/src/main/java/io/zulia/client/command/factory/Values.java:108-115 | the query string starts with '-' exactly when the values are excluded or the first field name itself starts with '-' |
| QueryValues.Values.Any | zulia-client/src/main/java/io/zulia/client/command/factory/Values.java:49-64 | any() yields type ANY, no minimum, no values or fields, not excluded, VALUE_QUOTER as handler |
| QueryValues.Values.All | zulia-client/src/main/java/io/zulia/client/command/factory/Values.java:53-64 | all() yields type ALL with the same defaults |
| QueryValues.Values.AtLeast | zulia-client/src/main/java/io/zulia/client/command/factory/Values.java:57-64 | atLeast(n) yields type AT_LEAST with minimum n and the same defaults |
| QueryValues.Values.Of | zulia-client/src/main/java/io/zulia/client/command/factory/Values.java:66-74 | of sets the values and returns the same object, every other setting unchanged |
| QueryValues.Values.Exclude | zulia-client/src/main/java/io/zulia/client/command/factory/Values.java:77-80 | exclude sets the exclusion and returns the same object |
| QueryValues.Values.Include | zulia-client/src/main/java/io/zulia/client/command/factory/Values.java:82-85 | include clears the exclusion and returns the same object |
| QueryValues.Values.WithFields | zulia-client/src/main/java/io/zulia/client/command/factory/Values.java:88-96 | withFields sets the fields and returns the same object |
| QueryValues.Values.ValueHandler | zulia-client/src/main/java/io/zulia/client/command/factory/Values.java:99-102 | valueHandler sets the handler and returns the same object |
| QueryValues.Values.AsString | zulia-client/src/main/java/io/zulia/client/command/factory/Values.java:104-130 | a NullPointerException exactly when no values were given; otherwise the rendered query of the handled values |
| QueryValues.Values.AsQuery | zulia-client/src/main/java/io/zulia/client/command/factory/Values.java:142-160 | fails exactly on unset values or fields or an excluded scored query (IllegalStateException); otherwise a query of the given kind with the exclusion, the fields, AND exactly for ALL, and the minimum exactly for AT_LEAST |
| ZuliaUtility.ArrayHandsOverConsumer | zulia-common/src/main/java/io/zulia/util/ZuliaUtil.java:61-68 | as written, an array holding one string hands the consumer itself to the consumer, where the intended walk hands over the string; the count is the same |
| ZuliaUtility.AsWrittenAgrees | zulia-common/src/main/java/io/zulia/util/ZuliaUtil.java:48-76 | the as-written and intended walks count the same objects, and hand over the same ones everywhere except inside an object array |
| ZuliaUtility.VisitsAreReachedLeaves | zulia-common/src/main/java/io/zulia/util/ZuliaUtil.java:49-60 | for a collection, the objects handed over are exactly the non-null, non-collection values reached through nested collections |
| ZuliaUtility.MembersVisitsAreReachedLeaves | zulia-common/src/main/java/io/zulia/util/ZuliaUtil.java:51-59 | the members of a collection hand over exactly the leaves they are or reach |
| ZuliaUtility.VisitsFacts | zulia-common/src/main/java/io/zulia/util/ZuliaUtil.java:61-75 | a non-null scalar is handed over once, null never, and an array (as intended) hands over its non-null elements |
| ZuliaUtility.NonNullFacts | zulia-common/src/main/java/io/zulia/util/ZuliaUtil.java:51-64 | the null filter keeps exactly the non-null elements, in order |
| ZuliaUtility.Counter.constructor | zulia-common/src/main/java/io/zulia/util/ZuliaUtil.java:45 | a new AtomicInteger starts at 0 |
| ZuliaUtility.HandleLists | zulia-common/src/main/java/io/zulia/util/ZuliaUtil.java:48-76 | intended behaviour: the consumer receives the walk's objects in order, and listSize grows by their number (line 66 as written is VisitsAsWritten) |
| ZuliaUtility.UniqueFacts | zulia-common/src/main/java/io/zulia/util/ZuliaUtil.java:35-41 | a LinkedHashSet keeps each value once, invents none, and keeps the order of first insertion |
| ZuliaUtility.FirstAt | zulia-common/src/main/java/io/zulia/util/ZuliaUtil.java:35-41 | the position of a value's first occurrence, before which it does not occur |
| ZuliaUtility.HandleListsUniqueValues | zulia-common/src/main/java/io/zulia/util/ZuliaUtil.java:34-42 | the consumer receives the distinct objects of the walk in first-occurrence order; listSize counts every object met and setSize the distinct ones |
| ZuliaUtility.InsertCost | zulia-common/src/main/java/io/zulia/util/ZuliaUtil.java:122-129 | the insertion cost is 2 exactly when the first string has fewer UTF-16 units, 40 otherwise |
| ZuliaUtility.SubstitutionCost | zulia-common/src/main/java/io/zulia/util/ZuliaUtil.java:141-152 | substitution costs 0 exactly for the same unit, 1 exactly for a case-only difference, 40 otherwise |
| ZuliaUtility.Minimum | zulia-common/src/main/java/io/zulia/util/ZuliaUtil.java:160-166 | minimum returns one of its arguments, no greater than any of them |
| ZuliaUtility.CostNonNegative | zulia-common/src/main/java/io/zulia/util/ZuliaUtil.java:130-157 | every cell of the distance table is non-negative |
| ZuliaUtility.CostZero | zulia-common/src/main/java/io/zulia/util/ZuliaUtil.java:130-157 | a cell is 0 exactly for two equal prefixes |
| ZuliaUtility.CostLast | zulia-common/src/main/java/io/zulia/util/ZuliaUtil.java:139-156 | a cell is 0 exactly when its last units agree and the diagonal predecessor is 0 |
| ZuliaUtility.DiagonalCost | zulia-common/src/main/java/io/zulia/util/ZuliaUtil.java:139-156 | when the strings agree up to case, a diagonal cell is at most the number of case-only differences so far |
| ZuliaUtility.DistanceFacts | zulia-common/src/main/java/io/zulia/util/ZuliaUtil.java:117-158 | distance 0 from a string to itself, 40 per unit to the empty string, 2 per unit from it, and 1 for a single case-only difference |
| ZuliaUtility.FillRow | zulia-common/src/main/java/io/zulia/util/ZuliaUtil.java:140-155 | one pass of the inner loop fills row i from the recurrence and leaves the later rows' first column |
| ZuliaUtility.ComputeLevenshteinDistance | zulia-common/src/main/java/io/zulia/util/ZuliaUtil.java:117-158 | the table filled over the two strings' UTF-16 units ends in the weighted edit distance |
| JavaInt.Wrap32 | zulia-common/src/main/java/io/zulia/util/schema/FieldStats.java:61-65 | an int result wraps to the int range, differs from the exact value by a multiple of 2^32, and is the exact value when that fits |
| JavaInt.JavaRem | zulia-server/src/main/java/io/zulia/server/index/MasterSlaveSelector.java:111 | Java's `%` by a positive divisor keeps the dividend's sign: in [0, b) for a non-negative dividend, in (-b, 0] for a negative one |
| JavaInt.JavaAbs32 | zulia-server/src/main/java/io/zulia/server/index/MasterSlaveSelector.java:111 | `Math.abs` on an int is the absolute value, except that Integer.MIN_VALUE stays negative |
| JavaInt.CompareInts | zulia-server/src/main/java/io/zulia/server/search/ZuliaPostSortingComparator.java:67-87 | Integer.compare and Long.compare: negative, zero or positive exactly as a is below, equal to or above b |
| JavaInt.CompareReals | zulia-server/src/main/java/io/zulia/server/search/ZuliaPostSortingComparator.java:95-107 | Float.compare and Double.compare on ordinary values: negative, zero or positive exactly as a is below, equal to or above b |
| JavaInt.CompareUnitsAntisymmetric | zulia-server/src/main/java/io/zulia/server/index/federator/GetTermsRequestFederator.java:81 | swapping the arguments of the lexicographic unit order negates the result |
| JavaInt.CompareUnitsTransitive | zulia-server/src/main/java/io/zulia/server/index/federator/GetTermsRequestFederator.java:81 | the lexicographic unit order is transitive |
| JavaInt.CompareCodePoints | zulia-server/src/main/java/io/zulia/server/search/ZuliaPostSortingComparator.java:115-117 | BytesRef.compareTo on UTF-8 is code point order, zero exactly for equal strings |
| JavaInt.CompareCodePointsAntisymmetric | zulia-server/src/main/java/io/zulia/server/search/ZuliaPostSortingComparator.java:115-117 | swapping the arguments of the BytesRef order negates it |
| JavaInt.CompareCodePointsTransitive | zulia-server/src/main/java/io/zulia/server/search/ZuliaPostSortingComparator.java:115-117 | the BytesRef order is transitive |
| JavaInt.Units | zulia-server/src/main/java/io/zulia/server/index/MasterSlaveSelector.java:111 | a character below U+10000 is one UTF-16 unit, any other a high and a low surrogate that encode it |
| JavaInt.Utf16 | zulia-server/src/main/java/io/zulia/server/index/MasterSlaveSelector.java:111 | a string has at least as many UTF-16 units as characters, and a non-empty string has some |
| JavaInt.Utf16OfBmp | zulia-server/src/main/java/io/zulia/server/index/MasterSlaveSelector.java:111 | below U+10000 the UTF-16 units are the code points |
| JavaInt.Utf16Injective | zulia-server/src/main/java/io/zulia/server/index/MasterSlaveSelector.java:111 | different strings have different UTF-16 encodings |
| JavaInt.CompareStrings | zulia-server/src/main/java/io/zulia/server/index/federator/GetTermsRequestFederator.java:81 | String.compareTo by UTF-16 units: zero exactly for equal strings |
| JavaInt.CompareStringsAntisymmetric | zulia-server/src/main/java/io/zulia/server/index/federator/GetTermsRequestFederator.java:81 | swapping the arguments of String.compareTo negates its sign |
| JavaInt.CompareStringsTransitive | zulia-server/src/main/java/io/zulia/server/index/federator/GetTermsRequestFederator.java:81 | String.compareTo is transitive |
| JavaInt.CompareStringsLessTransitive | zulia-server/src/main/java/io/zulia/server/index/federator/GetTermsRequestFederator.java:81 | strictly below is transitive for String.compareTo |
| JavaInt.StringOrderIsNotCodePointOrder | zulia-server/src/main/java/io/zulia/server/index/federator/GetTermsRequestFederator.java:81 | the String.compareTo order of the terms and the BytesRef order of the sort differ beyond U+FFFF: "\U{1F600}" is below "\U{FFFF}" in one and above in the other |
| JavaInt.AddExact32 | zulia-query-parser/src/main/java/io/zulia/server/search/ZuliaQueryParser.java:101-104 | `Math.addExact` on ints throws exactly on overflow, and is the sum otherwise |
| JavaInt.AddExact64 | zulia-query-parser/src/main/java/io/zulia/server/search/ZuliaQueryParser.java:112-115 | `Math.addExact` on longs throws exactly on overflow, and is the sum otherwise |
| JavaInt.HashFrom | zulia-server/src/main/java/io/zulia/server/index/MasterSlaveSelector.java:111 | String.hashCode continued over UTF-16 units stays an int |
| JavaInt.HashFromPolynomial | zulia-server/src/main/java/io/zulia/server/index/MasterSlaveSelector.java:111 | the wrapped hash agrees modulo 2^32 with the polynomial in 31 over the units |
| JavaInt.StringHashCodeIsPolynomial | zulia-server/src/main/java/io/zulia/server/index/MasterSlaveSelector.java:111 | String.hashCode is s[0]*31^(n-1) + ... + s[n-1] over the UTF-16 units, modulo 2^32 |
| JavaInt.DigitsAreDigits | zulia-client/src/main/java/io/zulia/client/command/factory/Values.java:127 | the decimal text of a number holds only digits, at least one |
| JavaInt.IntToString | zulia-client/src/main/java/io/zulia/client/command/factory/Values.java:127 | Integer.toString starts with '-' exactly for a negative number |
| MasterSlaveSelection.Remainder | zulia-server/src/main/java/io/zulia/server/index/MasterSlaveSelector.java:111 | Java's `%` by any non-zero divisor lies strictly between -|b| and |b| and is non-negative for a non-negative dividend |
| MasterSlaveSelection.ShardForUniqueIdAsWritten | zulia-server/src/main/java/io/zulia/server/index/MasterSlaveSelector.java:110-112 | as written: fails (ArithmeticException) exactly for zero shards |
| MasterSlaveSelection.ShardForUniqueId | zulia-server/src/main/java/io/zulia/server/index/MasterSlaveSelector.java:110-112 | intended behaviour: fails exactly for zero shards (the range facts are in ShardForUniqueIdInRange) |
| MasterSlaveSelection.ShardForUniqueIdInRange | zulia-server/src/main/java/io/zulia/server/index/MasterSlaveSelector.java:110-112 | intended behaviour: for a positive shard count the shard is in [0, numOfShards), equals the as-written shard whenever the hash is not Integer.MIN_VALUE, and depends on the id only through its hash |
| MasterSlaveSelection.MinValueHashGivesNegativeShard | zulia-server/src/main/java/io/zulia/server/index/MasterSlaveSelector.java:110-112 | "GydZG_" hashes to Integer.MIN_VALUE; with three shards the code as written gives shard -2, the intended form shard 2 |
| MasterSlaveSelection.MinValueHash | zulia-server/src/main/java/io/zulia/server/index/MasterSlaveSelector.java:111 | String.hashCode("GydZG_") is Integer.MIN_VALUE |
| MasterSlaveSelection.SelectMasterFacts | zulia-server/src/main/java/io/zulia/server/index/MasterSlaveSelector.java:84-95 | the master is chosen exactly when some online node equals the primary, and it is that online node |
| MasterSlaveSelection.SelectSlaveFacts | zulia-server/src/main/java/io/zulia/server/index/MasterSlaveSelector.java:97-108 | a replica is chosen exactly when some replica is online; the choice is an online node equal to the first replica, in list order, that is online |
| MasterSlaveSelection.Choose | zulia-server/src/main/java/io/zulia/server/index/MasterSlaveSelector.java:54-82 | MASTER_ONLY needs the master, SLAVE_ONLY a replica, MASTER_IF_AVAILABLE prefers the master and falls back to a replica; any other setting throws |
| MasterSlaveSelection.NodeFromShardMappingOnline | zulia-server/src/main/java/io/zulia/server/index/MasterSlaveSelector.java:54-82 | whatever the setting, a chosen node is online and is the shard's primary or one of its replicas |
| MasterSlaveSelection.FindMapping | zulia-server/src/main/java/io/zulia/server/index/MasterSlaveSelector.java:35-39 | the first mapping with the shard number is found exactly when one exists |
| MasterSlaveSelection.NodeForUniqueIdFindsShard | zulia-server/src/main/java/io/zulia/server/index/MasterSlaveSelector.java:32-43 | intended behaviour: when every shard below the count is mapped, a unique id always finds its shard's mapping and gets that mapping's node |
| MasterSlaveSelection.MinValueHashIsNotRouted | zulia-server/src/main/java/io/zulia/server/index/MasterSlaveSelector.java:32-43 | as written, the id "GydZG_" on a three-shard index throws ShardDoesNotExistException; the intended routing serves it |
| MasterSlaveSelection.ThreeMappings | zulia-server/src/main/java/io/zulia/server/index/MasterSlaveSelector.java:35-41 | a three-shard index has no mapping for shard -2 and finds the mapping for shard 2 |
| MasterSlaveSelection.AddNodesForMappingsFacts | zulia-server/src/main/java/io/zulia/server/index/MasterSlaveSelector.java:45-52 | addNodesForIndex throws exactly when some mapping has no node; without a throw the set grows by exactly the chosen nodes, and with one it keeps the nodes added before the throw, all of them chosen and online |
| MasterSlaveSelection.ChosenOnline | zulia-server/src/main/java/io/zulia/server/index/MasterSlaveSelector.java:45-52 | every node chosen for a mapping is an online node |
| PostSorting.ScoreCompare | zulia-server/src/main/java/io/zulia/server/search/ZuliaPostSortingComparator.java:19-34 | the assumed ScoreCompare order: negative exactly when the first score is higher, zero exactly for equal scores |
| PostSorting.ReverseScoreCompare | zulia-server/src/main/java/io/zulia/server/search/ZuliaPostSortingComparator.java:20 | the assumed ReverseScoreCompare is ScoreCompare negated (also line 56) |
| PostSorting.SortTypeOf | zulia-server/src/main/java/io/zulia/server/search/ZuliaPostSortingComparator.java:46-50 | a sort field that names a length field is compared as a long, whatever type is recorded for it |
| PostSorting.WithMissing | zulia-server/src/main/java/io/zulia/server/search/ZuliaPostSortingComparator.java:63-70 | nullsFirst puts a missing value first and nullsLast puts it last; two missing values are equal; two present values are compared by the type's comparator |
| PostSorting.PresentCompare | zulia-server/src/main/java/io/zulia/server/search/ZuliaPostSortingComparator.java:62-119 | two present values compare to -1, 0 or 1 |
| PostSorting.FieldCompare | zulia-server/src/main/java/io/zulia/server/search/ZuliaPostSortingComparator.java:44-123 | one sort field's verdict is -1, 0 or 1 |
| PostSorting.NoSortFieldsMeansScore | zulia-server/src/main/java/io/zulia/server/search/ZuliaPostSortingComparator.java:33-35 | with no sort fields, results are ordered by score, highest first, and tie exactly on equal scores |
| PostSorting.MissingValuesFirst | zulia-server/src/main/java/io/zulia/server/search/ZuliaPostSortingComparator.java:63-123 | a result missing the field sorts first unless the field asks for missing values last; DESCENDING reverses both |
| PostSorting.DescendingNegates | zulia-server/src/main/java/io/zulia/server/search/ZuliaPostSortingComparator.java:121-123 | DESCENDING negates the comparison of a non-score field |
| PostSorting.FirstDifferenceDecides | zulia-server/src/main/java/io/zulia/server/search/ZuliaPostSortingComparator.java:43-134 | the first sort field that tells two results apart decides the order, and results no field tells apart compare equal |
| PostSorting.TiedFromAll | zulia-server/src/main/java/io/zulia/server/search/ZuliaPostSortingComparator.java:126-130 | fields each of which ties two results form a run that the loop passes over |
| PostSorting.EqualPrefixSkipped | zulia-server/src/main/java/io/zulia/server/search/ZuliaPostSortingComparator.java:126-130 | the comparison passes over the fields on which two results are equal |
| PostSorting.LengthFieldsAreLongs | zulia-server/src/main/java/io/zulia/server/search/ZuliaPostSortingComparator.java:71-79 | a length field compares the long sort values, whatever type is recorded for its name (also lines 48-50) |
| PostSorting.PresentCompareAntisymmetric | zulia-server/src/main/java/io/zulia/server/search/ZuliaPostSortingComparator.java:62-119 | swapping two present values negates their comparison |
| PostSorting.PresentCompareTransitive | zulia-server/src/main/java/io/zulia/server/search/ZuliaPostSortingComparator.java:62-119 | the comparison of present values is transitive |
| PostSorting.FieldCompareAntisymmetric | zulia-server/src/main/java/io/zulia/server/search/ZuliaPostSortingComparator.java:44-123 | swapping two results negates one field's verdict |
| PostSorting.FieldCompareTransitive | zulia-server/src/main/java/io/zulia/server/search/ZuliaPostSortingComparator.java:44-123 | one field's verdict is transitive |
| PostSorting.FieldCompareStrict | zulia-server/src/main/java/io/zulia/server/search/ZuliaPostSortingComparator.java:44-123 | a field that puts a before b and b no later than c puts a strictly before c |
| PostSorting.CompareAntisymmetric | zulia-server/src/main/java/io/zulia/server/search/ZuliaPostSortingComparator.java:31-135 | swapping the arguments of the comparator flips its verdict, as Comparator requires |
| PostSorting.CompareTransitive | zulia-server/src/main/java/io/zulia/server/search/ZuliaPostSortingComparator.java:31-135 | "not after" is transitive, so the comparator is a valid sort order |
| IndexManagement.FirstIndex | zulia-server/src/main/java/io/zulia/server/index/ZuliaIndexManager.java:631-637 | the position of the first value with the key, before which no value has it, or the list length when none has it |
| IndexManagement.DedupFacts | zulia-server/src/main/java/io/zulia/server/index/ZuliaIndexManager.java:631 | collecting into a LinkedHashMap with "first one wins" keeps, for each key, exactly its first value, ordered by first occurrence, and loses no key (also lines 637, 655) |
| IndexManagement.DedupKeys | zulia-server/src/main/java/io/zulia/server/index/ZuliaIndexManager.java:637-655 | de-duplication keeps the set of keys |
| IndexManagement.DedupFirst | zulia-server/src/main/java/io/zulia/server/index/ZuliaIndexManager.java:631 | each kept value is the first value with its key |
| IndexManagement.DedupOrder | zulia-server/src/main/java/io/zulia/server/index/ZuliaIndexManager.java:637-655 | kept values are in the order of their keys' first occurrences |
| IndexManagement.WithoutKeys | zulia-server/src/main/java/io/zulia/server/index/ZuliaIndexManager.java:661-664 | the filter keeps exactly the values whose key is not removed |
| IndexManagement.LookupFacts | zulia-server/src/main/java/io/zulia/server/index/ZuliaIndexManager.java:640 | the LinkedHashMap lookup finds a value exactly for a present key, and it is the first value with that key |
| IndexManagement.RemoveKeyIsFilter | zulia-server/src/main/java/io/zulia/server/index/ZuliaIndexManager.java:642 | removing claimed keys one at a time from the map is filtering them out |
| IndexManagement.AwaitedLookup | zulia-server/src/main/java/io/zulia/server/index/ZuliaIndexManager.java:637-642 | the update still waiting under an unclaimed key is the first update with that key |
| IndexManagement.MergeRunAwaited | zulia-server/src/main/java/io/zulia/server/index/ZuliaIndexManager.java:639-646 | after the pass over the existing values, the updates left are those whose key no existing value has |
| IndexManagement.AwaitedNone | zulia-server/src/main/java/io/zulia/server/index/ZuliaIndexManager.java:640-643 | a key already claimed by an existing value has no update waiting |
| IndexManagement.RemoveKeyAbsent | zulia-server/src/main/java/io/zulia/server/index/ZuliaIndexManager.java:642 | removing a key with no value leaves the map as it is |
| IndexManagement.MergeRunLast | zulia-server/src/main/java/io/zulia/server/index/ZuliaIndexManager.java:639-646 | the value MERGE puts at the last existing position is its replacement |
| IndexManagement.MergeRunOut | zulia-server/src/main/java/io/zulia/server/index/ZuliaIndexManager.java:639-646 | each existing value is mapped to its replacement, keeping its position |
| IndexManagement.MergedFacts | zulia-server/src/main/java/io/zulia/server/index/ZuliaIndexManager.java:634-653 | MERGE with no updates keeps the existing values; otherwise each existing value keeps its place and is replaced by the first update with its key (only at its first occurrence), and the updates with new keys follow, one per key, in first-occurrence order |
| IndexManagement.UpdateWithActionFacts | zulia-server/src/main/java/io/zulia/server/index/ZuliaIndexManager.java:629-667 | an unknown operation throws and nothing else does; no value with a removed key survives, every survivor came from the existing values or the updates, and REPLACE yields the de-duplicated updates without the removed keys |
| IndexManagement.DedupSubset | zulia-server/src/main/java/io/zulia/server/index/ZuliaIndexManager.java:637-655 | de-duplication invents no value |
| IndexManagement.MergeRunSubset | zulia-server/src/main/java/io/zulia/server/index/ZuliaIndexManager.java:639-647 | the merge pass invents no value |
| IndexManagement.HandleAliasFacts | zulia-server/src/main/java/io/zulia/server/index/ZuliaIndexManager.java:820-825 | a name that is no alias is returned as it is, an alias resolves to its index, and when no alias names another alias resolving twice is resolving once |
| IndexManagement.AssignShard | zulia-server/src/main/java/io/zulia/server/index/ZuliaIndexManager.java:372-390 | the primary is the first ranked node and the replicas are the next ones, at most numberOfReplicas of them and fewer only when the ranking runs out; an empty ranking makes removeFirst throw |
| IndexManagement.AssignShardsFacts | zulia-server/src/main/java/io/zulia/server/index/ZuliaIndexManager.java:370-393 | shards are numbered 0 to n-1 in order, each with its primary and at most numberOfReplicas replicas, and a ranking of distinct nodes puts no node on two copies of a shard |
| IndexManagement.CreateShardMappings | zulia-server/src/main/java/io/zulia/server/index/ZuliaIndexManager.java:370-393 | the loop over shard numbers builds exactly the assignment, failing at the first shard that cannot be placed |
| IndexManagement.AssignShardsFailure | zulia-server/src/main/java/io/zulia/server/index/ZuliaIndexManager.java:370-393 | once a shard cannot be assigned, createIndex fails with that error |
| IndexManagement.CreateIndexPlanFacts | zulia-server/src/main/java/io/zulia/server/index/ZuliaIndexManager.java:346-415 | an existing index fails exactly when its settings differ and the shard or replica count changed, and an update keeps both counts; a new index gets a mapping for every shard number below its shard count |
| CreateIndexValidation.OrDefault | zulia-server/src/main/java/io/zulia/server/connection/server/validation/CreateIndexRequestValidator.java:35-40 | a negative setting is refused, zero takes the default, and any positive value is kept |
| CreateIndexValidation.OrDefaultReal | zulia-server/src/main/java/io/zulia/server/connection/server/validation/CreateIndexRequestValidator.java:49-54 | the request factor: negative is refused, zero becomes 2.0, and anything else is kept |
| CreateIndexValidation.DefaultsFacts | zulia-server/src/main/java/io/zulia/server/connection/server/validation/CreateIndexRequestValidator.java:31-103 | the sequential checks fail exactly on an empty name or a negative setting; otherwise every zero setting gets its default (1 shard, weight 1, factor 2.0, min shard request 2, idle 5, cache 512/256, interval 3200, warm 1) and nothing else changes |
| CreateIndexValidation.DefaultsRejects | zulia-server/src/main/java/io/zulia/server/connection/server/validation/CreateIndexRequestValidator.java:31-100 | a missing name or any negative setting is an error |
| CreateIndexValidation.DefaultsAccepts | zulia-server/src/main/java/io/zulia/server/connection/server/validation/CreateIndexRequestValidator.java:31-103 | an acceptable request gets exactly its defaults |
| CreateIndexValidation.IndexAsErrorIff | zulia-server/src/main/java/io/zulia/server/connection/server/validation/CreateIndexRequestValidator.java:117-136 | the index-as loop of one field fails exactly when a name holds a comma or a string field names an analyzer that is neither custom nor default |
| CreateIndexValidation.SortErrorIff | zulia-server/src/main/java/io/zulia/server/connection/server/validation/CreateIndexRequestValidator.java:138-145 | the sort loop fails exactly when a sort name repeats |
| CreateIndexValidation.FieldsErrorIff | zulia-server/src/main/java/io/zulia/server/connection/server/validation/CreateIndexRequestValidator.java:105-147 | the field loop fails exactly when a stored name repeats, an index field name holds a comma, a string field names an unknown analyzer, or a field repeats a sort name |
| CreateIndexValidation.WarmingErrorIff | zulia-server/src/main/java/io/zulia/server/connection/server/validation/CreateIndexRequestValidator.java:149-169 | the warming loop fails exactly when a label is empty or repeats |
| CreateIndexValidation.ValidatedFacts | zulia-server/src/main/java/io/zulia/server/connection/server/validation/CreateIndexRequestValidator.java:30-172 | validation succeeds exactly when the name is given, no setting is negative, the fields are well formed and the warming labels are distinct and non-empty, and then yields the settings with their defaults |
| CreateIndexValidation.ValidatedIdempotent | zulia-server/src/main/java/io/zulia/server/connection/server/validation/CreateIndexRequestValidator.java:30-172 | validating validated settings changes nothing: no default applies twice |
| CreateIndexValidation.CheckFields | zulia-server/src/main/java/io/zulia/server/connection/server/validation/CreateIndexRequestValidator.java:105-147 | the loop over field configs returns the first error the specification names, or none |
| CreateIndexValidation.FieldsErrorStep | zulia-server/src/main/java/io/zulia/server/connection/server/validation/CreateIndexRequestValidator.java:111-115 | one more field config: its own error unless an earlier one failed, and its stored name joins the set |
| CreateIndexValidation.FieldsErrorPrefix | zulia-server/src/main/java/io/zulia/server/connection/server/validation/CreateIndexRequestValidator.java:111-147 | the first failing field decides the error of the whole list |
| CreateIndexValidation.CheckIndexAs | zulia-server/src/main/java/io/zulia/server/connection/server/validation/CreateIndexRequestValidator.java:117-136 | the index-as loop returns the specified first error |
| CreateIndexValidation.CheckSorts | zulia-server/src/main/java/io/zulia/server/connection/server/validation/CreateIndexRequestValidator.java:138-145 | the sort loop returns the specified first duplicate |
| CreateIndexValidation.CheckWarming | zulia-server/src/main/java/io/zulia/server/connection/server/validation/CreateIndexRequestValidator.java:149-169 | the warming loop returns the specified first error |
| CreateIndexValidation.WarmingErrorPrefix | zulia-server/src/main/java/io/zulia/server/connection/server/validation/CreateIndexRequestValidator.java:151-169 | the first failing label decides the error of the whole list |
| CreateIndexValidation.AnalyzerNames | zulia-server/src/main/java/io/zulia/server/connection/server/validation/CreateIndexRequestValidator.java:107-108 | gathers exactly the names of the custom analyzers |
| CreateIndexValidation.ValidateIndexSettingsAndSetDefaults | zulia-server/src/main/java/io/zulia/server/connection/server/validation/CreateIndexRequestValidator.java:30-172 | on the builder: succeeds exactly when the settings validate, then holds the validated settings; on failure returns the specified error |
| Membership.InsertByHeartbeat | zulia-server/src/main/java/io/zulia/server/node/MembershipTask.java:50 | inserting a node keeps every node and adds exactly that one |
| Membership.SortByHeartbeat | zulia-server/src/main/java/io/zulia/server/node/MembershipTask.java:50 | sorting by heartbeat is a permutation of the node list |
| Membership.InsertByHeartbeatDescending | zulia-server/src/main/java/io/zulia/server/node/MembershipTask.java:50 | inserting into a newest-first list keeps it newest first |
| Membership.SortByHeartbeatDescending | zulia-server/src/main/java/io/zulia/server/node/MembershipTask.java:50 | the sorted list is newest first |
| Membership.LatestIsNewest | zulia-server/src/main/java/io/zulia/server/node/MembershipTask.java:50-54 | the first heartbeat after sorting is at least every node's heartbeat and belongs to some node |
| Membership.CollectFacts | zulia-server/src/main/java/io/zulia/server/node/MembershipTask.java:55-64 | the loop keys each alive node other than this one by server address and service port, and only alive listed nodes enter the map |
| Membership.NewOtherNodeMapFacts | zulia-server/src/main/java/io/zulia/server/node/MembershipTask.java:54-64 | the new map holds exactly the other nodes whose heartbeat lags the newest by less than 30000 ms, each under its own key |
| Membership.CollectStep | zulia-server/src/main/java/io/zulia/server/node/MembershipTask.java:55-64 | one more node enters the map exactly when it is alive and not this node |
| Membership.CollectOtherNodes | zulia-server/src/main/java/io/zulia/server/node/MembershipTask.java:54-64 | the loop over the sorted nodes builds exactly that map |
| Membership.AnnouncedOnlyOnChange | zulia-server/src/main/java/io/zulia/server/node/MembershipTask.java:69-98 | callbacks happen exactly when some key left or joined, one per removed and one per added node |
| Membership.Enumerate | zulia-server/src/main/java/io/zulia/server/node/MembershipTask.java:69-84 | lists each key of a key set once |
| Membership.Announce | zulia-server/src/main/java/io/zulia/server/node/MembershipTask.java:69-98 | computes the removed and added key sets and makes one callback per removed node, then one per added node |
| Membership.MembershipTask.constructor | zulia-server/src/main/java/io/zulia/server/node/MembershipTask.java:34-38 | a new task knows no other node and has made no callback |
| Membership.MembershipTask.Run | zulia-server/src/main/java/io/zulia/server/node/MembershipTask.java:41-104 | with nodes listed, the map becomes the alive other nodes and the callbacks appended are exactly the announced changes; an empty list throws inside the try and leaves the state as it was |
| TermsFederating.AbsentSumsZero | zulia-server/src/main/java/io/zulia/server/index/federator/GetTermsRequestFederator.java:58-70 | a term that occurs nowhere sums to zero in every field |
| TermsFederating.TotalsAreSums | zulia-server/src/main/java/io/zulia/server/index/federator/GetTermsRequestFederator.java:58-70 | each term that occurs has one map entry holding the sums of its doc frequencies, term frequencies and scores; nothing else has an entry |
| TermsFederating.FirstOccurrences | zulia-server/src/main/java/io/zulia/server/index/federator/GetTermsRequestFederator.java:58-70 | the map's keys in insertion order are exactly the terms that occur |
| TermsFederating.FirstOccurrencesDistinct | zulia-server/src/main/java/io/zulia/server/index/federator/GetTermsRequestFederator.java:58-70 | that key order lists each term once |
| TermsFederating.Entries | zulia-server/src/main/java/io/zulia/server/index/federator/GetTermsRequestFederator.java:78 | one entry per key, in key order, each the map's value |
| TermsFederating.TotalsSnoc | zulia-server/src/main/java/io/zulia/server/index/federator/GetTermsRequestFederator.java:60-68 | adding one more term occurrence is one step of the summing map |
| TermsFederating.AddTerms | zulia-server/src/main/java/io/zulia/server/index/federator/GetTermsRequestFederator.java:60-68 | the innermost loop adds its terms to the running sums |
| TermsFederating.AddResponses | zulia-server/src/main/java/io/zulia/server/index/federator/GetTermsRequestFederator.java:58-70 | the outer loops add every response's terms to the running sums |
| TermsFederating.AddAll | zulia-server/src/main/java/io/zulia/server/index/federator/GetTermsRequestFederator.java:58-70 | the three nested loops fill exactly the map of sums |
| TermsFederating.InsertByKey | zulia-server/src/main/java/io/zulia/server/index/federator/GetTermsRequestFederator.java:80-81 | inserting keeps every entry and adds exactly the new one |
| TermsFederating.SortByKey | zulia-server/src/main/java/io/zulia/server/index/federator/GetTermsRequestFederator.java:80-81 | sorting by key is a permutation of the entries |
| TermsFederating.InsertByKeyAscending | zulia-server/src/main/java/io/zulia/server/index/federator/GetTermsRequestFederator.java:80-81 | inserting a new key into a strictly ascending list keeps it ascending |
| TermsFederating.SortByKeyAscending | zulia-server/src/main/java/io/zulia/server/index/federator/GetTermsRequestFederator.java:80-81 | with distinct keys the sorted entries are in strictly ascending key order, by Java's String.compareTo |
| TermsFederating.FilteredFacts | zulia-server/src/main/java/io/zulia/server/index/federator/GetTermsRequestFederator.java:86-91 | the output keeps exactly the entries meeting both minimum frequencies, never more than there are |
| TermsFederating.VisitedFromFacts | zulia-server/src/main/java/io/zulia/server/index/federator/GetTermsRequestFederator.java:83-93 | the loop stops at the first entry after which the count reached a non-zero amount, and at no earlier one |
| TermsFederating.SelectAtMostAmount | zulia-server/src/main/java/io/zulia/server/index/federator/GetTermsRequestFederator.java:83-93 | a positive amount bounds the number of output terms |
| TermsFederating.SelectUnlimited | zulia-server/src/main/java/io/zulia/server/index/federator/GetTermsRequestFederator.java:83-97 | amount 0 visits every entry: every passing term is output and the last term is the last entry |
| TermsFederating.SelectSound | zulia-server/src/main/java/io/zulia/server/index/federator/GetTermsRequestFederator.java:83-97 | every output term is an entry meeting both minimums; the last term is a visited entry, present exactly when there is an entry |
| TermsFederating.SelectTerms | zulia-server/src/main/java/io/zulia/server/index/federator/GetTermsRequestFederator.java:83-97 | the counted loop computes exactly the selection |
| TermsFederating.FederateFacts | zulia-server/src/main/java/io/zulia/server/index/federator/GetTermsRequestFederator.java:54-100 | the response terms are in strictly ascending order, each meets both minimums and holds its sums over all shard responses |
| TermsFederating.EntriesFacts | zulia-server/src/main/java/io/zulia/server/index/federator/GetTermsRequestFederator.java:58-78 | the map's entries have distinct terms, each the sums of its occurrences |
| TermsFederating.FilteredAscending | zulia-server/src/main/java/io/zulia/server/index/federator/GetTermsRequestFederator.java:86-91 | filtering an ascending list keeps it ascending |
| TermsFederating.GetResponse | zulia-server/src/main/java/io/zulia/server/index/federator/GetTermsRequestFederator.java:54-100 | the step-by-step method computes exactly the federated response |
| TermsFederating.KeysInOrder | zulia-server/src/main/java/io/zulia/server/index/federator/GetTermsRequestFederator.java:58-78 | the map's key order is first-insertion order |
| IndexConfigData.LiteralMatches | zulia-analyzer/src/main/java/io/zulia/server/config/ServerIndexConfigData.java:225-233 | a pattern without '*' matches a name exactly when they are equal |
| IndexConfigData.LiteralPrefix | zulia-analyzer/src/main/java/io/zulia/server/config/ServerIndexConfigData.java:227-233 | the quoted text before a '*' must be a prefix of the name, and the rest matches the rest |
| IndexConfigData.StarSuffix | zulia-analyzer/src/main/java/io/zulia/server/config/ServerIndexConfigData.java:227-233 | '*' followed by literal text matches exactly the names ending in it |
| IndexConfigData.PrefixStarSuffix | zulia-analyzer/src/main/java/io/zulia/server/config/ServerIndexConfigData.java:227-233 | prefix*suffix matches exactly the names starting with prefix, ending with suffix and long enough for both |
| IndexConfigData.EndsWithTail | zulia-analyzer/src/main/java/io/zulia/server/config/ServerIndexConfigData.java:227-233 | a tail of a name ends with a suffix exactly when the suffix fits in the tail and the name ends with it |
| IndexConfigData.StarMatchesAll | zulia-analyzer/src/main/java/io/zulia/server/config/ServerIndexConfigData.java:227-233 | a lone '*' matches every name |
| IndexConfigData.MatchingIndexFields | zulia-analyzer/src/main/java/io/zulia/server/config/ServerIndexConfigData.java:224-254 | with a '*', the index fields the pattern matches plus, with aliases, the fields of every matching alias; without, the alias's fields or the name itself |
| IndexConfigData.MatchingLiteral | zulia-analyzer/src/main/java/io/zulia/server/config/ServerIndexConfigData.java:249-253 | a name without a wildcard is its own only match, whether or not it is indexed |
| IndexConfigData.InsertBySize | zulia-analyzer/src/main/java/io/zulia/server/config/ServerIndexConfigData.java:177 | inserting keeps every group and adds exactly the new one |
| IndexConfigData.InsertBySizeBounded | zulia-analyzer/src/main/java/io/zulia/server/config/ServerIndexConfigData.java:177 | inserting keeps every group under a size bound both sides respect |
| IndexConfigData.InsertBySizeSorted | zulia-analyzer/src/main/java/io/zulia/server/config/ServerIndexConfigData.java:177 | inserting into a size-ordered list keeps it ordered |
| IndexConfigData.SortBySize | zulia-analyzer/src/main/java/io/zulia/server/config/ServerIndexConfigData.java:176-177 | sorting by size is a permutation of the groups |
| IndexConfigData.SortBySizeSorted | zulia-analyzer/src/main/java/io/zulia/server/config/ServerIndexConfigData.java:177 | the groups come out smallest first |
| IndexConfigData.FirstCoveringSmallest | zulia-analyzer/src/main/java/io/zulia/server/config/ServerIndexConfigData.java:292-299 | over groups smallest first, the first group holding all the facets is a smallest such group, and there is none exactly when no group holds them all (also lines 175-181) |
| IndexConfigData.GroupIndex | zulia-analyzer/src/main/java/io/zulia/server/config/ServerIndexConfigData.java:128 | finds the first position of a group, or says it is absent |
| IndexConfigData.AddToGroupFacts | zulia-analyzer/src/main/java/io/zulia/server/config/ServerIndexConfigData.java:128 | computeIfAbsent(...).add puts the facet in that group only and keeps one entry per group |
| IndexConfigData.GroupIndexUnique | zulia-analyzer/src/main/java/io/zulia/server/config/ServerIndexConfigData.java:128 | the first position with a name is the one found |
| IndexConfigData.FirstSortWith | zulia-analyzer/src/main/java/io/zulia/server/config/ServerIndexConfigData.java:91-105 | the internal sort field of the first sort with the handling, or none when no sort has it |
| IndexConfigData.AddIndexAsFacts | zulia-analyzer/src/main/java/io/zulia/server/config/ServerIndexConfigData.java:69-119 | one indexAs: the list-length entry is a NUMERIC_INT field, a char-length entry is added for strings only, the field itself is indexed with its type, and every other entry is unchanged |
| IndexConfigData.InternalSortFieldFacts | zulia-analyzer/src/main/java/io/zulia/server/config/ServerIndexConfigData.java:81-108 | a string field gets an internal sort field only under the keyword or lowercase-keyword analyzer, and it is the first sort with the matching handling |
| IndexConfigData.AddToGroupsFacts | zulia-analyzer/src/main/java/io/zulia/server/config/ServerIndexConfigData.java:127-129 | a facet joins exactly the groups it names, each listed once |
| IndexConfigData.AddFacetAsAllFacts | zulia-analyzer/src/main/java/io/zulia/server/config/ServerIndexConfigData.java:121-130 | the facets of a field are marked existing, and those stored in their own group marked individual |
| IndexConfigData.FacetInSnoc | zulia-analyzer/src/main/java/io/zulia/server/config/ServerIndexConfigData.java:121-126 | one more facetAs adds exactly its name, and to the individual ones only when it asks for its own group |
| IndexConfigData.AliasTableFacts | zulia-analyzer/src/main/java/io/zulia/server/config/ServerIndexConfigData.java:159-173 | an alias stands for what its last mapping lists: each literal name, each index field a pattern matches, and itself when it includes itself |
| IndexConfigData.PatternFieldsFacts | zulia-analyzer/src/main/java/io/zulia/server/config/ServerIndexConfigData.java:163-166 | the fields a mapping's patterns stand for, pattern by pattern |
| IndexConfigData.ConfiguredFacets | zulia-analyzer/src/main/java/io/zulia/server/config/ServerIndexConfigData.java:57-131 | a facet exists exactly when some field facets as it, and is stored individually exactly when one of those asks for its own group (also lines 260-262, 284-286) |
| IndexConfigData.PutSortInfos | zulia-analyzer/src/main/java/io/zulia/server/config/ServerIndexConfigData.java:61-67 | one sort info per sortAs, each put under its sort name |
| IndexConfigData.FindSortWith | zulia-analyzer/src/main/java/io/zulia/server/config/ServerIndexConfigData.java:91-105 | the loop that breaks at the first sort with the handling computes exactly that sort field |
| IndexConfigData.AddIndexAsEach | zulia-analyzer/src/main/java/io/zulia/server/config/ServerIndexConfigData.java:69-119 | the loop over indexAs computes exactly the specified tables |
| IndexConfigData.AddFacetAsEach | zulia-analyzer/src/main/java/io/zulia/server/config/ServerIndexConfigData.java:121-130 | the loop over facetAs computes exactly the specified tables |
| IndexConfigData.CollectMappingFields | zulia-analyzer/src/main/java/io/zulia/server/config/ServerIndexConfigData.java:163-170 | gathers exactly the fields of one mapping |
| IndexConfigData.BuildFieldTables | zulia-analyzer/src/main/java/io/zulia/server/config/ServerIndexConfigData.java:57-131 | the loop over the field configs builds exactly the specified tables |
| IndexConfigData.TablesOfStep | zulia-analyzer/src/main/java/io/zulia/server/config/ServerIndexConfigData.java:57-131 | one more field config is one round: sorts, indexAs, facetAs |
| IndexConfigData.AddFieldConfigStep | zulia-analyzer/src/main/java/io/zulia/server/config/ServerIndexConfigData.java:58-130 | one round of the field loop computes exactly that step |
| IndexConfigData.BuildAliasTable | zulia-analyzer/src/main/java/io/zulia/server/config/ServerIndexConfigData.java:159-173 | the mapping loop puts each alias with exactly its fields |
| IndexConfigData.ServerIndexConfigData.constructor | zulia-analyzer/src/main/java/io/zulia/server/config/ServerIndexConfigData.java:48-183 | the built object holds the specified field, sort, facet, group and alias tables, groups ordered by size |
| IndexConfigData.ServerIndexConfigData.GetFacetGroupForFacets | zulia-analyzer/src/main/java/io/zulia/server/config/ServerIndexConfigData.java:292-299 | the first group in size order holding all the facets, a smallest such group; null exactly when none holds them all |
| QueryParser.RewriteLengthFields | zulia-query-parser/src/main/java/io/zulia/server/search/ZuliaQueryParser.java:76-87 | only a name of fewer than six characters can make substring throw |
| QueryParser.RewriteFailsExactly | zulia-query-parser/src/main/java/io/zulia/server/search/ZuliaQueryParser.java:76-87 | exactly "\|", "\|\|\|", "\|\|\|\|" and "\|\|\|\|\|" make the rewrite throw |
| QueryParser.ListWrapRoundTrip | zulia-query-parser/src/main/java/io/zulia/server/search/ZuliaQueryParser.java:77-78 | the list-length wrap of any field is rewritten to its list-length index field |
| QueryParser.CharWrapRoundTrip | zulia-query-parser/src/main/java/io/zulia/server/search/ZuliaQueryParser.java:83-84 | the char-length wrap of a non-empty name not starting with a bar is rewritten to its char-length index field |
| QueryParser.EmptyCharWrapUnchanged | zulia-query-parser/src/main/java/io/zulia/server/search/ZuliaQueryParser.java:80-82 | the char-length wrap of the empty name is "\|\|", which is left alone |
| QueryParser.PlainNamesUnchanged | zulia-query-parser/src/main/java/io/zulia/server/search/ZuliaQueryParser.java:76-87 | a name that does not both start and end with a bar is returned unchanged |
| QueryParser.ParseInteger | zulia-query-parser/src/main/java/io/zulia/server/search/ZuliaQueryParser.java:98-110 | a parsed integer lies in the type's range |
| QueryParser.ParseInt | zulia-query-parser/src/main/java/io/zulia/server/search/ZuliaQueryParser.java:98-99 | Integer.parseInt yields an int |
| QueryParser.ParseLong | zulia-query-parser/src/main/java/io/zulia/server/search/ZuliaQueryParser.java:109-110 | Long.parseLong yields a long |
| QueryParser.IntegerTextIsFloatText | zulia-query-parser/src/main/java/io/zulia/server/search/ZuliaQueryParser.java:120-132 | every text the integer parsers accept, Float.parseFloat and Double.parseDouble accept too |
| QueryParser.FloatSyntaxTrimmedExponent | zulia-query-parser/src/main/java/io/zulia/server/search/ZuliaQueryParser.java:120-121 | surrounding blanks are trimmed and an exponent and a type suffix are allowed |
| QueryParser.FloatSyntaxHex | zulia-query-parser/src/main/java/io/zulia/server/search/ZuliaQueryParser.java:120-121 | a hexadecimal significand with its binary exponent is accepted |
| QueryParser.FloatSyntaxHexNeedsExponent | zulia-query-parser/src/main/java/io/zulia/server/search/ZuliaQueryParser.java:120-121 | a hexadecimal significand without exponent is refused |
| QueryParser.FloatSyntaxSecondPoint | zulia-query-parser/src/main/java/io/zulia/server/search/ZuliaQueryParser.java:120-121 | a text with a second decimal point is refused |
| QueryParser.FloatSyntaxBareExponent | zulia-query-parser/src/main/java/io/zulia/server/search/ZuliaQueryParser.java:120-121 | an exponent marker without digits is refused |
| QueryParser.FloatSyntaxSpecial | zulia-query-parser/src/main/java/io/zulia/server/search/ZuliaQueryParser.java:120-121 | "-Infinity" is accepted and "nan" is refused: the special values keep their case |
| QueryParser.ParseIsoLocalDate | zulia-query-parser/src/main/java/io/zulia/server/search/ZuliaQueryParser.java:44 | an accepted ISO_LOCAL_DATE is a real calendar date |
| QueryParser.ParseInstant | zulia-query-parser/src/main/java/io/zulia/server/search/ZuliaQueryParser.java:41 | Instant.parse(...).toEpochMilli() yields a long or throws |
| QueryParser.DateAsLong | zulia-query-parser/src/main/java/io/zulia/server/search/ZuliaQueryParser.java:38-48 | the milliseconds are a long, and text without ':' gives a UTC midnight |
| QueryParser.IntBounds | zulia-query-parser/src/main/java/io/zulia/server/search/ZuliaQueryParser.java:97-107 | missing bounds are Integer.MIN_VALUE and MAX_VALUE, every bound is an int, and an exclusive bound that cannot move throws |
| QueryParser.LongBounds | zulia-query-parser/src/main/java/io/zulia/server/search/ZuliaQueryParser.java:108-118 | the same for longs |
| QueryParser.DateBounds | zulia-query-parser/src/main/java/io/zulia/server/search/ZuliaQueryParser.java:141-157 | intended behaviour (lines 153-155 as written are DateBoundsAsWritten): every date bound is a long, an exclusive end moved down by one |
| QueryParser.NumericOrDateRange | zulia-query-parser/src/main/java/io/zulia/server/search/ZuliaQueryParser.java:95-159 | intended behaviour (date end as in DateBounds): any other type throws, int ranges are IntBounds, and float and double ranges succeed exactly when both ends parse |
| QueryParser.IntBoundsExact | zulia-query-parser/src/main/java/io/zulia/server/search/ZuliaQueryParser.java:97-107 | the int bounds admit exactly the ints the request admits |
| QueryParser.IntBoundsOverflow | zulia-query-parser/src/main/java/io/zulia/server/search/ZuliaQueryParser.java:103-105 | an exclusive end at Integer.MIN_VALUE makes addExact throw |
| QueryParser.DateBoundsExact | zulia-query-parser/src/main/java/io/zulia/server/search/ZuliaQueryParser.java:141-157 | the corrected date bounds admit exactly the instants the request admits |
| QueryParser.DateBoundsAsWrittenAdmitsEnd | zulia-query-parser/src/main/java/io/zulia/server/search/ZuliaQueryParser.java:153-155 | as written, an exclusive date end admits the end instant and the one after, both of which the request excludes |
| QueryParser.ReadIsoDate | zulia-query-parser/src/main/java/io/zulia/server/search/ZuliaQueryParser.java:44 | a ten-character yyyy-MM-dd of a real date parses to its fields |
| QueryParser.ExampleNewYear2020 | zulia-query-parser/src/main/java/io/zulia/server/search/ZuliaQueryParser.java:44-45 | "2020-01-01" is 1577836800000 ms |
| QueryParser.ExampleExclusiveDateEnd | zulia-query-parser/src/main/java/io/zulia/server/search/ZuliaQueryParser.java:141-157 | [* TO 2020-01-01} reaches 1 ms past midnight as written and 1 ms before it as intended |
| QueryParser.RangeQuery | zulia-query-parser/src/main/java/io/zulia/server/search/ZuliaQueryParser.java:59-74 | intended behaviour (date end as in DateBounds): length fields are ranged as ints by IntBounds, numeric and date fields by their type, others as text |
| QueryParser.NewTermQuery | zulia-query-parser/src/main/java/io/zulia/server/search/ZuliaQueryParser.java:162-206 | an int term is the parsed int, a long or date term the parsed long or milliseconds, a float term text the float parser accepts |
| QueryParser.UnparsableNumberMatchesNothing | zulia-query-parser/src/main/java/io/zulia/server/search/ZuliaQueryParser.java:184-200 | on an int field, text that does not parse gives MatchNoDocsQuery, not an error |
| QueryParser.FloatTermQuery | zulia-query-parser/src/main/java/io/zulia/server/search/ZuliaQueryParser.java:191-200 | on a float or double field, refused text gives MatchNoDocsQuery and accepted text an exact query |
| QueryParser.WildcardQuery | zulia-query-parser/src/main/java/io/zulia/server/search/ZuliaQueryParser.java:216-221 | a lone '*' on a named field asks for documents listing the field; everything else stays a wildcard query |
| DateUtil.NormalizeSlashes | zulia-common/src/main/java/io/zulia/util/ZuliaDateUtil.java:38-40 | every '/' becomes '-', nothing else changes, and no '/' is left |
| DateUtil.ResolveSmart | zulia-common/src/main/java/io/zulia/util/ZuliaDateUtil.java:19-25 | the SMART resolver accepts exactly months 1-12 and days 1-31, gives a real date, and keeps a day that exists (also line 57) |
| DateUtil.ParseDay | zulia-common/src/main/java/io/zulia/util/ZuliaDateUtil.java:57 | a parsed yyyy-M-d is a real date |
| DateUtil.DayBounds | zulia-common/src/main/java/io/zulia/util/ZuliaDateUtil.java:58-61 | a day runs from its UTC midnight over exactly one day of milliseconds |
| DateUtil.MonthBounds | zulia-common/src/main/java/io/zulia/util/ZuliaDateUtil.java:66-70 | a month runs from its first midnight over exactly its days |
| DateUtil.YearBounds | zulia-common/src/main/java/io/zulia/util/ZuliaDateUtil.java:76-80 | a year runs from its first midnight over exactly its days |
| DateUtil.ParseDate | zulia-common/src/main/java/io/zulia/util/ZuliaDateUtil.java:36-88 | a timestamp gives a single instant, every range begins no later than it ends, and the DateTimeException escapes exactly for a yyyy-M with a bad month |
| DateUtil.NoSlashesUnchanged | zulia-common/src/main/java/io/zulia/util/ZuliaDateUtil.java:38-40 | text without '/' is left as it is |
| DateUtil.SlashesAreDashes | zulia-common/src/main/java/io/zulia/util/ZuliaDateUtil.java:38-40 | writing '/' or '-' makes no difference |
| DateUtil.PeriodsNest | zulia-common/src/main/java/io/zulia/util/ZuliaDateUtil.java:57-80 | a day lies inside its month and a month inside its year |
| DateUtil.ExampleClampedDay | zulia-common/src/main/java/io/zulia/util/ZuliaDateUtil.java:57-61 | "2021/02/30" is moved back to 28 February and covers that whole day |
| DateUtil.ExampleMonth | zulia-common/src/main/java/io/zulia/util/ZuliaDateUtil.java:66-70 | "2020-02" covers all 29 days of February 2020 |
| DateUtil.ExampleBadMonth | zulia-common/src/main/java/io/zulia/util/ZuliaDateUtil.java:57-84 | "2021-13-01" matches no format: null |
| DateUtil.ExampleBadYearMonth | zulia-common/src/main/java/io/zulia/util/ZuliaDateUtil.java:66 | "2021-13" passes the yyyy-M formatter and YearMonth.from throws |
| Calendar.MonthLength | zulia-common/src/main/java/io/zulia/util/ZuliaDateUtil.java:60 | every month has 28 to 31 days |
| Calendar.YearStep | zulia-common/src/main/java/io/zulia/util/ZuliaDateUtil.java:79 | consecutive years are a year's length apart |
| Calendar.NextDay | zulia-common/src/main/java/io/zulia/util/ZuliaDateUtil.java:60 | plusDays(1) gives a real date one epoch day later |
| Calendar.NextMonthStart | zulia-common/src/main/java/io/zulia/util/ZuliaDateUtil.java:69 | plusMonths(1) from the first of a month is the month's length later |
| Calendar.NextYearStart | zulia-common/src/main/java/io/zulia/util/ZuliaDateUtil.java:79 | plusYears(1) from 1 January is the year's length later |
| Calendar.ReadNumber | zulia-common/src/main/java/io/zulia/util/ZuliaDateUtil.java:19-30 | a greedily read number of minWidth to maxWidth digits and its value |
| Calendar.ReadLetter | zulia-query-parser/src/main/java/io/zulia/server/search/ZuliaQueryParser.java:41 | the 'T' or 'Z' of an instant; the case-insensitive ISO_INSTANT also takes lower case |
| Calendar.ReadFraction | zulia-common/src/main/java/io/zulia/util/ZuliaDateUtil.java:21 | a fraction of a second is under one second in nanoseconds |
| Calendar.ReadTime | zulia-common/src/main/java/io/zulia/util/ZuliaDateUtil.java:21 | HH:mm[:ss[.f]] fields, each under 100 |
| Calendar.SmartTime | zulia-common/src/main/java/io/zulia/util/ZuliaDateUtil.java:21 | 24:00 with nothing after it is the end of the day; otherwise the fields must be in range |
| Calendar.InstantTime | zulia-query-parser/src/main/java/io/zulia/server/search/ZuliaQueryParser.java:41 | Instant.parse's time agrees with the SMART one except for the leap second |
| Calendar.InstantTimeSpecialCases | zulia-query-parser/src/main/java/io/zulia/server/search/ZuliaQueryParser.java:41 | 23:59:60 reads as 23:59:59, 24:00:00 as the end of the day, and 24:00 with a fraction is refused |
| Calendar.ReadOffset | zulia-common/src/main/java/io/zulia/util/ZuliaDateUtil.java:21 | 'Z' or a sign with hours and minutes: an offset within 18 hours |
| Calendar.EndOfDayIsNextMidnight | zulia-common/src/main/java/io/zulia/util/ZuliaDateUtil.java:21 | 24:00 on a day is midnight of the next day |
| Calendar.StartOfDayMillis | zulia-common/src/main/java/io/zulia/util/ZuliaDateUtil.java:58-59 | atStartOfDay in UTC is a whole number of days of milliseconds |
| QueryRequestValidation.FacetAmountsFacts | zulia-server/src/main/java/io/zulia/server/connection/server/validation/QueryRequestValidator.java:32-37 | a set maxFacets or shardFacets is kept, 0 becomes 10 and ten times maxFacets, and defaulting twice is defaulting once (also lines 52-57) |
| QueryRequestValidation.StatDefaultsFacts | zulia-server/src/main/java/io/zulia/server/connection/server/validation/QueryRequestValidator.java:31-47 | a stat request is refused exactly for a negative precision or a percentile outside [0, 1]; an accepted one asking for percentiles has a positive precision, and validating it again changes nothing |
| QueryRequestValidation.StatDefaultsRefused | zulia-server/src/main/java/io/zulia/server/connection/server/validation/QueryRequestValidator.java:42-47 | the refusal condition, both directions |
| QueryRequestValidation.StatDefaultsAccepted | zulia-server/src/main/java/io/zulia/server/connection/server/validation/QueryRequestValidator.java:32-41 | an accepted stat request keeps its percentiles and field, gets its facet amounts and precision, and is a fixed point |
| QueryRequestValidation.StatsDefaultsFacts | zulia-server/src/main/java/io/zulia/server/connection/server/validation/QueryRequestValidator.java:31-48 | the stat list is accepted exactly when every stat request is, and then holds each one's validated form in place |
| QueryRequestValidation.StatsDefaultsOk | zulia-server/src/main/java/io/zulia/server/connection/server/validation/QueryRequestValidator.java:31-48 | the list is accepted exactly when each request is |
| QueryRequestValidation.StatsDefaultsLength | zulia-server/src/main/java/io/zulia/server/connection/server/validation/QueryRequestValidator.java:31-48 | an accepted list keeps its length |
| QueryRequestValidation.StatsDefaultsAt | zulia-server/src/main/java/io/zulia/server/connection/server/validation/QueryRequestValidator.java:31-48 | an accepted list holds each request's validated form at its position |
| QueryRequestValidation.StatsFailure | zulia-server/src/main/java/io/zulia/server/connection/server/validation/QueryRequestValidator.java:31-48 | the first refused stat request refuses the list with its error |
| QueryRequestValidation.StatsFailureExtends | zulia-server/src/main/java/io/zulia/server/connection/server/validation/QueryRequestValidator.java:31-48 | once refused, later stat requests change nothing |
| QueryRequestValidation.PositionOf | zulia-server/src/main/java/io/zulia/server/connection/server/validation/QueryRequestValidator.java:70 | the entry found for a key is the only one with it, or there is none |
| QueryRequestValidation.PositionOfSameKeys | zulia-server/src/main/java/io/zulia/server/connection/server/validation/QueryRequestValidator.java:72-73 | raising amounts moves no key |
| QueryRequestValidation.PositionOfAppend | zulia-server/src/main/java/io/zulia/server/connection/server/validation/QueryRequestValidator.java:76 | adding an entry puts its key last and moves no other key |
| QueryRequestValidation.InsertShape | zulia-server/src/main/java/io/zulia/server/connection/server/validation/QueryRequestValidator.java:70-77 | existing entries keep their key and facet, and a new key comes last |
| QueryRequestValidation.InsertPosition | zulia-server/src/main/java/io/zulia/server/connection/server/validation/QueryRequestValidator.java:70-77 | one pass moves no key and leaves the request's key present |
| QueryRequestValidation.InsertDistinct | zulia-server/src/main/java/io/zulia/server/connection/server/validation/QueryRequestValidator.java:70-77 | one pass keeps one entry per key |
| QueryRequestValidation.UniqueDistinct | zulia-server/src/main/java/io/zulia/server/connection/server/validation/QueryRequestValidator.java:60-78 | the merged requests have one entry per facet |
| QueryRequestValidation.UniqueCovers | zulia-server/src/main/java/io/zulia/server/connection/server/validation/QueryRequestValidator.java:60-78 | every requested facet has its entry |
| QueryRequestValidation.UniqueFirst | zulia-server/src/main/java/io/zulia/server/connection/server/validation/QueryRequestValidator.java:70-77 | each entry keeps the facet of the first request for its key |
| QueryRequestValidation.InsertBounds | zulia-server/src/main/java/io/zulia/server/connection/server/validation/QueryRequestValidator.java:72-73 | one pass keeps each entry at least as high and raises the request's entry to at least its amounts |
| QueryRequestValidation.UniqueBounds | zulia-server/src/main/java/io/zulia/server/connection/server/validation/QueryRequestValidator.java:72-73 | each entry's amounts are at least those of every request for its facet |
| QueryRequestValidation.GivenExtends | zulia-server/src/main/java/io/zulia/server/connection/server/validation/QueryRequestValidator.java:72-73 | an amount given by some request stays given as requests are added |
| QueryRequestValidation.UniqueAttained | zulia-server/src/main/java/io/zulia/server/connection/server/validation/QueryRequestValidator.java:72-73 | each entry's amounts were given by some request for its facet: Math.max invents nothing |
| QueryRequestValidation.UniqueKeyedBy | zulia-server/src/main/java/io/zulia/server/connection/server/validation/QueryRequestValidator.java:62-69 | each entry stays keyed by its facet label and path |
| QueryRequestValidation.CountsValidatedFacts | zulia-server/src/main/java/io/zulia/server/connection/server/validation/QueryRequestValidator.java:50-80 | after validation no two count requests share a facet, every requested facet is still asked for at least as much, and every maxFacets is non-zero |
| QueryRequestValidation.RequestsDistinct | zulia-server/src/main/java/io/zulia/server/connection/server/validation/QueryRequestValidator.java:79-80 | the map's values are for distinct facets |
| QueryRequestValidation.CountsCover | zulia-server/src/main/java/io/zulia/server/connection/server/validation/QueryRequestValidator.java:50-80 | every count request is covered by a validated one for its facet with at least its amounts |
| QueryRequestValidation.CountCovered | zulia-server/src/main/java/io/zulia/server/connection/server/validation/QueryRequestValidator.java:50-80 | names the validated request that covers a given one |
| QueryRequestValidation.CountsNonZero | zulia-server/src/main/java/io/zulia/server/connection/server/validation/QueryRequestValidator.java:52-54 | every validated count request has a non-zero maxFacets (also lines 72-73) |
| QueryRequestValidation.HighlightDefaultsFacts | zulia-server/src/main/java/io/zulia/server/connection/server/validation/QueryRequestValidator.java:84-102 | a highlight request gets tags and non-zero amounts, keeps whatever it set, and defaulting twice is defaulting once |
| QueryRequestValidation.ValidateFacts | zulia-server/src/main/java/io/zulia/server/connection/server/validation/QueryRequestValidator.java:23-128 | a request is refused exactly when a stat request is, or when it highlights or analyses without a FULL or ALL fetch; an accepted one has one count request per facet and non-zero maxFacets and topN |
| QueryRequestValidation.ValidateRefused | zulia-server/src/main/java/io/zulia/server/connection/server/validation/QueryRequestValidator.java:42-47 | the refusal condition, both directions (also lines 104-106, 120-122) |
| QueryRequestValidation.ValidateAccepted | zulia-server/src/main/java/io/zulia/server/connection/server/validation/QueryRequestValidator.java:23-128 | what an accepted request holds |
| QueryRequestValidation.SetStatDefault | zulia-server/src/main/java/io/zulia/server/connection/server/validation/QueryRequestValidator.java:31-48 | the checks on one stat builder compute exactly its validated form or error |
| QueryRequestValidation.SetStatDefaults | zulia-server/src/main/java/io/zulia/server/connection/server/validation/QueryRequestValidator.java:31-48 | the loop over stat builders computes exactly the validated list or the first error |
| QueryRequestValidation.Put | zulia-server/src/main/java/io/zulia/server/connection/server/validation/QueryRequestValidator.java:70-77 | one pass of the uniqueRequests loop is one insertion, keeping the map in step with the entries |
| QueryRequestValidation.MergeCountRequests | zulia-server/src/main/java/io/zulia/server/connection/server/validation/QueryRequestValidator.java:60-80 | the uniqueRequests loop and its values give exactly the merged requests |
| QueryRequestValidation.RequestsOf | zulia-server/src/main/java/io/zulia/server/connection/server/validation/QueryRequestValidator.java:80 | the map's values are the requests of its entries, in order |
| QueryRequestValidation.DefaultEach | zulia-server/src/main/java/io/zulia/server/connection/server/validation/QueryRequestValidator.java:84-102 | the defaulting loops apply the default to each request in place (also lines 112-118) |
| QueryRequestValidation.ValidateAndSetDefault | zulia-server/src/main/java/io/zulia/server/connection/server/validation/QueryRequestValidator.java:23-128 | the builder method computes exactly the validated request or its error |
| QueryValidation.RegisterAllFacts | zulia-server/src/main/java/io/zulia/server/search/QueryCombiner.java:97-121 | the first loop fails exactly when some shard of some index answered twice, and otherwise records for every index seen exactly the shard numbers received |
| QueryValidation.RegisterAllAppend | zulia-server/src/main/java/io/zulia/server/search/QueryCombiner.java:97-121 | registering two runs of events is registering one after the other |
| QueryValidation.FirstMissingFacts | zulia-server/src/main/java/io/zulia/server/search/QueryCombiner.java:135-139 | the first shard number missing from the map, or none exactly when all are there |
| QueryValidation.FullShardSet | zulia-server/src/main/java/io/zulia/server/search/QueryCombiner.java:131-139 | n shard numbers including all of 0 .. n-1 are exactly those |
| QueryValidation.CheckIndexPasses | zulia-server/src/main/java/io/zulia/server/search/QueryCombiner.java:124-139 | an index passes exactly when it answered from exactly its shards 0 .. numberOfShards-1 |
| QueryValidation.CheckIndexesPass | zulia-server/src/main/java/io/zulia/server/search/QueryCombiner.java:123-140 | the second loop passes exactly when every searched index does |
| QueryValidation.ValidatedIff | zulia-server/src/main/java/io/zulia/server/search/QueryCombiner.java:96-141 | the responses pass exactly when no shard answered twice and every searched index answered from exactly its shards 0 .. numberOfShards-1 |
| QueryValidation.FailureIsFinalFor | zulia-server/src/main/java/io/zulia/server/search/QueryCombiner.java:111 | once a repeated shard throws, the remaining responses change nothing |
| QueryValidation.RegisterShards | zulia-server/src/main/java/io/zulia/server/search/QueryCombiner.java:105-117 | the shard loop registers exactly its shard events |
| QueryValidation.RegisterIndexes | zulia-server/src/main/java/io/zulia/server/search/QueryCombiner.java:99-119 | the index loop registers exactly its index and shard events |
| QueryValidation.RegisterResponses | zulia-server/src/main/java/io/zulia/server/search/QueryCombiner.java:97-121 | the first loop registers every shard response of every node, in order |
| QueryValidation.CheckAll | zulia-server/src/main/java/io/zulia/server/search/QueryCombiner.java:123-140 | the second loop reports exactly the first failing index |
| QueryValidation.Validate | zulia-server/src/main/java/io/zulia/server/search/QueryCombiner.java:96-141 | both loops compute exactly the validation result |
| QueryValidation.EventsConsistent | zulia-server/src/main/java/io/zulia/server/search/QueryCombiner.java:97-121 | the registry's shard map holds each response under its own shard number |
| QueryValidation.ValidatedShards | zulia-server/src/main/java/io/zulia/server/search/QueryCombiner.java:123-140 | after validation every searched index has all its shards 0 .. numberOfShards-1 |
| QueryCombining.MergedFacts | zulia-server/src/main/java/io/zulia/server/search/QueryCombiner.java:353-356 | the merged list holds as many hits as the shards returned, every hit of every shard, and nothing else |
| QueryCombining.SumHits | zulia-server/src/main/java/io/zulia/server/search/QueryCombiner.java:149-154 | the loop sums the shards' total hits and counts their returned hits |
| QueryCombining.MergeResults | zulia-server/src/main/java/io/zulia/server/search/QueryCombiner.java:353-356 | the loop concatenates the hits shard after shard |
| QueryCombining.ResultsSizeBounds | zulia-server/src/main/java/io/zulia/server/search/QueryCombiner.java:82 | never more hits are kept than were returned; without int overflow, exactly amount + start of them or all when fewer came back (also line 159) |
| QueryCombining.ShardCountFound | zulia-server/src/main/java/io/zulia/server/search/QueryCombiner.java:73-77 | every searched index has a shard count, that of the last index listed under its name |
| QueryCombining.EmptySlotsFacts | zulia-server/src/main/java/io/zulia/server/search/QueryCombiner.java:163-168 | an array of numberOfShards nulls is made for exactly the indexes that answered, and a name without a count throws |
| QueryCombining.MakeSlots | zulia-server/src/main/java/io/zulia/server/search/QueryCombiner.java:163-168 | the loop makes exactly those arrays |
| QueryCombining.StoreFacts | zulia-server/src/main/java/io/zulia/server/search/QueryCombiner.java:170-176 | storing fails exactly when a hit names an index without slots or a shard outside them; otherwise each slot holds the last hit placed in it and no array changes shape (also lines 513-516) |
| QueryCombining.StoreAll | zulia-server/src/main/java/io/zulia/server/search/QueryCombiner.java:173-175 | the loop stores the hits one by one and stops at the first that does not fit |
| QueryCombining.RequestsExact | zulia-server/src/main/java/io/zulia/server/search/QueryCombiner.java:187-235 | each count request some shard answered is listed once, and only those (also line 277) |
| QueryCombining.MergedFacetsFacts | zulia-server/src/main/java/io/zulia/server/search/QueryCombiner.java:277-351 | the merged facet groups answer distinct count requests, exactly those some shard answered |
| QueryCombining.GroupByRequest | zulia-server/src/main/java/io/zulia/server/search/QueryCombiner.java:187-235 | the response loop gathers each count request's groups with their shard positions |
| QueryCombining.MergeFacets | zulia-server/src/main/java/io/zulia/server/search/QueryCombiner.java:277-351 | each count request's groups are merged as the facet combiner merges them |
| QueryCombining.CombinedEachMerges | zulia-server/src/main/java/io/zulia/server/search/QueryCombiner.java:277-351 | combining each request in turn gives the merged facet groups |
| QueryCombining.FirstSomeFacts | zulia-server/src/main/java/io/zulia/server/search/QueryCombiner.java:370-376 | the first defined sort type, absent exactly when none is defined; when all agree every defined one is it |
| QueryCombining.SettleFacts | zulia-server/src/main/java/io/zulia/server/search/QueryCombiner.java:370-386 | one field's loop over the indexes succeeds exactly when their types agree, and records the first one |
| QueryCombining.SortTypesSound | zulia-server/src/main/java/io/zulia/server/search/QueryCombiner.java:365-389 | settled sort types record each plain field's agreed type and nothing for length fields |
| QueryCombining.SortTypesComplete | zulia-server/src/main/java/io/zulia/server/search/QueryCombiner.java:365-389 | the sort types settle whenever each field's types agree across indexes and no field is named twice |
| QueryCombining.SettleField | zulia-server/src/main/java/io/zulia/server/search/QueryCombiner.java:370-387 | the inner loop computes exactly one field's settled type or the conflict |
| QueryCombining.SettleSortTypes | zulia-server/src/main/java/io/zulia/server/search/QueryCombiner.java:365-389 | the loop over sort fields computes exactly the sort type map or the first conflict |
| QueryCombining.SortHitsSorted | zulia-server/src/main/java/io/zulia/server/search/QueryCombiner.java:508-509 | the sorted hits are in comparator order and are the merged hits, each as often |
| QueryCombining.LastForIndexFacts | zulia-server/src/main/java/io/zulia/server/search/QueryCombiner.java:521-534 | the last hit of an index is one of its slots, present exactly when some slot is filled, and no slot sorts after it |
| QueryCombining.NotShortSorted | zulia-server/src/main/java/io/zulia/server/search/QueryCombiner.java:545-567 | a merge that is not short under field sorting has no shard's next hit sorting before a kept hit of its index |
| QueryCombining.NotShortByScore | zulia-server/src/main/java/io/zulia/server/search/QueryCombiner.java:545-586 | a merge that is not short under score sorting has every such next hit within the shard tolerance |
| QueryCombining.FindLast | zulia-server/src/main/java/io/zulia/server/search/QueryCombiner.java:521-534 | the slot loop finds exactly the last hit of the index |
| QueryCombining.CheckIndexShort | zulia-server/src/main/java/io/zulia/server/search/QueryCombiner.java:536-589 | the loop over one index's shards decides exactly whether that index is short |
| QueryCombining.CheckShort | zulia-server/src/main/java/io/zulia/server/search/QueryCombiner.java:518-590 | the loop over the indexes, left at the first short one, decides exactly whether the merge is short |
| QueryCombining.PageResults | zulia-server/src/main/java/io/zulia/server/search/QueryCombiner.java:594-600 | the page is the kept hits from position start on |
| QueryCombining.Minimal | zulia-server/src/main/java/io/zulia/server/search/QueryCombiner.java:609-610 | a reduced hit keeps score, shard and sort values and clears uniqueId, index name, result index, timestamp and document |
| QueryCombining.KeptRestores | zulia-server/src/main/java/io/zulia/server/search/QueryCombiner.java:606-613 | placing an index's reduced hits by shard number refills exactly its filled slots |
| QueryCombining.NewLastRestores | zulia-server/src/main/java/io/zulia/server/search/QueryCombiner.java:602-620 | placing the new last result by shard number refills exactly the filled slots, each with its reduced hit |
| QueryCombining.LastResultRoundTrip | zulia-server/src/main/java/io/zulia/server/search/QueryCombiner.java:602-620 | on the next page, seeding fresh slots of the same shape from the last result succeeds and restores every filled slot (also lines 163-176) |
| QueryCombining.KeptHits | zulia-server/src/main/java/io/zulia/server/search/QueryCombiner.java:606-613 | the shard loop keeps exactly the reduced hits |
| QueryCombining.BuildLastResult | zulia-server/src/main/java/io/zulia/server/search/QueryCombiner.java:602-620 | the index loop builds exactly the new last result |
| QueryCombining.SeedSlots | zulia-server/src/main/java/io/zulia/server/search/QueryCombiner.java:170-176 | the loop over the previous last result stores each index's hits in turn |
| QueryCombining.TopHitsFacts | zulia-server/src/main/java/io/zulia/server/search/QueryCombiner.java:508-511 | the kept hits are size of the merged hits in comparator order, none of the rest sorting before them |
| QueryCombining.SeededOutcome | zulia-server/src/main/java/io/zulia/server/search/QueryCombiner.java:358-389 | the merge ends on a negative list capacity, on conflicting sort types, or on the finish with the settled sort context (also lines 159, 353) |
| QueryCombining.FinishResults | zulia-server/src/main/java/io/zulia/server/search/QueryCombiner.java:508-622 | after a successful finish the kept hits are the first size merged hits in order (none without hits) and the page starts at start |
| QueryCombining.CombineResults | zulia-server/src/main/java/io/zulia/server/search/QueryCombiner.java:143-623 | a successful merge reports the summed total hits and merged facets, keeps at most the returned hits, sorted and first in comparator order, and pages from start |
| QueryCombining.CombineLastResultFits | zulia-server/src/main/java/io/zulia/server/search/QueryCombiner.java:602-620 | the last result sent back seeds the next page's fresh slots without failing (also lines 163-176) |
| QueryCombining.QueryCombiner.constructor | zulia-server/src/main/java/io/zulia/server/search/QueryCombiner.java:72-94 | a new combiner holds its indexes, request and responses, with no results and isShort false |
| QueryCombining.QueryCombiner.Validate | zulia-server/src/main/java/io/zulia/server/search/QueryCombiner.java:96-141 | validate() fails exactly as the specification says, and otherwise records the shard map, index names and shard responses |
| QueryCombining.QueryCombiner.GetQueryResponse | zulia-server/src/main/java/io/zulia/server/search/QueryCombiner.java:143-623 | getQueryResponse() fails exactly when the merge does, with its error, and otherwise returns its response and sets results, resultsSize and isShort to it |
| QueryCombining.QueryCombiner.MergeValidated | zulia-server/src/main/java/io/zulia/server/search/QueryCombiner.java:147-623 | the steps after validate() compute exactly the specified merge |
| QueryCombining.QueryCombiner.MergeSeeded | zulia-server/src/main/java/io/zulia/server/search/QueryCombiner.java:178-623 | the steps after seeding compute exactly the specified merge |
| QueryCombining.QueryCombiner.SortAndFinish | zulia-server/src/main/java/io/zulia/server/search/QueryCombiner.java:353-623 | merging, settling sort types and finishing compute exactly the specified merge |
| FacetCombining.Insert | zulia-server/src/main/java/io/zulia/server/search/aggregation/facets/FacetCombiner.java:87-88 | inserting a facet count keeps the others, adds exactly it, and keeps a descending ranking descending |
| FacetCombining.SortByCount | zulia-server/src/main/java/io/zulia/server/search/aggregation/facets/FacetCombiner.java:87-88 | the TreeSet ranking is a permutation in descending count order |
| FacetCombining.FacetCombiner.constructor | zulia-server/src/main/java/io/zulia/server/search/aggregation/facets/FacetCombiner.java:32-37 | a new combiner holds its count request and response count and no groups |
| FacetCombining.FacetCombiner.HandleFacetGroupForShard | zulia-server/src/main/java/io/zulia/server/search/aggregation/facets/FacetCombiner.java:39-41 | each call appends the group with its shard index |
| FacetCombining.FacetCombiner.GetCombinedFacetGroup | zulia-server/src/main/java/io/zulia/server/search/aggregation/facets/FacetCombiner.java:43-144 | one group is returned as it is; otherwise the result is the specified combination |
| FacetCombining.MergeGroups | zulia-server/src/main/java/io/zulia/server/search/aggregation/facets/FacetCombiner.java:49-142 | the merge loops compute exactly the specified combined group |
| FacetCombining.SumOfMins | zulia-server/src/main/java/io/zulia/server/search/aggregation/facets/FacetCombiner.java:78-82 | the loop sums the shard minimums |
| FacetCombining.Emit | zulia-server/src/main/java/io/zulia/server/search/aggregation/facets/FacetCombiner.java:94-133 | the pass over the ranked facets emits the first maxFacets annotated facets, records the last emitted count and raises the possible-missing value only with facets past the limit |
| FacetCombining.EmitAfterStep | zulia-server/src/main/java/io/zulia/server/search/aggregation/facets/FacetCombiner.java:116-132 | one more ranked facet is emitted below the limit and otherwise only raises the possible-missing value |
| FacetCombining.EmitAfterDone | zulia-server/src/main/java/io/zulia/server/search/aggregation/facets/FacetCombiner.java:118-127 | the break past the limit, when nothing more is computed, changes no result |
| FacetCombining.ErrorIfComputed | zulia-server/src/main/java/io/zulia/server/search/aggregation/facets/FacetCombiner.java:102-114 | a facet's error bound when errors are computed, 0 otherwise |
| FacetCombining.FacetError | zulia-server/src/main/java/io/zulia/server/search/aggregation/facets/FacetCombiner.java:104-111 | the error bound is the sum of the minimums of the shards that do not cover the facet, the sum skipped when every shard covers it |
| FacetCombining.Accumulate | zulia-server/src/main/java/io/zulia/server/search/aggregation/facets/FacetCombiner.java:54-73 | the first pass gives each facet's combined count, the shards returning it, the complete shards and each shard's minimum |
| FacetCombining.AccumulatedFacts | zulia-server/src/main/java/io/zulia/server/search/aggregation/facets/FacetCombiner.java:54-73 | after the first pass the totals are the combined counts and the shard sets are exact |
| FacetCombining.AddCounts | zulia-server/src/main/java/io/zulia/server/search/aggregation/facets/FacetCombiner.java:58-65 | the inner loop adds each count to its facet, records the shard against it, and leaves the shard's minimum at the last count |
| FacetCombining.AddedFacts | zulia-server/src/main/java/io/zulia/server/search/aggregation/facets/FacetCombiner.java:58-65 | after the inner loop every total is raised by the facet's counts and the shard is recorded against exactly the listed facets |
| FacetCombining.GroupStep | zulia-server/src/main/java/io/zulia/server/search/aggregation/facets/FacetCombiner.java:63-72 | adding a group adds its shard to the shards of its facets and, when complete, to the complete shards |
| FacetCombining.TotalAppend | zulia-server/src/main/java/io/zulia/server/search/aggregation/facets/FacetCombiner.java:62 | combined counts do not depend on how the groups are split into batches |
| FacetCombining.TotalUnlisted | zulia-server/src/main/java/io/zulia/server/search/aggregation/facets/FacetCombiner.java:62 | a facet no shard listed counts 0 |
| FacetCombining.FacetsAreListed | zulia-server/src/main/java/io/zulia/server/search/aggregation/facets/FacetCombiner.java:87-88 | the merged facets are exactly those some shard listed, each once |
| FacetCombining.ShardMinimum | zulia-server/src/main/java/io/zulia/server/search/aggregation/facets/FacetCombiner.java:64-72 | a shard's minimum is 0 when its group was complete, else the count of the last facet it listed |
| FacetCombining.CoveredEverywhereNoError | zulia-server/src/main/java/io/zulia/server/search/aggregation/facets/FacetCombiner.java:105-111 | a facet every shard returned or covered completely carries no error |
| FacetCombining.MissingSumBounds | zulia-server/src/main/java/io/zulia/server/search/aggregation/facets/FacetCombiner.java:104-111 | the error bound lies between 0 and the sum of all minimums |
| FacetCombining.RankedFacts | zulia-server/src/main/java/io/zulia/server/search/aggregation/facets/FacetCombiner.java:87-88 | the ranking holds each listed facet once with its combined count, by descending count |
| FacetCombining.EmittedBound | zulia-server/src/main/java/io/zulia/server/search/aggregation/facets/FacetCombiner.java:90-133 | at most maxFacets facets are emitted, all when maxFacets is not positive, by descending count |
| FacetCombining.EmittedCounts | zulia-server/src/main/java/io/zulia/server/search/aggregation/facets/FacetCombiner.java:100 | every emitted facet was listed and carries its combined count (also line 130) |
| FacetCombining.EmittedPrefix | zulia-server/src/main/java/io/zulia/server/search/aggregation/facets/FacetCombiner.java:94-133 | the emitted facets are the first ranked facets |
| FacetCombining.DroppedNoLarger | zulia-server/src/main/java/io/zulia/server/search/aggregation/facets/FacetCombiner.java:94-133 | every facet left out counts no more than any emitted one |
| FacetCombining.MaxWithErrorBounds | zulia-server/src/main/java/io/zulia/server/search/aggregation/facets/FacetCombiner.java:120-124 | the possible-missing value is at least its start and at least each dropped facet's count plus error |
| FacetCombining.PossibleMissingFlag | zulia-server/src/main/java/io/zulia/server/search/aggregation/facets/FacetCombiner.java:135-140 | the flag is set exactly when some facet was emitted and the possible-missing value exceeds the last emitted count, which is the smallest |
| FacetCombining.NothingBetterMissing | zulia-server/src/main/java/io/zulia/server/search/aggregation/facets/FacetCombiner.java:84-140 | with errors computed and the flag clear, no dropped facet's count plus error can beat the last emitted count |
| StatCombining.UpdateMax | zulia-server/src/main/java/io/zulia/server/search/stat/StatCombiner.java:265-294 | the merged maximum is at least both values in every component, takes each component from one of them, and exists when either does |
| StatCombining.UpdateMin | zulia-server/src/main/java/io/zulia/server/search/stat/StatCombiner.java:302-331 | the merged minimum is at most both values in every component, takes each component from one of them, and exists when either does |
| StatCombining.SumFrom | zulia-server/src/main/java/io/zulia/server/search/stat/StatCombiner.java:339-354 | a sum exists exactly when there is a start or some value |
| StatCombining.MaxOfIsMaximum | zulia-server/src/main/java/io/zulia/server/search/stat/StatCombiner.java:265-294 | the merged maximum is the largest value any shard sent, component by component, and exists when some shard's does (also line 224) |
| StatCombining.MinOfIsMinimum | zulia-server/src/main/java/io/zulia/server/search/stat/StatCombiner.java:302-331 | the merged minimum is the smallest value any shard sent, component by component, and exists when some shard's does (also line 225) |
| StatCombining.WrapAdd | zulia-server/src/main/java/io/zulia/server/search/stat/StatCombiner.java:339-354 | wrapping the int component after every addition equals wrapping once at the end |
| StatCombining.SumTotals | zulia-server/src/main/java/io/zulia/server/search/stat/StatCombiner.java:339-354 | addToSum adds up every numeric component, the int one modulo 2^32, from the start value |
| StatCombining.SumFlags | zulia-server/src/main/java/io/zulia/server/search/stat/StatCombiner.java:339-354 | the sum exists when any value does and keeps the string of the start |
| StatCombining.CarriedAfterMerges | zulia-server/src/main/java/io/zulia/server/search/stat/StatCombiner.java:221-232 | a carrier that took the shards' stats holds their summed counts, their sum and the extremes of their minima and maxima |
| StatCombining.CountsMerge | zulia-server/src/main/java/io/zulia/server/search/stat/StatCombiner.java:229-231 | the counts are the sums of the shards' counts |
| StatCombining.SumMerge | zulia-server/src/main/java/io/zulia/server/search/stat/StatCombiner.java:226 | the carrier's sum is the sum of the shards' sums |
| StatCombining.MaxMerge | zulia-server/src/main/java/io/zulia/server/search/stat/StatCombiner.java:224 | the carrier's maximum is the maximum of the shards' maxima |
| StatCombining.MinMerge | zulia-server/src/main/java/io/zulia/server/search/stat/StatCombiner.java:225 | the carrier's minimum is the minimum of the shards' minima |
| StatCombining.StatCarrier.constructor | zulia-server/src/main/java/io/zulia/server/search/stat/StatCombiner.java:204-214 | a new carrier has zero counts and no values |
| StatCombining.StatCarrier.AddStat | zulia-server/src/main/java/io/zulia/server/search/stat/StatCombiner.java:221-232 | adding one shard's stats is one step of the specified merge and leaves the error value alone |
| StatCombining.StatCarrier.AddErrorStat | zulia-server/src/main/java/io/zulia/server/search/stat/StatCombiner.java:239-241 | the error value becomes the minimum with the metric and nothing else changes |
| StatCombining.ConvertAndCombine | zulia-server/src/main/java/io/zulia/server/search/stat/StatCombiner.java:160-201 | the carrier loop computes exactly the specified merged statistics of one facet |
| StatCombining.MissingShards | zulia-server/src/main/java/io/zulia/server/search/stat/StatCombiner.java:114-126 | the missing shards are exactly those that sent nothing, each once, ascending |
| StatCombining.NonReportingShards | zulia-server/src/main/java/io/zulia/server/search/stat/StatCombiner.java:114-126 | the mask loop lists exactly the missing shards |
| StatCombining.ErrorBoundAsWrittenThrows | zulia-server/src/main/java/io/zulia/server/search/stat/StatCombiner.java:134-151 | as written, getErrorBound throws exactly when a missing shard returned no facet statistics, and otherwise agrees with the corrected bound |
| StatCombining.ErrorBoundSums | zulia-server/src/main/java/io/zulia/server/search/stat/StatCombiner.java:145-150 | intended behaviour (line 147 as written is ErrorBoundAsWritten): each numeric component of the bound is the sum over the missing shards' minimum sums |
| StatCombining.ShardErrorValue | zulia-server/src/main/java/io/zulia/server/search/stat/StatCombiner.java:138-139 | one shard's carrier takes the minimum of its sums, none when it returned no facet statistics |
| StatCombining.GetErrorBound | zulia-server/src/main/java/io/zulia/server/search/stat/StatCombiner.java:134-151 | intended behaviour (as written is ErrorBoundAsWritten): the loops compute exactly the corrected bound |
| StatCombining.StatNamesExact | zulia-server/src/main/java/io/zulia/server/search/stat/StatCombiner.java:50-58 | each facet some shard returned is named once, and only those |
| StatCombining.GroupForFacts | zulia-server/src/main/java/io/zulia/server/search/stat/StatCombiner.java:50-58 | every entry of a facet's group is that facet's stats from one of the shards |
| StatCombining.GroupShardsDistinct | zulia-server/src/main/java/io/zulia/server/search/stat/StatCombiner.java:50-58 | with one group per shard and unique facet names, a facet's group has at most one entry per shard |
| StatCombining.HasErrorIffMissing | zulia-server/src/main/java/io/zulia/server/search/stat/StatCombiner.java:165 | a merged facet is flagged exactly when not every facet was requested and some shard did not return it |
| StatCombining.CompareSumsIsLex | zulia-server/src/main/java/io/zulia/server/search/stat/StatCombiner.java:86-106 | the comparator's cascade is the lexicographic order on (double, int, long, float, date), reversed |
| StatCombining.ReverseCompareAntisymmetric | zulia-server/src/main/java/io/zulia/server/search/stat/StatCombiner.java:86-106 | swapping the arguments negates the comparison |
| StatCombining.ReverseCompareTransitive | zulia-server/src/main/java/io/zulia/server/search/stat/StatCombiner.java:86-106 | between facets with a sum the comparison is transitive |
| StatCombining.SortStats | zulia-server/src/main/java/io/zulia/server/search/stat/StatCombiner.java:76 | the sort is a permutation of the merged facets |
| StatCombining.SortStatsSorted | zulia-server/src/main/java/io/zulia/server/search/stat/StatCombiner.java:86-106 | when every facet has a sum, the sorted facets come largest sum first (also line 76) |
| StatCombining.FacetResultFlag | zulia-server/src/main/java/io/zulia/server/search/stat/StatCombiner.java:65-72 | a merged facet is flagged exactly when not every facet was requested and some shard missed it, and only then carries the error bound of the missing shards (also line 165) |
| StatCombining.FacetResultCounts | zulia-server/src/main/java/io/zulia/server/search/stat/StatCombiner.java:198-200 | a merged facet carries its name and the summed counts of its shards |
| StatCombining.CombinedFacets | zulia-server/src/main/java/io/zulia/server/search/stat/StatCombiner.java:44-77 | the facets returned are exactly those some shard returned, once each, each merged from its own group, largest sum first when all have a sum |
| StatCombining.StatCombiner.constructor | zulia-server/src/main/java/io/zulia/server/search/stat/StatCombiner.java:34-38 | a new combiner has no stat groups |
| StatCombining.StatCombiner.HandleStatGroupForShard | zulia-server/src/main/java/io/zulia/server/search/stat/StatCombiner.java:40-42 | each call appends the group with its shard index |
| StatCombining.StatCombiner.GetCombinedStatGroup | zulia-server/src/main/java/io/zulia/server/search/stat/StatCombiner.java:44-77 | the combined group is exactly the specified one |
| StatCombining.GroupedAt | zulia-server/src/main/java/io/zulia/server/search/stat/StatCombiner.java:53-57 | adding a shard's stats appends to each facet's group exactly that shard's stats for it |
| StatCombining.AddShardFacets | zulia-server/src/main/java/io/zulia/server/search/stat/StatCombiner.java:53-57 | the inner forEach adds one shard's stats to the groups |
| StatCombining.GroupByFacet | zulia-server/src/main/java/io/zulia/server/search/stat/StatCombiner.java:50-58 | the grouping collects each facet's stats from all shards, names in first-seen order |
| StatCombining.CombineFacets | zulia-server/src/main/java/io/zulia/server/search/stat/StatCombiner.java:62-72 | each facet's group is merged and flagged ones get the error bound |
| StatCombining.CombineFacet | zulia-server/src/main/java/io/zulia/server/search/stat/StatCombiner.java:62-71 | one facet merged, with the error bound attached when flagged |
| StatCombining.ExampleErrorBoundOverTwoShards | zulia-server/src/main/java/io/zulia/server/search/stat/StatCombiner.java:134-151 | a facet missing from two shards is bounded by their smallest sums, 30 + 40 |
| StatCombining.ExampleEmptyShardThrows | zulia-server/src/main/java/io/zulia/server/search/stat/StatCombiner.java:134-151 | a missing shard with no facet statistics makes the as-written bound throw; the corrected bound is empty |

## Left out

Operations and behaviour of the core that the model does not capture, and contracts stated weaker than the source's behaviour:

- StatCombining.StatCombiner.GetCombinedStatGroup: the `long` doc, all-doc and value counts and the long/date sums are unbounded integers. Java wraps them at 64 bits (StatCombiner.java:62, 228-231, 339-354). So the contract matches the program only while no sum leaves the `long` range.
- QueryCombining.QueryCombiner.GetQueryResponse: `totalHits` is an unbounded sum of the shards' totals. Java's `long` addition wraps past 2^63 - 1 (QueryCombiner.java:149-153). The 32-bit cast of the returned-hit count and of `amount + start` is modelled.
- TermsFederating.GetResponse: the summed `docFreq` and `termFreq` are unbounded, where Java's `long` sums wrap.
- Membership.MembershipTask.Run: the heartbeat difference `latestHeartbeat - heartbeat` is an unbounded integer. Java's `long` subtraction can wrap for timestamps near the ends of the range.
- ShardCommitPolicy.ShardWriteManager.NeedsIdleCommit: the idle-time difference of two `long` clock readings is unbounded. The 32-bit product `idleTimeWithoutCommit * 1000` is modelled.
- PostSorting.FieldCompare: `float` and `double` sort values are exact reals. Float.compare/Double.compare also order NaN and -0.0 by their bits, and that ordering is not modelled.
- StatCombining.StatCombiner.GetCombinedStatGroup: `float` and `double` statistics are summed and compared as exact reals. Rounding, NaN and -0.0 are not modelled.
- QueryCombining.QueryCombiner.GetQueryResponse: hit scores, and the score comparison when no sort field is given, are exact reals.
- TermsFederating.GetResponse: term scores are summed as exact reals.
- QueryParser.NumericOrDateRange: float and double bounds are checked for Java's floating-point syntax (`FloatSyntax`) and are kept as text. `Math.nextUp`/`nextDown` on exclusive float bounds and the parsed value are not modelled.
- QueryParser.NewTermQuery: a float or double term yields an exact-value query that keeps its text. The rounded `float`/`double` value is not modelled.
- QueryRequestValidation.ValidateAndSetDefault: de-duplicated count requests are listed in the order their label and path first occur. Java lists `uniqueRequests.values()` in HashMap iteration order (QueryRequestValidator.java:60, 80), which depends on the keys' hash codes.
- StatCombining.StatCombiner.GetCombinedStatGroup: facets are grouped in first-occurrence order, where Java uses a HashMap. That order survives the stable sort only among facets with equal sums, and among facets without a sum.
- QueryCombining.QueryCombiner.GetQueryResponse: merged facet groups are listed in the order their requests first occur. Java iterates a HashMap (QueryCombiner.java:163-181).
- IndexConfigData.ServerIndexConfigData.constructor: facet groups of equal size keep the order they were defined in. Java takes them from a HashMap, so which of two equal-size groups `getFacetGroupForFacets` returns may differ.
- FacetCombining.SortByCount: FacetCountResult's ordering (a TreeSet comparator) is not part of this model. It is assumed to be count descending, then facet name ascending.
- PostSorting.ScoreCompare: ScoreCompare and ReverseScoreCompare are not part of this model. They are assumed to order by score descending and ascending respectively.
- CreateIndexValidation.ValidateIndexSettingsAndSetDefaults: a warming search is modelled by its search label. An empty or repeated label stands for a search whose bytes do not parse. Parsing and validating the embedded QueryRequest (CreateIndexRequestValidator.java:151-171) are not modelled.
- CreateIndexValidation.ValidateIndexSettingsAndSetDefaults: on failure it promises the error message only. The builder then holds whatever defaults were already applied, as in Java, and the contract says nothing about it.
- DocumentCache.ClientDocumentCache.Fetch: the cache loses entries only through `Evict`, called between operations. Guava's `maximumSize` eviction (ClientDocumentCache.java:26-30), which may drop entries during a call, is not modelled.
- DocumentCache.ClientDocumentCache.FetchAll: the same eviction limit as `Fetch`, so "every other entry stays" holds only when no eviction happens during the call.
- ZuliaUtility.ComputeLevenshteinDistance: `Character.toLowerCase` is a JDK table and is taken as the parameter `toLower`. Its values are not modelled.
- QueryParser.ParseInteger: only ASCII digits are accepted. `Integer.parseInt` and `Long.parseLong` also accept other Unicode decimal digits.
- S3Streaming.S3OutputStream.Cancel: the S3 client is a log of requests, and the service's answer to an abort is not modelled. An abort never changes the stored object, so aborting an upload that is already complete leaves the object in place.
- FacetCombining.FacetCombiner.GetCombinedFacetGroup: it requires every shard index to lie in `[0, shardResponses)` (`InRange`). Java would throw ArrayIndexOutOfBoundsException for an index outside, and its callers never pass one.
- StatCombining.StatCombiner.GetCombinedStatGroup: it requires at least one stat group. Java's `internalStats.get(0)` throws on an empty list (StatCombiner.java:161), and callers create a combiner only for a request that some shard answered. It also requires every shard index to be in range, as above.
- QueryCombining.QueryCombiner.GetQueryResponse: it requires a fresh combiner (`Unused`). A second call would register every shard again and fail as "repeated". It also requires that every hit carry a sort value per sort field (`Prepared`), which the shards guarantee.
- PostSorting.Compare: it requires both results to carry a sort value per sort field, and every sort field to rewrite (`Sortable`). Otherwise Java would throw IndexOutOfBoundsException or fail in the rewrite.
- S3Streaming.S3OutputStream.Write: it requires `0 <= off`, `0 <= len` and `off + len <= b.length`. Out of range, Java's `System.arraycopy` throws IndexOutOfBoundsException.
- DDSketch percentiles in stat merging (StatCombiner.java:172-190) are not modelled: percentile results are not combined.
- Merging analysis results (QueryCombiner.java:237-274, TermFreq.getTopTerms) is not part of this model.
- ServerIndexConfigData's analyzer map and its parsing of warming searches (ServerIndexConfigData.java:147-157, 185-222) are not modelled.
- I/O and the environment become parameters:
  - the clock is a `currentTimeMillis` argument;
  - the S3 client is a request log;
  - the document server is a function argument;
  - the heartbeats are the node list passed to `Run`.
- Lucene search, storage, RPC, thread pools and node weights are not part of this model.

## Findings

| source | as written | input that shows it | evidently intended | confidence | as-written member | corrected member |
|---|---|---|---|---|---|---|
| zulia-server/src/main/java/io/zulia/server/index/MasterSlaveSelector.java:110-112 | `Math.abs(hashCode) % numOfShards`, and `Math.abs(Integer.MIN_VALUE)` is negative | id "GydZG_" (hashCode -2^31) on 3 shards gives shard -2, which has no mapping | a shard in `[0, numOfShards)` for every id | not executed | MasterSlaveSelection.ShardForUniqueIdAsWritten, MasterSlaveSelection.MinValueHashGivesNegativeShard | MasterSlaveSelection.ShardForUniqueId, MasterSlaveSelection.ShardForUniqueIdInRange |
| zulia-common/src/main/java/io/zulia/util/ZuliaUtil.java:66 | the `Object[]` branch passes the consumer itself to the consumer | an array holding one string hands the consumer, not the string, to the consumer | recurse into each array element, as the collection branch does | not executed | ZuliaUtility.VisitsAsWritten, ZuliaUtility.ArrayHandsOverConsumer | ZuliaUtility.Visits, ZuliaUtility.HandleLists |
| zulia-query-parser/src/main/java/io/zulia/server/search/ZuliaQueryParser.java:153-155 | an exclusive date end adds 1 ms | `[* TO 2020-01-01}` reaches 1577836800001, so it admits midnight of 2020-01-01 | subtract 1 ms, as the int and long branches do | not executed | QueryParser.DateBoundsAsWritten, QueryParser.DateBoundsAsWrittenAdmitsEnd, QueryParser.ExampleExclusiveDateEnd | QueryParser.DateBounds, QueryParser.DateBoundsExact |
| zulia-server/src/main/java/io/zulia/server/search/stat/StatCombiner.java:134-151 | the error carrier of a missing shard is read even when that shard returned no facet statistics | a missing shard whose stat group has no facet stats leaves `errorValue` null, and `getErrorValue()` throws NullPointerException | skip such shards (they add nothing to the bound) | not executed | StatCombining.ErrorBoundAsWritten, StatCombining.ExampleEmptyShardThrows | StatCombining.GetErrorBound, StatCombining.ErrorBoundAsWrittenThrows |
