# OTX crawler core, modelled in Dafny

This project models the sequential, data-shaping core of the OTX (AlienVault
Open Threat Exchange) crawler in `crawler/otx.go`. The crawler reads pages of
threat-intelligence pulses from the feed. It turns every pulse into a stored
post. Every indicator of compromise whose raw type it trusts becomes a stored
indicator, filed under one of four categories: `sample`, `url`, `domain` or
`ipaddress`. Each batch is then written to a document repository and
announced on a message topic.

The model has seven modules, one per file:

- `Wrappers` (`wrappers.dfy`): the `Option` type.
- `Decimal` (`decimal.dfy`): `strconv.Itoa`, and a reader used to state its round trip.
- `Classifier` (`classifier.dfy`): `find`, the trusted-type list and its four groups, the rewrite chain exactly as the loop runs it, and the single table `Classify` that the chain is proved to equal.
- `Feed` (`feed.dfy`): the decoded feed records (`Data`, `RawResult`, `RawIndicator`) and the stored `Post` and `Indicator`.
- `PageProcessor` (`page_processor.dfy`): the body of `getDataOnePage` after decoding. Its reference functions are `PagePosts` and `PageIocs`. The loop itself is `GetDataOnePage`.
- `OtxProcess` (`otx_process.dfy`): `OtxProcess.Process`, one write-and-publish unit. The repository's answers are inputs, and the unit's calls come back as an event trace.
- `Pipeline` (`pipeline.dfy`): `TotalPage` and the page loop of `Subscribed`, run sequentially.

Points where the code is easy to misread:

- The canonical names are not disjoint from the raw-type groups: the raw type `domain` is also the canonical name `domain`. The chain is still order-independent, because a canonical name occurs only in its own group. `Classifier.CanonicalNameOnlyInOwnGroup` proves this.
- `Subscribed` submits two `OtxProcess` values per page (crawler/otx.go:201-209): one holding only the posts, one holding only the indicators. Each runs both the post path and the ioc path, so the missing list is empty. `OtxProcess.PostUnitPublishesEmptyIocBatch` and `OtxProcess.IocUnitBlockedByEmptyPostInsert` state what follows.
- The trusted list and the sample group both contain `FileHash-MD5` twice. This is harmless: `find` returns the first index.

## Model

| member | source | states |
|---|---|---|
| `Classifier.Find` | crawler/otx.go:225-232 | returns (i, true) with slice[i] == val and no earlier match exactly when val occurs in the slice, and (-1, false) otherwise |
| `Classifier.GroupsDisjoint` | crawler/otx.go:109-112 | no raw type belongs to two of the four category groups |
| `Classifier.GroupsCoverTrustType` | crawler/otx.go:108-112 | a raw type is in the trusted list exactly when it is in one of the four groups |
| `Classifier.CanonicalNameOnlyInOwnGroup` | crawler/otx.go:109-112 | a canonical name occurs in a group only as "domain" in the domain group |
| `Classifier.ClassifyMatchesGroups` | crawler/otx.go:108-112 | the reference table classifies exactly the trusted types, each into the category whose group holds it |
| `Classifier.RewriteChainOnGroupMember` | crawler/otx.go:133-153 | the sequential rewrites turn any member of a group into that group's canonical name |
| `Classifier.RewriteChainIsClassify` | crawler/otx.go:133-153 | the trust check plus the four mutating tests equal the single total mapping from raw type to optional category |
| `Classifier.ClassifyType` | crawler/otx.go:133-153 | running the chain on one raw type gives the name of its table category, or nothing for an untrusted type |
| `Classifier.RewriteChainCanonical` | crawler/otx.go:133-153 | the chain keeps exactly the trusted types, and every kept type ends as one of sample, url, domain, ipaddress |
| `Decimal.Itoa` | crawler/otx.go:155 | the id string is non-empty, starts with '-' exactly for negative ids, and is otherwise all digits |
| `Decimal.ParseItoa` | crawler/otx.go:155 | reading the id string back yields the raw numeric id |
| `Decimal.ItoaInjective` | crawler/otx.go:155 | distinct raw ids give distinct id strings |
| `PageProcessor.ResultIocs` | crawler/otx.go:132-166 | one result's output has no more indicators than its raw list; each comes from one of its raw indicators and has a canonical type, source "otx", the result's tags as category, the result's id as post id, and the crawl stamp |
| `PageProcessor.PageIocs` | crawler/otx.go:114-166 | the page's indicators number at most the raw indicators, and each is owned by one of the page's results |
| `PageProcessor.PageIocsProvenance` | crawler/otx.go:114-166 | each indicator of the page is the classified form (decimal id, raw value, canonical type) of one raw indicator of one of the page's results |
| `PageProcessor.ResultIndicators` | crawler/otx.go:132-166 | the inner loop yields exactly the in-order filter-map of one result's indicators |
| `PageProcessor.GetDataOnePage` | crawler/otx.go:99-168 | the loop yields exactly one post per result in order, with id, tags and stamp copied, and the in-order filter-map of all indicators |
| `PageProcessor.UntrustedContributesNothing` | crawler/otx.go:133-165 | removing an indicator of untrusted type (such as "YARA") leaves a result's output unchanged |
| `PageProcessor.ResultIocsCount` | crawler/otx.go:132-166 | a result yields exactly as many indicators as it has raw indicators of trusted type |
| `PageProcessor.ResultIocsComplete` | crawler/otx.go:132-166 | every raw indicator whose type classifies into a category appears in its result's output as an indicator of that category |
| `PageProcessor.PageIocsComplete` | crawler/otx.go:114-166 | every trusted raw indicator of every result of the page appears in the page's output |
| `PageProcessor.ResultIocIdsRoundTrip` | crawler/otx.go:154-156 | each output indicator's id reads back as the numeric id of a raw indicator whose value it carries |
| `PageProcessor.HashAndYaraExample` | crawler/otx.go:132-165 | a SHA-256 indicator is kept as "sample" with its id and a YARA indicator is dropped |
| `OtxProcess.Process` | crawler/otx.go:240-267 | an index is created exactly when reported missing, and posts are published exactly when the batch was new and its insert succeeded |
| `OtxProcess.IocPublishCondition` | crawler/otx.go:251-267 | indicators are published exactly when the post path did not return early, and then the ioc batch was new and its insert succeeded |
| `OtxProcess.PublishFollowsInsert` | crawler/otx.go:251-267 | every publish carries the unit's own batch of that kind, on that kind's topic, right after inserting that same batch |
| `OtxProcess.AtMostOnePublishPerKind` | crawler/otx.go:251-267 | a unit publishes each kind at most once |
| `OtxProcess.IndexesBeforeBatches` | crawler/otx.go:241-251 | both index checks and any creations come before any batch is looked at |
| `OtxProcess.FailedPostInsertStops` | crawler/otx.go:251-256 | after a failed post insert the unit ends, with no ioc existence check, insert or publish |
| `OtxProcess.ProcessPublishCount` | crawler/otx.go:251-267 | a unit publishes a kind exactly once when it writes that kind's batch, and zero times otherwise |
| `OtxProcess.RepeatedUnitPublishesOnce` | crawler/otx.go:251-258 | for either document kind, running a unit again after the repository starts reporting that kind's batch present adds no second publish of that kind |
| `OtxProcess.PostUnitPublishesEmptyIocBatch` | crawler/otx.go:260-267 | the post-only unit publishes an empty ioc batch whenever the repository accepts it as new |
| `OtxProcess.IocUnitBlockedByEmptyPostInsert` | crawler/otx.go:251-256 | the ioc-only unit never inserts or publishes its indicators if inserting its empty post batch fails |
| `OtxProcess.UnitsIndependent` | crawler/otx.go:201-209 | if the post unit's insert fails and the ioc unit writes, the page publishes its indicators exactly once |
| `Pipeline.TotalPage` | crawler/otx.go:93-96 | the page count is the ceiling of count/50: (n-1)*50 < count <= n*50, and it is 0 for count 0 |
| `Pipeline.TotalPageUnique` | crawler/otx.go:94 | only one integer meets the ceiling bounds |
| `Pipeline.Subscribed` | crawler/otx.go:171-223 | visits each page 1..TotalPage once and in order (none when that is not positive), submits a post-only and an ioc-only unit per page, and totals what those units carry |
| `Pipeline.PublishedBatchesComeFromPage` | crawler/otx.go:188-209 | whatever a page's units publish is exactly that page's post list or indicator list (or an empty batch), and every published indicator has a canonical type and source "otx" and is owned by a result of that page |

## Left out

- The HTTP fetch (`helper.HttpClient.GetOtxWithRetries`) and `json.Unmarshal` are outside the model. They are foreign I/O. The decoded page is an input (`fetch`), and a failed fetch or decode is `Data([], 0)`, which gives zero pages or an empty page.
- `time.LoadLocation`, `time.Now` and the RFC 3339 formatting of `CrawledTime` are left out. They need a clock and a time-zone database. The stamp is an input, one per page. The code reads the clock once per post and once per indicator, and the model uses a single stamp for all of them.
- The semaphore, `errgroup`, `runtime.NumCPU` and the per-page job queue are left out because they are concurrency. Pages run one at a time, in order. `sem.Acquire` is never modelled as failing: its context is cancelled only when a task returns an error or `Wait` returns, and every task returns nil.
- `Pipeline.Subscribed`: the totals are exact sums. The code updates the shared counters `totalPost` and `totalIoc` from concurrent goroutines without synchronisation. That data race is not modelled.
- `Pipeline.TotalPage`: the code divides with `math.Ceil` on `float64`. The model uses integer ceiling division. The two can differ only for counts beyond 2^53, where float64 stops being exact.
- The repository internals (`ExistsIndex`, `CreateIndex`, `ExistsDocPost`, `ExistsDocIoc`, `InsertManyIndexPost`, `InsertManyIndexIoc`), index names, mappings and `rabbit.PublishPost`/`PublishIoc` are external collaborators. Each repository question is asked at most once per unit, so its answer is one boolean in `Answers`. Index names and mappings become the `Kind` of the document. A publish is an event; its delivery is not modelled.
- Go's 64-bit `int` is not modelled. Indicator ids are unbounded integers, and the decoder's overflow behaviour is not modelled.
- Logging and printing (`checkError`, `fmt.Println`) are left out because they do not affect results. The commented-out code at crawler/otx.go:55-85 is left out because it is not compiled.
