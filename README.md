# Google Scholar profile scraper, modelled in Dafny

The modelled program is an Express service with one route, `/api?url=…`. It
takes the URL of a Google Scholar profile and opens it in a browser. It
clicks the profile's "show more" button round after round. It stops when
the button is gone, when looking it up or clicking it throws, or when the
2000 ms wait for the button to be enabled again times out. It then reads the researcher's name, affiliation, citation count and
h-index, plus the link of every listed publication. Next it crawls every
publication page in a pool of browser pages. Each page's title and its
(label, value) blocks become one flat record. Every record that could be
built is returned beside the faculty record.

Pages are not loaded here. Each one is an oracle value: what the browser
found, or that it failed. The following are modelled on top of those values:

- `Gate`: the route's check of the `url` parameter. A missing or empty
  parameter is rejected first. A URL that lacks the prefix
  `https://scholar.google.com/citations?user=` is rejected next. Only then
  does a scrape start.
- `Text`: `returnText`. It gives the trimmed text of the element, or `""`
  when the element is missing or reading it fails. JavaScript's `trim` is
  modelled with the exact whitespace and line terminator sets of ECMA-262.
- `Pagination`: `clickShowMoreButton`, as a loop over the page's answers
  for each round. A missing button, a thrown lookup, a thrown click and a
  timed-out wait all end the loop silently, and the caller cannot tell
  them apart.
- `Profile`: `getScholarlyLiterature`, which gives one URL per anchor, in
  order. A thrown `href` read makes the whole call fail.
- `Details`: the record builder of the crawl task (`BuildPublicationDetails`,
  an in-place update of one map in a loop). It is proved against the fold
  `DetailRecord`. That fold is in turn described key by key by the
  last-write reference `LastWrite`.
- `Crawl`: the task body and the shared, append-only
  `publicationDetailsArray` (a class with a `seq` field). The pool runs the
  queue sequentially, in an arbitrary order given as a schedule.
- `Scraper`: `scrapeData`, which runs the pieces above in the source's
  order, and the route's dispatch between rejection and scrape.

On these points the model follows the code as written:
- A publication record is one flat object. Its `type` key sits beside the
  scraped labels, in the same map.
- A reserved label (`Conference`, `Journal`, `Book`) is stored as an
  ordinary field, and it also sets `type`.
- A scraped label `type`, `publicationTitle` or `publicationUrls`
  overwrites the key of that name, because the value is stored before the
  label is classified.
- Pagination reports no outcome: the caller cannot tell how the loop
  stopped.
- The records are pushed onto an array in the order the tasks complete.
  That order depends on scheduling. By `Crawl.OrderIrrelevant`, only the
  array's multiset is determined.

## Model

| member | source | states |
|---|---|---|
| `Gate.CheckUrl` | server.js:186-198 | an absent or empty `url` is rejected as "required"; a non-empty one without the profile prefix is rejected as "invalid format"; every URL with the prefix passes unchanged, and nothing else passes |
| `Gate.PrefixedUrlsPass` | server.js:192-198 | the prefix followed by any suffix passes the gate |
| `Gate.PassedUrlsArePrefixed` | server.js:188-198 | whatever passes starts with the prefix, so it is non-empty and the emptiness test is subsumed |
| `Gate.OtherUrlsRejected` | server.js:192-198 | seven URLs close to the prefix are refused: another host, plain `http`, another character in place of an escaped dot, slash or `?`, the `s` before the `?` dropped, and another query string |
| `Text.LeadingSpace` | server.js:25 | counts exactly the maximal run of ECMAScript whitespace at the start |
| `Text.TrailingSpace` | server.js:25 | counts exactly the maximal run of ECMAScript whitespace at the end |
| `Text.Trim` | server.js:25 | the result is the slice of the input that begins and ends with non-whitespace, and every character cut away is whitespace |
| `Text.TrimIdempotent` | server.js:25 | trimming a trimmed text changes nothing |
| `Text.BlankTrimsToEmpty` | server.js:25 | an all-whitespace text trims to `""`, indistinguishable from a missing element |
| `Text.ReturnText` | server.js:17-34 | never fails; a found element yields its trimmed text, a missing element or a failed read yields `""`; the result never has surrounding whitespace |
| `Pagination.ClickShowMoreButton` | server.js:56-74 | the loop makes exactly `Clicks(rounds)` clicks, at most one per round, and none when the button is absent (or its lookup throws) at the first check; it returns normally on every path |
| `Pagination.ClicksAtMostPresent` | server.js:56-72 | the number of clicks is at most the number of rounds in which the button was present |
| `Pagination.ClicksExactly` | server.js:56-72 | after n rounds that each re-enable the button, followed by a round that does not, there are n clicks, plus one if that last round found the button |
| `Pagination.StopIgnoresLaterRounds` | server.js:59-71 | once a round stops the loop (absent button, thrown lookup or click, timed-out wait), the page's later answers do not change the click count |
| `Profile.GetScholarlyLiterature` | server.js:45-52 | succeeds exactly when every `href` can be read; then it gives one URL per anchor, in anchor order; otherwise it fails at the first unreadable anchor |
| `Details.LinkValue` | server.js:122-126 | `publicationUrls` is null exactly when the title has no link or an empty one |
| `Details.InitialRecord` | server.js:119-131 | before the blocks are read, the record holds exactly `type = null`, the title's link and the title's text |
| `Details.AbsorbAll` | server.js:138-158 | the loop over the blocks never removes a key |
| `Details.BuildPublicationDetails` | server.js:119-162 | the dictionary built in place equals the fold `DetailRecord` of the title, the link and the blocks |
| `Details.LastWrite` | server.js:138-158 | gives the position of the last block that writes a key, or none when no block writes it |
| `Details.AbsorbAllAt` | server.js:138-158 | last write wins: each key holds what the last block writing it wrote, and a key that no block writes keeps its earlier value or stays absent |
| `Details.AbsorbAllKeys` | server.js:138-158 | the keys after the loop are the earlier keys plus the labels of the stored blocks |
| `Details.RecordKeys` | server.js:119-162 | a record's keys are exactly `type`, `publicationUrls`, `publicationTitle` and the labels of the blocks with a non-empty label and value |
| `Details.RecordField` | server.js:123-149 | a key other than `type` holds the value of the last stored block with that label, reserved labels included; with no such block, `publicationUrls` and `publicationTitle` keep the title's link and text, and any other key is absent |
| `Details.RecordType` | server.js:119-162 | `type` is the reserved label or literal `type` value of the last block that wrote it, and `"Unknown"` when no block did |
| `Details.TypeNeverNull` | server.js:160-162 | `type` is never null or empty in a record |
| `Details.ClassifiedByLastReservedLabel` | server.js:150-162 | when no block is labelled `type`, `type` is the last stored reserved label in block order, or `"Unknown"` when there is none |
| `Details.JournalWhereverItStands` | server.js:150-156 | when the only classifying label on the page is `Journal`, the type is `Journal` wherever those blocks stand |
| `Details.UnstoredBlockIgnoredInLoop` | server.js:148 | inserting a block whose label or value is empty anywhere in the blocks leaves the loop's result unchanged |
| `Details.UnstoredBlockIgnored` | server.js:148 | a block whose label or value is empty does not change the record, wherever it stands |
| `Details.FlatRecordExample` | server.js:119-162 | a later `type` block overrides the type set by an earlier `Journal` block, `Journal` is kept as a field, and a block without a value is dropped |
| `Crawl.TaskOutput` | server.js:109-167 | a task adds at most one record, and adds one exactly when its page did not fail |
| `Crawl.DetailsArray.constructor` | server.js:107 | the shared array starts empty |
| `Crawl.DetailsArray.Push` | server.js:164 | a push appends one record and keeps the earlier ones |
| `Crawl.RunTask` | server.js:109-168 | a task appends its page's record to the array, or, if it throws before the push, leaves the array as it was |
| `Crawl.RunQueue` | server.js:170-174 | the array after the queue has run is the old array followed by the tasks' outputs in scheduled order |
| `Crawl.OrderIrrelevant` | server.js:170-175 | any two orders running the same tasks produce the same multiset of records |
| `Crawl.QueueOrderProduced` | server.js:170-174 | running the tasks in queue order gives the records in queue order |
| `Crawl.InQueueOrderLength` | server.js:164-167 | the number of records plus the number of failed tasks is the number of tasks |
| `Crawl.CrawlOutcome` | server.js:107-178 | for every schedule: the array holds exactly the records of the tasks that did not fail; its length is the number of URLs minus the failures, so it is at most the number of URLs |
| `Crawl.RenderedPageKept` | server.js:164-172 | the record of every page that renders is in the array, whatever the other tasks do |
| `Scraper.ScrapeData` | server.js:15-178 | the scrape (navigation, pagination, the four texts, the links, the faculty record, the crawl) returns what `ScrapeResult` specifies |
| `Scraper.ScrapeOutcome` | server.js:89-178 | success exactly when the profile loads and its links can be read; then `noOfPublications` is the number of links, and the array length is `noOfPublications` minus the failed tasks; the array's multiset does not depend on the schedule |
| `Scraper.Api` | server.js:185-201 | a missing or empty `url`, or one without the prefix, gets the matching error message and no scrape; every URL with the prefix is scraped and its result served |

## Left out

- Express setup, JSON middleware, CORS, `app.listen`, HTTP status codes and the exact shape of the JSON responses (server.js:1-13, 202-219). They are framework glue. The model keeps only the accept/reject decision and its message.
- The `url` parameter given more than once: Express then passes an array, and both tests of the route apply to that array. The model takes one string or nothing.
- Puppeteer launch, the stealth plugin, user-agent strings, `goto`, `$`, `$$`, `waitForSelector` and `evaluate`. These are browser I/O. Their results are oracle values: `ProfilePage`, `Element`, `Round`, `Block` and `DetailPage`.
- The profile oracle covers only failures to open or load the profile page (`ProfilePage.reachable`) and failed `href` reads. A failure of `$$`, of the cluster's launch or of task registration would also escape `scrapeData`; none of these is modelled.
- The real 2000 ms timeout and navigation timing. A wait is only an outcome of a round (`WaitTimedOut` or `Reenabled`).
- `Pagination.ClickShowMoreButton`: a page whose button is re-enabled forever keeps the source recursing without end. The model's loop is bounded by the number of oracle answers, and it treats running out of answers as a missing button.
- The effect of pagination on the page: the anchors that `getScholarlyLiterature` reads are given directly, as those visible after the loop ends.
- `puppeteer-cluster` concurrency, `maxConcurrency: 5`, `idle`, `close` and the unsynchronised shared `push`. Concurrency cannot be captured in a sequential model. The pool runs the queue one task at a time, in an arbitrary schedule. The pushes run on JavaScript's single thread, so none is lost.
- Console logging and browser teardown.
- JavaScript's inherited `__proto__` accessor: assigning a string under the label `__proto__` creates no key in a plain object. The model's map stores it like any other label.
- Strings are sequences of Unicode scalar values. JavaScript strings are sequences of UTF-16 code units. This makes no difference to `trim` or to the label comparisons.
- Key order in the serialised objects. JavaScript lists integer-like keys first, in ascending order, and the other keys in insertion order. A `map` has no order.
