# CRUD utilities in Dafny

A model of the sequential core of a set of Go service utilities. Each module
below corresponds to one Go file:

- **ColumnLabels** (`main.go`). Spreadsheet column labels A…Z, AA, …, which are
  bijective base-26 numbering: the handleEndCase successor, GetColList's series
  and its chunking into rows.
- **WordCount** (`main.go`). strings.Fields and wordCount's tally.
- **Primes** (`main.go`). CheckPrime's trial division and the prime-list
  service, which runs one CheckPrime at a time.
- **SaveDocs** (`saveDocmain.go`). SaveCustomerDocuments:
  - seeding the seen numbers from the stored documents;
  - filtering the incoming ones;
  - the response ladder, over abstract outcomes of the Mongo calls.
- **Helpers** (`helpers.go`). RemoveDuplicates, MaxInt, the string part of
  GetFilename, and UnmarshalJSON's panic on a decode error.
- **CustomerIds** (`yashwant.go`). The collect-then-splice loop over customer
  ids.
- **RedisRecord** (`ProcessRedisRecord.go`). processRecord over a store of Redis
  hashes, held in a class.
- **Dates** (`dates.go`):
  - time.Date normalisation and AddDate on calendar dates;
  - daysInMonth and the EMI labels of GetDateInfo;
  - the DateDiff* helpers over instants counted in nanoseconds.
- **InsertQuery** (`INSERT_POSGTRESS.GO`). createPlaceholders and the INSERT
  statement.
- **QueryKey** (`ATemp.go`). generateQueryAndKey and handleRequest's branches.
- **ByteUnits** (`sizeOfInterface.go`). formatBytes's choice of divisor and unit.
- **Exceptions**, **Middleware**, **Validators**, **Logging**
  (`custom_exceptions.go`, `middleware.go`, `validators.go`, `logger.go`). The
  custom error, its raisers, the recovery middleware, request validation and
  the logger's level and message handling.

Shared modules:

- **Seqs** holds strings.Join, strings.Split, fmt's `%d`, first-occurrence
  de-duplication and Go's string order.
- **GoArith** holds Go's truncating `/` and `%` and the int64 range.

Panics are modelled as values: `Exceptions.Outcome` is either `Returned` or
`Panicked`. Database and Redis calls do not run. Each outcome that matters (a
failing command, a lookup result, the iteration order of a Go map) is a
parameter.

Where the tests and the code disagree, the code is followed:

- testcase.go:48 expects success for an empty request, but saveDocmain.go:157-164
  answers "Docs are required.".
- testcase.go:77 expects the message "No docs found to insert." with a period
  and code 200, but saveDocmain.go:99-100 has no period and code 0.

## Model

| member | source | states |
|---|---|---|
| ColumnLabels.Succ | main.go:136-156 | The successor of a letter label is a label. It keeps the length unless every letter was 'Z', in which case it is one longer. |
| ColumnLabels.SuccAllZ | main.go:149-154 | A run of n 'Z's is followed by n+1 'A's ("ZZ" gives "AAA"). |
| ColumnLabels.SuccRightmost | main.go:139-151 | Otherwise the rightmost non-'Z' letter is bumped, the 'Z's after it become 'A's, and the length is kept ("AZ" gives "BA"). |
| ColumnLabels.SuccValue | main.go:136-156 | The successor is the next number in bijective base 26. |
| ColumnLabels.SuccIncreases | main.go:136-156 | The successor comes strictly later in (length, lexicographic) order. |
| ColumnLabels.HandleEndCase | main.go:136-156 | The two loops of handleEndCase compute Succ on any ASCII input. On letter labels, Succ is the bijective base-26 successor (SuccValue). |
| ColumnLabels.SuccNValue | main.go:105-119 | The k-th label of the series is the start's base-26 value plus k. |
| ColumnLabels.SuccNOrdered | main.go:105-119 | Labels of the series are strictly increasing in (length, lexicographic) order, so they are pairwise distinct. |
| ColumnLabels.BuildColList | main.go:92-119 | The `for true` loop with its pivot produces exactly numRows·numCols labels: the start followed by its successive successors. |
| ColumnLabels.ChunkRows | main.go:122-127 | The chunking loop gives numRows strings, each joining numCols consecutive labels with single spaces. |
| ColumnLabels.GetColList | main.go:91-131 | For a letter start and positive numRows and numCols, there are numRows rows and row r joins labels r·numCols up to (r+1)·numCols-1 of the series. |
| WordCount.Fields | main.go:396 | Every field is non-empty and free of Go's white space. |
| WordCount.FieldsConcat | main.go:396 | The fields concatenated are the input with its white space removed. |
| WordCount.FieldsJoin | main.go:396 | Joining non-empty space-free words with one space and splitting back into fields gives the words again. |
| WordCount.CountsTotal | main.go:395-407 | Summing each distinct field's occurrences gives the number of fields. |
| WordCount.WordCount | main.go:395-407 | The keys are exactly the fields, each value is the field's number of occurrences, and the values add up to the number of fields. |
| Primes.HalfSuffices | main.go:379-386 | Trial divisors up to n/2 decide primality. |
| Primes.PrimeService.CheckPrime | main.go:373-393 | The number is appended exactly when it is prime, and negative numbers are appended too. 0 and 1 are never appended. One pending call completes. |
| Primes.PrimeService.GetPrimeNumberList | main.go:208-218 | After the list is reset, the serialised loop leaves exactly PrimesUpTo(number) in it. |
| Primes.PrimesUpToMembers | main.go:209-216 | A value is in the list exactly when it is a prime in [0, n]. |
| Primes.PrimesUpToAscending | main.go:212-216 | The list is strictly ascending. |
| Primes.SmallNumbers | main.go:375-391 | 0 and 1 are never listed. 2 and 3 are listed, although their trial loop runs zero times. |
| SaveDocs.SeedMembers | saveDocmain.go:63-69 | A number is seen exactly when some stored document carries it and it is not empty. |
| SaveDocs.SeedMap | saveDocmain.go:61-69 | The seeding loop's map has exactly the seen numbers as keys. |
| SaveDocs.NewDocsNumbers | saveDocmain.go:71-82 | A number is among the kept documents exactly when it is not seen and some incoming document carries it. |
| SaveDocs.NewDocsDistinct | saveDocmain.go:72-76 | Kept documents have pairwise-distinct numbers, none of them already seen. |
| SaveDocs.DuplicateIffDropped | saveDocmain.go:71-82 | A duplicate is reported exactly when fewer documents are kept than arrived. |
| SaveDocs.FilterNew | saveDocmain.go:71-82 | The filtering loop keeps NewDocs in incoming order, newDocCount is their number, and duplicateDocFound is DuplicateFound. |
| SaveDocs.AllEmptyScan | saveDocmain.go:87-95 | The scan answers true exactly when every kept document is empty. |
| SaveDocs.AllEmptyIsSingle | saveDocmain.go:87-105 | Kept documents that are all empty are exactly one document with empty number and empty type. |
| SaveDocs.NothingNew | saveDocmain.go:150-165 | With nothing kept, a duplicate was reported exactly when the request was not empty. |
| SaveDocs.SaveCustomerDocuments | saveDocmain.go:33-168 | The full response ladder. A find or decode failure gives 500 and no update. No docs found gives code 0 with no update. Otherwise both updates are attempted in order, a device-update failure is preferred over a docs-update failure, and success gives 200 and TotalAdded = the number kept. With nothing kept the answer is "Duplicate documents found." or "Docs are required.", both 200. |
| Helpers.RemoveDuplicates | helpers.go:43-53 | The result keeps the first occurrence of each value in order. It has no repeats and the same elements as the input. |
| Seqs.DedupeIdempotent | helpers.go:43-53 | De-duplicating twice is de-duplicating once. |
| Helpers.MaxInt | helpers.go:67-75 | An empty slice panics with the index error of `slice[0]`. Otherwise the result is one of its elements and no element is larger. |
| Seqs.SplitJoin | helpers.go:25-31 | Joining strings.Split's parts with the separator gives the text back. |
| Seqs.LastPartSuffix | helpers.go:28-34 | The last part of Split is the suffix after the last separator: it contains no separator, and a separator precedes it when it is shorter than the text. |
| Helpers.FileName | helpers.go:25-34 | The file name is a suffix of the function name that contains neither '.' nor '/'. |
| Helpers.FileNameBoundary | helpers.go:25-34 | When it is shorter than the function name, a '.' or '/' immediately precedes it. |
| Helpers.UnmarshalJSON | helpers.go:12-17 | UnmarshalJSON returns nil or, on a decode error, panics with a 500 custom error carrying that error. |
| CustomerIds.RemoveFirstAt | yashwant.go:75-80 | Removing an id removes only its first occurrence and keeps the rest in order. |
| CustomerIds.RemoveFirstMultiset | yashwant.go:75-80 | An absent id leaves the list unchanged. A present id shortens it by one, and the multiset loses exactly that id. |
| CustomerIds.RemoveEachMultiset | yashwant.go:67-81 | After every auth id is processed, the multiset of remaining ids is the collected one minus the auth ids. |
| CustomerIds.SweepCustomerIds | yashwant.go:48-81 | The collect loop keeps cursor order, the splice loop removes each auth id's first occurrence, and the multiset equation holds. |
| RedisRecord.ParseBool | ProcessRedisRecord.go:35 | strconv.ParseBool succeeds only on a non-empty string. |
| RedisRecord.BoolArgRoundTrip | ProcessRedisRecord.go:35-60 | The "1"/"0" that go-redis stores for a bool parses back to the same bool. |
| RedisRecord.ReadFailureChangesNothing | ProcessRedisRecord.go:23-32 | A failing EXISTS or HGET is returned with the store unchanged and nothing inserted. |
| RedisRecord.CreateBranchUnreachable | ProcessRedisRecord.go:29-54 | A flag that parses implies the key exists. A missing key fails in ParseBool before any write, so the create branch cannot run. |
| RedisRecord.TrueFlagWritesNothing | ProcessRedisRecord.go:55-57 | A true flag means no writes, no insert and a nil error. |
| RedisRecord.FalseFlagInsertsOnce | ProcessRedisRecord.go:58-75 | A false flag becomes "1" and the record's fields are inserted exactly once. Every other field is unchanged. |
| RedisRecord.OnlyFlagChanges | ProcessRedisRecord.go:19-78 | The only possible write is hashKey's IsInserted, and there is at most one insert. |
| RedisRecord.FetchFailureKeepsFlag | ProcessRedisRecord.go:60-69 | When the fetch fails after the flag was set, the error is returned and the flag stays set, because there is no rollback. |
| RedisRecord.SecondRunIsNoOp | ProcessRedisRecord.go:55-63 | After a run that set the flag, a second run changes nothing. |
| RedisRecord.RedisStore.ProcessRecord | ProcessRedisRecord.go:19-78 | The method's new store, inserts and result are those of Process. |
| Dates.MonthLengthGregorian | dates.go:169-171 | Go's daysIn table gives the Gregorian lengths, between 28 and 31. |
| Dates.DateOfValid | dates.go:169-171 | time.Date leaves a valid date unchanged. |
| Dates.DaysInMonth | dates.go:169-171 | daysInMonth, which takes day 0 of the next month, is the Gregorian length of the month: 31, 30, or for February 29 in leap years (÷4, not ÷100 unless ÷400) and 28 otherwise. It always lies in 28..31. |
| Dates.MonthBackEarlyDay | dates.go:116 | For days 1..28, AddDate(0, -1, 0) gives the same day of the previous month. |
| Dates.MonthBackOverflow | dates.go:116 | A day past the end of the previous month overflows back into the same month. |
| Dates.MarchThirtyFirst | dates.go:116 | One month before 31 March 2023 is 3 March 2023. In 2024 it is 2 March. |
| Dates.GetDateInfo | dates.go:107-117 | The loop yields exactly 12 dates and 12 labels. The first date is the current one, each later one is AddDate(0, -1, 0) of the one before, and each label is EmiLabel of its date. |
| Dates.ChainIsMonthsBack | dates.go:109-116 | The i-th date is the current one stepped back i times. |
| Dates.MonthsBackEarlyDay | dates.go:109-116 | From a day 1..28, the 12 dates are 12 consecutive calendar months with the same day. |
| Dates.PadIntRoundTrip | dates.go:113 | The zero-padded year field is at least 4 digits long and reads back as the year. |
| Dates.EmiLabelForm | dates.go:113-114 | The label is the month's last digit, '-', and the year padded to at least 4 digits, with a leading '-' when the year is negative. For months 1–9 that is "M-YYYY". October to December give "0-", "1-" and "2-". |
| Dates.EmiLabelCollision | dates.go:113-114 | January and November of the same year get the same label, and so do February and December. |
| Dates.Sub | dates.go:28 | Sub is the nanosecond difference, saturated to the int64 range. |
| Dates.DateDiffInSeconds | dates.go:27-30 | The result is the whole seconds of the difference, truncated toward zero. |
| Dates.DateDiffInMilliseconds | dates.go:33-37 | The result is the whole milliseconds of the difference, truncated toward zero. |
| Dates.DateDiffInDays | dates.go:47-49 | The result is the whole days of the difference, truncated toward zero. |
| Dates.WholeUnitsUnique | dates.go:27-49 | Whole units truncated toward zero are unique, so each DateDiff contract pins down its result. |
| Dates.DateDiffInHours | dates.go:40-44 | As written: 24·DateDiffInDays plus the whole hours of DateDiffInSeconds. It has no contract of its own; HoursCountDaysTwice and OneDayApart state what it computes. |
| Dates.HoursCountDaysTwice | dates.go:40-44 | DateDiffInHours equals the elapsed whole hours plus 24 for every whole day. |
| Dates.OneDayApart | dates.go:40-44 | For instants exactly one day apart, DateDiffInHours is 48 while the elapsed hours are 24. |
| Dates.ElapsedHours | dates.go:40-44 | The result is the whole hours of the difference, truncated toward zero. |
| GoArith.TruncDivMod | dates.go:42 | Go's `/` and `%` recompose the dividend. The remainder is smaller than the divisor and never has the opposite sign. |
| InsertQuery.CreatePlaceholders | INSERT_POSGTRESS.GO:52-58 | The result is the tokens "$1" … "$count" joined by ", ", and "" for 0. |
| InsertQuery.TokensDistinct | INSERT_POSGTRESS.GO:55 | The i-th token is unique to i. |
| InsertQuery.PlaceholderCount | INSERT_POSGTRESS.GO:52-58 | createPlaceholders(n) contains exactly n '$' signs. |
| InsertQuery.BuildInsert | INSERT_POSGTRESS.GO:31-40 | Columns and values have equal length, column j pairs with its value, and the query is the INSERT statement with a placeholder per value. |
| InsertQuery.QueryPlaceholders | INSERT_POSGTRESS.GO:39-40 | When no column name contains a '$', the query's placeholder count equals its column count. |
| QueryKey.GenerateQueryAndKey | ATemp.go:62-77 | The query is "SELECT * FROM " + tableName and the key is tableName, whatever the parameters and their order. |
| QueryKey.HandleRequest | ATemp.go:23-60 | An empty name gives 400 before any query. Otherwise one fetch is made, and fetch, marshal and store failures each give a 500 with their message. Storing uses the table-name key, and success returns 200 with the data. |
| Exceptions.RaiseError | custom_exceptions.go:35-42 | raiseError panics with a CustomError that carries its arguments unchanged. |
| Exceptions.BadRequest | custom_exceptions.go:20-22 | Panics with error "Bad Request" and status 400, carrying the message. |
| Exceptions.NotFoundError | custom_exceptions.go:25-27 | Panics with error "Not Found Error" and status 404, carrying the message. |
| Exceptions.InternalServerError | custom_exceptions.go:29-31 | Panics with error "Internal Server Error" and status 500, whatever the comment says. |
| Exceptions.ErrorText | custom_exceptions.go:15-17 | Error() is the rendered error, then ": ", then the rendered message, then one space: each part stated by position, and the length is their sum plus 3. |
| Exceptions.ErrorTextDeterminesMessage | custom_exceptions.go:15-17 | For the same error text, two CustomErrors give the same Error() exactly when their messages render alike. |
| Exceptions.SortedKeys | custom_exceptions.go:16 | fmt prints a map's keys once each, in ascending order. |
| Middleware.ExceptionHandler | middleware.go:14-49 | Handling passes exactly when nothing panicked. The handler panics again, with the nil dereference of logger.go:82-83 and nothing sent, exactly when the recovered value is a CustomError with a nil Err and an empty ErrorMsg. Any other CustomError is aborted with its status code and ErrorMsg. Any other value gives 500 and a nil Error. Every abort has Success false, Message "fail" and nil Data, and its status equals ResponseCode. |
| Middleware.RaiseThenRecover | middleware.go:27-44 | The responses to BadRequest, NotFoundError and InternalServerError panics are 400, 404 and 500 with the message. |
| Middleware.ResponseDeterminedByCustomError | middleware.go:27-44 | Two CustomErrors with the same status code and ErrorMsg that are both answered get the same response. A non-empty ErrorMsg is always answered. |
| Validators.GetErrorMsg | validators.go:29-36 | The "required" tag gives `<field> is a required field`. Any other tag gives "Request data format is not supported". |
| Validators.RequiredMessageNamesField | validators.go:31-32 | Distinct fields get distinct "required" messages. |
| Validators.TagName | validators.go:43 | The tag name is the tag's text before its first ','. |
| Validators.FieldJSONTagName | validators.go:39-45 | An absent tag gives "", and a tag without a comma is returned whole. |
| Validators.MessagesLastWins | validators.go:19-22 | The validation map has exactly the reported field names as keys, and each holds the message of the last error for that name. |
| Validators.ValidateRequest | validators.go:14-26 | BadRequest with the validation map is raised exactly for ValidationErrors. Other bind errors are ignored. |
| Logging.ToUpperIdempotent | logger.go:44 | Upper-casing twice is upper-casing once. |
| Logging.SelectsOneLevel | logger.go:43-63 | `l` and its upper-cased form select the same level. |
| Logging.LevelNameSelects | logger.go:45-59 | A name matching PANIC, FATAL, ERROR, WARN, INFO, DEBUG or TRACE, in any case, selects that level. |
| Logging.Logger.SetLoggerLevel | logger.go:43-63 | The new level is the named one, or Info for any other input, including "". |
| Logging.LoggedMessage | logger.go:82-84 | An empty message is replaced by err.Error(). A nil err then dereferences nil and panics. |
| Logging.Logger.Error | logger.go:81-87 | With the defaulted message, an Error entry is appended when the level enables it, and the call returns. An empty message with a nil error panics with nothing logged. |
| Logging.Logger.Fatal | logger.go:89-95 | With the defaulted message, a Fatal entry is appended when enabled, then the process exits with 1. An empty message with a nil error panics instead. |
| Logging.Logger.Panic | logger.go:97-103 | A Panic entry with the defaulted message is always appended, then the call panics with a value that is not a CustomError and carries that message. An empty message with a nil error panics first, with nothing logged. |
| ByteUnits.FormatBytes | sizeOfInterface.go:63-74 | Sizes below 1024 give the decimal size and " B". Otherwise div = 1024^(exp+1) with div ≤ size < 1024·div, so exp is maximal, exp ≤ 5, and the unit is "kMGTPE"[exp] followed by 'B'. |
| ByteUnits.ExponentBound | sizeOfInterface.go:69-73 | For a 64-bit size the exponent is at most 5, so the unit index is in range. |
| ByteUnits.ExponentUnique | sizeOfInterface.go:68-72 | Only one exponent brackets the size, so the loop's choice is the unique one. |

## Left out

- I/O and the services around the core are parameters or not modelled: HTTP handlers, the Mongo, Postgres and Redis clients, NotifySentry, logrus output, fmt.Println and time.Now. Lookups, command failures and cursors are given as inputs.
- RedisRecord.CreateBranchUnreachable and RedisRecord.RedisStore.ProcessRecord: the EXISTS and HGET replies are read from one snapshot of the store. That is exact only for a single client. If another client creates the hash between the two round trips, EXISTS reports 0 while the flag parses, and the HMSet branch at ProcessRedisRecord.go:40-54 does run. The model does not capture that interleaving.
- RedisRecord: the per-value type conversion of FetchAllValues (FetchAllValuesFromRedis.go:36-52) is not modelled. It turns a value that strconv.Atoi accepts into an int ("1" becomes 1), one that strconv.ParseFloat accepts into a float64, and keeps anything else as a string. The model passes the fields to InsertRecordInPostgress as the stored strings. The conversion never fails, so the error paths are unaffected.
- Goroutines and the WaitGroup: GetPrimeNumberListService waits after every CheckPrime, so the model runs the calls in sequence.
- Column labels are modelled from starts over 'A'..'Z'. The `rune(b)+1` re-encoding of bytes at or above 0x7F is not modelled, so HandleEndCase takes an ASCII label.
- ColumnLabels.GetColList: requires a non-empty letter start and numRows, numCols >= 1. This excludes three behaviours of main.go. An empty start panics at `currentStr[pivot]` as soon as a second label is needed. When numRows·numCols < 1 the label loop never ends. When both sizes are negative (say -1 and -1), the product is positive, so the list is built, and then `colList[0:-1]` at main.go:125 panics.
- GetWordCountService (HTTP fetch, HTML stripping, regexes) is not part of this model; only wordCount is.
- Helpers.RemoveDuplicates: modelled over any type with equality. For float64, Go map keys do not model that every NaN is kept (a NaN key never equals itself) or that -0.0 and +0.0 collapse into one entry.
- The iteration order of a Go map is a parameter: the column order in BuildInsert and the parameter order in GenerateQueryAndKey.
- Logging.ToUpperChar: only ASCII letters and the two characters that become ASCII ('ı' and 'ſ') are upper-cased. Other characters are left as they are.
- The logger's fields maps, its stack traces and its Sentry calls do not affect the modelled state and are not kept.
- CustomerIds.SweepCustomerIds: cursor decode failures and log.Fatalf in yashwant.go are not modelled. Every id is taken as an already extracted string. So the model does not capture the type-assertion panics. A missing or non-string `customerId` panics at `result["customerId"].(string)` (yashwant.go:56). A missing or non-document `account` panics at `result["account"].(bson.M)` (yashwant.go:73). A missing or non-string `account.customerId` panics at `account["customerId"].(string)` (yashwant.go:74).
- ByteUnits.FormatBytes: the `%.1f` mantissa (a float division) is not modelled; the result carries the divisor and unit instead. The reflection-based size walk is not part of this model.
- Dates: the time of day, the location and DST are not modelled.
- Dates, DateDiff*: the float64 paths of Duration.Seconds and Duration.Hours are treated as exact truncation of integer nanoseconds.
- GetDateInfo's other formatted fields (ToDate, the month starts and ends, the ISO values) are not modelled.
- Primes: the loop counter is not bounded to 64 bits.
- The other files of the repository are out of scope: Bloom-filter and Redis scripts, compression, bcrypt, Excel generation, the Postgres insert with two map ranges, and the tests.

## Findings

| source | as written | input that shows it | evidently intended | confidence | as-written member | corrected member |
|---|---|---|---|---|---|---|
| dates.go:40-44 | DateDiffInHours adds 24·DateDiffInDays to the whole hours of DateDiffInSeconds, which already include those days | two instants exactly 86400·10^9 ns apart give 48 | the whole hours between the instants, 24 here | high (not executed) | Dates.DateDiffInHours, with Dates.HoursCountDaysTwice and Dates.OneDayApart | Dates.ElapsedHours |
