# BannedCoreCron, modelled in Dafny

`BannedCoreCron` is the daily cron job of pH7CMS that refreshes the banned-IP file.
It asks two blocklist web services (SVC_URLS) for their lists of addresses.
It reads the local banned-IP file. Under the reading of line 197 that this model
takes (`preg_grep` over the one-element list [line]), it keeps every line in which
the IPv4 pattern of `regexpIP()` finds an address, whole. It merges both lists with
`array_unique(array_merge(...))` and appends every merged entry, followed by "\n",
to the file. A failing web service is logged and the job goes on with the next one.
An empty merge result is logged as a write error, and the file is left as it was.

The project has three modules:

- `IPv4Pattern` (ipv4_pattern.dfy) covers the two patterns of `regexpIP`.
  There is one octet predicate per alternation, strict or lax. `Matches` states the
  unanchored dotted-quad language directly. `Recognise` is a compiled recogniser, and
  a lemma proves that it decides the same language. Other lemmas say which numbers
  each octet language denotes.
- `Dedup` (dedup.dfy) covers `processIP`. `Unique` is `array_unique` with the first
  occurrence of every string kept in place. `MergeIps` is `Unique(new + old)`.
- `BannedCron` (banned_cron.dfy) has two parts.
  - Functions that state what one run produces: `Collected`, `FetchErrors`,
    `ExistingIps`, `Appended` and `Run`.
  - The class `BannedCoreCron`, whose methods perform the run step by step with the
    fields `newIps`, `oldIps`, `file` and `log`. Each method is proved against those
    functions.

All I/O is replaced by values:

- The answer of each web service is an input `FetchOutcome`. It is either a
  response with its status code and the lines `fgets` would return, or an
  exception.
- The banned-IP file is a field of type `seq<string>`. Initially it holds the lines
  `file()` returns, each with its line end, if it has one. Each `addIp` appends one element
  `ip + "\n"`.
- The log is the sequence of messages handed to `Logger::msg`.

All source paths below are in `_protected/app/system/core/assets/cron/24h/BannedCoreCron.php`.

## Model

| member | source | states |
|---|---|---|
| IPv4Pattern.StrictOctet | _protected/app/system/core/assets/cron/24h/BannedCoreCron.php:237-240 | the strict octet alternation, one disjunct per alternative; characterised by StrictOctetIsByteNumeral and StrictOctetsAreByteNumerals |
| IPv4Pattern.LaxOctet | _protected/app/system/core/assets/cron/24h/BannedCoreCron.php:249-252 | the lax octet alternation, one disjunct per form; characterised by LaxOctetShape and LaxCanonicalNumerals |
| IPv4Pattern.OctetShape | _protected/app/system/core/assets/cron/24h/BannedCoreCron.php:237-252 | an octet of either pattern is one to three digits |
| IPv4Pattern.DecimalString | _protected/app/system/core/assets/cron/24h/BannedCoreCron.php:237-240 | the canonical numeral of a number is a non-empty digit string without a leading zero (reference definition for the octet languages) |
| IPv4Pattern.DecimalRoundTrip | _protected/app/system/core/assets/cron/24h/BannedCoreCron.php:237-240 | reading back the canonical numeral of n gives n |
| IPv4Pattern.StrictOctetIsByteNumeral | _protected/app/system/core/assets/cron/24h/BannedCoreCron.php:237-240 | every string the strict octet alternation accepts is the canonical numeral of a number from 0 to 255 |
| IPv4Pattern.StrictOctetsAreByteNumerals | _protected/app/system/core/assets/cron/24h/BannedCoreCron.php:237-240 | the canonical numeral of n is a strict octet exactly when n <= 255 |
| IPv4Pattern.LaxOctetShape | _protected/app/system/core/assets/cron/24h/BannedCoreCron.php:249-252 | the lax octets are exactly the digit strings of length 1 or 2 and those of length 3 that start with 0, 1 or 2 |
| IPv4Pattern.StrictOctetIsLax | _protected/app/system/core/assets/cron/24h/BannedCoreCron.php:237-252 | every strict octet is a lax octet |
| IPv4Pattern.LaxOctetValue | _protected/app/system/core/assets/cron/24h/BannedCoreCron.php:249-252 | a lax octet denotes at most 299 |
| IPv4Pattern.LaxCanonicalNumerals | _protected/app/system/core/assets/cron/24h/BannedCoreCron.php:249-252 | the canonical numeral of n is a lax octet exactly when n <= 299, so 256 to 299 are accepted |
| IPv4Pattern.FirstDot | _protected/app/system/core/assets/cron/24h/BannedCoreCron.php:237-252 | the recogniser cuts an octet at the first dot: the index is the first '.' or the length, and no dot comes before it |
| IPv4Pattern.QuadIsJoined | _protected/app/system/core/assets/cron/24h/BannedCoreCron.php:237-252 | a string is a.b.c.d with four octets exactly when the recogniser, cutting at dots, finds four octets |
| IPv4Pattern.Matches | _protected/app/system/core/assets/cron/24h/BannedCoreCron.php:228-256 | the language of regexpIP(strict): some substring is four octets joined by dots; stated directly, as the reference for Recognise |
| IPv4Pattern.Recognise | _protected/app/system/core/assets/cron/24h/BannedCoreCron.php:228-256 | the compiled unanchored search, checking every substring by cutting it at its dots; characterised by RecogniseIsMatches |
| IPv4Pattern.RecogniseIsMatches | _protected/app/system/core/assets/cron/24h/BannedCoreCron.php:228-256 | the compiled recogniser accepts a string exactly when some substring of it is a dotted quad of the chosen mode (the pattern has no anchors) |
| IPv4Pattern.StrictMatchIsLaxMatch | _protected/app/system/core/assets/cron/24h/BannedCoreCron.php:228-256 | whatever regexpIP(true) matches, regexpIP() matches too |
| IPv4Pattern.CanonicalAddressMatchesBoth | _protected/app/system/core/assets/cron/24h/BannedCoreCron.php:228-256 | "192.168.1.1" matches both patterns |
| IPv4Pattern.LeadingZeroAfterEveryDotFailsStrict | _protected/app/system/core/assets/cron/24h/BannedCoreCron.php:237-240 | a string in which every dot is followed by '0' and a digit never matches the strict pattern |
| IPv4Pattern.LeadingZerosMatchOnlyLax | _protected/app/system/core/assets/cron/24h/BannedCoreCron.php:237-252 | "010.001.001.001" matches the lax pattern and not the strict one |
| IPv4Pattern.LongFirstOctetMatchesInside | _protected/app/system/core/assets/cron/24h/BannedCoreCron.php:237-240 | without anchors, "999.1.1.1" matches on its inner part |
| IPv4Pattern.LongLastOctetMatchesInside | _protected/app/system/core/assets/cron/24h/BannedCoreCron.php:237-240 | "1.2.3.456" matches on "1.2.3.45" |
| IPv4Pattern.AddressInsideTextMatches | _protected/app/system/core/assets/cron/24h/BannedCoreCron.php:237-240 | an address surrounded by other text is found |
| IPv4Pattern.TextWithoutDigitsDoesNotMatch | _protected/app/system/core/assets/cron/24h/BannedCoreCron.php:228-256 | a line without a digit matches neither pattern |
| Dedup.FirstIndex | _protected/app/system/core/assets/cron/24h/BannedCoreCron.php:217 | the index of the first occurrence of x, and x does not occur before it |
| Dedup.Unique | _protected/app/system/core/assets/cron/24h/BannedCoreCron.php:217 | array_unique, keeping the first occurrence of every string in place; characterised by UniqueSpec and UniqueKeepsFirstOccurrenceOrder |
| Dedup.UniqueSpec | _protected/app/system/core/assets/cron/24h/BannedCoreCron.php:217 | array_unique leaves no string twice, loses none and adds none |
| Dedup.UniqueKeepsFirstOccurrenceOrder | _protected/app/system/core/assets/cron/24h/BannedCoreCron.php:217 | the survivors of array_unique are in the order of their first occurrences |
| Dedup.UniqueOfDistinct | _protected/app/system/core/assets/cron/24h/BannedCoreCron.php:217 | a list without repeats is left unchanged |
| Dedup.UniqueIsIdempotent | _protected/app/system/core/assets/cron/24h/BannedCoreCron.php:217 | applying array_unique twice is the same as applying it once |
| Dedup.UniqueIsEmpty | _protected/app/system/core/assets/cron/24h/BannedCoreCron.php:217 | array_unique gives an empty list exactly for the empty list |
| Dedup.UniqueSnoc | _protected/app/system/core/assets/cron/24h/BannedCoreCron.php:217 | one more entry at the end is kept exactly when it is new |
| Dedup.MergeIps | _protected/app/system/core/assets/cron/24h/BannedCoreCron.php:215-219 | processIP's array_unique(array_merge(new, old)); characterised by MergeIpsProperties |
| Dedup.MergeIpsProperties | _protected/app/system/core/assets/cron/24h/BannedCoreCron.php:215-219 | the merge has no repeats, keeps every entry of both lists and nothing else, and keeps first-occurrence order with every new entry before every entry only the old list has; it is empty exactly when both lists are |
| Dedup.MergeSharingOneEntry | _protected/app/system/core/assets/cron/24h/BannedCoreCron.php:215-219 | merging [a, b] with [b, c] gives [a, b, c] |
| Dedup.MergeIpsExample | _protected/app/system/core/assets/cron/24h/BannedCoreCron.php:215-219 | merging ["1.1.1.1", "2.2.2.2"] with ["2.2.2.2", "3.3.3.3"] keeps the shared address once |
| BannedCron.WebServiceError | _protected/app/system/core/assets/cron/24h/BannedCoreCron.php:24-25 | the web-service message ends with the URL and is never the write-error message |
| BannedCron.TruthyPrefix | _protected/app/system/core/assets/cron/24h/BannedCoreCron.php:170 | the read loop reads lines up to the first line that is false for PHP ("" or "0") |
| BannedCron.RTrim | _protected/app/system/core/assets/cron/24h/BannedCoreCron.php:174 | rtrim(s, "\n\r"); characterised by RTrimRemovesLineEnds |
| BannedCron.RTrimRemovesLineEnds | _protected/app/system/core/assets/cron/24h/BannedCoreCron.php:174 | rtrim(s, "\n\r") keeps a prefix of s, leaves no line end at its end, and removes only line ends |
| BannedCron.ReadLines | _protected/app/system/core/assets/cron/24h/BannedCoreCron.php:170-175 | the entries the read loop of callWebService appends; characterised by ReadLinesSpec and ReadLinesAreTrimmed |
| BannedCron.Collected | _protected/app/system/core/assets/cron/24h/BannedCoreCron.php:88-111 | what all the calls of the fetch loop append to aNewIps, in call order; characterised by CollectedSplit, SplitAround and FailingSourceDoesNotStopLaterOnes, and the loop is proved equal to it by CallWebServices |
| BannedCron.FetchErrors | _protected/app/system/core/assets/cron/24h/BannedCoreCron.php:88-111 | the messages the fetch loop logs, in call order; characterised by FetchErrorsSplit, FailingSourceDoesNotStopLaterOnes, SucceedingSourceLogsNothing and FetchErrorsHoldNoWriteError |
| BannedCron.Grep | _protected/app/system/core/assets/cron/24h/BannedCoreCron.php:197 | under the modelled reading (preg_grep over [line]), the line itself when the pattern matches somewhere in it, else nothing; characterised through ExistingIpsAreMatchingLines |
| BannedCron.ReadLinesSpec | _protected/app/system/core/assets/cron/24h/BannedCoreCron.php:170-175 | the read loop keeps as many lines as it reads, each right-trimmed and unvalidated, in body order |
| BannedCron.ExistingIps | _protected/app/system/core/assets/cron/24h/BannedCoreCron.php:191-209 | processExistingIP takes no more entries than the file has lines |
| BannedCron.Run | _protected/app/system/core/assets/cron/24h/BannedCoreCron.php:66-129 | what one run of the constructor leaves: merged list, file and log; characterised by EmptyMergeLogsOneWriteError, NonEmptyMergeAppendsEveryEntry and EmptyMergeIff, and the class is proved equal to it by its constructor |
| BannedCron.BannedCoreCron.constructor | _protected/app/system/core/assets/cron/24h/BannedCoreCron.php:66-78 | the constructor selects the lax pattern and runs the job once; the merged list, file and log it leaves are those of `Run` |
| BannedCron.BannedCoreCron.DoProcess | _protected/app/system/core/assets/cron/24h/BannedCoreCron.php:83-129 | the fetch loop, then the file read, the merge and the write; the file is the old file with the merged entries appended; the log holds the fetch errors, then the write error exactly when the merge is empty |
| BannedCron.BannedCoreCron.CallWebServices | _protected/app/system/core/assets/cron/24h/BannedCoreCron.php:88-111 | every URL in SVC_URLS order; the contributions of all services are appended to aNewIps, and one message is logged per failing service |
| BannedCron.BannedCoreCron.CallWebService | _protected/app/system/core/assets/cron/24h/BannedCoreCron.php:138-178 | an exception propagates; a status other than 200 returns false and adds nothing; status 200 returns true and appends the read lines, trimmed, to aNewIps |
| BannedCron.BannedCoreCron.ProcessExistingIp | _protected/app/system/core/assets/cron/24h/BannedCoreCron.php:183-210 | aOldIps is reset, then filled, under the modelled reading of line 197 (preg_grep over [line]), with the file lines the pattern matches, whole and in file order |
| BannedCron.BannedCoreCron.ProcessIp | _protected/app/system/core/assets/cron/24h/BannedCoreCron.php:215-219 | aNewIps becomes the merge of aNewIps and aOldIps |
| BannedCron.BannedCoreCron.InvalidNewIp | _protected/app/system/core/assets/cron/24h/BannedCoreCron.php:289-292 | aNewIps is empty; WriteIp returns true exactly when it does not hold |
| BannedCron.BannedCoreCron.WriteIp | _protected/app/system/core/assets/cron/24h/BannedCoreCron.php:263-274 | returns true exactly when aNewIps is non-empty, and the file afterwards is the old file with one "entry\n" per entry, in order |
| BannedCron.BannedCoreCron.AddIp | _protected/app/system/core/assets/cron/24h/BannedCoreCron.php:281-284 | the file gains exactly ip + "\n" at its end |
| BannedCron.CollectedGrows | _protected/app/system/core/assets/cron/24h/BannedCoreCron.php:88-111 | calling one more service adds exactly its contribution to what the loop has collected |
| BannedCron.FetchErrorsGrow | _protected/app/system/core/assets/cron/24h/BannedCoreCron.php:88-111 | calling one more service adds its message to the log exactly when it fails |
| BannedCron.CollectedSplit | _protected/app/system/core/assets/cron/24h/BannedCoreCron.php:88-111 | what two runs of services collect is what each collects, one after the other |
| BannedCron.FetchErrorsSplit | _protected/app/system/core/assets/cron/24h/BannedCoreCron.php:88-111 | the errors two runs of services log are those each logs, one after the other |
| BannedCron.SplitAround | _protected/app/system/core/assets/cron/24h/BannedCoreCron.php:88-111 | the fetch results split around the i-th service into before, the service itself and after |
| BannedCron.FailingSourceDoesNotStopLaterOnes | _protected/app/system/core/assets/cron/24h/BannedCoreCron.php:88-111 | a failing service logs exactly one message naming its URL and adds nothing; the services after it still contribute and log as before |
| BannedCron.SucceedingSourceLogsNothing | _protected/app/system/core/assets/cron/24h/BannedCoreCron.php:88-111 | a service answering 200 logs nothing and contributes its read lines in place |
| BannedCron.FetchErrorsHoldNoWriteError | _protected/app/system/core/assets/cron/24h/BannedCoreCron.php:97-109 | no message of the fetch loop is the write-error message |
| BannedCron.CountSplit | _protected/app/system/core/assets/cron/24h/BannedCoreCron.php:98-127 | occurrences of a message in two logs one after the other add up |
| BannedCron.EmptyMergeLogsOneWriteError | _protected/app/system/core/assets/cron/24h/BannedCoreCron.php:126-127 | with an empty merge the file is left unchanged and the write error is logged exactly once, as the last message |
| BannedCron.NonEmptyMergeAppendsEveryEntry | _protected/app/system/core/assets/cron/24h/BannedCoreCron.php:263-274 | with a non-empty merge there is no write error, and the file is the old file followed by "entry\n" for each merged entry, in order |
| BannedCron.EmptyMergeIff | _protected/app/system/core/assets/cron/24h/BannedCoreCron.php:116-121 | the merge is empty exactly when no service gave a line and no file line holds an address |
| BannedCron.ExistingIpsMembership | _protected/app/system/core/assets/cron/24h/BannedCoreCron.php:191-209 | the entries taken from the file are exactly its lines that the recogniser accepts |
| BannedCron.ExistingIpsAreMatchingLines | _protected/app/system/core/assets/cron/24h/BannedCoreCron.php:197-207 | every entry in aOldIps is a whole file line that the pattern matches, and every such line is taken |
| BannedCron.CollectedEntriesAreTrimmed | _protected/app/system/core/assets/cron/24h/BannedCoreCron.php:170-175 | no fetched entry ends with '\n' or '\r' |
| BannedCron.ReadLinesAreTrimmed | _protected/app/system/core/assets/cron/24h/BannedCoreCron.php:174 | no line kept by one read loop ends with a line end |
| BannedCron.ReadLinesReadsAll | _protected/app/system/core/assets/cron/24h/BannedCoreCron.php:170 | when every line is true for PHP, the read loop keeps all of them |
| BannedCron.FinalZeroLineIsDropped | _protected/app/system/core/assets/cron/24h/BannedCoreCron.php:170 | a final line "0" without a newline ends the read loop and is dropped |
| BannedCron.TrimOneLine | _protected/app/system/core/assets/cron/24h/BannedCoreCron.php:170-175 | a one-line body "ip\n" gives exactly [ip] |
| BannedCron.SecondServiceOnly | _protected/app/system/core/assets/cron/24h/BannedCoreCron.php:88-111 | a failing first service and a one-line second service collect that line and log only the first URL |
| BannedCron.FirstServiceDownSecondServiceUp | _protected/app/system/core/assets/cron/24h/BannedCoreCron.php:83-129 | on an empty file, a failing first service and a second one answering one address: the address is written and only the first URL is reported |
| BannedCron.MergeOfOne | _protected/app/system/core/assets/cron/24h/BannedCoreCron.php:217 | one new address with no old ones merges to itself |
| BannedCron.Status500Example | _protected/app/system/core/assets/cron/24h/BannedCoreCron.php:158-160 | status 500 from the first service: the second service's "1.1.1.1" is still written and one error is logged |
| BannedCron.OldEntriesAreAppendedAgain | _protected/app/system/core/assets/cron/24h/BannedCoreCron.php:263-274 | under the modelled reading of line 197 (preg_grep over [line]), every old file line holding an address is written again after the old content, so the file grows on every run; as written, PHP 7 keeps aOldIps empty so no old line is written again, and PHP 8 throws at line 197 so nothing is written |

## Left out

- The Guzzle client and HTTP are left out. Each GET is an input `FetchOutcome`, and `getBody()->detach()` is replaced by the list of lines `fgets` returns. Guzzle's own throw-on-4xx/5xx default is one of the ways a call can end in `Threw`.
- CallWebService: the `url` parameter only names the request; what the service answers is the separate `outcome` input.
- The file system is left out: `file()`, `file_put_contents` and the BANNED_IP_FILE_PATH constant. The file is a sequence of pieces. A piece appended by `addIp` is not split again into lines, and a file that cannot be read is not modelled.
- Logger internals are left out. The log is the list of formatted messages.
- The `Cron` parent constructor is left out.
- A general PCRE engine is left out. Only the two fixed patterns are modelled, and only as "matches somewhere in the string". Which substring PCRE reports as the match is not modelled.
- ProcessExistingIp: the source passes a single string to `preg_grep`, which expects an array. PHP 7 warns and returns null, so nothing is added. On a non-empty file, PHP 8 throws a `TypeError` that nothing catches; on an empty file the `foreach` at line 191 never reaches line 197 and the run goes on. The model takes one reading of the call, which the source does not fix: `preg_grep` over the one-element list [line], which keeps the whole line, line end included, when the pattern matches. The comments at lines 193 and 203 suggest extracting each address, possibly several per line; that is not modelled, and no address is extracted from the line.
- ProcessIp: the keys that `array_unique` preserves are not modelled. The merged list is a plain sequence in the same order, which is the order that the `foreach` of writeIP follows.
- InvalidNewIp: `!is_array($this->aNewIps)` is not modelled, because aNewIps is always a list here.
- Timeouts, retries and concurrent runs are left out. The source has none.
- ExistingIps: no address is extracted from a line. Under the modelled reading of line 197 (preg_grep over [line]) whole matching lines are kept, although the comment at line 181 speaks of keeping "validating IP addresses". writeIP appends the whole merged list, old entries included, while the comment at line 119 speaks only of filtering out doubles. `OldEntriesAreAppendedAgain` states the consequence under that reading.
