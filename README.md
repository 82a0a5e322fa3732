# Vulnerability index and container correlation

A Dafny model of the core of a Kubernetes controller. The controller polls the
Azure Security Center sub-assessment API for container-image vulnerability
findings. It keeps a process-wide map from image digest to findings, and for
every running pod it reports each container's findings in three severity
buckets (High, Medium, Low), together with the assessment key used for a
portal deep link.

The model follows `src/handler.go`:

- `wrappers.dfy` holds `Option`, `Result` and `Evaluation`. `Evaluation` is a Go expression that either yields a value or panics.
- `sequences.dfy` holds `Filter`, order-preserving selection, and its lemmas.
- `gostrings.dfy` holds `strings.LastIndex` (Go's standard library), specified by "last occurrence".
- `vulnerabilities.dfy` holds the `Vulnerability` record and the three severity classes.
- `correlation.dfy` holds digest extraction, the assessment key, the bucketing loop of `ProcessFindings`, and `Correlate`. `Correlate` is the reference for one container status.
- `index.dfy` holds the reference generation `Grouped` and its properties. It also holds the class `VulnerabilityIndex`, whose `digests` field is the Go package variable `digests`. Its methods are the clear-and-append refresh, one refresh cycle, the lookup and the `ObjectCreated` loop over container statuses.

The code departs from a build-then-swap, log-and-continue design in three places, and the model follows the code:

- The code clears the shared map and rebuilds it in place while it holds the write lock (`src/handler.go:151-162`). It does not build a new map and swap it in. The model has `Clear` followed by the appending loop.
- When the token exchange, the request, the body read or the JSON decode fails, the code terminates the process (`logrus.Fatal`). It does not log the failure and continue. That failure happens before the lock is taken, so the index is not touched, and `InvokeApi` models it as a failed cycle that leaves the index unchanged. The code never checks the HTTP status (`src/handler.go:130-148`). An error response, such as a rejected request or a throttled one, decodes to an empty list and reaches the rebuild at `src/handler.go:151-161`, which wipes the index. `ErrorResponseAfterRefresh` shows this. The token exchange does not check its status either (`src/handler.go:179-199`). Rejected credentials therefore do not stop the process: they decode to an empty access token, the assessment request goes out with the header `Bearer `, and the error body it receives wipes the index in the same way.
- The code panics on an image id without `sha256:`, and it can produce a wrong assessment key. Both are listed under Findings. The rest of the model uses the intended behaviour.

## Model

| member | source | states |
|---|---|---|
| GoStrings.LastIndex | src/handler.go:214 | The result is -1 exactly when the marker does not occur. Otherwise it is the start of an occurrence, and no later occurrence exists. |
| GoStrings.LastIndexOfLastOccurrence | src/handler.go:246 | The last occurrence is unique, so it determines the value of LastIndex. |
| Sequences.FilterAppend | src/handler.go:159-161 | Appending in a loop keeps arrival order: selecting from `a + b` gives the selection from `a` followed by the selection from `b`. |
| Sequences.FilterSnoc | src/handler.go:233 | One more input element extends the selection by exactly that element when the element qualifies, and by nothing otherwise. |
| Sequences.FilterMembers | src/handler.go:231-239 | An element is selected if and only if it occurs in the input and qualifies. |
| Sequences.FilterMultiplicity | src/handler.go:231-239 | A qualifying element is kept exactly as often as it occurs in the input. Any other element is not kept at all. |
| Correlation.ExtractDigest | src/handler.go:214-215 | Returns None exactly when `sha256:` does not occur. Otherwise the digest is a suffix of the image id, starts with `sha256:`, and contains it nowhere after offset 0. |
| Correlation.ExtractDigestOfPinnedReference | src/handler.go:214-215 | `<repository>@sha256:<hex>`, with no colon in the hex part, yields exactly `sha256:<hex>`, whatever the repository part holds. |
| Correlation.ExtractDigestOfPinnedImage | src/handler.go:214-215 | `registry.example.com/app@sha256:abc123` yields `sha256:abc123`. |
| Correlation.ExtractDigestOfTaggedImage | src/handler.go:214-215 | `registry.example.com/app@latest` yields None, so correlation is skipped. |
| Correlation.AssessmentKey | src/handler.go:246-247 | A key exists only when the assessments marker occurs and the id has 67 characters from its last occurrence on. The key is then the 36 characters right after that marker. Otherwise the result is None. |
| Correlation.AssessmentsMarkerLength | src/handler.go:247 | The marker `Microsoft.Security/assessments/` is 31 characters long, which is where the offsets 31 and 67 come from. |
| Correlation.ClassifySnoc | src/handler.go:231-239 | Classifying one more finding appends it to the High bucket if its severity is "High", to Medium if it is "Medium", and to Low otherwise. The other buckets are unchanged. |
| Correlation.ClassifyPartitions | src/handler.go:231-244 | The three bucket counts add up to the number of findings. Together the buckets hold each finding exactly as often as it was reported. |
| Correlation.ClassifyMembers | src/handler.go:232-237 | High holds exactly the findings with severity "High", and Medium exactly those with "Medium". Low holds exactly those with any other severity. |
| Correlation.CriticalCountsAsLow | src/handler.go:236-237 | A "Critical" finding lands in Low. It is not dropped and causes no error. |
| Correlation.ProcessFindings | src/handler.go:228-247 | The loop returns the reference bucketing of its input, with counts adding up to the input's length. The key is the assessment key of the first finding's id. |
| Correlation.Correlate | src/handler.go:214-224 | The outcome for one container status: extract the digest, look it up in the index, and report the bucketed findings and the assessment key only when the digest is a key. Otherwise there are no findings. |
| Correlation.CorrelateAtLastMarker | src/handler.go:214-224 | A container is reported if and only if the digest from its last `sha256:` on is a key of the index. The report buckets that key's findings, and its counts add up to their number. |
| Correlation.CorrelateSkipsWithoutDigest | src/handler.go:214-222 | An image id without `sha256:` yields NoFindings whatever the index holds. |
| Correlation.ExtractDigestAsWritten | src/handler.go:214-215 | As written, `ImageID[idx:]` panics exactly when `sha256:` is absent. Otherwise it agrees with ExtractDigest. |
| Correlation.EmptyImageIdPanics | src/handler.go:210-215 | The empty image id of a container that has not started makes the code as written panic. The intended extraction returns None. |
| Correlation.AssessmentKeyAsWritten | src/handler.go:246-247 | As written, an id without the marker yields its characters [30, 66) when it has at least 66 characters, and panics otherwise. An id whose last marker starts fewer than 67 characters before its end panics. Where the intended key exists, both agree. |
| Correlation.MissingMarkerYieldsBogusKey | src/handler.go:246-247 | Any id of at least 66 characters in which the marker occurs nowhere gets a key as written, while the intended extraction gives none. |
| Correlation.LowerCaseProviderYieldsBogusKey | src/handler.go:246-247 | A resource id with a lower-case provider segment shows that discrepancy. |
| VulnerabilityIndexes.AppendEntry | src/handler.go:160 | One `append` to a digest's list. The finding is added at the end of its digest's list, and a missing key counts as the empty list. |
| VulnerabilityIndexes.Grouped | src/handler.go:159-161 | The map that the append loop builds from an empty map: every fetched finding in arrival order, each appended under its own digest. |
| VulnerabilityIndexes.OfDigestEmpty | src/handler.go:159-161 | A digest's list is empty if and only if the digest does not occur in the fetched list. |
| VulnerabilityIndexes.GroupedByDigest | src/handler.go:154-161 | The keys after a rebuild are exactly the fetched digests, so no key of the previous generation survives unless it was fetched again. Each key holds the fetched list filtered to that digest, in arrival order. |
| VulnerabilityIndexes.GroupedWellFormed | src/handler.go:159-161 | Every stored list is non-empty and holds only fetched findings of its own digest. |
| VulnerabilityIndexes.GroupedNonEmpty | src/handler.go:160 | Every stored list is non-empty, which is why `digest[0]` is safe after a successful lookup (src/handler.go:246). |
| VulnerabilityIndexes.GroupedKeepsEveryFinding | src/handler.go:159-161 | Every fetched finding is stored under its own digest, as often as it was fetched. |
| VulnerabilityIndexes.TotalSizeAt | src/handler.go:154-161 | The total length of a map's lists does not depend on which key is counted first. |
| VulnerabilityIndexes.TotalSizeAppendEntry | src/handler.go:160 | `m[d] = append(m[d], v)` adds exactly one to the total length of all lists. |
| VulnerabilityIndexes.GroupedTotalSize | src/handler.go:154-161 | The stored lists hold, in all, exactly as many findings as were fetched. Nothing is dropped or duplicated. |
| VulnerabilityIndexes.VulnerabilityIndex.constructor | src/handler.go:60 | The index starts as an empty, valid generation. |
| VulnerabilityIndexes.VulnerabilityIndex.Clear | src/handler.go:154-156 | Deleting key by key leaves the map empty. |
| VulnerabilityIndexes.VulnerabilityIndex.Refresh | src/handler.go:150-162 | Clearing and then appending installs exactly the grouping of the fetched list, whatever the previous state. |
| VulnerabilityIndexes.VulnerabilityIndex.InvokeApi | src/handler.go:111-164 | A successful fetch installs its grouping. A failed one leaves the map and its generation unchanged. An error status is not a failure here: its body arrives as a successful fetch. |
| VulnerabilityIndexes.VulnerabilityIndex.Lookup | src/handler.go:218-222 | The lookup is found if and only if the digest was fetched. The list found is non-empty and is that digest's filtered list. |
| VulnerabilityIndexes.VulnerabilityIndex.ObjectCreated | src/handler.go:202-226 | Every container status is correlated, in order, against the current generation, as Correlate defines. |
| VulnerabilityIndexes.ErrorResponseAfterRefresh | src/handler.go:130-161 | After a refresh that installs a grouping, a response whose body decodes to no findings leaves the map empty. |
| VulnerabilityIndexes.RefreshTwiceThenFail | src/handler.go:111-164 | Refreshing twice with the same list gives the same map, which a later failed cycle leaves in place. |
| VulnerabilityIndexes.GroupingOfTwoDigests | src/handler.go:159-161 | For two findings of one digest followed by one of another digest, the grouping is exactly the first digest's two findings in order and the second digest's one, with no other key. |
| VulnerabilityIndexes.GroupingExample | src/handler.go:159-161 | The findings [aaa, aaa, bbb] group into aaa ↦ the two aaa findings in order, and bbb ↦ the one bbb finding. No other key is present. |
| VulnerabilityIndexes.ClassifyExample | src/handler.go:231-239 | A High finding followed by a Medium one gives High = [first], Medium = [second], and an empty Low. |
| VulnerabilityIndexes.EndToEndExample | src/handler.go:209-247 | On that generation, a container running `…@sha256:aaa` is reported with High 1, Medium 1 and Low 0. |
| VulnerabilityIndexes.EndToEndMissExample | src/handler.go:209-224 | On that generation, a container running `…@sha256:ccc` yields NoFindings. |

## Findings

| source | as written | input that shows it | evidently intended | confidence | as-written member | corrected member |
|---|---|---|---|---|---|---|
| src/handler.go:214-215 | `status.ImageID[idx:]` with `idx = strings.LastIndex(ImageID, "sha256:")`. When the marker is absent, `idx` is -1 and the slice panics. | The empty `ImageID` of a container that has not started yet. | Skip that container (no findings). | not executed | Correlation.ExtractDigestAsWritten (shown by Correlation.EmptyImageIdPanics) | Correlation.ExtractDigest |
| src/handler.go:246-247 | `digest[0].Id[idx+31 : idx+67]` with no check on `idx`. Without the marker, the slice [30, 66) of any id of 66 or more characters becomes the "key". A marker too close to the end panics. | A resource id whose provider segment reads `microsoft.security/assessments/` in lower case (`Correlation.LowerCaseProviderId`). | Build no deep link when there is no marker or the key would overrun the end. | not executed | Correlation.AssessmentKeyAsWritten (shown by Correlation.MissingMarkerYieldsBogusKey and Correlation.LowerCaseProviderYieldsBogusKey) | Correlation.AssessmentKey |

## Left out

- The token exchange (`GetAccessToken`, src/handler.go:167-200) and the assessment GET (src/handler.go:117-142) are network I/O. The fetched list is an input, and `InvokeApi` receives it as a `Result`.
- The HTTP status of the assessment response is not an input to `InvokeApi`. The code ignores it, so a non-success response arrives as `Success` of whatever its body decodes to, for example `Success([])`, which empties the index.
- JSON decoding (src/handler.go:144-148, 193-197, 96) is a foreign library call. The model starts from the already-parsed record, with the nested `properties` flattened.
- `logrus.Fatal` ends the process. It is modelled only as far as it matters to the index: a failed cycle leaves the index unchanged.
- Reading the configuration (`getConfig`, `strconv.Atoi`, src/handler.go:65-103) is file I/O.
- The `gocron` schedule (src/handler.go:105-109) and the `sync.RWMutex` (src/handler.go:151, 162, 218, 220) concern timing and concurrency. Refresh and lookup are sequential calls on one object, so interleavings between the two paths are not modelled.
- Log output and the portal URL text (src/handler.go:241-248) are left out. A report carries the three buckets, whose lengths are the printed counts, and the optional assessment key.
- Kubernetes pod types are left out. A pod is reduced to the `ImageID` strings of its container statuses. `ObjectDeleted` and `ObjectUpdated` only log, so they are not modelled.
- src/main.go is not part of this model. It covers cluster client set-up, the informer and work queue, signal handling, log level and the running-phase filter `enqueuePod`.
- Go strings index bytes, while the model indexes characters. The two agree on the ASCII identifiers involved, and non-ASCII input is not modelled.
- The key order of Go's map iteration in the clearing loop is unspecified. The model picks an arbitrary key each time, and only the final empty map matters.
- The `issues` map of `ProcessFindings`, keyed by "High", "Medium" and "Low", is modelled as a record of three lists. A missing key in Go reads as an empty list, which is what the record starts with.
