# xhash core in Dafny

A model of the core of xhash, a command-line tool that prints message
digests of files, standard input and strings for many algorithms at once.
The model covers:

- the file-name escaping used by the `*sum`-compatible output and its inverse (`Escape`, utils.go);
- the NUL-terminated line splitter and the scanner choice for check files (`Scan`, utils.go);
- the choice of plain, natively keyed or HMAC construction per algorithm (`Algorithms`, utils.go);
- the hashing engine: one buffer, a stream, a file, standard input, a string (`Engine`, hash.go);
- the older program's selection of algorithms from its flags and the order of its output (`Selection`, xhash.go).

Supporting modules:

- `Wrappers`: `Option` and `Result`.
- `Io`: byte sources. A `Reader` delivers its `chunks` with a nil error. It then delivers `last` together with its end, which is `Eof` or `Broken` (any other error). After that every read returns nothing with the same end. A read longer than the buffer is split. `Io.ReadAll` keeps the bytes that come with io.EOF. io.ReadAll returns the bytes read together with any other error, but hashFile ignores them then (hash.go:138-139), so the model gives no data in that case.

Digests are symbolic. `Digest(construction, message)` stands for the output of a primitive that the model does not look inside. So "the sum is the digest of exactly these bytes under this construction" is what the contracts state.

Goroutines are modelled sequentially. A goroutine per accumulator becomes one step of a loop. A channel becomes the sequence of values sent on it, and every streaming worker receives the same sequence.

`getChosen`, `initHashes`, `macKey` and the `Checksum` type are defined outside utils.go, hash.go and xhash.go. They become inputs or assumptions, and the inputs are collected in `Engine.Env`:

- the chosen algorithms, for which getChosen yields fresh accumulators;
- the MAC key;
- the positions of accumulators whose `Write` reports an error.

Such a failing Write accepts no bytes.

File names in `Escape` are Dafny strings, one character per byte of the Go string, because escaping only compares and inserts ASCII characters. The engine's labels and hashed data are byte sequences.

## Model

| member | source | states |
|---|---|---|
| Escape.EscapeFilename | utils.go:55-66 | Running the three replacement passes (backslash, then CR, then LF) is the same as escaping every character on its own: a backslash doubles, CR becomes backslash-r and LF becomes backslash-n, with no interference between passes |
| Escape.EscapeFilenameFacts | utils.go:55-66 | An escaped name contains no CR or LF. It is longer than the name by exactly the number of backslashes, CRs and LFs in it. A name with none of them is returned unchanged |
| Escape.UnescapeFilename | utils.go:69-80 | Unescaping never lengthens a name |
| Escape.UnescapeInvertsEscape | utils.go:55-80 | unescapeFilename undoes escapeFilename on every name in which no backslash is directly followed by `r` or `n` |
| Escape.RoundTripCounterexample | utils.go:55-80 | The name backslash-n escapes to backslash, backslash, n. That unescapes to backslash followed by LF, so the round trip fails as written |
| Escape.OnePassRoundTrip | utils.go:55-66 | The corrected one-pass decoder undoes escapeFilename on every name, and every escaped name is well formed (no raw CR/LF, every backslash opens an escape) |
| Escape.EscapeInvertsOnePass | utils.go:55-66 | escapeFilename undoes the corrected decoder on every well-formed escaped string, so the two are inverse bijections |
| Escape.PlainCase | utils_test.go:29-62 | "abc" escapes and unescapes to itself |
| Escape.BackslashCase | utils_test.go:29-62 | "a\c" and "a\\c" are each other's escape and unescape |
| Escape.LineFeedCase | utils_test.go:29-62 | "a LF c" and "a\nc" are each other's escape and unescape |
| Escape.BackslashThenLineFeedCase | utils_test.go:29-62 | "a\b LF c" and "a\\b\nc" are each other's escape and unescape |
| Escape.LineFeedThenBackslashCase | utils_test.go:29-62 | "a LF b\c" and "a\nb\\c" are each other's escape and unescape |
| Scan.IndexByte | utils.go:96 | -1 exactly when the byte is absent; otherwise the position of its first occurrence |
| Scan.ScanLinesZ | utils.go:92-106 | It returns no token and consumes nothing exactly when no NUL is buffered and it is not the end with data left: before the end that asks for more data, at the end with no data it stops the scan. A NUL-terminated record is returned without its NUL and consumed together with it. At the end, unterminated data is returned whole. A record never contains NUL |
| Scan.ScanLinesZPrefixStable | utils.go:96-99 | Once a NUL is buffered, more data or reaching the end does not change the split |
| Scan.ScanAllReconstructs | utils.go:92-106 | Splitting a whole input and re-joining the records with NUL terminators gives back the input, plus one NUL if its last record was unterminated |
| Scan.ScanAllOfJoin | utils.go:92-106 | Splitting NUL-terminated records that contain no NUL gives back exactly those records |
| Scan.GetScanner | utils.go:109-131 | Forced NUL mode uses the source as is. Otherwise the call fails exactly when the first read fails with an error other than io.EOF. On success the scanner sees the whole content and end of the source, the peeked bytes included, and uses NUL mode exactly when the peek contained a NUL |
| Scan.PeekIsPrefix | utils.go:116-117 | The peek is at most 8192 bytes and is a prefix of the content |
| Scan.ShortPeekMissesNul | utils.go:116-125 | A NUL that arrives only after the first read is not seen: the scanner falls back to line mode |
| Scan.NulScannerRecords | utils.go:109-131 | In NUL mode, the scanner's record list (defined as the NUL split of everything its source delivers) is the NUL split of the original source's whole content, so the peek loses nothing |
| Algorithms.InitHash | utils.go:27-52 | Without a key every algorithm is built plain. With a key, BLAKE3, BLAKE2s-256, BLAKE2b-256 and BLAKE2b-512 get their native keyed construction and every other algorithm is wrapped in HMAC with the key |
| Engine.Prepare | hash.go:11-14 | A nil list is replaced by the chosen algorithms. Every entry gets its initHash construction with nothing absorbed; its algorithm, count and sum are kept (assuming initHashes does only that) |
| Engine.WriteInTurn | hash.go:17-25 | The sequential loop fails exactly when some remaining Write fails. Earlier entries are untouched. Without failure, every entry counts all the bytes and sums exactly them |
| Engine.WriteAlone | hash.go:34-42 | A failing goroutine leaves its accumulator unchanged. Otherwise the count is the data length and the sum covers exactly the data |
| Engine.HashBytes | hash.go:10-46 | The result is nil exactly on the sequential path (one accumulator or empty data) with some failing Write. Otherwise every non-failing entry counts len(data) and sums data under initHash's construction, while failing entries keep their count and sum |
| Engine.Copy | hash.go:55-61 | io.Copy fails exactly when the source breaks or a Write with bytes to write fails. Otherwise it counts and absorbs the whole content, including bytes delivered with io.EOF |
| Engine.Distribute | hash.go:88-106 | Chunks are at most 65536 bytes. The chunks sent followed by the bytes dropped at the end make up the whole content. Bytes are dropped exactly when the last read brings data |
| Engine.Feed | hash.go:76-82 | A worker adds to its count the bytes of every chunk and absorbs them in order; a failing worker absorbs and counts nothing |
| Engine.Worker | hash.go:74-84 | A worker's sum is the digest of what it had absorbed followed by every chunk received |
| Engine.HashF | hash.go:49-109 | With one accumulator: nil exactly on a broken source or a failing Write with data; otherwise the count and sum cover the whole content. With several: never nil, and each non-failing worker's count grows by the bytes delivered, with its sum being the digest of exactly those bytes |
| Engine.SizeCheck | hash.go:148-156 | A positive size with a nil or empty list indexes out of range. A positive size that differs from the first count is rejected. Otherwise the result carries the file name |
| Engine.HashFile | hash.go:111-157 | The unreadable count rises exactly on an open failure. Stat failure and directories give nil. A hashed result carries the input's name and, for a positive size, a first count equal to the size. Zero-size regular files are never rejected |
| Engine.BufferedPath | hash.go:133-143 | A file below 256 MiB that reads to io.EOF is hashed as one buffer whenever hashBytes succeeds |
| Engine.LargeFileStreams | hash.go:136-146 | A file of at least 256 MiB is streamed from its start |
| Engine.ReadErrorStreams | hash.go:136-146 | A small file whose io.ReadAll fails is streamed from where the read left it, which holds nothing more because read errors are modelled as persistent |
| Engine.BufferFailureStreams | hash.go:136-146 | A small file that reads to io.EOF but on which hashBytes gives nil is streamed from its end, into the accumulators hashBytes already wrote to when a list was given, or fresh ones otherwise |
| Engine.ShortReadRejected | hash.go:133-156 | A file whose source delivers fewer bytes than Stat reports is never reported as hashed, whichever path it takes, when the list is nil or the list passed on at hash.go:141 and 145 has every count at zero |
| Engine.WriteInTurnCounts | hash.go:17-25 | After the sequential loop, even one stopped by a failing Write, every count is the one it had or the data length |
| Engine.CountedListPassesShortRead | hash.go:141-156 | A given list whose first count is already the size and whose first Write fails is reported as hashed for an empty file of Stat size 5, so the zero-count condition is needed |
| Engine.DeliveredAll | hash.go:88-106 | When no bytes come with the end, the distributor delivers the whole content |
| Engine.StreamingMatchesBuffered | hash.go:10-109 | For fresh accumulators without write errors, on a source that ends cleanly, streaming and whole-buffer hashing give the same algorithms, counts and sums |
| Engine.GatherIgnoresThreshold | hash.go:133-146 | Under those conditions the 256 MiB threshold is invisible: for any size, hashFile's accumulators hold the sums of the whole file |
| Engine.BufferedWriteFailureRejected | hash.go:133-156 | A single accumulator whose Write fails on a small file is rejected by the size check instead of reported as hashed |
| Engine.StreamingDropsBytesWithEof | hash.go:91-98 | Bytes delivered together with io.EOF are not forwarded: both workers over such a one-byte source (MD5 and SHA1) count 0 and sum the empty message |
| Engine.NilChecksumsPanic | hash.go:144-148 | With no list given, one algorithm and a failing read of a 5-byte file, hashF yields nil and the size check indexes it (the as-written panic) |
| Engine.HashFileChecked | hash.go:111-157 | The corrected hashFile never indexes out of range. It reports an error exactly where the original would panic, and agrees with it everywhere else |
| Engine.BrokenZeroSizeFileHashed | hash.go:136-156 | As written, a file that Stat reports as empty and whose read fails is reported as hashed with the digests of the empty message, because the size check is skipped at size 0 |
| Engine.HashFReported | hash.go:49-109 | The corrected hashF gives no result when the source fails; on a source that reaches io.EOF it is hashF; with other than one accumulator it is nil exactly on a failing source |
| Engine.HashFileReported | hash.go:111-157 | The corrected hashFile reports a read failure exactly for a regular file whose read fails, whatever its size. It never panics, reports as hashed only files read to io.EOF, and otherwise agrees with Engine.HashFileChecked |
| Engine.HashStdin | hash.go:159-167 | The result is labelled with the empty string. With several algorithms it holds one accumulator per algorithm; with one, it is nil exactly on a broken source or a failing Write with data |
| Engine.StdinBrokenTruncated | hash.go:88-98 | As written, hashStdin with MD5 and SHA1 on a source that delivers one byte and then fails returns digests of that byte alone: the read error is logged and the digests of the truncated stream are reported |
| Engine.HashStdinReported | hash.go:159-167 | The corrected hashStdin gives no digests when the source fails (with several algorithms exactly then), only ever reports digests of a source that reached io.EOF, and agrees with hashStdin on every such source |
| Engine.HashString | hash.go:169-180 | The label is the string in double quotes. There is one accumulator per chosen algorithm, in order, with count 0, whose sum is the digest of the string's bytes (of nothing if its Write fails) |
| Selection.SizeGroupsCover | xhash.go:88-108 | Every table entry's size times 8 is one of 128, 160, 224, 256, 384, 512, so the group lookup always finds a group |
| Selection.SizeGroupsPartition | xhash.go:88-108 | Every table name lies in exactly one size group |
| Selection.FamilyOfTable | xhash.go:100-107 | The ordered prefix tests put each table name into exactly the family its name says, with MD4, MD5, RIPEMD160 and SHA1 in none |
| Selection.Sha3Members | xhash.go:100-107 | The SHA-3 group is SHA3-224, SHA3-256, SHA3-384, SHA3-512 |
| Selection.Sha2Members | xhash.go:100-107 | The SHA-2 group is SHA224, SHA256, SHA384, SHA512, SHA512-224, SHA512-256 |
| Selection.Blake2Members | xhash.go:100-107 | The BLAKE2 group is BLAKE2b256, BLAKE2b384, BLAKE2b512, BLAKE2s256 |
| Selection.Unfamilied | xhash.go:100-107 | MD4, MD5, RIPEMD160 and SHA1 join no family |
| Selection.ExpandSizes | xhash.go:128-135 | Visiting the size groups in any order marks exactly the named algorithms and the members of every set size group |
| Selection.Expand | xhash.go:128-151 | After expansion the chosen set is exactly the table names that are named, in a set size group, or in a family whose flag is set |
| Selection.Filter | xhash.go:157-161 | Deleting in any order leaves exactly the names for which the all flag differs from the chosen flag |
| Selection.KeptEmpty | xhash.go:153-161 | Nothing remains exactly when -all is given and every name is also chosen |
| Selection.SortedKeys | xhash.go:163-164 | The keys are strictly sorted, have no repeats, and are exactly the remaining names |
| Selection.SortedUnique | xhash.go:205 | Strictly sorted sequences with the same names are equal, so the key order does not depend on the map's iteration order |
| Selection.Select | xhash.go:128-210 | The result is Usage exactly when -all is given and everything is chosen. Otherwise the keys are sorted and are: the chosen names without -all, all names minus the chosen ones under -all, and all names when nothing is chosen |
| Selection.DisplayAt | xhash.go:253-257 | The output is each key's sum in key order: the i-th key's sum follows those of all earlier keys and precedes all later ones |

## Left out

- Goroutines, channels and `sync.WaitGroup` are modelled as sequential loops over the same chunk sequence. Neither the reuse of one buffer across sends in the distributor nor any scheduling is modelled.
- The primitives (crypto/*, BLAKE2, BLAKE3, HMAC) are left out because digests are symbolic. So are their key-length panics (utils.go:19-25, 32-35), which are preconditions of libraries not part of this model.
- `unescape` (utils.go:83-89) is left out because it is a thin wrapper around strconv.Unquote, which is not part of this model.
- bufio.Scanner and bufio.ScanLines are not modelled: the line mode is only a tag, and the scanner's token-size limit is ignored.
- os.Open, Stat, logging, os.Exit and standard input are inputs: `handle` is None for an open failure, `FileInfo` carries Stat's answer, and the source is a `Reader`.
- input.go and strflag.go are not part of this model (argument and directory feeding, flag plumbing).
- Flag registration, help text and the per-argument hashing loops of xhash.go are not modelled; `Flags` holds the parsed values.
- `Escape.ReplaceAll` covers only non-empty patterns, which are the only ones the core passes; strings.ReplaceAll's empty-pattern behaviour is not modelled.
- Engine: the `written` counters are unbounded integers; int64 overflow is not modelled.
- Engine.Prepare: initHashes is not part of this model. It is assumed to call initHash on every entry of the list and to change nothing else.
- Engine.GetChosen: getChosen is not part of this model. It is assumed to return fresh accumulators (no state, count 0, no sum) for the chosen algorithms, in order.
- Escape.UnescapeFilename: its own contract states only the length bound. Its values are stated by Escape.UnescapeInvertsEscape, the test-case lemmas and Escape.RoundTripCounterexample.
- Engine.ReadErrorStreams: read errors are modelled as persistent (`Io.Reader`): after the read that reports an error, every later read returns nothing and the same error. A source that delivers more bytes after a temporary error is not modelled, so the re-read at hash.go:144-145 finds nothing; with such a source the input of Engine.NilChecksumsPanic would stream the remaining bytes and end in a size mismatch, while a file of at least 256 MiB whose read fails reaches the same panic without this assumption.
- Engine.HashStdin: its contract states only the label and which results are nil; the counts and sums are those of Engine.HashF. After a read error with several algorithms it reports digests of the bytes before the error (see "## Findings").
- The test at utils_test.go:38 expects escapeFilename to return a prefix as well as the name. The function at utils.go:55 returns only the name, so the code is followed and the prefix check is not modelled.

## Findings

| source | as written | input that shows it | evidently intended | confidence | as-written member | corrected member |
|---|---|---|---|---|---|---|
| utils.go:69-80 | unescapeFilename runs three whole-string replacements, backslash-r and backslash-n first | the name backslash-n: escaping gives backslash, backslash, n; unescaping that gives backslash, LF | unescaping undoes escaping for every name, with each escape read as a unit from the left | not executed | Escape.RoundTripCounterexample | Escape.OnePassRoundTrip |
| hash.go:144-148 | when hashF returns nil, `checksums[0]` is read whenever the size is positive | one algorithm, no list given, a 5-byte regular file whose read fails | a failed read is logged and hashFile returns nil | not executed | Engine.NilChecksumsPanic | Engine.HashFileChecked |
| hash.go:88-98 | the distributor logs a read error and stops, so hashF returns the digests of the bytes before it and hashStdin reports them | standard input that delivers the byte `a`, then fails, with MD5 and SHA1 chosen | a read error gives no digests | not executed | Engine.StdinBrokenTruncated | Engine.HashStdinReported |
| hash.go:136-148 | a failed io.ReadAll falls back to hashF, which does not report the error, and the size check is skipped when Stat gives size 0 | a regular file of Stat size 0 whose read fails, with MD5 and SHA1 chosen | a file whose read fails gives no result | not executed | Engine.BrokenZeroSizeFileHashed | Engine.HashFileReported |
