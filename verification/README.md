# minigrep core in Dafny

minigrep is a small grep: `minigrep QUERY PATH... [-i]` searches each file for QUERY and
prints every line that contains it. This project models three parts of the program:

- `search` (src/lib.rs:27-79) is a Boyer-Moore-Horspool substring search. It uses the
  bad-character table only. It compares each window from the last byte backwards, and it
  can compare exactly or ignoring ASCII case. For every hit it reports the 0-based line
  number and the line that contains the hit.
- `Config::build` (src/lib.rs:134-147) turns the command line into a query, a list of file
  paths and a case flag.
- `parse_arguments` (src/utils.rs:54-73) classifies the arguments after the query:
  - `-i` sets the case flag;
  - `.` expands to the entries of the current directory;
  - every other argument is a file path.

The modules:

- `Ascii` covers bytes, ASCII case folding and the two comparisons.
- `Skip` covers the skip table.
- `Lines` covers line extraction: `rfind`, `find` and the newline count.
- `Matcher` covers the cursor walk (`Scan`), the imperative `Search` with its inner
  comparison loop (`MatchWindow`), and the brute-force reference `Occurrences`.
- `Arguments` covers `parse_arguments`.
- `Configuration` covers `Config::build`.
- `Scenarios` covers concrete inputs, including the repository's own unit tests.

Text is modelled as the bytes of its UTF-8 encoding (`seq<byte>`), which is what the code
compares. A hit is returned as `Match(lineNo, lineStart, lineEnd)`. The line's text is
`text[lineStart..lineEnd]` (`Lines.LineText`), which is a slice of the original text, in
both modes.

The directory listing `read_current_directory_files` is not modelled as I/O. It is a
parameter, `Arguments.Listing`: either a list of entry names or `Unreadable`. Every `.`
argument sees the same listing.

Behaviour of the code worth knowing, with the model following the code throughout:

- **Overlapping occurrences.** After a match the cursor advances by the skip-table shift,
  not past the match, and the shift never jumps over an occurrence. So in case-sensitive
  mode every occurrence is reported, overlapping ones included. `Matcher.ScanIsComplete`
  proves this, and `Scenarios.OverlappingOccurrencesReported` shows "aa" reported twice in
  "aaa".
- **Case-insensitive completeness.** Case-insensitive mode is sound but not complete. The
  skip table is built from, and indexed by, unfolded bytes, so a shift can pass over a
  window that matches only up to case (`Scenarios.CaseInsensitiveMissesMatch`).
- **Text shorter than the query.** A file shorter than the query should give no matches.
  The code panics instead; see "## Findings".
- **An empty query.** `Config::build` accepts an empty query (src/lib.rs:139), and
  `search` then panics. In a debug build the subtraction `m - 1` at src/lib.rs:41
  underflows. In a release build it wraps, `j = m - 1` wraps again at src/lib.rs:50, and
  the bounds check on `query_bytes[j]` at src/lib.rs:52 panics. What was meant for an
  empty query is not evident, so `Search` and `SearchAll` require a non-empty query.
- **Lower-cased lines.** The `case_insensitive` unit test (src/lib.rs:167-179) expects the
  lines "rust:" and "trust me.". The code returns slices of the original text, "Rust:" and
  "Trust me." (`Scenarios.CaseInsensitiveResults`), so that test and the code disagree.

## Model

| member | source | states |
|---|---|---|
| Ascii.ToLower | src/lib.rs:35-36 | the folded byte is never upper-case; it is a letter iff the input is; it differs from the input exactly for upper-case letters |
| Ascii.EqIgnoreCase | src/lib.rs:36 | two bytes are equal ignoring ASCII case iff they are equal or are the upper- and lower-case forms of one letter (differing by 32) |
| Ascii.Compare | src/lib.rs:35-39 | in both modes every byte matches itself; in case-insensitive mode two bytes match iff they agree after ASCII lower-casing; in case-sensitive mode only equal bytes match |
| Ascii.NonLettersCompareExactly | src/lib.rs:35-39 | a byte that is not an ASCII letter compares equal in either mode only to itself |
| Skip.Fill | src/lib.rs:41-43 | after entering query positions k..m-2, every byte's entry is m-1-k for its rightmost position k < m-1, or m if it has none |
| Skip.Table | src/lib.rs:33-43 | 256 entries, each between 1 and m, each being the rightmost-position shift of its byte over positions 0..m-2 |
| Skip.RightmostShiftUnique | src/lib.rs:41-43 | the characterisation admits only one entry per byte, so the table is fully determined by the query |
| Skip.ShiftSkipsNoAlignment | src/lib.rs:41-43 | for every shift d below the entry of byte c, the query byte that would line up with c after shifting by d is not c |
| Lines.CountByte | src/lib.rs:58 | the count of a byte never exceeds the length of the text |
| Lines.RFind | src/lib.rs:54 | the result is the position of the last occurrence of the byte, or None iff the byte does not occur |
| Lines.Find | src/lib.rs:55 | the result is the position of the first occurrence of the byte, or None iff the byte does not occur |
| Lines.LineAt | src/lib.rs:54-58 | the span contains the offset, starts at 0 or just after a newline, ends at the end of the text or at a newline, holds no newline, and is numbered by the newlines before its start |
| Lines.LineText | src/lib.rs:59 | the reported line is the slice of the original text between the line bounds: its length is their difference and each byte is the text byte at the same position |
| Lines.CountByteAppend | src/lib.rs:58 | counting over a concatenation is the sum of the counts of the two parts |
| Lines.CountWithoutByte | src/lib.rs:58 | a stretch with no newline adds nothing to the prefix count |
| Lines.CountAbsent | src/lib.rs:58 | a text without the byte counts zero of it |
| Lines.CountIsNumberOfPositions | src/lib.rs:58 | the recursive count equals the size of the set of positions that hold the byte |
| Lines.LineNumberCountsNewlines | src/lib.rs:58 | a hit's line number is the number of newline positions strictly before its offset |
| Lines.NewlineBetween | src/lib.rs:58 | a newline in [a, b) makes the count before b strictly larger than the count before a |
| Lines.PrefixCountMonotone | src/lib.rs:58 | a longer prefix never counts fewer newlines, and counts the same iff no newline lies between the two ends |
| Lines.LinesOrdered | src/lib.rs:54-58 | line numbers never decrease with the offset, and two offsets share a number iff no newline lies between them |
| Lines.SameNumberSameLine | src/lib.rs:54-59 | two offsets have the same line number iff they get the same line span |
| Lines.SameLine | src/lib.rs:54-59 | offsets with no newline between them get the same line |
| Lines.LineIsSpanBetweenNewlines | src/lib.rs:54-59 | any newline-free span bounded by the text's ends or by newlines is the line of every offset inside it |
| Matcher.AgreeFromMeaning | src/lib.rs:50-66 | the backward comparison from position j succeeds iff every query position from j on compares equal to its window byte |
| Matcher.WindowMatchesMeaning | src/lib.rs:50-66 | the backward comparison accepts a window iff the whole window matches the query under the selected comparison |
| Matcher.OccurrencesFrom | src/lib.rs:27-79 | the reference list's elements are offsets at or after the start where the query occurs |
| Matcher.OccurrencesFromExact | src/lib.rs:27-79 | the reference list holds exactly the occurrences at or after the start, strictly ascending |
| Matcher.Advance | src/lib.rs:68 | the cursor moves forward by at least 1 and at most m |
| Matcher.Scan | src/lib.rs:48-69 | every recorded offset lies between the starting cursor and n - m |
| Matcher.ScanResumes | src/lib.rs:48-69 | the offsets recorded so far followed by the rest of the walk stay the whole walk across one iteration |
| Matcher.ScanIsSound | src/lib.rs:48-69 | in both modes the walk records strictly ascending offsets, and the window at each one matches the query |
| Matcher.ExactMatchIsOccurrence | src/lib.rs:38 | byte-wise exact comparison of a window is equality of the window with the query |
| Matcher.ExactMatchMatchesIgnoringCase | src/lib.rs:35-39 | every case-sensitive match is also a case-insensitive match |
| Matcher.ShiftIsSafe | src/lib.rs:68 | no occurrence starts strictly between the cursor and where the shift lands |
| Matcher.SkipNonOccurrences | src/lib.rs:68 | skipping offsets with no occurrence leaves the remaining occurrences unchanged |
| Matcher.ShiftKeepsOccurrences | src/lib.rs:68 | the occurrences after the cursor are exactly those from where the shift lands |
| Matcher.ScanIsComplete | src/lib.rs:48-69 | in case-sensitive mode the walk records exactly the brute-force occurrences, overlapping ones included |
| Matcher.MatchWindow | src/lib.rs:50-66 | the backward loop with early exit returns true iff the window matches the query under the selected comparison |
| Matcher.Search | src/lib.rs:27-79 | offsets are ascending matching windows and, when case-sensitive, exactly the occurrences; one line entry per offset, in order, each the enclosing line of its offset |
| Matcher.WrappingSub | src/lib.rs:49 | the result is below 2^64 and adding b back gives a modulo 2^64, as `usize` subtraction wraps |
| Matcher.GuardAsWritten | src/lib.rs:49 | while the query fits, the guard admits exactly the cursors whose window fits; once the query is longer than the text, it admits every cursor up to 2^64 - (m - n) |
| Matcher.LongQueryPanics | src/lib.rs:49-52 | for any query longer than the text, `n - m` wraps to 2^64 - (m - n), the guard admits cursor 0 although its window does not fit, and the first index compared, m - 1, is out of bounds, so the code panics |
| Matcher.SearchAll | src/lib.rs:27-79 | a query longer than the text gives no matches; otherwise the offsets are the walk of `Search`; in both cases they are ascending matching windows, exactly the occurrences when case-sensitive, with one enclosing-line entry per offset |
| Arguments.ParseLoop | src/utils.rs:58-70 | fails iff a remaining token is `.` and the listing is unreadable, with the directory error; otherwise appends every token's paths in order, and the flag is set iff it already was or some token is `-i` |
| Arguments.ParseArguments | src/utils.rs:54-73 | fails exactly on a `.` with an unreadable directory; otherwise the paths are the token-by-token expansion and the flag is set iff some token is `-i` |
| Arguments.ExpansionAppend | src/utils.rs:58-70 | expanding concatenated tokens concatenates their expansions |
| Arguments.CurrentDirectoryExpandsInPlace | src/utils.rs:61-63 | with a readable directory, a `.` contributes the directory entries at its own position, between the expansions of the tokens before and after it |
| Arguments.ExpansionWithoutDirectory | src/utils.rs:58-70 | with no `.` token the expansion is the tokens other than `-i`, in order |
| Arguments.WithoutFlagCounts | src/utils.rs:60-68 | dropping the flag keeps one path per non-`-i` token, never keeps `-i`, and keeps exactly the tokens other than `-i` |
| Arguments.FlagOnlyFromListing | src/utils.rs:60-68 | `-i` can be among the paths only if some token is `.` and the directory has an entry named `-i` |
| Configuration.Build | src/lib.rs:134-147 | fewer than two arguments gives the usage error; otherwise the query is `args[1]`, a parse failure falls back to no paths and case-sensitive search, and a parse success carries the expanded paths and the flag |
| Configuration.PlainArgumentsBuild | src/lib.rs:139-140 | with no `.` after the query, building succeeds with the non-flag arguments as paths and with the flag set iff `-i` is present |
| Scenarios.OverlappingOccurrencesReported | src/lib.rs:48-69 | "aa" in "aaa" is reported at offsets 0 and 1, both on line 0 |
| Scenarios.CaseInsensitiveMissesMatch | src/lib.rs:35-43 | "ab" matches "xAb" ignoring case at offset 1, yet the case-insensitive walk reports nothing |
| Scenarios.DuctOccursOnce | src/lib.rs:154-165 | "duct" occurs in the three-line text at no offset other than 21 |
| Scenarios.OneResult | src/lib.rs:154-165 | the case-sensitive search for "duct" reports only offset 21, on line 1, whose text is "safe, fast, productive." |
| Scenarios.SecondLine | src/lib.rs:154-165 | offset 21 lies on line 1, which spans offsets 6 to 29 |
| Scenarios.MixedTable | src/lib.rs:167-179 | the table of "rUSt" gives 3 for 'r', 2 for 'U', 1 for 'S' and 4 for every other byte, including 'u', 's' and 'R' |
| Scenarios.MixedWalkEnd | src/lib.rs:167-179 | from offset 43 the walk for "rUSt" records only 43 |
| Scenarios.MixedWalkTail | src/lib.rs:167-179 | from offset 23 the walk for "rUSt" records only 43 |
| Scenarios.MixedWalkMiddle | src/lib.rs:167-179 | from offset 12 the walk for "rUSt" records only 43 |
| Scenarios.CaseInsensitiveResults | src/lib.rs:167-179 | the case-insensitive search for "rUSt" reports offsets 0 and 43, on lines 0 and 3, whose texts are "Rust:" and "Trust me." as written |
| Scenarios.FirstLine | src/lib.rs:167-179 | offset 0 lies on line 0, "Rust:", spanning offsets 0 to 5 |
| Scenarios.LastLine | src/lib.rs:167-179 | offset 43 lies on line 3, "Trust me.", spanning offsets 42 to 51 |

## Left out

- `run` (src/lib.rs:8-25) is left out. It starts one thread per file and serialises output
  with a mutex. This is concurrency and I/O.
- `process_file`, `print_file_results` and `read_current_directory_files` (src/utils.rs)
  are left out. They do file and console I/O. The listing is replaced by the `Listing`
  parameter, and every `.` sees the same listing value. A directory that changes between
  two `.` arguments is not modelled.
- The timing and `println!` at the end of `search` (src/lib.rs:71-76) are left out. They
  are a clock read and console output, and they do not affect the result.
- The commented-out older `search` (src/lib.rs:81-124) is left out, because it is not
  compiled.
- src/main.rs is left out. It only collects `std::env::args`, prints errors and exits.
- Matcher.Search: its `requires 1 <= |query| <= |contents|` excludes inputs on which the
  code panics: `m - 1` underflows for an empty query, and `n - m` underflows for a query
  longer than the text. `SearchAll` gives the evidently intended answer for the second case.
- Matcher.Search: the matched line is returned as a span of the text, not as a `&str`.
  Whether that span falls on UTF-8 character boundaries is not modelled. Newline bytes are
  never part of a multi-byte character, so line bounds always fall on boundaries.
- Matcher.ScanIsComplete: proved only for case-sensitive search. In case-insensitive mode
  the walk can miss matches (`Scenarios.CaseInsensitiveMissesMatch`).
- `Config` carries the query and paths as `string` (`seq<char>`). The matcher works on the
  query's bytes, and the conversion between the two (`str::as_bytes`) is not modelled.

## Findings

| source | as written | input that shows it | evidently intended | confidence | as-written member | corrected member |
|---|---|---|---|---|---|---|
| src/lib.rs:49 | the loop guard `i <= n - m` subtracts in `usize` before checking `m <= n` | query "a" and empty contents: `0 - 1` panics in a debug build; in a release build it wraps to 2^64-1, the guard admits cursor 0, and the bounds check on `contents_bytes[0]` at src/lib.rs:52 panics | a query longer than the text gives no matches | high, not executed | Matcher.LongQueryPanics | Matcher.SearchAll |
