# SNI checker: input cleaning, host selection and ranking

A Dafny model of the sequential logic of the SNI checker (`main.go`). The tool
reads candidate TLS server names from `sni.txt`, probes each one, keeps the
ones that pass, ranks them by ping and writes them to `sni_valid.txt`. The
model covers three parts of that run:

- **Input loader** (`readSNIList`). Each scanned line is trimmed with Go's
  `strings.TrimSpace`. Lines that are empty after trimming are dropped, and
  the others keep file order. `TrimSpace` is modelled over the white-space
  set of Go's `unicode.IsSpace` (module `Text`, module `SniList`).
- **Selection loop** in `main`. A host's record (`SNIResult`) is appended
  only if port 443 is open, the ping returned no error with loss below
  100 %, and the TLS handshake succeeded. What the three probes reported is
  an input to the model (`Outcome`), one per host (module `Selection`).
- **Ranking** by `sort.Slice` on ascending `Ping`, in place on the slice
  (module `Ranking`). Module `Checker` chains the three parts, and a read
  failure ends the run with no list.

Types: `time.Duration` is an `int` (nanoseconds), `PacketLoss` is a `real`,
and strings are `seq<char>`.

Two behaviours of the code are easy to misread:

- The code calls `checkSNI` and then `measurePing` whenever the port is open,
  and tests the ping result first (main.go:112-118). A host whose ping fails
  is reported as a ping failure even when its handshake also failed. The
  handshake does not short-circuit the ping.
- `sort.Slice` is not a stable sort. The model does not claim that records
  with equal pings keep their input order.

## Model

| member | source | states |
|---|---|---|
| Text.TrimLeft | main.go:66 | the result is no longer than the line, is empty exactly when the line is all white space, does not start with white space, and ends with the line's last character |
| Text.TrimRight | main.go:66 | the result is no longer than the line, is empty exactly when the line is all white space, does not end with white space, and starts with the line's first character |
| Text.TrimLeftIsSuffix | main.go:66 | skipping leading white space leaves a suffix of the line, and every character cut off is white space |
| Text.TrimRightIsPrefix | main.go:66 | skipping trailing white space leaves a prefix of the line, and every character cut off is white space |
| Text.TrimSpace | main.go:66 | the trimmed line is no longer than the line, has no white space at either end, and is empty exactly when the line is all white space |
| Text.TrimSpaceUnique | main.go:66 | for any split of a line into white space, a core with no white space at its ends, and white space, the core is what `TrimSpace` returns |
| Text.TrimSpaceFixes | main.go:66 | a string with no white space at its ends is left unchanged by trimming |
| Text.TrimSpaceIdempotent | main.go:66 | trimming twice gives the same as trimming once |
| SniList.Cleaned | main.go:63-70 | every returned host is non-empty and has no leading or trailing white space; there are at most as many hosts as lines |
| SniList.ReadSNIList | main.go:63-71 | the append loop over the scanned lines returns exactly `Cleaned` of those lines |
| SniList.NonBlankLines | main.go:66-68 | the positions of the non-blank lines, strictly ascending, in range, and including a line exactly when it is not blank |
| SniList.CleanedFollowsLines | main.go:65-69 | the k-th host is the trimmed k-th non-blank line, so each non-blank line gives one entry, in file order, and nothing else does |
| SniList.CleanedAppend | main.go:65-70 | cleaning two runs of lines one after the other gives the two host lists one after the other |
| SniList.BlankLinesClean | main.go:66-67 | a run of blank or whitespace-only lines gives no hosts |
| SniList.BlankLinesIgnored | main.go:66-67 | inserting or removing blank lines anywhere in the file leaves the host list unchanged |
| SniList.CleanedIdempotent | main.go:65-69 | cleaning a returned host list again gives the same list |
| Selection.Classify | main.go:107-130 | a host is accepted iff its port is open, the handshake succeeded, the ping had no error and the loss is below 100; a closed port is reported first, and a failed or total-loss ping is reported before a failed handshake |
| Selection.Collected | main.go:102-131 | no more records than hosts, and every record has `Reachable` set and a loss below 100 |
| Selection.CollectResults | main.go:102-131 | the loop with its two `continue` branches and the guarded append produces exactly `Collected` |
| Selection.AcceptedHosts | main.go:107-130 | the positions of the accepted hosts, strictly ascending, in range, and including a host exactly when `Classify` accepts it |
| Selection.CollectedFollowsHosts | main.go:120-127 | the k-th record belongs to the k-th accepted host: its name, its measured ping and loss, and `Reachable == true`, in input order |
| Selection.CollectedMembers | main.go:107-130 | a record is collected iff some host passed every check and the record is that host's record |
| Selection.CollectedAppend | main.go:104-131 | probing a list in two parts collects the two parts' records one after the other |
| Selection.RejectedHostIsSkipped | main.go:107-118 | a host that fails any check (a failed ping included, whatever the handshake did) is skipped and the hosts after it are still probed and collected as if it were absent |
| Ranking.SortByPing | main.go:135-137 | after sorting in place, `Ping` never decreases along the array, and the array holds the same records as before (a permutation: none added, dropped or changed) |
| Ranking.InsertLeft | main.go:135-137 | one pass of the insertion sort extends the ping-sorted prefix up to position `i` by one record, rearranges only that prefix (same multiset of records) and leaves the records after `i` unchanged |
| Ranking.PingsOfPermutation | main.go:135-137 | two lists holding the same records have the same multiset of pings |
| Ranking.PingsDetermined | main.go:135-137 | any two ping-sorted orderings of the same records have the same ping at every position, so the ranking is fixed up to the order of equal pings |
| Checker.Run | main.go:85-137 | an unreadable input yields a read error and nothing else; otherwise the result is sorted by ping, is a permutation of the collected records of the cleaned host list, and holds a record iff some host passed every check |
| Checker.BlanksBetween | main.go:65-69 | the lines `a`, "", "  ", `b` give the host list `a`, `b` |
| Checker.OneSurvivor | main.go:104-131 | with `a` port-closed and `b` passing every check, the run keeps exactly one record: `b` with its ping and loss |

## Left out

- Probes: `isPortOpen`, `checkSNI` and `measurePing` (main.go:25-54, 74-82) dial TCP, run a TLS handshake and send ICMP echoes. Their results are inputs (`Outcome`), so timeouts, DNS and privileges are not modelled.
- File I/O: opening and scanning `sni.txt` (main.go:57-64, 71) and writing `sni_valid.txt` (main.go:140-153). The model starts from the lines the scanner delivered. A failed open or scan is `None`; the partial list Go returns with a scan error is discarded, as `main` does. The best-effort write loop is not modelled.
- Line splitting by `bufio.Scanner` (newline separators, the dropped `\r`, the 64 KiB line limit that makes a scan fail) is not modelled; the input is already a sequence of lines.
- Output line formatting (main.go:148) depends on Go's rendering of `time.Duration` and `%.1f`, and is not modelled.
- Console colouring, status lines and the progress bar (main.go:91-121, 156) are UI only. `Classify` gives the status a host would be reported with, but nothing is printed.
- `PacketLoss` is a `real` rather than a float64. Only the `>= 100` test uses it, so rounding does not matter here.
- `Ping` is an unbounded `int`; the int64 range of `time.Duration` is not modelled.
- `TrimSpace` works on characters. Go's byte-level handling of invalid UTF-8 is not modelled.
- Ranking.SortByPing: the model runs Go's insertion sort, which is what `sort.Slice` uses (Go 1.19 and later) for at most twelve records; earlier Go versions ran a shell-sort pass first for seven to twelve records. For longer slices Go runs pattern-defeating quicksort, which is not modelled. Both are correct sorts, so by `PingsDetermined` they agree on every position's ping. They may order equal-ping records differently, and stability is not claimed.
