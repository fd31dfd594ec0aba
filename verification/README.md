# os_finder in Dafny

A model of the core of `os-find`, a command-line file search tool. The model
covers these parts:

- the `os_finder` filter registry: inode numbers, base names and hard-link
  counts as sets, and size filters as an ordered list;
- the three-way `size_filter::check`;
- the per-entry match decision;
- the recursive depth-first scan `visit_rec` / `visit`, including the read
  loop over `getdents64` batches and the cursor that walks the packed
  records of a batch;
- two pieces of `main.cpp`: the `--size` token parser `validate` and the
  argument vector built for `--exec`.

The filesystem is an immutable value (`Dirents.Dir`). A directory holds
three things: what `fstat` on its descriptor reports, the batches that
successive reads fill (one cell per byte, with a decoded record header at
the first byte of each record), and how the final read ended (0 or -1). A
directory record carries the contents of the subdirectory it names. The
scan (`Traversal.VisitRec`) is written as the source does it. It has a read
loop over batches and a cursor over each batch that advances by `reclen`.
One accumulator is threaded through the recursion. An exception aborts the
whole scan, so `visit` returns either all matched paths or an error, never
partial results. The scan is proved equal to replaying a flat depth-first
trace of the tree through the match decision (`Traversal.VisitRecReplays`).
The ordering, error and skipping properties are proved on that trace.

Modules: `Wrappers` (result type), `SizeFilters`, `Registry`, `Dirents`
(tree, buffer layout, cursor walk), `Matcher`, `Traversal`, `Cli`, and
`Scenarios` (a worked scan).

Quirks of the code that the model follows as written:

- The metadata query at os_finder.cpp:93 is `fstat` on the directory's own
  descriptor. The size and link count checked for a file are therefore those
  of the directory that holds it, and the model takes them from the
  enclosing `Dir`. `Scenarios.LargeFilesScenario` shows the consequence.
  With the filter `+100`, a directory of size 4096 has every regular file
  reported, whatever the files' own sizes.
- os_finder.cpp:112 passes an undeclared `results` to the recursive call;
  the model passes the accumulator `found`, which is evidently meant.
- `open` is never checked (os_finder.cpp:65). A directory that cannot be
  opened shows up as a read that returns -1, so the model writes it as a
  directory with no batches whose read loop ends in `ReadError`.
- The exception carries only the message `could not read dir: <reason>` or
  `could not stat file: <reason>`. No path is included, and every error
  aborts the scan.
- The descriptor is never closed.

## Model

| member | source | states |
|---|---|---|
| SizeFilters.Check | os_finder.cpp:27-39 | no contract of its own; the three-way comparison, characterised by CheckPartitions and RangeQuery |
| SizeFilters.CheckPartitions | os_finder.cpp:27-39 | for a fixed threshold, every size is accepted by exactly one of the three comparison modes |
| SizeFilters.AllPass | os_finder.cpp:96-102 | the `all_of` over the registered size filters holds iff every filter accepts the size (vacuously true for none) |
| SizeFilters.AllPassAppend | os_finder.cpp:96-102 | size filters compose conjunctively: the verdict over a concatenation is the conjunction of the parts, in either order |
| SizeFilters.DuplicateFilterIsRedundant | os_finder.h:50 | a size filter repeated in the list is a redundant extra clause |
| SizeFilters.RangeQuery | os_finder.cpp:27-39 | a greater-than and a less-than filter together accept exactly the sizes strictly between the thresholds |
| Registry.FilterInum | os_finder.cpp:41-44 | inserts the inode into the inode set and adds nothing else; the other three containers are unchanged |
| Registry.FilterName | os_finder.cpp:46-49 | inserts the name into the name set and adds nothing else; the other containers are unchanged |
| Registry.FilterSize | os_finder.cpp:51-54 | appends at the end: the old list is a prefix, the length grows by one, the new last element is the filter; the sets are unchanged |
| Registry.FilterNlinks | os_finder.cpp:56-59 | inserts the count into the link-count set and adds nothing else; the other containers are unchanged |
| Registry.FreshAcceptsAll | os_finder.h:48-51 | a fresh finder's containers are empty, so every check passes and no metadata is needed |
| Registry.SetFiltersIdempotent | os_finder.h:48-51 | registering an inode, name or link count twice is the same as once, and inode registrations commute |
| Registry.InumFilterSemantics | os_finder.cpp:83-86 | after registering an inode the check accepts that inode, and accepts another one iff the set was non-empty and already accepted it |
| Registry.NameFilterSemantics | os_finder.cpp:87-90 | the same for names: exact membership of the base name |
| Registry.SizeFilterNarrows | os_finder.cpp:96-102 | a newly registered size filter narrows the accepted sizes to those the old list and the new filter both accept |
| Registry.DuplicateSizeFilter | os_finder.h:50 | registering a size filter twice keeps two clauses but accepts the same sizes as registering it once |
| Dirents.Walk | os_finder.cpp:73-74 | the cursor walk reads records whose lengths are positive and add up to the bytes from the cursor to `nread` |
| Dirents.WalkPack | os_finder.cpp:73-74 | packing records back to back gives a well-packed buffer from which the cursor reads back exactly those records |
| Dirents.PackWalk | os_finder.cpp:73-74 | a well-packed buffer is exactly the layout of the records the cursor reads from it |
| Matcher.Decide | os_finder.cpp:81-107 | a regular file is kept iff the inode check, the name check and (only when size or link filters exist) every size filter and the link check pass; the decision is a stat failure iff the cheap checks pass, metadata is needed and the query fails |
| Matcher.NoStatWithoutMetaFilters | os_finder.cpp:91-95 | with no size and no link-count filters the decision does not depend on the metadata query and never fails |
| Matcher.CheapChecksFirst | os_finder.cpp:83-90 | a file the inode or name check rejects is rejected whatever the metadata query would return |
| Matcher.FreshAcceptsEveryFile | os_finder.h:48-51 | a finder with no filters keeps every regular file |
| Traversal.VisitRec | os_finder.cpp:63-116 | `visit_rec` as written; on success the accumulator it returns extends the one it was given; equals replaying the directory's trace, see VisitRecReplays |
| Traversal.ReadLoop | os_finder.cpp:67-115 | the `getdents64` loop from the k-th read on; on success it only extends the accumulator; equals replaying the remaining batches, see ReadLoopReplays |
| Traversal.ScanBatch | os_finder.cpp:73-114 | the cursor loop over one batch; on success it only extends the accumulator; equals replaying the batch's remaining records, see ScanBatchReplays |
| Traversal.Trace | os_finder.cpp:76-113 | every event of the depth-first trace lies below the scanned directory through names that are not "." or "..", and every file event is a regular file with a non-dot name |
| Traversal.SubTrace | os_finder.cpp:111-113 | the trace of a non-dot subdirectory lies below its parent |
| Traversal.Accepted | os_finder.cpp:109 | the kept paths are exactly the paths of the trace's kept file events (both directions) |
| Traversal.Replay | os_finder.cpp:67-112 | replaying a trace succeeds iff no event aborts; on success it is the accumulator followed by the kept paths in trace order; on failure it is the error of the first aborting event |
| Traversal.ReplayAppend | os_finder.cpp:109-112 | replaying two traces in a row continues from the first one's accumulator unless the first aborted |
| Traversal.VisitRecReplays | os_finder.cpp:63-116 | the scan as written (read loop, cursor, recursion, one accumulator, exceptions) equals replaying the directory's trace |
| Traversal.ReadLoopReplays | os_finder.cpp:67-71 | the read loop from the k-th batch on equals replaying the trace of the remaining batches and the read that ends the loop |
| Traversal.ReadLoopEndReplays | os_finder.cpp:67-71 | when no batch is left, the loop ends as the final read does (0 returns the accumulator, -1 raises `could not read dir`), which is the directory's last trace event |
| Traversal.ScanBatchReplays | os_finder.cpp:73-114 | the cursor loop over a batch equals replaying the trace of its remaining records |
| Traversal.ScanFileReplays | os_finder.cpp:81-110 | the cursor step on a regular record equals replaying its file event and then the rest |
| Traversal.ScanSubdirReplays | os_finder.cpp:111-113 | the cursor step on a directory record equals replaying the subdirectory's trace and then the rest |
| Traversal.Visit | os_finder.cpp:118-122 | `visit` starts from an empty accumulator and succeeds iff no event of the trace aborts; it returns exactly the kept paths in depth-first order, or the first abort's error and no paths |
| Traversal.AccumulatorOnlyExtends | os_finder.cpp:109-112 | scanning with earlier results in the accumulator appends exactly what a scan from empty finds, and fails iff it fails, with the same error |
| Traversal.ResultsAvoidDots | os_finder.cpp:76-78 | every reported path is that of a kept file event whose chain of names, from the root's subdirectory down to the file itself, holds no "." or "..", so dot entries are neither reported nor entered at any depth |
| Traversal.ResultsUnderRoot | os_finder.cpp:79 | every reported path starts with the scanned root followed by a separator |
| Traversal.ResultsAreAcceptedRegularFiles | os_finder.cpp:81-110 | every reported path is that of a regular-file record the match decision accepts |
| Traversal.OnlyReadsFailWithoutMetaFilters | os_finder.cpp:91-95 | without size or link-count filters the scan fails iff some directory read fails |
| Traversal.FreshFindsEveryRegularFile | os_finder.cpp:81-109 | with no filters the scan reports every regular file it meets, and fails only on a failed read |
| Traversal.DirectoryLevel | os_finder.cpp:67-110 | inside one directory the scan considers exactly its non-dot regular records, in cursor order batch after batch, each with the directory's own metadata, then the read that ends the loop |
| Traversal.EntersEverySubdirectory | os_finder.cpp:111-113 | the scan enters exactly the non-dot directory records of the listing, each once and in cursor order; no other record type is entered |
| Cli.RunDigits | main.cpp:18 | after the sign, the pattern's automaton accepts exactly the non-empty digit strings |
| Cli.MatchesSizePattern | main.cpp:18-26 | the whole-string match of `[-+=]\d+` holds iff the token is a sign followed by at least one decimal digit |
| Cli.ModeOf | main.cpp:29-40 | no contract of its own; the sign switch, inverted by SignOf and shown injective by SignOfModeOf |
| Cli.SignOf | main.cpp:29-40 | each comparison mode has a sign that selects it |
| Cli.SignOfModeOf | main.cpp:29-40 | `-`, `+` and `=` select distinct modes (less, greater, eq), so sign and mode determine each other |
| Cli.Decimal | main.cpp:41-42 | the decimal spelling of a number is a non-empty digit string without a leading zero |
| Cli.DecimalValue | main.cpp:41-42 | no contract of its own; the left-to-right digit reading of `from_chars`, which inverts Decimal (DecimalValueOfDecimal) and ignores leading zeros (DecimalValueLeadingZero) |
| Cli.DecimalValueLeadingZero | main.cpp:41-42 | a leading zero does not change the value the digits are read as |
| Cli.DecimalValueOfDecimal | main.cpp:41-42 | reading the decimal spelling of a number left to right gives the number back |
| Cli.FromChars | main.cpp:41-42 | reading the decimal spelling of any number a `size_t` holds gives that number; the result is either such a number or the indeterminate prior contents of `val` |
| Cli.FromCharsLeadingZeros | main.cpp:41-42 | zero-padding the digits changes neither the threshold nor whether it overflows |
| Cli.ParseSize | main.cpp:16-48 | a token parses iff it is a sign and digits, otherwise `invalid_option_value`; the sign selects the mode and the digits the threshold |
| Cli.ParseSizeRoundTrip | main.cpp:26-43 | parsing a sign followed by the decimal spelling of any threshold a `size_t` holds yields that filter |
| Cli.RegisterInums | main.cpp:81-87 | registering the parsed inode numbers adds exactly those values to the inode set and nothing else |
| Cli.RegisterNames | main.cpp:88-94 | registering the parsed names adds exactly those names to the name set and nothing else |
| Cli.RegisterSizes | main.cpp:95-101 | the parsed size filters are appended in command-line order |
| Cli.RegisterNlinks | main.cpp:102-108 | registering the parsed link counts adds exactly those values to the link-count set and nothing else |
| Cli.Configure | main.cpp:80-108 | a fresh finder with all options registered holds exactly the given values, with size filters in command-line order |
| Cli.BuildExecArgv | main.cpp:124-130 | the exec vector has length of the results plus two: the program, then every found path in result order, then a null |
| Cli.ArgvStrings | main.cpp:132 | no contract of its own; how `execv` reads a null-terminated argv, see ArgvStringsUpToNull |
| Cli.ArgvStringsUpToNull | main.cpp:130-132 | the arguments `execv` passes on are the strings before the first null |
| Cli.ExecArguments | main.cpp:124-132 | the executed program receives its own path followed by exactly the found paths, in result order |
| Scenarios.LargeFilesScenario | os_finder.cpp:91-107 | on a sample tree the filter `+100` reports all three regular files in depth-first order and skips the dot entries, because the size compared is the directory's |

## Left out

- The system calls `open`, `getdents64`, `fstat` and `close` are replaced
  by the immutable `Dir` value. So is the byte layout of `linux_dirent64`
  read through `reinterpret_cast`. A record header is one cell carrying its
  decoded fields.
- Well-formed batches are a precondition (`Dirents.WellFormed`), because
  the code relies on the kernel for them. A batch holds between 1 and 4096
  bytes of whole records, each with a positive `reclen` that stays inside
  the filled part.
- A read of 0 ends the loop and a read of -1 raises. The errno text is a
  parameter of the model, not something it computes.
- The model has no descriptor and no closing. The source leaks one
  descriptor per directory.
- Recursion depth and stack use are not modelled.
- `boost::program_options` is not modelled: the option table, `notify`,
  the help text and `check_first_occurrence` / `get_single_string`. Neither
  is the printing of results or errors, or the exit codes.
- The `execv` call itself and the replacement of the process are left out.
  Only the argument vector and what the new program receives are modelled.
  With several `--exec` values only the first can run, since a successful
  `execv` does not return.
- `Traversal.Join` always inserts one `/`. The `std::filesystem::path`
  `operator/` rules, such as a root of `/` or a trailing separator, are not
  modelled.
- Inode numbers, link counts and sizes are unbounded naturals. The 64-bit
  widths and the signed `st_size` to `size_t` conversion are not modelled.
- Record names are the decoded strings up to the NUL. A name without a
  terminator inside its record is not modelled.
- `std::from_chars` overflow is not an error in the source: it leaves `val`
  uninitialised. `Cli.ParseSize` takes that indeterminate value as the
  parameter `uninit` and promises the threshold only when the digits fit in
  64 bits.
- Access control is not modelled: `visit_rec` is private and `visit` is
  the only public entry point. This is C++ visibility, and the model
  exposes both. A size filter's fields are private and set only by its
  constructor; the model makes the filter an immutable datatype value.
