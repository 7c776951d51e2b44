# vdb-dump helper utilities — a Dafny model

This project models the self-contained utilities of the `vdb-dump` tool's
helper file, `tools/vdb-dump/vdb-dump-helper.c`:

- **Delimiter splitting** (`split_buffer`, `copy_String_2_vector`). One scan over
  the input fills a caller's vector. Every maximal run of non-delimiter
  characters becomes one element. Empty runs are dropped. The count of
  appended elements is returned.
- **Table selection** (`list_contains_value`, `list_contains_value_starting_with`,
  `vdh_take_this_table_from_list`, `vdh_take_1st_table_from_db`). A requested
  table name is looked up in a name list. An exact match wins. Otherwise the
  first entry that begins with the name is taken. The winner is recorded in
  the dump context.
- **Whole-word matching** (`matches`, `index_of_match`). A word is compared with
  a list of optional candidates. The result is the index of the first equal
  candidate, or -1.
- **Scheme stripping** in the accession resolvers (`vdh_str_starts_with`, the
  `ncbi-acc:` strip in `resolve_remote_accession` and `resolve_accession`, and
  its absence in `resolve_cache`). A NUL-terminated path buffer loses a
  leading `ncbi-acc:` (in any letter case) in place.
- **Manager version decoding** (`vdh_show_manager_version`). A 32-bit version
  splits into major, minor and release fields.

Modules:

- `Wrappers` (wrappers.dfy): an `Option` type for NULL pointers.
- `Text` (text.dfy): case folding, the prefix test, the match length and the candidate search.
- `Splitting` (splitting.dfy): the vector, splitting and its reference definition `Split`.
- `Tables` (tables.dfy): the list searches, the selection rule `SelectTable` and the `DumpContext` class.
- `Resolution` (resolution.dfy): C-string buffers as `array<char>`, the in-place strip and the three resolvers.
- `ManagerVersion` (version.dfy): the bit-field decode.

Imperative code stays imperative. `split_buffer` is a method that fills a
`StringVector` object. The list searches and `index_of_match` are loops
with early exits. The `vdh_take_*` helpers are methods of `DumpContext`
that update its `table` field. The strip shifts an `array<char>` in place.
Each method is proved against a function: `Split`, `FirstStartingWith`,
`SelectTable` or `Stripped`. Lemmas state what those functions guarantee.

The klib primitives are not part of this model. Their assumed behaviour:

- `strcase_cmp` compares characters after ASCII case folding.
- `StringCompare` tests two strings for equality.
- `StringMatch` returns the length of the common prefix of its arguments.
- Characters are single bytes, so a klib `String`'s length and size agree.

Calls into the resolver service become parameters of the resolver
methods: the combined status of the setup and query calls, the returned
paths, and the status of `VPathMakeString`.

Points of the code's behaviour that are easy to miss:

- The prefix fallback of table selection compares with `StringCompare`. It
  is therefore case-sensitive, and it takes the first qualifying entry in
  list order, not the shortest (tools/vdb-dump/vdb-dump-helper.c:331-337).
- `index_of_match` uses `StringMatch`, modelled as an exact comparison; it
  does not ignore case.
- `resolve_cache` does not strip the scheme (tools/vdb-dump/vdb-dump-helper.c:600-651),
  so its path may still begin with `ncbi-acc:`.
- Each stripping resolver removes the scheme only once: `StripsOnlyOnce`
  shows a doubled scheme survives once.

## Model

| member | source | states |
|---|---|---|
| `Text.StartsWithCaseless` | tools/vdb-dump/vdb-dump-helper.c:269-280 | false when `a` is shorter than `b`; true when `a` begins with `b` exactly; when true, the first len(b) characters agree after case folding |
| `Text.StartsWithIgnoresCase` | tools/vdb-dump/vdb-dump-helper.c:274-277 | two strings equal after ASCII case folding either both start with `b` or both do not, so with the exact-prefix clause any case variant of `b` at the front is accepted |
| `Text.UpperCaseSchemeStartsWith` | tools/vdb-dump/vdb-dump-helper.c:269-280 | `NCBI-ACC:…` starts with `ncbi-acc:` ignoring case; the 8-character `ncbi-acc` does not, being shorter than the prefix |
| `Text.CommonPrefixLength` | tools/vdb-dump/vdb-dump-helper.c:694-695 | the match length is at most both lengths, both strings agree up to it, and they differ at it when both continue |
| `Text.Matches` | tools/vdb-dump/vdb-dump-helper.c:688-697 | match length equal to both lengths holds exactly when the two strings are equal, so a mere common prefix never matches |
| `Text.IndexOfMatch` | tools/vdb-dump/vdb-dump-helper.c:700-722 | -1 for a NULL word; -1 iff no present candidate equals the word; otherwise the smallest index whose candidate equals the word |
| `Splitting.StringVector.Init` | tools/vdb-dump/vdb-dump-helper.c:753 | the vector is emptied before splitting |
| `Splitting.CopyStringToVector` | tools/vdb-dump/vdb-dump-helper.c:728-743 | a non-empty string is appended last and 1 returned; an empty one leaves the vector unchanged and returns 0 |
| `Splitting.SplitBuffer` | tools/vdb-dump/vdb-dump-helper.c:746-772 | the vector ends up holding exactly `Split(s, DelimiterSet(delim))`, where every character of `delim` is a delimiter, and the result equals the number of elements |
| `Splitting.RunLength` | tools/vdb-dump/vdb-dump-helper.c:754-768 | a span grows over ordinary characters and ends at the first delimiter or the end of input |
| `Splitting.SplitElementsAreWords` | tools/vdb-dump/vdb-dump-helper.c:754-770 | every element is non-empty and contains no delimiter character |
| `Splitting.SplitConcat` | tools/vdb-dump/vdb-dump-helper.c:754-770 | the elements in order concatenate to the input with all delimiters removed |
| `Splitting.SplitJoin` | tools/vdb-dump/vdb-dump-helper.c:746-772 | non-empty delimiter-free words joined by a delimiter split back into exactly those words |
| `Splitting.SplitDropsEmptySpans` | tools/vdb-dump/vdb-dump-helper.c:754-770 | for a delimiter `c` and ordinary characters `a`, `b`, the input `a c c b c` splits into exactly `[a]` and `[b]`: the empty spans between, and after, the delimiters produce nothing |
| `Tables.ListContainsValue` | tools/vdb-dump/vdb-dump-helper.c:283-308 | true iff the value is one of the names |
| `Tables.FirstStartingWith` | tools/vdb-dump/vdb-dump-helper.c:311-343 | the first index whose name starts with the value (shorter names never qualify), or none when no name does |
| `Tables.ListContainsValueStartingWith` | tools/vdb-dump/vdb-dump-helper.c:311-343 | true iff some name starts with the value; the name found is the first such name in list order |
| `Tables.SelectTable` | tools/vdb-dump/vdb-dump-helper.c:349-367 | an exact match is selected when present; otherwise something is selected iff some name starts with the request, and then it is the first such name; a selected name is in the list and starts with the request |
| `Tables.DumpContext.TakeThisTableFromList` | tools/vdb-dump/vdb-dump-helper.c:349-367 | returns whether `SelectTable` selects something; the context's table becomes that name, or is unchanged |
| `Tables.DumpContext.TakeFirstTable` | tools/vdb-dump/vdb-dump-helper.c:238-258 | true iff the list is non-empty; the table becomes element 0, and an empty list leaves the context unchanged |
| `Tables.ExactMatchBeatsEarlierPrefix` | tools/vdb-dump/vdb-dump-helper.c:355-366 | an exact name wins over an earlier entry that only starts with it; the prefix fallback picks the first qualifying entry; a longer request than every name selects nothing |
| `Resolution.NulIndex` | tools/vdb-dump/vdb-dump-helper.c:529 | `string_size`: no NUL before the index, and a NUL at it unless it is the buffer length |
| `Resolution.Stripped` | tools/vdb-dump/vdb-dump-helper.c:529-531 | after the shift the buffer keeps its size, stays terminated, and its string is the old string minus exactly its first 9 characters |
| `Resolution.StripScheme` | tools/vdb-dump/vdb-dump-helper.c:527-532 | on success with a string starting with `ncbi-acc:` (ignoring case) the buffer becomes `Stripped` of the old buffer; otherwise it is unchanged |
| `Resolution.Fetched` | tools/vdb-dump/vdb-dump-helper.c:486-515 | the fetched buffer keeps its size and is terminated; its string is empty when nothing was fetched and is the path when a NUL-free path was copied |
| `Resolution.FetchInto` | tools/vdb-dump/vdb-dump-helper.c:486-517 | the status is the query failure, else 0 when no path came back, else the status of making its string; the buffer becomes `Fetched` of the old buffer with the path only when the status is 0 |
| `Resolution.CopyPath` | tools/vdb-dump/vdb-dump-helper.c:513-514 | the path is placed at the front followed by a NUL, and the rest of the buffer is unchanged |
| `Resolution.DeliveredString` | tools/vdb-dump/vdb-dump-helper.c:486-532 | the delivered buffer is terminated; its string is empty when no path was fetched, else the path, without its scheme when stripping applies |
| `Resolution.ResolveRemoteAccession` | tools/vdb-dump/vdb-dump-helper.c:482-534 | the status is the query failure, or 0 without a remote path, or the status of making its string; the buffer is the delivered remote path with stripping |
| `Resolution.ResolveAccession` | tools/vdb-dump/vdb-dump-helper.c:536-597 | as `ResolveRemoteAccession`, but the path is the local one when present, else the remote one only when remote lookup is enabled; only that path must fit the buffer |
| `Resolution.LocalWins` | tools/vdb-dump/vdb-dump-helper.c:559-569 | with a local path, the caller reads that path without its scheme, whatever the remote path and the remote flag are |
| `Resolution.RemoteOnlyWhenAsked` | tools/vdb-dump/vdb-dump-helper.c:559-569 | without a local path, the caller reads the remote path (without its scheme) exactly when remote lookup is enabled and a remote path exists, and the empty string otherwise |
| `Resolution.ResolveCache` | tools/vdb-dump/vdb-dump-helper.c:600-651 | the buffer is the delivered cache path without stripping |
| `Resolution.StripsOnlyOnce` | tools/vdb-dump/vdb-dump-helper.c:527-532 | a doubled scheme keeps one copy; an upper-case scheme is removed; a plain path is kept |
| `ManagerVersion.Decode` | tools/vdb-dump/vdb-dump-helper.c:80-83 | major < 256, minor < 256, release < 65536, and OR-ing `major << 24`, `minor << 16` and `release` rebuilds the version exactly |
| `ManagerVersion.DecodeEncode` | tools/vdb-dump/vdb-dump-helper.c:80-83 | in-range fields survive packing and decoding unchanged |
| `ManagerVersion.DecodeInjective` | tools/vdb-dump/vdb-dump-helper.c:80-83 | two versions with the same decoded fields are equal |

## Left out

- tools/fastdump/fastq_iter.c and fastq_iter.h: a thin façade over the `cmn_iter` cursor wrapper. That wrapper is not part of this model, so no behaviour of its own remains.
- `vdh_parse_schema` and the path probes `vdh_is_path_table`, `vdh_is_path_column`, `vdh_is_path_database`: their verdicts come only from open attempts on the storage engine and the file system.
- `vdh_take_this_table_from_db`: it only lists the database's tables through the storage engine and delegates to `vdh_take_this_table_from_list`, which is modelled.
- The column-info printers `vdh_print_*_col_info`: text formatting through the logging and type-text services.
- `check_cache_comleteness`: file I/O, an external completeness routine and a floating-point percentage.
- `ErrMsg`, all logging, and the printing in `vdh_show_manager_version`. The failure of `VDBManagerVersion` is left out too.
- `destroy_String_vector` and every release of a handle. Handle lifetimes are left out. This includes the release of the cache path in `resolve_cache`, which happens only when the remote path is non-NULL (tools/vdb-dump/vdb-dump-helper.c:641-642).
- Failures of `KNamelistCount` and `KNamelistGet`: the list searches model a list that can always be read.
- Allocation failures in `copy_String_2_vector`. Allocation is assumed to succeed.
- Splitting.SplitBuffer: the source's elements are `String` headers pointing into the input buffer; the model holds string values, so aliasing is not captured. The count is unbounded rather than `uint32_t`.
- Splitting.SplitBuffer: characters are single bytes. The source bounds its scan by the character count `S->len` while indexing bytes, and for multi-byte UTF-8 input that scan stops before the end. The model does not capture this.
- Tables.ListContainsValueStartingWith: the source also truncates the entry's byte size to the value's byte size. With single-byte characters this is the same truncation.
- Text.IndexOfMatch: the 256-character match buffer passed to `StringMatch` (tools/vdb-dump/vdb-dump-helper.c:690-694) is not modelled, so a cap it may place on the match length is absent. The widths of the `int32_t` result and the `uint32_t` count are not modelled.
- Resolution.ResolveRemoteAccession, Resolution.ResolveAccession, Resolution.ResolveCache: the resolver service is replaced by parameters. The path that is copied is required to fit the buffer (`path->size < dst_size`). The methods state the whole new buffer for any path; the readable-string lemmas `DeliveredString`, `LocalWins` and `RemoteOnlyWhenAsked` assume a path without an embedded NUL. The bytes after the copied terminator are taken as untouched by `string_copy`.
