# group_tool listing core, modelled in Dafny

`group_tool` is the command-line client of the cluster group-membership
daemon `groupd`. This project models the parts of `group/tool/main.c` that
carry logic of their own:

- **Event-state display.** `ev_state_str` maps the daemon's fifteen event-state
  codes (`EST_JOIN_BEGIN` = 1 … `EST_FAIL_ALL_STARTED` = 15) to their names,
  and any other code to `"unknown"`. `state_str` shows a group's
  `(event_state, event_nodeid)` pair as `"none"` when both are zero.
  Otherwise it shows `"<NAME> node <id>"`, cut to 30 characters by
  `snprintf(buf, 31, …)`. Module `EventStates`, file `event_states.dfy`.
- **Sub-command selection.** After option parsing, `decode_arguments` scans
  the remaining arguments. The first `dump`, `ls` or `list` picks the
  operation, and `opt_ind` becomes the index just past it. With no such token,
  the listing is the default and `opt_ind` stays 0. Module `Arguments`, file
  `arguments.dfy`. The scan is the method `DecodePositionals`, with its
  `while` loop. The file-scope `operation` and `opt_ind` (zero until the scan
  sets them) are its out-parameters. `Decode` is the function that specifies it.
- **The listing.** `do_ls` makes the single-group query when `opt_ind` is
  nonzero and below `argc`; otherwise it makes the bulk query, capped at
  `MAX_GROUPS` = 64. It prints a header, then for each record a fixed-width
  row and a bracketed, space-separated member line. Module `Listing`, file
  `listing.dfy`. `DoLs` keeps the outer `for` loop over the records. Its inner
  loop over the members is the method `FormatMemberLine`. `DoLs` is proved
  against the function `Listing`, and `FormatMemberLine` against the function
  `MemberLine`.
- **printf conversions.** `%d`, `%x`, `%-*s`, `%0*x` and `snprintf`
  truncation are written out in module `Format` (`format.dfy`). `%d` and
  `%0*x` come with parsers that undo them. So do the untruncated state text
  and the member line. `%-*s` padding and `snprintf` truncation have no
  inverse; their contracts describe them instead. A row and the header are
  described by the offsets of their columns. `wrappers.dfy` holds the `Option` type.

The membership library's answers are inputs. For the single query,
`lookup: Option<Group>` is what `group_get_group` stored in `data[0]`. `None`
means it stored nothing, and the slot keeps the zero record left by
`memset`. For the bulk query, `groups` is what `group_get_groups` stored, at
most 64 records. The printed text is the returned sequence of lines, each
without its trailing newline. A `Group` is a library record whose
`member_count` does not exceed its member array. C `int` fields are `int32`
and the id is `uint32`.

`do_ls` only checks `opt_ind < argc` (`group/tool/main.c:193`), so
`ls <level>` with no name already takes the single-group path, with
`argv[argc]` as the name (`QueryListing`, `QueryOfArguments`).

## Model

| member | source | states |
|---|---|---|
| `EventStates.EvStateStr` | group/tool/main.c:127-162 | the result is `"unknown"` exactly when the code is outside 1..15; every name has 7 to 17 characters |
| `EventStates.EvStateStrInjective` | group/tool/main.c:127-162 | no two of the fifteen codes share a name |
| `EventStates.EvStateCodeRoundTrip` | group/tool/main.c:111-162 | looking a displayed name up again gives back the code for 1..15; `"unknown"` gives back no code |
| `EventStates.StateStr` | group/tool/main.c:165-178 | the result is `"none"` iff both the state and the node are 0; otherwise it is `"<name> node <id>"` when that fits the 31-byte buffer, and its first 30 characters when it does not |
| `EventStates.EventTextRoundTrip` | group/tool/main.c:174-175 | `"<name> node <id>"` parses back to the name and the id |
| `EventStates.StateStrRoundTrip` | group/tool/main.c:171-175 | when no truncation happens, the state column parses back to no event, or to the state's name and the node id |
| `EventStates.EventTextFits` | group/tool/main.c:174-175 | node ids from -999999 to 9999999 are never truncated, whatever the state |
| `EventStates.StateStrTruncates` | group/tool/main.c:174-175 | `LEAVE_ALL_STOPPED` with node 2147483647 renders 33 characters and is cut to its first 30 |
| `EventStates.StateStrExamples` | group/tool/main.c:171-175 | `(0,0)` gives `"none"`, `(1,3)` gives `"JOIN_BEGIN node 3"`, `(0,5)` gives `"unknown node 5"` |
| `Format.DecimalRoundTrip` | group/tool/main.c:222 | what `%d` prints parses back to the same integer, negative values included |
| `Format.HexFieldRoundTrip` | group/tool/main.c:211-215 | `%0*x` with width 8 prints any 32-bit id as exactly eight hex digits that parse back to the id |
| `Format.PadRight` | group/tool/main.c:202-216 | `%-*s`: the text is kept whole at the left and padded with spaces to the field width, never truncated |
| `Format.Snprintf` | group/tool/main.c:174 | `snprintf` keeps the whole text when it fits, and otherwise exactly its first `size - 1` characters |
| `Arguments.FirstCommand` | group/tool/main.c:91-103 | the index found holds `dump`, `ls` or `list`, and no earlier index from the start does; with no index found, there is no such token |
| `Arguments.Decode` | group/tool/main.c:91-106 | `opt_ind` is 0 iff no sub-command token follows `optind`, and then the operation is the listing; otherwise `argv[opt_ind-1]` is the first such token and names the operation |
| `Arguments.DecodePositionals` | group/tool/main.c:91-106 | the loop's operation and `opt_ind` are exactly `Decode`'s |
| `Arguments.DecodeExamples` | group/tool/main.c:91-106 | `ls 0 default` gives (ls, 2); `dump` gives (dump, 2); `0 list dump` gives (ls, 3); no token gives (ls, 0) |
| `Listing.GroupData.Listed` | group/tool/main.c:219-223 | the printed members are the first `member_count` stored members, none when the count is not positive |
| `Listing.PairedLinesShape` | group/tool/main.c:209-225 | two lines per record, in record order: the first line of record i at 2i, the second at 2i+1 |
| `Listing.ListingAt` | group/tool/main.c:209-225 | record i's row is line 1+2i of the listing and its member line is line 2+2i |
| `Listing.ListingShape` | group/tool/main.c:202-225 | the listing has 1+2n lines: the header first, then each record's row followed by its member line |
| `Listing.QueryListing` | group/tool/main.c:193-200 | with `opt_ind` nonzero and below `argc`, exactly one record is printed (the zero record if the lookup stored nothing); otherwise the bulk query's records are printed |
| `Listing.QueryOfArguments` | group/tool/main.c:193-200 | the single-group query is made iff a sub-command token is found and at least one argument follows it |
| `Listing.DoLs` | group/tool/main.c:180-225 | the lines printed are the header plus rows and member lines of the records the selected query gave |
| `Listing.FormatMemberLine` | group/tool/main.c:218-224 | the member loop builds exactly the member line |
| `Listing.JoinMembersStep` | group/tool/main.c:219-223 | each further member is added after one space; the first is added alone |
| `Listing.JoinMembersRoundTrip` | group/tool/main.c:219-223 | space-joined member ids parse back to the same ids in the same order |
| `Listing.MemberLineRoundTrip` | group/tool/main.c:218-224 | a member line parses back to exactly the listed members, in stored order |
| `Listing.MemberLineEmpty` | group/tool/main.c:218-224 | the member line is `"[]"` iff `member_count` is not positive |
| `Listing.HeaderColumns` | group/tool/main.c:202-207 | the header labels start at offsets 0, 17, 23, 56 and 65, each padded to its field width |
| `Listing.RowColumns` | group/tool/main.c:211-216 | when type, level and name fit their widths, a row's fields start at the header's offsets; the id is always eight hex digits |

## Left out

- Option parsing with `getopt`, the `-h` usage text, the `-V` version line (built from `__DATE__` and `__TIME__`) and the exit on a bad option (`group/tool/main.c:57-89`) are not modelled. `getopt` is a C library routine. The model starts from the argument vector and the `optind` it leaves, including any reordering GNU `getopt` did.
- `connect_groupd` and `do_dump` (`group/tool/main.c:229-272`) are not modelled. They connect to a Unix socket, write `"dump"` and copy the reply to standard output, with no logic of their own. `main`'s dispatch to them is left out as well.
- `group_get_group` and `group_get_groups` belong to the external membership library. Their results are inputs, and their return codes are ignored, as `do_ls` ignores them. `libgroup.h` is not part of this model. The record's field types follow the printf conversions that print them.
- `atoi` of the level argument is not modelled. Neither is the case `ls <level>` with no name, where the name read is `argv[argc]`, a null pointer. `Query.Single` only records which argument indexes feed the lookup.
- `do_ls` has no `return` statement, so `main`'s exit status after a listing is undefined in C. The model returns only the printed lines.
- The static buffer of `state_str` is reused on every call, which is a C lifetime detail. The text is modelled as a value.
- C strings are modelled as `string`. Embedded NUL bytes and the fixed sizes of the library's name arrays are not modelled. `PadRight` pads by characters, but C's `%-*s` pads by bytes. So a client or group name with non-ASCII characters gets less padding from the C tool, and different column offsets, than the model shows.
