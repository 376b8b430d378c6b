# SD card consoles, modelled in Dafny

This project models the two serial consoles of an ESP8266 SD-card example.

- `sdcard_demo` is a raw block-device console. Its single-letter commands:
  - set a sector address;
  - switch the card's SPI speed profile;
  - initialise the card;
  - read a sector and print it as a hex/ASCII dump;
  - write a test pattern to the sector;
  - erase the sector.
- `fatfs_sdcard_demo` is a file-system console on top of FatFs. Its
  two-letter commands:
  - mount the volume and report its geometry;
  - report the card size;
  - list a directory, or print a whole directory tree;
  - change, make or remove a directory;
  - write a file from the console input, print a file, delete a file.

The model is pure Dafny. The card driver, FatFs and the character stream are
inputs, not code:

- The stream `getchar` reads is a `string`. A read that would need more
  characters than the stream holds is "blocked" (`None`).
- FatFs's view of the volume is a finite tree (`Volume.Fs`) plus a table of
  injected faults per call. `f_opendir`, `f_readdir`, `f_chdir` and
  `f_closedir` are answered from that tree, after the path text has been
  resolved by its text alone (see `Volume.Resolve` under "Left out").
- Every other driver or FatFs call is an oracle answer. These calls are
  `f_mount`, `f_getfree`, `f_getlabel`, `f_mkdir`, `f_unlink`, `f_open`,
  `f_close`, `disk_ioctl`, `f_getcwd` and the `sdcard_*` calls. Their answers
  are a field of a `Replies` record, or a map from call index to result code.

Modules, following the structure of the two programs:

| module | what it models |
|---|---|
| `Base` | `Option`, bytes, 32-bit words and explicit wrap-around |
| `FsResults` | `FRESULT` and the console's `ERR` name table |
| `Numerals` | `%02x`, `%03x`, decimal rendering, and a 32-bit `strtoul` |
| `LineReader` | `getline`, which is identical in both consoles |
| `SectorDump` | `print_sector` |
| `BlockConsole` | the `main_task` loop of `sdcard_demo` |
| `Measure` | a lexicographic termination measure for the tree walker |
| `Volume` | the FatFs directory operations over a tree with faults |
| `WalkReference` | `change_cwd`, plus a recursive reference traversal for `dir_tree` |
| `TreeWalker` | the iterative `dir_tree` over its fixed array of 16 `DIR` handles |
| `WalkProperties` | what `dir_tree` prints and where it leaves the current directory |
| `DirList` | `dir_list` |
| `FileStream` | `file_write` and `file_read` |
| `MountReport` | `mount()` with its `DWORD` arithmetic |
| `FsConsole` | the `main_task` loop of `fatfs_sdcard_demo` |

`TreeWalker.DirTree` is the central proof:

- Under any faults:
  - it terminates, using a lexicographic measure over the frame positions;
  - it never indents deeper than 15 levels;
  - every handle it opens is closed, except one whose `f_chdir` failed (as
    in the source, that handle is left open).
- On a well-formed volume whose `..` moves do not fail, it produces exactly
  the events of a recursive reference traversal.
- `WalkProperties` then shows what that traversal is on a fault-free volume:
  a preorder listing of the tree.

## Model

| member | source | states |
|---|---|---|
| FsResults.Code | fatfs_sdcard_demo/main.c:11-16 | every `FRESULT` has a numeric value that indexes the `ERR` table, and only `FR_OK` is 0 |
| FsResults.CodeRoundTrip | fatfs_sdcard_demo/main.c:11-16 | decoding a code's numeric value gives the code back |
| FsResults.FromCodeRoundTrip | fatfs_sdcard_demo/main.c:11-16 | each of the 20 table indices is the value of exactly one code, and that code's printed name is the table entry at that index |
| FsResults.CodeInjective | fatfs_sdcard_demo/main.c:11-16 | distinct codes print under distinct indices |
| Numerals.Hex2RoundTrip | sdcard_demo/main.c:18 | the two-digit `%02x` field of a byte reads back as that byte |
| Numerals.Hex3RoundTrip | sdcard_demo/main.c:14 | the three-digit `%03x` row label reads back as the offset, for offsets below 4096 |
| Numerals.DecimalRoundTrip | sdcard_demo/main.c:12 | the decimal rendering of a number reads back as that number |
| Numerals.SkipSpaceDrops | sdcard_demo/main.c:78 | `strtoul` skips only leading white space and keeps the rest of the text |
| Numerals.StrtoulRoundTrip | sdcard_demo/main.c:78 | after any blanks, the decimal text of a 32-bit value followed by a non-digit converts back to that value |
| Numerals.StrtoulNoDigits | sdcard_demo/main.c:78 | text with no digits converts to 0 |
| Numerals.StrtoulSaturates | sdcard_demo/main.c:78 | after any blanks and an optional sign, a digit run whose value exceeds 32 bits converts to 4294967295 |
| Numerals.StrtoulNegates | sdcard_demo/main.c:78 | a minus sign negates modulo 2^32: `-n` converts to 2^32 − n for 0 < n < 2^32, and `-0` to 0 |
| LineReader.GetLine | fatfs_sdcard_demo/main.c:255-268 | the line holds exactly the printable characters before the first newline, capped at capacity − 1. The character that ends the read is consumed and not stored. Every earlier character is neither a newline nor past the cap. The echo is the stored text plus a newline |
| LineReader.FullLineDropsNext | sdcard_demo/main.c:35-48 | when the buffer fills before a newline, the next character is consumed and lost, even if it is not a newline |
| LineReader.PrintableOnly | sdcard_demo/main.c:40-43 | control characters are never stored |
| LineReader.PrintableAll | sdcard_demo/main.c:40-43 | printable characters are all stored, in order |
| SectorDump.Rows | sdcard_demo/main.c:13 | a 512-byte sector is printed as 32 rows |
| SectorDump.RowLayout | sdcard_demo/main.c:13-31 | every row is 76 characters long: the label, a colon, four groups of four ` %02x` cells each followed by a blank, the ` \| ` separator, 16 ASCII characters and a newline. Byte `j`'s hex field sits at `5 + 13(j/4) + 3(j%4)` |
| SectorDump.DumpRoundTrip | sdcard_demo/main.c:13-31 | decoding row `r` of the dump gives the label `16 r` and the 16 bytes of that row of the sector |
| SectorDump.FieldsRoundTrip | sdcard_demo/main.c:16-21 | every hex field of a row decodes to its byte |
| SectorDump.DumpLayout | sdcard_demo/main.c:10-32 | the dump is the header line `# <sector>:` followed by the 32 rows of 76 characters in order, row `r` occupying its own fixed stretch |
| SectorDump.SignedDecimalReads | sdcard_demo/main.c:12 | `%d` of the sector number reads back as that number taken as a signed 32-bit value: it has a minus sign exactly when the number is 2^31 or more |
| SectorDump.FlattenAt | sdcard_demo/main.c:13-31 | rows of one width printed one after another: row `r` starts at `r` times the width |
| SectorDump.AsciiColumn | sdcard_demo/main.c:23-30 | a byte shows as itself in the ASCII column exactly when it lies in 0x20..0x7e, and as `.` otherwise |
| BlockConsole.Step | sdcard_demo/main.c:61-111 | `a` sets the address and nothing else does. `c` makes the card slow and `C` fast; only `i`, `c` and `C` touch the speed flag. `w` and `e` issue a request only when the address is non-zero. `r` always reads the current address and, on success, prints the dump of the delivered sector. No write or erase ever reaches sector 0 |
| BlockConsole.Prompted | sdcard_demo/main.c:57-59 | an executed line has 1..11 characters, all printable, and consumes input |
| BlockConsole.FirstCharSelects | sdcard_demo/main.c:61-111 | only the first character chooses the command. `i c C a r w e` are commands whatever follows, and any other line, including an empty one, is ignored. Only `a` reads the rest of the line, as `strtoul` |
| BlockConsole.ParseRender | sdcard_demo/main.c:61-111 | every command's canonical line, including `a` followed by any 32-bit decimal, is parsed back to that command |
| BlockConsole.AddressWithoutDigits | sdcard_demo/main.c:77-79 | `a` followed by no digits clears the address register |
| BlockConsole.ZeroAddressGuards | sdcard_demo/main.c:81-110 | at address 0, `w` and `e` issue nothing while `r` still reads sector 0 |
| Volume.OpenDir | fatfs_sdcard_demo/main.c:107 | a successful open positions a handle at the start of the directory that the name resolves to; a failure carries a non-`FR_OK` code |
| Volume.ChDir | fatfs_sdcard_demo/main.c:98 | a successful change of directory lands on an existing directory that the name resolves to |
| Volume.ChDirUp | fatfs_sdcard_demo/main.c:148 | `..` without a fault moves to the parent directory, and at the root stays at the root |
| Volume.ReadAt | fatfs_sdcard_demo/main.c:127 | an entry that is read is the entry at the handle's position; a failed read carries a non-`FR_OK` code |
| Volume.ResolveChild | fatfs_sdcard_demo/main.c:133 | an ordinary entry name resolves to that child of the current directory |
| Volume.ResolveParent | fatfs_sdcard_demo/main.c:148 | `..` resolves to the parent, and at the root to the root itself |
| Volume.LookupChild | fatfs_sdcard_demo/main.c:127-133 | in a well-formed tree, the directory's `k`-th entry is found again by its name |
| Volume.OpenedEntries | fatfs_sdcard_demo/main.c:163-169 | a handle on a well-formed tree sees only ordinary, non-empty names |
| WalkReference.ChangeCwd | fatfs_sdcard_demo/main.c:105-114 | on success the directory is opened and becomes current. A failed open reports the open error and leaves the directory unchanged. A failed change reports the `f_chdir` fault, keeps the open handle, and leaves the directory unchanged |
| WalkReference.ChangeBalance | fatfs_sdcard_demo/main.c:105-114 | a change of directory leaves one more handle outstanding exactly when it succeeds, and a failed `f_chdir` message occurs only under a `f_chdir` fault |
| TreeWalker.DirTree | fatfs_sdcard_demo/main.c:118-158 | handles opened = handles closed + handles whose `f_chdir` failed; no `f_chdir` fault means no failed change; no entry is indented 16 or more levels. On a volume with unique ordinary names and no `..` faults, the events and the final current directory are exactly those of the recursive reference |
| TreeWalker.Visit | fatfs_sdcard_demo/main.c:128-141 | one entry of the inner loop keeps the walker's invariant and strictly lowers the termination measure |
| TreeWalker.Leave | fatfs_sdcard_demo/main.c:143-153 | closing a frame and moving up restores the outer loop's invariant without raising the measure |
| WalkProperties.WalkListsTree | fatfs_sdcard_demo/main.c:126-142 | on a fault-free well-formed volume, `dt root` prints every entry below `root` in preorder. Each entry is indented by its depth, and directories below depth 15 are not entered |
| WalkProperties.ReadFaultTruncates | fatfs_sdcard_demo/main.c:126-143 | on a well-formed volume, a directory frame whose read at position `f` fails gives the same events, including those of subdirectories entered before `f`, as the frame over the first `f` entries on a volume where that read returns the end marker |
| WalkProperties.FromRepaired | fatfs_sdcard_demo/main.c:126-143 | repairing a read fault in a directory does not change the walk of any directory below it |
| WalkProperties.DotRootRestores | fatfs_sdcard_demo/main.c:147 | `dt .` leaves the current directory where it was |
| WalkProperties.NameRootRestores | fatfs_sdcard_demo/main.c:147-152 | `dt name` for one ordinary name returns to the starting directory |
| WalkProperties.NestedRootStopsHalfway | fatfs_sdcard_demo/main.c:123-153 | `dt a/b` descends two levels but climbs only one, leaving the current directory at `a` |
| WalkProperties.DotSlashRootClimbs | fatfs_sdcard_demo/main.c:147 | `dt ./` names the current directory but is not the text `.`, so the walker climbs one level above where it started, or stays at the root when it started there |
| WalkProperties.SlashRootStays | fatfs_sdcard_demo/main.c:147-152 | `dt /` walks the root, its final `..` succeeds, and it ends at the root |
| DirList.ListDir | fatfs_sdcard_demo/main.c:160-182 | it is unopened exactly when `f_opendir` fails, with that code. Otherwise it lists a prefix of the directory's entries, up to the first failed read or end marker, and then closes the handle once |
| DirList.ListAll | fatfs_sdcard_demo/main.c:168-176 | with no failed reads and no empty names, the listing is every entry from the position on |
| DirList.ListsEverything | fatfs_sdcard_demo/main.c:160-182 | on a well-formed volume without read faults, `dl` lists every entry of the directory, in order |
| FileStream.FileWrite | fatfs_sdcard_demo/main.c:184-219 | a failed `f_open` is reported with its code. Otherwise at least one character and no more than the input is consumed, and `f_close`'s code is reported |
| FileStream.WriteConsumes | fatfs_sdcard_demo/main.c:192-214 | whatever the writes report, an opened `file_write` consumes the input up to and including the first character ≤ 4 |
| FileStream.DrainEnds | fatfs_sdcard_demo/main.c:192-212 | the outer loop, under any write faults, stops just after the first character ≤ 4 |
| FileStream.Drain | fatfs_sdcard_demo/main.c:192-212 | each pass of the outer loop consumes at least one character and never reads past the input |
| FileStream.ChunkSplits | fatfs_sdcard_demo/main.c:194-201 | each buffer holds the next at most 128 characters before the ending character, and the buffer ends the input only when it stops short of 128 |
| FileStream.WriteSizes | fatfs_sdcard_demo/main.c:202-204 | `f_write` is called only with 1 to 128 characters |
| FileStream.Suppressed | fatfs_sdcard_demo/main.c:202 | once `err` is set, input is still consumed but nothing more is written |
| FileStream.DrainFills | fatfs_sdcard_demo/main.c:193-213 | without write faults, the file receives the input before the ending character, cut short at the first short write, which is reported as "card full" |
| FileStream.WriteStoresText | fatfs_sdcard_demo/main.c:184-219 | with room for the text, the file holds exactly the text before the ending character and nothing is reported |
| FileStream.WriteFillsCard | fatfs_sdcard_demo/main.c:202-211 | with less room than the text, the file holds the prefix that fits, `err` becomes `FR_DENIED`, and "card full" is reported once |
| FileStream.WriteWaits | fatfs_sdcard_demo/main.c:195-197 | without an ending character and with less than a buffer of input, `fw` blocks |
| FileStream.FileRead | fatfs_sdcard_demo/main.c:221-248 | it is unopened exactly when `f_open` fails. Otherwise it prints a prefix of the file and reports `f_close`'s code |
| FileStream.Pull | fatfs_sdcard_demo/main.c:229-240 | the loop makes at least one `f_read` call, and what it prints is the file's contents from the current 128-byte block on, in order |
| FileStream.PullAll | fatfs_sdcard_demo/main.c:230-241 | without read faults, every byte is printed in order, using one `f_read` per full 128-byte block plus one for the short (possibly empty) last block |
| FileStream.PullStopsAtFault | fatfs_sdcard_demo/main.c:231-235 | a failed `f_read` ends the loop at once: exactly the blocks read before it are printed, with that error |
| FileStream.WriteThenRead | fatfs_sdcard_demo/main.c:184-248 | reading back a file written with enough room and no faults prints the text that was typed |
| MountReport.Mount | fatfs_sdcard_demo/main.c:18-59 | a failed `f_mount` is reported and returned. Otherwise there are two paragraphs: geometry exactly when `f_getfree` succeeds, and the label exactly when `f_getlabel` succeeds. The code returned is `f_getlabel`'s |
| MountReport.GetfreeIgnored | fatfs_sdcard_demo/main.c:27-58 | a failed `f_getfree` does not make `mount()` fail |
| MountReport.SizesExact | fatfs_sdcard_demo/main.c:32-46 | below 2^32 sectors, the disk and available sizes in KB are exactly half the sector counts, and available ≤ disk |
| MountReport.SizeWraps | fatfs_sdcard_demo/main.c:32-46 | for every mounted volume the disk size is the sector count modulo 2^32, halved, so a volume of 2^32 sectors, or one sector more, is reported as 0 KB |
| MountReport.SizeWrapsExample | fatfs_sdcard_demo/main.c:32-46 | a volume of 2^24 clusters of 256 sectors is one such volume |
| FsConsole.VerbSelects | fatfs_sdcard_demo/main.c:280-350 | the first two characters alone decide whether a line is a command: exactly the ten verbs are. The argument of a `d` or `f` command is the rest without its leading blanks, and `d` defaults to `.`. A line of fewer than two characters is ignored |
| FsConsole.ParseRender | fatfs_sdcard_demo/main.c:280-350 | every canonical command's line is parsed back to that command |
| FsConsole.ArgumentAfterVerb | fatfs_sdcard_demo/main.c:280-281 | the argument is the text after the two verb characters, without its leading blanks |
| FsConsole.DirectoryDefault | fatfs_sdcard_demo/main.c:303-305 | a `d` command with an empty argument works on `.` |
| FsConsole.FileNameNotDefaulted | fatfs_sdcard_demo/main.c:333-350 | an `f` command with an empty argument passes the empty name on |
| FsConsole.Step | fatfs_sdcard_demo/main.c:283-350 | an ignored line changes nothing. The prompt becomes `/` exactly when `mount()` returns `FR_OK`, and becomes `f_getcwd`'s text exactly when `dc` succeeds; otherwise it is kept. Only `cm`, `dt` and `dc` move FatFs's current directory. `dt` on a good volume behaves as the reference walk. Only `fw` consumes further input, exactly as `file_write` does |
| FsConsole.Prompted | fatfs_sdcard_demo/main.c:276-278 | an executed line has 1..31 printable characters and consumes input, and an ignored line leaves the console unchanged |

## Left out

- Output formatting:
  - `printf` field widths, padding and the exact message texts are not
    modelled;
  - events, codes and report fields stand for the printed lines;
  - only `print_sector`'s dump is modelled character by character.
- Program start-up and system calls:
  - `user_init`, the UART baud rate, `hspi_init` and the FreeRTOS task are
    start-up code with no behaviour to state;
  - `hspi_config.h` only configures the SPI bus;
  - `fflush` is not modelled.
- FatFs and the card driver are not part of this model. What they answer is
  an input.
  - The tree and faults of `Volume` describe the directory calls;
  - every other call returns the code it is given.
- FsConsole.Step: the state is not carried between commands.
  - `dm`, `dr`, `fd` and `fw` do not change the `Volume` tree that later
    commands see;
  - each command is given its own `Replies`;
  - the file-name argument is not used by the file oracles.
- FsConsole.Step: `cm` puts FatFs's current directory at the root whenever
  `f_mount` succeeds. This is FatFs's behaviour on remounting, which the
  model assumes.
- FsConsole.Step: `cs` (`display_card_size`) is an oracle for
  `disk_ioctl`. Its only computation is the KB value `count / 2`. Printing a
  `uint32_t` count with `%d` is not modelled.
- Volume.Resolve: path text is resolved by its text alone, before the tree
  is consulted:
  - a missing or non-directory component before `..` is not rejected, so
    `nosuch/..` names the current directory, where FatFs answers
    `FR_NO_PATH`;
  - `\` is not a separator;
  - trailing dots and blanks of a name are not stripped.
  Only the resolved directory itself must exist. Modelling FatFs's
  segment-by-segment walk would tie every path to the tree.
- Volume.OpenDir, Volume.ChDir: through `Volume.Resolve`, `nosuch/..` and
  `file/..` open or enter the current directory instead of failing with
  `FR_NO_PATH`.
- Volume.Child: a name is looked up by exact, case-sensitive comparison.
  FatFs compares both short and long names case-insensitively, so `dc A`
  finds a directory `a` on the card but not in the model.
- TreeWalker.DirTree: `calloc` is assumed to succeed. On failure the source
  silently does nothing.
- TreeWalker.DirTree: the result is equal to the reference only on volumes
  with unique ordinary names and no `..` faults. Under other faults, only
  the balance, termination and depth facts are stated.
- FileStream.FileWrite:
  - the echo of each stored character is not a separate output (it equals
    the stored text);
  - `getchar`'s `EOF` is represented by any character ≤ 4, since the stream
    holds characters only.
- FileStream.FileWrite: the free space on the card is a single number
  `room`. A short `f_write` stores as much as fits.
- FileStream.FileRead: the bytes are treated as characters. Printing them
  with `putchar` is the `shown` text.
- BlockConsole.Step: `slowAfterInit`, the speed flag after `sdcard_init`, is
  an oracle value; the driver's initialisation sequence is not modelled.
- The stack high-water-mark line is commented out in both sources and is
  not modelled.
