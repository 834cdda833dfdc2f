# extents, modelled in Dafny

`extents` lists where the pieces of a file lie on disk. It asks the Linux
FIEMAP ioctl for the file's extents. For each extent it prints the logical
offset, the physical offset on the whole block device and the length. Each
of these appears in bytes and in 512-byte sectors. The physical offset is
moved by the partition's start, which is read from
`/sys/dev/block/MAJ:MIN/start`. The model covers:

- **table.c**: the six-column table (module `Table`). The label block comes
  first, then one row per mapped extent. The fixed field widths are 11, 8,
  13, 10, 9 and 6. Every sector cell is its byte cell divided by 512. The
  physical offset is added in wrapping 64-bit arithmetic.
- **conf.c**: option processing (module `Conf`). The option codes that
  getopt_long reports are given as a sequence of events. `-t COLS`, `-B` and
  `-s` overwrite the column string, so the last one wins. `-h` ends the run
  successfully. A missing operand, an unknown option or an unexpected code
  ends it with a diagnostic.
- **filesystem.c**: opening the file, and finding the device's start offset
  (module `Filesystem`). This includes the sysfs path, what
  `fscanf("%llu %c")` accepts, the wrapping sectors-to-bytes product and
  the line printed about the device.
- **util.c**: the program name, which is set once and then read (class
  `Util.ProgramName`), the diagnostic `die` writes, and `xcalloc`.
- **fiemap.c**: the older stand-alone program `ioctl-1` (module
  `FiemapScan`). It maps a whole file with room for 1024 extents and prints
  offset and length slot by slot. It stops after the first slot flagged
  `FIEMAP_EXTENT_LAST`, and never consults `fm_mapped_extents`.

Supporting modules:

- `Format` models the parts of printf and scanf in use. These are decimal
  digits, right-justified fields (`%*s`, `%*llu`, section 7.21.6.1 of
  ISO/IEC 9899:2011) and white space.
- `Abi` holds `struct fiemap` and `struct fiemap_extent`. `struct fiemap`
  is a class whose slots are an array, which the kernel's side of the ioctl
  fills in place.

How I/O is modelled:

- What a run prints is a string.
- `die` is a `Result` that ends in `Died(message)`. A whole run of
  `ioctl-1` ends in an `Exit(status, stdout, stderr)`.
- The file system is a map from openable paths to their contents, plus
  the `strerror` text left for any other path.
- The kernel's FIEMAP answer is a function from the request to the reply.
- Whether calloc finds memory is a boolean.

`get_table_configuration` returns `optind - 1`. The comment in
`conf.h` (lines 16-18) says it returns the index of the first non-option
argument, which is `optind`. The model follows the code:
`Conf.GetTableConfiguration` returns `optind - 1`.

## Model

| member | source | states |
|---|---|---|
| Format.Dec | filesystem.c:41-42 | `%u`/`%llu` with no width print at least one digit, and only digits, with no leading zero unless the value is 0 |
| Format.DecRoundTrip | filesystem.c:41-42 | reading back the printed digits gives the number again |
| Format.DecLength | filesystem.c:27-29 | a number below 10^k prints in at most k digits |
| Format.PadLeft | table.c:25-28 | `%*s` right-justifies: the length is max(width, length), the text is a suffix, the rest is blanks, and no line end is added |
| Format.FormatUnsigned | table.c:38-44 | `%*llu` right-justifies the decimal digits in at least width characters, never truncates, and has no line end |
| Format.CountNewlinesAppend | table.c:51-53 | line ends of consecutive output add up |
| Format.OneLine | table.c:38-44 | text with no line end, followed by one, is exactly one line |
| Abi.Fiemap.Zeroed | fiemap.c:40-44 | a fresh fiemap with n slots, every header field and slot zero, as calloc leaves it |
| Util.DieText | util.c:25-38 | die writes the program name, ": error: ", the message and one line end, in that order |
| Util.DieTextInjective | util.c:25-38 | two diagnostics of one program are equal only when their messages are |
| Util.ExitOf | util.c:25-38 | a run succeeds with its output and no diagnostic, or fails with no output and exactly die's text |
| Util.ProgramName.constructor | util.c:10 | the program name starts unset |
| Util.ProgramName.SetProgname | util.c:12-17 | callable only while the name is unset; afterwards the name is the one given |
| Util.ProgramName.Progname | util.c:19-23 | callable only once the name is set; returns it |
| Util.ProgramName.Die | util.c:25-38 | the text written to standard error is DieText of the current program name |
| Util.XCalloc | util.c:40-45 | returns fresh zeroed memory of count*size bytes exactly when calloc can give it; otherwise dies with "out of memory"; never returns null |
| Table.ToSectors | table.c:40-44 | a sector cell is its byte cell in whole sectors, rounded down |
| Table.DevicePhysical | table.c:36 | offset plus physical, wrapped modulo 2^64 when it overflows |
| Table.CellsMeaning | table.c:36-44 | each sector cell is its byte cell over 512; logical and length cells do not depend on the base offset; the physical cell moves by the offset modulo 2^64 |
| Table.RowBody | table.c:38-44 | a row's text before its line end holds no line end |
| Table.ShowExtentTable | table.c:47-54 | the output is the label block, then exactly one row for each of the fm_mapped_extents first slots, in order |
| Table.RowIsOneLine | table.c:38-44 | every row is exactly one line, ending with a line end |
| Table.RowsLineCount | table.c:52-53 | n extents give exactly n row lines |
| Table.TableLineCount | table.c:23-29 | the table starts with a blank line and has exactly two label lines plus one line per mapped extent |
| Table.LabelsAlignWithRow | table.c:13-28 | when every cell up to the byte length fits its width, LOGICAL, PHYSICAL and LENGTH end in the same columns (11, 40, 67) as the logical, physical and length byte values |
| Conf.LongOptionCode | conf.c:68-77 | a long name written out in full maps to the code of a table entry with exactly that name, or to nothing when no entry has it |
| Conf.LongOptionsMapToShortCodes | conf.c:68-75 | the full names table, bytes, sectors, secs and help map to t, B, s, s and h; no other exact name maps to anything |
| Conf.LongOptionsAgreeWithShortOptions | conf.c:63-75 | each long option takes an operand exactly when its short option does in ":t:Bsh" |
| Conf.DieUnrecognizedOption | conf.c:80-88 | an unknown option is named by optopt when set, else by the argument just consumed when long options are accepted, else it is a bug |
| Conf.ProcessOption | conf.c:90-118 | -t, -B, -s set the columns to the operand, "LIFC" or "lifc"; -h stops with help; ':' dies "missing operand for -X option"; '?' dies through die_unrecognized_option; any other code is a bug |
| Conf.LastColumnOptionWins | conf.c:93-104 | a run of options configures the table exactly when every option is a column option, and the last one decides the columns |
| Conf.HelpAlwaysSucceeds | conf.c:106-107 | -h after any column options ends the run with help, whatever follows it |
| Conf.StopIsFinal | conf.c:106-116 | once an option ends the run, later options change nothing |
| Conf.GetTableConfiguration | conf.c:122-139 | sets the program name from argv[0]; starting from "lifc", processes every option; returns optind - 1 with the columns the options decide, or ends the run as the first stopping option says, a diagnostic writing die's text under the name argv[0] |
| Filesystem.OpenFile | filesystem.c:14-21 | the file's contents when it can be opened, else death with "PATH: reason" |
| Filesystem.SysfsPath | filesystem.c:29 | "/sys/dev/block/" + major + ":" + minor + "/start"; its length is the sum of its parts |
| Filesystem.SysfsPathFits | filesystem.c:27-30 | the path is at most 42 characters, so the 1024-byte buffer check never fires |
| Filesystem.SysfsPathInjective | filesystem.c:29 | different device numbers give different paths |
| Filesystem.Saturate | filesystem.c:37 | a value that fits 64 bits is kept, a larger one becomes ULLONG_MAX |
| Filesystem.ScanUnsignedThenChar | filesystem.c:37 | fscanf returns -1, 0, 1 or 2 |
| Filesystem.ScanAcceptsNumberWithSpaces | filesystem.c:37-38 | digits with only white space around them are read with count 1 and their value |
| Filesystem.ScanAcceptsOnlyNumberWithSpaces | filesystem.c:37-38 | count 1 only for leading white space, at least one digit, and nothing but white space after |
| Filesystem.SysfsNumberScansBack | filesystem.c:35-38 | a number followed by a line end is read back as that number |
| Filesystem.SectorsToBytesMeaning | filesystem.c:40 | the byte offset is 512 times the sector count modulo 2^55, so it is always a multiple of 512, and exact when the product fits 64 bits |
| Filesystem.OffsetLineIsOneLine | filesystem.c:41-42 | the device line is exactly one line |
| Filesystem.GetOffset | filesystem.c:23-45 | dies naming the path when the start file cannot be opened or does not hold a lone number; otherwise returns sectors*512 in 64-bit arithmetic and prints the device line; never dies on the path's length |
| Filesystem.GetOffsetReadsStartSector | filesystem.c:35-44 | when sysfs holds sector n, the offset returned is n*512 (mod 2^64) and both numbers are printed |
| FiemapScan.AllocFiemap | fiemap.c:40-44 | a fresh zeroed fiemap with the asked number of slots when 32 + 56*n bytes can be allocated, else death with "out of memory" |
| FiemapScan.StoreExtents | fiemap.c:60 | the kernel's reply sets fm_mapped_extents and the first slots, and leaves every other slot and header field unchanged |
| FiemapScan.Slots | fiemap.c:52-60 | after the ioctl, the 1024 slots are the mapped extents followed by zeroed slots |
| FiemapScan.ScanLength | fiemap.c:65-70 | the loop prints slots up to and including the first flagged last, or all slots when none is flagged |
| FiemapScan.MapWholeFile | fiemap.c:46-61 | allocates, asks for the whole file (start 0, length 2^64-1, 1024 slots, no flags), and dies "out of memory" or "ioctl error: REASON" before anything is printed |
| FiemapScan.PrintUntilLast | fiemap.c:65-70 | prints "offset: PHYSICAL   length: LENGTH" for exactly the slots ScanLength counts |
| FiemapScan.ShowExtents | fiemap.c:46-73 | the output or diagnostic is ScanOutput of the kernel's reply to the whole-file request |
| FiemapScan.LinesCount | fiemap.c:66-67 | one printed line per slot |
| FiemapScan.ScanPrintsBoundedLines | fiemap.c:65-70 | a successful scan prints between 1 and 1024 lines |
| FiemapScan.LastFlagStopsScan | fiemap.c:65-69 | when only the final mapped extent is flagged last, exactly the mapped extents are printed |
| FiemapScan.EmptyFileScansEverySlot | fiemap.c:65-70 | with no extent mapped, all 1024 zeroed slots are printed, since fm_mapped_extents is not consulted |
| FiemapScan.ProgramNameOf | fiemap.c:79 | diagnostics start with argv[0], or "(null)" when there is none |
| FiemapScan.Run | fiemap.c:75-89 | fewer than one operand dies "too few arguments"; more than one dies "too many arguments"; an unopenable operand dies with the path and the quoted reason; otherwise the run ends as ShowExtents says |

## Left out

- Parsing `argv` into options is given, not modelled. Conf.LongOptionCode
  maps exact names only; getopt_long also accepts an unambiguous prefix,
  such as `--tab` for `--table` or `--sec` for `--sectors`/`--secs`. The events are the
  values getopt_long returns, with the optarg, optopt and argv[optind - 1]
  seen at each return, plus the final optind. This also leaves out argument
  permutation and `--name=value` forms.
- The text of the BUG() macro is not part of this model. A bug diagnostic is
  `Conf.Halt.Bug(message)`, carrying the message as it is before the macro
  wraps it.
- The help text of `show_help_and_quit` is not modelled. Asking for help is
  the outcome `ShowHelp`, which stands for exiting with success.
- Filesystem.Saturate: does not model a sign in front of the number, which
  `%llu` accepts and negates. Overflow is modelled as glibc's saturation to
  ULLONG_MAX, which the C standard leaves undefined.
- Filesystem.ScanUnsignedThenChar: a read error is not modelled, and the
  value stored is 0 when the count is -1 or 0, since it is never used then.
- `major(dev)` and `minor(dev)` are left out. `Filesystem.GetOffset` takes
  the two numbers directly.
- Files are modelled as their contents. The FILE handle, its mode, `fileno`
  and `fclose` are left out, and so is the file descriptor passed to ioctl.
- FiemapScan.StoreExtents: the kernel is assumed to write no more extents
  than there are slots. Kernel-side changes to `fm_flags` are not modelled.
- Freeing memory (`free`) and exiting the process are not modelled; a
  diagnostic ends the modelled computation.
- Util.XCalloc: the bytes it returns are modelled, but `alloc_fiemap`'s use of
  that block as a `struct fiemap` is a fresh `Abi.Fiemap` object, so the
  byte layout of the header and slots is not modelled.
- `fiemap.c` has its own static copies of `die` and `xcalloc`. They behave
  like the ones in `util.c` except that `die` reads the name without checking
  it is set. The model uses the `Util` versions for both programs.
- Util.ProgramName.SetProgname: the non-null assertion on the name is not
  modelled, since a Dafny string is never null.
- The column letters of the configured string are not interpreted:
  `show_extent_table` always prints its fixed six columns, as the code does.
