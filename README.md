# MyFs volume engine and shell core, in Dafny

MyFs is a flat-namespace file store laid over a byte-addressable block
device. A volume holds five regions, laid back to back:

- a 5-byte header: the magic `"MYFS"` and a version byte;
- a 4-byte metadata block holding `num_files`;
- an entry table reserved for `MAX_FILES = 100` fixed-size `FileEntry`
  records, each with `name[20]`, `size`, `block_start` and `is_directory`;
- an append-only data region that starts at `DATA_START`.

The engine (`MyFs`) keeps the table in memory. After every change it
mirrors the table onto the device. New files get their extent from a bump
allocator: the highest `block_start + size` among the entries, floored at
`DATA_START` and rounded up to a multiple of 4. The shell (`vfs`) splits a
command line on spaces and dispatches on the first word. Two shell commands
carry their own logic: `rmdir`, which checks that the directory is empty by
a name-prefix test, and `mv`, which renames an entry in place.

Modules, one per concern:

- `CBytes` (cbytes.dfy) covers the C-level vocabulary:
  - bytes and byte strings;
  - `uint32_t` with its wrap-around and its little-endian image;
  - the C string a buffer denotes (`CStr`: everything before the first NUL).
- `BlockDev` (blockdev.dfy) is the device, reached only through
  `read(off, len)` and `write(off, bytes)`.
- `Layout` (layout.dfy) covers `fs/myfs.h`: the layout constants, the
  header, and the byte image of entries and of the table.
- `Alloc` (alloc.dfy) is the bump allocator of `create_file`.
- `Volume` (volume.dfy) holds the engine as a class `MyFs`. Its `entries`,
  `numFiles` and `dev` are updated in place.
- `VolumeFacts` (volume_facts.dfy) holds properties that span several
  operations: save then load, format then load, set then get, and what the
  duplicate-name check guarantees.
- `Shell` (vfs.dfy) covers `split_cmd`, the `rmdir` emptiness scan, `mv`
  and one round of the command dispatch.

Every `std::runtime_error` the engine throws is an error value
(`Outcome`/`Result` with an `FsError`). Each failing operation leaves the
table, the count and the device exactly as they were.

Three behaviours of the code that a reader might not expect, and that the
model keeps:

- `get_content` returns `std::string(buffer)`. The result therefore stops at
  the first NUL byte of the stored content; it is not the stored bytes
  verbatim. Set-then-get gives back the content exactly when the content
  holds no NUL (`VolumeFacts.SetThenGetExact`). This holds while the table
  has at most `MAX_FILES` entries, the file's extent starts in the data
  region, and the content is shorter than 2^32 bytes. When the table is
  too long or the extent starts too low, the save that follows the write
  can overwrite the content with the count or the table. When the content
  is 2^32 bytes or longer, the stored 32-bit `size` wraps and get_content
  reads too few bytes.
- Names are not kept unique in general. The duplicate check compares the
  whole C string of the path, but only its first 19 bytes are stored, so a
  name longer than 19 bytes can be created twice
  (`VolumeFacts.LongNameEscapesDuplicateCheck`). `mv` has no collision
  check at all (`Shell.RenameKeepsDistinctIff`).
- `create_file` has no check against `MAX_FILES`.

## Model

| member | source | states |
|---|---|---|
| CBytes.CStr | fs/myfs.cpp:111 | the string `std::string(buf)` builds is a NUL-free prefix of the buffer that ends just before the first NUL, if there is one |
| CBytes.CStrIdentity | fs/myfs.cpp:107-111 | a buffer reads back as itself exactly when it holds no NUL |
| CBytes.CStrOfTerminated | fs/myfs.cpp:61-62 | a NUL-free name followed by NUL padding reads back as the name |
| CBytes.U32Of | fs/myfs.cpp:81 | the `size_t` to `uint32_t` conversion keeps every value below 2^32 |
| CBytes.AddU32 | fs/myfs.cpp:68 | a `uint32_t` sum is the true sum when below 2^32, and otherwise wraps to a value below the first operand |
| CBytes.EncodeU32 | fs/myfs.h:79-81 | a `uint32_t` occupies 4 bytes on the device |
| CBytes.U32RoundTrip | fs/myfs.cpp:202 | reading back a stored `uint32_t` yields the value written |
| BlockDev.WriteAt | fs/myfs.cpp:133 | a write extends the device exactly when it reaches past the current end |
| BlockDev.AtWrite | fs/myfs.cpp:133 | a write changes exactly the bytes of its range |
| BlockDev.ReadOwnWrite | fs/myfs.cpp:133 | reading back the range just written yields the bytes written |
| BlockDev.ReadPastWrite | fs/myfs.cpp:189-194 | a write leaves every range it does not touch unchanged |
| BlockDev.ReadPrefix | fs/myfs.cpp:206-208 | the first record of a concatenation reads back from offset 0 |
| BlockDev.BlockDevice.Read | fs/myfs.cpp:108 | `read(off, len)` returns the device's bytes at `[off, off+len)`, zero past the end |
| BlockDev.BlockDevice.Write | fs/myfs.cpp:133 | `write(off, bytes)` sets exactly that range to the bytes |
| Layout.HeaderBytes | fs/myfs.h:74-77 | the header image has `HEADER_SIZE` (5) bytes |
| Layout.Zeros | fs/myfs.cpp:61 | the padding `strncpy` leaves is all NUL bytes, of the requested length |
| Layout.NameField | fs/myfs.h:14 | the name field is always exactly 20 bytes |
| Layout.EncodeEntry | fs/myfs.h:13-18 | an entry's image is exactly `sizeof(FileEntry)` bytes |
| Layout.DecodeEntry | fs/myfs.h:13-18 | a decoded entry's name is a NUL-free string of at most 20 bytes |
| Layout.EntryRoundTrip | fs/myfs.h:13-18 | decoding an encoded well-formed entry yields the entry |
| Layout.EncodeTable | fs/myfs.cpp:192-194 | the table image is `|file_entries| * sizeof(FileEntry)` bytes |
| Layout.DecodeTable | fs/myfs.cpp:205-208 | loading n records yields n well-formed entries |
| Layout.TableRoundTrip | fs/myfs.cpp:192-208 | decoding an encoded table of well-formed entries yields the table |
| Layout.DecodeTableCons | fs/myfs.cpp:192-208 | a table image that starts with one record decodes to that record followed by the decoding of the rest |
| Layout.RegionsBackToBack | fs/myfs.h:86-93 | metadata follows the header, the table follows the metadata, and the data region follows the table's reserved capacity |
| Layout.TableFitsIffWithinCapacity | fs/myfs.h:89-93 | n records written at `FILE_ENTRY_OFFSET` end at or before `DATA_START` iff n <= `MAX_FILES` |
| Layout.DataStartMisaligned | fs/myfs.h:86-93 | with a 4-aligned record size `DATA_START` is 1 modulo 4, so even the first allocation is rounded up |
| Alloc.MaxEnd | fs/myfs.cpp:66-72 | the allocator's running maximum is at or above the floor |
| Alloc.MaxEndIsMaximum | fs/myfs.cpp:66-72 | the maximum bounds every entry's (32-bit) end and is either the floor or one of those ends |
| Alloc.MaxEndStep | fs/myfs.cpp:67-71 | one loop round replaces the maximum by the entry's end exactly when that end is larger |
| Alloc.RoundUp4 | fs/myfs.cpp:74-76 | the round-up yields a multiple of 4, within 3 above the input unless the 32-bit sum wraps, in which case it is 0 |
| Alloc.BumpStartIsLeastAlignedBound | fs/myfs.cpp:66-78 | without wrap-around the new start is the least multiple of 4 at or above `DATA_START` and at or above the end of every existing extent |
| Alloc.BumpStartAligned | fs/myfs.cpp:74-78 | the new start is always 4-aligned |
| Alloc.BumpStartAboveFloor | fs/myfs.cpp:66-78 | the new start is at or above `DATA_START` exactly when the rounding does not wrap |
| Alloc.WrappedEndIsIgnored | fs/myfs.cpp:68-76 | an extent whose end passes 2^32 wraps to a small value (8) that the allocator ignores; the next start falls back to 3212, below that extent's start and its true end, so the bound of `BumpStartIsLeastAlignedBound` fails once a sum wraps |
| Alloc.FirstAllocationRoundedUp | fs/myfs.cpp:66-76 | with a 32-byte record the first entry starts at 3212, not at `DATA_START` = 3209 |
| Volume.FirstNamed | fs/myfs.cpp:176-183 | the lookup finds the first entry with the name, or reports that none has it |
| Volume.StoredName | fs/myfs.cpp:61-62 | the stored name is a NUL-free prefix of the path of at most 19 bytes, equals the path's C string when that is short enough, and is exactly 19 bytes (the C string cut short) otherwise |
| Volume.MyFs.constructor | fs/myfs.cpp:16-29 | a device carrying the MyFs header is loaded without being written; any other device is formatted |
| Volume.MyFs.Format | fs/myfs.cpp:35-47 | the table and count become empty and the device carries a fresh header and a zero count; no records are written, so the old table bytes stay on the device |
| Volume.MyFs.CreateFile | fs/myfs.cpp:55-84 | fails with AlreadyExists, changing nothing, iff the name is found; otherwise appends exactly one entry (stored name, size 0, the allocator's start, the flag), keeps the count equal to the table length and saves |
| Volume.MyFs.NextBlockStart | fs/myfs.cpp:66-78 | the loop computes the bump allocator's start, which is 4-aligned |
| Volume.MyFs.GetContent | fs/myfs.cpp:93-115 | NotFound iff no entry matches, IsDirectory iff the match is a directory; otherwise the C string of the extent's bytes, no longer than the size |
| Volume.MyFs.SetContent | fs/myfs.cpp:123-138 | fails iff the name is not found or names a directory (NotFound, IsDirectory), changing nothing; otherwise the content is written at the existing start, only that entry's size changes and the table is saved |
| Volume.MyFs.ListDir | fs/myfs.cpp:146-152 | succeeds iff the path is `/` or empty, and then returns the table in order; fails with Unsupported otherwise |
| Volume.MyFs.RemoveFile | fs/myfs.cpp:159-173 | NotFound, changing nothing, iff no entry matches; otherwise erases exactly the first match, keeps the order of the others and saves |
| Volume.MyFs.FindFile | fs/myfs.cpp:176-183 | the scan returns the index of the first entry named by the path's C string, or none |
| Volume.MyFs.SaveFileEntries | fs/myfs.cpp:188-196 | the device gets the count, then the records if there are any |
| Volume.MyFs.LoadFileEntries | fs/myfs.cpp:201-211 | the table and count become what the device's metadata and table hold |
| VolumeFacts.LookupSameNames | fs/myfs.cpp:176-183 | the lookup depends only on the names |
| VolumeFacts.ResizeKeepsLookup | fs/myfs.cpp:135 | changing the found entry's size keeps it the entry found |
| VolumeFacts.SaveKeepsHeader | fs/myfs.cpp:188-196 | saving never touches the header |
| VolumeFacts.SaveKeepsDataRegion | fs/myfs.cpp:188-196 | with at most `MAX_FILES` entries, saving leaves the data region untouched |
| VolumeFacts.SaveThenLoad | fs/myfs.cpp:188-211 | saving a table of well-formed entries with fewer than 2^32 entries and loading it back yields the same count and table |
| VolumeFacts.FormatThenLoad | fs/myfs.cpp:35-47 | a formatted device passes the header check and loads as an empty table |
| VolumeFacts.SavedImageKeepsWrite | fs/myfs.cpp:133-137 | content written at or above `DATA_START` survives the save that follows, provided the table has at most `MAX_FILES` entries |
| VolumeFacts.ContentOfFile | fs/myfs.cpp:103-111 | get_content of a found file is the C string of its extent's bytes, including the size-0 shortcut |
| VolumeFacts.SetThenGet | fs/myfs.cpp:123-138 | after set_content, get_content returns the content up to its first NUL, provided the table has at most `MAX_FILES` entries, the file's extent starts at or above `DATA_START` and the content is shorter than 2^32 bytes |
| VolumeFacts.SetThenGetExact | fs/myfs.cpp:107-111 | after set_content, get_content returns the content exactly iff it holds no NUL, under the same three conditions as `VolumeFacts.SetThenGet` |
| VolumeFacts.CreateKeepsNamesDistinct | fs/myfs.cpp:55-62 | creating a name of at most 19 bytes that was not found keeps names distinct |
| VolumeFacts.LongNameEscapesDuplicateCheck | fs/myfs.cpp:56-62 | a name of 20 or more bytes whose stored form already exists is not found, and creating it duplicates a name |
| VolumeFacts.RemoveThenLookupFails | fs/myfs.cpp:159-172 | with distinct names, a removed name can no longer be found |
| Shell.NextSpace | fs/vfs.cpp:38 | getline's scan stops at a space or at the end of the line |
| Shell.NextSpaceSkipsNonSpaces | fs/vfs.cpp:38 | no space lies before where the scan stops |
| Shell.NextSpaceIs | fs/vfs.cpp:38 | a space-free stretch that ends at a space or the end of the line is exactly where the scan stops |
| Shell.Tokens | fs/vfs.cpp:55-60 | a non-empty line yields at least one token, so `cmd[0]` exists |
| Shell.ScanPart | fs/vfs.cpp:38 | the scan stops at the first space at or after the position, or at the end |
| Shell.SplitCmd | fs/vfs.cpp:33-42 | the getline loop returns exactly the tokens of the line |
| Shell.TokensHaveNoSpace | fs/vfs.cpp:33-42 | no token contains a space |
| Shell.JoinTokens | fs/vfs.cpp:38-39 | joining the tokens with single spaces gives back the line, less one trailing space |
| Shell.EmptyPartAfterSpace | fs/vfs.cpp:38-39 | a getline that starts at a space extracts an empty part and resumes after that space |
| Shell.TokensResumeAfterSpace | fs/vfs.cpp:38-39 | every space of the line is consumed by some getline, so the tokenizer resumes just after it |
| Shell.ConsecutiveSpaces | fs/vfs.cpp:38-39 | two spaces in a row anywhere in a line yield an empty token between them in `split_cmd`'s result |
| Shell.InDirIsPrefix | fs/vfs.cpp:120 | a name lies under dirname iff it starts with `dirname + "/"`; the inequality test is implied |
| Shell.DirIsEmpty | fs/vfs.cpp:115-124 | the scan reports empty iff no listed name lies under dirname |
| Shell.Rmdir | fs/vfs.cpp:109-130 | refuses with DirNotEmpty, changing nothing, iff some entry lies under dirname; otherwise reports NotFound, changing nothing, iff dirname is not found, and else removes it and saves the table as remove_file does |
| Shell.Mv | fs/vfs.cpp:131-146 | a missing source changes nothing; otherwise only that entry's name changes, to the stored form of dst, the count stays and the table is saved |
| Shell.Renamed | fs/vfs.cpp:143-144 | the rename changes only the name of entry k; size, start, flag and every other entry stay |
| Shell.RenameKeepsDistinctIff | fs/vfs.cpp:143-146 | names stay distinct after `mv` iff no other entry already bears the new stored name |
| Shell.CommandOf | fs/vfs.cpp:60-149 | a word falls through to the unknown-command branch iff it is none of the ten command names |
| Shell.CommandNamesSelectTheirBranch | fs/vfs.cpp:9-18 | each command name selects its own branch of the dispatch |
| Shell.RunCommand | fs/vfs.cpp:55-151 | an empty line does nothing; exit quits, help shows help, a missing operand gets a usage reply, an unknown word is reported; only a mutating command with enough operands changes the volume; ls, cat, touch, mkdir, edit and rm give the engine's answer, and a failing rm replies NotFound while a failing edit replies NotFound or IsDirectory as the engine threw |
| Volume.MyFs.Valid | fs/myfs.cpp:81 | the class invariant: `num_files` is the table length as a `uint32_t`, every name fits its field, and the record size is feasible |
| Layout.IsMyFsHeader | fs/myfs.cpp:20-21 | the constructor's test: the 4 magic bytes are "MYFS" and the version byte is 1 |
| Alloc.End | fs/myfs.cpp:68 | an extent's end, `block_start + size` as a 32-bit sum |
| Alloc.BumpStart | fs/myfs.cpp:66-78 | the start `create_file` gives a new entry: the rounded-up maximum end |
| Volume.Lookup | fs/myfs.cpp:176-183 | `strcmp(entry.name, path.c_str())`: the first entry named by the path's C string |
| Volume.ContentAt | fs/myfs.cpp:93-115 | what `get_content` returns for a table and device: NotFound, IsDirectory, empty for size 0, else the C string of the extent |
| Volume.SavedImage | fs/myfs.cpp:188-196 | the device after a save: the count at `METADATA_OFFSET`, then the records at `FILE_ENTRY_OFFSET` if any |
| Volume.LoadedCount | fs/myfs.cpp:202 | the count a load reads from the metadata block |
| Volume.LoadedTable | fs/myfs.cpp:204-211 | the table a load reads: that many records, or none for a zero count |
| Volume.FormattedImage | fs/myfs.cpp:35-47 | the device after `format`: a fresh header and a zero count; no records are written |
| Shell.TokensFrom | fs/vfs.cpp:38-39 | the parts repeated getline extracts from a position on; a trailing space adds no empty part |
| Shell.InDir | fs/vfs.cpp:120 | `fname != dirname && fname.rfind(dirname + "/", 0) == 0` |
| Shell.Arity | fs/vfs.cpp:75-135 | the operand count each command's usage check asks for: one for touch, cat, edit, rm, mkdir and rmdir, two for mv |
| Shell.TooFewOperands | fs/vfs.cpp:75-135 | the usage checks `cmd.size() < 2` and, for mv, `cmd.size() < 3` |

## Left out

- The block device's implementation is not part of this model. It is
  taken as an infallible byte sequence: a read past the end sees zero
  bytes, and a write past the end extends the device.
- `sizeof(FileEntry)` depends on the ABI's padding, so it is the parameter
  `entrySize`. Only the model constrains it: at least 29 bytes, with
  `DATA_START` below 2^32. The padding bytes are written as zeros, where the
  program writes whatever the struct holds.
- The byte order of `uint32_t` is taken to be little-endian.
- A name field read from a corrupted device may hold 20 bytes with no NUL.
  The model reads it as those 20 bytes, where the program would read past
  the field.
- Console I/O is left out: the constructor's messages, the `run_vfs` loop,
  the prompt, the help text and the printing of `ls` and `cat`. One round
  of the loop is `Shell.RunCommand`. The line read from the console and the
  content line `edit` reads are parameters, and what would be printed is a
  `Reply`.
- End of input on the console is not modelled.
- Exceptions are error values. The shell's `catch` becomes the `Error`
  reply.
- Shell.RunCommand: does not restate every effect of the methods it calls.
  The reply of `rmdir` and `mv` is left to `Shell.Rmdir` and `Shell.Mv`.
  The new table after `edit` and `rm` is left to `Volume.MyFs.SetContent`
  and `Volume.MyFs.RemoveFile`. The device image after `touch`, `mkdir`,
  `edit` and `rm` is left to `Volume.MyFs.CreateFile`,
  `Volume.MyFs.SetContent` and `Volume.MyFs.RemoveFile`.
- Alloc.BumpStartIsLeastAlignedBound: holds only when no 32-bit sum wraps.
  `Alloc.WrappedEndIsIgnored` shows what happens when one does.
- VolumeFacts.SetThenGet, VolumeFacts.SetThenGetExact and
  VolumeFacts.SavedImageKeepsWrite: hold only while the table has at most
  `MAX_FILES` entries and the extent starts at or above `DATA_START`. An
  extent can start below `DATA_START` when the allocator wraps, and the
  table outgrows its reserved space after more than 100 creates. In either
  case the save after a write overwrites part of the content. The first two
  also need content shorter than 2^32 bytes: a longer content's stored
  `size` wraps modulo 2^32, so get_content reads too few bytes.
- VolumeFacts.SaveKeepsDataRegion: needs at most `MAX_FILES` entries.
  `create_file` never enforces that limit, so a longer table overwrites the
  start of the data region.
