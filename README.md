# ar_archive_writer: archive layout and symbol index, in Dafny

This project models the core of `ar_archive_writer`, a Rust port of LLVM's archive
writer: the code that turns a list of members into the bytes of a Unix `ar` archive
in one of the GNU, GNU64, BSD, Darwin, Darwin64 or COFF formats. It then proves
properties of that model.

The core is `write_archive_to_stream` and the functions it relies on.

- **Member headers.** A header is a name field, then the modification time, uid, gid,
  octal mode and size, each left-justified and space-padded, and it ends with "`\n".
  It is 60 bytes when the member name is ASCII and the mtime, mode and size fit their 12-,
  8- and 10-character fields (`MemberHeaders.RestFits`); uid and gid are reduced modulo
  10^6, but the other fields are never truncated, so a larger value makes the header
  longer. Short names are stored inline, padded
  with `{:<16}`, which Rust counts in chars: a name with multi-byte UTF-8 chars makes
  the header longer by its continuation bytes. BSD formats use `#1/<len>` and put the
  name in front of the data, padded with NULs so that the data starts on an 8-byte
  boundary. GNU and COFF formats refer to a long name as `/<offset>` into the `//`
  member, and a repeated name is stored only once.
- **Per-member layout** (`compute_member_data`).
  - On Darwin the data is padded to 8 bytes, then every member is padded to an even
    length with `\n`.
  - A member whose size does not fit ten decimal digits is rejected.
  - On Darwin, members with the same name get distinct non-zero timestamps.
  - Each member's object reader lists the symbols it defines. They are collected into
    the symbol-name table and, for COFF, into a sorted symbol map (`SymMap`) where the
    first member to define a name wins.
  - An archive with members but no symbols gets the symbol-name table "\0\0\0", except
    for COFF.
- **The symbol index** is sized before anything is written, because every offset it
  holds must already be known.
  - The first member is the GNU or COFF first linker member, or the BSD `__.SYMDEF`.
    It holds one entry per symbol, and the entry is the offset of the member that
    defines it.
  - COFF adds the second linker member, with member offsets, 1-based u16 indices and
    names in ascending byte order. It also adds the `/<ECSYMBOLS>` map.
  - Offsets are 4 or 8 bytes: little-endian for BSD formats, big-endian otherwise.
- **Orchestration** (`write_archive_to_stream`).
  - COFF falls back to GNU when there are more than 0xfffe members.
  - The writer switches to GNU64 or Darwin64 when the last member header would start
    at or past 4 GiB.
  - Then it writes the magic, the symbol table, the COFF map, the `//` member, the EC
    symbols and the members.
- **Helpers.** Power-of-two alignment by bitmask (`align_to`, `offset_to_alignment`,
  `align_to_power_of2`), the ARM64EC name mangling and demangling rules, and the COFF
  machine-type codes and predicates.

The writer is modelled twice. `ArchiveWriter.ArchiveOutcome` is the code as written,
and `ArchiveWriter.WriteArchiveToStream` computes it. `ArchiveWriter.CorrectedOutcome`
is the same writer with the three defects under "## Findings" corrected. The two agree
on every archive with fewer than 65536 members, whose COFF last member ends below
4 GiB, and that does not write EC symbols after widening (`ArchiveProperties.WritersAgree`).

The writer as written is characterised as follows (`ArchiveProperties.WriterPanicsExactlyWhen`,
`WriterFails`, `WriterFailsFirst`, `WrittenAsWritten`):

- it panics exactly when a thin archive of a BSD-like kind is requested, when a
  65536th member is reached whose earlier members all pass and which is not too big, or
  when a planned COFF archive's last member ends at or past 4 GiB or its EC map has
  2^32 entries or more;
- otherwise it fails exactly when some member is too big or its reader fails, and then
  with the error of the first member that does not pass;
- otherwise it writes the corrected archive's bytes, with `/<ECSYMBOLS>` inserted
  before the members when a widened COFF archive has EC symbols.

For the corrected writer, the central result is that the precomputed headers size is
the number of bytes written in front of the members (`ArchiveLayout.PrefixLength`). As
a consequence, every offset in the written index reads back as the position of the
member that defines the symbol, and that member's header, data and padding are found
there (`ArchiveProperties.WrittenIndexLocatesMember`). It panics only for a thin
BSD-like archive (`ArchiveProperties.CorrectedPanicsOnlyOnThinBsd`) and otherwise fails
exactly when some member does not pass (`ArchiveProperties.CorrectedFails`).

The model is organised in modules that follow the source:

| module | file | models |
|---|---|---|
| `Bytes`, `Bits` | bytes.dfy, bits.dfy | byte types, decimal/octal rendering, endianness, bitwise AND/NOT on `u64` |
| `Alignment`, `MathExtras` | alignment.dfy, math_extras.dfy | src/alignment.rs, src/math_extras.rs |
| `Coff`, `Mangler` | coff.dfy, mangler.dfy | src/coff.rs, src/mangler.rs |
| `Archive` | archive.dfy | `ArchiveKind`, `MAX_MEMBER_SIZE`, the import-descriptor names, `ObjectReader`, `NewArchiveMember`, `MemberData`, the kind predicates |
| `OrderedMaps` | ordered_map.dfy | the `BTreeMap<Box<[u8]>, u16>` of `SymMap`, as a sorted entry list |
| `MemberHeaders` | member_header.dfy | the header printers, `use_string_table`, `compute_string_table` |
| `SymbolTables` | symbol_table.dfy | `print_n_bits`, the size computations, `write_symbol_table(_header)`, `write_symbol_map`, `write_ec_symbols` |
| `SymbolCollection` | symbols.dfy | `write_symbols` and its callback |
| `MemberLayout`, `LayoutFacts`, `LayoutProperties` | member_data.dfy, layout_facts.dfy, layout_props.dfy | `compute_member_data` and what its fold guarantees |
| `ArchiveWriter`, `ArchiveLayout`, `ArchiveProperties` | archive_writer.dfy, archive_layout.dfy, archive_props.dfy | `compute_headers_size`, `write_archive_to_stream` and the end-to-end properties |

The model uses these conventions:

- **Writers.** Every `io::Write` target (the output stream, the `string_table` and
  `sym_names` cursors, a header buffer) is a `seq<u8>`: a write appends to it, and its
  stream position is its length.
- **Imperative code.** The loops of the source are methods with `while` loops, each
  proved equal to a specification function. State passed as `&mut` (`pos`, the
  cursors, `member_names`, `sym_map`) becomes in/out parameters.
- **Whole writer.** `write_archive_to_stream` is `ArchiveWriter.WriteArchiveToStream`,
  proved to compute `ArchiveWriter.ArchiveOutcome`. It returns an `Outcome`:
  `Written(bytes)`, `Failed(error)` for a returned `io::Error`, or `Panicked` for an
  `unwrap`/`assert!` that fails. Inside the layout, a stop is a `Failure`: `Returned`
  with the error, or `Panic`.
- **Narrowing.** The u16 member index is computed under a `Narrowing`: `Checked` is the
  source's `try_into().unwrap()`, which panics at 65536; `Wrapping` is the corrected
  truncation. The writer as written uses `Checked`, the corrected writer `Wrapping`.
- **Offsets.** Offsets are unbounded naturals. Each u16 or u32 conversion in the source
  is an explicit check that leads to `Panicked` when it would fail. The u64 conversions
  of lengths are taken to succeed (see "## Left out").

## Model

| member | source | states |
|---|---|---|
| Alignment.AlignUp | src/alignment.rs:6-9 | the reference rounding: a multiple of `a` in `[size, size + a)` |
| Alignment.AlignUpUnique | src/alignment.rs:6-9 | that multiple is unique, so AlignUp is the least multiple of `a` at or above `size` |
| Alignment.AlignUpIdempotent | src/alignment.rs:6-9 | rounding an already rounded value changes nothing |
| Alignment.AlignTo | src/alignment.rs:7-9 | the bitmask `(size + align - 1) & !(align - 1)` never exceeds `size + align - 1` |
| Alignment.AlignToIsAlignUp | src/alignment.rs:7-9 | for a power-of-two `align` without overflow, the bitmask result is the arithmetic round-up |
| Alignment.AlignToIsAlignUpMask | src/alignment.rs:8 | the AND with `!(align - 1)` on 64 bits clears exactly the low bits, giving the round-up |
| Alignment.AlignToBounds | src/alignment.rs:7-9 | `align_to` is a multiple of `align` with `size <= r < size + align` |
| Alignment.AlignToIdempotent | src/alignment.rs:7-9 | `align_to(align_to(x, a), a) == align_to(x, a)`, and the second call cannot overflow |
| Alignment.PaddingTo | src/alignment.rs:19-21 | the reference padding: below `a`, and `v` plus it is a multiple of `a` |
| Alignment.OffsetToAlignment | src/alignment.rs:19-21 | `offset_to_alignment(v, a)` equals that padding, so it lies in `[0, a)` and `v + r` is aligned |
| Bits.PowerOf2Test | src/math_extras.rs:7-10 | the asserted test `align != 0 && align & (align - 1) == 0` holds exactly for the powers of two |
| MathExtras.NegAlign | src/math_extras.rs:13 | `!align + 1` on u64 is the two's-complement negation `2^64 - align` and equals the mask `!(align - 1)` |
| MathExtras.AlignToPowerOf2 | src/math_extras.rs:6-15 | it panics (None) exactly when `align` is not a power of two; otherwise it is a multiple of `align` in `[value, value + align)` |
| MathExtras.AlignToPowerOf2Mask | src/math_extras.rs:14 | masking with `neg_align` rounds `value` up to the next multiple of `align` |
| MathExtras.AlignToPowerOf2Least | src/math_extras.rs:14 | the result is at most every multiple of `align` that is at least `value`, so it is the least one |
| MathExtras.AlignToPowerOf2IsAlignTo | src/math_extras.rs:14 | for a power of two it agrees with `align_to` of src/alignment.rs |
| Coff.MachineCode | src/coff.rs:9-22 | the u16 discriminants, for example AMD64 = 0x8664 and I386 = 0x14C |
| Coff.MachineCodeRoundTrip | src/coff.rs:9-22 | every machine type is read back from its code |
| Coff.MachineCodeInjective | src/coff.rs:9-22 | two machine types have the same code exactly when they are the same |
| Coff.MachinePredicates | src/coff.rs:24-34 | `is_arm64ec` holds for ARM64EC and ARM64X; `is_any_arm64` also holds for ARM64; `is_64_bit` also holds for AMD64; `!is_64_bit` exactly for I386 and ARMNT |
| Coff.MachinePredicateChain | src/coff.rs:24-34 | `is_arm64ec` implies `is_any_arm64`, which implies `is_64_bit` |
| Coff.ImportTypeCode | src/coff.rs:38-51 | the `ImportType` discriminants lie in 0..2 |
| Coff.ImportNameTypeCode | src/coff.rs:55-78 | the `ImportNameType` discriminants lie in 0..4 |
| Coff.ImportCodesRoundTrip | src/coff.rs:38-78 | both conversions are bijections onto 0..2 and 0..4, in both directions |
| Mangler.Find | src/mangler.rs:18-22 | `str::find`: the pattern occurs at the result and nowhere before it; None means it occurs nowhere |
| Mangler.InsertIndex | src/mangler.rs:17-27 | the insertion point lies inside the name and, for a non-empty name, after its first character |
| Mangler.Mangle | src/mangler.rs:6-34 | None exactly for a '?' name containing "$$h" or a name starting with '#'; otherwise the output is 3 ("$$h") or 1 ('#') bytes longer |
| Mangler.MangleNonCpp | src/mangler.rs:24-33 | a name starting with neither '?' nor '#' mangles to "#" + name |
| Mangler.FirstTripleAt | src/mangler.rs:19 | the guard `Some(i) != find("@@@")` fails exactly when a third '@' follows the first "@@" |
| Mangler.InsertIndexCases | src/mangler.rs:17-23 | "$$h" goes after the first "@@" unless a third '@' follows; otherwise after the first '@'; otherwise at the end |
| Mangler.MangleCpp | src/mangler.rs:29-33 | a '?' name without "$$h" becomes its prefix up to the insertion point, "$$h", then the rest |
| Mangler.Demangle | src/mangler.rs:36-49 | a leading '#' is stripped; a leading '?' gives Some exactly when "$$h" occurs with something after it, and the result is the name with that first "$$h" removed; any other first character gives None; a result is 1 or 3 bytes shorter |
| Mangler.MangleRoundTripNonCpp | src/mangler.rs:6-49 | `demangle(mangle(n)) == Some(n)` for names starting with neither '?' nor '#' |
| Mangler.MangleRoundTripCpp | src/mangler.rs:6-49 | for a '?' name without "$$h": demangling the mangled name gives it back when "$$h" was not appended at the end, and None when it was (nothing follows "$$h") |
| Archive.KindFamilies | src/archive_writer.rs:44-61 | Darwin kinds are BSD-like; COFF is neither BSD-like nor 64-bit; the 64-bit kinds are exactly GNU64, Darwin64 and AIX big; the BSD-like ones exactly BSD, Darwin and Darwin64 |
| Archive.IsDarwin | src/archive_writer.rs:44-46 | Darwin and Darwin64; its relation to the other predicates is stated by Archive.KindFamilies |
| Archive.IsAixBigArchive | src/archive_writer.rs:48-50 | the AIX big format only |
| Archive.IsCoffArchive | src/archive_writer.rs:52-54 | COFF only |
| Archive.IsBsdLike | src/archive_writer.rs:56-61 | BSD, Darwin and Darwin64, as Archive.KindFamilies states |
| Archive.Is64BitKind | src/archive_writer.rs:163-168 | GNU64, Darwin64 and AIX big, as Archive.KindFamilies states |
| Archive.IsImportDescriptor | src/archive_writer.rs:525-530 | a name with the import-descriptor prefix, the null import descriptor, or the null-thunk prefix and suffix; SymbolCollection.ImportDescriptorsAre relates it to the names collected |
| Bytes.CharCount | src/archive_writer.rs:84-95 | the chars of a UTF-8 text, counted as the bytes that do not continue a sequence, are never more than its bytes |
| Bytes.CharCountAppend | src/archive_writer.rs:84-95 | the chars of a concatenation are the sum of the chars of its parts |
| Bytes.AsciiCharCount | src/archive_writer.rs:84-95 | in ASCII text every byte is a char |
| Bytes.PadChars | src/archive_writer.rs:84-95 | `{:<w}` keeps the text, appends only spaces, never truncates, and the result holds max(chars, w) chars; it is `w - chars` bytes longer when the text holds fewer than `w` chars |
| MemberHeaders.Field | src/archive_writer.rs:63-82 | a left-justified field is never shorter than its width, so padding never truncates |
| MemberHeaders.FieldFits | src/archive_writer.rs:63-82 | a value below base^width fills exactly its width and reads back as itself |
| MemberHeaders.RestOfMemberHeader | src/archive_writer.rs:63-82 | the rest of a header is at least 44 bytes and ends with "`\n" |
| MemberHeaders.RestOfMemberHeaderLength | src/archive_writer.rs:63-82 | it is exactly 44 bytes when mtime, perms and size fit their widths |
| MemberHeaders.RestOfMemberHeaderFields | src/archive_writer.rs:63-82 | mtime in bytes 0-12, uid mod 10^6 in 12-18 and gid mod 10^6 in 18-24, the mode in octal in 24-32, the size in 32-42, "`\n" in 42-44 |
| MemberHeaders.GnuSmallMemberHeader | src/archive_writer.rs:84-95 | a short GNU header is at least 60 bytes, at least the name plus 45, and starts with the name and '/' |
| MemberHeaders.GnuSmallMemberHeaderLayout | src/archive_writer.rs:84-95 | for a name below 16 chars: name + "/", spaces until the field holds 16 chars (16 bytes plus the name's UTF-8 continuation bytes), then the rest of the header in place; exactly 60 bytes when the name is ASCII |
| MemberHeaders.BsdNamePad | src/archive_writer.rs:97-120 | the NUL padding after a BSD name is below 8 and makes `pos + 60 + len + pad` a multiple of 8 |
| MemberHeaders.BsdMemberHeader | src/archive_writer.rs:97-120 | a BSD header starts "#1/", is at least 60 bytes plus the name and its padding, and ends with the name followed by the NUL padding |
| MemberHeaders.BsdMemberHeaderLayout | src/archive_writer.rs:97-120 | a BSD header is `60 + len + pad` bytes ending 8-aligned: "#1/", the name field `len + pad`, the size field `len + pad + size`, the name, then NULs |
| MemberHeaders.BsdMemberHeaderFields | src/archive_writer.rs:97-120 | the same header split into prefix, name field, rest, name and `pad` NULs, with what the fields read back as |
| MemberHeaders.UseStringTableCases | src/archive_writer.rs:159-161 | the long-name table is avoided exactly for a non-thin archive and a name below 16 bytes without '/'; the inline field then holds exactly 16 chars, which is 16 bytes plus the continuation bytes, and exactly 16 bytes for an ASCII name |
| MemberHeaders.UseStringTable | src/archive_writer.rs:159-161 | thin, a name of 16 bytes or more, or a name containing '/'; MemberHeaders.UseStringTableCases states its negation |
| MemberHeaders.NameEntry | src/archive_writer.rs:197-211 | a table entry is the name followed by "\0" (non-thin COFF) or "/\n" (otherwise) |
| MemberHeaders.LongNameHeader | src/archive_writer.rs:196-214 | '/', the offset left-justified in 15 bytes, then the rest; MemberHeaders.LongNameHeaderLayout states its layout |
| MemberHeaders.LongNameHeaderLayout | src/archive_writer.rs:196-214 | a reference header is 60 bytes: '/', then a 15-byte field that reads back as the table offset, then the rest |
| MemberHeaders.PrintMemberHeader | src/archive_writer.rs:170-216 | a BSD header starts "#1/" and is at least 60 bytes plus the name; an inline header starts with name + '/'; both leave the table and the recorded names alone; a long name refers to its earlier offset (non-thin, seen before: table and names unchanged) or to the table's end, where its entry is appended and, outside thin archives, the name is recorded at that offset |
| MemberHeaders.PrintMemberHeaderKeepsNames | src/archive_writer.rs:196-211 | in a non-thin archive every recorded name stays at its offset, the table only grows, and a long name is recorded |
| MemberHeaders.AddName | src/archive_writer.rs:205-211 | recording a new name at the old end of the table, then appending its entry, keeps every recorded name at its offset |
| MemberHeaders.StringTableMember | src/archive_writer.rs:227-242 | the `//` member holds the names, no symbols and '\n' padding, with an even total |
| MemberHeaders.StringTableMemberLayout | src/archive_writer.rs:227-242 | its header is 60 bytes starting "//", the size field reads back as the padded length, and the pad is at most one byte |
| SymbolTables.PrintNBits | src/archive_writer.rs:250-264 | an offset takes 8 bytes for 64-bit kinds and 4 otherwise |
| SymbolTables.PrintNBitsRoundTrip | src/archive_writer.rs:250-264 | a value it accepts reads back, little-endian for BSD-like kinds and big-endian otherwise |
| SymbolTables.ComputeSymbolTableSizeAndPad | src/archive_writer.rs:266-297 | the size is a multiple of 8 (BSD-like) or 2 with the pad below that, and it covers the count, the entries and the names |
| SymbolTables.SymbolTableHeaderPosition | src/archive_writer.rs:326-357 | the symbol table header depends on the stream position only modulo 8 |
| SymbolTables.SymbolTableNamePad | src/archive_writer.rs:326-357 | at an 8-aligned position the BSD `__.SYMDEF` name gets 3 NULs of padding, and `__.SYMDEF_64` none |
| SymbolTables.SymbolTableHeaderLength | src/archive_writer.rs:326-357 | the header is 72 bytes for BSD-like kinds (ending 8-aligned) and 60 otherwise |
| SymbolTables.MemberIndexEntries | src/archive_writer.rs:433-438 | a member contributes one entry per symbol, in order, each with the member's offset |
| SymbolTables.IndexEntries | src/archive_writer.rs:423-440 | the first `n` members contribute as many entries as they have symbols |
| SymbolTables.IndexEntriesAt | src/archive_writer.rs:423-440 | symbol `k` of member `i` is entry `SymbolsBefore(i) + k`, and its member offset is `members_offset` plus the sizes of all earlier members |
| SymbolTables.SymbolEntry | src/archive_writer.rs:433-438 | each entry has the same width |
| SymbolTables.SymbolEntryFields | src/archive_writer.rs:433-438 | an entry ends with the member offset, preceded on BSD-like kinds by the string offset |
| SymbolTables.PrintedEntriesLength | src/archive_writer.rs:423-440 | `n` printed entries take `n` entry widths |
| SymbolTables.PrintedMembersAreTable | src/archive_writer.rs:423-440 | printing member by member gives the same bytes as printing the flat entry list |
| SymbolTables.SymbolTableBodySize | src/archive_writer.rs:391-455 | `write_symbol_table` writes exactly the precomputed number of body bytes |
| SymbolTables.SymbolTableBodyParts | src/archive_writer.rs:417-455 | the body is the count field, all entries in member order, then the rest |
| SymbolTables.SymbolTableEntryAt | src/archive_writer.rs:423-440 | entry `j` lies inside the body and its fields are its offsets as printed |
| SymbolTables.SymbolTableEntryDecodes | src/archive_writer.rs:391-455 | the entry for symbol `k` of member `i` reads back as `members_offset` plus the earlier members' sizes, and on BSD as the symbol's string offset |
| SymbolTables.SymbolTable | src/archive_writer.rs:391-455 | nothing when skipped, otherwise the header and the body; SymbolTables.WriteSymbolTable computes it and SymbolTables.SymbolTableBodySize gives its size |
| SymbolTables.WriteSymbolEntry | src/archive_writer.rs:434-437 | one entry: the string offset on BSD-like kinds, then the member offset |
| SymbolTables.WriteMemberEntries | src/archive_writer.rs:433-438 | the inner loop prints the member's entries |
| SymbolTables.WriteEntries | src/archive_writer.rs:423-440 | the member loop, carrying `pos`, prints every entry of the table |
| SymbolTables.WriteSymbolTable | src/archive_writer.rs:391-455 | it writes nothing when skipped, otherwise the header, the count, the entries, the string table and the NUL pad |
| SymbolTables.MapTableSize | src/archive_writer.rs:299-311 | a map part takes 4 bytes for the count, 2 per index and each name with its NUL |
| SymbolTables.SymbolMapSize | src/archive_writer.rs:299-311 | the second linker member's size is even, and it exceeds the member offsets plus the map by at most one pad byte |
| SymbolTables.EcSymbolsSize | src/archive_writer.rs:313-324 | the EC map's size is even and at most one pad byte over the map part |
| SymbolTables.MapEntriesSize | src/archive_writer.rs:303-306 | the loop over the map adds up the index and name bytes |
| SymbolTables.ComputeSymbolMapSizeAndPad | src/archive_writer.rs:299-311 | size = 4 + 4 per member + map part + pad, with pad below 2 |
| SymbolTables.ComputeEcSymbolsSizeAndPad | src/archive_writer.rs:313-324 | size = map part + pad, with pad below 2 |
| SymbolTables.IndexBytes | src/archive_writer.rs:483-485 | two bytes per index |
| SymbolTables.MemberOffsetTable | src/archive_writer.rs:470-479 | four bytes per member offset |
| SymbolTables.SymbolMapBody | src/archive_writer.rs:469-489 | the body is the member count, the member offsets and the map part |
| SymbolTables.WriteMemberOffsets | src/archive_writer.rs:467-479 | the offset loop as written: it returns the corrected little-endian u32 member starts exactly when the last member ends below 2^32, and panics (None) otherwise; it computes SymbolMapOffsetsAsWritten |
| SymbolTables.WriteIndices | src/archive_writer.rs:483-485 | the loop over `values()` writes each index as a little-endian u16 |
| SymbolTables.WriteNames | src/archive_writer.rs:486-489 | the loop over `keys()` writes each name followed by a NUL |
| SymbolTables.WriteMapTable | src/archive_writer.rs:481-489 | the count, the indices and the names, in key order |
| SymbolTables.WriteSymbolMap | src/archive_writer.rs:457-498 | `write_symbol_map` as written: it succeeds exactly when SymbolMapFitsAsWritten holds (the members end below 2^32 and both counts fit a u32), and then it writes SymbolMapMember: the header, the body and the NUL pad |
| SymbolTables.SymbolMapMember | src/archive_writer.rs:457-498 | the corrected second linker member: header, body and NUL padding to an even size; SymbolTables.SymbolMapMemberLength gives its length |
| SymbolTables.SymbolMapFitsAsWritten | src/archive_writer.rs:467-481 | what the map as written needs: the last member ending below 2^32 and both counts fitting a u32 |
| SymbolTables.SymbolMapFitsAsWrittenIs | src/archive_writer.rs:467-481 | that is the corrected condition, which asks only the member starts to fit, plus the end of the last member below 2^32 |
| SymbolTables.SymbolMapMemberLength | src/archive_writer.rs:457-498 | for COFF the second linker member takes 60 bytes plus the precomputed size |
| SymbolTables.OffsetLoopAsWritten | src/archive_writer.rs:470-479 | the loop as written, with its `checked_add` after every member, yields 4 bytes per member when it does not panic |
| SymbolTables.SymbolMapOffsetsAsWritten | src/archive_writer.rs:467-479 | the offsets part as written, including the u32 conversion of `members_offset` |
| SymbolTables.OffsetLoopAsWrittenIs | src/archive_writer.rs:470-479 | the loop succeeds exactly when the end of the last member is below 2^32, and then it writes the corrected offsets |
| SymbolTables.SymbolMapOffsetsAsWrittenPanics | src/archive_writer.rs:467-479 | it succeeds exactly when the last member ends below 2^32, and then it agrees with the corrected offsets |
| SymbolTables.SymbolMapOffsetsAsWrittenPanicsPastLastMember | src/archive_writer.rs:472-478 | a member starting at 100 and ending past 2^32 fits the map, yet the loop panics |
| SymbolTables.EcSymbolsMemberLength | src/archive_writer.rs:500-521 | `/<ECSYMBOLS>` takes 60 bytes plus the precomputed size |
| SymbolTables.EcSymbolsMember | src/archive_writer.rs:500-521 | a GNU header named `/<ECSYMBOLS>`, the EC map and NUL padding; SymbolTables.EcSymbolsMemberLength gives its length |
| SymbolTables.WriteEcSymbols | src/archive_writer.rs:500-521 | it writes a GNU header, the EC map part and the NUL pad |
| OrderedMaps.LessIrreflexive | src/archive_writer.rs:28-32 | the byte-string order of the `BTreeMap` keys is irreflexive |
| OrderedMaps.LessTransitive | src/archive_writer.rs:28-32 | and transitive |
| OrderedMaps.LessTotal | src/archive_writer.rs:28-32 | and total |
| OrderedMaps.ToMapEntries | src/archive_writer.rs:28-32 | a sorted entry list holds each key once, with the value of its entry |
| OrderedMaps.Get | src/archive_writer.rs:557-559 | a lookup finds a key exactly when the map holds it, with its value |
| OrderedMaps.Insert | src/archive_writer.rs:561 | inserting keeps the entries sorted and denotes the map updated at that key |
| OrderedMaps.Keys | src/archive_writer.rs:486 | the keys in entry order |
| OrderedMaps.Values | src/archive_writer.rs:483 | the values in entry order |
| SymbolCollection.Record | src/archive_writer.rs:564-566 | a recorded name gets the table's length as its offset, then it is appended with a NUL |
| SymbolCollection.AddSymbol | src/archive_writer.rs:555-580 | one callback keeps the map valid and whether there is one |
| SymbolCollection.Collect | src/archive_writer.rs:555-582 | the same over the first `n` reported names |
| SymbolCollection.CollectIgnoresIndex | src/archive_writer.rs:555-580 | without a map the member index does not matter |
| SymbolCollection.OnSymbol | src/archive_writer.rs:555-581 | the callback computes AddSymbol's new state |
| SymbolCollection.WriteSymbols | src/archive_writer.rs:534-584 | a reader error is returned; otherwise the offsets, the symbol names and the map are those of collecting every reported name |
| SymbolCollection.RecordLocates | src/archive_writer.rs:564-566 | recording a name keeps earlier names located and locates the new one |
| SymbolCollection.CollectWithoutMap | src/archive_writer.rs:576-579 | without a map every name is recorded, duplicates included, in order, each located at its offset |
| SymbolCollection.AddSymbolWithMap | src/archive_writer.rs:556-575 | with the main map, a name already present changes nothing; a new one is recorded, mapped to the index, and copied to the EC map when it is an import descriptor |
| SymbolCollection.CollectWithMap | src/archive_writer.rs:555-580 | with the main map only new names are recorded and located; the first index wins; import descriptors overwrite the EC map |
| SymbolCollection.ImportDescriptorsAre | src/archive_writer.rs:525-530 | the import descriptors among the names are exactly the names that satisfy `is_import_descriptor` |
| SymbolCollection.AddSymbolEcOnly | src/archive_writer.rs:545-561 | for an EC object with the EC map in use, nothing is recorded and the name enters the EC map if it is new there |
| SymbolCollection.CollectEcOnly | src/archive_writer.rs:545-561 | the same over all names: tables unchanged, the main map unchanged, and the first index wins in the EC map |
| MemberLayout.PaddingSum | src/archive_writer.rs:682-689 | member and tail padding together are below 8 (below 2 outside Darwin) and pad the data to 8 on Darwin, to 2 otherwise |
| MemberLayout.PaddingWithin | src/archive_writer.rs:682-689 | the padding fits in `PADDING_DATA` |
| MemberLayout.PaddingBytes | src/archive_writer.rs:682-689 | the padding bytes are as many as member plus tail padding |
| MemberLayout.PaddingsAreOffsets | src/archive_writer.rs:682-688 | both paddings are the `offset_to_alignment` calls of the source |
| MemberLayout.MemberPadding | src/archive_writer.rs:682-686 | the Darwin 8-byte data padding, 0 for other kinds; MemberLayout.PaddingSum bounds it |
| MemberLayout.TooBig | src/archive_writer.rs:699-705 | the size field (data plus member padding) exceeds MAX_MEMBER_SIZE; a member that is too big fails first (LayoutProperties.MemberStepFails) |
| MemberLayout.MemberMtime | src/archive_writer.rs:691-697 | the member's own mtime, or on Darwin its running name count if the name is repeated and 0 otherwise; LayoutProperties.DarwinTimestampsDistinct states what it guarantees |
| MemberLayout.MemberIndex | src/archive_writer.rs:771 | the u16 member index equals the 1-based index whenever it fits |
| MemberLayout.MemberIndexAsWritten | src/archive_writer.rs:771 | as written, the conversion succeeds exactly below 65536 |
| MemberLayout.MemberIndexAsWrittenPanicsAt65536 | src/archive_writer.rs:771 | the 65536th member panics, while every smaller index agrees with MemberIndex |
| MemberLayout.NarrowIndex | src/archive_writer.rs:771 | Checked narrowing fails exactly at 65536 and above; otherwise, and always under Wrapping, it yields MemberIndex |
| MemberLayout.MemberStep | src/archive_writer.rs:670-787 | one iteration: it succeeds exactly when the member is not too big, its index narrows and its reader succeeds; it panics exactly when the size check passes and the narrowing fails; on success it appends one member after the others, moves `pos` past it, only appends to the long-name table and keeps the layout valid |
| MemberLayout.Layouts | src/archive_writer.rs:670-787 | the fold over the first `n` members: on success it holds `n` more members, `pos` has not moved back and the layout stays valid |
| MemberLayout.LayoutsNext | src/archive_writer.rs:670-787 | one more member: an earlier error stays, otherwise the member is laid out after the others |
| MemberLayout.LayoutsErrPersists | src/archive_writer.rs:699-705 | once a member fails, the fold returns that error |
| MemberLayout.EmptySymbolTableRule | src/archive_writer.rs:792-794 | the symbol names are kept, or an empty table becomes "\0\0\0" |
| MemberLayout.CountNames | src/archive_writer.rs:655-659 | the first Darwin loop counts each name's occurrences |
| MemberLayout.DuplicateFlags | src/archive_writer.rs:660-662 | the second turns each count into "occurs more than once" |
| MemberLayout.NameCountBounds | src/archive_writer.rs:654-697 | a member's running count is at least 1 and at most its final count |
| MemberLayout.TimestampCounters | src/archive_writer.rs:654-663 | before the main loop each counter is the name's duplicate flag |
| MemberLayout.NextTimestamp | src/archive_writer.rs:691-697 | the Darwin counter step gives the member's timestamp and keeps the counting invariant |
| MemberLayout.LayOutMember | src/archive_writer.rs:670-787 | one iteration of the main loop as written (checked u16 index): it returns the fold's error or panic, or its member and state |
| MemberLayout.ComputeMemberData | src/archive_writer.rs:586-797 | `compute_member_data` as written returns the fold's first error or panic (`Checked` narrowing), or its members, string table, symbol names after the empty-table rule, and map |
| LayoutProperties.MemberStepFails | src/archive_writer.rs:699-775 | under either narrowing a member fails exactly when it does not pass (not too big, index narrows, reader succeeds), with MemberError: too big first, then the index panic, then the reader's error |
| LayoutProperties.MemberStepAppends | src/archive_writer.rs:778-786 | a member that passes is appended with its data and padding, and `pos` moves past it |
| LayoutProperties.LayoutsNextFails | src/archive_writer.rs:699-775 | after successful members, the next one fails exactly when it does not pass, with its MemberError |
| LayoutProperties.LayoutsOk | src/archive_writer.rs:670-787 | the fold succeeds exactly when all its members pass, under either narrowing |
| LayoutProperties.ComputedMembersOk | src/archive_writer.rs:586-797 | `compute_member_data` succeeds exactly when every member passes; as written that includes an index below 65536 |
| LayoutProperties.FirstError | src/archive_writer.rs:586-797 | when it stops, the stop is the MemberError (returned error or panic) of the first member that does not pass |
| LayoutProperties.FirstFailing | src/archive_writer.rs:670-787 | when not all of the first `n` members pass, there is a first one that does not |
| LayoutProperties.LayoutsNarrowingsAgree | src/archive_writer.rs:771 | below 65536 members the `Checked` and Wrapping folds are equal |
| LayoutProperties.MemberStepNarrowingsAgree | src/archive_writer.rs:771 | and so is each step with a 1-based index below 65536 |
| LayoutProperties.AllPassBound | src/archive_writer.rs:771 | as written, all members pass only when there are fewer than 65536 |
| LayoutProperties.CheckedLayoutsPanic | src/archive_writer.rs:771 | as written, the fold panics exactly when it reaches a 65536th member with every earlier member passing and that member not too big |
| LayoutProperties.CheckedLayoutsBound | src/archive_writer.rs:771 | a successful fold as written covers fewer than 65536 members |
| LayoutProperties.WrappingLayoutsReturn | src/archive_writer.rs:670-787 | with the corrected narrowing the fold never panics |
| LayoutProperties.LayoutsNextAppends | src/archive_writer.rs:778-786 | after successful members, a member that passes is appended with its data and padding, and `pos` advances by its size |
| LayoutProperties.LayoutsShape | src/archive_writer.rs:670-787 | a successful fold holds one member per input, with its stored bytes and padding, and `pos` is their total size |
| LayoutProperties.PaddingAligns | src/archive_writer.rs:674-689 | the padding is '\n' bytes that bring the stored data to a multiple of 8 on Darwin and of 2 otherwise |
| LayoutProperties.DarwinTimestampsDistinct | src/archive_writer.rs:654-697 | on Darwin two members with the same name get different timestamps, both at least 1 |
| LayoutProperties.DarwinTimestampOfUniqueName | src/archive_writer.rs:654-697 | a member whose name is unique gets timestamp 0 |
| LayoutProperties.MemberStepNoMap | src/archive_writer.rs:769-786 | without a map a passing member's reported names are appended to the symbol names and located by its offsets |
| LayoutProperties.LayoutsNoMap | src/archive_writer.rs:670-787 | without a map every member's symbol offsets locate its reported names in the final table |
| ArchiveWriter.Magic | src/archive_writer.rs:911-917 | the magic is 8 bytes |
| ArchiveWriter.MemberKind | src/archive_writer.rs:817-819 | COFF stays COFF only with at most 0xfffe members; otherwise it becomes GNU, and no other kind changes |
| ArchiveWriter.CoffMemberIndexExact | src/archive_writer.rs:817-819 | so in a COFF archive every 1-based member index fits a u16 exactly |
| ArchiveWriter.StringMemberSize | src/archive_writer.rs:833-844 | the `//` member's size is 0 exactly when no name went to the table |
| ArchiveWriter.MemberImage | src/archive_writer.rs:960-964 | a member's header, data and padding take its size |
| ArchiveWriter.StringMemberBytes | src/archive_writer.rs:949-954 | the `//` member as written takes that size |
| ArchiveWriter.MembersBytes | src/archive_writer.rs:960-964 | the first `n` members take the sum of their sizes |
| ArchiveWriter.MembersBytesAt | src/archive_writer.rs:960-964 | member `i` lies at the sum of the earlier members' sizes |
| ArchiveWriter.SymtabSize | src/archive_writer.rs:266-297 | the symbol table's size as `compute_symbol_table_size_and_pad` gives it; SymbolTables.ComputeSymbolTableSizeAndPad states its bounds |
| ArchiveWriter.LastHeaderOffset | src/archive_writer.rs:852-863 | the sum of the sizes of all members but the last; ArchiveWriter.MemberTotals states that it bounds every member's start |
| ArchiveWriter.HeadersSize | src/archive_writer.rs:359-386 | the headers size covers the magic, the symbol table, the `//` member and, with a map, the map and EC members |
| ArchiveWriter.MemberTotals | src/archive_writer.rs:852-863 | the loop gives where the last member ends and starts and the symbol count, and every member starts at or before the last |
| ArchiveWriter.FinalKind | src/archive_writer.rs:877-908 | the kind is kept when it is 64-bit or the last header starts below 2^32; otherwise Darwin becomes Darwin64 and the others GNU64 |
| ArchiveWriter.PlanFrom | src/archive_writer.rs:845-932 | the plan keeps the laid-out members and is never AIX |
| ArchiveWriter.PlanArchive | src/archive_writer.rs:806-932 | the plan for a narrowing, or the first member's stop; ArchiveProperties.PlanArchiveInvariant, PlanNarrowingsAgree and FailingMember state what it guarantees |
| ArchiveWriter.Writable | src/archive_writer.rs:919-963 | every value the corrected writer converts fits; ArchiveLayout.PlanWritable proves it for every plan |
| ArchiveWriter.WritableAsWritten | src/archive_writer.rs:467-504 | what the writer as written needs in addition: a COFF last member ending below 4 GiB and an EC map below 2^32 entries; ArchiveLayout.PlanWritableAsWritten reduces it to those |
| ArchiveWriter.EcWrittenAsWritten | src/archive_writer.rs:956-958 | as written, EC symbols are written whenever the EC map is not empty |
| ArchiveWriter.PrefixAsWritten | src/archive_writer.rs:911-958 | the bytes written before the members as written; ArchiveLayout.PrefixAsWrittenExtends relates them to the corrected prefix |
| ArchiveWriter.Stopped | src/archive_writer.rs:822-829 | a stop becomes a panic exactly when it is one, and a returned error becomes Failed with that error |
| ArchiveWriter.ArchiveOutcome | src/archive_writer.rs:799-964 | the writer as written; a thin BSD-like archive panics; ArchiveProperties.WriterPanicsExactlyWhen, WriterFails and WrittenAsWritten characterise it |
| ArchiveWriter.CorrectedOutcome | src/archive_writer.rs:799-964 | the writer with the Findings corrected; a thin BSD-like archive panics; ArchiveProperties.CorrectedPanicsOnlyOnThinBsd and CorrectedFails characterise it |
| ArchiveWriter.WriteMembers | src/archive_writer.rs:960-964 | the final loop writes every member's bytes in order |
| ArchiveWriter.PrepareArchive | src/archive_writer.rs:806-844 | everything before the first write, as written: it computes the `Checked` plan, or the first member's error or panic |
| ArchiveWriter.PlanLayout | src/archive_writer.rs:845-932 | the totals, the headers size and the widening check compute PlanFrom |
| ArchiveWriter.WritePrefix | src/archive_writer.rs:911-958 | the magic, the symbol table, the COFF map, the `//` member and the EC symbols as written: Some exactly when WritableAsWritten holds, and then PrefixAsWritten; None is the map's panic |
| ArchiveWriter.WriteMapPart | src/archive_writer.rs:945-947 | the COFF map as written: Some exactly when WritableAsWritten holds, and then the corrected map part |
| ArchiveWriter.WriteStringMember | src/archive_writer.rs:949-954 | the `//` member, or nothing for an empty table |
| ArchiveWriter.WriteEcPart | src/archive_writer.rs:956-958 | as written, `/<ECSYMBOLS>` whenever the EC map is not empty, and nothing otherwise |
| ArchiveWriter.WritePlanned | src/archive_writer.rs:911-964 | a plan is written as ArchiveBytesAsWritten exactly when WritableAsWritten holds, and panics otherwise |
| ArchiveWriter.WriteArchiveToStream | src/archive_writer.rs:799-964 | `write_archive_to_stream` computes ArchiveOutcome: a panic for a thin BSD-like archive, the first member's error or panic, a panic of the map or EC conversions, or the bytes as written |
| ArchiveLayout.StartsBelow | src/archive_writer.rs:896-908 | in a 32-bit plan every member starts below 4 GiB |
| ArchiveLayout.PlanSymbolTableFits | src/archive_writer.rs:933-943 | every value the symbol table writes fits its width |
| ArchiveLayout.PlanWritable | src/archive_writer.rs:919-963 | no conversion the corrected writer makes fails for a plan the writer makes |
| ArchiveLayout.SmallHeaders | src/archive_writer.rs:877-908 | in a 32-bit plan the index members' size fields fit ten digits |
| ArchiveLayout.SymtabLength | src/archive_writer.rs:933-943 | the written symbol table takes the header and size the headers size counted, or nothing when skipped |
| ArchiveLayout.CoffPartsLength | src/archive_writer.rs:945-958 | for COFF the header is 60 bytes, the map takes 60 plus its size, and EC symbols take 60 plus theirs or nothing |
| ArchiveLayout.CoffHeadersSize | src/archive_writer.rs:359-386 | the COFF headers size is the sum of those parts |
| ArchiveLayout.CoffPrefixLength | src/archive_writer.rs:911-958 | for COFF the bytes in front of the members are exactly the headers size |
| ArchiveLayout.OtherPrefixLength | src/archive_writer.rs:911-958 | for other kinds they are exactly where the members start |
| ArchiveLayout.PrefixLength | src/archive_writer.rs:359-386 | every plan the writer makes can be written, and what it writes before the members ends where the headers size says the members start |
| ArchiveLayout.SkippedTableCounted | src/archive_writer.rs:359-386 | when the symbol table is skipped, the headers size still counts its header and size |
| ArchiveLayout.PlanMemberAt | src/archive_writer.rs:960-964 | member `i`'s bytes lie after the prefix plus the earlier members |
| ArchiveLayout.PlanStartsWithMagic | src/archive_writer.rs:911-917 | the bytes start with the magic |
| ArchiveLayout.PlanSymbolTableAt | src/archive_writer.rs:933-943 | the symbol table header follows the magic at offset 8, and the body follows the header |
| ArchiveLayout.PlanNamesWithin | src/archive_writer.rs:877-886 | on BSD every string offset lies inside the symbol names, which lie inside the headers size |
| ArchiveLayout.PlanIndexEntry | src/archive_writer.rs:423-440 | an entry of the plan's table reads back as the headers size plus the earlier members' sizes |
| ArchiveLayout.PlanMemberPlaced | src/archive_writer.rs:960-964 | member `i` lies where the members start, plus the earlier members' sizes |
| ArchiveLayout.PrefixAsWrittenExtends | src/archive_writer.rs:956-958 | as written, the prefix is the corrected one plus `/<ECSYMBOLS>` exactly when the EC map is not empty and the kind is no longer COFF |
| ArchiveLayout.EcSymbolsShiftMembersAsWritten | src/archive_writer.rs:956-958 | a plan widened to GNU64 with EC symbols is writable as written, and writes 60 plus their size more than the headers size before the members |
| ArchiveLayout.PlanWritableAsWritten | src/archive_writer.rs:467-504 | for a plan the writer makes, the writer as written succeeds exactly when a COFF last member ends below 4 GiB and the EC map has fewer than 2^32 entries |
| ArchiveLayout.AsWrittenStartsWithMagic | src/archive_writer.rs:911-917 | the bytes as written start with the magic |
| ArchiveLayout.AsWrittenBytesAgree | src/archive_writer.rs:911-964 | when a COFF last member ends below 4 GiB and EC symbols are written only for COFF, the bytes as written are the corrected bytes |
| ArchiveProperties.PlanFromInvariant | src/archive_writer.rs:845-932 | the totals, headers size and widening give a plan that keeps the layout invariant |
| ArchiveProperties.PlanArchiveLayout | src/archive_writer.rs:811-932 | a plan comes from the layout of all the members, for the kind after the COFF fallback |
| ArchiveProperties.NoMapSymbolsBelow | src/archive_writer.rs:576-579 | without a map every symbol offset lies inside the symbol-name table |
| ArchiveProperties.LaidOutFacts | src/archive_writer.rs:822-829 | the layout holds one member per input, and BSD string offsets lie inside the names |
| ArchiveProperties.PlanArchiveInvariant | src/archive_writer.rs:806-932 | every plan the writer makes keeps the layout invariant |
| ArchiveProperties.PlanArchiveShaped | src/archive_writer.rs:822-829 | and holds one member per input, with its stored bytes and padding |
| ArchiveProperties.PlanNarrowingsAgree | src/archive_writer.rs:771 | below 65536 members the `Checked` and Wrapping plans are equal, and a Checked plan exists only below 65536 members |
| ArchiveProperties.PlanPanics | src/archive_writer.rs:771 | the `Checked` plan panics exactly when a 65536th member is reached with every earlier member passing and itself not too big |
| ArchiveProperties.WriterPanicsWhere | src/archive_writer.rs:806-964 | the writer as written panics exactly for a thin BSD-like archive, a panicking plan, or a plan that is not WritableAsWritten |
| ArchiveProperties.WriterPanicsExactlyWhen | src/archive_writer.rs:806-809 | the writer as written panics exactly for a thin BSD-like archive, for a 65536th member reached with all earlier members passing and itself not too big, or for a plan whose COFF last member ends at or past 4 GiB or whose EC map has 2^32 entries |
| ArchiveProperties.WriterFails | src/archive_writer.rs:822-829 | outside thin BSD-like archives, the writer as written fails exactly when the first member that does not pass stops with a returned error |
| ArchiveProperties.WriterFailsFirst | src/archive_writer.rs:822-829 | when member `j` is the first that does not pass, the writer as written (Checked) and the corrected one (Wrapping) stop with its MemberError |
| ArchiveProperties.FailingMember | src/archive_writer.rs:822-829 | a plan that stops has a first member that does not pass, and the stop is its MemberError |
| ArchiveProperties.CorrectedPanicsOnlyOnThinBsd | src/archive_writer.rs:806-809 | the corrected writer panics exactly when a thin archive of a BSD-like kind is requested |
| ArchiveProperties.PlanArchiveReturns | src/archive_writer.rs:822-829 | with the corrected narrowing no plan panics |
| ArchiveProperties.CorrectedFailsWithoutPlan | src/archive_writer.rs:822-829 | outside thin BSD-like archives the corrected writer fails exactly when its plan stops |
| ArchiveProperties.CorrectedFails | src/archive_writer.rs:822-829 | outside thin BSD-like archives the corrected writer fails exactly when some member does not pass |
| ArchiveProperties.WrittenAsWritten | src/archive_writer.rs:799-964 | an archive written as written comes from the same plan as the corrected one, and is the corrected prefix, `/<ECSYMBOLS>` when a widened COFF archive has EC symbols, then the members; without that insertion the corrected writer writes the same bytes |
| ArchiveProperties.WritersAgree | src/archive_writer.rs:799-964 | below 65536 members, with a COFF last member ending below 4 GiB and EC symbols only for COFF, both writers have the same outcome |
| ArchiveProperties.WrittenArchiveStartsWithMagic | src/archive_writer.rs:911-917 | an archive written by the writer as written starts with the thin or regular magic |
| ArchiveProperties.WrittenPlan | src/archive_writer.rs:919-964 | an archive written by the corrected writer is the bytes of its plan, which keeps the invariant |
| ArchiveProperties.WrittenMemberPlaced | src/archive_writer.rs:960-964 | in an archive written by the corrected writer, each input member's stored bytes and padding are found after the earlier members |
| ArchiveProperties.WrittenIndexLocatesMember | src/archive_writer.rs:933-964 | in an archive written by the corrected writer, the symbol table follows the magic; the entry for symbol `k` of member `i` reads back as the member's position, where its bytes lie; on BSD the string offset reads back as the symbol's |
| ArchiveProperties.NoMapIndexNames | src/archive_writer.rs:576-579 | outside COFF each symbol's string offset points at its reported name, followed by a NUL, in the symbol names |
| ArchiveProperties.EmptyRuleKeepsNames | src/archive_writer.rs:792-794 | the empty-table rule keeps every located name located |
| ArchiveProperties.NonEmptyArchiveHasIndex | src/archive_writer.rs:789-794 | a non-empty archive keeps its symbol table unless it was laid out for COFF and widened; a kept table puts the members at the headers size |
| ArchiveProperties.EcMapOnlyForCoff | src/archive_writer.rs:815-829 | an EC map is only filled for members laid out for COFF; the final kind is COFF or GNU64, and with GNU64 the corrected writer leaves it out |

## Left out

- The AIX big-archive format: its header printer, its member offset chain and its
  symbol tables after the members. They depend on the XCOFF alignment and
  64-bit-object queries of the reader. The writer and the layout require a non-AIX
  kind.
- Object-file parsing in src/object_reader.rs. Each member's `ObjectReader` is a
  datatype of function values: the symbols of a buffer (or an error), whether it is an
  EC object, and whether it is a 64-bit object. The reader's own success flag is not
  used by the writer and is not modelled.
- `write_import_library` lives in code that is not part of this model.
- I/O errors of the output stream and of the two cursors are not modelled: every write
  succeeds. The bytes already written before an error or a panic are not modelled
  either: the outcome is only `Failed` or `Panicked`.
- The stream is assumed to start at position 0, so the BSD symbol-table header is
  rendered at position 8. The headers-size computation renders it at position 0;
  `SymbolTables.SymbolTableHeaderPosition` shows this gives the same header.
- `now()` is the constant 0, so `/<ECSYMBOLS>` carries timestamp 0.
- Mangler.Mangle: on an empty name the source panics (`unwrap` of the first
  character). The model requires a non-empty name instead of modelling that panic.
- Mangler.Demangle: likewise requires a non-empty name.
- Alignment.AlignTo, Alignment.OffsetToAlignment, MathExtras.AlignToPowerOf2:
  `size + align - 1` overflowing u64 is a precondition, not modelled wrap-around.
- MemberLayout.ComputeMemberData: every buffer is assumed shorter than 2^63 bytes, as
  any Rust slice is, so the `u64::try_from` conversions of lengths never fail.
- ArchiveWriter.WriteArchiveToStream: the same assumption on buffer lengths.
- MemberLayout.MemberStep, MemberLayout.Layouts: their own contracts give when a step
  succeeds or panics and the shape of what it appends. Which error a failing member
  returns is stated by LayoutProperties.MemberStepFails and FirstError, and the
  layout's full shape by LayoutProperties.LayoutsShape.
- ArchiveWriter.ArchiveOutcome: its own contract states only the thin BSD-like panic.
  Its other outcomes are stated by ArchiveProperties.WriterPanicsExactlyWhen,
  WriterFails, WriterFailsFirst and WrittenAsWritten.
- ArchiveWriter.CorrectedOutcome: likewise; its outcomes are stated by
  ArchiveProperties.CorrectedPanicsOnlyOnThinBsd, CorrectedFails and WrittenPlan.
- ArchiveProperties.WrittenIndexLocatesMember: stated for the corrected writer, for
  archives shorter than 2^64 bytes, where a 64-bit offset cannot wrap, and for a symbol
  table that is written. An archive with members skips it only when it was laid out for
  COFF and then widened (`ArchiveProperties.NonEmptyArchiveHasIndex`). The writer as
  written produces the same bytes whenever `ArchiveProperties.WritersAgree` applies.
- ArchiveLayout.PlanWritable: states that the corrected writer's conversions succeed.
  For the writer as written the conditions are those of
  `ArchiveLayout.PlanWritableAsWritten`, which adds the COFF last member's end and the
  EC map's size.
- SymbolTables.PrintNBitsRoundTrip: stated for values below 2^64. The corrected writer
  never prints a larger one (`ArchiveLayout.PlanWritable`).
- A BSD-like kind that is widened becomes Darwin64 (from Darwin) or GNU64 (from BSD),
  as the code does. The 32-bit BSD kind is never widened to a BSD 64-bit format.
- A symbol table skipped by a widened COFF layout is still counted in the headers
  size (`ArchiveLayout.SkippedTableCounted`). No index refers to member offsets then,
  so this is recorded but not claimed as a defect.
- Where the general description of the format and the code differ, the model follows
  the code:
  - BSD symbols are not sorted by name;
  - duplicate symbols are not an error (GNU keeps every one, the COFF map keeps the
    first);
  - the BSD name field counts the NUL padding;
  - the COFF first linker member has one entry per symbol.
- The test suite, which compares output with external tools, is not modelled.

## Findings

The writer as written (`ArchiveWriter.ArchiveOutcome`, computed by
`ArchiveWriter.WriteArchiveToStream`) keeps all three defects below. The corrected
writer (`ArchiveWriter.CorrectedOutcome`) uses the corrected halves: the `Wrapping`
member index, the map condition on member starts only (`SymbolTables.SymbolMapFits`),
and `/<ECSYMBOLS>` for COFF only. `ArchiveProperties.WritersAgree` states where the two
writers agree, and `ArchiveProperties.WrittenAsWritten` what the writer as written
produces otherwise.

| source | as written | input that shows it | evidently intended | confidence | as-written member | corrected member |
|---|---|---|---|---|---|---|
| src/archive_writer.rs:771 | `index.try_into().unwrap()` converts every 1-based member index to u16, for every kind | an archive of any non-AIX kind with 65536 members panics at the last one, although the index is only used by the COFF map, whose archives have at most 0xfffe members | the index matters only with a COFF map; LLVM truncates it to `uint16_t` | not executed; high | MemberLayout.MemberIndexAsWrittenPanicsAt65536 | ArchiveWriter.CoffMemberIndexExact |
| src/archive_writer.rs:472-478 | `pos.checked_add(size).unwrap()` also runs after the last member, so the map panics when the last member ends at or past 2^32 | a COFF archive whose last member starts below 4 GiB but ends past it; the kind is not widened, since only the start counts (in isolation: one member at offset 100 of 2^32 bytes) | only member starts must fit 32 bits, as the widening check assumes | not executed; high | SymbolTables.SymbolMapOffsetsAsWrittenPanicsPastLastMember | ArchiveLayout.PlanWritable |
| src/archive_writer.rs:956-958 | `/<ECSYMBOLS>` is written whenever the EC map is not empty, even after a COFF archive was widened to GNU64, whose headers size no longer counts it | an ARM64EC COFF archive whose last member header starts past 4 GiB: every member, and every offset in the GNU64 symbol table, is then off by 60 plus the EC map's size | write EC symbols only for a COFF archive, the case the headers size counts | not executed; medium | ArchiveLayout.EcSymbolsShiftMembersAsWritten | ArchiveLayout.PrefixLength |
