/** The archive index (src/archive_writer.rs): the GNU/COFF first linker member or the BSD
    `__.SYMDEF`, the COFF second linker member with its sorted name list, and the
    `/<ECSYMBOLS>` member, together with the functions that size them before anything is
    written.  The COFF layout follows section 7 of the Microsoft PE/COFF specification
    ("Archive (Library) File Format"). */
module SymbolTables {
  import opened Bytes
  import opened Bits
  import opened Alignment
  import opened Archive
  import opened OrderedMaps
  import opened MemberHeaders
  import opened Wrappers

  /** Bytes per offset in the index. */
  function OffsetSize(kind: ArchiveKind): nat {
    if Is64BitKind(kind) then 8 else 4
  }

  /** `print_n_bits` converts to u32 for the 32-bit kinds and panics when that fails. */
  predicate NBitsFits(kind: ArchiveKind, val: nat) {
    Is64BitKind(kind) || val < 0x1_0000_0000
  }

  /** `print_n_bits`: 8 bytes for the 64-bit kinds and 4 otherwise, little-endian for the
      BSD-like kinds and big-endian otherwise.  The value is a u64, so for the 64-bit kinds
      only its low 8 bytes, the value modulo 2^64, are printed.  The u32 conversion that
      panics is a precondition of the writers (`WriteSymbolEntry`, `WriteSymbolTable`),
      which alone print. */
  function PrintNBits(kind: ArchiveKind, val: nat): (r: seq<u8>)
    ensures |r| == OffsetSize(kind)
  {
    ToBytes(IsBsdLike(kind), val, OffsetSize(kind))
  }

  /** How a linker reads an offset back. */
  function ReadNBits(kind: ArchiveKind, bs: seq<u8>): nat {
    if IsBsdLike(kind) then FromLittleEndian(bs) else FromBigEndian(bs)
  }

  /** Every value below 2^64 that `print_n_bits` accepts reads back unchanged. */
  lemma PrintNBitsRoundTrip(kind: ArchiveKind, val: nat)
    requires NBitsFits(kind, val) && val < TWO_64
    ensures ReadNBits(kind, PrintNBits(kind, val)) == val
  {
    PowTwo64();
    if IsBsdLike(kind) {
      LittleEndianRoundTrip(val, OffsetSize(kind));
    } else {
      BigEndianRoundTrip(val, OffsetSize(kind));
    }
  }

  /** The alignment of the symbol table: 8 for the BSD-like kinds, 2 otherwise. */
  function SymbolTableAlign(kind: ArchiveKind): nat {
    if IsBsdLike(kind) then 8 else 2
  }

  /** `compute_symbol_table_size_and_pad`: the body size (count, entries, for BSD the
      string-table byte count, the string table) rounded up to the table alignment, and
      the padding that rounding adds.  The AIX big format adds no padding. */
  function ComputeSymbolTableSizeAndPad(kind: ArchiveKind, numSyms: nat, offsetSize: nat, stringTableSize: nat): (r: (nat, nat))
    requires offsetSize == 4 || offsetSize == 8
    ensures !IsAixBigArchive(kind) ==> r.1 < SymbolTableAlign(kind) && r.0 % SymbolTableAlign(kind) == 0
    ensures r.0 >= offsetSize * (1 + numSyms) + stringTableSize
    ensures IsBsdLike(kind) ==> r.0 >= numSyms * offsetSize * 2 + stringTableSize
  {
    var size := offsetSize
      + (if IsBsdLike(kind) then numSyms * offsetSize * 2 else numSyms * offsetSize)
      + (if IsBsdLike(kind) then offsetSize else 0)
      + stringTableSize;
    var pad := if IsAixBigArchive(kind) then 0 else PaddingTo(size, SymbolTableAlign(kind));
    (size + pad, pad)
  }

  /** The name of the symbol table member for each kind. */
  function SymbolTableName(kind: ArchiveKind): (r: seq<u8>)
    ensures IsAscii(r) && |r| < 16
  {
    if IsBsdLike(kind) then
      (if Is64BitKind(kind) then Ascii("__.SYMDEF_64") else Ascii("__.SYMDEF"))
    else if Is64BitKind(kind) then Ascii("/SYM64")
    else []
  }

  /** `write_symbol_table_header` at stream position `pos`, for the kinds other than AIX
      big: a BSD header named `__.SYMDEF[_64]`, or a GNU header named "/" or "/SYM64/".
      Timestamps, owner and mode are all 0. */
  function WriteSymbolTableHeader(kind: ArchiveKind, size: nat, pos: nat): (r: seq<u8>)
    requires !IsAixBigArchive(kind)
  {
    if IsBsdLike(kind) then BsdMemberHeader(pos, SymbolTableName(kind), 0, 0, 0, 0, size)
    else GnuSmallMemberHeader(SymbolTableName(kind), 0, 0, 0, 0, size)
  }

  /** The header does not depend on where it starts modulo 8.  The sizing code renders
      it at position 0 while the writer puts it right after the 8-byte magic. */
  lemma {:induction false} SymbolTableHeaderPosition(kind: ArchiveKind, size: nat, pos: nat, pos': nat)
    requires !IsAixBigArchive(kind) && pos % 8 == pos' % 8
    ensures WriteSymbolTableHeader(kind, size, pos) == WriteSymbolTableHeader(kind, size, pos')
  {
    if IsBsdLike(kind) {
      var n := |SymbolTableName(kind)|;
      var p, p' := BsdNamePad(pos, SymbolTableName(kind)), BsdNamePad(pos', SymbolTableName(kind));
      var q, q', r := pos / 8, pos' / 8, pos % 8;
      assert pos == 8 * q + r && pos' == 8 * q' + r;
      ModShift(pos + 60 + n, q, r + 60 + n);
      ModShift(pos' + 60 + n, q', r + 60 + n);
      PadUnique(pos + 60 + n, pos' + 60 + n, p, p');
    }
  }

  lemma PadUnique(a: nat, b: nat, p: nat, q: nat)
    requires a % 8 == b % 8 && p < 8 && q < 8 && (a + p) % 8 == 0 && (b + q) % 8 == 0
    ensures p == q
  {
    var qa, ra := a / 8, a % 8;
    var qb := b / 8;
    assert a == 8 * qa + ra && b == 8 * qb + ra;
    assert (ra + p) % 8 == 0 by { ModShift(a + p, qa, ra + p); }
    assert (ra + q) % 8 == 0 by { ModShift(b + q, qb, ra + q); }
  }

  lemma ModShift(x: nat, q: nat, r: nat)
    requires x == 8 * q + r
    ensures x % 8 == r % 8
  {
    ModUnique(x, 8, q + r / 8, r % 8);
  }

  /** At an 8-aligned position the name `__.SYMDEF_64` needs no padding and `__.SYMDEF`
      three bytes. */
  lemma SymbolTableNamePad(kind: ArchiveKind, pos: nat)
    requires IsBsdLike(kind) && pos % 8 == 0
    ensures BsdNamePad(pos, SymbolTableName(kind)) == if Is64BitKind(kind) then 0 else 3
  {
    var name := SymbolTableName(kind);
    var pad := BsdNamePad(pos, name);
    var q := pos / 8;
    assert pos == 8 * q;
    var x := pos + 60 + |name|;
    if Is64BitKind(kind) {
      assert |name| == 12;
      ModShift(x, q + 9, 0);
      PadUnique(x, 0, pad, 0);
    } else {
      assert |name| == 9;
      ModShift(x, q + 8, 5);
      PadUnique(x, 5, pad, 3);
    }
  }

  /** A symbol-table header that fits its fields: 72 bytes for the BSD kinds at an 8-aligned
      position, 60 bytes otherwise. */
  lemma {:induction false} SymbolTableHeaderLength(kind: ArchiveKind, size: nat, pos: nat)
    requires !IsAixBigArchive(kind) && size + 20 < 10000000000 && pos % 8 == 0
    ensures |WriteSymbolTableHeader(kind, size, pos)| == if IsBsdLike(kind) then 72 else 60
    ensures (pos + |WriteSymbolTableHeader(kind, size, pos)|) % 8 == 0 || !IsBsdLike(kind)
  {
    var name := SymbolTableName(kind);
    if IsBsdLike(kind) {
      SymbolTableNamePad(kind, pos);
      BsdMemberHeaderLayout(pos, name, 0, 0, 0, 0, size);
    } else {
      AsciiCharCount(name);
      GnuSmallMemberHeaderLayout(name, 0, 0, 0, 0, size);
    }
  }

  /** The bytes the first `n` members occupy. */
  function SizeBefore(ms: seq<MemberData>, n: nat): nat
    requires n <= |ms|
  {
    if n == 0 then 0 else SizeBefore(ms, n - 1) + MemberSize(ms[n - 1])
  }

  /** The number of symbols the first `n` members define. */
  function SymbolsBefore(ms: seq<MemberData>, n: nat): nat
    requires n <= |ms|
  {
    if n == 0 then 0 else SymbolsBefore(ms, n - 1) + |ms[n - 1].symbols|
  }

  lemma {:induction false} SizeBeforeMonotone(ms: seq<MemberData>, a: nat, b: nat)
    requires a <= b <= |ms|
    ensures SizeBefore(ms, a) <= SizeBefore(ms, b)
    decreases b
  {
    if a < b {
      SizeBeforeMonotone(ms, a, b - 1);
    }
  }

  /** One entry of the symbol table: where the symbol's name starts in the string table,
      and where its member starts in the archive. */
  datatype IndexEntry = IndexEntry(stringOffset: nat, memberOffset: nat)

  /** The entries of one member at `pos`, one per symbol, in symbol order. */
  function MemberIndexEntries(m: MemberData, pos: nat): (r: seq<IndexEntry>)
    ensures |r| == |m.symbols|
    ensures forall k :: 0 <= k < |r| ==> r[k] == IndexEntry(m.symbols[k], pos)
  {
    seq(|m.symbols|, k requires 0 <= k < |m.symbols| => IndexEntry(m.symbols[k], pos))
  }

  /** The entries of the first `n` members, the first member starting at `base`. */
  function IndexEntries(ms: seq<MemberData>, base: nat, n: nat): (r: seq<IndexEntry>)
    requires n <= |ms|
    ensures |r| == SymbolsBefore(ms, n)
  {
    if n == 0 then []
    else IndexEntries(ms, base, n - 1) + MemberIndexEntries(ms[n - 1], base + SizeBefore(ms, n - 1))
  }

  /** The entry of symbol k of member i is entry number SymbolsBefore(ms, i) + k, and it
      names the member's offset: `base` plus the sizes of all earlier members. */
  lemma {:induction false} IndexEntriesAt(ms: seq<MemberData>, base: nat, n: nat, i: nat, k: nat)
    requires n <= |ms| && i < n && k < |ms[i].symbols|
    ensures SymbolsBefore(ms, i) + k < SymbolsBefore(ms, n)
    ensures IndexEntries(ms, base, n)[SymbolsBefore(ms, i) + k]
         == IndexEntry(ms[i].symbols[k], base + SizeBefore(ms, i))
    decreases n
  {
    var prev := IndexEntries(ms, base, n - 1);
    var last := MemberIndexEntries(ms[n - 1], base + SizeBefore(ms, n - 1));
    assert IndexEntries(ms, base, n) == prev + last;
    if i < n - 1 {
      IndexEntriesAt(ms, base, n - 1, i, k);
      assert (prev + last)[SymbolsBefore(ms, i) + k] == prev[SymbolsBefore(ms, i) + k];
    } else {
      assert (prev + last)[|prev| + k] == last[k];
    }
  }

  /** The values `write_symbol_table` prints for one entry fit their width: the member
      offset, and for BSD the string offset. */
  predicate EntryFits(kind: ArchiveKind, e: IndexEntry) {
    (IsBsdLike(kind) ==> NBitsFits(kind, e.stringOffset)) && NBitsFits(kind, e.memberOffset)
  }

  predicate EntriesFit(kind: ArchiveKind, es: seq<IndexEntry>) {
    forall e :: e in es ==> EntryFits(kind, e)
  }

  function EntrySize(kind: ArchiveKind): nat {
    if IsBsdLike(kind) then 2 * OffsetSize(kind) else OffsetSize(kind)
  }

  /** One entry as printed: for the BSD kinds the string offset, then the member offset. */
  function SymbolEntry(kind: ArchiveKind, e: IndexEntry): (r: seq<u8>)
    ensures |r| == EntrySize(kind)
  {
    (if IsBsdLike(kind) then PrintNBits(kind, e.stringOffset) else []) + PrintNBits(kind, e.memberOffset)
  }

  /** An entry holds the member offset in its last field and, for BSD, the string offset
      in its first. */
  lemma SymbolEntryFields(kind: ArchiveKind, e: IndexEntry)
    ensures var bs := SymbolEntry(kind, e);
      bs[EntrySize(kind) - OffsetSize(kind)..EntrySize(kind)] == PrintNBits(kind, e.memberOffset)
      && (IsBsdLike(kind) ==> bs[..OffsetSize(kind)] == PrintNBits(kind, e.stringOffset))
  {
    var bs := SymbolEntry(kind, e);
    if IsBsdLike(kind) {
      assert bs[OffsetSize(kind)..EntrySize(kind)] == PrintNBits(kind, e.memberOffset);
    } else {
      assert bs[0..EntrySize(kind)] == bs == PrintNBits(kind, e.memberOffset);
    }
  }

  /** The bytes the first `j` entries take. */
  function EntriesWidth(kind: ArchiveKind, j: nat): nat {
    if j == 0 then 0 else EntriesWidth(kind, j - 1) + EntrySize(kind)
  }

  /** That is, `j` entry widths. */
  lemma {:induction false} EntriesWidthIsProduct(kind: ArchiveKind, j: nat)
    ensures EntriesWidth(kind, j) == j * EntrySize(kind)
  {
    if j > 0 {
      EntriesWidthIsProduct(kind, j - 1);
      MulStep(j - 1, EntrySize(kind));
    }
  }

  /** Printing one entry, as a function value. */
  function EntryPrinter(kind: ArchiveKind): (f: IndexEntry -> seq<u8>)
    ensures forall e :: f(e) == SymbolEntry(kind, e)
  {
    e => SymbolEntry(kind, e)
  }

  /** The first `n` entries as printed, one after the other. */
  function PrintedEntries(kind: ArchiveKind, es: seq<IndexEntry>, n: nat): (r: seq<u8>)
    requires n <= |es|
  {
    ConcatMap(EntryPrinter(kind), es, n)
  }

  /** They take `n` entry widths. */
  lemma PrintedEntriesLength(kind: ArchiveKind, es: seq<IndexEntry>, n: nat)
    requires n <= |es|
    ensures |PrintedEntries(kind, es, n)| == EntriesWidth(kind, n)
  {
    ConcatMapLength(EntryPrinter(kind), es, n, EntrySize(kind));
    EntriesWidthIsProduct(kind, n);
  }

  /** All entries of the symbol table, the members starting at `membersOffset`. */
  function TableEntries(ms: seq<MemberData>, membersOffset: nat): (r: seq<IndexEntry>)
    ensures |r| == SymbolsBefore(ms, |ms|)
  {
    IndexEntries(ms, membersOffset, |ms|)
  }

  /** Everything `write_symbol_table` prints fits its width. */
  predicate SymbolTableFits(kind: ArchiveKind, ms: seq<MemberData>, stringTable: seq<u8>, membersOffset: nat, numSyms: nat) {
    EntriesFit(kind, TableEntries(ms, membersOffset))
    && NBitsFits(kind, if IsBsdLike(kind) then numSyms * 2 * OffsetSize(kind) else numSyms)
    && (IsBsdLike(kind) ==> NBitsFits(kind, |stringTable|))
  }

  /** The body of the symbol table: the count (for BSD the byte size of the entries), the
      entries, for BSD the byte size of the string table, the string table, and NUL
      padding. */
  function SymbolTableBody(kind: ArchiveKind, ms: seq<MemberData>, stringTable: seq<u8>, membersOffset: nat, numSyms: nat): (r: seq<u8>)
    requires !IsAixBigArchive(kind)
    requires SymbolTableFits(kind, ms, stringTable, membersOffset, numSyms)
  {
    var offsetSize := OffsetSize(kind);
    var (size, pad) := ComputeSymbolTableSizeAndPad(kind, numSyms, offsetSize, |stringTable|);
    var es := TableEntries(ms, membersOffset);
    PrintNBits(kind, if IsBsdLike(kind) then numSyms * 2 * offsetSize else numSyms)
      + PrintedEntries(kind, es, |es|)
      + (if IsBsdLike(kind) then PrintNBits(kind, |stringTable|) else [])
      + stringTable + Repeat(NUL, pad)
  }

  /** `write_symbol_table` skips the table when there are no symbol names, except for
      Darwin and COFF. */
  predicate SkipsSymbolTable(kind: ArchiveKind, stringTable: seq<u8>) {
    stringTable == [] && !IsDarwin(kind) && !IsCoffArchive(kind)
  }

  /** The bytes `write_symbol_table` writes at stream position `pos`. */
  function SymbolTable(kind: ArchiveKind, ms: seq<MemberData>, stringTable: seq<u8>, membersOffset: nat, numSyms: nat, pos: nat): (r: seq<u8>)
    requires !IsAixBigArchive(kind)
    requires SymbolTableFits(kind, ms, stringTable, membersOffset, numSyms)
  {
    if SkipsSymbolTable(kind, stringTable) then []
    else
      var (size, _) := ComputeSymbolTableSizeAndPad(kind, numSyms, OffsetSize(kind), |stringTable|);
      WriteSymbolTableHeader(kind, size, pos) + SymbolTableBody(kind, ms, stringTable, membersOffset, numSyms)
  }

  /** When the count matches the entries, the body has exactly the size that
      `compute_symbol_table_size_and_pad` predicted. */
  lemma SymbolTableBodySize(kind: ArchiveKind, ms: seq<MemberData>, stringTable: seq<u8>, membersOffset: nat)
    requires !IsAixBigArchive(kind)
    requires SymbolTableFits(kind, ms, stringTable, membersOffset, SymbolsBefore(ms, |ms|))
    ensures |SymbolTableBody(kind, ms, stringTable, membersOffset, SymbolsBefore(ms, |ms|))|
         == ComputeSymbolTableSizeAndPad(kind, SymbolsBefore(ms, |ms|), OffsetSize(kind), |stringTable|).0
  {
    var n := SymbolsBefore(ms, |ms|);
    var o := OffsetSize(kind);
    PrintedEntriesLength(kind, TableEntries(ms, membersOffset), n);
    EntriesWidthIsProduct(kind, n);
    assert n * EntrySize(kind) == if IsBsdLike(kind) then n * o * 2 else n * o by {
      if IsBsdLike(kind) { MulAssoc(n, 2, o); }
    }
  }

  lemma MulAssoc(a: nat, b: nat, c: nat)
    ensures a * (b * c) == a * c * b
  {
  }

  /** The body is the count, the entries and the rest. */
  lemma SymbolTableBodyParts(kind: ArchiveKind, ms: seq<MemberData>, stringTable: seq<u8>, membersOffset: nat, numSyms: nat)
    returns (count: seq<u8>, rest: seq<u8>)
    requires !IsAixBigArchive(kind)
    requires SymbolTableFits(kind, ms, stringTable, membersOffset, numSyms)
    ensures |count| == OffsetSize(kind)
    ensures var es := TableEntries(ms, membersOffset);
      SymbolTableBody(kind, ms, stringTable, membersOffset, numSyms) == count + PrintedEntries(kind, es, |es|) + rest
  {
    var o := OffsetSize(kind);
    var (size, pad) := ComputeSymbolTableSizeAndPad(kind, numSyms, o, |stringTable|);
    var es := TableEntries(ms, membersOffset);
    count := PrintNBits(kind, if IsBsdLike(kind) then numSyms * 2 * o else numSyms);
    var flat := PrintedEntries(kind, es, |es|);
    var x := if IsBsdLike(kind) then PrintNBits(kind, |stringTable|) else [];
    rest := x + stringTable + Repeat(NUL, pad);
    RegroupTail(count, flat, x, stringTable, Repeat(NUL, pad));
  }

  /** Where entry `j` starts in the body of the symbol table: after the count. */
  function EntryOffset(kind: ArchiveKind, j: nat): nat {
    OffsetSize(kind) + EntriesWidth(kind, j)
  }

  /** Whether entry `j` lies inside a symbol-table body. */
  predicate HasEntry(kind: ArchiveKind, body: seq<u8>, j: nat) {
    EntryOffset(kind, j) + EntrySize(kind) <= |body|
  }

  /** The member-offset field of entry `j` of a symbol-table body (empty past the end). */
  function MemberOffsetField(kind: ArchiveKind, body: seq<u8>, j: nat): seq<u8> {
    var at := EntryOffset(kind, j);
    if HasEntry(kind, body, j) then body[at + EntrySize(kind) - OffsetSize(kind)..at + EntrySize(kind)] else []
  }

  /** The string-offset field of entry `j` of a BSD symbol-table body (empty past the end). */
  function StringOffsetField(kind: ArchiveKind, body: seq<u8>, j: nat): seq<u8> {
    var at := EntryOffset(kind, j);
    if HasEntry(kind, body, j) then body[at..at + OffsetSize(kind)] else []
  }

  lemma SubSlice(s: seq<u8>, t: seq<u8>, at: nat, lo: nat, hi: nat)
    requires at + |t| <= |s| && s[at..at + |t|] == t && lo <= hi <= |t|
    ensures s[at + lo..at + hi] == t[lo..hi]
  {
    forall x | 0 <= x < hi - lo
      ensures s[at + lo..at + hi][x] == t[lo..hi][x]
    {
      assert s[at + lo + x] == s[at..at + |t|][lo + x];
    }
  }

  /** In a count of width OffsetSize followed by the printed entries, entry `j` starts at
      EntryOffset(kind, j). */
  lemma EntryInBody(kind: ArchiveKind, es: seq<IndexEntry>, j: nat, count: seq<u8>, rest: seq<u8>)
    requires j < |es| && |count| == OffsetSize(kind)
    ensures var body := count + PrintedEntries(kind, es, |es|) + rest;
      var at := EntryOffset(kind, j);
      at + EntrySize(kind) <= |body| && body[at..at + EntrySize(kind)] == SymbolEntry(kind, es[j])
  {
    var after := ConcatMapSplit(EntryPrinter(kind), es, |es|, j);
    var front := PrintedEntries(kind, es, j);
    var e := SymbolEntry(kind, es[j]);
    PrintedEntriesLength(kind, es, j);
    RegroupMiddle(count, front, e, after, rest);
    SliceInMiddle(count + front, e, after + rest, EntryOffset(kind, j), EntryOffset(kind, j) + EntrySize(kind));
  }

  /** The fields of an entry found at EntryOffset(kind, j). */
  lemma EntryFields(kind: ArchiveKind, body: seq<u8>, j: nat, bs: seq<u8>)
    requires |bs| == EntrySize(kind) && HasEntry(kind, body, j)
    requires body[EntryOffset(kind, j)..EntryOffset(kind, j) + EntrySize(kind)] == bs
    ensures MemberOffsetField(kind, body, j) == bs[EntrySize(kind) - OffsetSize(kind)..EntrySize(kind)]
    ensures StringOffsetField(kind, body, j) == bs[..OffsetSize(kind)]
  {
    var o, w, at := OffsetSize(kind), EntrySize(kind), EntryOffset(kind, j);
    SubSlice(body, bs, at, w - o, w);
    SubSlice(body, bs, at, 0, o);
  }

  /** Entry `j` of the body of the symbol table holds entry `j` of TableEntries: the
      member offset in its last field and, for BSD, the string offset in its first, each
      as `print_n_bits` prints it. */
  lemma SymbolTableEntryAt(kind: ArchiveKind, ms: seq<MemberData>, stringTable: seq<u8>, membersOffset: nat, numSyms: nat, j: nat)
    requires !IsAixBigArchive(kind)
    requires SymbolTableFits(kind, ms, stringTable, membersOffset, numSyms)
    requires j < |TableEntries(ms, membersOffset)|
    ensures var e := TableEntries(ms, membersOffset)[j];
      var body := SymbolTableBody(kind, ms, stringTable, membersOffset, numSyms);
      HasEntry(kind, body, j)
      && MemberOffsetField(kind, body, j) == PrintNBits(kind, e.memberOffset)
      && (IsBsdLike(kind) ==> StringOffsetField(kind, body, j) == PrintNBits(kind, e.stringOffset))
  {
    var es := TableEntries(ms, membersOffset);
    var count, rest := SymbolTableBodyParts(kind, ms, stringTable, membersOffset, numSyms);
    EntryInBody(kind, es, j, count, rest);
    var body := SymbolTableBody(kind, ms, stringTable, membersOffset, numSyms);
    EntryFields(kind, body, j, SymbolEntry(kind, es[j]));
    SymbolEntryFields(kind, es[j]);
  }

  /** A field printed by `print_n_bits` reads back as its value. */
  lemma DecodeField(kind: ArchiveKind, field: seq<u8>, val: nat)
    requires NBitsFits(kind, val) && val < TWO_64 && field == PrintNBits(kind, val)
    ensures ReadNBits(kind, field) == val
  {
    PrintNBitsRoundTrip(kind, val);
  }

  /** So a reader decodes the entry of symbol k of member i to the offset of its member,
      and for BSD also to the symbol's string offset. */
  lemma SymbolTableEntryDecodes(kind: ArchiveKind, ms: seq<MemberData>, stringTable: seq<u8>, membersOffset: nat, numSyms: nat, i: nat, k: nat)
    requires !IsAixBigArchive(kind)
    requires SymbolTableFits(kind, ms, stringTable, membersOffset, numSyms)
    requires i < |ms| && k < |ms[i].symbols|
    requires membersOffset + SizeBefore(ms, i) < TWO_64 && (IsBsdLike(kind) ==> ms[i].symbols[k] < TWO_64)
    ensures var body := SymbolTableBody(kind, ms, stringTable, membersOffset, numSyms);
      var j := SymbolsBefore(ms, i) + k;
      HasEntry(kind, body, j)
      && ReadNBits(kind, MemberOffsetField(kind, body, j)) == membersOffset + SizeBefore(ms, i)
      && (IsBsdLike(kind) ==> ReadNBits(kind, StringOffsetField(kind, body, j)) == ms[i].symbols[k])
  {
    var es := TableEntries(ms, membersOffset);
    var j := SymbolsBefore(ms, i) + k;
    IndexEntriesAt(ms, membersOffset, |ms|, i, k);
    var e := es[j];
    assert e in es;
    assert e.memberOffset == membersOffset + SizeBefore(ms, i) && e.stringOffset == ms[i].symbols[k];
    SymbolTableEntryAt(kind, ms, stringTable, membersOffset, numSyms, j);
    var body := SymbolTableBody(kind, ms, stringTable, membersOffset, numSyms);
    DecodeField(kind, MemberOffsetField(kind, body, j), e.memberOffset);
    if IsBsdLike(kind) {
      DecodeField(kind, StringOffsetField(kind, body, j), e.stringOffset);
    }
  }

  /** The outer loop of `write_symbol_table`: the entries of every member, `pos` running
      over the member offsets. */
  method WriteEntries(kind: ArchiveKind, members: seq<MemberData>, membersOffset: nat) returns (out: seq<u8>)
    requires EntriesFit(kind, TableEntries(members, membersOffset))
    ensures out == PrintedEntries(kind, TableEntries(members, membersOffset), |TableEntries(members, membersOffset)|)
  {
    out := [];
    var pos := membersOffset;
    var i := 0;
    while i < |members|
      invariant 0 <= i <= |members|
      invariant pos == membersOffset + SizeBefore(members, i)
      invariant out == PrintedMembers(kind, members, membersOffset, i)
    {
      MemberEntriesFit(kind, members, membersOffset, i);
      var entries := WriteMemberEntries(kind, members[i], pos);
      assert PrintedMembers(kind, members, membersOffset, i + 1) == out + entries;
      out := out + entries;
      pos := pos + MemberSize(members[i]);
      i := i + 1;
    }
    PrintedMembersAreTable(kind, members, membersOffset, i);
  }

  /** The entries of the first `n` members as printed, member by member. */
  function PrintedMembers(kind: ArchiveKind, ms: seq<MemberData>, base: nat, n: nat): seq<u8>
    requires n <= |ms|
  {
    if n == 0 then []
    else
      var m, pos := ms[n - 1], base + SizeBefore(ms, n - 1);
      PrintedMembers(kind, ms, base, n - 1) + PrintedEntries(kind, MemberIndexEntries(m, pos), |m.symbols|)
  }

  /** Member by member, that is all entries of the first `n` members. */
  /** Printing a concatenation of entries prints each part in turn. */
  lemma PrintedEntriesOfAppend(kind: ArchiveKind, a: seq<IndexEntry>, b: seq<IndexEntry>, c: seq<IndexEntry>)
    requires c == a + b
    ensures PrintedEntries(kind, c, |c|) == PrintedEntries(kind, a, |a|) + PrintedEntries(kind, b, |b|)
  {
    ConcatMapOfAppend(EntryPrinter(kind), a, b, |b|);
  }

  lemma {:induction false} PrintedMembersAreTable(kind: ArchiveKind, ms: seq<MemberData>, base: nat, n: nat)
    requires n <= |ms|
    ensures PrintedMembers(kind, ms, base, n) == PrintedEntries(kind, IndexEntries(ms, base, n), |IndexEntries(ms, base, n)|)
  {
    if n > 0 {
      var a, b := IndexEntries(ms, base, n - 1), MemberIndexEntries(ms[n - 1], base + SizeBefore(ms, n - 1));
      PrintedMembersAreTable(kind, ms, base, n - 1);
      PrintedEntriesOfAppend(kind, a, b, IndexEntries(ms, base, n));
    }
  }

  /** The inner loop of `write_symbol_table`: the entries of one member at `pos`. */
  method WriteMemberEntries(kind: ArchiveKind, m: MemberData, pos: nat) returns (out: seq<u8>)
    requires EntriesFit(kind, MemberIndexEntries(m, pos))
    ensures out == PrintedEntries(kind, MemberIndexEntries(m, pos), |m.symbols|)
  {
    ghost var es := MemberIndexEntries(m, pos);
    out := [];
    var k := 0;
    while k < |m.symbols|
      invariant 0 <= k <= |m.symbols|
      invariant out == PrintedEntries(kind, es, k)
    {
      assert es[k] == IndexEntry(m.symbols[k], pos);
      var entry := WriteSymbolEntry(kind, m.symbols[k], pos);
      out := out + entry;
      k := k + 1;
    }
  }

  /** The body of the inner loop of `write_symbol_table`: for BSD the string offset, then
      the member offset. */
  method WriteSymbolEntry(kind: ArchiveKind, stringOffset: nat, pos: nat) returns (out: seq<u8>)
    requires EntryFits(kind, IndexEntry(stringOffset, pos))
    ensures out == SymbolEntry(kind, IndexEntry(stringOffset, pos))
  {
    if IsBsdLike(kind) {
      out := PrintNBits(kind, stringOffset) + PrintNBits(kind, pos);
    } else {
      out := PrintNBits(kind, pos);
      assert out == [] + out;
    }
  }

  /** The entries of the first n members fit when those of the first m >= n do. */
  lemma {:induction false} PrefixFits(kind: ArchiveKind, ms: seq<MemberData>, base: nat, n: nat, m: nat)
    requires n <= m <= |ms| && EntriesFit(kind, IndexEntries(ms, base, m))
    ensures EntriesFit(kind, IndexEntries(ms, base, n))
    decreases m
  {
    if n < m {
      assert IndexEntries(ms, base, m) == IndexEntries(ms, base, m - 1) + MemberIndexEntries(ms[m - 1], base + SizeBefore(ms, m - 1));
      PrefixFits(kind, ms, base, n, m - 1);
    }
  }

  /** The entries of each member fit when those of the whole table do. */
  lemma MemberEntriesFit(kind: ArchiveKind, ms: seq<MemberData>, base: nat, i: nat)
    requires i < |ms| && EntriesFit(kind, TableEntries(ms, base))
    ensures EntriesFit(kind, MemberIndexEntries(ms[i], base + SizeBefore(ms, i)))
  {
    var a, b := IndexEntries(ms, base, i), MemberIndexEntries(ms[i], base + SizeBefore(ms, i));
    PrefixFits(kind, ms, base, i + 1, |ms|);
    assert IndexEntries(ms, base, i + 1) == a + b;
    assert forall e :: e in b ==> e in a + b;
  }

  /** The entries of member i follow those of the members before it. */
  lemma {:induction false} SymbolsBeforeMonotone(ms: seq<MemberData>, a: nat, b: nat)
    requires a <= b <= |ms|
    ensures SymbolsBefore(ms, a) <= SymbolsBefore(ms, b)
    decreases b
  {
    if a < b {
      SymbolsBeforeMonotone(ms, a, b - 1);
    }
  }

  /** `write_symbol_table` at stream position `pos`: the bytes it writes. */
  method WriteSymbolTable(kind: ArchiveKind, members: seq<MemberData>, stringTable: seq<u8>,
                          membersOffset: nat, numSyms: nat, pos: nat) returns (out: seq<u8>)
    requires !IsAixBigArchive(kind)
    requires SymbolTableFits(kind, members, stringTable, membersOffset, numSyms)
    ensures out == SymbolTable(kind, members, stringTable, membersOffset, numSyms, pos)
  {
    if SkipsSymbolTable(kind, stringTable) {
      return [];
    }
    var offsetSize := OffsetSize(kind);
    var (size, pad) := ComputeSymbolTableSizeAndPad(kind, numSyms, offsetSize, |stringTable|);
    var header := WriteSymbolTableHeader(kind, size, pos);
    var body;
    if IsBsdLike(kind) {
      body := PrintNBits(kind, numSyms * 2 * offsetSize);
    } else {
      body := PrintNBits(kind, numSyms);
    }
    var entries := WriteEntries(kind, members, membersOffset);
    body := body + entries;
    if IsBsdLike(kind) {
      body := body + PrintNBits(kind, |stringTable|);
    } else {
      body := body + [];
    }
    body := body + stringTable;
    body := body + Repeat(NUL, pad);
    out := header + body;
  }

  /** `SymMap`: the COFF symbol map and the ARM64EC symbol map, each from a symbol name
      to the 1-based index of the member defining it, ordered by name. */
  datatype SymMap = SymMap(useEcMap: bool, entries: seq<Entry>, ecEntries: seq<Entry>)

  predicate ValidSymMap(s: SymMap) {
    Sorted(s.entries) && Sorted(s.ecEntries)
  }

  /** The member indices of the first `n` entries, each a little-endian u16. */
  function IndexBytes(es: seq<Entry>, n: nat): (r: seq<u8>)
    requires n <= |es|
    ensures |r| == 2 * n
  {
    if n == 0 then [] else IndexBytes(es, n - 1) + Le16(es[n - 1].value)
  }

  /** The names of the first `n` entries, each followed by a NUL. */
  function NameList(es: seq<Entry>, n: nat): (r: seq<u8>)
    requires n <= |es|
  {
    if n == 0 then [] else NameList(es, n - 1) + (es[n - 1].key + [NUL])
  }

  /** The map part shared by the COFF second linker member and `/<ECSYMBOLS>`: the entry
      count, the indices in name order, then the names in the same order. */
  function MapTable(es: seq<Entry>): (r: seq<u8>)
    requires |es| < 0x1_0000_0000
  {
    Le32(|es|) + IndexBytes(es, |es|) + NameList(es, |es|)
  }

  /** The offsets of the first `n` members, the first starting at `base`, in the second
      linker member: little-endian u32 each. */
  function MemberOffsetTable(ms: seq<MemberData>, base: nat, n: nat): (r: seq<u8>)
    requires n <= |ms|
    requires forall i :: 0 <= i < n ==> base + SizeBefore(ms, i) < 0x1_0000_0000
    ensures |r| == 4 * n
  {
    if n == 0 then [] else MemberOffsetTable(ms, base, n - 1) + Le32(base + SizeBefore(ms, n - 1))
  }

  /** The bytes of a map part: the count, two bytes per index, and each name with its NUL. */
  function MapTableSize(es: seq<Entry>): (r: nat)
    ensures r >= 4 + 2 * |es|
    ensures |es| < 0x1_0000_0000 ==> r == |MapTable(es)|
  {
    4 + |IndexBytes(es, |es|)| + |NameList(es, |es|)|
  }

  /** The size `compute_symbol_map_size_and_pad` gives the second linker member for
      `numObj` members: two counts, the offsets and the map, rounded up to 2. */
  function SymbolMapSize(numObj: nat, symMap: SymMap): (r: nat)
    ensures r % 2 == 0 && 4 + 4 * numObj + MapTableSize(symMap.entries) <= r <= 5 + 4 * numObj + MapTableSize(symMap.entries)
  {
    AlignUp(4 + 4 * numObj + MapTableSize(symMap.entries), 2)
  }

  /** The size `compute_ec_symbols_size_and_pad` gives `/<ECSYMBOLS>`: the EC map rounded
      up to 2. */
  function EcSymbolsSize(symMap: SymMap): (r: nat)
    ensures r % 2 == 0 && MapTableSize(symMap.ecEntries) <= r <= MapTableSize(symMap.ecEntries) + 1
  {
    AlignUp(MapTableSize(symMap.ecEntries), 2)
  }

  /** The sizing loop shared by `compute_symbol_map_size_and_pad` and
      `compute_ec_symbols_size_and_pad`: two index bytes, the name and its NUL per key. */
  method MapEntriesSize(es: seq<Entry>) returns (size: nat)
    ensures size == |IndexBytes(es, |es|)| + |NameList(es, |es|)|
  {
    size := 0;
    var i := 0;
    while i < |es|
      invariant 0 <= i <= |es|
      invariant size == |IndexBytes(es, i)| + |NameList(es, i)|
    {
      size := size + 2 + |es[i].key| + 1;
      i := i + 1;
    }
  }

  /** `compute_symbol_map_size_and_pad`: the size of the second linker member's body
      rounded up to 2, and the padding. */
  method ComputeSymbolMapSizeAndPad(numObj: nat, symMap: SymMap) returns (size: nat, pad: nat)
    ensures pad < 2 && size == SymbolMapSize(numObj, symMap)
    ensures size == 4 + 4 * numObj + MapTableSize(symMap.entries) + pad
  {
    size := 4 * 2;
    size := size + numObj * 4;
    var entriesSize := MapEntriesSize(symMap.entries);
    size := size + entriesSize;
    pad := PaddingTo(size, 2);
    size := size + pad;
  }

  /** `compute_ec_symbols_size_and_pad`: the size of the `/<ECSYMBOLS>` body rounded up
      to 2, and the padding. */
  method ComputeEcSymbolsSizeAndPad(symMap: SymMap) returns (size: nat, pad: nat)
    ensures pad < 2 && size == EcSymbolsSize(symMap)
    ensures size == MapTableSize(symMap.ecEntries) + pad
  {
    size := 4;
    var entriesSize := MapEntriesSize(symMap.ecEntries);
    size := size + entriesSize;
    pad := PaddingTo(size, 2);
    size := size + pad;
  }

  /** What `write_symbol_map` converts to u32 fits: the member count, the entry count and
      every member offset. */
  predicate SymbolMapFits(ms: seq<MemberData>, symMap: SymMap, membersOffset: nat) {
    membersOffset < 0x1_0000_0000 && |ms| < 0x1_0000_0000 && |symMap.entries| < 0x1_0000_0000
    && forall i :: 0 <= i < |ms| ==> membersOffset + SizeBefore(ms, i) < 0x1_0000_0000
  }

  /** The body of the second linker member: the member count, the member offsets and the
      map. */
  function SymbolMapBody(ms: seq<MemberData>, symMap: SymMap, membersOffset: nat): (r: seq<u8>)
    requires SymbolMapFits(ms, symMap, membersOffset)
    ensures |r| == 4 + 4 * |ms| + |MapTable(symMap.entries)|
  {
    Le32(|ms|) + MemberOffsetTable(ms, membersOffset, |ms|) + MapTable(symMap.entries)
  }

  /** The COFF second linker member at stream position `pos`: its header, the body and
      NUL padding to an even size. */
  function SymbolMapMember(kind: ArchiveKind, ms: seq<MemberData>, symMap: SymMap, membersOffset: nat, pos: nat): (r: seq<u8>)
    requires !IsAixBigArchive(kind) && SymbolMapFits(ms, symMap, membersOffset)
  {
    var body := SymbolMapBody(ms, symMap, membersOffset);
    var size := AlignUp(|body|, 2);
    WriteSymbolTableHeader(kind, size, pos) + (body + Repeat(NUL, size - |body|))
  }

  /** The second linker member is a 60-byte header followed by the size
      `compute_symbol_map_size_and_pad` predicts. */
  lemma SymbolMapMemberLength(kind: ArchiveKind, ms: seq<MemberData>, symMap: SymMap, membersOffset: nat, pos: nat)
    requires IsCoffArchive(kind) && SymbolMapFits(ms, symMap, membersOffset)
    requires SymbolMapSize(|ms|, symMap) < 10000000000
    ensures |SymbolMapMember(kind, ms, symMap, membersOffset, pos)| == 60 + SymbolMapSize(|ms|, symMap)
  {
    var body := SymbolMapBody(ms, symMap, membersOffset);
    assert AlignUp(|body|, 2) == SymbolMapSize(|ms|, symMap);
    AsciiCharCount(SymbolTableName(kind));
    GnuSmallMemberHeaderLayout(SymbolTableName(kind), 0, 0, 0, 0, AlignUp(|body|, 2));
  }

  /** The offset loop of `write_symbol_map` as written, from member `i` on at the u32
      position `pos`: each member's size is converted to u32 and added with
      `checked_add`, and a failure of either panics (None), also after the last member,
      whose end is never written. */
  function OffsetLoopAsWritten(ms: seq<MemberData>, pos: nat, i: nat): (r: Option<seq<u8>>)
    requires i <= |ms| && pos < 0x1_0000_0000
    ensures r.Some? ==> |r.value| == 4 * (|ms| - i)
    decreases |ms| - i
  {
    if i == |ms| then Some([])
    else
      var size := MemberSize(ms[i]);
      if size >= 0x1_0000_0000 || pos + size >= 0x1_0000_0000 then None
      else
        var rest := OffsetLoopAsWritten(ms, pos + size, i + 1);
        if rest.None? then None else Some(Le32(pos) + rest.value)
  }

  /** The member offsets `write_symbol_map` writes, as written: the members' offset
      converted to u32, then the loop.  None is a panic. */
  function SymbolMapOffsetsAsWritten(ms: seq<MemberData>, membersOffset: nat): (r: Option<seq<u8>>)
    ensures r.Some? ==> |r.value| == 4 * |ms|
  {
    if membersOffset >= 0x1_0000_0000 then None else OffsetLoopAsWritten(ms, membersOffset, 0)
  }

  /** From member `i` on, the loop as written succeeds exactly when the end of the last
      member is below 2^32, and then it continues the offset table. */
  lemma {:induction false} OffsetLoopAsWrittenIs(ms: seq<MemberData>, base: nat, i: nat)
    requires i <= |ms| && base + SizeBefore(ms, i) < 0x1_0000_0000
    requires base + SizeBefore(ms, |ms|) < 0x1_0000_0000 ==> forall j :: 0 <= j < |ms| ==> base + SizeBefore(ms, j) < 0x1_0000_0000
    ensures var r := OffsetLoopAsWritten(ms, base + SizeBefore(ms, i), i);
      (r.Some? <==> base + SizeBefore(ms, |ms|) < 0x1_0000_0000)
      && (r.Some? ==> MemberOffsetTable(ms, base, i) + r.value == MemberOffsetTable(ms, base, |ms|))
    decreases |ms| - i
  {
    if i < |ms| {
      var pos := base + SizeBefore(ms, i);
      var size := MemberSize(ms[i]);
      SizeBeforeMonotone(ms, i + 1, |ms|);
      if pos + size < 0x1_0000_0000 {
        OffsetLoopAsWrittenIs(ms, base, i + 1);
        var rest := OffsetLoopAsWritten(ms, pos + size, i + 1);
        if rest.Some? {
          assert MemberOffsetTable(ms, base, i + 1) == MemberOffsetTable(ms, base, i) + Le32(pos);
          assert MemberOffsetTable(ms, base, i) + (Le32(pos) + rest.value)
              == MemberOffsetTable(ms, base, i + 1) + rest.value;
        }
      }
    }
  }

  /** The offsets as written are the offset table when every member ends below 2^32,
      and a panic otherwise -- even when every member starts below 2^32, which is all
      the table needs. */
  lemma SymbolMapOffsetsAsWrittenPanics(ms: seq<MemberData>, base: nat)
    ensures SymbolMapOffsetsAsWritten(ms, base).Some? <==> base + SizeBefore(ms, |ms|) < 0x1_0000_0000
    ensures base + SizeBefore(ms, |ms|) < 0x1_0000_0000 ==>
      (forall j :: 0 <= j < |ms| ==> base + SizeBefore(ms, j) < 0x1_0000_0000)
      && SymbolMapOffsetsAsWritten(ms, base) == Some(MemberOffsetTable(ms, base, |ms|))
  {
    forall j | 0 <= j < |ms| ensures SizeBefore(ms, j) <= SizeBefore(ms, |ms|) {
      SizeBeforeMonotone(ms, j, |ms|);
    }
    if base < 0x1_0000_0000 {
      OffsetLoopAsWrittenIs(ms, base, 0);
      var r := OffsetLoopAsWritten(ms, base + SizeBefore(ms, 0), 0);
      assert SymbolMapOffsetsAsWritten(ms, base) == r;
      if r.Some? {
        assert MemberOffsetTable(ms, base, 0) + r.value == r.value;
      }
    } else {
      assert SizeBefore(ms, |ms|) >= 0;
    }
  }

  /** One member of 4 GiB at offset 100: it starts below 2^32, so the map can be
      written, yet the loop as written panics adding its size. */
  lemma SymbolMapOffsetsAsWrittenPanicsPastLastMember()
    ensures var ms := [MemberData([], [], Repeat(0, 0x1_0000_0000), [])];
      SymbolMapFits(ms, SymMap(false, [], []), 100)
      && SymbolMapOffsetsAsWritten(ms, 100).None?
      && MemberOffsetTable(ms, 100, 1) == Le32(100)
  {
    var ms := [MemberData([], [], Repeat(0, 0x1_0000_0000), [])];
    assert SizeBefore(ms, 1) == 0x1_0000_0000;
    SymbolMapOffsetsAsWrittenPanics(ms, 100);
  }

  /** The offset loop of `write_symbol_map` from the u32 position `membersOffset`, as
      written: each member's size converted to u32 and added with `checked_add`.  None
      is a panic, which also follows a last member that ends past 4 GiB. */
  method WriteMemberOffsets(members: seq<MemberData>, membersOffset: nat) returns (r: Option<seq<u8>>)
    requires membersOffset < 0x1_0000_0000
    ensures r == SymbolMapOffsetsAsWritten(members, membersOffset)
    ensures r.Some? <==> membersOffset + SizeBefore(members, |members|) < 0x1_0000_0000
    ensures r.Some? ==>
      (forall i :: 0 <= i < |members| ==> membersOffset + SizeBefore(members, i) < 0x1_0000_0000)
      && r.value == MemberOffsetTable(members, membersOffset, |members|)
  {
    SymbolMapOffsetsAsWrittenPanics(members, membersOffset);
    var out := [];
    var pos := membersOffset;
    var i := 0;
    while i < |members|
      invariant 0 <= i <= |members|
      invariant pos == membersOffset + SizeBefore(members, i) < 0x1_0000_0000
      invariant forall j :: 0 <= j <= i ==> membersOffset + SizeBefore(members, j) < 0x1_0000_0000
      invariant out == MemberOffsetTable(members, membersOffset, i)
    {
      out := out + Le32(pos);
      var size := MemberSize(members[i]);
      if size >= 0x1_0000_0000 || pos + size >= 0x1_0000_0000 {
        SizeBeforeMonotone(members, i + 1, |members|);
        return None;
      }
      pos := pos + size;
      i := i + 1;
    }
    return Some(out);
  }

  /** What `write_symbol_map` as written converts to u32 fits: the members' offset, the
      member count, the end of the last member (the offset loop converts it too) and the
      entry count. */
  predicate SymbolMapFitsAsWritten(ms: seq<MemberData>, symMap: SymMap, membersOffset: nat) {
    membersOffset + SizeBefore(ms, |ms|) < 0x1_0000_0000 && |ms| < 0x1_0000_0000 && |symMap.entries| < 0x1_0000_0000
  }

  /** That is SymbolMapFits, which asks only the members' starts to fit, and the end of
      the last member below 4 GiB. */
  lemma SymbolMapFitsAsWrittenIs(ms: seq<MemberData>, symMap: SymMap, membersOffset: nat)
    ensures SymbolMapFitsAsWritten(ms, symMap, membersOffset)
        <==> SymbolMapFits(ms, symMap, membersOffset) && membersOffset + SizeBefore(ms, |ms|) < 0x1_0000_0000
  {
    SymbolMapOffsetsAsWrittenPanics(ms, membersOffset);
  }

  /** `write_symbol_map` at stream position `pos`, as written: None is a panic of one of
      its u32 conversions, made in the order the source makes them. */
  method WriteSymbolMap(kind: ArchiveKind, members: seq<MemberData>, symMap: SymMap, membersOffset: nat, pos: nat)
    returns (r: Option<seq<u8>>)
    requires !IsAixBigArchive(kind)
    ensures r.Some? <==> SymbolMapFitsAsWritten(members, symMap, membersOffset)
    ensures r.Some? ==>
      SymbolMapFits(members, symMap, membersOffset)
      && r.value == SymbolMapMember(kind, members, symMap, membersOffset, pos)
  {
    SymbolMapFitsAsWrittenIs(members, symMap, membersOffset);
    var size, pad := ComputeSymbolMapSizeAndPad(|members|, symMap);
    var header := WriteSymbolTableHeader(kind, size, pos);
    if membersOffset >= 0x1_0000_0000 || |members| >= 0x1_0000_0000 {
      return None;
    }
    var body := Le32(|members|);
    var offsets := WriteMemberOffsets(members, membersOffset);
    if offsets.None? {
      return None;
    }
    body := body + offsets.value;
    if |symMap.entries| >= 0x1_0000_0000 {
      return None;
    }
    var table := WriteMapTable(symMap.entries);
    body := body + table;
    assert body == SymbolMapBody(members, symMap, membersOffset);
    assert |body| == size - pad;
    AlignUpUnique(|body|, 2, size);
    r := Some(header + (body + Repeat(NUL, pad)));
  }

  /** The indices of a map, as the loop over `values()` writes them. */
  method WriteIndices(es: seq<Entry>) returns (out: seq<u8>)
    ensures out == IndexBytes(es, |es|)
  {
    out := [];
    var i := 0;
    while i < |es|
      invariant 0 <= i <= |es|
      invariant out == IndexBytes(es, i)
    {
      out := out + Le16(es[i].value);
      i := i + 1;
    }
  }

  /** The names of a map, as the loop over `keys()` writes them. */
  method WriteNames(es: seq<Entry>) returns (out: seq<u8>)
    ensures out == NameList(es, |es|)
  {
    out := [];
    var i := 0;
    while i < |es|
      invariant 0 <= i <= |es|
      invariant out == NameList(es, i)
    {
      out := out + (es[i].key + [NUL]);
      i := i + 1;
    }
  }

  /** The count, the indices and the names of a map. */
  method WriteMapTable(es: seq<Entry>) returns (out: seq<u8>)
    requires |es| < 0x1_0000_0000
    ensures out == MapTable(es)
  {
    out := Le32(|es|);
    var indices := WriteIndices(es);
    out := out + indices;
    var names := WriteNames(es);
    out := out + names;
  }

  /** The name of the ARM64EC symbol member. */
  const EC_SYMBOLS_NAME: seq<u8> := Ascii("/<ECSYMBOLS>")

  /** The `/<ECSYMBOLS>` member: a GNU header, the EC map and NUL padding to an even size. */
  function EcSymbolsMember(symMap: SymMap): (r: seq<u8>)
    requires |symMap.ecEntries| < 0x1_0000_0000
  {
    var body := MapTable(symMap.ecEntries);
    var size := AlignUp(|body|, 2);
    GnuSmallMemberHeader(EC_SYMBOLS_NAME, 0, 0, 0, 0, size) + (body + Repeat(NUL, size - |body|))
  }

  /** `/<ECSYMBOLS>` is a 60-byte header followed by the size
      `compute_ec_symbols_size_and_pad` predicts. */
  lemma EcSymbolsMemberLength(symMap: SymMap)
    requires |symMap.ecEntries| < 0x1_0000_0000 && EcSymbolsSize(symMap) < 10000000000
    ensures |EcSymbolsMember(symMap)| == 60 + EcSymbolsSize(symMap)
  {
    var body := MapTable(symMap.ecEntries);
    assert AlignUp(|body|, 2) == EcSymbolsSize(symMap);
    AsciiCharCount(EC_SYMBOLS_NAME);
    GnuSmallMemberHeaderLayout(EC_SYMBOLS_NAME, 0, 0, 0, 0, AlignUp(|body|, 2));
  }

  /** `write_ec_symbols`: the bytes it writes. */
  method WriteEcSymbols(symMap: SymMap) returns (out: seq<u8>)
    requires |symMap.ecEntries| < 0x1_0000_0000
    ensures out == EcSymbolsMember(symMap)
  {
    var size, pad := ComputeEcSymbolsSizeAndPad(symMap);
    AlignUpUnique(size - pad, 2, size);
    var header := GnuSmallMemberHeader(EC_SYMBOLS_NAME, 0, 0, 0, 0, size);
    var table := WriteMapTable(symMap.ecEntries);
    out := header + (table + Repeat(NUL, pad));
  }
}
