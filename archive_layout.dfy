/** Where `write_archive_to_stream` (src/archive_writer.rs) puts things, for a planned
    archive: the conversions that cannot fail, the size of everything in front of the
    members, the symbol table right after the magic, and each member after the ones
    before it. */
module ArchiveLayout {
  import opened Bytes
  import opened Bits
  import opened Archive
  import opened MemberHeaders
  import opened SymbolTables
  import opened ArchiveWriter

  /** Every symbol offset of every laid-out member lies below `bound`. */
  ghost predicate SymbolsBelow(ds: seq<MemberData>, bound: nat) {
    forall i, k :: 0 <= i < |ds| && 0 <= k < |ds[i].symbols| ==> ds[i].symbols[k] < bound
  }

  /** What a plan keeps from the layout and the widening check: the symbol count, the
      headers size of the final kind, a 32-bit kind only when the last member starts
      below 4 GiB, a COFF kind only for at most 0xfffe members, and for the BSD-like kinds
      every string offset inside the symbol-name table. */
  ghost predicate PlanInvariant(p: Plan) {
    !IsAixBigArchive(p.kind)
    && p.numSyms == SymbolsBefore(p.members, |p.members|)
    && p.headersSize == FinalHeadersSize(p.kind, p.members, p.stringTable, p.numSyms, p.symNames, p.symMap)
    && (!Is64BitKind(p.kind) ==> p.headersSize + LastHeaderOffset(p.members) < SYM64_THRESHOLD)
    && (IsCoffArchive(p.kind) ==> |p.members| <= MAX_COFF_MEMBERS)
    && (IsBsdLike(p.kind) ==> SymbolsBelow(p.members, |p.symNames|))
  }

  /** The member offsets of the first `n` entries stay below `bound` when the members'
      starts do. */
  lemma {:induction false} IndexEntriesBelow(ms: seq<MemberData>, base: nat, n: nat, bound: nat)
    requires n <= |ms| && forall i :: 0 <= i < n ==> base + SizeBefore(ms, i) < bound
    ensures forall e :: e in IndexEntries(ms, base, n) ==> e.memberOffset < bound
  {
    if n > 0 {
      IndexEntriesBelow(ms, base, n - 1, bound);
    }
  }

  /** And their string offsets stay below `bound` when the symbols do. */
  lemma {:induction false} IndexEntriesNamed(ms: seq<MemberData>, base: nat, n: nat, bound: nat)
    requires n <= |ms| && SymbolsBelow(ms, bound)
    ensures forall e :: e in IndexEntries(ms, base, n) ==> e.stringOffset < bound
  {
    if n > 0 {
      IndexEntriesNamed(ms, base, n - 1, bound);
      var last := MemberIndexEntries(ms[n - 1], base + SizeBefore(ms, n - 1));
      forall e | e in last ensures e.stringOffset < bound {
        var k :| 0 <= k < |last| && last[k] == e;
        assert ms[n - 1].symbols[k] < bound;
      }
    }
  }

  /** In a 32-bit plan every member starts below 4 GiB. */
  lemma StartsBelow(p: Plan)
    requires PlanInvariant(p) && !Is64BitKind(p.kind)
    ensures forall i :: 0 <= i < |p.members| ==> p.headersSize + SizeBefore(p.members, i) < SYM64_THRESHOLD
  {
    forall i | 0 <= i < |p.members| ensures p.headersSize + SizeBefore(p.members, i) < SYM64_THRESHOLD {
      SizeBeforeMonotone(p.members, i, |p.members| - 1);
    }
  }

  /** The symbol table of a plan fits its widths: what is printed fits in the headers
      size, which for a 32-bit kind is below 4 GiB. */
  lemma PlanSymbolTableFits(p: Plan)
    requires PlanInvariant(p)
    ensures SymbolTableFits(p.kind, p.members, p.symNames, p.headersSize, p.numSyms)
  {
    if !Is64BitKind(p.kind) {
      var o := OffsetSize(p.kind);
      var size := SymtabSize(p.kind, p.numSyms, |p.symNames|);
      assert size >= o * (1 + p.numSyms) + |p.symNames|;
      assert size <= p.headersSize;
      StartsBelow(p);
      IndexEntriesBelow(p.members, p.headersSize, |p.members|, SYM64_THRESHOLD);
      if IsBsdLike(p.kind) {
        assert size >= p.numSyms * o * 2 + |p.symNames|;
        assert p.numSyms * 2 * o == p.numSyms * o * 2 by { MulAssoc(p.numSyms, 2, o); }
        IndexEntriesNamed(p.members, p.headersSize, |p.members|, |p.symNames|);
      }
    }
  }

  /** So every plan can be written: no conversion the writers make fails. */
  lemma PlanWritable(p: Plan)
    requires PlanInvariant(p)
    ensures Writable(p)
  {
    PlanSymbolTableFits(p);
    if IsCoffArchive(p.kind) {
      StartsBelow(p);
      assert 4 + 2 * |p.symMap.entries| <= SymbolMapSize(|p.members|, p.symMap) <= p.headersSize;
      if p.symMap.ecEntries != [] {
        assert 4 + 2 * |p.symMap.ecEntries| <= EcSymbolsSize(p.symMap) <= p.headersSize;
      }
    }
  }

  /** A 32-bit plan renders every size in an index member's header below 4 GiB, so in
      fewer than ten digits. */
  lemma SmallHeaders(p: Plan)
    requires PlanInvariant(p) && !Is64BitKind(p.kind)
    ensures SymtabSize(p.kind, p.numSyms, |p.symNames|) + 20 < 10000000000
    ensures IsCoffArchive(p.kind) ==> SymbolMapSize(|p.members|, p.symMap) < 10000000000
    ensures EcWritten(p) ==> EcSymbolsSize(p.symMap) < 10000000000
  {
  }

  /** Where the first member starts: at the headers size, except that a symbol table left
      out is not written (while the headers size still counts it). */
  ghost function MembersStart(p: Plan): nat {
    if SkipsSymbolTable(p.kind, p.symNames) then 8 + StringMemberSize(p.stringTable) else p.headersSize
  }

  /** The lengths of the parts in front of the members. */
  lemma PrefixParts(thin: bool, p: Plan)
    requires Writable(p)
    ensures |Prefix(thin, p)| == 8 + |SymtabBytes(p)| + |MapPart(p, 8 + |SymtabBytes(p)|)|
      + StringMemberSize(p.stringTable) + |EcPart(p)|
  {
  }

  /** The symbol table takes its header, as rendered at position 0, and its size. */
  lemma SymtabLength(p: Plan)
    requires PlanInvariant(p) && Writable(p)
    ensures |SymtabBytes(p)| == if SkipsSymbolTable(p.kind, p.symNames) then 0
      else |WriteSymbolTableHeader(p.kind, SymtabSize(p.kind, p.numSyms, |p.symNames|), 0)| + SymtabSize(p.kind, p.numSyms, |p.symNames|)
  {
    var k, size := p.kind, SymtabSize(p.kind, p.numSyms, |p.symNames|);
    if !SkipsSymbolTable(k, p.symNames) {
      SymbolTableBodySize(k, p.members, p.symNames, p.headersSize);
      SymbolTableHeaderPosition(k, size, 8, 0);
    }
  }

  /** For COFF the second linker member and `/<ECSYMBOLS>` take a 60-byte header, as the
      symbol table does, and their sizes. */
  lemma CoffPartsLength(p: Plan, pos: nat)
    requires PlanInvariant(p) && Writable(p) && IsCoffArchive(p.kind)
    ensures |WriteSymbolTableHeader(p.kind, SymtabSize(p.kind, p.numSyms, |p.symNames|), 0)| == 60
    ensures |MapPart(p, pos)| == 60 + SymbolMapSize(|p.members|, p.symMap)
    ensures |EcPart(p)| == if p.symMap.ecEntries == [] then 0 else 60 + EcSymbolsSize(p.symMap)
  {
    SmallHeaders(p);
    SymbolTableHeaderLength(p.kind, SymtabSize(p.kind, p.numSyms, |p.symNames|), 0);
    SymbolMapMemberLength(p.kind, p.members, p.symMap, p.headersSize, pos);
    if p.symMap.ecEntries != [] {
      EcSymbolsMemberLength(p.symMap);
    }
  }

  /** Everything in front of the members takes MembersStart(p) bytes: the headers size,
      when the symbol table is written. */
  lemma PrefixLength(thin: bool, p: Plan)
    requires PlanInvariant(p)
    ensures Writable(p) && |Prefix(thin, p)| == MembersStart(p)
  {
    PlanWritable(p);
    if IsCoffArchive(p.kind) {
      CoffPrefixLength(thin, p);
    } else {
      OtherPrefixLength(thin, p);
    }
  }

  /** For COFF: the magic, three index members and the `//` member. */
  lemma CoffPrefixLength(thin: bool, p: Plan)
    requires PlanInvariant(p) && Writable(p) && IsCoffArchive(p.kind)
    ensures |Prefix(thin, p)| == p.headersSize
  {
    PrefixParts(thin, p);
    SymtabLength(p);
    CoffPartsLength(p, 8 + |SymtabBytes(p)|);
    CoffHeadersSize(p);
  }

  /** The COFF headers size: the magic, three index members with 60-byte headers and the
      `//` member. */
  lemma CoffHeadersSize(p: Plan)
    requires PlanInvariant(p) && IsCoffArchive(p.kind)
    requires |WriteSymbolTableHeader(p.kind, SymtabSize(p.kind, p.numSyms, |p.symNames|), 0)| == 60
    ensures p.headersSize == 8 + 60 + SymtabSize(p.kind, p.numSyms, |p.symNames|) + 60 + SymbolMapSize(|p.members|, p.symMap)
      + (if p.symMap.ecEntries == [] then 0 else 60 + EcSymbolsSize(p.symMap)) + StringMemberSize(p.stringTable)
  {
  }

  /** Outside COFF: the magic, the symbol table when it is written and the `//` member. */
  lemma OtherPrefixLength(thin: bool, p: Plan)
    requires PlanInvariant(p) && Writable(p) && !IsCoffArchive(p.kind)
    ensures |Prefix(thin, p)| == MembersStart(p)
  {
    PrefixParts(thin, p);
    SymtabLength(p);
  }

  /** A symbol table left out is still counted in the headers size, with its header as
      rendered at position 0. */
  lemma SkippedTableCounted(p: Plan)
    requires PlanInvariant(p) && SkipsSymbolTable(p.kind, p.symNames)
    ensures p.headersSize == MembersStart(p)
      + |WriteSymbolTableHeader(p.kind, SymtabSize(p.kind, p.numSyms, 0), 0)| + SymtabSize(p.kind, p.numSyms, 0)
  {
  }

  /** Member `i` of a plan is written, header, stored bytes and padding, after the
      prefix and the sizes of the members before it. */
  lemma PlanMemberAt(thin: bool, p: Plan, i: nat)
    requires Writable(p) && i < |p.members|
    ensures Occurs(ArchiveBytes(thin, p), |Prefix(thin, p)| + SizeBefore(p.members, i), MemberImage(p.members[i]))
  {
    MemberAfter(Prefix(thin, p), p.members, i);
  }

  /** Member `i` of `ms`, found after whatever precedes the members. */
  lemma MemberAfter(front: seq<u8>, ms: seq<MemberData>, i: nat)
    requires i < |ms|
    ensures Occurs(front + MembersBytes(ms, |ms|), |front| + SizeBefore(ms, i), MemberImage(ms[i]))
  {
    MembersBytesAt(ms, |ms|, i);
    SliceAfter(front, MembersBytes(ms, |ms|), SizeBefore(ms, i), SizeBefore(ms, i) + MemberSize(ms[i]), MemberImage(ms[i]));
  }

  /** The bytes of a plan start with the magic. */
  lemma PlanStartsWithMagic(thin: bool, p: Plan)
    requires Writable(p)
    ensures Occurs(ArchiveBytes(thin, p), 0, Magic(thin))
  {
    var st, mp, sb, ec, mb := ArchiveBytesParts(thin, p);
    FrontOf(Magic(thin), st, mp, sb, ec, mb);
  }

  /** The first of the parts, found at the front. */
  lemma FrontOf(m: seq<u8>, a: seq<u8>, b: seq<u8>, c: seq<u8>, d: seq<u8>, e: seq<u8>)
    ensures Occurs(m + a + b + c + d + e, 0, m)
  {
    var rest := a + b + c + d + e;
    assert m + a + b + c + d + e == m + rest;
    assert (m + rest)[..|m|] == m;
  }

  /** The bytes of a plan, part by part. */
  lemma ArchiveBytesParts(thin: bool, p: Plan) returns (st: seq<u8>, mp: seq<u8>, sb: seq<u8>, ec: seq<u8>, mb: seq<u8>)
    requires Writable(p)
    ensures st == SymtabBytes(p) && mp == MapPart(p, 8 + |st|) && sb == StringMemberBytes(p.stringTable)
      && ec == EcPart(p) && mb == MembersBytes(p.members, |p.members|)
    ensures ArchiveBytes(thin, p) == Magic(thin) + st + mp + sb + ec + mb
  {
    st, mp, sb, ec, mb := SymtabBytes(p), MapPart(p, 8 + |SymtabBytes(p)|), StringMemberBytes(p.stringTable),
      EcPart(p), MembersBytes(p.members, |p.members|);
  }

  /** The bytes in front of the members, part by part. */
  lemma PrefixPieces(thin: bool, p: Plan) returns (st: seq<u8>, mp: seq<u8>, sb: seq<u8>, ec: seq<u8>)
    requires Writable(p)
    ensures st == SymtabBytes(p) && mp == MapPart(p, 8 + |st|) && sb == StringMemberBytes(p.stringTable) && ec == EcPart(p)
    ensures Prefix(thin, p) == Magic(thin) + st + mp + sb + ec
  {
    st, mp, sb, ec := SymtabBytes(p), MapPart(p, 8 + |SymtabBytes(p)|), StringMemberBytes(p.stringTable), EcPart(p);
  }

  /** A symbol table that is written is its header, rendered at position 8, then its body. */
  lemma SymtabBytesParts(p: Plan) returns (hdr: seq<u8>, body: seq<u8>)
    requires Writable(p) && p.numSyms == SymbolsBefore(p.members, |p.members|)
    requires !SkipsSymbolTable(p.kind, p.symNames)
    ensures hdr == WriteSymbolTableHeader(p.kind, SymtabSize(p.kind, p.numSyms, |p.symNames|), 8)
    ensures body == SymbolTableBody(p.kind, p.members, p.symNames, p.headersSize, p.numSyms)
    ensures |body| == SymtabSize(p.kind, p.numSyms, |p.symNames|) && SymtabBytes(p) == hdr + body
  {
    hdr := WriteSymbolTableHeader(p.kind, SymtabSize(p.kind, p.numSyms, |p.symNames|), 8);
    body := SymbolTableBody(p.kind, p.members, p.symNames, p.headersSize, p.numSyms);
    SymbolTableBodySize(p.kind, p.members, p.symNames, p.headersSize);
  }

  /** The symbol table of a plan follows the magic: its header, then its body. */
  lemma PlanSymbolTableAt(thin: bool, p: Plan)
    requires Writable(p) && p.numSyms == SymbolsBefore(p.members, |p.members|)
    requires !SkipsSymbolTable(p.kind, p.symNames)
    ensures var hdr := WriteSymbolTableHeader(p.kind, SymtabSize(p.kind, p.numSyms, |p.symNames|), 8);
      Occurs(ArchiveBytes(thin, p), 8, hdr)
      && Occurs(ArchiveBytes(thin, p), 8 + |hdr|, SymbolTableBody(p.kind, p.members, p.symNames, p.headersSize, p.numSyms))
  {
    var st, mp, sb, ec, mb := ArchiveBytesParts(thin, p);
    var hdr, body := SymtabBytesParts(p);
    SymtabAfter(Magic(thin), hdr, body, mp, sb, ec, mb);
  }

  /** The second and third of the parts, found after the first, of eight bytes. */
  lemma SymtabAfter(m: seq<u8>, hdr: seq<u8>, body: seq<u8>, mp: seq<u8>, sb: seq<u8>, ec: seq<u8>, members: seq<u8>)
    requires |m| == 8
    ensures var bytes := m + (hdr + body) + mp + sb + ec + members;
      Occurs(bytes, 8, hdr) && Occurs(bytes, 8 + |hdr|, body)
  {
    var others := mp + sb + ec;
    RegroupAfterThird(m, hdr, body, mp, sb, ec, members);
    SliceInMiddle(m, hdr, body, 8, 8 + |hdr|);
    SliceOfFront(m + hdr + body, others + members, 8, 8 + |hdr|, hdr);
    SliceOfBack(m + hdr, body, 8 + |hdr|, 8 + |hdr| + |body|);
    SliceOfFront(m + hdr + body, others + members, 8 + |hdr|, 8 + |hdr| + |body|, body);
  }

  /** One symbol offset below the bound. */
  lemma SymbolBelow(ds: seq<MemberData>, bound: nat, i: nat, k: nat)
    requires SymbolsBelow(ds, bound) && i < |ds| && k < |ds[i].symbols|
    ensures ds[i].symbols[k] < bound
  {
  }

  /** For the BSD-like kinds the string offsets lie inside the symbol-name table, which
      the headers size counts. */
  lemma PlanNamesWithin(p: Plan)
    requires PlanInvariant(p) && IsBsdLike(p.kind)
    ensures SymbolsBelow(p.members, |p.symNames|) && |p.symNames| <= p.headersSize
  {
  }

  /** Entry SymbolsBefore(i) + k of the symbol table body of a plan is that of symbol
      `k` of member `i`: it holds where the member starts and, for the BSD-like kinds,
      the symbol's string offset. */
  lemma PlanIndexEntry(p: Plan, i: nat, k: nat)
    requires !IsAixBigArchive(p.kind) && SymbolTableFits(p.kind, p.members, p.symNames, p.headersSize, p.numSyms)
    requires i < |p.members| && k < |p.members[i].symbols| && p.headersSize + SizeBefore(p.members, i) < TWO_64
    requires IsBsdLike(p.kind) ==> p.members[i].symbols[k] < p.headersSize
    ensures var body := SymbolTableBody(p.kind, p.members, p.symNames, p.headersSize, p.numSyms);
      var j := SymbolsBefore(p.members, i) + k;
      HasEntry(p.kind, body, j)
      && ReadNBits(p.kind, MemberOffsetField(p.kind, body, j)) == p.headersSize + SizeBefore(p.members, i)
      && (IsBsdLike(p.kind) ==> ReadNBits(p.kind, StringOffsetField(p.kind, body, j)) == p.members[i].symbols[k])
  {
    SymbolTableEntryDecodes(p.kind, p.members, p.symNames, p.headersSize, p.numSyms, i, k);
  }

  /** In the bytes of a plan, member `i` starts at MembersStart(p) plus the sizes of the
      members before it. */
  lemma PlanMemberPlaced(thin: bool, p: Plan, bytes: seq<u8>, i: nat)
    requires PlanInvariant(p) && Writable(p) && bytes == ArchiveBytes(thin, p) && i < |p.members|
    ensures Occurs(bytes, MembersStart(p) + SizeBefore(p.members, i), MemberImage(p.members[i]))
  {
    PrefixLength(thin, p);
    PlanMemberAt(thin, p, i);
  }

  /** The writers as written panic on a plan exactly when a COFF archive's last member
      ends at or past 4 GiB or the EC map has 2^32 entries or more: all else fits. */
  lemma PlanWritableAsWritten(p: Plan)
    requires PlanInvariant(p)
    ensures WritableAsWritten(p) <==>
      (IsCoffArchive(p.kind) ==> p.headersSize + SizeBefore(p.members, |p.members|) < SYM64_THRESHOLD)
      && |p.symMap.ecEntries| < 0x1_0000_0000
  {
    PlanWritable(p);
  }

  /** That differs from the prefix the headers size counts by an `/<ECSYMBOLS>` member
      at its end, exactly when the EC map is not empty but the final kind is not COFF. */
  lemma PrefixAsWrittenExtends(thin: bool, p: Plan)
    requires WritableAsWritten(p)
    ensures PrefixAsWritten(thin, p)
         == Prefix(thin, p) + (if EcWrittenAsWritten(p) && !EcWritten(p) then EcSymbolsMember(p.symMap) else [])
  {
    var st, mp, sb, ec := PrefixPieces(thin, p);
    var front := Magic(thin) + st + mp + sb;
    var extra := if EcWrittenAsWritten(p) then EcSymbolsMember(p.symMap) else [];
    assert PrefixAsWritten(thin, p) == front + extra;
    if EcWritten(p) {
      assert ec == extra;
      EmptyRight(Prefix(thin, p));
    } else {
      EmptyRight(front);
    }
  }

  /** So a COFF archive widened to GNU64 whose EC map is not empty gets, as written, an
      `/<ECSYMBOLS>` member that its headers size does not count: every member lands at
      least 60 bytes after the offset its index entries record. */
  lemma EcSymbolsShiftMembersAsWritten(thin: bool, p: Plan)
    requires PlanInvariant(p) && p.kind == Gnu64 && EcWrittenAsWritten(p) && !SkipsSymbolTable(p.kind, p.symNames)
    requires |p.symMap.ecEntries| < 0x1_0000_0000 && EcSymbolsSize(p.symMap) < 10000000000
    ensures WritableAsWritten(p) && |PrefixAsWritten(thin, p)| == p.headersSize + 60 + EcSymbolsSize(p.symMap)
  {
    PrefixLength(thin, p);
    PrefixAsWrittenExtends(thin, p);
    EcSymbolsMemberLength(p.symMap);
  }

  /** The bytes as written start with the magic as well. */
  lemma AsWrittenStartsWithMagic(thin: bool, p: Plan)
    requires WritableAsWritten(p)
    ensures Occurs(ArchiveBytesAsWritten(thin, p), 0, Magic(thin))
  {
    var st := SymtabBytes(p);
    FrontOf(Magic(thin), st, MapPart(p, 8 + |st|), StringMemberBytes(p.stringTable),
            if EcWrittenAsWritten(p) then EcSymbolsMember(p.symMap) else [], MembersBytes(p.members, |p.members|));
  }

  /** When a COFF archive's last member ends below 4 GiB and `/<ECSYMBOLS>` goes only
      where the headers size counts it, the writers as written write a plan as the
      corrected ones do. */
  lemma AsWrittenBytesAgree(thin: bool, p: Plan)
    requires PlanInvariant(p)
    requires IsCoffArchive(p.kind) ==> p.headersSize + SizeBefore(p.members, |p.members|) < SYM64_THRESHOLD
    requires EcWrittenAsWritten(p) ==> EcWritten(p)
    ensures Writable(p) && WritableAsWritten(p) && ArchiveBytesAsWritten(thin, p) == ArchiveBytes(thin, p)
  {
    PlanWritableAsWritten(p);
    PrefixAsWrittenExtends(thin, p);
    EmptyRight(Prefix(thin, p));
  }
}
