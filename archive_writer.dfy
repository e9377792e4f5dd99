/** `write_archive_to_stream` (src/archive_writer.rs) for every kind but the AIX big
    format: the members are laid out, the size of everything in front of them is
    computed, a 32-bit kind is widened when the last member would start beyond 4 GiB,
    and then the magic, the index members, the `//` member and the members are written
    in that order. */
module ArchiveWriter {
  import opened Bytes
  import opened Wrappers
  import opened Alignment
  import opened Archive
  import opened OrderedMaps
  import opened MemberHeaders
  import opened SymbolTables
  import opened SymbolCollection
  import opened MemberLayout
  import opened LayoutFacts
  import opened LayoutProperties

  /** What a call comes to: the bytes written, the error returned, or a panic (a failed
      `assert!` or `unwrap`). */
  datatype Outcome = Written(bytes: seq<u8>) | Failed(error: ArchiveError) | Panicked

  const ARCHIVE_MAGIC: seq<u8> := Ascii("!<arch>\n")
  const THIN_MAGIC: seq<u8> := Ascii("!<thin>\n")

  /** Offsets at or above this do not fit a 32-bit index. */
  const SYM64_THRESHOLD: nat := 0x1_0000_0000

  /** The COFF map stores 1-based u16 member indices. */
  const MAX_COFF_MEMBERS: nat := 0xfffe

  function Magic(thin: bool): (r: seq<u8>)
    ensures |r| == 8
  {
    if thin then THIN_MAGIC else ARCHIVE_MAGIC
  }

  /** The kind the members are laid out for: a COFF archive of more than 0xfffe members
      falls back to GNU, so that every COFF member index fits a u16. */
  function MemberKind(kind: ArchiveKind, numMembers: nat): (r: ArchiveKind)
    ensures IsCoffArchive(r) ==> numMembers <= MAX_COFF_MEMBERS && r == kind
    ensures r != kind ==> IsCoffArchive(kind) && numMembers > MAX_COFF_MEMBERS && r == Gnu
  {
    if IsCoffArchive(kind) && numMembers > MAX_COFF_MEMBERS then Gnu else kind
  }

  /** So in a COFF archive every member index is exact. */
  lemma CoffMemberIndexExact(kind: ArchiveKind, numMembers: nat, index: nat)
    requires IsCoffArchive(MemberKind(kind, numMembers)) && 1 <= index <= numMembers
    ensures MemberIndex(index) == index
  {
  }

  /** The map handed to `compute_member_data`: the archive's one `SymMap`, empty and
      with `use_ec_map` set from `is_ec`, for COFF only. */
  function MapIf(kind: ArchiveKind, symMap: SymMap): Option<SymMap> {
    if IsCoffArchive(kind) then Some(symMap) else None
  }

  /** The size of the `//` member, 0 when no name went to the string table. */
  function StringMemberSize(stringTable: seq<u8>): (r: nat)
    ensures r == 0 <==> stringTable == []
  {
    if stringTable == [] then 0 else MemberSize(StringTableMember(stringTable))
  }

  /** The bytes a member occupies, in the order they are written. */
  function MemberImage(m: MemberData): (r: seq<u8>)
    ensures |r| == MemberSize(m)
  {
    m.header + m.data + m.padding
  }

  function StringMemberBytes(stringTable: seq<u8>): (r: seq<u8>)
    ensures |r| == StringMemberSize(stringTable)
  {
    if stringTable == [] then [] else MemberImage(StringTableMember(stringTable))
  }

  /** The first `n` members, one after the other. */
  function MembersBytes(ms: seq<MemberData>, n: nat): (r: seq<u8>)
    requires n <= |ms|
    ensures |r| == SizeBefore(ms, n)
  {
    if n == 0 then [] else MembersBytes(ms, n - 1) + MemberImage(ms[n - 1])
  }

  /** Member `i` lies at offset SizeBefore(ms, i) of the members' bytes. */
  lemma {:induction false} MembersBytesAt(ms: seq<MemberData>, n: nat, i: nat)
    requires i < n <= |ms|
    ensures SizeBefore(ms, i) + MemberSize(ms[i]) <= SizeBefore(ms, n)
    ensures MembersBytes(ms, n)[SizeBefore(ms, i)..SizeBefore(ms, i) + MemberSize(ms[i])] == MemberImage(ms[i])
  {
    if i == n - 1 {
      SliceOfBack(MembersBytes(ms, n - 1), MemberImage(ms[i]), SizeBefore(ms, i), SizeBefore(ms, n));
    } else {
      MembersBytesAt(ms, n - 1, i);
      SliceOfFront(MembersBytes(ms, n - 1), MemberImage(ms[n - 1]), SizeBefore(ms, i),
                   SizeBefore(ms, i) + MemberSize(ms[i]), MemberImage(ms[i]));
    }
  }

  /** The size `compute_symbol_table_size_and_pad` gives the symbol table. */
  function SymtabSize(kind: ArchiveKind, numSyms: nat, symNamesSize: nat): nat {
    ComputeSymbolTableSizeAndPad(kind, numSyms, OffsetSize(kind), symNamesSize).0
  }

  /** `compute_headers_size`: the magic, the symbol table with its header rendered at
      position 0, with a map the second linker member and, when the EC map is not empty,
      `/<ECSYMBOLS>` (each counted with the symbol table's header size), and the `//`
      member. */
  function HeadersSize(kind: ArchiveKind, numMembers: nat, stringMemberSize: nat, numSyms: nat,
                       symNamesSize: nat, symMap: Option<SymMap>): (r: nat)
    requires !IsAixBigArchive(kind)
    ensures r >= 8 + SymtabSize(kind, numSyms, symNamesSize) + stringMemberSize
    ensures symMap.Some? ==>
      r >= SymtabSize(kind, numSyms, symNamesSize) + SymbolMapSize(numMembers, symMap.value)
           + (if symMap.value.ecEntries == [] then 0 else EcSymbolsSize(symMap.value))
  {
    var symtabSize := SymtabSize(kind, numSyms, symNamesSize);
    var headerSize := |WriteSymbolTableHeader(kind, symtabSize, 0)|;
    var mapsSize :=
      if symMap.None? then 0
      else headerSize + SymbolMapSize(numMembers, symMap.value)
           + (if symMap.value.ecEntries == [] then 0 else headerSize + EcSymbolsSize(symMap.value));
    8 + headerSize + symtabSize + mapsSize + stringMemberSize
  }

  /** Where the last member's header starts, relative to the first member; 0 without
      members. */
  function LastHeaderOffset(ds: seq<MemberData>): nat {
    if ds == [] then 0 else SizeBefore(ds, |ds| - 1)
  }

  /** The loop over the laid-out members: where the last one ends, where it starts, and
      how many symbols they define.  Every member starts at or before the last. */
  method MemberTotals(ds: seq<MemberData>) returns (lastEnd: nat, lastHeader: nat, numSyms: nat)
    ensures lastEnd == SizeBefore(ds, |ds|) && lastHeader == LastHeaderOffset(ds)
    ensures numSyms == SymbolsBefore(ds, |ds|)
    ensures forall i :: 0 <= i < |ds| ==> SizeBefore(ds, i) <= lastHeader
    ensures lastHeader <= lastEnd
  {
    lastEnd, lastHeader, numSyms := 0, 0, 0;
    var i := 0;
    while i < |ds|
      invariant 0 <= i <= |ds|
      invariant lastEnd == SizeBefore(ds, i) && numSyms == SymbolsBefore(ds, i)
      invariant lastHeader == LastHeaderOffset(ds[..i])
      invariant forall j :: 0 <= j < i ==> SizeBefore(ds, j) <= lastHeader
      invariant lastHeader <= lastEnd
    {
      assert SizeBefore(ds, i) == SizeBefore(ds[..i + 1], i) by {
        SizeBeforePrefix(ds, i + 1, i);
      }
      lastHeader := lastEnd;
      lastEnd := lastEnd + MemberSize(ds[i]);
      numSyms := numSyms + |ds[i].symbols|;
      i := i + 1;
    }
    assert ds[..i] == ds;
  }

  /** The sizes of the first `n` members do not depend on the members after them. */
  lemma {:induction false} SizeBeforePrefix(ds: seq<MemberData>, m: nat, n: nat)
    requires n <= m <= |ds|
    ensures SizeBefore(ds[..m], n) == SizeBefore(ds, n)
  {
    if n > 0 {
      SizeBeforePrefix(ds, m, n - 1);
      assert ds[..m][n - 1] == ds[n - 1];
    }
  }

  /** The kind the index is written for: a 32-bit kind whose last member would start at
      or beyond 4 GiB becomes Darwin64 if it was Darwin and Gnu64 otherwise. */
  function FinalKind(kind: ArchiveKind, headersSize: nat, lastHeader: nat): (r: ArchiveKind)
    ensures Is64BitKind(kind) || headersSize + lastHeader < SYM64_THRESHOLD ==> r == kind
    ensures !Is64BitKind(r) ==> headersSize + lastHeader < SYM64_THRESHOLD
    ensures r != kind ==> (r == Gnu64 || r == Darwin64) && (IsDarwin(r) <==> IsDarwin(kind))
  {
    if !Is64BitKind(kind) && headersSize + lastHeader >= SYM64_THRESHOLD then
      (if kind == Darwin then Darwin64 else Gnu64)
    else kind
  }

  /** Everything the writing phase needs: the final kind, the laid-out members, the
      symbol-name table, the long-name string table, the symbol map, the headers size
      (where the first member starts) and the symbol count. */
  datatype Plan = Plan(kind: ArchiveKind, members: seq<MemberData>, symNames: seq<u8>, stringTable: seq<u8>,
                       symMap: SymMap, headersSize: nat, numSyms: nat)

  /** The headers size for the final kind.  When the kind was not widened this is the
      size computed before the widening test; when it was, it is recomputed for the new kind,
      which is never COFF, so without the map. */
  function FinalHeadersSize(kind: ArchiveKind, ds: seq<MemberData>, stringTable: seq<u8>, numSyms: nat,
                            symNames: seq<u8>, symMap: SymMap): nat
    requires !IsAixBigArchive(kind)
  {
    HeadersSize(kind, |ds|, StringMemberSize(stringTable), numSyms, |symNames|, MapIf(kind, symMap))
  }

  /** Everything before the first write, the member indices narrowed as `nw` says. */
  function PlanArchive(nw: Narrowing, members: seq<NewArchiveMember>, kind0: ArchiveKind, thin: bool, isEc: bool)
    : (r: Result<Plan, Failure>)
    requires kind0 != AixBig
  {
    var kind := MemberKind(kind0, |members|);
    var c := ComputedMembers(nw, kind, thin, members, [], [], MapIf(kind, SymMap(isEc, [], [])));
    if c.Err? then Err(c.error)
    else Ok(PlanFrom(kind, isEc, c.value.members, c.value.stringTable, c.value.symNames, c.value.symMap))
  }

  /** What follows the layout: the symbol map (the empty one when none was passed), the
      symbol count, the headers size, and the kind after the widening check. */
  function PlanFrom(kind: ArchiveKind, isEc: bool, ds: seq<MemberData>, stringTable: seq<u8>, symNames: seq<u8>,
                    laidOutMap: Option<SymMap>): (r: Plan)
    requires kind != AixBig
    ensures !IsAixBigArchive(r.kind) && r.members == ds
  {
    var symMap := if laidOutMap.Some? then laidOutMap.value else SymMap(isEc, [], []);
    var numSyms := SymbolsBefore(ds, |ds|);
    var h32 := FinalHeadersSize(kind, ds, stringTable, numSyms, symNames, symMap);
    var final := FinalKind(kind, h32, LastHeaderOffset(ds));
    Plan(final, ds, symNames, stringTable, symMap, FinalHeadersSize(final, ds, stringTable, numSyms, symNames, symMap), numSyms)
  }

  /** `/<ECSYMBOLS>` is written, once corrected, for a COFF archive with a non-empty EC
      map: the kinds compute_headers_size counts it for. */
  predicate EcWritten(p: Plan) {
    IsCoffArchive(p.kind) && p.symMap.ecEntries != []
  }

  /** Every conversion the corrected writers make succeeds. */
  predicate Writable(p: Plan) {
    !IsAixBigArchive(p.kind)
    && SymbolTableFits(p.kind, p.members, p.symNames, p.headersSize, p.numSyms)
    && (IsCoffArchive(p.kind) ==> SymbolMapFits(p.members, p.symMap, p.headersSize))
    && (EcWritten(p) ==> |p.symMap.ecEntries| < 0x1_0000_0000)
  }

  function SymtabBytes(p: Plan): seq<u8>
    requires Writable(p)
  {
    SymbolTable(p.kind, p.members, p.symNames, p.headersSize, p.numSyms, 8)
  }

  /** The second linker member, for COFF only, at stream position `pos`. */
  function MapPart(p: Plan, pos: nat): seq<u8>
    requires Writable(p)
  {
    if IsCoffArchive(p.kind) then SymbolMapMember(p.kind, p.members, p.symMap, p.headersSize, pos) else []
  }

  function EcPart(p: Plan): seq<u8>
    requires Writable(p)
  {
    if EcWritten(p) then EcSymbolsMember(p.symMap) else []
  }

  /** Everything in front of the members: the magic, the symbol table, for COFF the
      second linker member, the `//` member, and `/<ECSYMBOLS>`. */
  function Prefix(thin: bool, p: Plan): seq<u8>
    requires Writable(p)
  {
    var symtab := SymtabBytes(p);
    Magic(thin) + symtab + MapPart(p, 8 + |symtab|) + StringMemberBytes(p.stringTable) + EcPart(p)
  }

  function ArchiveBytes(thin: bool, p: Plan): seq<u8>
    requires Writable(p)
  {
    Prefix(thin, p) + MembersBytes(p.members, |p.members|)
  }

  /** `write_archive_to_stream` as written writes `/<ECSYMBOLS>` whenever the EC map is
      not empty, whatever the final kind. */
  predicate EcWrittenAsWritten(p: Plan) {
    p.symMap.ecEntries != []
  }

  /** Every conversion the writers as written make succeeds: those of Writable, and
      besides the end of the last member, which the offset loop of a COFF map converts
      and adds, and the count of an EC map. */
  predicate WritableAsWritten(p: Plan) {
    Writable(p)
    && (IsCoffArchive(p.kind) ==> p.headersSize + SizeBefore(p.members, |p.members|) < SYM64_THRESHOLD)
    && |p.symMap.ecEntries| < 0x1_0000_0000
  }

  /** The bytes in front of the members as written. */
  function PrefixAsWritten(thin: bool, p: Plan): seq<u8>
    requires WritableAsWritten(p)
  {
    var symtab := SymtabBytes(p);
    Magic(thin) + symtab + MapPart(p, 8 + |symtab|) + StringMemberBytes(p.stringTable)
      + (if EcWrittenAsWritten(p) then EcSymbolsMember(p.symMap) else [])
  }

  function ArchiveBytesAsWritten(thin: bool, p: Plan): seq<u8>
    requires WritableAsWritten(p)
  {
    PrefixAsWritten(thin, p) + MembersBytes(p.members, |p.members|)
  }

  /** How a step that stopped ends the call. */
  function Stopped(f: Failure): (r: Outcome)
    ensures r.Panicked? <==> f.Panic?
    ensures f.Returned? ==> r == Failed(f.error)
  {
    if f.Panic? then Panicked else Failed(f.error)
  }

  /** The whole of `write_archive_to_stream`, as written: the assertion on thin BSD-like
      archives, the layout with checked member indices, the conversions of the writers,
      and the bytes they write. */
  function ArchiveOutcome(members: seq<NewArchiveMember>, kind0: ArchiveKind, thin: bool, isEc: bool): (r: Outcome)
    requires kind0 != AixBig
    ensures thin && IsBsdLike(kind0) ==> r == Panicked
  {
    if thin && IsBsdLike(kind0) then Panicked
    else
      var p := PlanArchive(Checked, members, kind0, thin, isEc);
      if p.Err? then Stopped(p.error)
      else if !WritableAsWritten(p.value) then Panicked
      else Written(ArchiveBytesAsWritten(thin, p.value))
  }

  /** The same with the three defects recorded under Findings corrected: member indices
      narrowed as `uint16_t` is in the C++ original, a COFF map needing only the members'
      starts to fit, and `/<ECSYMBOLS>` written only where the headers size counts it. */
  function CorrectedOutcome(members: seq<NewArchiveMember>, kind0: ArchiveKind, thin: bool, isEc: bool): (r: Outcome)
    requires kind0 != AixBig
    ensures thin && IsBsdLike(kind0) ==> r == Panicked
  {
    if thin && IsBsdLike(kind0) then Panicked
    else
      var p := PlanArchive(Wrapping, members, kind0, thin, isEc);
      if p.Err? then Stopped(p.error)
      else if !Writable(p.value) then Panicked
      else Written(ArchiveBytes(thin, p.value))
  }

  /** The member loop at the end. */
  method WriteMembers(ds: seq<MemberData>) returns (out: seq<u8>)
    ensures out == MembersBytes(ds, |ds|)
  {
    out := [];
    for i := 0 to |ds|
      invariant out == MembersBytes(ds, i)
    {
      out := out + ds[i].header;
      out := out + ds[i].data;
      out := out + ds[i].padding;
    }
  }

  /** `write_archive_to_stream` on a stream starting at position 0. */
  method WriteArchiveToStream(members: seq<NewArchiveMember>, kind0: ArchiveKind, thin: bool, isEc: bool)
    returns (r: Outcome)
    requires kind0 != AixBig && SliceLengths(members)
    ensures r == ArchiveOutcome(members, kind0, thin, isEc)
  {
    if thin && IsBsdLike(kind0) {
      return Panicked;
    }
    var p := PrepareArchive(members, kind0, thin, isEc);
    if p.Err? {
      return Stopped(p.error);
    }
    r := WritePlanned(thin, p.value);
  }

  /** The part of `write_archive_to_stream` before the magic is written: the kind
      check and the layout, as written. */
  method PrepareArchive(members: seq<NewArchiveMember>, kind0: ArchiveKind, thin: bool, isEc: bool)
    returns (r: Result<Plan, Failure>)
    requires kind0 != AixBig && SliceLengths(members)
    ensures r == PlanArchive(Checked, members, kind0, thin, isEc)
    ensures r.Ok? ==> !IsAixBigArchive(r.value.kind)
  {
    var kind := kind0;
    if IsCoffArchive(kind) && |members| > MAX_COFF_MEMBERS {
      kind := Gnu;
    }
    assert kind == MemberKind(kind0, |members|);
    var data, stringTable, symNames, symMap := ComputeMemberData([], [], kind, thin, MapIf(kind, SymMap(isEc, [], [])), members);
    if data.Err? {
      return Err(data.error);
    }
    var plan := PlanLayout(kind, isEc, data.value, stringTable, symNames, symMap);
    r := Ok(plan);
  }

  /** Then the totals, the headers size and the widening check. */
  method PlanLayout(kind0: ArchiveKind, isEc: bool, ds: seq<MemberData>, stringTable: seq<u8>, symNames: seq<u8>,
                    laidOutMap: Option<SymMap>) returns (p: Plan)
    requires kind0 != AixBig
    ensures p == PlanFrom(kind0, isEc, ds, stringTable, symNames, laidOutMap)
  {
    var kind := kind0;
    var symMap := SymMap(isEc, [], []);
    if laidOutMap.Some? {
      symMap := laidOutMap.value;
    }
    var stringTableSize := StringMemberSize(stringTable);
    var lastEnd, lastHeader, numSyms := MemberTotals(ds);
    var maybeHeadersSize: Option<nat> := None;
    if !Is64BitKind(kind) {
      var h := HeadersSize(kind, |ds|, stringTableSize, numSyms, |symNames|, MapIf(kind, symMap));
      maybeHeadersSize := Some(h);
      if h + lastHeader >= SYM64_THRESHOLD {
        if kind == Darwin {
          kind := Darwin64;
        } else {
          kind := Gnu64;
        }
        maybeHeadersSize := None;
      }
    }
    assert kind == FinalKind(kind0, FinalHeadersSize(kind0, ds, stringTable, numSyms, symNames, symMap), lastHeader);
    var headersSize: nat;
    if maybeHeadersSize.Some? {
      headersSize := maybeHeadersSize.value;
    } else {
      headersSize := HeadersSize(kind, |ds|, stringTableSize, numSyms, |symNames|, MapIf(kind, symMap));
    }
    p := Plan(kind, ds, symNames, stringTable, symMap, headersSize, numSyms);
  }

  /** The writing part of `write_archive_to_stream`, from the magic on, as written: the
      bytes, or a panic where a conversion fails.  The conversions of the symbol table
      and the EC count are checked before anything is written, as a panic discards what
      was written before it. */
  method WritePlanned(thin: bool, p: Plan) returns (r: Outcome)
    requires !IsAixBigArchive(p.kind)
    ensures WritableAsWritten(p) ==> r == Written(ArchiveBytesAsWritten(thin, p))
    ensures !WritableAsWritten(p) ==> r == Panicked
  {
    if !SymbolTableFits(p.kind, p.members, p.symNames, p.headersSize, p.numSyms) || |p.symMap.ecEntries| >= 0x1_0000_0000 {
      return Panicked;
    }
    var prefix := WritePrefix(thin, p);
    if prefix.None? {
      return Panicked;
    }
    var rest := WriteMembers(p.members);
    r := Written(prefix.value + rest);
  }

  /** The magic and the members in front of the archive's own members, as written: None
      is a panic of `write_symbol_map`. */
  method WritePrefix(thin: bool, p: Plan) returns (r: Option<seq<u8>>)
    requires !IsAixBigArchive(p.kind) && SymbolTableFits(p.kind, p.members, p.symNames, p.headersSize, p.numSyms)
    requires |p.symMap.ecEntries| < 0x1_0000_0000
    ensures r.Some? <==> WritableAsWritten(p)
    ensures r.Some? ==> r.value == PrefixAsWritten(thin, p)
  {
    var out := Magic(thin);
    var symtab := WriteSymbolTable(p.kind, p.members, p.symNames, p.headersSize, p.numSyms, |out|);
    out := out + symtab;
    var mapPart := WriteMapPart(p, |out|);
    if mapPart.None? {
      return None;
    }
    out := out + mapPart.value;
    var stringPart := WriteStringMember(p.stringTable);
    out := out + stringPart;
    var ecPart := WriteEcPart(p);
    r := Some(out + ecPart);
  }

  /** The `//` member, when a name went to the string table. */
  method WriteStringMember(stringTable: seq<u8>) returns (out: seq<u8>)
    ensures out == StringMemberBytes(stringTable)
  {
    out := [];
    if StringMemberSize(stringTable) > 0 {
      var m := StringTableMember(stringTable);
      out := m.header + m.data + m.padding;
    }
  }

  /** `/<ECSYMBOLS>`, as written whenever the EC map is not empty. */
  method WriteEcPart(p: Plan) returns (out: seq<u8>)
    requires |p.symMap.ecEntries| < 0x1_0000_0000
    ensures out == if EcWrittenAsWritten(p) then EcSymbolsMember(p.symMap) else []
  {
    out := [];
    if p.symMap.ecEntries != [] {
      out := WriteEcSymbols(p.symMap);
    }
  }

  /** For COFF the second linker member at stream position `pos`, as written: None is a
      panic of `write_symbol_map`. */
  method WriteMapPart(p: Plan, pos: nat) returns (r: Option<seq<u8>>)
    requires !IsAixBigArchive(p.kind) && SymbolTableFits(p.kind, p.members, p.symNames, p.headersSize, p.numSyms)
    requires |p.symMap.ecEntries| < 0x1_0000_0000
    ensures r.Some? <==> WritableAsWritten(p)
    ensures r.Some? ==> r.value == MapPart(p, pos)
  {
    SymbolMapFitsAsWrittenIs(p.members, p.symMap, p.headersSize);
    if !IsCoffArchive(p.kind) {
      return Some([]);
    }
    r := WriteSymbolMap(p.kind, p.members, p.symMap, p.headersSize, pos);
  }
}
