/** What `write_archive_to_stream` (src/archive_writer.rs) guarantees.  As written it
    panics for a thin BSD-like archive, for a 65536th member, and for a COFF archive whose
    last member ends past 4 GiB; it fails exactly when the first member that does not pass
    returns an error; and what it writes starts with the magic and is the corrected
    writer's archive, but for an extra `/<ECSYMBOLS>` member after widening.  The
    corrected writer panics only for a thin BSD-like archive and writes an index whose
    entries decode to where each member's header starts, and each member's bytes there. */
module ArchiveProperties {
  import opened Bytes
  import opened Bits
  import opened Wrappers
  import opened Archive
  import opened MemberHeaders
  import opened SymbolTables
  import opened SymbolCollection
  import opened MemberLayout
  import opened LayoutFacts
  import opened LayoutProperties
  import opened ArchiveWriter
  import opened ArchiveLayout

  /** Offsets that locate names in a table lie inside it. */
  lemma NamesLocatedBelow(t: seq<u8>, members: seq<NewArchiveMember>, ds: seq<MemberData>)
    requires NamesLocated(t, members, ds)
    ensures SymbolsBelow(ds, |t|)
  {
    forall i, k | 0 <= i < |ds| && 0 <= k < |ds[i].symbols| ensures ds[i].symbols[k] < |t| {
      assert Locates(t, ds[i].symbols, 0, ReportedNames(members[i]));
      assert EntryAt(t, ds[i].symbols[0 + k], Terminated(ReportedNames(members[i])[k]));
    }
  }

  lemma PlanFromInvariant(kind: ArchiveKind, isEc: bool, ds: seq<MemberData>, stringTable: seq<u8>,
                          symNames: seq<u8>, laidOutMap: Option<SymMap>)
    requires kind != AixBig
    requires IsCoffArchive(kind) ==> |ds| <= MAX_COFF_MEMBERS
    requires IsBsdLike(kind) ==> SymbolsBelow(ds, |symNames|)
    ensures PlanInvariant(PlanFrom(kind, isEc, ds, stringTable, symNames, laidOutMap))
  {
    var p := PlanFrom(kind, isEc, ds, stringTable, symNames, laidOutMap);
    var symMap := if laidOutMap.Some? then laidOutMap.value else SymMap(isEc, [], []);
    var numSyms := SymbolsBefore(ds, |ds|);
    var h32 := FinalHeadersSize(kind, ds, stringTable, numSyms, symNames, symMap);
    var final := FinalKind(kind, h32, LastHeaderOffset(ds));
    assert p == Plan(final, ds, symNames, stringTable, symMap, FinalHeadersSize(final, ds, stringTable, numSyms, symNames, symMap), numSyms);
  }

  /** The plan is made from the layout of all members for the kind they are laid out for,
      with the empty-table rule applied to the symbol names. */
  lemma PlanArchiveLayout(nw: Narrowing, members: seq<NewArchiveMember>, kind0: ArchiveKind, thin: bool, isEc: bool, p: Plan)
    returns (l: Layout)
    requires kind0 != AixBig && PlanArchive(nw, members, kind0, thin, isEc) == Ok(p)
    ensures var kind := MemberKind(kind0, |members|);
      Layouts(nw, kind, thin, members, Start([], [], MapIf(kind, SymMap(isEc, [], []))), |members|) == Ok(l)
      && p == PlanFrom(kind, isEc, l.members, l.stringTable, EmptySymbolTableRule(kind, |members| > 0, l.symNames), l.symMap)
  {
    var kind := MemberKind(kind0, |members|);
    l := Layouts(nw, kind, thin, members, Start([], [], MapIf(kind, SymMap(isEc, [], []))), |members|).value;
  }

  /** Without a map the symbol offsets lie inside the symbol-name table. */
  lemma NoMapSymbolsBelow(nw: Narrowing, kind: ArchiveKind, thin: bool, members: seq<NewArchiveMember>, init: Layout, l: Layout)
    requires init.members == [] && init.symMap.None? && Layouts(nw, kind, thin, members, init, |members|) == Ok(l)
    ensures SymbolsBelow(l.members, |l.symNames|)
  {
    LayoutsNoMap(nw, kind, thin, members, init, |members|);
    NamesLocatedBelow(l.symNames, members, l.members);
  }

  /** What the invariant needs of the layout: one laid-out member per input member and,
      without a map, every symbol offset inside the symbol-name table. */
  lemma LaidOutFacts(nw: Narrowing, kind: ArchiveKind, thin: bool, members: seq<NewArchiveMember>, isEc: bool, l: Layout)
    requires Layouts(nw, kind, thin, members, Start([], [], MapIf(kind, SymMap(isEc, [], []))), |members|) == Ok(l)
    ensures |l.members| == |members| && (IsBsdLike(kind) ==> SymbolsBelow(l.members, |l.symNames|))
  {
    var init := Start([], [], MapIf(kind, SymMap(isEc, [], [])));
    LayoutsShape(nw, kind, thin, members, init, |members|);
    if IsBsdLike(kind) {
      NoMapSymbolsBelow(nw, kind, thin, members, init, l);
    }
  }

  /** Every plan the writer makes keeps the invariant. */
  lemma PlanArchiveInvariant(nw: Narrowing, members: seq<NewArchiveMember>, kind0: ArchiveKind, thin: bool, isEc: bool, p: Plan)
    requires kind0 != AixBig && PlanArchive(nw, members, kind0, thin, isEc) == Ok(p)
    ensures PlanInvariant(p)
  {
    var kind := MemberKind(kind0, |members|);
    var l := PlanArchiveLayout(nw, members, kind0, thin, isEc, p);
    LaidOutFacts(nw, kind, thin, members, isEc, l);
    var symNames := EmptySymbolTableRule(kind, |members| > 0, l.symNames);
    assert IsBsdLike(kind) ==> SymbolsBelow(l.members, |symNames|);
    PlanFromInvariant(kind, isEc, l.members, l.stringTable, symNames, l.symMap);
  }

  /** And holds one laid-out member per input member, with its stored bytes and padding. */
  lemma PlanArchiveShaped(nw: Narrowing, members: seq<NewArchiveMember>, kind0: ArchiveKind, thin: bool, isEc: bool, p: Plan)
    requires kind0 != AixBig && PlanArchive(nw, members, kind0, thin, isEc) == Ok(p)
    ensures |p.members| == |members| && Shaped(MemberKind(kind0, |members|), thin, members, p.members)
  {
    var kind := MemberKind(kind0, |members|);
    var l := PlanArchiveLayout(nw, members, kind0, thin, isEc, p);
    LayoutsShape(nw, kind, thin, members, Start([], [], MapIf(kind, SymMap(isEc, [], []))), |members|);
  }

  /** Below 65536 members the two narrowings make the same plan; and the `Checked` one
      makes a plan only below 65536 members. */
  lemma PlanNarrowingsAgree(members: seq<NewArchiveMember>, kind0: ArchiveKind, thin: bool, isEc: bool)
    requires kind0 != AixBig
    ensures |members| < 0x1_0000 ==> PlanArchive(Checked, members, kind0, thin, isEc) == PlanArchive(Wrapping, members, kind0, thin, isEc)
    ensures PlanArchive(Checked, members, kind0, thin, isEc).Ok? ==> |members| < 0x1_0000
  {
    var kind := MemberKind(kind0, |members|);
    var init := Start([], [], MapIf(kind, SymMap(isEc, [], [])));
    if |members| < 0x1_0000 {
      LayoutsNarrowingsAgree(kind, thin, members, init, |members|);
    }
    if Layouts(Checked, kind, thin, members, init, |members|).Ok? {
      CheckedLayoutsBound(kind, thin, members, init, |members|);
    }
  }

  /** As written the writer panics exactly for a thin BSD-like archive (the assertion at
      its top), when the 65536th member is reached without an error before it (the index
      conversion in `compute_member_data`), or when the plan cannot be written as written
      (a COFF last member ending past 4 GiB, or an EC map of 2^32 entries). */
  lemma WriterPanicsExactlyWhen(members: seq<NewArchiveMember>, kind0: ArchiveKind, thin: bool, isEc: bool)
    requires kind0 != AixBig
    ensures var kind := MemberKind(kind0, |members|);
      var p := PlanArchive(Checked, members, kind0, thin, isEc);
      ArchiveOutcome(members, kind0, thin, isEc).Panicked? <==>
        (thin && IsBsdLike(kind0))
        || (0x1_0000 <= |members| && (forall k :: 0 <= k < 0xffff ==> Passes(Checked, kind, thin, members, k))
            && !TooBig(kind, thin, members[0xffff]))
        || (p.Ok? && !((IsCoffArchive(p.value.kind) ==> p.value.headersSize + SizeBefore(p.value.members, |p.value.members|) < SYM64_THRESHOLD)
                       && |p.value.symMap.ecEntries| < 0x1_0000_0000))
  {
    WriterPanicsWhere(members, kind0, thin, isEc);
    PlanPanics(members, kind0, thin, isEc);
    var p := PlanArchive(Checked, members, kind0, thin, isEc);
    if p.Ok? {
      PlanArchiveInvariant(Checked, members, kind0, thin, isEc, p.value);
      PlanWritableAsWritten(p.value);
    }
  }

  /** The panics of the writer as written: the assertion, a panic of the layout, or a
      plan that cannot be written as written. */
  lemma WriterPanicsWhere(members: seq<NewArchiveMember>, kind0: ArchiveKind, thin: bool, isEc: bool)
    requires kind0 != AixBig
    ensures var p := PlanArchive(Checked, members, kind0, thin, isEc);
      ArchiveOutcome(members, kind0, thin, isEc).Panicked? <==>
        (thin && IsBsdLike(kind0)) || p == Err(Panic) || (p.Ok? && !WritableAsWritten(p.value))
  {
  }

  /** The layout as written panics exactly when the 65536th member is reached without an
      error before it and is not too big. */
  lemma PlanPanics(members: seq<NewArchiveMember>, kind0: ArchiveKind, thin: bool, isEc: bool)
    requires kind0 != AixBig
    ensures var kind := MemberKind(kind0, |members|);
      PlanArchive(Checked, members, kind0, thin, isEc) == Err(Panic) <==>
        0x1_0000 <= |members| && (forall k :: 0 <= k < 0xffff ==> Passes(Checked, kind, thin, members, k))
        && !TooBig(kind, thin, members[0xffff])
  {
    var kind := MemberKind(kind0, |members|);
    CheckedLayoutsPanic(kind, thin, members, Start([], [], MapIf(kind, SymMap(isEc, [], []))), |members|);
  }

  /** The corrected writer panics exactly for a thin BSD-like archive: every u32
      conversion and `checked_add` it makes later succeeds. */
  lemma CorrectedPanicsOnlyOnThinBsd(members: seq<NewArchiveMember>, kind0: ArchiveKind, thin: bool, isEc: bool)
    requires kind0 != AixBig
    ensures CorrectedOutcome(members, kind0, thin, isEc).Panicked? <==> thin && IsBsdLike(kind0)
  {
    PlanArchiveReturns(members, kind0, thin, isEc);
    var p := PlanArchive(Wrapping, members, kind0, thin, isEc);
    if !(thin && IsBsdLike(kind0)) && p.Ok? {
      PlanArchiveInvariant(Wrapping, members, kind0, thin, isEc, p.value);
      PlanWritable(p.value);
    }
  }

  /** Past the assertion, the writer stops where the first member that does not pass
      stops the layout: with its error or, for a 65536th member, with a panic. */
  lemma WriterFailsFirst(nw: Narrowing, members: seq<NewArchiveMember>, kind0: ArchiveKind, thin: bool, isEc: bool, j: nat)
    requires kind0 != AixBig && !(thin && IsBsdLike(kind0)) && j < |members|
    requires forall k :: 0 <= k < j ==> Passes(nw, MemberKind(kind0, |members|), thin, members, k)
    requires !Passes(nw, MemberKind(kind0, |members|), thin, members, j)
    ensures nw == Checked ==>
      ArchiveOutcome(members, kind0, thin, isEc) == Stopped(MemberError(nw, MemberKind(kind0, |members|), thin, members, j))
    ensures nw == Wrapping ==>
      CorrectedOutcome(members, kind0, thin, isEc) == Stopped(MemberError(nw, MemberKind(kind0, |members|), thin, members, j))
  {
    var kind := MemberKind(kind0, |members|);
    FirstError(nw, kind, thin, members, Start([], [], MapIf(kind, SymMap(isEc, [], []))), |members|, j);
  }

  /** A plan that could not be made stopped at the first member that does not pass. */
  lemma FailingMember(nw: Narrowing, members: seq<NewArchiveMember>, kind0: ArchiveKind, thin: bool, isEc: bool)
    returns (j: nat)
    requires kind0 != AixBig && PlanArchive(nw, members, kind0, thin, isEc).Err?
    ensures var kind := MemberKind(kind0, |members|);
      j < |members| && !Passes(nw, kind, thin, members, j)
      && (forall k :: 0 <= k < j ==> Passes(nw, kind, thin, members, k))
      && PlanArchive(nw, members, kind0, thin, isEc) == Err(MemberError(nw, kind, thin, members, j))
  {
    var kind := MemberKind(kind0, |members|);
    var init := Start([], [], MapIf(kind, SymMap(isEc, [], [])));
    LayoutsOk(nw, kind, thin, members, init, |members|);
    j := FirstFailing(nw, kind, thin, members, |members|);
    FirstError(nw, kind, thin, members, init, |members|, j);
  }

  /** So the writer as written fails exactly when the first member that does not pass
      returns an error (it is too big, or its symbols cannot be read)... */
  lemma WriterFails(members: seq<NewArchiveMember>, kind0: ArchiveKind, thin: bool, isEc: bool)
    requires kind0 != AixBig && !(thin && IsBsdLike(kind0))
    ensures var kind := MemberKind(kind0, |members|);
      ArchiveOutcome(members, kind0, thin, isEc).Failed? <==>
        exists j :: 0 <= j < |members| && !Passes(Checked, kind, thin, members, j)
          && (forall k :: 0 <= k < j ==> Passes(Checked, kind, thin, members, k))
          && MemberError(Checked, kind, thin, members, j).Returned?
  {
    var kind := MemberKind(kind0, |members|);
    if ArchiveOutcome(members, kind0, thin, isEc).Failed? {
      var j := FailingMember(Checked, members, kind0, thin, isEc);
      WriterFailsFirst(Checked, members, kind0, thin, isEc, j);
    }
    if exists j :: 0 <= j < |members| && !Passes(Checked, kind, thin, members, j)
         && (forall k :: 0 <= k < j ==> Passes(Checked, kind, thin, members, k))
         && MemberError(Checked, kind, thin, members, j).Returned? {
      var j :| 0 <= j < |members| && !Passes(Checked, kind, thin, members, j)
         && (forall k :: 0 <= k < j ==> Passes(Checked, kind, thin, members, k))
         && MemberError(Checked, kind, thin, members, j).Returned?;
      WriterFailsFirst(Checked, members, kind0, thin, isEc, j);
    }
  }

  /** ...and the corrected one exactly when some member does not pass. */
  lemma CorrectedFails(members: seq<NewArchiveMember>, kind0: ArchiveKind, thin: bool, isEc: bool)
    requires kind0 != AixBig && !(thin && IsBsdLike(kind0))
    ensures CorrectedOutcome(members, kind0, thin, isEc).Failed? <==>
      exists j :: 0 <= j < |members| && !Passes(Wrapping, MemberKind(kind0, |members|), thin, members, j)
  {
    var kind := MemberKind(kind0, |members|);
    CorrectedFailsWithoutPlan(members, kind0, thin, isEc);
    ComputedMembersOk(Wrapping, kind, thin, members, [], [], MapIf(kind, SymMap(isEc, [], [])));
  }

  /** Past the assertion the corrected writer fails exactly when it makes no plan, as its
      layout never panics. */
  lemma CorrectedFailsWithoutPlan(members: seq<NewArchiveMember>, kind0: ArchiveKind, thin: bool, isEc: bool)
    requires kind0 != AixBig && !(thin && IsBsdLike(kind0))
    ensures CorrectedOutcome(members, kind0, thin, isEc).Failed? <==> PlanArchive(Wrapping, members, kind0, thin, isEc).Err?
  {
    PlanArchiveReturns(members, kind0, thin, isEc);
  }

  /** The corrected layout never panics. */
  lemma PlanArchiveReturns(members: seq<NewArchiveMember>, kind0: ArchiveKind, thin: bool, isEc: bool)
    requires kind0 != AixBig
    ensures PlanArchive(Wrapping, members, kind0, thin, isEc) != Err(Panic)
  {
    var kind := MemberKind(kind0, |members|);
    WrappingLayoutsReturn(kind, thin, members, Start([], [], MapIf(kind, SymMap(isEc, [], []))), |members|);
  }

  /** What the writer as written writes: the corrected writer's plan, made with the
      corrected narrowing too, and its bytes, but for an `/<ECSYMBOLS>` member after the
      `//` member when an EC map survives widening to GNU64.  Without that member the
      corrected writer writes the same bytes. */
  lemma WrittenAsWritten(members: seq<NewArchiveMember>, kind0: ArchiveKind, thin: bool, isEc: bool, bytes: seq<u8>)
    requires kind0 != AixBig && ArchiveOutcome(members, kind0, thin, isEc) == Written(bytes)
    ensures PlanArchive(Checked, members, kind0, thin, isEc) == PlanArchive(Wrapping, members, kind0, thin, isEc)
    ensures var p := PlanArchive(Wrapping, members, kind0, thin, isEc);
      p.Ok? && PlanInvariant(p.value) && Writable(p.value)
      && bytes == Prefix(thin, p.value)
                  + (if EcWrittenAsWritten(p.value) && !EcWritten(p.value) then EcSymbolsMember(p.value.symMap) else [])
                  + MembersBytes(p.value.members, |p.value.members|)
      && (!EcWrittenAsWritten(p.value) || EcWritten(p.value) ==> CorrectedOutcome(members, kind0, thin, isEc) == Written(bytes))
  {
    PlanNarrowingsAgree(members, kind0, thin, isEc);
    var p := PlanArchive(Wrapping, members, kind0, thin, isEc).value;
    PlanArchiveInvariant(Wrapping, members, kind0, thin, isEc, p);
    PrefixAsWrittenExtends(thin, p);
    EmptyRight(Prefix(thin, p));
  }

  /** The two writers come to the same below 65536 members, when a COFF archive's last
      member ends below 4 GiB and no EC map survives widening to GNU64. */
  lemma WritersAgree(members: seq<NewArchiveMember>, kind0: ArchiveKind, thin: bool, isEc: bool)
    requires kind0 != AixBig && |members| < 0x1_0000
    requires var p := PlanArchive(Wrapping, members, kind0, thin, isEc);
      p.Ok? ==>
        (IsCoffArchive(p.value.kind) ==> p.value.headersSize + SizeBefore(p.value.members, |p.value.members|) < SYM64_THRESHOLD)
        && (EcWrittenAsWritten(p.value) ==> EcWritten(p.value))
    ensures ArchiveOutcome(members, kind0, thin, isEc) == CorrectedOutcome(members, kind0, thin, isEc)
  {
    PlanNarrowingsAgree(members, kind0, thin, isEc);
    var p := PlanArchive(Wrapping, members, kind0, thin, isEc);
    if p.Ok? {
      PlanArchiveInvariant(Wrapping, members, kind0, thin, isEc, p.value);
      AsWrittenBytesAgree(thin, p.value);
    }
  }

  /** A written archive starts with the magic: `!<thin>\n` for a thin archive and
      `!<arch>\n` otherwise. */
  lemma WrittenArchiveStartsWithMagic(members: seq<NewArchiveMember>, kind0: ArchiveKind, thin: bool, isEc: bool,
                                      bytes: seq<u8>)
    requires kind0 != AixBig && ArchiveOutcome(members, kind0, thin, isEc) == Written(bytes)
    ensures |bytes| >= 8 && bytes[..8] == Magic(thin)
  {
    var p := PlanArchive(Checked, members, kind0, thin, isEc).value;
    AsWrittenStartsWithMagic(thin, p);
  }

  /** An archive the corrected writer writes is the bytes of its plan, which keeps the
      invariant. */
  lemma WrittenPlan(members: seq<NewArchiveMember>, kind0: ArchiveKind, thin: bool, isEc: bool,
                    p: Plan, bytes: seq<u8>)
    requires kind0 != AixBig && PlanArchive(Wrapping, members, kind0, thin, isEc) == Ok(p)
    requires CorrectedOutcome(members, kind0, thin, isEc) == Written(bytes)
    ensures PlanInvariant(p) && Writable(p) && bytes == ArchiveBytes(thin, p)
  {
    PlanArchiveInvariant(Wrapping, members, kind0, thin, isEc, p);
  }

  /** Member `i` of an archive the corrected writer writes: the header, the stored bytes
      (none for a thin archive) and the padding of input member `i`, right after the
      members before it. */
  lemma WrittenMemberPlaced(members: seq<NewArchiveMember>, kind0: ArchiveKind, thin: bool, isEc: bool,
                            p: Plan, bytes: seq<u8>, i: nat)
    requires kind0 != AixBig && PlanArchive(Wrapping, members, kind0, thin, isEc) == Ok(p)
    requires CorrectedOutcome(members, kind0, thin, isEc) == Written(bytes) && i < |members|
    ensures |p.members| == |members|
    ensures Occurs(bytes, MembersStart(p) + SizeBefore(p.members, i), MemberImage(p.members[i]))
    ensures p.members[i].data == MemberBytes(thin, members[i])
    ensures p.members[i].padding == PaddingBytes(MemberKind(kind0, |members|), thin, members[i])
  {
    PlanArchiveShaped(Wrapping, members, kind0, thin, isEc, p);
    WrittenPlan(members, kind0, thin, isEc, p, bytes);
    PlanMemberPlaced(thin, p, bytes, i);
  }

  /** In an archive the corrected writer writes, symbol `k` of member `i` has entry
      SymbolsBefore(i) + k in the symbol table body written after its header, and a
      linker that decodes that entry's member offset finds member `i` there; for the
      BSD-like kinds the entry's string offset decodes to the symbol's. */
  lemma WrittenIndexLocatesMember(members: seq<NewArchiveMember>, kind0: ArchiveKind, thin: bool, isEc: bool,
                                  p: Plan, bytes: seq<u8>, i: nat, k: nat)
    requires kind0 != AixBig && PlanArchive(Wrapping, members, kind0, thin, isEc) == Ok(p)
    requires CorrectedOutcome(members, kind0, thin, isEc) == Written(bytes) && |bytes| < TWO_64
    requires !SkipsSymbolTable(p.kind, p.symNames) && i < |p.members| && k < |p.members[i].symbols|
    ensures var hdr := WriteSymbolTableHeader(p.kind, SymtabSize(p.kind, p.numSyms, |p.symNames|), 8);
      var body := SymbolTableBody(p.kind, p.members, p.symNames, p.headersSize, p.numSyms);
      var j := SymbolsBefore(p.members, i) + k;
      var o := ReadNBits(p.kind, MemberOffsetField(p.kind, body, j));
      Occurs(bytes, 8, hdr) && Occurs(bytes, 8 + |hdr|, body) && HasEntry(p.kind, body, j)
      && o == MembersStart(p) + SizeBefore(p.members, i)
      && Occurs(bytes, MembersStart(p) + SizeBefore(p.members, i), MemberImage(p.members[i]))
      && (IsBsdLike(p.kind) ==> ReadNBits(p.kind, StringOffsetField(p.kind, body, j)) == p.members[i].symbols[k])
  {
    WrittenPlan(members, kind0, thin, isEc, p, bytes);
    PlanMemberPlaced(thin, p, bytes, i);
    PlanSymbolTableAt(thin, p);
    if IsBsdLike(p.kind) {
      PlanNamesWithin(p);
      SymbolBelow(p.members, |p.symNames|, i, k);
    }
    PlanIndexEntry(p, i, k);
  }

  /** The three NULs the empty-table rule may put in keep every name where it was. */
  lemma EmptyRuleKeepsNames(kind: ArchiveKind, hasObject: bool, t: seq<u8>, members: seq<NewArchiveMember>, ds: seq<MemberData>)
    requires NamesLocated(t, members, ds)
    ensures NamesLocated(EmptySymbolTableRule(kind, hasObject, t), members, ds)
  {
    var u := EmptySymbolTableRule(kind, hasObject, t);
    if u != t {
      NamesLocatedKept(t, u, members, ds);
      assert t + u == u;
    }
  }

  /** Outside COFF, the string offset of symbol `k` of member `i` points at the name its
      reader reported, followed by a NUL, in the symbol-name table. */
  lemma NoMapIndexNames(nw: Narrowing, members: seq<NewArchiveMember>, kind0: ArchiveKind, thin: bool, isEc: bool,
                        p: Plan, i: nat, k: nat)
    requires kind0 != AixBig && PlanArchive(nw, members, kind0, thin, isEc) == Ok(p)
    requires !IsCoffArchive(MemberKind(kind0, |members|)) && i < |p.members| && k < |p.members[i].symbols|
    ensures i < |members| && k < |ReportedNames(members[i])|
    ensures EntryAt(p.symNames, p.members[i].symbols[k], Terminated(ReportedNames(members[i])[k]))
  {
    var kind := MemberKind(kind0, |members|);
    var l := PlanArchiveLayout(nw, members, kind0, thin, isEc, p);
    LayoutsNoMap(nw, kind, thin, members, Start([], [], None), |members|);
    EmptyRuleKeepsNames(kind, |members| > 0, l.symNames, members, l.members);
    assert Locates(p.symNames, p.members[i].symbols, 0, ReportedNames(members[i]));
    assert p.members[i].symbols[0 + k] == p.members[i].symbols[k];
  }

  /** An archive with members gets a symbol table, three NULs of names if need be, unless
      its members were laid out for COFF and it was widened to a kind that leaves an empty
      table out. */
  lemma NonEmptyArchiveHasIndex(nw: Narrowing, members: seq<NewArchiveMember>, kind0: ArchiveKind, thin: bool, isEc: bool, p: Plan)
    requires kind0 != AixBig && PlanArchive(nw, members, kind0, thin, isEc) == Ok(p) && members != []
    ensures !IsCoffArchive(MemberKind(kind0, |members|)) || p.kind == Coff ==> !SkipsSymbolTable(p.kind, p.symNames)
    ensures MembersStart(p) == p.headersSize <== !SkipsSymbolTable(p.kind, p.symNames)
  {
    var l := PlanArchiveLayout(nw, members, kind0, thin, isEc, p);
  }

  /** The EC map is only filled for members laid out for COFF, and then the final kind is
      COFF or, widened, GNU64. */
  lemma EcMapOnlyForCoff(nw: Narrowing, members: seq<NewArchiveMember>, kind0: ArchiveKind, thin: bool, isEc: bool, p: Plan)
    requires kind0 != AixBig && PlanArchive(nw, members, kind0, thin, isEc) == Ok(p) && p.symMap.ecEntries != []
    ensures IsCoffArchive(MemberKind(kind0, |members|)) && (p.kind == Coff || p.kind == Gnu64)
    ensures p.kind == Gnu64 ==> !EcWritten(p)
  {
    var l := PlanArchiveLayout(nw, members, kind0, thin, isEc, p);
  }
}
