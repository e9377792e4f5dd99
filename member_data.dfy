/** `compute_member_data` (src/archive_writer.rs): every member's header, data and
    padding, the long-name table, the symbol-name table and the COFF symbol map, built
    member by member with a running archive position. */
module MemberLayout {
  import opened Bytes
  import opened Wrappers
  import opened Archive
  import opened Alignment
  import opened OrderedMaps
  import opened MemberHeaders
  import opened SymbolTables
  import opened SymbolCollection

  /** `PADDING_DATA`: the padding after a member is a prefix of eight '\n' bytes. */
  const PADDING_DATA: seq<u8> := Repeat(NEWLINE, 8)

  /** The bytes stored for a member: none in a thin archive, which only references files. */
  function MemberBytes(thin: bool, m: NewArchiveMember): seq<u8> {
    if thin then [] else m.buf
  }

  /** Darwin pads the stored bytes to a multiple of 8 for ld64; nothing else does. */
  function MemberPadding(kind: ArchiveKind, thin: bool, m: NewArchiveMember): nat {
    if IsDarwin(kind) then PaddingTo(|MemberBytes(thin, m)|, 8) else 0
  }

  /** Then every member is padded to an even length. */
  function TailPadding(kind: ArchiveKind, thin: bool, m: NewArchiveMember): nat {
    PaddingTo(|MemberBytes(thin, m)| + MemberPadding(kind, thin, m), 2)
  }

  /** Both paddings together never exceed the eight bytes of `PADDING_DATA`: once the
      Darwin padding has reached a multiple of 8, the length is already even. */
  lemma PaddingSum(darwin: bool, len: nat, memberPadding: nat, tailPadding: nat)
    requires memberPadding == (if darwin then PaddingTo(len, 8) else 0)
    requires tailPadding == PaddingTo(len + memberPadding, 2)
    ensures memberPadding + tailPadding < 8
    ensures !darwin ==> tailPadding < 2
    ensures memberPadding + tailPadding == PaddingTo(len, if darwin then 8 else 2)
  {
    if darwin {
      var x := len + memberPadding;
      assert x % 2 == 0 by { assert x % 8 == 0; }
      AlignUpUnique(x, 2, x);
    }
  }

  lemma PaddingWithin(kind: ArchiveKind, thin: bool, m: NewArchiveMember)
    ensures MemberPadding(kind, thin, m) + TailPadding(kind, thin, m) < 8
    ensures !IsDarwin(kind) ==> MemberPadding(kind, thin, m) == 0 && TailPadding(kind, thin, m) < 2
  {
    PaddingSum(IsDarwin(kind), |MemberBytes(thin, m)|, MemberPadding(kind, thin, m), TailPadding(kind, thin, m));
  }

  /** The padding bytes written after a member. */
  function PaddingBytes(kind: ArchiveKind, thin: bool, m: NewArchiveMember): (r: seq<u8>)
    ensures |r| == MemberPadding(kind, thin, m) + TailPadding(kind, thin, m)
  {
    PaddingWithin(kind, thin, m);
    PADDING_DATA[..MemberPadding(kind, thin, m) + TailPadding(kind, thin, m)]
  }

  /** `compute_member_data` computes both paddings with `offset_to_alignment`, which
      agrees with the definitions above for every slice length. */
  lemma PaddingsAreOffsets(kind: ArchiveKind, thin: bool, m: NewArchiveMember)
    requires |m.buf| < 0x8000_0000_0000_0000
    ensures MemberPadding(kind, thin, m) == if IsDarwin(kind) then OffsetToAlignment(|MemberBytes(thin, m)|, 8) else 0
    ensures TailPadding(kind, thin, m) == OffsetToAlignment(|MemberBytes(thin, m)| + MemberPadding(kind, thin, m), 2)
  {
  }

  /** The size field: the member's own length plus the Darwin padding (the data length
      gives the padding, so a thin Darwin member gets none). */
  function MemberSizeField(kind: ArchiveKind, thin: bool, m: NewArchiveMember): nat {
    |m.buf| + MemberPadding(kind, thin, m)
  }

  predicate TooBig(kind: ArchiveKind, thin: bool, m: NewArchiveMember) {
    MemberSizeField(kind, thin, m) > MAX_MEMBER_SIZE
  }

  /** How many of the first `n` members are called `name`. */
  function NameCount(members: seq<NewArchiveMember>, n: nat, name: seq<u8>): nat
    requires n <= |members|
  {
    if n == 0 then 0
    else NameCount(members, n - 1, name) + (if members[n - 1].memberName == name then 1 else 0)
  }

  /** The start value of a name's counter on Darwin: 1 when several members share the
      name, 0 otherwise. */
  function DuplicateFlag(members: seq<NewArchiveMember>, name: seq<u8>): nat {
    if NameCount(members, |members|, name) > 1 then 1 else 0
  }

  /** The timestamp written for member `i`: the caller's, except on Darwin, where a
      member whose name is shared gets the 1-based count of its name so far and any other
      member gets 0. */
  function MemberMtime(kind: ArchiveKind, members: seq<NewArchiveMember>, i: nat): nat
    requires i < |members|
  {
    var name := members[i].memberName;
    if !IsDarwin(kind) then members[i].mtime
    else if DuplicateFlag(members, name) == 1 then NameCount(members, i + 1, name)
    else 0
  }

  /** The 1-based member index passed to `write_symbols`, narrowed to u16 by keeping its
      low 16 bits (`as u16`, the `uint16_t` of the C++ original); it is exact below 65536. */
  function MemberIndex(index: nat): (r: u16)
    ensures index < 0x1_0000 ==> r == index
  {
    index % 0x1_0000
  }

  /** The conversion as written, `index.try_into().unwrap()` to u16: None is the panic.
      It comes at the 65536th member whatever the kind, although only the COFF map, which
      is given up above 0xfffe members, ever stores the index. */
  function MemberIndexAsWritten(index: nat): (r: Option<u16>)
    ensures r.Some? <==> index < 0x1_0000
    ensures r.Some? ==> r.value == MemberIndex(index)
  {
    if index < 0x1_0000 then Some(index) else None
  }

  /** An archive of 65536 members panics as written at its last member, where the
      narrowing that keeps the low bits gives 0. */
  lemma MemberIndexAsWrittenPanicsAt65536()
    ensures MemberIndexAsWritten(0x1_0000).None? && MemberIndex(0x1_0000) == 0
    ensures forall index :: 1 <= index < 0x1_0000 ==> MemberIndexAsWritten(index) == Some(MemberIndex(index))
  {
  }

  /** Which narrowing the layout uses: `Checked` is the conversion as written, `Wrapping`
      the corrected one.  They differ only from the 65536th member on, and an archive that
      long is never laid out for COFF, the one kind whose map stores the index. */
  datatype Narrowing = Checked | Wrapping

  /** The index handed to `write_symbols`, or None for the panic. */
  function NarrowIndex(nw: Narrowing, index: nat): (r: Option<u16>)
    ensures r.None? <==> nw == Checked && index >= 0x1_0000
    ensures r.Some? ==> r.value == MemberIndex(index)
  {
    if nw == Checked then MemberIndexAsWritten(index) else Some(MemberIndex(index))
  }

  /** The state `compute_member_data` carries from member to member. */
  datatype Layout = Layout(stringTable: seq<u8>, memberNames: map<seq<u8>, nat>, symNames: seq<u8>,
                           symMap: Option<SymMap>, pos: nat, members: seq<MemberData>)

  predicate ValidLayout(l: Layout) {
    l.symMap.Some? ==> ValidSymMap(l.symMap.value)
  }

  /** The state before the first member: the tables handed in, no long names recorded yet,
      position 0 (the symbol table is left out, as only the position modulo 8 matters and
      that table is a multiple of 8 long). */
  function Start(stringTable: seq<u8>, symNames: seq<u8>, symMap: Option<SymMap>): (r: Layout)
    ensures r.members == [] && r.pos == 0 && r.memberNames == map[]
  {
    Layout(stringTable, map[], symNames, symMap, 0, [])
  }

  /** Member `i`: the too-big check, the header at the current position, the index
      narrowed for `write_symbols`, the symbols, then the member appended and the position
      advanced past it. */
  function MemberStep(nw: Narrowing, kind: ArchiveKind, thin: bool, members: seq<NewArchiveMember>, i: nat, l: Layout): (r: Result<Layout, Failure>)
    requires i < |members| && ValidLayout(l)
    ensures r.Ok? ==> ValidLayout(r.value) && r.value.symMap.Some? == l.symMap.Some?
    ensures r.Ok? <==> !TooBig(kind, thin, members[i]) && NarrowIndex(nw, i + 1).Some?
                       && members[i].objectReader.getSymbols(members[i].buf).Ok?
    ensures r.Err? && r.error == Panic <==> !TooBig(kind, thin, members[i]) && NarrowIndex(nw, i + 1).None?
    ensures r.Ok? ==>
      |r.value.members| == |l.members| + 1 && r.value.members[..|l.members|] == l.members
      && r.value.pos == l.pos + MemberSize(r.value.members[|l.members|])
      && |r.value.stringTable| >= |l.stringTable| && r.value.stringTable[..|l.stringTable|] == l.stringTable
  {
    var m := members[i];
    var size := MemberSizeField(kind, thin, m);
    if size > MAX_MEMBER_SIZE then Err(Returned(MemberTooBig(m.memberName)))
    else
      var h := PrintMemberHeader(l.pos, l.stringTable, l.memberNames, kind, thin, m, MemberMtime(kind, members, i), size);
      var index := NarrowIndex(nw, i + 1);
      if index.None? then Err(Panic)
      else
        var listed := m.objectReader.getSymbols(m.buf);
        if listed.Err? then Err(Returned(listed.error))
        else
          var st := Collect(m.objectReader.isEcObjectFile(m.buf), index.value,
                            SymbolsState([], l.symNames, l.symMap), listed.value, |listed.value|);
          var d := MemberData(st.offsets, h.header, MemberBytes(thin, m), PaddingBytes(kind, thin, m));
          Ok(Layout(h.stringTable, h.memberNames, st.symNames, st.symMap, l.pos + MemberSize(d), l.members + [d]))
  }

  /** The state after the first `n` members, or the first error. */
  function Layouts(nw: Narrowing, kind: ArchiveKind, thin: bool, members: seq<NewArchiveMember>, init: Layout, n: nat): (r: Result<Layout, Failure>)
    requires n <= |members| && ValidLayout(init)
    ensures r.Ok? ==> ValidLayout(r.value) && r.value.symMap.Some? == init.symMap.Some?
    ensures r.Ok? ==> |r.value.members| == |init.members| + n && r.value.pos >= init.pos
    decreases n, 0
  {
    if n == 0 then Ok(init) else LayoutAfter(nw, kind, thin, members, init, n - 1)
  }

  /** The state after member `i`: the error already met, or member `i` laid out. */
  function LayoutAfter(nw: Narrowing, kind: ArchiveKind, thin: bool, members: seq<NewArchiveMember>, init: Layout, i: nat): (r: Result<Layout, Failure>)
    requires i < |members| && ValidLayout(init)
    ensures r.Ok? ==> ValidLayout(r.value) && r.value.symMap.Some? == init.symMap.Some?
    ensures r.Ok? ==> |r.value.members| == |init.members| + i + 1 && r.value.pos >= init.pos
    decreases i, 2
  {
    var p := Layouts(nw, kind, thin, members, init, i);
    if p.Err? then p else NextLayout(nw, kind, thin, members, init, i)
  }

  /** Member `i` laid out after the first `i`, when those succeed. */
  function NextLayout(nw: Narrowing, kind: ArchiveKind, thin: bool, members: seq<NewArchiveMember>, init: Layout, i: nat): (r: Result<Layout, Failure>)
    requires i < |members| && ValidLayout(init) && Layouts(nw, kind, thin, members, init, i).Ok?
    ensures r.Ok? ==> ValidLayout(r.value) && r.value.symMap.Some? == init.symMap.Some?
    ensures r.Ok? ==> |r.value.members| == |init.members| + i + 1 && r.value.pos >= init.pos
    decreases i, 1
  {
    MemberStep(nw, kind, thin, members, i, Layouts(nw, kind, thin, members, init, i).value)
  }

  /** One more member: the error stays, or the member is laid out after the others. */
  lemma LayoutsNext(nw: Narrowing, kind: ArchiveKind, thin: bool, members: seq<NewArchiveMember>, init: Layout, i: nat)
    requires i < |members| && ValidLayout(init)
    ensures var p := Layouts(nw, kind, thin, members, init, i);
      Layouts(nw, kind, thin, members, init, i + 1)
      == if p.Err? then p else MemberStep(nw, kind, thin, members, i, p.value)
  {
    assert Layouts(nw, kind, thin, members, init, i + 1) == LayoutAfter(nw, kind, thin, members, init, i);
    if Layouts(nw, kind, thin, members, init, i).Ok? {
      assert LayoutAfter(nw, kind, thin, members, init, i) == NextLayout(nw, kind, thin, members, init, i);
    }
  }

  /** Once a member fails, the fold keeps that error. */
  lemma {:induction false} LayoutsErrPersists(nw: Narrowing, kind: ArchiveKind, thin: bool, members: seq<NewArchiveMember>, init: Layout, n: nat, k: nat)
    requires n <= k <= |members| && ValidLayout(init)
    requires Layouts(nw, kind, thin, members, init, n).Err?
    ensures Layouts(nw, kind, thin, members, init, k) == Layouts(nw, kind, thin, members, init, n)
    decreases k
  {
    if k > n {
      LayoutsErrPersists(nw, kind, thin, members, init, n, k - 1);
      LayoutsErrStays(nw, kind, thin, members, init, k - 1);
    }
  }

  lemma LayoutsErrStays(nw: Narrowing, kind: ArchiveKind, thin: bool, members: seq<NewArchiveMember>, init: Layout, i: nat)
    requires i < |members| && ValidLayout(init) && Layouts(nw, kind, thin, members, init, i).Err?
    ensures Layouts(nw, kind, thin, members, init, i + 1) == Layouts(nw, kind, thin, members, init, i)
  {
    assert Layouts(nw, kind, thin, members, init, i + 1) == LayoutAfter(nw, kind, thin, members, init, i);
  }

  /** The rule for an archive whose members define no symbols at all: outside COFF it
      still gets a symbol table, whose name table is three NULs. */
  function EmptySymbolTableRule(kind: ArchiveKind, hasObject: bool, symNames: seq<u8>): (r: seq<u8>)
    ensures r == symNames || (symNames == [] && r == [NUL, NUL, NUL])
  {
    if hasObject && symNames == [] && !IsCoffArchive(kind) then [NUL, NUL, NUL] else symNames
  }

  /** The whole of `compute_member_data`. */
  function ComputedMembers(nw: Narrowing, kind: ArchiveKind, thin: bool, members: seq<NewArchiveMember>, stringTable: seq<u8>,
                           symNames: seq<u8>, symMap: Option<SymMap>): (r: Result<Layout, Failure>)
    requires symMap.Some? ==> ValidSymMap(symMap.value)
  {
    var l := Layouts(nw, kind, thin, members, Start(stringTable, symNames, symMap), |members|);
    if l.Err? then l
    else Ok(l.value.(symNames := EmptySymbolTableRule(kind, |members| > 0, l.value.symNames)))
  }

  /** A Rust slice holds at most `isize::MAX` bytes. */
  predicate SliceLengths(members: seq<NewArchiveMember>) {
    forall i :: 0 <= i < |members| ==> |members[i].buf| < 0x8000_0000_0000_0000
  }

  /** The first loop over the members on Darwin: how often each name occurs. */
  method CountNames(members: seq<NewArchiveMember>) returns (counts: map<seq<u8>, nat>)
    ensures forall k :: k in counts <==> NameCount(members, |members|, k) > 0
    ensures forall k :: k in counts ==> counts[k] == NameCount(members, |members|, k)
  {
    counts := map[];
    for i := 0 to |members|
      invariant forall k :: k in counts <==> NameCount(members, i, k) > 0
      invariant forall k :: k in counts ==> counts[k] == NameCount(members, i, k)
    {
      var name := members[i].memberName;
      var c := if name in counts then counts[name] else 0;
      counts := counts[name := c + 1];
    }
  }

  /** The second loop: every count becomes the flag "occurs more than once". */
  method DuplicateFlags(counts: map<seq<u8>, nat>) returns (flags: map<seq<u8>, nat>)
    ensures flags.Keys == counts.Keys
    ensures forall k :: k in flags ==> flags[k] == if counts[k] > 1 then 1 else 0
  {
    flags := counts;
    var todo := counts.Keys;
    while todo != {}
      invariant todo <= counts.Keys && flags.Keys == counts.Keys
      invariant forall k :: k in flags ==> flags[k] == if k in todo then counts[k] else if counts[k] > 1 then 1 else 0
      decreases todo
    {
      var k :| k in todo;
      flags := flags[k := if flags[k] > 1 then 1 else 0];
      todo := todo - {k};
    }
  }

  lemma {:induction false} NameCountBounds(members: seq<NewArchiveMember>, i: nat, n: nat)
    requires i < n <= |members|
    ensures 1 <= NameCount(members, i + 1, members[i].memberName) <= NameCount(members, n, members[i].memberName)
    decreases n
  {
    if n > i + 1 {
      NameCountBounds(members, i, n - 1);
    }
  }

  /** The Darwin counters before the main loop: each member's name starts at its flag. */
  method TimestampCounters(members: seq<NewArchiveMember>) returns (counters: map<seq<u8>, nat>)
    ensures Counting(members, 0, counters)
  {
    var counts := CountNames(members);
    counters := DuplicateFlags(counts);
    forall j | 0 <= j < |members|
      ensures members[j].memberName in counters
      ensures counters[members[j].memberName] == DuplicateFlag(members, members[j].memberName)
    {
      NameCountBounds(members, j, |members|);
    }
  }

  /** After `i` members each name's counter is its flag plus its occurrences so far. */
  predicate Counting(members: seq<NewArchiveMember>, i: nat, counters: map<seq<u8>, nat>)
    requires i <= |members|
  {
    forall j :: 0 <= j < |members| ==>
      members[j].memberName in counters
      && counters[members[j].memberName] == DuplicateFlag(members, members[j].memberName) + NameCount(members, i, members[j].memberName)
  }

  /** Member `i` on Darwin: its name's counter goes up by one and the timestamp is the new
      value less one. */
  method NextTimestamp(members: seq<NewArchiveMember>, i: nat, counters: map<seq<u8>, nat>)
    returns (counters': map<seq<u8>, nat>, mtime: nat)
    requires i < |members| && Counting(members, i, counters)
    ensures Counting(members, i + 1, counters')
    ensures mtime == MemberMtime(Darwin, members, i)
  {
    var name := members[i].memberName;
    NameCountBounds(members, i, |members|);
    counters' := counters[name := counters[name] + 1];
    mtime := counters'[name] - 1;
  }

  /** The body of the main loop for member `i` (`index` is i + 1) once its timestamp is
      known: the member as laid out at `pos`, and the tables as updated. */
  method LayOutMember(kind: ArchiveKind, thin: bool, members: seq<NewArchiveMember>, i: nat, index: nat, mtime: nat,
                      pos: nat, stringTable: seq<u8>, memberNames: map<seq<u8>, nat>, symNames: seq<u8>, symMap: Option<SymMap>,
                      ghost init: Layout, ghost prev: seq<MemberData>)
    returns (r: Result<MemberData, Failure>, stringTable': seq<u8>, memberNames': map<seq<u8>, nat>,
             symNames': seq<u8>, symMap': Option<SymMap>)
    requires i < |members| && index == i + 1 && mtime == MemberMtime(kind, members, i) && SliceLengths(members)
    requires ValidLayout(init)
    requires Layouts(Checked, kind, thin, members, init, i) == Ok(Layout(stringTable, memberNames, symNames, symMap, pos, prev))
    ensures var s := Layouts(Checked, kind, thin, members, init, i + 1);
      s.Err? ==> r == Err(s.error)
    ensures var s := Layouts(Checked, kind, thin, members, init, i + 1);
      s.Ok? ==> r.Ok? && s.value == Layout(stringTable', memberNames', symNames', symMap', pos + MemberSize(r.value), prev + [r.value])
  {
    LayoutsNext(Checked, kind, thin, members, init, i);
    ghost var s := MemberStep(Checked, kind, thin, members, i, Layout(stringTable, memberNames, symNames, symMap, pos, prev));
    stringTable', memberNames', symNames', symMap' := stringTable, memberNames, symNames, symMap;
    var m := members[i];
    var buf := m.buf;
    var data := MemberBytes(thin, m);
    var padding := PaddingBytes(kind, thin, m);
    var size := MemberSizeField(kind, thin, m);
    if size > MAX_MEMBER_SIZE {
      assert s == Err(Returned(MemberTooBig(m.memberName)));
      return Err(Returned(MemberTooBig(m.memberName))), stringTable', memberNames', symNames', symMap';
    }
    var h := PrintMemberHeader(pos, stringTable, memberNames, kind, thin, m, mtime, size);
    stringTable', memberNames' := h.stringTable, h.memberNames;
    var narrowed := MemberIndexAsWritten(index);
    if narrowed.None? {
      assert s == Err(Panic);
      return Err(Panic), stringTable', memberNames', symNames', symMap';
    }
    var symbols;
    symbols, symNames', symMap' := WriteSymbols(buf, narrowed.value, symNames, symMap, m.objectReader);
    if symbols.Err? {
      assert s == Err(Returned(symbols.error));
      return Err(Returned(symbols.error)), stringTable', memberNames', symNames', symMap';
    }
    r := Ok(MemberData(symbols.value, h.header, data, padding));
    assert s == Ok(Layout(stringTable', memberNames', symNames', symMap', pos + MemberSize(r.value), prev + [r.value]));
  }

  /** `compute_member_data` for the non-AIX kinds, as written: Ok with the members, the long-name
      table, the symbol-name table and the symbol map as updated, or the first error or
      panic. */
  method ComputeMemberData(stringTable: seq<u8>, symNames: seq<u8>, kind: ArchiveKind, thin: bool,
                           symMap: Option<SymMap>, members: seq<NewArchiveMember>)
    returns (r: Result<seq<MemberData>, Failure>, stringTable': seq<u8>, symNames': seq<u8>, symMap': Option<SymMap>)
    requires kind != AixBig && SliceLengths(members)
    requires symMap.Some? ==> ValidSymMap(symMap.value)
    ensures var c := ComputedMembers(Checked, kind, thin, members, stringTable, symNames, symMap);
      (c.Err? ==> r == Err(c.error))
      && (c.Ok? ==> r == Ok(c.value.members) && stringTable' == c.value.stringTable
                    && symNames' == c.value.symNames && symMap' == c.value.symMap)
  {
    stringTable', symNames', symMap' := stringTable, symNames, symMap;
    ghost var init := Start(stringTable, symNames, symMap);
    var pos: nat := 0;
    var ret: seq<MemberData> := [];
    var hasObject := false;
    var memberNames: map<seq<u8>, nat> := map[];
    var uniqueTimestamps := IsDarwin(kind);
    var filenameCount: map<seq<u8>, nat> := map[];
    if uniqueTimestamps {
      filenameCount := TimestampCounters(members);
    }
    var index: nat := 0;
    for i := 0 to |members|
      invariant index == i && hasObject == (i > 0)
      invariant Layouts(Checked, kind, thin, members, init, i) == Ok(Layout(stringTable', memberNames, symNames', symMap', pos, ret))
      invariant uniqueTimestamps ==> Counting(members, i, filenameCount)
    {
      index := index + 1;
      var mtime: nat;
      if uniqueTimestamps {
        filenameCount, mtime := NextTimestamp(members, i, filenameCount);
        assert MemberMtime(kind, members, i) == MemberMtime(Darwin, members, i);
      } else {
        mtime := members[i].mtime;
      }
      ghost var l := Layout(stringTable', memberNames, symNames', symMap', pos, ret);
      var d;
      d, stringTable', memberNames, symNames', symMap' :=
        LayOutMember(kind, thin, members, i, index, mtime, pos, stringTable', memberNames, symNames', symMap', init, ret);
      if d.Err? {
        LayoutsErrPersists(Checked, kind, thin, members, init, i + 1, |members|);
        return Err(d.error), stringTable', symNames', symMap';
      }
      hasObject := true;
      pos := pos + |d.value.header| + |d.value.data| + |d.value.padding|;
      ret := ret + [d.value];
    }
    ghost var laidOut := Layout(stringTable', memberNames, symNames', symMap', pos, ret);
    assert ComputedMembers(Checked, kind, thin, members, stringTable, symNames, symMap)
      == Ok(laidOut.(symNames := EmptySymbolTableRule(kind, |members| > 0, symNames')));
    if hasObject && |symNames'| == 0 && !IsCoffArchive(kind) {
      symNames' := symNames' + [NUL, NUL, NUL];
    }
    r := Ok(ret);
  }
}
