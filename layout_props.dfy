/** What `compute_member_data` (src/archive_writer.rs) guarantees about the members it
    lays out: when it fails and with which error, where each member lies, what its
    padding is, the Darwin timestamps, and where the symbols' names are recorded. */
module LayoutProperties {
  import opened Bytes
  import opened Wrappers
  import opened Archive
  import opened Alignment
  import opened MemberHeaders
  import opened SymbolTables
  import opened SymbolCollection
  import opened MemberLayout
  import opened LayoutFacts

  /** Member `i` is laid out when it is not too big, its index narrows, and its reader
      lists its symbols. */
  predicate Passes(nw: Narrowing, kind: ArchiveKind, thin: bool, members: seq<NewArchiveMember>, i: nat)
    requires i < |members|
  {
    !TooBig(kind, thin, members[i]) && NarrowIndex(nw, i + 1).Some?
    && members[i].objectReader.getSymbols(members[i].buf).Ok?
  }

  /** How a member that does not pass stops the layout: the size check comes first, then
      the narrowing of its index, which panics, then the reader's error. */
  function MemberError(nw: Narrowing, kind: ArchiveKind, thin: bool, members: seq<NewArchiveMember>, i: nat): Failure
    requires i < |members| && !Passes(nw, kind, thin, members, i)
  {
    var m := members[i];
    if TooBig(kind, thin, m) then Returned(MemberTooBig(m.memberName))
    else if NarrowIndex(nw, i + 1).None? then Panic
    else Returned(m.objectReader.getSymbols(m.buf).error)
  }

  /** One member fails exactly when it does not pass, and with its own error. */
  lemma MemberStepFails(nw: Narrowing, kind: ArchiveKind, thin: bool, members: seq<NewArchiveMember>, i: nat, l: Layout)
    requires i < |members| && ValidLayout(l)
    ensures MemberStep(nw, kind, thin, members, i, l).Ok? <==> Passes(nw, kind, thin, members, i)
    ensures !Passes(nw, kind, thin, members, i) ==>
      MemberStep(nw, kind, thin, members, i, l) == Err(MemberError(nw, kind, thin, members, i))
  {
  }

  /** Otherwise it is appended with its stored bytes and padding, and the position moves
      past it. */
  lemma MemberStepAppends(nw: Narrowing, kind: ArchiveKind, thin: bool, members: seq<NewArchiveMember>, i: nat, l: Layout)
    requires i < |members| && ValidLayout(l) && Passes(nw, kind, thin, members, i)
    ensures var r := MemberStep(nw, kind, thin, members, i, l);
      r.Ok? && |r.value.members| == |l.members| + 1 && r.value.members[..|l.members|] == l.members
      && r.value.members[|l.members|].data == MemberBytes(thin, members[i])
      && r.value.members[|l.members|].padding == PaddingBytes(kind, thin, members[i])
      && r.value.pos == l.pos + MemberSize(r.value.members[|l.members|])
  {
  }

  /** The first `n` members all pass. */
  predicate AllPass(nw: Narrowing, kind: ArchiveKind, thin: bool, members: seq<NewArchiveMember>, n: nat)
    requires n <= |members|
  {
    n == 0 || (AllPass(nw, kind, thin, members, n - 1) && Passes(nw, kind, thin, members, n - 1))
  }

  lemma {:induction false} AllPassEvery(nw: Narrowing, kind: ArchiveKind, thin: bool, members: seq<NewArchiveMember>, n: nat)
    requires n <= |members|
    ensures AllPass(nw, kind, thin, members, n) <==> forall j :: 0 <= j < n ==> Passes(nw, kind, thin, members, j)
  {
    if n > 0 {
      AllPassEvery(nw, kind, thin, members, n - 1);
    }
  }

  /** Member `i` after the others: it fails exactly when it does not pass. */
  lemma LayoutsNextFails(nw: Narrowing, kind: ArchiveKind, thin: bool, members: seq<NewArchiveMember>, init: Layout, i: nat)
    requires i < |members| && ValidLayout(init) && Layouts(nw, kind, thin, members, init, i).Ok?
    ensures Layouts(nw, kind, thin, members, init, i + 1).Ok? <==> Passes(nw, kind, thin, members, i)
    ensures !Passes(nw, kind, thin, members, i) ==>
      Layouts(nw, kind, thin, members, init, i + 1) == Err(MemberError(nw, kind, thin, members, i))
  {
    LayoutsNext(nw, kind, thin, members, init, i);
    MemberStepFails(nw, kind, thin, members, i, Layouts(nw, kind, thin, members, init, i).value);
  }

  /** The layout of the first `n` members succeeds exactly when they all pass. */
  lemma {:induction false} LayoutsOk(nw: Narrowing, kind: ArchiveKind, thin: bool, members: seq<NewArchiveMember>, init: Layout, n: nat)
    requires n <= |members| && ValidLayout(init)
    ensures Layouts(nw, kind, thin, members, init, n).Ok? <==> AllPass(nw, kind, thin, members, n)
  {
    if n > 0 {
      LayoutsOk(nw, kind, thin, members, init, n - 1);
      if Layouts(nw, kind, thin, members, init, n - 1).Ok? {
        LayoutsNextFails(nw, kind, thin, members, init, n - 1);
      } else {
        LayoutsErrStays(nw, kind, thin, members, init, n - 1);
      }
    }
  }

  /** So `compute_member_data` succeeds exactly when every member passes. */
  lemma ComputedMembersOk(nw: Narrowing, kind: ArchiveKind, thin: bool, members: seq<NewArchiveMember>, stringTable: seq<u8>,
                          symNames: seq<u8>, symMap: Option<SymMap>)
    requires symMap.Some? ==> ValidSymMap(symMap.value)
    ensures ComputedMembers(nw, kind, thin, members, stringTable, symNames, symMap).Ok?
      <==> forall j :: 0 <= j < |members| ==> Passes(nw, kind, thin, members, j)
  {
    LayoutsOk(nw, kind, thin, members, Start(stringTable, symNames, symMap), |members|);
    AllPassEvery(nw, kind, thin, members, |members|);
  }

  /** And when it fails, the error is that of the first member that does not pass. */
  lemma FirstError(nw: Narrowing, kind: ArchiveKind, thin: bool, members: seq<NewArchiveMember>, init: Layout, n: nat, j: nat)
    requires j < n <= |members| && ValidLayout(init)
    requires forall k :: 0 <= k < j ==> Passes(nw, kind, thin, members, k)
    requires !Passes(nw, kind, thin, members, j)
    ensures Layouts(nw, kind, thin, members, init, n) == Err(MemberError(nw, kind, thin, members, j))
  {
    AllPassEvery(nw, kind, thin, members, j);
    LayoutsOk(nw, kind, thin, members, init, j);
    LayoutsNextFails(nw, kind, thin, members, init, j);
    LayoutsErrPersists(nw, kind, thin, members, init, j + 1, n);
  }

  /** Some member of the first `n` does not pass: then there is a first one. */
  lemma {:induction false} FirstFailing(nw: Narrowing, kind: ArchiveKind, thin: bool, members: seq<NewArchiveMember>, n: nat)
    returns (j: nat)
    requires n <= |members| && !AllPass(nw, kind, thin, members, n)
    ensures j < n && !Passes(nw, kind, thin, members, j)
    ensures forall k :: 0 <= k < j ==> Passes(nw, kind, thin, members, k)
  {
    if AllPass(nw, kind, thin, members, n - 1) {
      AllPassEvery(nw, kind, thin, members, n - 1);
      j := n - 1;
    } else {
      j := FirstFailing(nw, kind, thin, members, n - 1);
    }
  }

  /** Below 65536 members the two narrowings lay out alike. */
  lemma {:induction false} LayoutsNarrowingsAgree(kind: ArchiveKind, thin: bool, members: seq<NewArchiveMember>, init: Layout, n: nat)
    requires n <= |members| && n < 0x1_0000 && ValidLayout(init)
    ensures Layouts(Checked, kind, thin, members, init, n) == Layouts(Wrapping, kind, thin, members, init, n)
  {
    if n > 0 {
      LayoutsNarrowingsAgree(kind, thin, members, init, n - 1);
      LayoutsNext(Checked, kind, thin, members, init, n - 1);
      LayoutsNext(Wrapping, kind, thin, members, init, n - 1);
      var p := Layouts(Checked, kind, thin, members, init, n - 1);
      if p.Ok? {
        MemberStepNarrowingsAgree(kind, thin, members, n - 1, p.value);
      }
    }
  }

  lemma MemberStepNarrowingsAgree(kind: ArchiveKind, thin: bool, members: seq<NewArchiveMember>, i: nat, l: Layout)
    requires i < |members| && i + 1 < 0x1_0000 && ValidLayout(l)
    ensures MemberStep(Checked, kind, thin, members, i, l) == MemberStep(Wrapping, kind, thin, members, i, l)
  {
    assert NarrowIndex(Checked, i + 1) == NarrowIndex(Wrapping, i + 1);
  }

  /** As written, all members pass only when there are fewer than 65536 of them. */
  lemma AllPassBound(kind: ArchiveKind, thin: bool, members: seq<NewArchiveMember>, n: nat)
    requires n <= |members|
    ensures AllPass(Checked, kind, thin, members, n) ==> n < 0x1_0000
  {
    AllPassEvery(Checked, kind, thin, members, n);
    if n >= 0x1_0000 {
      assert !Passes(Checked, kind, thin, members, 0xffff);
    }
  }

  /** As written, the layout of `n` members panics exactly when there are 65536 or more,
      the first 65535 pass, and the 65536th is not too big: its index is then narrowed
      and the conversion fails. */
  lemma CheckedLayoutsPanic(kind: ArchiveKind, thin: bool, members: seq<NewArchiveMember>, init: Layout, n: nat)
    requires n <= |members| && ValidLayout(init)
    ensures Layouts(Checked, kind, thin, members, init, n) == Err(Panic)
      <==> 0x1_0000 <= n && (forall k :: 0 <= k < 0xffff ==> Passes(Checked, kind, thin, members, k))
           && !TooBig(kind, thin, members[0xffff])
  {
    AllPassBound(kind, thin, members, n);
    LayoutsOk(Checked, kind, thin, members, init, n);
    if !AllPass(Checked, kind, thin, members, n) {
      var j := FirstFailing(Checked, kind, thin, members, n);
      FirstError(Checked, kind, thin, members, init, n, j);
      AllPassEvery(Checked, kind, thin, members, j);
      AllPassBound(kind, thin, members, j);
      if j < 0xffff {
        assert MemberError(Checked, kind, thin, members, j) != Panic;
      }
    }
  }

  /** With the corrected narrowing the layout never panics: it stops only with an error
      returned. */
  lemma WrappingLayoutsReturn(kind: ArchiveKind, thin: bool, members: seq<NewArchiveMember>, init: Layout, n: nat)
    requires n <= |members| && ValidLayout(init)
    ensures Layouts(Wrapping, kind, thin, members, init, n) != Err(Panic)
  {
    LayoutsOk(Wrapping, kind, thin, members, init, n);
    if !AllPass(Wrapping, kind, thin, members, n) {
      var j := FirstFailing(Wrapping, kind, thin, members, n);
      FirstError(Wrapping, kind, thin, members, init, n, j);
    }
  }

  /** As written, a layout that succeeds has fewer than 65536 members. */
  lemma CheckedLayoutsBound(kind: ArchiveKind, thin: bool, members: seq<NewArchiveMember>, init: Layout, n: nat)
    requires n <= |members| && ValidLayout(init) && Layouts(Checked, kind, thin, members, init, n).Ok?
    ensures n < 0x1_0000
  {
    LayoutsOk(Checked, kind, thin, members, init, n);
    AllPassBound(kind, thin, members, n);
  }

  lemma {:induction false} SizeBeforeAppend(ms: seq<MemberData>, d: MemberData, n: nat)
    requires n <= |ms|
    ensures SizeBefore(ms + [d], n) == SizeBefore(ms, n)
    decreases n
  {
    if n > 0 {
      SizeBeforeAppend(ms, d, n - 1);
      assert (ms + [d])[n - 1] == ms[n - 1];
    }
  }

  /** Member `i` after the others, when it passes: appended, and the position moved past it. */
  lemma LayoutsNextAppends(nw: Narrowing, kind: ArchiveKind, thin: bool, members: seq<NewArchiveMember>, init: Layout, i: nat, p: Layout)
    requires i < |members| && ValidLayout(init) && Layouts(nw, kind, thin, members, init, i) == Ok(p)
    requires Passes(nw, kind, thin, members, i)
    ensures var r := Layouts(nw, kind, thin, members, init, i + 1);
      r.Ok? && |r.value.members| == |p.members| + 1 && r.value.members[..|p.members|] == p.members
      && r.value.members[|p.members|].data == MemberBytes(thin, members[i])
      && r.value.members[|p.members|].padding == PaddingBytes(kind, thin, members[i])
      && r.value.pos == p.pos + MemberSize(r.value.members[|p.members|])
  {
    LayoutsNext(nw, kind, thin, members, init, i);
    MemberStepAppends(nw, kind, thin, members, i, p);
  }

  /** Laid out from an empty list, the members are shaped after the input, and the
      position after n members is the start plus their sizes. */
  lemma {:induction false} LayoutsShape(nw: Narrowing, kind: ArchiveKind, thin: bool, members: seq<NewArchiveMember>, init: Layout, n: nat)
    requires n <= |members| && ValidLayout(init) && init.members == []
    ensures var r := Layouts(nw, kind, thin, members, init, n);
      r.Ok? ==> ShapedAfter(kind, thin, members, init, n, r.value)
  {
    if n > 0 {
      LayoutsShape(nw, kind, thin, members, init, n - 1);
      var p := Layouts(nw, kind, thin, members, init, n - 1);
      var s := Layouts(nw, kind, thin, members, init, n);
      if p.Ok? && s.Ok? {
        LayoutsNextFails(nw, kind, thin, members, init, n - 1);
        LayoutsNextAppends(nw, kind, thin, members, init, n - 1, p.value);
        ShapeStep(kind, thin, members, init, n, p.value, s.value);
      } else if p.Err? {
        LayoutsErrStays(nw, kind, thin, members, init, n - 1);
      }
    }
  }

  /** After `n` members: `n` of them, shaped after the input, and the position the start
      plus their sizes. */
  ghost predicate ShapedAfter(kind: ArchiveKind, thin: bool, members: seq<NewArchiveMember>, init: Layout, n: nat, l: Layout) {
    |l.members| == n && l.pos == init.pos + SizeBefore(l.members, n) && Shaped(kind, thin, members, l.members)
  }

  lemma ShapeStep(kind: ArchiveKind, thin: bool, members: seq<NewArchiveMember>, init: Layout, n: nat, p: Layout, s: Layout)
    requires 0 < n <= |members| && ShapedAfter(kind, thin, members, init, n - 1, p)
    requires |s.members| == |p.members| + 1 && s.members[..|p.members|] == p.members
    requires s.members[|p.members|].data == MemberBytes(thin, members[n - 1])
    requires s.members[|p.members|].padding == PaddingBytes(kind, thin, members[n - 1])
    requires s.pos == p.pos + MemberSize(s.members[|p.members|])
    ensures ShapedAfter(kind, thin, members, init, n, s)
  {
    var d := s.members[n - 1];
    assert s.members == p.members + [d];
    assert Shaped(kind, thin, members, s.members) by {
      ShapedSnoc(kind, thin, members, p.members, d);
    }
    assert SizeBefore(s.members, n) == SizeBefore(p.members, n - 1) + MemberSize(d) by {
      SizeBeforeAppend(p.members, d, n - 1);
    }
  }

  /** The padding after a member is '\n' bytes, as few as bring the stored bytes to a
      multiple of 8 on Darwin and to an even length elsewhere. */
  lemma PaddingAligns(kind: ArchiveKind, thin: bool, m: NewArchiveMember)
    ensures var data, pad := MemberBytes(thin, m), PaddingBytes(kind, thin, m);
      |pad| == PaddingTo(|data|, if IsDarwin(kind) then 8 else 2)
      && (forall k :: 0 <= k < |pad| ==> pad[k] == NEWLINE)
  {
    PaddingLength(kind, thin, m);
    PaddingNewlines(kind, thin, m);
  }

  lemma PaddingLength(kind: ArchiveKind, thin: bool, m: NewArchiveMember)
    ensures |PaddingBytes(kind, thin, m)| == PaddingTo(|MemberBytes(thin, m)|, if IsDarwin(kind) then 8 else 2)
  {
    PaddingSum(IsDarwin(kind), |MemberBytes(thin, m)|, MemberPadding(kind, thin, m), TailPadding(kind, thin, m));
  }

  lemma PaddingNewlines(kind: ArchiveKind, thin: bool, m: NewArchiveMember)
    ensures forall k :: 0 <= k < |PaddingBytes(kind, thin, m)| ==> PaddingBytes(kind, thin, m)[k] == NEWLINE
  {
    var pad := PaddingBytes(kind, thin, m);
    forall k | 0 <= k < |pad| ensures pad[k] == NEWLINE {
      assert pad[k] == PADDING_DATA[k];
    }
  }

  /** The count of a name only grows, by one at each member that carries it. */
  lemma {:induction false} NameCountGrows(members: seq<NewArchiveMember>, i: nat, j: nat)
    requires i < j < |members| && members[i].memberName == members[j].memberName
    ensures NameCount(members, i + 1, members[i].memberName) < NameCount(members, j + 1, members[i].memberName)
    decreases j
  {
    var name := members[i].memberName;
    if j > i + 1 {
      NameCountAtLeast(members, i + 1, j, name);
    }
  }

  lemma {:induction false} NameCountAtLeast(members: seq<NewArchiveMember>, a: nat, b: nat, name: seq<u8>)
    requires a <= b <= |members|
    ensures NameCount(members, a, name) <= NameCount(members, b, name)
    decreases b
  {
    if b > a {
      NameCountAtLeast(members, a, b - 1, name);
    }
  }

  /** On Darwin two members of the same name get different timestamps, both at least 1. */
  lemma DarwinTimestampsDistinct(kind: ArchiveKind, members: seq<NewArchiveMember>, i: nat, j: nat)
    requires IsDarwin(kind) && i < j < |members| && members[i].memberName == members[j].memberName
    ensures 1 <= MemberMtime(kind, members, i) < MemberMtime(kind, members, j)
  {
    var name := members[i].memberName;
    NameCountGrows(members, i, j);
    NameCountBounds(members, i, |members|);
    NameCountAtLeast(members, j + 1, |members|, name);
  }

  /** A member whose name no other member has gets timestamp 0 on Darwin. */
  lemma DarwinTimestampOfUniqueName(kind: ArchiveKind, members: seq<NewArchiveMember>, i: nat)
    requires IsDarwin(kind) && i < |members|
    requires forall j :: 0 <= j < |members| && j != i ==> members[j].memberName != members[i].memberName
    ensures MemberMtime(kind, members, i) == 0
  {
    NameCountOnce(members, i, |members|);
  }

  lemma {:induction false} NameCountOnce(members: seq<NewArchiveMember>, i: nat, n: nat)
    requires i < |members| && n <= |members|
    requires forall j :: 0 <= j < |members| && j != i ==> members[j].memberName != members[i].memberName
    ensures NameCount(members, n, members[i].memberName) == if n > i then 1 else 0
    decreases n
  {
    if n > 0 {
      NameCountOnce(members, i, n - 1);
    }
  }

  /** Without a map, a member that passes appends each of its names, NUL-terminated, to the
      symbol-name table, and its offsets locate them there. */
  lemma MemberStepNoMap(nw: Narrowing, kind: ArchiveKind, thin: bool, members: seq<NewArchiveMember>, i: nat, l: Layout)
    requires i < |members| && ValidLayout(l) && l.symMap.None? && Passes(nw, kind, thin, members, i)
    ensures var r := MemberStep(nw, kind, thin, members, i, l);
      r.Ok? && NoMapAppended(ReportedNames(members[i]), l, r.value)
  {
    var m := members[i];
    var names := ReportedNames(m);
    var st := SymbolsState([], l.symNames, None);
    CollectWithoutMap(m.objectReader.isEcObjectFile(m.buf), NarrowIndex(nw, i + 1).value, st, names, |names|);
    assert names[..|names|] == names;
  }

  /** Member `i` after the others, without a map: its names appended and located. */
  lemma LayoutsNextNoMap(nw: Narrowing, kind: ArchiveKind, thin: bool, members: seq<NewArchiveMember>, init: Layout, i: nat, p: Layout)
    requires i < |members| && ValidLayout(init) && Layouts(nw, kind, thin, members, init, i) == Ok(p) && p.symMap.None?
    ensures var r := Layouts(nw, kind, thin, members, init, i + 1);
      r.Ok? ==> NoMapAppended(ReportedNames(members[i]), p, r.value)
  {
    LayoutsNext(nw, kind, thin, members, init, i);
    MemberStepFails(nw, kind, thin, members, i, p);
    if Passes(nw, kind, thin, members, i) {
      MemberStepNoMap(nw, kind, thin, members, i, p);
    }
  }

  lemma {:induction false} LayoutsNoMap(nw: Narrowing, kind: ArchiveKind, thin: bool, members: seq<NewArchiveMember>, init: Layout, n: nat)
    requires n <= |members| && init.members == [] && init.symMap.None?
    ensures var r := Layouts(nw, kind, thin, members, init, n);
      r.Ok? ==> NoMapLaidOut(members, init, n, r.value)
  {
    if n > 0 {
      LayoutsNoMap(nw, kind, thin, members, init, n - 1);
      var p := Layouts(nw, kind, thin, members, init, n - 1);
      var s := Layouts(nw, kind, thin, members, init, n);
      if p.Ok? && s.Ok? {
        LayoutsNextNoMap(nw, kind, thin, members, init, n - 1, p.value);
        NoMapStep(members, init, n, p.value, s.value);
      } else if p.Err? {
        LayoutsErrStays(nw, kind, thin, members, init, n - 1);
      }
    }
  }
}
