/** The invariants the member-by-member proofs about `compute_member_data`
    (src/archive_writer.rs) carry from one member to the next: which bytes and padding
    each laid-out member holds, and where its symbols' names sit in the symbol-name
    table. */
module LayoutFacts {
  import opened Bytes
  import opened Archive
  import opened MemberHeaders
  import opened SymbolCollection
  import opened MemberLayout

  /** Each laid-out member holds the stored bytes and the padding of the input member at
      the same place. */
  ghost predicate Shaped(kind: ArchiveKind, thin: bool, members: seq<NewArchiveMember>, ds: seq<MemberData>) {
    |ds| <= |members|
    && forall j :: 0 <= j < |ds| ==>
         ds[j].data == MemberBytes(thin, members[j]) && ds[j].padding == PaddingBytes(kind, thin, members[j])
  }

  lemma ShapedSnoc(kind: ArchiveKind, thin: bool, members: seq<NewArchiveMember>, ds: seq<MemberData>, d: MemberData)
    requires Shaped(kind, thin, members, ds) && |ds| < |members|
    requires d.data == MemberBytes(thin, members[|ds|]) && d.padding == PaddingBytes(kind, thin, members[|ds|])
    ensures Shaped(kind, thin, members, ds + [d])
  {
  }


  /** The names a member's reader reports; none when it fails. */
  function ReportedNames(m: NewArchiveMember): (r: seq<seq<u8>>)
    ensures m.objectReader.getSymbols(m.buf).Ok? ==> r == m.objectReader.getSymbols(m.buf).value
  {
    var listed := m.objectReader.getSymbols(m.buf);
    if listed.Ok? then listed.value else []
  }

  /** The names the first `n` members report, each followed by a NUL, in member order. */
  function NameTable(members: seq<NewArchiveMember>, n: nat): seq<u8>
    requires n <= |members|
  {
    if n == 0 then []
    else NameTable(members, n - 1) + ConcatMap(Terminated, ReportedNames(members[n - 1]), |ReportedNames(members[n - 1])|)
  }

  /** Every laid-out member's symbol offsets locate its reported names in `table`. */
  ghost predicate NamesLocated(table: seq<u8>, members: seq<NewArchiveMember>, ds: seq<MemberData>) {
    |ds| <= |members|
    && forall j :: 0 <= j < |ds| ==> Locates(table, ds[j].symbols, 0, ReportedNames(members[j]))
  }

  lemma LocatesKept(t: seq<u8>, u: seq<u8>, offsets: seq<nat>, L: seq<seq<u8>>)
    requires Locates(t, offsets, 0, L)
    ensures Locates(t + u, offsets, 0, L)
  {
    forall k | 0 <= k < |L| ensures EntryAt(t + u, offsets[k], Terminated(L[k])) {
      EntryKept(t, u, offsets[k], Terminated(L[k]));
    }
  }

  /** Appending to the table keeps every name where it was. */
  lemma NamesLocatedKept(t: seq<u8>, u: seq<u8>, members: seq<NewArchiveMember>, ds: seq<MemberData>)
    requires NamesLocated(t, members, ds)
    ensures NamesLocated(t + u, members, ds)
  {
    forall j | 0 <= j < |ds| ensures Locates(t + u, ds[j].symbols, 0, ReportedNames(members[j])) {
      LocatesKept(t, u, ds[j].symbols, ReportedNames(members[j]));
    }
  }

  lemma NamesLocatedSnoc(t: seq<u8>, members: seq<NewArchiveMember>, ds: seq<MemberData>, d: MemberData)
    requires NamesLocated(t, members, ds) && |ds| < |members|
    requires Locates(t, d.symbols, 0, ReportedNames(members[|ds|]))
    ensures NamesLocated(t, members, ds + [d])
  {
  }

  /** `s` is `p` with one more member laid out without a map: its names appended to the
      symbol-name table, NUL-terminated, and its offsets locating them. */
  ghost predicate NoMapAppended(names: seq<seq<u8>>, p: Layout, s: Layout) {
    s.symMap.None? && |s.members| == |p.members| + 1 && s.members[..|p.members|] == p.members
    && s.symNames == p.symNames + ConcatMap(Terminated, names, |names|)
    && Locates(s.symNames, s.members[|p.members|].symbols, 0, names)
  }


  /** Without a map, after `n` members the symbol-name table is the start table followed
      by every reported name in member order, duplicates included, and each member's
      offsets locate its own names. */
  ghost predicate NoMapLaidOut(members: seq<NewArchiveMember>, init: Layout, n: nat, l: Layout)
    requires n <= |members|
  {
    l.symMap.None? && |l.members| == n
    && l.symNames == init.symNames + NameTable(members, n)
    && NamesLocated(l.symNames, members, l.members)
  }

  lemma NoMapStep(members: seq<NewArchiveMember>, init: Layout, n: nat, p: Layout, s: Layout)
    requires 0 < n <= |members| && NoMapLaidOut(members, init, n - 1, p)
    requires NoMapAppended(ReportedNames(members[n - 1]), p, s)
    ensures NoMapLaidOut(members, init, n, s)
  {
    var names := ReportedNames(members[n - 1]);
    var added := ConcatMap(Terminated, names, |names|);
    assert NameTable(members, n) == NameTable(members, n - 1) + added;
    Assoc(init.symNames, NameTable(members, n - 1), added);
    LocatedStep(p.symNames, added, members, p.members, s.members);
  }

  lemma LocatedStep(t: seq<u8>, added: seq<u8>, members: seq<NewArchiveMember>, ds: seq<MemberData>, ds': seq<MemberData>)
    requires NamesLocated(t, members, ds) && |ds| < |members|
    requires |ds'| == |ds| + 1 && ds'[..|ds|] == ds
    requires Locates(t + added, ds'[|ds|].symbols, 0, ReportedNames(members[|ds|]))
    ensures NamesLocated(t + added, members, ds')
  {
    assert ds' == ds + [ds'[|ds|]];
    NamesLocatedKept(t, added, members, ds);
    NamesLocatedSnoc(t + added, members, ds, ds'[|ds|]);
  }
}
