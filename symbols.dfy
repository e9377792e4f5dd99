/** `write_symbols` (src/archive_writer.rs): the names an object's reader reports are
    recorded, NUL-terminated, in the symbol-name table, and with a COFF `SymMap` they are
    entered into the symbol map, the first member that defines a name winning. */
module SymbolCollection {
  import opened Bytes
  import opened Wrappers
  import opened Archive
  import opened OrderedMaps
  import opened MemberHeaders
  import opened SymbolTables

  /** What `write_symbols` works on: the offsets recorded for the current member, the
      symbol-name table written so far, and the symbol map when the archive is COFF. */
  datatype SymbolsState = SymbolsState(offsets: seq<nat>, symNames: seq<u8>, symMap: Option<SymMap>)

  predicate ValidState(st: SymbolsState) {
    st.symMap.Some? ==> ValidSymMap(st.symMap.value)
  }

  /** An ARM64EC object's symbols go to the EC map alone when the archive keeps one. */
  predicate EcMapOnly(s: SymMap, isEc: bool) {
    s.useEcMap && isEc
  }

  /** A name as the table holds it: followed by a NUL. */
  function Terminated(name: seq<u8>): (r: seq<u8>)
    ensures |r| == |name| + 1
  {
    name + [NUL]
  }

  /** Recording a name: its offset is the current table length, then the name is written. */
  function Record(st: SymbolsState, name: seq<u8>): (r: SymbolsState)
    ensures r.symMap == st.symMap
    ensures r.offsets == st.offsets + [|st.symNames|]
    ensures r.symNames == st.symNames + Terminated(name)
  {
    SymbolsState(st.offsets + [|st.symNames|], st.symNames + Terminated(name), st.symMap)
  }

  /** The callback `write_symbols` hands the reader, for one name of member `index`.  With
      the EC map alone a new name is entered there and nothing is recorded.  With the main
      map a name already present is skipped; a new one is entered, recorded, and if it is
      an import descriptor also entered into the EC map, replacing any earlier index.
      Without a map every name is recorded. */
  function AddSymbol(isEc: bool, index: u16, st: SymbolsState, name: seq<u8>): (r: SymbolsState)
    requires ValidState(st)
    ensures ValidState(r) && r.symMap.Some? == st.symMap.Some?
    ensures st.symMap.Some? ==> r.symMap.value.useEcMap == st.symMap.value.useEcMap
  {
    if st.symMap.None? then Record(st, name)
    else
      var s := st.symMap.value;
      if EcMapOnly(s, isEc) then
        if name in ToMap(s.ecEntries) then st
        else st.(symMap := Some(s.(ecEntries := Insert(s.ecEntries, name, index))))
      else if name in ToMap(s.entries) then st
      else
        var ec := if IsImportDescriptor(name) then Insert(s.ecEntries, name, index) else s.ecEntries;
        Record(st, name).(symMap := Some(s.(entries := Insert(s.entries, name, index), ecEntries := ec)))
  }

  /** The state after the reader has reported the first `n` names. */
  function Collect(isEc: bool, index: u16, st: SymbolsState, names: seq<seq<u8>>, n: nat): (r: SymbolsState)
    requires ValidState(st) && n <= |names|
    ensures ValidState(r) && r.symMap.Some? == st.symMap.Some?
    ensures st.symMap.Some? ==> r.symMap.value.useEcMap == st.symMap.value.useEcMap
  {
    if n == 0 then st else AddSymbol(isEc, index, Collect(isEc, index, st, names, n - 1), names[n - 1])
  }

  /** Without a map the member index is never looked at, so narrowing it cannot change
      what is recorded. */
  lemma {:induction false} CollectIgnoresIndex(isEc: bool, a: u16, b: u16, st: SymbolsState, names: seq<seq<u8>>, n: nat)
    requires ValidState(st) && n <= |names| && st.symMap.None?
    ensures Collect(isEc, a, st, names, n) == Collect(isEc, b, st, names, n)
  {
    if n > 0 {
      CollectIgnoresIndex(isEc, a, b, st, names, n - 1);
    }
  }

  /** `write_symbols` for object `obj`, the `index`-th member: the offsets it returns, and
      the symbol-name table and the symbol map as updated.  A reader error is returned. */
  method WriteSymbols(obj: seq<u8>, index: u16, symNames: seq<u8>, symMap: Option<SymMap>, reader: ObjectReader)
    returns (r: Result<seq<nat>, ArchiveError>, symNames': seq<u8>, symMap': Option<SymMap>)
    requires symMap.Some? ==> ValidSymMap(symMap.value)
    ensures reader.getSymbols(obj).Err? ==> r == Err(reader.getSymbols(obj).error)
    ensures reader.getSymbols(obj).Ok? ==>
      var names := reader.getSymbols(obj).value;
      var st := Collect(reader.isEcObjectFile(obj), index, SymbolsState([], symNames, symMap), names, |names|);
      r == Ok(st.offsets) && symNames' == st.symNames && symMap' == st.symMap
  {
    symNames', symMap' := symNames, symMap;
    var listed := reader.getSymbols(obj);
    if listed.Err? {
      return Err(listed.error), symNames', symMap';
    }
    var names := listed.value;
    var isEc := reader.isEcObjectFile(obj);
    ghost var st0 := SymbolsState([], symNames, symMap);
    var ret: seq<nat> := [];
    var i := 0;
    while i < |names|
      invariant 0 <= i <= |names|
      invariant SymbolsState(ret, symNames', symMap') == Collect(isEc, index, st0, names, i)
    {
      ret, symNames', symMap' := OnSymbol(isEc, index, names[i], ret, symNames', symMap');
      i := i + 1;
    }
    r := Ok(ret);
  }

  /** The callback itself, for the name `name`. */
  method OnSymbol(isEc: bool, index: u16, name: seq<u8>, ret: seq<nat>, symNames: seq<u8>, symMap: Option<SymMap>)
    returns (ret': seq<nat>, symNames': seq<u8>, symMap': Option<SymMap>)
    requires symMap.Some? ==> ValidSymMap(symMap.value)
    ensures SymbolsState(ret', symNames', symMap') == AddSymbol(isEc, index, SymbolsState(ret, symNames, symMap), name)
  {
    ret', symNames', symMap' := ret, symNames, symMap;
    if symMap.None? {
      ret' := ret + [|symNames|];
      symNames' := symNames + name + [NUL];
      return;
    }
    var s := symMap.value;
    if EcMapOnly(s, isEc) {
      if name !in ToMap(s.ecEntries) {
        symMap' := Some(s.(ecEntries := Insert(s.ecEntries, name, index)));
      }
    } else if name !in ToMap(s.entries) {
      var entries := Insert(s.entries, name, index);
      ret' := ret + [|symNames|];
      symNames' := symNames + name + [NUL];
      var ec := s.ecEntries;
      if IsImportDescriptor(name) {
        ec := Insert(ec, name, index);
      }
      symMap' := Some(s.(entries := entries, ecEntries := ec));
    }
  }

  /** `offsets[at + j]` is where `L[j]`, NUL-terminated, sits in `table`, for every j. */
  predicate Locates(table: seq<u8>, offsets: seq<nat>, at: nat, L: seq<seq<u8>>) {
    at + |L| == |offsets|
    && forall j :: 0 <= j < |L| ==> EntryAt(table, offsets[at + j], Terminated(L[j]))
  }

  /** Recording one name keeps the earlier offsets valid and locates the new name. */
  lemma RecordLocates(st: SymbolsState, at: nat, L: seq<seq<u8>>, name: seq<u8>)
    requires Locates(st.symNames, st.offsets, at, L)
    ensures Locates(Record(st, name).symNames, Record(st, name).offsets, at, L + [name])
  {
    var r := Record(st, name);
    var L' := L + [name];
    forall j | 0 <= j < |L'| ensures EntryAt(r.symNames, r.offsets[at + j], Terminated(L'[j])) {
      if j < |L| {
        assert r.offsets[at + j] == st.offsets[at + j] && L'[j] == L[j];
        EntryKept(st.symNames, Terminated(name), st.offsets[at + j], Terminated(L[j]));
      } else {
        assert r.symNames[|st.symNames|..] == Terminated(name);
      }
    }
  }

  /** Without a map the reader's names are all recorded, duplicates included, in the order
      reported: the table grows by each name and its NUL, and the new offsets locate them. */
  lemma {:induction false} CollectWithoutMap(isEc: bool, index: u16, st: SymbolsState, names: seq<seq<u8>>, n: nat)
    requires st.symMap.None? && n <= |names|
    requires Locates(st.symNames, st.offsets, |st.offsets|, [])
    ensures var r := Collect(isEc, index, st, names, n);
      r.symMap.None?
      && Locates(r.symNames, r.offsets, |st.offsets|, names[..n])
      && r.offsets[..|st.offsets|] == st.offsets
      && r.symNames == st.symNames + ConcatMap(Terminated, names, n)
  {
    if n > 0 {
      CollectWithoutMap(isEc, index, st, names, n - 1);
      var p := Collect(isEc, index, st, names, n - 1);
      RecordLocates(p, |st.offsets|, names[..n - 1], names[n - 1]);
      assert names[..n - 1] + [names[n - 1]] == names[..n];
      Assoc(st.symNames, ConcatMap(Terminated, names, n - 1), Terminated(names[n - 1]));
    }
  }

  /** The names that are new to a map holding `es`, in the order of their first report:
      each name neither in the map nor reported before. */
  function Fresh(es: seq<Entry>, names: seq<seq<u8>>, n: nat): (r: seq<seq<u8>>)
    requires n <= |names|
  {
    if n == 0 then []
    else
      var f := Fresh(es, names, n - 1);
      if names[n - 1] in ToMap(es) || names[n - 1] in names[..n - 1] then f else f + [names[n - 1]]
  }

  /** `m1` is `m0` with each of `names` missing from it added with value `v`: the first
      value a key gets is kept. */
  ghost predicate FirstWins(m0: map<seq<u8>, u16>, m1: map<seq<u8>, u16>, names: seq<seq<u8>>, v: u16) {
    (forall k :: k in m1 <==> k in m0 || k in names)
    && (forall k :: k in m0 ==> m1[k] == m0[k])
    && (forall k :: k in m1 && k !in m0 ==> m1[k] == v)
  }

  /** One more name keeps FirstWins. */
  lemma FirstWinsStep(m0: map<seq<u8>, u16>, m1: map<seq<u8>, u16>, names: seq<seq<u8>>, v: u16,
                      name: seq<u8>, m2: map<seq<u8>, u16>)
    requires FirstWins(m0, m1, names, v)
    requires m2 == (if name in m1 then m1 else m1[name := v])
    ensures FirstWins(m0, m2, names + [name], v)
  {
    assert forall k :: k in names + [name] <==> k in names || k == name;
  }

  /** The import descriptors among `names`, in order. */
  function ImportDescriptors(names: seq<seq<u8>>): seq<seq<u8>> {
    if names == [] then []
    else
      var d := ImportDescriptors(names[..|names| - 1]);
      if IsImportDescriptor(names[|names| - 1]) then d + [names[|names| - 1]] else d
  }

  lemma {:induction false} ImportDescriptorsAre(names: seq<seq<u8>>)
    ensures forall k :: k in ImportDescriptors(names) <==> k in names && IsImportDescriptor(k)
  {
    if names != [] {
      var init := names[..|names| - 1];
      ImportDescriptorsAre(init);
      assert names == init + [names[|names| - 1]];
    }
  }

  /** `m1` is `m0` with each key of `keys` set to `v`. */
  ghost predicate Overwrites(m0: map<seq<u8>, u16>, m1: map<seq<u8>, u16>, keys: seq<seq<u8>>, v: u16) {
    (forall k :: k in m1 <==> k in m0 || k in keys)
    && (forall k :: k in m1 ==> m1[k] == if k in keys then v else m0[k])
  }

  lemma OverwritesStep(m0: map<seq<u8>, u16>, m1: map<seq<u8>, u16>, keys: seq<seq<u8>>, v: u16, name: seq<u8>)
    requires Overwrites(m0, m1, keys, v)
    ensures Overwrites(m0, m1[name := v], keys + [name], v)
  {
    assert forall k :: k in keys + [name] <==> k in keys || k == name;
  }

  /** What one name does with the main map: nothing if the map has it, and otherwise it is
      recorded, entered, and copied to the EC map if it is an import descriptor. */
  lemma AddSymbolWithMap(isEc: bool, index: u16, p: SymbolsState, name: seq<u8>)
    requires ValidState(p) && p.symMap.Some? && !EcMapOnly(p.symMap.value, isEc)
    ensures var r, s := AddSymbol(isEc, index, p, name), p.symMap.value;
      (name in ToMap(s.entries) ==> r == p)
      && (name !in ToMap(s.entries) ==>
            r.offsets == Record(p, name).offsets && r.symNames == Record(p, name).symNames
            && ToMap(r.symMap.value.entries) == ToMap(s.entries)[name := index]
            && ToMap(r.symMap.value.ecEntries)
               == if IsImportDescriptor(name) then ToMap(s.ecEntries)[name := index] else ToMap(s.ecEntries))
  {
  }

  /** With the main map, exactly the new names are recorded, once each and in order of
      first report; the map gains them with this member's index and keeps every earlier
      value; the new import descriptors are copied into the EC map. */
  lemma {:induction false} CollectWithMap(isEc: bool, index: u16, st: SymbolsState, names: seq<seq<u8>>, n: nat)
    requires ValidState(st) && st.symMap.Some? && !EcMapOnly(st.symMap.value, isEc) && n <= |names|
    requires Locates(st.symNames, st.offsets, |st.offsets|, [])
    ensures var r := Collect(isEc, index, st, names, n);
      var s, s' := st.symMap.value, r.symMap.value;
      var F := Fresh(s.entries, names, n);
      Locates(r.symNames, r.offsets, |st.offsets|, F)
      && r.offsets[..|st.offsets|] == st.offsets
      && r.symNames == st.symNames + ConcatMap(Terminated, F, |F|)
      && FirstWins(ToMap(s.entries), ToMap(s'.entries), names[..n], index)
      && Overwrites(ToMap(s.ecEntries), ToMap(s'.ecEntries), ImportDescriptors(F), index)
  {
    var s := st.symMap.value;
    if n == 0 {
      assert names[..0] == [];
    } else {
      CollectWithMap(isEc, index, st, names, n - 1);
      var p := Collect(isEc, index, st, names, n - 1);
      var r := AddSymbol(isEc, index, p, names[n - 1]);
      assert r == Collect(isEc, index, st, names, n);
      var ps := p.symMap.value;
      FreshStep(s.entries, ToMap(ps.entries), names, n, index);
      WithMapStep(isEc, index, st, p, Fresh(s.entries, names, n - 1), names[n - 1]);
      PrefixSnoc(names, n);
      FirstWinsStep(ToMap(s.entries), ToMap(ps.entries), names[..n - 1], index, names[n - 1],
                    ToMap(r.symMap.value.entries));
    }
  }

  /** Whether the next name is fresh depends only on the map reached so far. */
  lemma FreshStep(es: seq<Entry>, m1: map<seq<u8>, u16>, names: seq<seq<u8>>, n: nat, v: u16)
    requires 0 < n <= |names| && FirstWins(ToMap(es), m1, names[..n - 1], v)
    ensures Fresh(es, names, n)
            == if names[n - 1] in m1 then Fresh(es, names, n - 1) else Fresh(es, names, n - 1) + [names[n - 1]]
  {
  }

  /** One name with the main map: the recorded names `F` grow by it exactly when the map
      lacks it, and the table, the offsets and the EC map follow. */
  lemma WithMapStep(isEc: bool, index: u16, st: SymbolsState, p: SymbolsState, F: seq<seq<u8>>, name: seq<u8>)
    requires st.symMap.Some? && ValidState(p) && p.symMap.Some? && !EcMapOnly(p.symMap.value, isEc)
    requires Locates(p.symNames, p.offsets, |st.offsets|, F)
    requires p.offsets[..|st.offsets|] == st.offsets
    requires p.symNames == st.symNames + ConcatMap(Terminated, F, |F|)
    requires Overwrites(ToMap(st.symMap.value.ecEntries), ToMap(p.symMap.value.ecEntries), ImportDescriptors(F), index)
    ensures var r := AddSymbol(isEc, index, p, name);
      var F' := if name in ToMap(p.symMap.value.entries) then F else F + [name];
      Locates(r.symNames, r.offsets, |st.offsets|, F')
      && r.offsets[..|st.offsets|] == st.offsets
      && r.symNames == st.symNames + ConcatMap(Terminated, F', |F'|)
      && Overwrites(ToMap(st.symMap.value.ecEntries), ToMap(r.symMap.value.ecEntries), ImportDescriptors(F'), index)
  {
    if name !in ToMap(p.symMap.value.entries) {
      AddSymbolWithMap(isEc, index, p, name);
      var r := AddSymbol(isEc, index, p, name);
      WithMapRecorded(st, p, r, F, name);
      WithMapCopied(F, name, index, ToMap(st.symMap.value.ecEntries), ToMap(p.symMap.value.ecEntries),
                    ToMap(r.symMap.value.ecEntries));
    }
  }

  /** A name new to the main map is located at the end of the grown table. */
  lemma WithMapRecorded(st: SymbolsState, p: SymbolsState, r: SymbolsState, F: seq<seq<u8>>, name: seq<u8>)
    requires Locates(p.symNames, p.offsets, |st.offsets|, F)
    requires p.offsets[..|st.offsets|] == st.offsets
    requires p.symNames == st.symNames + ConcatMap(Terminated, F, |F|)
    requires r.offsets == Record(p, name).offsets && r.symNames == Record(p, name).symNames
    ensures Locates(r.symNames, r.offsets, |st.offsets|, F + [name])
    ensures r.offsets[..|st.offsets|] == st.offsets
    ensures r.symNames == st.symNames + ConcatMap(Terminated, F + [name], |F| + 1)
  {
    RecordLocates(p, |st.offsets|, F, name);
    ConcatMapOfFront(Terminated, F, [name], |F|);
    Assoc(st.symNames, ConcatMap(Terminated, F, |F|), Terminated(name));
  }

  /** A new import descriptor is copied to the EC map. */
  lemma WithMapCopied(F: seq<seq<u8>>, name: seq<u8>, index: u16,
                      m0: map<seq<u8>, u16>, m1: map<seq<u8>, u16>, m2: map<seq<u8>, u16>)
    requires Overwrites(m0, m1, ImportDescriptors(F), index)
    requires m2 == if IsImportDescriptor(name) then m1[name := index] else m1
    ensures Overwrites(m0, m2, ImportDescriptors(F + [name]), index)
  {
    assert (F + [name])[..|F|] == F;
    if IsImportDescriptor(name) {
      OverwritesStep(m0, m1, ImportDescriptors(F), index, name);
    }
  }

  /** What one name does with the EC map alone: it enters the EC map if new there. */
  lemma AddSymbolEcOnly(isEc: bool, index: u16, p: SymbolsState, name: seq<u8>)
    requires ValidState(p) && p.symMap.Some? && EcMapOnly(p.symMap.value, isEc)
    ensures var r, s := AddSymbol(isEc, index, p, name), p.symMap.value;
      r.offsets == p.offsets && r.symNames == p.symNames && r.symMap.value.entries == s.entries
      && ToMap(r.symMap.value.ecEntries)
         == if name in ToMap(s.ecEntries) then ToMap(s.ecEntries) else ToMap(s.ecEntries)[name := index]
  {
  }

  /** An ARM64EC object with the EC map in use records nothing and leaves the main map
      alone; its new names enter the EC map with this member's index. */
  lemma {:induction false} CollectEcOnly(isEc: bool, index: u16, st: SymbolsState, names: seq<seq<u8>>, n: nat)
    requires ValidState(st) && st.symMap.Some? && EcMapOnly(st.symMap.value, isEc) && n <= |names|
    ensures var r := Collect(isEc, index, st, names, n);
      var s, s' := st.symMap.value, r.symMap.value;
      r.offsets == st.offsets && r.symNames == st.symNames && s'.entries == s.entries
      && FirstWins(ToMap(s.ecEntries), ToMap(s'.ecEntries), names[..n], index)
  {
    var s := st.symMap.value;
    if n == 0 {
      assert names[..0] == [];
    } else {
      CollectEcOnly(isEc, index, st, names, n - 1);
      var p := Collect(isEc, index, st, names, n - 1);
      var r := AddSymbol(isEc, index, p, names[n - 1]);
      assert r == Collect(isEc, index, st, names, n);
      AddSymbolEcOnly(isEc, index, p, names[n - 1]);
      PrefixSnoc(names, n);
      FirstWinsStep(ToMap(s.ecEntries), ToMap(p.symMap.value.ecEntries), names[..n - 1], index, names[n - 1],
                    ToMap(r.symMap.value.ecEntries));
    }
  }
}
