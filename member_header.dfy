/** The 60-byte `ar` member header and its three name forms (src/archive_writer.rs): an
    inline GNU name ending in '/', a BSD `#1/<len>` name stored after the header, or a
    `/<offset>` reference into the long-name member `//`. */
module MemberHeaders {
  import opened Bytes
  import opened Bits
  import opened Alignment
  import opened Archive

  /** A numeric field: the digits, left-justified and space-padded to `width`. */
  function Field(n: nat, base: nat, width: nat): (r: seq<u8>)
    requires 2 <= base <= 10
    ensures |r| >= width
  {
    LeftJustify(Digits(n, base), width)
  }

  /** A field holds its value in exactly `width` bytes when the value has at most `width`
      digits, and then reads back as that value. */
  lemma FieldFits(n: nat, base: nat, width: nat)
    requires 2 <= base <= 10 && 1 <= width && n < Pow(base, width)
    ensures |Field(n, base, width)| == width
    ensures ReadField(Field(n, base, width), base) == n
  {
    DigitsFit(n, base, width);
    FieldRoundTrip(n, base, width);
  }

  lemma FieldWidth(n: nat, base: nat, width: nat)
    requires 2 <= base <= 10 && 1 <= width && n < Pow(base, width)
    ensures |Field(n, base, width)| == width
  {
    DigitsFit(n, base, width);
  }

  lemma Powers()
    ensures Pow(10, 6) == 1000000 && Pow(10, 10) == 10000000000
    ensures Pow(10, 12) == 1000000000000 && Pow(10, 13) == 10000000000000
    ensures Pow(10, 15) == 1000000000000000 && Pow(8, 8) == 0x100_0000
  {
    assert Pow(10, 3) == 1000;
    assert Pow(10, 6) == 1000000 by { PowAdd(10, 3, 3); }
    assert Pow(10, 10) == 10000000000 by { PowAdd(10, 6, 4); }
    assert Pow(10, 12) == 1000000000000 by { PowAdd(10, 6, 6); }
    assert Pow(10, 13) == 10000000000000 by { PowAdd(10, 12, 1); }
    assert Pow(10, 15) == 1000000000000000 by { PowAdd(10, 12, 3); }
    assert Pow(8, 4) == 4096;
    PowAdd(8, 4, 4);
  }

  const TERMINATOR: seq<u8> := [BACKTICK, NEWLINE]

  /** `print_rest_of_member_header`: mtime (12), uid and gid modulo 10^6 (6 each), the
      permissions in octal (8), the size (10) and the terminator "`\n". */
  function RestOfMemberHeader(mtime: nat, uid: u32, gid: u32, perms: u32, size: nat): (r: seq<u8>)
    ensures |r| >= 44 && r[|r| - 2..] == TERMINATOR
  {
    Field(mtime, 10, 12) + Field(uid % 1000000, 10, 6) + Field(gid % 1000000, 10, 6)
      + Field(perms, 8, 8) + Field(size, 10, 10) + TERMINATOR
  }

  /** The header fields fit the widths of the format. */
  predicate RestFits(mtime: nat, perms: nat, size: nat) {
    mtime < 1000000000000 && perms < 0x100_0000 && size < 10000000000
  }

  lemma RestOfMemberHeaderLength(mtime: nat, uid: u32, gid: u32, perms: u32, size: nat)
    requires RestFits(mtime, perms, size)
    ensures |RestOfMemberHeader(mtime, uid, gid, perms, size)| == 44
  {
    Powers();
    FieldWidth(mtime, 10, 12);
    FieldWidth(uid % 1000000, 10, 6);
    FieldWidth(gid % 1000000, 10, 6);
    FieldWidth(perms, 8, 8);
    FieldWidth(size, 10, 10);
  }

  /** With fitting values the rest of the header is 44 bytes whose fields read back as the
      values given, uid and gid reduced modulo 10^6. */
  lemma RestOfMemberHeaderFields(mtime: nat, uid: u32, gid: u32, perms: u32, size: nat)
    requires RestFits(mtime, perms, size)
    ensures var r := RestOfMemberHeader(mtime, uid, gid, perms, size);
      |r| == 44
      && ReadField(r[0..12], 10) == mtime
      && ReadField(r[12..18], 10) == uid % 1000000
      && ReadField(r[18..24], 10) == gid % 1000000
      && ReadField(r[24..32], 8) == perms
      && ReadField(r[32..42], 10) == size
      && r[42..44] == TERMINATOR
  {
    Powers();
    FieldFits(mtime, 10, 12);
    FieldFits(uid % 1000000, 10, 6);
    FieldFits(gid % 1000000, 10, 6);
    FieldFits(perms, 8, 8);
    FieldFits(size, 10, 10);
    var a, b, c := Field(mtime, 10, 12), Field(uid % 1000000, 10, 6), Field(gid % 1000000, 10, 6);
    var d, e := Field(perms, 8, 8), Field(size, 10, 10);
    var r := RestOfMemberHeader(mtime, uid, gid, perms, size);
    assert r == a + b + c + d + e + TERMINATOR;
    assert r[0..12] == a;
    assert r[12..18] == b;
    assert r[18..24] == c;
    assert r[24..32] == d;
    assert r[32..42] == e;
  }

  /** `print_gnu_small_member_header`: `name + "/"`, padded to 16 chars, then the rest.
      The member name is UTF-8, and Rust pads by chars, so each byte that continues a
      multi-byte char makes the header a byte longer than 60. */
  function GnuSmallMemberHeader(name: seq<u8>, mtime: nat, uid: u32, gid: u32, perms: u32, size: nat): (r: seq<u8>)
    ensures |r| >= 60 && |r| >= |name| + 45 && r[..|name| + 1] == name + [SLASH]
  {
    PadChars(name + [SLASH], 16) + RestOfMemberHeader(mtime, uid, gid, perms, size)
  }

  /** A short GNU header: the name and its '/', spaces until the field holds 16 chars,
      and the fields of the rest in place.  It is exactly 60 bytes when the name is ASCII
      and longer by the name's continuation bytes otherwise. */
  lemma GnuSmallMemberHeaderLayout(name: seq<u8>, mtime: nat, uid: u32, gid: u32, perms: u32, size: nat)
    requires CharCount(name) < 16 && RestFits(mtime, perms, size)
    ensures var h := GnuSmallMemberHeader(name, mtime, uid, gid, perms, size);
      var field := 16 + |name| - CharCount(name);
      |h| == field + 44
      && h[..|name| + 1] == name + [SLASH]
      && (forall i :: |name| + 1 <= i < field ==> h[i] == SPACE)
      && h[field..] == RestOfMemberHeader(mtime, uid, gid, perms, size)
    ensures IsAscii(name) ==> |GnuSmallMemberHeader(name, mtime, uid, gid, perms, size)| == 60
  {
    RestOfMemberHeaderFields(mtime, uid, gid, perms, size);
    CharCountAppend(name, [SLASH]);
    assert CharCount([SLASH]) == 1 by { assert [SLASH][..0] == []; }
    var field := 16 + |name| - CharCount(name);
    var f := PadChars(name + [SLASH], 16);
    assert |f| == field;
    var h := GnuSmallMemberHeader(name, mtime, uid, gid, perms, size);
    assert h[..field] == f;
    assert h[..|name| + 1] == f[..|name| + 1];
    if IsAscii(name) {
      AsciiCharCount(name);
    }
  }

  /** "#1/" */
  const BSD_NAME_PREFIX: seq<u8> := [HASH, 49, SLASH]

  /** The NUL padding after a BSD name, so that the member data starts 8-aligned. */
  function BsdNamePad(pos: nat, name: seq<u8>): (r: nat)
    ensures r < 8
    ensures (pos + 60 + |name| + r) % 8 == 0
  {
    PaddingTo(pos + 60 + |name|, 8)
  }

  /** `print_bsd_member_header` for a header starting at `pos`: the name field is
      `#1/<length>`, where the length counts the name and its NUL padding, the size field
      counts them too, and the name and the padding follow the 60 header bytes. */
  function BsdMemberHeader(pos: nat, name: seq<u8>, mtime: nat, uid: u32, gid: u32, perms: u32, size: nat): (r: seq<u8>)
    ensures |r| >= 60 + |name| + BsdNamePad(pos, name) && r[..3] == BSD_NAME_PREFIX
    ensures var pad := BsdNamePad(pos, name);
      r[|r| - pad - |name|..|r| - pad] == name && forall i :: |r| - pad <= i < |r| ==> r[i] == NUL
  {
    var pad := BsdNamePad(pos, name);
    var nameWithPadding := |name| + pad;
    BSD_NAME_PREFIX + Field(nameWithPadding, 10, 13)
      + RestOfMemberHeader(mtime, uid, gid, perms, nameWithPadding + size)
      + name + Repeat(NUL, pad)
  }

  /** A BSD header at `pos` with fitting fields is 60 bytes plus name and padding, it ends
      on a multiple of 8, and its name-length and size fields read back. */
  lemma BsdMemberHeaderLayout(pos: nat, name: seq<u8>, mtime: nat, uid: u32, gid: u32, perms: u32, size: nat)
    requires |name| + 8 < 10000000000000
    requires RestFits(mtime, perms, |name| + 8 + size)
    ensures var h := BsdMemberHeader(pos, name, mtime, uid, gid, perms, size);
      var pad := BsdNamePad(pos, name);
      |h| == 60 + |name| + pad
      && (pos + |h|) % 8 == 0
      && h[..3] == BSD_NAME_PREFIX
      && ReadField(h[3..16], 10) == |name| + pad
      && ReadField(h[48..58], 10) == |name| + pad + size
      && h[60..60 + |name|] == name
      && (forall i :: 60 + |name| <= i < |h| ==> h[i] == NUL)
  {
    var b, c := BsdMemberHeaderFields(pos, name, mtime, uid, gid, perms, size);
    BsdParts(BSD_NAME_PREFIX, b, c, name, Repeat(NUL, BsdNamePad(pos, name)));
  }

  /** The name-length field and the rest of a BSD header, with what they read back as. */
  lemma BsdMemberHeaderFields(pos: nat, name: seq<u8>, mtime: nat, uid: u32, gid: u32, perms: u32, size: nat)
    returns (b: seq<u8>, c: seq<u8>)
    requires |name| + 8 < 10000000000000
    requires RestFits(mtime, perms, |name| + 8 + size)
    ensures var pad := BsdNamePad(pos, name);
      BsdMemberHeader(pos, name, mtime, uid, gid, perms, size) == BSD_NAME_PREFIX + b + c + name + Repeat(NUL, pad)
      && |b| == 13 && ReadField(b, 10) == |name| + pad
      && |c| == 44 && ReadField(c[32..42], 10) == |name| + pad + size
  {
    var pad := BsdNamePad(pos, name);
    b := Field(|name| + pad, 10, 13);
    c := RestOfMemberHeader(mtime, uid, gid, perms, |name| + pad + size);
    Powers();
    FieldFits(|name| + pad, 10, 13);
    RestOfMemberHeaderFields(mtime, uid, gid, perms, |name| + pad + size);
  }

  lemma BsdParts(a: seq<u8>, b: seq<u8>, c: seq<u8>, name: seq<u8>, nuls: seq<u8>)
    requires |a| == 3 && |b| == 13 && |c| == 44
    requires forall i :: 0 <= i < |nuls| ==> nuls[i] == NUL
    ensures var h := a + b + c + name + nuls;
      |h| == 60 + |name| + |nuls|
      && h[..3] == a && h[3..16] == b && h[48..58] == c[32..42]
      && h[60..60 + |name|] == name && (forall i :: 60 + |name| <= i < |h| ==> h[i] == NUL)
  {
    var h := a + b + c + name + nuls;
    assert h[16..60] == c;
    assert h[48..58] == h[16..60][32..42];
    assert h[60 + |name|..] == nuls;
  }

  /** `use_string_table`: thin archives, names of 16 bytes or more, and names containing
      '/' are stored in the long-name member. */
  predicate UseStringTable(thin: bool, name: seq<u8>) {
    thin || |name| >= 16 || SLASH in name
  }

  /** A name goes inline exactly when it is short, has no '/', and the archive is not thin.
      The test counts bytes, so an inline name has fewer than 16 chars too, and its field,
      padded to 16 chars, has 16 bytes when the name is ASCII and one more per
      continuation byte otherwise. */
  lemma UseStringTableCases(thin: bool, name: seq<u8>)
    ensures !UseStringTable(thin, name) <==> !thin && |name| < 16 && forall i :: 0 <= i < |name| ==> name[i] != SLASH
    ensures !UseStringTable(thin, name) ==>
      var f := PadChars(name + [SLASH], 16);
      CharCount(name) < 16 && CharCount(f) == 16 && |f| == 16 + |name| - CharCount(name)
    ensures !UseStringTable(thin, name) && IsAscii(name) ==> |PadChars(name + [SLASH], 16)| == 16
  {
    CharCountAppend(name, [SLASH]);
    assert CharCount([SLASH]) == 1 by { assert [SLASH][..0] == []; }
    if IsAscii(name) {
      AsciiCharCount(name);
    }
  }

  /** The table entry of a long name: terminated by NUL in a COFF archive and by "/\n"
      otherwise, and always by "/\n" in a thin archive. */
  function NameEntry(kind: ArchiveKind, thin: bool, name: seq<u8>): (r: seq<u8>)
    ensures |r| == |name| + (if !thin && IsCoffArchive(kind) then 1 else 2) && r[..|name|] == name
  {
    if !thin && IsCoffArchive(kind) then name + [NUL] else name + [SLASH, NEWLINE]
  }

  /** A long-name reference: "/" and the offset padded to 15, then the rest. */
  function LongNameHeader(namePos: nat, mtime: nat, uid: u32, gid: u32, perms: u32, size: nat): (r: seq<u8>)
  {
    [SLASH] + Field(namePos, 10, 15) + RestOfMemberHeader(mtime, uid, gid, perms, size)
  }

  /** The reference reads back as the offset it was made from. */
  lemma LongNameHeaderLayout(namePos: nat, mtime: nat, uid: u32, gid: u32, perms: u32, size: nat)
    requires namePos < 1000000000000000 && RestFits(mtime, perms, size)
    ensures var h := LongNameHeader(namePos, mtime, uid, gid, perms, size);
      |h| == 60 && h[0] == SLASH && ReadField(h[1..16], 10) == namePos
      && h[16..] == RestOfMemberHeader(mtime, uid, gid, perms, size)
  {
    Powers();
    FieldFits(namePos, 10, 15);
    RestOfMemberHeaderFields(mtime, uid, gid, perms, size);
    var f := Field(namePos, 10, 15);
    var h := LongNameHeader(namePos, mtime, uid, gid, perms, size);
    assert h[1..16] == f;
  }

  /** What `print_member_header` produces: the header, and the long-name table and the
      map of names already in it, as updated. */
  datatype HeaderOut = HeaderOut(header: seq<u8>, stringTable: seq<u8>, memberNames: map<seq<u8>, nat>)

  /** `print_member_header` for member `m` at archive position `pos`.  In a thin archive
      every long name gets a fresh entry; otherwise a name already in the table is reused. */
  function PrintMemberHeader(pos: nat, stringTable: seq<u8>, memberNames: map<seq<u8>, nat>,
                             kind: ArchiveKind, thin: bool, m: NewArchiveMember,
                             mtime: nat, size: nat): (r: HeaderOut)
    ensures IsBsdLike(kind) || !UseStringTable(thin, m.memberName) ==>
      r.stringTable == stringTable && r.memberNames == memberNames
    ensures IsBsdLike(kind) ==>
      |r.header| >= 60 + |m.memberName| && r.header[..3] == BSD_NAME_PREFIX
    ensures !IsBsdLike(kind) && !UseStringTable(thin, m.memberName) ==>
      |r.header| >= |m.memberName| + 45 && r.header[..|m.memberName| + 1] == m.memberName + [SLASH]
    ensures !IsBsdLike(kind) && UseStringTable(thin, m.memberName) ==>
      r.memberNames == (if thin || m.memberName in memberNames then memberNames
                        else memberNames[m.memberName := |stringTable|])
    ensures !IsBsdLike(kind) && UseStringTable(thin, m.memberName) ==>
      var off := if !thin && m.memberName in memberNames then memberNames[m.memberName]
                 else |stringTable|;
      r.header == LongNameHeader(off, mtime, m.uid, m.gid, m.perms, size)
      && r.stringTable == stringTable + (if !thin && m.memberName in memberNames then []
                                         else NameEntry(kind, thin, m.memberName))
  {
    if IsBsdLike(kind) then
      HeaderOut(BsdMemberHeader(pos, m.memberName, mtime, m.uid, m.gid, m.perms, size),
                stringTable, memberNames)
    else if !UseStringTable(thin, m.memberName) then
      HeaderOut(GnuSmallMemberHeader(m.memberName, mtime, m.uid, m.gid, m.perms, size),
                stringTable, memberNames)
    else if thin then
      HeaderOut(LongNameHeader(|stringTable|, mtime, m.uid, m.gid, m.perms, size),
                stringTable + NameEntry(kind, thin, m.memberName), memberNames)
    else if m.memberName in memberNames then
      HeaderOut(LongNameHeader(memberNames[m.memberName], mtime, m.uid, m.gid, m.perms, size),
                stringTable, memberNames)
    else
      var namePos := |stringTable|;
      HeaderOut(LongNameHeader(namePos, mtime, m.uid, m.gid, m.perms, size),
                stringTable + NameEntry(kind, thin, m.memberName),
                memberNames[m.memberName := namePos])
  }

  /** Every name recorded in `memberNames` sits, with its terminator, at its offset. */
  predicate NamesInTable(kind: ArchiveKind, stringTable: seq<u8>, memberNames: map<seq<u8>, nat>) {
    forall name :: name in memberNames ==>
      EntryAt(stringTable, memberNames[name], NameEntry(kind, false, name))
  }

  /** `e` occurs in `table` at offset `off`. */
  predicate EntryAt(table: seq<u8>, off: nat, e: seq<u8>) {
    off + |e| <= |table| && table[off..off + |e|] == e
  }

  /** `print_member_header` keeps every recorded name valid, records a new long name at
      the offset the header cites, and leaves the earlier table bytes alone. */
  lemma PrintMemberHeaderKeepsNames(pos: nat, stringTable: seq<u8>, memberNames: map<seq<u8>, nat>,
                                    kind: ArchiveKind, m: NewArchiveMember, mtime: nat, size: nat)
    requires NamesInTable(kind, stringTable, memberNames)
    ensures var r := PrintMemberHeader(pos, stringTable, memberNames, kind, false, m, mtime, size);
      NamesInTable(kind, r.stringTable, r.memberNames)
      && r.stringTable[..|stringTable|] == stringTable
      && (!IsBsdLike(kind) && UseStringTable(false, m.memberName) ==> m.memberName in r.memberNames)
  {
    var r := PrintMemberHeader(pos, stringTable, memberNames, kind, false, m, mtime, size);
    if !IsBsdLike(kind) && UseStringTable(false, m.memberName) && m.memberName !in memberNames {
      AddName(kind, stringTable, memberNames, m.memberName);
    }
  }

  /** Appending a new name's entry and recording it at the old end keeps the table valid. */
  lemma AddName(kind: ArchiveKind, stringTable: seq<u8>, memberNames: map<seq<u8>, nat>, name: seq<u8>)
    requires NamesInTable(kind, stringTable, memberNames)
    ensures NamesInTable(kind, stringTable + NameEntry(kind, false, name),
                         memberNames[name := |stringTable|])
  {
    var t := stringTable + NameEntry(kind, false, name);
    var names := memberNames[name := |stringTable|];
    forall n | n in names
      ensures EntryAt(t, names[n], NameEntry(kind, false, n))
    {
      if n == name {
        assert t[|stringTable|..] == NameEntry(kind, false, name);
      } else {
        EntryKept(stringTable, NameEntry(kind, false, name), memberNames[n], NameEntry(kind, false, n));
      }
    }
  }

  lemma EntryKept(s: seq<u8>, t: seq<u8>, off: nat, e: seq<u8>)
    requires EntryAt(s, off, e)
    ensures EntryAt(s + t, off, e)
  {
    assert (s + t)[off..off + |e|] == s[off..off + |e|];
  }

  /** The `//` member (`compute_string_table`): a 60-byte header naming it and giving its
      size, the table, and one '\n' when the table has odd length. */
  function StringTableMember(names: seq<u8>): (r: MemberData)
    ensures r.data == names && r.symbols == []
    ensures (|r.data| + |r.padding|) % 2 == 0
    ensures forall i :: 0 <= i < |r.padding| ==> r.padding[i] == NEWLINE
  {
    var size := |names|;
    var pad := PaddingTo(size, 2);
    var header := LeftJustify(Ascii("//"), 48) + Field(size + pad, 10, 10) + TERMINATOR;
    MemberData([], header, names, if pad != 0 then [NEWLINE] else [])
  }

  /** The `//` header is 60 bytes and its size field is the padded table length. */
  lemma StringTableMemberLayout(names: seq<u8>)
    requires |names| < 9999999999
    ensures var r := StringTableMember(names);
      |r.header| == 60 && r.header[..2] == Ascii("//")
      && ReadField(r.header[48..58], 10) == |r.data| + |r.padding|
      && |r.padding| <= 1
  {
    var r := StringTableMember(names);
    var size := |names| + PaddingTo(|names|, 2);
    Powers();
    FieldFits(size, 10, 10);
    var a := LeftJustify(Ascii("//"), 48);
    assert r.header == a + Field(size, 10, 10) + TERMINATOR;
    assert r.header[48..58] == Field(size, 10, 10);
    assert r.header[..2] == a[..2];
  }
}
