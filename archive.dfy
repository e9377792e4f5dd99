/** The archive kinds and limits of src/archive.rs, the member and object-reader types of
    src/lib.rs and src/archive_writer.rs, and the import-descriptor names of
    src/coff_import_file.rs. */
module Archive {
  import opened Bytes
  import opened Wrappers

  datatype ArchiveKind = Gnu | Gnu64 | Bsd | Darwin | Darwin64 | Coff | AixBig

  /** The size field is 10 decimal digits wide. */
  const MAX_MEMBER_SIZE: nat := 9999999999

  predicate IsDarwin(kind: ArchiveKind) {
    kind == Darwin || kind == Darwin64
  }

  predicate IsAixBigArchive(kind: ArchiveKind) {
    kind == AixBig
  }

  predicate IsCoffArchive(kind: ArchiveKind) {
    kind == Coff
  }

  predicate IsBsdLike(kind: ArchiveKind) {
    match kind
    case Gnu | Gnu64 | AixBig | Coff => false
    case Bsd | Darwin | Darwin64 => true
  }

  predicate Is64BitKind(kind: ArchiveKind) {
    match kind
    case Gnu | Bsd | Darwin | Coff => false
    case AixBig | Darwin64 | Gnu64 => true
  }

  /** What the writer reports instead of an archive. */
  datatype ArchiveError =
    | MemberTooBig(memberName: seq<u8>)   // "Archive member <name> is too big"
    | ReaderError(message: string)        // an error raised while listing symbols

  /** How a step of the writer can stop: returning an error, or a panic (a failed
      `assert!` or `unwrap`), which unwinds without returning. */
  datatype Failure = Returned(error: ArchiveError) | Panic

  /** The object-file queries a caller supplies (`ObjectReader`): the archive symbols a
      member defines, in the order the reader reports them, and two classifications.  The
      reader's own success flag is ignored by the writer and is not modelled. */
  datatype ObjectReader = ObjectReader(
    getSymbols: seq<u8> -> Result<seq<seq<u8>>, ArchiveError>,
    is64BitObjectFile: seq<u8> -> bool,
    isEcObjectFile: seq<u8> -> bool)

  /** `NewArchiveMember`: the member's bytes, its reader, its name as UTF-8 bytes, and the
      header fields the caller chooses. */
  datatype NewArchiveMember = NewArchiveMember(
    buf: seq<u8>,
    objectReader: ObjectReader,
    memberName: seq<u8>,
    mtime: u64,
    uid: u32,
    gid: u32,
    perms: u32)

  /** `MemberData`: a member as it will be written, with the offsets of its symbols'
      names in the symbol-name table.  The AIX-only fields are not modelled. */
  datatype MemberData = MemberData(symbols: seq<nat>, header: seq<u8>, data: seq<u8>, padding: seq<u8>)

  /** The bytes a member occupies in the archive. */
  function MemberSize(m: MemberData): nat {
    |m.header| + |m.data| + |m.padding|
  }

  /** The names a COFF import library gives its import descriptors. */
  const IMPORT_DESCRIPTOR_PREFIX: seq<u8> := Ascii("__IMPORT_DESCRIPTOR_")
  const NULL_IMPORT_DESCRIPTOR_SYMBOL_NAME: seq<u8> := Ascii("__NULL_IMPORT_DESCRIPTOR")
  const NULL_THUNK_DATA_PREFIX: seq<u8> := [0x7f]
  const NULL_THUNK_DATA_SUFFIX: seq<u8> := Ascii("_NULL_THUNK_DATA")

  predicate StartsWith(s: seq<u8>, p: seq<u8>) {
    |p| <= |s| && s[..|p|] == p
  }

  predicate EndsWith(s: seq<u8>, p: seq<u8>) {
    |p| <= |s| && s[|s| - |p|..] == p
  }

  /** `is_import_descriptor`: the symbols that import descriptors define. */
  predicate IsImportDescriptor(name: seq<u8>) {
    StartsWith(name, IMPORT_DESCRIPTOR_PREFIX)
    || name == NULL_IMPORT_DESCRIPTOR_SYMBOL_NAME
    || (StartsWith(name, NULL_THUNK_DATA_PREFIX) && EndsWith(name, NULL_THUNK_DATA_SUFFIX))
  }

  /** The kinds form three families: the 64-bit kinds are Gnu64, Darwin64 and AixBig, the
      BSD-like kinds are Bsd and the two Darwin kinds, and each Darwin kind is BSD-like. */
  lemma KindFamilies(kind: ArchiveKind)
    ensures IsDarwin(kind) ==> IsBsdLike(kind)
    ensures IsCoffArchive(kind) ==> !IsBsdLike(kind) && !Is64BitKind(kind)
    ensures Is64BitKind(kind) <==> kind in {Gnu64, Darwin64, AixBig}
    ensures IsBsdLike(kind) <==> kind in {Bsd, Darwin, Darwin64}
  {
  }
}
