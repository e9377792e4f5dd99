/** src/coff.rs: COFF machine types and the import-header enumerations, with their u16
    discriminants and the ARM64 family predicates. */
module Coff {
  import opened Bytes
  import opened Wrappers

  datatype MachineTypes = AMD64 | ARMNT | ARM64 | ARM64EC | ARM64X | I386

  /** The `#[repr(u16)]` discriminant (`From<MachineTypes> for u16`). */
  function MachineCode(m: MachineTypes): (r: u16)
    ensures m == AMD64 ==> r == 0x8664
    ensures m == I386 ==> r == 0x14C
  {
    match m
    case AMD64 => 0x8664
    case ARMNT => 0x1C4
    case ARM64 => 0xAA64
    case ARM64EC => 0xA641
    case ARM64X => 0xA64E
    case I386 => 0x14C
  }

  /** The code a machine type is read back from. */
  function MachineFromCode(c: u16): (r: Option<MachineTypes>)
  {
    if c == 0x8664 then Some(AMD64)
    else if c == 0x1C4 then Some(ARMNT)
    else if c == 0xAA64 then Some(ARM64)
    else if c == 0xA641 then Some(ARM64EC)
    else if c == 0xA64E then Some(ARM64X)
    else if c == 0x14C then Some(I386)
    else None
  }

  /** Distinct machine types have distinct codes: the code determines the machine. */
  lemma MachineCodeRoundTrip(m: MachineTypes)
    ensures MachineFromCode(MachineCode(m)) == Some(m)
  {
  }

  lemma MachineCodeInjective(m: MachineTypes, n: MachineTypes)
    ensures MachineCode(m) == MachineCode(n) <==> m == n
  {
    MachineCodeRoundTrip(m);
    MachineCodeRoundTrip(n);
  }

  predicate IsArm64EC(machine: MachineTypes) {
    machine == ARM64EC || machine == ARM64X
  }

  predicate IsAnyArm64(machine: MachineTypes) {
    machine == ARM64 || IsArm64EC(machine)
  }

  predicate Is64Bit(machine: MachineTypes) {
    machine == AMD64 || IsAnyArm64(machine)
  }

  /** Which machines each predicate accepts, by code: ARM64EC and ARM64X are the EC
      machines; with ARM64 they form the ARM64 family; with AMD64 the 64-bit machines. */
  lemma MachinePredicates(machine: MachineTypes)
    ensures IsArm64EC(machine) <==> MachineCode(machine) in {0xA641, 0xA64E}
    ensures IsAnyArm64(machine) <==> MachineCode(machine) in {0xAA64, 0xA641, 0xA64E}
    ensures Is64Bit(machine) <==> MachineCode(machine) in {0x8664, 0xAA64, 0xA641, 0xA64E}
    ensures !Is64Bit(machine) <==> machine == I386 || machine == ARMNT
  {
  }

  /** `is_arm64ec` implies `is_any_arm64`, which implies `is_64_bit`. */
  lemma MachinePredicateChain(machine: MachineTypes)
    ensures IsArm64EC(machine) ==> IsAnyArm64(machine)
    ensures IsAnyArm64(machine) ==> Is64Bit(machine)
  {
  }

  datatype ImportType = Code | Data | Const

  function ImportTypeCode(t: ImportType): (r: u16)
    ensures r <= 2
  {
    match t
    case Code => 0
    case Data => 1
    case Const => 2
  }

  datatype ImportNameType = Ordinal | Name | NameNoprefix | NameUndecorate | NameExportas

  function ImportNameTypeCode(t: ImportNameType): (r: u16)
    ensures r <= 4
  {
    match t
    case Ordinal => 0
    case Name => 1
    case NameNoprefix => 2
    case NameUndecorate => 3
    case NameExportas => 4
  }

  function ImportTypeFromCode(k: u16): Option<ImportType> {
    if k == 0 then Some(Code) else if k == 1 then Some(Data) else if k == 2 then Some(Const)
    else None
  }

  function ImportNameTypeFromCode(k: u16): Option<ImportNameType> {
    if k == 0 then Some(Ordinal) else if k == 1 then Some(Name)
    else if k == 2 then Some(NameNoprefix) else if k == 3 then Some(NameUndecorate)
    else if k == 4 then Some(NameExportas) else None
  }

  /** Both enumerations number their variants 0, 1, 2, ... without gaps or repeats: each
      code in range names exactly one variant. */
  lemma ImportCodesRoundTrip(t: ImportType, n: ImportNameType, k: u16)
    ensures ImportTypeFromCode(ImportTypeCode(t)) == Some(t)
    ensures ImportNameTypeFromCode(ImportNameTypeCode(n)) == Some(n)
    ensures ImportTypeFromCode(k).Some? <==> k <= 2
    ensures ImportNameTypeFromCode(k).Some? <==> k <= 4
    ensures ImportTypeFromCode(k).Some? ==> ImportTypeCode(ImportTypeFromCode(k).value) == k
    ensures ImportNameTypeFromCode(k).Some? ==>
      ImportNameTypeCode(ImportNameTypeFromCode(k).value) == k
  {
  }
}
