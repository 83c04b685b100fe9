/**
 * The ELF constants the header decoder compares against: indices into the
 * 16-byte identification array and the values of the class, data-encoding,
 * version, OS/ABI and object-type fields, as the elf(5) manual page and the
 * System V gABI define them.
 */
module ElfConstants {
  import opened Bytes

  /** Length of `e_ident`. */
  const EI_NIDENT: nat := 16

  /** Indices into `e_ident`. */
  const EI_CLASS: nat := 4
  const EI_DATA: nat := 5
  const EI_VERSION: nat := 6
  const EI_OSABI: nat := 7
  const EI_ABIVERSION: nat := 8

  /** `e_ident[EI_CLASS]`: the file's class. */
  const ELFCLASSNONE: u8 := 0
  const ELFCLASS32: u8 := 1
  const ELFCLASS64: u8 := 2

  /** `e_ident[EI_DATA]`: the data encoding. */
  const ELFDATANONE: u8 := 0
  const ELFDATA2LSB: u8 := 1
  const ELFDATA2MSB: u8 := 2

  /** `e_ident[EI_VERSION]`: the ELF specification version. */
  const EV_NONE: u8 := 0
  const EV_CURRENT: u8 := 1

  /** `e_ident[EI_OSABI]`: the operating system and ABI. */
  const ELFOSABI_SYSV: u8 := 0
  const ELFOSABI_HPUX: u8 := 1
  const ELFOSABI_NETBSD: u8 := 2
  const ELFOSABI_GNU: u8 := 3
  const ELFOSABI_SOLARIS: u8 := 6
  const ELFOSABI_AIX: u8 := 7
  const ELFOSABI_IRIX: u8 := 8
  const ELFOSABI_FREEBSD: u8 := 9
  const ELFOSABI_TRU64: u8 := 10
  const ELFOSABI_MODESTO: u8 := 11
  const ELFOSABI_OPENBSD: u8 := 12
  const ELFOSABI_ARM_AEABI: u8 := 64
  const ELFOSABI_ARM: u8 := 97
  const ELFOSABI_STANDALONE: u8 := 255

  /** `e_type`: the object file type. */
  const ET_NONE: u16 := 0
  const ET_REL: u16 := 1
  const ET_EXEC: u16 := 2
  const ET_DYN: u16 := 3
  const ET_CORE: u16 := 4
}
