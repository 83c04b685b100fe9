/**
 * The header report (`impl fmt::Display for x64` in src/headers/elf/x64.rs):
 * a label for each classified identification byte and for the object type,
 * the nine report lines in their fixed order, and the formatter the lines are
 * written to one `writeln!` at a time.
 *
 * Every classification is open: a value outside the known set is never an
 * error and renders as a label starting with "Warning: ".
 */
module ElfReport {
  import opened Bytes
  import opened Text
  import opened ElfConstants
  import opened ElfHeader

  /** The marker every fallback label starts with. */
  const WARNING: string := "Warning: "

  /** The text starts with the warning marker, so in particular its first character is 'W'. */
  predicate IsWarning(text: string)
  {
    |text| >= |WARNING| && text[0] == 'W' && text[..|WARNING|] == WARNING
  }

  /** The fallback label: the warning marker followed by a message. */
  function Warn(message: string): (r: string)
    ensures IsWarning(r)
    ensures r[|WARNING|..] == message
  {
    assert (WARNING + message)[..|WARNING|] == WARNING;
    assert (WARNING + message)[|WARNING|..] == message;
    WARNING + message
  }

  predicate KnownClass(c: u8)
  {
    c == ELFCLASSNONE || c == ELFCLASS32 || c == ELFCLASS64
  }

  /** The label of `e_ident[EI_CLASS]`. */
  function ClassLabel(c: u8): (r: string)
    ensures IsWarning(r) <==> !KnownClass(c)
  {
    if c == ELFCLASSNONE then "Invalid class"
    else if c == ELFCLASS32 then "ELF32"
    else if c == ELFCLASS64 then "ELF64"
    else Warn("unknown class")
  }

  /** Each known class has its own name. */
  lemma ClassLabelNames(c: u8)
    ensures ClassLabel(c) == "Invalid class" <==> c == ELFCLASSNONE
    ensures ClassLabel(c) == "ELF32" <==> c == ELFCLASS32
    ensures ClassLabel(c) == "ELF64" <==> c == ELFCLASS64
    ensures !KnownClass(c) ==> ClassLabel(c) == Warn("unknown class")
  {
  }

  predicate KnownData(d: u8)
  {
    d == ELFDATANONE || d == ELFDATA2LSB || d == ELFDATA2MSB
  }

  /** The label of `e_ident[EI_DATA]`. */
  function DataLabel(d: u8): (r: string)
    ensures IsWarning(r) <==> !KnownData(d)
  {
    if d == ELFDATANONE then "Unknown data encoding"
    else if d == ELFDATA2MSB then "2's complement, big endian"
    else if d == ELFDATA2LSB then "2's complement, little endian"
    else Warn("unknow data encoding")
  }

  /** Each known data encoding has its own name. */
  lemma DataLabelNames(d: u8)
    ensures DataLabel(d) == "Unknown data encoding" <==> d == ELFDATANONE
    ensures DataLabel(d) == "2's complement, big endian" <==> d == ELFDATA2MSB
    ensures DataLabel(d) == "2's complement, little endian" <==> d == ELFDATA2LSB
    ensures !KnownData(d) ==> DataLabel(d) == Warn("unknow data encoding")
  {
  }

  predicate KnownVersion(v: u8)
  {
    v == EV_NONE || v == EV_CURRENT
  }

  /** The label of `e_ident[EI_VERSION]`; the current version is shown with its number. */
  function VersionLabel(v: u8): (r: string)
    ensures IsWarning(r) <==> !KnownVersion(v)
  {
    var current := Decimal(v) + " (current)";
    if v == EV_NONE then "Invalid version"
    else if v == EV_CURRENT then current
    else Warn("unknow version")
  }

  /** The invalid version is named, and the current one is shown as its number. */
  lemma VersionLabelNames(v: u8)
    ensures VersionLabel(v) == "Invalid version" <==> v == EV_NONE
    ensures VersionLabel(v) == "1 (current)" <==> v == EV_CURRENT
    ensures !KnownVersion(v) ==> VersionLabel(v) == Warn("unknow version")
  {
  }

  /** The OS/ABI values the report names, with their names. */
  const OSABI_NAMES: seq<(u8, string)> := [
    (ELFOSABI_SYSV, "UNIX System V ABI"),
    (ELFOSABI_HPUX, "HP-UX"),
    (ELFOSABI_NETBSD, "NetBSD"),
    (ELFOSABI_GNU, "Object use GNU ELF extensions"),
    (ELFOSABI_SOLARIS, "Sun Solaris"),
    (ELFOSABI_AIX, "IBM AIX"),
    (ELFOSABI_IRIX, "SGI Irix"),
    (ELFOSABI_FREEBSD, "FreeBSD"),
    (ELFOSABI_TRU64, "Compaq tru64 unix"),
    (ELFOSABI_MODESTO, "Novell Modesto"),
    (ELFOSABI_OPENBSD, "OpenBSD"),
    (ELFOSABI_ARM_AEABI, "ARM AEABI"),
    (ELFOSABI_ARM, "ARM"),
    (ELFOSABI_STANDALONE, "Standalone embedded application")]

  predicate KnownOsAbi(o: u8)
  {
    o in {ELFOSABI_SYSV, ELFOSABI_HPUX, ELFOSABI_NETBSD, ELFOSABI_GNU, ELFOSABI_SOLARIS,
          ELFOSABI_AIX, ELFOSABI_IRIX, ELFOSABI_FREEBSD, ELFOSABI_TRU64, ELFOSABI_MODESTO,
          ELFOSABI_OPENBSD, ELFOSABI_ARM_AEABI, ELFOSABI_ARM, ELFOSABI_STANDALONE}
  }

  /** The label of `e_ident[EI_OSABI]`. */
  function OsAbiLabel(o: u8): (r: string)
    ensures IsWarning(r) <==> !KnownOsAbi(o)
  {
    if o == ELFOSABI_SYSV then "UNIX System V ABI"
    else if o == ELFOSABI_HPUX then "HP-UX"
    else if o == ELFOSABI_NETBSD then "NetBSD"
    else if o == ELFOSABI_GNU then "Object use GNU ELF extensions"
    else if o == ELFOSABI_SOLARIS then "Sun Solaris"
    else if o == ELFOSABI_AIX then "IBM AIX"
    else if o == ELFOSABI_IRIX then "SGI Irix"
    else if o == ELFOSABI_FREEBSD then "FreeBSD"
    else if o == ELFOSABI_TRU64 then "Compaq tru64 unix"
    else if o == ELFOSABI_MODESTO then "Novell Modesto"
    else if o == ELFOSABI_OPENBSD then "OpenBSD"
    else if o == ELFOSABI_ARM_AEABI then "ARM AEABI"
    else if o == ELFOSABI_ARM then "ARM"
    else if o == ELFOSABI_STANDALONE then "Standalone embedded application"
    else Warn("unknow operating system target")
  }

  /**
   * Each known OS/ABI value, and no other byte, is labelled with its name
   * from the table; so a name in the report determines the byte.
   */
  lemma OsAbiLabelNames(o: u8)
    ensures forall k :: 0 <= k < |OSABI_NAMES| ==> (OsAbiLabel(o) == OSABI_NAMES[k].1 <==> o == OSABI_NAMES[k].0)
    ensures !KnownOsAbi(o) ==> OsAbiLabel(o) == Warn("unknow operating system target")
  {
    forall k | 0 <= k < |OSABI_NAMES|
      ensures OsAbiLabel(o) == OSABI_NAMES[k].1 <==> o == OSABI_NAMES[k].0
    {
      OsAbiLabelName(o, k);
    }
  }

  /** Entry k of the table names its value and no other byte. */
  lemma OsAbiLabelName(o: u8, k: nat)
    requires k < |OSABI_NAMES|
    ensures OsAbiLabel(o) == OSABI_NAMES[k].1 <==> o == OSABI_NAMES[k].0
  {
    var (value, name) := OSABI_NAMES[k];
    var r := OsAbiLabel(o);
    if !KnownOsAbi(o) {
      assert r[0] == 'W' && name[0] != 'W';
    } else if r == name {
      assert r[0] == name[0] && |r| == |name|;
    }
  }

  /** The label of `e_ident[EI_ABIVERSION]`: only version 0 is accepted. */
  function AbiVersionLabel(v: u8): (r: string)
    ensures IsWarning(r) <==> v != 0
  {
    if v == 0 then "0" else Warn("Not compatible with the specification")
  }

  /** Only ABI version 0 is shown as a plain number. */
  lemma AbiVersionLabelNames(v: u8)
    ensures AbiVersionLabel(v) == "0" <==> v == 0
    ensures v != 0 ==> AbiVersionLabel(v) == Warn("Not compatible with the specification")
  {
  }

  predicate KnownType(t: u16)
  {
    t == ET_NONE || t == ET_REL || t == ET_EXEC || t == ET_DYN || t == ET_CORE
  }

  /** The label of `e_type`. */
  function TypeLabel(t: u16): (r: string)
    ensures IsWarning(r) <==> !KnownType(t)
  {
    if t == ET_NONE then "NONE (No file type)"
    else if t == ET_REL then "REL (Relocatable file)"
    else if t == ET_EXEC then "EXEC (Executable file)"
    else if t == ET_DYN then "DYN (Share object file)"
    else if t == ET_CORE then "CORE (Core file)"
    else Warn("unknow object file type")
  }

  /** Each known object type has its own name. */
  lemma TypeLabelNames(t: u16)
    ensures TypeLabel(t) == "NONE (No file type)" <==> t == ET_NONE
    ensures TypeLabel(t) == "REL (Relocatable file)" <==> t == ET_REL
    ensures TypeLabel(t) == "EXEC (Executable file)" <==> t == ET_EXEC
    ensures TypeLabel(t) == "DYN (Share object file)" <==> t == ET_DYN
    ensures TypeLabel(t) == "CORE (Core file)" <==> t == ET_CORE
    ensures !KnownType(t) ==> TypeLabel(t) == Warn("unknow object file type")
  {
  }

  /** The first line, spelled as the report spells it. */
  const HEADING: string := "ELF Hearder:"
  const MAGIC_PREFIX: string := "  Magic:  "

  /** The text before each classified label: class, data, version, OS/ABI, ABI version, type. */
  const LABEL_PREFIXES: seq<string> := [
    "  Class:\t\t\t\t",
    "  Data:\t\t\t\t\t",
    "  Version:\t\t\t\t",
    "  OS/ABI:\t\t\t\t",
    "  ABI Version:\t\t\t\t",
    "  Type: \t\t\t\t"]

  /** The text before the `e_version` number. */
  const NUMBER_PREFIX: string := "  Version:\t\t\t\t"

  /** The six classified labels of h, in report order. */
  function Labels(h: Header): (labels: seq<string>)
    ensures |labels| == |LABEL_PREFIXES|
    ensures IsWarning(labels[0]) <==> !KnownClass(h.e_ident[EI_CLASS])
    ensures IsWarning(labels[1]) <==> !KnownData(h.e_ident[EI_DATA])
    ensures IsWarning(labels[2]) <==> !KnownVersion(h.e_ident[EI_VERSION])
    ensures IsWarning(labels[3]) <==> !KnownOsAbi(h.e_ident[EI_OSABI])
    ensures IsWarning(labels[4]) <==> h.e_ident[EI_ABIVERSION] != 0
    ensures IsWarning(labels[5]) <==> !KnownType(h.e_type)
  {
    [ClassLabel(h.e_ident[EI_CLASS]),
     DataLabel(h.e_ident[EI_DATA]),
     VersionLabel(h.e_ident[EI_VERSION]),
     OsAbiLabel(h.e_ident[EI_OSABI]),
     AbiVersionLabel(h.e_ident[EI_ABIVERSION]),
     TypeLabel(h.e_type)]
  }

  /** What a label line shows after its prefix: the label, and a comma after the class. */
  function Shown(k: nat, text: string): string
  {
    if k == 0 then text + "," else text
  }

  /**
   * The nine report lines around a Magic field, the six labels and a version
   * number: each line is its prefix followed by what it shows.
   */
  function Layout(magic: string, labels: seq<string>, number: string): (lines: seq<string>)
    requires |labels| == |LABEL_PREFIXES|
    ensures |lines| == 9
    ensures lines[0] == HEADING
    ensures MAGIC_PREFIX <= lines[1] && lines[1][|MAGIC_PREFIX|..] == magic
    ensures forall k :: 0 <= k < |LABEL_PREFIXES| ==>
      LABEL_PREFIXES[k] <= lines[k + 2] && lines[k + 2][|LABEL_PREFIXES[k]|..] == Shown(k, labels[k])
    ensures NUMBER_PREFIX <= lines[8] && lines[8][|NUMBER_PREFIX|..] == number
  {
    var lines := [HEADING,
      MAGIC_PREFIX + magic,
      LABEL_PREFIXES[0] + labels[0] + ",",
      LABEL_PREFIXES[1] + labels[1],
      LABEL_PREFIXES[2] + labels[2],
      LABEL_PREFIXES[3] + labels[3],
      LABEL_PREFIXES[4] + labels[4],
      LABEL_PREFIXES[5] + labels[5],
      NUMBER_PREFIX + number];
    forall k | 0 <= k < |LABEL_PREFIXES|
      ensures LABEL_PREFIXES[k] <= lines[k + 2] && lines[k + 2][|LABEL_PREFIXES[k]|..] == Shown(k, labels[k])
    {
      PrefixThen(LABEL_PREFIXES[k], Shown(k, labels[k]));
      assert LABEL_PREFIXES[0] + labels[0] + "," == LABEL_PREFIXES[0] + (labels[0] + ",");
    }
    PrefixThen(MAGIC_PREFIX, magic);
    PrefixThen(NUMBER_PREFIX, number);
    lines
  }

  /** A prefix followed by a text: the text is what follows the prefix. */
  lemma PrefixThen(prefix: string, text: string)
    ensures prefix <= prefix + text && (prefix + text)[|prefix|..] == text
  {
  }

  /** The report's lines, in the order the formatter receives them. */
  function Report(h: Header): (lines: seq<string>)
    ensures |lines| == 9
  {
    Layout(MagicText(h.e_ident), Labels(h), HexLiteral(h.e_version))
  }

  /**
   * The Magic line: after its prefix come 16 cells of three characters, cell
   * i being byte i of `e_ident` as two upper-case hexadecimal digits and a space.
   */
  lemma MagicLine(h: Header, i: nat)
    requires i < EI_NIDENT
    ensures |Report(h)[1]| == |MAGIC_PREFIX| + 3 * EI_NIDENT
    ensures Report(h)[1][|MAGIC_PREFIX| + 3 * i .. |MAGIC_PREFIX| + 3 * i + 3] == HexPair(h.e_ident[i]) + " "
  {
    var line, n := Report(h)[1], |MAGIC_PREFIX|;
    assert line[n..] == MagicText(h.e_ident);
    MagicTextCell(h.e_ident, i);
    SliceAfter(line, n, 3 * i, 3 * i + 3);
  }

  /** A slice of what follows the first n characters. */
  lemma SliceAfter(s: string, n: nat, i: nat, j: nat)
    requires n <= |s| && i <= j <= |s| - n
    ensures s[n..][i..j] == s[n + i .. n + j]
  {
  }

  /** Every classified field of h holds a value the report recognises. */
  predicate Recognised(h: Header)
  {
    && KnownClass(h.e_ident[EI_CLASS])
    && KnownData(h.e_ident[EI_DATA])
    && KnownVersion(h.e_ident[EI_VERSION])
    && KnownOsAbi(h.e_ident[EI_OSABI])
    && h.e_ident[EI_ABIVERSION] == 0
    && KnownType(h.e_type)
  }

  /** A label followed by a comma is a warning exactly when the label is. */
  lemma WarningWithComma(text: string)
    ensures IsWarning(text + ",") <==> IsWarning(text)
  {
    if |text| >= |WARNING| {
      assert (text + ",")[..|WARNING|] == text[..|WARNING|];
    } else if |text| + 1 == |WARNING| {
      assert (text + ",")[|text|] != WARNING[|text|];
    }
  }

  /** The six labels show no warning exactly when every classified field is recognised. */
  lemma RecognisedLabels(h: Header)
    ensures Recognised(h) <==> forall k :: 0 <= k < |LABEL_PREFIXES| ==> !IsWarning(Labels(h)[k])
  {
    var labels := Labels(h);
    assert !IsWarning(labels[0]) <==> KnownClass(h.e_ident[EI_CLASS]);
    assert !IsWarning(labels[1]) <==> KnownData(h.e_ident[EI_DATA]);
    assert !IsWarning(labels[2]) <==> KnownVersion(h.e_ident[EI_VERSION]);
    assert !IsWarning(labels[3]) <==> KnownOsAbi(h.e_ident[EI_OSABI]);
    assert !IsWarning(labels[4]) <==> h.e_ident[EI_ABIVERSION] == 0;
    assert !IsWarning(labels[5]) <==> KnownType(h.e_type);
  }

  /**
   * The report shows a warning after the prefix of one of lines 2 to 7
   * exactly when some classified field holds an unrecognised value.
   */
  lemma ReportWarnings(h: Header)
    ensures Recognised(h) <==>
      forall k :: 0 <= k < |LABEL_PREFIXES| ==> !IsWarning(Report(h)[k + 2][|LABEL_PREFIXES[k]|..])
  {
    var labels := Labels(h);
    forall k | 0 <= k < |LABEL_PREFIXES|
      ensures IsWarning(Report(h)[k + 2][|LABEL_PREFIXES[k]|..]) <==> IsWarning(labels[k])
    {
      WarningWithComma(labels[k]);
    }
    RecognisedLabels(h);
  }

  /**
   * The report shows the identification bytes and the version number
   * faithfully: two headers with the same report agree on both.
   */
  lemma ReportDeterminesIdentAndVersion(h1: Header, h2: Header)
    requires Report(h1) == Report(h2)
    ensures h1.e_ident == h2.e_ident
    ensures h1.e_version == h2.e_version
  {
    assert MagicText(h1.e_ident) == MagicText(h2.e_ident);
    ParseMagicText(h1.e_ident);
    ParseMagicText(h2.e_ident);
    HexLiteralInjective(h1.e_version, h2.e_version);
  }

  /** The formatter a report is written to: its lines so far, one per `writeln!`. */
  class Formatter {
    var lines: seq<string>

    constructor ()
      ensures lines == []
    {
      lines := [];
    }

    /** `writeln!(f, ...)`: appends one line. */
    method WriteLine(line: string)
      modifies this
      ensures lines == old(lines) + [line]
    {
      lines := lines + [line];
    }
  }

  /** The Magic field built byte by byte, as `iter().map(...).collect::<String>()` builds it. */
  method MagicField(ident: seq<u8>) returns (s: string)
    ensures s == MagicText(ident)
  {
    s := "";
    var i := 0;
    while i < |ident|
      invariant 0 <= i <= |ident|
      invariant s == MagicText(ident[..i])
    {
      assert ident[..i + 1][..i] == ident[..i];
      s := s + HexPair(ident[i]) + " ";
      i := i + 1;
    }
    assert ident[..|ident|] == ident;
  }

  /** Appending nine lines one at a time appends them all. */
  lemma AppendLines(before: seq<string>, lines: seq<string>)
    requires |lines| == 9
    ensures before + [lines[0]] + [lines[1]] + [lines[2]] + [lines[3]] + [lines[4]]
      + [lines[5]] + [lines[6]] + [lines[7]] + [lines[8]] == before + lines
  {
  }

  /** The report's lines spelled out, as `fmt` writes them. */
  lemma ReportLines(h: Header)
    ensures Report(h) == [HEADING, MAGIC_PREFIX + MagicText(h.e_ident),
      LABEL_PREFIXES[0] + ClassLabel(h.e_ident[EI_CLASS]) + ",",
      LABEL_PREFIXES[1] + DataLabel(h.e_ident[EI_DATA]),
      LABEL_PREFIXES[2] + VersionLabel(h.e_ident[EI_VERSION]),
      LABEL_PREFIXES[3] + OsAbiLabel(h.e_ident[EI_OSABI]),
      LABEL_PREFIXES[4] + AbiVersionLabel(h.e_ident[EI_ABIVERSION]),
      LABEL_PREFIXES[5] + TypeLabel(h.e_type),
      NUMBER_PREFIX + HexLiteral(h.e_version)]
  {
  }

  /** `fmt`: writes the report to f, one line after another. */
  method Fmt(h: Header, f: Formatter)
    modifies f
    ensures f.lines == old(f.lines) + Report(h)
  {
    f.WriteLine(HEADING);

    var magic := MagicField(h.e_ident);
    f.WriteLine(MAGIC_PREFIX + magic);

    var classLabel := ClassLabel(h.e_ident[EI_CLASS]);
    f.WriteLine(LABEL_PREFIXES[0] + classLabel + ",");

    var dataEncoding := DataLabel(h.e_ident[EI_DATA]);
    f.WriteLine(LABEL_PREFIXES[1] + dataEncoding);

    var version := VersionLabel(h.e_ident[EI_VERSION]);
    f.WriteLine(LABEL_PREFIXES[2] + version);

    var osAbi := OsAbiLabel(h.e_ident[EI_OSABI]);
    f.WriteLine(LABEL_PREFIXES[3] + osAbi);

    var abiVersion := AbiVersionLabel(h.e_ident[EI_ABIVERSION]);
    f.WriteLine(LABEL_PREFIXES[4] + abiVersion);

    var objType := TypeLabel(h.e_type);
    f.WriteLine(LABEL_PREFIXES[5] + objType);

    f.WriteLine(NUMBER_PREFIX + HexLiteral(h.e_version));

    ReportLines(h);
    AppendLines(old(f.lines), Report(h));
  }

  /** The header of a little-endian x86-64 executable for System V, entry point 0x401000. */
  const EXAMPLE: Header := Header(
    [0x7F, 0x45, 0x4C, 0x46, ELFCLASS64, ELFDATA2LSB, EV_CURRENT, ELFOSABI_SYSV, 0, 0, 0, 0, 0, 0, 0, 0],
    ET_EXEC, 0x3E, 1, 0x40_1000, 64, 0, 0, 64, 56, 1, 64, 0, 0)

  /** The example decodes from its own bytes followed by two more. */
  lemma ExampleDecodes()
    ensures FromBytes(Encode(EXAMPLE) + [0xCC, 0xCC], true) == Some(EXAMPLE)
  {
    FromBytesEncode(EXAMPLE, [0xCC, 0xCC], true);
  }

  /** The example is reported without a warning. */
  lemma ExampleReport()
    ensures Recognised(EXAMPLE)
    ensures Labels(EXAMPLE) == ["ELF64", "2's complement, little endian", "1 (current)", "UNIX System V ABI", "0", "EXEC (Executable file)"]
    ensures Report(EXAMPLE)[8][|NUMBER_PREFIX|..] == "0x1"
  {
    var ident := EXAMPLE.e_ident;
    assert ident[EI_CLASS] == ELFCLASS64 && ident[EI_DATA] == ELFDATA2LSB && ident[EI_VERSION] == EV_CURRENT;
    assert ident[EI_OSABI] == ELFOSABI_SYSV && ident[EI_ABIVERSION] == 0;
    ClassLabelNames(ELFCLASS64);
    DataLabelNames(ELFDATA2LSB);
    VersionLabelNames(EV_CURRENT);
    OsAbiLabelName(ELFOSABI_SYSV, 0);
    AbiVersionLabelNames(0);
    TypeLabelNames(ET_EXEC);
    assert HexDigits(1) == "1";
  }
}
