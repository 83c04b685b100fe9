# ELF64 file header: decoder and report

A Dafny model of the ELF64 file-header layer of readbin (`src/headers/elf/x64.rs`):

- the `x64` record and its `#[repr(C)]` layout;
- `x64::SIZE`;
- `from_bytes`, which rejects a buffer shorter than `SIZE` and otherwise overlays the record on the buffer's first `SIZE` bytes;
- the `Display` report: a heading, the Magic line, six classified labels and the `e_version` number, written one `writeln!` at a time.

Modules:

- `Bytes` (`bytes.dfy`): `u8`, `u16`, `u32` and `u64`, and the little-endian reading of a byte string (`FromLE`) with its inverse (`ToLE`).
- `Text` (`text.dfy`): the renderings the report uses: `{:02X?}` of a byte (`HexPair`), the Magic field (`MagicText`), `{:#x}` (`HexLiteral`) and `{}` of a number (`Decimal`). Each rendering comes with the reading that recovers the number from the text.
- `ElfConstants` (`constants.dfy`): the identification indices and the class, data, version, OS/ABI and type values. The modules that define them in the repository (`class`, `data`, `identification`, `osabit`, `types`, `version`) are not part of this model. The values are the standard ones from elf(5) and the System V gABI (`EI_CLASS` = 4 up to `EI_ABIVERSION` = 8).
- `ElfHeader` (`header.dfy`), which holds:
  - the record (`Header`) and its fields (`Field`, `Width`, `Align`, `Offset`);
  - the `#[repr(C)]` placement rule (`ReprCOffsets`, `ReprCEnd`, `MaxAlign`, `ReprCSize`);
  - the overlay (`Overlay`) and its inverse (`Encode`);
  - `CowStruct` and `FromBytes`.
- `ElfReport` (`report.dfy`), which holds:
  - the label functions;
  - the report as a value (`Report`, built by `Layout`);
  - the formatter as a class whose `lines` field each `WriteLine` extends;
  - `Fmt`, which writes the report line by line, and `MagicField`, the loop that builds the Magic field.

Multi-byte fields are read little-endian, and the data-encoding byte is not consulted. The source reinterprets memory in the host's byte order, so the model matches it on a little-endian host.

The report is nine lines: the heading "ELF Hearder:" (spelled as in the code), then the eight lines that carry values. In `Report` each line is written without the newline that `writeln!` adds.

The helper `cow_struct` (`crate::utils`) is not part of this model. Whether it yields a view is the parameter `viewable` of `CowStruct` and `FromBytes`. A view it yields is the byte-for-byte overlay.

## Model

| member | source | states |
|---|---|---|
| Bytes.FromLE | src/headers/elf/x64.rs:34-58 | the value read from k bytes is below 256^k, so it fits the field's integer type |
| Bytes.ToLE | src/headers/elf/x64.rs:34-58 | writing a value that fits in `width` bytes gives `width` bytes whose reading is that value |
| Bytes.ToLEFromLE | src/headers/elf/x64.rs:34-58 | writing back the value of any byte string, at its width, gives the same bytes |
| Bytes.FromLEInjective | src/headers/elf/x64.rs:34-58 | two byte strings of one width with equal values are equal |
| ElfHeader.Contiguous | src/headers/elf/x64.rs:28-59 | the fields tile bytes 0 to 64 in declaration order with no gap, and each offset is a multiple of the field's alignment |
| ElfHeader.AlignUpBounds | src/headers/elf/x64.rs:29-59 | aligning an offset up moves it by less than the alignment and lands on a multiple of it |
| ElfHeader.ReprCOffsets | src/headers/elf/x64.rs:29-59 | `#[repr(C)]` places the fields in declaration order: each at a multiple of its alignment, none overlapping the one before, each at the first aligned offset past the previous field's end |
| ElfHeader.ReprCEnd | src/headers/elf/x64.rs:29-59 | the placed fields end no earlier than they start |
| ElfHeader.ReprCEndAfterLast | src/headers/elf/x64.rs:29-59 | the placed fields end exactly where the last placed field ends |
| ElfHeader.MaxAlign | src/headers/elf/x64.rs:29-59 | the record's alignment is at least 1, at least every field's alignment, and equal to one of them |
| ElfHeader.ReprCSize | src/headers/elf/x64.rs:29-62 | `size_of` of a `#[repr(C)]` record is the end of its last field rounded up to the smallest multiple of the record's alignment |
| ElfHeader.ReprCOfTiled | src/headers/elf/x64.rs:29-59 | `#[repr(C)]` inserts no padding into a record whose fields are aligned and contiguous: each field lands at its start, and the record ends where the last field ends |
| ElfHeader.TableTiled | src/headers/elf/x64.rs:28-59 | the ELF-64 offsets of `struct x64` satisfy that tiling condition |
| ElfHeader.MaxAlignDividesSize | src/headers/elf/x64.rs:29-59 | the record's alignment is 1, 2, 4 or 8 and divides 64, so no trailing padding is added |
| ElfHeader.SizeOfHeader | src/headers/elf/x64.rs:61-63 | `SIZE`, `size_of::<x64>()` under `#[repr(C)]`, is 64 |
| ElfHeader.ReprCOffsetsOfHeader | src/headers/elf/x64.rs:29-59 | `#[repr(C)]` places every field at its offset in the ELF-64 header table |
| ElfHeader.FieldAt | src/headers/elf/x64.rs:28-59 | every byte offset below 64 lies inside exactly the range of the field returned |
| ElfHeader.FieldAtInRange | src/headers/elf/x64.rs:28-59 | each offset in a field's range maps back to that field |
| ElfHeader.ReadU16 | src/headers/elf/x64.rs:34-58 | a 2-byte field's value, written back little-endian, gives the field's bytes |
| ElfHeader.ReadU32 | src/headers/elf/x64.rs:38-46 | a 4-byte field's value, written back little-endian, gives the field's bytes |
| ElfHeader.ReadU64 | src/headers/elf/x64.rs:40-44 | an 8-byte field's value, written back little-endian, gives the field's bytes |
| ElfHeader.Overlay | src/headers/elf/x64.rs:70 | the overlaid record's `e_ident` is the first 16 bytes, unchanged |
| ElfHeader.Encode | src/headers/elf/x64.rs:28-62 | the bytes of a record are exactly `SIZE` long |
| ElfHeader.EncodeSlice | src/headers/elf/x64.rs:28-59 | each field's byte range in the encoding holds that field's value, little-endian |
| ElfHeader.OverlayEncode | src/headers/elf/x64.rs:70 | overlaying the bytes of a record gives the record back |
| ElfHeader.EncodeOverlay | src/headers/elf/x64.rs:70 | the record overlaid on any 64 bytes has exactly those bytes; the view is byte-for-byte, with no transformation |
| ElfHeader.OverlayInjective | src/headers/elf/x64.rs:70 | distinct 64-byte strings give distinct records |
| ElfHeader.CowStruct | src/headers/elf/x64.rs:70 | a view is returned exactly when the helper yields one, and a returned view's bytes are the input bytes |
| ElfHeader.FromBytes | src/headers/elf/x64.rs:65-71 | a buffer shorter than `SIZE` gives None; otherwise the result is Some exactly when the helper yields a view, and a returned record's bytes are the buffer's first `SIZE` bytes |
| ElfHeader.FromBytesIgnoresTrailing | src/headers/elf/x64.rs:69-70 | bytes after the first `SIZE` never change the result |
| ElfHeader.FromBytesEncode | src/headers/elf/x64.rs:65-71 | a record's bytes followed by anything decode to that record whenever a view is yielded |
| Text.HexPair | src/headers/elf/x64.rs:83 | `{:02X?}` of a byte is two characters, each a digit or an upper-case letter A-F |
| Text.PairValueOfHexPair | src/headers/elf/x64.rs:83 | reading the two digits back gives the byte |
| Text.MagicText | src/headers/elf/x64.rs:81-84 | the Magic field has three characters per byte |
| Text.MagicTextCell | src/headers/elf/x64.rs:81-84 | cell i of the Magic field is byte i as `{:02X?}` followed by a space |
| Text.ParseMagicText | src/headers/elf/x64.rs:81-84 | reading the Magic field back, three characters at a time, gives the identification bytes |
| Text.HexDigits | src/headers/elf/x64.rs:155 | every character is a lower-case hexadecimal digit, there is no leading zero, and there is exactly one digit iff n < 16 |
| Text.ParseHexDigits | src/headers/elf/x64.rs:155 | reading the digits back gives n |
| Text.HexLiteral | src/headers/elf/x64.rs:155 | `{:#x}` is "0x" followed by lower-case hexadecimal digits with no leading zero, which read back as the number |
| Text.HexLiteralInjective | src/headers/elf/x64.rs:155 | distinct numbers render as distinct `{:#x}` texts |
| Text.Decimal | src/headers/elf/x64.rs:107 | `{}` of a number is decimal digits with no leading zero, one digit exactly below 10 and at most three below 1000 |
| Text.ParseDecimalDigits | src/headers/elf/x64.rs:107 | reading the decimal digits back gives the number |
| ElfReport.Warn | src/headers/elf/x64.rs:93 | a fallback label is "Warning: " followed by exactly its message |
| ElfReport.ClassLabel | src/headers/elf/x64.rs:89-94 | the class label is a warning exactly when the byte is not NONE, ELF32 or ELF64 |
| ElfReport.ClassLabelNames | src/headers/elf/x64.rs:89-94 | "Invalid class", "ELF32" and "ELF64" are each shown for exactly one byte value; any other byte shows "Warning: unknown class" |
| ElfReport.DataLabel | src/headers/elf/x64.rs:98-103 | the data-encoding label is a warning exactly when the byte is not 0, 1 or 2 |
| ElfReport.DataLabelNames | src/headers/elf/x64.rs:98-103 | "Unknown data encoding" is shown for 0 only, the big-endian text for 2 only, the little-endian text for 1 only; any other byte shows "Warning: unknow data encoding" |
| ElfReport.VersionLabel | src/headers/elf/x64.rs:107-112 | the version label is a warning exactly when the byte is neither NONE nor CURRENT |
| ElfReport.VersionLabelNames | src/headers/elf/x64.rs:107-112 | "Invalid version" is shown for 0 only, and "1 (current)" for 1 only; any other byte shows "Warning: unknow version" |
| ElfReport.OsAbiLabel | src/headers/elf/x64.rs:116-132 | the OS/ABI label is a warning exactly when the byte is none of the fourteen named values |
| ElfReport.OsAbiLabelNames | src/headers/elf/x64.rs:116-132 | each of the fourteen names is shown for its value and for no other byte; any other byte shows "Warning: unknow operating system target" |
| ElfReport.OsAbiLabelName | src/headers/elf/x64.rs:116-132 | entry k of the name table is shown exactly for its own value |
| ElfReport.AbiVersionLabel | src/headers/elf/x64.rs:135-138 | the ABI-version label is a warning exactly when the byte is not 0 |
| ElfReport.AbiVersionLabelNames | src/headers/elf/x64.rs:135-138 | "0" is shown for ABI version 0 only; any other byte shows "Warning: Not compatible with the specification" |
| ElfReport.TypeLabel | src/headers/elf/x64.rs:142-149 | the type label is a warning exactly when `e_type` is not one of NONE, REL, EXEC, DYN, CORE |
| ElfReport.TypeLabelNames | src/headers/elf/x64.rs:142-149 | each of the five type names is shown for exactly its value; any other value shows "Warning: unknow object file type" |
| ElfReport.Labels | src/headers/elf/x64.rs:89-149 | the six labels in report order (class, data, version, OS/ABI, ABI version, type), each a warning exactly when its field is unrecognised |
| ElfReport.Layout | src/headers/elf/x64.rs:75-155 | the report has nine lines in fixed order: first the heading; then the Magic line, six label lines and the number line, each its own prefix followed by the value it shows; only the class line has a trailing comma |
| ElfReport.Report | src/headers/elf/x64.rs:73-157 | the report of a header is nine lines |
| ElfReport.MagicLine | src/headers/elf/x64.rs:78-86 | the Magic line is its prefix followed by 16 cells, and cell i is byte i as two upper-case hex digits and a space |
| ElfReport.WarningWithComma | src/headers/elf/x64.rs:95 | the comma after the class label never creates or hides a warning |
| ElfReport.RecognisedLabels | src/headers/elf/x64.rs:89-149 | no label is a warning exactly when every classified field holds a recognised value |
| ElfReport.ReportWarnings | src/headers/elf/x64.rs:88-150 | a warning appears on a label line exactly when some classified field is unrecognised |
| ElfReport.ReportDeterminesIdentAndVersion | src/headers/elf/x64.rs:78-155 | two headers with the same report have the same identification bytes and the same `e_version` |
| ElfReport.Formatter.constructor | src/headers/elf/x64.rs:74 | a new formatter holds no lines |
| ElfReport.Formatter.WriteLine | src/headers/elf/x64.rs:75 | `writeln!` appends one line and changes nothing else |
| ElfReport.MagicField | src/headers/elf/x64.rs:81-84 | the byte-by-byte loop builds exactly the Magic field |
| ElfReport.Fmt | src/headers/elf/x64.rs:74-156 | `fmt` appends exactly the nine report lines, in order, to what the formatter already held |
| ElfReport.ExampleDecodes | src/headers/elf/x64.rs:65-71 | a concrete x86-64 executable header, followed by two extra bytes, decodes to itself |
| ElfReport.ExampleReport | src/headers/elf/x64.rs:88-155 | that header is recognised, its six labels are the expected names, and its last line shows "0x1" |

## Left out

- `src/bin/main.rs` (reading the file, printing the report) is not part of this model: it is I/O.
- `cow_struct` (`crate::utils`) is not part of this model. Its alignment check and its borrow-or-own choice are represented only by the `viewable` parameter. A view that is returned is assumed to be the byte-for-byte overlay.
- Byte order: fields are read little-endian. The source uses the host's order, which the model does not represent.
- `fmt::Result` and the `unwrap()` calls: writing to the formatter is modelled as always succeeding.
- `e_machine` is decoded into the record but not shown in the report, as in the source.
- The trailing newline of each `writeln!` is not part of the line strings.
- The index and value constants come from elf(5) and the gABI, since the modules that define them are not part of this model.
