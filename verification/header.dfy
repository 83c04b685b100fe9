/**
 * The ELF64 file header (`struct x64` in src/headers/elf/x64.rs): the record,
 * its `#[repr(C)]` layout, `SIZE`, and `from_bytes`, which overlays the record
 * on the first `SIZE` bytes of a buffer.
 *
 * The overlay reinterprets memory in the host's byte order; this model reads
 * every multi-byte field little-endian and never consults the data-encoding
 * byte `e_ident[EI_DATA]`.
 */
module ElfHeader {
  import opened Bytes
  import opened ElfConstants

  datatype Option<T> = None | Some(value: T)

  /** The 16 identification bytes. */
  type Ident = s: seq<u8> | |s| == EI_NIDENT witness [0, 0, 0, 0, 0, 0, 0, 0, 0, 0, 0, 0, 0, 0, 0, 0]

  /** `struct x64`, with the field names of the ELF-64 standard. */
  datatype Header = Header(
    e_ident: Ident,
    e_type: u16,
    e_machine: u16,
    e_version: u32,
    e_entry: u64,
    e_phoff: u64,
    e_shoff: u64,
    e_flags: u32,
    e_ehsize: u16,
    e_phentsize: u16,
    e_phnum: u16,
    e_shentsize: u16,
    e_shnum: u16,
    e_shstrndx: u16)

  /** The fields of the record, one tag each. */
  datatype Field =
    | EIdent | EType | EMachine | EVersion | EEntry | EPhoff | EShoff
    | EFlags | EEhsize | EPhentsize | EPhnum | EShentsize | EShnum | EShstrndx

  /** The fields in declaration order. */
  const FIELDS: seq<Field> :=
    [EIdent, EType, EMachine, EVersion, EEntry, EPhoff, EShoff,
     EFlags, EEhsize, EPhentsize, EPhnum, EShentsize, EShnum, EShstrndx]

  /** `size_of` the field's Rust type: `[u8; 16]`, `u16`, `u32` or `u64`. */
  function Width(f: Field): nat
  {
    match f
    case EIdent => EI_NIDENT
    case EType | EMachine | EEhsize | EPhentsize | EPhnum | EShentsize | EShnum | EShstrndx => 2
    case EVersion | EFlags => 4
    case EEntry | EPhoff | EShoff => 8
  }

  /** `align_of` the field's Rust type: a byte array is byte-aligned, an integer is aligned to its size. */
  function Align(f: Field): nat
  {
    if f == EIdent then 1 else Width(f)
  }

  /** The byte offset of the field in the ELF-64 "File Header" table. */
  function Offset(f: Field): nat
  {
    match f
    case EIdent => 0
    case EType => 16
    case EMachine => 18
    case EVersion => 20
    case EEntry => 24
    case EPhoff => 32
    case EShoff => 40
    case EFlags => 48
    case EEhsize => 52
    case EPhentsize => 54
    case EPhnum => 56
    case EShentsize => 58
    case EShnum => 60
    case EShstrndx => 62
  }

  /** `x64::SIZE`, that is `size_of::<x64>()`. */
  const SIZE: nat := 64

  /** The smallest multiple of a at or above n. */
  function AlignUp(n: nat, a: nat): nat
    requires a >= 1
  {
    if n % a == 0 then n else n + (a - n % a)
  }

  /** Aligning up moves by less than the alignment and lands on a multiple of it. */
  lemma AlignUpBounds(n: nat, a: nat)
    requires a >= 1
    ensures n <= AlignUp(n, a) < n + a
    ensures AlignUp(n, a) % a == 0
  {
    var q, m := n / a, n % a;
    if m != 0 {
      assert n == q * a + m;
      assert (q + 1) * a == q * a + a;
      ModUnique(AlignUp(n, a), a, q + 1, 0);
    }
  }

  /** k times a positive number is at least that number. */
  lemma {:induction false} MulAtLeast(k: nat, a: nat)
    requires k >= 1
    ensures k * a >= a
  {
    if k > 1 {
      MulAtLeast(k - 1, a);
      assert k * a == (k - 1) * a + a;
    }
  }

  /** The remainder of q * a + r by a is r, whenever 0 <= r < a. */
  lemma ModUnique(x: int, a: int, q: int, r: int)
    requires a >= 1 && 0 <= r < a && x == q * a + r
    ensures x % a == r
  {
    var q', r' := x / a, x % a;
    assert x == q' * a + r';
    assert (q - q') * a == r' - r by {
      assert q * a - q' * a == (q - q') * a;
    }
    if q > q' {
      MulAtLeast(q - q', a);
    } else if q < q' {
      MulAtLeast(q' - q, a);
    }
  }

  /**
   * The offsets `#[repr(C)]` gives the fields when it places them in order,
   * starting at `start`: each field at the first offset past the previous
   * field that its alignment allows.
   */
  function ReprCOffsets(fields: seq<Field>, start: nat): (offsets: seq<nat>)
    ensures |offsets| == |fields|
    ensures forall i :: 0 <= i < |fields| ==> offsets[i] % Align(fields[i]) == 0
    ensures fields != [] ==> start <= offsets[0] < start + Align(fields[0])
    ensures forall i :: 0 <= i < |fields| - 1 ==>
      offsets[i] + Width(fields[i]) <= offsets[i + 1] < offsets[i] + Width(fields[i]) + Align(fields[i + 1])
  {
    if fields == [] then []
    else
      var here := AlignUp(start, Align(fields[0]));
      AlignUpBounds(start, Align(fields[0]));
      [here] + ReprCOffsets(fields[1..], here + Width(fields[0]))
  }

  /** Where the last field ends when `#[repr(C)]` places the fields from `start`. */
  function ReprCEnd(fields: seq<Field>, start: nat): (end: nat)
    ensures end >= start
  {
    if fields == [] then start
    else ReprCEnd(fields[1..], AlignUp(start, Align(fields[0])) + Width(fields[0]))
  }

  /** The record ends where its last field, as `#[repr(C)]` places it, ends. */
  lemma {:induction false} ReprCEndAfterLast(fields: seq<Field>, start: nat)
    requires fields != []
    ensures ReprCEnd(fields, start) == ReprCOffsets(fields, start)[|fields| - 1] + Width(fields[|fields| - 1])
  {
    var here := AlignUp(start, Align(fields[0]));
    if |fields| > 1 {
      ReprCEndAfterLast(fields[1..], here + Width(fields[0]));
    }
  }

  /** The largest alignment of the fields: the record's alignment. */
  function MaxAlign(fields: seq<Field>): (a: nat)
    ensures a >= 1
    ensures forall i :: 0 <= i < |fields| ==> Align(fields[i]) <= a
    ensures fields != [] ==> exists i :: 0 <= i < |fields| && a == Align(fields[i])
  {
    if fields == [] then 1
    else var rest := MaxAlign(fields[1..]); if Align(fields[0]) > rest then Align(fields[0]) else rest
  }

  /** `size_of` a `#[repr(C)]` record: its end, padded to its alignment. */
  function ReprCSize(fields: seq<Field>): (size: nat)
    ensures ReprCEnd(fields, 0) <= size < ReprCEnd(fields, 0) + MaxAlign(fields)
    ensures size % MaxAlign(fields) == 0
  {
    AlignUpBounds(ReprCEnd(fields, 0), MaxAlign(fields));
    AlignUp(ReprCEnd(fields, 0), MaxAlign(fields))
  }

  /**
   * The field ranges tile bytes 0 to SIZE in declaration order with no gap,
   * and every field sits at a multiple of its alignment.
   */
  lemma Contiguous()
    ensures Offset(FIELDS[0]) == 0
    ensures forall i :: 0 <= i < |FIELDS| - 1 ==> Offset(FIELDS[i + 1]) == Offset(FIELDS[i]) + Width(FIELDS[i])
    ensures Offset(FIELDS[|FIELDS| - 1]) + Width(FIELDS[|FIELDS| - 1]) == SIZE
    ensures forall i :: 0 <= i < |FIELDS| ==> Offset(FIELDS[i]) % Align(FIELDS[i]) == 0
  {
  }

  /**
   * The fields sit at the offsets starts[0], starts[1], ..., each at a
   * multiple of its alignment, and each ends where the next starts; the last
   * entry of starts is where the last field ends.
   */
  ghost predicate Tiled(fields: seq<Field>, starts: seq<nat>)
  {
    && |starts| == |fields| + 1
    && forall i :: 0 <= i < |fields| ==>
         Align(fields[i]) >= 1 && starts[i] % Align(fields[i]) == 0 && starts[i] + Width(fields[i]) == starts[i + 1]
  }

  /**
   * `#[repr(C)]` inserts no padding into a tiled record: it places each field
   * exactly at its start and ends where the last field ends.
   */
  lemma {:induction false} ReprCOfTiled(fields: seq<Field>, starts: seq<nat>)
    requires Tiled(fields, starts)
    ensures ReprCEnd(fields, starts[0]) == starts[|fields|]
    ensures ReprCOffsets(fields, starts[0]) == starts[..|fields|]
  {
    if fields != [] {
      TiledRest(fields, starts);
      ReprCOfTiled(fields[1..], starts[1..]);
      AlignUpAligned(starts[0], Align(fields[0]));
      assert [starts[0]] + starts[1..][..|fields| - 1] == starts[..|fields|];
    }
  }

  /** Dropping the first field of a tiled record leaves one tiled from the next start. */
  lemma TiledRest(fields: seq<Field>, starts: seq<nat>)
    requires Tiled(fields, starts) && fields != []
    ensures Tiled(fields[1..], starts[1..])
  {
  }

  /** An offset that is already a multiple of the alignment is not moved. */
  lemma AlignUpAligned(n: nat, a: nat)
    requires a >= 1 && n % a == 0
    ensures AlignUp(n, a) == n
  {
  }

  /** Where field k starts in the ELF-64 table; SIZE once past the last field. */
  function TableStart(k: nat): nat
    requires k <= |FIELDS|
  {
    if k < |FIELDS| then Offset(FIELDS[k]) else SIZE
  }

  /** The ELF-64 table tiles the record: its offsets are aligned and contiguous. */
  lemma TableTiled()
    ensures Tiled(FIELDS, seq(|FIELDS| + 1, k requires 0 <= k <= |FIELDS| => TableStart(k)))
  {
    Contiguous();
  }

  /** Every field's alignment, and so the record's, divides SIZE. */
  lemma {:induction false} MaxAlignDividesSize(fields: seq<Field>)
    ensures MaxAlign(fields) in {1, 2, 4, 8}
    ensures SIZE % MaxAlign(fields) == 0
  {
    if fields != [] {
      MaxAlignDividesSize(fields[1..]);
    }
    var a := MaxAlign(fields);
    if a == 1 { } else if a == 2 { } else if a == 4 { } else { }
  }

  /** The record ends at SIZE and needs no trailing padding: `size_of::<x64>()` is 64. */
  lemma SizeOfHeader()
    ensures ReprCSize(FIELDS) == SIZE
  {
    var starts := seq(|FIELDS| + 1, k requires 0 <= k <= |FIELDS| => TableStart(k));
    TableTiled();
    ReprCOfTiled(FIELDS, starts);
    assert starts[0] == 0 && starts[|FIELDS|] == SIZE;
    MaxAlignDividesSize(FIELDS);
    AlignUpAligned(SIZE, MaxAlign(FIELDS));
  }

  /** `#[repr(C)]` places every field of `struct x64` at its offset in the ELF-64 table. */
  lemma ReprCOffsetsOfHeader()
    ensures forall i :: 0 <= i < |FIELDS| ==> ReprCOffsets(FIELDS, 0)[i] == Offset(FIELDS[i])
  {
    var starts := seq(|FIELDS| + 1, k requires 0 <= k <= |FIELDS| => TableStart(k));
    TableTiled();
    ReprCOfTiled(FIELDS, starts);
    assert starts[0] == 0;
    forall i | 0 <= i < |FIELDS|
      ensures ReprCOffsets(FIELDS, 0)[i] == Offset(FIELDS[i])
    {
      assert starts[..|FIELDS|][i] == TableStart(i);
    }
  }

  /** The field whose byte range holds offset i of the record. */
  function FieldAt(i: nat): (f: Field)
    requires i < SIZE
    ensures Offset(f) <= i < Offset(f) + Width(f)
  {
    if i < 16 then EIdent
    else if i < 18 then EType
    else if i < 20 then EMachine
    else if i < 24 then EVersion
    else if i < 32 then EEntry
    else if i < 40 then EPhoff
    else if i < 48 then EShoff
    else if i < 52 then EFlags
    else if i < 54 then EEhsize
    else if i < 56 then EPhentsize
    else if i < 58 then EPhnum
    else if i < 60 then EShentsize
    else if i < 62 then EShnum
    else EShstrndx
  }

  /** Offsets inside a field's range belong to that field and to no other. */
  lemma FieldAtInRange(f: Field, j: nat)
    requires j < Width(f)
    ensures Offset(f) + j < SIZE && FieldAt(Offset(f) + j) == f
  {
  }

  /** The bytes of the record that field f occupies. */
  function Slice(b: seq<u8>, f: Field): (s: seq<u8>)
    requires |b| == SIZE
    ensures |s| == Width(f)
  {
    b[Offset(f) .. Offset(f) + Width(f)]
  }

  /** The little-endian value of two, four or eight bytes, as the integer type of that width. */
  function ReadU16(s: seq<u8>): (n: u16)
    requires |s| == 2
    ensures ToLE(n, 2) == s
  {
    Pow256Widths();
    ToLEFromLE(s);
    FromLE(s)
  }

  function ReadU32(s: seq<u8>): (n: u32)
    requires |s| == 4
    ensures ToLE(n, 4) == s
  {
    Pow256Widths();
    ToLEFromLE(s);
    FromLE(s)
  }

  function ReadU64(s: seq<u8>): (n: u64)
    requires |s| == 8
    ensures ToLE(n, 8) == s
  {
    Pow256Widths();
    ToLEFromLE(s);
    FromLE(s)
  }

  /**
   * The overlay of the record on SIZE bytes: the identification bytes as
   * they are, every integer field read little-endian from its range.
   */
  function Overlay(b: seq<u8>): (h: Header)
    requires |b| == SIZE
    ensures h.e_ident == b[..EI_NIDENT]
  {
    Header(
      Slice(b, EIdent),
      ReadU16(Slice(b, EType)),
      ReadU16(Slice(b, EMachine)),
      ReadU32(Slice(b, EVersion)),
      ReadU64(Slice(b, EEntry)),
      ReadU64(Slice(b, EPhoff)),
      ReadU64(Slice(b, EShoff)),
      ReadU32(Slice(b, EFlags)),
      ReadU16(Slice(b, EEhsize)),
      ReadU16(Slice(b, EPhentsize)),
      ReadU16(Slice(b, EPhnum)),
      ReadU16(Slice(b, EShentsize)),
      ReadU16(Slice(b, EShnum)),
      ReadU16(Slice(b, EShstrndx)))
  }

  /** The bytes that hold field f of h: its value, little-endian, at the field's width. */
  function FieldBytes(h: Header, f: Field): (s: seq<u8>)
    ensures |s| == Width(f)
  {
    Pow256Widths();
    match f
    case EIdent => h.e_ident
    case EType => ToLE(h.e_type, 2)
    case EMachine => ToLE(h.e_machine, 2)
    case EVersion => ToLE(h.e_version, 4)
    case EEntry => ToLE(h.e_entry, 8)
    case EPhoff => ToLE(h.e_phoff, 8)
    case EShoff => ToLE(h.e_shoff, 8)
    case EFlags => ToLE(h.e_flags, 4)
    case EEhsize => ToLE(h.e_ehsize, 2)
    case EPhentsize => ToLE(h.e_phentsize, 2)
    case EPhnum => ToLE(h.e_phnum, 2)
    case EShentsize => ToLE(h.e_shentsize, 2)
    case EShnum => ToLE(h.e_shnum, 2)
    case EShstrndx => ToLE(h.e_shstrndx, 2)
  }

  /** The SIZE bytes of the record h in memory: byte i belongs to the field covering offset i. */
  function Encode(h: Header): (b: seq<u8>)
    ensures |b| == SIZE
  {
    seq(SIZE, i requires 0 <= i < SIZE =>
      var f := FieldAt(i);
      FieldBytes(h, f)[i - Offset(f)])
  }

  /** Each field's range of the encoding holds that field's bytes. */
  lemma EncodeSlice(h: Header, f: Field)
    ensures Slice(Encode(h), f) == FieldBytes(h, f)
  {
  }

  /** A record is determined by the bytes of its fields. */
  lemma FieldBytesDetermine(g: Header, h: Header)
    requires forall f :: FieldBytes(g, f) == FieldBytes(h, f)
    ensures g == h
  {
    assert FieldBytes(g, EIdent) == FieldBytes(h, EIdent);
    assert FieldBytes(g, EType) == FieldBytes(h, EType);
    assert FieldBytes(g, EMachine) == FieldBytes(h, EMachine);
    assert FieldBytes(g, EVersion) == FieldBytes(h, EVersion);
    assert FieldBytes(g, EEntry) == FieldBytes(h, EEntry);
    assert FieldBytes(g, EPhoff) == FieldBytes(h, EPhoff);
    assert FieldBytes(g, EShoff) == FieldBytes(h, EShoff);
    assert FieldBytes(g, EFlags) == FieldBytes(h, EFlags);
    assert FieldBytes(g, EEhsize) == FieldBytes(h, EEhsize);
    assert FieldBytes(g, EPhentsize) == FieldBytes(h, EPhentsize);
    assert FieldBytes(g, EPhnum) == FieldBytes(h, EPhnum);
    assert FieldBytes(g, EShentsize) == FieldBytes(h, EShentsize);
    assert FieldBytes(g, EShnum) == FieldBytes(h, EShnum);
    assert FieldBytes(g, EShstrndx) == FieldBytes(h, EShstrndx);
  }

  /** Overlaying the record on its own bytes gives the record back. */
  lemma OverlayEncode(h: Header)
    ensures Overlay(Encode(h)) == h
  {
    var b := Encode(h);
    forall f ensures FieldBytes(Overlay(b), f) == FieldBytes(h, f) {
      OverlaySlice(b, f);
      EncodeSlice(h, f);
    }
    FieldBytesDetermine(Overlay(b), h);
  }

  /** The field of the overlay holds exactly the bytes of its range. */
  lemma OverlaySlice(b: seq<u8>, f: Field)
    requires |b| == SIZE
    ensures FieldBytes(Overlay(b), f) == Slice(b, f)
  {
    ToLEFromLE(Slice(b, f));
  }


  /** A record whose every field holds the bytes of its range in b encodes to b. */
  lemma EncodeFromSlices(h: Header, b: seq<u8>)
    requires |b| == SIZE
    requires forall f :: FieldBytes(h, f) == Slice(b, f)
    ensures Encode(h) == b
  {
  }

  /**
   * Every byte of the record is part of some field (there is no padding):
   * writing the overlaid record back gives the bytes it was read from.
   */
  lemma EncodeOverlay(b: seq<u8>)
    requires |b| == SIZE
    ensures Encode(Overlay(b)) == b
  {
    forall f ensures FieldBytes(Overlay(b), f) == Slice(b, f) {
      OverlaySlice(b, f);
    }
    EncodeFromSlices(Overlay(b), b);
  }

  /** Distinct byte strings overlay to distinct records. */
  lemma OverlayInjective(a: seq<u8>, b: seq<u8>)
    requires |a| == SIZE && |b| == SIZE && Overlay(a) == Overlay(b)
    ensures a == b
  {
    EncodeOverlay(a);
    EncodeOverlay(b);
  }

  /**
   * `cow_struct::<x64>`: a view of the record over exactly SIZE bytes. The
   * helper is not part of this model; whether it yields a view (rather than
   * None) is the parameter `viewable`, and a view it yields is the overlay.
   */
  function CowStruct(headerBytes: seq<u8>, viewable: bool): (r: Option<Header>)
    requires |headerBytes| == SIZE
    ensures r.Some? <==> viewable
    ensures r.Some? ==> Encode(r.value) == headerBytes
  {
    if viewable then EncodeOverlay(headerBytes); Some(Overlay(headerBytes)) else None
  }

  /** `from_bytes`: reject a buffer shorter than SIZE, else view its first SIZE bytes. */
  function FromBytes(data: seq<u8>, viewable: bool): (r: Option<Header>)
    ensures |data| < SIZE ==> r == None
    ensures |data| >= SIZE ==> (r.Some? <==> viewable)
    ensures r.Some? ==> |data| >= SIZE && Encode(r.value) == data[..SIZE]
  {
    if |data| < SIZE then None
    else CowStruct(data[..SIZE], viewable)
  }

  /** Bytes after the first SIZE never change what `from_bytes` returns. */
  lemma FromBytesIgnoresTrailing(data: seq<u8>, trailing: seq<u8>, viewable: bool)
    requires |data| >= SIZE
    ensures FromBytes(data + trailing, viewable) == FromBytes(data, viewable)
    ensures FromBytes(data, viewable) == FromBytes(data[..SIZE], viewable)
  {
    assert (data + trailing)[..SIZE] == data[..SIZE];
    assert data[..SIZE][..SIZE] == data[..SIZE];
  }

  /** A header written out and followed by anything decodes to itself whenever it decodes. */
  lemma FromBytesEncode(h: Header, trailing: seq<u8>, viewable: bool)
    ensures FromBytes(Encode(h) + trailing, viewable).Some? <==> viewable
    ensures FromBytes(Encode(h) + trailing, viewable).Some? ==> FromBytes(Encode(h) + trailing, viewable).value == h
  {
    FromBytesIgnoresTrailing(Encode(h), trailing, viewable);
    assert Encode(h)[..SIZE] == Encode(h);
    OverlayEncode(h);
  }
}
