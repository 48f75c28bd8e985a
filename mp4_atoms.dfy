/** The ISO base media file format ("MP4") box decoder of parse_mp4_headers.py:
    the box header of section 4.2 of ISO/IEC 14496-12 (a 32-bit big-endian size,
    a four-character type, an optional 64-bit "largesize"), the recursive
    decoder with its best-effort stop on an unreadable header, the pre-order type
    search and the tree printer. */
module Mp4Atoms {
  import opened Results
  import opened PyText

  type byte = b: int | 0 <= b < 256

  // ---------------------------------------------------------------------------
  // Big-endian integers (`struct.unpack(">I", ...)` and `struct.unpack(">Q", ...)`)
  // ---------------------------------------------------------------------------

  function Pow256(k: nat): (r: nat)
    ensures r >= 1
  {
    if k == 0 then 1 else 256 * Pow256(k - 1)
  }

  /** The unsigned big-endian number the bytes `s` denote. */
  function BigEndian(s: seq<byte>): (r: nat)
    ensures r < Pow256(|s|)
  {
    if s == [] then 0
    else
      var hi := BigEndian(s[..|s| - 1]);
      assert hi * 256 <= (Pow256(|s| - 1) - 1) * 256;
      hi * 256 + s[|s| - 1]
  }

  /** The `k`-byte big-endian encoding of `n` (what `struct.pack` would write). */
  function EncodeBigEndian(n: nat, k: nat): (r: seq<byte>)
    requires n < Pow256(k)
    ensures |r| == k
  {
    if k == 0 then []
    else EncodeBigEndian(n / 256, k - 1) + [n % 256]
  }

  /** Decoding the encoding of a number gives the number back. */
  lemma {:induction false} BigEndianRoundTrip(n: nat, k: nat)
    requires n < Pow256(k)
    ensures BigEndian(EncodeBigEndian(n, k)) == n
  {
    if k > 0 {
      BigEndianRoundTrip(n / 256, k - 1);
      var e := EncodeBigEndian(n, k);
      assert e[..k - 1] == EncodeBigEndian(n / 256, k - 1);
    }
  }

  /** The high bytes of a number weigh 256 to the power of the length of the
      low ones. */
  lemma {:induction false} BigEndianAppend(a: seq<byte>, b: seq<byte>)
    ensures BigEndian(a + b) == BigEndian(a) * Pow256(|b|) + BigEndian(b)
    decreases |b|
  {
    if b == [] {
      assert a + b == a;
    } else {
      var c := b[..|b| - 1];
      var x := b[|b| - 1];
      BigEndianAppend(a, c);
      assert (a + b)[..|a + b| - 1] == a + c;
      assert (a + b)[|a + b| - 1] == x;
      assert Pow256(|b|) == 256 * Pow256(|c|);
      assert BigEndian(a + b) == BigEndian(a + c) * 256 + x;
      assert BigEndian(b) == BigEndian(c) * 256 + x;
      ShiftByte(BigEndian(a), Pow256(|c|), BigEndian(c), x);
    }
  }

  lemma ShiftByte(hi: int, p: int, lo: int, x: int)
    ensures (hi * p + lo) * 256 + x == hi * (256 * p) + (lo * 256 + x)
  {
  }

  /** The unsigned 32-bit big-endian number at `i`. */
  function U32At(data: seq<byte>, i: nat): nat
    requires i + 4 <= |data|
  {
    data[i] as int * 0x100_0000 + data[i + 1] as int * 0x1_0000 + data[i + 2] as int * 0x100 + data[i + 3] as int
  }

  /** The unsigned 64-bit big-endian number at `i`. */
  function U64At(data: seq<byte>, i: nat): nat
    requires i + 8 <= |data|
  {
    U32At(data, i) * 0x1_0000_0000 + U32At(data, i + 4)
  }

  /** `U32At` reads the four bytes at `i` as one big-endian number. */
  lemma U32AtIsBigEndian(data: seq<byte>, i: nat)
    requires i + 4 <= |data|
    ensures U32At(data, i) == BigEndian(data[i..i + 4])
  {
    var s := data[i..i + 4];
    assert s[..3][..2] == s[..2] && s[..2][..1] == s[..1] && s[..1][..0] == [];
    assert BigEndian(s[..1]) == s[0];
    assert BigEndian(s[..2]) == s[0] as int * 256 + s[1];
    assert BigEndian(s[..3]) == (s[0] as int * 256 + s[1]) * 256 + s[2];
    assert BigEndian(s) == BigEndian(s[..3]) * 256 + s[3];
  }

  /** `U64At` reads the eight bytes at `i` as one big-endian number. */
  lemma U64AtIsBigEndian(data: seq<byte>, i: nat)
    requires i + 8 <= |data|
    ensures U64At(data, i) == BigEndian(data[i..i + 8])
  {
    assert data[i..i + 8] == data[i..i + 4] + data[i + 4..i + 8];
    BigEndianAppend(data[i..i + 4], data[i + 4..i + 8]);
    U32AtIsBigEndian(data, i);
    U32AtIsBigEndian(data, i + 4);
    assert Pow256(4) == 0x1_0000_0000 by {
      assert Pow256(2) == 0x1_0000;
    }
  }

  // ---------------------------------------------------------------------------
  // Strict UTF-8 decoding of the four type bytes (`atom_type.decode()`)
  // ---------------------------------------------------------------------------

  predicate IsContinuation(b: byte)
  {
    0x80 <= b <= 0xBF
  }

  /** The six payload bits of a continuation byte. */
  function Low6(b: byte): int
  {
    b as int - 0x80
  }

  /** The first character of `b` and the number of bytes it takes, following the
      table of well-formed UTF-8 byte sequences of the Unicode standard (what
      Python's strict decoder accepts: no overlong forms, no surrogates, nothing
      above U+10FFFF). */
  function DecodeChar(b: seq<byte>): (r: Option<(char, nat)>)
    requires |b| > 0
    ensures r.Some? ==> 1 <= r.value.1 <= |b| && r.value.1 <= 4
  {
    var b0 := b[0] as int;
    if b0 < 0x80 then Some((b0 as char, 1))
    else if 0xC2 <= b0 <= 0xDF then
      if |b| >= 2 && IsContinuation(b[1]) then
        Some((((b0 - 0xC0) * 64 + Low6(b[1])) as char, 2))
      else None
    else if 0xE0 <= b0 <= 0xEF then
      var lo := if b0 == 0xE0 then 0xA0 else 0x80;
      var hi := if b0 == 0xED then 0x9F else 0xBF;
      if |b| >= 3 && lo <= b[1] <= hi && IsContinuation(b[2]) then
        Some((((b0 - 0xE0) * 4096 + Low6(b[1]) * 64 + Low6(b[2])) as char, 3))
      else None
    else if 0xF0 <= b0 <= 0xF4 then
      var lo := if b0 == 0xF0 then 0x90 else 0x80;
      var hi := if b0 == 0xF4 then 0x8F else 0xBF;
      if |b| >= 4 && lo <= b[1] <= hi && IsContinuation(b[2]) && IsContinuation(b[3]) then
        Some((((b0 - 0xF0) * 262144 + Low6(b[1]) * 4096 + Low6(b[2]) * 64 + Low6(b[3])) as char, 4))
      else None
    else None
  }

  /** `data[i:j].decode()`: `None` stands for the UnicodeDecodeError. */
  function Utf8Decode(data: seq<byte>, i: nat, j: nat): Option<string>
    requires i <= j <= |data|
    decreases j - i, 1
  {
    if i == j then Some("") else DecodeFrom(data, i, j)
  }

  /** The character that starts at `i`, then the rest of `data[i:j]`. */
  function DecodeFrom(data: seq<byte>, i: nat, j: nat): Option<string>
    requires i < j <= |data|
    decreases j - i, 0
  {
    match DecodeChar(data[i..j])
    case None => None
    case Some((c, n)) =>
      match Utf8Decode(data, i + n, j)
      case None => None
      case Some(rest) => Some([c] + rest)
  }

  /** The UTF-8 encoding of one character. */
  function EncodeChar(c: char): (r: seq<byte>)
    ensures 1 <= |r| <= 4
  {
    var v := c as int;
    if v < 0x80 then [v]
    else if v < 0x800 then [0xC0 + v / 64, 0x80 + v % 64]
    else if v < 0x10000 then [0xE0 + v / 4096, 0x80 + (v / 64) % 64, 0x80 + v % 64]
    else [0xF0 + v / 262144, 0x80 + (v / 4096) % 64, 0x80 + (v / 64) % 64, 0x80 + v % 64]
  }

  /** `str.encode()`. */
  function Utf8Encode(s: string): seq<byte>
  {
    if s == [] then [] else EncodeChar(s[0]) + Utf8Encode(s[1..])
  }

  lemma DecodeEncodedChar(c: char, rest: seq<byte>)
    ensures DecodeChar(EncodeChar(c) + rest) == Some((c, |EncodeChar(c)|))
  {
    var v := c as int;
    if v < 0x80 {
    } else if v < 0x800 {
      DecodeTwoBytes(c, rest);
    } else if v < 0x10000 {
      DecodeThreeBytes(c, rest);
    } else {
      DecodeFourBytes(c, rest);
    }
  }

  lemma DecodeTwoBytes(c: char, rest: seq<byte>)
    requires 0x80 <= c as int < 0x800
    ensures DecodeChar(EncodeChar(c) + rest) == Some((c, 2))
  {
    var v := c as int;
    var b := EncodeChar(c) + rest;
    var q, r := v / 64, v % 64;
    assert v == q * 64 + r && 2 <= q < 32 && 0 <= r < 64;
    assert b[0] == 0xC0 + q && b[1] == 0x80 + r;
    assert (b[0] as int - 0xC0) * 64 + Low6(b[1]) == v;
  }

  lemma DecodeThreeBytes(c: char, rest: seq<byte>)
    requires 0x800 <= c as int < 0x10000
    ensures DecodeChar(EncodeChar(c) + rest) == Some((c, 3))
  {
    var v := c as int;
    var b := EncodeChar(c) + rest;
    var q, m, r := v / 4096, (v / 64) % 64, v % 64;
    assert v / 64 == q * 64 + m;
    assert v == q * 4096 + m * 64 + r && 0 <= q < 16 && 0 <= m < 64 && 0 <= r < 64;
    assert b[0] == 0xE0 + q && b[1] == 0x80 + m && b[2] == 0x80 + r;
    assert (b[0] as int - 0xE0) * 4096 + Low6(b[1]) * 64 + Low6(b[2]) == v;
  }

  lemma DecodeFourBytes(c: char, rest: seq<byte>)
    requires 0x10000 <= c as int
    ensures DecodeChar(EncodeChar(c) + rest) == Some((c, 4))
  {
    var v := c as int;
    var b := EncodeChar(c) + rest;
    var q, m1, m2, r := v / 262144, (v / 4096) % 64, (v / 64) % 64, v % 64;
    assert v / 4096 == q * 64 + m1;
    assert v / 64 == (v / 4096) * 64 + m2;
    assert v == q * 262144 + m1 * 4096 + m2 * 64 + r && 0 <= q <= 4;
    assert 0 <= m1 < 64 && 0 <= m2 < 64 && 0 <= r < 64;
    assert b[0] == 0xF0 + q && b[1] == 0x80 + m1 && b[2] == 0x80 + m2 && b[3] == 0x80 + r;
    assert (b[0] as int - 0xF0) * 262144 + Low6(b[1]) * 4096 + Low6(b[2]) * 64 + Low6(b[3]) == v;
  }

  /** Decoding an encoded string gives it back: the type codes this model compares
      as strings correspond one to one to their four bytes. */
  lemma {:induction false} Utf8RoundTrip(data: seq<byte>, i: nat, j: nat, s: string)
    requires i <= j <= |data| && data[i..j] == Utf8Encode(s)
    ensures Utf8Decode(data, i, j) == Some(s)
    decreases |s|
  {
    if s != [] {
      var e, tail := EncodeChar(s[0]), Utf8Encode(s[1..]);
      DecodeEncodedChar(s[0], tail);
      assert data[i..j][|e|..] == data[i + |e|..j];
      Utf8RoundTrip(data, i + |e|, j, s[1..]);
      assert s == [s[0]] + s[1..];
    }
  }

  // ---------------------------------------------------------------------------
  // One box header: read_atom
  // ---------------------------------------------------------------------------

  lemma SliceOfSlice(s: seq<byte>, lo: nat, hi: nat, i: nat, j: nat)
    requires lo <= hi <= |s| && i <= j <= hi - lo
    ensures s[lo..hi][i..j] == s[lo + i..lo + j]
  {
    assert forall k :: 0 <= k < j - i ==> s[lo..hi][i..j][k] == s[lo + i..lo + j][k];
  }

  /** Python's `data[lo:hi]` for non-negative bounds: both are clamped to the
      buffer and an inverted range is empty. */
  function PySlice(data: seq<byte>, lo: nat, hi: nat): (r: seq<byte>)
    ensures |r| <= |data| - lo || |r| == 0
    ensures lo <= hi <= |data| ==> r == data[lo..hi]
    ensures hi <= lo ==> r == []
  {
    var a := if lo <= |data| then lo else |data|;
    var b := if hi <= |data| then hi else |data|;
    if b <= a then [] else data[a..b]
  }

  /** Bounds past the data are clamped: an end past it slices to the end of
      the data, and a start at or past it gives nothing. */
  lemma PySliceClamped(data: seq<byte>, lo: nat, hi: nat)
    ensures lo <= |data| <= hi ==> PySlice(data, lo, hi) == data[lo..]
    ensures |data| <= lo ==> PySlice(data, lo, hi) == []
  {
  }

  /** What read_atom returns: the size field (0 still unresolved), the decoded
      type, the header length and the payload bytes. */
  datatype Header = Header(size: nat, kind: string, headerLen: nat, payload: seq<byte>)

  /** The header at `pos` can be read: 8 bytes are there, 16 when the size field
      announces a 64-bit size, and the type bytes decode. */
  predicate Readable(data: seq<byte>, pos: nat)
  {
    && pos + 8 <= |data|
    && (U32At(data, pos) == 1 ==> pos + 16 <= |data|)
    && Utf8Decode(data, pos + 4, pos + 8).Some?
  }

  /** read_atom: decode the header at `pos` and slice out its payload; `None`
      stands for the exception it raises (fewer than 8 bytes, fewer than 16 for
      an extended header, undecodable type bytes). */
  function ReadAtom(data: seq<byte>, pos: nat): (r: Option<Header>)
    ensures r.Some? <==> Readable(data, pos)
    ensures r.Some? ==> |r.value.payload| < |data|
  {
    if pos + 8 > |data| then None
    else
      var size32 := U32At(data, pos);
      if size32 == 1 && pos + 16 > |data| then None
      else
        var size := if size32 == 1 then U64At(data, pos + 8) else size32;
        var headerLen := if size32 == 1 then 16 else 8;
        match Utf8Decode(data, pos + 4, pos + 8)
        case None => None
        case Some(kind) =>
          var payload := if size != 0 then PySlice(data, pos + headerLen, pos + size) else [];
          Some(Header(size, kind, headerLen, payload))
  }

  /** The header layout: a 4-byte big-endian size and 4 type bytes; size field 1
      means an 8-byte big-endian size follows and the header is 16 bytes long;
      size field 0 leaves the size unresolved and the payload empty; otherwise
      the payload is the box's bytes after the header, clamped to the buffer. */
  lemma HeaderFields(data: seq<byte>, pos: nat)
    requires Readable(data, pos)
    ensures var h := ReadAtom(data, pos).value;
      && h.kind == Utf8Decode(data, pos + 4, pos + 8).value
      && (if BigEndian(data[pos..pos + 4]) == 1
          then h.headerLen == 16 && h.size == BigEndian(data[pos + 8..pos + 16])
          else h.headerLen == 8 && h.size == BigEndian(data[pos..pos + 4]))
      && (h.size == 0 ==> h.payload == [])
      && (h.size != 0 ==> h.payload == PySlice(data, pos + h.headerLen, pos + h.size))
  {
    U32AtIsBigEndian(data, pos);
    if U32At(data, pos) == 1 {
      U64AtIsBigEndian(data, pos + 8);
    }
  }

  /** A standard header: a size field other than 0 and 1 is the box size and the
      header is 8 bytes long; the payload is the rest of the box when the buffer
      holds all of it. */
  lemma {:induction false} StandardHeader(data: seq<byte>, pos: nat, size: nat, kind: string)
    requires 2 <= size < Pow256(4) && |Utf8Encode(kind)| == 4
    requires pos + size <= |data| && 8 <= size
    requires data[pos..pos + 8] == EncodeBigEndian(size, 4) + Utf8Encode(kind)
    ensures ReadAtom(data, pos) == Some(Header(size, kind, 8, data[pos + 8..pos + size]))
  {
    var w := data[pos..pos + 8];
    var a, k := EncodeBigEndian(size, 4), Utf8Encode(kind);
    assert w[..4] == a && w[4..8] == k;
    SliceOfSlice(data, pos, pos + 8, 0, 4);
    SliceOfSlice(data, pos, pos + 8, 4, 8);
    BigEndianRoundTrip(size, 4);
    U32AtIsBigEndian(data, pos);
    Utf8RoundTrip(data, pos + 4, pos + 8, kind);
    assert PySlice(data, pos + 8, pos + size) == data[pos + 8..pos + size];
  }

  /** An extended header: size field 1 is followed by the 64-bit "largesize",
      and the header is 16 bytes long. */
  lemma {:induction false} ExtendedHeader(data: seq<byte>, pos: nat, size: nat, kind: string)
    requires size < Pow256(8) && |Utf8Encode(kind)| == 4
    requires pos + 16 <= |data|
    requires data[pos..pos + 16] == EncodeBigEndian(1, 4) + Utf8Encode(kind) + EncodeBigEndian(size, 8)
    ensures ReadAtom(data, pos).Some?
    ensures ReadAtom(data, pos).value.headerLen == 16
    ensures ReadAtom(data, pos).value.size == size
    ensures ReadAtom(data, pos).value.kind == kind
  {
    var w := data[pos..pos + 16];
    var a, k, e := EncodeBigEndian(1, 4), Utf8Encode(kind), EncodeBigEndian(size, 8);
    assert w == a + k + e;
    assert w[..4] == a && w[4..8] == k && w[8..] == e;
    SliceOfSlice(data, pos, pos + 16, 0, 4);
    SliceOfSlice(data, pos, pos + 16, 4, 8);
    SliceOfSlice(data, pos, pos + 16, 8, 16);
    BigEndianRoundTrip(1, 4);
    BigEndianRoundTrip(size, 8);
    U32AtIsBigEndian(data, pos);
    U64AtIsBigEndian(data, pos + 8);
    Utf8RoundTrip(data, pos + 4, pos + 8, kind);
  }

  /** The payload is never longer than the box claims and never runs past the
      buffer: an overstated size truncates it to the end of the buffer, and a
      size below the header length leaves it empty. */
  lemma PayloadClamped(data: seq<byte>, pos: nat)
    requires ReadAtom(data, pos).Some?
    ensures var h := ReadAtom(data, pos).value;
      && (h.size != 0 && pos + h.size > |data| ==> h.payload == data[pos + h.headerLen..])
      && (h.size != 0 && h.headerLen <= h.size && pos + h.size <= |data| ==>
            h.payload == data[pos + h.headerLen..pos + h.size])
      && (h.size < h.headerLen ==> h.payload == [])
  {
  }

  // ---------------------------------------------------------------------------
  // The box tree: parse_atoms
  // ---------------------------------------------------------------------------

  /** One decoded box: its type, resolved size, offset within the region it was
      decoded from, header length, payload, and children (decoded from the
      payload for container types, empty otherwise). */
  datatype Box = Box(kind: string, size: nat, offset: nat, headerLen: nat,
                     payload: seq<byte>, children: seq<Box>)

  /** The types whose payload is decoded as a sequence of boxes. */
  const ContainerKinds: seq<string> :=
    ["moov", "trak", "mdia", "mdhd", "minf", "stbl", "edts", "udta", "meta", "free", "skip", "mvex"]

  predicate IsContainer(kind: string)
  {
    Listed(kind, ContainerKinds)
  }

  /** `kind` is one of `kinds`: it is the single element, or one of either half.
      This is plain membership (ListedIsMember); the halving keeps the proofs
      that unfold it over the twelve literals small. */
  predicate Listed(kind: string, kinds: seq<string>)
  {
    if |kinds| <= 1 then kinds == [kind]
    else Listed(kind, kinds[..|kinds| / 2]) || Listed(kind, kinds[|kinds| / 2..])
  }

  /** Listed is plain membership. */
  lemma {:induction false} ListedIsMember(kind: string, kinds: seq<string>)
    ensures Listed(kind, kinds) <==> kind in kinds
    decreases |kinds|
  {
    if |kinds| > 1 {
      var m := |kinds| / 2;
      ListedIsMember(kind, kinds[..m]);
      ListedIsMember(kind, kinds[m..]);
      assert kinds == kinds[..m] + kinds[m..];
    }
  }

  /** The container test accepts exactly the twelve listed types. */
  lemma ContainerKindsAreContainers(kind: string)
    ensures IsContainer(kind) <==> kind in ContainerKinds
  {
    ListedIsMember(kind, ContainerKinds);
  }

  /** The size a header resolves to at `pos` in a region ending at `end`: the
      size field, or the rest of the region when the field is 0. */
  function ResolvedSize(h: Header, pos: nat, end: int): int
  {
    if h.size == 0 then end - pos else h.size
  }

  /** The boxes decoded from `pos` up to `end`: the specification of
      parse_atoms. Decoding stops quietly at the first unreadable header. */
  function Atoms(data: seq<byte>, pos: nat, end: int): seq<Box>
    decreases |data|, if pos < end then end - pos else 0
  {
    if pos >= end then []
    else match ReadAtom(data, pos)
      case None => []
      case Some(h) =>
        var size := ResolvedSize(h, pos, end);
        var children := if IsContainer(h.kind) then Atoms(h.payload, 0, |h.payload|) else [];
        [Box(h.kind, size, pos, h.headerLen, h.payload, children)] + Atoms(data, pos + size, end)
  }

  /** parse_atoms: walk the region `[start, end)` (`end` defaults to the length of
      the buffer) with a cursor, decoding one box at a time. */
  method ParseAtoms(data: seq<byte>, start: nat, endArg: Option<int>) returns (atoms: seq<Box>)
    ensures atoms == Atoms(data, start, if endArg.None? then |data| else endArg.value)
    decreases |data|, 1
  {
    var end := if endArg.None? then |data| else endArg.value;
    atoms := [];
    var pos := start;
    while pos < end
      invariant atoms + Atoms(data, pos, end) == Atoms(data, start, end)
      decreases end - pos
    {
      var box := ReadBox(data, pos, end);
      if box.None? {
        break;
      }
      var b := box.value;
      ghost var rest := Atoms(data, pos + b.size, end);
      AtomsStep(data, start, pos, end, b, atoms);
      atoms := atoms + [b];
      pos := pos + b.size;
      assert atoms + rest == Atoms(data, start, end);
    }
    AtomsStop(data, pos, end);
  }

  /** The body of the parse_atoms loop: read the header at the cursor (a failure
      stops the walk), resolve a size of 0 to the rest of the region, and
      decode the payload of a container box as a region of its own. */
  method ReadBox(data: seq<byte>, pos: nat, end: int) returns (box: Option<Box>)
    requires pos < end
    ensures box.None? ==> Atoms(data, pos, end) == []
    ensures box.Some? ==>
      && box.value.size >= 1
      && Atoms(data, pos, end) == [box.value] + Atoms(data, pos + box.value.size, end)
    decreases |data|, 0
  {
    var header := ReadAtom(data, pos);
    if header.None? {
      return None;
    }
    var h := header.value;
    var size := if h.size == 0 then end - pos else h.size;
    var children := [];
    if IsContainer(h.kind) {
      children := ParseAtoms(h.payload, 0, Some(|h.payload|));
    }
    box := Some(Box(h.kind, size, pos, h.headerLen, h.payload, children));
  }

  /** Moving the box at the cursor from the boxes still to decode to the boxes
      decoded. */
  lemma AtomsStep(data: seq<byte>, start: nat, pos: nat, end: int, b: Box, done: seq<Box>)
    requires done + Atoms(data, pos, end) == Atoms(data, start, end)
    requires Atoms(data, pos, end) == [b] + Atoms(data, pos + b.size, end)
    ensures (done + [b]) + Atoms(data, pos + b.size, end) == Atoms(data, start, end)
  {
    Assoc(done, [b], Atoms(data, pos + b.size, end));
  }

  lemma Assoc<T>(a: seq<T>, b: seq<T>, c: seq<T>)
    ensures a + (b + c) == a + b + c
  {
  }

  /** Sibling offsets are contiguous: the first box is at `start` and each next
      box starts where the previous one ends. */
  predicate Contiguous(bs: seq<Box>, start: nat)
  {
    && (bs != [] ==> bs[0].offset == start)
    && (forall k :: 0 <= k < |bs| - 1 ==> bs[k + 1].offset == bs[k].offset + bs[k].size)
  }

  /** Box `b` starts inside the region and is what the header at its offset
      says, its size resolved against the region end. */
  ghost predicate HeaderMatches(data: seq<byte>, end: int, b: Box)
  {
    var r := ReadAtom(data, b.offset);
    && b.offset < end
    && r.Some?
    && b.kind == r.value.kind && b.headerLen == r.value.headerLen
    && b.payload == r.value.payload
    && b.size == ResolvedSize(r.value, b.offset, end)
  }

  /** Decoding of the region stopped: the cursor reached the end or the header
      there cannot be read. */
  predicate Stopped(data: seq<byte>, end: int, cursor: nat)
  {
    cursor >= end || !Readable(data, cursor)
  }

  /** A declarative account of a decoded region, independent of the loop: the
      first box sits at `start` and agrees with the header found there before
      `end`, container boxes (only they) hold the decoding of their own payload
      as a fresh region starting at 0, the later boxes account for the region
      from where the first one ends, and decoding stopped after the last box. */
  ghost predicate Decoded(data: seq<byte>, start: nat, end: int, bs: seq<Box>)
    decreases bs, 1
  {
    if bs == [] then Stopped(data, end, start)
    else
      && bs[0].offset == start
      && HeaderMatches(data, end, bs[0])
      && ChildrenOk(bs[0])
      && Decoded(data, start + bs[0].size, end, bs[1..])
  }

  /** A container holds the decoding of its payload; any other box has none. */
  ghost predicate ChildrenOk(b: Box)
    decreases b, 0
  {
    if IsContainer(b.kind) then Decoded(b.payload, 0, |b.payload|, b.children) else b.children == []
  }

  /** The decoder's output satisfies the declarative account. */
  lemma {:induction false} AtomsAreDecoded(data: seq<byte>, pos: nat, end: int)
    ensures Decoded(data, pos, end, Atoms(data, pos, end))
    decreases |data|, if pos < end then end - pos else 0
  {
    if pos < end && ReadAtom(data, pos).Some? {
      var bs := Atoms(data, pos, end);
      AtomsUnfold(data, pos, end);
      var b := bs[0];
      AtomsAreDecoded(data, pos + b.size, end);
      assert Decoded(data, pos + b.size, end, bs[1..]);
      if IsContainer(b.kind) {
        AtomsAreDecoded(b.payload, 0, |b.payload|);
      }
      assert ChildrenOk(b);
      assert HeaderMatches(data, end, b);
      DecodedIntro(data, pos, end, bs);
    } else {
      AtomsStop(data, pos, end);
    }
  }

  /** Only the decoder's output satisfies the declarative account: together with
      AtomsAreDecoded, `Decoded` characterises parse_atoms completely. */
  lemma {:induction false} DecodedIsUnique(data: seq<byte>, start: nat, end: int, bs: seq<Box>)
    requires Decoded(data, start, end, bs)
    ensures bs == Atoms(data, start, end)
    decreases bs
  {
    if bs == [] {
      AtomsStop(data, start, end);
    } else {
      var b, rest := bs[0], bs[1..];
      DecodedIsUnique(data, start + b.size, end, rest);
      if IsContainer(b.kind) {
        DecodedIsUnique(b.payload, 0, |b.payload|, b.children);
      }
      AtomsCons(data, start, end, b);
      assert bs == [b] + rest;
    }
  }

  /** Decoding stops where the header cannot be read or the region ends. */
  lemma AtomsStop(data: seq<byte>, pos: nat, end: int)
    requires Stopped(data, end, pos)
    ensures Atoms(data, pos, end) == []
  {
  }

  /** One step of `Atoms`, stated through `HeaderMatches`. */
  lemma AtomsCons(data: seq<byte>, pos: nat, end: int, b: Box)
    requires b.offset == pos && HeaderMatches(data, end, b)
    requires b.children == if IsContainer(b.kind) then Atoms(b.payload, 0, |b.payload|) else []
    ensures Atoms(data, pos, end) == [b] + Atoms(data, pos + b.size, end)
  {
  }

  /** The sibling facts of the boxes of a region: each has a resolved size of at
      least 1 (so the cursor always advances) and a header of 8 or 16 bytes;
      offsets are contiguous from the region start and every box starts inside
      the region. */
  predicate Siblings(bs: seq<Box>, start: nat, end: int)
  {
    && Contiguous(bs, start)
    && (forall k :: 0 <= k < |bs| ==> start <= bs[k].offset < end)
    && (forall k :: 0 <= k < |bs| ==> bs[k].size >= 1 && (bs[k].headerLen == 8 || bs[k].headerLen == 16))
  }

  /** The boxes parse_atoms decodes from a region have the sibling facts. */
  lemma {:induction false} SiblingsContiguous(data: seq<byte>, start: nat, end: int)
    ensures Siblings(Atoms(data, start, end), start, end)
    decreases |data|, if start < end then end - start else 0
  {
    if start < end && ReadAtom(data, start).Some? {
      var bs := Atoms(data, start, end);
      AtomsUnfold(data, start, end);
      var b := bs[0];
      var rest := Atoms(data, start + b.size, end);
      SiblingsContiguous(data, start + b.size, end);
      SiblingsCons(b, rest, start, end);
      assert bs == [b] + rest;
    } else {
      AtomsStop(data, start, end);
    }
  }

  /** One step of `Atoms` at a readable header: the first box, read from the
      header, and the boxes after it. */
  lemma AtomsUnfold(data: seq<byte>, pos: nat, end: int)
    requires pos < end && ReadAtom(data, pos).Some?
    ensures var h := ReadAtom(data, pos).value;
      var bs := Atoms(data, pos, end);
      && bs != []
      && bs[0] == Box(h.kind, ResolvedSize(h, pos, end), pos, h.headerLen, h.payload,
                      if IsContainer(h.kind) then Atoms(h.payload, 0, |h.payload|) else [])
      && bs[1..] == Atoms(data, pos + bs[0].size, end)
      && bs[0].size >= 1 && (bs[0].headerLen == 8 || bs[0].headerLen == 16)
  {
  }

  /** The sibling facts of a region extend from the boxes after the first to
      all of them. */
  lemma SiblingsCons(b: Box, rest: seq<Box>, start: nat, end: int)
    requires b.offset == start < end && b.size >= 1 && (b.headerLen == 8 || b.headerLen == 16)
    requires Siblings(rest, start + b.size, end)
    ensures Siblings([b] + rest, start, end)
  {
    var bs := [b] + rest;
    assert forall k :: 1 <= k < |bs| ==> bs[k] == rest[k - 1];
    forall k | 0 <= k < |bs| - 1 ensures bs[k + 1].offset == bs[k].offset + bs[k].size {
      if k > 0 {
        assert bs[k] == rest[k - 1] && bs[k + 1] == rest[k];
      }
    }
  }

  /** A header whose size field is 0 gives the box the rest of the region and an
      empty payload, so it has no children and is the last box of its region. */
  lemma {:induction false} SizeZeroIsLast(data: seq<byte>, start: nat, end: int, k: nat)
    requires var bs := Atoms(data, start, end);
      k < |bs| && ReadAtom(data, bs[k].offset).Some? && ReadAtom(data, bs[k].offset).value.size == 0
    ensures var bs := Atoms(data, start, end);
      && bs[k].size == end - bs[k].offset
      && bs[k].payload == [] && bs[k].children == []
      && k == |bs| - 1
    decreases |data|, if start < end then end - start else 0
  {
    var bs := Atoms(data, start, end);
    var h := ReadAtom(data, start).value;
    var size := ResolvedSize(h, start, end);
    var rest := Atoms(data, start + size, end);
    assert bs == [bs[0]] + rest;
    if k == 0 {
      assert Atoms([], 0, 0) == [];
    } else {
      assert bs[k] == rest[k - 1];
      SizeZeroIsLast(data, start + size, end, k - 1);
    }
  }

  // ---------------------------------------------------------------------------
  // Round trip: well-formed boxes with standard headers decode back
  // ---------------------------------------------------------------------------

  /** The bytes of boxes with standard headers: a 32-bit size, the encoded
      type and the payload, box after box. */
  function Serialize(bs: seq<Box>): seq<byte>
    requires forall k :: 0 <= k < |bs| ==> bs[k].size < Pow256(4)
    decreases bs
  {
    if bs == [] then []
    else StandardHeaderBytes(bs[0]) + bs[0].payload + Serialize(bs[1..])
  }

  /** The 8-byte standard header of a box: its size in 32 bits, then its type. */
  function StandardHeaderBytes(b: Box): (r: seq<byte>)
    requires b.size < Pow256(4)
    ensures |r| == 4 + |Utf8Encode(b.kind)|
  {
    EncodeBigEndian(b.size, 4) + Utf8Encode(b.kind)
  }

  /** A tree that standard headers can describe exactly: offsets contiguous
      from `start`, and every box well formed. */
  ghost predicate WellFormedTree(bs: seq<Box>, start: nat)
    decreases bs, 1
  {
    && Contiguous(bs, start)
    && (forall k :: 0 <= k < |bs| ==> bs[k].size < Pow256(4))
    && (forall k :: 0 <= k < |bs| ==> WellFormedBox(bs[k]))
  }

  /** A box with a type encoded in four bytes, an 8-byte header and a size that
      fits in 32 bits and equals the header plus the payload; a container's
      payload is the serialization of its children (a leaf has none). */
  ghost predicate WellFormedBox(b: Box)
    decreases b, 0
  {
    && |Utf8Encode(b.kind)| == 4
    && b.headerLen == 8 && b.size == 8 + |b.payload|
    && (if IsContainer(b.kind)
        then WellFormedTree(b.children, 0) && b.payload == Serialize(b.children)
        else b.children == [])
  }

  lemma WellFormedTail(bs: seq<Box>, start: nat)
    requires WellFormedTree(bs, start) && bs != []
    ensures WellFormedTree(bs[1..], start + bs[0].size)
  {
    var rest := bs[1..];
    assert forall k :: 0 <= k < |rest| ==> rest[k] == bs[k + 1];
  }

  /** Decoding the serialization of a well-formed tree, followed by fewer than 8
      stray bytes, gives back exactly that tree: same types, sizes, offsets,
      payloads and children, in byte order; the stray bytes are dropped without
      an error. */
  lemma SerializeRoundTrip(data: seq<byte>, start: nat, bs: seq<Box>, junk: seq<byte>)
    requires WellFormedTree(bs, start)
    requires start <= |data| && data[start..] == Serialize(bs) + junk
    requires |junk| < 8
    ensures Atoms(data, start, |data|) == bs
  {
    SerializedIsDecoded(data, start, bs, junk);
    DecodedIsUnique(data, start, |data|, bs);
  }

  /** The serialization of a well-formed tree meets the declarative account of
      a decoded region. */
  lemma {:induction false} SerializedIsDecoded(data: seq<byte>, start: nat, bs: seq<Box>, junk: seq<byte>)
    requires WellFormedTree(bs, start)
    requires start <= |data| && data[start..] == Serialize(bs) + junk
    requires |junk| < 8
    ensures Decoded(data, start, |data|, bs)
    decreases bs, 1
  {
    if bs == [] {
      JunkStops(data, start, junk);
    } else {
      var b := bs[0];
      assert WellFormedBox(b);
      FirstBoxDecodes(data, start, bs, junk);
      WellFormedTail(bs, start);
      SerializedIsDecoded(data, start + b.size, bs[1..], junk);
      ChildrenSerialized(b);
      HeaderMatchesIntro(data, |data|, b);
      DecodedIntro(data, start, |data|, bs);
    }
  }

  /** Fewer than 8 stray bytes hold no readable header. */
  lemma JunkStops(data: seq<byte>, start: nat, junk: seq<byte>)
    requires start <= |data| && data[start..] == Serialize([]) + junk && |junk| < 8
    ensures Decoded(data, start, |data|, [])
  {
    assert |data| - start == |junk|;
  }

  /** `Decoded`, introduced at its first box. */
  lemma DecodedIntro(data: seq<byte>, start: nat, end: int, bs: seq<Box>)
    requires bs != [] && bs[0].offset == start
    requires HeaderMatches(data, end, bs[0]) && ChildrenOk(bs[0])
    requires Decoded(data, start + bs[0].size, end, bs[1..])
    ensures Decoded(data, start, end, bs)
  {
  }

  /** The children of a well-formed box are the decoding of its payload. */
  lemma {:induction false} ChildrenSerialized(b: Box)
    requires WellFormedBox(b)
    ensures ChildrenOk(b)
    decreases b.children, 2
  {
    if IsContainer(b.kind) {
      assert b.payload == Serialize(b.children) + [];
      SerializedIsDecoded(b.payload, 0, b.children, []);
    }
  }

  lemma HeaderMatchesIntro(data: seq<byte>, end: int, b: Box)
    requires b.offset < end && b.size != 0
    requires ReadAtom(data, b.offset) == Some(Header(b.size, b.kind, b.headerLen, b.payload))
    ensures HeaderMatches(data, end, b)
  {
  }

  /** The first box of a well-formed serialization is read back with its size,
      type and payload, and the later boxes follow it. */
  lemma FirstBoxDecodes(data: seq<byte>, start: nat, bs: seq<Box>, junk: seq<byte>)
    requires WellFormedTree(bs, start) && bs != []
    requires start <= |data| && data[start..] == Serialize(bs) + junk
    ensures start + bs[0].size <= |data| && bs[0].offset == start
    ensures ReadAtom(data, start) == Some(Header(bs[0].size, bs[0].kind, 8, bs[0].payload))
    ensures data[start + bs[0].size..] == Serialize(bs[1..]) + junk
  {
    var b := bs[0];
    assert WellFormedBox(b);
    SerializeHead(data, start, bs, junk);
    assert StandardHeaderBytes(b) == EncodeBigEndian(b.size, 4) + Utf8Encode(b.kind);
    StandardHeader(data, start, b.size, b.kind);
  }

  /** Where the first box's header, payload and the later boxes lie in the
      serialization. */
  lemma SerializeHead(data: seq<byte>, start: nat, bs: seq<Box>, junk: seq<byte>)
    requires bs != [] && forall k :: 0 <= k < |bs| ==> bs[k].size < Pow256(4)
    requires |Utf8Encode(bs[0].kind)| == 4 && bs[0].size == 8 + |bs[0].payload|
    requires start <= |data| && data[start..] == Serialize(bs) + junk
    ensures start + bs[0].size <= |data|
    ensures data[start..start + 8] == StandardHeaderBytes(bs[0])
    ensures data[start + 8..start + bs[0].size] == bs[0].payload
    ensures data[start + bs[0].size..] == Serialize(bs[1..]) + junk
  {
    var b := bs[0];
    var head := StandardHeaderBytes(b);
    SerializeCons(bs, junk);
    Windows(data, start, head, b.payload, Serialize(bs[1..]) + junk);
    assert |head| == 8;
  }

  /** The serialization of a non-empty forest, split at its first box. */
  lemma SerializeCons(bs: seq<Box>, junk: seq<byte>)
    requires bs != [] && forall k :: 0 <= k < |bs| ==> bs[k].size < Pow256(4)
    ensures Serialize(bs) + junk
            == StandardHeaderBytes(bs[0]) + bs[0].payload + (Serialize(bs[1..]) + junk)
  {
    Assoc(StandardHeaderBytes(bs[0]) + bs[0].payload, Serialize(bs[1..]), junk);
  }

  /** A buffer that holds three parts from `start` on, recovered by slicing. */
  lemma Windows(data: seq<byte>, start: nat, x: seq<byte>, y: seq<byte>, z: seq<byte>)
    requires start <= |data| && data[start..] == x + y + z
    ensures start + |x| + |y| <= |data|
    ensures data[start..start + |x|] == x
    ensures data[start + |x|..start + |x| + |y|] == y
    ensures data[start + |x| + |y|..] == z
  {
    var w := data[start..];
    assert forall k :: 0 <= k < |x| ==> data[start + k] == w[k] == x[k];
    assert forall k :: 0 <= k < |y| ==> data[start + |x| + k] == w[|x| + k] == y[k];
    assert forall k :: 0 <= k < |z| ==> data[start + |x| + |y| + k] == w[|x| + |y| + k] == z[k];
  }

  // ---------------------------------------------------------------------------
  // find_atoms
  // ---------------------------------------------------------------------------

  /** The boxes of a forest in pre-order: each box, then its descendants, then
      its later siblings. */
  function Preorder(bs: seq<Box>): seq<Box>
    decreases bs
  {
    if bs == [] then [] else [bs[0]] + Preorder(bs[0].children) + Preorder(bs[1..])
  }

  /** The boxes of `bs` of type `kind`, in order. */
  function OfKind(bs: seq<Box>, kind: string): seq<Box>
  {
    if bs == [] then [] else (if bs[0].kind == kind then [bs[0]] else []) + OfKind(bs[1..], kind)
  }

  /** `OfKind` keeps exactly the boxes of that type. */
  lemma {:induction false} OfKindMembers(bs: seq<Box>, kind: string)
    ensures forall b :: b in OfKind(bs, kind) <==> b in bs && b.kind == kind
  {
    if bs != [] {
      OfKindMembers(bs[1..], kind);
      assert bs == [bs[0]] + bs[1..];
    }
  }

  lemma {:induction false} OfKindAppend(a: seq<Box>, b: seq<Box>, kind: string)
    ensures OfKind(a + b, kind) == OfKind(a, kind) + OfKind(b, kind)
  {
    if a != [] {
      assert (a + b)[1..] == a[1..] + b;
      OfKindAppend(a[1..], b, kind);
    } else {
      assert a + b == b;
    }
  }

  /** The recursion find_atoms performs: a match, then the matches among its
      descendants, then those among the later siblings. */
  function Find(bs: seq<Box>, kind: string): seq<Box>
    decreases bs
  {
    if bs == [] then []
    else (if bs[0].kind == kind then [bs[0]] else []) + Find(bs[0].children, kind) + Find(bs[1..], kind)
  }

  /** find_atoms returns exactly the boxes of the tree of the given type, in
      pre-order; so a match precedes the matches below it, siblings come left to
      right, and the result is empty when no box has that type. */
  lemma {:induction false} FindIsPreorderFilter(bs: seq<Box>, kind: string)
    ensures Find(bs, kind) == OfKind(Preorder(bs), kind)
    decreases bs
  {
    if bs != [] {
      FindIsPreorderFilter(bs[0].children, kind);
      FindIsPreorderFilter(bs[1..], kind);
      OfKindAppend([bs[0]] + Preorder(bs[0].children), Preorder(bs[1..]), kind);
      OfKindAppend([bs[0]], Preorder(bs[0].children), kind);
    }
  }

  /** So find_atoms returns a box exactly when it occurs somewhere in the tree
      with the given type, and nothing when no box has that type. */
  lemma FindMembers(bs: seq<Box>, kind: string)
    ensures forall b :: b in Find(bs, kind) <==> b in Preorder(bs) && b.kind == kind
    ensures Find(bs, kind) == [] <==> forall b :: b in Preorder(bs) ==> b.kind != kind
  {
    FindIsPreorderFilter(bs, kind);
    OfKindMembers(Preorder(bs), kind);
    var r := Find(bs, kind);
    if r != [] {
      assert r[0] in r;
    }
  }

  lemma {:induction false} FindAppend(a: seq<Box>, b: seq<Box>, kind: string)
    ensures Find(a + b, kind) == Find(a, kind) + Find(b, kind)
    decreases a
  {
    if a != [] {
      assert (a + b)[0] == a[0] && (a + b)[1..] == a[1..] + b;
      FindAppend(a[1..], b, kind);
    } else {
      assert a + b == b;
    }
  }

  /** find_atoms: the loop over one level, recursing into the children of every
      box that has any. */
  method FindAtoms(atoms: seq<Box>, kind: string) returns (res: seq<Box>)
    ensures res == OfKind(Preorder(atoms), kind)
    decreases atoms
  {
    res := [];
    for i := 0 to |atoms|
      invariant res == Find(atoms[..i], kind)
    {
      var a := atoms[i];
      FindPrefixStep(atoms, i, kind);
      if a.kind == kind {
        res := res + [a];
      }
      if a.children != [] {
        var sub := FindAtoms(a.children, kind);
        FindIsPreorderFilter(a.children, kind);
        res := res + sub;
      }
    }
    assert atoms[..|atoms|] == atoms;
    FindIsPreorderFilter(atoms, kind);
  }

  /** Extending the prefix by one box adds that box's matches. */
  lemma FindPrefixStep(atoms: seq<Box>, i: nat, kind: string)
    requires i < |atoms|
    ensures Find(atoms[..i + 1], kind) ==
      Find(atoms[..i], kind) + (if atoms[i].kind == kind then [atoms[i]] else []) + Find(atoms[i].children, kind)
  {
    var a := atoms[i];
    assert atoms[..i + 1] == atoms[..i] + [a];
    FindAppend(atoms[..i], [a], kind);
    assert [a][1..] == [];
  }

  lemma FindSingle(a: Box, kind: string)
    ensures Find([a], kind) == (if a.kind == kind then [a] else []) + Find(a.children, kind)
  {
    assert [a][1..] == [];
  }

  // ---------------------------------------------------------------------------
  // show_atoms
  // ---------------------------------------------------------------------------

  function Repeat(s: string, n: nat): (r: string)
    ensures |r| == n * |s|
  {
    if n == 0 then "" else s + Repeat(s, n - 1)
  }

  /** The indentation of a line at nesting depth `d`: nothing at depth 0,
      otherwise `"|   "` for each level above the parent and `"|___"`. */
  function Prefix(d: nat): string
  {
    if d == 0 then "" else Repeat("|   ", d - 1) + "|___"
  }

  /** The text shown for one box: type, offset and size. */
  function Info(b: Box): string
  {
    b.kind + " offset:" + NatToString(b.offset) + " size:" + NatToString(b.size)
  }

  /** One printed line: a box and its nesting depth. */
  datatype Row = Row(box: Box, depth: nat)

  /** The line show_atoms prints for a row. */
  function Line(r: Row): string
  {
    Prefix(r.depth) + Info(r.box)
  }

  /** The rows show_atoms prints for the forest `bs` at depth `d`: each box at
      depth `d`, then its children's rows one level deeper, then its later
      siblings' rows. */
  function Rows(bs: seq<Box>, d: nat): seq<Row>
    decreases bs
  {
    if bs == [] then [] else [Row(bs[0], d)] + Rows(bs[0].children, d + 1) + Rows(bs[1..], d)
  }

  /** The printed lines are the lines of the rows, one each. */
  predicate Shows(lines: seq<string>, rows: seq<Row>)
  {
    |lines| == |rows| && forall k :: 0 <= k < |lines| ==> lines[k] == Line(rows[k])
  }

  /** The indentation is four characters per level, and every level but the
      innermost reads `"|   "`, the innermost `"|___"`. */
  lemma {:induction false} PrefixShape(d: nat)
    ensures |Prefix(d)| == 4 * d
    ensures forall j :: 0 <= j < d - 1 ==> Prefix(d)[4 * j..4 * j + 4] == "|   "
    ensures d >= 1 ==> Prefix(d)[4 * d - 4..] == "|___"
  {
    if d >= 1 {
      RepeatBlocks("|   ", d - 1);
      var r := Repeat("|   ", d - 1);
      forall j | 0 <= j < d - 1 ensures Prefix(d)[4 * j..4 * j + 4] == "|   " {
        assert j * |"|   "| == 4 * j;
        assert r[j * 4..j * 4 + 4] == "|   ";
        assert Prefix(d)[4 * j..4 * j + 4] == r[4 * j..4 * j + 4];
      }
    }
  }

  lemma {:induction false} RepeatBlocks(s: string, n: nat)
    ensures forall j :: 0 <= j < n ==> Repeat(s, n)[j * |s|..j * |s| + |s|] == s
  {
    if n > 0 {
      RepeatBlocks(s, n - 1);
      var r := Repeat(s, n);
      forall j | 0 <= j < n ensures r[j * |s|..j * |s| + |s|] == s {
        if j > 0 {
          assert r[j * |s|..j * |s| + |s|] == Repeat(s, n - 1)[(j - 1) * |s|..(j - 1) * |s| + |s|];
        }
      }
    }
  }

  /** Row `i` shows the `i`-th box of the pre-order, at depth `d` or deeper. */
  lemma {:induction false} RowsAt(bs: seq<Box>, d: nat, i: nat)
    requires i < |Preorder(bs)|
    ensures |Rows(bs, d)| == |Preorder(bs)|
    ensures Rows(bs, d)[i].box == Preorder(bs)[i] && Rows(bs, d)[i].depth >= d
    decreases bs
  {
    var b := bs[0];
    RowsLength(b.children, d + 1);
    RowsLength(bs[1..], d);
    var r1, p1 := Rows(b.children, d + 1), Preorder(b.children);
    var r2, p2 := Rows(bs[1..], d), Preorder(bs[1..]);
    IndexThree(Row(b, d), r1, r2, i);
    IndexThree(b, p1, p2, i);
    if 0 < i <= |p1| {
      RowsAt(b.children, d + 1, i - 1);
    } else if i > |p1| {
      RowsAt(bs[1..], d, i - 1 - |p1|);
    }
  }

  lemma {:induction false} RowsLength(bs: seq<Box>, d: nat)
    ensures |Rows(bs, d)| == |Preorder(bs)|
    decreases bs
  {
    if bs != [] {
      RowsLength(bs[0].children, d + 1);
      RowsLength(bs[1..], d);
    }
  }

  /** Element `i` of `[x] + b + c`. */
  lemma IndexThree<T>(x: T, b: seq<T>, c: seq<T>, i: nat)
    requires i < 1 + |b| + |c|
    ensures ([x] + b + c)[i] == if i == 0 then x else if i <= |b| then b[i - 1] else c[i - 1 - |b|]
  {
  }

  /** show_atoms prints exactly one row per box, in pre-order (a parent before
      its children, siblings in order): row `i` is for the `i`-th box of the
      pre-order, at a depth no smaller than the starting depth `d`. */
  lemma RowsArePreorder(bs: seq<Box>, d: nat)
    ensures |Rows(bs, d)| == |Preorder(bs)|
    ensures forall i :: 0 <= i < |Rows(bs, d)| ==>
      Rows(bs, d)[i].box == Preorder(bs)[i] && Rows(bs, d)[i].depth >= d
  {
    RowsLength(bs, d);
    forall i | 0 <= i < |Rows(bs, d)|
      ensures Rows(bs, d)[i].box == Preorder(bs)[i] && Rows(bs, d)[i].depth >= d
    {
      RowsAt(bs, d, i);
    }
  }

  lemma {:induction false} RowsAppend(a: seq<Box>, b: seq<Box>, d: nat)
    ensures Rows(a + b, d) == Rows(a, d) + Rows(b, d)
    decreases a
  {
    if a != [] {
      assert (a + b)[0] == a[0] && (a + b)[1..] == a[1..] + b;
      RowsAppend(a[1..], b, d);
    } else {
      assert a + b == b;
    }
  }

  /** Lines that show two runs of rows, one after the other. */
  lemma ShowsAppend(l1: seq<string>, r1: seq<Row>, l2: seq<string>, r2: seq<Row>)
    requires Shows(l1, r1) && Shows(l2, r2)
    ensures Shows(l1 + l2, r1 + r2)
  {
    var ls, rs := l1 + l2, r1 + r2;
    forall k | 0 <= k < |ls| ensures ls[k] == Line(rs[k]) {
      if k < |l1| {
        assert ls[k] == l1[k] && rs[k] == r1[k];
      } else {
        assert ls[k] == l2[k - |l1|] && rs[k] == r2[k - |l1|];
      }
    }
  }

  /** show_atoms: print a line per box of this level and, right after a box with
      children, the lines of its children one level deeper. The printed lines
      are returned instead. */
  method ShowAtoms(atoms: seq<Box>, depth: nat) returns (lines: seq<string>)
    ensures Shows(lines, Rows(atoms, depth))
    decreases atoms
  {
    lines := [];
    for i := 0 to |atoms|
      invariant Shows(lines, Rows(atoms[..i], depth))
    {
      var atom := atoms[i];
      var row := Row(atom, depth);
      RowsPrefixStep(atoms, i, depth);
      ShowsAppend(lines, Rows(atoms[..i], depth), [Line(row)], [row]);
      lines := lines + [Line(row)];
      var sub := [];
      if atom.children != [] {
        sub := ShowAtoms(atom.children, depth + 1);
      }
      ShowsAppend(lines, Rows(atoms[..i], depth) + [row], sub, Rows(atom.children, depth + 1));
      lines := lines + sub;
    }
    assert atoms[..|atoms|] == atoms;
  }

  /** Extending the prefix by one box adds its row and its children's rows. */
  lemma RowsPrefixStep(atoms: seq<Box>, i: nat, d: nat)
    requires i < |atoms|
    ensures Rows(atoms[..i + 1], d) ==
      Rows(atoms[..i], d) + [Row(atoms[i], d)] + Rows(atoms[i].children, d + 1)
  {
    var a := atoms[i];
    assert atoms[..i + 1] == atoms[..i] + [a];
    RowsAppend(atoms[..i], [a], d);
    assert [a][1..] == [];
  }
}
