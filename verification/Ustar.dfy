/**
 * The ustar member header: the printer `tarHeader` and the parser
 * `parseTarHeader` of packages/db/src/archive.ts.
 *
 * Text is handled as the bytes it encodes to. The layout is the one of the
 * "ustar Interchange Format" section of `pax` in POSIX.1-2017.
 */
module Ustar {
  import opened Wrappers

  type byte = x: int | 0 <= x < 256
  type bytes = seq<byte>

  const TAR_BLOCK := 512
  const NAME_LIMIT := 100
  const SIZE_LIMIT := 8 * 1024 * 1024 * 1024
  const CHECKSUM_OFFSET := 148
  const CHECKSUM_LENGTH := 8

  datatype Header = Header(name: bytes, size: nat)

  datatype HeaderError =
    | BadName | BadSize | TruncatedBlock | BadChecksum | UnreadableSize

  // ----- fields ------------------------------------------------------------

  function Fill(n: nat, b: byte): (z: bytes)
    ensures |z| == n && forall i :: 0 <= i < n ==> z[i] == b
  {
    seq(n, _ => b)
  }

  function Zeros(n: nat): (z: bytes)
    ensures |z| == n && forall i :: 0 <= i < n ==> z[i] == 0
  {
    Fill(n, 0)
  }

  /** `value.toString(8)`. */
  function OctalDigits(v: nat): (ds: bytes)
    ensures ds != [] && forall i :: 0 <= i < |ds| ==> 48 <= ds[i] <= 55
  {
    if v < 8 then [48 + v] else OctalDigits(v / 8) + [48 + v % 8]
  }

  /** `text.padStart(n, "0")`. */
  function PadStart(text: bytes, n: nat): bytes {
    if |text| >= n then text else Fill(n - |text|, 48) + text
  }

  /** A fixed-width field: cut when the text is too long, NUL-filled when short. */
  function Ascii(text: bytes, length: nat): (f: bytes)
    ensures |f| == length
  {
    if |text| >= length then text[..length] else text + Zeros(length - |text|)
  }

  function Octal(v: nat, length: nat): (f: bytes)
    requires length > 0
    ensures |f| == length
  {
    Ascii(PadStart(OctalDigits(v), length - 1), length)
  }

  function Sum(b: bytes): nat {
    if b == [] then 0 else Sum(b[..|b| - 1]) + b[|b| - 1]
  }

  function ChecksumField(sum: nat): (f: bytes)
    ensures |f| == CHECKSUM_LENGTH
  {
    Ascii(PadStart(OctalDigits(sum), 6) + [0, 32], CHECKSUM_LENGTH)
  }

  const USTAR: bytes := [0x75, 0x73, 0x74, 0x61, 0x72]
  const VERSION: bytes := [0x30, 0x30]

  /** Everything in front of the checksum field. */
  function Front(name: bytes, size: nat): (f: bytes)
    ensures |f| == CHECKSUM_OFFSET
  {
    Ascii(name, NAME_LIMIT) + Octal(0x1A4, 8) + Octal(0, 8) + Octal(0, 8) + Octal(size, 12) + Octal(0, 12)
  }

  /** Everything behind the checksum field. */
  function Back(): (f: bytes)
    ensures |f| == TAR_BLOCK - CHECKSUM_OFFSET - CHECKSUM_LENGTH
  {
    [0x30] + Zeros(100) + Ascii(USTAR, 6) + Ascii(VERSION, 2) + Zeros(247)
  }

  function HeaderSum(front: bytes, back: bytes): nat {
    Sum(front) + CHECKSUM_LENGTH * 32 + Sum(back)
  }

  /** The 512 bytes a header for `name` and `size` has to be. */
  function HeaderBytes(name: bytes, size: nat): (h: bytes)
    ensures |h| == TAR_BLOCK
  {
    Front(name, size) + ChecksumField(HeaderSum(Front(name, size), Back())) + Back()
  }

  predicate Printable(name: bytes, size: int) {
    0 < |name| <= NAME_LIMIT && 0 <= size
  }

  // ----- the printer -------------------------------------------------------

  /** `header.set(field, offset)`. */
  method SetField(header: array<byte>, field: bytes, offset: nat)
    requires offset + |field| <= header.Length
    modifies header
    ensures header[..] == old(header[..offset]) + field + old(header[offset + |field|..])
  {
    for i := 0 to |field|
      invariant header[offset..offset + i] == field[..i]
      invariant forall k :: 0 <= k < header.Length && !(offset <= k < offset + i) ==> header[k] == old(header[k])
    {
      header[offset + i] := field[i];
    }
  }

  /** One more field behind the part of a header that is written already. */
  method AppendField(header: array<byte>, field: bytes, offset: nat)
    requires header.Length == TAR_BLOCK && offset + |field| <= TAR_BLOCK && AllZero(header[offset..])
    modifies header
    ensures header[..offset + |field|] == old(header[..offset]) + field && AllZero(header[offset + |field|..])
  {
    assert forall k :: offset <= k < TAR_BLOCK ==> header[k] == header[offset..][k - offset];
    SetField(header, field, offset);
  }

  method WriteChecksum(header: array<byte>)
    requires header.Length == TAR_BLOCK
    modifies header
    ensures header[..] ==
            old(header[..CHECKSUM_OFFSET])
            + ChecksumField(HeaderSum(old(header[..CHECKSUM_OFFSET]), old(header[CHECKSUM_OFFSET + CHECKSUM_LENGTH..])))
            + old(header[CHECKSUM_OFFSET + CHECKSUM_LENGTH..])
  {
    ghost var front, back := header[..CHECKSUM_OFFSET], header[CHECKSUM_OFFSET + CHECKSUM_LENGTH..];
    SetField(header, Fill(CHECKSUM_LENGTH, 32), CHECKSUM_OFFSET);
    assert header[..] == front + Fill(CHECKSUM_LENGTH, 32) + back;
    var sum: int := 0;
    for i := 0 to header.Length
      invariant sum == Sum(header[..i])
    {
      assert header[..i + 1][..i] == header[..i];
      sum := sum + header[i];
    }
    assert header[..header.Length] == header[..];
    SumOfThree(front, back);
    SetField(header, ChecksumField(sum), CHECKSUM_OFFSET);
  }

  method WriteFront(header: array<byte>, name: bytes, size: nat)
    requires header.Length == TAR_BLOCK && AllZero(header[..])
    modifies header
    ensures header[..CHECKSUM_OFFSET] == Front(name, size) && AllZero(header[CHECKSUM_OFFSET..])
  {
    assert header[..0] == [] && header[0..] == header[..];
    AppendField(header, Ascii(name, NAME_LIMIT), 0);
    AppendField(header, Octal(0x1A4, 8), 100);
    AppendField(header, Octal(0, 8), 108);
    AppendField(header, Octal(0, 8), 116);
    AppendField(header, Octal(size, 12), 124);
    AppendField(header, Octal(0, 12), 136);
  }

  method WriteBack(header: array<byte>)
    requires header.Length == TAR_BLOCK && AllZero(header[CHECKSUM_OFFSET..])
    modifies header
    ensures header[..CHECKSUM_OFFSET] == old(header[..CHECKSUM_OFFSET])
    ensures header[CHECKSUM_OFFSET + CHECKSUM_LENGTH..] == Back()
  {
    ghost var front := header[..156];
    assert forall k :: 156 <= k < TAR_BLOCK ==> header[k] == header[CHECKSUM_OFFSET..][k - CHECKSUM_OFFSET];
    AppendField(header, [0x30], 156);
    ghost var gap := header[157..257];
    assert forall k :: 157 <= k < TAR_BLOCK ==> header[k] == header[157..][k - 157];
    assert gap == Zeros(100);
    assert header[..257] == front + [0x30] + gap;
    AppendField(header, Ascii(USTAR, 6), 257);
    AppendField(header, Ascii(VERSION, 2), 263);
    ghost var done := header[..265];
    assert header[265..] == Zeros(247);
    assert header[..] == done + Zeros(247);
    assert done == front + ([0x30] + gap + Ascii(USTAR, 6) + Ascii(VERSION, 2));
    assert header[156..] == [0x30] + gap + Ascii(USTAR, 6) + Ascii(VERSION, 2) + Zeros(247);
  }

  method TarHeader(name: bytes, size: int) returns (r: Result<array<byte>, HeaderError>)
    ensures Printable(name, size) ==>
              r.Ok? && fresh(r.value) && r.value.Length == TAR_BLOCK && r.value[..] == HeaderBytes(name, size)
    ensures r.Ok? <==> 1 <= |name| <= 100 && size >= 0
    ensures !(1 <= |name| <= 100) ==> r == Err(BadName)
    ensures 1 <= |name| <= 100 && size < 0 ==> r == Err(BadSize)
  {
    if |name| == 0 || |name| > NAME_LIMIT { return Err(BadName); }
    if size < 0 { return Err(BadSize); }
    var header := new byte[TAR_BLOCK](_ => 0);
    WriteFront(header, name, size);
    WriteBack(header);
    WriteChecksum(header);
    r := Ok(header);
  }

  // ----- the parser --------------------------------------------------------

  predicate IsSpace(b: byte) { b == 32 || 9 <= b <= 13 }

  /** The bytes before the first NUL. */
  function CString(b: bytes): bytes {
    if b == [] || b[0] == 0 then [] else [b[0]] + CString(b[1..])
  }

  function TrimStart(b: bytes): bytes {
    if b != [] && IsSpace(b[0]) then TrimStart(b[1..]) else b
  }

  function TrimEnd(b: bytes): bytes {
    if b != [] && IsSpace(b[|b| - 1]) then TrimEnd(b[..|b| - 1]) else b
  }

  function Trim(b: bytes): bytes { TrimEnd(TrimStart(b)) }

  /** The longest run of octal digits `b` starts with. */
  function LeadingDigits(b: bytes): bytes {
    if b != [] && 48 <= b[0] <= 55 then [b[0]] + LeadingDigits(b[1..]) else []
  }

  function Value(ds: bytes): int {
    if ds == [] then 0 else Value(ds[..|ds| - 1]) * 8 + (ds[|ds| - 1] as int - 48)
  }

  /** `Number.parseInt(text, 8)`, with None for NaN. */
  function ParseOctal(text: bytes): Option<int> {
    var t := TrimStart(text);
    var signed := t != [] && (t[0] == 43 || t[0] == 45);
    var ds := LeadingDigits(if signed then t[1..] else t);
    if ds == [] then None else Some(if signed && t[0] == 45 then -Value(ds) else Value(ds))
  }

  function FieldValue(field: bytes): Option<int> { ParseOctal(Trim(CString(field))) }

  predicate ChecksumHolds(block: bytes)
    requires |block| >= TAR_BLOCK
  {
    FieldValue(block[CHECKSUM_OFFSET..CHECKSUM_OFFSET + CHECKSUM_LENGTH])
    == Some(HeaderSum(block[..CHECKSUM_OFFSET], block[CHECKSUM_OFFSET + CHECKSUM_LENGTH..TAR_BLOCK]))
  }

  predicate AllZero(block: bytes) { forall i :: 0 <= i < |block| ==> block[i] == 0 }

  /** `{ name, size }`, or None at the end marker. */
  function ParseHeader(block: bytes): Result<Option<Header>, HeaderError> {
    if |block| < TAR_BLOCK then Err(TruncatedBlock)
    else if AllZero(block) then Ok(None)
    else if !ChecksumHolds(block) then Err(BadChecksum)
    else
      match FieldValue(block[124..136])
      case None => Err(UnreadableSize)
      case Some(size) =>
        if size < 0 || size > SIZE_LIMIT then Err(UnreadableSize)
        else Ok(Some(Header(CString(block[..NAME_LIMIT]), size)))
  }

  /** The running-sum loop decides exactly `ChecksumHolds`. */
  method VerifyChecksum(block: bytes) returns (ok: bool)
    requires |block| >= TAR_BLOCK
    ensures ok <==> ChecksumHolds(block)
  {
    var stored := FieldValue(block[CHECKSUM_OFFSET..CHECKSUM_OFFSET + CHECKSUM_LENGTH]);
    var sum: int := 0;
    for i := 0 to TAR_BLOCK
      invariant i <= CHECKSUM_OFFSET ==> sum == Sum(block[..i])
      invariant CHECKSUM_OFFSET < i <= CHECKSUM_OFFSET + CHECKSUM_LENGTH ==>
                  sum == Sum(block[..CHECKSUM_OFFSET]) + 32 * (i - CHECKSUM_OFFSET)
      invariant CHECKSUM_OFFSET + CHECKSUM_LENGTH <= i ==>
                  sum == HeaderSum(block[..CHECKSUM_OFFSET], block[CHECKSUM_OFFSET + CHECKSUM_LENGTH..i])
    {
      if i < CHECKSUM_OFFSET {
        assert block[..i + 1][..i] == block[..i];
      } else if i >= CHECKSUM_OFFSET + CHECKSUM_LENGTH {
        assert block[CHECKSUM_OFFSET + CHECKSUM_LENGTH..i + 1][..i - CHECKSUM_OFFSET - CHECKSUM_LENGTH]
            == block[CHECKSUM_OFFSET + CHECKSUM_LENGTH..i];
      }
      sum := sum + if CHECKSUM_OFFSET <= i < CHECKSUM_OFFSET + CHECKSUM_LENGTH then 32 else block[i];
    }
    ok := stored == Some(sum);
  }

  method ParseTarHeader(block: bytes) returns (r: Result<Option<Header>, HeaderError>)
    ensures r == ParseHeader(block)
  {
    if |block| < TAR_BLOCK { return Err(TruncatedBlock); }
    var blank := true;
    for i := 0 to |block|
      invariant blank <==> forall k :: 0 <= k < i ==> block[k] == 0
    {
      blank := blank && block[i] == 0;
    }
    if blank { return Ok(None); }
    var ok := VerifyChecksum(block);
    if !ok { return Err(BadChecksum); }
    var size := FieldValue(block[124..136]);
    if size == None || size.value < 0 || size.value > SIZE_LIMIT { return Err(UnreadableSize); }
    r := Ok(Some(Header(CString(block[..NAME_LIMIT]), size.value)));
  }

  // ----- sums --------------------------------------------------------------

  lemma {:induction false} SumConcat(a: bytes, b: bytes)
    ensures Sum(a + b) == Sum(a) + Sum(b)
  {
    if b == [] {
      assert a + b == a;
    } else {
      assert (a + b)[..|a + b| - 1] == a + b[..|b| - 1];
      SumConcat(a, b[..|b| - 1]);
    }
  }

  lemma SumOfThree(front: bytes, back: bytes)
    ensures Sum(front + Fill(CHECKSUM_LENGTH, 32) + back) == HeaderSum(front, back)
  {
    var mid := Fill(CHECKSUM_LENGTH, 32);
    SumConcat(front + mid, back);
    SumConcat(front, mid);
    SumOfFill(CHECKSUM_LENGTH, 32);
  }

  lemma {:induction false} SumOfFill(n: nat, b: byte)
    ensures Sum(Fill(n, b)) == n * b
  {
    if n > 0 {
      assert Fill(n, b)[..n - 1] == Fill(n - 1, b);
      SumOfFill(n - 1, b);
    }
  }

  lemma {:induction false} SumUpdate(b: bytes, i: nat, x: byte)
    requires i < |b|
    ensures Sum(b[i := x]) == Sum(b) - b[i] + x
  {
    if i == |b| - 1 {
      assert b[i := x][..i] == b[..i];
    } else {
      assert b[i := x][..|b| - 1] == b[..|b| - 1][i := x];
      SumUpdate(b[..|b| - 1], i, x);
    }
  }

  lemma {:induction false} SumBound(b: bytes)
    ensures Sum(b) <= 255 * |b|
  {
    if b != [] { SumBound(b[..|b| - 1]); }
  }

  // ----- octal fields ------------------------------------------------------

  function Pow8(k: nat): nat { if k == 0 then 1 else 8 * Pow8(k - 1) }

  lemma {:induction false} ValueOfDigits(v: nat)
    ensures Value(OctalDigits(v)) == v
  {
    var ds := OctalDigits(v);
    if v >= 8 {
      assert ds[..|ds| - 1] == OctalDigits(v / 8);
      ValueOfDigits(v / 8);
    } else {
      assert ds[..0] == [];
    }
  }

  lemma {:induction false} ValueIgnoresPadding(n: nat, ds: bytes)
    ensures Value(Fill(n, 48) + ds) == Value(ds)
  {
    var all := Fill(n, 48) + ds;
    if ds != [] {
      assert all[..|all| - 1] == Fill(n, 48) + ds[..|ds| - 1];
      ValueIgnoresPadding(n, ds[..|ds| - 1]);
    } else if n > 0 {
      assert all[..|all| - 1] == Fill(n - 1, 48) + [];
      ValueIgnoresPadding(n - 1, []);
    }
  }

  lemma {:induction false} Pow8AtLeast8(k: nat)
    requires k > 0
    ensures Pow8(k) >= 8
  {
    if k > 1 { Pow8AtLeast8(k - 1); }
  }

  lemma {:induction false} DigitCount(v: nat, k: nat)
    ensures |OctalDigits(v)| <= k + 1 <==> v < Pow8(k + 1)
  {
    assert Pow8(k + 1) == 8 * Pow8(k) && Pow8(1) == 8;
    if k > 0 {
      if v >= 8 { DigitCount(v / 8, k - 1); } else { assert Pow8(k) >= 8 by { Pow8AtLeast8(k); } }
    }
  }

  /** Cutting digits off the end only makes the number smaller. */
  lemma {:induction false} CutDigits(v: nat, k: nat)
    requires k < |OctalDigits(v)|
    ensures 0 <= Value(OctalDigits(v)[..k]) && (v > 0 ==> Value(OctalDigits(v)[..k]) < v)
  {
    var ds := OctalDigits(v);
    if v >= 8 {
      assert ds[..k] == OctalDigits(v / 8)[..k];
      if k == |ds| - 1 {
        assert OctalDigits(v / 8)[..k] == OctalDigits(v / 8);
        ValueOfDigits(v / 8);
      } else {
        CutDigits(v / 8, k);
      }
    }
  }

  predicate IsDigits(ds: bytes) { forall i :: 0 <= i < |ds| ==> 48 <= ds[i] <= 55 }

  lemma {:induction false} CStringOfField(text: bytes, rest: bytes)
    requires 0 !in text
    requires rest == [] || rest[0] == 0
    ensures CString(text + rest) == text
  {
    if text == [] {
      assert text + rest == rest;
    } else {
      assert (text + rest)[1..] == text[1..] + rest;
      CStringOfField(text[1..], rest);
    }
  }

  lemma {:induction false} LeadingDigitsOfDigits(ds: bytes)
    requires IsDigits(ds)
    ensures LeadingDigits(ds) == ds
  {
    if ds != [] { LeadingDigitsOfDigits(ds[1..]); }
  }

  /** A field holding nothing but digits in front of its NUL reads back as their value. */
  lemma DigitFieldValue(ds: bytes, rest: bytes)
    requires ds != [] && IsDigits(ds)
    requires rest == [] || rest[0] == 0
    ensures FieldValue(ds + rest) == Some(Value(ds))
  {
    assert 0 !in ds;
    CStringOfField(ds, rest);
    LeadingDigitsOfDigits(ds);
    assert Trim(ds) == ds && TrimStart(ds) == ds;
  }

  lemma OctalField(v: nat, length: nat)
    requires length > 1 && v < Pow8(length)
    ensures FieldValue(Octal(v, length)) == Some(v)
  {
    DigitCount(v, length - 1);
    var ds := PadStart(OctalDigits(v), length - 1);
    ValueOfDigits(v);
    ValueIgnoresPadding(if |OctalDigits(v)| < length - 1 then length - 1 - |OctalDigits(v)| else 0, OctalDigits(v));
    DigitFieldValue(ds, Zeros(length - |ds|));
    assert Octal(v, length) == ds + Zeros(length - |ds|);
  }

  /** A size that needs more digits than its field has reads back as a smaller one. */
  lemma CutOctalField(v: nat, length: nat)
    requires length > 1 && v >= Pow8(length)
    ensures exists w :: FieldValue(Octal(v, length)) == Some(w) && w < v
  {
    DigitCount(v, length - 1);
    var ds := OctalDigits(v)[..length];
    assert Octal(v, length) == ds + [];
    DigitFieldValue(ds, []);
    CutDigits(v, length);
  }

  // ----- results -----------------------------------------------------------

  lemma ChecksumOfPrinted(name: bytes, size: nat)
    ensures ChecksumHolds(HeaderBytes(name, size)) && !AllZero(HeaderBytes(name, size))
  {
    var h, front, back := HeaderBytes(name, size), Front(name, size), Back();
    var sum := HeaderSum(front, back);
    assert h[..CHECKSUM_OFFSET] == front;
    assert h[CHECKSUM_OFFSET + CHECKSUM_LENGTH..TAR_BLOCK] == back;
    assert h[CHECKSUM_OFFSET..CHECKSUM_OFFSET + CHECKSUM_LENGTH] == ChecksumField(sum);
    SumBound(front);
    SumBound(back);
    assert Pow8(6) == 262144;
    DigitCount(sum, 5);
    var ds := PadStart(OctalDigits(sum), 6);
    ValueOfDigits(sum);
    ValueIgnoresPadding(6 - |OctalDigits(sum)|, OctalDigits(sum));
    assert ChecksumField(sum) == ds + [0, 32];
    DigitFieldValue(ds, [0, 32]);
    assert h[156] == 0x30;
  }

  /** Seven digits and a NUL. */
  lemma ZeroField(length: nat)
    requires length > 1
    ensures Octal(0, length) == Fill(length - 1, 48) + [0]
  {
    assert OctalDigits(0) == [48];
    assert PadStart([48], length - 1) == Fill(length - 1, 48);
  }

  lemma ModeField()
    ensures Octal(0x1A4, 8) == [0x30, 0x30, 0x30, 0x30, 0x36, 0x34, 0x34, 0]
  {
    assert OctalDigits(6) == [0x36];
    assert OctalDigits(52) == [0x36] + [0x34];
    assert OctalDigits(420) == [0x36] + [0x34] + [0x34];
    assert PadStart(OctalDigits(420), 7) == [0x30, 0x30, 0x30, 0x30, 0x36, 0x34, 0x34];
  }

  /**
   * The header is one of a regular file, field by field where the standard puts them:
   * the name with zeros behind it, mode 0644, no owner, no time, type flag '0', no link,
   * "ustar" and version "00", and nothing after that.
   */
  lemma HeaderIsUstar(name: bytes, size: nat)
    requires Printable(name, size)
    ensures var h := HeaderBytes(name, size);
            && h[..|name|] == name && (forall i :: |name| <= i < 100 ==> h[i] == 0)
            && h[100..108] == [0x30, 0x30, 0x30, 0x30, 0x36, 0x34, 0x34, 0]
            && h[108..116] == h[116..124] == [0x30, 0x30, 0x30, 0x30, 0x30, 0x30, 0x30, 0]
            && (forall i :: 136 <= i < 147 ==> h[i] == 0x30) && h[147] == 0
            && h[154] == 0 && h[155] == 0x20
            && h[156] == 0x30 && (forall i :: 157 <= i < 257 ==> h[i] == 0)
            && h[257..265] == [0x75, 0x73, 0x74, 0x61, 0x72, 0, 0x30, 0x30]
            && (forall i :: 265 <= i < 512 ==> h[i] == 0)
  {
    var h, front, back := HeaderBytes(name, size), Front(name, size), Back();
    FrontFields(name, size);
    assert h[..148] == front;
    assert forall i :: 0 <= i < 148 ==> h[i] == front[i];
    assert h[100..108] == front[100..108] && h[108..116] == front[108..116] && h[116..124] == front[116..124];
    assert h[156..] == back;
    assert forall i :: 156 <= i < 512 ==> h[i] == back[i - 156];
    assert h[257..265] == back[101..109];
    ChecksumEnds(name, size);
    hide HeaderBytes, Front, ChecksumField, HeaderSum;
    assert back[101..107] == Ascii(USTAR, 6) && back[107..109] == Ascii(VERSION, 2);
    assert back[101..109] == Ascii(USTAR, 6) + Ascii(VERSION, 2);
    assert Ascii(USTAR, 6) == USTAR + Zeros(1) && Ascii(VERSION, 2) == VERSION;
  }

  lemma FrontFields(name: bytes, size: nat)
    requires Printable(name, size)
    ensures var front := Front(name, size);
            && front[..|name|] == name && (forall i :: |name| <= i < 100 ==> front[i] == 0)
            && front[100..108] == [0x30, 0x30, 0x30, 0x30, 0x36, 0x34, 0x34, 0]
            && front[108..116] == front[116..124] == [0x30, 0x30, 0x30, 0x30, 0x30, 0x30, 0x30, 0]
            && (forall i :: 136 <= i < 147 ==> front[i] == 0x30) && front[147] == 0
  {
    ModeField();
    ZeroField(8);
    ZeroField(12);
    hide Octal;
    var front := Front(name, size);
    assert front[..100] == Ascii(name, 100) == name + Zeros(100 - |name|);
    assert front[100..108] == Octal(0x1A4, 8) && front[108..116] == Octal(0, 8) && front[116..124] == Octal(0, 8);
    assert front[136..148] == Octal(0, 12);
    assert forall i :: 136 <= i < 148 ==> front[i] == front[136..148][i - 136];
    assert forall i :: 0 <= i < 100 ==> front[i] == front[..100][i];
  }

  lemma ChecksumEnds(name: bytes, size: nat)
    ensures HeaderBytes(name, size)[154] == 0 && HeaderBytes(name, size)[155] == 0x20
  {
    var h, front, back := HeaderBytes(name, size), Front(name, size), Back();
    var sum := HeaderSum(front, back);
    SumBound(front);
    SumBound(back);
    assert Pow8(6) == 262144;
    DigitCount(sum, 5);
    assert h[148..156] == ChecksumField(sum) == PadStart(OctalDigits(sum), 6) + [0, 32];
    assert h[154] == h[148..156][6] && h[155] == h[148..156][7];
  }

  /**
   * The header round trip, with its exact domain: a printed header reads back as
   * the name and size it was printed from if and only if the name is free of NUL
   * bytes and the size is at most 8 GiB.
   */
  lemma HeaderRoundTrip(name: bytes, size: nat)
    requires Printable(name, size)
    ensures ParseHeader(HeaderBytes(name, size)) == Ok(Some(Header(name, size)))
            <==> 0 !in name && size <= 8_589_934_592
  {
    var h := HeaderBytes(name, size);
    ChecksumOfPrinted(name, size);
    assert h[124..136] == Octal(size, 12);
    assert h[..NAME_LIMIT] == Ascii(name, NAME_LIMIT) == name + Zeros(NAME_LIMIT - |name|);
    assert Pow8(11) == SIZE_LIMIT && Pow8(12) == 8 * SIZE_LIMIT;
    if size < Pow8(12) {
      OctalField(size, 12);
    } else {
      CutOctalField(size, 12);
    }
    if 0 !in name {
      CStringOfField(name, Zeros(NAME_LIMIT - |name|));
    } else {
      CStringHasNoNul(h[..NAME_LIMIT]);
    }
  }

  lemma {:induction false} CStringHasNoNul(b: bytes)
    ensures 0 !in CString(b)
  {
    if b != [] && b[0] != 0 { CStringHasNoNul(b[1..]); }
  }

  lemma NumberFieldNotBlank(field: bytes)
    requires FieldValue(field) != None
    ensures field != [] && field[0] != 0
  {
    assert Trim([]) == [];
  }

  /**
   * Any block the parser accepts as a member header is refused once any single
   * byte outside its checksum field is changed.
   */
  lemma ByteChangeRefused(block: bytes, i: nat, b: byte)
    requires ParseHeader(block).Ok? && ParseHeader(block).value.Some?
    requires i < TAR_BLOCK && !(CHECKSUM_OFFSET <= i < CHECKSUM_OFFSET + CHECKSUM_LENGTH)
    requires b != block[i]
    ensures ParseHeader(block[i := b]) == Err(BadChecksum)
  {
    var changed := block[i := b];
    var lo, hi := CHECKSUM_OFFSET, CHECKSUM_OFFSET + CHECKSUM_LENGTH;
    assert changed[lo..hi] == block[lo..hi];
    NumberFieldNotBlank(block[lo..hi]);
    assert changed[lo] == block[lo] != 0;
    if i < lo {
      assert changed[..lo] == block[..lo][i := b];
      assert changed[hi..TAR_BLOCK] == block[hi..TAR_BLOCK];
      SumUpdate(block[..lo], i, b);
    } else {
      assert changed[hi..TAR_BLOCK] == block[hi..TAR_BLOCK][i - hi := b];
      assert changed[..lo] == block[..lo];
      SumUpdate(block[hi..TAR_BLOCK], i - hi, b);
    }
  }

  // ----- what any block is read as ------------------------------------------

  lemma {:induction false} LeadingDigitsStop(ds: bytes, rest: bytes)
    requires IsDigits(ds) && (rest == [] || !(48 <= rest[0] <= 55))
    ensures LeadingDigits(ds + rest) == ds
  {
    if ds == [] {
      assert ds + rest == rest;
    } else {
      assert (ds + rest)[1..] == ds[1..] + rest;
      LeadingDigitsStop(ds[1..], rest);
    }
  }

  lemma {:induction false} LeadingDigitsLead(b: bytes)
    ensures var n := |LeadingDigits(b)|;
            n <= |b| && LeadingDigits(b) == b[..n] && IsDigits(b[..n]) && (n < |b| ==> !(48 <= b[n] <= 55))
  {
    if b != [] && 48 <= b[0] <= 55 { LeadingDigitsLead(b[1..]); }
  }

  lemma {:induction false} TrimEndIsPrefix(b: bytes)
    ensures TrimEnd(b) <= b && |LeadingDigits(TrimEnd(b))| == |LeadingDigits(b)|
    ensures LeadingDigits(TrimEnd(b)) == LeadingDigits(b)
  {
    if b != [] && IsSpace(b[|b| - 1]) {
      TrimEndIsPrefix(b[..|b| - 1]);
      LeadingDigitsLead(b);
      var ds := LeadingDigits(b);
      assert b[..|b| - 1] == ds + b[|ds|..|b| - 1];
      LeadingDigitsStop(ds, b[|ds|..|b| - 1]);
    }
  }

  lemma {:induction false} TrimEndKeepsFirst(b: bytes)
    requires b != [] && !IsSpace(b[0])
    ensures TrimEnd(b) == [b[0]] + TrimEnd(b[1..])
  {
    if |b| > 1 && IsSpace(b[|b| - 1]) {
      TrimEndKeepsFirst(b[..|b| - 1]);
      assert b[..|b| - 1][1..] == b[1..][..|b| - 2];
    }
  }

  lemma {:induction false} TrimStartTrims(b: bytes)
    ensures TrimStart(b) == [] || !IsSpace(TrimStart(b)[0])
    ensures |TrimStart(b)| <= |b|
    ensures var i := |b| - |TrimStart(b)|; TrimStart(b) == b[i..] && forall k :: 0 <= k < i ==> IsSpace(b[k])
  {
    if b != [] && IsSpace(b[0]) { TrimStartTrims(b[1..]); }
  }

  lemma TrimmingIsInvisible(b: bytes)
    ensures ParseOctal(Trim(b)) == ParseOctal(b)
  {
    var t := TrimStart(b);
    TrimStartTrims(b);
    TrimEndIsPrefix(t);
    if t != [] {
      TrimEndKeepsFirst(t);
      TrimEndIsPrefix(t[1..]);
      assert TrimEnd(t)[1..] == TrimEnd(t[1..]);
    }
  }

  lemma {:induction false} DigitsBeforeNul(b: bytes)
    ensures LeadingDigits(CString(b)) == LeadingDigits(b)
  {
    if b != [] && b[0] != 0 { DigitsBeforeNul(b[1..]); }
  }

  lemma {:induction false} NulEndsNumber(b: bytes)
    ensures ParseOctal(CString(b)) == ParseOctal(b)
  {
    hide Value;
    if b != [] && b[0] != 0 {
      assert CString(b)[1..] == CString(b[1..]);
      if IsSpace(b[0]) {
        NulEndsNumber(b[1..]);
      } else {
        DigitsBeforeNul(b);
        DigitsBeforeNul(b[1..]);
      }
    }
  }

  predicate Octals(b: bytes, s: nat, j: nat) { j <= |b| && forall k :: s <= k < j ==> 48 <= b[k] <= 55 }

  /** Blanks, a sign or none, and then octal digits up to something that is none. */
  predicate Reads(field: bytes, i: nat, s: nat, j: nat, v: int) {
    && i <= s < j <= |field|
    && (forall k :: 0 <= k < i ==> field[k] in {9, 10, 11, 12, 13, 32})
    && (s == i || (s == i + 1 && field[i] in {43, 45}))
    && Octals(field, s, j)
    && (j == |field| || !(48 <= field[j] <= 55))
    && v == if field[i] == 45 then -Value(field[s..j]) else Value(field[s..j])
  }

  lemma {:induction false} FirstNonBlank(b: bytes, i: nat)
    requires i < |b| && !IsSpace(b[i]) && forall k :: 0 <= k < i ==> IsSpace(b[k])
    ensures TrimStart(b) == b[i..]
  {
    if i > 0 { FirstNonBlank(b[1..], i - 1); }
  }

  lemma TrimmedIsRead(t: bytes, v: int) returns (s: nat, j: nat)
    requires t != [] && !IsSpace(t[0]) && ParseOctal(t) == Some(v)
    ensures Reads(t, 0, s, j, v)
  {
    s := if t[0] == 43 || t[0] == 45 then 1 else 0;
    var n := |LeadingDigits(t[s..])|;
    j := s + n;
    LeadingDigitsLead(t[s..]);
    hide Value, LeadingDigits;
    assert t[s..][..n] == t[s..j];
    assert Octals(t, s, j) by { assert forall k :: s <= k < j ==> t[k] == t[s..][..n][k - s]; }
  }

  lemma TrimmedReadIsField(t: bytes, s: nat, j: nat, v: int)
    requires Reads(t, 0, s, j, v)
    ensures t != [] && !IsSpace(t[0]) && ParseOctal(t) == Some(v)
  {
    hide Value;
    assert t[s..] == t[s..j] + t[j..];
    LeadingDigitsStop(t[s..j], t[j..]);
  }

  lemma ReadsBehindBlanks(field: bytes, i: nat, s: nat, j: nat, v: int)
    requires i <= |field| && forall k :: 0 <= k < i ==> IsSpace(field[k])
    ensures Reads(field[i..], 0, s, j, v) <==> Reads(field, i, i + s, i + j, v)
  {
    hide Value;
    var t := field[i..];
    if i + j <= |field| && s <= j { Shifted(field, i, s, j); }
    assert forall k :: 0 <= k < |t| ==> t[k] == field[i + k];
    assert Octals(t, s, j) <==> Octals(field, i + s, i + j);
  }

  lemma Shifted(b: bytes, i: nat, s: nat, j: nat)
    requires s <= j && i + j <= |b|
    ensures b[i..][s..j] == b[i + s..i + j]
  {
  }

  lemma FieldIsRead(field: bytes, v: int)
    requires FieldValue(field) == Some(v)
    ensures exists i, s, j :: Reads(field, i, s, j, v)
  {
    NulEndsNumber(field);
    TrimmingIsInvisible(CString(field));
    TrimStartTrims(field);
    var t := TrimStart(field);
    assert t != [] && ParseOctal(t) == Some(v);
    hide Reads, LeadingDigits, Value;
    var s, j := TrimmedIsRead(t, v);
    ReadsBehindBlanks(field, |field| - |t|, s, j, v);
  }

  lemma ReadIsField(field: bytes, i: nat, s: nat, j: nat, v: int)
    requires Reads(field, i, s, j, v)
    ensures FieldValue(field) == Some(v)
  {
    NulEndsNumber(field);
    TrimmingIsInvisible(CString(field));
    ReadsBehindBlanks(field, i, s - i, j - i, v);
    FirstNonBlank(field, i);
    hide Reads, Value, LeadingDigits, CString, Trim;
    TrimmedReadIsField(field[i..], s - i, j - i, v);
  }

  /** What a number field holds, whatever its bytes are. */
  lemma FieldReadsExactly(field: bytes, v: int)
    ensures FieldValue(field) == Some(v) <==> exists i, s, j :: Reads(field, i, s, j, v)
  {
    hide FieldValue, Reads;
    if FieldValue(field) == Some(v) { FieldIsRead(field, v); }
    if i: nat, s: nat, j: nat :| Reads(field, i, s, j, v) { ReadIsField(field, i, s, j, v); }
  }

  ghost predicate Holds(field: bytes, v: int) { exists i, s, j :: Reads(field, i, s, j, v) }

  predicate Blank(block: bytes) { forall i :: 0 <= i < |block| ==> block[i] == 0 }

  /** The checksum field holds the sum of the block with itself as spaces. */
  ghost predicate Sums(block: bytes)
    requires |block| >= 512
  {
    Holds(block[148..156], Sum(block[..148] + [32, 32, 32, 32, 32, 32, 32, 32] + block[156..512]))
  }

  ghost predicate HasSize(block: bytes, size: int)
    requires |block| >= 512
  {
    Holds(block[124..136], size) && 0 <= size <= 8_589_934_592
  }

  /** The bytes of the name field in front of its first NUL. */
  predicate HasName(block: bytes, name: bytes)
    requires |block| >= 512
  {
    |name| <= 100 && name == block[..|name|] && 0 !in name && (|name| == 100 || block[|name|] == 0)
  }

  lemma {:induction false} CStringExactly(b: bytes, text: bytes)
    ensures CString(b) == text
       <==> |text| <= |b| && text == b[..|text|] && 0 !in text && (|text| == |b| || b[|text|] == 0)
  {
    if b != [] && b[0] != 0 && text != [] { CStringExactly(b[1..], text[1..]); }
  }

  /** What any bytes are read as, refusals included. */
  lemma HeaderReadExactly(block: bytes)
    ensures ParseHeader(block) == Err(TruncatedBlock) <==> |block| < 512
    ensures ParseHeader(block) == Ok(None) <==> |block| >= 512 && Blank(block)
    ensures ParseHeader(block) == Err(BadChecksum) <==> |block| >= 512 && !Blank(block) && !Sums(block)
    ensures ParseHeader(block) == Err(UnreadableSize)
       <==> |block| >= 512 && !Blank(block) && Sums(block) && forall size :: !HasSize(block, size)
    ensures forall name, size: nat ::
              ParseHeader(block) == Ok(Some(Header(name, size)))
              <==> |block| >= 512 && !Blank(block) && Sums(block) && HasSize(block, size) && HasName(block, name)
  {
    hide FieldValue, Sum, Reads, CString;
    if |block| >= 512 {
      forall v ensures FieldValue(block[148..156]) == Some(v) <==> Holds(block[148..156], v) {
        FieldReadsExactly(block[148..156], v);
      }
      forall v ensures FieldValue(block[124..136]) == Some(v) <==> Holds(block[124..136], v) {
        FieldReadsExactly(block[124..136], v);
      }
      assert FieldValue(block[124..136]).Some? && 0 <= FieldValue(block[124..136]).value <= 8_589_934_592 ==>
          HasSize(block, FieldValue(block[124..136]).value);
      SumOfThree(block[..148], block[156..512]);
      assert Fill(8, 32) == [32, 32, 32, 32, 32, 32, 32, 32];
      forall name ensures CString(block[..100]) == name <==> HasName(block, name) {
        CStringExactly(block[..100], name);
      }
    }
  }
}
