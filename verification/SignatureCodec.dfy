/**
 The ECDSA signature codec of the licence signer: fixed-width r||s (section 3.4 of RFC 7518)
 to and from the DER SEQUENCE of two INTEGERs (section 2.2.3 of RFC 3279).
 */
module SignatureCodec {
  import opened Common

  type byte = x: int | 0 <= x < 256
  type Bytes = seq<byte>

  /** The three ways the two conversions throw. */
  datatype CodecError = OddLength | BadInteger | IntegerTooLong

  function Zeros(n: nat): (z: Bytes)
    ensures |z| == n && forall i | 0 <= i < n :: z[i] == 0
  {
    seq(n, _ => 0)
  }

  /** Big-endian value of a byte string. */
  function Value(b: Bytes): nat {
    if b == [] then 0 else Value(b[..|b| - 1]) * 256 + b[|b| - 1]
  }

  function Pow256(n: nat): (p: nat)
    ensures p > 0
  {
    if n == 0 then 1 else 256 * Pow256(n - 1)
  }

  // ---- Fixed width to DER --------------------------------------------------

  /** Leading zeros go, but the last byte always stays. */
  function SkipZeros(raw: Bytes): Bytes {
    if |raw| > 1 && raw[0] == 0 then SkipZeros(raw[1..]) else raw
  }

  /** The content octets of a positive INTEGER: a sign byte in front of a set high bit. */
  function IntegerContent(raw: Bytes): Bytes {
    var b := SkipZeros(raw);
    if b != [] && b[0] >= 0x80 then [0] + b else b
  }

  /** A buffer element keeps only the low eight bits of the length put in it. */
  function EncodeInteger(raw: Bytes): Bytes {
    var c := IntegerContent(raw);
    [0x02, |c| % 256] + c
  }

  function DerBody(sig: Bytes): Bytes {
    EncodeInteger(sig[..|sig| / 2]) + EncodeInteger(sig[|sig| / 2..])
  }

  function DerOf(sig: Bytes): Result<Bytes, CodecError> {
    if |sig| % 2 != 0 then Err(OddLength)
    else Ok([0x30, |DerBody(sig)| % 256] + DerBody(sig))
  }

  method EncodeIntegerBytes(raw: Bytes) returns (out: Bytes)
    ensures out == EncodeInteger(raw)
  {
    var start := 0;
    while start < |raw| - 1 && raw[start] == 0
      invariant start == 0 || start < |raw|
      invariant SkipZeros(raw) == SkipZeros(raw[start..])
    {
      assert raw[start..][1..] == raw[start + 1..];
      start := start + 1;
    }
    var bytes := raw[start..];
    if bytes != [] && bytes[0] >= 0x80 {
      bytes := [0] + bytes;
    }
    out := [0x02, |bytes| % 256] + bytes;
  }

  method P1363ToDer(sig: Bytes) returns (r: Result<Bytes, CodecError>)
    ensures r == DerOf(sig)
  {
    if |sig| % 2 != 0 {
      return Err(OddLength);
    }
    var size := |sig| / 2;
    var first := EncodeIntegerBytes(sig[..size]);
    var second := EncodeIntegerBytes(sig[size..]);
    var body := first + second;
    r := Ok([0x30, |body| % 256] + body);
  }

  // ---- DER to fixed width --------------------------------------------------

  /** Drops leading zeros only while the content is wider than the field. */
  function TrimTo(b: Bytes, size: nat): Bytes {
    if |b| > size && b[0] == 0 then TrimTo(b[1..], size) else b
  }

  /** Right-aligned copy into a zeroed field; a negative copy offset throws. */
  function LeftPad(b: Bytes, size: nat): Result<Bytes, CodecError> {
    if |b| > size then Err(IntegerTooLong) else Ok(Zeros(size - |b|) + b)
  }

  /** An offset, or None once a missing length byte has turned it into not-a-number. */
  type Offset = Option<nat>

  /** The first INTEGER tag: after the SEQUENCE tag and length, short or long form. */
  function HeaderEnd(der: Bytes): nat {
    2 + if |der| > 1 && der[1] >= 0x80 then der[1] - 0x80 else 0
  }

  /** One INTEGER as a fixed-width field, with the offset behind it. */
  function ReadInteger(der: Bytes, at: Offset, size: nat): Result<(Bytes, Offset), CodecError> {
    if at.None? || at.value >= |der| || der[at.value] != 0x02 then Err(BadInteger)
    else if at.value + 1 >= |der| then Ok((Zeros(size), None))
    else
      var start := at.value + 2;
      var end := start + der[at.value + 1];
      match LeftPad(TrimTo(der[start..Min(end, |der|)], size), size)
      case Err(e) => Err(e)
      case Ok(field) => Ok((field, Some(end)))
  }

  function P1363Of(der: Bytes, size: nat): Result<Bytes, CodecError> {
    match ReadInteger(der, Some(HeaderEnd(der)), size)
    case Err(e) => Err(e)
    case Ok((first, next)) =>
      match ReadInteger(der, next, size)
      case Err(e) => Err(e)
      case Ok((second, _)) => Ok(first + second)
  }

  method ReadField(der: Bytes, at: Offset, size: nat) returns (r: Result<(Bytes, Offset), CodecError>)
    ensures r == ReadInteger(der, at, size)
  {
    if at.None? || at.value >= |der| || der[at.value] != 0x02 {
      return Err(BadInteger);
    }
    var offset := at.value + 1;
    if offset >= |der| {
      return Ok((Zeros(size), None));
    }
    var len := der[offset];
    offset := offset + 1;
    var start := offset;
    offset := offset + len;
    var bytes := der[start..Min(offset, |der|)];
    while |bytes| > size && bytes[0] == 0
      invariant TrimTo(bytes, size) == TrimTo(der[start..Min(offset, |der|)], size)
    {
      bytes := bytes[1..];
    }
    if |bytes| > size {
      return Err(IntegerTooLong);
    }
    r := Ok((Zeros(size - |bytes|) + bytes, Some(offset)));
  }

  method DerToP1363(der: Bytes, size: nat) returns (r: Result<Bytes, CodecError>)
    ensures r == P1363Of(der, size)
  {
    var offset := 2;
    if |der| > 1 && der[1] >= 0x80 {
      offset := offset + (der[1] - 0x80);
    }
    var first := ReadField(der, Some(offset), size);
    if first.Err? {
      return Err(first.error);
    }
    var second := ReadField(der, first.value.1, size);
    if second.Err? {
      return Err(second.error);
    }
    r := Ok(first.value.0 + second.value.0);
  }

  // ---- Fixed width survives DER --------------------------------------------

  lemma {:induction false} SkipZerosShape(raw: Bytes)
    ensures |SkipZeros(raw)| <= |raw|
    ensures raw == Zeros(|raw| - |SkipZeros(raw)|) + SkipZeros(raw)
    ensures raw != [] ==> SkipZeros(raw) != []
    ensures |SkipZeros(raw)| > 1 ==> SkipZeros(raw)[0] != 0
  {
    if |raw| > 1 && raw[0] == 0 {
      SkipZerosShape(raw[1..]);
      assert raw == [0] + raw[1..];
    }
  }

  /** Neither a sign byte nor the lack of one changes the field a short content fills. */
  lemma ContentFillsField(b: Bytes, size: nat)
    requires |b| <= size
    ensures LeftPad(TrimTo(b, size), size) == Ok(Zeros(size - |b|) + b)
    ensures LeftPad(TrimTo([0] + b, size), size) == Ok(Zeros(size - |b|) + b)
  {
    var c := [0] + b;
    if |c| > size {
      assert c[1..] == b;
      assert TrimTo(c, size) == TrimTo(b, size);
    } else {
      assert Zeros(size - |c|) + c == Zeros(size - |b|) + b;
    }
  }

  lemma FieldSurvives(raw: Bytes)
    ensures LeftPad(TrimTo(IntegerContent(raw), |raw|), |raw|) == Ok(raw)
  {
    hide SkipZeros, TrimTo, LeftPad;
    SkipZerosShape(raw);
    ContentFillsField(SkipZeros(raw), |raw|);
  }

  lemma Slices(head: Bytes, a: Bytes, b: Bytes)
    ensures (head + (a + b))[|head|..|head| + |a|] == a
    ensures (head + (a + b))[|head| + |a|..|head| + |a| + |b|] == b
  {
  }

  /** The short-form SEQUENCE of two INTEGERs with the given content octets. */
  function DerPair(first: Bytes, second: Bytes): Bytes
    requires |first| < 256 && |second| < 256 && |first| + |second| + 4 < 256
  {
    [0x30, |first| + |second| + 4] + (([0x02, |first|] + first) + ([0x02, |second|] + second))
  }

  lemma ReadOne(der: Bytes, at: nat, c: Bytes, size: nat, field: Bytes)
    requires |c| < 256 && at + 2 + |c| <= |der|
    requires der[at..at + 2 + |c|] == [0x02, |c|] + c
    requires LeftPad(TrimTo(c, size), size) == Ok(field)
    ensures ReadInteger(der, Some(at), size) == Ok((field, Some(at + 2 + |c|)))
  {
    hide TrimTo, LeftPad;
    var e: Bytes := [0x02, |c|] + c;
    assert der[at] == e[0] && der[at + 1] == e[1];
    assert der[at + 2..at + 2 + |c|] == e[2..] == c;
  }

  lemma ContentLength(raw: Bytes)
    ensures |IntegerContent(raw)| <= |raw| + 1
  {
    SkipZerosShape(raw);
  }

  lemma DerPairReads(first: Bytes, second: Bytes, size: nat, a: Bytes, b: Bytes)
    requires |first| + |second| + 4 <= 0x80
    requires LeftPad(TrimTo(first, size), size) == Ok(a)
    requires LeftPad(TrimTo(second, size), size) == Ok(b)
    ensures P1363Of(DerPair(first, second), size) == Ok(a + b)
  {
    hide TrimTo, LeftPad, ReadInteger;
    var head: Bytes, x: Bytes, y: Bytes := [0x30, |first| + |second| + 4], [0x02, |first|] + first,
      [0x02, |second|] + second;
    var der := head + (x + y);
    Slices(head, x, y);
    ReadOne(der, 2, first, size, a);
    ReadOne(der, 4 + |first|, second, size, b);
  }

  lemma DerOfHalves(a: Bytes, b: Bytes)
    requires |a| == |b| && |IntegerContent(a)| + |IntegerContent(b)| + 4 <= 0x80
    ensures DerOf(a + b) == Ok(DerPair(IntegerContent(a), IntegerContent(b)))
  {
  }

  /** Whatever the width, a body of at most 128 bytes decodes to the signature it came from. */
  lemma SignatureSurvives(sig: Bytes)
    requires |sig| % 2 == 0 && |DerBody(sig)| <= 128
    ensures P1363Of(DerOf(sig).value, |sig| / 2) == Ok(sig)
  {
    hide SkipZeros, IntegerContent, TrimTo, LeftPad, ReadInteger;
    var a, b := sig[..|sig| / 2], sig[|sig| / 2..];
    assert a + b == sig;
    FieldSurvives(a);
    FieldSurvives(b);
    DerPairReads(IntegerContent(a), IntegerContent(b), |a|, a, b);
    DerOfHalves(a, b);
  }

  /** A signature of the given width whose DER body is exactly 130 bytes. */
  function LongBodySignature(size: nat): (sig: Bytes)
    requires size >= 62
    ensures |sig| == 2 * size
  {
    var half := Zeros(size - 62) + seq(62, _ => 0xFF);
    half + half
  }

  lemma {:induction false} SkipLeadingZeros(k: nat, b: Bytes)
    requires b != [] && (|b| == 1 || b[0] != 0)
    ensures SkipZeros(Zeros(k) + b) == b
  {
    if k == 0 {
      assert Zeros(0) + b == b;
    } else {
      SkipLeadingZeros(k - 1, b);
      assert (Zeros(k) + b)[1..] == Zeros(k - 1) + b;
    }
  }

  lemma LongBodyFails(size: nat)
    requires size >= 62
    ensures P1363Of(DerOf(LongBodySignature(size)).value, size) == Err(BadInteger)
  {
    var sig := LongBodySignature(size);
    var ones := seq(62, _ => 0xFF);
    SkipLeadingZeros(size - 62, ones);
    assert sig[..|sig| / 2] == Zeros(size - 62) + ones == sig[|sig| / 2..];
    assert IntegerContent(sig[..|sig| / 2]) == [0] + ones;
    var der := DerOf(sig).value;
    assert |DerBody(sig)| == 130 && HeaderEnd(der) == 4 && der[4] == 0;
  }

  /**
   The conversion to DER is undone for every signature of a given width exactly up to 61 bytes a
   half: the largest body is then 2 * 61 + 6 = 128, whose length byte 0x80 still skips nothing.
   */
  lemma WidthBoundIsExact(size: nat)
    ensures size <= 61 <==>
            forall sig: Bytes | |sig| == 2 * size :: P1363Of(DerOf(sig).value, size) == Ok(sig)
  {
    hide IntegerContent, P1363Of, LongBodySignature;
    if size <= 61 {
      forall sig: Bytes | |sig| == 2 * size
        ensures P1363Of(DerOf(sig).value, size) == Ok(sig)
      {
        ContentLength(sig[..size]);
        ContentLength(sig[size..]);
        SignatureSurvives(sig);
      }
    } else {
      LongBodyFails(size);
      var sig := LongBodySignature(size);
      assert P1363Of(DerOf(sig).value, size) != Ok(sig);
    }
  }

  // ---- Canonical DER survives fixed width ----------------------------------

  /** Minimal content octets of a non-negative INTEGER (section 8.3 of X.690). */
  predicate CanonicalInteger(c: Bytes) {
    && c != []
    && c[0] < 0x80
    && (|c| > 1 && c[0] == 0 ==> c[1] >= 0x80)
  }

  lemma {:induction false} LeadingZeroValue(b: Bytes)
    ensures Value([0] + b) == Value(b)
  {
    if b == [] {
      assert ([0] + b)[..0] == [];
    } else {
      LeadingZeroValue(b[..|b| - 1]);
      assert ([0] + b)[..|b|] == [0] + b[..|b| - 1];
    }
  }

  lemma {:induction false} LeadingZerosValue(k: nat, b: Bytes)
    ensures Value(Zeros(k) + b) == Value(b)
  {
    if k == 0 {
      assert Zeros(0) + b == b;
    } else {
      LeadingZerosValue(k - 1, b);
      LeadingZeroValue(Zeros(k - 1) + b);
      assert Zeros(k) + b == [0] + (Zeros(k - 1) + b);
    }
  }

  lemma {:induction false} ValueAtLeast(b: Bytes)
    requires b != [] && b[0] != 0
    ensures Value(b) >= Pow256(|b| - 1)
  {
    if |b| > 1 {
      ValueAtLeast(b[..|b| - 1]);
    }
  }

  lemma {:induction false} Pow256Grows(m: nat, n: nat)
    ensures m <= n ==> Pow256(m) <= Pow256(n)
  {
    if m < n {
      Pow256Grows(m, n - 1);
    }
  }

  /** A canonical value below 256^size is at most one sign byte wider than the field. */
  lemma CanonicalFits(c: Bytes, size: nat)
    requires size > 0 && CanonicalInteger(c) && Value(c) < Pow256(size)
    ensures |c| <= size || (|c| == size + 1 && c[0] == 0)
  {
  }

  /** One canonical INTEGER: the field keeps its value and encodes back to the same octets. */
  lemma CanonicalSurvives(c: Bytes, size: nat)
    requires size > 0 && CanonicalInteger(c) && Value(c) < Pow256(size)
    ensures var field := LeftPad(TrimTo(c, size), size);
            && field.Ok?
            && |field.value| == size
            && Value(field.value) == Value(c)
            && IntegerContent(field.value) == c
  {
    CanonicalFits(c, size);
    var minimal := if |c| > 1 && c[0] == 0 then c[1..] else c;
    var field := LeftPad(TrimTo(c, size), size).value;
    assert c == [0] + minimal || c == minimal;
    assert field == Zeros(size - |minimal|) + minimal;
    LeadingZerosValue(size - |minimal|, minimal);
    LeadingZeroValue(minimal);
    SkipLeadingZeros(size - |minimal|, minimal);
  }

  /**
   Every canonical short-form DER pair of non-negative integers below 256^size survives the trip
   through fixed width byte for byte, and each half carries its integer's value.
   */
  lemma CanonicalDerSurvives(first: Bytes, second: Bytes, size: nat)
    requires size > 0 && |first| + |second| + 4 < 0x80
    requires CanonicalInteger(first) && Value(first) < Pow256(size)
    requires CanonicalInteger(second) && Value(second) < Pow256(size)
    ensures var sig := P1363Of(DerPair(first, second), size);
            && sig.Ok?
            && |sig.value| == 2 * size
            && Value(sig.value[..size]) == Value(first)
            && Value(sig.value[size..]) == Value(second)
            && DerOf(sig.value) == Ok(DerPair(first, second))
  {
    CanonicalSurvives(first, size);
    CanonicalSurvives(second, size);
    var a := LeftPad(TrimTo(first, size), size).value;
    var b := LeftPad(TrimTo(second, size), size).value;
    DerPairReads(first, second, size, a, b);
    DerOfHalves(a, b);
    assert (a + b)[..size] == a && (a + b)[size..] == b;
  }
}
