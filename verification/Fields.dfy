/**
 The signed encoding as a list of typed fields: fixed-width big-endian integers, byte strings behind a
 32-bit length, and options behind a presence byte. `Decode*` is the reader the repository does not have;
 it accepts exactly the encodings.
 */
module Fields {
  import opened Bytes

  datatype Field =
    | Blob(blob: bytes)
    | U16(u16: u16)
    | U64(u64: u64)
    | OptBlob(optBlob: Option<bytes>)
    | OptU32(optU32: Option<u32>)

  datatype Kind = KBlob | KU16 | KU64 | KOptBlob | KOptU32

  function KindOf(f: Field): Kind {
    match f
    case Blob(_) => KBlob
    case U16(_) => KU16
    case U64(_) => KU64
    case OptBlob(_) => KOptBlob
    case OptU32(_) => KOptU32
  }

  function Kinds(fs: seq<Field>): (ks: seq<Kind>)
    ensures |ks| == |fs|
    ensures forall i :: 0 <= i < |fs| ==> ks[i] == KindOf(fs[i])
  {
    seq(|fs|, i requires 0 <= i < |fs| => KindOf(fs[i]))
  }

  /** A byte string longer than a 32-bit length cannot be encoded. */
  predicate Fits(f: Field) {
    match f
    case Blob(b) => |b| < U32_LIMIT
    case OptBlob(Some(b)) => |b| < U32_LIMIT
    case _ => true
  }

  predicate AllFit(fs: seq<Field>) {
    forall i :: 0 <= i < |fs| ==> Fits(fs[i])
  }

  function EncodeBlob(b: bytes): bytes { BigEndian(|b|, 4) + b }

  function EncodeField(f: Field): bytes {
    match f
    case Blob(b) => EncodeBlob(b)
    case U16(v) => BigEndian(v, 2)
    case U64(v) => BigEndian(v, 8)
    case OptBlob(None) => [0]
    case OptBlob(Some(b)) => [1] + EncodeBlob(b)
    case OptU32(None) => [0]
    case OptU32(Some(v)) => [1] + BigEndian(v, 4)
  }

  function EncodeFields(fs: seq<Field>): bytes {
    if fs == [] then [] else EncodeField(fs[0]) + EncodeFields(fs[1..])
  }

  /** The first `k` fields, written one after the other; nothing if one of them does not fit. */
  function EncodePrefix(fs: seq<Field>, k: nat): Option<bytes>
    requires k <= |fs|
  {
    if k == 0 then Some([])
    else if EncodePrefix(fs, k - 1).None? || !Fits(fs[k - 1]) then None
    else Some(EncodePrefix(fs, k - 1).value + EncodeField(fs[k - 1]))
  }

  /** Writing field by field gives the whole encoding, and stops exactly when some field does not fit. */
  lemma WholePrefix(fs: seq<Field>)
    ensures EncodePrefix(fs, |fs|) == if AllFit(fs) then Some(EncodeFields(fs)) else None
  {
    PrefixFits(fs, |fs|);
    if AllFit(fs) {
      PrefixThenRest(fs, |fs|);
      assert fs[|fs|..] == [] && EncodePrefix(fs, |fs|).value + [] == EncodePrefix(fs, |fs|).value;
    }
  }

  lemma OneMoreFits(fs: seq<Field>, j: nat)
    requires j < |fs|
    ensures (forall i :: 0 <= i < j + 1 ==> Fits(fs[i])) <==> (forall i :: 0 <= i < j ==> Fits(fs[i])) && Fits(fs[j])
  {
  }

  lemma {:induction false} PrefixFits(fs: seq<Field>, k: nat)
    requires k <= |fs|
    ensures EncodePrefix(fs, k).Some? <==> forall i :: 0 <= i < k ==> Fits(fs[i])
  {
    if k > 0 {
      var j: nat := k - 1;
      PrefixFits(fs, j);
      OneMoreFits(fs, j);
    }
  }

  /** All fields one after the other, for any way to write one. */
  function Concatenated(write: Field -> bytes, fs: seq<Field>): bytes {
    if fs == [] then [] else write(fs[0]) + Concatenated(write, fs[1..])
  }

  function FirstConcatenated(write: Field -> bytes, fs: seq<Field>, k: nat): bytes
    requires k <= |fs|
  {
    if k == 0 then [] else FirstConcatenated(write, fs, k - 1) + write(fs[k - 1])
  }

  lemma {:induction false} FirstThenRest(write: Field -> bytes, fs: seq<Field>, k: nat)
    requires k <= |fs|
    ensures Concatenated(write, fs) == FirstConcatenated(write, fs, k) + Concatenated(write, fs[k..])
  {
    if k == 0 {
      assert fs[k..] == fs;
    } else {
      var j: nat := k - 1;
      FirstThenRest(write, fs, j);
      assert fs[j..][1..] == fs[k..];
      Assoc(FirstConcatenated(write, fs, j), write(fs[j]), Concatenated(write, fs[k..]));
    }
  }

  lemma {:induction false} FieldsAreConcatenated(fs: seq<Field>)
    ensures EncodeFields(fs) == Concatenated(EncodeField, fs)
  {
    if fs != [] { FieldsAreConcatenated(fs[1..]); }
  }

  lemma {:induction false} PrefixIsConcatenated(fs: seq<Field>, k: nat)
    requires k <= |fs| && EncodePrefix(fs, k).Some?
    ensures EncodePrefix(fs, k).value == FirstConcatenated(EncodeField, fs, k)
  {
    if k > 0 {
      var j: nat := k - 1;
      PrefixIsConcatenated(fs, j);
    }
  }

  lemma PrefixThenRest(fs: seq<Field>, k: nat)
    requires k <= |fs| && EncodePrefix(fs, k).Some?
    ensures EncodeFields(fs) == EncodePrefix(fs, k).value + EncodeFields(fs[k..])
  {
    FirstThenRest(EncodeField, fs, k);
    FieldsAreConcatenated(fs);
    FieldsAreConcatenated(fs[k..]);
    PrefixIsConcatenated(fs, k);
  }

  lemma RefusedAt(fs: seq<Field>, k: nat)
    requires k < |fs| && !Fits(fs[k])
    ensures EncodePrefix(fs, |fs|) == None
  {
    PrefixFits(fs, |fs|);
  }

  // ---- The reader ----

  function DecodeBlob(s: bytes): Option<(bytes, bytes)> {
    if |s| < 4 then None
    else
      var n := FromBigEndian(s[..4]);
      if |s| - 4 < n then None else Some((s[4..4 + n], s[4 + n..]))
  }

  function DecodeField(k: Kind, s: bytes): Option<(Field, bytes)> {
    match k
    case KBlob =>
      (match DecodeBlob(s) case None => None case Some((b, rest)) => Some((Blob(b), rest)))
    case KU16 =>
      if |s| < 2 then None else Some((U16(DecodeInt(s, 2)), s[2..]))
    case KU64 =>
      if |s| < 8 then None else Some((U64(DecodeInt(s, 8)), s[8..]))
    case KOptBlob =>
      if |s| == 0 || s[0] > 1 then None
      else if s[0] == 0 then Some((OptBlob(None), s[1..]))
      else (match DecodeBlob(s[1..]) case None => None case Some((b, rest)) => Some((OptBlob(Some(b)), rest)))
    case KOptU32 =>
      if |s| == 0 || s[0] > 1 then None
      else if s[0] == 0 then Some((OptU32(None), s[1..]))
      else if |s| < 5 then None
      else Some((OptU32(Some(DecodeInt(s[1..], 4))), s[5..]))
  }

  function DecodeInt(s: bytes, width: nat): (n: nat)
    requires width <= |s|
    requires width == 2 || width == 4 || width == 8
    ensures width == 2 ==> n < U16_LIMIT
    ensures width == 4 ==> n < U32_LIMIT
    ensures width == 8 ==> n < U64_LIMIT
  {
    Pow256Widths();
    FromBigEndianRoundTrip(s[..width]);
    FromBigEndian(s[..width])
  }

  function DecodeFields(ks: seq<Kind>, s: bytes): Option<(seq<Field>, bytes)> {
    if ks == [] then Some(([], s))
    else
      match DecodeField(ks[0], s)
      case None => None
      case Some((f, rest)) =>
        match DecodeFields(ks[1..], rest)
        case None => None
        case Some((fs, tail)) => Some(([f] + fs, tail))
  }

  lemma DecodeBlobOfEncode(b: bytes, rest: bytes)
    requires |b| < U32_LIMIT
    ensures DecodeBlob(EncodeBlob(b) + rest) == Some((b, rest))
  {
    Pow256Widths();
    BigEndianRoundTrip(|b|, 4);
    var s := EncodeBlob(b) + rest;
    assert s[..4] == BigEndian(|b|, 4);
    assert s[4..4 + |b|] == b;
    assert s[4 + |b|..] == rest;
  }

  lemma EncodeOfDecodeBlob(s: bytes)
    requires DecodeBlob(s).Some?
    ensures var (b, rest) := DecodeBlob(s).value; |b| < U32_LIMIT && s == EncodeBlob(b) + rest
  {
    Pow256Widths();
    FromBigEndianRoundTrip(s[..4]);
    var n := FromBigEndian(s[..4]);
    assert s == s[..4] + s[4..4 + n] + s[4 + n..];
  }

  lemma DecodeIntOfEncode(v: nat, width: nat, rest: bytes)
    requires width == 2 || width == 4 || width == 8
    requires v < Pow256(width)
    ensures DecodeInt(BigEndian(v, width) + rest, width) == v
    ensures (BigEndian(v, width) + rest)[width..] == rest
  {
    BigEndianRoundTrip(v, width);
    assert (BigEndian(v, width) + rest)[..width] == BigEndian(v, width);
  }

  lemma EncodeOfDecodeInt(s: bytes, width: nat)
    requires width <= |s|
    requires width == 2 || width == 4 || width == 8
    ensures s == BigEndian(DecodeInt(s, width), width) + s[width..]
  {
    FromBigEndianRoundTrip(s[..width]);
  }

  lemma DecodeOptBlobOfEncode(b: bytes, rest: bytes)
    requires |b| < U32_LIMIT
    ensures DecodeField(KOptBlob, [1] + EncodeBlob(b) + rest) == Some((OptBlob(Some(b)), rest))
  {
    var s := [1] + EncodeBlob(b) + rest;
    assert s[1..] == EncodeBlob(b) + rest;
    DecodeBlobOfEncode(b, rest);
  }

  lemma DecodeOptU32OfEncode(v: u32, rest: bytes)
    ensures DecodeField(KOptU32, [1] + BigEndian(v, 4) + rest) == Some((OptU32(Some(v)), rest))
  {
    var s := [1] + BigEndian(v, 4) + rest;
    assert s[1..] == BigEndian(v, 4) + rest;
    assert s[5..] == s[1..][4..];
    Pow256Widths();
    DecodeIntOfEncode(v, 4, rest);
  }

  lemma DecodeFieldOfEncode(f: Field, rest: bytes)
    requires Fits(f)
    ensures DecodeField(KindOf(f), EncodeField(f) + rest) == Some((f, rest))
  {
    match f
    case Blob(b) => DecodeBlobOfEncode(b, rest);
    case U16(v) => Pow256Widths(); DecodeIntOfEncode(v, 2, rest);
    case U64(v) => Pow256Widths(); DecodeIntOfEncode(v, 8, rest);
    case OptBlob(None) =>
    case OptBlob(Some(b)) => DecodeOptBlobOfEncode(b, rest);
    case OptU32(None) =>
    case OptU32(Some(v)) => DecodeOptU32OfEncode(v, rest);
  }

  lemma EncodeOfDecodeField(k: Kind, s: bytes)
    requires DecodeField(k, s).Some?
    ensures var (f, rest) := DecodeField(k, s).value;
            KindOf(f) == k && Fits(f) && s == EncodeField(f) + rest
  {
    match k
    case KBlob => EncodeOfDecodeBlob(s);
    case KU16 => EncodeOfDecodeInt(s, 2);
    case KU64 => EncodeOfDecodeInt(s, 8);
    case KOptBlob =>
      assert s == [s[0]] + s[1..];
      if s[0] == 1 { EncodeOfDecodeBlob(s[1..]); }
    case KOptU32 =>
      assert s == [s[0]] + s[1..];
      if s[0] == 1 {
        EncodeOfDecodeInt(s[1..], 4);
        assert s[5..] == s[1..][4..];
      }
  }

  /** Reading an encoding followed by anything gives the fields back and leaves exactly the rest. */
  lemma {:induction false} DecodeFieldsOfEncode(fs: seq<Field>, rest: bytes)
    requires AllFit(fs)
    ensures DecodeFields(Kinds(fs), EncodeFields(fs) + rest) == Some((fs, rest))
  {
    if fs == [] {
      assert EncodeFields(fs) + rest == rest;
    } else {
      var tail := EncodeFields(fs[1..]) + rest;
      assert EncodeFields(fs) + rest == EncodeField(fs[0]) + tail;
      DecodeFieldOfEncode(fs[0], tail);
      assert AllFit(fs[1..]);
      DecodeFieldsOfEncode(fs[1..], rest);
      assert Kinds(fs)[1..] == Kinds(fs[1..]);
      assert [fs[0]] + fs[1..] == fs;
    }
  }

  /** Whatever the reader accepts is the encoding of what it returns. */
  lemma {:induction false} EncodeOfDecodeFields(ks: seq<Kind>, s: bytes)
    requires DecodeFields(ks, s).Some?
    ensures var (fs, rest) := DecodeFields(ks, s).value;
            Kinds(fs) == ks && AllFit(fs) && s == EncodeFields(fs) + rest
  {
    if ks != [] {
      EncodeOfDecodeField(ks[0], s);
      var (f, rest) := DecodeField(ks[0], s).value;
      EncodeOfDecodeFields(ks[1..], rest);
      var (fs, tail) := DecodeFields(ks[1..], rest).value;
      assert ([f] + fs)[1..] == fs;
      assert Kinds([f] + fs) == [ks[0]] + ks[1..];
      assert forall i :: 0 < i < |fs| + 1 ==> ([f] + fs)[i] == fs[i - 1];
    }
  }
}
