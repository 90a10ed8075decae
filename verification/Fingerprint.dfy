/** The length-framed byte stream that identifies an index's source rows. */
module Fingerprint {
  import opened Wrappers

  type Byte = x: int | 0 <= x < 256

  type Bytes = seq<Byte>

  // What a digest returns; only its equality is used.
  type Digest = nat

  datatype Row = Row(id: Bytes, vector: Bytes)

  // ----- 8-byte big-endian lengths -----

  function Pow256(k: nat): nat {
    if k == 0 then 1 else 256 * Pow256(k - 1)
  }

  function BigEndian(n: nat, k: nat): (r: Bytes)
    ensures |r| == k
  {
    if k == 0 then [] else BigEndian(n / 256, k - 1) + [n % 256]
  }

  function Value(b: Bytes): nat {
    if b == [] then 0 else 256 * Value(b[..|b| - 1]) + b[|b| - 1]
  }

  lemma {:induction false} ValueBigEndian(n: nat, k: nat)
    requires n < Pow256(k)
    ensures Value(BigEndian(n, k)) == n
  {
    if k == 0 {
    } else {
      Digits(n, Pow256(k - 1));
      ValueBigEndian(n / 256, k - 1);
      assert BigEndian(n, k)[..k - 1] == BigEndian(n / 256, k - 1);
    }
  }

  lemma Digits(n: nat, p: nat)
    requires n < 256 * p
    ensures n / 256 < p && n == 256 * (n / 256) + n % 256
  {
  }

  const WIDTH: nat := 8

  ghost predicate Packable(n: nat) {
    n < Pow256(WIDTH)
  }

  function Field(v: Bytes): Bytes {
    BigEndian(|v|, WIDTH) + v
  }

  // A length, then as many bytes, then the rest.
  function ReadLength(b: Bytes): Option<(nat, Bytes)> {
    if |b| < WIDTH then None else Some((Value(b[..WIDTH]), b[WIDTH..]))
  }

  function ReadField(b: Bytes): Option<(Bytes, Bytes)> {
    match ReadLength(b)
    case None => None
    case Some((n, rest)) => if |rest| < n then None else Some((rest[..n], rest[n..]))
  }

  lemma {:induction false} LengthReads(n: nat, rest: Bytes)
    requires Packable(n)
    ensures ReadLength(BigEndian(n, WIDTH) + rest) == Some((n, rest))
  {
    ValueBigEndian(n, WIDTH);
    var b := BigEndian(n, WIDTH) + rest;
    assert b[..WIDTH] == BigEndian(n, WIDTH) && b[WIDTH..] == rest;
  }

  lemma {:induction false} FieldReads(v: Bytes, rest: Bytes)
    requires Packable(|v|)
    ensures ReadField(Field(v) + rest) == Some((v, rest))
  {
    LengthReads(|v|, v + rest);
    assert Field(v) + rest == BigEndian(|v|, WIDTH) + (v + rest);
    assert (v + rest)[..|v|] == v && (v + rest)[|v|..] == rest;
  }

  // ----- rows -----

  function RowBytes(r: Row): Bytes {
    Field(r.id) + Field(r.vector)
  }

  function RowsBytes(rows: seq<Row>): Bytes {
    if rows == [] then [] else RowBytes(rows[0]) + RowsBytes(rows[1..])
  }

  ghost predicate RowPackable(r: Row) {
    Packable(|r.id|) && Packable(|r.vector|)
  }

  // The lengths that an 8-byte field can state; packing a longer one raises.
  ghost predicate SourcePackable(config: Bytes, rows: seq<Row>) {
    Packable(|config|) && Packable(|rows|) && forall r :: r in rows ==> RowPackable(r)
  }

  function ReadRows(b: Bytes, n: nat): Option<(seq<Row>, Bytes)> {
    if n == 0 then Some(([], b))
    else match ReadField(b)
      case None => None
      case Some((id, afterId)) =>
        match ReadField(afterId)
        case None => None
        case Some((vector, rest)) =>
          match ReadRows(rest, n - 1)
          case None => None
          case Some((rows, tail)) => Some(([Row(id, vector)] + rows, tail))
  }

  lemma {:induction false} RowsRead(rows: seq<Row>, rest: Bytes)
    requires forall r :: r in rows ==> RowPackable(r)
    ensures ReadRows(RowsBytes(rows) + rest, |rows|) == Some((rows, rest))
  {
    hide ReadField, Field, Packable;
    if rows == [] {
      assert RowsBytes(rows) + rest == rest;
    } else {
      var r, later := rows[0], RowsBytes(rows[1..]) + rest;
      assert RowPackable(r);
      assert RowsBytes(rows) + rest == Field(r.id) + (Field(r.vector) + later);
      FieldReads(r.id, Field(r.vector) + later);
      FieldReads(r.vector, later);
      RowsRead(rows[1..], rest);
      assert [r] + rows[1..] == rows;
    }
  }

  // ----- the whole stream -----

  const SOURCE_TAG: Bytes := [112, 101, 110, 115, 105, 118, 101, 45, 105, 110, 100, 101, 120, 45, 115, 111, 117, 114,
                              99, 101, 0]

  const NAMESPACE_TAG: Bytes := [112, 101, 110, 115, 105, 118, 101, 45, 105, 110, 100, 101, 120, 45, 110, 97, 109, 101,
                                 115, 112, 97, 99, 101, 0]

  function Stream(config: Bytes, rows: seq<Row>): Bytes {
    SOURCE_TAG + Field(config) + BigEndian(|rows|, WIDTH) + RowsBytes(rows)
  }

  function NamespaceStream(config: Bytes): Bytes {
    NAMESPACE_TAG + Field(config)
  }

  function Decode(b: Bytes): Option<(Bytes, seq<Row>)> {
    if |b| < |SOURCE_TAG| then None
    else match ReadField(b[|SOURCE_TAG|..])
      case None => None
      case Some((config, afterConfig)) =>
        match ReadLength(afterConfig)
        case None => None
        case Some((n, body)) =>
          match ReadRows(body, n)
          case None => None
          case Some((rows, rest)) => if rest == [] then Some((config, rows)) else None
  }

  // The stream states its configuration and its rows, in order.
  lemma {:induction false} DecodeStream(config: Bytes, rows: seq<Row>)
    requires SourcePackable(config, rows)
    ensures Decode(Stream(config, rows)) == Some((config, rows))
  {
    hide ReadField, ReadLength, ReadRows, Field, RowsBytes, Packable;
    var body := RowsBytes(rows);
    var afterConfig := BigEndian(|rows|, WIDTH) + body;
    assert Stream(config, rows) == SOURCE_TAG + (Field(config) + afterConfig);
    assert Stream(config, rows)[|SOURCE_TAG|..] == Field(config) + afterConfig;
    FieldReads(config, afterConfig);
    LengthReads(|rows|, body);
    RowsRead(rows, []);
    assert body + [] == body;
  }

  ghost predicate CollisionFree(digest: Bytes -> Digest) {
    forall a, b :: digest(a) == digest(b) ==> a == b
  }

  // Equal fingerprints mean the same configuration and the same ordered rows.
  lemma {:induction false} FingerprintIdentifies(digest: Bytes -> Digest, c: Bytes, rows: seq<Row>, d: Bytes,
                                                 others: seq<Row>)
    requires CollisionFree(digest) && SourcePackable(c, rows) && SourcePackable(d, others)
    requires digest(Stream(c, rows)) == digest(Stream(d, others))
    ensures c == d && rows == others
  {
    hide Stream, Decode;
    DecodeStream(c, rows);
    DecodeStream(d, others);
  }

  // The digest is fed piece by piece; `fed` is what it has consumed.
  method IndexFingerprint(rows: seq<Row>, config: Bytes, digest: Bytes -> Digest)
    returns (namespace: Digest, fingerprint: Digest)
    requires SourcePackable(config, rows)
    ensures namespace == digest(NamespaceStream(config)) && fingerprint == digest(Stream(config, rows))
  {
    hide RowBytes, Field;
    namespace := digest(NAMESPACE_TAG + Field(config));
    var fed := SOURCE_TAG + Field(config);
    fed := fed + BigEndian(|rows|, WIDTH);
    ghost var head := fed;
    for n := 0 to |rows|
      invariant fed == head + RowsBytes(rows[..n])
    {
      RowsAppend(rows[..n], rows[n]);
      assert rows[..n + 1] == rows[..n] + [rows[n]];
      fed := fed + RowBytes(rows[n]);
    }
    assert rows[..|rows|] == rows;
    fingerprint := digest(fed);
  }

  lemma {:induction false} RowsAppend(rows: seq<Row>, r: Row)
    ensures RowsBytes(rows + [r]) == RowsBytes(rows) + RowBytes(r)
  {
    hide RowBytes;
    if rows == [] {
      assert [] + [r] == [r] && [r][1..] == [];
    } else {
      assert (rows + [r])[0] == rows[0] && (rows + [r])[1..] == rows[1..] + [r];
      RowsAppend(rows[1..], r);
    }
  }
}
