/**
 The 512-byte records of a tar archive: "ustar Interchange Format" and "pax
 Header Block" of the pax utility, IEEE Std 1003.1, as far as
 tools/generated_sources.py reads them.
 */
module TarRecords {
  import opened Common

  type Byte = x: int | 0 <= x < 256
  type Bytes = seq<Byte>

  const RECORD: nat := 512

  /** A header record and its data records. */
  type Block = b: seq<Bytes> | b != [] witness [[]]

  // ------------------------------------------------------------------ records

  /** `[payload[i:i + 512] for i in range(0, len(payload), 512)]` */
  function Records(payload: Bytes): seq<Bytes> {
    if payload == [] then []
    else if |payload| <= RECORD then [payload]
    else [payload[..RECORD]] + Records(payload[RECORD..])
  }

  /** `b"".join(records)` */
  function Join(records: seq<Bytes>): Bytes {
    if records == [] then [] else records[0] + Join(records[1..])
  }

  ghost predicate Full(records: seq<Bytes>) {
    forall i | 0 <= i < |records| :: |records[i]| == RECORD
  }

  /** Full records, the last one possibly short. */
  ghost predicate Chunked(records: seq<Bytes>) {
    records == [] || (Full(records[..|records| - 1]) && 0 < |records[|records| - 1]| <= RECORD)
  }

  lemma {:induction false} RecordsJoin(payload: Bytes)
    ensures Join(Records(payload)) == payload && Chunked(Records(payload))
    decreases |payload|
  {
    if |payload| > RECORD {
      RecordsJoin(payload[RECORD..]);
      var rest := Records(payload[RECORD..]);
      assert Records(payload)[1..] == rest;
      assert Records(payload)[..|rest|] == [payload[..RECORD]] + rest[..|rest| - 1];
    } else if payload != [] {
      assert Records(payload)[1..] == [];
    }
  }

  lemma {:induction false} JoinRecords(records: seq<Bytes>)
    requires Chunked(records)
    ensures Records(Join(records)) == records
    decreases |records|
  {
    if |records| > 1 {
      var rest := records[1..];
      assert |records[0]| == RECORD by { assert records[0] == records[..|records| - 1][0]; }
      forall i | 0 <= i < |rest| - 1 ensures |rest[i]| == RECORD {
        assert rest[i] == records[..|records| - 1][i + 1];
      }
      JoinRecords(rest);
      assert Join(records)[..RECORD] == records[0] && Join(records)[RECORD..] == Join(rest);
      assert Join(rest) != [] by { assert rest[0] in rest && |rest[0]| > 0; }
    } else if |records| == 1 {
      assert Join(records) == records[0];
    }
  }

  // ------------------------------------------------------------- header fields

  /** Python's `b[i:j]`, clipped to what is there. */
  function Slice(b: Bytes, i: nat, j: nat): Bytes
    requires i <= j
  {
    if |b| <= i then [] else if |b| <= j then b[i..] else b[i..j]
  }

  /** `b.split(b"\0")[0]` */
  function UntilNul(b: Bytes): Bytes {
    if b == [] || b[0] == 0 then [] else [b[0]] + UntilNul(b[1..])
  }

  predicate IsSpace(c: Byte) {
    c == 32 || 9 <= c <= 13
  }

  /** `b.strip()` */
  function Strip(b: Bytes): Bytes
    decreases |b|
  {
    if b == [] then []
    else if IsSpace(b[0]) then Strip(b[1..])
    else if IsSpace(b[|b| - 1]) then Strip(b[..|b| - 1])
    else b
  }

  /** Octal digits, single underscores allowed between them. */
  function OctalDigits(b: Bytes, value: nat, digitDue: bool): Option<nat> {
    if b == [] then (if digitDue then None else Some(value))
    else if 48 <= b[0] <= 55 then OctalDigits(b[1..], 8 * value + (b[0] - 48), false)
    else if b[0] == 95 && !digitDue then OctalDigits(b[1..], value, true)
    else None
  }

  /** `int(raw, 8)` without its sign: an optional 0o prefix, then digits. */
  function Unsigned(b: Bytes): Option<nat> {
    if |b| >= 2 && b[0] == 48 && (b[1] == 111 || b[1] == 79)
    then OctalDigits(if |b| >= 3 && b[2] == 95 then b[3..] else b[2..], 0, true)
    else OctalDigits(b, 0, true)
  }

  /** `int(raw, 8)`; `None` is its ValueError. */
  function Octal(raw: Bytes): Option<int> {
    if raw != [] && raw[0] == 45 then
      match Unsigned(raw[1..]) { case Some(n) => Some(-(n as int)) case None => None }
    else if raw != [] && raw[0] == 43 then Unsigned(raw[1..])
    else Unsigned(raw)
  }

  /** `_freerdp_record_size` */
  function RecordSize(header: Bytes): Option<int> {
    var raw := Strip(UntilNul(Slice(header, 124, 136)));
    if raw == [] then Some(0) else Octal(raw)
  }

  /** Header record plus data records. Floor and Euclidean division agree for a positive divisor. */
  function Span(size: int): int {
    1 + (size + 511) / 512
  }

  datatype Kind = Global | Pax | LongName | LongLink | Member

  function KindOf(header: Bytes): Kind {
    var k := Slice(header, 156, 157);
    if k == [103] then Global else if k == [120] then Pax else if k == [76] then LongName
    else if k == [75] then LongLink else Member
  }

  predicate IsExtension(header: Bytes) {
    KindOf(header).Pax? || KindOf(header).LongName? || KindOf(header).LongLink?
  }

  predicate IsZero(record: Bytes) {
    record == seq(RECORD, i => 0)
  }

  // -------------------------------------------------------------------- names

  predicate Continues(c: Byte) {
    128 <= c <= 191
  }

  /** What `bytes.decode()` accepts: RFC 3629, section 4. */
  predicate Utf8(b: Bytes) {
    if b == [] then true
    else if b[0] < 128 then Utf8(b[1..])
    else if 194 <= b[0] <= 223 then |b| >= 2 && Continues(b[1]) && Utf8(b[2..])
    else if 224 <= b[0] <= 239 then
      && |b| >= 3 && Continues(b[1]) && Continues(b[2])
      && (b[0] == 224 ==> b[1] >= 160) && (b[0] == 237 ==> b[1] <= 159) && Utf8(b[3..])
    else if 240 <= b[0] <= 244 then
      && |b| >= 4 && Continues(b[1]) && Continues(b[2]) && Continues(b[3])
      && (b[0] == 240 ==> b[1] >= 144) && (b[0] == 244 ==> b[1] <= 143) && Utf8(b[4..])
    else false
  }

  /** `value.decode()`; `None` is its UnicodeDecodeError. */
  function Decoded(b: Bytes): Option<Bytes> {
    if Utf8(b) then Some(b) else None
  }

  /** The bytes before the first `c`, or all of them. */
  function Before(b: Bytes, c: Byte): (r: Bytes)
    ensures |r| <= |b|
  {
    if b == [] || b[0] == c then [] else [b[0]] + Before(b[1..], c)
  }

  /** The bytes after the first `c`, if there is one. */
  function After(b: Bytes, c: Byte): Option<Bytes> {
    if b == [] then None else if b[0] == c then Some(b[1..]) else After(b[1..], c)
  }

  /** `key.split(b" ", 1)[-1]` */
  function Keyword(key: Bytes): Bytes {
    match After(key, 32) { case Some(rest) => rest case None => key }
  }

  const PATH: Bytes := [112, 97, 116, 104]

  datatype PaxPath = NoPath | Path(value: Bytes) | Undecodable

  /** `_freerdp_pax_path`: the value of the first line whose keyword is `path`. */
  function PaxPathOf(data: Bytes): PaxPath
    decreases |data|
  {
    var line := Before(data, 10);
    var rest := if |line| < |data| then data[|line| + 1..] else [];
    match After(line, 61)
    case Some(value) =>
      if Keyword(Before(line, 61)) == PATH then (if Utf8(value) then Path(value) else Undecodable)
      else if |line| < |data| then PaxPathOf(rest) else NoPath
    case None =>
      if |line| < |data| then PaxPathOf(rest) else NoPath
  }

  /** The member's own name: `prefix/name`, or `name` when the prefix is empty. */
  function OwnName(header: Bytes): Option<Bytes> {
    var name, prefix := UntilNul(Slice(header, 0, 100)), UntilNul(Slice(header, 345, 500));
    if Utf8(name) && Utf8(prefix) then Some(if prefix == [] then name else prefix + [47] + name) else None
  }

  /** One extension header's say in the name. */
  function Overridden(name: Bytes, block: Block): Option<Bytes>
  {
    var data := Join(block[1..]);
    match KindOf(block[0])
    case Pax => (match PaxPathOf(data) { case NoPath => Some(name) case Path(v) => Some(v) case Undecodable => None })
    case LongName => Decoded(UntilNul(data))
    case _ => Some(name)
  }

  function ResolveFrom(name: Bytes, exts: seq<Block>): Option<Bytes>
    decreases |exts|
  {
    if exts == [] then Some(name)
    else match Overridden(name, exts[0])
      case Some(next) => ResolveFrom(next, exts[1..])
      case None => None
  }

  /** The full name of a member after its extension headers; `None` is a decoding error. */
  function Resolve(header: Bytes, exts: seq<Block>): Option<Bytes>
  {
    match OwnName(header)
    case Some(name) => ResolveFrom(name, exts)
    case None => None
  }
}
