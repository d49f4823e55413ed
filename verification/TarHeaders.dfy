/**
 From bytes to members: what the fields of a header record and the data of its extension headers hold, by the
 "ustar Interchange Format" and "pax Header Block" of the pax utility, IEEE Std 1003.1, and what becomes of an
 archive written so.
 */
module TarHeaders {
  import opened Common
  import opened TarRecords
  import opened TarRewrite
  import opened TarLoop
  import T = TarRecords

  // --------------------------------------------------------------------- fields

  /** `text` stands in `h` at `at`, ended by a NUL unless it fills its `width` bytes or the record is cut there. */
  ghost predicate Field(h: Bytes, at: nat, width: nat, text: Bytes) {
    && |text| <= width && 0 !in text
    && (|| (|h| <= at && text == [])
        || (&& at + |text| <= |h| && h[at..at + |text|] == text
            && (|text| < width && at + |text| < |h| ==> h[at + |text|] == 0)))
  }

  lemma FieldReads(h: Bytes, at: nat, width: nat, text: Bytes)
    requires Field(h, at, width, text)
    ensures UntilNul(Slice(h, at, at + width)) == text
  {
    var field := Slice(h, at, at + width);
    if |h| > at {
      var end := if at + width <= |h| then at + width else |h|;
      assert field == h[at..end];
      assert field[..|text|] == text;
      if |text| == end - at {
        assert field == text;
        NoNul(text);
      } else {
        assert field[|text|] == 0;
        assert field == text + [0] + field[|text| + 1..];
        NulEnds(text, field[|text| + 1..]);
      }
    }
  }

  lemma {:induction false} NoNul(text: Bytes)
    requires 0 !in text
    ensures UntilNul(text) == text
  {
    if text != [] { NoNul(text[1..]); }
  }

  /** The name of a header: its prefix, a slash and its name, or its name alone. */
  lemma HeaderName(h: Bytes, prefix: Bytes, name: Bytes)
    requires Field(h, 0, 100, name) && Field(h, 345, 155, prefix)
    ensures OwnName(h) ==
      if Utf8(name) && Utf8(prefix) then Some(if prefix == [] then name else prefix + [47] + name) else None
  {
    FieldReads(h, 0, 100, name);
    FieldReads(h, 345, 155, prefix);
    hide UntilNul, Slice, Utf8;
  }

  /** The kind of a header, by its type flag. */
  lemma HeaderKind(h: Bytes)
    requires |h| > 156
    ensures KindOf(h).Global? <==> h[156] == 103
    ensures KindOf(h).Pax? <==> h[156] == 120
    ensures KindOf(h).LongName? <==> h[156] == 76
    ensures KindOf(h).LongLink? <==> h[156] == 75
    ensures IsExtension(h) <==> h[156] in {75, 76, 120}
  {
    assert Slice(h, 156, 157) == [h[156]];
  }

  ghost predicate Octals(digits: Bytes) {
    digits != [] && forall i | 0 <= i < |digits| :: 48 <= digits[i] <= 55
  }

  /** The number octal digits write, the last one counting ones. */
  function Value(digits: Bytes): int {
    if digits == [] then 0
    else
      var k, last: int := |digits| - 1, digits[|digits| - 1];
      8 * Value(digits[..k]) + (last - 48)
  }

  lemma {:induction false} ValueNat(digits: Bytes)
    requires forall i | 0 <= i < |digits| :: 48 <= digits[i] <= 55
    ensures Value(digits) >= 0
  {
    if digits != [] { ValueNat(digits[..|digits| - 1]); }
  }

  lemma ValueSnoc(digits: Bytes, d: Byte)
    ensures Value(digits + [d]) == 8 * Value(digits) + (d - 48)
  {
    assert (digits + [d])[..|digits|] == digits;
  }

  /** Reading on from `before` adds up to the number of the whole. */
  lemma {:induction false} DigitsRead(before: Bytes, value: nat, digits: Bytes)
    requires Octals(digits) && value == Value(before)
    ensures OctalDigits(digits, value, true) == OctalDigits(digits, value, false) == Some(Value(before + digits))
    ensures Value(before + digits) >= 0
    decreases |digits|
  {
    var d, rest := digits[0], digits[1..];
    ValueSnoc(before, d);
    assert 48 <= d <= 55;
    var next: nat := 8 * value + (d - 48);
    OneDigit(digits, value);
    NoDigit(next);
    if rest != [] { OctalsRest(digits); }
    hide Value, OctalDigits, Octals;
    if rest == [] {
      assert before + digits == before + [d];
    } else {
      assert before + [d] + rest == before + digits;
      DigitsRead(before + [d], next, rest);
    }
  }

  lemma OctalsRest(digits: Bytes)
    requires Octals(digits) && |digits| > 1
    ensures Octals(digits[1..])
  {
  }

  lemma NoDigit(value: nat)
    ensures OctalDigits([], value, false) == Some(value)
  {
  }

  /** Spaces, tabs and the like. */
  ghost predicate Blank(b: Bytes) {
    forall i | 0 <= i < |b| :: b[i] == 32 || 9 <= b[i] <= 13
  }

  lemma {:induction false} StripBlanks(before: Bytes, digits: Bytes, after: Bytes)
    requires Blank(before) && Blank(after) && Octals(digits)
    ensures Strip(before + digits + after) == digits
    decreases |before| + |after|
  {
    var text := before + digits + after;
    if before != [] {
      assert text[0] == before[0] && text[1..] == before[1..] + digits + after;
      StripBlanks(before[1..], digits, after);
    } else if after != [] {
      assert text[0] == digits[0] && text[|text| - 1] == after[|after| - 1];
      assert text[..|text| - 1] == before + digits + after[..|after| - 1];
      StripBlanks(before, digits, after[..|after| - 1]);
    } else {
      assert text == digits;
    }
  }

  /** The size of a header, octal digits among blanks. */
  lemma HeaderSize(h: Bytes, before: Bytes, digits: Bytes, after: Bytes)
    requires Blank(before) && Blank(after) && Octals(digits) && Field(h, 124, 12, before + digits + after)
    ensures RecordSize(h) == Some(Value(digits)) && Value(digits) >= 0
  {
    FieldReads(h, 124, 12, before + digits + after);
    StripBlanks(before, digits, after);
    OctalReads(digits);
    hide Strip, Octal, UntilNul, Slice, Field, Value;
  }

  lemma OctalReads(digits: Bytes)
    requires Octals(digits)
    ensures Octal(digits) == Some(Value(digits)) && Value(digits) >= 0
  {
    assert 48 <= digits[0] <= 55 && (|digits| >= 2 ==> 48 <= digits[1] <= 55);
    assert Value([]) == 0 && [] + digits == digits;
    DigitsRead([], 0, digits);
    hide OctalDigits, Value;
  }

  /** What else Python reads as a number in base 8: a sign, a prefix, and underscores between digits. */
  lemma OctalForms(a: Bytes, b: Bytes)
    requires Octals(a) && Octals(b)
    ensures Octal([43] + a) == Some(Value(a)) && Octal([45] + a) == Some(-Value(a))
    ensures Octal([48, 111] + a) == Octal([48, 79] + a) == Some(Value(a))
    ensures Octal(a + [95] + b) == Some(Value(a + b))
  {
    SignedForms(a);
    PrefixedForm(111, a);
    PrefixedForm(79, a);
    UnderscoredForm(a, b);
    hide Value, Octal;
  }

  lemma UnderscoredForm(a: Bytes, b: Bytes)
    requires Octals(a) && Octals(b)
    ensures Octal(a + [95] + b) == Some(Value(a + b))
  {
    var text := a + [95] + b;
    assert Value([]) == 0;
    hide Value, OctalDigits, Octal;
    Underscored([], 0, a, b);
    assert [] + a + b == a + b;
    assert text[0] == a[0] && text[1] == if |a| >= 2 then a[1] else 95;
    OctalPlain(text);
  }

  lemma OctalPlain(raw: Bytes)
    requires raw != [] && 48 <= raw[0] <= 55 && (|raw| >= 2 ==> raw[1] != 79 && raw[1] != 111)
    ensures Octal(raw) == OctalDigits(raw, 0, true)
  {
  }

  lemma SignedForms(a: Bytes)
    requires Octals(a)
    ensures Octal([43] + a) == Some(Value(a)) && Octal([45] + a) == Some(-Value(a))
  {
    OctalReads(a);
    assert ([43] + a)[1..] == a && ([45] + a)[1..] == a;
    assert a[0] != 43 && a[0] != 45;
    hide Value, OctalDigits;
  }

  lemma PrefixedForm(c: Byte, a: Bytes)
    requires Octals(a) && (c == 111 || c == 79)
    ensures Octal([48, c] + a) == Some(Value(a))
  {
    var text := [48, c] + a;
    assert text[2..] == a && text[0] == 48 && text[1] == c && text[2] == a[0];
    assert 48 <= a[0] <= 55 && [] + a == a && Value([]) == 0;
    hide Value, OctalDigits;
    DigitsRead([], 0, a);
  }

  lemma {:induction false} Underscored(before: Bytes, value: nat, a: Bytes, b: Bytes)
    requires Octals(a) && Octals(b) && value == Value(before)
    ensures OctalDigits(a + [95] + b, value, true) == OctalDigits(a + [95] + b, value, false)
         == Some(Value(before + a + b))
    decreases |a|
  {
    var d, rest, text := a[0], a[1..], a + [95] + b;
    ValueSnoc(before, d);
    assert 48 <= d <= 55;
    assert text[0] == d && text[1..] == rest + [95] + b;
    var next: nat := 8 * value + (d - 48);
    OneDigit(text, value);
    if rest != [] { OctalsRest(a); }
    hide Value, OctalDigits, Octals;
    if rest == [] {
      assert rest + [95] + b == [95] + b && a == [d];
      OneUnderscore(b, next);
      DigitsRead(before + [d], next, b);
      assert before + [d] + b == before + a + b;
    } else {
      Underscored(before + [d], next, rest, b);
      assert before + [d] + rest + b == before + a + b;
    }
  }

  lemma OneDigit(text: Bytes, value: nat)
    requires text != [] && 48 <= text[0] <= 55
    ensures OctalDigits(text, value, true) == OctalDigits(text, value, false)
         == OctalDigits(text[1..], 8 * value + (text[0] - 48), false)
  {
  }

  lemma OneUnderscore(rest: Bytes, value: nat)
    ensures OctalDigits([95] + rest, value, false) == OctalDigits(rest, value, true)
  {
    assert ([95] + rest)[1..] == rest;
  }

  // ------------------------------------------------------------------------ text

  /** A Unicode scalar value: no surrogates. */
  ghost predicate Scalar(code: int) {
    0 <= code < 0xD800 || 0xE000 <= code < 0x110000
  }

  /** Its bytes: RFC 3629, section 3. */
  ghost function Encoded(code: int): Bytes
    requires Scalar(code)
  {
    if code < 0x80 then [code]
    else if code < 0x800 then [192 + code / 64, 128 + code % 64]
    else if code < 0x10000 then [224 + code / 4096, 128 + code / 64 % 64, 128 + code % 64]
    else [240 + code / 262144, 128 + code / 4096 % 64, 128 + code / 64 % 64, 128 + code % 64]
  }

  ghost predicate Scalars(codes: seq<int>) {
    forall i | 0 <= i < |codes| :: Scalar(codes[i])
  }

  ghost function EncodedAll(codes: seq<int>): Bytes
    requires Scalars(codes)
  {
    if codes == [] then [] else Encoded(codes[0]) + EncodedAll(codes[1..])
  }

  lemma EncodedReads(code: int, rest: Bytes)
    requires Scalar(code)
    ensures Utf8(Encoded(code) + rest) <==> Utf8(rest)
  {
    var b := Encoded(code) + rest;
    assert b[|Encoded(code)|..] == rest;
    if 0x800 <= code < 0x10000 {
      assert code / 64 / 64 == code / 4096;
      assert code / 64 % 64 == code / 64 - 64 * (code / 4096);
    } else if code >= 0x10000 {
      assert code / 4096 / 64 == code / 262144;
      assert code / 4096 % 64 == code / 4096 - 64 * (code / 262144);
    }
  }

  /** Base 64. */
  lemma Digit64(a: nat, b: nat)
    requires b < 64
    ensures (a * 64 + b) / 64 == a && (a * 64 + b) % 64 == b
  {
  }

  lemma Digits64(a: nat, b1: nat, b2: nat, b3: nat)
    requires b1 < 64 && b2 < 64 && b3 < 64
    ensures (a * 64 + b3) / 64 == a && (a * 64 + b3) % 64 == b3
    ensures var code := a * 4096 + b2 * 64 + b3; code / 4096 == a && code / 64 % 64 == b2 && code % 64 == b3
    ensures var code := a * 262144 + b1 * 4096 + b2 * 64 + b3;
      code / 262144 == a && code / 4096 % 64 == b1 && code / 64 % 64 == b2 && code % 64 == b3
  {
    Digit64(a, b3);
    Three64(a, b2, b3);
    Four64(a, b1, b2, b3);
  }

  lemma Three64(a: nat, b2: nat, b3: nat)
    requires b2 < 64 && b3 < 64
    ensures var code := a * 4096 + b2 * 64 + b3; code / 4096 == a && code / 64 % 64 == b2 && code % 64 == b3
  {
    Digit64(a, b2);
    Digit64(a * 64 + b2, b3);
    var code := a * 4096 + b2 * 64 + b3;
    assert code == (a * 64 + b2) * 64 + b3;
    Quotients(code);
  }

  lemma Four64(a: nat, b1: nat, b2: nat, b3: nat)
    requires b1 < 64 && b2 < 64 && b3 < 64
    ensures var code := a * 262144 + b1 * 4096 + b2 * 64 + b3;
      code / 262144 == a && code / 4096 % 64 == b1 && code / 64 % 64 == b2 && code % 64 == b3
  {
    var code := a * 262144 + b1 * 4096 + b2 * 64 + b3;
    Three64(a * 64 + b1, b2, b3);
    Digit64(a, b1);
    assert code == (a * 64 + b1) * 4096 + b2 * 64 + b3;
    Quotients(code);
  }

  lemma Quotients(code: nat)
    ensures code / 64 / 64 == code / 4096 && code / 4096 / 64 == code / 262144
  {
  }

  /** What reads as UTF-8 begins with the bytes of some scalar value. */
  lemma FirstScalar(b: Bytes) returns (code: int)
    requires Utf8(b) && b != []
    ensures Scalar(code) && Encoded(code) <= b && Utf8(b[|Encoded(code)|..])
  {
    var b0: int := b[0];
    if b0 < 128 {
      code := b0;
    } else if b0 <= 223 {
      code := TwoBytes(b);
    } else if b0 <= 239 {
      code := ThreeBytes(b);
    } else {
      code := FourBytes(b);
    }
  }

  lemma TwoBytes(b: Bytes) returns (code: int)
    requires Utf8(b) && b != [] && 128 <= b[0] <= 223
    ensures Scalar(code) && Encoded(code) <= b && Utf8(b[|Encoded(code)|..])
  {
    var b0: int, b1: int := b[0] as int - 192, b[1] as int - 128;
    Digits64(b0, 0, 0, b1);
    code := b0 * 64 + b1;
    assert Encoded(code) == b[..2];
  }

  lemma ThreeBytes(b: Bytes) returns (code: int)
    requires Utf8(b) && b != [] && 224 <= b[0] <= 239
    ensures Scalar(code) && Encoded(code) <= b && Utf8(b[|Encoded(code)|..])
  {
    var b0: int, b1: int, b2: int := b[0] as int - 224, b[1] as int - 128, b[2] as int - 128;
    Digits64(b0, 0, b1, b2);
    code := b0 * 4096 + b1 * 64 + b2;
    assert Encoded(code) == b[..3];
  }

  lemma FourBytes(b: Bytes) returns (code: int)
    requires Utf8(b) && b != [] && 240 <= b[0]
    ensures Scalar(code) && Encoded(code) <= b && Utf8(b[|Encoded(code)|..])
  {
    var b0: int, b1: int, b2: int, b3: int :=
      b[0] as int - 240, b[1] as int - 128, b[2] as int - 128, b[3] as int - 128;
    Digits64(b0, b1, b2, b3);
    code := b0 * 262144 + b1 * 4096 + b2 * 64 + b3;
    assert Encoded(code) == b[..4];
  }

  /** A name decodes exactly when it is the UTF-8 text of some scalar values. */
  lemma {:induction false} Utf8Iff(b: Bytes)
    ensures Utf8(b) <==> exists codes :: Scalars(codes) && EncodedAll(codes) == b
    decreases |b|
  {
    hide Utf8, Encoded;
    if b == [] {
      assert Scalars([]) && EncodedAll([]) == [];
      assert Utf8([]) by { Utf8Nothing(); }
    } else {
      if Utf8(b) {
        var code := FirstScalar(b);
        EncodedSome(code);
        var rest := b[|Encoded(code)|..];
        Utf8Iff(rest);
        var codes :| Scalars(codes) && EncodedAll(codes) == rest;
        var all := [code] + codes;
        assert all[1..] == codes && Encoded(code) + rest == b;
        assert Scalars(all) && EncodedAll(all) == b;
      }
      if codes :| Scalars(codes) && EncodedAll(codes) == b {
        EncodedSome(codes[0]);
        var rest := EncodedAll(codes[1..]);
        Utf8Iff(rest);
        assert Scalars(codes[1..]);
        EncodedReads(codes[0], rest);
      }
    }
  }

  lemma Utf8Nothing()
    ensures Utf8([])
  {
  }

  lemma EncodedSome(code: int)
    requires Scalar(code)
    ensures Encoded(code) != []
  {
  }

  // ------------------------------------------------------------------ extensions

  lemma {:induction false} SplitAt(front: Bytes, c: Byte, rest: Bytes)
    requires c !in front
    ensures Before(front + [c] + rest, c) == front && T.After(front + [c] + rest, c) == Some(rest)
    decreases |front|
  {
    var text := front + [c] + rest;
    if front == [] {
      assert text == [c] + rest;
    } else {
      assert text[0] == front[0] && text[1..] == front[1..] + [c] + rest;
      SplitAt(front[1..], c, rest);
    }
  }

  lemma {:induction false} SplitNowhere(text: Bytes, c: Byte)
    requires c !in text
    ensures Before(text, c) == text && T.After(text, c) == None
    decreases |text|
  {
    if text != [] { SplitNowhere(text[1..], c); }
  }

  /** A pax record: its length in digits, a space, a keyword, an equals sign, a value and a newline. */
  datatype PaxRecord = PaxRecord(length: Bytes, keyword: Bytes, value: Bytes)

  function RecordBytes(r: PaxRecord): Bytes {
    r.length + [32] + r.keyword + [61] + r.value + [10]
  }

  function AllBytes(records: seq<PaxRecord>): Bytes {
    if records == [] then [] else RecordBytes(records[0]) + AllBytes(records[1..])
  }

  /** No byte that ends a field stands in it too soon; a value may hold newlines. */
  ghost predicate WellFormed(r: PaxRecord) {
    && 10 !in r.length && 32 !in r.length && 61 !in r.length
    && 10 !in r.keyword && 61 !in r.keyword
  }

  /** The line of a record is read whole, if there is no newline in its value. */
  lemma PaxLine(r: PaxRecord, rest: Bytes)
    requires WellFormed(r) && 10 !in r.value
    ensures PaxPathOf(RecordBytes(r) + rest) ==
      if r.keyword != [112, 97, 116, 104] then PaxPathOf(rest)
      else if Utf8(r.value) then Path(r.value) else Undecodable
  {
    var line := r.length + [32] + r.keyword + [61] + r.value;
    var data := RecordBytes(r) + rest;
    assert data == line + [10] + rest && data[|line| + 1..] == rest;
    SplitAt(line, 10, rest);
    PaxKeyword(r, r.value);
    hide Before, T.After, Utf8, RecordBytes;
    assert |line| < |data|;
  }

  /** Length and keyword of a record. */
  lemma PaxKeyword(r: PaxRecord, value: Bytes)
    requires WellFormed(r)
    ensures var line := r.length + [32] + r.keyword + [61] + value;
      T.After(line, 61) == Some(value) && Keyword(Before(line, 61)) == r.keyword
  {
    var key := r.length + [32] + r.keyword;
    SplitAt(key, 61, value);
    SplitAt(r.length, 32, r.keyword);
    assert r.length + [32] + r.keyword + [61] + value == key + [61] + value;
  }

  /** A path with a newline in it is read up to the newline. */
  lemma PaxPathCut(r: PaxRecord, front: Bytes, back: Bytes, rest: Bytes)
    requires WellFormed(r) && r.keyword == [112, 97, 116, 104] && r.value == front + [10] + back && 10 !in front
    ensures PaxPathOf(RecordBytes(r) + rest) == if Utf8(front) then Path(front) else Undecodable
  {
    var line := r.length + [32] + r.keyword + [61] + front;
    var data := RecordBytes(r) + rest;
    assert data == line + [10] + (back + [10] + rest);
    SplitAt(line, 10, back + [10] + rest);
    PaxKeyword(r, front);
    hide Before, T.After, Utf8, RecordBytes;
  }

  /** The data of a pax header: the first path among its records, whatever pads them. */
  lemma {:induction false} PaxFirstPath(records: seq<PaxRecord>, k: nat, padding: Bytes)
    requires k < |records| && forall i | 0 <= i <= k :: WellFormed(records[i]) && 10 !in records[i].value
    requires forall i | 0 <= i < k :: records[i].keyword != [112, 97, 116, 104]
    requires records[k].keyword == [112, 97, 116, 104]
    ensures PaxPathOf(AllBytes(records) + padding) ==
      if Utf8(records[k].value) then Path(records[k].value) else Undecodable
    decreases k
  {
    hide PaxPathOf, RecordBytes;
    var rest := AllBytes(records[1..]) + padding;
    assert AllBytes(records) + padding == RecordBytes(records[0]) + rest;
    PaxLine(records[0], rest);
    if k > 0 { PaxFirstPath(records[1..], k - 1, padding); }
  }

  /** Without one there is no path. */
  lemma {:induction false} PaxNoPath(records: seq<PaxRecord>, padding: Bytes)
    requires forall i | 0 <= i < |records| :: WellFormed(records[i]) && 10 !in records[i].value
    requires forall i | 0 <= i < |records| :: records[i].keyword != [112, 97, 116, 104]
    requires 61 !in padding && 10 !in padding
    ensures PaxPathOf(AllBytes(records) + padding) == NoPath
    decreases |records|
  {
    if records == [] {
      SplitNowhere(padding, 10);
      SplitNowhere(padding, 61);
      assert AllBytes(records) + padding == padding;
    } else {
      hide PaxPathOf, RecordBytes;
      var rest := AllBytes(records[1..]) + padding;
      assert AllBytes(records) + padding == RecordBytes(records[0]) + rest;
      PaxLine(records[0], rest);
      PaxNoPath(records[1..], padding);
    }
  }

  // --------------------------------------------------------------- a member's name

  /** The header names its member: behind its prefix and a slash, or with none. */
  ghost predicate HeaderNames(h: Bytes, own: Bytes) {
    exists prefix, name ::
      && Field(h, 0, 100, name) && Field(h, 345, 155, prefix) && Utf8(name) && Utf8(prefix)
      && own == if prefix == [] then name else prefix + [47] + name
  }

  /** A pax header whose first path is `name`. */
  ghost predicate PaxNames(x: Block, records: seq<PaxRecord>, k: nat, padding: Bytes, name: Bytes) {
    && |x[0]| > 156 && x[0][156] == 120 && Join(x[1..]) == AllBytes(records) + padding
    && k < |records| && (forall i | 0 <= i <= k :: WellFormed(records[i]) && 10 !in records[i].value)
    && (forall i | 0 <= i < k :: records[i].keyword != [112, 97, 116, 104])
    && records[k].keyword == [112, 97, 116, 104] && records[k].value == name && Utf8(name)
  }

  /** A GNU long-name header whose data is `name` and a NUL. */
  ghost predicate LongNames(x: Block, padding: Bytes, name: Bytes) {
    && |x[0]| > 156 && x[0][156] == 76 && Join(x[1..]) == name + [0] + padding && 0 !in name && Utf8(name)
  }

  ghost predicate Naming(x: Block, name: Bytes) {
    || (exists records, k, padding :: PaxNames(x, records, k, padding, name))
    || (exists padding :: LongNames(x, padding, name))
  }

  /** A pax header without a path. */
  ghost predicate PaxSilent(x: Block, records: seq<PaxRecord>, padding: Bytes) {
    && |x[0]| > 156 && x[0][156] == 120 && Join(x[1..]) == AllBytes(records) + padding
    && (forall i | 0 <= i < |records| :: WellFormed(records[i]) && 10 !in records[i].value)
    && (forall i | 0 <= i < |records| :: records[i].keyword != [112, 97, 116, 104])
    && 61 !in padding && 10 !in padding
  }

  /** A header that says nothing of the name: a long link name, or a pax header without a path. */
  ghost predicate Silent(x: Block) {
    (|x[0]| > 156 && x[0][156] == 75) || exists records, padding :: PaxSilent(x, records, padding)
  }

  /** The last extension header that names the member, or its own header, says `name`. */
  ghost predicate LastNamed(exts: seq<Block>, own: Bytes, name: Bytes) {
    && (forall i | 0 <= i < |exts| :: Silent(exts[i]) || exists n :: Naming(exts[i], n))
    && (|| (name == own && forall i | 0 <= i < |exts| :: Silent(exts[i]))
        || exists k :: 0 <= k < |exts| && Naming(exts[k], name) && forall i | k < i < |exts| :: Silent(exts[i]))
  }

  /** The item's name is written in its bytes. */
  ghost predicate Written(item: Item) {
    exists own :: HeaderNames(item.head[0], own) && LastNamed(item.exts, own, item.name)
  }

  lemma NamingOverrides(x: Block, own: Bytes, name: Bytes)
    requires Naming(x, name)
    ensures Overridden(own, x) == Some(name)
  {
    hide PaxNames, LongNames, Overridden;
    if records, k, padding :| PaxNames(x, records, k, padding, name) {
      PaxOverrides(x, records, k, padding, own, name);
    } else {
      var padding :| LongNames(x, padding, name);
      LongOverrides(x, padding, own, name);
    }
  }

  lemma PaxOverrides(x: Block, records: seq<PaxRecord>, k: nat, padding: Bytes, own: Bytes, name: Bytes)
    requires PaxNames(x, records, k, padding, name)
    ensures Overridden(own, x) == Some(name)
  {
    PaxFirstPath(records, k, padding);
    HeaderKind(x[0]);
    hide KindOf, PaxPathOf, Join, AllBytes, Utf8, WellFormed;
  }

  lemma LongOverrides(x: Block, padding: Bytes, own: Bytes, name: Bytes)
    requires LongNames(x, padding, name)
    ensures Overridden(own, x) == Some(name)
  {
    NulEnds(name, padding);
    HeaderKind(x[0]);
    hide KindOf, PaxPathOf, Join, UntilNul, Utf8;
  }

  lemma SilentKeeps(x: Block, own: Bytes)
    requires Silent(x)
    ensures Overridden(own, x) == Some(own)
  {
    HeaderKind(x[0]);
    hide KindOf, PaxPathOf, Join, AllBytes, Utf8, WellFormed;
    if x[0][156] != 75 {
      var records, padding :| PaxSilent(x, records, padding);
      PaxNoPath(records, padding);
    }
  }

  /** So the name is resolved, through any number of extension headers. */
  lemma {:induction false} LastNamedResolves(exts: seq<Block>, own: Bytes, name: Bytes)
    requires LastNamed(exts, own, name)
    ensures ResolveFrom(own, exts) == Some(name)
    decreases |exts|, 1
  {
    hide Naming, Silent, Overridden;
    if exts != [] {
      var rest := exts[1..];
      forall i | 0 <= i < |rest| ensures rest[i] == exts[i + 1] {}
      if forall i | 0 <= i < |exts| :: Silent(exts[i]) {
        if name == own {
          SilentKeeps(exts[0], own);
          LastNamedResolves(rest, own, name);
        } else {
          NamedThenSilent(exts, own, name);
        }
      } else {
        NamedThenSilent(exts, own, name);
      }
    }
  }

  lemma NamedThenSilent(exts: seq<Block>, own: Bytes, name: Bytes)
    requires exts != [] && LastNamed(exts, own, name)
    requires exists k :: 0 <= k < |exts| && Naming(exts[k], name) && forall i | k < i < |exts| :: Silent(exts[i])
    ensures ResolveFrom(own, exts) == Some(name)
    decreases |exts|, 0
  {
    hide Naming, Silent, Overridden;
    var rest := exts[1..];
    forall i | 0 <= i < |rest| ensures rest[i] == exts[i + 1] {}
    var k :| 0 <= k < |exts| && Naming(exts[k], name) && forall i | k < i < |exts| :: Silent(exts[i]);
    if k == 0 {
      NamingOverrides(exts[0], own, name);
      LastNamedResolves(rest, name, name);
    } else {
      assert Naming(rest[k - 1], name);
      if Silent(exts[0]) {
        SilentKeeps(exts[0], own);
        assert LastNamed(rest, own, name);
        NamedThenSilent(rest, own, name);
      } else {
        var n :| Naming(exts[0], n);
        NamingOverrides(exts[0], own, n);
        assert LastNamed(rest, n, name);
        NamedThenSilent(rest, n, name);
      }
    }
  }

  lemma WrittenResolves(item: Item)
    requires Written(item)
    ensures Resolve(item.head[0], item.exts) == Some(item.name)
  {
    hide LastNamed, Field, Utf8, OwnName;
    var own :| HeaderNames(item.head[0], own) && LastNamed(item.exts, own, item.name);
    var prefix, name :| && Field(item.head[0], 0, 100, name) && Field(item.head[0], 345, 155, prefix)
                        && Utf8(name) && Utf8(prefix) && own == if prefix == [] then name else prefix + [47] + name;
    HeaderName(item.head[0], prefix, name);
    LastNamedResolves(item.exts, own, item.name);
  }

  // ------------------------------------------------------------ cutting a member out

  /** A header that is not all zeros, and the data records its size field asks for, all whole. */
  ghost predicate Whole(b: Block) {
    && (forall i | 0 <= i < |b| :: |b[i]| == 512) && (exists i | 0 <= i < 512 :: b[0][i] != 0)
    && exists before, digits, after ::
         && Blank(before) && Octals(digits) && Blank(after) && Field(b[0], 124, 12, before + digits + after)
         && |b| == 1 + (Value(digits) + 511) / 512
  }

  lemma WholeFits(b: Block)
    requires Whole(b)
    ensures Fits(b, false)
  {
    var before, digits, after :| && Blank(before) && Octals(digits) && Blank(after)
                                 && Field(b[0], 124, 12, before + digits + after)
                                 && |b| == 1 + (Value(digits) + 511) / 512;
    HeaderSize(b[0], before, digits, after);
    var i :| 0 <= i < 512 && b[0][i] != 0;
    var zeros: Bytes := seq(RECORD, j => 0);
    assert b[0][i] != zeros[i];
    hide RecordSize;
  }

  /** A member as it should be written: whole blocks, a plain type flag, and its name in its headers. */
  ghost predicate Member(item: Item) {
    && !item.global && Written(item) && Whole(item.head) && item.head[0][156] !in {75, 76, 103, 120}
    && forall i | 0 <= i < |item.exts| :: Whole(item.exts[i]) && item.exts[i][0][156] in {75, 76, 120}
  }

  lemma MemberFits(item: Item)
    requires Member(item)
    ensures ItemFits(item, false)
  {
    hide Written, Fits, Resolve, RecordSize, KindOf, IsExtension, Whole;
    WrittenResolves(item);
    MemberKind(item);
    WholeFits(item.head);
    forall i | 0 <= i < |item.exts| ensures Fits(item.exts[i], false) { WholeFits(item.exts[i]); }
  }

  lemma MemberKind(item: Item)
    requires Member(item)
    ensures KindOf(item.head[0]).Member?
    ensures forall i | 0 <= i < |item.exts| :: IsExtension(item.exts[i][0])
  {
    hide Written, KindOf, IsExtension;
    assert |item.head[0]| == 512 by { hide *; WholeHeader(item.head); }
    HeaderKind(item.head[0]);
    KindsExclusive(item.head[0]);
    forall i | 0 <= i < |item.exts| ensures IsExtension(item.exts[i][0]) {
      WholeHeader(item.exts[i]);
      HeaderKind(item.exts[i][0]);
    }
  }

  lemma WholeHeader(b: Block)
    requires Whole(b)
    ensures |b[0]| == 512 && Full(b)
  {
  }

  /** A global header, with nothing before it. */
  ghost predicate Global(item: Item) {
    item.global && item.exts == [] && item.name == [] && Whole(item.head) && item.head[0][156] == 103
  }

  lemma GlobalFits(item: Item)
    requires Global(item)
    ensures ItemFits(item, false)
  {
    WholeFits(item.head);
    WholeHeader(item.head);
    HeaderKind(item.head[0]);
    hide Whole, Fits, KindOf;
  }

  /** An end of archive: nothing, or a zero record and whatever whole records follow. */
  ghost predicate End(end: seq<Bytes>) {
    (forall i | 0 <= i < |end| :: |end[i]| == 512) && (end != [] ==> end[0] == seq(512, i => 0))
  }

  /** Which item stands where. */
  ghost predicate Laid(globals: seq<Item>, members: seq<Item>) {
    (forall i | 0 <= i < |globals| :: Global(globals[i])) && (forall i | 0 <= i < |members| :: Member(members[i]))
  }

  lemma LaidReadable(globals: seq<Item>, members: seq<Item>, end: seq<Bytes>)
    requires Laid(globals, members) && End(end)
    ensures Readable(Archive(globals + members, [], end))
  {
    hide Global, Member, ItemFits;
    var items := globals + members;
    forall i | 0 <= i < |items| ensures ItemFits(items[i], false) {
      if i < |globals| { GlobalFits(globals[i]); } else { MemberFits(members[i - |globals|]); }
    }
    forall x: Item { FitsWeaker(x, end == []); }
    assert Stops(end);
  }

  lemma {:induction false} FlatFull(blocks: seq<Block>)
    requires forall i | 0 <= i < |blocks| :: Full(blocks[i])
    ensures Full(Flat(blocks))
  {
    if blocks != [] { FlatFull(blocks[1..]); }
  }

  lemma {:induction false} LaidFull(items: seq<Item>)
    requires forall i | 0 <= i < |items| :: Global(items[i]) || Member(items[i])
    ensures Full(AllRecords(items))
    decreases |items|
  {
    hide Global, Member;
    if items != [] {
      ItemFull(items[0]);
      hide ItemRecords;
      LaidFull(items[1..]);
    }
  }

  lemma ItemFull(item: Item)
    requires Global(item) || Member(item)
    ensures Full(ItemRecords(item))
  {
    hide Whole, Written;
    WholeHeader(item.head);
    forall i | 0 <= i < |item.exts| ensures Full(item.exts[i]) { WholeHeader(item.exts[i]); }
    FlatFull(item.exts);
  }

  lemma NextItem(items: seq<Item>, x: Item, doomed: Bytes)
    ensures Clean(items + [x]) <==> Clean(items) && (x.global && !HasMember(items) ==> x.exts == [])
    ensures Without(items + [x], doomed) == Without(items, doomed) +
              if (x.global && !HasMember(items)) || (!x.global && x.name == doomed) then [] else [x]
    ensures Count(items + [x], doomed) == Count(items, doomed) + if !x.global && x.name == doomed then 1 else 0
    ensures HasMember(items + [x]) <==> HasMember(items) || !x.global
  {
    HasMemberSnoc(items, x);
    hide HasMember;
    assert (items + [x])[..|items|] == items;
  }

  lemma NoItems(doomed: Bytes)
    ensures Clean([]) && Without([], doomed) == [] && Count([], doomed) == 0 && !HasMember([])
  {
  }

  /** Global headers before the members all go, and cleanly. */
  lemma {:induction false} GlobalsGo(globals: seq<Item>, doomed: Bytes)
    requires forall i | 0 <= i < |globals| :: globals[i].global && globals[i].exts == []
    ensures Clean(globals) && Without(globals, doomed) == [] && Count(globals, doomed) == 0 && !HasMember(globals)
    decreases |globals|
  {
    hide Clean, Without, Count, HasMember;
    if globals == [] {
      NoItems(doomed);
    } else {
      var k := |globals| - 1;
      GlobalsGo(globals[..k], doomed);
      NextItem(globals[..k], globals[k], doomed);
      assert globals[..k] + [globals[k]] == globals;
    }
  }

  /** Behind global headers only the doomed members go. */
  lemma {:induction false} LeftOver(globals: seq<Item>, members: seq<Item>, doomed: Bytes)
    requires forall i | 0 <= i < |globals| :: globals[i].global && globals[i].exts == []
    requires forall i | 0 <= i < |members| :: !members[i].global
    ensures Clean(globals + members)
    ensures Without(globals + members, doomed) == Others(members, doomed)
    ensures Count(globals + members, doomed) == |members| - |Others(members, doomed)|
    decreases |members|
  {
    hide Clean, Without, Count, HasMember;
    if members == [] {
      GlobalsGo(globals, doomed);
      assert globals + members == globals;
    } else {
      var k := |members| - 1;
      LeftOver(globals, members[..k], doomed);
      NextItem(globals + members[..k], members[k], doomed);
      assert globals + members[..k] + [members[k]] == globals + members;
    }
  }

  /** The members of other names. */
  function Others(members: seq<Item>, doomed: Bytes): seq<Item> {
    if members == [] then []
    else
      var k := |members| - 1;
      if members[k].name == doomed then Others(members[..k], doomed) else Others(members[..k], doomed) + [members[k]]
  }

  lemma {:induction false} AllOthers(members: seq<Item>, doomed: Bytes)
    requires forall i | 0 <= i < |members| :: members[i].name != doomed
    ensures Others(members, doomed) == members
    decreases |members|
  {
    if members != [] {
      var k := |members| - 1;
      AllOthers(members[..k], doomed);
      assert members[..k] + [members[k]] == members;
    }
  }

  lemma {:induction false} AllButOne(members: seq<Item>, k: nat, doomed: Bytes)
    requires k < |members| && forall i | 0 <= i < |members| :: members[i].name == doomed <==> i == k
    ensures Others(members, doomed) == members[..k] + members[k + 1..]
    decreases |members|
  {
    var last := |members| - 1;
    var front := members[..last];
    if k < last {
      AllButOne(front, k, doomed);
      assert front[..k] == members[..k] && members[k + 1..] == front[k + 1..] + [members[last]];
    } else {
      AllOthers(front, doomed);
      assert members[k + 1..] == [] && members[..k] + [] == front;
    }
  }

  /** What the source makes of a readable archive that was never short of a record. */
  lemma ReadableOutcome(items: seq<Item>, end: seq<Bytes>, doomed: Bytes, turns: nat)
    requires Readable(Archive(items, [], end)) && Full(AllRecords(items)) && Full(end)
    requires Clean(items) && Count(items, doomed) == 1
    requires turns >= |AllRecords(items) + end|
    ensures Transformed(Join(AllRecords(items) + end), doomed, turns)
         == Some(Ok(Join(AllRecords(Without(items, doomed)) + end)))
  {
    var a, rs := Archive(items, [], end), AllRecords(items) + end;
    ReadBack(items, end);
    CleanKept(items, doomed);
    hide Readable, Parse, AllRecords, Without, Count, Clean, Join, Records, Kept, Full;
    WalkSticks(rs, doomed);
    hide Transformed, NeverSlips;
    TransformedIsOutcome(Join(rs), doomed, turns);
    assert Kept(items, doomed) + Flat([]) == Kept(items, doomed);
  }

  /** Full records are cut and read as they were laid out. */
  lemma ReadBack(items: seq<Item>, end: seq<Bytes>)
    requires Readable(Archive(items, [], end)) && Full(AllRecords(items)) && Full(end)
    ensures var rs := AllRecords(items) + end;
      Records(Join(rs)) == rs && Parse(rs, []) == Ok(Archive(items, [], end))
  {
    var a, rs := Archive(items, [], end), AllRecords(items) + end;
    assert Chunked(rs);
    hide Readable, Parse, AllRecords, Join, Records, Chunked, Full;
    Reparse(a);
    assert AllRecords(items) + Flat([]) == AllRecords(items);
    assert Layout(a) == rs;
    JoinRecords(rs);
  }

  /**
   An archive of global headers and well-written members, exactly one of the doomed name: the source ends within a
   turn for each record, and its output is the other members, record for record, and the same end.
   */
  lemma CutOut(globals: seq<Item>, members: seq<Item>, k: nat, end: seq<Bytes>, doomed: Bytes, turns: nat)
    requires Laid(globals, members) && End(end)
    requires k < |members| && forall i | 0 <= i < |members| :: members[i].name == doomed <==> i == k
    requires turns >= |AllRecords(globals + members) + end|
    ensures Transformed(Join(AllRecords(globals + members) + end), doomed, turns)
         == Some(Ok(Join(AllRecords(members[..k] + members[k + 1..]) + end)))
  {
    var items := globals + members;
    LaidReadable(globals, members, end);
    LaidFull(items);
    LaidKinds(globals, members);
    LeftOver(globals, members, doomed);
    AllButOne(members, k, doomed);
    assert Full(end);
    hide *;
    ReadableOutcome(items, end, doomed, turns);
  }

  lemma LaidKinds(globals: seq<Item>, members: seq<Item>)
    requires Laid(globals, members)
    ensures forall i | 0 <= i < |globals| :: globals[i].global && globals[i].exts == []
    ensures forall i | 0 <= i < |members| :: !members[i].global
  {
    hide Written, Whole;
  }

  /** A header of a one-letter prefix and name, and size 0. */
  function PrefixedHeader(prefix: Byte, name: Byte): Bytes {
    seq(RECORD, i =>
      if i == 0 then name
      else if i == 124 then 48
      else if i == 156 then 48
      else if i == 345 then prefix
      else 0)
  }

  lemma PrefixedIsWritten(prefix: Byte, name: Byte)
    requires 0 < prefix < 128 && 0 < name < 128
    ensures var item := Item(false, [], [PrefixedHeader(prefix, name)], [prefix, 47, name]);
      Written(item) && Whole(item.head) && item.head[0][156] == 48
  {
    var h := PrefixedHeader(prefix, name);
    var zero: Bytes := [48];
    assert h[0..1] == [name] && h[345..346] == [prefix] && h[124..125] == zero;
    assert [name][1..] == [] && [prefix][1..] == [];
    assert Utf8([name]) && Utf8([prefix]) && [prefix] + [47] + [name] == [prefix, 47, name];
    assert [] + zero + [] == zero && Blank([]) && Octals(zero);
    assert Field(h, 124, 12, [] + zero + []) && Field(h, 0, 100, [name]) && Field(h, 345, 155, [prefix]);
    assert HeaderNames(h, [prefix] + [47] + [name]) && LastNamed([], [prefix, 47, name], [prefix, 47, name]);
    assert zero[..0] == [] && Value([]) == 0 && Value(zero) == 0;
    assert h[0] != 0;
  }

  /** A member found by its prefix and name is cut out. */
  lemma PrefixedIsCut(prefix: Byte, name: Byte, turns: nat)
    requires 0 < prefix < 128 && 0 < name < 128 && turns >= 1
    ensures Transformed(PrefixedHeader(prefix, name), [prefix, 47, name], turns) == Some(Ok([]))
  {
    var item := Item(false, [], [PrefixedHeader(prefix, name)], [prefix, 47, name]);
    PrefixedIsWritten(prefix, name);
    LoneMember(item);
    hide *;
    LoneCut(item, turns);
  }

  lemma LoneMember(item: Item)
    requires !item.global && item.exts == [] && Written(item) && Whole(item.head) && item.head[0][156] == 48
    ensures Member(item)
  {
    hide Written, Whole;
  }

  lemma LoneCut(item: Item, turns: nat)
    requires Member(item) && item.exts == [] && |item.head| == 1 && turns >= 1
    ensures Transformed(item.head[0], item.name, turns) == Some(Ok([]))
  {
    hide Member, Transformed;
    var members := [item];
    LoneRecords(item);
    assert [] + members == members && members[..0] + members[1..] == [];
    assert forall i | 0 <= i < |members| :: Member(members[i]);
    CutOut([], members, 0, [], item.name, turns);
  }

  lemma LoneRecords(item: Item)
    requires item.exts == [] && |item.head| == 1
    ensures AllRecords([] + [item]) + [] == item.head && Join(item.head) == item.head[0]
    ensures Join(AllRecords([]) + []) == []
  {
    assert [] + [item] == [item] && [item][1..] == [];
    assert Flat([]) == [] && [] + item.head == item.head && item.head + [] == item.head;
    assert ItemRecords(item) == item.head && AllRecords([item]) == item.head + AllRecords([]) == item.head;
    assert item.head[1..] == [] && Join([]) == [];
    assert Join(item.head) == item.head[0] + [] == item.head[0];
    assert AllRecords([]) + [] == [];
  }
}
