/**
 `_freerdp_transform` of tools/generated_sources.py: one member and the leading
 global headers are cut out of a tar archive by whole records.
 */
module TarRewrite {
  import opened Common
  import opened TarRecords

  /** A global header or a member, with the extension headers read just before it. */
  datatype Item = Item(global: bool, exts: seq<Block>, head: Block, name: Bytes)

  /** The items, extension headers nothing follows, and everything from where the walk stops. */
  datatype Archive = Archive(items: seq<Item>, loose: seq<Block>, tail: seq<Bytes>)

  /** `Stuck`: the size field moves the walk nowhere or backwards, so the archive has no reading. */
  datatype Error = BadSize | Stuck | BadName | OutOfRange | Matches(found: nat)

  datatype Result<+T> = Ok(value: T) | Err(error: Error)

  function Least(a: int, b: int): int {
    if a <= b then a else b
  }

  // ------------------------------------------------------------------ the walk

  /** The header at the front of `rs` and the data records its size field covers, clipped at the end. */
  function Front(rs: seq<Bytes>): Result<Block>
    requires rs != []
  {
    match RecordSize(rs[0])
    case None => Err(BadSize)
    case Some(size) => if Span(size) < 1 then Err(Stuck) else Ok(rs[..Least(Span(size), |rs|)])
  }

  predicate Stops(rs: seq<Bytes>) {
    rs == [] || IsZero(rs[0])
  }

  /** A member whose name does not decode: the source fails on it before it moves on. */
  predicate Unnamed(header: Bytes, exts: seq<Block>) {
    !KindOf(header).Global? && !IsExtension(header) && Resolve(header, exts).None?
  }

  /** What the archive holds, read by the rules of the source's loop. */
  function Parse(rs: seq<Bytes>, exts: seq<Block>): Result<Archive>
    decreases |rs|
  {
    if Stops(rs) then Ok(Archive([], exts, rs))
    else match Front(rs)
      case Err(e) => Err(if e == Stuck && Unnamed(rs[0], exts) then BadName else e)
      case Ok(block) =>
        var rest := rs[|block|..];
        if KindOf(rs[0]).Global? then Prepend(Item(true, exts, block, []), Parse(rest, []))
        else if IsExtension(rs[0]) then Parse(rest, exts + [block])
        else match Resolve(rs[0], exts)
          case None => Err(BadName)
          case Some(name) => Prepend(Item(false, exts, block, name), Parse(rest, []))
  }

  function Prepend(item: Item, r: Result<Archive>): Result<Archive> {
    match r
    case Ok(a) => Ok(a.(items := [item] + a.items))
    case Err(e) => Err(e)
  }

  function PrependAll(items: seq<Item>, r: Result<Archive>): Result<Archive> {
    match r
    case Ok(a) => Ok(a.(items := items + a.items))
    case Err(e) => Err(e)
  }

  // -------------------------------------------------------------- the rewriting

  function Flat(blocks: seq<Block>): seq<Bytes> {
    if blocks == [] then [] else blocks[0] + Flat(blocks[1..])
  }

  function ItemRecords(item: Item): seq<Bytes> {
    Flat(item.exts) + item.head
  }

  function AllRecords(items: seq<Item>): seq<Bytes> {
    if items == [] then [] else ItemRecords(items[0]) + AllRecords(items[1..])
  }

  predicate HasMember(items: seq<Item>) {
    exists i :: 0 <= i < |items| && !items[i].global
  }

  predicate Doomed(item: Item, doomed: Bytes) {
    !item.global && item.name == doomed
  }

  function Count(items: seq<Item>, doomed: Bytes): nat {
    if items == [] then 0
    else Count(items[..|items| - 1], doomed) + if Doomed(items[|items| - 1], doomed) then 1 else 0
  }

  /** A global header before the first member. */
  predicate Leading(items: seq<Item>, i: nat)
    requires i < |items|
  {
    items[i].global && !HasMember(items[..i])
  }

  /** The items the archive should be left with. */
  function Without(items: seq<Item>, doomed: Bytes): seq<Item> {
    if items == [] then []
    else
      var k := |items| - 1;
      Without(items[..k], doomed) + if Leading(items, k) || Doomed(items[k], doomed) then [] else [items[k]]
  }

  /** The records the source keeps: a leading global header goes, its extension headers stay. */
  function Kept(items: seq<Item>, doomed: Bytes): seq<Bytes> {
    if items == [] then []
    else
      var k := |items| - 1;
      Kept(items[..k], doomed) +
      if Leading(items, k) then Flat(items[k].exts)
      else if Doomed(items[k], doomed) then []
      else ItemRecords(items[k])
  }

  /** No extension header is pending at any leading global header. */
  predicate Clean(items: seq<Item>) {
    items == []
    || (Clean(items[..|items| - 1]) && (Leading(items, |items| - 1) ==> items[|items| - 1].exts == []))
  }

  function Rewritten(a: Archive, doomed: Bytes): seq<Bytes> {
    Kept(a.items, doomed) + Flat(a.loose) + a.tail
  }

  function Expected(a: Archive, doomed: Bytes): Archive {
    Archive(Without(a.items, doomed), a.loose, a.tail)
  }

  // ------------------------------------------------------------------- lossless

  lemma {:induction false} FlatAppend(a: seq<Block>, b: seq<Block>)
    ensures Flat(a + b) == Flat(a) + Flat(b)
    decreases |a|
  {
    if a == [] {
      assert a + b == b;
    } else {
      FlatAppend(a[1..], b);
      assert (a + b)[0] == a[0] && (a + b)[1..] == a[1..] + b;
      Regroup(a[0], Flat(a[1..]), Flat(b));
    }
  }

  lemma {:induction false} AllAppend(a: seq<Item>, b: seq<Item>)
    ensures AllRecords(a + b) == AllRecords(a) + AllRecords(b)
    decreases |a|
  {
    if a == [] {
      assert a + b == b;
    } else {
      hide ItemRecords;
      AllAppend(a[1..], b);
      assert (a + b)[0] == a[0] && (a + b)[1..] == a[1..] + b;
      Regroup(ItemRecords(a[0]), AllRecords(a[1..]), AllRecords(b));
    }
  }

  lemma FlatOne(b: Block)
    ensures Flat([b]) == b
  {
    assert [b][1..] == [];
  }

  /** The records an archive was read from. */
  function Layout(a: Archive): seq<Bytes> {
    AllRecords(a.items) + Flat(a.loose) + a.tail
  }

  lemma PrependLayout(item: Item, a: Archive)
    ensures Layout(a.(items := [item] + a.items)) == ItemRecords(item) + Layout(a)
  {
    assert ([item] + a.items)[1..] == a.items;
    assert ItemRecords(item) + AllRecords(a.items) + Flat(a.loose) + a.tail
        == ItemRecords(item) + (AllRecords(a.items) + Flat(a.loose) + a.tail);
  }

  lemma Regroup(a: seq<Bytes>, b: seq<Bytes>, c: seq<Bytes>)
    ensures (a + b) + c == a + (b + c)
  {
  }

  /** The walk loses nothing. */
  lemma {:induction false} ParseLossless(rs: seq<Bytes>, exts: seq<Block>)
    requires Parse(rs, exts).Ok?
    ensures Layout(Parse(rs, exts).value) == Flat(exts) + rs
    decreases |rs|
  {
    hide KindOf, IsExtension, Resolve, RecordSize, IsZero, Layout;
    if Stops(rs) {
      LayoutEnds(exts, rs);
    } else {
      var block := Front(rs).value;
      var rest := rs[|block|..];
      assert block + rest == rs;
      Regroup(Flat(exts), block, rest);
      if !KindOf(rs[0]).Global? && IsExtension(rs[0]) {
        ParseLossless(rest, exts + [block]);
        FlatAppend(exts, [block]);
        FlatOne(block);
      } else {
        ParseLossless(rest, []);
        assert Flat([]) + rest == rest;
        PrependLayout(Parse(rs, exts).value.items[0], Parse(rest, []).value);
      }
    }
  }

  lemma LayoutEnds(loose: seq<Block>, tail: seq<Bytes>)
    ensures Layout(Archive([], loose, tail)) == Flat(loose) + tail
  {
    assert AllRecords([]) + Flat(loose) == Flat(loose);
  }

  // ------------------------------------------------------------- re-readability

  /** A block the walk cuts off again; only the last of an archive may be clipped. */
  ghost predicate Fits(b: Block, last: bool) {
    && !IsZero(b[0])
    && RecordSize(b[0]).Some?
    && var span := Span(RecordSize(b[0]).value); |b| == span || (last && |b| < span)
  }

  lemma FrontFits(b: Block, r: seq<Bytes>)
    requires Fits(b, r == [])
    ensures !Stops(b + r) && Front(b + r) == Ok(b) && (b + r)[|b|..] == r
  {
    assert (b + r)[0] == b[0];
    assert (b + r)[..|b|] == b;
  }

  lemma FrontCuts(rs: seq<Bytes>)
    requires !Stops(rs) && Front(rs).Ok?
    ensures Front(rs).value[0] == rs[0] && Fits(Front(rs).value, rs[|Front(rs).value|..] == [])
  {
  }

  ghost predicate ExtsFit(exts: seq<Block>, last: bool) {
    forall i | 0 <= i < |exts| :: IsExtension(exts[i][0]) && Fits(exts[i], last && i == |exts| - 1)
  }

  ghost predicate ItemFits(item: Item, last: bool) {
    && ExtsFit(item.exts, false) && Fits(item.head, last)
    && if item.global then KindOf(item.head[0]).Global? && item.name == []
       else KindOf(item.head[0]).Member? && Resolve(item.head[0], item.exts) == Some(item.name)
  }

  ghost predicate ItemsFit(items: seq<Item>, last: bool) {
    forall i | 0 <= i < |items| :: ItemFits(items[i], last && i == |items| - 1)
  }

  ghost predicate Readable(a: Archive) {
    && ItemsFit(a.items, a.loose == [] && a.tail == [])
    && ExtsFit(a.loose, a.tail == [])
    && Stops(a.tail)
  }

  lemma {:induction false} ParseReadable(rs: seq<Bytes>, exts: seq<Block>)
    requires Parse(rs, exts).Ok? && ExtsFit(exts, rs == [])
    ensures Readable(Parse(rs, exts).value)
    decreases |rs|
  {
    hide KindOf, IsExtension, Resolve, RecordSize, IsZero, Fits;
    if !Stops(rs) {
      FrontCuts(rs);
      var block := Front(rs).value;
      var rest := rs[|block|..];
      KindsExclusive(rs[0]);
      if !KindOf(rs[0]).Global? && IsExtension(rs[0]) {
        ParseReadable(rest, exts + [block]);
      } else {
        ParseReadable(rest, []);
        PrependReadable(Parse(rs, exts).value.items[0], Parse(rest, []).value, rest);
      }
    }
  }

  lemma KindsExclusive(header: Bytes)
    ensures KindOf(header).Global? ==> !IsExtension(header)
    ensures !KindOf(header).Global? && !IsExtension(header) ==> KindOf(header).Member?
  {
  }

  lemma PrependReadable(item: Item, a: Archive, rest: seq<Bytes>)
    requires Parse(rest, []) == Ok(a) && Readable(a) && ItemFits(item, rest == [])
    ensures Readable(a.(items := [item] + a.items))
  {
    var items := [item] + a.items;
    forall i | 0 <= i < |items| ensures ItemFits(items[i], a.loose == [] && a.tail == [] && i == |items| - 1) {
      if i > 0 { assert items[i] == a.items[i - 1]; }
      else if rest != [] && a.items == [] && a.loose == [] && a.tail == [] {
        ParseLossless(rest, []);
      }
    }
  }

  lemma {:induction false} ParseExtensions(es: seq<Block>, r: seq<Bytes>, before: seq<Block>)
    requires ExtsFit(es, r == [])
    ensures Parse(Flat(es) + r, before) == Parse(r, before + es)
    decreases |es|
  {
    hide KindOf, Resolve, RecordSize, IsZero, Fits, Front;
    if es == [] {
      assert before + es == before && Flat(es) + r == r;
    } else {
      var rest := Flat(es[1..]) + r;
      assert Flat(es) + r == es[0] + rest;
      if |es| > 1 { FlatNonEmpty(es[1..]); }
      FrontFits(es[0], rest);
      KindsExclusive(es[0][0]);
      ParseExtensions(es[1..], r, before + [es[0]]);
      assert before + [es[0]] + es[1..] == before + es;
    }
  }

  lemma FlatNonEmpty(es: seq<Block>)
    requires es != []
    ensures Flat(es) != []
  {
    assert es[0] != [];
  }

  lemma ParseItem(item: Item, r: seq<Bytes>)
    requires ItemFits(item, r == [])
    ensures Parse(ItemRecords(item) + r, []) == Prepend(item, Parse(r, []))
  {
    hide RecordSize, IsZero, Front;
    var rest := item.head + r;
    assert ItemRecords(item) + r == Flat(item.exts) + rest;
    ParseExtensions(item.exts, rest, []);
    assert [] + item.exts == item.exts;
    FrontFits(item.head, r);
    KindsExclusive(item.head[0]);
  }

  /** What was read is read again. */
  lemma {:induction false} Reparse(a: Archive)
    requires Readable(a)
    ensures Parse(Layout(a), []) == Ok(a)
    decreases |a.items|
  {
    hide ItemFits, Fits, IsZero, Layout, Parse, ItemRecords;
    if a.items == [] {
      LayoutEnds(a.loose, a.tail);
      ParseExtensions(a.loose, a.tail, []);
      assert [] + a.loose == a.loose;
      ParseStops(a.tail, a.loose);
    } else {
      var b := a.(items := a.items[1..]);
      forall i | 0 <= i < |b.items| ensures b.items[i] == a.items[i + 1] {}
      Reparse(b);
      RestEmpty(b);
      ParseItem(a.items[0], Layout(b));
      assert [a.items[0]] + b.items == a.items;
      PrependLayout(a.items[0], b);
    }
  }

  lemma ParseStops(tail: seq<Bytes>, exts: seq<Block>)
    requires Stops(tail)
    ensures Parse(tail, exts) == Ok(Archive([], exts, tail))
  {
  }

  lemma RestEmpty(b: Archive)
    ensures Layout(b) == [] <==> b.items == [] && b.loose == [] && b.tail == []
  {
    if b.items != [] { assert b.items[0].head != []; }
    if b.loose != [] { FlatNonEmpty(b.loose); }
  }

  // ------------------------------------------------------ the rewritten archive

  lemma {:induction false} WithoutFits(items: seq<Item>, doomed: Bytes, last: bool)
    requires ItemsFit(items, last)
    ensures ItemsFit(Without(items, doomed), last)
    decreases |items|
  {
    hide ItemFits;
    if items != [] {
      var k := |items| - 1;
      forall i | 0 <= i < k ensures ItemFits(items[..k][i], false) { assert items[..k][i] == items[i]; }
      WithoutFits(items[..k], doomed, false);
      forall x: Item { FitsWeaker(x, last); }
    }
  }

  lemma FitsWeaker(x: Item, last: bool)
    ensures ItemFits(x, false) ==> ItemFits(x, last)
  {
  }

  lemma AllSnoc(a: seq<Item>, x: Item)
    ensures AllRecords(a + [x]) == AllRecords(a) + ItemRecords(x)
  {
    AllAppend(a, [x]);
    assert [x][1..] == [];
  }

  lemma {:induction false} CleanKept(items: seq<Item>, doomed: Bytes)
    requires Clean(items)
    ensures Kept(items, doomed) == AllRecords(Without(items, doomed))
    decreases |items|
  {
    hide ItemRecords;
    if items != [] {
      var k := |items| - 1;
      CleanKept(items[..k], doomed);
      assert Without(items[..k], doomed) + [] == Without(items[..k], doomed);
      AllSnoc(Without(items[..k], doomed), items[k]);
    }
  }

  /** Extension headers stranded before a leading global header make the result too long. */
  lemma {:induction false} KeptLonger(items: seq<Item>, doomed: Bytes)
    ensures |Kept(items, doomed)| >= |AllRecords(Without(items, doomed))|
    ensures !Clean(items) ==> |Kept(items, doomed)| > |AllRecords(Without(items, doomed))|
    decreases |items|
  {
    hide ItemRecords;
    if items != [] {
      var k := |items| - 1;
      KeptLonger(items[..k], doomed);
      assert Without(items[..k], doomed) + [] == Without(items[..k], doomed);
      AllSnoc(Without(items[..k], doomed), items[k]);
      if items[k].exts != [] { FlatNonEmpty(items[k].exts); }
    }
  }

  /**
   Walking the rewritten records by the same rules yields the input's items
   without the leading global headers and the doomed member, each survivor with
   its name, extension headers and records, and the same end of archive --
   exactly when no extension header was pending at a leading global header.
   */
  lemma RewriteReparses(rs: seq<Bytes>, doomed: Bytes)
    requires Parse(rs, []).Ok?
    ensures var a := Parse(rs, []).value;
            Parse(Rewritten(a, doomed), []) == Ok(Expected(a, doomed)) <==> Clean(a.items)
  {
    var a := Parse(rs, []).value;
    ParseReadable(rs, []);
    WithoutFits(a.items, doomed, a.loose == [] && a.tail == []);
    var e := Expected(a, doomed);
    Reparse(e);
    if Clean(a.items) {
      CleanKept(a.items, doomed);
    } else if Parse(Rewritten(a, doomed), []) == Ok(e) {
      ParseLossless(Rewritten(a, doomed), []);
      KeptLonger(a.items, doomed);
    }
  }

  /** Nothing doomed is left to find. */
  lemma {:induction false} WithoutNone(items: seq<Item>, doomed: Bytes)
    ensures Count(Without(items, doomed), doomed) == 0
    decreases |items|
  {
    if items != [] {
      var k := |items| - 1;
      WithoutNone(items[..k], doomed);
      var w := Without(items[..k], doomed);
      assert (w + [items[k]])[..|w|] == w && w + [] == w;
    }
  }

  /** Every member under another name is kept. */
  lemma {:induction false} WithoutKeeps(items: seq<Item>, doomed: Bytes, x: Item)
    requires x in items && !x.global && x.name != doomed
    ensures x in Without(items, doomed)
    decreases |items|
  {
    var k := |items| - 1;
    if x in items[..k] {
      WithoutKeeps(items[..k], doomed, x);
    } else {
      assert items == items[..k] + [items[k]];
    }
  }
}
