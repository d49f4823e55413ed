/**
 The record loop of `_freerdp_transform` of tools/generated_sources.py, over Python's
 indices: a size field may take it backwards, and `records[i]` wraps around.
 */
module TarLoop {
  import opened Common
  import opened TarRecords
  import opened TarRewrite

  // ------------------------------------------------------------------- one turn

  /** One `(i, span, kind)` entry of `pending`. */
  datatype Pending = Pending(at: int, span: int, kind: Kind)

  /** The variables of the loop. */
  datatype Loop = Loop(i: int, pending: seq<Pending>, drops: set<int>, found: nat, seenMember: bool)

  const START := Loop(0, [], {}, 0, false)

  /** How one turn ends: in the next one, by `break` or the loop's condition, or by an exception. */
  datatype Turned = Next(loop: Loop) | Ends | Raises(error: Error)

  /** `records[i]`; `None` is its IndexError. */
  function At(rs: seq<Bytes>, i: int): Option<Bytes> {
    if 0 <= i < |rs| then Some(rs[i]) else if -|rs| <= i < 0 then Some(rs[|rs| + i]) else None
  }

  /** Where a bound of a Python slice of `n` elements falls. */
  function Bound(i: int, n: nat): (b: nat)
    ensures b <= n
  {
    if i >= n then n else if i >= 0 then i else if n + i >= 0 then n + i else 0
  }

  /** `records[i:j]` */
  function Cut(rs: seq<Bytes>, i: int, j: int): seq<Bytes> {
    if Bound(i, |rs|) <= Bound(j, |rs|) then rs[Bound(i, |rs|)..Bound(j, |rs|)] else []
  }

  /** Python's slices: plain within the list, clipped beyond it, and counted from the end below zero. */
  lemma CutLaws(rs: seq<Bytes>, i: nat, j: nat, far: int)
    requires i <= j <= |rs|
    ensures Cut(rs, i, j) == rs[i..j]
    ensures i < |rs| ==> Cut(rs, i - |rs|, j) == rs[i..j]
    ensures j < |rs| ==> Cut(rs, i, j - |rs|) == rs[i..j]
    ensures far >= |rs| ==> Cut(rs, i, far) == rs[i..] && Cut(rs, far, j) == []
    ensures far <= -|rs| ==> Cut(rs, far, j) == rs[..j] && Cut(rs, i, far) == []
    ensures i < j ==> Cut(rs, j, i) == []
  {
  }

  /** The indices `i` to `j - 1`. */
  function Range(i: int, j: int): (r: set<int>)
    ensures forall k :: k in r <==> i <= k < j
    decreases j - i
  {
    if i >= j then {} else Range(i, j - 1) + {j - 1}
  }

  /** What one pending header makes of a name. */
  function Renamed(rs: seq<Bytes>, name: Bytes, p: Pending): Option<Bytes> {
    var data := Join(Cut(rs, p.at + 1, p.at + p.span));
    match p.kind
    case Pax => (match PaxPathOf(data) { case NoPath => Some(name) case Path(v) => Some(v) case Undecodable => None })
    case LongName => Decoded(UntilNul(data))
    case _ => Some(name)
  }

  function NameFrom(rs: seq<Bytes>, name: Bytes, pending: seq<Pending>): Option<Bytes>
    decreases |pending|
  {
    if pending == [] then Some(name)
    else match Renamed(rs, name, pending[0])
      case Some(next) => NameFrom(rs, next, pending[1..])
      case None => None
  }

  function NameOf(rs: seq<Bytes>, header: Bytes, pending: seq<Pending>): Option<Bytes> {
    match OwnName(header)
    case Some(name) => NameFrom(rs, name, pending)
    case None => None
  }

  /** All indices the pending headers span. */
  function Ranges(pending: seq<Pending>): set<int> {
    if pending == [] then {}
    else var p := pending[|pending| - 1]; Ranges(pending[..|pending| - 1]) + Range(p.at, p.at + p.span)
  }

  function Turn(rs: seq<Bytes>, doomed: Bytes, s: Loop): Turned {
    if s.i >= |rs| then Ends
    else match At(rs, s.i)
      case None => Raises(OutOfRange)
      case Some(header) =>
        if IsZero(header) then Ends
        else match RecordSize(header)
          case None => Raises(BadSize)
          case Some(size) =>
            var stop := s.i + Span(size);
            var spanned := Range(s.i, stop);
            if KindOf(header).Global? then
              Next(Loop(stop, [], if s.seenMember then s.drops else s.drops + spanned, s.found, s.seenMember))
            else if IsExtension(header) then
              Next(s.(i := stop, pending := s.pending + [Pending(s.i, Span(size), KindOf(header))]))
            else match NameOf(rs, header, s.pending)
              case None => Raises(BadName)
              case Some(full) =>
                if full == doomed then Next(Loop(stop, [], s.drops + Ranges(s.pending) + spanned, s.found + 1, true))
                else Next(Loop(stop, [], s.drops, s.found, true))
  }

  /** The loop from `s` on: what it leaves or raises, if it is over within `n` turns. */
  function Walk(rs: seq<Bytes>, doomed: Bytes, s: Loop, n: nat): Option<Result<Loop>>
    decreases n
  {
    match Turn(rs, doomed, s)
    case Ends => Some(Ok(s))
    case Raises(e) => Some(Err(e))
    case Next(t) => if n == 0 then None else Walk(rs, doomed, t, n - 1)
  }

  /** What becomes of the records once the loop is over. */
  function Finish(rs: seq<Bytes>, r: Result<Loop>): Result<Bytes> {
    match r
    case Err(e) => Err(e)
    case Ok(s) => if s.found != 1 then Err(Matches(s.found)) else Ok(Join(Filter(rs, s.drops)))
  }

  /** What the source makes of a payload, if its loop is over within `n` turns; gzip aside. */
  function Transformed(payload: Bytes, doomed: Bytes, n: nat): Option<Result<Bytes>> {
    var rs := Records(payload);
    match Walk(rs, doomed, START, n)
    case None => None
    case Some(r) => Some(Finish(rs, r))
  }

  /** `[record for index, record in enumerate(records) if index not in drops]` */
  function Filter(rs: seq<Bytes>, drops: set<int>): seq<Bytes> {
    if rs == [] then []
    else
      var k := |rs| - 1;
      Filter(rs[..k], drops) + if k in drops then [] else [rs[k]]
  }

  lemma {:induction false} FilterSame(rs: seq<Bytes>, a: set<int>, b: set<int>)
    requires forall i | 0 <= i < |rs| :: i in a <==> i in b
    ensures Filter(rs, a) == Filter(rs, b)
    decreases |rs|
  {
    if rs != [] { FilterSame(rs[..|rs| - 1], a, b); }
  }

  /** Records `i..j` of `rs` are all kept, or all dropped. */
  lemma {:induction false} FilterRun(rs: seq<Bytes>, i: nat, j: nat, drops: set<int>, dropped: bool)
    requires i <= j <= |rs|
    requires forall k | i <= k < j :: k in drops <==> dropped
    ensures Filter(rs[..j], drops) == Filter(rs[..i], drops) + if dropped then [] else rs[i..j]
    decreases j
  {
    if i == j {
      assert rs[i..j] == [] && Filter(rs[..i], drops) + [] == Filter(rs[..i], drops);
    } else {
      FilterRun(rs, i, j - 1, drops, dropped);
      var before, x := rs[..j - 1], rs[j - 1];
      assert rs[..j] == before + [x];
      FilterSnoc(before, x, drops);
      hide Filter;
      assert j - 1 in drops <==> dropped;
      if dropped {
        assert Filter(before, drops) + [] == Filter(before, drops);
      } else {
        assert rs[i..j] == rs[i..j - 1] + [x];
        assert Filter(rs[..i], drops) + (rs[i..j - 1] + [x]) == Filter(rs[..i], drops) + rs[i..j - 1] + [x];
      }
    }
  }

  lemma FilterSnoc(rs: seq<Bytes>, x: Bytes, drops: set<int>)
    ensures Filter(rs + [x], drops) == Filter(rs, drops) + if |rs| in drops then [] else [x]
  {
    assert (rs + [x])[..|rs|] == rs;
  }

  // ------------------------------------------------------------------- the loop

  /** The name loop of the source, over the pending entries. */
  method ResolveName(rs: seq<Bytes>, header: Bytes, pending: seq<Pending>) returns (full: Option<Bytes>)
    ensures full == NameOf(rs, header, pending)
  {
    hide OwnName, PaxPathOf, Utf8, KindOf, IsExtension, Cut;
    full := OwnName(header);
    if full.None? {
      return;
    }
    assert pending[0..] == pending;
    for k := 0 to |pending|
      invariant full.Some? && NameOf(rs, header, pending) == NameFrom(rs, full.value, pending[k..])
    {
      var data := Join(Cut(rs, pending[k].at + 1, pending[k].at + pending[k].span));
      assert pending[k..][1..] == pending[k + 1..];
      if pending[k].kind.Pax? {
        match PaxPathOf(data) {
          case NoPath =>
          case Path(value) => full := Some(value);
          case Undecodable => return None;
        }
      } else if pending[k].kind.LongName? {
        full := Decoded(UntilNul(data));
        if full.None? {
          return;
        }
      }
    }
  }

  /** `for (at, length, _) in pending: drops.update(range(at, at + length))` */
  method DropPending(drops0: set<int>, pending: seq<Pending>) returns (drops: set<int>)
    ensures drops == drops0 + Ranges(pending)
  {
    drops := drops0;
    for k := 0 to |pending|
      invariant drops == drops0 + Ranges(pending[..k])
    {
      assert pending[..k + 1][..k] == pending[..k];
      drops := drops + Range(pending[k].at, pending[k].at + pending[k].span);
    }
    assert pending[..|pending|] == pending;
  }

  /** The transformation, given `turns` turns of its loop and one more test of its end. */
  method Transform(payload: Bytes, doomed: Bytes, turns: nat) returns (result: Option<Result<Bytes>>)
    ensures result == Transformed(payload, doomed, turns)
  {
    hide RecordSize, KindOf, IsExtension, IsZero, Records, NameOf, Ranges, Filter, Span;
    var records := Records(payload);
    var drops: set<int> := {};
    var pending: seq<Pending> := [];
    var found: nat := 0;
    var seenMember := false;
    var i: int := 0;
    var left := turns;
    while i < |records|
      invariant Walk(records, doomed, START, turns)
             == Walk(records, doomed, Loop(i, pending, drops, found, seenMember), left)
      decreases left
    {
      if i < -|records| {
        return Some(Err(OutOfRange));
      }
      var header := records[if i >= 0 then i else |records| + i];
      if IsZero(header) {
        break;
      }
      var size := RecordSize(header);
      if size.None? {
        return Some(Err(BadSize));
      }
      var span := Span(size.value);
      if KindOf(header).Global? {
        if !seenMember {
          drops := drops + Range(i, i + span);
        }
        pending := [];
      } else if IsExtension(header) {
        pending := pending + [Pending(i, span, KindOf(header))];
      } else {
        seenMember := true;
        var full := ResolveName(records, header, pending);
        if full.None? {
          return Some(Err(BadName));
        }
        if full.value == doomed {
          found := found + 1;
          drops := DropPending(drops, pending);
          drops := drops + Range(i, i + span);
        }
        pending := [];
      }
      i := i + span;
      if left == 0 {
        return None;
      }
      left := left - 1;
    }
    if found != 1 {
      return Some(Err(Matches(found)));
    }
    result := Some(Ok(Join(Filter(records, drops))));
  }

  // ------------------------------------------------------ forward, it reads the archive

  function Clip(i: nat, n: nat): nat {
    if i <= n then i else n
  }

  /** The pending blocks lie side by side from `start` to `i`. */
  ghost predicate Contiguous(pending: seq<Pending>, start: nat, i: nat) {
    if pending == [] then start == i
    else
      var last := pending[|pending| - 1];
      && last.at >= 0 && last.span >= 1 && last.at + last.span == i
      && Contiguous(pending[..|pending| - 1], start, last.at)
  }

  lemma {:induction false} ContiguousRanges(pending: seq<Pending>, start: nat, i: nat)
    requires Contiguous(pending, start, i)
    ensures start <= i && Ranges(pending) == Range(start, i)
    decreases |pending|
  {
    if pending != [] { ContiguousRanges(pending[..|pending| - 1], start, pending[|pending| - 1].at); }
  }

  /** `pending` names the records of `exts`. */
  ghost predicate Names(rs: seq<Bytes>, pending: seq<Pending>, exts: seq<Block>) {
    |pending| == |exts| && forall k | 0 <= k < |pending| :: NamesOne(rs, pending[k], exts[k])
  }

  ghost predicate NamesOne(rs: seq<Bytes>, p: Pending, block: Block) {
    && 0 <= p.at < |rs| && p.span >= 1 && block == rs[p.at..Clip(p.at + p.span, |rs|)]
    && p.kind == KindOf(block[0]) && IsExtension(block[0])
  }

  /** The name loop resolves the name as the archive's own rules do. */
  lemma {:induction false} NamesResolve(rs: seq<Bytes>, name: Bytes, pending: seq<Pending>, exts: seq<Block>)
    requires Names(rs, pending, exts)
    ensures NameFrom(rs, name, pending) == ResolveFrom(name, exts)
    decreases |pending|
  {
    hide NamesOne, Overridden, Renamed;
    if pending != [] {
      RenamedOverridden(rs, name, pending[0], exts[0]);
      assert forall k | 0 <= k < |pending| - 1 :: pending[1..][k] == pending[k + 1] && exts[1..][k] == exts[k + 1];
      if Overridden(name, exts[0]).Some? {
        NamesResolve(rs, Overridden(name, exts[0]).value, pending[1..], exts[1..]);
      }
    }
  }

  lemma RenamedOverridden(rs: seq<Bytes>, name: Bytes, p: Pending, block: Block)
    requires NamesOne(rs, p, block)
    ensures Renamed(rs, name, p) == Overridden(name, block)
  {
    hide KindOf, IsExtension, Join, PaxPathOf, Utf8;
    assert Cut(rs, p.at + 1, p.at + p.span) == block[1..];
  }

  /** What the loop head knows: `done` is what has been read, `exts` what is pending since record `start`. */
  ghost predicate Walking(rs: seq<Bytes>, doomed: Bytes, s: Loop, start: nat, exts: seq<Block>, done: seq<Item>) {
    && start <= s.i && Contiguous(s.pending, start, s.i) && Names(rs, s.pending, exts)
    && Flat(exts) == rs[Clip(start, |rs|)..Clip(s.i, |rs|)]
    && Parse(rs, []) == PrependAll(done, Parse(rs[Clip(s.i, |rs|)..], exts))
    && s.found == Count(done, doomed) && s.seenMember == HasMember(done)
    && (forall d | d in s.drops :: d < start || d >= |rs|)
    && Filter(rs[..Clip(start, |rs|)], s.drops) == Kept(done, doomed)
  }

  lemma HasMemberSnoc(done: seq<Item>, item: Item)
    ensures (done + [item])[..|done|] == done
    ensures HasMember(done + [item]) <==> HasMember(done) || !item.global
    ensures HasMember((done + [item])[..|done|]) == HasMember(done)
  {
    var next := done + [item];
    if HasMember(done) {
      var k :| 0 <= k < |done| && !done[k].global;
      assert next[k] == done[k];
    }
    if !item.global { assert !next[|done|].global; }
  }

  lemma PrependAllSnoc(done: seq<Item>, item: Item, r: Result<Archive>)
    ensures PrependAll(done, Prepend(item, r)) == PrependAll(done + [item], r)
  {
    if r.Ok? { assert done + ([item] + r.value.items) == done + [item] + r.value.items; }
  }

  lemma KeptSnoc(done: seq<Item>, item: Item, doomed: Bytes)
    ensures Kept(done + [item], doomed) == Kept(done, doomed) +
              if item.global && !HasMember(done) then Flat(item.exts)
              else if Doomed(item, doomed) then []
              else ItemRecords(item)
  {
    hide HasMember, Doomed, ItemRecords;
    assert (done + [item])[..|done|] == done;
  }

  /** The records kept once an item ending at `stop` has been dealt with. */
  lemma KeptStep(rs: seq<Bytes>, doomed: Bytes, start: nat, i: nat, stop: nat, exts: seq<Block>, block: Block,
                 done: seq<Item>, item: Item, before: set<int>, after: set<int>)
    requires start <= i < |rs| && i < stop
    requires Flat(exts) == rs[start..i] && block == rs[i..Clip(stop, |rs|)]
    requires item.exts == exts && item.head == block
    requires forall d | d in before :: d < start || d >= |rs|
    requires Filter(rs[..start], before) == Kept(done, doomed)
    requires after == if item.global && !HasMember(done) then before + Range(i, stop)
                      else if Doomed(item, doomed) then before + Range(start, stop) else before
    ensures Filter(rs[..Clip(stop, |rs|)], after) == Kept(done + [item], doomed)
    ensures forall d | d in after :: d < stop || d >= |rs|
  {
    hide ItemRecords, Kept, HasMember, Doomed, Filter;
    var end := Clip(stop, |rs|);
    KeptSnoc(done, item, doomed);
    FilterSame(rs[..start], before, after);
    assert rs[start..end] == rs[start..i] + rs[i..end];
    if item.global && !HasMember(done) {
      FilterRun(rs, start, i, after, false);
      FilterRun(rs, i, end, after, true);
    } else if Doomed(item, doomed) {
      FilterRun(rs, start, end, after, true);
    } else {
      FilterRun(rs, start, end, after, false);
      ItemRecordsAre(item);
    }
  }

  lemma ItemRecordsAre(item: Item)
    ensures ItemRecords(item) == Flat(item.exts) + item.head
  {
  }

  lemma NothingPending(rs: seq<Bytes>, stop: nat)
    ensures Contiguous([], stop, stop) && Names(rs, [], []) && Flat([]) == []
  {
  }

  /** One item read: the walk goes on behind it with nothing pending. */
  lemma ItemStep(rs: seq<Bytes>, doomed: Bytes, s: Loop, start: nat, exts: seq<Block>, done: seq<Item>, item: Item,
                 stop: nat, after: set<int>)
    requires Walking(rs, doomed, s, start, exts, done) && s.i < |rs| && s.i < stop
    requires item.exts == exts && item.head == rs[s.i..Clip(stop, |rs|)]
    requires Parse(rs[s.i..], exts) == Prepend(item, Parse(rs[Clip(stop, |rs|)..], []))
    requires after == if item.global && !s.seenMember then s.drops + Range(s.i, stop)
                      else if Doomed(item, doomed) then s.drops + Range(start, stop) else s.drops
    ensures Walking(rs, doomed, Loop(stop, [], after, s.found + (if Doomed(item, doomed) then 1 else 0),
                                     s.seenMember || !item.global), stop, [], done + [item])
  {
    hide Parse, Filter, Kept, Names, Contiguous, HasMember, Flat, Prepend, PrependAll;
    NothingPending(rs, stop);
    KeptStep(rs, doomed, start, s.i, stop, exts, item.head, done, item, s.drops, after);
    HasMemberSnoc(done, item);
    PrependAllSnoc(done, item, Parse(rs[Clip(stop, |rs|)..], []));
  }

  /** One extension header read: it is pending. */
  lemma ExtensionStep(rs: seq<Bytes>, doomed: Bytes, s: Loop, start: nat, exts: seq<Block>, done: seq<Item>,
                      block: Block, span: nat)
    requires Walking(rs, doomed, s, start, exts, done) && s.i < |rs| && span >= 1
    requires block == rs[s.i..Clip(s.i + span, |rs|)] && IsExtension(block[0])
    requires Parse(rs[s.i..], exts) == Parse(rs[Clip(s.i + span, |rs|)..], exts + [block])
    ensures Walking(rs, doomed, s.(i := s.i + span, pending := s.pending + [Pending(s.i, span, KindOf(block[0]))]),
                    start, exts + [block], done)
  {
    hide Parse, Filter, Kept, Names, Contiguous, Count, HasMember, Flat, PrependAll, IsExtension, KindOf;
    PendingStep(rs, s.i, start, s.pending, exts, block, span);
    FlatAppend(exts, [block]);
    FlatOne(block);
    JoinSlices(rs, start, s.i, Clip(s.i + span, |rs|));
  }

  lemma JoinSlices(rs: seq<Bytes>, i: nat, j: nat, k: nat)
    requires i <= j <= k <= |rs|
    ensures rs[i..k] == rs[i..j] + rs[j..k]
  {
  }

  lemma PendingStep(rs: seq<Bytes>, i: nat, start: nat, pending: seq<Pending>, exts: seq<Block>, block: Block,
                    span: nat)
    requires Contiguous(pending, start, i) && Names(rs, pending, exts) && i < |rs| && span >= 1
    requires block == rs[i..Clip(i + span, |rs|)] && IsExtension(block[0])
    ensures var next := pending + [Pending(i, span, KindOf(block[0]))];
            Contiguous(next, start, i + span) && Names(rs, next, exts + [block])
  {
    var entry := Pending(i, span, KindOf(block[0]));
    NamesSnoc(rs, pending, exts, entry, block);
    hide Names, IsExtension, KindOf;
    assert (pending + [entry])[..|pending|] == pending;
  }

  lemma NamesSnoc(rs: seq<Bytes>, pending: seq<Pending>, exts: seq<Block>, entry: Pending, block: Block)
    requires Names(rs, pending, exts) && NamesOne(rs, entry, block)
    ensures Names(rs, pending + [entry], exts + [block])
  {
    hide NamesOne;
    var next, all := pending + [entry], exts + [block];
    forall k | 0 <= k < |next| ensures NamesOne(rs, next[k], all[k]) {
      if k < |pending| { assert next[k] == pending[k] && all[k] == exts[k]; }
    }
  }

  /** What the payload should become, gzip aside, or why it should be refused. */
  ghost function Outcome(payload: Bytes, doomed: Bytes): Result<Bytes> {
    OutcomeOf(Records(payload), doomed)
  }

  ghost function OutcomeOf(rs: seq<Bytes>, doomed: Bytes): Result<Bytes> {
    match Parse(rs, [])
    case Err(e) => Err(e)
    case Ok(a) =>
      if Count(a.items, doomed) != 1 then Err(Matches(Count(a.items, doomed))) else Ok(Join(Rewritten(a, doomed)))
  }

  lemma WalkStart(rs: seq<Bytes>, doomed: Bytes)
    ensures Walking(rs, doomed, START, 0, [], [])
  {
    assert rs[0..] == rs;
    var r := Parse(rs, []);
    if r.Ok? { assert [] + r.value.items == r.value.items; }
  }

  /** An error met now is the archive's error. */
  lemma WalkParse(rs: seq<Bytes>, doomed: Bytes, s: Loop, start: nat, exts: seq<Block>, done: seq<Item>)
    requires Walking(rs, doomed, s, start, exts, done) && s.i < |rs|
    ensures Parse(rs[s.i..], exts).Err? ==> Parse(rs, []) == Err(Parse(rs[s.i..], exts).error)
  {
  }

  lemma WalkPending(rs: seq<Bytes>, doomed: Bytes, s: Loop, start: nat, exts: seq<Block>, done: seq<Item>,
                    header: Bytes)
    requires Walking(rs, doomed, s, start, exts, done)
    ensures 0 <= start <= s.i && Ranges(s.pending) == Range(start, s.i)
    ensures NameOf(rs, header, s.pending) == Resolve(header, exts)
  {
    hide Parse, Filter, Kept, Count, HasMember, Flat, PrependAll, NameFrom, ResolveFrom, OwnName;
    ContiguousRanges(s.pending, start, s.i);
    if OwnName(header).Some? { NamesResolve(rs, OwnName(header).value, s.pending, exts); }
  }

  /** One turn of the loop, in the terms of `Parse`. */
  lemma ParseAt(rs: seq<Bytes>, i: nat, exts: seq<Block>)
    requires i < |rs| && !IsZero(rs[i])
    ensures RecordSize(rs[i]).None? ==> Parse(rs[i..], exts) == Err(BadSize)
    ensures RecordSize(rs[i]).Some? && Span(RecordSize(rs[i]).value) < 1 ==>
              Parse(rs[i..], exts) == Err(if Unnamed(rs[i], exts) then BadName else Stuck)
    ensures RecordSize(rs[i]).Some? && Span(RecordSize(rs[i]).value) >= 1 ==>
              var stop := Clip(i + Span(RecordSize(rs[i]).value), |rs|);
              Parse(rs[i..], exts) ==
              if KindOf(rs[i]).Global? then Prepend(Item(true, exts, rs[i..stop], []), Parse(rs[stop..], []))
              else if IsExtension(rs[i]) then Parse(rs[stop..], exts + [rs[i..stop]])
              else match Resolve(rs[i], exts)
                case None => Err(BadName)
                case Some(name) => Prepend(Item(false, exts, rs[i..stop], name), Parse(rs[stop..], []))
  {
    hide RecordSize, KindOf, IsExtension, IsZero, Resolve, Prepend, Span;
    var r := rs[i..];
    assert r[0] == rs[i] && !Stops(r);
    if RecordSize(rs[i]).Some? && Span(RecordSize(rs[i]).value) >= 1 {
      var span := Span(RecordSize(rs[i]).value);
      var stop := Clip(i + span, |rs|);
      assert r[..Least(span, |r|)] == rs[i..stop];
      assert r[stop - i..] == rs[stop..];
      assert Front(r) == Ok(rs[i..stop]) && |rs[i..stop]| == stop - i;
    }
  }

  lemma WalkEnd(rs: seq<Bytes>, doomed: Bytes, s: Loop, start: nat, exts: seq<Block>, done: seq<Item>)
    requires Walking(rs, doomed, s, start, exts, done)
    requires s.i >= |rs| || IsZero(rs[s.i])
    ensures Parse(rs, []).Ok? && Finish(rs, Ok(s)) == OutcomeOf(rs, doomed)
  {
    hide Parse, Names, Contiguous, HasMember, Count, IsZero, Filter, Kept, Flat, Join;
    var c, e := Clip(start, |rs|), Clip(s.i, |rs|);
    ParseStops(rs[e..], exts);
    PrependEnd(done, exts, rs[e..]);
    FilterTail(rs, c, e, s.drops);
  }

  lemma PrependEnd(done: seq<Item>, loose: seq<Block>, tail: seq<Bytes>)
    ensures PrependAll(done, Ok(Archive([], loose, tail))) == Ok(Archive(done, loose, tail))
  {
    assert done + [] == done;
  }

  lemma FilterTail(rs: seq<Bytes>, c: nat, e: nat, drops: set<int>)
    requires c <= e <= |rs| && forall d | d in drops :: d < c || d >= |rs|
    ensures Filter(rs, drops) == Filter(rs[..c], drops) + rs[c..e] + rs[e..]
  {
    FilterRun(rs, c, |rs|, drops, false);
    assert rs[..|rs|] == rs && rs[c..|rs|] == rs[c..e] + rs[e..];
  }

  // ------------------------------------------------------------------ one turn read

  /** A turn that moves on reads an item or an extension header. */
  lemma TurnReads(rs: seq<Bytes>, doomed: Bytes, s: Loop, start: nat, exts: seq<Block>, done: seq<Item>)
    returns (start': nat, exts': seq<Block>, done': seq<Item>)
    requires Walking(rs, doomed, s, start, exts, done)
    requires Turn(rs, doomed, s).Next? && Turn(rs, doomed, s).loop.i > s.i
    ensures Walking(rs, doomed, Turn(rs, doomed, s).loop, start', exts', done')
  {
    hide Walking, Filter, RecordSize, KindOf, IsExtension, IsZero, NameOf, Resolve, Parse, Ranges, Span;
    var header := At(rs, s.i).value;
    WalkPending(rs, doomed, s, start, exts, done, header);
    ParseAt(rs, s.i, exts);
    var stop := s.i + Span(RecordSize(header).value);
    var block: Block := rs[s.i..Clip(stop, |rs|)];
    if KindOf(header).Global? {
      var item := Item(true, exts, block, []);
      ItemStep(rs, doomed, s, start, exts, done, item, stop, Turn(rs, doomed, s).loop.drops);
      return stop, [], done + [item];
    } else if IsExtension(header) {
      ExtensionStep(rs, doomed, s, start, exts, done, block, Span(RecordSize(header).value));
      return start, exts + [block], done;
    } else {
      var item := Item(false, exts, block, Resolve(header, exts).value);
      assert Range(start, s.i) + Range(s.i, stop) == Range(start, stop);
      assert s.drops + Range(start, s.i) + Range(s.i, stop) == s.drops + Range(start, stop);
      ItemStep(rs, doomed, s, start, exts, done, item, stop, Turn(rs, doomed, s).loop.drops);
      return stop, [], done + [item];
    }
  }

  /** The variables after `n` more turns, if the loop makes as many. */
  ghost function After(rs: seq<Bytes>, doomed: Bytes, s: Loop, n: nat): Option<Loop>
    decreases n
  {
    if n == 0 then Some(s)
    else match Turn(rs, doomed, s)
      case Next(t) => After(rs, doomed, t, n - 1)
      case _ => None
  }

  /** Turn `n` from `s` on does not move on. */
  ghost predicate Slips(rs: seq<Bytes>, doomed: Bytes, s: Loop, n: nat) {
    match After(rs, doomed, s, n)
    case None => false
    case Some(t) => Turn(rs, doomed, t).Next? && Turn(rs, doomed, t).loop.i <= t.i
  }

  /** A turn that is not the last or an error slips exactly when the size field is -512 or less. */
  lemma TurnSlips(rs: seq<Bytes>, doomed: Bytes, s: Loop)
    requires Turn(rs, doomed, s).Next?
    ensures At(rs, s.i).Some? && RecordSize(At(rs, s.i).value).Some?
    ensures var size := RecordSize(At(rs, s.i).value).value;
      && (Turn(rs, doomed, s).loop.i <= s.i <==> size <= -512)
      && (Turn(rs, doomed, s).loop.i == s.i <==> -1023 <= size <= -512)
  {
    hide RecordSize, IsZero, KindOf, IsExtension, NameOf, Ranges;
  }

  /** A turn that ends or raises, read off the archive. */
  lemma TurnOver(rs: seq<Bytes>, doomed: Bytes, s: Loop, start: nat, exts: seq<Block>, done: seq<Item>)
    requires Walking(rs, doomed, s, start, exts, done)
    ensures Turn(rs, doomed, s).Ends? ==> Parse(rs, []).Ok? && Finish(rs, Ok(s)) == OutcomeOf(rs, doomed)
    ensures Turn(rs, doomed, s).Raises? ==>
              Parse(rs, []) == Err(Turn(rs, doomed, s).error) && Turn(rs, doomed, s).error != Stuck
    ensures Turn(rs, doomed, s).Next? && Turn(rs, doomed, s).loop.i <= s.i ==> Parse(rs, []) == Err(Stuck)
  {
    hide RecordSize, KindOf, IsExtension, IsZero, NameOf, Resolve, Parse, Ranges, Span, Names, Contiguous, Filter,
        HasMember, Count, Kept, Flat, PrependAll, OutcomeOf, Finish;
    if s.i >= |rs| || IsZero(rs[s.i]) {
      WalkEnd(rs, doomed, s, start, exts, done);
    } else {
      ParseAt(rs, s.i, exts);
      WalkParse(rs, doomed, s, start, exts, done);
      WalkPending(rs, doomed, s, start, exts, done, rs[s.i]);
    }
  }

  lemma SlipsLater(rs: seq<Bytes>, doomed: Bytes, s: Loop)
    requires Turn(rs, doomed, s).Next? && Turn(rs, doomed, s).loop.i > s.i
    ensures (exists k: nat :: Slips(rs, doomed, s, k)) <==>
              exists k: nat :: Slips(rs, doomed, Turn(rs, doomed, s).loop, k)
  {
    hide Turn;
    var t := Turn(rs, doomed, s).loop;
    if k: nat :| Slips(rs, doomed, t, k) { assert Slips(rs, doomed, s, k + 1); }
    if k: nat :| Slips(rs, doomed, s, k) {
      assert k > 0;
      assert Slips(rs, doomed, t, k - 1);
    }
  }

  /**
   From any point of a walk that has read the archive so far: it slips at some turn exactly when the archive has
   no reading, and otherwise it comes to the archive's outcome, in a turn for each record left at most.
   */
  lemma {:induction false} Follows(rs: seq<Bytes>, doomed: Bytes, s: Loop, start: nat, exts: seq<Block>,
                                   done: seq<Item>, n: nat)
    requires Walking(rs, doomed, s, start, exts, done)
    ensures Parse(rs, []) == Err(Stuck) <==> exists k: nat :: Slips(rs, doomed, s, k)
    ensures Parse(rs, []) != Err(Stuck) && n >= |rs| - s.i ==>
              var r := Walk(rs, doomed, s, n); r.Some? && Finish(rs, r.value) == OutcomeOf(rs, doomed)
    decreases |rs| - s.i
  {
    TurnOver(rs, doomed, s, start, exts, done);
    hide Walking, Parse, Finish, Turn, OutcomeOf;
    assert Slips(rs, doomed, s, 0) <==> Turn(rs, doomed, s).Next? && Turn(rs, doomed, s).loop.i <= s.i;
    if Turn(rs, doomed, s).Next? && Turn(rs, doomed, s).loop.i > s.i {
      var t := Turn(rs, doomed, s).loop;
      var start', exts', done' := TurnReads(rs, doomed, s, start, exts, done);
      Follows(rs, doomed, t, start', exts', done', if n > 0 then n - 1 else 0);
      SlipsLater(rs, doomed, s);
    } else if !Turn(rs, doomed, s).Next? {
      forall k: nat ensures !Slips(rs, doomed, s, k) {}
    }
  }

  // ------------------------------------------------------------------ main results

  ghost predicate NeverSlips(rs: seq<Bytes>, doomed: Bytes) {
    forall n: nat :: !Slips(rs, doomed, START, n)
  }

  /** An archive has no reading exactly when the loop, at some turn, fails to move on. */
  lemma WalkSticks(rs: seq<Bytes>, doomed: Bytes)
    ensures Parse(rs, []) == Err(Stuck) <==> !NeverSlips(rs, doomed)
  {
    WalkStart(rs, doomed);
    hide Parse, Walking, Slips;
    Follows(rs, doomed, START, 0, [], [], 0);
  }

  /** Unless it slips, the loop is over within a turn for each record, and the outcome is the archive's. */
  lemma TransformedIsOutcome(payload: Bytes, doomed: Bytes, n: nat)
    requires NeverSlips(Records(payload), doomed) && n >= |Records(payload)|
    ensures Transformed(payload, doomed, n) == Some(Outcome(payload, doomed))
  {
    var rs := Records(payload);
    WalkStart(rs, doomed);
    hide Parse, Walking, Slips, Walk, OutcomeOf, Finish;
    Follows(rs, doomed, START, 0, [], [], n);
  }

  /** More turns change nothing. */
  lemma {:induction false} WalkMore(rs: seq<Bytes>, doomed: Bytes, s: Loop, n: nat, m: nat)
    requires Walk(rs, doomed, s, n).Some? && n <= m
    ensures Walk(rs, doomed, s, m) == Walk(rs, doomed, s, n)
    decreases n
  {
    hide Turn;
    match Turn(rs, doomed, s)
    case Next(t) => WalkMore(rs, doomed, t, n - 1, m - 1);
    case _ =>
  }

  lemma TransformedMore(payload: Bytes, doomed: Bytes, n: nat, m: nat)
    requires Transformed(payload, doomed, n).Some? && n <= m
    ensures Transformed(payload, doomed, m) == Transformed(payload, doomed, n)
  {
    WalkMore(Records(payload), doomed, START, n, m);
  }

  /** The archive has a reading, and `out` reads as its items less the doomed member and leading global headers. */
  ghost predicate Right(payload: Bytes, doomed: Bytes, out: Bytes) {
    match Parse(Records(payload), [])
    case Err(_) => false
    case Ok(a) => Parse(Records(out), []) == Ok(Expected(a, doomed))
  }

  /** No extension header is pending at a leading global header, of an archive that can be read. */
  ghost predicate ReadsClean(rs: seq<Bytes>) {
    Parse(rs, []).Ok? ==> Clean(Parse(rs, []).value.items)
  }

  /** A success of the source is right exactly when its loop never slipped and the archive reads clean. */
  lemma OutputReparses(payload: Bytes, doomed: Bytes, n: nat, out: Bytes)
    requires Transformed(payload, doomed, n) == Some(Ok(out))
    ensures Right(payload, doomed, out) <==> NeverSlips(Records(payload), doomed) && ReadsClean(Records(payload))
  {
    var rs := Records(payload);
    WalkSticks(rs, doomed);
    hide Parse, Slips, NeverSlips, Transformed, Clean;
    if NeverSlips(rs, doomed) {
      SuccessIsOutcome(payload, doomed, n, out);
      RewriteReparses(rs, doomed);
      OutputRecords(payload, doomed);
    }
  }

  lemma SuccessIsOutcome(payload: Bytes, doomed: Bytes, n: nat, out: Bytes)
    requires Transformed(payload, doomed, n) == Some(Ok(out)) && NeverSlips(Records(payload), doomed)
    ensures Outcome(payload, doomed) == Ok(out)
  {
    hide Transformed, Outcome, NeverSlips;
    var m := n + |Records(payload)|;
    TransformedMore(payload, doomed, n, m);
    TransformedIsOutcome(payload, doomed, m);
  }

  /** After a right success the source refuses to run again: nothing is found. */
  lemma SecondRunRefuses(payload: Bytes, doomed: Bytes, n: nat, out: Bytes, m: nat)
    requires Transformed(payload, doomed, n) == Some(Ok(out)) && Right(payload, doomed, out)
    requires m >= |Records(out)|
    ensures Transformed(out, doomed, m) == Some(Err(Matches(0)))
  {
    var a := Parse(Records(payload), []).value;
    WithoutNone(a.items, doomed);
    WalkSticks(Records(out), doomed);
    hide Parse, NeverSlips, Transformed;
    TransformedIsOutcome(out, doomed, m);
  }

  lemma DropMiddle(a: seq<Bytes>, b: seq<Bytes>, c: seq<Bytes>)
    requires Chunked(a + (b + c))
    ensures Chunked(a + c)
  {
    var abc, ac := a + (b + c), a + c;
    if ac != [] {
      forall i | 0 <= i < |ac| - 1 ensures |ac[i]| == RECORD {
        var k := if i < |a| then i else i + |b|;
        assert ac[i] == abc[k] == abc[..|abc| - 1][k];
      }
      if c == [] && b != [] { assert ac[|ac| - 1] == abc[|a| - 1] == abc[..|abc| - 1][|a| - 1]; }
    }
  }

  /** Whatever is removed, only the last record may be short. */
  lemma {:induction false} KeptChunked(items: seq<Item>, doomed: Bytes, rest: seq<Bytes>)
    requires Chunked(AllRecords(items) + rest)
    ensures Chunked(Kept(items, doomed) + rest)
    decreases |items|
  {
    hide Chunked, ItemRecords;
    if items != [] {
      var k := |items| - 1;
      var front, x := items[..k], items[k];
      AllSnoc(front, x);
      assert items == front + [x];
      Regroup(AllRecords(front), ItemRecords(x), rest);
      KeptChunked(front, doomed, ItemRecords(x) + rest);
      KeptOne(Kept(front, doomed), x, rest);
    }
  }

  lemma KeptOne(head: seq<Bytes>, x: Item, rest: seq<Bytes>)
    requires Chunked(head + (ItemRecords(x) + rest))
    ensures Chunked(head + Flat(x.exts) + rest) && Chunked(head + [] + rest) && Chunked(head + ItemRecords(x) + rest)
  {
    hide Chunked;
    Regroup(head, ItemRecords(x), rest);
    DropMiddle(head, ItemRecords(x), rest);
    assert head + [] == head;
    Regroup(Flat(x.exts), x.head, rest);
    Regroup(head, Flat(x.exts), x.head + rest);
    DropMiddle(head + Flat(x.exts), x.head, rest);
  }

  lemma OutputRecords(payload: Bytes, doomed: Bytes)
    requires Outcome(payload, doomed).Ok?
    ensures Records(Outcome(payload, doomed).value) == Rewritten(Parse(Records(payload), []).value, doomed)
  {
    hide Parse, Count, Kept, Chunked, Records, Join, Flat, AllRecords;
    var rs := Records(payload);
    var a := Parse(rs, []).value;
    RecordsJoin(payload);
    ParseLossless(rs, []);
    NothingPending(rs, 0);
    var rest := Flat(a.loose) + a.tail;
    assert AllRecords(a.items) + rest == Layout(a) == [] + rs == rs;
    KeptChunked(a.items, doomed, rest);
    assert Kept(a.items, doomed) + rest == Rewritten(a, doomed);
    JoinRecords(Rewritten(a, doomed));
  }

  // ------------------------------------------------------------ once it slips

  /** A turn that stays where it is will be taken for ever. */
  lemma {:induction false} SpinsForEver(rs: seq<Bytes>, doomed: Bytes, s: Loop, n: nat)
    requires Turn(rs, doomed, s).Next? && Turn(rs, doomed, s).loop.i == s.i
    ensures Walk(rs, doomed, s, n).None?
    decreases n
  {
    if n > 0 {
      TurnAgain(rs, doomed, s);
      hide Turn;
      SpinsForEver(rs, doomed, Turn(rs, doomed, s).loop, n - 1);
    }
  }

  lemma TurnAgain(rs: seq<Bytes>, doomed: Bytes, s: Loop)
    requires Turn(rs, doomed, s).Next? && Turn(rs, doomed, s).loop.i == s.i
    ensures var t := Turn(rs, doomed, s).loop; Turn(rs, doomed, t).Next? && Turn(rs, doomed, t).loop.i == t.i
  {
    hide RecordSize, IsZero, KindOf, IsExtension, OwnName, Span, Renamed, Ranges;
  }

  /** A header record of a one-letter name, with no data. */
  function Header(kind: Byte, name: Byte): Bytes {
    seq(RECORD, i => if i == 0 then name else if i == 156 then kind else 0)
  }

  lemma HeaderReads(kind: Byte, name: Byte, r: seq<Bytes>)
    requires kind != 0 && 0 < name < 128
    ensures var h := Header(kind, name);
            !Stops([h] + r) && Front([h] + r) == Ok([h]) && ([h] + r)[1..] == r
            && KindOf(h) == (if kind == 103 then Global else if kind == 120 then Pax else if kind == 76 then LongName
                             else if kind == 75 then LongLink else Member)
            && OwnName(h) == Some([name])
  {
    var h := Header(kind, name);
    assert h[156] != 0;
    assert Slice(h, 156, 157) == [kind];
    var size := Slice(h, 124, 136);
    assert size[0] == 0;
    assert Slice(h, 0, 100)[1..][0] == 0 && Slice(h, 345, 500)[0] == 0;
    assert UntilNul(Slice(h, 0, 100)) == [name];
    assert [name][1..] == [] && Utf8([name]);
    assert UntilNul(Slice(h, 345, 500)) == [];
    assert ([h] + r)[..1] == [h];
  }

  /** A member header whose size field reads `-1000`, `-2000` and so on: minus `digit` times 512 in octal. */
  function MinusHeader(name: Byte, digit: Byte): Bytes
    requires 1 <= digit <= 7
  {
    seq(RECORD, i =>
      if i == 0 then name
      else if i == 124 then 45
      else if i == 125 then 48 + digit
      else if 126 <= i <= 128 then 48
      else if i == 156 then 48
      else 0)
  }

  lemma MinusSize(name: Byte, digit: Byte)
    requires 1 <= digit <= 7
    ensures RecordSize(MinusHeader(name, digit)) == Some(-512 * digit)
  {
    var h := MinusHeader(name, digit);
    var field := Slice(h, 124, 136);
    var digits: Bytes := [48 + digit, 48, 48, 48];
    assert field == [45] + digits + [0, 0, 0, 0, 0, 0, 0];
    NulEnds([45] + digits, [0, 0, 0, 0, 0, 0]);
    assert field == ([45] + digits) + [0] + [0, 0, 0, 0, 0, 0];
    var raw := [45] + digits;
    assert Strip(raw) == raw;
    assert raw[1..] == digits;
    assert digits[1..] == [48, 48, 48] && digits[1..][1..] == [48, 48] && digits[1..][1..][1..] == [48];
    assert digits[1..][1..][1..][1..] == [];
    assert OctalDigits(digits, 0, true) == OctalDigits([48, 48, 48], digit, false);
    assert OctalDigits([48, 48, 48], digit, false) == OctalDigits([48, 48], 8 * digit, false);
    assert OctalDigits([48, 48], 8 * digit, false) == OctalDigits([48], 64 * digit, false)
        == OctalDigits([], 512 * digit, false);
  }

  lemma {:induction false} NulEnds(text: Bytes, rest: Bytes)
    requires 0 !in text
    ensures UntilNul(text + [0] + rest) == text
    decreases |text|
  {
    if text != [] {
      assert (text + [0] + rest)[1..] == text[1..] + [0] + rest;
      NulEnds(text[1..], rest);
    }
  }

  lemma MinusName(name: Byte, digit: Byte)
    requires 0 < name < 128 && 1 <= digit <= 7
    ensures OwnName(MinusHeader(name, digit)) == Some([name])
    ensures KindOf(MinusHeader(name, digit)).Member? && !IsExtension(MinusHeader(name, digit))
    ensures !IsZero(MinusHeader(name, digit))
  {
    var h := MinusHeader(name, digit);
    var zeros: Bytes := seq(RECORD, i => 0);
    assert h[0] != zeros[0];
    assert Slice(h, 156, 157) == [48];
    var field, prefix := Slice(h, 0, 100), Slice(h, 345, 500);
    assert field[0] == name && field[1..][0] == 0 && prefix[0] == 0;
    assert UntilNul(field[1..]) == [] && UntilNul(prefix) == [];
    assert UntilNul(field) == [name] + [] == [name];
    assert [name][1..] == [] && Utf8([name]);
  }

  /** The first turn at such a header of the doomed name: it counts, and nothing is dropped. */
  lemma MinusTurn(name: Byte, digit: Byte, rest: seq<Bytes>)
    requires 0 < name < 128 && 1 <= digit <= 7
    ensures var rs := [MinusHeader(name, digit)] + rest;
      Turn(rs, [name], START) == Next(Loop(1 - digit, [], {}, 1, true))
  {
    var h := MinusHeader(name, digit);
    var rs := [h] + rest;
    MinusSize(name, digit);
    MinusName(name, digit);
    hide MinusHeader, OwnName, KindOf, IsExtension, IsZero, RecordSize;
    assert At(rs, 0) == Some(h);
    assert NameOf(rs, h, []) == Some([name]);
    assert Span(-512 * digit) == 1 - digit;
    assert {} + Ranges([]) + Range(0, 1 - digit) == {};
  }

  /** A member whose size field reads -1000: the source never ends, however many turns it takes. */
  lemma StuckExample(name: Byte, n: nat)
    requires 0 < name < 128
    ensures Transformed(Join([MinusHeader(name, 1)]), [name], n) == None
  {
    var rs := [MinusHeader(name, 1)];
    assert rs == [MinusHeader(name, 1)] + [] && rs[..0] == [];
    MinusTurn(name, 1, []);
    JoinRecords(rs);
    hide Turn, MinusHeader;
    SpinsForEver(rs, [name], START, n);
  }

  /**
   The doomed member with a size field of -2000, and a zero record: the loop steps back to the last record, takes
   it for the end, and the source succeeds with every record kept, the doomed member among them.
   */
  lemma BackwardExample(name: Byte)
    requires 0 < name < 128
    ensures var h := MinusHeader(name, 2);
      var payload := Join([h, seq(RECORD, i => 0)]);
      && Transformed(payload, [name], 1) == Some(Ok(payload)) && !Right(payload, [name], payload)
      && Records(payload)[..1] == [h] && KindOf(h).Member? && Resolve(h, []) == Some([name])
  {
    var h, zero: Bytes := MinusHeader(name, 2), seq(RECORD, i => 0);
    var rs := [h, zero];
    assert rs == [h] + [zero] && rs[..1] == [h] && |h| == |zero| == RECORD;
    MinusTurn(name, 2, [zero]);
    MinusName(name, 2);
    JoinRecords(rs);
    assert IsZero(zero);
    hide MinusHeader, KindOf, OwnName, Records, Join, IsZero, Turn, Walk, Finish;
    StepBack(rs, [name]);
    WalkSticks(rs, [name]);
  }

  /** A first turn that steps back to the last record and finds it zero. */
  lemma StepBack(rs: seq<Bytes>, doomed: Bytes)
    requires rs != [] && IsZero(rs[|rs| - 1])
    requires Turn(rs, doomed, START) == Next(Loop(-1, [], {}, 1, true))
    ensures var r := Walk(rs, doomed, START, 1); r.Some? && Finish(rs, r.value) == Ok(Join(rs))
    ensures !NeverSlips(rs, doomed)
  {
    hide IsZero, Join, Filter;
    var t := Loop(-1, [], {}, 1, true);
    assert Turn(rs, doomed, t) == Ends by { assert At(rs, -1) == Some(rs[|rs| - 1]); }
    hide Turn;
    Everything(rs);
    assert Slips(rs, doomed, START, 0);
  }

  lemma {:induction false} Everything(rs: seq<Bytes>)
    ensures Filter(rs, {}) == rs
    decreases |rs|
  {
    if rs != [] { Everything(rs[..|rs| - 1]); }
  }

  /**
   An archive whose claim fails: an extension header before a leading global
   header is left behind, and the output reads as more than the survivors.
   */
  lemma StrandedExtension()
    ensures var rs := [Header(120, 97), Header(103, 97), Header(48, 97)];
            && Parse(rs, []).Ok? && Count(Parse(rs, []).value.items, [97]) == 1
            && Parse(Rewritten(Parse(rs, []).value, [97]), []) != Ok(Expected(Parse(rs, []).value, [97]))
  {
    hide KindOf, OwnName, Header, Front, Stops;
    var x, g, m := Header(120, 97), Header(103, 97), Header(48, 97);
    var rs := [x, g, m];
    assert rs == [x] + [g, m] && [g, m] == [g] + [m] && [m] == [m] + [];
    HeaderReads(120, 97, [g, m]);
    HeaderReads(103, 97, [m]);
    HeaderReads(48, 97, []);
    assert Stops([]) by { StopsEmpty(); }
    var global, member := Item(true, [[x]], [g], []), Item(false, [], [m], [97]);
    assert Parse([], []) == Ok(Archive([], [], []));
    assert Resolve(m, []) == Some([97]);
    assert [member] + [] == [member] && [global] + [member] == [global, member] && [] + [[x]] == [[x]];
    assert Parse([m], []) == Ok(Archive([member], [], []));
    assert Parse([g, m], [[x]]) == Ok(Archive([global, member], [], []));
    assert Parse(rs, []) == Ok(Archive([global, member], [], []));
    var items := [global, member];
    assert Count(items[..1], [97]) == 0 && Count(items, [97]) == 1;
    assert items[..1] == [global] && items[..1][..0] == [];
    assert Leading(items[..1], 0) && !Clean(items[..1]) && !Clean(items);
    RewriteReparses(rs, [97]);
  }

  lemma StopsEmpty()
    ensures Stops([])
  {
  }
}
