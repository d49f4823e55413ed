/**
 tools/upstream_bump.py: the order on release versions and what a forge feed
 proposes for a lock.

 A version is its text split at the dots.
 */
module UpstreamBump {
  import opened Common

  type Version = seq<string>

  predicate Digit(c: char) {
    '0' <= c <= '9'
  }

  /** `part.isdigit()`, in ASCII. */
  predicate Numeric(part: string) {
    part != "" && forall i | 0 <= i < |part| :: Digit(part[i])
  }

  predicate DigitFirst(part: string) {
    part != "" && Digit(part[0])
  }

  function Number(digits: string): nat
    requires forall i | 0 <= i < |digits| :: Digit(digits[i])
  {
    if digits == "" then 0
    else
      assert Digit(digits[|digits| - 1]);
      10 * Number(digits[..|digits| - 1]) + digits[|digits| - 1] as int - '0' as int
  }

  function PartKey(part: string): int {
    if Numeric(part) then Number(part) else -1
  }

  /** `version_key` */
  function Key(v: Version): seq<int> {
    if v == [] then [] else [PartKey(v[0])] + Key(v[1..])
  }

  /** `<` on tuples. */
  predicate Below(a: seq<int>, b: seq<int>) {
    b != [] && (a == [] || a[0] < b[0] || (a[0] == b[0] && Below(a[1..], b[1..])))
  }

  // -------------------------------------------------------------------- `newer`

  function DigitRun(part: string): (run: string)
    ensures |run| <= |part|
  {
    if DigitFirst(part) then [part[0]] + DigitRun(part[1..]) else ""
  }

  /** What follows the numeric prefix: nothing, more of a component, or a dot and a component. */
  datatype Rest = Ends | Inside(text: string) | Dotted(part: string)

  datatype Match = Match(prefix: seq<string>, rest: Rest)

  /** `NUMERIC_PREFIX.match`: the leading all-digit components, and the leading digits of the next. */
  function NumericPrefix(v: Version): Match {
    if v == [] then Match([], Ends)
    else if Numeric(v[0]) then
      var m := NumericPrefix(v[1..]); Match([v[0]] + m.prefix, m.rest)
    else if DigitFirst(v[0]) then Match([DigitRun(v[0])], Inside(v[0][|DigitRun(v[0])|..]))
    else Match([], Dotted(v[0]))
  }

  function Lower(c: char): char {
    if 'A' <= c <= 'Z' then c - 'A' + 'a' else c
  }

  predicate StartsWith(text: string, word: string) {
    |word| <= |text| && forall i | 0 <= i < |word| :: Lower(text[i]) == word[i]
  }

  predicate Marked(text: string) {
    StartsWith(text, "alpha") || StartsWith(text, "beta") || StartsWith(text, "rc") || StartsWith(text, "pre")
        || StartsWith(text, "dev")
  }

  /** `PRERELEASE_SUFFIX.match` */
  predicate PrereleaseSuffix(rest: Rest) {
    match rest
    case Ends => false
    case Inside(text) => Marked(text) || (text != "" && text[0] in "~_-" && Marked(text[1..]))
    case Dotted(part) => Marked(part)
  }

  /** `newer` */
  predicate Newer(candidate: Version, current: Version) {
    var m := NumericPrefix(current);
    if m.prefix == [] || m.rest == Ends then Below(Key(current), Key(candidate))
    else if PrereleaseSuffix(m.rest) then !Below(Key(candidate), Key(m.prefix))
    else Below(Key(m.prefix), Key(candidate))
  }

  lemma BelowIrreflexive(a: seq<int>)
    ensures !Below(a, a)
  {
  }

  lemma {:induction false} BelowTransitive(a: seq<int>, b: seq<int>, c: seq<int>)
    ensures Below(a, b) && Below(b, c) ==> Below(a, c)
    ensures Below(a, b) && !Below(c, b) ==> Below(a, c)
    ensures !Below(b, a) && Below(b, c) ==> Below(a, c)
  {
    if a != [] && b != [] && c != [] { BelowTransitive(a[1..], b[1..], c[1..]); }
  }

  predicate DigitLed(v: Version) {
    forall i | 0 <= i < |v| :: DigitFirst(v[i])
  }

  lemma {:induction false} DigitRunNumeric(part: string)
    requires DigitFirst(part)
    ensures Numeric(DigitRun(part))
    ensures !Numeric(part) ==> |DigitRun(part)| < |part|
    ensures DigitRun(part) <= part
  {
    if DigitFirst(part[1..]) { DigitRunNumeric(part[1..]); }
    assert part == [part[0]] + part[1..];
  }

  /** The first component that is not all digits does not begin with one, and is not the first of all. */
  predicate WordAfterDigits(v: Version) {
    NumericPrefix(v).prefix != [] && NumericPrefix(v).rest.Dotted?
  }

  lemma {:induction false} DottedPrefixBelow(v: Version)
    requires NumericPrefix(v).rest.Dotted?
    ensures Below(Key(NumericPrefix(v).prefix), Key(v))
    ensures NumericPrefix(v).prefix < v && !DigitFirst(v[|NumericPrefix(v).prefix|])
    ensures forall i | 0 <= i < |NumericPrefix(v).prefix| :: Numeric(v[i])
  {
    if Numeric(v[0]) {
      DottedPrefixBelow(v[1..]);
      var m := NumericPrefix(v[1..]);
      assert ([v[0]] + m.prefix)[1..] == m.prefix && v == [v[0]] + v[1..];
      forall i | 0 <= i < |m.prefix| + 1 ensures Numeric(v[i]) {
        if i > 0 { assert v[i] == v[1..][i - 1]; }
      }
    }
  }

  lemma {:induction false} SuffixPrefixAbove(v: Version)
    requires NumericPrefix(v).rest.Inside?
    ensures Below(Key(v), Key(NumericPrefix(v).prefix))
  {
    if Numeric(v[0]) {
      SuffixPrefixAbove(v[1..]);
      var m := NumericPrefix(v[1..]);
      assert ([v[0]] + m.prefix)[1..] == m.prefix;
    } else {
      DigitRunNumeric(v[0]);
    }
  }

  /** A version is newer than itself exactly in the form `1.git`: digits, then a component without one in front. */
  lemma NewerThanItself(v: Version)
    ensures Newer(v, v) <==> WordAfterDigits(v)
  {
    var m := NumericPrefix(v);
    BelowIrreflexive(Key(v));
    if m.rest.Dotted? { DottedPrefixBelow(v); BelowTransitive(Key(v), Key(m.prefix), Key(v)); }
    if m.rest.Inside? { SuffixPrefixAbove(v); BelowTransitive(Key(v), Key(m.prefix), Key(v)); }
  }

  /** `1.git` is such a version. */
  lemma NewerThanItselfExample()
    ensures Newer(["1", "git"], ["1", "git"]) && !DigitLed(["1", "git"])
  {
    assert Numeric("1") && !Numeric("git") && ["1", "git"][1..] == ["git"];
    assert NumericPrefix(["git"]) == Match([], Dotted("git"));
    NewerThanItself(["1", "git"]);
  }

  lemma DigitLedIsNotNewerThanItself(v: Version)
    requires DigitLed(v)
    ensures !Newer(v, v)
  {
    NewerThanItself(v);
    DigitLedPrefix(v);
  }

  lemma DigitLedPrefix(v: Version)
    requires DigitLed(v)
    ensures !NumericPrefix(v).rest.Dotted?
    ensures NumericPrefix(v).rest.Inside? ==> Below(Key(v), Key(NumericPrefix(v).prefix))
  {
    if NumericPrefix(v).rest.Dotted? { DottedPrefixBelow(v); }
    if NumericPrefix(v).rest.Inside? { SuffixPrefixAbove(v); }
  }

  /** A newer version has a higher key. */
  lemma NewerRaisesKey(candidate: Version, current: Version)
    requires DigitLed(current) && Newer(candidate, current)
    ensures Below(Key(current), Key(candidate))
  {
    var m := NumericPrefix(current);
    DigitLedPrefix(current);
    if m.rest != Ends {
      BelowTransitive(Key(current), Key(m.prefix), Key(candidate));
    }
  }

  lemma NewerTransitive(a: Version, b: Version, c: Version)
    requires DigitLed(b) && Newer(a, b) && Newer(b, c)
    ensures Newer(a, c)
  {
    NewerRaisesKey(a, b);
    var m := NumericPrefix(c);
    var bound := if m.prefix == [] || m.rest == Ends then Key(c) else Key(m.prefix);
    BelowTransitive(bound, Key(b), Key(a));
    BelowTransitive(Key(a), bound, Key(b));
    BelowAsymmetric(Key(b), Key(a));
  }

  lemma {:induction false} BelowAsymmetric(a: seq<int>, b: seq<int>)
    requires Below(a, b)
    ensures !Below(b, a)
  {
    BelowTransitive(a, b, a);
    BelowIrreflexive(a);
  }

  ghost predicate UpdateRun(versions: seq<Version>) {
    forall i | 0 < i < |versions| :: Newer(versions[i], versions[i - 1])
  }

  /** A run of updates over such versions never comes back to one: each is newer than all before it. */
  lemma {:induction false} UpdatesNeverReturn(versions: seq<Version>, i: nat, j: nat)
    requires UpdateRun(versions) && i < j < |versions|
    requires forall k | i <= k <= j :: DigitLed(versions[k])
    ensures Newer(versions[j], versions[i]) && versions[j] != versions[i]
    decreases j
  {
    if i < j - 1 {
      UpdatesNeverReturn(versions, i, j - 1);
      NewerTransitive(versions[j], versions[j - 1], versions[i]);
    }
    DigitLedIsNotNewerThanItself(versions[i]);
  }

  // ---------------------------------------------------- the order, on the text itself

  function Pow10(n: nat): nat {
    if n == 0 then 1 else 10 * Pow10(n - 1)
  }

  lemma {:induction false} Pow10Grows(a: nat, b: nat)
    requires a <= b
    ensures 1 <= Pow10(a) <= Pow10(b)
  {
    if a < b { Pow10Grows(a, b - 1); }
    if a == b && a > 0 { Pow10Grows(a - 1, b - 1); }
  }

  lemma {:induction false} NumberBounds(digits: string)
    requires forall i | 0 <= i < |digits| :: Digit(digits[i])
    ensures Number(digits) < Pow10(|digits|)
    ensures digits != "" && digits[0] != '0' ==> Pow10(|digits| - 1) <= Number(digits)
  {
    if digits != "" {
      var k := |digits| - 1;
      NumberBounds(digits[..k]);
      assert Digit(digits[k]);
      if k == 0 && digits[0] != '0' { assert digits[..0] == ""; }
    }
  }

  /** Numerals of one length order by their first difference. */
  lemma {:induction false} SameLengthOrder(a: string, b: string, i: nat)
    requires |a| == |b| && i < |a| && (forall j | 0 <= j < |a| :: Digit(a[j]) && Digit(b[j]))
    requires a[..i] == b[..i] && a[i] < b[i]
    ensures Number(a) < Number(b)
    decreases |a|
  {
    var k := |a| - 1;
    assert Digit(a[k]) && Digit(b[k]);
    if i < k {
      assert a[..k][..i] == a[..i] && b[..k][..i] == b[..i];
      SameLengthOrder(a[..k], b[..k], i);
    } else {
      assert a[..k] == b[..k];
    }
  }

  /** Numerals without leading zeros order by length first. */
  lemma LongerIsGreater(a: string, b: string)
    requires |a| < |b| && (forall j | 0 <= j < |a| :: Digit(a[j])) && (forall j | 0 <= j < |b| :: Digit(b[j]))
    requires b[0] != '0'
    ensures Number(a) < Number(b)
  {
    NumberBounds(a);
    NumberBounds(b);
    Pow10Grows(|a|, |b| - 1);
  }

  /** A component's rank: its number, or below every number. */
  lemma ComponentRank(part: string)
    ensures (part != "" && forall i | 0 <= i < |part| :: '0' <= part[i] <= '9') ==> PartKey(part) == Number(part)
    ensures (part == "" || exists i | 0 <= i < |part| :: !('0' <= part[i] <= '9')) ==> PartKey(part) == -1
  {
  }

  /** The versions first differ in rank at component `i`, where `a` has the greater, or `b` has none. */
  ghost predicate AboveAt(a: Version, b: Version, i: nat) {
    && i < |a| && i <= |b| && (forall j | 0 <= j < i :: PartKey(a[j]) == PartKey(b[j]))
    && (i == |b| || PartKey(b[i]) < PartKey(a[i]))
  }

  ghost predicate RanksAbove(a: Version, b: Version) {
    exists i: nat :: AboveAt(a, b, i)
  }

  lemma AboveLater(a: Version, b: Version, i: nat)
    requires a != [] && b != []
    ensures AboveAt(a, b, i + 1) <==> PartKey(a[0]) == PartKey(b[0]) && AboveAt(a[1..], b[1..], i)
    ensures AboveAt(a, b, 0) <==> PartKey(b[0]) < PartKey(a[0])
  {
    hide PartKey;
    if AboveAt(a, b, i + 1) {
      forall j | 0 <= j < i ensures PartKey(a[1..][j]) == PartKey(b[1..][j]) {
        assert PartKey(a[j + 1]) == PartKey(b[j + 1]);
      }
      assert PartKey(a[0]) == PartKey(b[0]);
    }
    if PartKey(a[0]) == PartKey(b[0]) && AboveAt(a[1..], b[1..], i) {
      forall j | 0 <= j < i + 1 ensures PartKey(a[j]) == PartKey(b[j]) {
        if j > 0 { assert a[1..][j - 1] == a[j] && b[1..][j - 1] == b[j]; }
      }
    }
  }

  lemma {:induction false} KeysByRank(a: Version, b: Version)
    ensures Below(Key(b), Key(a)) <==> RanksAbove(a, b)
    decreases |a|
  {
    hide PartKey;
    if a != [] && b != [] {
      KeysByRank(a[1..], b[1..]);
      assert Key(a)[1..] == Key(a[1..]) && Key(b)[1..] == Key(b[1..]);
      forall i: nat
        ensures AboveAt(a, b, i + 1) <==> PartKey(a[0]) == PartKey(b[0]) && AboveAt(a[1..], b[1..], i)
      {
        AboveLater(a, b, i);
      }
      AboveLater(a, b, 0);
      hide AboveAt;
      if i: nat :| AboveAt(a, b, i) && i > 0 {
        AboveLater(a, b, i - 1);
        assert RanksAbove(a[1..], b[1..]);
      }
      if i: nat :| AboveAt(a[1..], b[1..], i) && PartKey(a[0]) == PartKey(b[0]) {
        assert AboveAt(a, b, i + 1);
      }
    } else if a != [] {
      assert AboveAt(a, b, 0);
    }
  }

  predicate AllNumeric(v: Version) {
    forall i | 0 <= i < |v| :: v[i] != "" && forall j | 0 <= j < |v[i]| :: '0' <= v[i][j] <= '9'
  }

  lemma {:induction false} NumericPrefixWhole(v: Version)
    requires AllNumeric(v)
    ensures NumericPrefix(v) == Match(v, Ends)
  {
    if v != [] {
      NumericPrefixWhole(v[1..]);
      assert [v[0]] + v[1..] == v;
    }
  }

  lemma {:induction false} RunOfDigits(digits: string, text: string)
    requires (forall i | 0 <= i < |digits| :: Digit(digits[i])) && !DigitFirst(text)
    ensures DigitRun(digits + text) == digits
    decreases |digits|
  {
    if digits == "" {
      assert digits + text == text;
    } else {
      assert (digits + text)[1..] == digits[1..] + text;
      RunOfDigits(digits[1..], text);
    }
  }

  lemma {:induction false} NumericPrefixInside(front: Version, digits: string, text: string, more: Version)
    requires AllNumeric(front + [digits]) && text != "" && !DigitFirst(text)
    ensures NumericPrefix(front + [digits + text] + more) == Match(front + [digits], Inside(text))
    decreases |front|
  {
    var v := front + [digits + text] + more;
    assert (front + [digits])[|front|] == digits;
    if front == [] {
      assert v[0] == digits + text && (digits + text)[|digits|] == text[0];
      RunOfDigits(digits, text);
      assert (digits + text)[|digits|..] == text;
    } else {
      assert (front + [digits])[0] == front[0] && v[0] == front[0];
      assert v[1..] == front[1..] + [digits + text] + more;
      forall i | 0 <= i < |front| ensures (front[1..] + [digits])[i] == (front + [digits])[i + 1] {}
      NumericPrefixInside(front[1..], digits, text, more);
      assert [front[0]] + (front[1..] + [digits]) == front + [digits];
    }
  }

  lemma {:induction false} NumericPrefixDotted(front: Version, word: string, more: Version)
    requires AllNumeric(front) && !DigitFirst(word)
    ensures NumericPrefix(front + [word] + more) == Match(front, Dotted(word))
    decreases |front|
  {
    var v := front + [word] + more;
    if front != [] {
      assert v[0] == front[0] && v[1..] == front[1..] + [word] + more;
      NumericPrefixDotted(front[1..], word, more);
      assert [front[0]] + front[1..] == front;
    }
  }

  /** A word of a prerelease, in any case. */
  ghost predicate BeginsWith(text: string, word: string) {
    && |word| <= |text|
    && forall i | 0 <= i < |word| ::
         text[i] == word[i] || (text[i] as int == word[i] as int - 32 && 'a' <= word[i] <= 'z')
  }

  ghost predicate Word(text: string) {
    exists word :: word in {"alpha", "beta", "rc", "pre", "dev"} && BeginsWith(text, word)
  }

  lemma MarkedIsWord(text: string)
    ensures Marked(text) <==> Word(text)
  {
    WordBegins(text, "alpha");
    WordBegins(text, "beta");
    WordBegins(text, "rc");
    WordBegins(text, "pre");
    WordBegins(text, "dev");
    hide BeginsWith, StartsWith;
  }

  lemma WordBegins(text: string, word: string)
    requires forall i | 0 <= i < |word| :: 'a' <= word[i] <= 'z'
    ensures StartsWith(text, word) <==> BeginsWith(text, word)
  {
  }

  /**
   `newer`, on the text of the lock: one of numbers alone is exceeded by what ranks above it; one that goes on in
   letters behind its numbers by what ranks above the numbers, and if they spell a prerelease by the numbers too.
   */
  lemma NewerThanNumbers(candidate: Version, numbers: Version)
    requires AllNumeric(numbers)
    ensures Newer(candidate, numbers) <==> RanksAbove(candidate, numbers)
  {
    NumericPrefixWhole(numbers);
    KeysByRank(candidate, numbers);
    hide RanksAbove;
  }

  lemma NewerThanSuffixed(candidate: Version, front: Version, digits: string, text: string, more: Version)
    requires AllNumeric(front + [digits]) && text != "" && !('0' <= text[0] <= '9')
    ensures Newer(candidate, front + [digits + text] + more) <==>
      if Word(text) || (text[0] in {'~', '_', '-'} && Word(text[1..])) then !RanksAbove(front + [digits], candidate)
      else RanksAbove(candidate, front + [digits])
  {
    NumericPrefixInside(front, digits, text, more);
    KeysByRank(candidate, front + [digits]);
    KeysByRank(front + [digits], candidate);
    MarkedIsWord(text);
    MarkedIsWord(text[1..]);
    assert text[0] in "~_-" <==> text[0] in {'~', '_', '-'};
    hide RanksAbove, Word, Marked, NumericPrefix, AllNumeric, Key, Below;
  }

  lemma NewerThanDotted(candidate: Version, front: Version, word: string, more: Version)
    requires AllNumeric(front) && front != [] && (word == "" || !('0' <= word[0] <= '9'))
    ensures Newer(candidate, front + [word] + more) <==>
      if Word(word) then !RanksAbove(front, candidate) else RanksAbove(candidate, front)
  {
    NumericPrefixDotted(front, word, more);
    KeysByRank(candidate, front);
    KeysByRank(front, candidate);
    MarkedIsWord(word);
    hide RanksAbove, Word, Marked, NumericPrefix, AllNumeric, Key, Below;
  }

  /** 1.10 is newer than 1.9. */
  lemma TenAfterNine()
    ensures Newer(["1", "10"], ["1", "9"])
  {
    LongerIsGreater("9", "10");
    assert Numeric("10") && Numeric("9") && PartKey("9") < PartKey("10");
    NewerThanNumbers(["1", "10"], ["1", "9"]);
    assert ["1", "10"][0] == ["1", "9"][0];
    assert AboveAt(["1", "10"], ["1", "9"], 1);
  }

  // ------------------------------------------------------------ `forge_proposal`

  /** `max(versions, key=version_key)`: the first of the highest. */
  function Highest(versions: seq<Version>): Version
    requires versions != []
  {
    var k := |versions| - 1;
    if k == 0 then versions[0]
    else
      var best := Highest(versions[..k]);
      if Below(Key(best), Key(versions[k])) then versions[k] else best
  }

  function Select(versions: seq<Version>, keep: Version -> bool): seq<Version> {
    if versions == [] then []
    else
      var k := |versions| - 1;
      if keep(versions[k]) then Select(versions[..k], keep) + [versions[k]] else Select(versions[..k], keep)
  }

  /** `newest_stable` */
  function NewestStable(versions: seq<Version>, prerelease: Version -> bool): Option<Version> {
    var stable := Select(versions, v => !prerelease(v));
    if stable == [] then None else Some(Highest(stable))
  }

  /** `major` */
  function Major(v: Version): string {
    if v == [] then "" else v[0]
  }

  datatype Proposal = Nothing | Update(latest: Version) | Review(latest: Version)

  /** `forge_proposal`, once the feed has been read; `prerelease` is `is_prerelease`. */
  function ForgeProposal(available: seq<Version>, prerelease: Version -> bool, current: Version): Proposal {
    var newest := NewestStable(available, prerelease);
    if newest.None? || !Newer(newest.value, current) then Nothing
    else
      var sameMajor := Select(available, v => !prerelease(v) && Major(v) == Major(current));
      var within := NewestStable(sameMajor, prerelease);
      if within.Some? && Newer(within.value, current) then Update(within.value)
      else Review(newest.value)
  }

  lemma {:induction false} SelectMembers(versions: seq<Version>, keep: Version -> bool)
    ensures forall v :: v in Select(versions, keep) <==> v in versions && keep(v)
  {
    if versions != [] {
      var k := |versions| - 1;
      SelectMembers(versions[..k], keep);
      assert versions == versions[..k] + [versions[k]];
    }
  }

  lemma {:induction false} HighestMeaning(versions: seq<Version>)
    requires versions != []
    ensures Highest(versions) in versions
    ensures forall v | v in versions :: !Below(Key(Highest(versions)), Key(v))
  {
    var k := |versions| - 1;
    if k == 0 {
      BelowIrreflexive(Key(versions[0]));
    } else {
      HighestMeaning(versions[..k]);
      var best := Highest(versions[..k]);
      assert versions == versions[..k] + [versions[k]];
      forall v | v in versions ensures !Below(Key(Highest(versions)), Key(v)) {
        if v in versions[..k] {
          BelowTransitive(Key(best), Key(versions[k]), Key(v));
        } else {
          BelowIrreflexive(Key(v));
        }
      }
    }
  }

  /** The newest stable version: stable, from the list, and with nothing stable above it; none means none is stable. */
  lemma NewestStableMeaning(versions: seq<Version>, prerelease: Version -> bool)
    ensures NewestStable(versions, prerelease).None? <==> forall v | v in versions :: prerelease(v)
    ensures NewestStable(versions, prerelease).Some? ==>
              && NewestStable(versions, prerelease).value in versions
              && !prerelease(NewestStable(versions, prerelease).value)
              && forall v | v in versions && !prerelease(v) ::
                  !Below(Key(NewestStable(versions, prerelease).value), Key(v))
  {
    var stable := Select(versions, v => !prerelease(v));
    SelectMembers(versions, v => !prerelease(v));
    if stable == [] {
      forall v | v in versions ensures prerelease(v) { assert v !in stable; }
    } else {
      HighestMeaning(stable);
    }
  }

  lemma NewerByKey(a: Version, b: Version, current: Version)
    requires Newer(a, current) && !Below(Key(b), Key(a))
    ensures Newer(b, current)
  {
    var m := NumericPrefix(current);
    BelowTransitive(Key(current), Key(a), Key(b));
    BelowTransitive(Key(m.prefix), Key(a), Key(b));
    if Below(Key(b), Key(m.prefix)) { BelowTransitive(Key(b), Key(m.prefix), Key(a)); }
  }

  /** The stable versions of the feed that share the lock's major. */
  predicate Peer(available: seq<Version>, prerelease: Version -> bool, current: Version, v: Version) {
    v in available && !prerelease(v) && SameMajor(v, current)
  }

  /** The two versions begin with the same component. */
  predicate SameMajor(v: Version, w: Version) {
    (if v == [] then "" else v[0]) == if w == [] then "" else w[0]
  }

  /**
   An update is the highest stable version of the lock's own major, and newer than the lock; a review names
   the highest stable version of all, which is then of another major and newer; nothing means no stable
   version is newer.
   */
  lemma ProposalMeaning(available: seq<Version>, prerelease: Version -> bool, current: Version)
    ensures match ForgeProposal(available, prerelease, current)
      case Nothing => forall v | v in available && !prerelease(v) :: !Newer(v, current)
      case Update(w) =>
        && Peer(available, prerelease, current, w) && Newer(w, current)
        && forall v | Peer(available, prerelease, current, v) :: !Below(Key(w), Key(v))
      case Review(w) =>
        && w in available && !prerelease(w) && Newer(w, current) && Major(w) != Major(current)
        && (forall v | v in available && !prerelease(v) :: !Below(Key(w), Key(v)))
        && (forall v | Peer(available, prerelease, current, v) :: !Newer(v, current))
  {
    var keep := v => !prerelease(v) && Major(v) == Major(current);
    var sameMajor := Select(available, keep);
    SelectMembers(available, keep);
    assert forall v :: v in sameMajor <==> Peer(available, prerelease, current, v);
    NewestStableMeaning(available, prerelease);
    NewestStableMeaning(sameMajor, prerelease);
    var newest, within := NewestStable(available, prerelease), NewestStable(sameMajor, prerelease);
    forall v | v in available && !prerelease(v) && Newer(v, current)
      ensures newest.Some? && Newer(newest.value, current)
    {
      NewerByKey(v, newest.value, current);
    }
    forall v | v in sameMajor && Newer(v, current) ensures within.Some? && Newer(within.value, current) {
      NewerByKey(v, within.value, current);
    }
  }

  /**
   After an update is adopted the same feed proposes an update again exactly when the adopted version is
   newer than itself, and then it is the same one over again. A feed of digit-led versions settles at once.
   */
  lemma AdoptedUpdateSettles(available: seq<Version>, prerelease: Version -> bool, current: Version)
    requires ForgeProposal(available, prerelease, current).Update?
    ensures var w := ForgeProposal(available, prerelease, current).latest;
      && (ForgeProposal(available, prerelease, w).Update? <==> WordAfterDigits(w))
      && (ForgeProposal(available, prerelease, w).Update? ==> ForgeProposal(available, prerelease, w).latest == w)
      && (DigitLed(w) ==> !ForgeProposal(available, prerelease, w).Update?)
  {
    var w := ForgeProposal(available, prerelease, current).latest;
    ProposalMeaning(available, prerelease, current);
    NewerThanItself(w);
    if DigitLed(w) { DigitLedIsNotNewerThanItself(w); }
    SameSelect(available, v => !prerelease(v) && Major(v) == Major(current),
               v => !prerelease(v) && Major(v) == Major(w));
    NewestStableMeaning(available, prerelease);
    if Newer(w, w) { NewerByKey(w, NewestStable(available, prerelease).value, w); }
  }

  lemma {:induction false} SameSelect(versions: seq<Version>, keep: Version -> bool, also: Version -> bool)
    requires forall v :: keep(v) == also(v)
    ensures Select(versions, keep) == Select(versions, also)
  {
    if versions != [] { SameSelect(versions[..|versions| - 1], keep, also); }
  }

  /** A feed that serves only `1.git` proposes it to a lock at `1`, and to a lock at `1.git` again. */
  lemma ProposedForEver(prerelease: Version -> bool)
    requires !prerelease(["1", "git"])
    ensures ForgeProposal([["1", "git"]], prerelease, ["1"]) == Update(["1", "git"])
    ensures ForgeProposal([["1", "git"]], prerelease, ["1", "git"]) == Update(["1", "git"])
  {
    var feed, v, one := [["1", "git"]], ["1", "git"], ["1"];
    NewerThanItselfExample();
    assert NumericPrefix(one) == Match(["1"], Ends) && one[1..] == [] && v[1..] == ["git"] && Numeric("1");
    assert Key(one) == [PartKey("1")] && Key(v) == [PartKey("1")] + Key(["git"]) && Key(["git"]) != [];
    assert Key(v)[1..] == Key(["git"]) && Key(one)[1..] == [];
    assert Newer(v, one);
    forall keep: Version -> bool | keep(v) ensures Select(feed, keep) == feed { assert feed[..0] == []; }
    assert Highest(feed) == v && Major(v) == Major(one);
  }
}
