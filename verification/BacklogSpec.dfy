/**
 tools/factory_build_backlog.py: which subpackage names a spec declares, read
 with three-valued conditions, against an evaluator that knows every condition.

 A spec is its stripped lines, tokenised: only the lines the reader tells apart
 are kept apart here.
 */
module BacklogSpec {
  import opened Common

  /** An `%if` expression: `%{with X}` or `%{without X}`, perhaps negated, or anything else. */
  datatype Cond = With(name: string, without: bool, negate: bool) | Opaque

  datatype Line =
    | Bcond(tokens: seq<string>)    // starts with %bcond
    | If(cond: Cond)                // %if
    | IfTarget                      // any other %if...: %ifarch, %ifos
    | Elif
    | Else
    | Endif
    | Package(tokens: seq<string>)  // starts with %package
    | Other

  // ------------------------------------------------------------------ the names

  /** `text.replace(pattern, "")` */
  function Without(text: string, pattern: string): string
    requires pattern != ""
    decreases |text|
  {
    if text == "" then ""
    else if pattern <= text then Without(text[|pattern|..], pattern)
    else [text[0]] + Without(text[1..], pattern)
  }

  /** `_expand_recipe_macro` */
  function Expand(name: string): string {
    Without(Without(name, "%{?pkg_suffix}"), "%{?basepkg_suffix}")
  }

  /** The name a `%package` line declares in the spec of `recipe`. */
  function Declared(recipe: string, tokens: seq<string>): set<string> {
    if |tokens| < 2 then {}
    else if tokens[1] == "-n" && |tokens| < 3 then {}
    else
      var candidate := if tokens[1] == "-n" then Expand(tokens[2]) else recipe + "-" + tokens[1];
      if candidate != "" && candidate[0] != '-' then {candidate} else {}
  }

  // ----------------------------------------------------------------- the bconds

  /** The digits of a Python integer literal, single underscores between them. */
  predicate Digits(text: string) {
    |text| > 0 && '0' <= text[0] <= '9'
    && (|text| == 1 || Digits(text[1..]) || (text[1] == '_' && Digits(text[2..])))
  }

  /** `bool(int(text))`, None for its ValueError. */
  function Truth(text: string): Option<bool> {
    var unsigned := if |text| > 0 && text[0] in "+-" then text[1..] else text;
    if Digits(unsigned) then Some(NonZero(unsigned)) else None
  }

  predicate NonZero(digits: string) {
    exists i | 0 <= i < |digits| :: digits[i] in "123456789"
  }

  /** What a `%bcond` line declares: nothing, a known default, or one that must be computed. */
  datatype Declaration = Nothing | Known(name: string, on: bool) | Computed(name: string)

  function Declares(tokens: seq<string>): Declaration {
    if |tokens| < 2 then Nothing
    else if tokens[0] == "%bcond_with" then Known(tokens[1], false)
    else if tokens[0] == "%bcond_without" then Known(tokens[1], true)
    else if tokens[0] == "%bcond" && |tokens| >= 3 then
      match Truth(tokens[2])
      case Some(on) => Known(tokens[1], on)
      case None => Computed(tokens[1])
    else Nothing
  }

  // ------------------------------------------------------- the three-valued reader

  /** `None` in a frame: the branch cannot be decided. */
  datatype State = State(bconds: map<string, bool>, stack: seq<Option<bool>>, names: set<string>)

  const START := State(map[], [], {})

  /** `_eval_condition` */
  function Eval(cond: Cond, bconds: map<string, bool>): Option<bool> {
    if cond.Opaque? || cond.name !in bconds then None
    else Some((bconds[cond.name] != cond.without) != cond.negate)
  }

  function Record(bconds: map<string, bool>, tokens: seq<string>): map<string, bool> {
    match Declares(tokens)
    case Nothing => bconds
    case Known(name, on) => bconds[name := on]
    case Computed(name) => bconds - {name}
  }

  function Flip(frame: Option<bool>): Option<bool> {
    if frame.None? then None else Some(!frame.value)
  }

  /** One line of `_subpackage_names`. */
  function Read(recipe: string, s: State, line: Line): State {
    var top := |s.stack| - 1;
    match line
    case Bcond(tokens) =>
      if Some(false) in s.stack then s
      else if None in s.stack then (if |tokens| >= 2 then s.(bconds := s.bconds - {tokens[1]}) else s)
      else s.(bconds := Record(s.bconds, tokens))
    case If(cond) => s.(stack := s.stack + [Eval(cond, s.bconds)])
    case IfTarget => s.(stack := s.stack + [None])
    case Elif => if s.stack == [] then s else s.(stack := s.stack[..top] + [None])
    case Else => if s.stack == [] then s else s.(stack := s.stack[..top] + [Flip(s.stack[top])])
    case Endif => if s.stack == [] then s else s.(stack := s.stack[..top])
    case Package(tokens) =>
      if Some(false) in s.stack || None in s.stack then s else s.(names := s.names + Declared(recipe, tokens))
    case Other => s
  }

  function ReadAll(recipe: string, lines: seq<Line>): State {
    if lines == [] then START
    else Read(recipe, ReadAll(recipe, lines[..|lines| - 1]), lines[|lines| - 1])
  }

  class Reader {
    var bconds: map<string, bool>
    var stack: seq<Option<bool>>
    var names: set<string>

    function Value(): State
      reads this
    {
      State(bconds, stack, names)
    }

    constructor ()
      ensures Value() == START
    {
      bconds, stack, names := map[], [], {};
    }

    /** `_bcond_state` */
    method BcondState(tokens: seq<string>)
      modifies this`bconds
      ensures bconds == Record(old(bconds), tokens)
    {
      if |tokens| < 2 { return; }
      if tokens[0] == "%bcond_with" {
        bconds := bconds[tokens[1] := false];
      } else if tokens[0] == "%bcond_without" {
        bconds := bconds[tokens[1] := true];
      } else if tokens[0] == "%bcond" && |tokens| >= 3 {
        match Truth(tokens[2]) {
          case Some(on) => bconds := bconds[tokens[1] := on];
          case None => bconds := bconds - {tokens[1]};
        }
      }
    }

    /** The body of the line loop. */
    method ReadLine(recipe: string, line: Line)
      modifies this
      ensures Value() == Read(recipe, old(Value()), line)
    {
      match line {
        case Bcond(tokens) =>
          if Some(false) in stack { return; }
          if None in stack {
            if |tokens| >= 2 { bconds := bconds - {tokens[1]}; }
            return;
          }
          BcondState(tokens);
        case If(cond) => stack := stack + [Eval(cond, bconds)];
        case IfTarget => stack := stack + [None];
        case Elif => if stack != [] { stack := stack[|stack| - 1 := None]; }
        case Else => if stack != [] { stack := stack[|stack| - 1 := Flip(stack[|stack| - 1])]; }
        case Endif => if stack != [] { stack := stack[..|stack| - 1]; }
        case Package(tokens) =>
          for i := 0 to |stack|
            invariant Some(false) !in stack[..i] && None !in stack[..i]
          {
            if stack[i] != Some(true) {
              assert stack[i] in stack;
              if stack[i].Some? {
                var taken: bool := stack[i].value;
                assert !taken && stack[i] == Some(taken);
              }
              return;
            }
          }
          assert stack[..|stack|] == stack;
          if |tokens| < 2 || (tokens[1] == "-n" && |tokens| < 3) { return; }
          var candidate := if tokens[1] == "-n" then Expand(tokens[2]) else recipe + "-" + tokens[1];
          if candidate != "" && candidate[0] != '-' { names := names + {candidate}; }
        case Other =>
      }
    }

    method ReadSpec(recipe: string, lines: seq<Line>)
      requires Value() == START
      modifies this
      ensures Value() == ReadAll(recipe, lines)
    {
      for i := 0 to |lines|
        invariant Value() == ReadAll(recipe, lines[..i])
      {
        assert lines[..i + 1][..i] == lines[..i];
        ReadLine(recipe, lines[i]);
      }
      assert lines[..|lines|] == lines;
    }
  }

  /** `_subpackage_names`: the specs, each with its recipe's name. */
  method SubpackageNames(specs: seq<(string, seq<Line>)>) returns (names: set<string>)
    ensures forall n :: n in names <==> exists i | 0 <= i < |specs| :: n in ReadAll(specs[i].0, specs[i].1).names
  {
    names := {};
    for k := 0 to |specs|
      invariant forall n :: n in names <==> exists i | 0 <= i < k :: n in ReadAll(specs[i].0, specs[i].1).names
    {
      var reader := new Reader();
      reader.ReadSpec(specs[k].0, specs[k].1);
      names := names + reader.names;
    }
  }

  // --------------------------------------------------------- the evaluator that knows

  /** An open `%if`: whether its current branch is taken, and whether any branch has been. */
  datatype Frame = Frame(on: bool, taken: bool)

  /** `on` are the names whose `with_` macro is defined. */
  datatype Build = Build(on: set<string>, frames: seq<Frame>, names: set<string>)

  predicate Live(frames: seq<Frame>) {
    forall i | 0 <= i < |frames| :: frames[i].on
  }

  /** `%{with X}` asks whether `with_X` is defined; `answer` decides whatever else the line leaves open. */
  predicate Holds(cond: Cond, on: set<string>, answer: bool) {
    if cond.Opaque? then answer
    else ((cond.name in on) != cond.without) != cond.negate
  }

  /**
   RPM's own rule, for a build given no `--with` or `--without`: `%bcond_without X` defines `with_X`,
   `%bcond_with X` leaves it as it is, and `%bcond X D` is one or the other. Nothing undefines it.
   */
  function Define(on: set<string>, tokens: seq<string>, answer: bool): set<string> {
    match Declares(tokens)
    case Nothing => on
    case Known(name, default) => if default then on + {name} else on
    case Computed(name) => if answer then on + {name} else on
  }

  /** An `%if` inside a branch that is not taken has no branch to take. */
  function Open(frames: seq<Frame>, on: bool): Frame {
    if Live(frames) then Frame(on, on) else Frame(false, true)
  }

  /** One line of the default build: nothing in a branch that is not taken is evaluated. */
  function Evaluate(recipe: string, b: Build, line: Line, answer: bool): Build {
    var top := |b.frames| - 1;
    match line
    case Bcond(tokens) => if Live(b.frames) then b.(on := Define(b.on, tokens, answer)) else b
    case If(cond) => b.(frames := b.frames + [Open(b.frames, Holds(cond, b.on, answer))])
    case IfTarget => b.(frames := b.frames + [Open(b.frames, answer)])
    case Elif =>
      if b.frames == [] then b
      else
        var on := !b.frames[top].taken && answer;
        b.(frames := b.frames[..top] + [Frame(on, b.frames[top].taken || on)])
    case Else => if b.frames == [] then b else b.(frames := b.frames[..top] + [Frame(!b.frames[top].taken, true)])
    case Endif => if b.frames == [] then b else b.(frames := b.frames[..top])
    case Package(tokens) => if Live(b.frames) then b.(names := b.names + Declared(recipe, tokens)) else b
    case Other => b
  }

  /** `answers(i)` settles what line `i` leaves open. */
  function EvaluateAll(recipe: string, lines: seq<Line>, answers: nat -> bool): Build {
    if lines == [] then Build({}, [], {})
    else
      var k := |lines| - 1;
      Evaluate(recipe, EvaluateAll(recipe, lines[..k], answers), lines[k], answers(k))
  }

  // -------------------------------------------------------------------- nesting

  /** For each open `%if`, whether its `%else` has passed; None where `%elif`, `%else` or `%endif` is out of place. */
  function Nest(elses: seq<bool>, line: Line): Option<seq<bool>> {
    var top := |elses| - 1;
    match line
    case If(_) => Some(elses + [false])
    case IfTarget => Some(elses + [false])
    case Elif => if elses == [] || elses[top] then None else Some(elses)
    case Else => if elses == [] || elses[top] then None else Some(elses[..top] + [true])
    case Endif => if elses == [] then None else Some(elses[..top])
    case _ => Some(elses)
  }

  function Nesting(lines: seq<Line>): Option<seq<bool>> {
    if lines == [] then Some([])
    else
      var before := Nesting(lines[..|lines| - 1]);
      if before.None? then None else Nest(before.value, lines[|lines| - 1])
  }

  predicate WellNested(lines: seq<Line>) {
    Nesting(lines).Some?
  }

  // ------------------------------------------------------------------- simulation

  /** A decided frame is right wherever the frames around it are taken. */
  predicate FrameAgrees(frame: Option<bool>, f: Frame, passedElse: bool) {
    frame.Some? ==> frame.value == f.on && (passedElse || f.taken == f.on)
  }

  ghost predicate FramesAgree(stack: seq<Option<bool>>, frames: seq<Frame>, elses: seq<bool>) {
    && |stack| == |frames| == |elses|
    && forall i {:trigger stack[i]} {:trigger frames[i]} | 0 <= i < |stack| ::
         Live(frames[..i]) ==> FrameAgrees(stack[i], frames[i], elses[i])
  }

  /** Every bcond value still held is the true one. */
  predicate BcondsAgree(held: map<string, bool>, on: set<string>) {
    forall n | n in held :: held[n] == (n in on)
  }

  ghost predicate Agrees(s: State, b: Build, elses: seq<bool>) {
    FramesAgree(s.stack, b.frames, elses) && BcondsAgree(s.bconds, b.on) && s.names <= b.names
  }

  /** The reader takes the line for a default of off, on a name the build has on. */
  predicate Reverses(s: State, b: Build, line: Line) {
    && line.Bcond? && Some(false) !in s.stack && None !in s.stack
    && match Declares(line.tokens) { case Known(name, default) => !default && name in b.on case _ => false }
  }

  /** No declaration the reader takes turns off what an earlier one turned on. */
  ghost predicate NothingReversed(recipe: string, lines: seq<Line>, answers: nat -> bool) {
    forall k | 0 <= k < |lines| ::
      !Reverses(ReadAll(recipe, lines[..k]), EvaluateAll(recipe, lines[..k], answers), lines[k])
  }

  /** All frames known taken: live. One known not taken: not live. */
  lemma DecidedLiveness(stack: seq<Option<bool>>, frames: seq<Frame>, elses: seq<bool>)
    requires FramesAgree(stack, frames, elses)
    ensures Some(false) !in stack && None !in stack ==> Live(frames)
    ensures Some(false) in stack ==> !Live(frames)
  {
    if Some(false) !in stack && None !in stack {
      for i := 0 to |frames|
        invariant forall j | 0 <= j < i :: frames[j].on
      {
        assert stack[i] in stack;
        assert Live(frames[..i]);
      }
    }
    forall i | 0 <= i < |stack| && stack[i] == Some(false) ensures !Live(frames) {
      if Live(frames[..i]) { assert !frames[i].on; }
    }
  }

  lemma TopFrame(stack: seq<Option<bool>>, frames: seq<Frame>, elses: seq<bool>, frame: Option<bool>, f: Frame,
                 passedElse: bool)
    requires FramesAgree(stack, frames, elses)
    requires Live(frames) ==> FrameAgrees(frame, f, passedElse)
    ensures FramesAgree(stack + [frame], frames + [f], elses + [passedElse])
  {
    forall i {:trigger (stack + [frame])[i]} | 0 <= i <= |stack| ensures
      Live((frames + [f])[..i]) ==> FrameAgrees((stack + [frame])[i], (frames + [f])[i], (elses + [passedElse])[i])
    {
      if i < |stack| { assert (frames + [f])[..i] == frames[..i]; } else { assert (frames + [f])[..i] == frames; }
    }
  }

  lemma DropTop(stack: seq<Option<bool>>, frames: seq<Frame>, elses: seq<bool>)
    requires FramesAgree(stack, frames, elses) && stack != []
    ensures var top := |stack| - 1;
      && FramesAgree(stack[..top], frames[..top], elses[..top])
      && (Live(frames[..top]) ==> FrameAgrees(stack[top], frames[top], elses[top]))
  {
    var top := |stack| - 1;
    forall i {:trigger stack[..top][i]} | 0 <= i < top ensures
      Live(frames[..top][..i]) ==> FrameAgrees(stack[..top][i], frames[..top][i], elses[..top][i])
    {
      assert frames[..top][..i] == frames[..i] && stack[i] == stack[..top][i];
    }
  }

  lemma BranchAgrees(recipe: string, s: State, b: Build, elses: seq<bool>, line: Line, answer: bool)
    requires Agrees(s, b, elses) && Nest(elses, line).Some?
    requires line.If? || line.IfTarget? || line.Elif? || line.Else? || line.Endif?
    ensures Agrees(Read(recipe, s, line), Evaluate(recipe, b, line, answer), Nest(elses, line).value)
  {
    hide FramesAgree;
    assert |s.stack| == |b.frames| == |elses| by { SameDepth(s.stack, b.frames, elses); }
    var after, built := Read(recipe, s, line), Evaluate(recipe, b, line, answer);
    if line.If? || line.IfTarget? {
      hide Live;
      TopFrame(s.stack, b.frames, elses, after.stack[|s.stack|], built.frames[|s.stack|], false);
    } else {
      DropTop(s.stack, b.frames, elses);
      var top := |s.stack| - 1;
      if !line.Endif? {
        hide Live;
        TopFrame(s.stack[..top], b.frames[..top], elses[..top], after.stack[top], built.frames[top],
            Nest(elses, line).value[top]);
        assert elses[..top] + [Nest(elses, line).value[top]] == Nest(elses, line).value;
      }
    }
  }

  lemma SameDepth(stack: seq<Option<bool>>, frames: seq<Frame>, elses: seq<bool>)
    requires FramesAgree(stack, frames, elses)
    ensures |stack| == |frames| == |elses|
  {
  }

  /** One line keeps the agreement, whatever settles it, unless it reverses a bcond; then it breaks it. */
  lemma ReadAgrees(recipe: string, s: State, b: Build, elses: seq<bool>, line: Line, answer: bool)
    requires Agrees(s, b, elses) && Nest(elses, line).Some?
    ensures !Reverses(s, b, line) ==>
              Agrees(Read(recipe, s, line), Evaluate(recipe, b, line, answer), Nest(elses, line).value)
    ensures Reverses(s, b, line) ==>
              !BcondsAgree(Read(recipe, s, line).bconds, Evaluate(recipe, b, line, answer).on)
  {
    if line.If? || line.IfTarget? || line.Elif? || line.Else? || line.Endif? {
      BranchAgrees(recipe, s, b, elses, line, answer);
    } else {
      DecidedLiveness(s.stack, b.frames, elses);
      hide FramesAgree, Live, Nesting;
      if Reverses(s, b, line) {
        var name := Declares(line.tokens).name;
        assert Read(recipe, s, line).bconds[name] == false;
      }
    }
  }

  /** However the undecidable conditions fall, the reader agrees with the evaluator after every line. */
  lemma {:induction false} Soundness(recipe: string, lines: seq<Line>, answers: nat -> bool)
    requires WellNested(lines) && NothingReversed(recipe, lines, answers)
    ensures Agrees(ReadAll(recipe, lines), EvaluateAll(recipe, lines, answers), Nesting(lines).value)
  {
    hide Agrees, Reverses, Read, Evaluate, Nest;
    if lines != [] {
      var k := |lines| - 1;
      ShorterToo(recipe, lines, answers);
      Soundness(recipe, lines[..k], answers);
      ReadAgrees(recipe, ReadAll(recipe, lines[..k]), EvaluateAll(recipe, lines[..k], answers),
                 Nesting(lines[..k]).value, lines[k], answers(k));
    } else {
      StartAgrees();
    }
  }

  lemma StartAgrees()
    ensures Agrees(START, Build({}, [], {}), [])
  {
  }

  lemma ShorterToo(recipe: string, lines: seq<Line>, answers: nat -> bool)
    requires lines != [] && NothingReversed(recipe, lines, answers)
    ensures NothingReversed(recipe, lines[..|lines| - 1], answers)
  {
    hide Reverses, ReadAll, EvaluateAll;
    var shorter := lines[..|lines| - 1];
    forall k | 0 <= k < |shorter|
      ensures !Reverses(ReadAll(recipe, shorter[..k]), EvaluateAll(recipe, shorter[..k], answers), shorter[k])
    {
      assert shorter[..k] == lines[..k] && shorter[k] == lines[k];
    }
  }

  /** The reader never reports a subpackage the default build may not ship, and holds no wrong bcond value. */
  lemma ReportsOnlyBuilt(recipe: string, lines: seq<Line>, answers: nat -> bool)
    requires WellNested(lines) && NothingReversed(recipe, lines, answers)
    ensures ReadAll(recipe, lines).names <= EvaluateAll(recipe, lines, answers).names
    ensures BcondsAgree(ReadAll(recipe, lines).bconds, EvaluateAll(recipe, lines, answers).on)
  {
    Soundness(recipe, lines, answers);
  }

  /** Every bcond value held after any line is the true one, exactly when no declaration is reversed. */
  lemma HeldIsTrueIff(recipe: string, lines: seq<Line>, answers: nat -> bool)
    requires WellNested(lines)
    ensures (forall k | 0 <= k <= |lines| :: HeldTrueAt(recipe, lines, answers, k)) <==>
        NothingReversed(recipe, lines, answers)
  {
    hide Reverses, BcondsAgree;
    if NothingReversed(recipe, lines, answers) {
      forall k | 0 <= k <= |lines| ensures HeldTrueAt(recipe, lines, answers, k) {
        PrefixToo(recipe, lines, answers, k);
        PrefixNested(lines, k);
        ReportsOnlyBuilt(recipe, lines[..k], answers);
      }
    } else {
      FirstReversal(recipe, lines, answers);
    }
  }

  ghost predicate HeldTrueAt(recipe: string, lines: seq<Line>, answers: nat -> bool, k: nat)
    requires k <= |lines|
  {
    BcondsAgree(ReadAll(recipe, lines[..k]).bconds, EvaluateAll(recipe, lines[..k], answers).on)
  }

  lemma {:induction false} PrefixNested(lines: seq<Line>, k: nat)
    requires k <= |lines| && WellNested(lines)
    ensures WellNested(lines[..k])
    decreases |lines|
  {
    if k == |lines| {
      assert lines[..k] == lines;
    } else {
      PrefixNested(lines[..|lines| - 1], k);
      assert lines[..|lines| - 1][..k] == lines[..k];
    }
  }

  lemma {:induction false} PrefixToo(recipe: string, lines: seq<Line>, answers: nat -> bool, k: nat)
    requires k <= |lines| && NothingReversed(recipe, lines, answers)
    ensures NothingReversed(recipe, lines[..k], answers)
    decreases |lines|
  {
    hide NothingReversed;
    if k == |lines| {
      assert lines[..k] == lines;
    } else {
      ShorterToo(recipe, lines, answers);
      PrefixToo(recipe, lines[..|lines| - 1], answers, k);
      assert lines[..|lines| - 1][..k] == lines[..k];
    }
  }

  /** Before its first reversal the reader agrees with the evaluator, so right after it a held value is wrong. */
  lemma {:induction false} FirstReversal(recipe: string, lines: seq<Line>, answers: nat -> bool)
    requires WellNested(lines) && !NothingReversed(recipe, lines, answers)
    ensures exists k: nat :: k <= |lines| && !HeldTrueAt(recipe, lines, answers, k)
    decreases |lines|
  {
    hide Reverses, BcondsAgree, Agrees, Read, Evaluate, Nest;
    var last := |lines| - 1;
    PrefixNested(lines, last);
    var front := lines[..last];
    if NothingReversed(recipe, front, answers) {
      assert lines[..|lines|] == lines;
      LastReverses(recipe, lines, answers);
      Soundness(recipe, front, answers);
      ReadAgrees(recipe, ReadAll(recipe, front), EvaluateAll(recipe, front, answers), Nesting(front).value,
                 lines[last], answers(last));
      assert !HeldTrueAt(recipe, lines, answers, |lines|);
    } else {
      FirstReversal(recipe, front, answers);
      var k: nat :| k <= |front| && !HeldTrueAt(recipe, front, answers, k);
      assert front[..k] == lines[..k];
      assert !HeldTrueAt(recipe, lines, answers, k);
    }
  }

  lemma LastReverses(recipe: string, lines: seq<Line>, answers: nat -> bool)
    requires lines != [] && !NothingReversed(recipe, lines, answers)
        && NothingReversed(recipe, lines[..|lines| - 1], answers)
    ensures var k := |lines| - 1;
      Reverses(ReadAll(recipe, lines[..k]), EvaluateAll(recipe, lines[..k], answers), lines[k])
  {
    hide Reverses, ReadAll, EvaluateAll;
    var front := lines[..|lines| - 1];
    forall k | 0 <= k < |front|
      ensures !Reverses(ReadAll(recipe, lines[..k]), EvaluateAll(recipe, lines[..k], answers), lines[k])
    {
      assert front[..k] == lines[..k] && front[k] == lines[k];
    }
  }

  // ------------------------------------------------- what can be read off the spec

  /** The line may turn `name` on. */
  predicate MayTurnOn(line: Line, name: string) {
    line.Bcond? && match Declares(line.tokens)
      case Nothing => false
      case Known(n, default) => n == name && default
      case Computed(n) => n == name
  }

  /** No name is declared on, or computed, and later declared off. */
  predicate NeverReversed(lines: seq<Line>) {
    forall i, k | 0 <= i < k < |lines| && lines[k].Bcond? ::
      match Declares(lines[k].tokens) {
        case Known(name, default) => default || !MayTurnOn(lines[i], name)
        case _ => true
      }
  }

  lemma {:induction false} OffUntilDeclared(recipe: string, lines: seq<Line>, answers: nat -> bool, name: string)
    requires forall i | 0 <= i < |lines| :: !MayTurnOn(lines[i], name)
    ensures name !in EvaluateAll(recipe, lines, answers).on
  {
    if lines != [] {
      var k := |lines| - 1;
      forall i | 0 <= i < k ensures !MayTurnOn(lines[..k][i], name) {
        assert lines[..k][i] == lines[i];
      }
      OffUntilDeclared(recipe, lines[..k], answers, name);
      assert !MayTurnOn(lines[k], name);
    }
  }

  /** Then nothing is reversed, however the undecidable conditions fall. */
  lemma NeverMeansNothing(recipe: string, lines: seq<Line>, answers: nat -> bool)
    requires NeverReversed(lines)
    ensures NothingReversed(recipe, lines, answers)
  {
    hide ReadAll, EvaluateAll, MayTurnOn;
    forall k | 0 <= k < |lines|
      ensures !Reverses(ReadAll(recipe, lines[..k]), EvaluateAll(recipe, lines[..k], answers), lines[k])
    {
      if lines[k].Bcond? && Declares(lines[k].tokens).Known? && !Declares(lines[k].tokens).on {
        var name := Declares(lines[k].tokens).name;
        forall i | 0 <= i < k ensures !MayTurnOn(lines[..k][i], name) {
          assert lines[..k][i] == lines[i];
        }
        OffUntilDeclared(recipe, lines[..k], answers, name);
      }
    }
  }

  lemma Snoc(recipe: string, lines: seq<Line>, line: Line, answers: nat -> bool)
    ensures ReadAll(recipe, lines + [line]) == Read(recipe, ReadAll(recipe, lines), line)
    ensures EvaluateAll(recipe, lines + [line], answers)
         == Evaluate(recipe, EvaluateAll(recipe, lines, answers), line, answers(|lines|))
    ensures Nesting(lines + [line]) == if Nesting(lines).None? then None else Nest(Nesting(lines).value, line)
  {
    assert (lines + [line])[..|lines|] == lines;
  }

  /** Turned on, declared off, asked whether it is off: the reader takes the branch and the build does not. */
  lemma ReversedBranch(recipe: string, name: string, on: Line, off: Line, part: Line, p: string, answers: nat -> bool)
    requires on.Bcond? && Declares(on.tokens) == Known(name, true)
    requires off.Bcond? && Declares(off.tokens) == Known(name, false)
    requires part.Package? && p in Declared(recipe, part.tokens)
    ensures var lines := [] + [on] + [off] + [If(With(name, false, true))] + [part];
      && WellNested(lines)
      && p in ReadAll(recipe, lines).names
      && EvaluateAll(recipe, lines, answers).names == {}
  {
    hide Declares, Declared, ReadAll, EvaluateAll, Nesting;
    var unless := If(With(name, false, true));
    Start(recipe, answers);
    Snoc(recipe, [], on, answers);
    Snoc(recipe, [] + [on], off, answers);
    var two := [] + [on] + [off];
    assert ReadAll(recipe, two) == State(map[name := false], [], {});
    assert EvaluateAll(recipe, two, answers) == Build({name}, [], {});
    Snoc(recipe, two, unless, answers);
    assert ReadAll(recipe, two + [unless]) == State(map[name := false], [Some(true)], {});
    assert EvaluateAll(recipe, two + [unless], answers) == Build({name}, [Frame(false, false)], {});
    Snoc(recipe, two + [unless], part, answers);
    var frames := [Frame(false, false)];
    assert !frames[0].on && !Live(frames);
  }

  const ON: Line := Bcond(["%bcond_without", "x"])
  const OFF: Line := Bcond(["%bcond_with", "x"])
  const UNLESS: Line := If(With("x", false, true))
  const PART: Line := Package(["%package", "p"])

  /**
   `%bcond_without x`, `%bcond_with x`, `%if ! %{with x}`, `%package p`: the second line turns nothing off,
   so the subpackage is reported and not built.
   */
  lemma ReversedIsReported(recipe: string, answers: nat -> bool)
    requires recipe != "" && recipe[0] != '-'
    ensures var lines := [] + [ON] + [OFF] + [UNLESS] + [PART];
      && WellNested(lines)
      && recipe + "-p" in ReadAll(recipe, lines).names
      && EvaluateAll(recipe, lines, answers).names == {}
  {
    assert Declares(ON.tokens) == Known("x", true) && Declares(OFF.tokens) == Known("x", false);
    assert recipe + "-p" in Declared(recipe, PART.tokens) by {
      assert PART.tokens[1] == "p" && |"p"| != |"-n"|;
      assert recipe + "-" + "p" == recipe + "-p";
    }
    hide Declares, Declared, ReadAll, EvaluateAll, WellNested;
    ReversedBranch(recipe, "x", ON, OFF, PART, recipe + "-p", answers);
  }

  lemma Start(recipe: string, answers: nat -> bool)
    ensures ReadAll(recipe, []) == START && EvaluateAll(recipe, [], answers) == Build({}, [], {})
        && Nesting([]) == Some([])
  {
  }

  // -------------------------------------------------------------------- exactness

  /** No `%package` line is left in doubt: each is in a branch known not taken, or in known taken ones only. */
  predicate Decided(recipe: string, lines: seq<Line>) {
    lines == []
    || (var k := |lines| - 1;
        Decided(recipe, lines[..k])
        && (lines[k].Package? ==>
              var stack := ReadAll(recipe, lines[..k]).stack; Some(false) in stack || None !in stack))
  }

  lemma SameNames(recipe: string, s: State, b: Build, elses: seq<bool>, line: Line, answer: bool)
    requires Agrees(s, b, elses) && s.names == b.names
    requires line.Package? ==> Some(false) in s.stack || None !in s.stack
    ensures Read(recipe, s, line).names == Evaluate(recipe, b, line, answer).names
  {
    DecidedLiveness(s.stack, b.frames, elses);
    hide FramesAgree, Live, BcondsAgree, Declared, Eval, Holds, Record, Define;
  }

  /** Then the report is exactly what any evaluation declares, whatever the other conditions are. */
  lemma {:induction false} DecidedIsExact(recipe: string, lines: seq<Line>, answers: nat -> bool)
    requires WellNested(lines) && NothingReversed(recipe, lines, answers) && Decided(recipe, lines)
    ensures ReadAll(recipe, lines).names == EvaluateAll(recipe, lines, answers).names
  {
    hide Agrees, Read, Evaluate, Nest, Reverses;
    if lines != [] {
      var k := |lines| - 1;
      ShorterToo(recipe, lines, answers);
      DecidedIsExact(recipe, lines[..k], answers);
      Soundness(recipe, lines[..k], answers);
      SameNames(recipe, ReadAll(recipe, lines[..k]), EvaluateAll(recipe, lines[..k], answers),
                Nesting(lines[..k]).value, lines[k], answers(k));
    }
  }

  // ------------------------------------------------ when a reported name is not built

  /** The line asks for a bcond whose held value is not the true one. */
  predicate Misreads(s: State, b: Build, line: Line) {
    line.If? && line.cond.With? && line.cond.name in s.bconds
    && s.bconds[line.cond.name] != (line.cond.name in b.on)
  }

  /** One line's effect on the open `%if`s and whether each was misread. */
  function Mark(misread: seq<bool>, s: State, b: Build, line: Line): seq<bool> {
    match line
    case If(_) => misread + [Misreads(s, b, line)]
    case IfTarget => misread + [false]
    case Endif => if misread == [] then [] else misread[..|misread| - 1]
    case _ => misread
  }

  /** For each open `%if`, whether its condition was misread. */
  function Misread(recipe: string, lines: seq<Line>, answers: nat -> bool): seq<bool> {
    if lines == [] then []
    else
      var k := |lines| - 1;
      Mark(Misread(recipe, lines[..k], answers), ReadAll(recipe, lines[..k]), EvaluateAll(recipe, lines[..k], answers),
           lines[k])
  }

  /** The frames as they would be had nothing been misread. */
  function Corrected(stack: seq<Option<bool>>, misread: seq<bool>): seq<Option<bool>>
    requires |stack| == |misread|
  {
    seq(|stack|, i requires 0 <= i < |stack| => if misread[i] then Flip(stack[i]) else stack[i])
  }

  lemma CorrectedSnoc(stack: seq<Option<bool>>, misread: seq<bool>, frame: Option<bool>, wrong: bool)
    requires |stack| == |misread|
    ensures Corrected(stack + [frame], misread + [wrong])
         == Corrected(stack, misread) + [if wrong then Flip(frame) else frame]
  {
  }

  lemma CorrectedTop(stack: seq<Option<bool>>, misread: seq<bool>)
    requires |stack| == |misread| && stack != []
    ensures var top := |stack| - 1;
      && Corrected(stack[..top], misread[..top]) == Corrected(stack, misread)[..top]
      && Corrected(stack, misread)[top] == if misread[top] then Flip(stack[top]) else stack[top]
  {
  }

  ghost predicate InStep(s: State, b: Build, elses: seq<bool>, misread: seq<bool>) {
    |misread| == |s.stack| && FramesAgree(Corrected(s.stack, misread), b.frames, elses)
  }

  /** Reversals or not: the corrected frames agree with the build's. */
  lemma {:induction false} CorrectedAgrees(recipe: string, lines: seq<Line>, answers: nat -> bool)
    requires WellNested(lines)
    ensures InStep(ReadAll(recipe, lines), EvaluateAll(recipe, lines, answers), Nesting(lines).value,
                   Misread(recipe, lines, answers))
  {
    hide InStep, Read, Evaluate, Nest, Mark;
    if lines == [] {
      NothingOpen();
    } else {
      var k := |lines| - 1;
      CorrectedAgrees(recipe, lines[..k], answers);
      CorrectedStep(recipe, ReadAll(recipe, lines[..k]), EvaluateAll(recipe, lines[..k], answers),
                    Nesting(lines[..k]).value, Misread(recipe, lines[..k], answers), lines[k], answers(k));
    }
  }

  lemma NothingOpen()
    ensures InStep(START, Build({}, [], {}), [], [])
  {
  }

  lemma CorrectedStep(recipe: string, s: State, b: Build, elses: seq<bool>, misread: seq<bool>, line: Line,
                      answer: bool)
    requires InStep(s, b, elses, misread) && Nest(elses, line).Some?
    ensures InStep(Read(recipe, s, line), Evaluate(recipe, b, line, answer), Nest(elses, line).value,
                   Mark(misread, s, b, line))
  {
    if line.If? || line.IfTarget? {
      CorrectedOpens(recipe, s, b, elses, misread, line, answer);
    } else if line.Elif? || line.Else? || line.Endif? {
      CorrectedTurns(recipe, s, b, elses, misread, line, answer);
    } else {
      hide FramesAgree, Corrected, Record, Define, Declared, Live;
    }
  }

  lemma CorrectedOpens(recipe: string, s: State, b: Build, elses: seq<bool>, misread: seq<bool>, line: Line,
                       answer: bool)
    requires InStep(s, b, elses, misread) && (line.If? || line.IfTarget?)
    ensures InStep(Read(recipe, s, line), Evaluate(recipe, b, line, answer), Nest(elses, line).value,
                   Mark(misread, s, b, line))
  {
    hide FramesAgree, Corrected, Live;
    var frame, wrong := if line.If? then Eval(line.cond, s.bconds) else None, line.If? && Misreads(s, b, line);
    CorrectedSnoc(s.stack, misread, frame, wrong);
    TopFrame(Corrected(s.stack, misread), b.frames, elses, if wrong then Flip(frame) else frame,
             Evaluate(recipe, b, line, answer).frames[|b.frames|], false);
  }

  lemma CorrectedTurns(recipe: string, s: State, b: Build, elses: seq<bool>, misread: seq<bool>, line: Line,
                       answer: bool)
    requires InStep(s, b, elses, misread) && (line.Elif? || line.Else? || line.Endif?) && Nest(elses, line).Some?
    ensures InStep(Read(recipe, s, line), Evaluate(recipe, b, line, answer), Nest(elses, line).value,
                   Mark(misread, s, b, line))
  {
    hide FramesAgree, Corrected, Live;
    var fixed, top := Corrected(s.stack, misread), |s.stack| - 1;
    CorrectedLength(s.stack, misread);
    SameDepth(fixed, b.frames, elses);
    DropTop(fixed, b.frames, elses);
    CorrectedTop(s.stack, misread);
    if !line.Endif? {
      var frame, passed := if line.Elif? then None else Flip(s.stack[top]), line.Else?;
      CorrectedSnoc(s.stack[..top], misread[..top], frame, misread[top]);
      assert misread[..top] + [misread[top]] == misread && elses[..top] + [passed] == Nest(elses, line).value;
      TopFrame(fixed[..top], b.frames[..top], elses[..top], if misread[top] then Flip(frame) else frame,
               Evaluate(recipe, b, line, answer).frames[top], passed);
    }
  }

  lemma CorrectedLength(stack: seq<Option<bool>>, misread: seq<bool>)
    requires |stack| == |misread|
    ensures |Corrected(stack, misread)| == |stack|
  {
  }

  /** Line `k` is a `%package` line that declares `name`. */
  predicate DeclaresAt(recipe: string, lines: seq<Line>, k: nat, name: string) {
    k < |lines| && lines[k].Package? && name in Declared(recipe, lines[k].tokens)
  }

  /** At line `k` the reader takes all open branches for taken. */
  predicate TakenAt(recipe: string, lines: seq<Line>, k: nat)
    requires k <= |lines|
  {
    var stack := ReadAll(recipe, lines[..k]).stack;
    Some(false) !in stack && None !in stack
  }

  predicate LiveAt(recipe: string, lines: seq<Line>, answers: nat -> bool, k: nat)
    requires k <= |lines|
  {
    Live(EvaluateAll(recipe, lines[..k], answers).frames)
  }

  /** Where the reader takes every open branch, the build does exactly if none was inside on a misread bcond. */
  lemma TakenIsLive(recipe: string, lines: seq<Line>, answers: nat -> bool, k: nat)
    requires WellNested(lines) && k <= |lines| && TakenAt(recipe, lines, k)
    ensures LiveAt(recipe, lines, answers, k) <==> true !in Misread(recipe, lines[..k], answers)
  {
    PrefixNested(lines, k);
    CorrectedAgrees(recipe, lines[..k], answers);
    var stack, misread := ReadAll(recipe, lines[..k]).stack, Misread(recipe, lines[..k], answers);
    var frames, elses := EvaluateAll(recipe, lines[..k], answers).frames, Nesting(lines[..k]).value;
    hide FramesAgree, Misread, ReadAll, EvaluateAll, Live;
    DecidedLiveness(Corrected(stack, misread), frames, elses);
    CorrectedTaken(stack, misread);
  }

  lemma CorrectedTaken(stack: seq<Option<bool>>, misread: seq<bool>)
    requires |stack| == |misread| && Some(false) !in stack && None !in stack
    ensures true in misread ==> Some(false) in Corrected(stack, misread)
    ensures true !in misread ==> Corrected(stack, misread) == stack
  {
    var fixed := Corrected(stack, misread);
    forall i | 0 <= i < |stack| ensures stack[i] == Some(true) {
      assert stack[i] in stack;
      if stack[i].Some? {
        var taken: bool := stack[i].value;
        assert stack[i] == Some(taken);
      }
    }
    if true in misread {
      var i :| 0 <= i < |misread| && misread[i];
      assert fixed[i] == Some(false);
    }
  }

  /** The reader reports `name` from line `k`. */
  predicate ReportsAt(recipe: string, lines: seq<Line>, k: nat, name: string) {
    DeclaresAt(recipe, lines, k, name) && TakenAt(recipe, lines, k)
  }

  /** The build makes `name` from line `k`. */
  predicate BuildsAt(recipe: string, lines: seq<Line>, answers: nat -> bool, k: nat, name: string) {
    DeclaresAt(recipe, lines, k, name) && LiveAt(recipe, lines, answers, k)
  }

  lemma EarlierLines(recipe: string, lines: seq<Line>, answers: nat -> bool, k: nat, name: string)
    requires k < |lines| - 1
    ensures var front := lines[..|lines| - 1];
      && (ReportsAt(recipe, front, k, name) <==> ReportsAt(recipe, lines, k, name))
      && (BuildsAt(recipe, front, answers, k, name) <==> BuildsAt(recipe, lines, answers, k, name))
  {
    hide ReadAll, EvaluateAll, Declared, Live;
    assert lines[..|lines| - 1][..k] == lines[..k];
  }

  lemma LastLine(recipe: string, lines: seq<Line>, answers: nat -> bool, name: string)
    requires lines != []
    ensures var k := |lines| - 1;
      && (name in ReadAll(recipe, lines).names <==>
            name in ReadAll(recipe, lines[..k]).names || ReportsAt(recipe, lines, k, name))
      && (name in EvaluateAll(recipe, lines, answers).names <==>
            name in EvaluateAll(recipe, lines[..k], answers).names || BuildsAt(recipe, lines, answers, k, name))
  {
    hide Declared, Record, Eval, Define, Open, Live, Holds;
  }

  /** The reported names are those of the lines the reader takes, the built ones of the lines the build reaches. */
  lemma {:induction false} NamesByLine(recipe: string, lines: seq<Line>, answers: nat -> bool, name: string)
    ensures name in ReadAll(recipe, lines).names <==> exists k: nat :: ReportsAt(recipe, lines, k, name)
    ensures name in EvaluateAll(recipe, lines, answers).names <==>
              exists k: nat :: BuildsAt(recipe, lines, answers, k, name)
    decreases |lines|
  {
    if lines == [] {
      Start(recipe, answers);
    } else {
      var last := |lines| - 1;
      NamesByLine(recipe, lines[..last], answers, name);
      LastLine(recipe, lines, answers, name);
      WithinLines(recipe, lines, answers, name);
      WithinLines(recipe, lines[..last], answers, name);
      hide ReportsAt, BuildsAt, ReadAll, EvaluateAll;
      var front := lines[..last];
      forall k: nat | k < last
        ensures ReportsAt(recipe, front, k, name) <==> ReportsAt(recipe, lines, k, name)
        ensures BuildsAt(recipe, front, answers, k, name) <==> BuildsAt(recipe, lines, answers, k, name)
      {
        EarlierLines(recipe, lines, answers, k, name);
      }
      if k: nat :| ReportsAt(recipe, lines, k, name) { assert k == last || ReportsAt(recipe, front, k, name); }
      if k: nat :| BuildsAt(recipe, lines, answers, k, name) {
        assert k == last || BuildsAt(recipe, front, answers, k, name);
      }
    }
  }

  lemma WithinLines(recipe: string, lines: seq<Line>, answers: nat -> bool, name: string)
    ensures forall k: nat ::
      ReportsAt(recipe, lines, k, name) || BuildsAt(recipe, lines, answers, k, name) ==> k < |lines|
  {
    hide TakenAt, LiveAt, Declared;
  }

  /**
   A name is reported and not built exactly when the reader takes some of its lines, each of those lies in a
   branch inside on a misread bcond, and the build reaches none of its other lines.
   */
  lemma ReportedNotBuilt(recipe: string, lines: seq<Line>, answers: nat -> bool, name: string)
    requires WellNested(lines)
    ensures name in ReadAll(recipe, lines).names && name !in EvaluateAll(recipe, lines, answers).names <==>
      && (exists k: nat :: ReportsAt(recipe, lines, k, name))
      && (forall k: nat | ReportsAt(recipe, lines, k, name) :: true in Misread(recipe, lines[..k], answers))
      && (forall k: nat | DeclaresAt(recipe, lines, k, name) && !TakenAt(recipe, lines, k) ::
            !LiveAt(recipe, lines, answers, k))
  {
    NamesByLine(recipe, lines, answers, name);
    hide TakenAt, LiveAt, Misread, ReadAll, EvaluateAll, Declared, WellNested;
    forall k: nat | ReportsAt(recipe, lines, k, name)
      ensures BuildsAt(recipe, lines, answers, k, name) <==> true !in Misread(recipe, lines[..k], answers)
    {
      TakenIsLive(recipe, lines, answers, k);
    }
    forall k: nat | DeclaresAt(recipe, lines, k, name) && !TakenAt(recipe, lines, k)
      ensures BuildsAt(recipe, lines, answers, k, name) <==> LiveAt(recipe, lines, answers, k)
    {
    }
  }

  /** Without a reversal nothing is misread. */
  lemma {:induction false} NothingMisread(recipe: string, lines: seq<Line>, answers: nat -> bool)
    requires WellNested(lines) && NothingReversed(recipe, lines, answers)
    ensures true !in Misread(recipe, lines, answers)
  {
    hide ReadAll, EvaluateAll, Reverses, FramesAgree;
    if lines != [] {
      var k := |lines| - 1;
      ShorterToo(recipe, lines, answers);
      NothingMisread(recipe, lines[..k], answers);
      Soundness(recipe, lines[..k], answers);
    }
  }

  // ------------------------------------------------- what can be decided is reported

  /** A literal declaration outside every `%if`. */
  predicate DeclaredOutside(lines: seq<Line>, j: nat, name: string) {
    && j < |lines| && lines[j].Bcond? && Nesting(lines[..j]) == Some([])
    && match Declares(lines[j].tokens) { case Known(n, _) => n == name case _ => false }
  }

  /** Every condition asks for a bcond declared literally, earlier and outside every `%if`; no default is computed. */
  predicate Settled(lines: seq<Line>) {
    forall k | 0 <= k < |lines| ::
      match lines[k]
      case If(cond) => cond.With? && exists j | 0 <= j < k :: DeclaredOutside(lines, j, cond.name)
      case IfTarget => false
      case Elif => false
      case Bcond(tokens) => !Declares(tokens).Computed?
      case _ => true
  }

  /** Nothing is in doubt, and what is declared outside every `%if` is held. */
  ghost predicate Certain(recipe: string, lines: seq<Line>) {
    var s := ReadAll(recipe, lines);
    && WellNested(lines) && |s.stack| == |Nesting(lines).value| && None !in s.stack
    && forall j: nat, name | DeclaredOutside(lines, j, name) :: name in s.bconds
  }

  lemma {:induction false} SettledIsCertain(recipe: string, lines: seq<Line>)
    requires WellNested(lines) && Settled(lines)
    ensures Certain(recipe, lines)
    decreases |lines|
  {
    if lines != [] {
      var k := |lines| - 1;
      SettledBefore(lines);
      SettledIsCertain(recipe, lines[..k]);
      CertainNext(recipe, lines);
    }
  }

  lemma SettledBefore(lines: seq<Line>)
    requires lines != [] && Settled(lines)
    ensures Settled(lines[..|lines| - 1])
  {
    hide Declares, Nesting;
    var front := lines[..|lines| - 1];
    forall k | 0 <= k < |front| && lines[k].If?
      ensures exists j | 0 <= j < k :: DeclaredOutside(front, j, lines[k].cond.name)
    {
      var j :| 0 <= j < k && DeclaredOutside(lines, j, lines[k].cond.name);
      assert front[..j] == lines[..j];
      assert DeclaredOutside(front, j, lines[k].cond.name);
    }
  }

  lemma CertainNext(recipe: string, lines: seq<Line>)
    requires lines != [] && WellNested(lines) && Settled(lines) && Certain(recipe, lines[..|lines| - 1])
    ensures Certain(recipe, lines)
  {
    hide Declares, Declared;
    var k := |lines| - 1;
    var front := lines[..k];
    var s, after := ReadAll(recipe, front), ReadAll(recipe, lines);
    forall j: nat, name | DeclaredOutside(lines, j, name) ensures name in after.bconds {
      if j < k {
        assert front[..j] == lines[..j];
        assert DeclaredOutside(front, j, name);
      } else {
        assert s.stack == [];
      }
    }
    if lines[k].If? {
      var j :| 0 <= j < k && DeclaredOutside(lines, j, lines[k].cond.name);
      assert front[..j] == lines[..j];
      assert DeclaredOutside(front, j, lines[k].cond.name);
    }
  }

  lemma {:induction false} SettledIsDecided(recipe: string, lines: seq<Line>)
    requires WellNested(lines) && Settled(lines)
    ensures Decided(recipe, lines)
  {
    hide ReadAll, Settled, DeclaredOutside;
    if lines != [] {
      SettledBefore(lines);
      SettledIsDecided(recipe, lines[..|lines| - 1]);
      SettledIsCertain(recipe, lines[..|lines| - 1]);
    }
  }

  /**
   From the lines alone: where every condition asks for a bcond declared literally, earlier and outside every
   `%if`, the report is exactly what the default build declares.
   */
  lemma SettledIsExact(recipe: string, lines: seq<Line>, answers: nat -> bool)
    requires WellNested(lines) && Settled(lines) && NothingReversed(recipe, lines, answers)
    ensures ReadAll(recipe, lines).names == EvaluateAll(recipe, lines, answers).names
  {
    SettledIsDecided(recipe, lines);
    DecidedIsExact(recipe, lines, answers);
  }

  /** For each open `%if`, the line that asks for a bcond there, unless it asks for more or had an `%elif`. */
  function Openers(lines: seq<Line>): seq<Option<nat>> {
    if lines == [] then [] else Opener(Openers(lines[..|lines| - 1]), lines[|lines| - 1], |lines| - 1)
  }

  function Opener(before: seq<Option<nat>>, line: Line, k: nat): seq<Option<nat>> {
    match line
    case If(cond) => before + [if cond.With? then Some(k) else None]
    case IfTarget => before + [None]
    case Elif => if before == [] then [] else before[..|before| - 1] + [None]
    case Endif => if before == [] then [] else before[..|before| - 1]
    case _ => before
  }

  /** Before line `i`, `name` is declared literally outside every `%if`, and no line between declares it again. */
  predicate PinnedAt(lines: seq<Line>, i: nat, name: string) {
    && i <= |lines|
    && exists j | 0 <= j < i :: DeclaredOutside(lines, j, name) && forall m | j < m < i :: !Touches(lines[m], name)
  }

  predicate Touches(line: Line, name: string) {
    line.Bcond? && |line.tokens| >= 2 && line.tokens[1] == name
  }

  /** What is so declared is held. */
  lemma {:induction false} PinnedHeld(recipe: string, lines: seq<Line>, j: nat, name: string)
    requires WellNested(lines) && DeclaredOutside(lines, j, name)
    requires forall m | j < m < |lines| :: !Touches(lines[m], name)
    ensures name in ReadAll(recipe, lines).bconds
    decreases |lines|
  {
    var k := |lines| - 1;
    var front := lines[..k];
    if j < k {
      assert front[..j] == lines[..j];
      PinnedHeld(recipe, front, j, name);
      assert !Touches(lines[k], name);
      Untouched(recipe, ReadAll(recipe, front), lines[k], name);
    } else {
      SameStackDepth(recipe, front);
      hide ReadAll;
      assert ReadAll(recipe, front).stack == [];
      assert ReadAll(recipe, lines) == Read(recipe, ReadAll(recipe, front), lines[k]) by { Unfolded(recipe, lines); }
    }
  }

  lemma Unfolded(recipe: string, lines: seq<Line>)
    requires lines != []
    ensures ReadAll(recipe, lines) == Read(recipe, ReadAll(recipe, lines[..|lines| - 1]), lines[|lines| - 1])
  {
    hide Read;
  }

  lemma Untouched(recipe: string, s: State, line: Line, name: string)
    requires name in s.bconds && !Touches(line, name)
    ensures name in Read(recipe, s, line).bconds
  {
    hide Declared, Truth;
  }

  lemma {:induction false} SameStackDepth(recipe: string, lines: seq<Line>)
    requires WellNested(lines)
    ensures |ReadAll(recipe, lines).stack| == |Nesting(lines).value|
  {
    hide Record, Declared, Eval;
    if lines != [] { SameStackDepth(recipe, lines[..|lines| - 1]); }
  }

  /** If the bcond asked for at `opener` is so declared, the frame is decided. */
  ghost predicate DecidedBy(lines: seq<Line>, opener: Option<nat>, frame: Option<bool>) {
    opener.Some? ==>
      var k := opener.value;
      && k < |lines| && lines[k].If? && lines[k].cond.With?
      && (PinnedAt(lines, k, lines[k].cond.name) ==> frame.Some?)
  }

  ghost predicate AllDecidedBy(lines: seq<Line>, openers: seq<Option<nat>>, stack: seq<Option<bool>>) {
    |openers| == |stack| && forall i | 0 <= i < |stack| :: DecidedBy(lines, openers[i], stack[i])
  }

  lemma PinnedBefore(lines: seq<Line>, k: nat, name: string)
    requires k < |lines|
    ensures PinnedAt(lines[..|lines| - 1], k, name) <==> PinnedAt(lines, k, name)
  {
    hide Declares;
    var front := lines[..|lines| - 1];
    forall j | 0 <= j < k
      ensures DeclaredOutside(front, j, name) && (forall m | j < m < k :: !Touches(front[m], name)) <==>
                DeclaredOutside(lines, j, name) && (forall m | j < m < k :: !Touches(lines[m], name))
    {
      assert front[..j] == lines[..j];
      assert forall m | 0 <= m < |front| :: front[m] == lines[m];
    }
  }

  lemma DecidedLater(lines: seq<Line>, opener: Option<nat>, frame: Option<bool>)
    requires lines != [] && DecidedBy(lines[..|lines| - 1], opener, frame)
    ensures DecidedBy(lines, opener, frame)
    ensures frame.Some? ==> DecidedBy(lines, opener, Flip(frame))
  {
    hide PinnedAt;
    if opener.Some? { PinnedBefore(lines, opener.value, lines[opener.value].cond.name); }
  }

  /** An open `%if` whose bcond is so declared is decided. */
  lemma {:induction false} PinnedDecided(recipe: string, lines: seq<Line>)
    requires WellNested(lines)
    ensures AllDecidedBy(lines, Openers(lines), ReadAll(recipe, lines).stack)
    decreases |lines|
  {
    if lines != [] {
      var k := |lines| - 1;
      var front := lines[..k];
      PinnedDecided(recipe, front);
      var openers, s := Openers(front), ReadAll(recipe, front);
      forall i | 0 <= i < |openers|
        ensures DecidedBy(lines, openers[i], s.stack[i]) && DecidedBy(lines, openers[i], Flip(s.stack[i]))
      {
        DecidedLater(lines, openers[i], s.stack[i]);
      }
      if lines[k].If? && lines[k].cond.With? && PinnedAt(lines, k, lines[k].cond.name) {
        PinnedIsHeld(recipe, lines, k, lines[k].cond.name);
      }
      if lines[k].If? { OpenedDecided(lines, s, k); }
      Unfolded(recipe, lines);
      hide *;
      DecidedNext(recipe, lines, openers, s);
      OpenersUnfolded(lines);
    }
  }

  lemma OpenersUnfolded(lines: seq<Line>)
    requires lines != []
    ensures Openers(lines) == Opener(Openers(lines[..|lines| - 1]), lines[|lines| - 1], |lines| - 1)
  {
  }

  lemma NothingAsked(lines: seq<Line>, frame: Option<bool>)
    ensures DecidedBy(lines, None, frame)
  {
  }

  /** One more line keeps what is asked for and what is decided in step. */
  lemma DecidedNext(recipe: string, lines: seq<Line>, openers: seq<Option<nat>>, s: State)
    requires lines != [] && |openers| == |s.stack|
    requires forall i | 0 <= i < |openers| ::
      DecidedBy(lines, openers[i], s.stack[i]) && DecidedBy(lines, openers[i], Flip(s.stack[i]))
    requires var k := |lines| - 1;
      lines[k].If? ==> DecidedBy(lines, if lines[k].cond.With? then Some(k) else None, Eval(lines[k].cond, s.bconds))
    ensures var k := |lines| - 1; AllDecidedBy(lines, Opener(openers, lines[k], k), Read(recipe, s, lines[k]).stack)
  {
    NothingAsked(lines, None);
    hide DecidedBy, Eval, Record, Declared, Flip;
  }

  lemma OpenedDecided(lines: seq<Line>, s: State, k: nat)
    requires k < |lines| && lines[k].If?
    requires lines[k].cond.With? && PinnedAt(lines, k, lines[k].cond.name) ==> lines[k].cond.name in s.bconds
    ensures DecidedBy(lines, if lines[k].cond.With? then Some(k) else None, Eval(lines[k].cond, s.bconds))
  {
    hide PinnedAt;
  }

  lemma PinnedIsHeld(recipe: string, lines: seq<Line>, k: nat, name: string)
    requires WellNested(lines) && k < |lines| && PinnedAt(lines, k, name)
    ensures name in ReadAll(recipe, lines[..k]).bconds
  {
    hide ReadAll, Declares;
    var j :| 0 <= j < k && DeclaredOutside(lines, j, name) && forall m | j < m < k :: !Touches(lines[m], name);
    assert lines[..k][..j] == lines[..j];
    PrefixNested(lines, k);
    PinnedHeld(recipe, lines[..k], j, name);
  }

  /**
   Whatever is in doubt elsewhere: a package the build makes is reported, if every open `%if` asks for a bcond
   declared literally, outside every `%if` and not again since.
   */
  lemma PinnedIsReported(recipe: string, lines: seq<Line>, answers: nat -> bool, k: nat, name: string)
    requires WellNested(lines) && NothingReversed(recipe, lines, answers)
    requires BuildsAt(recipe, lines, answers, k, name)
    requires forall o | o in Openers(lines[..k]) ::
      o.Some? && o.value < k && lines[o.value].If? && lines[o.value].cond.With?
      && PinnedAt(lines, o.value, lines[o.value].cond.name)
    ensures name in ReadAll(recipe, lines).names
  {
    var front := lines[..k];
    PrefixNested(lines, k);
    PrefixToo(recipe, lines, answers, k);
    Soundness(recipe, front, answers);
    PinnedDecided(recipe, front);
    var stack := ReadAll(recipe, front).stack;
    DecidedLiveness(stack, EvaluateAll(recipe, front, answers).frames, Nesting(front).value);
    forall i | 0 <= i < |stack| ensures stack[i].Some? {
      var o := Openers(front)[i];
      assert o in Openers(front) && DecidedBy(front, o, stack[i]);
      PinnedWithin(lines, k, o.value, lines[o.value].cond.name);
    }
    assert TakenAt(recipe, lines, k);
    NamesByLine(recipe, lines, answers, name);
    assert ReportsAt(recipe, lines, k, name);
  }

  lemma PinnedWithin(lines: seq<Line>, k: nat, i: nat, name: string)
    requires i <= k <= |lines| && PinnedAt(lines, i, name)
    ensures PinnedAt(lines[..k], i, name)
  {
    hide Declares;
    var j :| 0 <= j < i && DeclaredOutside(lines, j, name) && forall m | j < m < i :: !Touches(lines[m], name);
    assert lines[..k][..j] == lines[..j];
    assert DeclaredOutside(lines[..k], j, name);
  }

  // ---------------------------------------------------- what a spec means, by its structure

  /** A spec without its undecidable parts: declarations, packages and nested choices. */
  datatype Item =
    | Declare(name: string, on: bool)
    | Part(suffix: string)
    | Named(name: string)
    | Choice(name: string, without: bool, negate: bool, yes: seq<Item>, no: seq<Item>)

  /** The lines it is written in. */
  function Written(items: seq<Item>): seq<Line> {
    if items == [] then [] else WrittenOne(items[0]) + Written(items[1..])
  }

  function WrittenOne(item: Item): seq<Line> {
    match item
    case Declare(name, on) => [Bcond([if on then "%bcond_without" else "%bcond_with", name])]
    case Part(suffix) => [Package(["%package", suffix])]
    case Named(name) => [Package(["%package", "-n", name])]
    case Choice(name, without, negate, yes, no) =>
      [If(With(name, without, negate))] + Written(yes) + [Else] + Written(no) + [Endif]
  }

  /** What the default build turns on and makes. */
  function Means(recipe: string, items: seq<Item>, on: set<string>, names: set<string>): (set<string>, set<string>) {
    if items == [] then (on, names)
    else
      var (on', names') := MeansOne(recipe, items[0], on, names);
      Means(recipe, items[1..], on', names')
  }

  function MeansOne(recipe: string, item: Item, on: set<string>, names: set<string>): (set<string>, set<string>) {
    match item
    case Declare(name, default) => (if default then on + {name} else on, names)
    case Part(suffix) => (on, names + {recipe + "-" + suffix})
    case Named(name) => (on, names + {name})
    case Choice(name, without, negate, yes, no) =>
      if ((name in on) != without) != negate then Means(recipe, yes, on, names) else Means(recipe, no, on, names)
  }

  /** Names are proper: a suffix is not `-n`, and an explicit name is not empty, led by a dash, or macro-laden. */
  predicate Proper(items: seq<Item>) {
    forall item | item in items :: ProperOne(item)
  }

  predicate ProperOne(item: Item) {
    match item
    case Declare(_, _) => true
    case Part(suffix) => suffix != "-n"
    case Named(name) => name != "" && name[0] != '-' && '%' !in name
    case Choice(_, _, _, yes, no) => Proper(yes) && Proper(no)
  }

  lemma {:induction false} WithoutNothing(text: string, pattern: string)
    requires pattern != "" && pattern[0] !in text
    ensures Without(text, pattern) == text
    decreases |text|
  {
    if text != "" { WithoutNothing(text[1..], pattern); }
  }

  lemma {:induction false} WithoutOnce(before: string, pattern: string, after: string)
    requires pattern != "" && pattern[0] !in before && pattern[0] !in after
    ensures Without(before + pattern + after, pattern) == before + after
    decreases |before|
  {
    if before == "" {
      assert before + pattern + after == pattern + after;
      assert (pattern + after)[|pattern|..] == after;
      WithoutNothing(after, pattern);
    } else {
      assert (before + pattern + after)[0] == before[0];
      assert (before + pattern + after)[1..] == before[1..] + pattern + after;
      WithoutOnce(before[1..], pattern, after);
    }
  }

  lemma OneIsTrue()
    ensures Truth("1") == Some(true)
  {
    var one := "1";
    assert one[0] !in "+-" && Digits(one);
    assert '1' == "123456789"[0];
    assert one[0] in "123456789";
    assert NonZero(one);
  }

  /** Digits alone are digits, and so are two runs of them with an underscore between. */
  lemma {:induction false} DigitsForms(a: string, b: string)
    requires a != "" && (forall i | 0 <= i < |a| :: '0' <= a[i] <= '9') && Digits(b)
    ensures Digits(a) && Digits(a + "_" + b)
    decreases |a|
  {
    var text := a + "_" + b;
    assert text[0] == a[0];
    if |a| == 1 {
      assert text[1] == '_' && text[2..] == b;
    } else {
      assert text[1..] == a[1..] + "_" + b;
      DigitsForms(a[1..], b);
    }
  }

  /** Nothing else: a number begins and ends in a digit and holds only digits and underscores. */
  lemma {:induction false} DigitsOnly(text: string)
    requires Digits(text)
    ensures '0' <= text[0] <= '9' && '0' <= text[|text| - 1] <= '9'
    ensures forall i | 0 <= i < |text| :: '0' <= text[i] <= '9' || text[i] == '_'
    ensures forall i | 0 <= i < |text| - 1 :: text[i] == '_' ==> text[i + 1] != '_'
    decreases |text|
  {
    if |text| > 1 {
      if Digits(text[1..]) {
        DigitsOnly(text[1..]);
        forall i | 0 < i < |text| ensures text[i] == text[1..][i - 1] {}
      } else {
        DigitsOnly(text[2..]);
        forall i | 1 < i < |text| ensures text[i] == text[2..][i - 2] {}
      }
    }
  }

  /** A number is true when some digit of it is not zero, whatever its sign. */
  lemma TruthForms(digits: string)
    requires Digits(digits)
    ensures var some := exists i | 0 <= i < |digits| :: '1' <= digits[i] <= '9';
      Truth(digits) == Truth("+" + digits) == Truth("-" + digits) == Some(some)
  {
    DigitsOnly(digits);
    assert ("+" + digits)[1..] == digits && ("-" + digits)[1..] == digits;
    assert digits[0] !in "+-" && '+' == "+-"[0] && '-' == "+-"[1];
    forall i | 0 <= i < |digits| ensures digits[i] in "123456789" <==> '1' <= digits[i] <= '9' { OneToNine(digits[i]); }
  }

  lemma OneToNine(c: char)
    ensures c in "123456789" <==> '1' <= c <= '9'
  {
    var all := "123456789";
    if '1' <= c <= '9' { assert all[c as int - '1' as int] == c; }
  }

  /** The three shapes of a declaration, on their tokens. */
  lemma DeclaresShapes(name: string, more: seq<string>)
    ensures Declares(["%bcond_with", name] + more) == Known(name, false)
    ensures Declares(["%bcond_without", name] + more) == Known(name, true)
    ensures Declares(["%bcond", name, "0"] + more) == Known(name, false)
    ensures Declares(["%bcond", name, "1"] + more) == Known(name, true)
    ensures Declares(["%bcond", name, "%{x}"] + more) == Computed(name)
  {
    assert |"%bcond"| == 6 && |"%bcond_with"| == 11 && |"%bcond_without"| == 14;
    assert Digits("0") && Digits("1") && Truth("0") == Some(false);
    OneIsTrue();
  }

  /** The shapes of a package line: a suffix goes behind the recipe's name, an explicit name stands for itself. */
  lemma DeclaredShapes(recipe: string, name: string, more: seq<string>)
    requires recipe != "" && recipe[0] != '-'
    ensures name != "-n" ==> Declared(recipe, ["%package", name] + more) == {recipe + "-" + name}
    ensures name != "" && name[0] != '-' && '%' !in name ==> Declared(recipe, ["%package", "-n", name] + more) == {name}
  {
    if '%' !in name {
      WithoutNothing(name, "%{?pkg_suffix}");
      WithoutNothing(name, "%{?basepkg_suffix}");
    }
    hide Without;
    assert recipe + "-" + name != "" && (recipe + "-" + name)[0] == recipe[0];
  }

  /** The suffix macros of an explicit name expand to nothing. */
  lemma SuffixExpandsToNothing(before: string, after: string)
    requires '%' !in before && '%' !in after
    ensures Expand(before + "%{?pkg_suffix}" + after) == before + after
    ensures Expand(before + "%{?basepkg_suffix}" + after) == before + after
  {
    WithoutOnce(before, "%{?pkg_suffix}", after);
    WithoutNothing(before + after, "%{?basepkg_suffix}");
    WithoutOnce(before, "%{?basepkg_suffix}", after);
    OtherMacro(before, after);
  }

  /** Removing one macro leaves the other alone. */
  lemma {:induction false} OtherMacro(before: string, after: string)
    requires '%' !in before && '%' !in after
    ensures Without(before + "%{?basepkg_suffix}" + after, "%{?pkg_suffix}") == before + "%{?basepkg_suffix}" + after
    decreases |before|
  {
    var text := before + "%{?basepkg_suffix}" + after;
    if before == "" {
      assert text == "%{?basepkg_suffix}" + after;
      assert text[3] == 'b' && "%{?pkg_suffix}"[3] == 'p';
      assert text[1..] == "{?basepkg_suffix}" + after;
      WithoutNothing(text[1..], "%{?pkg_suffix}");
    } else {
      assert text[0] == before[0] && text[1..] == before[1..] + "%{?basepkg_suffix}" + after;
      OtherMacro(before[1..], after);
    }
  }

  lemma LivePush(frames: seq<Frame>, f: Frame)
    ensures Live(frames + [f]) <==> Live(frames) && f.on
  {
    if Live(frames + [f]) {
      assert (frames + [f])[|frames|] == f;
      forall i | 0 <= i < |frames| ensures frames[i].on { assert (frames + [f])[i] == frames[i]; }
    }
  }

  /** `lines` take the build from `b` to where the structure says. */
  ghost predicate TakesTo(b: Build, after: Build, meaning: (set<string>, set<string>)) {
    && after.frames == b.frames
    && (after.on, after.names) == if Live(b.frames) then meaning else (b.on, b.names)
  }

  /** The evaluator, line by line, does what the structure of the spec means. */
  lemma {:induction false} EvaluatesAsMeant(recipe: string, before: seq<Line>, items: seq<Item>, answers: nat -> bool)
    requires Proper(items) && recipe != "" && recipe[0] != '-'
    ensures var b := EvaluateAll(recipe, before, answers);
      TakesTo(b, EvaluateAll(recipe, before + Written(items), answers), Means(recipe, items, b.on, b.names))
    decreases items
  {
    hide EvaluateAll, MeansOne, WrittenOne, Live, ProperOne;
    if items == [] {
      assert before + Written(items) == before;
    } else {
      var middle := before + WrittenOne(items[0]);
      assert items[0] in items && forall item | item in items[1..] :: item in items;
      assert before + Written(items) == middle + Written(items[1..]);
      EvaluatesOne(recipe, before, items[0], answers);
      EvaluatesAsMeant(recipe, middle, items[1..], answers);
    }
  }

  lemma {:induction false} EvaluatesOne(recipe: string, before: seq<Line>, item: Item, answers: nat -> bool)
    requires ProperOne(item) && recipe != "" && recipe[0] != '-'
    ensures var b := EvaluateAll(recipe, before, answers);
      TakesTo(b, EvaluateAll(recipe, before + WrittenOne(item), answers), MeansOne(recipe, item, b.on, b.names))
    decreases item
  {
    match item
    case Choice(name, without, negate, yes, no) =>
      EvaluatesChoice(recipe, before, item, answers);
    case _ =>
      EvaluatesLine(recipe, EvaluateAll(recipe, before, answers), item, answers(|before|));
      assert WrittenOne(item) == [WrittenOne(item)[0]];
      Snoc(recipe, before, WrittenOne(item)[0], answers);
      hide EvaluateAll, Evaluate, MeansOne, WrittenOne;
  }

  lemma EvaluatesLine(recipe: string, b: Build, item: Item, answer: bool)
    requires ProperOne(item) && !item.Choice? && recipe != "" && recipe[0] != '-'
    ensures TakesTo(b, Evaluate(recipe, b, WrittenOne(item)[0], answer), MeansOne(recipe, item, b.on, b.names))
  {
    match item
    case Declare(name, _) =>
      DeclaresShapes(name, []);
      assert ["%bcond_with", name] + [] == ["%bcond_with", name];
      assert ["%bcond_without", name] + [] == ["%bcond_without", name];
      hide Declares, Live;
    case Part(suffix) =>
      DeclaredShapes(recipe, suffix, []);
      assert ["%package", suffix] + [] == ["%package", suffix];
      hide Declared, Live;
    case Named(name) =>
      DeclaredShapes(recipe, name, []);
      assert ["%package", "-n", name] + [] == ["%package", "-n", name];
      hide Declared, Live;
  }

  lemma {:induction false} EvaluatesChoice(recipe: string, before: seq<Line>, item: Item, answers: nat -> bool)
    requires item.Choice? && ProperOne(item) && recipe != "" && recipe[0] != '-'
    ensures var b := EvaluateAll(recipe, before, answers);
      TakesTo(b, EvaluateAll(recipe, before + WrittenOne(item), answers), MeansOne(recipe, item, b.on, b.names))
    decreases item, 0
  {
    var condition := If(With(item.name, item.without, item.negate));
    var inside := before + [condition];
    var first := inside + Written(item.yes);
    var second := first + [Else];
    var last := second + Written(item.no);
    assert before + WrittenOne(item) == last + [Endif];
    Snoc(recipe, before, condition, answers);
    EvaluatesAsMeant(recipe, inside, item.yes, answers);
    Snoc(recipe, first, Else, answers);
    EvaluatesAsMeant(recipe, second, item.no, answers);
    Snoc(recipe, last, Endif, answers);
    hide EvaluateAll, Written, WrittenOne;
    ChoiceTakes(recipe, item, EvaluateAll(recipe, before, answers), EvaluateAll(recipe, first, answers),
                EvaluateAll(recipe, last, answers), answers(|before|), answers(|first|), answers(|last|));
  }

  lemma ChoiceTakes(recipe: string, item: Item, b: Build, first: Build, last: Build, a0: bool, a1: bool, a2: bool)
    requires item.Choice?
    requires var inside := Evaluate(recipe, b, If(With(item.name, item.without, item.negate)), a0);
      TakesTo(inside, first, Means(recipe, item.yes, inside.on, inside.names))
    requires var second := Evaluate(recipe, first, Else, a1);
      TakesTo(second, last, Means(recipe, item.no, second.on, second.names))
    ensures TakesTo(b, Evaluate(recipe, last, Endif, a2), MeansOne(recipe, item, b.on, b.names))
  {
    var taken := ((item.name in b.on) != item.without) != item.negate;
    var frame := Open(b.frames, taken);
    LivePush(b.frames, frame);
    LivePush(b.frames, Frame(!frame.taken, true));
    hide Means, Live;
    assert (b.frames + [frame])[..|b.frames|] == b.frames;
    assert (b.frames + [Frame(!frame.taken, true)])[..|b.frames|] == b.frames;
  }

  lemma LiveNothing()
    ensures Live([])
  {
  }

  /**
   For every spec of declarations, packages and nested choices whose bconds are declared outside and never
   reversed, the names reported are the ones its structure means.
   */
  lemma ReportsWhatIsMeant(recipe: string, items: seq<Item>)
    requires Proper(items) && recipe != "" && recipe[0] != '-'
    requires WellNested(Written(items)) && Settled(Written(items)) && NeverReversed(Written(items))
    ensures ReadAll(recipe, Written(items)).names == Means(recipe, items, {}, {}).1
  {
    var lines := Written(items);
    var answers := (k: nat) => false;
    NeverMeansNothing(recipe, lines, answers);
    SettledIsExact(recipe, lines, answers);
    EvaluatesAsMeant(recipe, [], items, answers);
    Start(recipe, answers);
    assert [] + lines == lines;
    LiveNothing();
    hide ReadAll, EvaluateAll, Means, Live, Settled, NeverReversed;
  }

  /** `%bcond_with x`, `%if %{with x}`, `%package p`, `%else`, `%package q`, `%endif`. */
  function OnOrOff(x: string, p: string, q: string): seq<Item> {
    [Declare(x, false), Choice(x, false, false, [Part(p)], [Part(q)])]
  }

  lemma OneLine(item: Item)
    ensures Written([item]) == WrittenOne(item)
  {
    assert [item][1..] == [] && Written([]) == [];
  }

  lemma OneMeans(recipe: string, item: Item, on: set<string>, names: set<string>)
    ensures Means(recipe, [item], on, names) == MeansOne(recipe, item, on, names)
  {
    assert [item][1..] == [];
  }

  lemma NestNext(lines: seq<Line>, k: nat)
    requires k < |lines| && Nesting(lines[..k]).Some?
    ensures Nesting(lines[..k + 1]) == Nest(Nesting(lines[..k]).value, lines[k])
  {
    assert lines[..k + 1][..k] == lines[..k];
  }

  lemma OnOrOffLines(x: string, p: string, q: string)
    ensures Written(OnOrOff(x, p, q)) ==
      [Bcond(["%bcond_with", x]), If(With(x, false, false)), Package(["%package", p]), Else, Package(["%package", q]),
       Endif]
  {
    OneLine(Part(p));
    OneLine(Part(q));
    OneLine(OnOrOff(x, p, q)[1]);
    var items := OnOrOff(x, p, q);
    assert items[1..] == [items[1]] && items[1..][1..] == [];
  }

  lemma OnOrOffProper(x: string, p: string, q: string)
    requires p != "-n" && q != "-n"
    ensures Proper(OnOrOff(x, p, q))
  {
    assert ProperOne(Part(p)) && ProperOne(Part(q));
    assert Proper([Part(p)]) && Proper([Part(q)]);
  }

  /** The six lines, as far as it matters here. */
  predicate SixLines(lines: seq<Line>, x: string) {
    && |lines| == 6 && lines[0].Bcond? && Declares(lines[0].tokens) == Known(x, false)
    && lines[1] == If(With(x, false, false)) && lines[2].Package? && lines[3].Else? && lines[4].Package?
    && lines[5].Endif?
  }

  lemma SixNested(lines: seq<Line>, x: string)
    requires SixLines(lines, x)
    ensures WellNested(lines)
  {
    hide Declares, Nesting;
    assert lines[..6] == lines;
    var none: seq<bool> := [];
    assert none + [false] == [false] && [false][..0] + [true] == [true] && [true][..0] == none;
    SixLine(lines, 0, [], []);
    SixLine(lines, 1, [], [false]);
    SixLine(lines, 2, [false], [false]);
    SixLine(lines, 3, [false], [true]);
    SixLine(lines, 4, [true], [true]);
    SixLine(lines, 5, [true], []);
  }

  lemma SixLine(lines: seq<Line>, k: nat, before: seq<bool>, after: seq<bool>)
    requires k < |lines| && ((k == 0 && before == []) || Nesting(lines[..k]) == Some(before))
    requires Nest(before, lines[k]) == Some(after)
    ensures Nesting(lines[..k + 1]) == Some(after)
  {
    if k == 0 { assert lines[..0] == []; }
    NestNext(lines, k);
  }

  lemma SixSettled(lines: seq<Line>, x: string)
    requires SixLines(lines, x)
    ensures Settled(lines) && NeverReversed(lines)
  {
    hide Declares;
    assert lines[..0] == [] && DeclaredOutside(lines, 0, x);
    hide DeclaredOutside;
    assert forall k | 0 < k < 6 :: !lines[k].Bcond?;
  }

  lemma OnOrOffSettled(x: string, p: string, q: string)
    ensures var lines := Written(OnOrOff(x, p, q)); WellNested(lines) && Settled(lines) && NeverReversed(lines)
  {
    OnOrOffLines(x, p, q);
    DeclaresShapes(x, []);
    assert ["%bcond_with", x] + [] == ["%bcond_with", x];
    hide Declares, WellNested, Settled, NeverReversed;
    SixNested(Written(OnOrOff(x, p, q)), x);
    SixSettled(Written(OnOrOff(x, p, q)), x);
  }

  /** The default is off, so the `%else` branch is built, and reported. */
  lemma ElseIsReported(recipe: string, x: string, p: string, q: string)
    requires recipe != "" && recipe[0] != '-' && p != "-n" && q != "-n"
    ensures ReadAll(recipe, Written(OnOrOff(x, p, q))).names == {recipe + "-" + q}
  {
    OnOrOffProper(x, p, q);
    OnOrOffSettled(x, p, q);
    ReportsWhatIsMeant(recipe, OnOrOff(x, p, q));
    hide ReadAll, Written, WellNested, Settled, NeverReversed, Proper;
    var items := OnOrOff(x, p, q);
    assert items[1..] == [items[1]];
    OneMeans(recipe, items[1], {}, {});
    OneMeans(recipe, Part(q), {}, {});
  }
}
