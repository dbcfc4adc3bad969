/** The closures of laggard/parserGenerators.py and the `Rule` methods of
    laggard/rule.py as code that drives a `Buffer` object, each proved to
    leave the buffer where the semantics in `Legacy` says and to return its
    outcome. `with buffer:` is `Enter` … `Exit`, and the buffer's stack is
    back to its depth on entry on every path. */
module LegacyInterpreter {
  import opened Base
  import opened Cursor
  import opened Parsers
  import opened Legacy

  /** Calling `o(buffer)`. */
  method RunObj(e: Env, b: Buffer, o: Obj) returns (out: LOutcome)
    requires b.Valid() && EnvOk(e, |b.source|)
    modifies b
    ensures b.Valid() && b.stack == old(b.stack)
    ensures LStep(out, b.currentIndex) == Run(e, Input(b.source, b.skip), o, old(b.currentIndex))
    decreases o, 2
  {
    match o
    case OCallable(c) =>
      out := CallObj(e, b, c);
    case _ =>
      out := LCrash(NotCallable(o));
  }

  /** `Rule.parse(buffer)` and `rule(buffer)`: both apply the stored parser. */
  method Apply(e: Env, b: Buffer, r: Rule) returns (out: LOutcome)
    requires b.Valid() && EnvOk(e, |b.source|)
    modifies b
    ensures b.Valid() && b.stack == old(b.stack)
    ensures LStep(out, b.currentIndex) == Call(e, Input(b.source, b.skip), RuleObject(r), old(b.currentIndex))
  {
    out := RunObj(e, b, r.parser);
  }

  /** The body of each generated closure. */
  method CallObj(e: Env, b: Buffer, c: Callable) returns (out: LOutcome)
    requires b.Valid() && EnvOk(e, |b.source|)
    modifies b
    ensures b.Valid() && b.stack == old(b.stack)
    ensures LStep(out, b.currentIndex) == Call(e, Input(b.source, b.skip), c, old(b.currentIndex))
    decreases c, 1
  {
    match c
    case LiteralExpecter(lit) =>
      b.Enter();
      var x := b.Fetch(|lit|, Skip);
      if x == lit {
        b.Exit(false);
        out := LOk(Str(lit));
      } else {
        out := LFail(b.Cry(LiteralMessage(lit, x)));
        b.Exit(true);
      }
    case CharsetExpecter(kind, charset, name) =>
      b.Enter();
      var x := b.Fetch(1, Skip);
      if x in charset {
        b.Exit(false);
        out := LOk(Str(x));
      } else {
        out := LFail(b.Cry(CharsetFailText(kind, charset, name, x)));
        b.Exit(true);
      }
    case OptionalRule(r) =>
      b.Enter();
      var t := RunObj(e, b, r.parser);
      match t {
        case LOk(_) =>
          b.Exit(false);
          out := t;
        case LFail(_) =>
          b.Exit(false);
          out := LOk(NoneVal);
        case LCrash(_) =>
          b.Exit(true);
          out := t;
        case LDiverge =>
          b.Exit(true);
          out := LDiverge;
      }
    case MultipleRule(r) =>
      out := RunRepeat(e, b, r, true);
    case SomeOrNoneRule(r) =>
      out := RunRepeat(e, b, r, false);
    case AndRule(r1, r2) =>
      out := RunAnd(e, b, r1, r2);
    case UserFunction(id, _) =>
      var s := e.leaf(id, b.currentIndex);
      b.currentIndex := s.next;
      out := FromLeaf(s).out;
    case RuleObject(r) =>
      out := RunObj(e, b, r.parser);
  }

  /** `generateAnd`'s closure: `[rule1.parse(buffer), rule2.parse(buffer)]`
      inside one `with buffer:`. */
  method RunAnd(e: Env, b: Buffer, r1: Rule, r2: Rule) returns (out: LOutcome)
    requires b.Valid() && EnvOk(e, |b.source|)
    modifies b
    ensures b.Valid() && b.stack == old(b.stack)
    ensures LStep(out, b.currentIndex) == Call(e, Input(b.source, b.skip), AndRule(r1, r2), old(b.currentIndex))
    decreases AndRule(r1, r2), 0
  {
    b.Enter();
    var first := RunObj(e, b, r1.parser);
    if !first.LOk? {
      b.Exit(true);
      return first;
    }
    var second := RunObj(e, b, r2.parser);
    if !second.LOk? {
      b.Exit(true);
      return second;
    }
    b.Exit(false);
    return LOk(List([first.value, second.value]));
  }

  /** The `while True` loop of `generate_multiple_rule` (`atLeastOne`) and
      `generate_some_or_none_rule` inside its `with buffer:`. */
  method RunRepeat(e: Env, b: Buffer, r: Rule, atLeastOne: bool) returns (out: LOutcome)
    requires b.Valid() && EnvOk(e, |b.source|)
    modifies b
    ensures b.Valid() && b.stack == old(b.stack)
    ensures LStep(out, b.currentIndex) ==
      Repeat(e, Input(b.source, b.skip), r, old(b.currentIndex), [], old(b.currentIndex), atLeastOne)
    decreases r, 0
  {
    var inp := Input(b.source, b.skip);
    var i := b.currentIndex;
    ghost var goal := Repeat(e, inp, r, i, [], i, atLeastOne);
    b.Enter();
    var matches: seq<Value> := [];
    while true
      invariant b.Valid() && b.stack == old(b.stack) + [i]
      invariant i <= b.currentIndex
      invariant Repeat(e, inp, r, b.currentIndex, matches, i, atLeastOne) == goal
      decreases |b.source| - b.currentIndex
    {
      var j := b.currentIndex;
      var t := RunObj(e, b, r.parser);
      match t
      case LOk(v) =>
        if b.currentIndex == j {
          b.Exit(true);
          return LDiverge;
        }
        matches := matches + [v];
      case LFail(m) =>
        if atLeastOne && |matches| == 0 {
          b.Exit(true);
          return t;
        }
        b.Exit(false);
        return LOk(List(matches));
      case LCrash(_) =>
        b.Exit(true);
        return t;
      case LDiverge =>
        b.Exit(true);
        return LDiverge;
    }
  }
}
