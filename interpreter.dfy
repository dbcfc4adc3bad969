/** The parsers of laggard/rulebuilders.py and laggard/functionalrulebuilders.py
    as code that drives a `Buffer` object, each proved to leave the buffer
    where the semantics in `Parsers` says and to return its outcome. Raising
    a `ParseException` is returning `Fail`; a `with buffer:` block is
    `Enter` … `Exit`; any other exception is returning `Crash`, which
    abandons every `with buffer:` it passes through. In the source a
    repetition whose inner rule succeeds without moving the index loops
    forever; here the loop notices that its state repeats and returns
    `Diverge` with the index restored. */
module Interpreter {
  import opened Base
  import opened Cursor
  import opened RuleBuilders
  import opened Helpers
  import opened Parsers

  lemma SizeWithin(s: seq<Node>, k: nat)
    requires k < |s|
    ensures Size(s[k]) <= SumSize(s)
  {
    assert s == s[..k] + s[k..];
    SumSizeAppend(s[..k], s[k..]);
    SumSizeAt(s, k);
  }

  /** The wrapper `generate_complete_parser` returns, run on `b`. */
  method RunComplete(e: Env, b: Buffer, n: Node) returns (out: Outcome)
    requires b.Valid() && EnvOk(e, |b.source|)
    modifies b
    ensures b.Valid() && b.stack == old(b.stack)
    ensures Step(out, b.currentIndex) == Complete(e, Input(b.source, b.skip), n, old(b.currentIndex))
    decreases Size(n), 2, 0
  {
    var f := FlattenInPlace(n);
    out := RunRaw(e, b, f);
    if out.Ok? && f.meta.transformer.Some? {
      out := e.transform(f.meta.transformer.value, out.value);
    }
  }

  /** The function `generate_parser` returns, run on `b`. */
  method RunRaw(e: Env, b: Buffer, f: Node) returns (out: Outcome)
    requires b.Valid() && EnvOk(e, |b.source|)
    modifies b
    ensures b.Valid() && b.stack == old(b.stack)
    ensures Step(out, b.currentIndex) == Raw(e, Input(b.source, b.skip), f, old(b.currentIndex))
    decreases Size(f), 1, 0
  {
    match f.kind
    case Literal(lit) =>
      b.Enter();
      var x := b.Fetch(|lit|, Skip);
      if x == lit {
        b.Exit(false);
        out := Ok(Str(lit));
      } else {
        out := Fail(b.Cry(LiteralMessage(lit, x)));
        b.Exit(true);
      }
    case Charset(items) =>
      b.Enter();
      var x := b.Fetch(1, Skip);
      if x in items {
        b.Exit(false);
        out := Ok(Str(x));
      } else {
        out := Fail(b.Cry(CharsetMessage(items, x)));
        b.Exit(true);
      }
    case Functional(id) =>
      var s := e.leaf(id, b.currentIndex);
      b.currentIndex := s.next;
      out := s.out;
    case Optional(r) =>
      b.Enter();
      var t := RunComplete(e, b, r);
      match t {
        case Ok(_) =>
          b.Exit(false);
          out := t;
        case Fail(_) =>
          b.Exit(false);
          out := Ok(NoneVal);
        case _ =>
          b.Exit(true);
          out := t;
      }
    case Multiple(r) =>
      out := RunRepeat(e, b, r, true);
    case SomeOrNone(r) =>
      out := RunRepeat(e, b, r, false);
    case Choice(alts) =>
      out := RunChoice(e, b, alts);
    case Combined(parts) =>
      out := RunCombined(e, b, parts);
  }

  /** The `while True` loop of `MultipleRule` (`atLeastOne`) and
      `SomeOrNoneRule` inside its `with buffer:`. */
  method RunRepeat(e: Env, b: Buffer, r: Node, atLeastOne: bool) returns (out: Outcome)
    requires b.Valid() && EnvOk(e, |b.source|)
    modifies b
    ensures b.Valid() && b.stack == old(b.stack)
    ensures Step(out, b.currentIndex) == Rep(e, Input(b.source, b.skip), r, old(b.currentIndex), [], old(b.currentIndex), atLeastOne)
    decreases Size(r), 3, 0
  {
    var inp := Input(b.source, b.skip);
    var i := b.currentIndex;
    ghost var goal := Rep(e, inp, r, i, [], i, atLeastOne);
    b.Enter();
    var matches: seq<Value> := [];
    while true
      invariant b.Valid() && b.stack == old(b.stack) + [i]
      invariant i <= b.currentIndex
      invariant Rep(e, inp, r, b.currentIndex, matches, i, atLeastOne) == goal
      decreases |b.source| - b.currentIndex
    {
      var j := b.currentIndex;
      var t := RunComplete(e, b, r);
      match t
      case Ok(v) =>
        if b.currentIndex == j {
          b.Exit(true);
          return Diverge;
        }
        matches := matches + [v];
      case Fail(m) =>
        if atLeastOne && |matches| == 0 {
          b.Exit(true);
          return Fail(m);
        }
        b.Exit(false);
        return Ok(List(matches));
      case _ =>
        b.Exit(true);
        return t;
    }
  }

  /** The `for i, parser in enumerate(parsers)` loop of `Choice` inside its
      `with buffer:`. */
  method RunChoice(e: Env, b: Buffer, alts: seq<Node>) returns (out: Outcome)
    requires b.Valid() && EnvOk(e, |b.source|)
    modifies b
    ensures b.Valid() && b.stack == old(b.stack)
    ensures Step(out, b.currentIndex) == Raw(e, Input(b.source, b.skip), Node(Choice(alts), Fresh(NoKwargs)), old(b.currentIndex))
    decreases SumSize(alts), 3, 0
  {
    var inp := Input(b.source, b.skip);
    var i := b.currentIndex;
    b.Enter();
    if |alts| == 0 {
      b.Exit(false);
      return Ok(NoneVal);
    }
    assert alts[0..] == alts;
    ghost var goal := ChoiceFrom(e, inp, alts, 0, i, i);
    var k := 0;
    while true
      invariant 0 <= k < |alts|
      invariant b.Valid() && b.stack == old(b.stack) + [i]
      invariant i <= b.currentIndex
      invariant ChoiceFrom(e, inp, alts, k, b.currentIndex, i) == goal
      decreases |alts| - k
    {
      SizeWithin(alts, k);
      var t := RunComplete(e, b, alts[k]);
      match t
      case Ok(_) =>
        b.Exit(false);
        return t;
      case Fail(m) =>
        if k + 1 == |alts| {
          b.Exit(true);
          return t;
        }
        k := k + 1;
      case _ =>
        b.Exit(true);
        return t;
    }
  }

  /** `list(map(lambda x: x(buffer), parsers))` of `Combined` inside its
      `with buffer:`, fed to the tuple factory of the parts' aliases. */
  method RunCombined(e: Env, b: Buffer, parts: seq<Node>) returns (out: Outcome)
    requires b.Valid() && EnvOk(e, |b.source|)
    modifies b
    ensures b.Valid() && b.stack == old(b.stack)
    ensures Step(out, b.currentIndex) == Raw(e, Input(b.source, b.skip), Node(Combined(parts), Fresh(NoKwargs)), old(b.currentIndex))
    decreases SumSize(parts), 3, 0
  {
    var inp := Input(b.source, b.skip);
    var i := b.currentIndex;
    assert parts[0..] == parts;
    ghost var goal := SeqFrom(e, inp, parts, 0, i, [], i);
    b.Enter();
    var results: seq<Value> := [];
    var k := 0;
    while k < |parts|
      invariant k <= |parts| && |results| == k
      invariant b.Valid() && b.stack == old(b.stack) + [i]
      invariant i <= b.currentIndex
      invariant SeqFrom(e, inp, parts, k, b.currentIndex, results, i) == goal
      decreases |parts| - k
    {
      SizeWithin(parts, k);
      var t := RunComplete(e, b, parts[k]);
      match t
      case Ok(v) =>
        results := results + [v];
        k := k + 1;
      case Fail(_) =>
        b.Exit(true);
        return t;
      case _ =>
        b.Exit(true);
        return t;
    }
    var tuple := NewTuple(Aliases(parts), results);
    b.Exit(false);
    return Ok(Tuple(tuple.value));
  }
}
