/** What the parsers that laggard/functionalrulebuilders.py and
    laggard/rulebuilders.py build do to a `Buffer`. The semantics is given by
    functions from a rule and a start index to an outcome and the index the
    buffer is left at; the interpreter methods at the end drive a `Buffer`
    object and are proved to agree with them. A `ParseException` is a `Fail`
    outcome carrying its message; any other exception raised by user code is
    a `Crash`, which no `except ParseException` stops; a repetition whose inner rule succeeds
    without consuming input loops forever in the source, which is the
    `Diverge` outcome here. */
module Parsers {
  import opened Base
  import opened Cursor
  import opened RuleBuilders
  import opened Helpers

  /** The Python values a parser may return. */
  datatype Value =
    | Str(s: string)
    | NoneVal
    | List(items: seq<Value>)
    | Tuple(tuple: Ont<Value>)
    | Other(id: nat)

  /** `Fail` is a `ParseException`; `Crash` is an exception of any other
      kind, which every parser passes on. */
  datatype Outcome = Ok(value: Value) | Fail(msg: string) | Crash(error: string) | Diverge

  /** An outcome and the index the buffer is left at. */
  datatype Step = Step(out: Outcome, next: nat)

  /** The user code a rule refers to: the function of each
      `FunctionalRuleBuilder` (a function of the buffer, over the one text being
      parsed) and each transformer. A transformer returns a value or raises
      (a `ParseException` or another exception), so it yields an outcome; it
      does not touch the buffer. */
  datatype Env = Env(leaf: (LeafId, nat) -> Step, transform: (TransformerId, Value) -> Outcome)

  /** The text being parsed and the buffer's skip-set. */
  datatype Input = Input(src: string, skip: seq<char>)

  /** User functions never move the index backwards or past the end. */
  ghost predicate EnvOk(e: Env, len: nat) {
    forall id: LeafId, i: nat :: i <= len ==> i <= e.leaf(id, i).next <= len
  }

  /** The message `cry` builds inside a `with buffer:` entered at `i`. */
  function CryAt(src: string, i: nat, message: string): string {
    CryText(src, [i], message)
  }

  function LiteralMessage(lit: string, got: string): string {
    "expected '" + lit + "', got '" + got + "'"
  }

  function CharsetMessage(items: seq<string>, got: string): string {
    "expected one of " + Join(", ", items) + ", got '" + got + "'"
  }

  function Aliases(parts: seq<Node>): (r: seq<Option<string>>)
    ensures |r| == |parts|
    ensures forall k :: 0 <= k < |parts| ==> r[k] == parts[k].meta.alias
  {
    if |parts| == 0 then [] else [parts[0].meta.alias] + Aliases(parts[1..])
  }

  /** `generate_complete_parser`: flatten the rule, run its raw parser, and
      apply the transformer, if any, to a successful result. The transformer
      runs after the raw parser's `with buffer:` has been left, so when it
      raises, the failure is reported at the index the raw parse reached. */
  function Complete(e: Env, inp: Input, n: Node, i: nat): (s: Step)
    requires EnvOk(e, |inp.src|) && i <= |inp.src|
    ensures i <= s.next <= |inp.src|
    decreases Size(n), 2, 0
  {
    var f := Flatten(n);
    var s := Raw(e, inp, f, i);
    if s.out.Ok? && f.meta.transformer.Some? then
      Step(e.transform(f.meta.transformer.value, s.out.value), s.next)
    else s
  }

  /** `generate_parser` of each kind of rule. */
  function Raw(e: Env, inp: Input, f: Node, i: nat): (s: Step)
    requires EnvOk(e, |inp.src|) && i <= |inp.src|
    ensures i <= s.next <= |inp.src|
    decreases Size(f), 1, 0
  {
    match f.kind
    case Literal(lit) =>
      var t := FetchText(inp.src, inp.skip, i, |lit|, Skip);
      if t.text == lit then Step(Ok(Str(lit)), t.next)
      else Step(Fail(CryAt(inp.src, i, LiteralMessage(lit, t.text))), i)
    case Charset(items) =>
      var t := FetchText(inp.src, inp.skip, i, 1, Skip);
      if t.text in items then Step(Ok(Str(t.text)), t.next)
      else Step(Fail(CryAt(inp.src, i, CharsetMessage(items, t.text))), i)
    case Functional(id) =>
      e.leaf(id, i)
    case Optional(r) =>
      var t := Complete(e, inp, r, i);
      (match t.out
       case Fail(_) => Step(Ok(NoneVal), t.next)
       case Ok(_) => t
       case _ => Step(t.out, i))
    case Multiple(r) =>
      Rep(e, inp, r, i, [], i, true)
    case SomeOrNone(r) =>
      Rep(e, inp, r, i, [], i, false)
    case Choice(alts) =>
      if |alts| == 0 then Step(Ok(NoneVal), i)
      else
        assert alts[0..] == alts;
        ChoiceFrom(e, inp, alts, 0, i, i)
    case Combined(parts) =>
      assert parts[0..] == parts;
      SeqFrom(e, inp, parts, 0, i, [], i)
  }

  /** The `while True` loop of `MultipleRule` (`atLeastOne`) and
      `SomeOrNoneRule`, entered at `i`, now at `j` with `acc` collected. */
  function Rep(e: Env, inp: Input, r: Node, j: nat, acc: seq<Value>, i: nat, atLeastOne: bool): (s: Step)
    requires EnvOk(e, |inp.src|) && i <= j <= |inp.src|
    ensures i <= s.next <= |inp.src|
    decreases Size(r), 3, |inp.src| - j
  {
    var t := Complete(e, inp, r, j);
    match t.out
    case Ok(v) =>
      if t.next == j then Step(Diverge, i)
      else Rep(e, inp, r, t.next, acc + [v], i, atLeastOne)
    case Fail(m) =>
      if atLeastOne && |acc| == 0 then Step(Fail(m), i)
      else Step(Ok(List(acc)), t.next)
    case _ => Step(t.out, i)
  }

  /** The `for i, parser in enumerate(parsers)` loop of `Choice`, entered at
      `i`, trying alternative `k` at `j`. */
  function ChoiceFrom(e: Env, inp: Input, alts: seq<Node>, k: nat, j: nat, i: nat): (s: Step)
    requires EnvOk(e, |inp.src|) && k < |alts| && i <= j <= |inp.src|
    ensures i <= s.next <= |inp.src|
    decreases SumSize(alts[k..]), 3, 0
  {
    SumSizeAt(alts, k);
    var t := Complete(e, inp, alts[k], j);
    match t.out
    case Ok(_) => t
    case Fail(m) =>
      if k + 1 == |alts| then Step(Fail(m), i)
      else ChoiceFrom(e, inp, alts, k + 1, t.next, i)
    case _ => Step(t.out, i)
  }

  /** `list(map(lambda x: x(buffer), parsers))` of `Combined`, entered at `i`,
      running part `k` at `j` with the results `acc` of the earlier parts. */
  function SeqFrom(e: Env, inp: Input, parts: seq<Node>, k: nat, j: nat, acc: seq<Value>, i: nat): (s: Step)
    requires EnvOk(e, |inp.src|) && k <= |parts| && |acc| == k && i <= j <= |inp.src|
    ensures i <= s.next <= |inp.src|
    decreases SumSize(parts[k..]), 3, 0
  {
    if k == |parts| then Step(Ok(Tuple(Build(Aliases(parts), acc).value)), j)
    else
      SumSizeAt(parts, k);
      var t := Complete(e, inp, parts[k], j);
      match t.out
      case Ok(v) => SeqFrom(e, inp, parts, k + 1, t.next, acc + [v], i)
      case Fail(m) => Step(Fail(m), i)
      case _ => Step(t.out, i)
  }
}
