/** The older combinator layer of laggard/parserGenerators.py and
    laggard/rule.py. A generator returns a Python function (a `Callable`
    here) that drives a `Buffer`; a `Rule` wraps such a function with a
    name; `makeRule` turns an object and keyword flags into one. Python
    objects that can reach these functions are `Obj` values. A raised
    `ParseException` is `LFail`; an exception of another kind (a
    `TypeError` from calling a non-callable) is `LCrash`, which no
    `except ParseException` catches; a repetition whose inner parser
    succeeds without moving loops forever in the source and is `LDiverge`
    here. */
module Legacy {
  import opened Base
  import opened Cursor
  import RuleBuilders
  import Ast
  import opened Parsers

  /** Which of Python's collection types a charset was given as. */
  datatype CollKind = ListKind | TupleKind | SetKind

  /** The Python objects the legacy layer is handed. */
  datatype Obj =
    | OCallable(c: Callable)
    | OStr(s: string)
    | OCollection(kind: CollKind, items: seq<string>)
    | ONone
    | OOther(typeName: string, text: string)

  /** The functions the generators return, the user's own functions, and
      `Rule` objects, which are callable too. */
  datatype Callable =
    | LiteralExpecter(literal: string)
    | CharsetExpecter(kind: CollKind, charset: seq<string>, name: Option<string>)
    | OptionalRule(rule: Rule)
    | MultipleRule(rule: Rule)
    | SomeOrNoneRule(rule: Rule)
    | AndRule(rule1: Rule, rule2: Rule)
    | UserFunction(id: RuleBuilders.LeafId, fname: string)
    | RuleObject(rule: Rule)

  /** A `Rule`: its `parser` attribute and its `__name__`. */
  datatype Rule = Rule(parser: Obj, name: string)

  datatype LOutcome = LOk(value: Value) | LFail(msg: string) | LCrash(error: string) | LDiverge

  /** An outcome and the index the buffer is left at. */
  datatype LStep = LStep(out: LOutcome, next: nat)

  /** Python truthiness of an optional string: `None` and `""` are false. */
  predicate Truthy(name: Option<string>) {
    name.Some? && name.value != ""
  }

  function TypeName(o: Obj): string {
    match o
    case OCallable(c) => if c.RuleObject? then "Rule" else "function"
    case OStr(_) => "str"
    case OCollection(kind, _) => (match kind case ListKind => "list" case TupleKind => "tuple" case SetKind => "set")
    case ONone => "NoneType"
    case OOther(t, _) => t
  }

  /** The `AttributeError` of reading `__name__` from an object without one. */
  function NoName(o: Obj): string {
    "AttributeError: '" + TypeName(o) + "' object has no attribute '__name__'"
  }

  /** The `AttributeError` of reading `parser` from a function. */
  function NoParser(o: Obj): string {
    "AttributeError: '" + TypeName(o) + "' object has no attribute 'parser'"
  }

  /** The `TypeError` of calling an object that is not callable. */
  function NotCallable(o: Obj): string {
    "TypeError: '" + TypeName(o) + "' object is not callable"
  }

  /** The `TypeError` of `Rule(..., **kwargs)` with a keyword other than
      `name`. */
  const UnexpectedKeyword: string := "TypeError: __init__() got an unexpected keyword argument"

  /** `repr` of each item, as Python prints the items of a collection. */
  function Quoted(items: seq<string>): (r: seq<string>)
    ensures |r| == |items|
  {
    if |items| == 0 then [] else [Ast.StrRepr(items[0])] + Quoted(items[1..])
  }

  /** Item `k` is printed as `repr(items[k])`. */
  lemma {:induction false} QuotedIsRepr(items: seq<string>)
    ensures forall k :: 0 <= k < |items| ==> Quoted(items)[k] == Ast.StrRepr(items[k])
    decreases |items|
  {
    if |items| > 0 {
      QuotedIsRepr(items[1..]);
      assert forall k :: 0 < k < |items| ==> items[1..][k - 1] == items[k];
    }
  }

  /** `repr` of a collection of strings, in the order given. */
  function CollectionText(kind: CollKind, items: seq<string>): string {
    var q := Quoted(items);
    match kind
    case ListKind => "[" + Join(", ", q) + "]"
    case TupleKind => if |q| == 1 then "(" + q[0] + ",)" else "(" + Join(", ", q) + ")"
    case SetKind => if |q| == 0 then "set()" else "{" + Join(", ", q) + "}"
  }

  /** `str(obj)` for the objects `makeRule` can reject. */
  function ObjText(o: Obj): string {
    match o
    case OStr(s) => s
    case OCollection(kind, items) => CollectionText(kind, items)
    case ONone => "None"
    case OOther(_, t) => t
    case OCallable(c) => "<function>"
  }

  /** The failure message of a charset expecter. */
  function CharsetFailText(kind: CollKind, charset: seq<string>, name: Option<string>, got: string): string {
    if Truthy(name) then "expected " + name.value + ", got '" + got + "'"
    else "expected one of " + CollectionText(kind, charset) + ", got '" + got + "'"
  }

  /** The `__name__` of each callable. */
  function NameOf(c: Callable): string {
    match c
    case LiteralExpecter(lit) => lit
    case CharsetExpecter(_, charset, name) => if Truthy(name) then name.value else Join("", charset)
    case OptionalRule(r) => r.name + "?"
    case MultipleRule(r) => r.name + "+"
    case SomeOrNoneRule(r) => r.name + "*"
    case AndRule(_, _) => "_"
    case UserFunction(_, fname) => fname
    case RuleObject(r) => r.name
  }

  /** `Rule(parser, name)`: a truthy name is kept, otherwise the parser's
      `__name__` is read, which only callables have. */
  function NewRule(parser: Obj, name: Option<string>): (r: Result<Rule>)
    ensures r.Success? <==> Truthy(name) || parser.OCallable?
    ensures r.Success? ==> r.value.parser == parser
    ensures r.Failure? ==> r.error == NoName(parser)
    ensures r.Success? && Truthy(name) ==> r.value.name == name.value
    ensures r.Success? && !Truthy(name) ==> r.value.name == NameOf(parser.c)
  {
    if Truthy(name) then Success(Rule(parser, name.value))
    else if parser.OCallable? then Success(Rule(parser, NameOf(parser.c)))
    else Failure(NoName(parser))
  }

  /** `self & other`: a `Rule` operand is used as it is, any other is
      wrapped in `Rule(other)` first. */
  function AndOp(a: Rule, other: Obj): Result<Rule> {
    if other.OCallable? && other.c.RuleObject? then NewRule(OCallable(AndRule(a, other.c.rule)), None)
    else
      match NewRule(other, None)
      case Failure(err) => Failure(err)
      case Success(b) => NewRule(OCallable(AndRule(a, b)), None)
  }

  /** `other & self` with `other` not a `Rule`: the wrapped operand first. */
  function RAndOp(a: Rule, other: Obj): Result<Rule> {
    match NewRule(other, None)
    case Failure(err) => Failure(err)
    case Success(b) => NewRule(OCallable(AndRule(b, a)), None)
  }

  /** `generateOr(rule1, rule2)`: the closure is defined but not returned. */
  function GenerateOr(a: Rule, b: Rule): Obj {
    ONone
  }

  /** `self | other`. */
  function OrOp(a: Rule, other: Obj): Result<Rule> {
    if other.OCallable? && other.c.RuleObject? then NewRule(GenerateOr(a, other.c.rule), None)
    else
      match NewRule(other, None)
      case Failure(err) => Failure(err)
      case Success(b) => NewRule(GenerateOr(a, b), None)
  }

  /** `other | self`. */
  function ROrOp(a: Rule, other: Obj): Result<Rule> {
    match NewRule(other, None)
    case Failure(err) => Failure(err)
    case Success(b) => NewRule(GenerateOr(b, a), None)
  }

  /** A generator's argument: its `__name__` is read, then its `parser`. */
  function GeneratorArgument(o: Obj): Result<Rule> {
    if !o.OCallable? then Failure(NoName(o))
    else if !o.c.RuleObject? then Failure(NoParser(o))
    else Success(o.c.rule)
  }

  function GenerateOptional(o: Obj): Result<Obj> {
    match GeneratorArgument(o)
    case Failure(err) => Failure(err)
    case Success(r) => Success(OCallable(OptionalRule(r)))
  }

  function GenerateMultiple(o: Obj): Result<Obj> {
    match GeneratorArgument(o)
    case Failure(err) => Failure(err)
    case Success(r) => Success(OCallable(MultipleRule(r)))
  }

  function GenerateSomeOrNone(o: Obj): Result<Obj> {
    match GeneratorArgument(o)
    case Failure(err) => Failure(err)
    case Success(r) => Success(OCallable(SomeOrNoneRule(r)))
  }

  /** `makeRule`'s keyword arguments; only `name`'s value is ever read. */
  type Kwargs = map<string, Option<string>>

  /** `kwargs.get(key, None)`. */
  function GetKw(kw: Kwargs, key: string): Option<string> {
    if key in kw then kw[key] else None
  }

  function Flags(kw: Kwargs): nat {
    (if "optional" in kw then 1 else 0) + (if "multiple" in kw then 1 else 0)
  }

  /** `Rule(parser, **kwargs)`. */
  function RuleWith(parser: Obj, kw: Kwargs): Result<Rule> {
    if kw.Keys - {"name"} != {} then Failure(UnexpectedKeyword)
    else NewRule(parser, GetKw(kw, "name"))
  }

  function AsObj(r: Result<Rule>): Result<Obj> {
    match r
    case Failure(err) => Failure(err)
    case Success(rule) => Success(OCallable(RuleObject(rule)))
  }

  /** `makeRule(obj, **kwargs)`: the flags are recognised by presence and removed
      before the recursive call. */
  function MakeRule(obj: Obj, kw: Kwargs): Result<Obj>
    decreases Flags(kw)
  {
    if "optional" in kw && "multiple" in kw then
      WrapSomeOrNone(MakeRule(obj, kw - {"optional", "multiple"}))
    else if "multiple" in kw then
      WrapMultiple(MakeRule(obj, kw - {"multiple"}))
    else if "optional" in kw then
      WrapOptional(MakeRule(obj, kw - {"optional"}))
    else
      match obj
      case OCallable(c) => if c.RuleObject? then AsObj(RuleWith(c.rule.parser, kw)) else AsObj(RuleWith(obj, kw))
      case OStr(s) => AsObj(RuleWith(OCallable(LiteralExpecter(s)), kw))
      case OCollection(kind, items) => AsObj(NewRule(OCallable(CharsetExpecter(kind, items, GetKw(kw, "name"))), None))
      case _ => Failure("MalformedParserException: Cannot create a rule from " + ObjText(obj))
  }

  /** A generator applied to what the recursive `makeRule` returned or
      raised. */
  function WrapOptional(r: Result<Obj>): Result<Obj> {
    if r.Failure? then r else GenerateOptional(r.value)
  }

  function WrapMultiple(r: Result<Obj>): Result<Obj> {
    if r.Failure? then r else GenerateMultiple(r.value)
  }

  function WrapSomeOrNone(r: Result<Obj>): Result<Obj> {
    if r.Failure? then r else GenerateSomeOrNone(r.value)
  }

  /** A step of user code, in this layer's outcomes. */
  function FromLeaf(s: Step): LStep {
    match s.out
    case Ok(v) => LStep(LOk(v), s.next)
    case Fail(m) => LStep(LFail(m), s.next)
    case Crash(x) => LStep(LCrash(x), s.next)
    case Diverge => LStep(LDiverge, s.next)
  }

  /** Calling an object on the buffer at `i`. */
  function Run(e: Env, inp: Input, o: Obj, i: nat): (s: LStep)
    requires EnvOk(e, |inp.src|) && i <= |inp.src|
    ensures i <= s.next <= |inp.src|
    decreases o, 1
  {
    match o
    case OCallable(c) => Call(e, inp, c, i)
    case _ => LStep(LCrash(NotCallable(o)), i)
  }

  /** What each callable does to the buffer. */
  function Call(e: Env, inp: Input, c: Callable, i: nat): (s: LStep)
    requires EnvOk(e, |inp.src|) && i <= |inp.src|
    ensures i <= s.next <= |inp.src|
    decreases c, 0
  {
    match c
    case LiteralExpecter(lit) =>
      var t := FetchText(inp.src, inp.skip, i, |lit|, Skip);
      if t.text == lit then LStep(LOk(Str(lit)), t.next)
      else LStep(LFail(CryAt(inp.src, i, LiteralMessage(lit, t.text))), i)
    case CharsetExpecter(kind, charset, name) =>
      var t := FetchText(inp.src, inp.skip, i, 1, Skip);
      if t.text in charset then LStep(LOk(Str(t.text)), t.next)
      else LStep(LFail(CryAt(inp.src, i, CharsetFailText(kind, charset, name, t.text))), i)
    case OptionalRule(r) =>
      var t := Run(e, inp, r.parser, i);
      (match t.out
       case LOk(_) => t
       case LFail(_) => LStep(LOk(NoneVal), t.next)
       case LCrash(err) => LStep(LCrash(err), i)
       case LDiverge => LStep(LDiverge, i))
    case MultipleRule(r) => Repeat(e, inp, r, i, [], i, true)
    case SomeOrNoneRule(r) => Repeat(e, inp, r, i, [], i, false)
    case AndRule(r1, r2) =>
      var t1 := Run(e, inp, r1.parser, i);
      if !t1.out.LOk? then LStep(t1.out, i)
      else
        var t2 := Run(e, inp, r2.parser, t1.next);
        if !t2.out.LOk? then LStep(t2.out, i)
        else LStep(LOk(List([t1.out.value, t2.out.value])), t2.next)
    case UserFunction(id, _) => FromLeaf(e.leaf(id, i))
    case RuleObject(r) => Run(e, inp, r.parser, i)
  }

  /** The `while True` loop of `generate_multiple_rule` (`atLeastOne`) and
      `generate_some_or_none_rule`, entered at `i`, now at `j` with `acc`
      collected. */
  function Repeat(e: Env, inp: Input, r: Rule, j: nat, acc: seq<Value>, i: nat, atLeastOne: bool): (s: LStep)
    requires EnvOk(e, |inp.src|) && i <= j <= |inp.src|
    ensures i <= s.next <= |inp.src|
    decreases r, 2, |inp.src| - j
  {
    var t := Run(e, inp, r.parser, j);
    match t.out
    case LOk(v) =>
      if t.next == j then LStep(LDiverge, i)
      else Repeat(e, inp, r, t.next, acc + [v], i, atLeastOne)
    case LFail(m) =>
      if atLeastOne && |acc| == 0 then LStep(LFail(m), i)
      else LStep(LOk(List(acc)), t.next)
    case LCrash(err) => LStep(LCrash(err), i)
    case LDiverge => LStep(LDiverge, i)
  }
}
