/** laggard/codegen.py: the generator that turns a parsed grammar into the
    text of a Python parser class, one function per rule and one "fragment"
    function per sub-expression. The functions give the generator's state
    (its list of functions and its per-rule fragment counters) after each
    call; the class `CodeGenerator` runs the source's loops and is proved to
    reach that state. */
module CodeGen {
  import opened Base
  import opened Ast

  /** The generator's state: the function texts so far, in order, and the
      number of fragments made for each rule name. */
  datatype Gen = Gen(functions: seq<string>, counts: map<string, nat>)

  /** A `generate_rule` call's new state and the call text it returns. */
  datatype Emitted = Emitted(gen: Gen, call: string)

  /** The state after several `generate_rule` calls, and their call texts. */
  datatype EmittedAll = EmittedAll(gen: Gen, calls: seq<string>)

  const Tab: string := "    "

  /** `OPTIONAL_TEMPLATE.format(call)`. */
  function OptionalText(call: string): string {
    "try:\n    return " + call + "\nexcept ParseException:\n    return None"
  }

  /** `MULTIPLE_TEMPLATE.format(call)`: zero or more. */
  function MultipleText(call: string): string {
    "try:\n    x = []\n    while True:\n        x.append(" + call + ")\nexcept ParseException:\n    return x"
  }

  /** `MANY_TEMPLATE.format(call)`: one or more, re-raising on none. */
  function ManyText(call: string): string {
    "try:\n    x = []\n    while True:\n        x.append(" + call
      + ")\nexcept ParseException:\n    if not len(x):\n        raise\n    return x"
  }

  /** The template a modifier selects: `?` optional, `+` many, anything else
      zero or more. */
  function TemplateFor(modifier: string, call: string): string {
    if modifier == "?" then OptionalText(call)
    else if modifier == "+" then ManyText(call)
    else MultipleText(call)
  }

  /** `add_function`'s text: the `def` line, then the content indented. */
  function FunctionText(name: string, content: string): string {
    DefLine(name) + "\n" + Indent(content, Tab)
  }

  function DefLine(name: string): string {
    "\ndef " + name + "(self):"
  }

  function CallText(name: string): string {
    "self." + name + "()"
  }

  function RuleFunctionName(rule: string): string {
    "parse_" + rule
  }

  function FragmentName(rule: string, n: nat): string {
    "parse_" + rule + "_fragment" + NatToString(n)
  }

  /** How many fragments the rule has had; a missing key is none. */
  function Count(counts: map<string, nat>, rule: string): nat {
    if rule in counts then counts[rule] else 0
  }

  /** `add_rule`. */
  function AddRule(g: Gen, rule: string, content: string): (e: Emitted)
    ensures e.gen.counts == g.counts
  {
    var name := RuleFunctionName(rule);
    Emitted(Gen(g.functions + [FunctionText(name, content)], g.counts), CallText(name))
  }

  /** `add_fragment`: the `KeyError` path starts the counter at 1. */
  function AddFragment(g: Gen, rule: string, content: string): (e: Emitted)
    ensures Count(e.gen.counts, rule) == Count(g.counts, rule) + 1
    ensures forall r :: r != rule ==> Count(e.gen.counts, r) == Count(g.counts, r)
  {
    var n := Count(g.counts, rule) + 1;
    var name := FragmentName(rule, n);
    Emitted(Gen(g.functions + [FunctionText(name, content)], g.counts[rule := n]), CallText(name))
  }

  /** How many call texts a node's content is built from. */
  function CallsOf(a: Ast): nat {
    match a
    case Combined(items) => |items|
    case Choice(items) => |items|
    case ModifiedRuleExpression(_, _) => 1
    case LabelledRuleExpression(_, _) => 1
    case _ => 0
  }

  /** The `return` lines of a `Combined`: each call, with a comma when there
      is more than one child, on a line of its own. */
  function CombinedLines(calls: seq<string>, many: bool): string
    decreases |calls|
  {
    if |calls| == 0 then ""
    else CombinedLines(calls[..|calls| - 1], many) + calls[|calls| - 1] + (if many then "," else "") + "\n"
  }

  lemma CombinedLinesAppend(calls: seq<string>, call: string, many: bool)
    ensures CombinedLines(calls + [call], many) == CombinedLines(calls, many) + (call + (if many then "," else "") + "\n")
  {
    assert (calls + [call])[..|calls|] == calls;
  }

  lemma AppendThree(s: string, a: string, b: string, c: string)
    ensures s + a + b + c == s + (a + b + c)
  {
  }

  lemma AppendTwo(s: string, a: string, b: string)
    ensures s + a + b == s + (a + b)
  {
  }

  function CombinedHead(many: bool): string {
    if many then "return [\n" else "return "
  }

  /** A `Combined`'s content: the head, the lines, and `]` closing a list. */
  function CombinedText(calls: seq<string>, many: bool): string {
    CombinedHead(many) + CombinedLines(calls, many) + (if many then "]" else "")
  }

  /** One iteration's `content` in the `Choice` branch; `more` when an
      alternative follows. */
  function TryBlock(call: string, more: bool): string {
    "try:" + "\n" + Indent("return " + call, Tab) + (if more then "\nexcept ParseException: pass" else "")
  }

  /** The `content` that `generate_rule` builds for a node from the calls of
      its sub-expressions. */
  function Content(a: Ast, calls: seq<string>): string
    requires |calls| == CallsOf(a)
  {
    match a
    case Combined(items) =>
      CombinedText(calls, |items| > 1)
    case Choice(items) => if |items| == 0 then "" else TryBlock(calls[|items| - 1], false)
    case ModifiedRuleExpression(_, modifier) => TemplateFor(modifier, calls[0])
    case LabelledRuleExpression(name, _) => "return " + calls[0] + " # Label: " + Pretty(name, -1)
    case Identifier(id) => "return self.parse_" + id + "()"
    case Literal(value) => "return self.expect(\"" + value + "\")"
    case _ => ""
  }

  /** `generate_rule(a, rule, inline)` on state `g`: the sub-expressions
      first, each as an inline fragment, then the node's own function. */
  function Emit(g: Gen, a: Ast, rule: string, inline: bool): (e: Emitted)
    decreases a, 2, 0
  {
    var inner := Inner(g, a, rule);
    var content := NodeContent(g, a, rule);
    if inline then AddFragment(inner.gen, rule, content) else AddRule(inner.gen, rule, content)
  }

  /** The content `generate_rule` builds for `a` on state `g`, from the calls
      its sub-expressions return. */
  function NodeContent(g: Gen, a: Ast, rule: string): string
    decreases a, 1, 1
  {
    Content(a, Inner(g, a, rule).calls)
  }

  /** The sub-expressions `generate_rule` visits before it adds the node's
      own function, and their call texts. */
  function Inner(g: Gen, a: Ast, rule: string): (e: EmittedAll)
    ensures |e.calls| == CallsOf(a)
    decreases a, 1, 0
  {
    match a
    case Combined(items) => EmitItems(g, a, |items|, rule)
    case Choice(items) => EmitItems(g, a, |items|, rule)
    case ModifiedRuleExpression(expr, _) =>
      var x := Emit(g, expr, rule, true); EmittedAll(x.gen, [x.call])
    case LabelledRuleExpression(_, expr) =>
      var x := Emit(g, expr, rule, true); EmittedAll(x.gen, [x.call])
    case _ => EmittedAll(g, [])
  }

  /** The first `k` children of a `Combined` or `Choice`, emitted in order. */
  function EmitItems(g: Gen, a: Ast, k: nat, rule: string): (e: EmittedAll)
    requires (a.Combined? || a.Choice?) && k <= |a.items|
    ensures |e.calls| == k
    decreases a, 0, k
  {
    if k == 0 then EmittedAll(g, [])
    else
      var p := EmitItems(g, a, k - 1, rule);
      var x := Emit(p.gen, a.items[k - 1], rule, true);
      EmittedAll(x.gen, p.calls + [x.call])
  }

  /** The name a top-level rule is emitted under: an identifier's text, or
      else the name printed with `str`. */
  function RuleName(name: Ast): string {
    if name.Identifier? then name.id else Pretty(name, -1)
  }

  /** `generate`'s loop over the first `k` rules. */
  function EmitRules(g: Gen, rules: seq<Ast>, k: nat): Gen
    requires k <= |rules| && forall j :: 0 <= j < |rules| ==> rules[j].Rule?
  {
    if k == 0 then g
    else
      EmitRule(EmitRules(g, rules, k - 1), rules[k - 1])
  }

  /** One top-level rule: its content, non-inline, under the rule's name. */
  function EmitRule(g: Gen, rule: Ast): Gen
    requires rule.Rule?
  {
    Emit(g, rule.content, RuleName(rule.name), false).gen
  }

  const Header: string :=
    Join("\n", ["from laggard.abstracts import Parser", "from laggard.exceptions import ParseException", "class MyParser(Parser):\n"])

  /** The header followed by the first `k` functions, each indented by four
      spaces and ended by a newline. */
  function Render(functions: seq<string>, k: nat): string
    requires k <= |functions|
  {
    if k == 0 then Header else Render(functions, k - 1) + Indent(functions[k - 1], Tab) + "\n"
  }

  /** The number of `generate_rule` calls one top-level call makes: one per
      node visited. */
  function Visits(a: Ast): nat
    decreases a, 1, 0
  {
    match a
    case Combined(items) => 1 + ItemVisits(a, |items|)
    case Choice(items) => 1 + ItemVisits(a, |items|)
    case ModifiedRuleExpression(expr, _) => 1 + Visits(expr)
    case LabelledRuleExpression(_, expr) => 1 + Visits(expr)
    case _ => 1
  }

  function ItemVisits(a: Ast, k: nat): nat
    requires (a.Combined? || a.Choice?) && k <= |a.items|
    decreases a, 0, k
  {
    if k == 0 then 0 else ItemVisits(a, k - 1) + Visits(a.items[k - 1])
  }

  class CodeGenerator {
    const root: Ast
    var code: string
    var functions: seq<string>
    var fragmentCounts: map<string, nat>
    var context: seq<Option<string>>

    constructor(root: Ast)
      ensures this.root == root && code == "" && functions == [] && fragmentCounts == map[] && context == []
    {
      this.root := root;
      code := "";
      functions := [];
      fragmentCounts := map[];
      context := [];
    }

    function State(): Gen
      reads this
    {
      Gen(functions, fragmentCounts)
    }

    /** `generate`: every rule of the grammar, non-inline under its name, then
        the header and every function so far. */
    method Generate() returns (content: string)
      requires root.Grammar? && forall j :: 0 <= j < |root.items| ==> root.items[j].Rule?
      modifies this
      ensures State() == EmitRules(old(State()), root.items, |root.items|)
      ensures content == Render(functions, |functions|)
      ensures context == if |root.items| == 0 then old(context) else []
      ensures code == old(code)
    {
      GenerateRules(root.items);
      content := RenderFunctions();
    }

    /** `generate`'s loop over the rules. */
    method GenerateRules(rules: seq<Ast>)
      requires forall j :: 0 <= j < |rules| ==> rules[j].Rule?
      modifies this
      ensures State() == EmitRules(old(State()), rules, |rules|)
      ensures context == if |rules| == 0 then old(context) else []
      ensures code == old(code)
    {
      ghost var g0 := State();
      for k := 0 to |rules|
        invariant State() == EmitRules(g0, rules, k)
        invariant context == if k == 0 then old(context) else []
        invariant code == old(code)
      {
        ghost var before := State();
        GenerateTopLevel(rules[k]);
        assert EmitRules(g0, rules, k + 1) == EmitRule(before, rules[k]);
      }
    }

    /** One iteration of `generate`'s loop over the rules. */
    method GenerateTopLevel(rule: Ast)
      requires rule.Rule?
      modifies this
      ensures State() == EmitRule(old(State()), rule)
      ensures context == [] && code == old(code)
    {
      var n: string;
      if rule.name.Identifier? {
        n := rule.name.id;
      } else {
        n := PrettyString(rule.name, -1);
      }
      var _ := GenerateRule(rule.content, n, false);
    }

    /** The text `generate` returns: the header, then each function indented. */
    method RenderFunctions() returns (content: string)
      ensures content == Render(functions, |functions|)
    {
      content := Header;
      for k := 0 to |functions|
        invariant content == Render(functions, k)
      {
        content := content + Indent(functions[k], Tab) + "\n";
      }
    }

    /** `generate_rule`. */
    method GenerateRule(a: Ast, name: string, inline: bool) returns (call: string)
      modifies this
      ensures Emitted(State(), call) == Emit(old(State()), a, name, inline)
      ensures context == if inline then old(context) else []
      ensures code == old(code)
      decreases a, 3
    {
      if !inline {
        context := [];
      }
      var content := ContentFor(a, name);
      if inline {
        call := AddFragmentTo(name, content);
      } else {
        call := AddRuleTo(name, content);
      }
    }

    /** The `if isinstance(children, …)` chain of `generate_rule`. */
    method ContentFor(a: Ast, name: string) returns (content: string)
      modifies this
      ensures var e := Inner(old(State()), a, name);
        State() == e.gen && content == Content(a, e.calls)
      ensures context == old(context) && code == old(code)
      decreases a, 2
    {
      content := "";
      match a {
        case Combined(items) =>
          content := CombinedContent(a, name);
        case Choice(items) =>
          content := ChoiceContent(a, name);
        case ModifiedRuleExpression(expr, modifier) =>
          var x := GenerateRule(expr, name, true);
          content := if modifier == "?" then OptionalText(x) else if modifier == "+" then ManyText(x) else MultipleText(x);
        case LabelledRuleExpression(labelNode, expr) =>
          var x := GenerateRule(expr, name, true);
          var shown := PrettyString(labelNode, -1);
          content := "return " + x + " # Label: " + shown;
        case Identifier(id) =>
          content := "return self.parse_" + id + "()";
        case Literal(value) =>
          content := "return self.expect(\"" + value + "\")";
        case _ =>
      }
    }

    /** The `Combined` branch of `generate_rule`. */
    method CombinedContent(a: Ast, name: string) returns (content: string)
      requires a.Combined?
      modifies this
      ensures var e := EmitItems(old(State()), a, |a.items|, name);
        State() == e.gen && content == CombinedText(e.calls, |a.items| > 1)
      ensures context == old(context) && code == old(code)
      decreases a, 1
    {
      ghost var g0 := State();
      ghost var calls: seq<string> := [];
      var many := |a.items| > 1;
      content := if many then "return [\n" else "return ";
      for k := 0 to |a.items|
        invariant EmitItems(g0, a, k, name) == EmittedAll(State(), calls)
        invariant content == CombinedHead(many) + CombinedLines(calls, many)
        invariant context == old(context) && code == old(code)
      {
        content, calls := CombinedLine(a, name, k, many, content, g0, calls);
      }
      if many {
        content := content + "]";
      }
    }

    /** One iteration of the `Combined` loop: the child's call, a comma when
        there are several children, and a newline. */
    method CombinedLine(a: Ast, name: string, k: nat, many: bool, content: string, ghost g0: Gen, ghost calls: seq<string>)
      returns (next: string, ghost calls': seq<string>)
      requires a.Combined? && k < |a.items|
      requires EmitItems(g0, a, k, name) == EmittedAll(State(), calls)
      requires content == CombinedHead(many) + CombinedLines(calls, many)
      modifies this
      ensures EmitItems(g0, a, k + 1, name) == EmittedAll(State(), calls')
      ensures next == CombinedHead(many) + CombinedLines(calls', many)
      ensures context == old(context) && code == old(code)
      decreases a, 0
    {
      var call := GenerateRule(a.items[k], name, true);
      calls' := calls + [call];
      var comma := if many then "," else "";
      next := content + call;
      next := next + comma;
      next := next + "\n";
      AppendThree(content, call, comma, "\n");
      CombinedLinesAppend(calls, call, many);
      AppendTwo(CombinedHead(many), CombinedLines(calls, many), call + comma + "\n");
    }

    /** The `Choice` branch of `generate_rule`: every alternative is
        generated, but each iteration replaces `content`. */
    method ChoiceContent(a: Ast, name: string) returns (content: string)
      requires a.Choice?
      modifies this
      ensures var e := EmitItems(old(State()), a, |a.items|, name);
        State() == e.gen && content == Content(a, e.calls)
      ensures context == old(context) && code == old(code)
      decreases a, 1
    {
      var items := a.items;
      content := "";
      for k := 0 to |items|
        invariant var e := EmitItems(old(State()), a, k, name);
          State() == e.gen && content == if k == 0 then "" else TryBlock(e.calls[k - 1], k < |items|)
        invariant context == old(context) && code == old(code)
      {
        var call := GenerateRule(items[k], name, true);
        content := "try:";
        content := content + "\n" + Indent("return " + call, Tab);
        if k + 1 < |items| {
          content := content + "\nexcept ParseException: pass";
        }
      }
    }

    /** `add_to_context`. */
    method AddToContext(name: Option<string>)
      modifies this`context
      ensures context == old(context) + [name]
    {
      context := context + [name];
    }

    /** `add_function`. */
    method AddFunction(name: string, content: string) returns (call: string)
      modifies this`functions
      ensures functions == old(functions) + [FunctionText(name, content)]
      ensures call == CallText(name)
    {
      var s := "\ndef " + name + "(self):";
      s := s + "\n" + Indent(content, Tab);
      functions := functions + [s];
      return "self." + name + "()";
    }

    /** `add_rule`. */
    method AddRuleTo(ruleName: string, content: string) returns (call: string)
      modifies this`functions
      ensures Emitted(State(), call) == AddRule(old(State()), ruleName, content)
    {
      call := AddFunction("parse_" + ruleName, content);
    }

    /** `add_fragment`. */
    method AddFragmentTo(ruleName: string, content: string) returns (call: string)
      modifies this`functions, this`fragmentCounts
      ensures Emitted(State(), call) == AddFragment(old(State()), ruleName, content)
    {
      if ruleName in fragmentCounts {
        fragmentCounts := fragmentCounts[ruleName := fragmentCounts[ruleName] + 1];
      } else {
        fragmentCounts := fragmentCounts[ruleName := 1];
      }
      var name := "parse_" + ruleName + "_fragment" + NatToString(fragmentCounts[ruleName]);
      call := AddFunction(name, content);
    }
  }
}
