/** What laggard/codegen.py guarantees about the code it generates: one
    function per `generate_rule` call, in call order; fragment counters that
    start at 1 and go up by one per fragment; fragment names that never
    repeat; identifier references that call the rule functions by the name
    they are emitted under. */
module CodeGenProperties {
  import opened Base
  import opened Ast
  import opened CodeGen

  /** `generate_rule` only appends: it adds one function per node it visits,
      counts every fragment against the rule name it was given and leaves
      every other rule's counter alone. */
  lemma {:induction false} EmitAppends(g: Gen, a: Ast, rule: string, inline: bool)
    ensures var e := Emit(g, a, rule, inline);
      g.functions <= e.gen.functions
      && |e.gen.functions| == |g.functions| + Visits(a)
      && Count(e.gen.counts, rule) == Count(g.counts, rule) + Visits(a) - (if inline then 0 else 1)
      && forall r :: r != rule ==> Count(e.gen.counts, r) == Count(g.counts, r)
    decreases a, 2, 0
  {
    InnerAppends(g, a, rule);
  }

  lemma {:induction false} InnerAppends(g: Gen, a: Ast, rule: string)
    ensures var e := Inner(g, a, rule);
      g.functions <= e.gen.functions
      && |e.gen.functions| == |g.functions| + Visits(a) - 1
      && Count(e.gen.counts, rule) == Count(g.counts, rule) + Visits(a) - 1
      && forall r :: r != rule ==> Count(e.gen.counts, r) == Count(g.counts, r)
    decreases a, 1, 0
  {
    match a
    case Combined(items) => ItemsAppend(g, a, |items|, rule);
    case Choice(items) => ItemsAppend(g, a, |items|, rule);
    case ModifiedRuleExpression(expr, _) => EmitAppends(g, expr, rule, true);
    case LabelledRuleExpression(_, expr) => EmitAppends(g, expr, rule, true);
    case _ =>
  }

  lemma {:induction false} ItemsAppend(g: Gen, a: Ast, k: nat, rule: string)
    requires (a.Combined? || a.Choice?) && k <= |a.items|
    ensures var e := EmitItems(g, a, k, rule);
      g.functions <= e.gen.functions
      && |e.gen.functions| == |g.functions| + ItemVisits(a, k)
      && Count(e.gen.counts, rule) == Count(g.counts, rule) + ItemVisits(a, k)
      && forall r :: r != rule ==> Count(e.gen.counts, r) == Count(g.counts, r)
    decreases a, 0, k
  {
    if k > 0 {
      var p := EmitItems(g, a, k - 1, rule);
      ItemsAppend(g, a, k - 1, rule);
      EmitAppends(p.gen, a.items[k - 1], rule, true);
    }
  }

  /** Two fragment names of one rule are equal only for equal counters. */
  lemma FragmentNamesDistinct(rule: string, m: nat, n: nat)
    requires FragmentName(rule, m) == FragmentName(rule, n)
    ensures m == n
  {
    var prefix := "parse_" + rule + "_fragment";
    assert FragmentName(rule, m)[|prefix|..] == NatToString(m);
    assert FragmentName(rule, n)[|prefix|..] == NatToString(n);
    NatToStringInjective(m, n);
  }

  /** A function's text starts with its `def` line. */
  lemma DefLineStarts(name: string, content: string)
    ensures DefLine(name) <= FunctionText(name, content)
  {
  }

  /** The last function one `generate_rule` call adds is the node's own:
      an inline call adds the fragment numbered by the rule's counter after
      all the node's fragments, `parse_<rule>_fragment<c + visits>`, a
      non-inline call adds `parse_<rule>`; the returned call text names that
      function. */
  lemma EmitCall(g: Gen, a: Ast, rule: string, inline: bool)
    ensures var e := Emit(g, a, rule, inline);
      var name := if inline then FragmentName(rule, Count(g.counts, rule) + Visits(a)) else RuleFunctionName(rule);
      e.call == CallText(name)
      && |e.gen.functions| > 0 && DefLine(name) <= e.gen.functions[|e.gen.functions| - 1]
  {
    var i := Inner(g, a, rule);
    var content := NodeContent(g, a, rule);
    var e := Emit(g, a, rule, inline);
    InnerAppends(g, a, rule);
    var name := if inline then FragmentName(rule, Count(g.counts, rule) + Visits(a)) else RuleFunctionName(rule);
    if inline {
      assert Count(i.gen.counts, rule) + 1 == Count(g.counts, rule) + Visits(a);
      assert e == AddFragment(i.gen, rule, content);
    } else {
      assert e == AddRule(i.gen, rule, content);
    }
    assert e.gen.functions == i.gen.functions + [FunctionText(name, content)];
    LastOf(i.gen.functions, FunctionText(name, content));
    DefLineStarts(name, content);
  }

  lemma LastOf(fs: seq<string>, f: string)
    ensures (fs + [f])[|fs + [f]| - 1] == f
  {
  }

  /** The call text alone of an inline call. */
  lemma InlineCallName(g: Gen, a: Ast, rule: string)
    ensures Emit(g, a, rule, true).call == CallText(FragmentName(rule, Count(g.counts, rule) + Visits(a)))
  {
    EmitCall(g, a, rule, true);
  }

  /** The rule's counter alone after an inline call. */
  lemma InlineCount(g: Gen, a: Ast, rule: string)
    ensures Count(Emit(g, a, rule, true).gen.counts, rule) == Count(g.counts, rule) + Visits(a)
  {
    EmitAppends(g, a, rule, true);
  }

  /** Two call texts are equal only for equal function names. */
  lemma CallTextInjective(m: string, n: string)
    requires CallText(m) == CallText(n)
    ensures m == n
  {
    assert m == CallText(m)[5..|CallText(m)| - 2];
    assert n == CallText(n)[5..|CallText(n)| - 2];
  }

  /** A fragment generated once the rule's counter has reached where an
      earlier inline call left it gets a different function from that call's:
      counters only grow (`EmitAppends`), so fragment names do not repeat
      within a run. */
  lemma LaterFragmentsDiffer(g: Gen, a: Ast, later: Gen, b: Ast, rule: string)
    requires Count(later.counts, rule) >= Count(Emit(g, a, rule, true).gen.counts, rule)
    ensures Emit(g, a, rule, true).call != Emit(later, b, rule, true).call
  {
    InlineCallName(g, a, rule);
    InlineCallName(later, b, rule);
    InlineCount(g, a, rule);
    assert Visits(b) >= 1;
    FragmentCallsDiffer(rule, Count(g.counts, rule) + Visits(a), Count(later.counts, rule) + Visits(b));
  }

  /** Different fragment numbers give different call texts. */
  lemma FragmentCallsDiffer(rule: string, m: nat, n: nat)
    requires m != n
    ensures CallText(FragmentName(rule, m)) != CallText(FragmentName(rule, n))
  {
    if CallText(FragmentName(rule, m)) == CallText(FragmentName(rule, n)) {
      CallTextInjective(FragmentName(rule, m), FragmentName(rule, n));
      FragmentNamesDistinct(rule, m, n);
    }
  }

  /** An identifier's fragment calls exactly the function a rule of that name
      is emitted as. */
  lemma IdentifierCallsRule(g: Gen, x: string, body: Ast)
    ensures Content(Identifier(x), []) == "return " + Emit(g, body, x, false).call
  {
    EmitCall(g, body, x, false);
    IdentifierContent(x);
  }

  lemma IdentifierContent(x: string)
    ensures Content(Identifier(x), []) == "return " + CallText(RuleFunctionName(x))
  {
    assert CallText(RuleFunctionName(x)) == "self." + ("parse_" + x) + "()";
  }

  /** A `Combined` of one child returns that child's call on its own line. */
  lemma CombinedOfOne(x: Ast, calls: seq<string>)
    requires |calls| == 1
    ensures Content(Combined([x]), calls) == "return " + calls[0] + "\n"
  {
    assert calls[..0] == [];
    assert CombinedLines(calls, false) == CombinedLines([], false) + calls[0] + "" + "\n";
  }

  /** A `Choice`'s content is its last alternative's `try:` block alone:
      the calls of the alternatives before it do not show in it. */
  lemma ChoiceKeepsLast(items: seq<Ast>, calls1: seq<string>, calls2: seq<string>)
    requires |calls1| == |calls2| == |items| > 0 && calls1[|items| - 1] == calls2[|items| - 1]
    ensures Content(Choice(items), calls1) == Content(Choice(items), calls2)
    ensures "try:\n" <= Content(Choice(items), calls1)
  {
  }

  /** The `return` lines of a `Combined` list its children's calls in
      order: the lines of the first `k` calls come first. */
  lemma {:induction false} CombinedLinesInOrder(calls: seq<string>, many: bool, k: nat)
    requires k <= |calls|
    ensures CombinedLines(calls[..k], many) <= CombinedLines(calls, many)
    decreases |calls|
  {
    if k < |calls| {
      var front := calls[..|calls| - 1];
      assert front[..k] == calls[..k];
      CombinedLinesInOrder(front, many, k);
    } else {
      assert calls[..k] == calls;
    }
  }

  /** A `Combined` of several children returns a list: its content opens
      with `return [`, then the children's lines, then `]`. */
  lemma CombinedBrackets(items: seq<Ast>, calls: seq<string>)
    requires |calls| == |items| > 1
    ensures "return [\n" <= Content(Combined(items), calls)
    ensures Content(Combined(items), calls)[|Content(Combined(items), calls)| - 1] == ']'
    ensures |Content(Combined(items), calls)| == |"return [\n"| + |CombinedLines(calls, true)| + 1
  {
  }

  /** The generated text is the header followed by the functions in the order
      they were added: rendering more functions extends the text. */
  lemma {:induction false} RenderExtends(fs: seq<string>, gs: seq<string>, k: nat)
    requires k <= |fs| && fs <= gs
    ensures Render(fs, k) == Render(gs, k)
  {
    if k > 0 {
      RenderExtends(fs, gs, k - 1);
      assert fs[k - 1] == gs[k - 1];
    }
  }
}
