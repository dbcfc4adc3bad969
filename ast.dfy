/** laggard/ast.py and laggard/grammar_asts.py: the nodes the grammar parser
    builds. Each class of grammar_asts.py is a constructor here, with the
    fields its `__init__` stores; `Children` is the list it hands to
    `ASTNode.__init__`. */
module Ast {
  import opened Base

  datatype Ast =
    | Combined(items: seq<Ast>)
    | Choice(items: seq<Ast>)
    | Grammar(items: seq<Ast>)
    | Rule(name: Ast, content: Ast)
    | ModifiedRuleExpression(expr: Ast, modifier: string)
    | LabelledRuleExpression(name: Ast, expr: Ast)  // `name` is stored as `label`
    | RuleLeftHand(lhs: string, transformer: Option<string>)
    | Literal(value: string)
    | Identifier(id: string)

  /** An entry of a node's `children` list: a node, a `str`, or `None`. */
  datatype Child = Sub(node: Ast) | Text(s: string) | NoneChild

  /** The list each constructor passes to `ASTNode.__init__`. */
  function Children(a: Ast): (cs: seq<Child>)
    ensures forall k :: 0 <= k < |cs| && cs[k].Sub? ==> cs[k].node < a
  {
    match a
    case Combined(items) => Subs(items)
    case Choice(items) => Subs(items)
    case Grammar(items) => Subs(items)
    case Rule(_, content) => [Sub(content)]
    case ModifiedRuleExpression(expr, modifier) => [Sub(expr), Text(modifier)]
    case LabelledRuleExpression(name, expr) => [Sub(name), Sub(expr)]
    case RuleLeftHand(lhs, transformer) =>
      [Text(lhs), if transformer.Some? then Text(transformer.value) else NoneChild]
    case Literal(value) => [Text(value)]
    case Identifier(id) => [Text(id)]
  }

  /** What each constructor stores as `children`: the given list itself for
      `Combined`, `Choice` and `Grammar`, and the constructor's arguments in
      order for the others, except that a `Rule` keeps its name apart. */
  lemma ConstructorChildren(a: Ast)
    ensures (a.Combined? || a.Choice? || a.Grammar?) ==>
      |Children(a)| == |a.items| && forall k :: 0 <= k < |a.items| ==> Children(a)[k] == Sub(a.items[k])
    ensures a.Rule? ==> Children(a) == [Sub(a.content)]
    ensures a.ModifiedRuleExpression? ==> Children(a) == [Sub(a.expr), Text(a.modifier)]
    ensures a.LabelledRuleExpression? ==> Children(a) == [Sub(a.name), Sub(a.expr)]
    ensures a.RuleLeftHand? ==> Children(a) == [Text(a.lhs), if a.transformer.Some? then Text(a.transformer.value) else NoneChild]
    ensures a.Literal? ==> Children(a) == [Text(a.value)]
    ensures a.Identifier? ==> Children(a) == [Text(a.id)]
  {
  }

  function Subs(items: seq<Ast>): (cs: seq<Child>)
    ensures |cs| == |items| && forall k :: 0 <= k < |cs| ==> cs[k] == Sub(items[k])
  {
    if |items| == 0 then [] else [Sub(items[0])] + Subs(items[1..])
  }

  /** The class name `get_name` returns without the `Rule` override. */
  function ClassName(a: Ast): string {
    match a
    case Combined(_) => "Combined"
    case Choice(_) => "Choice"
    case Grammar(_) => "Grammar"
    case Rule(_, _) => "Rule"
    case ModifiedRuleExpression(_, _) => "ModifiedRuleExpression"
    case LabelledRuleExpression(_, _) => "LabelledRuleExpression"
    case RuleLeftHand(_, _) => "RuleLeftHand"
    case Literal(_) => "Literal"
    case Identifier(_) => "Identifier"
  }

  /** Python's `repr` of a `str`: single quotes unless the text holds a single
      quote and no double quote, with backslash, the chosen quote, newline,
      carriage return and tab escaped. */
  function StrRepr(s: string): (r: string)
    ensures |r| >= 2 && (r[0] == '\'' || r[0] == '"') && r[|r| - 1] == r[0]
  {
    var q := if '\'' in s && '"' !in s then '"' else '\'';
    [q] + Escaped(s, q) + [q]
  }

  function Escaped(s: string, q: char): string {
    if |s| == 0 then ""
    else
      var c := s[0];
      (if c == '\\' then "\\\\"
       else if c == q then ['\\', q]
       else if c == '\n' then "\\n"
       else if c == '\r' then "\\r"
       else if c == '\t' then "\\t"
       else [c]) + Escaped(s[1..], q)
  }

  /** `get_name`: the class name; a `Rule` adds ": " and its name, which is
      printed with `str`, that is as a pretty string. */
  function GetName(a: Ast): string
    decreases a, 0
  {
    if a.Rule? then ClassName(a) + ": " + Pretty(a.name, -1) else ClassName(a)
  }

  /** `__repr__`. */
  function Repr(a: Ast): string {
    "<" + GetName(a) + ">"
  }

  /** The depth the children are printed with, as `get_pretty_string` chooses
      it: unlimited stays unlimited, a positive depth goes down by one. */
  function NextDepth(depth: int): int {
    if depth == -1 then -1 else depth - 1
  }

  /** Whether `get_pretty_string` prints the children at this depth. */
  predicate ShowsChildren(depth: int) {
    depth > 0 || depth == -1
  }

  /** `get_pretty_string(depth)`. */
  function Pretty(a: Ast, depth: int): string
    decreases a, 2
  {
    GetName(a) + (if ShowsChildren(depth) then Indent(ChildrenText(a, 0, NextDepth(depth)), "  ") else "")
  }

  /** The text one child contributes: a node's pretty string, or `repr` of
      anything else. */
  function ChildText(a: Ast, k: nat, depth: int): string
    requires k < |Children(a)|
    decreases a, 0
  {
    match Children(a)[k]
    case Sub(n) => Pretty(n, depth)
    case Text(s) => StrRepr(s)
    case NoneChild => "None"
  }

  /** `children_str` after the loop has visited children `k..` of `a`. */
  function ChildrenText(a: Ast, k: nat, depth: int): string
    requires k <= |Children(a)|
    decreases a, 1, |Children(a)| - k
  {
    if k == |Children(a)| then ""
    else "\n" + ChildText(a, k, depth) + ChildrenText(a, k + 1, depth)
  }

  /** `get_pretty_string`. */
  method PrettyString(a: Ast, depth: int) returns (s: string)
    ensures s == Pretty(a, depth)
    decreases a, 2
  {
    s := GetName(a);
    if depth > 0 || depth == -1 {
      var next := if depth == -1 then -1 else depth - 1;
      var childrenStr := ChildrenString(a, next);
      s := s + Indent(childrenStr, "  ");
    }
  }

  /** The `for child in self.children` loop of `get_pretty_string`, which
      accumulates `children_str`. */
  method ChildrenString(a: Ast, next: int) returns (childrenStr: string)
    ensures childrenStr == ChildrenText(a, 0, next)
    decreases a, 1
  {
    var cs := Children(a);
    childrenStr := "";
    for k := 0 to |cs|
      invariant childrenStr + ChildrenText(a, k, next) == ChildrenText(a, 0, next)
    {
      var piece := ChildString(a, k, next);
      ghost var before := childrenStr;
      childrenStr := childrenStr + "\n";
      childrenStr := childrenStr + piece;
      AppendSegment(before, piece, ChildrenText(a, k + 1, next));
    }
  }

  lemma AppendSegment(before: string, piece: string, rest: string)
    ensures before + "\n" + piece + rest == before + ("\n" + piece + rest)
  {
  }

  /** One child's contribution to `children_str`. */
  method ChildString(a: Ast, k: nat, next: int) returns (piece: string)
    requires k < |Children(a)|
    ensures piece == ChildText(a, k, next)
    decreases a, 0
  {
    match Children(a)[k] {
      case Sub(n) =>
        piece := PrettyString(n, next);
      case Text(x) =>
        piece := StrRepr(x);
      case NoneChild =>
        piece := "None";
    }
  }

  /** How many levels of nodes `get_pretty_string` has to descend to print
      everything: 0 for a node without children. */
  function Height(a: Ast): nat
    decreases a, 1
  {
    if |Children(a)| == 0 then 0 else 1 + MaxHeight(a, 0)
  }

  /** The largest height among the node children `k..` of `a`. */
  function MaxHeight(a: Ast, k: nat): nat
    requires k <= |Children(a)|
    decreases a, 0, |Children(a)| - k
  {
    if k == |Children(a)| then 0
    else
      var h := match Children(a)[k] case Sub(n) => Height(n) case _ => 0;
      var rest := MaxHeight(a, k + 1);
      if h > rest then h else rest
  }

  /** Depth 0, or any depth below -1, prints the name alone. */
  lemma PrettyWithoutChildren(a: Ast, depth: int)
    requires !ShowsChildren(depth)
    ensures Pretty(a, depth) == GetName(a)
  {
  }

  /** Every pretty string starts with the node's name. */
  lemma PrettyStartsWithName(a: Ast, depth: int)
    ensures GetName(a) <= Pretty(a, depth)
  {
  }

  /** A depth at least the node's height prints exactly what the unlimited
      depth -1 prints. */
  lemma {:induction false} DeepEnoughIsUnlimited(a: Ast, depth: nat)
    requires depth >= Height(a)
    ensures Pretty(a, depth) == Pretty(a, -1)
    decreases a, 1
  {
    if |Children(a)| == 0 {
      assert ChildrenText(a, 0, NextDepth(depth)) == "";
      assert ChildrenText(a, 0, -1) == "";
    } else {
      ChildrenDeepEnough(a, 0, depth - 1);
    }
  }

  lemma {:induction false} ChildrenDeepEnough(a: Ast, k: nat, depth: nat)
    requires k <= |Children(a)| && depth >= MaxHeight(a, k)
    ensures ChildrenText(a, k, depth) == ChildrenText(a, k, -1)
    decreases a, 0, |Children(a)| - k
  {
    if k < |Children(a)| {
      match Children(a)[k] {
      case Sub(n) =>
        DeepEnoughIsUnlimited(n, depth);
      case _ =>
      }
      ChildrenDeepEnough(a, k + 1, depth);
    }
  }
}
