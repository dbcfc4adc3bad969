/** laggard/grammar_parser.py: the recursive-descent parser of the grammar
    language. The functions here give, for each `parse_*` method, the node it
    returns (or the `ParseException` it raises) and the index it leaves the
    buffer at, when called at index `i`. The class `GrammarParser` in
    `GrammarParsing` runs the same methods on a `Buffer` and is proved to
    agree with them. */
module GrammarSpec {
  import opened Base
  import opened Cursor
  import opened Ast
  import opened Primitives

  /** The skip-set the parser's buffer is built with. */
  const Whitespace: seq<char> := [' ', '\n', '\t']

  /** `string.ascii_letters + string.digits`. */
  const IdentLetters: string := "abcdefghijklmnopqrstuvwxyzABCDEFGHIJKLMNOPQRSTUVWXYZ0123456789"

  /** A string as the list of its characters. */
  function Singletons(s: string): (r: seq<string>)
    ensures |r| == |s| && forall k :: 0 <= k < |r| ==> r[k] == [s[k]]
  {
    seq(|s|, k requires 0 <= k < |s| => [s[k]])
  }

  /** A character string is in the list exactly when it is one character of
      the string. */
  lemma SingletonsMembership(s: string, x: string)
    ensures x in Singletons(s) <==> |x| == 1 && x[0] in s
  {
    if x in Singletons(s) {
      var k :| 0 <= k < |s| && Singletons(s)[k] == x;
    }
    if |x| == 1 && x[0] in s {
      var k :| 0 <= k < |s| && s[k] == x[0];
      assert Singletons(s)[k] == [x[0]] == x;
    }
  }

  /** `list(string.ascii_letters + string.digits)`, which has no "[EOF]". */
  function IdentChars(): (r: seq<string>)
    ensures r == Singletons(IdentLetters)
    ensures EOF !in r
  {
    SingletonsMembership(IdentLetters, EOF);
    Singletons(IdentLetters)
  }

  const Modifiers: seq<string> := ["*", "+", "?"]
  const Quotes: seq<string> := ["'", "\""]

  /** The characters of a run `expectManyOutOf` took from `IdentChars()`. */
  lemma IdentCharsMembers(id: string)
    requires forall k :: 0 <= k < |id| ==> [id[k]] in IdentChars()
    ensures forall k :: 0 <= k < |id| ==> id[k] in IdentLetters
  {
    SingletonsMembers(IdentLetters, id);
  }

  /** Every character of a run taken from `Singletons(s)` is in `s`. */
  lemma SingletonsMembers(s: string, id: string)
    requires forall k :: 0 <= k < |id| ==> [id[k]] in Singletons(s)
    ensures forall k :: 0 <= k < |id| ==> id[k] in s
  {
    forall k | 0 <= k < |id|
      ensures id[k] in s
    {
      SingletonsMembership(s, [id[k]]);
    }
  }

  /** The shape of every node the parser builds: a `Choice` or `Combined` has
      at least two items, a modifier is one of `*`, `+` and `?`, names are
      identifiers, an identifier is a non-empty run of letters and digits and
      a grammar holds rules only. No parse yields a `RuleLeftHand`. */
  predicate Shaped(a: Ast) {
    match a
    case Combined(items) => |items| >= 2 && forall k :: 0 <= k < |items| ==> Shaped(items[k])
    case Choice(items) => |items| >= 2 && forall k :: 0 <= k < |items| ==> Shaped(items[k])
    case Grammar(items) => forall k :: 0 <= k < |items| ==> items[k].Rule? && Shaped(items[k])
    case Rule(name, content) => name.Identifier? && Shaped(name) && Shaped(content)
    case ModifiedRuleExpression(expr, modifier) => modifier in Modifiers && Shaped(expr)
    case LabelledRuleExpression(name, expr) => name.Identifier? && Shaped(name) && Shaped(expr)
    case RuleLeftHand(_, _) => false
    case Literal(_) => true
    case Identifier(id) => |id| >= 1 && forall k :: 0 <= k < |id| ==> id[k] in IdentLetters
  }

  /** Every item of a list of nodes is shaped. */
  predicate AllShaped(items: seq<Ast>) {
    forall k :: 0 <= k < |items| ==> Shaped(items[k])
  }

  /** A first node and at least one more, all shaped, make a shaped group. */
  lemma GroupShaped(x: Ast, ys: seq<Ast>)
    requires Shaped(x) && AllShaped(ys) && |ys| >= 1
    ensures Shaped(Choice([x] + ys)) && Shaped(Combined([x] + ys))
  {
    var items := [x] + ys;
    assert forall k :: 0 <= k < |items| ==> Shaped(items[k]) by {
      forall k | 0 <= k < |items| ensures Shaped(items[k]) {
        if k > 0 {
          assert items[k] == ys[k - 1];
        }
      }
    }
  }

  /** Results count as failures or successes whatever their payload type. */
  function Fail<T>(msg: string, i: nat): Parsed<T> {
    Parsed(Failure(msg), i)
  }

  /** `parse_identifier`. */
  function PIdentifier(src: string, sk: seq<char>, i: nat): (p: Parsed<Ast>)
    requires i <= |src|
    ensures i <= p.next <= |src|
    ensures p.r.Failure? ==> p.next == i
    ensures p.r.Success? ==> p.next > i && p.r.value.Identifier? && Shaped(p.r.value)
  {
    var t := ExpectManyOutOfP(src, sk, i, IdentChars());
    if t.r.Success? then
      IdentCharsMembers(t.r.value);
      Parsed(Success(Identifier(t.r.value)), t.next)
    else Fail(t.r.error, i)
  }

  /** `parse_string`: an opening quote, then everything up to the same quote. */
  function PString(src: string, sk: seq<char>, i: nat): (p: Parsed<Ast>)
    requires i <= |src|
    ensures i <= p.next <= |src|
    ensures p.r.Failure? ==> p.next == i
    ensures p.r.Success? ==> p.next > i && p.r.value.Literal?
    ensures p.r.Success? ==> Shaped(p.r.value)
  {
    var q := ExpectOneOfP(src, sk, i, Quotes, true);
    if q.r.Failure? then Fail(q.r.error, i)
    else
      var s := ParseUntilP(src, q.next, [q.r.value]);
      if s.r.Failure? then Fail(s.r.error, i)
      else Parsed(Success(Literal(s.r.value)), s.next)
  }

  /** `parse_choice`: a combination, then, through `parseMultipleOf`, as many
      `|` fragments as follow; with none, the bare combination. */
  function PChoice(src: string, sk: seq<char>, i: nat): (p: Parsed<Ast>)
    requires i <= |src|
    ensures i <= p.next <= |src|
    ensures p.r.Failure? ==> p.next == i
    ensures p.r.Success? ==> p.next > i
    ensures p.r.Success? ==> Shaped(p.r.value)
    decreases |src| - i, 4
  {
    var x := PCombination(src, sk, i);
    if x.r.Failure? then Fail(x.r.error, i)
    else
      var y := PFragments(src, sk, x.next, [], x.next);
      if y.r.Success? then
        GroupShaped(x.r.value, y.r.value);
        Parsed(Success(Choice([x.r.value] + y.r.value)), y.next)
      else Parsed(Success(x.r.value), y.next)
  }

  /** `parseMultipleOf(buffer, self.parse_choice_fragment)`, entered at
      `start`, now at `j` with `acc` collected: at least one, or it fails. */
  function PFragments(src: string, sk: seq<char>, j: nat, acc: seq<Ast>, start: nat): (p: Parsed<seq<Ast>>)
    requires start <= j <= |src|
    ensures start <= p.next <= |src|
    ensures p.r.Failure? ==> p.next == start && |acc| == 0
    ensures p.r.Success? ==> |p.r.value| >= 1 && acc <= p.r.value
    ensures p.r.Success? && AllShaped(acc) ==> AllShaped(p.r.value)
    decreases |src| - j, 1
  {
    var t := PChoiceFragment(src, sk, j);
    if t.r.Success? then PFragments(src, sk, t.next, acc + [t.r.value], start)
    else if |acc| == 0 then Fail(t.r.error, start)
    else Parsed(Success(acc), t.next)
  }

  /** `parse_choice_fragment`: `|` and a combination. */
  function PChoiceFragment(src: string, sk: seq<char>, j: nat): (p: Parsed<Ast>)
    requires j <= |src|
    ensures j <= p.next <= |src|
    ensures p.r.Failure? ==> p.next == j
    ensures p.r.Success? ==> p.next > j
    ensures p.r.Success? ==> Shaped(p.r.value)
    decreases |src| - j, 0
  {
    var bar := ExpectP(src, sk, j, "|");
    if bar.r.Failure? then Fail(bar.r.error, j)
    else
      var c := PCombination(src, sk, bar.next);
      if c.r.Failure? then Fail(c.r.error, j) else c
  }

  /** `parse_combination`: a modified expression, then, through
      `parseMultipleOf`, as many more as follow; with none, the bare first. */
  function PCombination(src: string, sk: seq<char>, i: nat): (p: Parsed<Ast>)
    requires i <= |src|
    ensures i <= p.next <= |src|
    ensures p.r.Failure? ==> p.next == i
    ensures p.r.Success? ==> p.next > i
    ensures p.r.Success? ==> Shaped(p.r.value)
    decreases |src| - i, 3
  {
    var x := PModified(src, sk, i);
    if x.r.Failure? then Fail(x.r.error, i)
    else
      var y := PElements(src, sk, x.next, [], x.next);
      if y.r.Success? then
        GroupShaped(x.r.value, y.r.value);
        Parsed(Success(Combined([x.r.value] + y.r.value)), y.next)
      else Parsed(Success(x.r.value), y.next)
  }

  /** `parseMultipleOf(buffer, self.parse_modified_rule_expression)`. */
  function PElements(src: string, sk: seq<char>, j: nat, acc: seq<Ast>, start: nat): (p: Parsed<seq<Ast>>)
    requires start <= j <= |src|
    ensures start <= p.next <= |src|
    ensures p.r.Failure? ==> p.next == start && |acc| == 0
    ensures p.r.Success? ==> |p.r.value| >= 1 && acc <= p.r.value
    ensures p.r.Success? && AllShaped(acc) ==> AllShaped(p.r.value)
    decreases |src| - j, 3
  {
    var t := PModified(src, sk, j);
    if t.r.Success? then PElements(src, sk, t.next, acc + [t.r.value], start)
    else if |acc| == 0 then Fail(t.r.error, start)
    else Parsed(Success(acc), t.next)
  }

  /** `parse_modified_rule_expression`: a primary expression and, read
      without skipping, an optional `*`, `+` or `?`. */
  function PModified(src: string, sk: seq<char>, i: nat): (p: Parsed<Ast>)
    requires i <= |src|
    ensures i <= p.next <= |src|
    ensures p.r.Failure? ==> p.next == i
    ensures p.r.Success? ==> p.next > i
    ensures p.r.Success? ==> Shaped(p.r.value)
    decreases |src| - i, 2
  {
    var e := PRuleMatch(src, sk, i);
    if e.r.Failure? then Fail(e.r.error, i)
    else
      var m := ExpectOneOfP(src, sk, e.next, Modifiers, false);
      if m.r.Success? then Parsed(Success(ModifiedRuleExpression(e.r.value, m.r.value)), m.next)
      else e
  }

  /** `parse_rule_match_expression`: `( choice )`; when any part of that
      fails, the `except` branch runs from wherever the failing part left the
      buffer, which is past the `(` once that matched. */
  function PRuleMatch(src: string, sk: seq<char>, i: nat): (p: Parsed<Ast>)
    requires i <= |src|
    ensures i <= p.next <= |src|
    ensures p.r.Failure? ==> p.next == i
    ensures p.r.Success? ==> p.next > i
    ensures p.r.Success? ==> Shaped(p.r.value)
    decreases |src| - i, 1
  {
    var open := ExpectP(src, sk, i, "(");
    if open.r.Failure? then PFallback(src, sk, i, i)
    else
      var c := PChoice(src, sk, open.next);
      if c.r.Failure? then PFallback(src, sk, i, open.next)
      else
        var close := ExpectP(src, sk, c.next, ")");
        if close.r.Success? then Parsed(Success(c.r.value), close.next)
        else PFallback(src, sk, i, c.next)
  }

  /** The `except ParseException` branch of `parse_rule_match_expression`,
      inside the `with buffer:` entered at `i`, run from `j`: an identifier,
      labelled when `:` and a modified expression follow, or else a string. */
  function PFallback(src: string, sk: seq<char>, i: nat, j: nat): (p: Parsed<Ast>)
    requires i <= j <= |src|
    ensures i <= p.next <= |src|
    ensures p.r.Failure? ==> p.next == i
    ensures p.r.Success? ==> p.next > i
    ensures p.r.Success? ==> Shaped(p.r.value)
    decreases |src| - i, 0
  {
    var n := PIdentifier(src, sk, j);
    if n.r.Success? then
      var colon := ExpectP(src, sk, n.next, ":");
      if colon.r.Failure? then n
      else
        var e := PModified(src, sk, colon.next);
        if e.r.Success? then Parsed(Success(LabelledRuleExpression(n.r.value, e.r.value)), e.next)
        else Parsed(n.r, colon.next)
    else
      var s := PString(src, sk, j);
      if s.r.Success? then s else Fail(s.r.error, i)
  }

  /** `parse_righthand`. */
  function PRighthand(src: string, sk: seq<char>, i: nat): (p: Parsed<Ast>)
    requires i <= |src|
    ensures i <= p.next <= |src|
    ensures p.r.Failure? ==> p.next == i
    ensures p.r.Success? ==> p.next > i
    ensures p.r.Success? ==> Shaped(p.r.value)
  {
    PChoice(src, sk, i)
  }

  /** `parse_rule`: `identifier = choice ;`. */
  function PRule(src: string, sk: seq<char>, i: nat): (p: Parsed<Ast>)
    requires i <= |src|
    ensures i <= p.next <= |src|
    ensures p.r.Failure? ==> p.next == i
    ensures p.r.Success? ==> p.next > i && p.r.value.Rule? && Shaped(p.r.value)
  {
    var id := PIdentifier(src, sk, i);
    if id.r.Failure? then Fail(id.r.error, i)
    else
      var eq := ExpectP(src, sk, id.next, "=");
      if eq.r.Failure? then Fail(eq.r.error, i)
      else
        var rh := PRighthand(src, sk, eq.next);
        if rh.r.Failure? then Fail(rh.r.error, i)
        else
          var semi := ExpectP(src, sk, rh.next, ";");
          if semi.r.Failure? then Fail(semi.r.error, i)
          else Parsed(Success(Rule(id.r.value, rh.r.value)), semi.next)
  }

  /** `parse`'s loop, now at `j` with the rules `acc`: rules until one fails,
      then a `Grammar` when `is_eof` holds and the failure otherwise. */
  function PRules(src: string, sk: seq<char>, j: nat, acc: seq<Ast>): (p: Parsed<Ast>)
    requires j <= |src|
    ensures j <= p.next <= |src|
    decreases |src| - j
  {
    var r := PRule(src, sk, j);
    if r.r.Success? then PRules(src, sk, r.next, acc + [r.r.value])
    else if AtEof(src, j) then Parsed(Success(Grammar(acc)), j)
    else Fail(r.r.error, j)
  }

  /** `Parser(source).parse()`. */
  function ParseGrammar(src: string): Parsed<Ast> {
    PRules(src, Whitespace, 0, [])
  }
}
