/** What the grammar parser of laggard/grammar_parser.py guarantees about the
    whole parse: where `parse` stops, when it accepts, and the shape of the
    tree it returns. */
module GrammarProperties {
  import opened Base
  import opened Cursor
  import opened Ast
  import opened Primitives
  import opened GrammarSpec

  /** `parse` stops at the first index where `parse_rule` fails and, when it
      does not accept, re-raises that rule's failure. */
  lemma {:induction false} RulesStopAtFirstFailure(src: string, sk: seq<char>, j: nat, acc: seq<Ast>)
    requires j <= |src|
    ensures PRule(src, sk, PRules(src, sk, j, acc).next).r.Failure?
    ensures PRules(src, sk, j, acc).r.Failure? ==>
      PRules(src, sk, j, acc).r == PRule(src, sk, PRules(src, sk, j, acc).next).r
    decreases |src| - j
  {
    var r := PRule(src, sk, j);
    if r.r.Success? {
      assert PRules(src, sk, j, acc) == PRules(src, sk, r.next, acc + [r.r.value]);
      RulesStopAtFirstFailure(src, sk, r.next, acc + [r.r.value]);
    } else if AtEof(src, j) {
      assert PRules(src, sk, j, acc) == Parsed(Success(Grammar(acc)), j);
    } else {
      assert PRules(src, sk, j, acc) == Fail(r.r.error, j);
    }
  }

  /** `parse` accepts exactly when `is_eof` holds where it stopped, and keeps
      the rules read before. */
  lemma {:induction false} RulesAcceptAtEof(src: string, sk: seq<char>, j: nat, acc: seq<Ast>)
    requires j <= |src|
    ensures PRules(src, sk, j, acc).r.Success? <==> AtEof(src, PRules(src, sk, j, acc).next)
    ensures PRules(src, sk, j, acc).r.Success? ==>
      PRules(src, sk, j, acc).r.value.Grammar? && acc <= PRules(src, sk, j, acc).r.value.items
    decreases |src| - j
  {
    var r := PRule(src, sk, j);
    if r.r.Success? {
      assert PRules(src, sk, j, acc) == PRules(src, sk, r.next, acc + [r.r.value]);
      RulesAcceptAtEof(src, sk, r.next, acc + [r.r.value]);
    } else if AtEof(src, j) {
      assert PRules(src, sk, j, acc) == Parsed(Success(Grammar(acc)), j);
    } else {
      assert PRules(src, sk, j, acc) == Fail(r.r.error, j);
    }
  }

  /** A list of shaped rules: what a shaped `Grammar` holds. */
  predicate ShapedRules(items: seq<Ast>) {
    forall k :: 0 <= k < |items| ==> items[k].Rule? && Shaped(items[k])
  }

  lemma ShapedRulesAppend(items: seq<Ast>, x: Ast)
    requires ShapedRules(items) && x.Rule? && Shaped(x)
    ensures ShapedRules(items + [x])
  {
    forall k | 0 <= k < |items| + 1
      ensures (items + [x])[k].Rule? && Shaped((items + [x])[k])
    {
      if k < |items| {
        assert (items + [x])[k] == items[k];
      }
    }
  }

  /** Every rule `parse` collects is shaped, so the grammar is. */
  lemma {:induction false} RulesAreShaped(src: string, sk: seq<char>, j: nat, acc: seq<Ast>)
    requires j <= |src| && ShapedRules(acc)
    ensures PRules(src, sk, j, acc).r.Success? ==> Shaped(PRules(src, sk, j, acc).r.value)
    decreases |src| - j
  {
    var r := PRule(src, sk, j);
    if r.r.Success? {
      ShapedRulesAppend(acc, r.r.value);
      assert PRules(src, sk, j, acc) == PRules(src, sk, r.next, acc + [r.r.value]);
      RulesAreShaped(src, sk, r.next, acc + [r.r.value]);
    } else if AtEof(src, j) {
      assert PRules(src, sk, j, acc) == Parsed(Success(Grammar(acc)), j);
    } else {
      assert PRules(src, sk, j, acc) == Fail(r.r.error, j);
    }
  }

  /** A grammar read from a source is a list of rules, each named by an
      identifier, in which every `Choice` and `Combined` has at least two
      items; it is returned exactly when the rest of the source after the
      last rule is at most one character long. */
  lemma ParsedGrammarShape(src: string)
    ensures ParseGrammar(src).r.Success? ==> ParseGrammar(src).r.value.Grammar? && Shaped(ParseGrammar(src).r.value)
    ensures ParseGrammar(src).r.Success? <==> |src[ParseGrammar(src).next..]| <= 1
  {
    RulesAcceptAtEof(src, Whitespace, 0, []);
    RulesAreShaped(src, Whitespace, 0, []);
    AtEofIffAtMostOneLeft(src, ParseGrammar(src).next);
  }

  /** A modifier is read without skipping: it is taken exactly when the
      character right after the expression is `*`, `+` or `?`. */
  lemma ModifierIsNextChar(src: string, sk: seq<char>, i: nat)
    requires i <= |src| && PRuleMatch(src, sk, i).r.Success?
    ensures var e := PRuleMatch(src, sk, i);
      PModified(src, sk, i) ==
        if e.next < |src| && [src[e.next]] in Modifiers
        then Parsed(Success(ModifiedRuleExpression(e.r.value, [src[e.next]])), e.next + 1)
        else e
  {
    var e := PRuleMatch(src, sk, i);
    ExpectOneOfNoSkip(src, sk, e.next, Modifiers);
  }

  /** An identifier followed by `:` and an expression is a label. */
  lemma LabelledWhenColonFollows(src: string, sk: seq<char>, i: nat)
    requires i <= |src|
    requires ExpectP(src, sk, i, "(").r.Failure?
    requires PIdentifier(src, sk, i).r.Success?
    requires ExpectP(src, sk, PIdentifier(src, sk, i).next, ":").r.Success?
    requires PModified(src, sk, ExpectP(src, sk, PIdentifier(src, sk, i).next, ":").next).r.Success?
    ensures PRuleMatch(src, sk, i).r.Success? && PRuleMatch(src, sk, i).r.value.LabelledRuleExpression?
    ensures PRuleMatch(src, sk, i).r.value.name == PIdentifier(src, sk, i).r.value
  {
  }

  /** The empty source is the empty grammar. */
  lemma EmptySourceIsEmptyGrammar()
    ensures ParseGrammar("") == Parsed(Success(Grammar([])), 0)
  {
    assert NextChar("", Whitespace, 0, true) == Taken(EOF, 0);
    assert PIdentifier("", Whitespace, 0).r.Failure?;
  }
}
