/** The class `Parser` of laggard/grammar_parser.py: its methods drive the
    buffer it owns, and each is proved to return what the function of the
    same name in `GrammarSpec` gives and to leave the index where that
    function says, with the buffer's mark stack as it found it. A raised
    `ParseException` is a `Failure` result; `with self.buffer:` is
    `Enter` … `Exit`. */
module GrammarParsing {
  import opened Base
  import opened Cursor
  import opened Ast
  import opened Primitives
  import opened GrammarSpec

  class GrammarParser {
    const buffer: Buffer

    /** `Parser(source)`: a buffer over the source that skips blanks,
        newlines and tabs. */
    constructor(source: string)
      ensures fresh(buffer) && buffer.Valid()
      ensures buffer.source == source && buffer.skip == Whitespace
      ensures buffer.currentIndex == 0 && buffer.stack == []
    {
      buffer := new Buffer(source, Whitespace);
    }

    /** `parse`: rules until one fails; then the grammar when the buffer is at
        its end, and the failure otherwise. */
    method Parse() returns (r: Result<Ast>)
      requires buffer.Valid()
      modifies buffer
      ensures buffer.Valid() && buffer.stack == old(buffer.stack)
      ensures Parsed(r, buffer.currentIndex) == PRules(buffer.source, buffer.skip, old(buffer.currentIndex), [])
    {
      ghost var goal := PRules(buffer.source, buffer.skip, buffer.currentIndex, []);
      var retval: seq<Ast> := [];
      while true
        invariant buffer.Valid() && buffer.stack == old(buffer.stack)
        invariant PRules(buffer.source, buffer.skip, buffer.currentIndex, retval) == goal
        decreases |buffer.source| - buffer.currentIndex
      {
        var x := ParseRule();
        if x.Failure? {
          if buffer.IsEof() {
            return Success(Grammar(retval));
          }
          return Failure(x.error);
        }
        retval := retval + [x.value];
      }
    }

    /** `parse_rule`. */
    method ParseRule() returns (r: Result<Ast>)
      requires buffer.Valid()
      modifies buffer
      ensures buffer.Valid() && buffer.stack == old(buffer.stack)
      ensures Parsed(r, buffer.currentIndex) == PRule(buffer.source, buffer.skip, old(buffer.currentIndex))
    {
      buffer.Enter();
      var id := ParseIdentifier();
      if id.Failure? {
        buffer.Exit(true);
        return Failure(id.error);
      }
      var eq := Expect(buffer, "=");
      if eq.Failure? {
        buffer.Exit(true);
        return Failure(eq.error);
      }
      var rh := ParseRighthand();
      if rh.Failure? {
        buffer.Exit(true);
        return Failure(rh.error);
      }
      var semi := Expect(buffer, ";");
      if semi.Failure? {
        buffer.Exit(true);
        return Failure(semi.error);
      }
      buffer.Exit(false);
      return Success(Rule(id.value, rh.value));
    }

    /** `parse_righthand`. */
    method ParseRighthand() returns (r: Result<Ast>)
      requires buffer.Valid()
      modifies buffer
      ensures buffer.Valid() && buffer.stack == old(buffer.stack)
      ensures Parsed(r, buffer.currentIndex) == PRighthand(buffer.source, buffer.skip, old(buffer.currentIndex))
    {
      buffer.Enter();
      r := ParseChoice();
      buffer.Exit(r.Failure?);
    }

    /** `parse_choice`. */
    method ParseChoice() returns (r: Result<Ast>)
      requires buffer.Valid()
      modifies buffer
      ensures buffer.Valid() && buffer.stack == old(buffer.stack)
      ensures Parsed(r, buffer.currentIndex) == PChoice(buffer.source, buffer.skip, old(buffer.currentIndex))
      decreases |buffer.source| - buffer.currentIndex, 4
    {
      buffer.Enter();
      var x := ParseCombination();
      if x.Failure? {
        buffer.Exit(true);
        return Failure(x.error);
      }
      var y := ParseFragments();
      buffer.Exit(false);
      if y.Success? {
        return Success(Choice([x.value] + y.value));
      }
      return x;
    }

    /** `parseMultipleOf(self.buffer, self.parse_choice_fragment)`. */
    method ParseFragments() returns (r: Result<seq<Ast>>)
      requires buffer.Valid()
      modifies buffer
      ensures buffer.Valid() && buffer.stack == old(buffer.stack)
      ensures Parsed(r, buffer.currentIndex) ==
        PFragments(buffer.source, buffer.skip, old(buffer.currentIndex), [], old(buffer.currentIndex))
      decreases |buffer.source| - buffer.currentIndex, 1
    {
      var start := buffer.currentIndex;
      ghost var goal := PFragments(buffer.source, buffer.skip, start, [], start);
      buffer.Enter();
      var acc: seq<Ast> := [];
      while true
        invariant buffer.Valid() && buffer.stack == old(buffer.stack) + [start]
        invariant start <= buffer.currentIndex
        invariant PFragments(buffer.source, buffer.skip, buffer.currentIndex, acc, start) == goal
        decreases |buffer.source| - buffer.currentIndex
      {
        var t := ParseChoiceFragment();
        if t.Failure? {
          if |acc| == 0 {
            buffer.Exit(true);
            return Failure(t.error);
          }
          buffer.Exit(false);
          return Success(acc);
        }
        acc := acc + [t.value];
      }
    }

    /** `parse_choice_fragment`. */
    method ParseChoiceFragment() returns (r: Result<Ast>)
      requires buffer.Valid()
      modifies buffer
      ensures buffer.Valid() && buffer.stack == old(buffer.stack)
      ensures Parsed(r, buffer.currentIndex) == PChoiceFragment(buffer.source, buffer.skip, old(buffer.currentIndex))
      decreases |buffer.source| - buffer.currentIndex, 0
    {
      buffer.Enter();
      var bar := Expect(buffer, "|");
      if bar.Failure? {
        buffer.Exit(true);
        return Failure(bar.error);
      }
      r := ParseCombination();
      buffer.Exit(r.Failure?);
    }

    /** `parse_combination`. */
    method ParseCombination() returns (r: Result<Ast>)
      requires buffer.Valid()
      modifies buffer
      ensures buffer.Valid() && buffer.stack == old(buffer.stack)
      ensures Parsed(r, buffer.currentIndex) == PCombination(buffer.source, buffer.skip, old(buffer.currentIndex))
      decreases |buffer.source| - buffer.currentIndex, 3
    {
      buffer.Enter();
      var x := ParseModified();
      if x.Failure? {
        buffer.Exit(true);
        return Failure(x.error);
      }
      var y := ParseElements();
      buffer.Exit(false);
      if y.Success? {
        return Success(Combined([x.value] + y.value));
      }
      return x;
    }

    /** `parseMultipleOf(self.buffer, self.parse_modified_rule_expression)`. */
    method ParseElements() returns (r: Result<seq<Ast>>)
      requires buffer.Valid()
      modifies buffer
      ensures buffer.Valid() && buffer.stack == old(buffer.stack)
      ensures Parsed(r, buffer.currentIndex) ==
        PElements(buffer.source, buffer.skip, old(buffer.currentIndex), [], old(buffer.currentIndex))
      decreases |buffer.source| - buffer.currentIndex, 3
    {
      var start := buffer.currentIndex;
      ghost var goal := PElements(buffer.source, buffer.skip, start, [], start);
      buffer.Enter();
      var acc: seq<Ast> := [];
      while true
        invariant buffer.Valid() && buffer.stack == old(buffer.stack) + [start]
        invariant start <= buffer.currentIndex
        invariant PElements(buffer.source, buffer.skip, buffer.currentIndex, acc, start) == goal
        decreases |buffer.source| - buffer.currentIndex
      {
        var t := ParseModified();
        if t.Failure? {
          if |acc| == 0 {
            buffer.Exit(true);
            return Failure(t.error);
          }
          buffer.Exit(false);
          return Success(acc);
        }
        acc := acc + [t.value];
      }
    }

    /** `parse_modified_rule_expression`. */
    method ParseModified() returns (r: Result<Ast>)
      requires buffer.Valid()
      modifies buffer
      ensures buffer.Valid() && buffer.stack == old(buffer.stack)
      ensures Parsed(r, buffer.currentIndex) == PModified(buffer.source, buffer.skip, old(buffer.currentIndex))
      decreases |buffer.source| - buffer.currentIndex, 2
    {
      buffer.Enter();
      var expr := ParseRuleMatch();
      if expr.Failure? {
        buffer.Exit(true);
        return Failure(expr.error);
      }
      var sym := ExpectOneOf(buffer, Modifiers, false);
      buffer.Exit(false);
      if sym.Success? {
        return Success(ModifiedRuleExpression(expr.value, sym.value));
      }
      return expr;
    }

    /** `parse_rule_match_expression`: the `try` part; the `except` part is
        `Fallback`, run inside the same `with` block. */
    method ParseRuleMatch() returns (r: Result<Ast>)
      requires buffer.Valid()
      modifies buffer
      ensures buffer.Valid() && buffer.stack == old(buffer.stack)
      ensures Parsed(r, buffer.currentIndex) == PRuleMatch(buffer.source, buffer.skip, old(buffer.currentIndex))
      decreases |buffer.source| - buffer.currentIndex, 1
    {
      var i := buffer.currentIndex;
      buffer.Enter();
      var open := Expect(buffer, "(");
      if open.Success? {
        var x := ParseChoice();
        if x.Success? {
          var close := Expect(buffer, ")");
          if close.Success? {
            buffer.Exit(false);
            return x;
          }
        }
      }
      r := Fallback(i);
      buffer.Exit(r.Failure?);
    }

    /** The `except ParseException` branch of `parse_rule_match_expression`,
        run from wherever the `try` part left the buffer, inside the `with`
        block entered at `i`. A failure here propagates to that block, which
        restores `i`. */
    method Fallback(ghost i: nat) returns (r: Result<Ast>)
      requires buffer.Valid() && i <= buffer.currentIndex
      modifies buffer
      ensures buffer.Valid() && buffer.stack == old(buffer.stack)
      ensures r == PFallback(buffer.source, buffer.skip, i, old(buffer.currentIndex)).r
      ensures r.Success? ==> buffer.currentIndex == PFallback(buffer.source, buffer.skip, i, old(buffer.currentIndex)).next
      decreases |buffer.source| - i, 0
    {
      var name := ParseIdentifier();
      if name.Success? {
        var colon := Expect(buffer, ":");
        if colon.Failure? {
          return name;
        }
        var expr := ParseModified();
        if expr.Success? {
          return Success(LabelledRuleExpression(name.value, expr.value));
        }
        return name;
      }
      r := ParseString();
    }

    /** `parse_identifier`: no `with` block of its own. */
    method ParseIdentifier() returns (r: Result<Ast>)
      requires buffer.Valid()
      modifies buffer
      ensures buffer.Valid() && buffer.stack == old(buffer.stack)
      ensures Parsed(r, buffer.currentIndex) == PIdentifier(buffer.source, buffer.skip, old(buffer.currentIndex))
    {
      var id := ExpectManyOutOf(buffer, IdentChars());
      if id.Failure? {
        return Failure(id.error);
      }
      IdentCharsMembers(id.value);
      return Success(Identifier(id.value));
    }

    /** `parse_string`. */
    method ParseString() returns (r: Result<Ast>)
      requires buffer.Valid()
      modifies buffer
      ensures buffer.Valid() && buffer.stack == old(buffer.stack)
      ensures Parsed(r, buffer.currentIndex) == PString(buffer.source, buffer.skip, old(buffer.currentIndex))
    {
      buffer.Enter();
      var x := ExpectOneOf(buffer, Quotes, true);
      if x.Failure? {
        buffer.Exit(true);
        return Failure(x.error);
      }
      var s := ParseUntil(buffer, [x.value]);
      if s.Failure? {
        buffer.Exit(true);
        return Failure(s.error);
      }
      buffer.Exit(false);
      return Success(Literal(s.value));
    }
  }

  /** `Parser(source).parse()`: the grammar read from the whole source, or
      the `ParseException` that stopped it. */
  method ParseSource(source: string) returns (r: Result<Ast>)
    ensures r == ParseGrammar(source).r
  {
    var p := new GrammarParser(source);
    r := p.Parse();
  }
}
