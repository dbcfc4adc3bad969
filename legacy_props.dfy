/** What the legacy combinators promise, proved of the semantics in
    `Legacy`. */
module LegacyProperties {
  import opened Base
  import opened Cursor
  import RuleBuilders
  import Ast
  import opened Parsers
  import opened Legacy

  /** A charset item holding a single quote is printed in double quotes, as
      `repr` prints it: `str(["'", "a"])` is `["'", 'a']`. */
  lemma QuotedUsesRepr()
    ensures CollectionText(ListKind, ["'", "a"]) == "[\"'\", 'a']"
    ensures Quoted(["\n"]) == ["'\\n'"]
  {
    ReprSamples();
    QuotedIsRepr(["'", "a"]);
    QuotedIsRepr(["\n"]);
    var q := ["\"'\"", "'a'"];
    assert Quoted(["'", "a"]) == q;
    JoinPair(q);
  }

  lemma JoinPair(q: seq<string>)
    requires q == ["\"'\"", "'a'"]
    ensures Join(", ", q) == "\"'\", 'a'"
  {
    assert q[1..] == ["'a'"];
  }

  lemma ReprSamples()
    ensures Ast.StrRepr("'") == "\"'\""
    ensures Ast.StrRepr("a") == "'a'"
    ensures Ast.StrRepr("\n") == "'\\n'"
  {
    assert Ast.Escaped("'", '"') == "'";
    assert Ast.Escaped("a", '\'') == "a";
    assert Ast.Escaped("\n", '\'') == "\\n";
    assert '\'' in "'" && '"' !in "'";
  }

  /** `|` never builds a rule: `generateOr` returns `None`, and `Rule(None)`
      has no `__name__` to read. */
  lemma OrAlwaysFails(a: Rule, other: Obj)
    ensures OrOp(a, other).Failure? && ROrOp(a, other).Failure?
    ensures other.OCallable? ==> OrOp(a, other) == Failure(NoName(ONone)) && ROrOp(a, other) == Failure(NoName(ONone))
  {
  }

  /** `a & other` builds the pair rule named `_` with `a` first; a `Rule`
      operand is used as it is, a callable is wrapped under its own name,
      anything else cannot be wrapped. The reflected form puts the wrapped
      operand first. */
  lemma AndOperands(a: Rule, other: Obj)
    ensures AndOp(a, other).Success? <==> other.OCallable?
    ensures RAndOp(a, other).Success? <==> other.OCallable?
    ensures other.OCallable? ==>
      var b := if other.c.RuleObject? then other.c.rule else Rule(other, NameOf(other.c));
      AndOp(a, other) == Success(Rule(OCallable(AndRule(a, b)), "_"))
    ensures other.OCallable? ==>
      RAndOp(a, other) == Success(Rule(OCallable(AndRule(Rule(other, NameOf(other.c)), a)), "_"))
  {
  }

  /** The pair parser returns `[first, second]` when both rules succeed one
      after the other; when either does not, the buffer is back where it
      started. */
  lemma AndRunsBoth(e: Env, inp: Input, r1: Rule, r2: Rule, i: nat)
    requires EnvOk(e, |inp.src|) && i <= |inp.src|
    ensures var s := Call(e, inp, AndRule(r1, r2), i);
      var t1 := Run(e, inp, r1.parser, i);
      (s.out.LOk? <==> t1.out.LOk? && Run(e, inp, r2.parser, t1.next).out.LOk?)
      && (s.out.LOk? ==>
            s.out.value == List([t1.out.value, Run(e, inp, r2.parser, t1.next).out.value])
            && s.next == Run(e, inp, r2.parser, t1.next).next)
      && (!s.out.LOk? ==> s.next == i && (s.out == t1.out || s.out == Run(e, inp, r2.parser, t1.next).out))
  {
  }

  /** The literal expecter of this layer and the `Literal` rule of the newer
      one do the same: same outcome, same message, same index. */
  lemma LiteralAgrees(e: Env, inp: Input, lit: string, m: RuleBuilders.Meta, i: nat)
    requires EnvOk(e, |inp.src|) && i <= |inp.src|
    ensures var s := Call(e, inp, LiteralExpecter(lit), i);
      var n := Raw(e, inp, RuleBuilders.Node(RuleBuilders.Literal(lit), m), i);
      s.next == n.next
      && (s.out.LOk? <==> n.out.Ok?) && (s.out.LOk? ==> s.out.value == n.out.value)
      && (s.out.LFail? <==> n.out.Fail?) && (s.out.LFail? ==> s.out.msg == n.out.msg)
  {
  }

  /** The charset expecter accepts exactly what the newer `Charset` rule
      accepts, returns the same character and stops at the same index; only
      the failure message is worded differently. */
  lemma CharsetAgrees(e: Env, inp: Input, kind: CollKind, items: seq<string>, name: Option<string>, m: RuleBuilders.Meta, i: nat)
    requires EnvOk(e, |inp.src|) && i <= |inp.src|
    ensures var s := Call(e, inp, CharsetExpecter(kind, items, name), i);
      var n := Raw(e, inp, RuleBuilders.Node(RuleBuilders.Charset(items), m), i);
      s.next == n.next
      && (s.out.LOk? <==> n.out.Ok?) && (s.out.LOk? ==> s.out.value == n.out.value)
      && (s.out.LFail? <==> n.out.Fail?)
  {
  }

  /** A charset expecter with a truthy name reports that name on failure. */
  lemma CharsetReportsName(e: Env, inp: Input, kind: CollKind, items: seq<string>, name: string, i: nat)
    requires EnvOk(e, |inp.src|) && i <= |inp.src| && name != ""
    ensures var s := Call(e, inp, CharsetExpecter(kind, items, Some(name)), i);
      var got := FetchText(inp.src, inp.skip, i, 1, Skip).text;
      s.out.LFail? ==> s.out.msg == CryAt(inp.src, i, "expected " + name + ", got '" + got + "'")
  {
  }

  /** The optional parser never raises a `ParseException`: a failing inner
      rule gives `None`. */
  lemma OptionalNeverFails(e: Env, inp: Input, r: Rule, i: nat)
    requires EnvOk(e, |inp.src|) && i <= |inp.src|
    ensures !Call(e, inp, OptionalRule(r), i).out.LFail?
    ensures Run(e, inp, r.parser, i).out.LFail? ==>
      Call(e, inp, OptionalRule(r), i) == LStep(LOk(NoneVal), Run(e, inp, r.parser, i).next)
    ensures Run(e, inp, r.parser, i).out.LOk? ==> Call(e, inp, OptionalRule(r), i) == Run(e, inp, r.parser, i)
  {
  }

  /** The repetition loop returns a list that begins with what was collected
      before, is non-empty when at least one match is demanded, and fails
      only when one is demanded and none was found; whenever it does not
      return, the buffer is back at the loop's start. */
  lemma {:induction false} RepShape(e: Env, inp: Input, r: Rule, j: nat, acc: seq<Value>, i: nat, atLeastOne: bool)
    requires EnvOk(e, |inp.src|) && i <= j <= |inp.src|
    ensures var s := Repeat(e, inp, r, j, acc, i, atLeastOne);
      (s.out.LOk? ==> s.out.value.List? && acc <= s.out.value.items
                      && (atLeastOne ==> |s.out.value.items| > 0 || |acc| > 0))
      && (s.out.LFail? ==> atLeastOne && |acc| == 0)
      && (!s.out.LOk? ==> s.next == i)
    decreases |inp.src| - j
  {
    var t := Run(e, inp, r.parser, j);
    if t.out.LOk? && t.next != j {
      RepShape(e, inp, r, t.next, acc + [t.out.value], i, atLeastOne);
    }
  }

  /** `<name>+` returns a non-empty list or fails, restoring the buffer. */
  lemma MultipleNonEmptyOrFails(e: Env, inp: Input, r: Rule, i: nat)
    requires EnvOk(e, |inp.src|) && i <= |inp.src|
    ensures var s := Call(e, inp, MultipleRule(r), i);
      (s.out.LOk? ==> s.out.value.List? && |s.out.value.items| > 0)
      && (!s.out.LOk? ==> s.next == i)
  {
    RepShape(e, inp, r, i, [], i, true);
  }

  /** `<name>*` never raises a `ParseException`; it returns a list, possibly
      empty. */
  lemma SomeOrNoneNeverFails(e: Env, inp: Input, r: Rule, i: nat)
    requires EnvOk(e, |inp.src|) && i <= |inp.src|
    ensures var s := Call(e, inp, SomeOrNoneRule(r), i);
      !s.out.LFail? && (s.out.LOk? ==> s.out.value.List?)
  {
    RepShape(e, inp, r, i, [], i, false);
  }

  /** The flags `optional` and `multiple` are recognised by presence: their
      values make no difference. */
  lemma FlagValuesIgnored(obj: Obj, kw: Kwargs, v: Option<string>, w: Option<string>)
    ensures MakeRule(obj, kw["optional" := v]) == MakeRule(obj, kw["optional" := w])
    ensures MakeRule(obj, kw["multiple" := v]) == MakeRule(obj, kw["multiple" := w])
  {
    assert kw["optional" := v] - {"optional", "multiple"} == kw["optional" := w] - {"optional", "multiple"};
    assert kw["optional" := v] - {"optional"} == kw["optional" := w] - {"optional"};
    assert kw["multiple" := v] - {"optional", "multiple"} == kw["multiple" := w] - {"optional", "multiple"};
    assert kw["multiple" := v] - {"multiple"} == kw["multiple" := w] - {"multiple"};
  }

  /** The name suffix the flags add: `*` for both, `+` for `multiple`, `?`
      for `optional`. */
  function Suffix(kw: Kwargs): string {
    if "optional" in kw && "multiple" in kw then "*"
    else if "multiple" in kw then "+"
    else if "optional" in kw then "?"
    else ""
  }

  /** Without flags, `makeRule` returns a `Rule` object or raises. */
  lemma PlainIsRule(obj: Obj, kw: Kwargs)
    requires "optional" !in kw && "multiple" !in kw
    ensures MakeRule(obj, kw).Success? ==> MakeRule(obj, kw).value.OCallable? && MakeRule(obj, kw).value.c.RuleObject?
  {
  }

  /** With flags, `makeRule` builds the rule without them and wraps it once
      in the generator the flags select, whose name is the inner rule's name
      with the flags' suffix; it fails exactly when the inner rule does. */
  lemma FlagsWrapOnce(obj: Obj, kw: Kwargs)
    ensures var r := MakeRule(obj, kw);
      var inner := MakeRule(obj, kw - {"optional", "multiple"});
      (r.Success? <==> inner.Success?)
      && (r.Success? ==> r.value.OCallable? && NameOf(r.value.c) == NameOf(inner.value.c) + Suffix(kw))
      && (r.Failure? ==> r == inner)
  {
    var base := kw - {"optional", "multiple"};
    var inner := MakeRule(obj, base);
    PlainIsRule(obj, base);
    if "optional" in kw && "multiple" in kw {
      assert MakeRule(obj, kw) == WrapSomeOrNone(inner);
      WrapsRule(inner);
    } else if "multiple" in kw {
      assert kw - {"multiple"} == base;
      assert MakeRule(obj, kw) == WrapMultiple(inner);
      WrapsRule(inner);
    } else if "optional" in kw {
      assert kw - {"optional"} == base;
      assert MakeRule(obj, kw) == WrapOptional(inner);
      WrapsRule(inner);
    } else {
      assert kw == base;
      assert inner.Success? ==> NameOf(inner.value.c) + "" == NameOf(inner.value.c);
    }
  }

  /** Each generator wraps a `Rule` object once, adding its suffix to the
      name, and passes a failure through. */
  lemma WrapsRule(inner: Result<Obj>)
    requires inner.Success? ==> inner.value.OCallable? && inner.value.c.RuleObject?
    ensures inner.Success? ==>
      WrapOptional(inner).Success? && WrapOptional(inner).value.OCallable?
      && NameOf(WrapOptional(inner).value.c) == NameOf(inner.value.c) + "?"
    ensures inner.Success? ==>
      WrapMultiple(inner).Success? && WrapMultiple(inner).value.OCallable?
      && NameOf(WrapMultiple(inner).value.c) == NameOf(inner.value.c) + "+"
    ensures inner.Success? ==>
      WrapSomeOrNone(inner).Success? && WrapSomeOrNone(inner).value.OCallable?
      && NameOf(WrapSomeOrNone(inner).value.c) == NameOf(inner.value.c) + "*"
    ensures inner.Failure? ==> WrapOptional(inner) == inner && WrapMultiple(inner) == inner && WrapSomeOrNone(inner) == inner
  {
  }

  /** `makeRule` without flags: an existing `Rule` gives a new `Rule` with
      the same parser, a callable is wrapped as it is, a string becomes a
      literal expecter and a collection a charset expecter; any other object
      is rejected with `MalformedParserException`. */
  lemma MakeRuleDispatch(obj: Obj, kw: Kwargs)
    requires "optional" !in kw && "multiple" !in kw && kw.Keys <= {"name"}
    ensures var r := MakeRule(obj, kw);
      var name := GetKw(kw, "name");
      (obj.OCallable? && obj.c.RuleObject? ==> r.Success? == (Truthy(name) || obj.c.rule.parser.OCallable?))
      && (obj.OCallable? && !obj.c.RuleObject? ==> r.Success?)
      && (obj.OStr? ==> r == Success(OCallable(RuleObject(Rule(OCallable(LiteralExpecter(obj.s)),
                                                              if Truthy(name) then name.value else obj.s)))))
      && (obj.OCollection? ==> r.Success? && r.value.c.rule.parser == OCallable(CharsetExpecter(obj.kind, obj.items, name)))
      && (r.Success? && obj.OCallable? && obj.c.RuleObject? ==> r.value.c.rule.parser == obj.c.rule.parser)
      && (r.Success? && obj.OCallable? && !obj.c.RuleObject? ==> r.value.c.rule.parser == obj)
      && ((obj.ONone? || obj.OOther?) <==> r.Failure? && "MalformedParserException: " <= r.error)
  {
    assert kw.Keys - {"name"} == {};
    var r := MakeRule(obj, kw);
    if r.Failure? && !(obj.ONone? || obj.OOther?) {
      assert r.error[0] == 'A';
    }
  }
}
