/** What the parsers promise, proved of the semantics in `Parsers`. */
module ParserProperties {
  import opened Base
  import opened Cursor
  import opened RuleBuilders
  import opened Helpers
  import opened Parsers

  /** A literal compares the next `len(literal)` fetched characters (skip-set
      honoured) with itself: on a match it returns the literal and moves past
      them, otherwise it fails at the index it started from. */
  lemma LiteralParser(e: Env, inp: Input, lit: string, m: Meta, i: nat)
    requires EnvOk(e, |inp.src|) && i <= |inp.src|
    ensures var t := FetchText(inp.src, inp.skip, i, |lit|, Skip);
      var s := Raw(e, inp, Node(Literal(lit), m), i);
      (s.out.Ok? <==> t.text == lit)
      && (s.out.Ok? ==> s == Step(Ok(Str(lit)), t.next))
      && (!s.out.Ok? ==> s.out.Fail? && s.next == i)
  {
  }

  /** Text equal to the literal, with none of its characters in the
      skip-set, is consumed exactly. */
  lemma LiteralMatchesText(e: Env, inp: Input, lit: string, m: Meta, i: nat)
    requires EnvOk(e, |inp.src|) && i + |lit| <= |inp.src|
    requires inp.src[i..i + |lit|] == lit
    requires forall j :: 0 <= j < |lit| ==> lit[j] !in inp.skip
    ensures Raw(e, inp, Node(Literal(lit), m), i) == Step(Ok(Str(lit)), i + |lit|)
  {
    forall j | i <= j < i + |lit| ensures inp.src[j] !in inp.skip {
      assert inp.src[j] == lit[j - i];
    }
    FetchSkipIsSliceWhenClean(inp.src, inp.skip, i, |lit|);
  }

  /** A charset fetches one character, skip-set honoured, and returns it when
      it is one of the charset's strings; otherwise it fails where it began. */
  lemma CharsetParser(e: Env, inp: Input, items: seq<string>, m: Meta, i: nat)
    requires EnvOk(e, |inp.src|) && i <= |inp.src|
    ensures var c := NextChar(inp.src, inp.skip, i, true);
      var s := Raw(e, inp, Node(Charset(items), m), i);
      (s.out.Ok? <==> c.text in items)
      && (s.out.Ok? ==> s == Step(Ok(Str(c.text)), c.next))
      && (!s.out.Ok? ==> s.out.Fail? && s.next == i)
  {
    var c := NextChar(inp.src, inp.skip, i, true);
    var rest := FetchRun(inp.src, inp.skip, c.next, 0, true);
    assert FetchRun(inp.src, inp.skip, i, 1, true) == Taken(c.text + rest.text, rest.next);
    assert c.text + "" == c.text;
  }

  /** A charset that lists "[EOF]" accepts the end of the input. */
  lemma CharsetAcceptsEof(e: Env, inp: Input, items: seq<string>, m: Meta)
    requires EnvOk(e, |inp.src|) && EOF in items
    ensures Raw(e, inp, Node(Charset(items), m), |inp.src|) == Step(Ok(Str(EOF)), |inp.src|)
  {
    CharsetParser(e, inp, items, m, |inp.src|);
  }

  /** The raw parser of a `FunctionalRuleBuilder` is its function. */
  lemma FunctionalIsItsFunction(e: Env, inp: Input, id: LeafId, m: Meta, i: nat)
    requires EnvOk(e, |inp.src|) && i <= |inp.src|
    ensures Raw(e, inp, Node(Functional(id), m), i) == e.leaf(id, i)
    ensures m.transformer.None? ==> Complete(e, inp, Node(Functional(id), m), i) == e.leaf(id, i)
  {
  }

  /** The complete parser applies the transformer to a success and passes
      every other outcome through; either way the buffer is left where the
      raw parser left it. */
  lemma CompleteAppliesTransformer(e: Env, inp: Input, n: Node, i: nat)
    requires EnvOk(e, |inp.src|) && i <= |inp.src|
    ensures var raw := Raw(e, inp, Flatten(n), i);
      var s := Complete(e, inp, n, i);
      s.next == raw.next
      && (raw.out.Ok? && n.meta.transformer.Some? ==>
            s.out == e.transform(n.meta.transformer.value, raw.out.value))
      && (!raw.out.Ok? || n.meta.transformer.None? ==> s == raw)
  {
  }

  /** A transformer that raises makes the rule fail, and the failure is
      reported at the index the successful raw parse reached, not at the
      index the rule was entered at. */
  lemma TransformerFailureKeepsIndex(e: Env, inp: Input, n: Node, i: nat)
    requires EnvOk(e, |inp.src|) && i <= |inp.src|
    requires n.meta.transformer.Some?
    requires Raw(e, inp, Flatten(n), i).out.Ok?
    requires e.transform(n.meta.transformer.value, Raw(e, inp, Flatten(n), i).out.value).Fail?
    ensures Complete(e, inp, n, i).out.Fail?
    ensures Complete(e, inp, n, i).next == Raw(e, inp, Flatten(n), i).next
  {
  }

  /** The literal `"ab"` with a transformer that raises, on the text `"ab"`:
      the rule fails with the buffer moved past both characters. */
  lemma RaisingTransformerAdvances(e: Env, t: TransformerId)
    requires EnvOk(e, 2) && e.transform(t, Str("ab")).Fail?
    ensures var n := Node(Literal("ab"), Meta(None, None, Some(t)));
      Complete(e, Input("ab", []), n, 0) == Step(e.transform(t, Str("ab")), 2)
  {
    var n := Node(Literal("ab"), Meta(None, None, Some(t)));
    assert Flatten(n) == n;
    LiteralMatchesText(e, Input("ab", []), "ab", n.meta, 0);
  }

  /** An option never fails: it returns the inner result, or `None` when the
      inner rule fails. */
  lemma OptionalNeverFails(e: Env, inp: Input, r: Node, m: Meta, i: nat)
    requires EnvOk(e, |inp.src|) && i <= |inp.src|
    ensures var inner := Complete(e, inp, r, i);
      var s := Raw(e, inp, Node(Optional(r), m), i);
      !s.out.Fail?
      && (inner.out.Ok? ==> s == inner)
      && (inner.out.Fail? ==> s == Step(Ok(NoneVal), inner.next))
  {
  }

  /** The repetition loop keeps what it has collected, in order, and fails
      only for a one-or-more loop that has collected nothing, at its entry.
      A success is a list that extends what was collected. */
  lemma {:induction false} RepShape(e: Env, inp: Input, r: Node, j: nat, acc: seq<Value>, i: nat, one: bool)
    requires EnvOk(e, |inp.src|) && i <= j <= |inp.src|
    ensures var s := Rep(e, inp, r, j, acc, i, one);
      (s.out.Fail? ==> one && |acc| == 0 && Complete(e, inp, r, j).out.Fail?)
      && (!s.out.Ok? ==> s.next == i)
      && (s.out.Ok? ==> s.out.value.List? && acc <= s.out.value.items
                        && (one ==> |s.out.value.items| >= 1))
    decreases |inp.src| - j
  {
    var t := Complete(e, inp, r, j);
    if t.out.Ok? && t.next != j {
      RepShape(e, inp, r, t.next, acc + [t.out.value], i, one);
    }
  }

  /** The inner rule run again and again, each attempt from where the one
      before it stopped, up to and including the first attempt that does not
      succeed or does not move. */
  function RepeatRuns(e: Env, inp: Input, r: Node, j: nat): (rs: seq<Step>)
    requires EnvOk(e, |inp.src|) && j <= |inp.src|
    ensures |rs| >= 1
    decreases |inp.src| - j
  {
    var t := Complete(e, inp, r, j);
    if t.out.Ok? && t.next != j then [t] + RepeatRuns(e, inp, r, t.next) else [t]
  }

  /** In `RepeatRuns`, the first attempt starts at `j` and attempt `x` where
      attempt `x - 1` stopped, and every attempt but the last succeeded and
      moved the index forward. */
  lemma {:induction false} RepeatRunsChain(e: Env, inp: Input, r: Node, j: nat)
    requires EnvOk(e, |inp.src|) && j <= |inp.src|
    ensures var rs := RepeatRuns(e, inp, r, j);
      forall x :: 0 <= x < |rs| ==> j <= rs[x].next <= |inp.src|
    ensures var rs := RepeatRuns(e, inp, r, j);
      rs[0] == Complete(e, inp, r, j) && (|rs| > 1 ==> rs[0].next > j)
    ensures var rs := RepeatRuns(e, inp, r, j);
      forall x :: 0 < x < |rs| ==> rs[x] == Complete(e, inp, r, rs[x - 1].next)
    ensures var rs := RepeatRuns(e, inp, r, j);
      forall x :: 0 < x < |rs| - 1 ==> rs[x].next > rs[x - 1].next
    ensures var rs := RepeatRuns(e, inp, r, j);
      forall x :: 0 <= x < |rs| - 1 ==> rs[x].out.Ok?
    decreases |inp.src| - j
  {
    var rs := RepeatRuns(e, inp, r, j);
    var t := Complete(e, inp, r, j);
    if t.out.Ok? && t.next != j {
      var tail := RepeatRuns(e, inp, r, t.next);
      RepeatRunsChain(e, inp, r, t.next);
      assert rs == [t] + tail;
      assert forall x :: 0 < x < |rs| ==> rs[x] == tail[x - 1];
    }
  }

  /** The repetition loop, now at `j` with `acc` collected, succeeds exactly
      when its last attempt raises a `ParseException` and something is
      collected or none is demanded; the list is then `acc` followed by the
      results of the attempts before the last, and the buffer is left where
      the failing attempt left it. Otherwise it reports back at the entry
      index: that failure, the exception the last attempt raised, or a loop
      that never returns when the last attempt succeeded without moving. */
  lemma {:induction false} RepRuns(e: Env, inp: Input, r: Node, j: nat, acc: seq<Value>, i: nat, one: bool)
    requires EnvOk(e, |inp.src|) && i <= j <= |inp.src|
    ensures var s := Rep(e, inp, r, j, acc, i, one);
      var rs := RepeatRuns(e, inp, r, j);
      var last := rs[|rs| - 1];
      (s.out.Ok? <==> last.out.Fail? && !(one && |acc| + |rs| == 1))
      && (s.out.Ok? ==>
            s.out.value.List?
            && |s.out.value.items| == |acc| + |rs| - 1
            && s.out.value.items[..|acc|] == acc
            && (forall x :: 0 <= x < |rs| - 1 ==> rs[x].out.Ok? && s.out.value.items[|acc| + x] == rs[x].out.value)
            && s.next == last.next)
      && (!s.out.Ok? ==> s == Step(if last.out.Ok? then Diverge else last.out, i))
    decreases |inp.src| - j
  {
    var rs := RepeatRuns(e, inp, r, j);
    var t := Complete(e, inp, r, j);
    if t.out.Ok? && t.next != j {
      var acc' := acc + [t.out.value];
      var tail := RepeatRuns(e, inp, r, t.next);
      RepRuns(e, inp, r, t.next, acc', i, one);
      assert rs == [t] + tail;
      assert rs[|rs| - 1] == tail[|tail| - 1];
      var s := Rep(e, inp, r, j, acc, i, one);
      assert s == Rep(e, inp, r, t.next, acc', i, one);
      if s.out.Ok? {
        var items := s.out.value.items;
        assert items[..|acc|] == items[..|acc'|][..|acc|];
        forall x | 0 <= x < |rs| - 1 ensures rs[x].out.Ok? && items[|acc| + x] == rs[x].out.value {
          if x == 0 {
            assert items[|acc|] == items[..|acc'|][|acc|] == acc'[|acc|];
          } else {
            assert rs[x] == tail[x - 1];
            assert items[|acc| + x] == items[|acc'| + (x - 1)];
          }
        }
      }
    } else {
      assert rs == [t];
    }
  }

  /** One-or-more and zero-or-more, in terms of their attempts: item `x` of
      the list is the result of attempt `x`, which started where attempt
      `x - 1` stopped (`RepeatRunsChain`). */
  lemma RepetitionCollectsRuns(e: Env, inp: Input, r: Node, m: Meta, i: nat, one: bool)
    requires EnvOk(e, |inp.src|) && i <= |inp.src|
    ensures var s := Raw(e, inp, Node(if one then Multiple(r) else SomeOrNone(r), m), i);
      var rs := RepeatRuns(e, inp, r, i);
      var last := rs[|rs| - 1];
      (s.out.Ok? <==> last.out.Fail? && !(one && |rs| == 1))
      && (s.out.Ok? ==>
            s.out.value.List?
            && |s.out.value.items| == |rs| - 1
            && (forall x :: 0 <= x < |rs| - 1 ==> rs[x].out.Ok? && s.out.value.items[x] == rs[x].out.value)
            && s.next == last.next)
      && (!s.out.Ok? ==> s == Step(if last.out.Ok? then Diverge else last.out, i))
  {
    RepRuns(e, inp, r, i, [], i, one);
  }

  /** One-or-more: a non-empty list, or a failure at the entry index exactly
      when the first attempt fails. */
  lemma MultipleNonEmptyOrFails(e: Env, inp: Input, r: Node, m: Meta, i: nat)
    requires EnvOk(e, |inp.src|) && i <= |inp.src|
    ensures var s := Raw(e, inp, Node(Multiple(r), m), i);
      (s.out.Fail? <==> Complete(e, inp, r, i).out.Fail?)
      && (s.out.Fail? ==> s.next == i)
      && (s.out.Ok? ==> s.out.value.List? && |s.out.value.items| >= 1
                        && Complete(e, inp, r, i).out.Ok?
                        && s.out.value.items[0] == Complete(e, inp, r, i).out.value)
  {
    var t := Complete(e, inp, r, i);
    RepShape(e, inp, r, i, [], i, true);
    if t.out.Ok? && t.next != i {
      RepShape(e, inp, r, t.next, [t.out.value], i, true);
      assert [] + [t.out.value] == [t.out.value];
    }
  }

  /** Zero-or-more never fails; it yields a list whose first element, if any,
      is the first attempt's result. */
  lemma SomeOrNoneNeverFails(e: Env, inp: Input, r: Node, m: Meta, i: nat)
    requires EnvOk(e, |inp.src|) && i <= |inp.src|
    ensures var s := Raw(e, inp, Node(SomeOrNone(r), m), i);
      !s.out.Fail?
      && (s.out.Ok? ==> s.out.value.List?)
      && (Complete(e, inp, r, i).out.Fail? ==> s == Step(Ok(List([])), Complete(e, inp, r, i).next))
      && (s.out.Ok? && |s.out.value.items| > 0 ==>
            Complete(e, inp, r, i).out.Ok? && s.out.value.items[0] == Complete(e, inp, r, i).out.value)
  {
    var t := Complete(e, inp, r, i);
    RepShape(e, inp, r, i, [], i, false);
    if t.out.Ok? && t.next != i {
      RepShape(e, inp, r, t.next, [t.out.value], i, false);
      assert [] + [t.out.value] == [t.out.value];
    }
  }

  /** A repetition whose inner rule succeeds without consuming input never
      returns. */
  lemma ZeroWidthRepetitionDiverges(e: Env, inp: Input, r: Node, i: nat, one: bool)
    requires EnvOk(e, |inp.src|) && i <= |inp.src|
    requires Complete(e, inp, r, i).out.Ok? && Complete(e, inp, r, i).next == i
    ensures Raw(e, inp, Node(if one then Multiple(r) else SomeOrNone(r), Fresh(NoKwargs)), i).out == Diverge
  {
  }

  /** A failing choice is restored to its entry index. */
  lemma {:induction false} ChoiceFromFailRestores(e: Env, inp: Input, alts: seq<Node>, k: nat, j: nat, i: nat)
    requires EnvOk(e, |inp.src|) && k < |alts| && i <= j <= |inp.src|
    ensures !ChoiceFrom(e, inp, alts, k, j, i).out.Ok? ==> ChoiceFrom(e, inp, alts, k, j, i).next == i
    decreases |alts| - k
  {
    var t := Complete(e, inp, alts[k], j);
    if t.out.Fail? && k + 1 < |alts| {
      ChoiceFromFailRestores(e, inp, alts, k + 1, t.next, i);
    }
  }

  /** The first alternative that succeeds decides the choice, provided the
      ones before it fail without consuming input (every rule but a
      `FunctionalRuleBuilder` or one whose transformer raises does, by
      `FailureRestores`). */
  lemma {:induction false} ChoiceFirstSuccess(e: Env, inp: Input, alts: seq<Node>, k: nat, w: nat, i: nat)
    requires EnvOk(e, |inp.src|) && k <= w < |alts| && i <= |inp.src|
    requires forall x :: k <= x < w ==> Complete(e, inp, alts[x], i).out.Fail? && Complete(e, inp, alts[x], i).next == i
    requires Complete(e, inp, alts[w], i).out.Ok?
    ensures ChoiceFrom(e, inp, alts, k, i, i) == Complete(e, inp, alts[w], i)
    decreases w - k
  {
    var t := Complete(e, inp, alts[k], i);
    if k < w {
      assert t == Step(t.out, i) && t.out.Fail?;
      ChoiceFirstSuccess(e, inp, alts, k + 1, w, i);
      assert ChoiceFrom(e, inp, alts, k, i, i) == ChoiceFrom(e, inp, alts, k + 1, i, i);
    } else {
      assert t.out.Ok?;
    }
  }

  /** When every alternative fails without consuming input, the choice fails
      with the last alternative's message, restored to its entry. */
  lemma {:induction false} ChoiceAllFail(e: Env, inp: Input, alts: seq<Node>, k: nat, i: nat)
    requires EnvOk(e, |inp.src|) && k < |alts| && i <= |inp.src|
    requires forall x :: k <= x < |alts| ==> Complete(e, inp, alts[x], i).out.Fail? && Complete(e, inp, alts[x], i).next == i
    ensures ChoiceFrom(e, inp, alts, k, i, i) == Step(Complete(e, inp, alts[|alts| - 1], i).out, i)
    decreases |alts| - k
  {
    if k + 1 < |alts| {
      ChoiceAllFail(e, inp, alts, k + 1, i);
    }
  }

  /** The choice node itself: the first success in list order wins. */
  lemma ChoiceTriesInOrder(e: Env, inp: Input, alts: seq<Node>, m: Meta, w: nat, i: nat)
    requires EnvOk(e, |inp.src|) && w < |alts| && i <= |inp.src|
    requires forall x :: 0 <= x < w ==> Complete(e, inp, alts[x], i).out.Fail? && Complete(e, inp, alts[x], i).next == i
    requires Complete(e, inp, alts[w], i).out.Ok?
    ensures Raw(e, inp, Node(Choice(alts), m), i) == Complete(e, inp, alts[w], i)
  {
    ChoiceFirstSuccess(e, inp, alts, 0, w, i);
    assert alts[0..] == alts;
  }

  /** A sequence yields a tuple of all its parts' results, named by the parts'
      aliases, or fails back at its entry index. */
  lemma {:induction false} SeqFromShape(e: Env, inp: Input, parts: seq<Node>, k: nat, j: nat, acc: seq<Value>, i: nat)
    requires EnvOk(e, |inp.src|) && k <= |parts| && |acc| == k && i <= j <= |inp.src|
    ensures var s := SeqFrom(e, inp, parts, k, j, acc, i);
      (!s.out.Ok? ==> s.next == i)
      && (s.out.Ok? ==>
            s.out.value.Tuple?
            && |s.out.value.tuple.results| == |parts|
            && acc <= s.out.value.tuple.results
            && s.out.value.tuple.mappings == Mappings(Aliases(parts)))
    decreases |parts| - k
  {
    if k < |parts| {
      var t := Complete(e, inp, parts[k], j);
      if t.out.Ok? {
        SeqFromShape(e, inp, parts, k + 1, t.next, acc + [t.out.value], i);
      }
    }
  }

  /** The parts of a sequence run one after another, each from where the one
      before it stopped, up to and including the first that does not
      succeed. */
  function PartRuns(e: Env, inp: Input, parts: seq<Node>, j: nat): (rs: seq<Step>)
    requires EnvOk(e, |inp.src|) && j <= |inp.src|
    ensures |rs| <= |parts| && (|parts| > 0 ==> |rs| > 0)
    decreases |parts|
  {
    if |parts| == 0 then []
    else
      var t := Complete(e, inp, parts[0], j);
      if t.out.Ok? then [t] + PartRuns(e, inp, parts[1..], t.next) else [t]
  }

  /** In `PartRuns`, the first part runs from `j` and part `x` from where
      part `x - 1` stopped, and every run but the last succeeded. */
  lemma {:induction false} PartRunsChain(e: Env, inp: Input, parts: seq<Node>, j: nat)
    requires EnvOk(e, |inp.src|) && j <= |inp.src|
    ensures var rs := PartRuns(e, inp, parts, j);
      forall x :: 0 <= x < |rs| ==> j <= rs[x].next <= |inp.src|
    ensures var rs := PartRuns(e, inp, parts, j);
      |rs| > 0 ==> rs[0] == Complete(e, inp, parts[0], j)
    ensures var rs := PartRuns(e, inp, parts, j);
      forall x :: 0 < x < |rs| ==> rs[x] == Complete(e, inp, parts[x], rs[x - 1].next)
    ensures var rs := PartRuns(e, inp, parts, j);
      forall x :: 0 <= x < |rs| - 1 ==> rs[x].out.Ok?
    decreases |parts|
  {
    var rs := PartRuns(e, inp, parts, j);
    if |parts| > 0 {
      var t := Complete(e, inp, parts[0], j);
      if t.out.Ok? {
        var tail := PartRuns(e, inp, parts[1..], t.next);
        PartRunsChain(e, inp, parts[1..], t.next);
        assert rs == [t] + tail;
        assert forall x :: 0 < x < |rs| ==> rs[x] == tail[x - 1] && parts[x] == parts[1..][x - 1];
      }
    }
  }

  /** The sequence loop, from part `k` on, succeeds exactly when every part
      it runs succeeds; its tuple then holds the earlier results followed by
      those runs' results, and it stops where the last part stopped. A
      failure or any other exception is the first unsuccessful run's,
      reported back at the entry index. */
  lemma {:induction false} SeqFromRuns(e: Env, inp: Input, parts: seq<Node>, k: nat, j: nat, acc: seq<Value>, i: nat)
    requires EnvOk(e, |inp.src|) && k <= |parts| && |acc| == k && i <= j <= |inp.src|
    ensures var s := SeqFrom(e, inp, parts, k, j, acc, i);
      var rs := PartRuns(e, inp, parts[k..], j);
      (s.out.Ok? <==> |rs| == |parts| - k && forall x :: 0 <= x < |rs| ==> rs[x].out.Ok?)
      && (s.out.Ok? ==>
            s.out.value.Tuple?
            && |s.out.value.tuple.results| == |parts|
            && s.out.value.tuple.results[..k] == acc
            && (forall x :: 0 <= x < |rs| ==> s.out.value.tuple.results[k + x] == rs[x].out.value)
            && s.next == (if |rs| == 0 then j else rs[|rs| - 1].next))
      && (!s.out.Ok? ==> |rs| > 0 && s == Step(rs[|rs| - 1].out, i))
    decreases |parts| - k
  {
    var rs := PartRuns(e, inp, parts[k..], j);
    if k < |parts| {
      var t := Complete(e, inp, parts[k], j);
      assert parts[k..][0] == parts[k] && parts[k..][1..] == parts[k + 1..];
      if t.out.Ok? {
        var acc' := acc + [t.out.value];
        var tail := PartRuns(e, inp, parts[k + 1..], t.next);
        SeqFromRuns(e, inp, parts, k + 1, t.next, acc', i);
        assert rs == [t] + tail;
        var s := SeqFrom(e, inp, parts, k, j, acc, i);
        assert s == SeqFrom(e, inp, parts, k + 1, t.next, acc', i);
        PrependRuns(t, tail);
        if s.out.Ok? {
          PrependResults(s.out.value.tuple.results, acc, t, tail);
        }
      } else {
        assert rs == [t];
        assert !rs[0].out.Ok?;
      }
    } else {
      assert parts[k..] == [];
    }
  }

  lemma PrependRuns(t: Step, tail: seq<Step>)
    requires t.out.Ok?
    ensures var rs := [t] + tail;
      ((forall x :: 0 <= x < |rs| ==> rs[x].out.Ok?) <==> (forall x :: 0 <= x < |tail| ==> tail[x].out.Ok?))
      && (|tail| > 0 ==> rs[|rs| - 1] == tail[|tail| - 1])
  {
    var rs := [t] + tail;
    assert forall x :: 0 < x < |rs| ==> rs[x] == tail[x - 1];
    assert forall x :: 0 <= x < |tail| ==> tail[x] == rs[x + 1];
  }

  lemma PrependResults(res: seq<Value>, acc: seq<Value>, t: Step, tail: seq<Step>)
    requires t.out.Ok? && |acc| + 1 + |tail| <= |res|
    requires res[..|acc| + 1] == acc + [t.out.value]
    requires forall x :: 0 <= x < |tail| ==> tail[x].out.Ok? && res[|acc| + 1 + x] == tail[x].out.value
    ensures res[..|acc|] == acc
    ensures var rs := [t] + tail;
      forall x :: 0 <= x < |rs| ==> rs[x].out.Ok? && res[|acc| + x] == rs[x].out.value
  {
    var rs := [t] + tail;
    assert res[..|acc|] == res[..|acc| + 1][..|acc|];
    assert res[|acc|] == res[..|acc| + 1][|acc|];
    forall x | 0 < x < |rs| ensures rs[x].out.Ok? && res[|acc| + x] == rs[x].out.value {
      assert rs[x] == tail[x - 1];
      assert |acc| + x == |acc| + 1 + (x - 1);
    }
  }

  /** The `Combined` node: it succeeds exactly when every part succeeds in
      turn, each from where the one before it stopped; the tuple then holds
      part `x`'s result at position `x` and is named by the parts' aliases, so
      that an aliased part can be looked up by its alias, and the buffer is
      left where the last part stopped. Otherwise the first unsuccessful
      part's outcome is reported back at the entry index. */
  lemma CombinedTuple(e: Env, inp: Input, parts: seq<Node>, m: Meta, i: nat)
    requires EnvOk(e, |inp.src|) && i <= |inp.src|
    ensures var s := Raw(e, inp, Node(Combined(parts), m), i);
      var rs := PartRuns(e, inp, parts, i);
      (s.out.Ok? <==> |rs| == |parts| && forall x :: 0 <= x < |rs| ==> rs[x].out.Ok?)
      && (!s.out.Ok? ==> |rs| > 0 && s == Step(rs[|rs| - 1].out, i))
      && (s.out.Ok? ==>
            s.out.value.Tuple?
            && |s.out.value.tuple.results| == |parts|
            && (forall x :: 0 <= x < |parts| ==> s.out.value.tuple.results[x] == rs[x].out.value)
            && s.next == (if |parts| == 0 then i else rs[|parts| - 1].next)
            && s.out.value.tuple.mappings == Mappings(Aliases(parts))
            && forall a :: a in s.out.value.tuple.mappings <==> Some(a) in Aliases(parts))
  {
    assert parts[0..] == parts;
    SeqFromRuns(e, inp, parts, 0, i, [], i);
    SeqFromShape(e, inp, parts, 0, i, [], i);
    forall a {
      MappingsAreLastOccurrence(Aliases(parts), a);
    }
  }

  /** An exception other than `ParseException` is caught nowhere: an option,
      a repetition, a choice and a sequence all pass it on, with their
      `with buffer:` abandoned. In particular a choice does not go on to its
      next alternative. */
  lemma OtherExceptionsEscape(e: Env, inp: Input, r: Node, alts: seq<Node>, k: nat, j: nat, i: nat, one: bool)
    requires EnvOk(e, |inp.src|) && i <= j <= |inp.src|
    ensures Complete(e, inp, r, i).out.Crash? ==>
      Raw(e, inp, Node(Optional(r), Fresh(NoKwargs)), i) == Step(Complete(e, inp, r, i).out, i)
    ensures Complete(e, inp, r, j).out.Crash? ==>
      forall acc :: Rep(e, inp, r, j, acc, i, one) == Step(Complete(e, inp, r, j).out, i)
    ensures k < |alts| && Complete(e, inp, alts[k], j).out.Crash? ==>
      ChoiceFrom(e, inp, alts, k, j, i) == Step(Complete(e, inp, alts[k], j).out, i)
    ensures k < |alts| && Complete(e, inp, alts[k], j).out.Crash? ==>
      forall acc :: |acc| == k ==> SeqFrom(e, inp, alts, k, j, acc, i) == Step(Complete(e, inp, alts[k], j).out, i)
  {
  }

  /** Grouping is invisible to the parser: `(a | b) | c` parses every input
      exactly as `a | b | c` does, and `(a & b) & c` exactly as `a & b & c`,
      results and final index alike, whenever the inner group is anonymous
      and no group reached through groups is empty; the outer settings,
      transformer included, are whatever they are. */
  lemma NestingParsesAlike(e: Env, inp: Input, a: Node, b: Node, c: Node, mi: Meta, m: Meta, i: nat)
    requires EnvOk(e, |inp.src|) && i <= |inp.src|
    requires NonEmptyGroups(a) && NonEmptyGroups(b) && NonEmptyGroups(c)
    requires mi.name.None? && mi.alias.None?
    ensures Complete(e, inp, Node(Choice([Node(Choice([a, b]), mi), c]), m), i)
         == Complete(e, inp, Node(Choice([a, b, c]), m), i)
    ensures Complete(e, inp, Node(Combined([Node(Combined([a, b]), mi), c]), m), i)
         == Complete(e, inp, Node(Combined([a, b, c]), m), i)
  {
    ChoiceNestingFlattens(a, b, c, mi, m);
    CombinedNestingFlattens(a, b, c, mi, m);
  }

  /** Every raw parser but a `FunctionalRuleBuilder`'s own function runs
      inside `with buffer:`, so a raw failure leaves the index where the parse
      began. The complete parser keeps that promise when the rule has no
      transformer; a transformer that raises fails further on, as
      `TransformerFailureKeepsIndex` shows. */
  lemma FailureRestores(e: Env, inp: Input, n: Node, i: nat)
    requires EnvOk(e, |inp.src|) && i <= |inp.src|
    requires !n.kind.Functional?
    ensures !Raw(e, inp, Flatten(n), i).out.Ok? ==> Raw(e, inp, Flatten(n), i).next == i
    ensures n.meta.transformer.None? && !Complete(e, inp, n, i).out.Ok? ==> Complete(e, inp, n, i).next == i
  {
    var f := Flatten(n);
    assert !f.kind.Functional?;
    match f.kind
    case Multiple(r) =>
      RepShape(e, inp, r, i, [], i, true);
    case SomeOrNone(r) =>
      RepShape(e, inp, r, i, [], i, false);
    case Choice(alts) =>
      if |alts| > 0 {
        assert alts[0..] == alts;
        ChoiceFromFailRestores(e, inp, alts, 0, i, i);
      }
    case Combined(parts) =>
      assert parts[0..] == parts;
      SeqFromShape(e, inp, parts, 0, i, [], i);
    case _ =>
  }
}
