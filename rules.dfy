/** The rule-node algebra of laggard/rulebuilders.py and
    laggard/functionalrulebuilders.py: what a rule is (its kind, its optional
    name, alias and transformer), how `create` and the operators build rules,
    and how `flatten` splices anonymous groups into their parents. A rule is a
    value here; the in-place updates of the source (`reconfigure`, `flatten`)
    return the updated value. */
module RuleBuilders {
  import opened Base

  /** A user transformer (any Python callable), known only by identity. */
  type TransformerId = nat
  /** The function of a `FunctionalRuleBuilder`, known only by identity. */
  type LeafId = nat

  /** The fields every `RuleBuilder` has. */
  datatype Meta = Meta(name: Option<string>, alias: Option<string>, transformer: Option<TransformerId>)

  datatype Node = Node(kind: Kind, meta: Meta)

  /** One constructor per `RuleBuilder` subclass. A charset is the list of
      strings that a fetched character is looked up in. */
  datatype Kind =
    | Literal(lit: string)
    | Charset(items: seq<string>)
    | Functional(leaf: LeafId)
    | Optional(rule: Node)
    | Multiple(rule: Node)
    | SomeOrNone(rule: Node)
    | Choice(alts: seq<Node>)
    | Combined(parts: seq<Node>)

  /** A keyword argument that is either left out or supplied. */
  datatype Setting<T> = Keep | Put(value: T) {
    /** `kwargs.get(key, default)`. */
    function Get(default: T): T {
      if Put? then value else default
    }
  }

  /** The keyword arguments `create` and the constructors understand. */
  datatype Kwargs = Kwargs(multiple: bool, optional: bool,
                           name: Setting<Option<string>>,
                           transformer: Setting<Option<TransformerId>>)

  const NoKwargs: Kwargs := Kwargs(false, false, Keep, Keep)

  /** What `create` may be handed; `FromOther` is any other Python object. */
  datatype Source =
    | FromRule(node: Node)
    | FromStr(text: string)
    | FromCollection(items: seq<string>)
    | FromOther

  function Size(n: Node): (k: nat)
    ensures k >= 1
    decreases n, 1
  {
    match n.kind
    case Optional(r) => 1 + Size(r)
    case Multiple(r) => 1 + Size(r)
    case SomeOrNone(r) => 1 + Size(r)
    case Choice(alts) => 1 + SumSize(alts)
    case Combined(parts) => 1 + SumSize(parts)
    case _ => 1
  }

  function SumSize(s: seq<Node>): nat
    decreases s, 0
  {
    if |s| == 0 then 0 else Size(s[0]) + SumSize(s[1..])
  }

  lemma {:induction false} SumSizeAppend(a: seq<Node>, b: seq<Node>)
    ensures SumSize(a + b) == SumSize(a) + SumSize(b)
    decreases |a|
  {
    if |a| == 0 {
      assert a + b == b;
    } else {
      assert (a + b)[1..] == a[1..] + b;
      SumSizeAppend(a[1..], b);
    }
  }

  lemma SumSizeAt(s: seq<Node>, k: nat)
    requires k < |s|
    ensures SumSize(s[k..]) == Size(s[k]) + SumSize(s[k + 1..])
  {
    assert s[k..][1..] == s[k + 1..];
  }

  /** `reconfigure`: each of `name` and `transformer` is replaced only when
      supplied. */
  function Reconfigure(m: Meta, kw: Kwargs): (r: Meta)
    ensures r.alias == m.alias
    ensures r.name == (if kw.name.Put? then kw.name.value else m.name)
    ensures r.transformer == (if kw.transformer.Put? then kw.transformer.value else m.transformer)
  {
    Meta(if kw.name.Put? then kw.name.value else m.name,
         m.alias,
         if kw.transformer.Put? then kw.transformer.value else m.transformer)
  }

  /** `RuleBuilder.__init__`: no name, no transformer, no alias, then
      `reconfigure`. */
  function Fresh(kw: Kwargs): Meta {
    Reconfigure(Meta(None, None, None), kw)
  }

  /** A supplied setting always wins and an omitted one never changes anything:
      reconfiguring twice with the same arguments is reconfiguring once. */
  lemma ReconfigureIdempotent(m: Meta, kw: Kwargs)
    ensures Reconfigure(Reconfigure(m, kw), kw) == Reconfigure(m, kw)
    ensures Reconfigure(m, NoKwargs) == m
  {
  }

  /** A freshly built rule carries no alias, and its name and transformer are
      exactly the supplied ones, `None` when omitted. */
  lemma FreshHasNoAlias(kw: Kwargs)
    ensures Fresh(kw).alias == None
    ensures Fresh(kw).name == kw.name.Get(None)
    ensures Fresh(kw).transformer == kw.transformer.Get(None)
  {
  }

  /** The `anonymous` property. */
  predicate Anonymous(n: Node) {
    n.meta.name.None? && n.meta.alias.None?
  }

  /** `rule(alias)`: a copy that differs from the original in its alias only;
      the original value is not touched. */
  function WithAlias(n: Node, alias: Option<string>): (r: Node)
    ensures r.kind == n.kind && r.meta.name == n.meta.name && r.meta.transformer == n.meta.transformer
    ensures r.meta.alias == alias
    ensures alias.Some? ==> !Anonymous(r)
    ensures Anonymous(r) <==> n.meta.name.None? && alias.None?
  {
    n.(meta := n.meta.(alias := alias))
  }

  /** `RuleBuilder.create`: the repetition and option flags wrap
      `create(source)` with `SomeOrNoneRule`, `MultipleRule` or `OptionalRule`
      carrying the remaining arguments; otherwise a rule is reconfigured and
      returned, a `str` becomes a literal and a list, set or tuple a charset.
      Any other source gives `None`. With a flag, the source wraps that
      `None` (`MultipleRule(None)`), an object that raises only when it is
      flattened or its parser generated; the model reports `None` at once. */
  function Create(src: Source, kw: Kwargs): (r: Option<Node>)
    ensures r.None? <==> src.FromOther?
    decreases if kw.multiple || kw.optional then 1 else 0
  {
    if kw.multiple || kw.optional then
      match Create(src, NoKwargs)
      case None => None
      case Some(inner) =>
        var wrapped := if kw.multiple && kw.optional then SomeOrNone(inner)
                       else if kw.multiple then Multiple(inner)
                       else Optional(inner);
        Some(Node(wrapped, Fresh(kw)))
    else
      match src
      case FromRule(n) => Some(n.(meta := Reconfigure(n.meta, kw)))
      case FromStr(s) => Some(Node(Literal(s), Fresh(kw)))
      case FromCollection(items) => Some(Node(Charset(items), Fresh(kw)))
      case FromOther => None
  }

  /** Without arguments, `create` hands an existing rule back unchanged. */
  lemma CreateOfRuleIsIdentity(n: Node)
    ensures Create(FromRule(n), NoKwargs) == Some(n)
  {
  }

  /** The flags choose the wrapper: both give zero-or-more, `multiple` alone
      one-or-more and `optional` alone an option; each wraps `create` of the
      same source, and the name and transformer go to the wrapper. */
  lemma CreateWrapper(src: Source, kw: Kwargs)
    requires kw.multiple || kw.optional
    requires !src.FromOther?
    ensures var inner := Create(src, NoKwargs).value;
      Create(src, kw) == Some(Node(
        if kw.multiple && kw.optional then SomeOrNone(inner)
        else if kw.multiple then Multiple(inner)
        else Optional(inner),
        Fresh(kw)))
  {
    assert Create(src, NoKwargs).Some?;
  }

  /** Without flags, the source type picks the kind, and the name and
      transformer given are the ones the rule ends up with. */
  lemma CreatePlain(src: Source, kw: Kwargs)
    requires !kw.multiple && !kw.optional && !src.FromOther?
    ensures Create(src, kw).Some?
    ensures src.FromStr? ==> Create(src, kw).value.kind == Literal(src.text)
    ensures src.FromCollection? ==> Create(src, kw).value.kind == Charset(src.items)
    ensures src.FromRule? ==>
      Create(src, kw).value.kind == src.node.kind && Create(src, kw).value.meta == Reconfigure(src.node.meta, kw)
    ensures kw.name.Put? ==> Create(src, kw).value.meta.name == kw.name.value
  {
  }

  /** `a | b`: a `Choice` of the two, converting a non-rule operand. The
      source builds the group even around an operand `create` turns into
      `None`; the model reports `None` at once. */
  function Or(a: Node, other: Source): Option<Node> {
    match Create(other, NoKwargs)
    case Some(b) => Some(Node(Choice([a, b]), Fresh(NoKwargs)))
    case None => None
  }

  /** `x | a` with a non-rule `x`. */
  function ROr(a: Node, other: Source): Option<Node> {
    match Create(other, NoKwargs)
    case Some(b) => Some(Node(Choice([b, a]), Fresh(NoKwargs)))
    case None => None
  }

  /** `a & b`: a `Combined` of the two, converting a non-rule operand. */
  function And(a: Node, other: Source): Option<Node> {
    match Create(other, NoKwargs)
    case Some(b) => Some(Node(Combined([a, b]), Fresh(NoKwargs)))
    case None => None
  }

  /** `x & a` with a non-rule `x`: `__rand__` builds a `Choice`, not a
      `Combined`. */
  function RAnd(a: Node, other: Source): Option<Node> {
    match Create(other, NoKwargs)
    case Some(b) => Some(Node(Choice([b, a]), Fresh(NoKwargs)))
    case None => None
  }

  /** The operators build an anonymous two-element group of the operands, in
      operand order, with a `str` operand converted to a literal. */
  lemma OperatorsBuildGroups(a: Node, b: Node, s: string)
    ensures Or(a, FromRule(b)) == Some(Node(Choice([a, b]), Meta(None, None, None)))
    ensures And(a, FromRule(b)) == Some(Node(Combined([a, b]), Meta(None, None, None)))
    ensures Or(a, FromStr(s)).Some? && Or(a, FromStr(s)).value.kind.alts[1].kind == Literal(s)
    ensures ROr(a, FromStr(s)).Some? && ROr(a, FromStr(s)).value.kind.alts[0].kind == Literal(s)
    ensures Anonymous(Or(a, FromRule(b)).value) && Anonymous(And(a, FromRule(b)).value)
  {
  }

  /** Reflected `&` is indistinguishable from reflected `|`. */
  lemma ReflectedAndIsChoice(a: Node, other: Source)
    requires !other.FromOther?
    ensures RAnd(a, other) == ROr(a, other)
    ensures RAnd(a, other).value.kind.Choice?
  {
  }

  /** A direct child that `flatten` splices into a group of kind `choice`
      (true: `Choice`, false: `Combined`). */
  predicate SameGroup(c: Node, choice: bool) {
    if choice then c.kind.Choice? else c.kind.Combined?
  }

  predicate Spliceable(c: Node, choice: bool) {
    SameGroup(c, choice) && Anonymous(c)
  }

  function Members(c: Node): seq<Node>
    requires c.kind.Choice? || c.kind.Combined?
  {
    if c.kind.Choice? then c.kind.alts else c.kind.parts
  }

  lemma MembersSmaller(c: Node)
    requires c.kind.Choice? || c.kind.Combined?
    ensures SumSize(Members(c)) == Size(c) - 1
  {
  }

  /** `flatten`: groups flatten each child and splice anonymous children of
      their own kind; every other rule is left as it is (`RuleBuilder.flatten`
      does nothing, and the option and repetition rules do not override it). */
  function Flatten(n: Node): (r: Node)
    ensures r.meta == n.meta
    ensures n.kind.Choice? <==> r.kind.Choice?
    ensures n.kind.Combined? <==> r.kind.Combined?
    ensures !(n.kind.Choice? || n.kind.Combined?) ==> r == n
    ensures Size(r) <= Size(n)
    decreases Size(n), 0
  {
    match n.kind
    case Choice(alts) => Node(Choice(Splice(alts, 0, true)), n.meta)
    case Combined(parts) => Node(Combined(Splice(parts, 0, false)), n.meta)
    case _ => n
  }

  /** The `for i, rule in enumerate(children)` loop of `flatten`, which splices
      into the list it is enumerating: from position `k` on, flatten the child
      in place, and when it is spliceable replace it by its own children;
      either way the enumeration moves on to position `k + 1` of the updated
      list. */
  function Splice(l: seq<Node>, k: nat, choice: bool): (r: seq<Node>)
    requires k <= |l|
    ensures SumSize(r) <= SumSize(l)
    ensures |r| >= k && r[..k] == l[..k]
    decreases SumSize(l[k..]), 1
  {
    if k == |l| then l
    else
      SumSizeAt(l, k);
      var c := Flatten(l[k]);
      if Spliceable(c, choice) then
        var l' := l[..k] + Members(c) + l[k + 1..];
        MembersSmaller(c);
        SpliceSizes(l, k, Members(c));
        if k + 1 <= |l'| then
          var r := Splice(l', k + 1, choice);
          PrefixShrink(r, l', k);
          SpliceStepBounds(l, k, Members(c), l', r);
          r
        else
          // an empty splice as the last child ends the loop
          SpliceStepBounds(l, k, Members(c), l', l');
          l'
      else
        var l' := l[..k] + [c] + l[k + 1..];
        SpliceSizes(l, k, [c]);
        var r := Splice(l', k + 1, choice);
        PrefixShrink(r, l', k);
        SpliceStepBounds(l, k, [c], l', r);
        r
  }

  /** What one splice step keeps: the prefix before position `k`, and a total
      size no larger than the list's. */
  lemma SpliceStepBounds(l: seq<Node>, k: nat, put: seq<Node>, l': seq<Node>, r: seq<Node>)
    requires k < |l| && SumSize(put) <= Size(l[k]) && l' == l[..k] + put + l[k + 1..]
    requires SumSize(r) <= SumSize(l') && |r| >= k && r[..k] == l'[..k]
    ensures SumSize(r) <= SumSize(l) && r[..k] == l[..k]
  {
    SplicedPrefix(l[..k], put, l[k + 1..]);
    SumSizeThree(l[..k], put, l[k + 1..]);
    SumSizeSplit(l, k);
  }

  lemma PrefixShrink(r: seq<Node>, l: seq<Node>, k: nat)
    requires k + 1 <= |r| && k + 1 <= |l| && r[..k + 1] == l[..k + 1]
    ensures r[..k] == l[..k]
  {
    assert r[..k] == r[..k + 1][..k];
    assert l[..k] == l[..k + 1][..k];
  }

  lemma SplicedPrefix(pre: seq<Node>, put: seq<Node>, post: seq<Node>)
    ensures (pre + put + post)[..|pre|] == pre
  {
  }

  /** Sizes around one splice step. */
  lemma SpliceSizes(l: seq<Node>, k: nat, put: seq<Node>)
    requires k < |l|
    ensures SumSize(l[..k] + put + l[k + 1..]) == SumSize(l[..k]) + SumSize(put) + SumSize(l[k + 1..])
    ensures SumSize(l) == SumSize(l[..k]) + Size(l[k]) + SumSize(l[k + 1..])
    ensures |put| > 0 ==>
      SumSize((l[..k] + put + l[k + 1..])[k + 1..]) == SumSize(put[1..]) + SumSize(l[k + 1..])
      && SumSize(put[1..]) < SumSize(put) + 1
    ensures |put| == 0 && k + 1 < |l| ==>
      SumSize((l[..k] + put + l[k + 1..])[k + 1..]) <= SumSize(l[k + 1..])
  {
    var pre, post := l[..k], l[k + 1..];
    SumSizeThree(pre, put, post);
    SumSizeSplit(l, k);
    if |put| > 0 {
      TailAfterPut(pre, put, post);
    } else if k + 1 < |l| {
      assert pre + put + post == pre + post;
      TailAfterEmpty(pre, post);
    }
  }

  lemma SumSizeThree(a: seq<Node>, b: seq<Node>, c: seq<Node>)
    ensures SumSize(a + b + c) == SumSize(a) + SumSize(b) + SumSize(c)
  {
    SumSizeAppend(a, b);
    SumSizeAppend(a + b, c);
  }

  lemma SumSizeSplit(l: seq<Node>, k: nat)
    requires k < |l|
    ensures SumSize(l) == SumSize(l[..k]) + Size(l[k]) + SumSize(l[k + 1..])
  {
    assert l == l[..k] + l[k..];
    SumSizeAppend(l[..k], l[k..]);
    SumSizeAt(l, k);
  }

  lemma TailAfterPut(pre: seq<Node>, put: seq<Node>, post: seq<Node>)
    requires |put| > 0
    ensures SumSize((pre + put + post)[|pre| + 1..]) == SumSize(put[1..]) + SumSize(post)
    ensures SumSize(put[1..]) < SumSize(put) + 1
  {
    assert (pre + put + post)[|pre| + 1..] == put[1..] + post;
    SumSizeAppend(put[1..], post);
  }

  lemma TailAfterEmpty(pre: seq<Node>, post: seq<Node>)
    requires |post| > 0
    ensures SumSize((pre + post)[|pre| + 1..]) <= SumSize(post)
  {
    assert (pre + post)[|pre| + 1..] == post[1..];
  }

  /** The loop of `flatten` itself, splicing into the list it enumerates. */
  method FlattenInPlace(n: Node) returns (r: Node)
    ensures r == Flatten(n)
    decreases Size(n)
  {
    if !(n.kind.Choice? || n.kind.Combined?) {
      return n;
    }
    var choice := n.kind.Choice?;
    var children := Members(n);
    var i := 0;
    while i < |children|
      invariant i <= |children| + 1
      invariant i <= |children| ==> Splice(children, i, choice) == Splice(Members(n), 0, choice)
      invariant i > |children| ==> children == Splice(Members(n), 0, choice)
      invariant i <= |children| ==> SumSize(children[i..]) < Size(n)
      decreases if i <= |children| then SumSize(children[i..]) else 0, if i <= |children| then 1 else 0
    {
      SumSizeAt(children, i);
      var rule := FlattenInPlace(children[i]);
      SpliceAdvance(children, i, choice);
      if Spliceable(rule, choice) {
        children := children[..i] + Members(rule) + children[i + 1..];
      } else {
        children := children[..i] + [rule] + children[i + 1..];
      }
      i := i + 1;
    }
    assert children[..|children|] == children;
    r := if choice then Node(Choice(children), n.meta) else Node(Combined(children), n.meta);
  }

  /** One step of `Splice`: position `k` is replaced by what its flattened
      child contributes, and the enumeration goes on at `k + 1` over a
      smaller remainder. */
  lemma SpliceAdvance(l: seq<Node>, k: nat, choice: bool)
    requires k < |l|
    ensures var l' := l[..k] + Expand(Flatten(l[k]), choice) + l[k + 1..];
      (k + 1 <= |l'| ==>
         Splice(l, k, choice) == Splice(l', k + 1, choice) && SumSize(l'[k + 1..]) < SumSize(l[k..]))
      && (k + 1 > |l'| ==> Splice(l, k, choice) == l')
  {
    var c := Flatten(l[k]);
    SumSizeAt(l, k);
    if Spliceable(c, choice) {
      MembersSmaller(c);
    }
    SpliceSizes(l, k, Expand(c, choice));
  }

  /** The group node `n` with its members replaced. */
  function WithMembers(n: Node, ms: seq<Node>): Node
    requires n.kind.Choice? || n.kind.Combined?
  {
    if n.kind.Choice? then Node(Choice(ms), n.meta) else Node(Combined(ms), n.meta)
  }

  /** What a child contributes to its flattened group: its members when it is
      spliceable, itself otherwise. */
  function Expand(c: Node, choice: bool): seq<Node> {
    if Spliceable(c, choice) then Members(c) else [c]
  }

  /** The intended reading of `flatten`, by structural recursion: flatten every
      child and put the members of each spliceable one in its place. */
  function Clean(n: Node): Node
    decreases Size(n), 0
  {
    if n.kind.Choice? || n.kind.Combined? then
      MembersSmaller(n);
      WithMembers(n, CleanList(Members(n), n.kind.Choice?))
    else n
  }

  function CleanList(l: seq<Node>, choice: bool): seq<Node>
    decreases SumSize(l), 1
  {
    if |l| == 0 then [] else Expand(Clean(l[0]), choice) + CleanList(l[1..], choice)
  }

  /** No group has a spliceable direct child, all the way down through groups. */
  predicate Flat(n: Node) {
    (n.kind.Choice? ==> forall i :: 0 <= i < |n.kind.alts| ==>
       Flat(n.kind.alts[i]) && !Spliceable(n.kind.alts[i], true))
    && (n.kind.Combined? ==> forall i :: 0 <= i < |n.kind.parts| ==>
       Flat(n.kind.parts[i]) && !Spliceable(n.kind.parts[i], false))
  }

  /** Every group reached through groups has at least one member; the
      operators only ever build two-member groups. */
  predicate NonEmptyGroups(n: Node) {
    (n.kind.Choice? ==> |n.kind.alts| > 0 && forall i :: 0 <= i < |n.kind.alts| ==> NonEmptyGroups(n.kind.alts[i]))
    && (n.kind.Combined? ==> |n.kind.parts| > 0 && forall i :: 0 <= i < |n.kind.parts| ==> NonEmptyGroups(n.kind.parts[i]))
  }

  lemma FlatMembers(n: Node)
    requires n.kind.Choice? || n.kind.Combined?
    ensures Flat(n) <==> forall i :: 0 <= i < |Members(n)| ==>
      Flat(Members(n)[i]) && !Spliceable(Members(n)[i], n.kind.Choice?)
  {
    if n.kind.Choice? {
      assert Members(n) == n.kind.alts;
    } else {
      assert Members(n) == n.kind.parts;
    }
  }

  lemma NonEmptyMembers(n: Node)
    requires n.kind.Choice? || n.kind.Combined?
    ensures NonEmptyGroups(n) <==> |Members(n)| > 0 && forall i :: 0 <= i < |Members(n)| ==> NonEmptyGroups(Members(n)[i])
  {
  }

  lemma {:induction false} CleanListAppend(a: seq<Node>, b: seq<Node>, choice: bool)
    ensures CleanList(a + b, choice) == CleanList(a, choice) + CleanList(b, choice)
    decreases |a|
  {
    if |a| == 0 {
      assert a + b == b;
    } else {
      assert (a + b)[0] == a[0];
      assert (a + b)[1..] == a[1..] + b;
      CleanListAppend(a[1..], b, choice);
    }
  }

  /** The reference result is flat, whatever the input. */
  lemma {:induction false} CleanIsFlat(n: Node)
    ensures Flat(Clean(n))
    decreases Size(n), 0
  {
    if n.kind.Choice? || n.kind.Combined? {
      MembersSmaller(n);
      CleanListIsFlat(Members(n), n.kind.Choice?);
      FlatMembers(Clean(n));
    }
  }

  lemma {:induction false} CleanListIsFlat(l: seq<Node>, choice: bool)
    ensures forall i :: 0 <= i < |CleanList(l, choice)| ==>
      Flat(CleanList(l, choice)[i]) && !Spliceable(CleanList(l, choice)[i], choice)
    decreases SumSize(l), 1
  {
    if |l| > 0 {
      var c := Clean(l[0]);
      CleanIsFlat(l[0]);
      CleanListIsFlat(l[1..], choice);
      var e := Expand(c, choice);
      assert forall i :: 0 <= i < |e| ==> Flat(e[i]) && !Spliceable(e[i], choice) by {
        if Spliceable(c, choice) {
          FlatMembers(c);
        }
      }
      var rest := CleanList(l[1..], choice);
      assert CleanList(l, choice) == e + rest;
      forall i | 0 <= i < |e + rest|
        ensures Flat((e + rest)[i]) && !Spliceable((e + rest)[i], choice)
      {
        if i >= |e| {
          assert (e + rest)[i] == rest[i - |e|];
        }
      }
    }
  }

  /** The reference result keeps groups non-empty. */
  lemma {:induction false} CleanKeepsNonEmpty(n: Node)
    requires NonEmptyGroups(n)
    ensures NonEmptyGroups(Clean(n))
    decreases Size(n), 0
  {
    if n.kind.Choice? || n.kind.Combined? {
      MembersSmaller(n);
      NonEmptyMembers(n);
      CleanListKeepsNonEmpty(Members(n), n.kind.Choice?);
      NonEmptyMembers(Clean(n));
    }
  }

  lemma {:induction false} CleanListKeepsNonEmpty(l: seq<Node>, choice: bool)
    requires forall i :: 0 <= i < |l| ==> NonEmptyGroups(l[i])
    ensures |l| > 0 ==> |CleanList(l, choice)| > 0
    ensures forall i :: 0 <= i < |CleanList(l, choice)| ==> NonEmptyGroups(CleanList(l, choice)[i])
    decreases SumSize(l), 1
  {
    if |l| > 0 {
      var c := Clean(l[0]);
      CleanKeepsNonEmpty(l[0]);
      CleanListKeepsNonEmpty(l[1..], choice);
      var e := Expand(c, choice);
      assert |e| > 0 && forall i :: 0 <= i < |e| ==> NonEmptyGroups(e[i]) by {
        if Spliceable(c, choice) {
          NonEmptyMembers(c);
        }
      }
      var rest := CleanList(l[1..], choice);
      assert CleanList(l, choice) == e + rest;
      forall i | 0 <= i < |e + rest|
        ensures NonEmptyGroups((e + rest)[i])
      {
        if i >= |e| {
          assert (e + rest)[i] == rest[i - |e|];
        }
      }
    }
  }

  /** A flat rule is its own reference result. */
  lemma {:induction false} CleanOfFlat(n: Node)
    requires Flat(n)
    ensures Clean(n) == n
    decreases Size(n), 0
  {
    if n.kind.Choice? || n.kind.Combined? {
      MembersSmaller(n);
      FlatMembers(n);
      CleanListOfFlat(Members(n), n.kind.Choice?);
    }
  }

  lemma {:induction false} CleanListOfFlat(l: seq<Node>, choice: bool)
    requires forall i :: 0 <= i < |l| ==> Flat(l[i]) && !Spliceable(l[i], choice)
    ensures CleanList(l, choice) == l
    decreases SumSize(l), 1
  {
    if |l| > 0 {
      CleanOfFlat(l[0]);
      CleanListOfFlat(l[1..], choice);
      assert l == [l[0]] + l[1..];
    }
  }

  /** Without empty groups, `flatten` computes the reference result: the
      live-list enumeration revisits the spliced members after the first, but
      they are flat already and flattening them again changes nothing. */
  lemma {:induction false} FlattenIsClean(n: Node)
    requires NonEmptyGroups(n)
    ensures Flatten(n) == Clean(n)
    decreases Size(n), 0
  {
    if n.kind.Choice? || n.kind.Combined? {
      MembersSmaller(n);
      NonEmptyMembers(n);
      var ms := Members(n);
      assert ms[0..] == ms && ms[..0] == [];
      SpliceIsClean(ms, 0, n.kind.Choice?);
    }
  }

  lemma {:induction false} SpliceIsClean(l: seq<Node>, k: nat, choice: bool)
    requires k <= |l|
    requires forall j :: k <= j < |l| ==> NonEmptyGroups(l[j])
    ensures Splice(l, k, choice) == l[..k] + CleanList(l[k..], choice)
    decreases SumSize(l[k..]), 1
  {
    if k == |l| {
      assert l[..k] == l;
      assert l[k..] == [];
    } else {
      SumSizeAt(l, k);
      var c := Flatten(l[k]);
      FlattenIsClean(l[k]);
      CleanIsFlat(l[k]);
      CleanKeepsNonEmpty(l[k]);
      if Spliceable(c, choice) {
        NonEmptyMembers(c);
        FlatSpliceableMembers(c, choice);
        SpliceIsCleanSplicing(l, k, choice, Members(c));
      } else {
        SpliceIsCleanKeeping(l, k, choice);
      }
    }
  }

  lemma {:induction false} SpliceIsCleanSplicing(l: seq<Node>, k: nat, choice: bool, ms: seq<Node>)
    requires k < |l|
    requires forall j :: k < j < |l| ==> NonEmptyGroups(l[j])
    requires Spliceable(Flatten(l[k]), choice) && Clean(l[k]) == Flatten(l[k])
    requires ms == Members(Flatten(l[k])) && |ms| > 0
    requires forall j :: 0 <= j < |ms| ==> NonEmptyGroups(ms[j])
    requires forall j :: 0 <= j < |ms| ==> Flat(ms[j]) && !Spliceable(ms[j], choice)
    ensures Splice(l, k, choice) == l[..k] + CleanList(l[k..], choice)
    decreases SumSize(l[k..]), 0
  {
    var l' := l[..k] + ms + l[k + 1..];
    assert SumSize(l'[k + 1..]) < SumSize(l[k..]) by {
      MembersSmaller(Flatten(l[k]));
      SumSizeAt(l, k);
      SpliceSizes(l, k, ms);
    }
    SpliceKeepsNonEmpty(l, k, ms);
    SpliceIsClean(l', k + 1, choice);
    SplicingCombine(l, k, choice, ms);
  }

  lemma SplicingCombine(l: seq<Node>, k: nat, choice: bool, ms: seq<Node>)
    requires k < |l|
    requires Spliceable(Flatten(l[k]), choice) && Clean(l[k]) == Flatten(l[k])
    requires ms == Members(Flatten(l[k])) && |ms| > 0
    requires forall j :: 0 <= j < |ms| ==> Flat(ms[j]) && !Spliceable(ms[j], choice)
    requires var l' := l[..k] + ms + l[k + 1..];
      Splice(l', k + 1, choice) == l'[..k + 1] + CleanList(l'[k + 1..], choice)
    ensures Splice(l, k, choice) == l[..k] + CleanList(l[k..], choice)
  {
    SpliceAlgebra(l, k, ms, choice);
    CleanListSpliced(l, k, choice, ms);
    SpliceStepSplicing(l, k, choice, ms);
  }

  lemma CleanListSpliced(l: seq<Node>, k: nat, choice: bool, ms: seq<Node>)
    requires k < |l|
    requires Spliceable(Clean(l[k]), choice) && ms == Members(Clean(l[k]))
    ensures l[..k] + CleanList(l[k..], choice) == l[..k] + ms + CleanList(l[k + 1..], choice)
  {
    CleanListStep(l, k, choice);
  }

  lemma SpliceStepSplicing(l: seq<Node>, k: nat, choice: bool, ms: seq<Node>)
    requires k < |l|
    requires Spliceable(Flatten(l[k]), choice) && ms == Members(Flatten(l[k])) && |ms| > 0
    ensures Splice(l, k, choice) == Splice(l[..k] + ms + l[k + 1..], k + 1, choice)
  {
  }

  lemma FlatSpliceableMembers(c: Node, choice: bool)
    requires Flat(c) && Spliceable(c, choice)
    ensures forall j :: 0 <= j < |Members(c)| ==> Flat(Members(c)[j]) && !Spliceable(Members(c)[j], choice)
  {
    if choice {
      assert Members(c) == c.kind.alts;
    } else {
      assert Members(c) == c.kind.parts;
    }
  }

  lemma {:induction false} SpliceIsCleanKeeping(l: seq<Node>, k: nat, choice: bool)
    requires k < |l|
    requires forall j :: k <= j < |l| ==> NonEmptyGroups(l[j])
    requires Flatten(l[k]) == Clean(l[k])
    requires !Spliceable(Flatten(l[k]), choice)
    ensures Splice(l, k, choice) == l[..k] + CleanList(l[k..], choice)
    decreases SumSize(l[k..]), 0
  {
    var c := Flatten(l[k]);
    var l' := l[..k] + [c] + l[k + 1..];
    KeepingFrame(l, k, c);
    SpliceIsClean(l', k + 1, choice);
    KeepingAlgebra(l, k, choice);
    SpliceStep(l, k, choice);
  }

  lemma KeepingFrame(l: seq<Node>, k: nat, c: Node)
    requires k < |l|
    requires forall j :: k <= j < |l| ==> NonEmptyGroups(l[j])
    ensures var l' := l[..k] + [c] + l[k + 1..];
      l'[k + 1..] == l[k + 1..]
      && SumSize(l'[k + 1..]) < SumSize(l[k..])
      && forall j :: k + 1 <= j < |l'| ==> NonEmptyGroups(l'[j])
  {
    var l' := l[..k] + [c] + l[k + 1..];
    assert l'[k + 1..] == l[k + 1..];
    SumSizeAt(l, k);
    assert forall j :: k + 1 <= j < |l'| ==> l'[j] == l[j];
  }

  lemma KeepingAlgebra(l: seq<Node>, k: nat, choice: bool)
    requires k < |l|
    requires Flatten(l[k]) == Clean(l[k])
    requires !Spliceable(Flatten(l[k]), choice)
    ensures var l' := l[..k] + [Flatten(l[k])] + l[k + 1..];
      l'[..k + 1] + CleanList(l'[k + 1..], choice) == l[..k] + CleanList(l[k..], choice)
  {
    var c := Flatten(l[k]);
    var l' := l[..k] + [c] + l[k + 1..];
    assert l'[k + 1..] == l[k + 1..];
    assert l'[..k + 1] == l[..k] + [c];
    CleanListStep(l, k, choice);
  }

  /** One round of the enumeration, when the spliced group is not empty. */
  lemma SpliceStep(l: seq<Node>, k: nat, choice: bool)
    requires k < |l|
    ensures var c := Flatten(l[k]);
      (Spliceable(c, choice) && |Members(c)| > 0 ==>
         Splice(l, k, choice) == Splice(l[..k] + Members(c) + l[k + 1..], k + 1, choice))
      && (!Spliceable(c, choice) ==>
         Splice(l, k, choice) == Splice(l[..k] + [c] + l[k + 1..], k + 1, choice))
  {
  }

  lemma CleanListStep(l: seq<Node>, k: nat, choice: bool)
    requires k < |l|
    ensures CleanList(l[k..], choice) == Expand(Clean(l[k]), choice) + CleanList(l[k + 1..], choice)
  {
    assert l[k..][0] == l[k] && l[k..][1..] == l[k + 1..];
  }

  lemma SpliceKeepsNonEmpty(l: seq<Node>, k: nat, ms: seq<Node>)
    requires k < |l| && |ms| > 0
    requires forall j :: k < j < |l| ==> NonEmptyGroups(l[j])
    requires forall j :: 0 <= j < |ms| ==> NonEmptyGroups(ms[j])
    ensures var l' := l[..k] + ms + l[k + 1..];
      forall j :: k + 1 <= j < |l'| ==> NonEmptyGroups(l'[j])
  {
    var l' := l[..k] + ms + l[k + 1..];
    forall j | k + 1 <= j < |l'| ensures NonEmptyGroups(l'[j]) {
      if j < k + |ms| {
        assert l'[j] == ms[j - k];
      } else {
        assert l'[j] == l[j - |ms| + 1];
      }
    }
  }

  lemma SpliceAlgebra(l: seq<Node>, k: nat, ms: seq<Node>, choice: bool)
    requires k < |l| && |ms| > 0
    requires forall j :: 0 <= j < |ms| ==> Flat(ms[j]) && !Spliceable(ms[j], choice)
    ensures var l' := l[..k] + ms + l[k + 1..];
      l'[..k + 1] + CleanList(l'[k + 1..], choice) == l[..k] + ms + CleanList(l[k + 1..], choice)
  {
    var pre, post := l[..k], l[k + 1..];
    var l' := pre + ms + post;
    assert l'[k + 1..] == ms[1..] + post;
    assert l'[..k + 1] == pre + [ms[0]];
    CleanListAppend(ms[1..], post, choice);
    CleanListOfFlat(ms[1..], choice);
    Regroup(pre, ms, CleanList(post, choice));
  }

  lemma Regroup(a: seq<Node>, m: seq<Node>, c: seq<Node>)
    requires |m| > 0
    ensures (a + [m[0]]) + (m[1..] + c) == a + m + c
  {
    assert [m[0]] + m[1..] == m;
  }

  /** Without empty groups, the result of `flatten` is flat: no group keeps
      an anonymous direct child of its own kind. */
  lemma FlattenIsFlat(n: Node)
    requires NonEmptyGroups(n)
    ensures Flat(Flatten(n))
  {
    FlattenIsClean(n);
    CleanIsFlat(n);
  }

  /** Without empty groups, flattening twice is flattening once. */
  lemma FlattenIdempotent(n: Node)
    requires NonEmptyGroups(n)
    ensures Flatten(Flatten(n)) == Flatten(n)
  {
    FlattenIsClean(n);
    CleanIsFlat(n);
    CleanKeepsNonEmpty(n);
    FlattenIsClean(Clean(n));
    CleanOfFlat(Clean(n));
  }

  lemma {:induction false} ExpandInCleanList(l: seq<Node>, choice: bool, i: nat)
    requires i < |l|
    ensures forall x :: x in Expand(Clean(l[i]), choice) ==> x in CleanList(l, choice)
    decreases i
  {
    if i > 0 {
      ExpandInCleanList(l[1..], choice, i - 1);
      assert l[1..][i - 1] == l[i];
    }
  }

  /** A named or aliased child is not spliced: its own flattened form is a
      member of the flattened group. */
  lemma NamedChildKept(n: Node, i: nat)
    requires NonEmptyGroups(n) && (n.kind.Choice? || n.kind.Combined?)
    requires i < |Members(n)| && !Anonymous(Members(n)[i])
    ensures Flatten(Members(n)[i]) in Members(Flatten(n))
  {
    var c := Members(n)[i];
    NonEmptyMembers(n);
    FlattenIsClean(n);
    FlattenIsClean(c);
    ExpandInCleanList(Members(n), n.kind.Choice?, i);
    assert Expand(Clean(c), n.kind.Choice?) == [Clean(c)];
  }

  /** `(a | b) | c` flattens to the three-way choice `a | b | c`, and so does
      `a | b | c` itself, whatever the three operands are, as long as they are
      not groups themselves. */
  lemma ChoiceAssociates(a: Node, b: Node, c: Node)
    requires !(a.kind.Choice? || a.kind.Combined?)
    requires !(b.kind.Choice? || b.kind.Combined?)
    requires !(c.kind.Choice? || c.kind.Combined?)
    ensures var flat := Node(Choice([a, b, c]), Fresh(NoKwargs));
      Flatten(Node(Choice([Node(Choice([a, b]), Fresh(NoKwargs)), c]), Fresh(NoKwargs))) == flat
      && Flatten(flat) == flat
  {
    var inner := Node(Choice([a, b]), Fresh(NoKwargs));
    var outer := Node(Choice([inner, c]), Fresh(NoKwargs));
    assert NonEmptyGroups(inner);
    assert NonEmptyGroups(outer);
    FlattenIsClean(outer);
    assert [inner, c][1..] == [c];
    assert [a, b][1..] == [b];
    assert CleanList([b], true) == [b];
    assert CleanList([a, b], true) == [a, b];
    assert Clean(inner) == inner;
    assert CleanList([c], true) == [c];
    FlattenIdempotent(outer);
  }

  /** `(a & b) & c` flattens to the three-part sequence `a & b & c`, and so
      does `a & b & c` itself, whatever the three operands are, as long as
      they are not groups themselves. */
  lemma CombinedAssociates(a: Node, b: Node, c: Node)
    requires !(a.kind.Choice? || a.kind.Combined?)
    requires !(b.kind.Choice? || b.kind.Combined?)
    requires !(c.kind.Choice? || c.kind.Combined?)
    ensures var flat := Node(Combined([a, b, c]), Fresh(NoKwargs));
      Flatten(Node(Combined([Node(Combined([a, b]), Fresh(NoKwargs)), c]), Fresh(NoKwargs))) == flat
      && Flatten(flat) == flat
  {
    var inner := Node(Combined([a, b]), Fresh(NoKwargs));
    var outer := Node(Combined([inner, c]), Fresh(NoKwargs));
    var flat := Node(Combined([a, b, c]), Fresh(NoKwargs));
    assert NonEmptyGroups(inner);
    assert NonEmptyGroups(outer);
    FlattenIsClean(outer);
    assert [inner, c][1..] == [c];
    assert [a, b][1..] == [b];
    assert CleanList([b], false) == [b];
    assert CleanList([a, b], false) == [a, b];
    assert Clean(inner) == inner;
    assert CleanList([c], false) == [c];
    FlattenIdempotent(outer);
  }

  /** The group of the given kind with members `ms` and settings `m`. */
  function Group(choice: bool, ms: seq<Node>, m: Meta): Node {
    if choice then Node(Choice(ms), m) else Node(Combined(ms), m)
  }

  /** Nesting an anonymous group of `a` and `b` as the first member of a group
      of the same kind flattens exactly as the three-member group does, for
      any operands without empty groups, any outer settings, and an inner
      group with neither name nor alias; the inner group's transformer is
      dropped when it is spliced. */
  lemma NestedGroupFlattens(choice: bool, a: Node, b: Node, c: Node, mi: Meta, m: Meta)
    requires NonEmptyGroups(a) && NonEmptyGroups(b) && NonEmptyGroups(c)
    requires mi.name.None? && mi.alias.None?
    ensures Flatten(Group(choice, [Group(choice, [a, b], mi), c], m)) == Flatten(Group(choice, [a, b, c], m))
  {
    var inner := Group(choice, [a, b], mi);
    var outer := Group(choice, [inner, c], m);
    var flat := Group(choice, [a, b, c], m);
    assert Members(inner) == [a, b] && Members(outer) == [inner, c] && Members(flat) == [a, b, c];
    NonEmptyMembers(inner);
    NonEmptyMembers(outer);
    NonEmptyMembers(flat);
    FlattenIsClean(outer);
    FlattenIsClean(flat);
    var ab := CleanList([a, b], choice);
    assert Clean(inner) == Group(choice, ab, mi);
    assert Spliceable(Clean(inner), choice) && Members(Clean(inner)) == ab;
    assert [inner, c][1..] == [c];
    assert CleanList([inner, c], choice) == ab + CleanList([c], choice);
    CleanListAppend([a, b], [c], choice);
    assert [a, b] + [c] == [a, b, c];
  }

  /** `(a | b) | c` flattens as `a | b | c`, whatever the operands and the
      outer settings, when the inner choice is anonymous. */
  lemma ChoiceNestingFlattens(a: Node, b: Node, c: Node, mi: Meta, m: Meta)
    requires NonEmptyGroups(a) && NonEmptyGroups(b) && NonEmptyGroups(c)
    requires mi.name.None? && mi.alias.None?
    ensures Flatten(Node(Choice([Node(Choice([a, b]), mi), c]), m)) == Flatten(Node(Choice([a, b, c]), m))
  {
    NestedGroupFlattens(true, a, b, c, mi, m);
  }

  /** `(a & b) & c` flattens as `a & b & c`, whatever the operands and the
      outer settings, when the inner sequence is anonymous. */
  lemma CombinedNestingFlattens(a: Node, b: Node, c: Node, mi: Meta, m: Meta)
    requires NonEmptyGroups(a) && NonEmptyGroups(b) && NonEmptyGroups(c)
    requires mi.name.None? && mi.alias.None?
    ensures Flatten(Node(Combined([Node(Combined([a, b]), mi), c]), m)) == Flatten(Node(Combined([a, b, c]), m))
  {
    NestedGroupFlattens(false, a, b, c, mi, m);
  }

  /** Where the live-list enumeration shows: splicing an empty anonymous group
      shifts the next child under the index that was just visited, so that
      child is neither flattened nor spliced, the result is not flat, and a
      second `flatten` changes it again. */
  lemma EmptyGroupSkipsNextChild(x: Node, y: Node)
    requires x.kind.Literal? && y.kind.Literal? && x.meta == y.meta == Fresh(NoKwargs)
    ensures var empty := Node(Choice([]), Fresh(NoKwargs));
      var nested := Node(Choice([x]), Fresh(NoKwargs));
      var t := Node(Choice([empty, nested, y]), Fresh(NoKwargs));
      Flatten(t) == Node(Choice([nested, y]), Fresh(NoKwargs))
      && !Flat(Flatten(t))
      && Flatten(Flatten(t)) == Node(Choice([x, y]), Fresh(NoKwargs))
  {
    var empty := Node(Choice([]), Fresh(NoKwargs));
    var nested := Node(Choice([x]), Fresh(NoKwargs));
    var t := Node(Choice([empty, nested, y]), Fresh(NoKwargs));
    assert Flatten(empty) == empty;
    var l := [empty, nested, y];
    assert l[..0] + Members(empty) + l[1..] == [nested, y];
    assert Splice([nested, y], 1, true) == [nested, y] by {
      assert Flatten(y) == y;
      assert [nested, y][..1] + [y] + [nested, y][2..] == [nested, y];
    }
    assert Flatten(t) == Node(Choice([nested, y]), Fresh(NoKwargs));
    assert !Spliceable(nested, true) ==> false;
    assert Flatten(x) == x;
    assert Splice([x], 0, true) == [x] by {
      assert [x][..0] + [x] + [x][1..] == [x];
    }
    assert Flatten(nested) == nested;
    assert [nested, y][..0] + Members(nested) + [nested, y][1..] == [x, y];
    assert Splice([x, y], 1, true) == [x, y] by {
      assert Flatten(y) == y;
      assert [x, y][..1] + [y] + [x, y][2..] == [x, y];
    }
  }
}
