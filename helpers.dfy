/** laggard/helpers.py: the rule factories `multiple`, `optional` and
    `none_or_more`, and `OptionallyNamedTuple`, the result of a sequence
    (`Combined`) parser, indexable both by position and by the names of its
    parts. */
module Helpers {
  import opened Base
  import opened RuleBuilders

  /** The tuple's two fields: the results, and the name-to-index dictionary. */
  datatype Ont<T> = Ont(results: seq<T>, mappings: map<string, nat>)

  /** What `__getitem__` may be given: an `int` or a `str`. */
  datatype Key = IntKey(i: int) | StrKey(s: string)

  const LengthMismatch: string := "The number of names and items must be equal."

  /** The dictionary that `__init__`'s loop builds: every non-`None` name maps to
      its index, a later occurrence overwriting an earlier one. */
  function Mappings(names: seq<Option<string>>): map<string, nat>
    decreases |names|
  {
    if |names| == 0 then map[]
    else
      var m := Mappings(names[..|names| - 1]);
      match names[|names| - 1]
      case Some(n) => m[n := |names| - 1]
      case None => m
  }

  /** A name is a key exactly when it occurs, and it then maps to its last
      occurrence. */
  lemma {:induction false} MappingsAreLastOccurrence(names: seq<Option<string>>, key: string)
    ensures key in Mappings(names) <==> Some(key) in names
    ensures key in Mappings(names) ==>
      var i := Mappings(names)[key];
      i < |names| && names[i] == Some(key) && forall j :: i < j < |names| ==> names[j] != Some(key)
    decreases |names|
  {
    if |names| > 0 {
      var init := names[..|names| - 1];
      MappingsAreLastOccurrence(init, key);
      assert names == init + [names[|names| - 1]];
    }
  }

  /** Every index in the dictionary is a position of a result. */
  predicate WellFormed<T>(t: Ont<T>) {
    forall k :: k in t.mappings ==> t.mappings[k] < |t.results|
  }

  /** `OptionallyNamedTuple(names, results)`: raises `ValueError` on a length
      mismatch. */
  function Build<T>(names: seq<Option<string>>, results: seq<T>): (r: Result<Ont<T>>)
    ensures r.Success? <==> |names| == |results|
    ensures r.Failure? ==> r.error == LengthMismatch
    ensures r.Success? ==> r.value.results == results && WellFormed(r.value)
  {
    if |names| != |results| then Failure(LengthMismatch)
    else
      var m := Mappings(names);
      assert forall k :: k in m ==> m[k] < |results| by {
        forall k | k in m ensures m[k] < |results| {
          MappingsAreLastOccurrence(names, k);
        }
      }
      Success(Ont(results, m))
  }

  /** `__init__` itself, with its `for i, name in enumerate(names)` loop. */
  method NewTuple<T>(names: seq<Option<string>>, results: seq<T>) returns (r: Result<Ont<T>>)
    ensures r == Build(names, results)
  {
    if |names| != |results| {
      return Failure(LengthMismatch);
    }
    var mappings: map<string, nat> := map[];
    var i := 0;
    while i < |names|
      invariant 0 <= i <= |names|
      invariant mappings == Mappings(names[..i])
    {
      assert names[..i + 1][..i] == names[..i];
      if names[i].Some? {
        mappings := mappings[names[i].value := i];
      }
      i := i + 1;
    }
    assert names[..i] == names;
    return Success(Ont(results, mappings));
  }

  /** `create(names)`: the formatter that builds a tuple with these names from
      the results it is given. */
  function Create<T>(names: seq<Option<string>>): seq<T> -> Result<Ont<T>> {
    results => Build(names, results)
  }

  /** `__len__`. */
  function Len<T>(t: Ont<T>): nat {
    |t.results|
  }

  /** `__iter__`: the results, in order. */
  function Iter<T>(t: Ont<T>): seq<T> {
    t.results
  }

  /** `__getitem__`: a `str` key goes through the dictionary (`KeyError` when it
      is absent); an `int` key indexes the results the Python way
      (`IndexError` outside `-len .. len-1`). */
  function GetItem<T>(t: Ont<T>, key: Key): (r: Result<T>)
    requires WellFormed(t)
    ensures key.StrKey? ==> (r.Success? <==> key.s in t.mappings)
    ensures key.IntKey? ==> (r.Success? <==> -|t.results| <= key.i < |t.results|)
    ensures r.Success? ==> r.value in t.results
  {
    match key
    case StrKey(s) =>
      if s in t.mappings then Success(t.results[t.mappings[s]]) else Failure("KeyError: " + s)
    case IntKey(i) =>
      if 0 <= i < |t.results| then Success(t.results[i])
      else if -|t.results| <= i < 0 then Success(t.results[|t.results| + i])
      else Failure("list index out of range")
  }

  /** The tuple made by a formatter reports the results it was handed: its
      length is theirs and iterating it yields them in order. */
  lemma CreateKeepsResults<T>(names: seq<Option<string>>, results: seq<T>)
    requires |names| == |results|
    ensures Create(names)(results).Success?
    ensures Len(Create(names)(results).value) == |results|
    ensures Iter(Create(names)(results).value) == results
  {
  }

  /** Looking up a name gives the result at the name's last position, the same
      as indexing that position. */
  lemma NameAgreesWithPosition<T>(names: seq<Option<string>>, results: seq<T>, i: nat)
    requires |names| == |results| && i < |names| && names[i].Some?
    requires forall j :: i < j < |names| ==> names[j] != names[i]
    ensures var t := Build(names, results).value;
      GetItem(t, StrKey(names[i].value)) == GetItem(t, IntKey(i)) == Success(results[i])
  {
    var key := names[i].value;
    MappingsAreLastOccurrence(names, key);
  }

  /** A name that does not occur is a `KeyError`, even when other names do. */
  lemma UnknownNameFails<T>(names: seq<Option<string>>, results: seq<T>, key: string)
    requires |names| == |results| && Some(key) !in names
    ensures GetItem(Build(names, results).value, StrKey(key)).Failure?
  {
    MappingsAreLastOccurrence(names, key);
  }

  /** Negative positions count from the end. */
  lemma NegativeIndexFromEnd<T>(t: Ont<T>, i: nat)
    requires WellFormed(t) && i < |t.results|
    ensures GetItem(t, IntKey(i - |t.results|)) == GetItem(t, IntKey(i))
  {
  }

  /** `multiple(rule, **kwargs)`: `create` with `multiple=True`. */
  function MultipleOf(src: Source, kw: Kwargs): Option<Node> {
    RuleBuilders.Create(src, kw.(multiple := true))
  }

  /** `optional(rule, **kwargs)`: `create` with `optional=True`. */
  function OptionalOf(src: Source, kw: Kwargs): Option<Node> {
    RuleBuilders.Create(src, kw.(optional := true))
  }

  /** `none_or_more(rule, **kwargs)`: `create` with both flags. */
  function NoneOrMore(src: Source, kw: Kwargs): Option<Node> {
    RuleBuilders.Create(src, kw.(optional := true, multiple := true))
  }

  /** Each factory wraps the rule built from its source, once, in the kind it
      is named after, carrying the name and transformer it was given and no
      alias. For a source `create` does not know, the source returns a
      wrapper around `None`, which raises only when flattened or generated;
      the model reports `None` at once. */
  lemma FactoriesWrap(src: Source, kw: Kwargs)
    requires !kw.multiple && !kw.optional
    ensures src.FromOther? <==> MultipleOf(src, kw).None?
    ensures src.FromOther? <==> OptionalOf(src, kw).None?
    ensures src.FromOther? <==> NoneOrMore(src, kw).None?
    ensures !src.FromOther? ==>
      var inner := RuleBuilders.Create(src, NoKwargs).value;
      MultipleOf(src, kw).value.kind == Multiple(inner)
      && OptionalOf(src, kw).value.kind == Optional(inner)
      && NoneOrMore(src, kw).value.kind == SomeOrNone(inner)
      && MultipleOf(src, kw).value.meta == Fresh(kw)
      && OptionalOf(src, kw).value.meta == Fresh(kw)
      && NoneOrMore(src, kw).value.meta == Fresh(kw)
      && Fresh(kw).alias == None
  {
    if !src.FromOther? {
      CreateWrapper(src, kw.(multiple := true));
      CreateWrapper(src, kw.(optional := true));
      CreateWrapper(src, kw.(optional := true, multiple := true));
      FreshHasNoAlias(kw);
    }
  }

  /** The flags are keyword arguments like any other: `multiple` given
      `optional=True` builds what `none_or_more` builds, and so does
      `optional` given `multiple=True`. */
  lemma FlagsCombine(src: Source, kw: Kwargs)
    ensures MultipleOf(src, kw.(optional := true)) == NoneOrMore(src, kw)
    ensures OptionalOf(src, kw.(multiple := true)) == NoneOrMore(src, kw)
  {
  }
}
