/** The matching primitives the grammar parser calls: `expect`, `expectOneOf`,
    `expectManyOutOf` and `parseUntil`. Their bodies are not part of this
    model (laggard/grammar_parser.py:7 imports them from `laggard.helpers`,
    which does not define them); what they do here is ASSUMED, read off the
    docstrings of the `Parser` methods that delegate to them
    (laggard/abstracts.py:35-95): each runs inside `with buffer:` and fails
    through `cry`, like the rule builders' expecters. */
module Primitives {
  import opened Base
  import opened Cursor

  /** A primitive's result and the index the buffer is left at. */
  datatype Parsed<T> = Parsed(r: Result<T>, next: nat)

  function ExpectedOneOf(charset: seq<string>, got: string): string {
    "expected one of " + Join(", ", charset) + ", got '" + got + "'"
  }

  /** `expect(buffer, literal)`: "skip until the first char, and then no
      more", that is `fetch(len(literal), skip="initial")`. */
  function ExpectP(src: string, sk: seq<char>, i: nat, lit: string): (p: Parsed<string>)
    requires i <= |src|
    ensures i <= p.next <= |src|
    ensures p.r.Success? ==> p.r.value == lit
    ensures p.r.Failure? ==> p.next == i
    ensures p.r.Success? && |lit| == 1 ==> p.next > i
  {
    var t := FetchText(src, sk, i, |lit|, Initial);
    if t.text == lit then Parsed(Success(lit), t.next)
    else Parsed(Failure(CryText(src, [i], "expected '" + lit + "', got '" + t.text + "'")), i)
  }

  /** `expectOneOf(buffer, charset, skip)`: one character, skip-set honoured
      only when `skip`. */
  function ExpectOneOfP(src: string, sk: seq<char>, i: nat, charset: seq<string>, skip: bool): (p: Parsed<string>)
    requires i <= |src|
    ensures i <= p.next <= |src|
    ensures p.r.Success? ==> p.r.value in charset
    ensures p.r.Failure? ==> p.next == i
    ensures p.r.Success? && EOF !in charset ==> p.next > i && |p.r.value| == 1
  {
    var t := FetchText(src, sk, i, 1, if skip then Skip else NoSkip);
    assert t == NextChar(src, sk, i, skip) by {
      var c := NextChar(src, sk, i, skip);
      assert FetchRun(src, sk, c.next, 0, skip) == Taken("", c.next);
      assert c.text + "" == c.text;
    }
    if t.text in charset then Parsed(Success(t.text), t.next)
    else Parsed(Failure(CryText(src, [i], ExpectedOneOf(charset, t.text))), i)
  }

  /** Without skipping, `expectOneOf` takes the character at `i` exactly when
      it is one of the charset, and fails at the end of the text when the
      charset has no "[EOF]". */
  lemma ExpectOneOfNoSkip(src: string, sk: seq<char>, i: nat, charset: seq<string>)
    requires i <= |src| && EOF !in charset
    ensures ExpectOneOfP(src, sk, i, charset, false).r.Success? <==> i < |src| && [src[i]] in charset
    ensures ExpectOneOfP(src, sk, i, charset, false).r.Success? ==>
      ExpectOneOfP(src, sk, i, charset, false) == Parsed(Success([src[i]]), i + 1)
  {
    if i < |src| {
      FetchNoSkipIsSlice(src, sk, i, 1);
      assert src[i..i + 1] == [src[i]];
    } else {
      assert FetchRun(src, sk, i, 0, false) == Taken("", i);
      assert FetchText(src, sk, i, 1, NoSkip).text == EOF + "";
    }
  }

  /** The end of the longest run of characters of `charset` from `j`. */
  function RunEnd(src: string, j: nat, charset: seq<string>): (k: nat)
    requires j <= |src|
    ensures j <= k <= |src|
    ensures forall m :: j <= m < k ==> [src[m]] in charset
    ensures k < |src| ==> [src[k]] !in charset
    decreases |src| - j
  {
    if j < |src| && [src[j]] in charset then RunEnd(src, j + 1, charset) else j
  }

  /** `expectManyOutOf(buffer, charset)`: "greedily parse characters from
      charset, at least one", skipping only before the first. */
  function ExpectManyOutOfP(src: string, sk: seq<char>, i: nat, charset: seq<string>): (p: Parsed<string>)
    requires i <= |src|
    ensures i <= p.next <= |src|
    ensures p.r.Failure? ==> p.next == i
    ensures p.r.Success? && EOF !in charset ==> p.next > i && |p.r.value| >= 1
    ensures p.r.Success? && EOF !in charset ==> forall k :: 0 <= k < |p.r.value| ==> [p.r.value[k]] in charset
  {
    var first := NextChar(src, sk, i, true);
    if first.text !in charset then Parsed(Failure(CryText(src, [i], ExpectedOneOf(charset, first.text))), i)
    else
      var k := RunEnd(src, first.next, charset);
      var v := first.text + src[first.next..k];
      assert EOF !in charset ==> [v[0]] == first.text && forall m :: 1 <= m < |v| ==> v[m] == src[first.next + m - 1];
      Parsed(Success(v), k)
  }

  /** The first index at or after `j` whose character is in `stop`, or the
      end of the text. */
  function ScanTo(src: string, j: nat, stop: seq<string>): (k: nat)
    requires j <= |src|
    ensures j <= k <= |src|
    ensures forall m :: j <= m < k ==> [src[m]] !in stop
    ensures k < |src| ==> [src[k]] in stop
    decreases |src| - j
  {
    if j < |src| && [src[j]] !in stop then ScanTo(src, j + 1, stop) else j
  }

  /** `parseUntil(buffer, charset)`: the characters up to the first one in
      `charset`, nothing skipped; the closing character is consumed, and the
      end of the text before it is a failure. */
  function ParseUntilP(src: string, i: nat, stop: seq<string>): (p: Parsed<string>)
    requires i <= |src|
    ensures i <= p.next <= |src|
    ensures p.r.Failure? ==> p.next == i
    ensures p.r.Success? ==> p.next > i && p.r.value == src[i..p.next - 1] && [src[p.next - 1]] in stop
  {
    var k := ScanTo(src, i, stop);
    if k == |src| then Parsed(Failure(CryText(src, [i], ExpectedOneOf(stop, EOF))), i)
    else Parsed(Success(src[i..k]), k + 1)
  }

  /** `expect` on a buffer. */
  method Expect(b: Buffer, lit: string) returns (r: Result<string>)
    requires b.Valid()
    modifies b
    ensures b.Valid() && b.stack == old(b.stack)
    ensures Parsed(r, b.currentIndex) == ExpectP(b.source, b.skip, old(b.currentIndex), lit)
  {
    b.Enter();
    var x := b.Fetch(|lit|, Initial);
    if x == lit {
      b.Exit(false);
      return Success(lit);
    }
    r := Failure(b.Cry("expected '" + lit + "', got '" + x + "'"));
    b.Exit(true);
  }

  /** `expectOneOf` on a buffer. */
  method ExpectOneOf(b: Buffer, charset: seq<string>, skip: bool) returns (r: Result<string>)
    requires b.Valid()
    modifies b
    ensures b.Valid() && b.stack == old(b.stack)
    ensures Parsed(r, b.currentIndex) == ExpectOneOfP(b.source, b.skip, old(b.currentIndex), charset, skip)
  {
    b.Enter();
    var x := b.Fetch(1, if skip then Skip else NoSkip);
    if x in charset {
      b.Exit(false);
      return Success(x);
    }
    r := Failure(b.Cry(ExpectedOneOf(charset, x)));
    b.Exit(true);
  }

  /** `expectManyOutOf` on a buffer: one skipping fetch, then characters
      without skipping while they belong to the charset. */
  method ExpectManyOutOf(b: Buffer, charset: seq<string>) returns (r: Result<string>)
    requires b.Valid()
    modifies b
    ensures b.Valid() && b.stack == old(b.stack)
    ensures Parsed(r, b.currentIndex) == ExpectManyOutOfP(b.source, b.skip, old(b.currentIndex), charset)
  {
    b.Enter();
    var first := b.FetchChar(true);
    if first !in charset {
      r := Failure(b.Cry(ExpectedOneOf(charset, first)));
      b.Exit(true);
      return;
    }
    var rest := TakeRun(b, charset);
    b.Exit(false);
    return Success(first + rest);
  }

  /** The greedy loop of `expectManyOutOf`: characters, none skipped, while
      they belong to the charset. */
  method TakeRun(b: Buffer, charset: seq<string>) returns (acc: string)
    requires b.Valid()
    modifies b`currentIndex
    ensures b.Valid()
    ensures b.currentIndex == RunEnd(b.source, old(b.currentIndex), charset)
    ensures acc == b.source[old(b.currentIndex)..b.currentIndex]
  {
    var start := b.currentIndex;
    acc := "";
    while b.currentIndex < |b.source| && [b.source[b.currentIndex]] in charset
      invariant b.Valid()
      invariant start <= b.currentIndex <= RunEnd(b.source, start, charset)
      invariant RunEnd(b.source, b.currentIndex, charset) == RunEnd(b.source, start, charset)
      invariant acc == b.source[start..b.currentIndex]
      decreases |b.source| - b.currentIndex
    {
      ghost var j := b.currentIndex;
      NextCharNoSkip(b.source, b.skip, j);
      var c := b.FetchChar(false);
      assert b.source[start..j + 1] == b.source[start..j] + c;
      acc := acc + c;
    }
  }

  /** `parseUntil` on a buffer. */
  method ParseUntil(b: Buffer, stop: seq<string>) returns (r: Result<string>)
    requires b.Valid()
    modifies b
    ensures b.Valid() && b.stack == old(b.stack)
    ensures Parsed(r, b.currentIndex) == ParseUntilP(b.source, old(b.currentIndex), stop)
  {
    b.Enter();
    var start := b.currentIndex;
    var acc := "";
    while b.currentIndex < |b.source| && [b.source[b.currentIndex]] !in stop
      invariant b.Valid() && b.stack == old(b.stack) + [start]
      invariant start <= b.currentIndex <= ScanTo(b.source, start, stop)
      invariant ScanTo(b.source, b.currentIndex, stop) == ScanTo(b.source, start, stop)
      invariant acc == b.source[start..b.currentIndex]
      decreases |b.source| - b.currentIndex
    {
      ghost var j := b.currentIndex;
      NextCharNoSkip(b.source, b.skip, j);
      var c := b.FetchChar(false);
      assert b.source[start..j + 1] == b.source[start..j] + c;
      acc := acc + c;
    }
    if b.currentIndex == |b.source| {
      r := Failure(b.Cry(ExpectedOneOf(stop, EOF)));
      b.Exit(true);
      return;
    }
    NextCharNoSkip(b.source, b.skip, b.currentIndex);
    var closing := b.FetchChar(false);
    b.Exit(false);
    return Success(acc);
  }
}
