/** The cursor of laggard/buffer.py: a source text, the current index into it,
    a stack of saved indices for backtracking, and a skip-set of characters that
    fetching may elide. */
module Cursor {
  import opened Base

  /** `infoholders.TextPosition`, a named tuple printed as `Position(lineno=…, columnno=…)`. */
  datatype Position = Position(lineno: int, columnno: int)

  function PosText(p: Position): string {
    "Position(lineno=" + IntToString(p.lineno) + ", columnno=" + IntToString(p.columnno) + ")"
  }

  /** `s.rfind("\n")`: the index of the last line break, or -1. */
  function LastNewline(s: string): (r: int)
    ensures -1 <= r < |s|
    ensures r >= 0 ==> s[r] == '\n'
    ensures forall j :: r < j < |s| ==> s[j] != '\n'
    decreases |s|
  {
    if |s| == 0 then -1
    else if s[|s| - 1] == '\n' then |s| - 1
    else LastNewline(s[..|s| - 1])
  }

  /** `_get_position_from_index`: the slice `source[0:index]` is clamped to the
      text, but the column subtracts from the unclamped index. */
  function PositionOf(src: string, index: nat): Position {
    var before := src[..if index <= |src| then index else |src|];
    Position(CountChar(before, '\n') + 1, index - LastNewline(before))
  }

  /** An independent reading of a 1-based position: walk the text before the
      index, starting at line 1 column 1, moving to the next line's first column
      after every line break and one column right after any other character. */
  function Walk(s: string): Position
    decreases |s|
  {
    if |s| == 0 then Position(1, 1)
    else
      var p := Walk(s[..|s| - 1]);
      if s[|s| - 1] == '\n' then Position(p.lineno + 1, 1) else Position(p.lineno, p.columnno + 1)
  }

  /** Line and column of `_get_position_from_index` are exactly the walked ones. */
  lemma {:induction false} PositionIsWalk(src: string, index: nat)
    requires index <= |src|
    ensures PositionOf(src, index) == Walk(src[..index])
    decreases index
  {
    var s := src[..index];
    if index > 0 {
      var s' := s[..index - 1];
      assert s' == src[..index - 1];
      PositionIsWalk(src, index - 1);
      assert s == s' + [s[index - 1]];
      CountCharAppend(s', [s[index - 1]], '\n');
    }
  }

  /** Every position of an index inside the text is 1-based in both coordinates. */
  lemma PositionIsOneBased(src: string, index: nat)
    requires index <= |src|
    ensures PositionOf(src, index).lineno >= 1 && PositionOf(src, index).columnno >= 1
  {
  }

  /** The `skip` argument of `fetch`: `True`, `False` or `"initial"`. */
  datatype SkipMode = Skip | NoSkip | Initial

  /** What a fetch returns, with the index it leaves behind. */
  datatype Taken = Taken(text: string, next: nat)

  const EOF: string := "[EOF]"

  /** `fetch_char`: characters of the skip-set are consumed silently while
      `skipping`; reading past the end returns the literal "[EOF]". */
  function NextChar(src: string, sk: seq<char>, i: nat, skipping: bool): (t: Taken)
    ensures i <= |src| ==> i <= t.next <= |src|
    ensures i >= |src| ==> t == Taken(EOF, i)
    ensures t.text == EOF || (|t.text| == 1 && i < t.next && t.text == [src[t.next - 1]])
    ensures t.text != EOF && skipping ==> src[t.next - 1] !in sk
    ensures skipping ==> forall j :: i <= j < t.next && (t.text == EOF || j < t.next - 1) ==> src[j] in sk
    decreases |src| - i
  {
    if i >= |src| then Taken(EOF, i)
    else if src[i] !in sk || !skipping then Taken([src[i]], i + 1)
    else NextChar(src, sk, i + 1, skipping)
  }

  /** Without skipping, `fetch_char` takes exactly the next character. */
  lemma NextCharNoSkip(src: string, sk: seq<char>, i: nat)
    requires i < |src|
    ensures NextChar(src, sk, i, false) == Taken([src[i]], i + 1)
  {
  }

  /** With skipping, `fetch_char` reaches the end exactly when only skip-set
      characters remain. */
  lemma {:induction false} NextCharEofIff(src: string, sk: seq<char>, i: nat)
    requires i <= |src|
    ensures NextChar(src, sk, i, true).text == EOF <==> forall j :: i <= j < |src| ==> src[j] in sk
    decreases |src| - i
  {
    if i < |src| && src[i] in sk {
      NextCharEofIff(src, sk, i + 1);
    }
  }

  /** `count` successive `fetch_char(skipping)` results, concatenated (`range`
      of a non-positive count is empty). */
  function FetchRun(src: string, sk: seq<char>, i: nat, count: int, skipping: bool): (t: Taken)
    ensures i <= |src| ==> i <= t.next <= |src|
    decreases if count <= 0 then 0 else count
  {
    if count <= 0 then Taken("", i)
    else
      var c := NextChar(src, sk, i, skipping);
      var rest := FetchRun(src, sk, c.next, count - 1, skipping);
      Taken(c.text + rest.text, rest.next)
  }

  /** `fetch(count, skip)`: in the "initial" mode only the first character is
      fetched with skipping, and it is fetched even when `count` is 0. */
  function FetchText(src: string, sk: seq<char>, i: nat, count: int, mode: SkipMode): (t: Taken)
    ensures i <= |src| ==> i <= t.next <= |src|
  {
    if mode == Initial then
      var first := NextChar(src, sk, i, true);
      var rest := FetchRun(src, sk, first.next, count - 1, false);
      Taken(first.text + rest.text, rest.next)
    else FetchRun(src, sk, i, count, mode == Skip)
  }

  /** Without skipping, a fetch that stays inside the text returns exactly the
      next `count` characters and moves past them. */
  lemma {:induction false} FetchNoSkipIsSlice(src: string, sk: seq<char>, i: nat, count: nat)
    requires i + count <= |src|
    ensures FetchRun(src, sk, i, count, false) == Taken(src[i..i + count], i + count)
    decreases count
  {
    if count > 0 {
      NextCharNoSkip(src, sk, i);
      FetchNoSkipIsSlice(src, sk, i + 1, count - 1);
      assert src[i..i + count] == [src[i]] + src[i + 1..i + count];
    }
  }

  /** With skipping, a stretch free of skip-set characters is fetched verbatim. */
  lemma {:induction false} FetchSkipIsSliceWhenClean(src: string, sk: seq<char>, i: nat, count: nat)
    requires i + count <= |src|
    requires forall j :: i <= j < i + count ==> src[j] !in sk
    ensures FetchRun(src, sk, i, count, true) == Taken(src[i..i + count], i + count)
    decreases count
  {
    if count > 0 {
      FetchSkipIsSliceWhenClean(src, sk, i + 1, count - 1);
      assert src[i..i + count] == [src[i]] + src[i + 1..i + count];
    }
  }

  /** In the "initial" mode, leading skip-set characters are dropped and the
      following `count` characters are then taken verbatim, skip-set or not. */
  lemma FetchInitialSkipsOnlyLeading(src: string, sk: seq<char>, i: nat, j: nat, count: nat)
    requires i <= j && j + count <= |src| && count >= 1
    requires forall k :: i <= k < j ==> src[k] in sk
    requires src[j] !in sk
    ensures FetchText(src, sk, i, count, Initial) == Taken(src[j..j + count], j + count)
  {
    NextCharSkipsTo(src, sk, i, j);
    FetchNoSkipIsSlice(src, sk, j + 1, count - 1);
    assert src[j..j + count] == [src[j]] + src[j + 1..j + count];
  }

  lemma {:induction false} NextCharSkipsTo(src: string, sk: seq<char>, i: nat, j: nat)
    requires i <= j < |src|
    requires forall k :: i <= k < j ==> src[k] in sk
    requires src[j] !in sk
    ensures NextChar(src, sk, i, true) == Taken([src[j]], j + 1)
    decreases j - i
  {
    if i < j {
      NextCharSkipsTo(src, sk, i + 1, j);
    }
  }

  /** `fetch(0, "initial")` still fetches one character. */
  lemma FetchInitialOfZero(src: string, sk: seq<char>, i: nat)
    ensures FetchText(src, sk, i, 0, Initial) == NextChar(src, sk, i, true)
  {
    var first := NextChar(src, sk, i, true);
    assert FetchRun(src, sk, first.next, -1, false) == Taken("", first.next);
    assert first.text + "" == first.text;
  }

  /** `last_pos`: the position of the stack top, or (0, 0) for an empty stack. */
  function LastPosOf(src: string, stack: seq<nat>): Position {
    if |stack| > 0 then PositionOf(src, stack[|stack| - 1]) else Position(0, 0)
  }

  /** The message of the `ParseException` that `cry` raises. */
  function CryText(src: string, stack: seq<nat>, message: string): string {
    "Failed to parse: " + message + " at " + PosText(LastPosOf(src, stack))
  }

  /** `cry` reports the position saved on top of the stack, whatever the
      current index: inside `with buffer:` that is where the attempt began. */
  lemma CryReportsStackTop(src: string, stack: seq<nat>, message: string, top: nat)
    requires |stack| > 0 && stack[|stack| - 1] == top && top <= |src|
    ensures CryText(src, stack, message)
         == "Failed to parse: " + message + " at " + PosText(Walk(src[..top]))
  {
    PositionIsWalk(src, top);
  }

  /** `is_eof`, exactly as written: true while one character is still unread. */
  predicate AtEof(src: string, index: nat) {
    index + 1 >= |src|
  }

  /** `is_eof` holds iff at most one character remains after the index. */
  lemma AtEofIffAtMostOneLeft(src: string, index: nat)
    requires index <= |src|
    ensures AtEof(src, index) <==> |src[index..]| <= 1
  {
  }

  /** A single unread trailing character still counts as the end of input. */
  lemma AtEofWithTrailingChar()
    ensures AtEof("ab", 1) && |"ab"[1..]| == 1
  {
  }

  class Buffer {
    const source: string
    const skip: seq<char>
    var currentIndex: nat
    var stack: seq<nat>

    /** Indices, current and saved, never leave the text. */
    ghost predicate Valid()
      reads this
    {
      currentIndex <= |source| && forall k :: 0 <= k < |stack| ==> stack[k] <= |source|
    }

    constructor (source: string, skip: seq<char>)
      ensures this.source == source && this.skip == skip
      ensures currentIndex == 0 && stack == []
      ensures Valid()
    {
      this.source := source;
      this.skip := skip;
      currentIndex := 0;
      stack := [];
    }

    function LastPos(): Position
      reads this
    {
      LastPosOf(source, stack)
    }

    function CurrentPos(): Position
      reads this
    {
      PositionOf(source, currentIndex)
    }

    method FetchChar(skipping: bool) returns (x: string)
      requires Valid()
      modifies this`currentIndex
      ensures Valid()
      ensures Taken(x, currentIndex) == NextChar(source, skip, old(currentIndex), skipping)
    {
      while true
        invariant currentIndex <= |source|
        invariant NextChar(source, skip, currentIndex, skipping) == NextChar(source, skip, old(currentIndex), skipping)
        decreases |source| - currentIndex
      {
        if currentIndex >= |source| {
          // source[current_index] raises IndexError
          return EOF;
        }
        var c := source[currentIndex];
        currentIndex := currentIndex + 1;
        if c !in skip || !skipping {
          return [c];
        }
      }
    }

    /** The `for i in range(count)` loop of `fetch`. */
    method FetchMany(count: int, skipping: bool) returns (r: string)
      requires Valid()
      modifies this`currentIndex
      ensures Valid()
      ensures Taken(r, currentIndex) == FetchRun(source, skip, old(currentIndex), count, skipping)
    {
      ghost var target := FetchRun(source, skip, currentIndex, count, skipping);
      r := "";
      var k := 0;
      while k < count
        invariant Valid()
        invariant 0 <= k && (count >= 0 ==> k <= count)
        invariant r + FetchRun(source, skip, currentIndex, count - k, skipping).text == target.text
        invariant FetchRun(source, skip, currentIndex, count - k, skipping).next == target.next
      {
        ghost var before := currentIndex;
        var c := FetchChar(skipping);
        ghost var rest := FetchRun(source, skip, currentIndex, count - k - 1, skipping);
        assert FetchRun(source, skip, before, count - k, skipping) == Taken(c + rest.text, rest.next);
        r := r + c;
        k := k + 1;
      }
      assert FetchRun(source, skip, currentIndex, count - k, skipping) == Taken("", currentIndex);
    }

    method Fetch(count: int, mode: SkipMode) returns (r: string)
      requires Valid()
      modifies this`currentIndex
      ensures Valid()
      ensures Taken(r, currentIndex) == FetchText(source, skip, old(currentIndex), count, mode)
    {
      if mode == Initial {
        var first := FetchChar(true);
        var rest := FetchMany(count - 1, false);
        r := first + rest;
      } else {
        r := FetchMany(count, mode == Skip);
      }
    }

    method Peek(count: int, mode: SkipMode) returns (r: string)
      requires Valid()
      modifies this
      ensures Valid()
      ensures r == FetchText(source, skip, old(currentIndex), count, mode).text
      ensures currentIndex == old(currentIndex) && stack == old(stack)
    {
      Mark();
      r := Fetch(count, mode);
      Abandon();
    }

    method Mark()
      requires Valid()
      modifies this`stack
      ensures Valid()
      ensures stack == old(stack) + [currentIndex]
    {
      stack := stack + [currentIndex];
    }

    method Abandon()
      requires Valid() && |stack| > 0
      modifies this
      ensures Valid()
      ensures currentIndex == old(stack[|stack| - 1])
      ensures stack == old(stack[..|stack| - 1])
    {
      currentIndex := stack[|stack| - 1];
      stack := stack[..|stack| - 1];
    }

    method Commit()
      requires Valid() && |stack| > 0
      modifies this`stack
      ensures Valid()
      ensures stack == old(stack[..|stack| - 1])
    {
      stack := stack[..|stack| - 1];
    }

    /** The message `cry` raises with. */
    function Cry(message: string): string
      reads this
    {
      CryText(source, stack, message)
    }

    /** `__enter__`. */
    method Enter()
      requires Valid()
      modifies this`stack
      ensures Valid()
      ensures stack == old(stack) + [currentIndex]
    {
      Mark();
    }

    /** `__exit__`: abandon when the block raised, commit otherwise. Either
        way the stack is back to its depth on entry. */
    method Exit(raised: bool)
      requires Valid() && |stack| > 0
      modifies this
      ensures Valid()
      ensures stack == old(stack[..|stack| - 1])
      ensures currentIndex == if raised then old(stack[|stack| - 1]) else old(currentIndex)
    {
      if raised {
        Abandon();
      } else {
        Commit();
      }
    }

    predicate IsEof()
      reads this
    {
      AtEof(source, currentIndex)
    }
  }

  /** A `with buffer:` block entered at index `i` and left at index `j`:
      on either exit path the stack depth returns to its value on entry, the
      index is restored on the raising path and kept otherwise. */
  method WithBlock(b: Buffer, raised: bool, j: nat)
    requires b.Valid() && j <= |b.source|
    modifies b
    ensures b.Valid()
    ensures b.stack == old(b.stack)
    ensures b.currentIndex == if raised then old(b.currentIndex) else j
  {
    b.Enter();
    b.currentIndex := j;
    b.Exit(raised);
  }
}
