/** The base class `Parser` of laggard/abstracts.py, from which generated
    parsers inherit: it owns a buffer that skips nothing, forwards the
    matching primitives to it, names `with` blocks for debugging and, in
    `parse`, insists that the start rule consumed the input. `parse_start`
    is the subclass's start rule; here it is the outcome handed to `Parse`. */
module ParserBase {
  import opened Base
  import opened Cursor
  import opened Primitives

  /** The message of the `ParseException` `parse` raises when input is left. */
  const NotConsumed: string := "Did not consume whole file."

  /** The `TypeError` that `self.error_stack.append()` raises: `list.append`
      takes exactly one argument. */
  const AppendError: string := "TypeError: list.append() takes exactly one argument (0 given)"

  /** The exception the base class's own `parse_start` raises. */
  const NotImplemented: string := "NotImplementedError"

  class BaseParser {
    const source: string
    const buffer: Buffer
    var stack: seq<Option<string>>
    var errorStack: seq<string>
    var markName: Option<string>

    /** `Parser(source)`: `_get_buffer` builds a buffer with an empty
        skip-set; both stacks start empty and no mark name is set. */
    constructor(source: string)
      ensures this.source == source && fresh(buffer) && buffer.Valid()
      ensures buffer.source == source && buffer.skip == []
      ensures buffer.currentIndex == 0 && buffer.stack == []
      ensures stack == [] && errorStack == [] && markName == None
    {
      this.source := source;
      buffer := new Buffer(source, []);
      stack := [];
      errorStack := [];
      markName := None;
    }

    /** `parse_start` of the base class: subclasses must provide it. */
    method ParseStart() returns (r: Result<string>)
      ensures r == Failure(NotImplemented)
    {
      r := Failure(NotImplemented);
    }

    /** `parse`, given what `parse_start` returned or raised: a raised
        exception passes through; a result is returned only when `is_eof`
        holds, that is with at most one character of input left. */
    method Parse<T>(start: Result<T>) returns (r: Result<T>)
      requires buffer.Valid()
      ensures start.Failure? ==> r == start
      ensures start.Success? ==>
        if |buffer.source[buffer.currentIndex..]| <= 1 then r == start else r == Failure(NotConsumed)
      ensures r.Success? <==> start.Success? && |buffer.source| <= buffer.currentIndex + 1
    {
      AtEofIffAtMostOneLeft(buffer.source, buffer.currentIndex);
      if start.Failure? {
        return start;
      }
      if !buffer.IsEof() {
        return Failure(NotConsumed);
      }
      return start;
    }

    /** `expect`, on the parser's buffer. */
    method Expect(literal: string) returns (r: Result<string>)
      requires buffer.Valid()
      modifies buffer
      ensures buffer.Valid() && buffer.stack == old(buffer.stack)
      ensures Parsed(r, buffer.currentIndex) == ExpectP(buffer.source, buffer.skip, old(buffer.currentIndex), literal)
    {
      r := Primitives.Expect(buffer, literal);
    }

    /** `expectOneOf`, on the parser's buffer. */
    method ExpectOneOf(charset: seq<string>, skip: bool) returns (r: Result<string>)
      requires buffer.Valid()
      modifies buffer
      ensures buffer.Valid() && buffer.stack == old(buffer.stack)
      ensures Parsed(r, buffer.currentIndex) ==
        ExpectOneOfP(buffer.source, buffer.skip, old(buffer.currentIndex), charset, skip)
    {
      r := Primitives.ExpectOneOf(buffer, charset, skip);
    }

    /** `expectManyOutOf`, on the parser's buffer. */
    method ExpectManyOutOf(charset: seq<string>) returns (r: Result<string>)
      requires buffer.Valid()
      modifies buffer
      ensures buffer.Valid() && buffer.stack == old(buffer.stack)
      ensures Parsed(r, buffer.currentIndex) ==
        ExpectManyOutOfP(buffer.source, buffer.skip, old(buffer.currentIndex), charset)
    {
      r := Primitives.ExpectManyOutOf(buffer, charset);
    }

    /** `parseUntil`, on the parser's buffer. */
    method ParseUntil(charset: seq<string>) returns (r: Result<string>)
      requires buffer.Valid()
      modifies buffer
      ensures buffer.Valid() && buffer.stack == old(buffer.stack)
      ensures Parsed(r, buffer.currentIndex) == ParseUntilP(buffer.source, old(buffer.currentIndex), charset)
    {
      r := Primitives.ParseUntil(buffer, charset);
    }

    /** `__call__(name)`: remembers the name for the next `with` block and
        returns the parser itself. */
    method Call(name: string) returns (p: BaseParser)
      modifies this`markName
      ensures p == this && markName == Some(name)
    {
      markName := Some(name);
      p := this;
    }

    /** `__enter__`: pushes the mark name (or `None`), marks the buffer and
        forgets the name. */
    method Enter()
      requires buffer.Valid()
      modifies this`stack, this`markName, buffer`stack
      ensures buffer.Valid()
      ensures stack == old(stack) + [old(markName)] && markName == None
      ensures buffer.stack == old(buffer.stack) + [buffer.currentIndex]
    {
      stack := stack + [markName];
      buffer.Mark();
      markName := None;
    }

    /** `__exit__`: without an exception the buffer's mark is committed.
        With one, `self.error_stack.append()` is called without an argument,
        so a `TypeError` replaces the exception before the buffer is
        abandoned: the mark and the index stay as they are. The name stack
        is never popped. */
    method Exit(raised: bool) returns (err: Option<string>)
      requires buffer.Valid() && (!raised ==> |buffer.stack| > 0)
      modifies buffer`stack
      ensures buffer.Valid()
      ensures raised ==> err == Some(AppendError) && buffer.stack == old(buffer.stack)
      ensures !raised ==> err == None && buffer.stack == old(buffer.stack[..|buffer.stack| - 1])
    {
      if raised {
        return Some(AppendError);
      }
      buffer.Commit();
      return None;
    }

    /** A `with self(name):` block whose body moves the buffer to `j`: the
        name stays on the name stack either way; a normal exit pops the
        buffer's mark and keeps `j`; an exit by exception ends in the
        `TypeError`, with the index left at `j` and the mark left behind. */
    method WithNamed(name: string, raised: bool, j: nat) returns (err: Option<string>)
      requires buffer.Valid() && j <= |buffer.source|
      modifies this`stack, this`markName, buffer
      ensures buffer.Valid()
      ensures stack == old(stack) + [Some(name)] && markName == None
      ensures errorStack == old(errorStack)
      ensures buffer.currentIndex == j
      ensures raised ==> err == Some(AppendError) && buffer.stack == old(buffer.stack) + [old(buffer.currentIndex)]
      ensures !raised ==> err == None && buffer.stack == old(buffer.stack)
    {
      var self := Call(name);
      self.Enter();
      buffer.currentIndex := j;
      err := self.Exit(raised);
    }
  }
}
