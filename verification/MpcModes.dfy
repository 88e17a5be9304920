// Input from files and pipes: when it reads exactly what a string with the same contents would give.
module MpcModes {
  import opened MpcTypes
  import opened Options
  import opened MpcInput

  /** A stream of characters with its position and its end-of-file flag. */
  class Stream {
    const content: string
    var pos: nat
    var eof: bool

    constructor (content: string)
      ensures this.content == content && pos == 0 && !eof
    {
      this.content := content;
      pos, eof := 0, false;
    }

    /** getc: at the end it raises the flag. */
    method Getc() returns (c: Option<char>)
      requires pos <= |content|
      modifies `pos, `eof
      ensures c == (if old(pos) < |content| then Some(content[old(pos)]) else None)
      ensures pos == (if old(pos) < |content| then old(pos) + 1 else old(pos))
      ensures eof == (old(eof) || old(pos) == |content|)
    {
      if pos == |content| {
        eof := true;
        return None;
      }
      c := Some(content[pos]);
      pos := pos + 1;
    }

    /** fseek, and ungetc of the character just read: both lower the flag. */
    method Seek(to: nat)
      requires to <= |content|
      modifies `pos, `eof
      ensures pos == to && !eof
    {
      pos, eof := to, false;
    }
  }

  /** The input in file mode, and in pipe mode, where a buffer holds what was read since the first mark. */
  class StreamInput {
    const piped: bool
    const file: Stream
    var buffer: Option<string>
    var state: State
    var last: char
    var backtrack: int
    var marks: seq<State>
    var lasts: seq<char>

    constructor (piped: bool, file: Stream)
      requires file.pos == 0 && !file.eof && '\0' !in file.content
      ensures Valid() && InStep() && this.file == file && this.piped == piped
      ensures Here() == START && Marks() == [] && backtrack == 1
    {
      this.piped, this.file := piped, file;
      buffer, state, last := None, START_STATE, '\0';
      backtrack, marks, lasts := 1, [], [];
    }

    ghost predicate Valid()
      reads this, file
    {
      && '\0' !in file.content && file.pos <= |file.content| && (file.eof ==> file.pos == |file.content|)
      && 0 <= state.pos <= |file.content| && |marks| == |lasts|
      && MarksWithin(0, |file.content|)
      && (buffer.Some? <==> piped && marks != [])
      && state.pos <= file.pos
      && (piped ==> MarksWithin(0, file.pos))
      && (buffer.Some? ==> 0 <= marks[0].pos <= state.pos && marks[0].pos + |buffer.value| <= file.pos && MarksWithin(marks[0].pos, file.pos))
    }

    ghost predicate MarksWithin(lo: int, hi: int)
      reads `marks
    {
      forall i :: 0 <= i < |marks| ==> lo <= marks[i].pos <= hi
    }

    ghost function Here(): Cursor
      reads this
    {
      Cursor(state, last)
    }

    ghost function Marks(): (ms: seq<Cursor>)
      reads this, file
      requires Valid()
      ensures |ms| == |marks|
    {
      seq(|marks|, i requires 0 <= i < |marks| && |marks| == |lasts| reads this => Cursor(marks[i], lasts[i]))
    }

    predicate BufferInRange()
      reads this
      requires buffer.Some? && marks != []
    {
      state.pos < |buffer.value| + marks[0].pos
    }

    /** Whether the next character comes from the stream, not from the buffer. */
    predicate Streamed()
      reads this, file
      requires Valid()
    {
      buffer.None? || !BufferInRange()
    }

    /** The text still to be read: nothing once the end has been seen, otherwise the rest of the buffer and of the stream. */
    ghost function Coming(): string
      reads this, file
      requires Valid()
    {
      if file.eof then ""
      else if Streamed() then file.content[file.pos..]
      else buffer.value[state.pos - marks[0].pos..] + file.content[file.pos..]
    }

    /** Whether string mode would read the same from here. */
    ghost predicate Agrees()
      reads this, file
      requires Valid()
    {
      Coming() == file.content[state.pos..]
    }

    lemma InStepAgrees()
      requires Valid() && InStep()
      ensures Agrees()
    {
      if buffer.Some? {
        var m := marks[0].pos;
        assert file.content[m..file.pos][state.pos - m..] + file.content[file.pos..] == file.content[state.pos..];
      }
    }

    /** The stream, or the buffer while a mark is held, gives what stands at the position, and the flag is up only at the end. */
    ghost predicate InStep()
      reads this, file
      requires Valid()
    {
      && (file.eof ==> state.pos == file.pos == |file.content|)
      && (buffer.None? ==> file.pos == state.pos)
      && (buffer.Some? ==> Buffered(file.pos))
    }

    /** The buffer is what was read since the first mark, up to hi. */
    ghost predicate Buffered(hi: int)
      reads this, file
      requires Valid() && buffer.Some?
    {
      && 0 <= hi <= |file.content| && marks[0].pos <= state.pos <= hi
      && buffer.value == file.content[marks[0].pos..hi]
      && MarksWithin(marks[0].pos, hi)
    }

    method BacktrackDisable()
      requires Valid() && InStep()
      modifies `backtrack
      ensures Valid() && InStep() && backtrack == old(backtrack) - 1
    {
      backtrack := backtrack - 1;
    }

    method BacktrackEnable()
      requires Valid() && InStep()
      modifies `backtrack
      ensures Valid() && InStep() && backtrack == old(backtrack) + 1
    {
      backtrack := backtrack + 1;
    }

    method Mark()
      requires Valid() && InStep()
      modifies `marks, `lasts, `buffer
      ensures Valid() && InStep()
      ensures Marks() == if backtrack < 1 then old(Marks()) else old(Marks()) + [Here()]
    {
      if backtrack < 1 { return; }
      marks := marks + [state];
      lasts := lasts + [last];
      if piped && |marks| == 1 {
        buffer := Some("");
      }
    }

    /** Dropping the last mark drops the buffer: that is safe exactly when all of it has been read again. */
    method Unmark()
      requires Valid() && InStep() && (backtrack >= 1 ==> Marks() != [])
      modifies `marks, `lasts, `buffer
      ensures Valid()
      ensures Marks() == if backtrack < 1 then old(Marks()) else old(Marks())[..|old(Marks())| - 1]
      ensures Agrees() <==> (backtrack >= 1 && piped && |old(marks)| == 1 ==> state.pos == file.pos)
      ensures if Agrees() then InStep() else Coming() == file.content[file.pos..]
    {
      hide Agrees;
      if backtrack < 1 {
        InStepAgrees();
        return;
      }
      marks := marks[..|marks| - 1];
      lasts := lasts[..|lasts| - 1];
      if piped && |marks| == 0 {
        buffer := None;
      }
      if !piped || |old(marks)| > 1 || state.pos == file.pos {
        InStepAgrees();
      } else {
        Behind();
      }
    }

    /** What has gone past in the stream cannot come again. */
    lemma Behind()
      requires Valid() && (file.eof || buffer.None?) && file.pos != state.pos
      ensures !Agrees() && Coming() == file.content[file.pos..]
    {
      assert |file.content[file.pos..]| == |file.content| - file.pos && |file.content[state.pos..]| == |file.content| - state.pos;
    }

    /** Going back is always safe in a file. In a pipe it is safe exactly when it is not the last mark that is given up
        with characters read since, and the end of the pipe has not been seen, or nothing was read since the mark. */
    method Rewind()
      requires Valid() && InStep() && (backtrack >= 1 ==> Marks() != [])
      modifies `state, `last, `marks, `lasts, `buffer, file`pos, file`eof
      ensures Valid() && (piped || backtrack < 1 ==> file.pos == old(file.pos) && file.eof == old(file.eof))
      ensures backtrack < 1 ==> Here() == old(Here()) && Marks() == old(Marks())
      ensures backtrack >= 1 ==> Marks() == old(Marks())[..|old(Marks())| - 1] && Here() == old(Marks())[|old(Marks())| - 1]
      ensures Agrees() <==> (backtrack >= 1 && piped && (|old(marks)| == 1 || old(file.eof)) ==> state.pos == old(file.pos))
      ensures if Agrees() then InStep() else Coming() == file.content[file.pos..]
    {
      hide Agrees, Coming, Streamed;
      if backtrack < 1 {
        InStepAgrees();
        return;
      }
      state := marks[|marks| - 1];
      last := lasts[|lasts| - 1];
      if !piped {
        file.Seek(state.pos);
      }
      marks := marks[..|marks| - 1];
      lasts := lasts[..|lasts| - 1];
      if piped && |marks| == 0 {
        buffer := None;
      }
      if !piped || (|marks| > 0 && !file.eof) || state.pos == file.pos {
        InStepAgrees();
      } else {
        Behind();
      }
    }

    /** The next character, from the buffer or the stream. */
    method Getc() returns (c: Option<char>)
      requires Valid()
      modifies file`pos, file`eof
      ensures Valid() && (file.eof <==> old(Coming()) == "") && (!file.eof ==> c == Some(old(Coming())[0]) && Fetched())
      ensures Streamed() == old(Streamed()) && (file.eof ==> file.pos == old(file.pos) && Coming() == "")
      ensures !file.eof ==> file.pos == if Streamed() then old(file.pos) + 1 else old(file.pos)
      ensures !file.eof ==> if Streamed() then old(Coming()) == file.content[old(file.pos)..] else Coming() == old(Coming())
      ensures old(InStep()) ==> (Streamed() <==> old(file.pos) == state.pos)
      ensures old(InStep()) ==> if file.eof then InStep() && state.pos == |file.content|
                                else FetchedInStep() && c.value == file.content[state.pos]
    {
      if buffer.Some? && BufferInRange() {
        return Some(buffer.value[state.pos - marks[0].pos]);
      }
      c := file.Getc();
    }

    /** The next character without reading it; NUL at the end. */
    method Peekc() returns (c: char)
      requires Valid() && InStep()
      modifies file`pos, file`eof
      ensures Valid() && InStep() && file.pos == old(file.pos) && (file.eof <==> state.pos == |file.content|)
      ensures c == CharAt(file.content, state.pos)
    {
      if buffer.Some? && BufferInRange() {
        return buffer.value[state.pos - marks[0].pos];
      }
      var d := file.Getc();
      if file.eof { return '\0'; }
      c := d.value;
      file.Seek(file.pos - 1);
    }

    /** A character has been taken from the buffer or the stream. */
    ghost predicate Fetched()
      reads this, file
      requires Valid()
    {
      && !file.eof
      && (Streamed() ==> state.pos < file.pos && (piped ==> MarksWithin(0, file.pos - 1)))
      && (Streamed() && buffer.Some? ==> marks[0].pos + |buffer.value| < file.pos && MarksWithin(marks[0].pos, file.pos - 1))
    }

    /** If nothing was out of step before it was taken, nothing is once the input has moved on. */
    ghost predicate FetchedInStep()
      reads this, file
      requires Valid()
    {
      && Fetched() && state.pos < |file.content|
      && (buffer.None? ==> file.pos == state.pos + 1)
      && (buffer.Some? ==> (Buffered(file.pos) && state.pos < file.pos) || (Buffered(file.pos - 1) && state.pos == file.pos - 1))
    }

    lemma Tail(s: string, k: nat, rest: string)
      requires k < |s|
      ensures (s[k..] + rest)[1..] == s[k + 1..] + rest
    {
    }

    lemma Longer(s: string, lo: nat, hi: nat)
      requires lo <= hi < |s|
      ensures s[lo..hi] + [s[hi]] == s[lo..hi + 1]
    {
    }

    method Success(c: char)
      requires Valid() && Fetched()
      modifies `state, `last, `buffer
      ensures Valid() && !file.eof && Here() == Advance(c, old(Here()))
      ensures Coming() == if old(Streamed()) then file.content[file.pos..] else old(Coming())[1..]
      ensures old(FetchedInStep()) && c == file.content[old(state).pos] ==> InStep()
    {
      hide MarksWithin;
      if !Streamed() {
        Tail(buffer.value, state.pos - marks[0].pos, file.content[file.pos..]);
      } else if FetchedInStep() && buffer.Some? {
        Longer(file.content, marks[0].pos, state.pos);
      }
      if buffer.Some? && !BufferInRange() {
        buffer := Some(buffer.value + [c]);
      }
      last := c;
      state := State(state.pos + 1, state.row, state.col + 1);
      if c == '\n' {
        state := State(state.pos, state.row + 1, 0);
      }
    }

    /** Puts back a character that was not accepted. */
    method Failure()
      requires Valid() && Fetched()
      modifies file`pos, file`eof
      ensures Valid() && !file.eof && file.pos == if old(Streamed()) then old(file.pos) - 1 else old(file.pos)
      ensures Coming() == if old(Streamed()) then file.content[file.pos..] else old(Coming())
      ensures old(FetchedInStep()) ==> InStep()
    {
      if buffer.None? || !BufferInRange() {
        file.Seek(file.pos - 1);
      }
    }

    /** Reads a character that p accepts: the next of what is coming, which in step is what a string gives. */
    method Character(p: Parser) returns (ok: bool)
      requires Valid() && IsCharParser(p)
      modifies `state, `last, `buffer, file`pos, file`eof
      ensures Valid() && Marks() == old(Marks())
      ensures ok == (old(Coming()) != "" && Accepts(p, old(Coming())[0]))
      ensures Here() == if ok then Advance(old(Coming())[0], old(Here())) else old(Here())
      ensures Coming() == if ok then old(Coming())[1..] else old(Coming())
      ensures old(InStep()) ==> InStep() && ok == Reads(file.content, p, old(Here()))
      ensures old(InStep()) ==> Here() == if ok then Advance(CharAt(file.content, old(state).pos), old(Here())) else old(Here())
      ensures old(InStep()) ==> (file.eof <==> !ok && state.pos == |file.content|)
      ensures old(InStep()) ==> file.pos == if ok && old(file.pos) == old(state).pos then old(file.pos) + 1 else old(file.pos)
    {
      hide Coming, InStep, FetchedInStep, Streamed, Fetched, Agrees, Valid, Advance, Accepts;
      var x := Getc();
      if file.eof { return false; }
      if Accepts(p, x.value) {
        Success(x.value);
        return true;
      }
      Failure();
      ok := false;
    }

    /** Reads a literal, going back if it is not there. A pipe survives that unless characters were read since an outermost mark,
        or up to its end; otherwise the characters read are lost. */
    method Literal(str: string) returns (ok: bool)
      requires Valid() && InStep()
      modifies `state, `last, `marks, `lasts, `buffer, file`pos, file`eof
      ensures Valid() && Marks() == old(Marks())
      ensures var n := Matched(file.content, str, old(state).pos);
              && ok == (n == |str|)
              && var read := AdvanceBy(str[..n], old(Here()));
                 Here() == if ok then read else Back(backtrack, old(Here()), read)
      ensures var n := Matched(file.content, str, old(state).pos);
        Agrees() <==> !piped || backtrack < 1 || ok || n == 0 || (old(marks) != [] && old(state).pos + n < |file.content|)
      ensures var n := Matched(file.content, str, old(state).pos);
        if Agrees() then InStep() else Coming() == file.content[old(state).pos + n..]
      ensures var n := Matched(file.content, str, old(state).pos);
        piped ==> file.pos == Later(old(file.pos), old(state).pos + n) && file.eof == EndSeen(file.content, str, old(state).pos, old(file.eof))
    {
      hide Matched, AdvanceBy, Buffered;
      Mark();
      var x := ReadMatching(str);
      assert str[..|str|] == str;
      if x < |str| {
        Rewind();
        return false;
      }
      Unmark();
      ok := true;
    }

    /** Reads as much of a literal as is there. */
    method ReadMatching(str: string) returns (x: nat)
      requires Valid() && InStep()
      modifies `state, `last, `buffer, file`pos, file`eof
      ensures Valid() && InStep() && Marks() == old(Marks())
      ensures x == Matched(file.content, str, old(state).pos) && Here() == AdvanceBy(str[..x], old(Here()))
      ensures state.pos == old(state).pos + x
      ensures file.pos == Later(old(file.pos), state.pos)
      ensures file.eof == EndSeen(file.content, str, old(state).pos, old(file.eof))
    {
      hide Coming, Streamed, Buffered, MarksWithin;
      x := 0;
      ghost var h := Here();
      assert str[0..] == str;
      while x < |str|
        invariant 0 <= x <= |str| && Valid() && InStep() && Marks() == old(Marks())
        invariant file.eof ==> state.pos == |file.content|
        invariant Matched(file.content, str, h.state.pos) == x + Matched(file.content, str[x..], state.pos)
        invariant Here() == AdvanceBy(str[..x], h) && state.pos == h.state.pos + x
        invariant file.pos == Later(old(file.pos), state.pos)
        invariant file.eof == (x == 0 && old(file.eof))
      {
        MatchedStep(file.content, str, x, state.pos);
        AdvanceByStep(str, x, h);
        var more := Character(Single(str[x]));
        if !more {
          return;
        }
        x := x + 1;
      }
    }
  }

  function Later(a: int, b: int): int { if a < b then b else a }

  /** Whether the end of the text has been seen once a literal has been read as far as it is there, if it had been seen before as told. */
  function EndSeen(txt: string, str: string, pos: int, before: bool): bool
    requires 0 <= pos <= |txt|
  {
    if str == "" then before else Matched(txt, str, pos) < |str| && pos + Matched(txt, str, pos) == |txt|
  }

  /** On "ab", after looking for "ac" in vain, a string still has its 'a'; a pipe with no mark held has lost it. */
  method LostInPipe() returns (pipe: bool, str: bool)
    ensures !pipe && str
  {
    var stream := new Stream("ab");
    var i := new StreamInput(true, stream);
    var found := i.Literal("ac");
    pipe := i.Character(Single('a'));
    var j := new Input("ab");
    found := j.Literal("ac");
    var c;
    str, c := j.Character(Single('a'));
  }
}
