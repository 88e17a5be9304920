// Any number of calls to an input, each chosen by what was answered before: a file answers as a string with the same contents does,
// and so does a pipe as long as no call asks for what is gone.
module MpcSessions {
  import opened MpcTypes
  import opened Options
  import opened MpcInput
  import opened MpcModes

  datatype Call = Mark | Unmark | Rewind | Disable | Enable | Where | Peek | Character(p: Parser) | Literal(str: string)

  datatype Answer = Nothing | At(cur: Cursor) | Is(ok: bool) | Next(c: char)

  /** What the input is, to those who call it. */
  datatype Session = Session(cur: Cursor, marks: seq<Cursor>, bt: int)

  /** A mark is taken back only if one is held. */
  predicate Allowed(s: Session, call: Call) {
    match call
    case Unmark => s.bt >= 1 ==> s.marks != []
    case Rewind => s.bt >= 1 ==> s.marks != []
    case Character(p) => IsCharParser(p)
    case _ => true
  }

  function Replied(txt: string, s: Session, call: Call): Answer
    requires Allowed(s, call)
  {
    match call
    case Where => At(s.cur)
    case Peek => Next(CharAt(txt, s.cur.state.pos))
    case Character(p) => Is(Reads(txt, p, s.cur))
    case Literal(str) => Is(Matched(txt, str, s.cur.state.pos) == |str|)
    case _ => Nothing
  }

  function After(txt: string, s: Session, call: Call): Session
    requires Allowed(s, call)
  {
    match call
    case Mark => if s.bt < 1 then s else s.(marks := s.marks + [s.cur])
    case Unmark => if s.bt < 1 then s else s.(marks := s.marks[..|s.marks|-1])
    case Rewind => if s.bt < 1 then s else s.(marks := s.marks[..|s.marks|-1], cur := s.marks[|s.marks|-1])
    case Disable => s.(bt := s.bt - 1)
    case Enable => s.(bt := s.bt + 1)
    case Where | Peek => s
    case Character(p) => if Reads(txt, p, s.cur) then s.(cur := Advance(CharAt(txt, s.cur.state.pos), s.cur)) else s
    case Literal(str) =>
      var n := Matched(txt, str, s.cur.state.pos);
      var read := AdvanceBy(str[..n], s.cur);
      s.(cur := if n == |str| then read else Back(s.bt, s.cur, read))
  }

  ghost function OfString(i: Input): Session
    reads i
    requires i.Valid()
  {
    Session(i.Here(), i.Marks(), i.backtrack)
  }

  ghost function OfStream(i: StreamInput): Session
    reads i, i.file
    requires i.Valid()
  {
    Session(i.Here(), i.Marks(), i.backtrack)
  }

  method AskString(i: Input, call: Call) returns (a: Answer)
    requires i.Valid() && Allowed(OfString(i), call)
    modifies i
    ensures i.Valid() && a == old(Replied(i.text, OfString(i), call)) && OfString(i) == old(After(i.text, OfString(i), call))
  {
    hide Matched, AdvanceBy;
    a := Nothing;
    match call
    case Mark => i.Mark();
    case Unmark => i.Unmark();
    case Rewind => i.Rewind();
    case Disable => i.BacktrackDisable();
    case Enable => i.BacktrackEnable();
    case Where => a := At(Cursor(i.state, i.last));
    case Peek => var c := i.Peekc(); a := Next(c);
    case Character(p) => var ok, c := i.Character(p); a := Is(ok);
    case Literal(str) => var ok := i.Literal(str); a := Is(ok);
  }

  /** How far a pipe has been read, and whether its end has been seen. */
  datatype Pipe = Pipe(hi: int, eof: bool)

  ghost function PipeOf(i: StreamInput): Pipe
    reads i, i.file
  {
    Pipe(i.file.pos, i.file.eof)
  }

  /** Whether a pipe can still give all that string mode will ask for after the call. */
  predicate Safe(txt: string, s: Session, q: Pipe, call: Call)
    requires Allowed(s, call) && 0 <= s.cur.state.pos <= |txt|
  {
    match call
    case Unmark => s.bt >= 1 && |s.marks| == 1 ==> s.cur.state.pos == q.hi
    case Rewind => s.bt >= 1 && (|s.marks| == 1 || q.eof) ==> s.marks[|s.marks|-1].state.pos == q.hi
    case Literal(str) =>
      var n := Matched(txt, str, s.cur.state.pos);
      s.bt < 1 || n == |str| || n == 0 || (s.marks != [] && s.cur.state.pos + n < |txt|)
    case _ => true
  }

  function PipeAfter(txt: string, s: Session, q: Pipe, call: Call): Pipe
    requires Allowed(s, call) && 0 <= s.cur.state.pos <= |txt|
  {
    var pos := s.cur.state.pos;
    match call
    case Peek => q.(eof := pos == |txt|)
    case Character(p) => var ok := Reads(txt, p, s.cur); Pipe(if ok && q.hi == pos then q.hi + 1 else q.hi, !ok && pos == |txt|)
    case Literal(str) => Pipe(Later(q.hi, pos + Matched(txt, str, pos)), EndSeen(txt, str, pos, q.eof))
    case _ => q
  }

  /** One call to a file or a pipe: a pipe agrees with string mode afterwards if and only if the call is safe. */
  method AskStream(i: StreamInput, call: Call) returns (a: Answer)
    requires i.Valid() && i.InStep() && Allowed(OfStream(i), call)
    modifies i, i.file
    ensures i.Valid() && (i.Agrees() <==> !i.piped || old(Safe(i.file.content, OfStream(i), PipeOf(i), call))) && (i.Agrees() ==> i.InStep())
    ensures a == old(Replied(i.file.content, OfStream(i), call)) && OfStream(i) == old(After(i.file.content, OfStream(i), call))
    ensures i.piped ==> PipeOf(i) == old(PipeAfter(i.file.content, OfStream(i), PipeOf(i), call))
  {
    hide Matched, AdvanceBy, EndSeen, Later, Advance, StreamInput.InStep, StreamInput.Agrees, StreamInput.Coming;
    a := Nothing;
    match call
    case Mark => i.Mark(); i.InStepAgrees();
    case Unmark => i.Unmark();
    case Rewind => i.Rewind();
    case Disable => i.BacktrackDisable(); i.InStepAgrees();
    case Enable => i.BacktrackEnable(); i.InStepAgrees();
    case Where => a := At(Cursor(i.state, i.last)); i.InStepAgrees();
    case Peek => var c := i.Peekc(); a := Next(c); i.InStepAgrees();
    case Character(p) => var ok := i.Character(p); a := Is(ok); i.InStepAgrees();
    case Literal(str) => var ok := i.Literal(str); a := Is(ok);
  }

  /** Someone who calls the input: the next call depends on the answers so far. A parse is one. */
  type Client = seq<Answer> -> Call

  datatype Talk = Talk(s: Session, q: Pipe, answers: seq<Answer>)

  /** What n calls of a client come to; None if one of them is not allowed, or not safe in a pipe. */
  function Told(txt: string, t: Talk, piped: bool, client: Client, n: nat): Option<Talk> {
    if n == 0 then Some(t)
    else
      match Told(txt, t, piped, client, n - 1)
      case None => None
      case Some(u) =>
        var call := client(u.answers);
        if !Allowed(u.s, call) then None
        else if piped && !(0 <= u.s.cur.state.pos <= |txt| && Safe(txt, u.s, u.q, call)) then None
        else Some(Talk(After(txt, u.s, call), if piped then PipeAfter(txt, u.s, u.q, call) else u.q,
                       u.answers + [Replied(txt, u.s, call)]))
  }

  /** A client is told what a string would have told it, by a file always, and by a pipe as long as it asks for nothing that is gone. */
  lemma {:induction false} TellsTheSame(txt: string, t: Talk, piped: bool, q: Pipe, client: Client, n: nat)
    requires Told(txt, t, piped, client, n).Some?
    ensures var u := Told(txt, t.(q := q), false, client, n);
      u.Some? && u.value.s == Told(txt, t, piped, client, n).value.s && u.value.answers == Told(txt, t, piped, client, n).value.answers
  {
    hide Allowed, Safe, After, PipeAfter, Replied;
    if n > 0 { TellsTheSame(txt, t, piped, q, client, n - 1); }
  }

  lemma {:induction false} ToldSoFar(txt: string, t: Talk, piped: bool, client: Client, n: nat, m: nat)
    requires m <= n && Told(txt, t, piped, client, n).Some?
    ensures Told(txt, t, piped, client, m).Some?
    decreases n
  {
    hide Allowed, Safe, After, PipeAfter, Replied;
    if m < n { ToldSoFar(txt, t, piped, client, n - 1, m); }
  }

  /** n calls of a client to a string. */
  method AskStringAll(i: Input, client: Client, n: nat) returns (answers: seq<Answer>)
    requires i.Valid() && Told(i.text, Talk(OfString(i), Pipe(0, false), []), false, client, n).Some?
    modifies i
    ensures i.Valid()
    ensures var u := old(Told(i.text, Talk(OfString(i), Pipe(0, false), []), false, client, n)).value;
      answers == u.answers && OfString(i) == u.s
  {
    hide Allowed, After, Replied;
    ghost var t := Talk(OfString(i), Pipe(0, false), []);
    answers := [];
    for m := 0 to n
      invariant i.Valid() && Told(i.text, t, false, client, m) == Some(Talk(OfString(i), Pipe(0, false), answers))
    {
      ToldSoFar(i.text, t, false, client, n, m + 1);
      var a := AskString(i, client(answers));
      answers := answers + [a];
    }
  }

  /** n calls of a client to a file or a pipe. A file tells it what a string would tell, and so does a pipe that is asked for nothing
      that is gone. */
  method AskStreamAll(i: StreamInput, client: Client, n: nat) returns (answers: seq<Answer>)
    requires i.Valid() && i.InStep() && Told(i.file.content, Talk(OfStream(i), PipeOf(i), []), i.piped, client, n).Some?
    modifies i, i.file
    ensures i.Valid() && i.InStep()
    ensures var u := old(Told(i.file.content, Talk(OfStream(i), Pipe(0, false), []), false, client, n));
      u.Some? && answers == u.value.answers && OfStream(i) == u.value.s
  {
    hide Allowed, Safe, After, PipeAfter, Replied;
    ghost var txt, t, q := i.file.content, Talk(OfStream(i), PipeOf(i), []), PipeOf(i);
    answers := [];
    for m := 0 to n
      invariant i.Valid() && i.InStep()
      invariant Told(txt, t, i.piped, client, m) == Some(Talk(OfStream(i), q, answers)) && (i.piped ==> q == PipeOf(i))
    {
      ToldSoFar(txt, t, i.piped, client, n, m + 1);
      q := if i.piped then PipeAfter(txt, OfStream(i), q, client(answers)) else q;
      var a := AskStream(i, client(answers));
      answers := answers + [a];
    }
    TellsTheSame(txt, t, i.piped, Pipe(0, false), client, n);
  }
}
