// Values, errors, parsers and input positions of the parser combinator library.
module MpcTypes {
  import opened Options

  /** A position in the input (row and column start at 0). */
  datatype State = State(pos: int, row: int, col: int)

  const INVALID_STATE := State(-1, -1, -1)
  const START_STATE := State(0, 0, 0)

  /** What the input remembers about where it is: the position and the last character read. */
  datatype Cursor = Cursor(state: State, last: char)

  const START := Cursor(START_STATE, '\0')

  /** A parse error. An error either lists what was expected or carries a failure message. */
  datatype Err = Err(state: State, expected: seq<string>, failure: Option<string>)

  datatype Ast = Ast(tag: string, contents: string, state: State, children: seq<Ast>)

  /** The values parsers produce. Null is C's NULL. */
  datatype Val =
    | Null
    | Str(s: string)
    | Position(state: State)
    | Tree(ast: Ast)

  /** The result of a parser: an output or an error. */
  datatype Res = Out(v: Val) | Er(e: Err)

  /** A destructor is known by its number only; which one ran on which value is recorded. */
  type Dtor = nat
  datatype Destroyed = Destroyed(dtor: Dtor, v: Val)

  type Fold = seq<Val> -> Val

  /** One constructor for each type of parser. Lift stands for both lifted constructors and
      lifted values. Ref is a pointer to a retained parser, known by its name. */
  datatype Parser =
    | Undefined
    | Pass
    | Fail(m: string)
    | Lift(lv: Val)
    | StateOf
    | Anchor(anchor: (char, char) -> bool)
    | Any
    | Single(c: char)
    | Range(lo: char, hi: char)
    | OneOf(cs: string)
    | NoneOf(cs: string)
    | Satisfy(cond: char -> bool)
    | String(str: string)
    | Expect(x: Parser, expected: string)
    | Apply(x: Parser, f: Val -> Val)
    | ApplyTo(x: Parser, f2: (Val, Val) -> Val, d: Val)
    | Predict(x: Parser)
    | Not(x: Parser, dx: Dtor, lf: Val)
    | Maybe(x: Parser, lf: Val)
    | Many(x: Parser, fold: Fold)
    | Many1(x: Parser, fold: Fold)
    | Count(n: int, x: Parser, fold: Fold, dx: Dtor)
    | Or(xs: seq<Parser>)
    | And(xs: seq<Parser>, fold: Fold, dxs: seq<Dtor>)
    | Ref(name: string)

  /** The definitions of the retained parsers. A definition is copied into its parser, so it is
      never itself a reference. */
  type Grammar = g: map<string, Parser> | forall name <- g :: !g[name].Ref? witness map[]

  /** The parser that a pointer leads to; a retained parser without definition is undefined. */
  function Resolve(g: Grammar, p: Parser): (q: Parser)
    ensures !q.Ref?
  {
    if !p.Ref? then p else if p.name in g then g[p.name] else Undefined
  }

  /** Everything but the control state that a parse reads and writes: where the input is, the
      error merged so far from abandoned branches, and the destructor calls made so far. */
  datatype World = World(cur: Cursor, err: Err, log: seq<Destroyed>)
}
