// What a parser does to the position in the input: it never ends before its start, and where it ends
// row, column and last character are those of the text read so far.
module MpcCursors {
  import opened MpcTypes
  import opened MpcErrors
  import opened MpcInput
  import opened MpcBigStep

  type Relation = (Cursor, Cursor) -> bool

  /** A relation between cursors that reading characters and starting over respect. */
  ghost predicate Respected(txt: string, rel: Relation) {
    && (forall c :: rel(c, c))
    && (forall a, b, c {:trigger rel(a, b), rel(b, c)} :: rel(a, b) && rel(b, c) ==> rel(a, c))
    && (forall p: Parser, bt: int, w: World {:trigger LeafOutcome(txt, p, bt, w)} :: IsLeaf(p) ==> rel(w.cur, LeafOutcome(txt, p, bt, w).w.cur))
  }

  lemma BlameAllKeepsCursor(w: World, es: seq<Err>)
    ensures BlameAll(w, es).cur == w.cur
    decreases |es|
  {
    if es != [] { BlameAllKeepsCursor(Blame(w, es[|es|-1]), es[..|es|-1]); }
  }

  lemma {:induction false} DestroyKeeps(w: World, vs: seq<Val>, dxs: seq<Dtor>)
    ensures Destroy(w, vs, dxs).cur == w.cur && Destroy(w, vs, dxs).err == w.err
    decreases |vs|
  {
    if vs != [] {
      var i := |vs| - 1;
      DestroyKeeps(w.(log := w.log + [Destroyed(DtorAt(dxs, i), vs[i])]), vs[..i], dxs);
    }
  }

  lemma {:induction false} DestroySameKeeps(w: World, vs: seq<Val>, dx: Dtor)
    ensures DestroySame(w, vs, dx).cur == w.cur && DestroySame(w, vs, dx).err == w.err
    decreases |vs|
  {
    if vs != [] { DestroySameKeeps(w.(log := w.log + [Destroyed(dx, vs[|vs|-1])]), vs[..|vs|-1], dx); }
  }

  /** Where a unary parser leaves the input: where the parser it runs leaves it, or back at the start. */
  lemma AfterUnaryCursor(p: Parser, bt: int, w: World, o: Outcome)
    requires IsUnary(p)
    ensures AfterUnary(p, bt, w, o).w.cur == if p.Not? && o.r.Out? then Back(bt, w.cur, o.w.cur) else o.w.cur
  {
    hide ErrOr;
    if p.Not? && o.r.Out? { DestroySameKeeps(Rewound(bt, w, o.w), [o.r.v], p.dx); }
  }

  lemma AfterRepeatCursor(p: Parser, bt: int, w: World, s: Stop)
    requires IsRepeat(p)
    ensures AfterRepeat(p, bt, w, s).w.cur == if p.Count? && |s.vs| != p.n then Back(bt, w.cur, s.w.cur) else s.w.cur
  {
    hide ErrOr, ErrCount, ErrMany1;
    if p.Count? { DestroySameKeeps(s.w, s.vs, p.dx); }
  }

  lemma AfterAndCursor(p: Parser, bt: int, w: World, s: Seq)
    requires p.And?
    ensures AfterAnd(p, bt, w, s).w.cur == if s.Broken? then Back(bt, w.cur, s.w.cur) else s.w.cur
  {
    if s.Broken? { DestroyKeeps(Rewound(bt, w, s.w), s.vs, p.dxs); }
  }

  lemma {:induction false} EvalRespects(g: Grammar, txt: string, k: nat, p: Parser, bt: int, w: World, rel: Relation)
    requires Respected(txt, rel) && !p.Ref? && Eval(g, txt, k, p, bt, w).Some?
    ensures rel(w.cur, Eval(g, txt, k, p, bt, w).value.w.cur)
    decreases k, 0
  {
    hide LeafOutcome, AfterUnary, AfterRepeat, AfterAnd;
    if IsLeaf(p) {
      var o := LeafOutcome(txt, p, bt, w);
    } else if IsUnary(p) {
      var o := Eval(g, txt, k - 1, Resolve(g, p.x), Inner(p, bt), w).value;
      EvalRespects(g, txt, k - 1, Resolve(g, p.x), Inner(p, bt), w, rel);
      AfterUnaryCursor(p, bt, w, o);
    } else if IsRepeat(p) {
      ManyRespects(g, txt, k - 1, p.x, bt, w, [], rel);
      AfterRepeatCursor(p, bt, w, EvalMany(g, txt, k - 1, p.x, bt, w, []).value);
    } else if p.Or? {
      if p.xs != [] { OrRespects(g, txt, k - 1, p.xs, bt, w, [], rel); }
    } else if p.xs != [] {
      AndRespects(g, txt, k - 1, p.xs, bt, w, [], rel);
      AfterAndCursor(p, bt, w, EvalAnd(g, txt, k - 1, p.xs, bt, w, []).value);
    }
  }

  lemma {:induction false} ManyRespects(g: Grammar, txt: string, k: nat, x: Parser, bt: int, w: World,
          vs: seq<Val>, rel: Relation)
    requires Respected(txt, rel) && EvalMany(g, txt, k, x, bt, w, vs).Some?
    ensures rel(w.cur, EvalMany(g, txt, k, x, bt, w, vs).value.w.cur)
    decreases k, 1
  {
    EvalRespects(g, txt, k, Resolve(g, x), bt, w, rel);
    var o := Eval(g, txt, k, Resolve(g, x), bt, w).value;
    if o.r.Out? { ManyRespects(g, txt, k - 1, x, bt, o.w, vs + [o.r.v], rel); }
  }

  lemma {:induction false} OrRespects(g: Grammar, txt: string, k: nat, xs: seq<Parser>, bt: int, w: World,
          es: seq<Err>, rel: Relation)
    requires Respected(txt, rel) && |es| < |xs| && EvalOr(g, txt, k, xs, bt, w, es).Some?
    ensures rel(w.cur, EvalOr(g, txt, k, xs, bt, w, es).value.w.cur)
    decreases k, 1
  {
    EvalRespects(g, txt, k, Resolve(g, xs[|es|]), bt, w, rel);
    var o := Eval(g, txt, k, Resolve(g, xs[|es|]), bt, w).value;
    if o.r.Out? { BlameAllKeepsCursor(o.w, es); }
    else if |es| + 1 < |xs| { OrRespects(g, txt, k - 1, xs, bt, o.w, es + [o.r.e], rel); }
  }

  lemma {:induction false} AndRespects(g: Grammar, txt: string, k: nat, xs: seq<Parser>, bt: int, w: World,
          vs: seq<Val>, rel: Relation)
    requires Respected(txt, rel) && |vs| < |xs| && EvalAnd(g, txt, k, xs, bt, w, vs).Some?
    ensures rel(w.cur, EvalAnd(g, txt, k, xs, bt, w, vs).value.w.cur)
    decreases k, 1
  {
    EvalRespects(g, txt, k, Resolve(g, xs[|vs|]), bt, w, rel);
    var o := Eval(g, txt, k, Resolve(g, xs[|vs|]), bt, w).value;
    if o.r.Out? && |vs| + 1 < |xs| { AndRespects(g, txt, k - 1, xs, bt, o.w, vs + [o.r.v], rel); }
  }

  /** c is how many characters of s follow the last newline. */
  ghost predicate IsColumn(s: string, c: int) {
    && 0 <= c <= |s|
    && (forall i :: |s| - c <= i < |s| ==> s[i] != '\n')
    && (c == |s| || s[|s|-c-1] == '\n')
  }

  /** The cursor is where reading txt[..pos] leads. */
  ghost predicate AtText(txt: string, c: Cursor) {
    var s := c.state;
    && 0 <= s.pos <= |txt|
    && s.row == multiset(txt[..s.pos])['\n']
    && IsColumn(txt[..s.pos], s.col)
    && c.last == if s.pos == 0 then '\0' else txt[s.pos-1]
  }

  lemma AdvanceAtText(txt: string, c: Cursor)
    requires AtText(txt, c) && c.state.pos < |txt|
    ensures AtText(txt, Advance(txt[c.state.pos], c))
  {
    var n := c.state.pos;
    assert txt[..n+1] == txt[..n] + [txt[n]];
    assert txt[..n+1][..n] == txt[..n];
  }

  lemma {:induction false} LiteralAtText(txt: string, str: string, c: Cursor)
    requires AtText(txt, c)
    ensures var n := Matched(txt, str, c.state.pos);
            && AtText(txt, AdvanceBy(str[..n], c))
            && AdvanceBy(str[..n], c).state.pos == c.state.pos + n
            && c.state.pos + n <= |txt| && txt[c.state.pos..c.state.pos+n] == str[..n]
    decreases |str|
  {
    InText(txt, c);
    hide AtText;
    var pos, n := c.state.pos, Matched(txt, str, c.state.pos);
    if n > 0 {
      AdvanceAtText(txt, c);
      LiteralAtText(txt, str[1..], Advance(str[0], c));
      assert str[..n][1..] == str[1..][..n-1];
      assert txt[pos..pos+n] == [txt[pos]] + txt[pos+1..pos+n];
      assert str[..n] == [str[0]] + str[1..][..n-1];
    }
  }

  /** From the text to the text, never backwards. */
  ghost function Forward(txt: string): Relation {
    (c: Cursor, c': Cursor) => AtText(txt, c) ==> AtText(txt, c') && c.state.pos <= c'.state.pos
  }

  lemma LeafIsForward(txt: string, p: Parser, bt: int, w: World)
    requires IsLeaf(p)
    ensures Forward(txt)(w.cur, LeafOutcome(txt, p, bt, w).w.cur)
  {
    hide AtText;
    if AtText(txt, w.cur) {
      InText(txt, w.cur);
      if p.String? { LiteralAtText(txt, p.str, w.cur); }
      else if IsCharParser(p) && Reads(txt, p, w.cur) { AdvanceAtText(txt, w.cur); }
    }
  }

  lemma InText(txt: string, c: Cursor)
    requires AtText(txt, c)
    ensures 0 <= c.state.pos <= |txt|
  {
  }

  lemma ForwardIsRespected(txt: string)
    ensures Respected(txt, Forward(txt))
  {
    forall p: Parser, bt: int, w: World {:trigger LeafOutcome(txt, p, bt, w)} | IsLeaf(p)
      ensures Forward(txt)(w.cur, LeafOutcome(txt, p, bt, w).w.cur)
    {
      LeafIsForward(txt, p, bt, w);
    }
    hide AtText, LeafOutcome;
  }

  /** Where a parser ends, row, column and last character are those of the text before it, and that
      is never before the place where the parser started. */
  lemma CursorTracksText(g: Grammar, txt: string, k: nat, p: Parser, bt: int, w: World)
    requires !p.Ref? && AtText(txt, w.cur) && Eval(g, txt, k, p, bt, w).Some?
    ensures var o := Eval(g, txt, k, p, bt, w).value;
            AtText(txt, o.w.cur) && w.cur.state.pos <= o.w.cur.state.pos
  {
    ForwardIsRespected(txt);
    EvalRespects(g, txt, k, p, bt, w, Forward(txt));
    hide AtText, Eval;
  }
}
