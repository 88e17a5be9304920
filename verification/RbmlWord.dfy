// The words of the RBML machine: 32 bits, kept as unsigned numbers, and the fields of an instruction in them.
module RbmlWord {

  const TWO_32 := 0x1_0000_0000

  type Word = w: int | 0 <= w < 0x1_0000_0000

  /** The 32 bits of any integer. */
  function Wrap(x: int): Word { x % TWO_32 }

  /** The value of a word as an int32_t. */
  function Signed(w: Word): int {
    if w < 0x8000_0000 then w else w - TWO_32
  }

  /** RBML_INST: eight bits of op, four of arg1, four of arg2 and sixteen of arg3, from the top down. */
  function Inst(op: int, arg1: int, arg2: int, arg3: int): Word {
    op % 0x100 * 0x100_0000 + arg1 % 0x10 * 0x10_0000 + arg2 % 0x10 * 0x1_0000 + arg3 % 0x1_0000
  }

  function Opcode(w: Word): nat { w / 0x100_0000 }

  function Arg1(w: Word): nat { w / 0x10_0000 % 0x10 }

  function Arg2(w: Word): nat { w / 0x1_0000 % 0x10 }

  function Arg3(w: Word): nat { w % 0x1_0000 }

  /** RBML_SET_ARG3. */
  function SetArg3(w: Word, arg3: int): Word {
    w - w % 0x1_0000 + arg3 % 0x1_0000
  }

  /** Decoding gives back the low bits of each field. */
  lemma DecodeEncode(op: int, arg1: int, arg2: int, arg3: int)
    ensures var w := Inst(op, arg1, arg2, arg3);
      Opcode(w) == op % 0x100 && Arg1(w) == arg1 % 0x10 && Arg2(w) == arg2 % 0x10 && Arg3(w) == arg3 % 0x1_0000
  {
    var w := Inst(op, arg1, arg2, arg3);
    assert w / 0x1_0000 == op % 0x100 * 0x100 + arg1 % 0x10 * 0x10 + arg2 % 0x10;
    assert w / 0x10_0000 == op % 0x100 * 0x10 + arg1 % 0x10;
  }

  /** Every word is the encoding of its own fields. */
  lemma EncodeDecode(w: Word)
    ensures Inst(Opcode(w), Arg1(w), Arg2(w), Arg3(w)) == w
  {
    assert w / 0x10_0000 == w / 0x1_0000 / 0x10;
    assert w / 0x100_0000 == w / 0x10_0000 / 0x10;
  }

  /** Patching the third field of an instruction is encoding it with that field. */
  lemma Patched(op: int, arg1: int, arg2: int, before: int, after: int)
    ensures SetArg3(Inst(op, arg1, arg2, before), after) == Inst(op, arg1, arg2, after)
  {
  }

  /** An address survives encoding exactly if it is below 65536. */
  lemma AddressSurvives(op: int, arg1: int, arg2: int, address: nat)
    ensures Arg3(Inst(op, arg1, arg2, address)) == address <==> address < 0x1_0000
  {
    DecodeEncode(op, arg1, arg2, address);
  }
}
