// From source to output: the assembler and the emulator, both in place, one after the other.
module RbmlToolchain {
  import opened RbmlSource
  import opened RbmlCpu
  import opened RbmlCode
  import opened RbmlEmulator
  import opened RbmlInterpreter

  /** The program has not gone wrong or run off its end within so many steps. */
  ghost predicate InControl(p: Scanned, size: nat, input: Input, steps: nat)
    requires Sound(p)
  {
    steps > 0 ==> var s := Interpret(p, size, input, steps - 1); s.progress.Going? || s.progress.Done?
  }

  /** Assembles a source, loads the text into a machine of the given size and lets it run for so many turns:
      the machine is where the program, told on its statements and labels, is after so many steps. */
  method AssembleAndRun(lines: seq<Line>, size: nat, input: Input, turns: nat) returns (e: Emulator, errors: nat)
    ensures errors == Errors(lines) && e.Valid()
    ensures var p := Scan(lines);
      Sound(p) && |p.statements| <= size && 0 < size && InControl(p, size, input, turns) ==>
        var s := Interpret(p, size, input, turns);
        !s.progress.Wrong? ==> Simulates(p, size, s, e.Abs())
  {
    hide Sound, Interpret, Simulates, Run, Start, TwoPass, Errors, Scan;
    var code;
    code, errors := Compile(lines);
    e := new Emulator(code.text[..code.size], size, input);
    e.Go(turns);
    assert e.Abs() == Run(Start(TwoPass(lines), size), input, turns);
    if Sound(Scan(lines)) && |Scan(lines).statements| <= size && 0 < size && InControl(Scan(lines), size, input, turns) {
      AssemblyPreservesMeaning(lines, size, input, turns);
    }
  }
}
