/** Safety of the emulator over whole runs of output, resizes and renders. */
module EmulatorRuns {
  import opened EmulatorModel
  import opened EmulatorSafety
  import opened Revision

  /** Every byte of every output is harmless in the state it meets. */
  ghost predicate AllHarmless(e: Emu, ops: seq<Op>)
    requires WfEmu(e) && OpsOk(ops)
  {
    ops == [] ||
    var before, op := Live(e, ops[..|ops| - 1]), ops[|ops| - 1];
    && AllHarmless(e, ops[..|ops| - 1])
    && (before.Alive? && op.Output? ==> forall k :: 0 <= k < |op.bytes| ==> HarmlessAt(before.e, op.bytes, k))
  }

  /** A run of output, resizes and renders stays inside the emulator's invariant if and only if every byte
      is harmless where it comes: the two faults are the only ones. */
  lemma {:induction false} AliveIff(e: Emu, ops: seq<Op>)
    requires WfEmu(e) && OpsOk(ops)
    ensures Live(e, ops).Alive? <==> AllHarmless(e, ops)
  {
    hide Run, HarmlessAt, WfTerm;
    if ops != [] {
      var before, op := Live(e, ops[..|ops| - 1]), ops[|ops| - 1];
      AliveIff(e, ops[..|ops| - 1]);
      assert OpOk(op);
      if before.Alive? && op.Output? { RunsIff(before.e, op.bytes); }
    }
  }

  /** Every output keeps the two rules: fields of at most 18 digits, no ED 1 or EL 1 at a pending wrap. */
  predicate AllTame(e: Emu, ops: seq<Op>)
    requires WfEmu(e) && OpsOk(ops)
  {
    ops == [] ||
    var before, op := Live(e, ops[..|ops| - 1]), ops[|ops| - 1];
    && AllTame(e, ops[..|ops| - 1])
    && (before.Alive? && op.Output? ==> Tame(before.e, op.bytes))
  }

  /** From any well-formed emulator, every run that keeps the two rules ends with both screens exactly
      rows by cols, cursors in the grid, scroll regions inside it, and every cell a scalar in a valid
      style. */
  lemma {:induction false} TameLives(e: Emu, ops: seq<Op>)
    requires WfEmu(e) && OpsOk(ops) && AllTame(e, ops)
    ensures Live(e, ops).Alive? && WfEmu(Live(e, ops).e)
  {
    hide Run, Tame, WfTerm;
    if ops != [] {
      var before, op := Live(e, ops[..|ops| - 1]), ops[|ops| - 1];
      TameLives(e, ops[..|ops| - 1]);
      assert OpOk(op);
      if op.Output? { TameRuns(before.e, op.bytes); }
    }
  }
}
