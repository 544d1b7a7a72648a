/** Revision soundness over whole runs of output, resizes and renders: the counter that gates
    snapshots never hides a visible change. */
module Revision {
  import opened Terminal
  import FrontEnd
  import CsiParser
  import opened Buffers
  import opened EmulatorModel

  /** A step may change what is visible only if it leaves the emulator dirty, it never clears the
      dirty mark, and it never moves the counter. */
  predicate Honest(t: Term, u: Term) {
    && u.rev == t.rev
    && (t.dirty ==> u.dirty)
    && (!u.dirty ==> u.Visible() == t.Visible())
  }

  lemma ControlHonest(t: Term, final: byte, params: seq<int>)
    requires WfTerm(t)
    ensures var e := Control(t.Cur(), final, params);
            e.Effect? ==> Honest(t, t.WithCur(e.b).(dirty := t.dirty || e.touched))
  {
  }

  lemma ModeHonest(t: Term, mode: int, on: bool)
    requires WfTerm(t)
    ensures Honest(t, SetDecMode(t, mode, on))
  {
  }

  lemma {:induction false} ModesHonest(t: Term, modes: seq<int>, on: bool)
    requires WfTerm(t)
    ensures Honest(t, SetDecModes(t, modes, on))
  {
    hide SetDecMode;
    if modes != [] {
      var n := |modes| - 1;
      ModesHonest(t, modes[..n], on);
      ModeHonest(SetDecModes(t, modes[..n], on), modes[n], on);
    }
  }

  lemma ApplyHonest(t: Term, ev: FrontEnd.Event)
    requires WfTerm(t) && FrontEnd.EventOk(ev)
    ensures Apply(t, ev).Ok? ==> Honest(t, Apply(t, ev).t)
  {
    hide Control, SetDecModes, PrintRune, LineFeed, Tab, ReverseIndex, Clamp, WfTerm, New;
    if ev.Command? && ev.act.Csi? {
      ControlHonest(t, ev.act.final, ev.act.params);
      ModesHonest(t, ev.act.params, ev.act.final == LETTER_H);
    }
  }

  lemma {:induction false} RunHonest(e: Emu, w: seq<byte>)
    requires WfEmu(e)
    ensures Run(e, w).Running? ==> Honest(e.term, Run(e, w).e.term)
  {
    hide Apply, FrontEnd.Step;
    if w != [] {
      RunHonest(e, w[..|w| - 1]);
      if Run(e, w[..|w| - 1]).Running? {
        var m := Run(e, w[..|w| - 1]).e;
        ApplyHonest(m.term, FrontEnd.Step(m.front, w[|w| - 1]).ev);
      }
    }
  }

  // ---------- runs ----------

  datatype Op = Output(bytes: seq<byte>) | Resizing(cols: int, rows: int) | Rendering

  /** What one Render returned. */
  datatype Shot = Shot(screen: Screen, rev: nat)

  datatype Life = Alive(e: Emu, shots: seq<Shot>) | Faulted(why: FaultKind)

  predicate OpOk(op: Op) {
    op.Resizing? ==> op.cols <= MAX_DIM && op.rows <= MAX_DIM
  }

  predicate OpsOk(ops: seq<Op>) { forall i :: 0 <= i < |ops| ==> OpOk(ops[i]) }

  function RenderShot(t: Term): Shot { Shot(t.Visible(), Rendered(t).rev) }

  function Live(e: Emu, ops: seq<Op>): (r: Life)
    requires WfEmu(e) && forall i :: 0 <= i < |ops| ==> OpOk(ops[i])
    ensures r.Alive? ==> WfEmu(r.e)
  {
    if ops == [] then Alive(e, [])
    else
      var op := ops[|ops| - 1];
      assert OpOk(op);
      match Live(e, ops[..|ops| - 1])
      case Faulted(why) => Faulted(why)
      case Alive(m, shots) =>
        match op
        case Output(w) =>
          (match Run(m, w)
           case Running(n) => Alive(n, shots)
           case Stopped(why) => Faulted(why))
        case Resizing(c, r) => Alive(m.(term := Resize(m.term, c, r)), shots)
        case Rendering => Alive(m.(term := Rendered(m.term)), shots + [RenderShot(m.term)])
  }

  /** Equal revisions mean equal screens, and revisions never decrease. */
  predicate Consistent(shots: seq<Shot>) {
    forall i, j :: 0 <= i < j < |shots| ==>
      && shots[i].rev <= shots[j].rev
      && (shots[i].rev == shots[j].rev ==> shots[i].screen == shots[j].screen)
  }

  /** A past render with the current revision shows what a render now would show. */
  predicate UpToDate(t: Term, shots: seq<Shot>) {
    forall i :: 0 <= i < |shots| ==>
      && shots[i].rev <= t.rev
      && (shots[i].rev == Rev(t) ==> shots[i].screen == t.Visible())
  }

  /** Rev() is what an immediately following Render returns. */
  lemma RevPredictsRender(t: Term)
    ensures Rev(t) == RenderShot(t).rev && Rev(Rendered(t)) == Rev(t)
    ensures RenderShot(Rendered(t)) == RenderShot(t)
  {
  }

  lemma HonestKeepsUpToDate(t: Term, u: Term, shots: seq<Shot>)
    requires UpToDate(t, shots) && Honest(t, u)
    ensures UpToDate(u, shots)
  {
  }

  lemma RenderKeeps(t: Term, shots: seq<Shot>)
    requires Consistent(shots) && UpToDate(t, shots)
    ensures Consistent(shots + [RenderShot(t)]) && UpToDate(Rendered(t), shots + [RenderShot(t)])
  {
  }

  /** In every run, from any start with no renders yet, two Renders returning the same revision
      return the same cells, cursor and size. */
  lemma {:induction false} RevisionSound(e: Emu, ops: seq<Op>)
    requires WfEmu(e) && forall i :: 0 <= i < |ops| ==> OpOk(ops[i])
    ensures var r := Live(e, ops);
            r.Alive? ==> Consistent(r.shots) && UpToDate(r.e.term, r.shots)
  {
    hide Run, Resize, WfTerm, Honest, Consistent, UpToDate, RenderShot, Rendered;
    NoShots(e.term);
    if ops != [] {
      var prefix, op := ops[..|ops| - 1], ops[|ops| - 1];
      assert OpOk(op);
      RevisionSound(e, prefix);
      var before := Live(e, prefix);
      if before.Alive? {
        match op {
          case Output(w) =>
            RunHonest(before.e, w);
            if Run(before.e, w).Running? {
              HonestKeepsUpToDate(before.e.term, Run(before.e, w).e.term, before.shots);
            }
          case Resizing(c, r) =>
            ResizeHonest(before.e, c, r);
            HonestKeepsUpToDate(before.e.term, Resize(before.e.term, c, r), before.shots);
          case Rendering =>
            RenderKeeps(before.e.term, before.shots);
        }
      }
    }
  }

  lemma NoShots(t: Term)
    ensures Consistent([]) && UpToDate(t, [])
  {
  }

  lemma ResizeHonest(e: Emu, c: int, r: int)
    requires WfEmu(e) && c <= MAX_DIM && r <= MAX_DIM
    ensures Honest(e.term, Resize(e.term, c, r))
  {
  }

  /** After a Render, as long as Rev does not move, the screen is the one that was rendered. */
  lemma {:induction false} SameRevSameScreen(e: Emu, ops: seq<Op>)
    requires WfEmu(e) && forall i :: 0 <= i < |ops| ==> OpOk(ops[i])
    ensures var r := Live(e, [Rendering] + ops);
            r.Alive? && Rev(r.e.term) == Rev(e.term) ==> r.e.term.Visible() == e.term.Visible()
  {
    hide Run, Resize, WfTerm;
    var all := [Rendering] + ops;
    RevisionSound(e, all);
    FirstShot(e, ops);
  }

  lemma {:induction false} FirstShot(e: Emu, ops: seq<Op>)
    requires WfEmu(e) && forall i :: 0 <= i < |ops| ==> OpOk(ops[i])
    ensures var r := Live(e, [Rendering] + ops);
            r.Alive? ==> |r.shots| > 0 && r.shots[0] == RenderShot(e.term)
  {
    hide Run, Resize, WfTerm;
    var all := [Rendering] + ops;
    if ops == [] {
      assert all[..|all| - 1] == [];
      assert Live(e, []) == Alive(e, []);
    } else {
      assert all[..|all| - 1] == [Rendering] + ops[..|ops| - 1];
      FirstShot(e, ops[..|ops| - 1]);
    }
  }

  // ---------- when Rev alone tells ----------

  /** From here on, Rev moves whenever what is visible has changed. */
  ghost predicate RevTells(e: Emu)
    requires WfEmu(e)
  {
    forall ops :: OpsOk(ops) ==>
      var r := Live(e, ops);
      r.Alive? && Rev(r.e.term) == Rev(e.term) ==> r.e.term.Visible() == e.term.Visible()
  }

  /** Nothing has happened since a clean state, or the counter is past it. */
  predicate Since(t: Term, u: Term) { Rev(u) > Rev(t) || (!u.dirty && u.rev == t.rev && u.Visible() == t.Visible()) }

  lemma SinceHonest(t: Term, u: Term, v: Term)
    requires !t.dirty && Since(t, u) && Honest(u, v)
    ensures Since(t, v)
  {
  }

  lemma {:induction false} CleanTells(e: Emu, ops: seq<Op>)
    requires WfEmu(e) && OpsOk(ops) && !e.term.dirty
    ensures var r := Live(e, ops); r.Alive? ==> Since(e.term, r.e.term)
  {
    hide Run, Resize, WfTerm, Honest, Since;
    if ops == [] {
      SinceItself(e.term);
    } else {
      var prefix, op := ops[..|ops| - 1], ops[|ops| - 1];
      assert OpOk(op);
      CleanTells(e, prefix);
      var before := Live(e, prefix);
      if before.Alive? {
        match op {
          case Output(w) =>
            RunHonest(before.e, w);
            if Run(before.e, w).Running? { SinceHonest(e.term, before.e.term, Run(before.e, w).e.term); }
          case Resizing(c, r) =>
            ResizeHonest(before.e, c, r);
            SinceHonest(e.term, before.e.term, Resize(before.e.term, c, r));
          case Rendering => SinceRendered(e.term, before.e.term);
        }
      }
    }
  }

  lemma SinceItself(t: Term)
    requires !t.dirty
    ensures Since(t, t)
  {
  }

  lemma SinceRendered(t: Term, u: Term)
    requires !t.dirty && Since(t, u)
    ensures Since(t, Rendered(u))
  {
  }

  /** A width other than this one. */
  function OtherWidth(cols: int): (c: int)
    requires 1 <= cols <= MAX_DIM
    ensures 1 <= c <= MAX_DIM && c != cols
  {
    if cols == 1 then 2 else cols - 1
  }

  /** A resize of a dirty emulator is seen, and Rev does not move. */
  lemma DirtyHides(e: Emu)
    requires WfEmu(e) && e.term.dirty
    ensures var r := Live(e, [Resizing(OtherWidth(e.term.cols), e.term.rows)]);
            r.Alive? && Rev(r.e.term) == Rev(e.term) && r.e.term.Visible() != e.term.Visible()
    ensures !RevTells(e)
  {
    hide Run;
    var op := Resizing(OtherWidth(e.term.cols), e.term.rows);
    assert OpsOk([op]) && [op][..0] == [] && Live(e, []) == Alive(e, []);
  }

  /** The source says that the revision advances whenever the visible grid changes. From a state on, that is so
      if and only if nothing is waiting to be rendered there. */
  lemma RevTellsIff(e: Emu)
    requires WfEmu(e)
    ensures RevTells(e) <==> !e.term.dirty
  {
    hide Run, Resize, WfTerm, Live;
    if e.term.dirty {
      DirtyHides(e);
    } else {
      forall ops | OpsOk(ops)
        ensures var r := Live(e, ops);
                r.Alive? && Rev(r.e.term) == Rev(e.term) ==> r.e.term.Visible() == e.term.Visible()
      {
        CleanTells(e, ops);
      }
    }
  }

  const LETTER_A: byte := 0x61

  /** The failing input: two characters on a new 80 by 24 screen. The second one changes the screen and not
      Rev. */
  lemma SecondLetterHidden()
    ensures var e := NewEmu(80, 24);
            && Run(e, [LETTER_A]).Running?
            && var one := Run(e, [LETTER_A]).e;
               && Run(one, [LETTER_A]).Running?
               && var two := Run(one, [LETTER_A]).e;
                  Rev(two.term) == Rev(one.term) && two.term.Visible() != one.term.Visible()
  {
    hide PrintRune, Buffers.New;
    var e := NewEmu(80, 24);
    NewIsIdle();
    LetterPrints(e);
    var one := Run(e, [LETTER_A]).e;
    LetterPrints(one);
  }

  lemma NewIsIdle()
    ensures var e := NewEmu(80, 24);
            && WfEmu(e) && e.front == FrontEnd.Front(CsiParser.START, [])
            && !e.term.useAlt && e.term.cols == 80 && e.term.Cur().cx == 0
  {
  }

  /** A letter goes into the cursor's cell and moves the cursor; Rev is then one past the last render. */
  lemma LetterPrints(e: Emu)
    requires WfEmu(e) && e.front == FrontEnd.Front(CsiParser.START, []) && e.term.Cur().cx < e.term.cols - 1
    ensures Run(e, [LETTER_A]).Running?
    ensures var n := Run(e, [LETTER_A]).e;
            && WfEmu(n) && n.front == e.front && n.term.dirty && n.term.rev == e.term.rev
            && n.term.cols == e.term.cols && n.term.Cur().cx == e.term.Cur().cx + 1
  {
    assert [LETTER_A][..0] == [];
    assert Run(e, []) == Running(e);
    assert FrontEnd.Step(e.front, LETTER_A) == FrontEnd.Turn(e.front, FrontEnd.Printed(LETTER_A));
  }
}
