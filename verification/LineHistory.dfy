/**
 The registers of the line-number machine, said by looking back over the program: each one is what
 the last instruction about it left, since the last row or the last end of a sequence, and the
 address is the position of an operation.
 */
module LineHistory {
  import opened Bytes
  import opened LineProgram
  import opened LineRefinement

  function Init(prog: seq<Instr>): seq<Instr>
    requires prog != []
  {
    prog[..|prog| - 1]
  }

  function Last(prog: seq<Instr>): Instr
    requires prog != []
  {
    prog[|prog| - 1]
  }

  /** The instruction stores a row. */
  predicate StoresRow(i: Instr) {
    i.Copy? || i.Special? || i.EndSequence?
  }

  function LastFile(prog: seq<Instr>): nat
    decreases |prog|
  {
    if prog == [] || Last(prog).EndSequence? then 1
    else if Last(prog).SetFile? then Last(prog).file % U32
    else LastFile(Init(prog))
  }

  function LastColumn(prog: seq<Instr>): nat
    decreases |prog|
  {
    if prog == [] || Last(prog).EndSequence? then 0
    else if Last(prog).SetColumn? then Last(prog).column % U32
    else LastColumn(Init(prog))
  }

  function LastIsa(prog: seq<Instr>): nat
    decreases |prog|
  {
    if prog == [] || Last(prog).EndSequence? then 0
    else if Last(prog).SetIsa? then Last(prog).isa % U32
    else LastIsa(Init(prog))
  }

  /** The number of negations since the end of the last sequence. */
  function Negations(prog: seq<Instr>): nat
    decreases |prog|
  {
    if prog == [] || Last(prog).EndSequence? then 0
    else Negations(Init(prog)) + if Last(prog).NegateStmt? then 1 else 0
  }

  /** The sum of all that has been added to the line since then. */
  function LineSum(cfg: Config, prog: seq<Instr>): int
    requires Usable(cfg)
    decreases |prog|
  {
    if prog == [] || Last(prog).EndSequence? then 0
    else
      LineSum(cfg, Init(prog))
      + match Last(prog)
        case AdvanceLine(delta) => delta
        case Special(opcode) => LineStep(cfg, opcode)
        case _ => 0
  }

  /** A mark that has been set since the last row. */
  predicate Marked(prog: seq<Instr>, mark: Instr)
    decreases |prog|
  {
    prog != [] && (Last(prog) == mark || (!StoresRow(Last(prog)) && Marked(Init(prog), mark)))
  }

  function LastDiscriminator(prog: seq<Instr>): nat
    decreases |prog|
  {
    if prog == [] || StoresRow(Last(prog)) then 0
    else if Last(prog).SetDiscriminator? then Last(prog).discriminator % U32
    else LastDiscriminator(Init(prog))
  }

  /** How many rows there are, and where the last of them comes from. */
  function RowCount(prog: seq<Instr>): nat
    decreases |prog|
  {
    if prog == [] then 0 else RowCount(Init(prog)) + if StoresRow(Last(prog)) then 1 else 0
  }

  ghost predicate IsHistory(cfg: Config, prog: seq<Instr>, sm: Sm)
    requires Usable(cfg)
  {
    && sm.file == LastFile(prog) && sm.column == LastColumn(prog) && sm.isa == LastIsa(prog)
    && sm.isStmt == (cfg.defaultIsStmt != (Negations(prog) % 2 == 1))
    && sm.line == (1 + LineSum(cfg, prog)) % U32
    && sm.basicBlock == Marked(prog, SetBasicBlock)
    && sm.prologueEnd == Marked(prog, SetPrologueEnd)
    && sm.epilogueBegin == Marked(prog, SetEpilogueBegin)
    && sm.discriminator == LastDiscriminator(prog)
    && !sm.endSequence
  }

  lemma LineModulo(line: int, sum: int, delta: int)
    requires line == (1 + sum) % U32
    ensures (line + delta) % U32 == (1 + (sum + delta)) % U32
  {
  }

  lemma ExecHistory(cfg: Config, prog: seq<Instr>, i: Instr, sm: Sm)
    requires Usable(cfg) && IsHistory(cfg, prog, sm)
    ensures IsHistory(cfg, prog + [i], Exec(cfg, i, sm).0)
  {
    hide Exec, IsHistory;
    if StoresRow(i) {
      StoreHistory(cfg, prog, i, sm);
    } else if Moves(i) {
      MoveHistory(cfg, prog, i, sm);
    } else {
      SetHistory(cfg, prog, i, sm);
    }
  }

  /** The instruction changes the address or op_index, and stores no row. */
  predicate Moves(i: Instr) {
    i.AdvancePc? || i.ConstAddPc? || i.FixedAdvancePc? || i.SetAddress?
  }

  lemma StoreHistory(cfg: Config, prog: seq<Instr>, i: Instr, sm: Sm)
    requires Usable(cfg) && IsHistory(cfg, prog, sm) && StoresRow(i)
    ensures IsHistory(cfg, prog + [i], Exec(cfg, i, sm).0)
  {
    hide Advance, LineStep, OpStep;
    var all := prog + [i];
    assert Init(all) == prog && Last(all) == i;
    if i.Special? {
      LineModulo(sm.line, LineSum(cfg, prog), LineStep(cfg, i.opcode));
      AdvanceMoves(cfg, sm.(line := (sm.line + LineStep(cfg, i.opcode)) % U32), OpStep(cfg, i.opcode));
    }
  }

  lemma MoveHistory(cfg: Config, prog: seq<Instr>, i: Instr, sm: Sm)
    requires Usable(cfg) && IsHistory(cfg, prog, sm) && Moves(i)
    ensures IsHistory(cfg, prog + [i], Exec(cfg, i, sm).0)
  {
    hide Exec, LastFile, LastColumn, LastIsa, Negations, LineSum, Marked, LastDiscriminator;
    SameHistory(cfg, prog, i);
    OnlyMoves(cfg, i, sm);
  }

  lemma SameHistory(cfg: Config, prog: seq<Instr>, i: Instr)
    requires Usable(cfg) && Moves(i)
    ensures var all := prog + [i];
            && LastFile(all) == LastFile(prog) && LastColumn(all) == LastColumn(prog) && LastIsa(all) == LastIsa(prog)
            && Negations(all) == Negations(prog) && LineSum(cfg, all) == LineSum(cfg, prog)
            && LastDiscriminator(all) == LastDiscriminator(prog)
            && Marked(all, SetBasicBlock) == Marked(prog, SetBasicBlock)
            && Marked(all, SetPrologueEnd) == Marked(prog, SetPrologueEnd)
            && Marked(all, SetEpilogueBegin) == Marked(prog, SetEpilogueBegin)
  {
    var all := prog + [i];
    assert Init(all) == prog && Last(all) == i;
  }

  lemma OnlyMoves(cfg: Config, i: Instr, sm: Sm)
    requires Usable(cfg) && Moves(i)
    ensures var sm1 := Exec(cfg, i, sm).0; sm1 == sm.(address := sm1.address, opIndex := sm1.opIndex)
  {
    hide Advance, OpStep;
    if i.AdvancePc? {
      AdvanceMoves(cfg, sm, i.adv);
    } else if i.ConstAddPc? {
      AdvanceMoves(cfg, sm, OpStep(cfg, 255));
    }
  }

  lemma SetHistory(cfg: Config, prog: seq<Instr>, i: Instr, sm: Sm)
    requires Usable(cfg) && IsHistory(cfg, prog, sm) && !StoresRow(i) && !Moves(i)
    ensures IsHistory(cfg, prog + [i], Exec(cfg, i, sm).0)
  {
    hide Advance, LineStep, OpStep;
    var all := prog + [i];
    assert Init(all) == prog && Last(all) == i;
    if i.AdvanceLine? {
      LineModulo(sm.line, LineSum(cfg, prog), i.delta);
    }
  }

  lemma AdvanceMoves(cfg: Config, sm: Sm, adv: nat)
    requires Usable(cfg)
    ensures var sm1 := Advance(cfg, sm, adv); sm1 == sm.(address := sm1.address, opIndex := sm1.opIndex)
  {
  }

  lemma OneInstruction(cfg: Config, i: Instr, sm: Sm)
    requires Usable(cfg)
    ensures ExecAll(cfg, [i], sm) == Exec(cfg, i, sm)
  {
    hide Exec;
    var (sm1, rows) := Exec(cfg, i, sm);
    assert [i][1..] == [] && rows + [] == rows;
  }

  /** After any program every register but address and op_index is what the program's history says,
      and there are as many rows as instructions that store one. */
  lemma {:induction false} RegistersAreHistory(cfg: Config, prog: seq<Instr>)
    requires Usable(cfg)
    ensures var (sm, rows) := ExecAll(cfg, prog, Reset(cfg));
            IsHistory(cfg, prog, sm) && |rows| == RowCount(prog)
    decreases |prog|
  {
    hide Exec, IsHistory;
    if prog == [] {
      StartHistory(cfg);
    } else {
      var before, i := Init(prog), Last(prog);
      assert prog == before + [i];
      RegistersAreHistory(cfg, before);
      ExecAppend(cfg, before, [i], Reset(cfg));
      var sm := ExecAll(cfg, before, Reset(cfg)).0;
      OneInstruction(cfg, i, sm);
      ExecHistory(cfg, before, i, sm);
      RowsOf(cfg, i, sm);
    }
  }

  lemma StartHistory(cfg: Config)
    requires Usable(cfg)
    ensures IsHistory(cfg, [], Reset(cfg))
  {
  }

  lemma RowsOf(cfg: Config, i: Instr, sm: Sm)
    requires Usable(cfg)
    ensures |Exec(cfg, i, sm).1| == if StoresRow(i) then 1 else 0
  {
  }

  // ---- Addresses ----

  /** The operations that an instruction advances by. */
  function OpsOf(cfg: Config, i: Instr): nat
    requires Usable(cfg)
  {
    match i
    case AdvancePc(adv) => adv
    case ConstAddPc => OpStep(cfg, 255)
    case Special(opcode) => OpStep(cfg, opcode)
    case _ => 0
  }

  function TotalOps(cfg: Config, prog: seq<Instr>): nat
    requires Usable(cfg)
    decreases |prog|
  {
    if prog == [] then 0 else TotalOps(cfg, Init(prog)) + OpsOf(cfg, Last(prog))
  }

  /** The position after one more instruction. */
  function Moved(cfg: Config, base: nat, ops: nat, i: Instr): (nat, nat)
    requires Usable(cfg)
  {
    match i
    case EndSequence => (0, 0)
    case SetAddress(address) => (address, 0)
    case FixedAdvancePc(offset) => (AddressOf(cfg, base, ops) + offset, 0)
    case i => (base, ops + OpsOf(cfg, i))
  }

  /** The last address that was set, and the operations advanced by since then. */
  function Position(cfg: Config, prog: seq<Instr>): (nat, nat)
    requires Usable(cfg)
    decreases |prog|
  {
    if prog == [] then (0, 0)
    else
      var (base, ops) := Position(cfg, Init(prog));
      Moved(cfg, base, ops, Last(prog))
  }

  /** `ops` operations after `base`: as many instructions as are full. */
  function AddressOf(cfg: Config, base: nat, ops: nat): nat
    requires Usable(cfg)
  {
    var max := if cfg.version < 4 then 1 else cfg.maxOps;
    (base + cfg.minInst * (ops / max)) % U64
  }

  ghost predicate IsAt(cfg: Config, pos: (nat, nat), sm: Sm)
    requires Usable(cfg)
  {
    && sm.address == AddressOf(cfg, pos.0, pos.1)
    && sm.opIndex == pos.1 % if cfg.version < 4 then 1 else cfg.maxOps
  }

  lemma AtPosition(cfg: Config, base: nat, ops: nat, sm: Sm)
    requires Usable(cfg)
    ensures IsAt(cfg, (base, ops), sm)
       <==> sm.address == (base + InstBytes(cfg, ops)) % U64 && sm.opIndex == OpsOver(cfg, ops)
  {
  }

  lemma AdvanceIsAt(cfg: Config, base: nat, ops: nat, sm: Sm, adv: nat)
    requires Usable(cfg) && IsAt(cfg, (base, ops), sm) && ops + adv < U64
    ensures IsAt(cfg, (base, ops + adv), Advance(cfg, sm, adv))
  {
    hide Advance, InstBytes, OpsOver, MaxOps, IsAt;
    AtPosition(cfg, base, ops, sm);
    AtPosition(cfg, base, ops + adv, Advance(cfg, sm, adv));
    AddressAdds(cfg, base, ops, adv);
    AdvancePlain(cfg, sm, adv);
  }

  lemma SetIsAt(cfg: Config, base: nat, sm: Sm)
    requires Usable(cfg) && sm.address == base % U64 && sm.opIndex == 0
    ensures IsAt(cfg, (base, 0), sm)
  {
  }

  lemma SpecialIsAt(cfg: Config, base: nat, ops: nat, sm: Sm, opcode: Byte)
    requires Usable(cfg) && IsAt(cfg, (base, ops), sm) && ops + OpStep(cfg, opcode) < U64
    ensures IsAt(cfg, (base, ops + OpStep(cfg, opcode)), Exec(cfg, Special(opcode), sm).0)
  {
    hide Advance, LineStep, OpStep, IsAt;
    var here, n := sm.(line := (sm.line + LineStep(cfg, opcode)) % U32), OpStep(cfg, opcode);
    StillAt(cfg, (base, ops), sm, here);
    AdvanceIsAt(cfg, base, ops, here, n);
    StillAt(cfg, (base, ops + n), Advance(cfg, here, n), Exec(cfg, Special(opcode), sm).0);
  }

  lemma ExecIsAt(cfg: Config, prog: seq<Instr>, i: Instr, sm: Sm)
    requires Usable(cfg) && IsAt(cfg, Position(cfg, prog), sm)
    requires Position(cfg, prog).1 + OpsOf(cfg, i) < U64 && (i.SetAddress? ==> i.address < U64)
    ensures IsAt(cfg, Position(cfg, prog + [i]), Exec(cfg, i, sm).0)
  {
    hide Advance, LineStep, OpStep, IsAt, AddressOf, Exec;
    PositionNext(cfg, prog, i);
    var (base, ops) := Position(cfg, prog);
    if i.AdvancePc? || i.ConstAddPc? {
      PlainAdvance(cfg, i, sm);
      AdvanceIsAt(cfg, base, ops, sm, OpsOf(cfg, i));
    } else if i.Special? {
      SpecialIsAt(cfg, base, ops, sm, i.opcode);
    } else {
      OtherIsAt(cfg, base, ops, i, sm);
    }
  }

  lemma PlainAdvance(cfg: Config, i: Instr, sm: Sm)
    requires Usable(cfg) && (i.AdvancePc? || i.ConstAddPc?)
    ensures Exec(cfg, i, sm).0 == Advance(cfg, sm, OpsOf(cfg, i))
  {
    hide Advance, OpStep;
  }

  lemma PositionNext(cfg: Config, prog: seq<Instr>, i: Instr)
    requires Usable(cfg)
    ensures Position(cfg, prog + [i]) == Moved(cfg, Position(cfg, prog).0, Position(cfg, prog).1, i)
  {
    hide OpsOf, AddressOf;
    assert Init(prog + [i]) == prog && Last(prog + [i]) == i;
  }

  lemma OtherIsAt(cfg: Config, base: nat, ops: nat, i: Instr, sm: Sm)
    requires Usable(cfg) && IsAt(cfg, (base, ops), sm) && (i.SetAddress? ==> i.address < U64)
    requires !i.AdvancePc? && !i.ConstAddPc? && !i.Special?
    ensures IsAt(cfg, Moved(cfg, base, ops, i), Exec(cfg, i, sm).0)
  {
    hide IsAt, AddressOf;
    var sm1 := Exec(cfg, i, sm).0;
    if i.EndSequence? {
      SetIsAt(cfg, 0, sm1);
    } else if i.SetAddress? {
      SetIsAt(cfg, i.address, sm1);
    } else if i.FixedAdvancePc? {
      AtAddress(cfg, (base, ops), sm);
      SetIsAt(cfg, AddressOf(cfg, base, ops) + i.offset, sm1);
    } else {
      StillAt(cfg, (base, ops), sm, sm1);
    }
  }

  lemma StillAt(cfg: Config, pos: (nat, nat), sm: Sm, sm1: Sm)
    requires Usable(cfg) && IsAt(cfg, pos, sm) && sm1.address == sm.address && sm1.opIndex == sm.opIndex
    ensures IsAt(cfg, pos, sm1)
  {
  }

  lemma AtAddress(cfg: Config, pos: (nat, nat), sm: Sm)
    requires Usable(cfg) && IsAt(cfg, pos, sm)
    ensures sm.address == AddressOf(cfg, pos.0, pos.1)
  {
  }

  lemma {:induction false} PositionBelow(cfg: Config, prog: seq<Instr>)
    requires Usable(cfg)
    ensures Position(cfg, prog).1 <= TotalOps(cfg, prog)
    decreases |prog|
  {
    if prog != [] { PositionBelow(cfg, Init(prog)); }
  }

  /** The address and op_index are those of the operations advanced by since an address was last set,
      however they were split up between instructions, as long as their number fits 64 bits. */
  lemma {:induction false} AddressIsPosition(cfg: Config, prog: seq<Instr>)
    requires Usable(cfg) && TotalOps(cfg, prog) < U64
    requires forall k :: 0 <= k < |prog| && prog[k].SetAddress? ==> prog[k].address < U64
    ensures IsAt(cfg, Position(cfg, prog), ExecAll(cfg, prog, Reset(cfg)).0)
    decreases |prog|
  {
    hide Exec, IsAt, OpsOf;
    if prog == [] {
      SetIsAt(cfg, 0, Reset(cfg));
    } else {
      var before, i := Init(prog), Last(prog);
      assert prog == before + [i];
      assert forall k :: 0 <= k < |before| ==> before[k] == prog[k];
      AddressIsPosition(cfg, before);
      ExecAppend(cfg, before, [i], Reset(cfg));
      var sm := ExecAll(cfg, before, Reset(cfg)).0;
      OneInstruction(cfg, i, sm);
      PositionBelow(cfg, before);
      ExecIsAt(cfg, before, i, sm);
    }
  }

  // ---- Rows ----

  /** What an instruction does before it stores its row. */
  function Steps(cfg: Config, i: Instr): seq<Instr>
    requires Usable(cfg)
  {
    if i.Special? then [AdvanceLine(LineStep(cfg, i.opcode)), AdvancePc(OpStep(cfg, i.opcode))] else []
  }

  /** All that has been done when instruction `k` stores its row. */
  function Shown(cfg: Config, prog: seq<Instr>, k: nat): seq<Instr>
    requires Usable(cfg) && k < |prog|
  {
    prog[..k] + Steps(cfg, prog[k])
  }

  lemma StepsRow(cfg: Config, i: Instr, sm: Sm)
    requires Usable(cfg) && StoresRow(i)
    ensures var shown := ExecAll(cfg, Steps(cfg, i), sm).0;
            Exec(cfg, i, sm).1 == [if i.EndSequence? then shown.(endSequence := true) else shown]
    ensures ExecAll(cfg, Steps(cfg, i), sm).1 == []
  {
    hide Advance, LineStep, OpStep;
    if i.Special? {
      var s := Steps(cfg, i);
      assert s[1..] == [s[1]];
      OneInstruction(cfg, s[1], Exec(cfg, s[0], sm).0);
    }
  }

  /** The row of an instruction stands behind those of the instructions before it. */
  lemma RowAt(cfg: Config, prog: seq<Instr>, k: nat)
    requires Usable(cfg) && k < |prog| && StoresRow(prog[k])
    ensures var rows := ExecAll(cfg, prog, Reset(cfg)).1;
            var shown := ExecAll(cfg, Shown(cfg, prog, k), Reset(cfg)).0;
            && RowCount(prog[..k]) < |rows|
            && rows[RowCount(prog[..k])] == if prog[k].EndSequence? then shown.(endSequence := true) else shown
  {
    hide Exec, Steps, ExecAll;
    var before, i, after := prog[..k], prog[k], prog[k + 1..];
    assert prog == before + ([i] + after);
    var (sm, rows) := ExecAll(cfg, before, Reset(cfg));
    RegistersAreHistory(cfg, before);
    ExecAppend(cfg, before, [i] + after, Reset(cfg));
    ExecAppend(cfg, [i], after, sm);
    OneInstruction(cfg, i, sm);
    StepsRow(cfg, i, sm);
    ExecAppend(cfg, before, Steps(cfg, i), Reset(cfg));
  }

  /** Every row of every program shows the history of what has been done when it is stored, which
      for a special opcode includes its own two advances, and bears a mark of its own exactly if it
      ends a sequence. */
  lemma RowsShowHistory(cfg: Config, prog: seq<Instr>, k: nat)
    requires Usable(cfg) && k < |prog| && StoresRow(prog[k])
    ensures var rows := ExecAll(cfg, prog, Reset(cfg)).1;
            && |rows| == RowCount(prog) && RowCount(prog[..k]) < |rows|
            && var row := rows[RowCount(prog[..k])];
            && row.endSequence == prog[k].EndSequence?
            && IsHistory(cfg, Shown(cfg, prog, k), row.(endSequence := false))
  {
    hide Exec, Steps, ExecAll, IsHistory;
    RowAt(cfg, prog, k);
    RegistersAreHistory(cfg, prog);
    RegistersAreHistory(cfg, Shown(cfg, prog, k));
    var shown := ExecAll(cfg, Shown(cfg, prog, k), Reset(cfg)).0;
    NotEnded(cfg, Shown(cfg, prog, k), shown);
    assert shown.(endSequence := true).(endSequence := false) == shown.(endSequence := false);
  }

  lemma NotEnded(cfg: Config, prog: seq<Instr>, sm: Sm)
    requires Usable(cfg) && IsHistory(cfg, prog, sm)
    ensures !sm.endSequence && sm.(endSequence := false) == sm
  {
  }

  lemma {:induction false} TotalOpsGrow(cfg: Config, prog: seq<Instr>, k: nat)
    requires Usable(cfg) && k <= |prog|
    ensures TotalOps(cfg, prog[..k]) <= TotalOps(cfg, prog)
    decreases |prog|
  {
    hide OpsOf;
    if k == |prog| {
      assert prog[..k] == prog;
    } else {
      assert Init(prog)[..k] == prog[..k];
      TotalOpsGrow(cfg, Init(prog), k);
    }
  }

  lemma ShownOps(cfg: Config, prog: seq<Instr>, k: nat)
    requires Usable(cfg) && k < |prog|
    ensures TotalOps(cfg, Shown(cfg, prog, k)) <= TotalOps(cfg, prog)
  {
    hide OpStep, LineStep;
    var before, now := prog[..k], prog[..k + 1];
    assert Init(now) == before && Last(now) == prog[k];
    TotalOpsGrow(cfg, prog, k + 1);
    var all := Shown(cfg, prog, k);
    if prog[k].Special? {
      var s := Steps(cfg, prog[k]);
      assert all == before + [s[0]] + [s[1]];
      assert Init(all) == before + [s[0]] && Last(all) == s[1];
      assert Init(Init(all)) == before && Last(Init(all)) == s[0];
    } else {
      assert all == before;
    }
  }

  /** Every row lies at the position of the operations advanced by when it is stored. */
  lemma RowsShowPosition(cfg: Config, prog: seq<Instr>, k: nat)
    requires Usable(cfg) && k < |prog| && StoresRow(prog[k])
    requires TotalOps(cfg, prog) < U64
    requires forall j :: 0 <= j < |prog| && prog[j].SetAddress? ==> prog[j].address < U64
    ensures var rows := ExecAll(cfg, prog, Reset(cfg)).1;
            && RowCount(prog[..k]) < |rows|
            && IsAt(cfg, Position(cfg, Shown(cfg, prog, k)), rows[RowCount(prog[..k])])
  {
    hide Exec, ExecAll, IsAt, LineStep, OpStep, TotalOps, Position;
    var shown := Shown(cfg, prog, k);
    RowAt(cfg, prog, k);
    ShownOps(cfg, prog, k);
    assert forall j :: 0 <= j < |shown| && shown[j].SetAddress? ==> shown[j] == prog[j];
    AddressIsPosition(cfg, shown);
    var row := ExecAll(cfg, prog, Reset(cfg)).1[RowCount(prog[..k])];
    StillAt(cfg, Position(cfg, shown), ExecAll(cfg, shown, Reset(cfg)).0, row);
  }
}
