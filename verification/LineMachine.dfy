/** The line-number machine with its registers, its byte cursor and its growing array of rows. */
module LineMachine {
  import opened Bytes
  import opened Leb128
  import opened LineProgram

  /** struct my_dw_sm. */
  class Registers {
    var address: nat
    var opIndex: nat
    var file: nat
    var line: nat
    var column: nat
    var isStmt: bool
    var basicBlock: bool
    var endSequence: bool
    var prologueEnd: bool
    var epilogueBegin: bool
    var isa: nat
    var discriminator: nat

    ghost function View(): Sm
      reads this
    {
      Sm(address, opIndex, file, line, column, isStmt, basicBlock, endSequence, prologueEnd, epilogueBegin, isa,
         discriminator)
    }

    constructor Start(cfg: Config)
      ensures View() == LineProgram.Reset(cfg)
    {
      address, opIndex, file, line, column := 0, 0, 1, 1, 0;
      isStmt, basicBlock, endSequence, prologueEnd, epilogueBegin := cfg.defaultIsStmt, false, false, false, false;
      isa, discriminator := 0, 0;
    }

    constructor Clone(sm: Registers)
      ensures View() == sm.View()
    {
      address, opIndex, file, line, column := sm.address, sm.opIndex, sm.file, sm.line, sm.column;
      isStmt, basicBlock, endSequence := sm.isStmt, sm.basicBlock, sm.endSequence;
      prologueEnd, epilogueBegin := sm.prologueEnd, sm.epilogueBegin;
      isa, discriminator := sm.isa, sm.discriminator;
    }

    method Reset(cfg: Config)
      modifies this
      ensures View() == LineProgram.Reset(cfg)
    {
      address, opIndex, file, line, column := 0, 0, 1, 1, 0;
      isStmt, basicBlock, endSequence, prologueEnd, epilogueBegin := cfg.defaultIsStmt, false, false, false, false;
      isa, discriminator := 0, 0;
    }

    method AdvanceAddrAndOpIndex(cfg: Config, adv: nat)
      requires Usable(cfg)
      modifies this
      ensures View() == Advance(cfg, old(View()), adv)
    {
      var op := (opIndex + adv) % U64;
      address := (address + cfg.minInst * (op / MaxOps(cfg))) % U64;
      opIndex := op % MaxOps(cfg);
    }

    method ForgetMarks()
      modifies this
      ensures View() == AfterRow(old(View()))
    {
      discriminator := 0;
      basicBlock := false;
      prologueEnd := false;
      epilogueBegin := false;
    }
  }

  lemma SpecialSteps(cfg: Config, opcode: Byte)
    requires Usable(cfg) && opcode >= cfg.opcodeBase
    ensures LineStep(cfg, opcode) == cfg.lineBase + (opcode - cfg.opcodeBase) % cfg.lineRange
    ensures OpStep(cfg, opcode) == (opcode - cfg.opcodeBase) / cfg.lineRange
  {
    assert (opcode - cfg.opcodeBase) % 256 == opcode - cfg.opcodeBase;
  }

  datatype Status = Fine | Threw | Crashed

  class Machine {
    const cfg: Config
    const bytes: seq<Byte>
    const sm: Registers
    var states: seq<Registers>
    var ptr: nat

    /** The values the stored rows had when they were stored. */
    ghost var rows: seq<Sm>

    ghost predicate Stored()
      reads this`states, this`rows, states
    {
      |states| == |rows| && forall k :: 0 <= k < |states| ==> states[k].View() == rows[k]
    }

    ghost predicate Valid()
      reads this`states, this`rows, states
    {
      Usable(cfg) && sm !in states && Stored()
    }

    constructor (cfg: Config, bytes: seq<Byte>, start: nat)
      requires Usable(cfg)
      ensures Valid() && fresh(sm) && rows == [] && sm.View() == LineProgram.Reset(cfg)
      ensures this.cfg == cfg && this.bytes == bytes && ptr == start
    {
      this.cfg, this.bytes, this.ptr := cfg, bytes, start;
      this.states, this.rows := [], [];
      this.sm := new Registers.Start(cfg);
    }

    /** The row is a copy: what happens to the registers later does not change it. */
    method CloneState()
      requires Valid()
      modifies this`states, this`rows
      ensures Valid() && rows == old(rows) + [sm.View()]
      ensures |states| == |old(states)| + 1 && states[..|old(states)|] == old(states) && fresh(states[|old(states)|])
    {
      var state := new Registers.Clone(sm);
      states := states + [state];
      rows := rows + [sm.View()];
    }

    /** The machine has gone from the given registers, rows and cursor over one instruction. */
    ghost predicate Did(was: Sm, had: seq<Sm>, f: Fetched, status: Status)
      requires Usable(cfg)
      reads this, sm
    {
      match f
      case Got(i, next) =>
        var (now, added) := Exec(cfg, i, was);
        status == Fine && ptr == next && sm.View() == now && rows == had + added
      case Bad => status == Threw
      case Undef => status == Crashed
    }

    method SpecialInstruction(opcode: Byte)
      requires Valid() && opcode >= cfg.opcodeBase
      modifies this`states, this`rows, sm
      ensures Valid()
      ensures var (now, added) := Exec(cfg, Special(opcode), old(sm.View()));
              sm.View() == now && rows == old(rows) + added
      ensures forall r :: r in states ==> r in old(states) || fresh(r)
    {
      hide Stored, Advance, AfterRow, LineStep, OpStep;
      var adjOpcode := opcode - cfg.opcodeBase;
      var opAdv := adjOpcode / cfg.lineRange;
      SpecialSteps(cfg, opcode);
      sm.line := (sm.line + (cfg.lineBase + adjOpcode % cfg.lineRange)) % U32;
      assert sm.View() == old(sm.View()).(line := (old(sm.View()).line + LineStep(cfg, opcode)) % U32);
      sm.AdvanceAddrAndOpIndex(cfg, opAdv);
      CloneState();
      sm.ForgetMarks();
    }

    method StandardInstruction() returns (status: Status)
      requires Valid() && ptr < |bytes|
      modifies this`ptr, this`states, this`rows, sm
      ensures status == Fine ==> Valid()
      ensures Did(old(sm.View()), old(rows), Standard(AsWritten, bytes, old(ptr)), status)
      ensures forall r :: r in states ==> r in old(states) || fresh(r)
    {
      hide Stored, Advance, AfterRow, OpStep, ReadFrom, Le;
      var opcode := bytes[ptr];
      ptr := ptr + 1;
      if opcode == 1 {
        CloneState();
        sm.ForgetMarks();
      } else if opcode == 6 {
        sm.isStmt := !sm.isStmt;
      } else if opcode == 7 {
        sm.basicBlock := true;
      } else if opcode == 8 {
        sm.AdvanceAddrAndOpIndex(cfg, OpStep(cfg, 255));
      } else if opcode == 9 {
        status := FixedAdvance();
        return;
      } else if opcode == 10 {
        sm.prologueEnd := true;
      } else if opcode == 11 {
        sm.epilogueBegin := true;
      } else if opcode in {2, 3, 4, 5, 12} {
        status := OperandInstruction(opcode);
        return;
      } else {
        return Threw;
      }
      return Fine;
    }

    method FixedAdvance() returns (status: Status)
      requires Valid()
      modifies this`ptr, sm
      ensures status == Fine ==> Valid()
      ensures var p := old(ptr);
              var f := if p + 2 <= |bytes| then Got(FixedAdvancePc(Le(bytes[p..p + 2])), p + 2) else Undef;
              Did(old(sm.View()), old(rows), f, status)
    {
      hide Stored, Le;
      if ptr + 2 > |bytes| { return Crashed; }
      sm.address := (sm.address + Le(bytes[ptr..ptr + 2])) % U64;
      ptr := ptr + 2;
      sm.opIndex := 0;
      return Fine;
    }

    /** The standard opcodes with a LEB128 operand, all taken for unsigned. */
    method OperandInstruction(opcode: Byte) returns (status: Status)
      requires Valid() && 0 < ptr <= |bytes| && bytes[ptr - 1] == opcode && opcode in {2, 3, 4, 5, 12}
      modifies this`ptr, sm
      ensures status == Fine ==> Valid()
      ensures Did(old(sm.View()), old(rows), Standard(AsWritten, bytes, old(ptr) - 1), status)
    {
      hide Stored, Advance, ReadFrom;
      var r := ReadLeb128(bytes, ptr);
      if r.Undefined? { return Crashed; }
      ptr := r.next;
      if opcode == 2 {
        sm.AdvanceAddrAndOpIndex(cfg, r.v);
      } else if opcode == 3 {
        sm.line := (sm.line + r.v) % U32;
      } else if opcode == 4 {
        sm.file := r.v % U32;
      } else if opcode == 5 {
        sm.column := r.v % U32;
      } else {
        sm.isa := r.v % U32;
      }
      return Fine;
    }

    method CloseSequence()
      requires Valid()
      modifies this`states, this`rows, sm
      ensures Valid() && sm.View() == LineProgram.Reset(cfg)
      ensures rows == old(rows) + [old(sm.View()).(endSequence := true)]
      ensures forall r :: r in states ==> r in old(states) || fresh(r)
    {
      hide Stored;
      sm.endSequence := true;
      CloneState();
      sm.Reset(cfg);
    }

    method ExtendedInstruction() returns (status: Status)
      requires Valid() && ptr < |bytes| && bytes[ptr] == 0
      modifies this`ptr, this`states, this`rows, sm
      ensures status == Fine ==> Valid()
      ensures Did(old(sm.View()), old(rows), Extended(AsWritten, bytes, old(ptr)), status)
      ensures forall r :: r in states ==> r in old(states) || fresh(r)
    {
      hide Stored, ReadFrom, Le, LineProgram.Reset;
      ptr := ptr + 1;
      var len := ReadLeb128(bytes, ptr);
      if len.Undefined? || len.next >= |bytes| { return Crashed; }
      ptr := len.next;
      var opcode := bytes[ptr];
      ptr := ptr + 1;
      if opcode == 1 {
        CloseSequence();
      } else if opcode == 2 {
        status := LoadAddress();
        return;
      } else if opcode == 4 {
        status := LoadDiscriminator();
        return;
      } else {
        return Threw;
      }
      return Fine;
    }

    method LoadAddress() returns (status: Status)
      requires Valid()
      modifies this`ptr, sm
      ensures status == Fine ==> Valid()
      ensures var p := old(ptr);
              var f := if p + 8 <= |bytes| then Got(SetAddress(Le(bytes[p..p + 8])), p + 8) else Undef;
              Did(old(sm.View()), old(rows), f, status)
    {
      hide Stored, Le;
      if ptr + 8 > |bytes| { return Crashed; }
      sm.address := Le(bytes[ptr..ptr + 8]);
      ptr := ptr + 8;
      sm.opIndex := 0;
      return Fine;
    }

    method LoadDiscriminator() returns (status: Status)
      requires Valid()
      modifies this`ptr, sm
      ensures status == Fine ==> Valid()
      ensures var r := ReadFrom(bytes, old(ptr), 0, 0);
              Did(old(sm.View()), old(rows), if r.Value? then Got(SetDiscriminator(r.v), r.next) else Undef, status)
    {
      hide Stored, ReadFrom;
      var r := ReadLeb128(bytes, ptr);
      if r.Undefined? { return Crashed; }
      ptr := r.next;
      sm.discriminator := r.v % U32;
      return Fine;
    }

    /** Runs from the cursor until `size` bytes have been consumed; the rows come back as an array
        that ends with a null pointer. */
    method RunMachine(size: nat) returns (status: Status, table: seq<Registers?>)
      requires Valid() && rows == []
      modifies this`ptr, this`states, this`rows, sm
      ensures match LineProgram.Run(AsWritten, cfg, bytes, old(ptr), old(ptr) + size, old(sm.View()), [])
              case Rows(now, all, stop) => status == Fine && Valid() && sm.View() == now && rows == all && ptr == stop
              case DwarfException => status == Threw
              case Crash => status == Crashed
      ensures status == Fine ==> |table| == |rows| + 1 && table[|rows|] == null
                                 && forall k :: 0 <= k < |rows| ==> table[k] != null && table[k].View() == rows[k]
    {
      hide LineProgram.Exec, Fetch, Standard, Extended;
      table := [];
      var i := 0;
      ghost var end := ptr + size;
      while i < size
        invariant Valid() && ptr == old(ptr) + i
        invariant LineProgram.Run(AsWritten, cfg, bytes, old(ptr), end, old(sm.View()), [])
               == LineProgram.Run(AsWritten, cfg, bytes, ptr, end, sm.View(), rows)
        invariant forall r :: r in states ==> r in old(states) || fresh(r)
        decreases |bytes| - ptr
      {
        var bck := ptr;
        status := OneInstruction(end);
        if status != Fine { return; }
        i := i + (ptr - bck);
      }
      table := states + [null];
      return Fine, table;
    }

    method OneInstruction(ghost end: nat) returns (status: Status)
      requires Valid() && ptr < end
      modifies this`ptr, this`states, this`rows, sm
      ensures status == Fine ==> Valid() && old(ptr) < ptr <= |bytes|
      ensures var was := LineProgram.Run(AsWritten, cfg, bytes, old(ptr), end, old(sm.View()), old(rows));
              status == Fine ==> LineProgram.Run(AsWritten, cfg, bytes, ptr, end, sm.View(), rows) == was
      ensures var was := LineProgram.Run(AsWritten, cfg, bytes, old(ptr), end, old(sm.View()), old(rows));
              (status == Threw ==> was == DwarfException) && (status == Crashed ==> was == Crash)
      ensures forall r :: r in states ==> r in old(states) || fresh(r)
    {
      hide LineProgram.Exec, Standard, Extended, Stored;
      ghost var f := Fetch(AsWritten, cfg, bytes, ptr);
      if ptr >= |bytes| { return Crashed; }
      if bytes[ptr] == 0 {
        status := ExtendedInstruction();
      } else if bytes[ptr] < cfg.opcodeBase {
        status := StandardInstruction();
      } else {
        var opcode := bytes[ptr];
        ptr := ptr + 1;
        SpecialInstruction(opcode);
        status := Fine;
      }
    }
  }
}
