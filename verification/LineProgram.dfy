/**
 Line-number programs: instructions, their encoding and their meaning (sections 6.2.2, 6.2.5.1 to
 6.2.5.3 and 7.21 of the DWARF 4 standard), and what the debugger decodes and executes.
 */
module LineProgram {
  import opened Bytes
  import opened Leb128

  /** `maxOps` is in the header from version 4 on. */
  datatype Config = Config(
    version: nat,
    minInst: Byte,
    maxOps: Byte,
    defaultIsStmt: bool,
    lineBase: int,
    lineRange: Byte,
    opcodeBase: Byte)

  function MaxOps(cfg: Config): Byte {
    if cfg.version < 4 then 1 else cfg.maxOps
  }

  /** The machine divides by both. */
  predicate Usable(cfg: Config) {
    MaxOps(cfg) > 0 && cfg.lineRange > 0
  }

  datatype Sm = Sm(
    address: nat,
    opIndex: nat,
    file: nat,
    line: nat,
    column: nat,
    isStmt: bool,
    basicBlock: bool,
    endSequence: bool,
    prologueEnd: bool,
    epilogueBegin: bool,
    isa: nat,
    discriminator: nat)

  function Reset(cfg: Config): Sm {
    Sm(0, 0, 1, 1, 0, cfg.defaultIsStmt, false, false, false, false, 0, 0)
  }

  datatype Instr =
    | Copy
    | AdvancePc(adv: nat)
    | AdvanceLine(delta: int)
    | SetFile(file: nat)
    | SetColumn(column: nat)
    | NegateStmt
    | SetBasicBlock
    | ConstAddPc
    | FixedAdvancePc(offset: nat)
    | SetPrologueEnd
    | SetEpilogueBegin
    | SetIsa(isa: nat)
    | EndSequence
    | SetAddress(address: nat)
    | SetDiscriminator(discriminator: nat)
    | Special(opcode: Byte)

  // ---- Meaning ----

  /** The bytes of the instructions that `ops` operations fill, and the operations left over. */
  function InstBytes(cfg: Config, ops: nat): nat
    requires Usable(cfg)
  {
    cfg.minInst * (ops / MaxOps(cfg))
  }

  function OpsOver(cfg: Config, ops: nat): nat
    requires Usable(cfg)
  {
    ops % MaxOps(cfg)
  }

  function Advance(cfg: Config, sm: Sm, adv: nat): Sm
    requires Usable(cfg)
  {
    var op := (sm.opIndex + adv) % U64;
    sm.(address := (sm.address + InstBytes(cfg, op)) % U64, opIndex := OpsOver(cfg, op))
  }

  function AfterRow(sm: Sm): Sm {
    sm.(discriminator := 0, basicBlock := false, prologueEnd := false, epilogueBegin := false)
  }

  /** What a special opcode adds to the line, and by how many operations it advances. */
  function LineStep(cfg: Config, opcode: Byte): int
    requires Usable(cfg)
  {
    cfg.lineBase + (opcode - cfg.opcodeBase) % 256 % cfg.lineRange
  }

  function OpStep(cfg: Config, opcode: Byte): nat
    requires Usable(cfg)
  {
    (opcode - cfg.opcodeBase) % 256 / cfg.lineRange
  }

  /** The registers after an instruction, and the rows it appends. */
  function Exec(cfg: Config, i: Instr, sm: Sm): (Sm, seq<Sm>)
    requires Usable(cfg)
  {
    match i
    case Copy => (AfterRow(sm), [sm])
    case AdvancePc(adv) => (Advance(cfg, sm, adv), [])
    case AdvanceLine(delta) => (sm.(line := (sm.line + delta) % U32), [])
    case SetFile(file) => (sm.(file := file % U32), [])
    case SetColumn(column) => (sm.(column := column % U32), [])
    case NegateStmt => (sm.(isStmt := !sm.isStmt), [])
    case SetBasicBlock => (sm.(basicBlock := true), [])
    case ConstAddPc => (Advance(cfg, sm, OpStep(cfg, 255)), [])
    case FixedAdvancePc(offset) => (sm.(address := (sm.address + offset) % U64, opIndex := 0), [])
    case SetPrologueEnd => (sm.(prologueEnd := true), [])
    case SetEpilogueBegin => (sm.(epilogueBegin := true), [])
    case SetIsa(isa) => (sm.(isa := isa % U32), [])
    case EndSequence => (Reset(cfg), [sm.(endSequence := true)])
    case SetAddress(address) => (sm.(address := address, opIndex := 0), [])
    case SetDiscriminator(d) => (sm.(discriminator := d % U32), [])
    case Special(opcode) =>
      var moved := Advance(cfg, sm.(line := (sm.line + LineStep(cfg, opcode)) % U32), OpStep(cfg, opcode));
      (AfterRow(moved), [moved])
  }

  function ExecAll(cfg: Config, prog: seq<Instr>, sm: Sm): (Sm, seq<Sm>)
    requires Usable(cfg)
    decreases |prog|
  {
    if prog == [] then (sm, [])
    else
      var (sm1, rows) := Exec(cfg, prog[0], sm);
      var (sm2, more) := ExecAll(cfg, prog[1..], sm1);
      (sm2, rows + more)
  }

  // ---- Encoding ----

  function Encode(i: Instr): (bs: seq<Byte>)
    ensures |bs| > 0
  {
    match i
    case Copy => [1]
    case AdvancePc(adv) => [2] + Uleb(adv)
    case AdvanceLine(delta) => [3] + Sleb(delta)
    case SetFile(file) => [4] + Uleb(file)
    case SetColumn(column) => [5] + Uleb(column)
    case NegateStmt => [6]
    case SetBasicBlock => [7]
    case ConstAddPc => [8]
    case FixedAdvancePc(offset) => [9] + ToLe(offset, 2)
    case SetPrologueEnd => [10]
    case SetEpilogueBegin => [11]
    case SetIsa(isa) => [12] + Uleb(isa)
    case EndSequence => [0] + Uleb(1) + [1]
    case SetAddress(address) => [0] + Uleb(9) + [2] + ToLe(address, 8)
    case SetDiscriminator(d) => [0] + Uleb(1 + |Uleb(d)|) + [4] + Uleb(d)
    case Special(opcode) => [opcode]
  }

  function EncodeAll(prog: seq<Instr>): seq<Byte> {
    if prog == [] then [] else Encode(prog[0]) + EncodeAll(prog[1..])
  }

  /** The instruction can be written under this header, with operands that the reader has a defined
      result for. */
  predicate Fits(rd: Reader, cfg: Config, i: Instr) {
    match i
    case AdvancePc(adv) => Takes(rd, adv) && 2 < cfg.opcodeBase
    case AdvanceLine(delta) => TakesDelta(rd, delta) && 3 < cfg.opcodeBase
    case SetFile(file) => Takes(rd, file) && 4 < cfg.opcodeBase
    case SetColumn(column) => Takes(rd, column) && 5 < cfg.opcodeBase
    case SetIsa(isa) => Takes(rd, isa) && 12 < cfg.opcodeBase
    case FixedAdvancePc(offset) => offset < 0x1_0000 && 9 < cfg.opcodeBase
    case EndSequence => true
    case SetAddress(address) => address < U64
    case SetDiscriminator(d) => Takes(rd, d)
    case Special(opcode) => opcode >= cfg.opcodeBase && opcode > 0
    case _ => Encode(i)[0] < cfg.opcodeBase
  }

  predicate AllFit(rd: Reader, cfg: Config, prog: seq<Instr>) {
    forall k :: 0 <= k < |prog| ==> Fits(rd, cfg, prog[k])
  }

  // ---- Decoding ----

  /** `Bad` throws DWARFException. */
  datatype Fetched = Got(i: Instr, next: nat) | Bad | Undef

  /** The standard opcodes with an unsigned LEB128 operand. */
  function Operand(opcode: Byte, v: nat): Instr
    requires opcode in {2, 4, 5, 12}
  {
    if opcode == 2 then AdvancePc(v)
    else if opcode == 4 then SetFile(v)
    else if opcode == 5 then SetColumn(v)
    else SetIsa(v)
  }

  /** The length that follows the zero byte is read and not used. */
  function Extended(rd: Reader, bs: seq<Byte>, pos: nat): (f: Fetched)
    ensures f.Got? ==> pos < f.next <= |bs|
  {
    match ReadNumber(rd, bs, pos + 1)
    case Undefined => Undef
    case Value(_, p) =>
      if p >= |bs| then Undef
      else if bs[p] == 1 then Got(EndSequence, p + 1)
      else if bs[p] == 2 then (if p + 9 <= |bs| then Got(SetAddress(Le(bs[p + 1..p + 9])), p + 9) else Undef)
      else if bs[p] == 4 then
        (match ReadNumber(rd, bs, p + 1)
         case Value(v, next) => Got(SetDiscriminator(v), next)
         case Undefined => Undef)
      else Bad
  }

  function Standard(rd: Reader, bs: seq<Byte>, pos: nat): (f: Fetched)
    requires pos < |bs|
    ensures f.Got? ==> pos < f.next <= |bs|
  {
    var p := pos + 1;
    if bs[pos] == 3 then
      match ReadDelta(rd, bs, p)
      case Delta(v, next) => Got(AdvanceLine(v), next)
      case NoDelta => Undef
    else if bs[pos] in {2, 4, 5, 12} then
      match ReadNumber(rd, bs, p)
      case Value(v, next) => Got(Operand(bs[pos], v), next)
      case Undefined => Undef
    else
      match bs[pos]
      case 1 => Got(Copy, p)
      case 6 => Got(NegateStmt, p)
      case 7 => Got(SetBasicBlock, p)
      case 8 => Got(ConstAddPc, p)
      case 9 => if p + 2 <= |bs| then Got(FixedAdvancePc(Le(bs[p..p + 2])), p + 2) else Undef
      case 10 => Got(SetPrologueEnd, p)
      case 11 => Got(SetEpilogueBegin, p)
      case _ => Bad
  }

  function Fetch(rd: Reader, cfg: Config, bs: seq<Byte>, pos: nat): (f: Fetched)
    ensures f.Got? ==> pos < f.next <= |bs|
  {
    if pos >= |bs| then Undef
    else if bs[pos] == 0 then
      Extended(rd, bs, pos)
    else if bs[pos] < cfg.opcodeBase then
      Standard(rd, bs, pos)
    else
      Got(Special(bs[pos]), pos + 1)
  }

  datatype Outcome = Rows(sm: Sm, rows: seq<Sm>, stop: nat) | DwarfException | Crash

  /** The loop of run_machine. */
  function Run(rd: Reader, cfg: Config, bs: seq<Byte>, pos: nat, end: nat, sm: Sm, rows: seq<Sm>): Outcome
    requires Usable(cfg)
    decreases |bs| - pos
  {
    if pos >= end then Rows(sm, rows, pos)
    else
      match Fetch(rd, cfg, bs, pos)
      case Bad => DwarfException
      case Undef => Crash
      case Got(i, next) =>
        var (sm1, more) := Exec(cfg, i, sm);
        Run(rd, cfg, bs, next, end, sm1, rows + more)
  }
}
