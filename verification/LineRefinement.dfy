/** Running an encoded line-number program gives the rows that its instructions mean. */
module LineRefinement {
  import opened Bytes
  import opened Arithmetic
  import opened Leb128
  import opened LineProgram

  /** The instruction that the reader sees in the encoding of `i`. */
  function AsRead(rd: Reader, i: Instr): Instr {
    match i
    case AdvancePc(adv) => AdvancePc(NumberAsRead(rd, adv))
    case AdvanceLine(delta) => AdvanceLine(DeltaAsRead(rd, delta))
    case SetFile(file) => SetFile(NumberAsRead(rd, file))
    case SetColumn(column) => SetColumn(NumberAsRead(rd, column))
    case SetIsa(isa) => SetIsa(NumberAsRead(rd, isa))
    case SetDiscriminator(d) => SetDiscriminator(NumberAsRead(rd, d))
    case _ => i
  }

  function AllAsRead(rd: Reader, prog: seq<Instr>): seq<Instr> {
    if prog == [] then [] else [AsRead(rd, prog[0])] + AllAsRead(rd, prog[1..])
  }

  ghost predicate At(bs: seq<Byte>, pos: nat, part: seq<Byte>) {
    pos + |part| <= |bs| && bs[pos..pos + |part|] == part
  }

  lemma AtParts(bs: seq<Byte>, pos: nat, a: seq<Byte>, b: seq<Byte>)
    requires At(bs, pos, a + b)
    ensures At(bs, pos, a) && At(bs, pos + |a|, b)
  {
    var all := bs[pos..pos + |a| + |b|];
    assert bs[pos..pos + |a|] == all[..|a|] == a;
    assert bs[pos + |a|..pos + |a| + |b|] == all[|a|..] == b;
  }

  lemma AtHead(bs: seq<Byte>, pos: nat, b: Byte, rest: seq<Byte>)
    requires At(bs, pos, [b] + rest)
    ensures pos < |bs| && bs[pos] == b && At(bs, pos + 1, rest)
  {
    AtParts(bs, pos, [b], rest);
    assert bs[pos..pos + 1][0] == b;
  }

  lemma UlebAt(rd: Reader, bs: seq<Byte>, pos: nat, v: nat)
    requires At(bs, pos, Uleb(v)) && Takes(rd, v)
    ensures ReadNumber(rd, bs, pos) == Value(NumberAsRead(rd, v), pos + |Uleb(v)|)
  {
    NumberReads(rd, bs, pos, v);
  }

  lemma {:induction false} UlebShort(v: nat)
    ensures |Uleb(v)| <= 1 + v / 128
  {
    if v >= 128 {
      UlebShort(v / 128);
    }
  }

  /** An extended opcode: a zero, a length that is read and ignored, the opcode. */
  lemma ExtendedAt(rd: Reader, bs: seq<Byte>, pos: nat, len: nat, op: Byte, rest: seq<Byte>)
    requires At(bs, pos, [0] + Uleb(len) + [op] + rest) && Takes(rd, len)
    ensures pos < |bs| && bs[pos] == 0
    ensures var p := pos + 1 + |Uleb(len)|;
            ReadNumber(rd, bs, pos + 1).Value? && ReadNumber(rd, bs, pos + 1).next == p
            && p < |bs| && bs[p] == op && At(bs, p + 1, rest)
  {
    assert [0] + Uleb(len) + [op] + rest == [0] + (Uleb(len) + ([op] + rest));
    AtHead(bs, pos, 0, Uleb(len) + ([op] + rest));
    AtParts(bs, pos + 1, Uleb(len), [op] + rest);
    UlebAt(rd, bs, pos + 1, len);
    AtHead(bs, pos + 1 + |Uleb(len)|, op, rest);
  }

  lemma NumberAt(bs: seq<Byte>, pos: nat, v: nat, n: nat)
    requires At(bs, pos, ToLe(v, n)) && v < Pow256(n)
    ensures pos + n <= |bs| && Le(bs[pos..pos + n]) == v
  {
    LeToLe(v, n);
  }

  lemma Pow256Is64Bits()
    ensures Pow256(8) == U64
  {
  }

  lemma FetchSetAddress(rd: Reader, cfg: Config, bs: seq<Byte>, pos: nat, address: nat)
    requires address < U64 && At(bs, pos, Encode(SetAddress(address)))
    ensures Fetch(rd, cfg, bs, pos) == Got(SetAddress(address), pos + |Encode(SetAddress(address))|)
  {
    hide ReadNumber, ReadDelta, Uleb, ToLe, Le, Pow256, Standard;
    assert Encode(SetAddress(address)) == [0] + Uleb(9) + [2] + ToLe(address, 8);
    ExtendedAt(rd, bs, pos, 9, 2, ToLe(address, 8));
    Pow256Is64Bits();
    NumberAt(bs, pos + 1 + |Uleb(9)| + 1, address, 8);
  }

  lemma FetchSetDiscriminator(rd: Reader, cfg: Config, bs: seq<Byte>, pos: nat, d: nat)
    requires Takes(rd, d) && At(bs, pos, Encode(SetDiscriminator(d)))
    ensures Fetch(rd, cfg, bs, pos) == Got(SetDiscriminator(NumberAsRead(rd, d)), pos + |Encode(SetDiscriminator(d))|)
  {
    hide Encode, ReadNumber, Fetch, Uleb, NumberAsRead, At, Takes;
    var len := 1 + |Uleb(d)|;
    EncodedDiscriminator(d);
    LengthTaken(rd, d);
    ExtendedAt(rd, bs, pos, len, 4, Uleb(d));
    UlebAt(rd, bs, pos + 1 + |Uleb(len)| + 1, d);
    DiscriminatorAt(rd, cfg, bs, pos);
  }

  lemma EncodedDiscriminator(d: nat)
    ensures var len := 1 + |Uleb(d)|;
            && Encode(SetDiscriminator(d)) == [0] + Uleb(len) + [4] + Uleb(d)
            && |Encode(SetDiscriminator(d))| == 1 + |Uleb(len)| + 1 + |Uleb(d)|
  {
    hide Uleb;
  }

  lemma LengthTaken(rd: Reader, d: nat)
    requires Takes(rd, d)
    ensures Takes(rd, 1 + |Uleb(d)|)
  {
    hide Uleb;
    UlebShort(d);
  }

  lemma DiscriminatorAt(rd: Reader, cfg: Config, bs: seq<Byte>, pos: nat)
    requires pos < |bs| && bs[pos] == 0
    requires var r := ReadNumber(rd, bs, pos + 1); r.Value? && r.next < |bs| && bs[r.next] == 4
    ensures var r := ReadNumber(rd, bs, ReadNumber(rd, bs, pos + 1).next + 1);
            r.Value? ==> Fetch(rd, cfg, bs, pos) == Got(SetDiscriminator(r.v), r.next)
  {
    hide ReadNumber, ReadDelta, Standard;
  }

  lemma FetchEndSequence(rd: Reader, cfg: Config, bs: seq<Byte>, pos: nat)
    requires At(bs, pos, Encode(EndSequence))
    ensures Fetch(rd, cfg, bs, pos) == Got(EndSequence, pos + |Encode(EndSequence)|)
  {
    hide ReadNumber, ReadDelta, Uleb, Standard;
    assert Encode(EndSequence) == [0] + Uleb(1) + [1] + [];
    ExtendedAt(rd, bs, pos, 1, 1, []);
  }

  lemma FetchSpecial(rd: Reader, cfg: Config, bs: seq<Byte>, pos: nat, opcode: Byte)
    requires opcode >= cfg.opcodeBase && opcode > 0 && At(bs, pos, [opcode])
    ensures Fetch(rd, cfg, bs, pos) == Got(Special(opcode), pos + 1)
  {
    assert [opcode] == [opcode] + [];
    AtHead(bs, pos, opcode, []);
  }

  /** A standard opcode and what follows it. */
  lemma StandardAt(rd: Reader, cfg: Config, bs: seq<Byte>, pos: nat, opcode: Byte, rest: seq<Byte>)
    requires 0 < opcode < cfg.opcodeBase && At(bs, pos, [opcode] + rest)
    ensures pos < |bs| && bs[pos] == opcode && At(bs, pos + 1, rest)
    ensures Fetch(rd, cfg, bs, pos) == Standard(rd, bs, pos)
  {
    hide Standard;
    AtHead(bs, pos, opcode, rest);
  }

  lemma FetchPlain(rd: Reader, cfg: Config, bs: seq<Byte>, pos: nat, i: Instr)
    requires i in {Copy, NegateStmt, SetBasicBlock, ConstAddPc, SetPrologueEnd, SetEpilogueBegin}
    requires Fits(rd, cfg, i) && At(bs, pos, Encode(i))
    ensures Fetch(rd, cfg, bs, pos) == Got(i, pos + |Encode(i)|)
  {
    hide Fetch, ReadNumber, ReadDelta;
    assert Encode(i) == [Encode(i)[0]] + [];
    StandardAt(rd, cfg, bs, pos, Encode(i)[0], []);
  }

  lemma FetchNumber(rd: Reader, cfg: Config, bs: seq<Byte>, pos: nat, opcode: Byte, v: nat)
    requires opcode in {2, 4, 5, 12} && opcode < cfg.opcodeBase && Takes(rd, v) && At(bs, pos, [opcode] + Uleb(v))
    ensures Fetch(rd, cfg, bs, pos) == Got(Operand(opcode, NumberAsRead(rd, v)), pos + 1 + |Uleb(v)|)
  {
    hide Fetch, ReadNumber, ReadDelta, Uleb, NumberAsRead;
    StandardAt(rd, cfg, bs, pos, opcode, Uleb(v));
    UlebAt(rd, bs, pos + 1, v);
  }

  lemma FetchDelta(rd: Reader, cfg: Config, bs: seq<Byte>, pos: nat, delta: int)
    requires 3 < cfg.opcodeBase && TakesDelta(rd, delta) && At(bs, pos, [3] + Sleb(delta))
    ensures Fetch(rd, cfg, bs, pos) == Got(AdvanceLine(DeltaAsRead(rd, delta)), pos + 1 + |Sleb(delta)|)
  {
    hide Fetch, ReadNumber, ReadDelta, Sleb, DeltaAsRead;
    StandardAt(rd, cfg, bs, pos, 3, Sleb(delta));
    DeltaReads(rd, bs, pos + 1, delta);
  }

  lemma FetchFixed(rd: Reader, cfg: Config, bs: seq<Byte>, pos: nat, offset: nat)
    requires 9 < cfg.opcodeBase && offset < 0x1_0000 && At(bs, pos, [9] + ToLe(offset, 2))
    ensures Fetch(rd, cfg, bs, pos) == Got(FixedAdvancePc(offset), pos + 3)
  {
    assert Pow256(2) == 0x1_0000;
    hide Fetch, ReadNumber, ReadDelta, ToLe, Le, Pow256;
    StandardAt(rd, cfg, bs, pos, 9, ToLe(offset, 2));
    NumberAt(bs, pos + 1, offset, 2);
  }

  lemma FetchStandard(rd: Reader, cfg: Config, bs: seq<Byte>, pos: nat, i: Instr)
    requires !i.EndSequence? && !i.SetAddress? && !i.SetDiscriminator? && !i.Special?
    requires Fits(rd, cfg, i) && At(bs, pos, Encode(i))
    ensures Fetch(rd, cfg, bs, pos) == Got(AsRead(rd, i), pos + |Encode(i)|)
  {
    hide Fetch, Uleb, Sleb, NumberAsRead, DeltaAsRead, ToLe, At;
    match i {
      case AdvancePc(v) => FetchNumber(rd, cfg, bs, pos, 2, v);
      case AdvanceLine(delta) => FetchDelta(rd, cfg, bs, pos, delta);
      case SetFile(v) => FetchNumber(rd, cfg, bs, pos, 4, v);
      case SetColumn(v) => FetchNumber(rd, cfg, bs, pos, 5, v);
      case SetIsa(v) => FetchNumber(rd, cfg, bs, pos, 12, v);
      case FixedAdvancePc(v) => FetchFixed(rd, cfg, bs, pos, v);
      case _ => FetchPlain(rd, cfg, bs, pos, i);
    }
  }

  lemma FetchEncoded(rd: Reader, cfg: Config, bs: seq<Byte>, pos: nat, i: Instr)
    requires Fits(rd, cfg, i) && At(bs, pos, Encode(i))
    ensures Fetch(rd, cfg, bs, pos) == Got(AsRead(rd, i), pos + |Encode(i)|)
  {
    hide Fetch;
    if i.EndSequence? {
      FetchEndSequence(rd, cfg, bs, pos);
    } else if i.SetAddress? {
      FetchSetAddress(rd, cfg, bs, pos, i.address);
    } else if i.SetDiscriminator? {
      FetchSetDiscriminator(rd, cfg, bs, pos, i.discriminator);
    } else if i.Special? {
      FetchSpecial(rd, cfg, bs, pos, i.opcode);
    } else {
      FetchStandard(rd, cfg, bs, pos, i);
    }
  }

  lemma FitsOn(rd: Reader, cfg: Config, prog: seq<Instr>)
    requires AllFit(rd, cfg, prog) && prog != []
    ensures Fits(rd, cfg, prog[0]) && AllFit(rd, cfg, prog[1..])
  {
    hide Fits;
    forall k | 0 <= k < |prog[1..]| ensures Fits(rd, cfg, prog[1..][k]) {
      assert prog[1..][k] == prog[k + 1];
    }
  }

  lemma RunNothing(rd: Reader, cfg: Config, bs: seq<Byte>, pos: nat, sm: Sm, rows: seq<Sm>)
    requires Usable(cfg)
    ensures Run(rd, cfg, bs, pos, pos, sm, rows) == Rows(sm, rows, pos) && ExecAll(cfg, [], sm) == (sm, [])
    ensures rows + [] == rows
  {
  }

  lemma RunOne(rd: Reader, cfg: Config, bs: seq<Byte>, pos: nat, end: nat, sm: Sm, rows: seq<Sm>)
    requires Usable(cfg) && pos < end && Fetch(rd, cfg, bs, pos).Got?
    ensures var f := Fetch(rd, cfg, bs, pos);
            var (sm1, added) := Exec(cfg, f.i, sm);
            Run(rd, cfg, bs, pos, end, sm, rows) == Run(rd, cfg, bs, f.next, end, sm1, rows + added)
  {
    hide Exec, Fetch;
  }

  lemma ExecOne(cfg: Config, i: Instr, others: seq<Instr>, sm: Sm)
    requires Usable(cfg)
    ensures var (sm1, added) := Exec(cfg, i, sm);
            var (sm2, more) := ExecAll(cfg, others, sm1);
            ExecAll(cfg, [i] + others, sm) == (sm2, added + more)
  {
    hide Exec;
    assert ([i] + others)[1..] == others;
  }

  /** For every program whose operands the reader can take: running its encoding, wherever it
      stands, consumes exactly its bytes and appends exactly the rows of the program as read. */
  lemma {:induction false} RunsEncoded(rd: Reader, cfg: Config, bs: seq<Byte>, pos: nat, prog: seq<Instr>,
                                       sm: Sm, rows: seq<Sm>)
    requires Usable(cfg) && AllFit(rd, cfg, prog) && At(bs, pos, EncodeAll(prog))
    ensures var end := pos + |EncodeAll(prog)|;
            var (sm1, more) := ExecAll(cfg, AllAsRead(rd, prog), sm);
            Run(rd, cfg, bs, pos, end, sm, rows) == Rows(sm1, rows + more, end)
    decreases |prog|
  {
    hide Exec, Fetch, Encode, At, AsRead, AllFit, Run, ExecAll;
    if prog == [] {
      RunNothing(rd, cfg, bs, pos, sm, rows);
    } else {
      var first, others := Encode(prog[0]), EncodeAll(prog[1..]);
      AtParts(bs, pos, first, others);
      FitsOn(rd, cfg, prog);
      FetchEncoded(rd, cfg, bs, pos, prog[0]);
      var (sm1, added) := Exec(cfg, AsRead(rd, prog[0]), sm);
      RunsEncoded(rd, cfg, bs, pos + |first|, prog[1..], sm1, rows + added);
      var (sm2, more) := ExecAll(cfg, AllAsRead(rd, prog[1..]), sm1);
      RunOne(rd, cfg, bs, pos, pos + |first| + |others|, sm, rows);
      ExecOne(cfg, AsRead(rd, prog[0]), AllAsRead(rd, prog[1..]), sm);
      assert rows + added + more == rows + (added + more);
    }
  }

  // ---- Unknown instructions ----

  /** A standard opcode above set_isa, or an extended one other than end_sequence, set_address and
      set_discriminator. */
  predicate Unknown(rd: Reader, cfg: Config, bs: seq<Byte>, pos: nat) {
    pos < |bs| &&
    if bs[pos] == 0 then
      var r := ReadNumber(rd, bs, pos + 1);
      r.Value? && r.next < |bs| && bs[r.next] !in {1, 2, 4}
    else 12 < bs[pos] < cfg.opcodeBase
  }

  /** Exactly at such an instruction nothing is decoded and an exception thrown. */
  lemma BadIff(rd: Reader, cfg: Config, bs: seq<Byte>, pos: nat)
    ensures Fetch(rd, cfg, bs, pos) == Bad <==> Unknown(rd, cfg, bs, pos)
  {
    hide ReadNumber, ReadDelta, Le;
  }

  lemma RunBad(rd: Reader, cfg: Config, bs: seq<Byte>, pos: nat, end: nat, sm: Sm, rows: seq<Sm>)
    requires Usable(cfg) && pos < end && Unknown(rd, cfg, bs, pos)
    ensures Run(rd, cfg, bs, pos, end, sm, rows) == DwarfException
  {
    hide Fetch, Unknown;
    BadIff(rd, cfg, bs, pos);
  }

  /** However much of a program comes before it, such an instruction ends the run with an exception. */
  lemma {:induction false} UnknownThrows(rd: Reader, cfg: Config, bs: seq<Byte>, pos: nat, prog: seq<Instr>, end: nat,
                                         sm: Sm, rows: seq<Sm>)
    requires Usable(cfg) && AllFit(rd, cfg, prog) && At(bs, pos, EncodeAll(prog))
    requires var next := pos + |EncodeAll(prog)|; next < end && Unknown(rd, cfg, bs, next)
    ensures Run(rd, cfg, bs, pos, end, sm, rows) == DwarfException
    decreases |prog|
  {
    hide Exec, Fetch, Encode, At, AsRead, AllFit, Run, Unknown;
    if prog == [] {
      RunBad(rd, cfg, bs, pos, end, sm, rows);
    } else {
      var first, others := Encode(prog[0]), EncodeAll(prog[1..]);
      AtParts(bs, pos, first, others);
      FitsOn(rd, cfg, prog);
      FetchEncoded(rd, cfg, bs, pos, prog[0]);
      var (sm1, added) := Exec(cfg, AsRead(rd, prog[0]), sm);
      RunOne(rd, cfg, bs, pos, end, sm, rows);
      UnknownThrows(rd, cfg, bs, pos + |first|, prog[1..], end, sm1, rows + added);
    }
  }

  // ---- Exactly read programs ----

  predicate Exact(rd: Reader, i: Instr) {
    rd.Mended? ||
    match i
    case AdvancePc(v) => Readable(v)
    case AdvanceLine(delta) => ReadableSigned(delta)
    case SetFile(v) => Readable(v)
    case SetColumn(v) => Readable(v)
    case SetIsa(v) => Readable(v)
    case SetDiscriminator(v) => Readable(v)
    case _ => true
  }

  /** An instruction is read as it was written exactly if its operand is. */
  lemma InstrAsReadIff(rd: Reader, i: Instr)
    ensures AsRead(rd, i) == i <==> Exact(rd, i)
  {
    match i {
      case AdvancePc(v) => AsReadIff(rd, v, 0);
      case AdvanceLine(delta) => AsReadIff(rd, 0, delta);
      case SetFile(v) => AsReadIff(rd, v, 0);
      case SetColumn(v) => AsReadIff(rd, v, 0);
      case SetIsa(v) => AsReadIff(rd, v, 0);
      case SetDiscriminator(v) => AsReadIff(rd, v, 0);
      case _ =>
    }
  }

  lemma {:induction false} AllAsReadIff(rd: Reader, prog: seq<Instr>)
    ensures AllAsRead(rd, prog) == prog <==> forall k :: 0 <= k < |prog| ==> Exact(rd, prog[k])
    decreases |prog|
  {
    if prog != [] {
      InstrAsReadIff(rd, prog[0]);
      AllAsReadIff(rd, prog[1..]);
      var rest := prog[1..];
      assert AllAsRead(rd, prog)[1..] == AllAsRead(rd, rest) && prog == [prog[0]] + rest;
      if forall k :: 0 <= k < |prog| ==> Exact(rd, prog[k]) {
        forall k | 0 <= k < |rest| ensures Exact(rd, rest[k]) {
          assert rest[k] == prog[k + 1];
        }
      }
      if Exact(rd, prog[0]) && forall k :: 0 <= k < |rest| ==> Exact(rd, rest[k]) {
        forall k | 0 <= k < |prog| ensures Exact(rd, prog[k]) {
          if k > 0 { assert prog[k] == rest[k - 1]; }
        }
      }
    }
  }

  /** The rows are the ones the program means if every operand can be read. */
  lemma RunsExactly(rd: Reader, cfg: Config, bs: seq<Byte>, pos: nat, prog: seq<Instr>)
    requires Usable(cfg) && AllFit(rd, cfg, prog) && At(bs, pos, EncodeAll(prog))
    requires forall k :: 0 <= k < |prog| ==> Exact(rd, prog[k])
    ensures var end := pos + |EncodeAll(prog)|;
            var (sm, rows) := ExecAll(cfg, prog, Reset(cfg));
            Run(rd, cfg, bs, pos, end, Reset(cfg), []) == Rows(sm, rows, end)
  {
    AllAsReadIff(rd, prog);
    RunsEncoded(rd, cfg, bs, pos, prog, Reset(cfg), []);
    var (_, rows) := ExecAll(cfg, prog, Reset(cfg));
    assert [] + rows == rows;
  }

  /** With the reader mended, every program is run as it was meant, whatever its operands are. */
  lemma MendedRunsAll(cfg: Config, bs: seq<Byte>, pos: nat, prog: seq<Instr>)
    requires Usable(cfg) && AllFit(Mended, cfg, prog) && At(bs, pos, EncodeAll(prog))
    ensures var end := pos + |EncodeAll(prog)|;
            var (sm, rows) := ExecAll(cfg, prog, Reset(cfg));
            Run(Mended, cfg, bs, pos, end, Reset(cfg), []) == Rows(sm, rows, end)
  {
    RunsExactly(Mended, cfg, bs, pos, prog);
  }

  // ---- Special opcodes ----

  /** Special opcodes and const_add_pc spelt out. */
  function Expand(cfg: Config, i: Instr): seq<Instr>
    requires Usable(cfg)
  {
    match i
    case Special(opcode) => [AdvanceLine(LineStep(cfg, opcode)), AdvancePc(OpStep(cfg, opcode)), Copy]
    case ConstAddPc => [AdvancePc(OpStep(cfg, 255))]
    case _ => [i]
  }

  function ExpandAll(cfg: Config, prog: seq<Instr>): seq<Instr>
    requires Usable(cfg)
  {
    if prog == [] then [] else Expand(cfg, prog[0]) + ExpandAll(cfg, prog[1..])
  }

  lemma {:induction false} ExecAppend(cfg: Config, a: seq<Instr>, b: seq<Instr>, sm: Sm)
    requires Usable(cfg)
    ensures var (sm1, rows) := ExecAll(cfg, a, sm);
            var (sm2, more) := ExecAll(cfg, b, sm1);
            ExecAll(cfg, a + b, sm) == (sm2, rows + more)
    decreases |a|
  {
    hide Exec;
    if a == [] {
      assert a + b == b;
      var (_, more) := ExecAll(cfg, b, sm);
      assert [] + more == more;
    } else {
      assert (a + b)[1..] == a[1..] + b;
      var (sm0, added) := Exec(cfg, a[0], sm);
      ExecAppend(cfg, a[1..], b, sm0);
      var (sm1, rows) := ExecAll(cfg, a[1..], sm0);
      var (_, more) := ExecAll(cfg, b, sm1);
      assert added + (rows + more) == (added + rows) + more;
    }
  }

  lemma ExpandOne(cfg: Config, i: Instr, sm: Sm)
    requires Usable(cfg)
    ensures ExecAll(cfg, Expand(cfg, i), sm) == Exec(cfg, i, sm)
  {
    var e := Expand(cfg, i);
    hide Advance, LineStep, OpStep;
    var (sm1, r1) := Exec(cfg, e[0], sm);
    if i.Special? {
      var (sm2, r2) := Exec(cfg, e[1], sm1);
      var (sm3, r3) := Exec(cfg, e[2], sm2);
      assert e[1..][1..][1..] == [] && e[1..][1..][0] == e[2] && e[1..][0] == e[1];
      assert ExecAll(cfg, e[1..][1..], sm2) == (sm3, r3 + []);
      assert ExecAll(cfg, e[1..], sm1) == (sm3, r2 + (r3 + []));
      assert r1 + (r2 + (r3 + [])) == r3;
    } else {
      assert e[1..] == [] && r1 + [] == r1;
    }
  }

  /** Spelling out every special opcode and every const_add_pc of any program changes neither its
      rows nor the registers it leaves. */
  lemma {:induction false} ExpansionKeepsMeaning(cfg: Config, prog: seq<Instr>, sm: Sm)
    requires Usable(cfg)
    ensures ExecAll(cfg, ExpandAll(cfg, prog), sm) == ExecAll(cfg, prog, sm)
    decreases |prog|
  {
    hide Exec, Expand;
    if prog != [] {
      var (sm1, _) := Exec(cfg, prog[0], sm);
      ExpandOne(cfg, prog[0], sm);
      ExpansionKeepsMeaning(cfg, prog[1..], sm1);
      ExecAppend(cfg, Expand(cfg, prog[0]), ExpandAll(cfg, prog[1..]), sm);
    }
  }

  // ---- Operation advances ----

  lemma AddModulo(x: nat, y: nat, z: nat)
    ensures ((x + y) % U64 + z) % U64 == (x + (y + z)) % U64
  {
  }

  lemma AdvancePlain(cfg: Config, sm: Sm, adv: nat)
    requires Usable(cfg) && sm.opIndex + adv < U64
    ensures var op := sm.opIndex + adv;
            var address := (sm.address + InstBytes(cfg, op)) % U64;
            Advance(cfg, sm, adv) == sm.(address := address, opIndex := OpsOver(cfg, op))
  {
    hide InstBytes, OpsOver, MaxOps;
  }

  /** Advancing by `a` and then by `b` is advancing by their sum. */
  lemma AdvanceAdds(cfg: Config, sm: Sm, a: nat, b: nat)
    requires Usable(cfg) && sm.opIndex + a + b < U64
    ensures Advance(cfg, Advance(cfg, sm, a), b) == Advance(cfg, sm, a + b)
  {
    hide Advance, InstBytes, OpsOver, MaxOps;
    var x := sm.opIndex + a;
    AddressAdds(cfg, sm.address, x, b);
    AdvancePlain(cfg, sm, a);
    AdvancePlain(cfg, Advance(cfg, sm, a), b);
    AdvancePlain(cfg, sm, a + b);
  }

  lemma Unit(x: nat, m: nat)
    requires x < m
    ensures x / m == 0 && x % m == x && (x + 1 == m ==> (x + 1) / m == 1 && (x + 1) % m == 0)
  {
  }

  lemma AdvanceInto(cfg: Config, sm: Sm, adv: nat, full: nat, over: nat)
    requires Usable(cfg) && sm.opIndex + adv < U64 && full <= 1
    requires (sm.opIndex + adv) / MaxOps(cfg) == full && (sm.opIndex + adv) % MaxOps(cfg) == over
    ensures var address := (sm.address + if full == 0 then 0 else cfg.minInst) % U64;
            Advance(cfg, sm, adv) == sm.(address := address, opIndex := over)
  {
    hide Advance, MaxOps;
    AdvancePlain(cfg, sm, adv);
  }

  lemma AdvanceInside(cfg: Config, sm: Sm, adv: nat)
    requires Usable(cfg) && sm.opIndex + adv < MaxOps(cfg) && sm.address < U64
    ensures Advance(cfg, sm, adv) == sm.(opIndex := sm.opIndex + adv)
  {
    hide Advance, MaxOps;
    Unit(sm.opIndex + adv, MaxOps(cfg));
    AdvanceInto(cfg, sm, adv, 0, sm.opIndex + adv);
  }

  /** One operation is one more op_index, or the next instruction, which is `minimum_instruction_length`
      bytes further on, once an instruction is full: of one operation before version 4. */
  lemma OneOperation(cfg: Config, sm: Sm)
    requires Usable(cfg) && sm.address < U64
    requires sm.opIndex < if cfg.version < 4 then 1 else cfg.maxOps
    ensures var max := if cfg.version < 4 then 1 else cfg.maxOps;
            var next := (sm.address + cfg.minInst) % U64;
            Advance(cfg, sm, 1)
            == if sm.opIndex + 1 < max then sm.(opIndex := sm.opIndex + 1) else sm.(opIndex := 0, address := next)
    ensures Advance(cfg, sm, 0) == sm
  {
    var op, max := sm.opIndex, MaxOps(cfg);
    assert max == if cfg.version < 4 then 1 else cfg.maxOps;
    hide Advance, MaxOps;
    AdvanceInside(cfg, sm, 0);
    if op + 1 < max {
      AdvanceInside(cfg, sm, 1);
    } else {
      Unit(op, max);
      AdvanceInto(cfg, sm, 1, 1, 0);
    }
  }

  /** What a special opcode is above the first one is split up, with `line_range` lines to an operation. */
  lemma SpecialParts(cfg: Config, opcode: Byte)
    requires Usable(cfg) && cfg.opcodeBase <= opcode
    ensures var lines := LineStep(cfg, opcode) - cfg.lineBase;
            0 <= lines < cfg.lineRange && cfg.lineRange * OpStep(cfg, opcode) + lines == opcode - cfg.opcodeBase
  {
    var adjusted := opcode - cfg.opcodeBase;
    assert adjusted == cfg.lineRange * (adjusted / cfg.lineRange) + adjusted % cfg.lineRange;
  }

  lemma AddressSums(address: nat, k: nat, a: nat, b: nat)
    ensures ((address + k * a) % U64 + k * b) % U64 == (address + k * (a + b)) % U64
  {
    Distribute(k, a, b);
    AddModulo(address, k * a, k * b);
  }

  lemma OpsAdd(cfg: Config, x: nat, b: nat)
    requires Usable(cfg)
    ensures var m, left := MaxOps(cfg), OpsOver(cfg, x);
            && left <= x && OpsOver(cfg, left + b) == OpsOver(cfg, x + b)
            && x / m + (left + b) / m == (x + b) / m
  {
    hide MaxOps;
    RemainderAtMost(x, MaxOps(cfg));
    DivAdd(x, b, MaxOps(cfg));
  }

  lemma AddressAdds(cfg: Config, address: nat, x: nat, b: nat)
    requires Usable(cfg)
    ensures OpsOver(cfg, x) <= x
    ensures var left := OpsOver(cfg, x);
            && ((address + InstBytes(cfg, x)) % U64 + InstBytes(cfg, left + b)) % U64
               == (address + InstBytes(cfg, x + b)) % U64
            && OpsOver(cfg, left + b) == OpsOver(cfg, x + b)
  {
    OpsAdd(cfg, x, b);
    var m, left := MaxOps(cfg), OpsOver(cfg, x);
    hide MaxOps, OpsOver;
    AddressSums(address, cfg.minInst, x / m, (left + b) / m);
  }

  predicate InRange(cfg: Config, sm: Sm) {
    && sm.opIndex < MaxOps(cfg) && sm.address < U64 && sm.file < U32 && sm.line < U32
    && sm.column < U32 && sm.isa < U32 && sm.discriminator < U32
  }

  lemma ExecInRange(cfg: Config, i: Instr, sm: Sm)
    requires Usable(cfg) && InRange(cfg, sm) && (i.SetAddress? ==> i.address < U64)
    ensures var (sm1, rows) := Exec(cfg, i, sm);
            InRange(cfg, sm1) && forall k :: 0 <= k < |rows| ==> InRange(cfg, rows[k])
  {
  }

  lemma {:induction false} LeBelow(bs: seq<Byte>)
    ensures Le(bs) < Pow256(|bs|)
  {
    if bs != [] {
      LeBelow(bs[1..]);
    }
  }

  lemma FetchedAddress(rd: Reader, cfg: Config, bs: seq<Byte>, pos: nat)
    ensures var f := Fetch(rd, cfg, bs, pos); f.Got? && f.i.SetAddress? ==> f.i.address < U64
  {
    Pow256Is64Bits();
    var r := ReadNumber(rd, bs, pos + 1);
    if r.Value? && r.next + 9 <= |bs| {
      LeBelow(bs[r.next + 1..r.next + 9]);
    }
  }

  /** Whatever the bytes are, every row has its op_index below the maximum, and every register
      within its width. */
  lemma {:induction false} RunInRange(rd: Reader, cfg: Config, bs: seq<Byte>, pos: nat, end: nat, sm: Sm, rows: seq<Sm>)
    requires Usable(cfg) && InRange(cfg, sm) && forall k :: 0 <= k < |rows| ==> InRange(cfg, rows[k])
    ensures var r := Run(rd, cfg, bs, pos, end, sm, rows);
            r.Rows? ==> InRange(cfg, r.sm) && forall k :: 0 <= k < |r.rows| ==> InRange(cfg, r.rows[k])
    decreases |bs| - pos
  {
    hide Exec, Fetch, InRange;
    if pos < end {
      var f := Fetch(rd, cfg, bs, pos);
      if f.Got? {
        FetchedAddress(rd, cfg, bs, pos);
        ExecInRange(cfg, f.i, sm);
        var (sm1, more) := Exec(cfg, f.i, sm);
        RunInRange(rd, cfg, bs, f.next, end, sm1, rows + more);
      }
    }
  }
}
