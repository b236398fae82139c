/**
 The header of a line-number program (section 6.2.4 of the DWARF 4 standard): its layout before
 and from version 4 on, and how the debugger finds its way through it.
 */
module LineHeader {
  import opened Bytes
  import opened Wrappers
  import opened Leb128
  import opened LineProgram
  import opened LineRefinement

  datatype FileEntry = FileEntry(path: seq<Byte>, index: nat, modified: nat, size: nat)

  /** A C array of pointers that ends with a null pointer. */
  function Terminated<T>(xs: seq<T>): seq<Option<T>> {
    if xs == [] then [None] else [Some(xs[0])] + Terminated(xs[1..])
  }

  datatype Found<T> = Found(value: T, next: nat) | Lost

  // ---- Finding ----

  function StrEnd(bs: seq<Byte>, pos: nat): (end: nat)
    requires pos <= |bs|
    ensures pos <= end <= |bs|
    decreases |bs| - pos
  {
    if pos == |bs| || bs[pos] == 0 then pos else StrEnd(bs, pos + 1)
  }

  /** Strings up to an empty one, which `next` is the place of. */
  function Strings(bs: seq<Byte>, pos: nat): Found<seq<seq<Byte>>>
    decreases |bs| - pos
  {
    if pos >= |bs| then Lost
    else if bs[pos] == 0 then Found([], pos)
    else
      var end := StrEnd(bs, pos);
      if end == |bs| then Lost
      else
        match Strings(bs, end + 1)
        case Lost => Lost
        case Found(rest, next) => Found([bs[pos..end]] + rest, next)
  }

  function OneFile(rd: Reader, bs: seq<Byte>, pos: nat): (f: Found<FileEntry>)
    requires pos < |bs|
    ensures f.Found? ==> pos < f.next <= |bs|
  {
    var end := StrEnd(bs, pos);
    if end == |bs| then Lost
    else
      var a := ReadNumber(rd, bs, end + 1);
      if a.Undefined? then Lost
      else
        var b := ReadNumber(rd, bs, a.next);
        if b.Undefined? then Lost
        else
          var c := ReadNumber(rd, bs, b.next);
          if c.Undefined? then Lost else Found(FileEntry(bs[pos..end], a.v, b.v, c.v), c.next)
  }

  function Files(rd: Reader, bs: seq<Byte>, pos: nat): Found<seq<FileEntry>>
    decreases |bs| - pos
  {
    if pos >= |bs| then Lost
    else if bs[pos] == 0 then Found([], pos)
    else
      var f := OneFile(rd, bs, pos);
      if f.Lost? then Lost
      else
        match Files(rd, bs, f.next)
        case Lost => Lost
        case Found(rest, next) => Found([f.value] + rest, next)
  }

  /** Where the fields from minimum_instruction_length on are. */
  const FIELDS: nat := 10

  function FieldCount(version: nat): nat {
    if version < 4 then 5 else 6
  }

  function Int8(b: Byte): int {
    if b < 128 then b else b - 256
  }

  function Fields(bs: seq<Byte>): Config
    requires |bs| >= FIELDS + 6
  {
    var version := Le(bs[4..6]);
    var k := if version < 4 then FIELDS else FIELDS + 1;
    Config(version, bs[FIELDS], if version < 4 then 1 else bs[FIELDS + 1],
           bs[k + 1] != 0, Int8(bs[k + 2]), bs[k + 3], bs[k + 4])
  }

  datatype Parsed = Parsed(
    cfg: Config,
    dirs: seq<Option<seq<Byte>>>,
    files: seq<Option<FileEntry>>,
    start: nat,
    size: nat)

  /** dwarf_lines_config, with the start and the size that run_machine computes; None if a table
      runs out of the section. */
  function Parse(rd: Reader, bs: seq<Byte>): Option<Parsed> {
    if |bs| < FIELDS + 6 then None
    else
      var cfg := Fields(bs);
      var dirs := Strings(bs, FIELDS + FieldCount(cfg.version) + cfg.opcodeBase - 1);
      if dirs.Lost? then None
      else
        var files := Files(rd, bs, dirs.next + 1);
        if files.Lost? then None
        else
          var unitLength, headerLength := Le(bs[0..4]), Le(bs[6..10]);
          Some(Parsed(cfg, Terminated(dirs.value), Terminated(files.value), FIELDS + headerLength,
                      (unitLength - headerLength - 6) % U32))
  }

  // ---- The loops ----

  method StrLen(bs: seq<Byte>, pos: nat) returns (end: nat)
    requires pos <= |bs|
    ensures end == StrEnd(bs, pos)
  {
    end := pos;
    while end < |bs| && bs[end] != 0
      invariant pos <= end <= |bs| && StrEnd(bs, pos) == StrEnd(bs, end)
    {
      end := end + 1;
    }
  }

  function Pointers<T>(xs: seq<T>): seq<Option<T>> {
    if xs == [] then [] else [Some(xs[0])] + Pointers(xs[1..])
  }

  lemma {:induction false} PointersAppend<T>(xs: seq<T>, x: T)
    ensures Pointers(xs + [x]) == Pointers(xs) + [Some(x)]
    decreases |xs|
  {
    if xs != [] {
      assert (xs + [x])[1..] == xs[1..] + [x];
      PointersAppend(xs[1..], x);
    }
  }

  lemma {:induction false} PointersTerminated<T>(xs: seq<T>)
    ensures Terminated(xs) == Pointers(xs) + [None]
    decreases |xs|
  {
    if xs != [] {
      PointersTerminated(xs[1..]);
    }
  }

  /** The include_directories loop: the array grows by one pointer at a time. */
  method ReadStrings(bs: seq<Byte>, start: nat) returns (pointers: seq<Option<seq<Byte>>>, str: nat, crashed: bool)
    ensures match Strings(bs, start)
            case Lost => crashed
            case Found(value, next) => !crashed && pointers == Terminated(value) && str == next
  {
    str, pointers, crashed := start, [], false;
    ghost var done: seq<seq<Byte>>, all := [], Strings(bs, start);
    assert all.Found? ==> done + all.value == all.value;
    while true
      invariant pointers == Pointers(done)
      invariant match Strings(bs, str)
                case Lost => Strings(bs, start).Lost?
                case Found(rest, next) => Strings(bs, start) == Found(done + rest, next)
      decreases |bs| - str
    {
      if str >= |bs| { return [], str, true; }
      if bs[str] == 0 { break; }
      var end := StrLen(bs, str);
      if end == |bs| { return [], str, true; }
      ghost var rest := Strings(bs, end + 1);
      if rest.Found? { assert done + ([bs[str..end]] + rest.value) == done + [bs[str..end]] + rest.value; }
      PointersAppend(done, bs[str..end]);
      pointers := pointers + [Some(bs[str..end])];
      done := done + [bs[str..end]];
      str := end + 1;
    }
    assert done + [] == done;
    PointersTerminated(done);
    pointers := pointers + [None];
  }

  method ReadFile(bs: seq<Byte>, pos: nat) returns (f: Found<FileEntry>)
    requires pos < |bs|
    ensures f == OneFile(AsWritten, bs, pos)
  {
    hide ReadFrom;
    var end := StrLen(bs, pos);
    if end == |bs| { return Lost; }
    var index := ReadLeb128(bs, end + 1);
    if index.Undefined? { return Lost; }
    var modified := ReadLeb128(bs, index.next);
    if modified.Undefined? { return Lost; }
    var size := ReadLeb128(bs, modified.next);
    if size.Undefined? { return Lost; }
    return Found(FileEntry(bs[pos..end], index.v, modified.v, size.v), size.next);
  }

  /** store_files. */
  method StoreFiles(bs: seq<Byte>, start: nat) returns (files: seq<Option<FileEntry>>, crashed: bool)
    ensures match Files(AsWritten, bs, start)
            case Lost => crashed
            case Found(value, _) => !crashed && files == Terminated(value)
  {
    hide OneFile;
    var str := start;
    files, crashed := [], false;
    ghost var done: seq<FileEntry>, all := [], Files(AsWritten, bs, start);
    assert all.Found? ==> done + all.value == all.value;
    while true
      invariant files == Pointers(done)
      invariant match Files(AsWritten, bs, str)
                case Lost => all.Lost?
                case Found(rest, next) => all == Found(done + rest, next)
      decreases |bs| - str
    {
      if str >= |bs| { return [], true; }
      if bs[str] == 0 { break; }
      var f := ReadFile(bs, str);
      if f.Lost? { return [], true; }
      ghost var rest := Files(AsWritten, bs, f.next);
      if rest.Found? { assert done + ([f.value] + rest.value) == done + [f.value] + rest.value; }
      PointersAppend(done, f.value);
      files := files + [Some(f.value)];
      done := done + [f.value];
      str := f.next;
    }
    assert done + [] == done;
    PointersTerminated(done);
    files := files + [None];
  }

  method DwarfLinesConfig(bs: seq<Byte>) returns (r: Option<Parsed>)
    ensures r == Parse(AsWritten, bs)
  {
    hide Fields, Strings, Files, Le;
    if |bs| < FIELDS + 6 { return None; }
    var cfg := Fields(bs);
    var dirs, str, noDirs := ReadStrings(bs, FIELDS + FieldCount(cfg.version) + cfg.opcodeBase - 1);
    if noDirs { return None; }
    str := str + 1;
    var files, noFiles := StoreFiles(bs, str);
    if noFiles { return None; }
    var headerLength := Le(bs[6..10]);
    var size := (Le(bs[0..4]) - headerLength - 6) % U32;
    return Some(Parsed(cfg, dirs, files, FIELDS + headerLength, size));
  }

  // ---- Writing ----

  ghost predicate Name(s: seq<Byte>) {
    s != [] && 0 !in s
  }

  function WriteString(s: seq<Byte>): seq<Byte> {
    s + [0]
  }

  function WriteStrings(ss: seq<seq<Byte>>): seq<Byte> {
    if ss == [] then [] else WriteString(ss[0]) + WriteStrings(ss[1..])
  }

  function WriteFile(f: FileEntry): seq<Byte> {
    WriteString(f.path) + (Uleb(f.index) + (Uleb(f.modified) + Uleb(f.size)))
  }

  function WriteFiles(fs: seq<FileEntry>): seq<Byte> {
    if fs == [] then [] else WriteFile(fs[0]) + WriteFiles(fs[1..])
  }

  function WriteFields(cfg: Config): seq<Byte>
    requires -128 <= cfg.lineBase < 128
  {
    var stmt := if cfg.defaultIsStmt then 1 else 0;
    if cfg.version < 4 then [cfg.minInst, stmt, cfg.lineBase % 256, cfg.lineRange, cfg.opcodeBase]
    else [cfg.minInst, cfg.maxOps, stmt, cfg.lineBase % 256, cfg.lineRange, cfg.opcodeBase]
  }

  datatype Unit = Unit(cfg: Config, lengths: seq<Byte>, dirs: seq<seq<Byte>>, files: seq<FileEntry>, prog: seq<Instr>)

  function WriteTables(u: Unit): seq<Byte> {
    WriteStrings(u.dirs) + ([0] + (WriteFiles(u.files) + [0]))
  }

  function WriteBody(u: Unit): seq<Byte>
    requires -128 <= u.cfg.lineBase < 128
  {
    WriteFields(u.cfg) + (u.lengths + WriteTables(u))
  }

  function Write(u: Unit): seq<Byte>
    requires -128 <= u.cfg.lineBase < 128
  {
    var body, code := WriteBody(u), EncodeAll(u.prog);
    ToLe(6 + |body| + |code|, 4) + (ToLe(u.cfg.version, 2) + (ToLe(|body|, 4) + (body + code)))
  }

  ghost predicate FileFits(rd: Reader, f: FileEntry) {
    Name(f.path) && Takes(rd, f.index) && Takes(rd, f.modified) && Takes(rd, f.size)
  }

  /** A unit that the format and the reader's integers have room for. */
  ghost predicate UnitFits(rd: Reader, u: Unit) {
    && -128 <= u.cfg.lineBase < 128
    && u.cfg.version < 0x1_0000 && (u.cfg.version < 4 ==> u.cfg.maxOps == 1)
    && u.cfg.opcodeBase > 0 && |u.lengths| == u.cfg.opcodeBase - 1
    && (forall k :: 0 <= k < |u.dirs| ==> Name(u.dirs[k]))
    && (forall k :: 0 <= k < |u.files| ==> FileFits(rd, u.files[k]))
    && 6 + |WriteBody(u)| + |EncodeAll(u.prog)| < U32
  }

  function FileAsRead(rd: Reader, f: FileEntry): FileEntry {
    f.(index := NumberAsRead(rd, f.index), modified := NumberAsRead(rd, f.modified), size := NumberAsRead(rd, f.size))
  }

  function FilesAsRead(rd: Reader, fs: seq<FileEntry>): seq<FileEntry> {
    if fs == [] then [] else [FileAsRead(rd, fs[0])] + FilesAsRead(rd, fs[1..])
  }

  // ---- Round trips ----

  lemma {:induction false} StrEndAt(bs: seq<Byte>, pos: nat, s: seq<Byte>)
    requires At(bs, pos, s + [0]) && 0 !in s
    ensures StrEnd(bs, pos) == pos + |s| < |bs|
    decreases |s|
  {
    AtParts(bs, pos, s, [0]);
    if s == [] {
      AtHead(bs, pos, 0, []) by { assert [0] + [] == [0]; }
    } else {
      assert s + [0] == [s[0]] + (s[1..] + [0]);
      AtHead(bs, pos, s[0], s[1..] + [0]);
      assert forall b :: b in s[1..] ==> b in s;
      StrEndAt(bs, pos + 1, s[1..]);
    }
  }

  lemma StringAt(bs: seq<Byte>, pos: nat, s: seq<Byte>)
    requires At(bs, pos, s + [0]) && Name(s)
    ensures bs[pos] != 0 && StrEnd(bs, pos) == pos + |s| < |bs| && bs[pos..pos + |s|] == s
  {
    StrEndAt(bs, pos, s);
    AtParts(bs, pos, s, [0]);
    assert bs[pos] == bs[pos..pos + |s|][0];
  }

  /** Reading a list of names that has been written gives it back. */
  lemma {:induction false} StringsBack(bs: seq<Byte>, pos: nat, ss: seq<seq<Byte>>)
    requires At(bs, pos, WriteStrings(ss) + [0])
    requires forall k :: 0 <= k < |ss| ==> Name(ss[k])
    ensures Strings(bs, pos) == Found(ss, pos + |WriteStrings(ss)|)
    decreases |ss|
  {
    hide At, StrEnd;
    if ss == [] {
      AtHead(bs, pos, 0, []) by { assert WriteStrings(ss) + [0] == [0] + []; }
    } else {
      var rest := WriteStrings(ss[1..]) + [0];
      assert WriteStrings(ss) + [0] == WriteString(ss[0]) + rest;
      AtParts(bs, pos, WriteString(ss[0]), rest);
      StringAt(bs, pos, ss[0]);
      assert forall k :: 0 <= k < |ss[1..]| ==> ss[1..][k] == ss[k + 1];
      StringsBack(bs, pos + |ss[0]| + 1, ss[1..]);
      assert [ss[0]] + ss[1..] == ss;
    }
  }

  lemma FileBack(rd: Reader, bs: seq<Byte>, pos: nat, f: FileEntry)
    requires At(bs, pos, WriteFile(f)) && FileFits(rd, f)
    ensures bs[pos] != 0 && OneFile(rd, bs, pos) == Found(FileAsRead(rd, f), pos + |WriteFile(f)|)
  {
    hide ReadNumber, Uleb, NumberAsRead, Takes, At, StrEnd;
    AtParts(bs, pos, WriteString(f.path), Uleb(f.index) + (Uleb(f.modified) + Uleb(f.size)));
    StringAt(bs, pos, f.path);
    var p := pos + |f.path| + 1;
    AtParts(bs, p, Uleb(f.index), Uleb(f.modified) + Uleb(f.size));
    UlebAt(rd, bs, p, f.index);
    p := p + |Uleb(f.index)|;
    AtParts(bs, p, Uleb(f.modified), Uleb(f.size));
    UlebAt(rd, bs, p, f.modified);
    UlebAt(rd, bs, p + |Uleb(f.modified)|, f.size);
  }

  lemma {:induction false} FilesBack(rd: Reader, bs: seq<Byte>, pos: nat, fs: seq<FileEntry>)
    requires At(bs, pos, WriteFiles(fs) + [0])
    requires forall k :: 0 <= k < |fs| ==> FileFits(rd, fs[k])
    ensures Files(rd, bs, pos) == Found(FilesAsRead(rd, fs), pos + |WriteFiles(fs)|)
    decreases |fs|
  {
    hide OneFile, WriteFile, FileAsRead;
    if fs == [] {
      AtHead(bs, pos, 0, []) by { assert WriteFiles(fs) + [0] == [0] + []; }
    } else {
      var rest := WriteFiles(fs[1..]) + [0];
      assert WriteFiles(fs) + [0] == WriteFile(fs[0]) + rest;
      AtParts(bs, pos, WriteFile(fs[0]), rest);
      FileBack(rd, bs, pos, fs[0]);
      assert forall k :: 0 <= k < |fs[1..]| ==> fs[1..][k] == fs[k + 1];
      FilesBack(rd, bs, pos + |WriteFile(fs[0])|, fs[1..]);
    }
  }

  lemma TablesBack(rd: Reader, bs: seq<Byte>, pos: nat, u: Unit)
    requires At(bs, pos, WriteTables(u)) && UnitFits(rd, u)
    ensures var dirs := Strings(bs, pos);
            && dirs.Found? && dirs.value == u.dirs
            && var files := Files(rd, bs, dirs.next + 1); files.Found? && files.value == FilesAsRead(rd, u.files)
  {
    hide Strings, Files, FilesAsRead, WriteStrings, WriteFiles, WriteBody, EncodeAll, At;
    var names, tail := WriteStrings(u.dirs), WriteFiles(u.files) + [0];
    assert WriteTables(u) == names + [0] + tail;
    AtParts(bs, pos, names + [0], tail);
    StringsBack(bs, pos, u.dirs);
    FilesBack(rd, bs, pos + |names| + 1, u.files);
  }

  lemma FieldAt(bs: seq<Byte>, pos: nat, part: seq<Byte>, k: nat)
    requires At(bs, pos, part) && k < |part|
    ensures bs[pos + k] == part[k]
  {
    assert bs[pos..pos + |part|][k] == bs[pos + k];
  }

  lemma FieldsBack(rd: Reader, bs: seq<Byte>, u: Unit)
    requires |bs| >= FIELDS + 6 && UnitFits(rd, u)
    requires Le(bs[4..6]) == u.cfg.version && At(bs, FIELDS, WriteFields(u.cfg))
    ensures Fields(bs) == u.cfg
  {
    hide Le, At, Int8, WriteBody, EncodeAll;
    var fields := WriteFields(u.cfg);
    FieldAt(bs, FIELDS, fields, 0);
    FieldAt(bs, FIELDS, fields, 1);
    FieldAt(bs, FIELDS, fields, 2);
    FieldAt(bs, FIELDS, fields, 3);
    FieldAt(bs, FIELDS, fields, 4);
    if u.cfg.version >= 4 { FieldAt(bs, FIELDS, fields, 5); }
    Int8Back(u.cfg.lineBase);
  }

  lemma Int8Back(x: int)
    requires -128 <= x < 128
    ensures Int8(x % 256) == x
  {
    if x < 0 { assert x % 256 == x + 256; }
  }

  /** The pieces of a written unit, where they are. */
  lemma PiecesAt(rd: Reader, u: Unit, after: seq<Byte>)
    requires UnitFits(rd, u)
    ensures var bs := Write(u) + after;
            var body := WriteBody(u);
            && |bs| >= FIELDS + 6
            && Le(bs[0..4]) == 6 + |body| + |EncodeAll(u.prog)|
            && Le(bs[4..6]) == u.cfg.version && Le(bs[6..10]) == |body|
            && At(bs, FIELDS, WriteFields(u.cfg))
            && At(bs, FIELDS + |WriteFields(u.cfg)| + |u.lengths|, WriteTables(u))
            && At(bs, FIELDS + |body|, EncodeAll(u.prog))
  {
    hide Le, ToLe, WriteFields, WriteTables, EncodeAll, Pow256;
    var bs, body, code := Write(u) + after, WriteBody(u), EncodeAll(u.prog);
    var a, b, c := ToLe(6 + |body| + |code|, 4), ToLe(u.cfg.version, 2), ToLe(|body|, 4);
    assert Write(u) == a + (b + (c + (body + code)));
    assert bs[0..|Write(u)|] == Write(u);
    AtParts(bs, 0, a, b + (c + (body + code)));
    AtParts(bs, 4, b, c + (body + code));
    AtParts(bs, 6, c, body + code);
    AtParts(bs, 10, body, code);
    SmallPowers();
    NumberAt(bs, 0, 6 + |body| + |code|, 4);
    NumberAt(bs, 4, u.cfg.version, 2);
    NumberAt(bs, 6, |body|, 4);
    AtParts(bs, 10, WriteFields(u.cfg), u.lengths + WriteTables(u));
    AtParts(bs, 10 + |WriteFields(u.cfg)|, u.lengths, WriteTables(u));
    BodyLength(rd, u);
  }

  lemma SmallPowers()
    ensures Pow256(4) == U32 && Pow256(2) == 0x1_0000
  {
  }

  lemma BodyLength(rd: Reader, u: Unit)
    requires UnitFits(rd, u)
    ensures |WriteBody(u)| >= 6
  {
    assert |WriteTables(u)| >= 2;
  }

  /** Parsing a written unit gives back its configuration, its directories and its files as read,
      each null-terminated, and the place and size of its program, in either layout. */
  lemma ParsesBack(rd: Reader, u: Unit, after: seq<Byte>)
    requires UnitFits(rd, u)
    ensures Parse(rd, Write(u) + after)
         == Some(Parsed(u.cfg, Terminated(u.dirs), Terminated(FilesAsRead(rd, u.files)),
                        FIELDS + |WriteBody(u)|, |EncodeAll(u.prog)|))
  {
    hide Le, Strings, Files, Fields, WriteTables, WriteBody, EncodeAll, Write;
    var bs := Write(u) + after;
    PiecesAt(rd, u, after);
    FieldsBack(rd, bs, u);
    TablesBack(rd, bs, FIELDS + |WriteFields(u.cfg)| + |u.lengths|, u);
  }

  // ---- From the section to the rows ----

  /** dwarf_lines: the rows of the first unit of the section. */
  function DwarfLines(rd: Reader, bs: seq<Byte>): Option<Outcome> {
    match Parse(rd, bs)
    case None => None
    case Some(p) =>
      if !Usable(p.cfg) then None
      else Some(LineProgram.Run(rd, p.cfg, bs, p.start, p.start + p.size, LineProgram.Reset(p.cfg), []))
  }

  /** Parsing a written unit and running its program gives exactly the rows its instructions mean,
      provided that every operand can be read. */
  lemma UnitMeansItsRows(rd: Reader, u: Unit, after: seq<Byte>)
    requires UnitFits(rd, u) && Usable(u.cfg) && AllFit(rd, u.cfg, u.prog)
    requires forall k :: 0 <= k < |u.prog| ==> Exact(rd, u.prog[k])
    ensures var (sm, rows) := ExecAll(u.cfg, u.prog, LineProgram.Reset(u.cfg));
            DwarfLines(rd, Write(u) + after) == Some(Rows(sm, rows, FIELDS + |WriteBody(u)| + |EncodeAll(u.prog)|))
  {
    hide Parse, WriteBody, EncodeAll, Write, ExecAll, LineProgram.Run, Exact, AllFit, WriteFields, WriteTables, Le;
    ParsesBack(rd, u, after);
    PiecesAt(rd, u, after);
    RunsExactly(rd, u.cfg, Write(u) + after, FIELDS + |WriteBody(u)|, u.prog);
  }

  predicate FileReadable(f: FileEntry) {
    Readable(f.index) && Readable(f.modified) && Readable(f.size)
  }

  /** The file table comes back as it was exactly if all of its numbers can be read. */
  lemma {:induction false} FilesAsReadIff(rd: Reader, fs: seq<FileEntry>)
    ensures FilesAsRead(rd, fs) == fs
       <==> rd.Mended? || forall k :: 0 <= k < |fs| ==> FileReadable(fs[k])
    decreases |fs|
  {
    if fs != [] {
      AsReadIff(rd, fs[0].index, 0);
      AsReadIff(rd, fs[0].modified, 0);
      AsReadIff(rd, fs[0].size, 0);
      var rest := fs[1..];
      FilesAsReadIff(rd, rest);
      assert FilesAsRead(rd, fs)[1..] == FilesAsRead(rd, rest) && fs == [fs[0]] + rest;
      assert forall k :: 0 < k < |fs| ==> fs[k] == rest[k - 1];
      assert forall k :: 0 <= k < |rest| ==> rest[k] == fs[k + 1];
    }
  }
}
