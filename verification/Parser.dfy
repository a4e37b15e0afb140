/** The parser's last steps: instruction lookup, operand widths, and the check that every label exists. */
module Parser {
  import opened Bytes
  import opened Isa
  import opened Program
  import opened Encoding
  import opened Decoder
  import HashMap

  // ---- Instruction definitions

  datatype Def = Def(name: string, argCount: nat)

  /** `strcmp(a, b) <= 0`. */
  predicate AtMost(a: string, b: string) {
    a == [] || (b != [] && (a[0] < b[0] || (a[0] == b[0] && AtMost(a[1..], b[1..]))))
  }

  lemma {:induction false} AtMostAntisymmetric(a: string, b: string)
    requires AtMost(a, b) && AtMost(b, a)
    ensures a == b
  {
    if a != [] {
      AtMostAntisymmetric(a[1..], b[1..]);
      assert a == [a[0]] + a[1..] && b == [b[0]] + b[1..];
    }
  }

  predicate Sorted(defs: seq<Def>) {
    forall i, j :: 0 <= i < j < |defs| ==> AtMost(defs[i].name, defs[j].name)
  }

  /** In a sorted table the entries of one name stand together. */
  lemma SameNameTogether(defs: seq<Def>, i: nat, j: nat, k: nat)
    requires Sorted(defs) && i <= j <= k < |defs| && defs[i].name == defs[k].name
    ensures defs[j].name == defs[i].name
  {
    if i < j < k {
      AtMostAntisymmetric(defs[i].name, defs[j].name);
    }
  }

  datatype Lookup = FoundDef(index: nat) | UnknownName | WrongArgCount | PastTable

  /**
   * `parse_instn`: from whichever entry of that name the binary search hit, back to the first one, then forward to
   * one with the right argument count. `PastTable` is the comparison with the terminator's null name.
   */
  method FindDef(defs: seq<Def>, name: string, argCount: nat, hit: int) returns (r: Lookup)
    requires Sorted(defs) && hit < |defs|
    requires if hit >= 0 then defs[hit].name == name else forall i :: 0 <= i < |defs| ==> defs[i].name != name
    ensures r.FoundDef? ==> r.index < |defs| && defs[r.index] == Def(name, argCount)
                            && forall i :: 0 <= i < r.index ==> defs[i] != Def(name, argCount)
    ensures r.UnknownName? <==> forall i :: 0 <= i < |defs| ==> defs[i].name != name
    ensures r.FoundDef? <==> exists i :: 0 <= i < |defs| && defs[i] == Def(name, argCount)
    ensures r.PastTable? <==> !r.FoundDef? && |defs| > 0 && defs[|defs| - 1].name == name
  {
    if hit < 0 { return UnknownName; }
    var fmt := hit;
    while fmt > 0 && name == defs[fmt - 1].name
      invariant 0 <= fmt <= hit && defs[fmt].name == name
    {
      fmt := fmt - 1;
    }
    forall i | 0 <= i < fmt
      ensures defs[i].name != name
    {
      if defs[i].name == name {
        SameNameTogether(defs, i, fmt - 1, hit);
        assert false;
      }
    }
    while fmt < |defs| && name == defs[fmt].name
      invariant 0 <= fmt <= |defs|
      invariant forall i :: 0 <= i < fmt ==> defs[i] != Def(name, argCount)
      invariant fmt == |defs| ==> defs[fmt - 1].name == name
      invariant hit < fmt || defs[fmt].name == name
      invariant fmt < |defs| ==> hit >= fmt || fmt - 1 >= hit
    {
      if defs[fmt].argCount == argCount { return FoundDef(fmt); }
      fmt := fmt + 1;
      if fmt <= hit { SameNameTogether(defs, fmt - 1, fmt, hit); }
    }
    if fmt == |defs| { return PastTable; }
    forall i | fmt <= i < |defs|
      ensures defs[i].name != name
    {
      if defs[i].name == name {
        SameNameTogether(defs, hit, fmt, i);
        assert false;
      }
    }
    return WrongArgCount;
  }

  /** `setup_instn_defs` after the sort; the counter is one byte wide. */
  method AssignOpcodes(opcodes: array<nat>)
    modifies opcodes
    ensures forall i :: 0 <= i < opcodes.Length ==> opcodes[i] == i % 256
    ensures (forall i :: 0 <= i < opcodes.Length ==> opcodes[i] == i) <==> opcodes.Length <= 256
  {
    var n := 0;
    for i := 0 to opcodes.Length
      invariant n == i % 256
      invariant forall j :: 0 <= j < i ==> opcodes[j] == j % 256
    {
      opcodes[i] := n;
      n := (n + 1) % 256;
    }
    if opcodes.Length > 256 {
      assert opcodes[256] == 0;
    }
  }

  // ---- Immediates

  /** A number as written: `magnitude` with an optional minus sign. */
  datatype Literal = Literal(negative: bool, magnitude: u64)

  /** The 64-bit value. */
  function ValueOf(l: Literal): u64 {
    if l.negative && l.magnitude > 0 then WORD64 - l.magnitude else l.magnitude
  }

  /** Negative numbers take 8 bytes, others the least width that holds them. */
  function WidthOf(l: Literal): (w: nat)
    ensures ValidWidth(w)
  {
    if l.negative then 8
    else if l.magnitude < 0x100 then 1
    else if l.magnitude < 0x1_0000 then 2
    else if l.magnitude < WORD32 then 4
    else 8
  }

  function ParseImmediate(l: Literal): Arg {
    Imm(ValueOf(l), WidthOf(l))
  }

  /** The width is enough, and for a number without a sign no smaller one is. */
  lemma WidthIsLeast(l: Literal)
    ensures ValueOf(l) < Capacity(WidthOf(l))
    ensures !l.negative ==> forall w: nat :: ValidWidth(w) && w < WidthOf(l) ==> l.magnitude >= Capacity(w)
  {
    Capacities();
  }

  /** A literal is an operand the generator accepts. */
  lemma LiteralIsValid(p: Program, l: Literal)
    ensures ValidArg(p, ParseImmediate(l))
  {
    WidthIsLeast(l);
  }

  /**
   * Operand values survive the pipeline: whatever other operands an instruction has, choosing a literal's width,
   * packing sizes, writing bytes, decoding and zero-extending give back its 64-bit value. Only a bad reference stops
   * the decoder.
   */
  lemma LiteralsSurvive(p: Program, debug: Mode, code: seq<byte>, memsz: nat, iptr: nat, i: SrcInstn, k: nat,
                        l: Literal)
    requires Fits(p, debug) && ValidInstn(p, i) && Holds(code, iptr, EncodeInstn(p, debug, i))
    requires k < |i.args| && i.args[k] == ParseImmediate(l)
    ensures var d := Decode(p.table, code, memsz, iptr);
            && (d.Decoded? <==> RefsOk(SourceOperands(p, debug, i.args), memsz))
            && (d.Decoded? ==> d.opcode == i.opcode && d.length == InstnSize(i)
                               && |d.operands| == |i.args| && d.operands[k] == ImmVal(ValueOf(l)))
    ensures ValueOf(l) == l.magnitude || (l.negative && ValueOf(l) + l.magnitude == WORD64)
    ensures l.negative && l.magnitude > 0 ==> ValueOf(l) + l.magnitude == WORD64
  {
    hide Holds, EncodeInstn, Decode, RefsOk;
    DecodeEncoding(p, debug, code, memsz, iptr, i);
  }

  // ---- Labels

  function LabelsOf(args: seq<Arg>): set<string> {
    set k | 0 <= k < |args| && (args[k].RefLbl? || args[k].ImmLbl?) :: args[k].name
  }

  ghost predicate LabelKnown(a: Arg, labels: map<string, Label>) {
    a.RefLbl? || a.ImmLbl? ==> a.name in labels
  }

  ghost predicate AllLabelsKnown(instns: seq<SrcInstn>, labels: map<string, Label>) {
    forall i, k :: 0 <= i < |instns| && 0 <= k < |instns[i].args| ==> LabelKnown(instns[i].args[k], labels)
  }

  /** `parse_arg` adds the label of every label operand to the set of references. */
  method CollectRefs(args: seq<Arg>, refs: HashMap.Table<string, bool>)
    requires refs.Valid() && LabelsOf(args) <= refs.keys
    modifies refs, refs.slots
    ensures refs.Valid() && refs.contents.Keys == old(refs.contents.Keys) + LabelsOf(args)
    ensures refs.slots == old(refs.slots) || fresh(refs.slots)
  {
    hide HashMap.Table.Valid, LabelsOf, LabelOf;
    LabelsNone(args);
    for k := 0 to |args|
      invariant refs.Valid() && refs.contents.Keys == old(refs.contents.Keys) + LabelsOf(args[..k])
      invariant refs.slots == old(refs.slots) || fresh(refs.slots)
    {
      LabelsStep(args, k);
      AddRef(args[k], refs);
    }
    assert args[..|args|] == args;
  }

  function LabelOf(a: Arg): set<string> {
    if a.RefLbl? || a.ImmLbl? then {a.name} else {}
  }

  method AddRef(a: Arg, refs: HashMap.Table<string, bool>)
    requires refs.Valid() && LabelOf(a) <= refs.keys
    modifies refs, refs.slots
    ensures refs.Valid() && refs.contents.Keys == old(refs.contents.Keys) + LabelOf(a)
    ensures refs.slots == old(refs.slots) || fresh(refs.slots)
  {
    hide HashMap.Table.Valid;
    if a.RefLbl? || a.ImmLbl? {
      refs.Put(a.name, true);
    }
  }

  lemma LabelsNone(args: seq<Arg>)
    ensures LabelsOf(args[..0]) == {}
  {}

  lemma LabelsStep(args: seq<Arg>, k: nat)
    requires k < |args|
    ensures LabelsOf(args[..k + 1])
            == LabelsOf(args[..k]) + LabelOf(args[k])
    ensures LabelOf(args[k]) <= LabelsOf(args)
  {
    assert args[..k + 1] == args[..k] + [args[k]];
    forall l | l in LabelsOf(args[..k])
      ensures l in LabelsOf(args[..k + 1])
    {
      var i :| 0 <= i < k && (args[..k][i].RefLbl? || args[..k][i].ImmLbl?) && args[..k][i].name == l;
      assert args[..k + 1][i] == args[..k][i];
    }
    if args[k].RefLbl? || args[k].ImmLbl? {
      assert args[..k + 1][k] == args[k];
    }
  }

  function RefsOf(instns: seq<SrcInstn>): set<string> {
    set i, k | 0 <= i < |instns| && 0 <= k < |instns[i].args|
               && (instns[i].args[k].RefLbl? || instns[i].args[k].ImmLbl?) :: instns[i].args[k].name
  }

  /** `label_refs_visitor` over the references: one error for each that no label defines. */
  method CountMissing(labels: HashMap.Table<string, Label>, refs: HashMap.Table<string, bool>) returns (errors: nat)
    requires labels.Valid() && refs.Valid()
    ensures errors == 0 <==> refs.contents.Keys <= labels.contents.Keys
  {
    hide HashMap.Table.Placed, HashMap.Roomy;
    errors := 0;
    var visited := refs.Iterate();
    for i := 0 to |visited|
      invariant errors == 0 <==> forall k :: 0 <= k < i ==> visited[k].0 in labels.contents
    {
      var r := labels.Get(visited[i].0);
      if r.Missing? { errors := errors + 1; }
    }
    if errors == 0 {
      forall l | l in refs.contents
        ensures l in labels.contents
      {
        assert (l, refs.contents[l]) in visited;
      }
    }
  }

  /**
   * Label closure: collecting the operands' labels into the set and visiting every stored key counts no error
   * exactly when every label operand of every instruction is defined.
   */
  method CheckLabels(instns: seq<SrcInstn>, labels: HashMap.Table<string, Label>, refs: HashMap.Table<string, bool>)
    returns (errors: nat)
    requires labels.Valid() && refs.Valid() && refs.contents == map[] && RefsOf(instns) <= refs.keys
    requires labels.slots as object != refs.slots
    modifies refs, refs.slots
    ensures errors == 0 <==> AllLabelsKnown(instns, labels.contents)
  {
    for i := 0 to |instns|
      invariant labels.Valid() && refs.Valid() && refs.contents.Keys == RefsOf(instns[..i])
      invariant refs.slots == old(refs.slots) || fresh(refs.slots)
    {
      RefsStep(instns, i);
      CollectRefs(instns[i].args, refs);
    }
    assert instns[..|instns|] == instns;
    errors := CountMissing(labels, refs);
    KnownMeansDefined(instns, labels.contents);
  }

  lemma RefsStep(instns: seq<SrcInstn>, i: nat)
    requires i < |instns|
    ensures RefsOf(instns[..i + 1]) == RefsOf(instns[..i]) + LabelsOf(instns[i].args)
    ensures LabelsOf(instns[i].args) <= RefsOf(instns)
  {
    var next := instns[..i + 1];
    assert next == instns[..i] + [instns[i]];
    forall l | l in LabelsOf(instns[i].args)
      ensures l in RefsOf(next) && l in RefsOf(instns)
    {
      var k :| 0 <= k < |instns[i].args| && (instns[i].args[k].RefLbl? || instns[i].args[k].ImmLbl?)
          && instns[i].args[k].name == l;
      assert next[i].args[k].name == l;
    }
    forall l | l in RefsOf(instns[..i])
      ensures l in RefsOf(next)
    {
      var j, k :| 0 <= j < i && 0 <= k < |instns[..i][j].args|
                  && (instns[..i][j].args[k].RefLbl? || instns[..i][j].args[k].ImmLbl?)
                      && instns[..i][j].args[k].name == l;
      assert next[j].args[k].name == l;
    }
  }

  lemma KnownMeansDefined(instns: seq<SrcInstn>, labels: map<string, Label>)
    ensures RefsOf(instns) <= labels.Keys <==> AllLabelsKnown(instns, labels)
  {
    if RefsOf(instns) <= labels.Keys {
      forall i, k | 0 <= i < |instns| && 0 <= k < |instns[i].args|
        ensures LabelKnown(instns[i].args[k], labels)
      {
        if instns[i].args[k].RefLbl? || instns[i].args[k].ImmLbl? {
          assert instns[i].args[k].name in RefsOf(instns);
        }
      }
    }
    if AllLabelsKnown(instns, labels) {
      forall l | l in RefsOf(instns)
        ensures l in labels
      {
        var i, k :| 0 <= i < |instns| && 0 <= k < |instns[i].args|
                    && (instns[i].args[k].RefLbl? || instns[i].args[k].ImmLbl?) && instns[i].args[k].name == l;
        assert LabelKnown(instns[i].args[k], labels);
      }
    }
  }

  /** What parsing an instruction establishes before the labels are looked at. */
  predicate ParsedInstn(table: Table, i: SrcInstn) {
    && i.opcode < |table| && |i.args| == Arity(table[i.opcode])
    && forall k :: 0 <= k < |i.args| && i.args[k].Imm? ==>
         ValidWidth(i.args[k].width) && i.args[k].value < Capacity(i.args[k].width)
  }

  /**
   * The label check completes what code generation asks for: a parsed program whose code labels all stand before an
   * instruction is valid exactly when the check counts no error.
   */
  lemma CheckedIsValid(p: Program)
    requires ValidTable(p.table) && CodeLabelsIn(p.labels, |p.instns|)
    requires forall i :: 0 <= i < |p.instns| ==> ParsedInstn(p.table, p.instns[i])
    ensures Valid(p) <==> AllLabelsKnown(p.instns, p.labels)
  {
    forall i, k | 0 <= i < |p.instns| && 0 <= k < |p.instns[i].args|
      ensures ValidArg(p, p.instns[i].args[k]) <==> LabelKnown(p.instns[i].args[k], p.labels)
    {
      assert ParsedInstn(p.table, p.instns[i]);
    }
    if Valid(p) {
      forall i, k | 0 <= i < |p.instns| && 0 <= k < |p.instns[i].args|
        ensures LabelKnown(p.instns[i].args[k], p.labels)
      {
        assert ValidInstn(p, p.instns[i]);
      }
    }
  }
}
