/** The instruction set as the assembler sees it (src/instructions.js): mnemonic,
    opcode id and the kinds of the operands that must follow on the same line. */
module Instructions {
  import opened Base
  import CodeParts

  /** What `getInstrucion` returns. */
  datatype Instruction = Instruction(short: string, id: int, requiredArgs: seq<CodeParts.Kind>, isError: bool)

  /** A table entry: an `Instruction` built with the constructor's default `isError = false`. */
  datatype Entry = Entry(short: string, id: int, requiredArgs: seq<CodeParts.Kind>)
  {
    function AsInstruction(): (r: Instruction)
      ensures !r.isError && r.short == short && r.id == id && r.requiredArgs == requiredArgs
    {
      Instruction(short, id, requiredArgs, false)
    }
  }

  /** What `getInstrucion` returns for an unknown mnemonic. */
  const NotFound: Instruction := Instruction("HLT", 0, [], true)

  const Table: seq<Entry> := [
    Entry("HLT", 0, []),
    Entry("NOP", 1, []),
    Entry("ADR", 2, [CodeParts.AddressByte, CodeParts.AddressByte]),
    Entry("LDA", 3, []),
    Entry("STA", 4, []),
    Entry("LDB", 5, []),
    Entry("SWP", 6, []),
    Entry("LDH", 7, []),
    Entry("LDL", 8, []),
    Entry("STH", 9, []),
    Entry("STL", 10, []),
    Entry("LDQ", 11, []),
    Entry("STQ", 12, []),
    Entry("CLA", 13, [CodeParts.Byte]),
    Entry("CLB", 14, [CodeParts.Byte]),
    Entry("CLQ", 15, [CodeParts.Byte]),
    Entry("ADD", 20, []),
    Entry("ADDC", 21, []),
    Entry("SUB", 22, []),
    Entry("SUBC", 23, []),
    Entry("SHL", 24, []),
    Entry("SHLC", 25, []),
    Entry("SHR", 26, []),
    Entry("SHRC", 27, []),
    Entry("AND", 28, []),
    Entry("OR", 29, []),
    Entry("XOR", 30, []),
    Entry("NAND", 31, []),
    Entry("NOR", 32, []),
    Entry("XNOR", 33, []),
    Entry("CKSM", 34, []),
    Entry("CKSMC", 35, []),
    Entry("INCR", 36, []),
    Entry("DECR", 37, []),
    Entry("JMP", 38, []),
    Entry("JMPC", 39, []),
    Entry("JMPZ", 40, []),
    Entry("JMPQ", 41, []),
    Entry("PSH", 42, []),
    Entry("POP", 43, []),
    Entry("SUBR", 44, []),
    Entry("RET", 45, [])
  ]

  /** Whether some entry of `entries` is named `short`. */
  predicate Lists(entries: seq<Entry>, short: string)
    decreases |entries|
  {
    |entries| > 0 && (entries[0].short == short || Lists(entries[1..], short))
  }

  predicate Known(short: string)
  {
    Lists(Table, short)
  }

  /** The loop of `getInstrucion`: the first entry named `short`, scanning from the front. */
  function Find(entries: seq<Entry>, short: string): (r: Option<Entry>)
    ensures r.None? <==> !Lists(entries, short)
    ensures r.Some? ==> r.value.short == short
    decreases |entries|
  {
    if |entries| == 0 then None
    else if entries[0].short == short then Some(entries[0])
    else Find(entries[1..], short)
  }

  /** `Lists` is the existence of an entry with that name. */
  lemma {:induction false} ListsExists(entries: seq<Entry>, short: string)
    ensures Lists(entries, short) <==> exists k :: 0 <= k < |entries| && entries[k].short == short
    decreases |entries|
  {
    if |entries| > 0 {
      ListsExists(entries[1..], short);
      if exists k :: 0 <= k < |entries| && entries[k].short == short {
        var k :| 0 <= k < |entries| && entries[k].short == short;
        if k > 0 {
          assert entries[1..][k - 1] == entries[k];
        }
      }
    }
  }

  /** The scan returns the first matching entry: no entry before it has that name. */
  lemma {:induction false} FindFirst(entries: seq<Entry>, short: string)
    ensures Find(entries, short).Some? ==>
              exists k :: 0 <= k < |entries| && entries[k] == Find(entries, short).value
                          && forall j :: 0 <= j < k ==> entries[j].short != short
    decreases |entries|
  {
    if |entries| > 0 && entries[0].short != short {
      FindFirst(entries[1..], short);
      if Find(entries, short).Some? {
        var k :| 0 <= k < |entries[1..]| && entries[1..][k] == Find(entries, short).value
                 && forall j :: 0 <= j < k ==> entries[1..][j].short != short;
        assert entries[k + 1] == Find(entries, short).value;
        forall j | 0 <= j < k + 1
          ensures entries[j].short != short
        {
          if j > 0 {
            assert entries[j] == entries[1..][j - 1];
          }
        }
      }
    }
  }

  /** `getInstrucion` on the table `entries`: the first entry with that mnemonic, else the
      error sentinel. */
  function Lookup(entries: seq<Entry>, short: string): (r: Instruction)
    ensures r.isError <==> !Lists(entries, short)
    ensures r.isError ==> r == NotFound && r.requiredArgs == []
    ensures !r.isError ==> r.short == short
    ensures !r.isError ==>
              exists k :: 0 <= k < |entries| && r == entries[k].AsInstruction()
                          && forall j :: 0 <= j < k ==> entries[j].short != short
  {
    FindFirst(entries, short);
    match Find(entries, short)
    case None => NotFound
    case Some(entry) => entry.AsInstruction()
  }

  /** `getInstrucion(short)` on the instruction set. */
  function GetInstruction(short: string): (r: Instruction)
    ensures r.isError <==> !Known(short)
    ensures !r.isError ==> r.short == short
    ensures !r.isError ==>
              exists k :: 0 <= k < |Table| && r == Table[k].AsInstruction()
                          && forall j :: 0 <= j < k ==> Table[j].short != short
  {
    Lookup(Table, short)
  }
}
