/** The assembler of compiler.js (`Compiler.compile`): five passes over a sequence of
    code parts. Lines become classified parts; every `@name` is split into its high and
    low byte; instruction operands are checked; addresses are assigned and labels
    registered; finally every part is encoded as an 8-bit value and its binary text. */
module Compiler {
  import opened Base
  import opened Numerals
  import opened Js
  import opened CodeParts
  import Instructions

  // ---------------------------------------------------------------------------
  // Pass 1: source lines to code parts (compiler.js:62-81)
  // ---------------------------------------------------------------------------

  /** Everything before the first `-` of a line; comments start there. */
  function CutComment(line: string): string
  {
    match IndexOf(line, '-')
    case None => line
    case Some(i) => line[..i]
  }

  /** `while (line[0] == " ") line = line.slice(1)` */
  function StripLeadingSpaces(line: string): string
    decreases |line|
  {
    if |line| > 0 && line[0] == ' ' then StripLeadingSpaces(line[1..]) else line
  }

  /** The pieces that are not empty, in order. */
  function NonEmpty(pieces: seq<string>): seq<string>
    decreases |pieces|
  {
    if |pieces| == 0 then []
    else (if |pieces[0]| > 0 then [pieces[0]] else []) + NonEmpty(pieces[1..])
  }

  /** The texts of the code parts one non-empty source line yields. */
  function LineTexts(line: string): seq<string>
  {
    NonEmpty(Split(StripLeadingSpaces(CutComment(line)), ' '))
  }

  /** A piece of source text and the index of the line it came from. */
  datatype Word = Word(line: nat, text: string)

  /** One word per text, all on source line `lineNumber`. */
  function WordsOfLine(lineNumber: nat, texts: seq<string>): seq<Word>
  {
    seq(|texts|, k requires 0 <= k < |texts| => Word(lineNumber, texts[k]))
  }

  /** What the loop body makes of one line: nothing for an empty line (`continue`), else its texts. */
  function LineContribution(line: string): seq<string>
  {
    if |line| == 0 then [] else LineTexts(line)
  }

  /** The texts of every line, line by line. */
  function TextsByLine(lines: seq<string>): seq<seq<string>>
  {
    seq(|lines|, k requires 0 <= k < |lines| => LineContribution(lines[k]))
  }

  /** The words of lines `n` onwards, given each line's texts. */
  function WordsFrom(texts: seq<seq<string>>, n: nat): seq<Word>
    requires n <= |texts|
    decreases |texts| - n
  {
    if n == |texts| then [] else WordsOfLine(n, texts[n]) + WordsFrom(texts, n + 1)
  }

  /** The code parts of the source: one `new CodePart(lineNumber, piece)` per piece. */
  function Tokenize(lines: seq<string>): seq<CodePart>
  {
    var words := WordsFrom(TextsByLine(lines), 0);
    seq(|words|, k requires 0 <= k < |words| => NewCodePart(words[k].line, words[k].text))
  }

  // ---------------------------------------------------------------------------
  // Pass 2: split addresses into high and low bytes (compiler.js:85-100)
  // ---------------------------------------------------------------------------

  /** What one part becomes: an address that is not errored is replaced by its `.h` and `.l` parts. */
  function Expand(t: CodePart): seq<CodePart>
  {
    if !t.hasError && t.kind == Address then
      [NewCodePart(t.origLine, t.origCode + ".h").Annotate(SplitHigh),
       NewCodePart(t.origLine, t.origCode + ".l").Annotate(SplitLow)]
    else [t]
  }

  function SplitAddresses(ts: seq<CodePart>): (r: seq<CodePart>)
    decreases |ts|
  {
    if |ts| == 0 then [] else Expand(ts[0]) + SplitAddresses(ts[1..])
  }

  // ---------------------------------------------------------------------------
  // Pass 3: operand validation (compiler.js:104-146)
  // ---------------------------------------------------------------------------

  /** Whether two parts are the same apart from their error flag and their log. */
  predicate SameButDiagnostics(t: CodePart, u: CodePart)
  {
    && u.origLine == t.origLine && u.origCode == t.origCode && u.kind == t.kind
    && u.output == t.output && u.outputNum == t.outputNum && u.address == t.address
  }

  /** What one argument that is present adds to the instruction's diagnostics: an errored
      argument, or one of another kind than `expected`, is reported; the loop then continues. */
  function ArgVerdict(arg: CodePart, expected: Kind): seq<CompileError>
  {
    if arg.hasError then [ArgumentHasError]
    else if expected != arg.kind then [ArgumentWrongType]
    else []
  }

  /** The inner `for j` loop for an instruction on line `line` that requires `args`: the
      errors it reports, in order, and the index of the last part it looked at (`cursor`
      starts at the instruction). A missing argument is reported and stops the loop (`break`)
      with the cursor on the part that was not an argument. */
  function ArgErrors(ts: seq<CodePart>, args: seq<Kind>, line: nat, j: nat, cursor: nat)
    : (res: (seq<CompileError>, nat))
    requires j <= |args|
    ensures cursor <= res.1
    decreases |args| - j
  {
    if j == |args| then ([], cursor)
    else
      var c := cursor + 1;
      if c >= |ts| || line != ts[c].origLine then ([ArgumentMissing], c)
      else
        var (rest, end) := ArgErrors(ts, args, line, j + 1, c);
        (ArgVerdict(ts[c], args[j]) + rest, end)
  }

  /** One round of the outer loop at part `i`: the part as the round leaves it, and the index
      the next round looks at. Only an error-free instruction is changed, and only in its error
      flag and log; the arguments it consumes are stepped over. */
  function Visit(table: seq<Instructions.Entry>, ts: seq<CodePart>, i: nat): (res: (CodePart, nat))
    requires i < |ts|
    ensures i < res.1
  {
    var t := ts[i];
    if t.hasError || t.kind != Instruction then (t, i + 1)
    else
      var ins := Instructions.Lookup(table, t.origCode);
      if ins.isError then (t.Fail(InstructionNotFound), i + 1)
      else if |ins.requiredArgs| == 0 then (t.Annotate(NoArgumentsRequired), i + 1)
      else
        var (errors, cursor) := ArgErrors(ts, ins.requiredArgs, t.origLine, 0, i);
        (if errors == [] then t.Annotate(HasRequiredArguments) else t.FailAll(errors), cursor + 1)
  }

  /** The outer loop from index `i` on. */
  function ValidateFrom(table: seq<Instructions.Entry>, ts: seq<CodePart>, i: nat): (r: seq<CodePart>)
    ensures |r| == |ts|
    decreases |ts| - i
  {
    if i >= |ts| then ts
    else
      var (u, next) := Visit(table, ts, i);
      ValidateFrom(table, ts[i := u], next)
  }

  // ---------------------------------------------------------------------------
  // Pass 4: addresses and the label table (compiler.js:154-185)
  // ---------------------------------------------------------------------------

  datatype LabelEntry = LabelEntry(name: string, address: int, origLine: nat)

  /** The duplicate check's callback `(label)=>{label.label == codePart.output}` has a block
      body without `return`: it evaluates the comparison, discards it and yields `undefined`,
      which `find` reads as false. */
  predicate DuplicateCallback(entry: LabelEntry, name: string)
  {
    false
  }

  /** `labels.find(DuplicateCallback)` */
  function FindDuplicate(labels: seq<LabelEntry>, name: string): Option<LabelEntry>
    decreases |labels|
  {
    if |labels| == 0 then None
    else
      var first := labels[0];
      if DuplicateCallback(first, name) then Some(first) else FindDuplicate(labels[1..], name)
  }

  /** The address loop from part `i` on, with the counter at `address` and `labels` registered so far. */
  function AssignFrom(ts: seq<CodePart>, i: nat, address: nat, labels: seq<LabelEntry>)
    : (r: (seq<CodePart>, seq<LabelEntry>))
    requires i <= |ts|
    ensures |r.0| == |ts|
    decreases |ts| - i
  {
    if i == |ts| then (ts, labels)
    else
      var t := ts[i];
      if t.hasError then AssignFrom(ts, i + 1, address + 1, labels)
      else
        var placed := t.(address := Some(address));
        if t.kind == Label then
          if FindDuplicate(labels, t.output).Some? then
            AssignFrom(ts[i := placed.Fail(LabelAlreadyDefined)], i + 1, address, labels)
          // the source also tests `address < 0`, which the counter never is
          else if address >= 65536 then
            AssignFrom(ts[i := placed.Fail(LabelAddressOutOfRange)], i + 1, address, labels)
          else
            AssignFrom(ts[i := placed.Annotate(LabelRegistered(address))], i + 1, address,
                       labels + [LabelEntry(t.output, address, t.origLine)])
        else AssignFrom(ts[i := placed], i + 1, address + 1, labels)
  }

  function Assign(ts: seq<CodePart>): (seq<CodePart>, seq<LabelEntry>)
  {
    AssignFrom(ts, 0, 0, [])
  }

  // ---------------------------------------------------------------------------
  // Pass 5: encoding (compiler.js:190-301)
  // ---------------------------------------------------------------------------

  /** `labels.find(label=>label.label == name)` */
  function FindLabel(labels: seq<LabelEntry>, name: string): (r: Option<LabelEntry>)
    ensures r.None? <==> forall k :: 0 <= k < |labels| ==> labels[k].name != name
    ensures r.Some? ==> r.value in labels && r.value.name == name
    decreases |labels|
  {
    if |labels| == 0 then None
    else if labels[0].name == name then Some(labels[0])
    else FindLabel(labels[1..], name)
  }

  /** `n.toString(2)` left-padded with zeros to eight characters. */
  function Bin8(n: nat): string
  {
    PadStart(ToRadix(n, 2), 8, '0')
  }

  /** A part with its value set: the number and its eight-digit binary text. */
  function WithByte(t: CodePart, n: nat): CodePart
  {
    t.(outputNum := Some(n), output := Bin8(n))
  }

  /** Parts that end up as one byte of the program. */
  predicate IsByteKind(k: Kind)
  {
    k == Instruction || k == AddressByte || k == Byte
  }

  /** The `switch (codePart.type)` for one part, given the complete label table. */
  function EncodeOne(table: seq<Instructions.Entry>, t: CodePart, labels: seq<LabelEntry>): (r: CodePart)
    ensures r.kind == t.kind && r.origLine == t.origLine && r.origCode == t.origCode && r.address == t.address
    ensures t.hasError ==> r == t
    ensures t.hasError ==> r.hasError
    ensures !r.hasError && IsByteKind(r.kind) ==>
              r.outputNum.Some? && 0 <= r.outputNum.value < 256 && r.output == Bin8(r.outputNum.value)
    ensures r.kind == Label ==> r.outputNum == t.outputNum && r.hasError == t.hasError
  {
    if t.hasError then t
    else match t.kind
      case Invalid => t.Fail(OopsInvalidNonError)
      case Instruction =>
        var ins := Instructions.Lookup(table, t.origCode);
        if ins.isError then t.Fail(OopsInstructionInvalid)
        else if ins.id < 0 || ins.id >= 256 then t.Fail(OopsInstructionIdOutOfRange)
        else WithByte(t, ins.id)
      case Address => t.Fail(OopsForgotSplitAddress)
      case AddressByte =>
        var labelName := DropLast(t.output, 2);
        var hilo := TakeLast(t.output, 1);
        if |labelName| == 0 || (hilo != "h" && hilo != "l") then
          // the source builds this message with `+` instead of `+=`, so nothing is logged
          t.(hasError := true)
        else (match FindLabel(labels, labelName)
          case None => t.Fail(LabelNotFound)
          case Some(entry) =>
            if entry.address < 0 || entry.address >= 65536 then t.Fail(OopsAddressOutOfRange)
            else
              var num := if hilo == "h" then entry.address / 256 else Rem(entry.address, 256);
              if num < 0 || num >= 256 then t.Fail(OopsAddressByteOutOfRange)
              else WithByte(t.Annotate(AddressByteConverted), num))
      case Label => t.Annotate(LabelNotStored)
      case Byte =>
        (match Number(t.output)
        case None => t.Fail(ByteInvalidSyntax)
        case Some(num) =>
          if num < 0 || num >= 256 then t.Fail(ByteOutOfRange) else WithByte(t, num))
  }

  function Encode(table: seq<Instructions.Entry>, ts: seq<CodePart>, labels: seq<LabelEntry>): (r: seq<CodePart>)
    ensures |r| == |ts|
    ensures forall k :: 0 <= k < |ts| ==> r[k] == EncodeOne(table, ts[k], labels)
  {
    seq(|ts|, k requires 0 <= k < |ts| => EncodeOne(table, ts[k], labels))
  }

  // ---------------------------------------------------------------------------
  // The whole pipeline
  // ---------------------------------------------------------------------------

  /** The parts after each pass, and the label table. */
  datatype Compiled = Compiled(
    tokens: seq<CodePart>,
    split: seq<CodePart>,
    validated: seq<CodePart>,
    placed: seq<CodePart>,
    labels: seq<LabelEntry>,
    parts: seq<CodePart>)

  /** `compile()` on the source lines, without the HTML rendering, for the instruction
      table `table`. */
  function CompileWith(table: seq<Instructions.Entry>, lines: seq<string>): Compiled
  {
    var tokens := Tokenize(lines);
    var split := SplitAddresses(tokens);
    var validated := ValidateFrom(table, split, 0);
    var (placed, labels) := Assign(validated);
    Compiled(tokens, split, validated, placed, labels, Encode(table, placed, labels))
  }

  /** `compile()` with the instruction set of src/instructions.js. */
  function Compile(lines: seq<string>): Compiled
  {
    CompileWith(Instructions.Table, lines)
  }
}
