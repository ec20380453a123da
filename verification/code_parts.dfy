/** A code part is one whitespace-separated piece of assembly source together with
    its classification, its encoded output and the diagnostics collected for it
    (codePart.js). Classification tries five patterns in a fixed priority order. */
module CodeParts {
  import opened Base

  datatype Kind = Instruction | Address | AddressByte | Label | Byte | Invalid

  /** Informational diagnostics a code part collects. */
  datatype Note =
    | Interpreted(kind: Kind)
    | SplitHigh
    | SplitLow
    | NoArgumentsRequired
    | HasRequiredArguments
    | LabelRegistered(at: int)
    | LabelNotStored
    | AddressByteConverted

  /** The categories of `ERROR ...` diagnostics the assembler attaches to a code part. */
  datatype CompileError =
    | InvalidCodePart
    | InstructionNotFound
    | ArgumentMissing
    | ArgumentHasError
    | ArgumentWrongType
    | LabelAlreadyDefined
    | LabelAddressOutOfRange
    | OopsInvalidNonError
    | OopsInstructionInvalid
    | OopsInstructionIdOutOfRange
    | OopsForgotSplitAddress
    | LabelNotFound
    | OopsAddressOutOfRange
    | OopsAddressByteOutOfRange
    | ByteInvalidSyntax
    | ByteOutOfRange

  datatype LogLine = Info(note: Note) | Error(error: CompileError)

  datatype CodePart = CodePart(
    origLine: nat,
    origCode: string,
    kind: Kind,
    output: string,
    outputNum: Option<int>,
    address: Option<int>,
    hasError: bool,
    log: seq<LogLine>)
  {
    /** Marks this part as errored and records the reason. */
    function Fail(e: CompileError): (r: CodePart)
      ensures r.hasError && r.log == log + [Error(e)]
      ensures r.(hasError := hasError, log := log) == this
    {
      this.(hasError := true, log := log + [Error(e)])
    }

    /** Marks this part as errored and records each of the reasons, in order. */
    function FailAll(es: seq<CompileError>): (r: CodePart)
      requires |es| > 0
      ensures r.hasError && r.log == log + ErrorLines(es)
      ensures r.(hasError := hasError, log := log) == this
    {
      this.(hasError := true, log := log + ErrorLines(es))
    }

    /** Records an informational note. */
    function Annotate(n: Note): (r: CodePart)
      ensures r.log == log + [Info(n)]
      ensures r.(log := log) == this
    {
      this.(log := log + [Info(n)])
    }
  }

  /** The log lines that report the errors `es`, in order. */
  function ErrorLines(es: seq<CompileError>): (r: seq<LogLine>)
    ensures |r| == |es| && forall k :: 0 <= k < |es| ==> r[k] == Error(es[k])
  {
    seq(|es|, k requires 0 <= k < |es| => Error(es[k]))
  }

  /** `u` is `t` with some entries appended to its log. */
  predicate LogExtends(t: CodePart, u: CodePart)
  {
    |t.log| <= |u.log| && forall k :: 0 <= k < |t.log| ==> u.log[k] == t.log[k]
  }

  predicate IsUpper(c: char) { 'A' <= c <= 'Z' }
  predicate IsLetter(c: char) { 'a' <= c <= 'z' || 'A' <= c <= 'Z' }
  predicate IsDecimalDigit(c: char) { '0' <= c <= '9' }
  /** `[a-zA-Z_-]` */
  predicate IsNameChar(c: char) { IsLetter(c) || c == '_' || c == '-' }
  /** `[0-9a-zA-Z_-]` */
  predicate IsLabelChar(c: char) { IsDecimalDigit(c) || IsNameChar(c) }
  /** `[0-9a-fA-F]` */
  predicate IsHexDigit(c: char) { IsDecimalDigit(c) || 'a' <= c <= 'f' || 'A' <= c <= 'F' }

  predicate AllUpper(s: string) { forall i :: 0 <= i < |s| ==> IsUpper(s[i]) }
  predicate AllNameChars(s: string) { forall i :: 0 <= i < |s| ==> IsNameChar(s[i]) }
  predicate AllLabelChars(s: string) { forall i :: 0 <= i < |s| ==> IsLabelChar(s[i]) }
  predicate AllHexDigits(s: string) { forall i :: 0 <= i < |s| ==> IsHexDigit(s[i]) }

  /** `/^[A-Z]+$/` */
  predicate IsInstructionText(s: string) { |s| >= 1 && AllUpper(s) }

  /** `/^@[a-zA-Z_-]+$/` */
  predicate IsAddressText(s: string) { |s| >= 2 && s[0] == '@' && AllNameChars(s[1..]) }

  /** `/^@[a-zA-Z_-]+\.[hl]$/` */
  predicate IsAddressByteText(s: string)
  {
    |s| >= 4 && s[0] == '@' && AllNameChars(s[1..|s| - 2])
    && s[|s| - 2] == '.' && (s[|s| - 1] == 'h' || s[|s| - 1] == 'l')
  }

  /** `/^[0-9a-zA-Z_-]+:$/` */
  predicate IsLabelText(s: string) { |s| >= 2 && s[|s| - 1] == ':' && AllLabelChars(s[..|s| - 1]) }

  /** `/^(0b|0x|)[0-9a-fA-F]+$/` */
  predicate IsByteText(s: string)
  {
    || (|s| >= 3 && s[0] == '0' && (s[1] == 'b' || s[1] == 'x') && AllHexDigits(s[2..]))
    || (|s| >= 1 && AllHexDigits(s))
  }

  /** Whether the pattern of the rule that yields `k` accepts `s`. */
  predicate RuleAccepts(k: Kind, s: string)
  {
    match k
    case Instruction => IsInstructionText(s)
    case Address => IsAddressText(s)
    case AddressByte => IsAddressByteText(s)
    case Label => IsLabelText(s)
    case Byte => IsByteText(s)
    case Invalid => true
  }

  /** Position of a kind's rule in the order the constructor tries them. */
  function Rank(k: Kind): nat
  {
    match k
    case Instruction => 0
    case Address => 1
    case AddressByte => 2
    case Label => 3
    case Byte => 4
    case Invalid => 5
  }

  /** The source text a classified part came from, rebuilt from its kind and output. */
  function Reconstruct(kind: Kind, output: string): string
  {
    match kind
    case Address => "@" + output
    case AddressByte => "@" + output
    case Label => output + ":"
    case _ => output
  }

  /** `new CodePart(origLine, origCode)`: classify by the first pattern that accepts the text. */
  function NewCodePart(origLine: nat, origCode: string): (t: CodePart)
    ensures t.origLine == origLine && t.origCode == origCode
    ensures t.outputNum.None? && t.address.None?
    ensures t.hasError <==> t.kind == Invalid
    ensures t.hasError ==> t.log == [Error(InvalidCodePart)]
    ensures !t.hasError ==> t.log == [Info(Interpreted(t.kind))]
  {
    var blank := CodePart(origLine, origCode, Invalid, "", None, None, false, []);
    var classified :=
      if IsInstructionText(origCode) then blank.(kind := Instruction, output := origCode)
      else if IsAddressText(origCode) then blank.(kind := Address, output := origCode[1..])
      else if IsAddressByteText(origCode) then blank.(kind := AddressByte, output := origCode[1..])
      else if IsLabelText(origCode) then blank.(kind := Label, output := origCode[..|origCode| - 1])
      else if IsByteText(origCode) then blank.(kind := Byte, output := origCode)
      else blank.(kind := Invalid, output := origCode).Fail(InvalidCodePart);
    if !classified.hasError then classified.Annotate(Interpreted(classified.kind)) else classified
  }


  /** The kind a part gets is that of the first rule, in the constructor's order, whose
      pattern accepts the text; and the text can be rebuilt from the kind and the output. */
  lemma Classification(origLine: nat, origCode: string)
    ensures RuleAccepts(NewCodePart(origLine, origCode).kind, origCode)
    ensures forall k :: Rank(k) < Rank(NewCodePart(origLine, origCode).kind) ==> !RuleAccepts(k, origCode)
    ensures Reconstruct(NewCodePart(origLine, origCode).kind, NewCodePart(origLine, origCode).output) == origCode
  {
    var t := NewCodePart(origLine, origCode);
    if t.kind == Address || t.kind == AddressByte {
      assert t.output == origCode[1..] && origCode[0] == '@';
      assert origCode == [origCode[0]] + origCode[1..];
    } else if t.kind == Label {
      var n := |origCode|;
      assert t.output == origCode[..n - 1] && origCode[n - 1] == ':';
      assert origCode == origCode[..n - 1] + [origCode[n - 1]];
    }
  }
}
