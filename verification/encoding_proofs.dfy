/** What the encoding pass (compiler.js:190-301) makes of each kind of part: instruction
    opcodes, the high and low bytes of label addresses, and byte literals, each rendered
    as eight binary digits that read back as the same number. */
module EncodingProofs {
  import opened Base
  import opened Numerals
  import opened Js
  import opened CodeParts
  import Instructions
  import opened Compiler
  import opened CompilerProofs

  /** `find` on the label table returns the first entry with that name. */
  lemma {:induction false} FindLabelFirst(labels: seq<LabelEntry>, name: string)
    ensures FindLabel(labels, name).Some? ==>
              exists k :: 0 <= k < |labels| && labels[k] == FindLabel(labels, name).value
                          && forall j :: 0 <= j < k ==> labels[j].name != name
    decreases |labels|
  {
    if |labels| > 0 && labels[0].name != name {
      FindLabelFirst(labels[1..], name);
      if FindLabel(labels, name).Some? {
        var k :| 0 <= k < |labels[1..]| && labels[1..][k] == FindLabel(labels, name).value
                 && forall j :: 0 <= j < k ==> labels[1..][j].name != name;
        assert labels[k + 1] == labels[1..][k];
        forall j | 0 <= j < k + 1
          ensures labels[j].name != name
        {
          if j > 0 {
            assert labels[j] == labels[1..][j - 1];
          }
        }
      }
    }
  }

  /** An address byte as the constructor classifies it is a non-empty name, a dot and `h` or `l`. */
  lemma AddressByteWellFormed(t: CodePart)
    requires Classified(t) && t.kind == AddressByte
    ensures |DropLast(t.output, 2)| > 0
    ensures TakeLast(t.output, 1) == "h" || TakeLast(t.output, 1) == "l"
    ensures t.output == DropLast(t.output, 2) + "." + TakeLast(t.output, 1)
  {
    var c := t.origCode;
    Classification(t.origLine, c);
    assert IsAddressByteText(c);
    assert "@" + t.output == c;
    assert t.output == c[1..];
    var n := |t.output|;
    assert t.output == t.output[..n - 2] + [t.output[n - 2]] + [t.output[n - 1]];
  }

  /** An address byte whose label is in the table becomes the high or the low byte of the
      label's address; one whose label is missing is reported. */
  lemma AddressByteEncoding(table: seq<Instructions.Entry>, t: CodePart, labels: seq<LabelEntry>)
    requires !t.hasError && t.kind == AddressByte
    requires |DropLast(t.output, 2)| > 0 && (TakeLast(t.output, 1) == "h" || TakeLast(t.output, 1) == "l")
    ensures var r := EncodeOne(table, t, labels);
            match FindLabel(labels, DropLast(t.output, 2))
            case None => r.hasError && r.log == t.log + [Error(LabelNotFound)]
            case Some(e) =>
              0 <= e.address < 65536 ==>
                && !r.hasError
                && r.outputNum == Some(if TakeLast(t.output, 1) == "h" then e.address / 256 else e.address % 256)
                && r.log == t.log + [Info(AddressByteConverted)]
  {
  }

  /** The two bytes an address `@name` is split into give back the label's address. */
  lemma AddressBytesRebuildAddress(table: seq<Instructions.Entry>, hi: CodePart, lo: CodePart, name: string,
                                   labels: seq<LabelEntry>)
    requires |name| > 0
    requires !hi.hasError && hi.kind == AddressByte && hi.output == name + ".h"
    requires !lo.hasError && lo.kind == AddressByte && lo.output == name + ".l"
    requires FindLabel(labels, name).Some? && 0 <= FindLabel(labels, name).value.address < 65536
    ensures EncodeOne(table, hi, labels).outputNum.Some? && EncodeOne(table, lo, labels).outputNum.Some?
    ensures 256 * EncodeOne(table, hi, labels).outputNum.value + EncodeOne(table, lo, labels).outputNum.value
            == FindLabel(labels, name).value.address
  {
    assert DropLast(hi.output, 2) == name && TakeLast(hi.output, 1) == "h";
    assert DropLast(lo.output, 2) == name && TakeLast(lo.output, 1) == "l";
    AddressByteEncoding(table, hi, labels);
    AddressByteEncoding(table, lo, labels);
  }

  /** A byte literal becomes its value when JavaScript reads it as a number from 0 to 255;
      otherwise the syntax or the range is reported. The rendering reads back as the value. */
  lemma ByteEncoding(table: seq<Instructions.Entry>, t: CodePart, labels: seq<LabelEntry>)
    requires !t.hasError && t.kind == Byte
    ensures var r := EncodeOne(table, t, labels);
            match Number(t.output)
            case None => r.hasError && r.log == t.log + [Error(ByteInvalidSyntax)]
            case Some(n) =>
              && (0 <= n < 256 ==> !r.hasError && r.outputNum == Some(n) && Number("0b" + r.output) == Some(n))
              && (n < 0 || n >= 256 ==> r.hasError && r.log == t.log + [Error(ByteOutOfRange)])
  {
    match Number(t.output)
    case None =>
    case Some(n) =>
      if 0 <= n < 256 {
        Bin8ReadBack(n);
      }
  }

  /** A known instruction becomes its opcode, when the table's opcodes are bytes. */
  lemma InstructionEncoding(table: seq<Instructions.Entry>, t: CodePart, labels: seq<LabelEntry>)
    requires forall k :: 0 <= k < |table| ==> 0 <= table[k].id < 256
    requires !t.hasError && t.kind == Instruction && Instructions.Lists(table, t.origCode)
    ensures var r := EncodeOne(table, t, labels);
            && !r.hasError
            && r.outputNum == Some(Instructions.Lookup(table, t.origCode).id)
            && Number("0b" + r.output) == r.outputNum
  {
    Instructions.FindFirst(table, t.origCode);
    var ins := Instructions.Lookup(table, t.origCode);
    Bin8ReadBack(ins.id);
  }

  /** `u` is `t` with one error appended to its log, of a kind the encoder reports. */
  predicate EncoderError(t: CodePart, u: CodePart)
  {
    && |u.log| == |t.log| + 1 && u.log[..|t.log|] == t.log
    && u.log[|t.log|] in {Error(OopsInstructionInvalid), Error(LabelNotFound), Error(ByteInvalidSyntax), Error(ByteOutOfRange)}
  }

  /** The errors the encoding pass can add to a part that reaches it error-free, when the
      earlier passes did their job: kinds classified, addresses split, labels in range and
      opcodes bytes. Each such error is one logged entry; of the internal-error branches only
      the unknown mnemonic remains, reached by an instruction the validation loop stepped over. */
  lemma EncodeOneErrors(table: seq<Instructions.Entry>, t: CodePart, labels: seq<LabelEntry>)
    requires forall k :: 0 <= k < |table| ==> 0 <= table[k].id < 256
    requires forall k :: 0 <= k < |labels| ==> 0 <= labels[k].address < 65536
    requires t.kind != Address && (t.kind == Invalid ==> t.hasError)
    requires t.kind == AddressByte ==>
               |DropLast(t.output, 2)| > 0 && (TakeLast(t.output, 1) == "h" || TakeLast(t.output, 1) == "l")
    ensures !t.hasError && EncodeOne(table, t, labels).hasError ==> EncoderError(t, EncodeOne(table, t, labels))
  {
    if !t.hasError && t.kind == Instruction {
      Instructions.FindFirst(table, t.origCode);
    }
  }

  /** Every opcode of the instruction set is a byte. */
  lemma TableOpcodesAreBytes()
    ensures forall k :: 0 <= k < |Instructions.Table| ==> 0 <= Instructions.Table[k].id < 256
  {
  }
}
