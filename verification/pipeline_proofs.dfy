/** Properties of the whole assembler run: what the parts look like after every pass, which
    bytes the program consists of, and which label table it resolves addresses against. */
module PipelineProofs {
  import opened Base
  import opened Numerals
  import opened Js
  import opened CodeParts
  import Instructions
  import opened Compiler
  import opened CompilerProofs
  import opened ValidationProofs
  import opened AssignmentProofs
  import opened EncodingProofs

  /** Kind, text and output of a part, the fields no pass after splitting changes. */
  predicate SameShape(t: CodePart, u: CodePart)
  {
    u.kind == t.kind && u.output == t.output && u.origCode == t.origCode && u.origLine == t.origLine
  }

  /** After splitting, validating and placing, every part still has the shape the constructor
      gave it, and no whole address is left; the passes only ever add errors. */
  lemma PlacedShape(table: seq<Instructions.Entry>, lines: seq<string>)
    ensures var c := CompileWith(table, lines);
            && |c.validated| == |c.split| && |c.placed| == |c.split|
            && forall k :: 0 <= k < |c.split| ==>
                 && Classified(c.split[k]) && c.split[k].kind != Address
                 && SameShape(c.split[k], c.placed[k])
                 && (c.split[k].hasError ==> c.placed[k].hasError)
  {
    var c := CompileWith(table, lines);
    TokenizeSpec(lines);
    SplitLeavesNoAddress(c.tokens);
    ValidateFrame(table, c.split, 0);
    AssignFrame(c.validated);
  }

  /** What encoding makes of one part that went through the earlier passes from the
      classified part `s`. */
  lemma EncodePlacedPart(table: seq<Instructions.Entry>, s: CodePart, t: CodePart, labels: seq<LabelEntry>)
    requires forall k :: 0 <= k < |table| ==> 0 <= table[k].id < 256
    requires forall e :: e in labels ==> 0 <= e.address < 65536
    requires Classified(s) && s.kind != Address && SameShape(s, t) && (s.hasError ==> t.hasError)
    ensures EncodeOne(table, t, labels).kind != Address
    ensures !t.hasError && EncodeOne(table, t, labels).hasError ==> EncoderError(t, EncodeOne(table, t, labels))
  {
    if s.kind == AddressByte {
      AddressByteWellFormed(s);
    }
    forall q | 0 <= q < |labels| ensures 0 <= labels[q].address < 65536 {
      assert labels[q] in labels;
    }
    EncodeOneErrors(table, t, labels);
  }

  /** No part of the result is a whole address, and every error the encoder adds to a part
      is one logged entry: the silent branch for a malformed address byte and the internal
      errors for invalid parts, unsplit addresses and out-of-range label addresses cannot be
      reached. An unknown mnemonic can, on an instruction the validation loop stepped over. */
  lemma EncodingErrors(table: seq<Instructions.Entry>, lines: seq<string>)
    requires forall k :: 0 <= k < |table| ==> 0 <= table[k].id < 256
    ensures var c := CompileWith(table, lines);
            forall k :: 0 <= k < |c.parts| ==>
              && c.parts[k].kind != Address
              && (!c.placed[k].hasError && c.parts[k].hasError ==> EncoderError(c.placed[k], c.parts[k]))
  {
    var c := CompileWith(table, lines);
    PlacedShape(table, lines);
    CompiledLabels(table, lines);
    forall k | 0 <= k < |c.parts|
      ensures c.parts[k].kind != Address
      ensures !c.placed[k].hasError && c.parts[k].hasError ==> EncoderError(c.placed[k], c.parts[k])
    {
      EncodePlacedPart(table, c.split[k], c.placed[k], c.labels);
    }
  }

  /** Every byte of the program is a number from 0 to 255 whose eight-digit rendering reads
      back as that number. */
  lemma ProgramBytes(table: seq<Instructions.Entry>, lines: seq<string>)
    ensures var parts := CompileWith(table, lines).parts;
            forall k :: 0 <= k < |parts| && !parts[k].hasError && IsByteKind(parts[k].kind) ==>
              && parts[k].outputNum.Some? && 0 <= parts[k].outputNum.value < 256
              && |parts[k].output| == 8 && Number("0b" + parts[k].output) == parts[k].outputNum
  {
    var parts := CompileWith(table, lines).parts;
    forall k | 0 <= k < |parts| && !parts[k].hasError && IsByteKind(parts[k].kind)
      ensures |parts[k].output| == 8 && Number("0b" + parts[k].output) == parts[k].outputNum
    {
      Bin8Value(parts[k].outputNum.value);
      Bin8ReadBack(parts[k].outputNum.value);
    }
  }

  /** An instruction that comes out error-free is in the table, and its byte is its opcode. */
  lemma InstructionsAreKnown(table: seq<Instructions.Entry>, lines: seq<string>)
    ensures var parts := CompileWith(table, lines).parts;
            forall k :: 0 <= k < |parts| && !parts[k].hasError && parts[k].kind == Instruction ==>
              && Instructions.Lists(table, parts[k].origCode)
              && parts[k].outputNum == Some(Instructions.Lookup(table, parts[k].origCode).id)
  {
  }

  /** The label table is the closed form over the validated parts: the error-free labels whose
      address is inside the 16-bit range, in order, each at the count of address-taking parts
      before it. */
  lemma CompiledLabels(table: seq<Instructions.Entry>, lines: seq<string>)
    ensures var c := CompileWith(table, lines);
            && c.labels == LabelsBefore(c.validated, |c.validated|)
            && forall e :: e in c.labels ==> 0 <= e.address < 65536
  {
    var c := CompileWith(table, lines);
    AssignClosedForm(c.validated);
    LabelsBeforeSpec(c.validated, |c.validated|);
  }
}
