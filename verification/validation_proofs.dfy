/** Properties of operand validation (compiler.js:104-146): which instruction parts end up
    errored, what they log, and which parts the loop steps over without looking at them. */
module ValidationProofs {
  import opened Base
  import opened CodeParts
  import Instructions
  import opened Compiler

  /** The `m`-th argument of the instruction at index `i` exists and is on line `line`. */
  predicate ArgPresent(ts: seq<CodePart>, line: nat, i: nat, m: nat)
  {
    i + 1 + m < |ts| && ts[i + 1 + m].origLine == line
  }

  /** The `m`-th argument is present, error-free and of the kind `args[m]`. */
  predicate ArgAccepted(ts: seq<CodePart>, args: seq<Kind>, line: nat, i: nat, m: nat)
    requires m < |args|
  {
    ArgPresent(ts, line, i, m) && !ts[i + 1 + m].hasError && ts[i + 1 + m].kind == args[m]
  }

  /** No error is reported exactly when every remaining argument is present, error-free
      and of the required kind. */
  lemma {:induction false} ArgErrorsNone(ts: seq<CodePart>, args: seq<Kind>, line: nat, i: nat, j: nat)
    requires j <= |args|
    ensures ArgErrors(ts, args, line, j, i + j).0 == [] <==>
              forall m :: j <= m < |args| ==> ArgAccepted(ts, args, line, i, m)
    decreases |args| - j
  {
    var c := i + j + 1;
    if j < |args| {
      if c >= |ts| || line != ts[c].origLine {
        assert !ArgAccepted(ts, args, line, i, j);
      } else {
        ArgErrorsNone(ts, args, line, i, j + 1);
        assert ArgVerdict(ts[c], args[j]) == [] <==> ArgAccepted(ts, args, line, i, j);
      }
    }
  }

  /** `ArgumentMissing` occurs in `errors` at most as the last entry. */
  predicate MissingOnlyLast(errors: seq<CompileError>)
  {
    forall k :: 0 <= k < |errors| - 1 ==> errors[k] != ArgumentMissing
  }

  /** A missing argument is reported exactly when some remaining argument is missing, and
      only as the last error, since it stops the loop; each argument adds at most one error. */
  lemma {:induction false} ArgErrorsMissing(ts: seq<CodePart>, args: seq<Kind>, line: nat, i: nat, j: nat)
    requires j <= |args|
    ensures ArgumentMissing in ArgErrors(ts, args, line, j, i + j).0 <==>
              exists m :: j <= m < |args| && !ArgPresent(ts, line, i, m)
    ensures MissingOnlyLast(ArgErrors(ts, args, line, j, i + j).0)
    ensures |ArgErrors(ts, args, line, j, i + j).0| <= |args| - j
    decreases |args| - j
  {
    var c := i + j + 1;
    if j < |args| {
      if c >= |ts| || line != ts[c].origLine {
        assert !ArgPresent(ts, line, i, j);
      } else {
        ArgErrorsMissing(ts, args, line, i, j + 1);
        assert ArgPresent(ts, line, i, j);
        var here := ArgVerdict(ts[c], args[j]);
        var rest := ArgErrors(ts, args, line, j + 1, i + (j + 1)).0;
        assert ArgumentMissing !in here && |here| <= 1;
        assert ArgErrors(ts, args, line, j, i + j).0 == here + rest;
        if exists m :: j <= m < |args| && !ArgPresent(ts, line, i, m) {
          var m :| j <= m < |args| && !ArgPresent(ts, line, i, m);
          assert j + 1 <= m;
        }
      }
    }
  }

  /** Where the argument loop leaves the cursor: `s`, the last argument position it looked
      at, is the first missing argument when there is one, and the last one otherwise. */
  lemma {:induction false} ArgErrorsCursor(ts: seq<CodePart>, args: seq<Kind>, line: nat, i: nat, j: nat)
    requires j < |args|
    ensures var s := ArgErrors(ts, args, line, j, i + j).1 - i - 1;
            && j <= s < |args|
            && (forall m :: j <= m < s ==> ArgPresent(ts, line, i, m))
            && (ArgPresent(ts, line, i, s) <==> forall m :: j <= m < |args| ==> ArgPresent(ts, line, i, m))
            && (ArgPresent(ts, line, i, s) ==> s == |args| - 1)
    decreases |args| - j
  {
    var c := i + j + 1;
    if !(c >= |ts| || line != ts[c].origLine) && j + 1 < |args| {
      ArgErrorsCursor(ts, args, line, i, j + 1);
      assert ArgPresent(ts, line, i, j);
    }
  }

  /** One round of the loop changes only the error flag and the log of its part, never
      clears the flag and only appends to the log. */
  lemma VisitFrame(table: seq<Instructions.Entry>, ts: seq<CodePart>, i: nat)
    requires i < |ts|
    ensures SameButDiagnostics(ts[i], Visit(table, ts, i).0) && LogExtends(ts[i], Visit(table, ts, i).0)
    ensures ts[i].hasError ==> Visit(table, ts, i).0.hasError
    ensures ts[i].hasError || ts[i].kind != Instruction ==> Visit(table, ts, i).0 == ts[i]
  {
  }

  /** Parts before the loop's position are never changed. */
  lemma {:induction false} ValidateKeepsBefore(table: seq<Instructions.Entry>, ts: seq<CodePart>, i: nat, k: nat)
    requires k < i && k < |ts|
    ensures ValidateFrom(table, ts, i)[k] == ts[k]
    decreases |ts| - i
  {
    if i < |ts| {
      var (u, next) := Visit(table, ts, i);
      ValidateKeepsBefore(table, ts[i := u], next, k);
    }
  }

  /** Validation changes only error flags and logs, only of error-free instruction parts,
      never clears an error flag and only appends to logs. */
  lemma {:induction false} ValidateFrame(table: seq<Instructions.Entry>, ts: seq<CodePart>, i: nat)
    ensures forall k :: 0 <= k < |ts| ==>
              && SameButDiagnostics(ts[k], ValidateFrom(table, ts, i)[k])
              && LogExtends(ts[k], ValidateFrom(table, ts, i)[k])
              && (ts[k].hasError ==> ValidateFrom(table, ts, i)[k].hasError)
              && (ts[k].hasError || ts[k].kind != Instruction ==> ValidateFrom(table, ts, i)[k] == ts[k])
    decreases |ts| - i
  {
    if i < |ts| {
      var (u, next) := Visit(table, ts, i);
      var ts' := ts[i := u];
      VisitFrame(table, ts, i);
      ValidateFrame(table, ts', next);
      forall k | 0 <= k < |ts|
        ensures && SameButDiagnostics(ts[k], ValidateFrom(table, ts, i)[k])
                && LogExtends(ts[k], ValidateFrom(table, ts, i)[k])
                && (ts[k].hasError ==> ValidateFrom(table, ts, i)[k].hasError)
                && (ts[k].hasError || ts[k].kind != Instruction ==> ValidateFrom(table, ts, i)[k] == ts[k])
      {
        if k == i {
          var w := ValidateFrom(table, ts', next)[k];
          assert LogExtends(ts[k], u) && LogExtends(u, w);
        }
      }
    }
  }

  /** An error-free instruction is marked errored exactly when its mnemonic is unknown or
      one of its arguments is missing, errored or of the wrong kind. */
  lemma VisitVerdict(table: seq<Instructions.Entry>, ts: seq<CodePart>, i: nat)
    requires i < |ts| && !ts[i].hasError && ts[i].kind == Instruction
    ensures var ins := Instructions.Lookup(table, ts[i].origCode);
            Visit(table, ts, i).0.hasError <==>
              || !Instructions.Lists(table, ts[i].origCode)
              || exists m :: 0 <= m < |ins.requiredArgs| && !ArgAccepted(ts, ins.requiredArgs, ts[i].origLine, i, m)
  {
    var t := ts[i];
    var ins := Instructions.Lookup(table, t.origCode);
    if !ins.isError && |ins.requiredArgs| > 0 {
      ArgErrorsNone(ts, ins.requiredArgs, t.origLine, i, 0);
    }
  }

  /** What validation appends to the log of an error-free instruction: one entry, or, when
      arguments are at fault, one error per reported problem, in order. */
  lemma VisitLog(table: seq<Instructions.Entry>, ts: seq<CodePart>, i: nat)
    requires i < |ts| && !ts[i].hasError && ts[i].kind == Instruction
    ensures var t := ts[i];
            var ins := Instructions.Lookup(table, t.origCode);
            var u := Visit(table, ts, i).0;
            var errors := ArgErrors(ts, ins.requiredArgs, t.origLine, 0, i).0;
            && (!Instructions.Lists(table, t.origCode) ==> u.log == t.log + [Error(InstructionNotFound)])
            && (Instructions.Lists(table, t.origCode) && |ins.requiredArgs| == 0 ==> u.log == t.log + [Info(NoArgumentsRequired)])
            && (Instructions.Lists(table, t.origCode) && |ins.requiredArgs| > 0 && !u.hasError ==>
                  u.log == t.log + [Info(HasRequiredArguments)])
            && (Instructions.Lists(table, t.origCode) && |ins.requiredArgs| > 0 && u.hasError ==>
                  u.log == t.log + ErrorLines(errors))
  {
  }

  /** Validation leaves the instruction at `i` as its round made it, and leaves untouched
      every part up to and including the first missing argument: the arguments themselves and,
      when one is missing, the next part too, which is then never validated. */
  lemma ValidateSkipsArguments(table: seq<Instructions.Entry>, ts: seq<CodePart>, i: nat)
    requires i < |ts| && !ts[i].hasError && ts[i].kind == Instruction
    ensures ValidateFrom(table, ts, i)[i] == Visit(table, ts, i).0
    ensures var ins := Instructions.Lookup(table, ts[i].origCode);
            forall p :: i < p < |ts| && p - i - 1 < |ins.requiredArgs|
                        && (forall m :: 0 <= m < p - i - 1 ==> ArgPresent(ts, ts[i].origLine, i, m))
                        ==> ValidateFrom(table, ts, i)[p] == ts[p]
  {
    var t := ts[i];
    var ins := Instructions.Lookup(table, t.origCode);
    var (u, next) := Visit(table, ts, i);
    var ts' := ts[i := u];
    assert ValidateFrom(table, ts, i) == ValidateFrom(table, ts', next);
    ValidateKeepsBefore(table, ts', next, i);
    forall p | i < p < |ts| && p - i - 1 < |ins.requiredArgs|
               && (forall m :: 0 <= m < p - i - 1 ==> ArgPresent(ts, t.origLine, i, m))
      ensures ValidateFrom(table, ts, i)[p] == ts[p]
    {
      ArgErrorsCursor(ts, ins.requiredArgs, t.origLine, i, 0);
      ValidateKeepsBefore(table, ts', next, p);
    }
  }

  /** The argument loop reports only argument problems. */
  lemma {:induction false} ArgErrorsAreArgumentErrors(ts: seq<CodePart>, args: seq<Kind>, line: nat, j: nat, cursor: nat)
    requires j <= |args|
    ensures InstructionNotFound !in ArgErrors(ts, args, line, j, cursor).0
    decreases |args| - j
  {
    if j < |args| {
      var c := cursor + 1;
      if c < |ts| && line == ts[c].origLine {
        ArgErrorsAreArgumentErrors(ts, args, line, j + 1, c);
      }
    }
  }

  /** The argument loop looks only past its cursor, so changing a part at or before the
      cursor does not change what it reports. */
  lemma {:induction false} ArgErrorsLookAhead(ts: seq<CodePart>, args: seq<Kind>, line: nat, j: nat, cursor: nat,
                                               p: nat, x: CodePart)
    requires j <= |args| && p <= cursor && p < |ts|
    ensures ArgErrors(ts[p := x], args, line, j, cursor) == ArgErrors(ts, args, line, j, cursor)
    decreases |args| - j
  {
    if j < |args| {
      var c := cursor + 1;
      if c < |ts| {
        assert ts[p := x][c] == ts[c];
      }
      ArgErrorsLookAhead(ts, args, line, j + 1, c, p, x);
    }
  }

  /** A round at `i` does not depend on the parts before `i`. */
  lemma VisitLooksAhead(table: seq<Instructions.Entry>, ts: seq<CodePart>, i: nat, p: nat, x: CodePart)
    requires p < i < |ts|
    ensures Visit(table, ts[p := x], i) == Visit(table, ts, i)
  {
    var ins := Instructions.Lookup(table, ts[i].origCode);
    ArgErrorsLookAhead(ts, ins.requiredArgs, ts[i].origLine, 0, i, p, x);
  }

  /** Whether the outer loop, started at `from`, runs a round at index `i`. */
  predicate Reaches(table: seq<Instructions.Entry>, ts: seq<CodePart>, from: nat, i: nat)
    decreases |ts| - from
  {
    && from < |ts|
    && (from == i || (from < i && Reaches(table, ts[from := Visit(table, ts, from).0], Visit(table, ts, from).1, i)))
  }

  /** A part the loop reaches ends up as its own round made it, from the parts as they were
      before the pass. */
  lemma {:induction false} ValidateAtReached(table: seq<Instructions.Entry>, ts: seq<CodePart>, from: nat, i: nat)
    requires Reaches(table, ts, from, i)
    ensures i < |ts| && ValidateFrom(table, ts, from)[i] == Visit(table, ts, i).0
    decreases |ts| - from
  {
    var (u, next) := Visit(table, ts, from);
    var ts' := ts[from := u];
    assert ValidateFrom(table, ts, from) == ValidateFrom(table, ts', next);
    if from == i {
      ValidateKeepsBefore(table, ts', next, i);
    } else {
      ValidateAtReached(table, ts', next, i);
      VisitLooksAhead(table, ts, i, from, u);
    }
  }

  /** The "instruction not found" error: after the whole pass, an error-free instruction the
      loop reaches has gained that error in its log exactly when its mnemonic is not in the
      table, and then it is marked errored and that is the only entry it gained. The log
      entries it had before are kept. */
  lemma ValidateReportsUnknown(table: seq<Instructions.Entry>, ts: seq<CodePart>, i: nat)
    requires i < |ts| && Reaches(table, ts, 0, i) && !ts[i].hasError && ts[i].kind == Instruction
    ensures var v := ValidateFrom(table, ts, 0)[i]; var n := |ts[i].log|;
            && n <= |v.log| && v.log[..n] == ts[i].log
            && (Error(InstructionNotFound) in v.log[n..] <==> !Instructions.Lists(table, ts[i].origCode))
            && (!Instructions.Lists(table, ts[i].origCode) ==> v.hasError && v.log[n..] == [Error(InstructionNotFound)])
  {
    ValidateAtReached(table, ts, 0, i);
    VisitLog(table, ts, i);
    var t := ts[i];
    var ins := Instructions.Lookup(table, t.origCode);
    var v := Visit(table, ts, i).0;
    if Instructions.Lists(table, t.origCode) && |ins.requiredArgs| > 0 {
      var errors := ArgErrors(ts, ins.requiredArgs, t.origLine, 0, i).0;
      ArgErrorsAreArgumentErrors(ts, ins.requiredArgs, t.origLine, 0, i);
      if v.hasError {
        assert v.log[|t.log|..] == ErrorLines(errors);
      }
    }
  }
}
