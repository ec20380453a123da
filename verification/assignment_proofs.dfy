/** The closed form of address assignment (compiler.js:154-185): every part that is errored
    or is not a label takes one address, a label gets the address of the next such part,
    and the label table lists the labels in order of appearance. */
module AssignmentProofs {
  import opened Base
  import opened CodeParts
  import opened Compiler

  /** Whether the address counter moves past part `t`. */
  predicate TakesAddress(t: CodePart)
  {
    t.hasError || t.kind != Label
  }

  /** The number of parts before index `k` that take an address: the counter on reaching `k`. */
  function SlotsBefore(ts: seq<CodePart>, k: nat): nat
    requires k <= |ts|
  {
    if k == 0 then 0 else SlotsBefore(ts, k - 1) + (if TakesAddress(ts[k - 1]) then 1 else 0)
  }

  /** Whether part `k` is a label that gets registered: error-free, at an address inside
      the 16-bit range. */
  predicate Registers(ts: seq<CodePart>, k: nat)
    requires k < |ts|
  {
    !ts[k].hasError && ts[k].kind == Label && SlotsBefore(ts, k) < 65536
  }

  /** The label-table entry part `k` registers. */
  function EntryOf(ts: seq<CodePart>, k: nat): LabelEntry
    requires k < |ts|
  {
    LabelEntry(ts[k].output, SlotsBefore(ts, k), ts[k].origLine)
  }

  /** The label table built from the parts before index `k`. */
  function LabelsBefore(ts: seq<CodePart>, k: nat): seq<LabelEntry>
    requires k <= |ts|
  {
    if k == 0 then []
    else LabelsBefore(ts, k - 1) + (if Registers(ts, k - 1) then [EntryOf(ts, k - 1)] else [])
  }

  /** What the address loop makes of a part reached with the counter at `a`. */
  function Placed(t: CodePart, a: nat): CodePart
  {
    if t.hasError then t
    else if t.kind != Label then t.(address := Some(a))
    else if a >= 65536 then t.(address := Some(a)).Fail(LabelAddressOutOfRange)
    else t.(address := Some(a)).Annotate(LabelRegistered(a))
  }

  /** The first `n` parts of `ts` are the parts of `ts0` as the loop places them. */
  predicate PlacedUpTo(ts0: seq<CodePart>, ts: seq<CodePart>, n: nat)
    requires n <= |ts0| == |ts|
  {
    forall k {:trigger ts[k]} :: 0 <= k < n ==> ts[k] == Placed(ts0[k], SlotsBefore(ts0, k))
  }

  /** The duplicate check never finds anything, whatever the table holds. */
  lemma {:induction false} DuplicateNeverFound(labels: seq<LabelEntry>, name: string)
    ensures FindDuplicate(labels, name).None?
    decreases |labels|
  {
    if |labels| > 0 {
      DuplicateNeverFound(labels[1..], name);
    }
  }

  /** One round of the address loop: the part is placed, the counter moves past parts that
      take an address, and a label inside the range is registered. */
  lemma AssignStep(ts: seq<CodePart>, i: nat, address: nat, labels: seq<LabelEntry>)
    requires i < |ts|
    ensures AssignFrom(ts, i, address, labels) ==
              AssignFrom(ts[i := Placed(ts[i], address)], i + 1,
                         address + (if TakesAddress(ts[i]) then 1 else 0),
                         labels + (if !ts[i].hasError && ts[i].kind == Label && address < 65536
                                   then [LabelEntry(ts[i].output, address, ts[i].origLine)] else []))
  {
    DuplicateNeverFound(labels, ts[i].output);
    if ts[i].hasError {
      assert ts[i := Placed(ts[i], address)] == ts;
    }
    assert labels + [] == labels;
  }

  /** The loop from `i` on, started from the state the closed form predicts for `i`,
      ends in the state the closed form predicts for the whole sequence. */
  lemma {:induction false} AssignFromSpec(ts0: seq<CodePart>, ts: seq<CodePart>, i: nat, address: nat, labels: seq<LabelEntry>)
    requires |ts| == |ts0| && i <= |ts|
    requires forall k :: i <= k < |ts| ==> ts[k] == ts0[k]
    requires PlacedUpTo(ts0, ts, i)
    requires address == SlotsBefore(ts0, i) && labels == LabelsBefore(ts0, i)
    ensures PlacedUpTo(ts0, AssignFrom(ts, i, address, labels).0, |ts0|)
    ensures AssignFrom(ts, i, address, labels).1 == LabelsBefore(ts0, |ts0|)
    decreases |ts| - i
  {
    if i < |ts| {
      AssignStep(ts, i, address, labels);
      var ts' := ts[i := Placed(ts[i], address)];
      var address' := address + (if TakesAddress(ts[i]) then 1 else 0);
      var labels' := labels + (if !ts[i].hasError && ts[i].kind == Label && address < 65536
                               then [LabelEntry(ts[i].output, address, ts[i].origLine)] else []);
      assert ts[i] == ts0[i];
      assert address' == SlotsBefore(ts0, i + 1);
      assert labels' == LabelsBefore(ts0, i + 1);
      assert PlacedUpTo(ts0, ts', i + 1);
      AssignFromSpec(ts0, ts', i + 1, address', labels');
    }
  }

  /** Assignment in closed form: part `k` is placed with the counter at the number of
      address-taking parts before it, and the table holds the registered labels in order. */
  lemma AssignClosedForm(ts: seq<CodePart>)
    ensures |Assign(ts).0| == |ts|
    ensures forall k :: 0 <= k < |ts| ==> Assign(ts).0[k] == Placed(ts[k], SlotsBefore(ts, k))
    ensures Assign(ts).1 == LabelsBefore(ts, |ts|)
  {
    AssignFromSpec(ts, ts, 0, 0, []);
    assert PlacedUpTo(ts, Assign(ts).0, |ts|);
  }

  /** The counter grows by the address-taking parts in between. */
  lemma {:induction false} SlotsMonotone(ts: seq<CodePart>, j: nat, k: nat)
    requires j <= k <= |ts|
    ensures SlotsBefore(ts, j) <= SlotsBefore(ts, k)
    ensures j < k && TakesAddress(ts[j]) ==> SlotsBefore(ts, j) < SlotsBefore(ts, k)
    decreases k - j
  {
    if j < k {
      SlotsMonotone(ts, j, k - 1);
      if j < k - 1 {
        SlotsMonotone(ts, j + 1, k - 1);
        SlotsMonotone(ts, j, j + 1);
      }
    }
  }

  /** Error-free parts other than labels get strictly increasing addresses: every byte of
      the program has an address of its own. */
  lemma BytesGetDistinctAddresses(ts: seq<CodePart>, j: nat, k: nat)
    requires j < k < |ts|
    requires !ts[j].hasError && ts[j].kind != Label && !ts[k].hasError && ts[k].kind != Label
    ensures Assign(ts).0[j].address.Some? && Assign(ts).0[k].address.Some?
    ensures Assign(ts).0[j].address.value < Assign(ts).0[k].address.value
  {
    AssignClosedForm(ts);
    SlotsMonotone(ts, j, k);
  }

  /** A label gets the address of the next part that takes one, when only labels lie between. */
  lemma {:induction false} LabelAddressIsNextByte(ts: seq<CodePart>, k: nat, p: nat)
    requires k < p <= |ts|
    requires forall q :: k <= q < p ==> !TakesAddress(ts[q])
    ensures SlotsBefore(ts, k) == SlotsBefore(ts, p)
    decreases p - k
  {
    if k < p - 1 {
      LabelAddressIsNextByte(ts, k, p - 1);
    }
  }

  /** Without labels the address of part `k` is `k`. */
  lemma {:induction false} NoLabelsAddressIsIndex(ts: seq<CodePart>, k: nat)
    requires k <= |ts|
    requires forall q :: 0 <= q < |ts| ==> ts[q].kind != Label
    ensures SlotsBefore(ts, k) == k
  {
    if k > 0 {
      NoLabelsAddressIsIndex(ts, k - 1);
    }
  }

  /** The label table holds, in order of appearance, exactly one entry per registered label. */
  lemma {:induction false} LabelsBeforeSpec(ts: seq<CodePart>, k: nat)
    requires k <= |ts|
    ensures forall q :: 0 <= q < k && Registers(ts, q) ==> EntryOf(ts, q) in LabelsBefore(ts, k)
    ensures forall e :: e in LabelsBefore(ts, k) ==>
              exists q :: 0 <= q < k && Registers(ts, q) && e == EntryOf(ts, q)
    ensures forall e :: e in LabelsBefore(ts, k) ==> 0 <= e.address < 65536
  {
    if k > 0 {
      LabelsBeforeSpec(ts, k - 1);
      var last := if Registers(ts, k - 1) then [EntryOf(ts, k - 1)] else [];
      assert LabelsBefore(ts, k) == LabelsBefore(ts, k - 1) + last;
      forall e | e in LabelsBefore(ts, k)
        ensures exists q :: 0 <= q < k && Registers(ts, q) && e == EntryOf(ts, q)
      {
        if e !in LabelsBefore(ts, k - 1) {
          assert e in last;
        }
      }
    }
  }

  /** Assignment never reports a duplicate label and leaves kinds, texts and lines alone;
      an error-free part gets an address and only a label can become errored here. */
  lemma AssignFrame(ts: seq<CodePart>)
    ensures forall k :: 0 <= k < |ts| ==>
              && Assign(ts).0[k].kind == ts[k].kind && Assign(ts).0[k].output == ts[k].output
              && Assign(ts).0[k].origLine == ts[k].origLine && Assign(ts).0[k].origCode == ts[k].origCode
              && Assign(ts).0[k].outputNum == ts[k].outputNum
              && (ts[k].hasError ==> Assign(ts).0[k] == ts[k])
              && (!ts[k].hasError ==> Assign(ts).0[k].address == Some(SlotsBefore(ts, k)))
              && (Assign(ts).0[k].hasError && !ts[k].hasError ==>
                    ts[k].kind == Label && Assign(ts).0[k].log == ts[k].log + [Error(LabelAddressOutOfRange)])
  {
    AssignClosedForm(ts);
  }
}
