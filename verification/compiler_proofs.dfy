/** Properties of the assembler passes: what tokenizing keeps of a line, that splitting
    leaves no whole address behind, what validation concludes about an instruction,
    the closed form of address assignment, and what the encoder produces. */
module CompilerProofs {
  import opened Base
  import opened Numerals
  import opened Js
  import opened CodeParts
  import Instructions
  import opened Compiler

  // ---------------------------------------------------------------------------
  // Tokenizing
  // ---------------------------------------------------------------------------

  /** The comment cut keeps exactly the text before the first `-`. */
  lemma CutCommentSpec(line: string)
    ensures CutComment(line) <= line && '-' !in CutComment(line)
    ensures |CutComment(line)| < |line| ==> line[|CutComment(line)|] == '-'
  {
    IndexOfSpec(line, '-');
  }

  /** Stripping removes the leading spaces and nothing else. */
  lemma {:induction false} StripLeadingSpacesSpec(line: string)
    ensures |StripLeadingSpaces(line)| <= |line|
    ensures StripLeadingSpaces(line) == line[|line| - |StripLeadingSpaces(line)|..]
    ensures |StripLeadingSpaces(line)| > 0 ==> StripLeadingSpaces(line)[0] != ' '
    ensures forall i :: 0 <= i < |line| - |StripLeadingSpaces(line)| ==> line[i] == ' '
    decreases |line|
  {
    if |line| > 0 && line[0] == ' ' {
      StripLeadingSpacesSpec(line[1..]);
      var r := StripLeadingSpaces(line[1..]);
      assert line[1..][|line[1..]| - |r|..] == line[|line| - |r|..];
      forall i | 0 <= i < |line| - |r| ensures line[i] == ' ' {
        if i > 0 {
          assert line[i] == line[1..][i - 1];
        }
      }
    }
  }

  /** Filtering keeps every non-empty piece and only pieces that were there; with
      `NonEmptyAppend`, it keeps them in order. */
  lemma {:induction false} NonEmptySpec(pieces: seq<string>)
    ensures forall k :: 0 <= k < |NonEmpty(pieces)| ==> |NonEmpty(pieces)[k]| > 0
    ensures forall x :: x in NonEmpty(pieces) ==> x in pieces
    ensures forall x :: x in pieces && |x| > 0 ==> x in NonEmpty(pieces)
    decreases |pieces|
  {
    if |pieces| > 0 {
      NonEmptySpec(pieces[1..]);
      var rest := NonEmpty(pieces[1..]);
      if |pieces[0]| > 0 {
        assert NonEmpty(pieces) == [pieces[0]] + rest;
      } else {
        assert NonEmpty(pieces) == rest;
      }
    }
  }
  /** Filtering distributes over concatenation, and keeps a single piece exactly when it
      is non-empty: the filtered pieces come in the order of the input. */
  lemma {:induction false} NonEmptyAppend(a: seq<string>, b: seq<string>)
    ensures NonEmpty(a + b) == NonEmpty(a) + NonEmpty(b)
    ensures |a| == 1 ==> NonEmpty(a) == if |a[0]| > 0 then [a[0]] else []
    decreases |a|
  {
    if |a| == 0 {
      assert a + b == b;
    } else {
      assert (a + b)[1..] == a[1..] + b;
      NonEmptyAppend(a[1..], b);
      if |a| == 1 {
        assert a[1..] == [];
      }
    }
  }


  /** The texts a line yields are non-empty and hold neither spaces nor comment dashes. */
  lemma LineTextsShape(line: string)
    ensures forall k :: 0 <= k < |LineTexts(line)| ==>
              |LineTexts(line)[k]| > 0 && ' ' !in LineTexts(line)[k] && '-' !in LineTexts(line)[k]
  {
    var cut := CutComment(line);
    var stripped := StripLeadingSpaces(cut);
    var pieces := Split(stripped, ' ');
    var r := NonEmpty(pieces);
    CutCommentSpec(line);
    StripLeadingSpacesSpec(cut);
    assert '-' !in stripped by {
      assert stripped == cut[|cut| - |stripped|..];
    }
    SplitKeepsOut(stripped, ' ', '-');
    SplitKeepsOut(stripped, ' ', ' ');
    NonEmptySpec(pieces);
    forall k | 0 <= k < |r| ensures |r[k]| > 0 && ' ' !in r[k] && '-' !in r[k] {
      assert r[k] in r;
      var j :| 0 <= j < |pieces| && pieces[j] == r[k];
    }
  }

  /** Every word lies on a line from `m` on, and its text is one of that line's texts. */
  lemma {:induction false} WordsShape(texts: seq<seq<string>>, m: nat)
    requires m <= |texts|
    ensures forall k :: 0 <= k < |WordsFrom(texts, m)| ==>
              m <= WordsFrom(texts, m)[k].line < |texts| && WordsFrom(texts, m)[k].text in texts[WordsFrom(texts, m)[k].line]
    decreases |texts| - m
  {
    if m < |texts| {
      WordsShape(texts, m + 1);
      var here := WordsOfLine(m, texts[m]);
      var rest := WordsFrom(texts, m + 1);
      assert WordsFrom(texts, m) == here + rest;
      assert forall k :: 0 <= k < |here| ==> here[k] == Word(m, texts[m][k]);
    }
  }

  /** The words of a source are non-empty texts without spaces or dashes, each on a line of the source. */
  lemma SourceWordsShape(lines: seq<string>)
    ensures forall k :: 0 <= k < |WordsFrom(TextsByLine(lines), 0)| ==>
              var w := WordsFrom(TextsByLine(lines), 0)[k];
              w.line < |lines| && |w.text| > 0 && ' ' !in w.text && '-' !in w.text
  {
    var texts := TextsByLine(lines);
    WordsShape(texts, 0);
    forall k | 0 <= k < |WordsFrom(texts, 0)|
      ensures var w := WordsFrom(texts, 0)[k]; w.line < |lines| && |w.text| > 0 && ' ' !in w.text && '-' !in w.text
    {
      var w := WordsFrom(texts, 0)[k];
      LineTextsShape(lines[w.line]);
      var j :| 0 <= j < |texts[w.line]| && texts[w.line][j] == w.text;
    }
  }

  /** All pieces glued together. */
  function Concat(pieces: seq<string>): string
    decreases |pieces|
  {
    if |pieces| == 0 then "" else pieces[0] + Concat(pieces[1..])
  }

  /** `s` with every `c` removed. */
  function Without(s: string, c: char): string
    decreases |s|
  {
    if |s| == 0 then "" else (if s[0] == c then "" else [s[0]]) + Without(s[1..], c)
  }

  lemma {:induction false} ConcatSplit(s: string, sep: char)
    ensures Concat(Split(s, sep)) == Without(s, sep)
    decreases |s|
  {
    if |s| > 0 {
      var rest := Split(s[1..], sep);
      ConcatSplit(s[1..], sep);
      if s[0] != sep {
        assert Split(s, sep) == [[s[0]] + rest[0]] + rest[1..];
        assert Concat(rest) == rest[0] + Concat(rest[1..]);
      }
    }
  }

  lemma {:induction false} ConcatNonEmpty(pieces: seq<string>)
    ensures Concat(NonEmpty(pieces)) == Concat(pieces)
    decreases |pieces|
  {
    if |pieces| > 0 {
      var rest := NonEmpty(pieces[1..]);
      ConcatNonEmpty(pieces[1..]);
      if |pieces[0]| > 0 {
        assert NonEmpty(pieces) == [pieces[0]] + rest;
        assert ([pieces[0]] + rest)[1..] == rest;
      } else {
        assert NonEmpty(pieces) == rest;
        assert pieces[0] + Concat(pieces[1..]) == Concat(pieces[1..]);
      }
    }
  }

  lemma {:induction false} WithoutLeadingSpaces(s: string)
    ensures Without(StripLeadingSpaces(s), ' ') == Without(s, ' ')
    decreases |s|
  {
    if |s| > 0 && s[0] == ' ' {
      WithoutLeadingSpaces(s[1..]);
    }
  }

  /** The code parts of a line hold exactly the characters of the line before its comment,
      spaces aside, in their order. */
  lemma LineTextsKeepCharacters(line: string)
    ensures Concat(LineTexts(line)) == Without(CutComment(line), ' ')
  {
    var stripped := StripLeadingSpaces(CutComment(line));
    ConcatNonEmpty(Split(stripped, ' '));
    ConcatSplit(stripped, ' ');
    WithoutLeadingSpaces(CutComment(line));
  }

  /** The texts of the words that came from source line `n`, in order. */
  function TextsOnLine(ws: seq<Word>, n: nat): seq<string>
    decreases |ws|
  {
    if |ws| == 0 then []
    else (if ws[0].line == n then [ws[0].text] else []) + TextsOnLine(ws[1..], n)
  }

  lemma {:induction false} TextsOnLineAppend(a: seq<Word>, b: seq<Word>, n: nat)
    ensures TextsOnLine(a + b, n) == TextsOnLine(a, n) + TextsOnLine(b, n)
    decreases |a|
  {
    if |a| > 0 {
      assert (a + b)[1..] == a[1..] + b;
      TextsOnLineAppend(a[1..], b, n);
    } else {
      assert a + b == b;
    }
  }

  lemma {:induction false} TextsOfLineWords(m: nat, texts: seq<string>, n: nat)
    ensures TextsOnLine(WordsOfLine(m, texts), n) == if m == n then texts else []
    decreases |texts|
  {
    if |texts| > 0 {
      var ws := WordsOfLine(m, texts);
      assert ws[1..] == WordsOfLine(m, texts[1..]);
      TextsOfLineWords(m, texts[1..], n);
      if m == n {
        assert texts == [texts[0]] + texts[1..];
      }
    }
  }

  lemma {:induction false} TextsOfWordsFrom(texts: seq<seq<string>>, m: nat, n: nat)
    requires m <= |texts|
    ensures TextsOnLine(WordsFrom(texts, m), n) == if m <= n < |texts| then texts[n] else []
    decreases |texts| - m
  {
    if m < |texts| {
      var here := WordsOfLine(m, texts[m]);
      var rest := WordsFrom(texts, m + 1);
      assert WordsFrom(texts, m) == here + rest;
      TextsOnLineAppend(here, rest, n);
      TextsOfLineWords(m, texts[m], n);
      TextsOfWordsFrom(texts, m + 1, n);
      if m == n {
        calc {
          TextsOnLine(here + rest, n);
          TextsOnLine(here, n) + TextsOnLine(rest, n);
          texts[m] + [];
          texts[n];
        }
      }
    }
  }

  /** Pieces come out in the order of their lines. */
  lemma {:induction false} WordsOrdered(texts: seq<seq<string>>, m: nat)
    requires m <= |texts|
    ensures forall j, k :: 0 <= j <= k < |WordsFrom(texts, m)| ==>
              WordsFrom(texts, m)[j].line <= WordsFrom(texts, m)[k].line
    decreases |texts| - m
  {
    if m < |texts| {
      WordsOrdered(texts, m + 1);
      WordsShape(texts, m + 1);
      var here := WordsOfLine(m, texts[m]);
      var rest := WordsFrom(texts, m + 1);
      assert WordsFrom(texts, m) == here + rest;
      assert forall k :: 0 <= k < |here| ==> here[k].line == m;
    }
  }

  /** Reading the words of source line `n` in order gives exactly that line's texts; with
      `WordsOrdered`, this determines the tokenizing. */
  lemma WordsByLine(lines: seq<string>, n: nat)
    requires n < |lines|
    ensures TextsOnLine(WordsFrom(TextsByLine(lines), 0), n) == LineContribution(lines[n])
  {
    TextsOfWordsFrom(TextsByLine(lines), 0, n);
  }

  /** A part whose every field except the log is what the constructor gives its text. */
  predicate Classified(t: CodePart)
  {
    t.(log := []) == NewCodePart(t.origLine, t.origCode).(log := [])
  }

  /** The word a code part records: its source line and its text. */
  function WordOf(t: CodePart): Word
  {
    Word(t.origLine, t.origCode)
  }

  function WordsOfParts(ts: seq<CodePart>): seq<Word>
  {
    seq(|ts|, k requires 0 <= k < |ts| => WordOf(ts[k]))
  }

  /** Tokenizing a source gives, in line order, one part per piece of each line, built by the
      `CodePart` constructor: its text is non-empty and holds no space or dash, its line is a
      line of the source, and the texts of the parts on line `n` are that line's pieces. */
  lemma TokenizeSpec(lines: seq<string>)
    ensures forall k :: 0 <= k < |Tokenize(lines)| ==>
              var t := Tokenize(lines)[k];
              && t.origLine < |lines| && |t.origCode| > 0 && ' ' !in t.origCode && '-' !in t.origCode
              && t == NewCodePart(t.origLine, t.origCode)
    ensures forall j, k :: 0 <= j <= k < |Tokenize(lines)| ==> Tokenize(lines)[j].origLine <= Tokenize(lines)[k].origLine
    ensures forall n :: 0 <= n < |lines| ==> TextsOnLine(WordsOfParts(Tokenize(lines)), n) == LineContribution(lines[n])
  {
    var words := WordsFrom(TextsByLine(lines), 0);
    var ts := Tokenize(lines);
    assert WordsOfParts(ts) == words by {
      forall k | 0 <= k < |ts| ensures WordOf(ts[k]) == words[k] {
      }
    }
    SourceWordsShape(lines);
    WordsOrdered(TextsByLine(lines), 0);
    forall n | 0 <= n < |lines| ensures TextsOnLine(words, n) == LineContribution(lines[n]) {
      WordsByLine(lines, n);
    }
  }

  // ---------------------------------------------------------------------------
  // Splitting addresses
  // ---------------------------------------------------------------------------

  lemma {:induction false} SplitAppend(a: seq<CodePart>, b: seq<CodePart>)
    ensures SplitAddresses(a + b) == SplitAddresses(a) + SplitAddresses(b)
    decreases |a|
  {
    if |a| == 0 {
      assert a + b == b;
    } else {
      assert (a + b)[1..] == a[1..] + b;
      SplitAppend(a[1..], b);
    }
  }

  lemma AddressByteOf(line: nat, c: string, suffix: string)
    requires IsAddressText(c) && (suffix == ".h" || suffix == ".l")
    ensures NewCodePart(line, c + suffix).kind == AddressByte
    ensures NewCodePart(line, c + suffix).output == c[1..] + suffix
  {
    var x := c + suffix;
    assert x[0] == '@' && !IsUpper(x[0]);
    assert !IsNameChar(x[|x| - 2]);
    assert !IsAddressText(x);
    assert x[1..|x| - 2] == c[1..];
    assert IsAddressByteText(x);
    assert x[1..] == c[1..] + suffix;
  }

  /** An address `@name` becomes the address bytes `@name.h` and `@name.l` on its line. */
  lemma ExpandAddress(t: CodePart)
    requires Classified(t) && t.kind == Address
    ensures |Expand(t)| == 2
    ensures Expand(t)[0].kind == AddressByte && Expand(t)[0].output == t.output + ".h"
    ensures Expand(t)[1].kind == AddressByte && Expand(t)[1].output == t.output + ".l"
    ensures forall k :: 0 <= k < 2 ==> Classified(Expand(t)[k]) && !Expand(t)[k].hasError
    ensures forall k :: 0 <= k < 2 ==>
              Expand(t)[k].origLine == t.origLine && Expand(t)[k].origCode == t.origCode + (if k == 0 then ".h" else ".l")
  {
    AddressByteOf(t.origLine, t.origCode, ".h");
    AddressByteOf(t.origLine, t.origCode, ".l");
  }

  /** Whether the split pass replaces `t` by two address bytes. */
  predicate IsSplit(t: CodePart)
  {
    !t.hasError && t.kind == Address
  }

  /** How many parts of `ts` the split pass replaces. */
  function SplitCount(ts: seq<CodePart>): nat
    decreases |ts|
  {
    if |ts| == 0 then 0 else (if IsSplit(ts[0]) then 1 else 0) + SplitCount(ts[1..])
  }

  /** Whether `r` holds what the split pass makes of `t` at position `p`: `t` itself, or,
      for a split address, its high byte followed directly by its low byte. */
  predicate PlacedAt(r: seq<CodePart>, t: CodePart, p: int)
  {
    if IsSplit(t) then 0 <= p && p + 1 < |r| && r[p] == Expand(t)[0] && r[p + 1] == Expand(t)[1]
    else 0 <= p < |r| && r[p] == t
  }

  lemma PlacedAfter(here: seq<CodePart>, rest: seq<CodePart>, t: CodePart, p: int)
    requires PlacedAt(rest, t, p)
    ensures PlacedAt(here + rest, t, |here| + p)
  {
  }

  lemma SplitCountStep(ts: seq<CodePart>, k: nat)
    requires 0 < k <= |ts|
    ensures SplitCount(ts[..k]) == (if IsSplit(ts[0]) then 1 else 0) + SplitCount(ts[1..][..k - 1])
  {
    assert ts[..k][1..] == ts[1..][..k - 1];
  }

  lemma PlacedBefore(here: seq<CodePart>, rest: seq<CodePart>, t: CodePart)
    requires PlacedAt(here, t, 0)
    ensures PlacedAt(here + rest, t, 0)
  {
  }

  lemma ExpandLength(t: CodePart)
    ensures |Expand(t)| == 1 + if IsSplit(t) then 1 else 0
  {
  }

  /** The split pass adds one part per split address. */
  lemma {:induction false} SplitLength(ts: seq<CodePart>)
    ensures |SplitAddresses(ts)| == |ts| + SplitCount(ts)
    decreases |ts|
  {
    if |ts| > 0 {
      SplitLength(ts[1..]);
      ExpandLength(ts[0]);
    }
  }

  /** Where the split pass puts part `k`: at `k` plus the number of parts split before it.
      A part that is not split is kept there unchanged; a split address is followed directly
      by its low byte. Since that position grows with `k`, the parts keep their order, and
      nothing else is inserted. */
  lemma {:induction false} SplitPlaces(ts: seq<CodePart>, k: nat)
    requires k < |ts|
    ensures PlacedAt(SplitAddresses(ts), ts[k], k + SplitCount(ts[..k]))
    decreases |ts|
  {
    var here := Expand(ts[0]);
    var rest := SplitAddresses(ts[1..]);
    assert SplitAddresses(ts) == here + rest;
    ExpandLength(ts[0]);
    if k == 0 {
      assert ts[..0] == [];
      assert PlacedAt(here, ts[0], 0);
      PlacedBefore(here, rest, ts[0]);
    } else {
      SplitPlaces(ts[1..], k - 1);
      assert ts[1..][k - 1] == ts[k];
      SplitCountStep(ts, k);
      PlacedAfter(here, rest, ts[k], (k - 1) + SplitCount(ts[1..][..k - 1]));
    }
  }

  /** After splitting classified parts, no whole address is left. */
  lemma {:induction false} SplitLeavesNoAddress(ts: seq<CodePart>)
    requires forall k :: 0 <= k < |ts| ==> Classified(ts[k])
    ensures forall k :: 0 <= k < |SplitAddresses(ts)| ==>
              Classified(SplitAddresses(ts)[k]) && SplitAddresses(ts)[k].kind != Address
    decreases |ts|
  {
    if |ts| > 0 {
      var here := Expand(ts[0]);
      var rest := SplitAddresses(ts[1..]);
      assert SplitAddresses(ts) == here + rest;
      SplitLeavesNoAddress(ts[1..]);
      if ts[0].kind == Address {
        ExpandAddress(ts[0]);
      } else {
        assert here == [ts[0]];
      }
      assert forall k :: 0 <= k < |here| ==> Classified(here[k]) && here[k].kind != Address;
    }
  }

  // ---------------------------------------------------------------------------
  // The binary rendering of bytes
  // ---------------------------------------------------------------------------

  /** `Bin8` is an eight-digit binary numeral of the byte. */
  lemma Bin8Value(n: nat)
    requires n < 256
    ensures |Bin8(n)| == 8 && IsBits(Bin8(n)) && Value(Bin8(n), 2) == n
  {
    var s := ToRadix(n, 2);
    BytesAreNarrow(n);
    ToRadixLength(n, 2, 8);
    ValueOfToRadix(n, 2);
    BinaryDigitsAreBits(s);
    if |s| < 8 {
      ValueLeadingZeros(8 - |s|, s, 2);
      assert Bin8(n) == Repeat('0', 8 - |s|) + s;
    }
  }

  /** JavaScript reads the rendering back as the same number when given the `0b` prefix. */
  lemma Bin8ReadBack(n: nat)
    requires n < 256
    ensures Number("0b" + Bin8(n)) == Some(n)
  {
    var b := Bin8(n);
    Bin8Value(n);
    var text := "0b" + b;
    assert text[2..] == b;
    assert IsDigits(b, 2);
    assert ParseDigits(b, 2) == Some(n);
  }

  lemma Bin8Injective(m: nat, n: nat)
    requires m < 256 && n < 256 && Bin8(m) == Bin8(n)
    ensures m == n
  {
    Bin8Value(m);
    Bin8Value(n);
  }
}
