/** `get_biases_from_file` of the device viewer: reads a bias file line by
    line into a map from bias name to integer value.

    The file is given as its lines, each one still ending in its newline as
    Python's file iteration yields them; `None` stands for an `open()` that
    raised `IOError`. */
module Biases {
  import opened Wrappers
  import opened PyStr

  /** The exception a line raises: `ValueError` from `int()`, `IndexError`
      from `split[1]` on a line that holds no `%`. */
  datatype FailureKind = ValueError | IndexError

  /** An exception that escapes the parsing loop, with the 0-based index of
      the line that raised it. */
  datatype ParseFailure = ParseFailure(lineNo: nat, kind: FailureKind)

  type BiasMap = map<string, int>

  /** What one line of the file contributes. */
  datatype LineOutcome = Comment | Entry(name: string, value: int) | Raises(kind: FailureKind)

  predicate IsComment(line: string)
  {
    StartsWith(line, "%")
  }

  /** One pass of the loop body. Python evaluates the right-hand side of
      `biases[k] = v` before the subscript `k`, so `int(split[0])` runs, and
      may raise, before `split[1]` is looked up. */
  function ParseLine(line: string): (o: LineOutcome)
    ensures o.Comment? <==> IsComment(line)
  {
    if IsComment(line) then Comment
    else
      var split := Split(line, '%');
      match ParseInt(split[0])
      case None => Raises(ValueError)
      case Some(v) =>
        if |split| < 2 then Raises(IndexError) else Entry(Strip(StrSpace, split[1]), v)
  }

  /** `f` applied to every element of `s`, in order. */
  function MapSeq<A, B>(f: A -> B, s: seq<A>): (r: seq<B>)
    ensures |r| == |s|
    ensures forall i :: 0 <= i < |s| ==> r[i] == f(s[i])
  {
    seq(|s|, i requires 0 <= i < |s| => f(s[i]))
  }

  lemma MapSeqConcat<A, B>(f: A -> B, a: seq<A>, b: seq<A>)
    ensures MapSeq(f, a + b) == MapSeq(f, a) + MapSeq(f, b)
  {
  }

  /** The outcome of every line of the file, in order. */
  function Outcomes(lines: seq<string>): (outs: seq<LineOutcome>)
  {
    MapSeq(ParseLine, lines)
  }

  /** The loop over lines with outcomes `outs`, as a function: the map built
      so far, or the first exception raised. */
  function Accumulate(outs: seq<LineOutcome>): Result<BiasMap, ParseFailure>
  {
    if outs == [] then Success(map[])
    else
      var last := |outs| - 1;
      match Accumulate(outs[..last])
      case Failure(e) => Failure(e)
      case Success(m) =>
        match outs[last]
        case Comment => Success(m)
        case Entry(name, v) => Success(m[name := v])
        case Raises(kind) => Failure(ParseFailure(last, kind))
  }

  function ParseLines(lines: seq<string>): Result<BiasMap, ParseFailure>
  {
    Accumulate(Outcomes(lines))
  }

  /** The whole of `get_biases_from_file`: a file that cannot be opened gives
      the empty map. */
  function BiasesFromFile(file: Option<seq<string>>): Result<BiasMap, ParseFailure>
  {
    match file
    case None => Success(map[])
    case Some(lines) => ParseLines(lines)
  }

  method GetBiasesFromFile(file: Option<seq<string>>) returns (r: Result<BiasMap, ParseFailure>)
    ensures r == BiasesFromFile(file)
    ensures file.None? ==> r == Success(map[])
  {
    var biases: BiasMap := map[];
    if file.None? {
      // "Cannot open bias file" is printed; the empty map is returned
      return Success(biases);
    }
    var lines := file.value;
    ghost var outs := Outcomes(lines);
    for i := 0 to |lines|
      invariant Accumulate(outs[..i]) == Success(biases)
    {
      AccumulateStep(outs, i);
      var line := lines[i];
      assert outs[i] == ParseLine(line);
      if StartsWith(line, "%") {
        continue;
      }
      var split := Split(line, '%');
      var value := ParseInt(split[0]);
      if value.None? {
        FailureEscapes(outs, i + 1);
        return Failure(ParseFailure(i, ValueError));
      }
      if |split| < 2 {
        FailureEscapes(outs, i + 1);
        return Failure(ParseFailure(i, IndexError));
      }
      biases := biases[Strip(StrSpace, split[1]) := value.value];
    }
    assert outs[..|lines|] == outs;
    return Success(biases);
  }

  /** One more pass of the loop, after the passes over `outs[..i]` did not
      raise. */
  lemma AccumulateStep(outs: seq<LineOutcome>, i: nat)
    requires i < |outs| && Accumulate(outs[..i]).Success?
    ensures var m := Accumulate(outs[..i]).value;
      Accumulate(outs[..i + 1]) ==
        match outs[i]
        case Comment => Success(m)
        case Entry(name, v) => Success(m[name := v])
        case Raises(kind) => Failure(ParseFailure(i, kind))
  {
    assert outs[..i + 1][..i] == outs[..i];
  }

  /** Once a line has raised, later lines change nothing: the exception
      escapes the loop. */
  lemma {:induction false} FailureEscapes(outs: seq<LineOutcome>, n: nat)
    requires n <= |outs|
    requires Accumulate(outs[..n]).Failure?
    ensures Accumulate(outs) == Accumulate(outs[..n])
  {
    if n < |outs| {
      var last := |outs| - 1;
      assert outs[..last][..n] == outs[..n];
      FailureEscapes(outs[..last], n);
    } else {
      assert outs[..n] == outs;
    }
  }

  /** The loop finishes without an exception exactly when no line raises. */
  lemma {:induction false} AccumulateSucceeds(outs: seq<LineOutcome>)
    ensures Accumulate(outs).Success? <==> forall i :: 0 <= i < |outs| ==> !outs[i].Raises?
  {
    if outs != [] {
      var last := |outs| - 1;
      AccumulateSucceeds(outs[..last]);
      assert forall i :: 0 <= i < last ==> outs[..last][i] == outs[i];
    }
  }

  /** When the loop fails, the exception is the one raised by the FIRST line
      that raises, and it carries that line's index. */
  lemma {:induction false} AccumulateFailure(outs: seq<LineOutcome>)
    ensures Accumulate(outs).Failure? ==>
      var f := Accumulate(outs).error;
      && f.lineNo < |outs|
      && outs[f.lineNo] == Raises(f.kind)
      && forall i :: 0 <= i < f.lineNo ==> !outs[i].Raises?
  {
    if outs != [] {
      var last := |outs| - 1;
      AccumulateFailure(outs[..last]);
      AccumulateSucceeds(outs[..last]);
      assert forall i :: 0 <= i < last ==> outs[..last][i] == outs[i];
    }
  }

  /** The names of the lines that add an entry. */
  function EntryNames(outs: seq<LineOutcome>): set<string>
  {
    set i | 0 <= i < |outs| && outs[i].Entry? :: outs[i].name
  }

  /** A successful parse has exactly one key per distinct name of an entry
      line: comment lines add none. */
  lemma {:induction false} AccumulateKeys(outs: seq<LineOutcome>)
    requires Accumulate(outs).Success?
    ensures Accumulate(outs).value.Keys == EntryNames(outs)
  {
    if outs != [] {
      var last := |outs| - 1;
      var prefix := outs[..last];
      AccumulateKeys(prefix);
      assert forall i :: 0 <= i < last ==> prefix[i] == outs[i];
      if outs[last].Entry? {
        assert EntryNames(outs) == EntryNames(prefix) + {outs[last].name};
      } else {
        assert EntryNames(outs) == EntryNames(prefix);
      }
    }
  }

  /** When a name occurs on several lines, the value of its last line wins. */
  lemma {:induction false} AccumulateLastWins(outs: seq<LineOutcome>, i: nat)
    requires Accumulate(outs).Success?
    requires i < |outs| && outs[i].Entry?
    requires forall j :: i < j < |outs| ==> !(outs[j].Entry? && outs[j].name == outs[i].name)
    ensures outs[i].name in Accumulate(outs).value
    ensures Accumulate(outs).value[outs[i].name] == outs[i].value
  {
    var last := |outs| - 1;
    if i < last {
      var prefix := outs[..last];
      AccumulateLastWins(prefix, i);
    }
  }

  /** A comment line inserted anywhere changes neither whether the loop
      succeeds nor the map it builds. */
  lemma {:induction false} CommentAddsNothing(a: seq<LineOutcome>, b: seq<LineOutcome>)
    ensures Accumulate(a + [Comment] + b).Success? <==> Accumulate(a + b).Success?
    ensures Accumulate(a + b).Success? ==> Accumulate(a + [Comment] + b) == Accumulate(a + b)
  {
    if b == [] {
      assert (a + [Comment] + b)[..|a|] == a;
      assert a + b == a;
    } else {
      var last := |b| - 1;
      var withComment, without := a + [Comment] + b, a + b;
      assert withComment[..|withComment| - 1] == a + [Comment] + b[..last];
      assert without[..|without| - 1] == a + b[..last];
      assert withComment[|withComment| - 1] == without[|without| - 1] == b[last];
      CommentAddsNothing(a, b[..last]);
    }
  }

  // ---------------------------------------------------------------------------
  // The same properties, stated on the lines of the file

  /** Parsing succeeds exactly when no line raises; on success the keys are
      the stripped names of the non-comment lines, and each non-comment line
      is an entry. */
  lemma ParseLinesKeys(lines: seq<string>)
    ensures ParseLines(lines).Success? <==> forall i :: 0 <= i < |lines| ==> !ParseLine(lines[i]).Raises?
    ensures ParseLines(lines).Success? ==>
      && (forall i :: 0 <= i < |lines| ==> (ParseLine(lines[i]).Entry? <==> !IsComment(lines[i])))
      && ParseLines(lines).value.Keys ==
           set i | 0 <= i < |lines| && ParseLine(lines[i]).Entry? :: ParseLine(lines[i]).name
  {
    var outs := Outcomes(lines);
    AccumulateSucceeds(outs);
    if ParseLines(lines).Success? {
      AccumulateKeys(outs);
      assert EntryNames(outs) ==
        set i | 0 <= i < |lines| && ParseLine(lines[i]).Entry? :: ParseLine(lines[i]).name;
    }
  }

  /** A failed parse reports the first line that raises, and what it raised. */
  lemma ParseLinesFailure(lines: seq<string>)
    ensures ParseLines(lines).Failure? ==>
      var f := ParseLines(lines).error;
      && f.lineNo < |lines|
      && ParseLine(lines[f.lineNo]) == Raises(f.kind)
      && forall i :: 0 <= i < f.lineNo ==> !ParseLine(lines[i]).Raises?
  {
    AccumulateFailure(Outcomes(lines));
  }

  /** Of several lines naming the same bias, the last one sets its value. */
  lemma ParseLinesLastWins(lines: seq<string>, i: nat)
    requires ParseLines(lines).Success?
    requires i < |lines| && ParseLine(lines[i]).Entry?
    requires forall j :: i < j < |lines| ==>
      !(ParseLine(lines[j]).Entry? && ParseLine(lines[j]).name == ParseLine(lines[i]).name)
    ensures ParseLine(lines[i]).name in ParseLines(lines).value
    ensures ParseLines(lines).value[ParseLine(lines[i]).name] == ParseLine(lines[i]).value
  {
    AccumulateLastWins(Outcomes(lines), i);
  }

  /** A comment line, wherever it stands, is skipped: the parse of the file
      without it succeeds or fails alike, and on success gives the same map. */
  lemma CommentLineSkipped(before: seq<string>, comment: string, after: seq<string>)
    requires IsComment(comment)
    ensures ParseLines(before + [comment] + after).Success? <==> ParseLines(before + after).Success?
    ensures ParseLines(before + after).Success? ==>
      ParseLines(before + [comment] + after) == ParseLines(before + after)
  {
    MapSeqConcat(ParseLine, before, [comment]);
    MapSeqConcat(ParseLine, before + [comment], after);
    MapSeqConcat(ParseLine, before, after);
    assert Outcomes([comment]) == [Comment];
    CommentAddsNothing(Outcomes(before), Outcomes(after));
  }

  // ---------------------------------------------------------------------------
  // What a single line does

  /** A line `v%name` maps the stripped `name` to `int(v)`; whatever follows
      a second `%` is ignored. */
  lemma EntryLine(valueText: string, nameText: string, rest: string, v: int)
    requires '%' !in valueText && '%' !in nameText
    requires rest == [] || rest[0] == '%'
    requires ParseInt(valueText) == Some(v)
    ensures ParseLine(valueText + "%" + nameText + rest) == Entry(Strip(StrSpace, nameText), v)
  {
    assert valueText != [] by {
      ParseIntAllSpace([]);
    }
    SplitFields(valueText, nameText, rest);
  }

  /** The first two fields of `v%name...` are `v` and `name`. */
  lemma SplitFields(valueText: string, nameText: string, rest: string)
    requires '%' !in valueText && '%' !in nameText
    requires rest == [] || rest[0] == '%'
    requires valueText != []
    ensures var line := valueText + "%" + nameText + rest;
      && !IsComment(line)
      && var split := Split(line, '%');
      |split| >= 2 && split[0] == valueText && split[1] == nameText
  {
    var line := valueText + "%" + nameText + rest;
    assert !IsComment(line) by {
      assert line[0] == valueText[0];
    }
    var tail := Split(nameText + rest, '%');
    assert Split(line, '%') == [valueText] + tail by {
      assert line == valueText + ['%'] + (nameText + rest);
      SplitConcat(valueText, '%', nameText + rest);
    }
    assert tail[0] == nameText by {
      if rest == [] {
        assert nameText + rest == nameText;
        SplitWithoutSeparator(nameText, '%');
      } else {
        assert rest == ['%'] + rest[1..];
        assert nameText + rest == nameText + ['%'] + rest[1..];
        SplitConcat(nameText, '%', rest[1..]);
      }
    }
  }

  /** A non-comment line without any `%` always raises: `ValueError` when its
      text is not an integer (a blank line `"\n"` among them), `IndexError`
      when it is one. */
  lemma NoSeparatorLine(line: string)
    requires '%' !in line
    ensures ParseLine(line) == Raises(if ParseInt(line).Some? then IndexError else ValueError)
  {
    if |line| > 0 {
      assert line[0] != '%';
    }
    SplitWithoutSeparator(line, '%');
  }

  /** A blank line raises `ValueError`. */
  lemma BlankLineRaises(line: string)
    requires AllBlank(StrSpace, line)
    ensures ParseLine(line) == Raises(ValueError)
  {
    SpaceHasNoSeparator(line);
    NoSeparatorLine(line);
    ParseIntAllSpace(line);
  }

  /** A value field that `int()` rejects, as in `"abc%x"` or `"1a%x"`,
      raises `ValueError`, whatever follows the first `%`. */
  lemma RejectedValueRaises(valueText: string, rest: string)
    requires '%' !in valueText && valueText != []
    requires ParseInt(valueText).None?
    ensures ParseLine(valueText + "%" + rest) == Raises(ValueError)
  {
    var line := valueText + "%" + rest;
    assert !IsComment(line) by {
      assert line[0] == valueText[0];
    }
    assert Split(line, '%')[0] == valueText by {
      assert line == valueText + ['%'] + rest;
      SplitConcat(valueText, '%', rest);
    }
  }

  /** A value field that is whitespace only, as in `"  %x"`, raises
      `ValueError`. */
  lemma BlankValueRaises(valueText: string, rest: string)
    requires AllBlank(StrSpace, valueText) && valueText != []
    ensures ParseLine(valueText + "%" + rest) == Raises(ValueError)
  {
    SpaceHasNoSeparator(valueText);
    ParseIntAllSpace(valueText);
    RejectedValueRaises(valueText, rest);
  }

  /** A value field that starts with one of the separator controls
      U+001C..U+001F, which `int()` does not skip, raises `ValueError`. */
  lemma SeparatorControlValueRaises(c: char, digits: string, rest: string)
    requires '\U{1C}' <= c <= '\U{1F}' && '%' !in digits
    ensures ParseLine([c] + digits + "%" + rest) == Raises(ValueError)
  {
    ParseIntSeparatorControl(c, digits);
    assert '%' !in [c] + digits;
    RejectedValueRaises([c] + digits, rest);
  }

  lemma SpaceHasNoSeparator(s: string)
    requires AllBlank(StrSpace, s)
    ensures '%' !in s
  {
  }

  // ---------------------------------------------------------------------------
  // Worked examples

  /** A bias name as a well-formed file spells it: no `%`, no surrounding
      whitespace. */
  predicate ValidName(name: string)
  {
    '%' !in name && name != [] && !IsBlank(StrSpace, name[0]) && !IsBlank(StrSpace, name[|name| - 1])
  }

  /** The line `str(v) + "%" + name + "\n"`. */
  function DecimalLine(v: int, name: string): string
  {
    IntToString(v) + "%" + name + "\n"
  }

  /** `str(v)` never contains `%`. */
  lemma DecimalHasNoSeparator(v: int)
    ensures '%' !in IntToString(v)
  {
    var valueText := IntToString(v);
    var magnitude := if v < 0 then -v else v;
    var digits := NatToDigits(magnitude);
    NatToDigitsSpec(magnitude);
    forall i | 0 <= i < |valueText| ensures valueText[i] != '%' {
      if v >= 0 {
        assert IsDigit(digits[i]);
      } else if i > 0 {
        assert valueText[i] == digits[i - 1];
        assert IsDigit(digits[i - 1]);
      }
    }
  }

  /** A line `str(v) + "%" + name + "\n"` maps `name` to `v`. */
  lemma DecimalEntryLine(line: string, v: int, name: string)
    requires ValidName(name)
    requires line == DecimalLine(v, name)
    ensures ParseLine(line) == Entry(name, v)
  {
    var valueText := IntToString(v);
    assert ParseInt(valueText) == Some(v) by {
      assert [] + valueText + [] == valueText;
      ParseIntRoundTrip([], v, []);
    }
    DecimalHasNoSeparator(v);
    assert Strip(StrSpace, name + "\n") == name by {
      assert [] + name + "\n" == name + "\n";
      StripPadded(StrSpace, [], name, "\n");
    }
    assert valueText + "%" + name + "\n" == valueText + "%" + (name + "\n") + [];
    EntryLine(valueText, name + "\n", [], v);
  }

  /** A bias file of three `value%name` lines around a comment line gives
      the three biases; with the names `bias_fo`, `bias_hpf`,
      `bias_diff_off` and the values 100, 200, 300 this is the file
      `100%bias_fo`, `200%bias_hpf`, `% comment`, `300%bias_diff_off`. */
  lemma ExampleBiasFile(fo: string, hpf: string, diffOff: string, comment: string,
                        a: nat, b: nat, c: nat)
    requires ValidName(fo) && ValidName(hpf) && ValidName(diffOff)
    requires IsComment(comment)
    ensures ParseLines([DecimalLine(a, fo), DecimalLine(b, hpf), comment, DecimalLine(c, diffOff)])
         == Success(map[fo := a, hpf := b, diffOff := c])
  {
    var lines := [DecimalLine(a, fo), DecimalLine(b, hpf), comment, DecimalLine(c, diffOff)];
    var outs := [Entry(fo, a), Entry(hpf, b), Comment, Entry(diffOff, c)];
    assert Outcomes(lines) == outs by {
      assert Outcomes(lines) ==
        [ParseLine(lines[0]), ParseLine(lines[1]), ParseLine(lines[2]), ParseLine(lines[3])];
      DecimalEntryLine(lines[0], a, fo);
      DecimalEntryLine(lines[1], b, hpf);
      DecimalEntryLine(lines[3], c, diffOff);
      assert ParseLine(comment) == Comment;
    }
    EntriesAroundComment(fo, hpf, diffOff, a, b, c);
  }

  /** The loop over two entries, a comment and a third entry builds the map
      of the three entries. */
  lemma EntriesAroundComment(fo: string, hpf: string, diffOff: string, a: int, b: int, c: int)
    ensures Accumulate([Entry(fo, a), Entry(hpf, b), Comment, Entry(diffOff, c)])
         == Success(map[fo := a, hpf := b, diffOff := c])
  {
    var outs := [Entry(fo, a), Entry(hpf, b), Comment, Entry(diffOff, c)];
    assert outs[..0] == [];
    AccumulateStep(outs, 0);
    AccumulateStep(outs, 1);
    AccumulateStep(outs, 2);
    AccumulateStep(outs, 3);
    assert outs[..4] == outs;
  }
}
