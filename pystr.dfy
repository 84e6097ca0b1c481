/** The Python `str` built-ins that the bias-file parser relies on:
    `str.startswith`, `str.split` with an explicit separator, `str.strip()`
    with no argument, and `int()` applied to a string. */
module PyStr {
  import opened Wrappers

  /** Python's `str.isspace()` for a single character: the ASCII whitespace
      and separator controls plus the Unicode space characters. */
  predicate IsSpace(c: char)
  {
    || c == ' '
    || ('\t' <= c <= '\r')
    || ('\U{1C}' <= c <= '\U{1F}')
    || c == '\U{85}' || c == '\U{A0}' || c == '\U{1680}'
    || ('\U{2000}' <= c <= '\U{200A}')
    || c == '\U{2028}' || c == '\U{2029}' || c == '\U{202F}'
    || c == '\U{205F}' || c == '\U{3000}'
  }

  /** The two whitespace sets Python trims from strings: `str.strip()`
      removes every `str.isspace()` character, while `int()` skips only the
      ASCII whitespace space, `\t`, `\n`, `\v`, `\f`, `\r` and the non-ASCII
      spaces, so the separator controls U+001C..U+001F are not skipped by
      `int()`. */
  datatype Blanks = StrSpace | IntSpace

  predicate IsBlank(b: Blanks, c: char)
  {
    IsSpace(c) && (b == IntSpace ==> !('\U{1C}' <= c <= '\U{1F}'))
  }

  predicate AllBlank(b: Blanks, s: string)
  {
    forall i :: 0 <= i < |s| ==> IsBlank(b, s[i])
  }

  /** `s.startswith(p)`. */
  predicate StartsWith(s: string, p: string)
  {
    |p| <= |s| && s[..|p|] == p
  }

  // ---------------------------------------------------------------------------
  // str.strip() and the whitespace skipped by int()

  /** `s.lstrip()` for the whitespace set `b`: drops the longest prefix of
      whitespace. */
  function LStrip(b: Blanks, s: string): (r: string)
    ensures |r| <= |s|
  {
    if s != [] && IsBlank(b, s[0]) then LStrip(b, s[1..]) else s
  }

  /** `s.rstrip()` for the whitespace set `b`: drops the longest suffix of
      whitespace. */
  function RStrip(b: Blanks, s: string): (r: string)
    ensures |r| <= |s|
  {
    if s != [] && IsBlank(b, s[|s| - 1]) then RStrip(b, s[..|s| - 1]) else s
  }

  /** `lstrip()` returns a suffix of its argument, what it dropped is all
      whitespace, and what it kept does not start with whitespace. */
  lemma {:induction false} LStripSpec(b: Blanks, s: string)
    ensures var r := LStrip(b, s);
      && r == s[|s| - |r|..]
      && (forall i :: 0 <= i < |s| - |r| ==> IsBlank(b, s[i]))
      && (r == [] || !IsBlank(b, r[0]))
  {
    if s != [] && IsBlank(b, s[0]) {
      LStripSpec(b, s[1..]);
    }
  }

  /** `rstrip()` returns a prefix of its argument, what it dropped is all
      whitespace, and what it kept does not end with whitespace. */
  lemma {:induction false} RStripSpec(b: Blanks, s: string)
    ensures var r := RStrip(b, s);
      && r == s[..|r|]
      && (forall i :: |r| <= i < |s| ==> IsBlank(b, s[i]))
      && (r == [] || !IsBlank(b, r[|r| - 1]))
  {
    if s != [] && IsBlank(b, s[|s| - 1]) {
      RStripSpec(b, s[..|s| - 1]);
    }
  }

  /** `s.strip()` when `b` is `StrSpace`; the text `int()` parses when `b`
      is `IntSpace`. */
  function Strip(b: Blanks, s: string): (r: string)
  {
    RStrip(b, LStrip(b, s))
  }

  /** `lstrip()` removes exactly a whitespace prefix that is followed by a
      non-whitespace character or by nothing. */
  lemma {:induction false} LStripPadded(b: Blanks, pre: string, t: string)
    requires AllBlank(b, pre)
    requires t == [] || !IsBlank(b, t[0])
    ensures LStrip(b, pre + t) == t
  {
    if pre != [] {
      assert (pre + t)[1..] == pre[1..] + t;
      LStripPadded(b, pre[1..], t);
    } else {
      assert pre + t == t;
    }
  }

  /** `rstrip()` removes exactly a whitespace suffix that follows a
      non-whitespace character or nothing. */
  lemma {:induction false} RStripPadded(b: Blanks, t: string, post: string)
    requires AllBlank(b, post)
    requires t == [] || !IsBlank(b, t[|t| - 1])
    ensures RStrip(b, t + post) == t
  {
    if post != [] {
      var s := t + post;
      assert s[..|s| - 1] == t + post[..|post| - 1];
      assert s[|s| - 1] == post[|post| - 1];
      RStripPadded(b, t, post[..|post| - 1]);
    } else {
      assert t + post == t;
    }
  }

  /** What stripping returns is fully determined: whatever whitespace padding
      surrounds a text that neither starts nor ends with whitespace, the
      strip returns exactly that text. */
  lemma StripPadded(b: Blanks, pre: string, t: string, post: string)
    requires AllBlank(b, pre) && AllBlank(b, post)
    requires t == [] || (!IsBlank(b, t[0]) && !IsBlank(b, t[|t| - 1]))
    ensures Strip(b, pre + t + post) == t
  {
    if t == [] {
      assert pre + t + post == pre + post;
      assert AllBlank(b, pre + post);
      LStripPadded(b, pre + post, []);
      assert pre + post + [] == pre + post;
    } else {
      assert pre + t + post == pre + (t + post);
      LStripPadded(b, pre, t + post);
      RStripPadded(b, t, post);
    }
  }

  /** What stripping returns neither starts nor ends with whitespace. */
  lemma StripSpec(b: Blanks, s: string)
    ensures var r := Strip(b, s); r == [] || (!IsBlank(b, r[0]) && !IsBlank(b, r[|r| - 1]))
  {
    var l := LStrip(b, s);
    LStripSpec(b, s);
    RStripSpec(b, l);
  }

  /** Stripping is idempotent. */
  lemma StripIdempotent(b: Blanks, s: string)
    ensures Strip(b, Strip(b, s)) == Strip(b, s)
  {
    var r := Strip(b, s);
    StripSpec(b, s);
    assert [] + r + [] == r;
    StripPadded(b, [], r, []);
  }

  // ---------------------------------------------------------------------------
  // str.split(sep)

  /** `s.split(sep)` for a one-character separator: splits at EVERY occurrence
      and keeps empty fields, so the result always has one more field than `s`
      has separators. */
  function Split(s: string, sep: char): (r: seq<string>)
    ensures |r| >= 1
  {
    if s == [] then [""]
    else
      var rest := Split(s[1..], sep);
      assert [s[0]] + s[1..] == s;
      if s[0] == sep then [""] + rest
      else [[s[0]] + rest[0]] + rest[1..]
  }

  /** No field of a split holds the separator, and there is a single field,
      the whole string, exactly when the string holds no separator. */
  lemma {:induction false} SplitFieldsSeparatorFree(s: string, sep: char)
    ensures forall i :: 0 <= i < |Split(s, sep)| ==> sep !in Split(s, sep)[i]
    ensures |Split(s, sep)| == 1 <==> sep !in s
  {
    if s != [] {
      SplitFieldsSeparatorFree(s[1..], sep);
      assert [s[0]] + s[1..] == s;
    }
  }

  lemma {:induction false} SplitWithoutSeparator(s: string, sep: char)
    requires sep !in s
    ensures Split(s, sep) == [s]
  {
    if s != [] {
      SplitWithoutSeparator(s[1..], sep);
      assert [s[0]] + s[1..] == s;
    }
  }

  /** `sep.join(fields)`, the inverse of `Split`. */
  function Join(fields: seq<string>, sep: char): string
    requires |fields| >= 1
  {
    if |fields| == 1 then fields[0] else fields[0] + [sep] + Join(fields[1..], sep)
  }

  /** Joining the fields of a split gives back the original string. */
  lemma {:induction false} JoinSplit(s: string, sep: char)
    ensures Join(Split(s, sep), sep) == s
  {
    if s != [] {
      var rest := Split(s[1..], sep);
      JoinSplit(s[1..], sep);
      if s[0] == sep {
        assert Split(s, sep)[1..] == rest;
      } else {
        var r := Split(s, sep);
        assert r[1..] == rest[1..];
        if |rest| > 1 {
          assert Join(rest, sep) == rest[0] + [sep] + Join(rest[1..], sep);
        }
      }
    }
  }

  /** Splitting a join of separator-free fields gives back the fields. */
  lemma {:induction false} SplitJoin(fields: seq<string>, sep: char)
    requires |fields| >= 1
    requires forall i :: 0 <= i < |fields| ==> sep !in fields[i]
    ensures Split(Join(fields, sep), sep) == fields
  {
    if |fields| == 1 {
      SplitWithoutSeparator(fields[0], sep);
    } else {
      SplitJoin(fields[1..], sep);
      SplitConcat(fields[0], sep, Join(fields[1..], sep));
      assert Join(fields, sep) == fields[0] + [sep] + Join(fields[1..], sep);
      assert [fields[0]] + fields[1..] == fields;
    }
  }

  /** Splitting `a + sep + b`, where `a` holds no separator, yields `a`
      followed by the fields of `b`. */
  lemma {:induction false} SplitConcat(a: string, sep: char, b: string)
    requires sep !in a
    ensures Split(a + [sep] + b, sep) == [a] + Split(b, sep)
  {
    if a == [] {
      assert a + [sep] + b == [sep] + b;
      assert ([sep] + b)[1..] == b;
    } else {
      SplitConcat(a[1..], sep, b);
      var s := a + [sep] + b;
      assert s[1..] == a[1..] + [sep] + b;
      assert [a[0]] + a[1..] == a;
    }
  }

  // ---------------------------------------------------------------------------
  // int(s) and str(n)

  predicate IsDigit(c: char)
  {
    '0' <= c <= '9'
  }

  predicate AllDigits(s: string)
  {
    forall i :: 0 <= i < |s| ==> IsDigit(s[i])
  }

  function DigitValue(c: char): nat
    requires IsDigit(c)
  {
    (c as int) - ('0' as int)
  }

  /** The value of a string of decimal digits, most significant first. */
  function DigitsValue(d: string): nat
    requires AllDigits(d)
  {
    if d == [] then 0 else 10 * DigitsValue(d[..|d| - 1]) + DigitValue(d[|d| - 1])
  }

  /** `int(s)` with base 10: surrounding `int()` whitespace is ignored, then
      an optional `+` or `-`, then at least one decimal digit. Anything else
      is a `ValueError`, here `None`. */
  function ParseInt(s: string): Option<int>
  {
    ParseSigned(Strip(IntSpace, s))
  }

  /** `int()` of a string that carries no surrounding whitespace. */
  function ParseSigned(t: string): Option<int>
  {
    var negative := |t| > 0 && t[0] == '-';
    var digits := if |t| > 0 && (t[0] == '-' || t[0] == '+') then t[1..] else t;
    if digits != [] && AllDigits(digits) then
      var magnitude: int := DigitsValue(digits);
      Some(if negative then -magnitude else magnitude)
    else
      None
  }

  function DigitChar(n: nat): (c: char)
    requires n < 10
    ensures IsDigit(c) && DigitValue(c) == n
  {
    ('0' as int + n) as char
  }

  /** The decimal digits of `n`, without leading zeros. */
  function NatToDigits(n: nat): (d: string)
    ensures d != []
  {
    if n < 10 then [DigitChar(n)] else NatToDigits(n / 10) + [DigitChar(n % 10)]
  }

  /** `str()` of a natural number is a non-empty run of decimal digits with
      no leading zero. */
  lemma {:induction false} NatToDigitsSpec(n: nat)
    ensures AllDigits(NatToDigits(n))
    ensures NatToDigits(n)[0] != '0' || n == 0
  {
    if n >= 10 {
      NatToDigitsSpec(n / 10);
    }
  }

  /** `str(n)` for an integer. */
  function IntToString(n: int): string
  {
    if n < 0 then "-" + NatToDigits(-n) else NatToDigits(n)
  }

  lemma {:induction false} DigitsRoundTrip(n: nat)
    ensures AllDigits(NatToDigits(n)) && DigitsValue(NatToDigits(n)) == n
  {
    NatToDigitsSpec(n);
    if n >= 10 {
      DigitsRoundTrip(n / 10);
      var d := NatToDigits(n);
      assert d[..|d| - 1] == NatToDigits(n / 10);
    }
  }

  lemma ParseSignedRoundTrip(n: int)
    ensures ParseSigned(IntToString(n)) == Some(n)
  {
    var t := IntToString(n);
    if n < 0 {
      assert t[1..] == NatToDigits(-n);
      DigitsRoundTrip(-n);
    } else {
      DigitsRoundTrip(n);
    }
  }

  /** `int()` accepts what `str()` writes for every integer, with any
      whitespace it skips around it, and gives the integer back. */
  lemma ParseIntRoundTrip(pre: string, n: int, post: string)
    requires AllBlank(IntSpace, pre) && AllBlank(IntSpace, post)
    ensures ParseInt(pre + IntToString(n) + post) == Some(n)
  {
    var t := IntToString(n);
    NatToDigitsSpec(if n < 0 then -n else n);
    assert !IsBlank(IntSpace, t[0]) && !IsBlank(IntSpace, t[|t| - 1]);
    StripPadded(IntSpace, pre, t, post);
    ParseSignedRoundTrip(n);
  }

  /** A string of `str.isspace()` characters only, the empty string included,
      is rejected by `int()`, whether or not `int()` skips them. */
  lemma ParseIntAllSpace(s: string)
    requires AllBlank(StrSpace, s)
    ensures ParseInt(s) == None
  {
    var l := LStrip(IntSpace, s);
    LStripSpec(IntSpace, s);
    var r := RStrip(IntSpace, l);
    RStripSpec(IntSpace, l);
    if r != [] {
      assert r[0] == s[|s| - |l|];
      assert IsSpace(r[0]);
    }
  }

  /** `int()` does not skip the separator controls U+001C..U+001F, although
      `str.strip()` does: a string starting with one is rejected. */
  lemma ParseIntSeparatorControl(c: char, t: string)
    requires '\U{1C}' <= c <= '\U{1F}'
    ensures ParseInt([c] + t) == None
    ensures Strip(StrSpace, [c] + t) == Strip(StrSpace, t)
  {
    var s := [c] + t;
    assert !IsBlank(IntSpace, s[0]);
    assert LStrip(IntSpace, s) == s;
    var r := RStrip(IntSpace, s);
    RStripSpec(IntSpace, s);
    assert |r| > 0;
    assert r[0] == c;
    assert s[1..] == t;
  }
}
