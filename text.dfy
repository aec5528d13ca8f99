/**
 * The string operations of JavaScript that the components rely on, for
 * sequences of Unicode scalar values (`char`): case mapping (ASCII letters only),
 * `includes`, `startsWith`, `endsWith`, `split` on one character, `trim`,
 * and the decimal rendering of a natural number in a template literal.
 */
module Text {

  predicate IsUpper(c: char) { 'A' <= c <= 'Z' }
  predicate IsLower(c: char) { 'a' <= c <= 'z' }
  predicate IsDigit(c: char) { '0' <= c <= '9' }
  predicate IsAlphanumeric(c: char) { IsUpper(c) || IsLower(c) || IsDigit(c) }

  /** The characters a regular expression's `.` refuses to match. */
  predicate IsLineTerminator(c: char)
  {
    c == '\n' || c == '\r' || c == '\U{2028}' || c == '\U{2029}'
  }

  /** The characters `String.prototype.trim` removes: white space and line terminators. */
  predicate IsJsWhitespace(c: char)
  {
    || c == '\t' || c == '\U{000B}' || c == '\U{000C}' || c == ' ' || c == '\U{00A0}' || c == '\U{FEFF}'
    || c == '\U{1680}' || ('\U{2000}' <= c <= '\U{200A}') || c == '\U{202F}' || c == '\U{205F}' || c == '\U{3000}'
    || IsLineTerminator(c)
  }

  // ---------------------------------------------------------------- case

  function LowerChar(c: char): char
  {
    if IsUpper(c) then (c as int + 32) as char else c
  }

  function UpperChar(c: char): char
  {
    if IsLower(c) then (c as int - 32) as char else c
  }

  /** `toLowerCase`, on ASCII letters. */
  function ToLower(s: string): (r: string)
    ensures |r| == |s|
    ensures forall i {:trigger r[i]} :: 0 <= i < |s| ==> r[i] == LowerChar(s[i])
  {
    seq(|s|, i requires 0 <= i < |s| => LowerChar(s[i]))
  }

  /** A '.' before position `k` survives lower-casing, so the lower-cased text ends in '.' and the lower-cased rest. */
  lemma DotBeforeLowerSuffix(s: string, k: int)
    requires 1 <= k <= |s| && s[k - 1] == '.'
    ensures EndsWith(ToLower(s), ['.'] + ToLower(s[k..]))
  {
    var low := ToLower(s);
    var suffix := ['.'] + ToLower(s[k..]);
    assert |suffix| == |s| - k + 1;
    forall i | 0 <= i < |suffix| ensures low[k - 1 + i] == suffix[i] {
      if i > 0 {
        assert suffix[i] == ToLower(s[k..])[i - 1] == LowerChar(s[k..][i - 1]);
        assert s[k..][i - 1] == s[k - 1 + i];
      }
    }
    assert low[k - 1..] == suffix;
  }

  /**
   * When the lower-cased text ends in '.' and a dot-free `e`, the original
   * has a '.' at that place, none after it, and lower-cases to `e` after it.
   */
  lemma LowerEndsWithDot(s: string, e: string)
    requires '.' !in e
    requires EndsWith(ToLower(s), ['.'] + e)
    ensures var p := |s| - |e| - 1;
      && s[p] == '.'
      && (forall j :: p < j < |s| ==> s[j] != '.')
      && ToLower(s[p + 1..]) == e
  {
    var low := ToLower(s);
    var p := |s| - |e| - 1;
    assert low[p..] == ['.'] + e;
    assert low[p] == low[p..][0] == '.';
    forall j | p < j < |s| ensures s[j] != '.' {
      assert low[j] == low[p..][j - p] == e[j - p - 1];
    }
    forall i | 0 <= i < |e| ensures ToLower(s[p + 1..])[i] == e[i] {
      assert s[p + 1..][i] == s[p + 1 + i];
      assert e[i] == low[p..][i + 1] == low[p + 1 + i];
    }
  }

  /** `toUpperCase`, on ASCII letters. */
  function ToUpper(s: string): (r: string)
    ensures |r| == |s|
    ensures forall i {:trigger r[i]} :: 0 <= i < |s| ==> r[i] == UpperChar(s[i])
  {
    seq(|s|, i requires 0 <= i < |s| => UpperChar(s[i]))
  }

  lemma ToLowerAppend(a: string, b: string)
    ensures ToLower(a + b) == ToLower(a) + ToLower(b)
  {
    assert forall i :: 0 <= i < |a + b| ==> ToLower(a + b)[i] == (ToLower(a) + ToLower(b))[i];
  }

  lemma ToLowerIdempotent(s: string)
    ensures ToLower(ToLower(s)) == ToLower(s)
  {
    assert forall i :: 0 <= i < |s| ==> ToLower(ToLower(s))[i] == ToLower(s)[i];
  }

  /** A character with no case is left alone by `ToLower`, so a '.' stays where it was. */
  lemma ToLowerKeepsChar(s: string, c: char)
    requires !IsUpper(c)
    ensures forall i :: 0 <= i < |s| ==> (ToLower(s)[i] == c <==> s[i] == c || (IsUpper(s[i]) && s[i] as int + 32 == c as int))
  {
  }

  // ---------------------------------------------------------------- search

  predicate StartsWith(s: string, prefix: string)
  {
    |prefix| <= |s| && s[..|prefix|] == prefix
  }

  predicate EndsWith(s: string, suffix: string)
  {
    |suffix| <= |s| && s[|s| - |suffix|..] == suffix
  }

  /** `s.includes(sub)`: `sub` begins at some position of `s`. */
  predicate Contains(s: string, sub: string)
    decreases |s|
  {
    StartsWith(s, sub) || (s != [] && Contains(s[1..], sub))
  }

  /** `sub` occurs in `s` starting at index `i`. */
  predicate OccursAt(s: string, sub: string, i: int)
  {
    0 <= i <= |s| - |sub| && s[i..i + |sub|] == sub
  }

  /** `Contains` holds exactly when `sub` occurs at some index of `s`. */
  lemma {:induction false} ContainsIffOccurs(s: string, sub: string)
    ensures Contains(s, sub) <==> exists i :: OccursAt(s, sub, i)
    decreases |s|
  {
    if StartsWith(s, sub) {
      assert OccursAt(s, sub, 0);
    }
    if s != [] {
      ContainsIffOccurs(s[1..], sub);
      if Contains(s[1..], sub) {
        var j :| OccursAt(s[1..], sub, j);
        assert s[1..][j..j + |sub|] == s[j + 1..j + 1 + |sub|];
        assert OccursAt(s, sub, j + 1);
      }
      if exists i :: OccursAt(s, sub, i) {
        var i :| OccursAt(s, sub, i);
        if i > 0 {
          assert s[1..][i - 1..i - 1 + |sub|] == s[i..i + |sub|];
          assert OccursAt(s[1..], sub, i - 1);
        }
      }
    } else if exists i :: OccursAt(s, sub, i) {
      var i :| OccursAt(s, sub, i);
      assert i == 0;
    }
  }

  /** The empty string is contained in every string, so an empty search matches everything. */
  lemma ContainsEmpty(s: string)
    ensures Contains(s, [])
  {
  }

  // ---------------------------------------------------------------- split

  /** The inverse of `split`: the parts with `sep` between consecutive ones. */
  function Join(parts: seq<string>, sep: char): string
    requires |parts| >= 1
  {
    if |parts| == 1 then parts[0] else parts[0] + [sep] + Join(parts[1..], sep)
  }

  /** `s.split(sep)` for a one-character separator. */
  function Split(s: string, sep: char): (parts: seq<string>)
    ensures |parts| >= 1
    ensures forall i :: 0 <= i < |parts| ==> sep !in parts[i]
    ensures Join(parts, sep) == s
  {
    if s == [] then [[]]
    else
      var rest := Split(s[1..], sep);
      if s[0] == sep then
        assert ([[]] + rest)[1..] == rest;
        [[]] + rest
      else
        var parts := [[s[0]] + rest[0]] + rest[1..];
        assert parts[1..] == rest[1..];
        assert |rest| > 1 ==> Join(rest, sep) == rest[0] + [sep] + Join(rest[1..], sep);
        parts
  }

  /** `split` undoes `Join` whenever no part contains the separator. */
  lemma {:induction false} SplitJoin(parts: seq<string>, sep: char)
    requires |parts| >= 1
    requires forall i :: 0 <= i < |parts| ==> sep !in parts[i]
    ensures Split(Join(parts, sep), sep) == parts
    decreases |parts|, |parts[0]|
  {
    if |parts| == 1 {
      SplitNoSeparator(parts[0], sep);
    } else if parts[0] == [] {
      SplitJoin(parts[1..], sep);
      SplitJoinEmptyHead(parts, sep);
    } else {
      var shorter := [parts[0][1..]] + parts[1..];
      assert shorter[1..] == parts[1..];
      assert sep !in shorter[0] by {
        assert forall c :: c in parts[0][1..] ==> c in parts[0];
      }
      assert forall i :: 1 <= i < |shorter| ==> shorter[i] == parts[i];
      SplitJoin(shorter, sep);
      SplitJoinLetterHead(parts, sep, shorter);
    }
  }

  /** One step of `SplitJoin` when the first part is empty. */
  lemma SplitJoinEmptyHead(parts: seq<string>, sep: char)
    requires |parts| >= 2 && parts[0] == []
    requires Split(Join(parts[1..], sep), sep) == parts[1..]
    ensures Split(Join(parts, sep), sep) == parts
  {
    var rest := parts[1..];
    assert Join(parts, sep) == [sep] + Join(rest, sep);
    assert ([sep] + Join(rest, sep))[1..] == Join(rest, sep);
    assert [[]] + rest == parts;
  }

  /** One step of `SplitJoin` when the first part starts with a character other than the separator. */
  lemma SplitJoinLetterHead(parts: seq<string>, sep: char, shorter: seq<string>)
    requires |parts| >= 2 && parts[0] != [] && parts[0][0] != sep
    requires shorter == [parts[0][1..]] + parts[1..]
    requires Split(Join(shorter, sep), sep) == shorter
    ensures Split(Join(parts, sep), sep) == parts
  {
    var c := parts[0][0];
    JoinLetterHead(parts, sep, shorter);
    SplitLetterHead(c, Join(shorter, sep), sep);
    assert [c] + shorter[0] == parts[0];
    assert shorter[1..] == parts[1..];
    assert [parts[0]] + parts[1..] == parts;
  }

  lemma JoinLetterHead(parts: seq<string>, sep: char, shorter: seq<string>)
    requires |parts| >= 2 && parts[0] != []
    requires shorter == [parts[0][1..]] + parts[1..]
    ensures Join(parts, sep) == [parts[0][0]] + Join(shorter, sep)
  {
    assert shorter[1..] == parts[1..];
    assert parts[0] == [parts[0][0]] + shorter[0];
  }

  /** `split` on a text starting with a character other than the separator puts that character at the front of the first part. */
  lemma SplitLetterHead(c: char, t: string, sep: char)
    requires c != sep
    ensures Split([c] + t, sep) == [[c] + Split(t, sep)[0]] + Split(t, sep)[1..]
  {
    assert ([c] + t)[1..] == t;
  }

  /** Without the separator, `split` yields the whole string as its one part. */
  lemma {:induction false} SplitNoSeparator(s: string, sep: char)
    requires sep !in s
    ensures Split(s, sep) == [s]
  {
    if s != [] {
      assert sep !in s[1..] by {
        assert forall c :: c in s[1..] ==> c in s;
      }
      SplitNoSeparator(s[1..], sep);
      assert [s[0]] + s[1..] == s;
    }
  }

  /** With the separator present, `split` yields at least two parts. */
  lemma SplitWithSeparator(s: string, sep: char)
    requires sep in s
    ensures |Split(s, sep)| >= 2
  {
  }

  /** The last part of a `Join` is the text after the last separator. */
  lemma {:induction false} JoinLast(parts: seq<string>, sep: char)
    requires |parts| >= 2
    ensures Join(parts, sep) == Join(parts[..|parts| - 1], sep) + [sep] + parts[|parts| - 1]
    decreases |parts|
  {
    if |parts| > 2 {
      JoinLast(parts[1..], sep);
      assert parts[1..][..|parts| - 2] == parts[..|parts| - 1][1..];
      assert parts[1..][|parts| - 2] == parts[|parts| - 1];
    } else {
      assert parts[..1] == [parts[0]];
    }
  }

  /**
   * `s.split(sep).pop()`: the text after the last `sep`, or all of `s`
   * when `sep` does not occur. The result is a suffix of `s` free of `sep`,
   * and it is preceded by `sep` unless it is the whole string.
   */
  function LastPart(s: string, sep: char): (r: string)
    ensures sep !in r
    ensures |r| <= |s| && r == s[|s| - |r|..]
    ensures |r| < |s| ==> s[|s| - |r| - 1] == sep
    ensures |r| == |s| <==> sep !in s
  {
    var parts := Split(s, sep);
    var r := parts[|parts| - 1];
    if |parts| == 1 then
      assert Join(parts, sep) == r;
      r
    else
      JoinLast(parts, sep);
      r
  }

  /** The last part is everything after the last separator. */
  lemma LastPartAfter(s: string, sep: char, p: int)
    requires 0 <= p < |s| && s[p] == sep
    requires forall j :: p < j < |s| ==> s[j] != sep
    ensures LastPart(s, sep) == s[p + 1..]
  {
    var r := LastPart(s, sep);
    var q := |s| - |r|;
    forall j | q <= j < |s| ensures s[j] == r[j - q] {
    }
    assert q == p + 1;
  }

  // ---------------------------------------------------------------- trim

  function TrimStart(s: string): (r: string)
    ensures |r| <= |s| && r == s[|s| - |r|..]
    ensures r != [] ==> !IsJsWhitespace(r[0])
    ensures forall i :: 0 <= i < |s| - |r| ==> IsJsWhitespace(s[i])
  {
    if s != [] && IsJsWhitespace(s[0]) then TrimStart(s[1..]) else s
  }

  function TrimEnd(s: string): (r: string)
    ensures |r| <= |s| && r == s[..|r|]
    ensures r != [] ==> !IsJsWhitespace(r[|r| - 1])
    ensures forall i :: |r| <= i < |s| ==> IsJsWhitespace(s[i])
  {
    if s != [] && IsJsWhitespace(s[|s| - 1]) then TrimEnd(s[..|s| - 1]) else s
  }

  /** `s.trim()`. */
  function Trim(s: string): string
  {
    TrimEnd(TrimStart(s))
  }

  /** `!s.trim()`: nothing but white space (see `BlankIffTrimEmpty`). */
  predicate IsBlank(s: string)
  {
    s == [] || (IsJsWhitespace(s[0]) && IsBlank(s[1..]))
  }

  /** A string is blank exactly when every character of it is white space. */
  lemma {:induction false} BlankIffAllWhitespace(s: string)
    ensures IsBlank(s) <==> forall i :: 0 <= i < |s| ==> IsJsWhitespace(s[i])
  {
    if s != [] {
      BlankIffAllWhitespace(s[1..]);
      assert forall i :: 1 <= i < |s| ==> s[i] == s[1..][i - 1];
    }
  }

  /** `IsBlank` is `!s.trim()`: trimming leaves nothing exactly when the string is blank. */
  lemma BlankIffTrimEmpty(s: string)
    ensures IsBlank(s) <==> Trim(s) == []
  {
    BlankIffAllWhitespace(s);
    var t := TrimStart(s);
    if Trim(s) != [] {
      assert s[|s| - |t|] == t[0];
    }
  }

  // ---------------------------------------------------------------- numbers

  function DigitChar(d: nat): (c: char)
    requires d < 10
    ensures IsDigit(c)
  {
    ('0' as int + d) as char
  }

  function DigitValue(c: char): (d: nat)
    requires IsDigit(c)
    ensures d < 10
  {
    c as int - '0' as int
  }

  predicate AllDigits(s: string)
  {
    forall i :: 0 <= i < |s| ==> IsDigit(s[i])
  }

  /** `${n}` for a natural number: its decimal digits, without leading zeros. */
  function Decimal(n: nat): (r: string)
    ensures r != [] && AllDigits(r)
    ensures |r| > 1 ==> r[0] != '0'
  {
    if n < 10 then [DigitChar(n)] else Decimal(n / 10) + [DigitChar(n % 10)]
  }

  /** The value a string of decimal digits denotes. */
  function ParseDecimal(s: string): nat
    requires AllDigits(s)
  {
    if s == [] then 0 else ParseDecimal(s[..|s| - 1]) * 10 + DigitValue(s[|s| - 1])
  }

  /** Reading back the decimal rendering of `n` gives `n`. */
  lemma {:induction false} ParseDecimalOfDecimal(n: nat)
    ensures ParseDecimal(Decimal(n)) == n
  {
    var r := Decimal(n);
    if n >= 10 {
      ParseDecimalOfDecimal(n / 10);
      assert r[..|r| - 1] == Decimal(n / 10);
    } else {
      assert r[..0] == [];
    }
  }

  /** Different numbers are rendered differently. */
  lemma DecimalInjective(m: nat, n: nat)
    requires Decimal(m) == Decimal(n)
    ensures m == n
  {
    ParseDecimalOfDecimal(m);
    ParseDecimalOfDecimal(n);
  }
}
