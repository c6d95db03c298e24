/**
 * The few pieces of Java's string library that the game's logic depends on:
 * Integer.parseInt, Integer.toString, String.split on one literal character,
 * String.split on runs of whitespace, String.trim and String.equalsIgnoreCase.
 */
module JavaText {
  import opened Options

  const IntMin: int := -0x8000_0000
  const IntMax: int := 0x7fff_ffff

  /** A value a Java `int` can hold. */
  predicate InInt(n: int)
  {
    IntMin <= n <= IntMax
  }

  /**
   * Character.digit(c, 10): the value of a decimal digit, -1 for any other
   * character. Java reads a string one UTF-16 unit at a time, so these are the
   * decimal digits (Unicode category Nd) of the Basic Multilingual Plane, in
   * runs of ten from a zero: ASCII, Arabic-Indic, Devanagari, ..., fullwidth.
   */
  function DigitValue(c: char): (d: int)
    ensures -1 <= d <= 9
  {
    var n := c as int;
    if n < 0x0660 then (if 0x0030 <= n <= 0x0039 then n - 0x0030 else -1)
    else DigitFrom(n, DigitZeros)
  }

  /** The zero of every run of ten decimal digits past ASCII, in increasing order. */
  const DigitZeros: seq<int> := [
    0x0660, 0x06F0, 0x07C0, 0x0966, 0x09E6, 0x0A66, 0x0AE6, 0x0B66, 0x0BE6,
    0x0C66, 0x0CE6, 0x0D66, 0x0DE6, 0x0E50, 0x0ED0, 0x0F20, 0x1040, 0x1090,
    0x17E0, 0x1810, 0x1946, 0x19D0, 0x1A80, 0x1A90, 0x1B50, 0x1BB0, 0x1C40,
    0x1C50, 0xA620, 0xA8D0, 0xA900, 0xA9D0, 0xA9F0, 0xAA50, 0xABF0, 0xFF10]

  /** The value of n as a digit of the first run in zeros that holds it, else -1. */
  function DigitFrom(n: int, zeros: seq<int>): (d: int)
    ensures -1 <= d <= 9
    ensures d >= 0 ==> exists k :: 0 <= k < |zeros| && n == zeros[k] + d
  {
    if |zeros| == 0 then -1
    else if zeros[0] <= n <= zeros[0] + 9 then n - zeros[0]
    else DigitFrom(n, zeros[1..])
  }

  predicate IsDigit(c: char)
  {
    DigitValue(c) >= 0
  }

  predicate AllDigits(s: string)
  {
    forall i :: 0 <= i < |s| ==> IsDigit(s[i])
  }

  /** Value of a string of decimal digits, most significant first. */
  function DigitsValue(s: string): nat
    requires AllDigits(s)
  {
    if |s| == 0 then 0
    else DigitsValue(s[..|s| - 1]) * 10 + DigitValue(s[|s| - 1])
  }

  /**
   * Integer.parseInt: an optional sign followed by at least one digit, the
   * value within int range; None where Java throws NumberFormatException.
   */
  function ParseInt(s: string): (r: Option<int>)
    ensures r.Some? ==> InInt(r.value)
  {
    if |s| == 0 then None
    else
      var negative := s[0] == '-';
      var digits := if s[0] == '-' || s[0] == '+' then s[1..] else s;
      if |digits| == 0 || !AllDigits(digits) then None
      else
        var magnitude: int := DigitsValue(digits);
        var v := if negative then -magnitude else magnitude;
        if InInt(v) then Some(v) else None
  }

  /**
   * parseInt succeeds with v exactly when s is digits of value v, or '+' and
   * digits of value v, or '-' and digits of value -v, and v fits an int.
   */
  lemma ParseIntSpec(s: string, v: int)
    ensures ParseInt(s) == Some(v) <==> SignedDigits(s, v) && InInt(v)
  {
    if |s| > 0 && (s[0] == '+' || s[0] == '-') {
      assert !IsDigit(s[0]);
    }
  }

  /** s is an optional sign followed by at least one digit, with value v. */
  predicate SignedDigits(s: string, v: int)
  {
    || (|s| > 0 && AllDigits(s) && DigitsValue(s) == v)
    || (|s| > 1 && s[0] == '+' && AllDigits(s[1..]) && DigitsValue(s[1..]) == v)
    || (|s| > 1 && s[0] == '-' && AllDigits(s[1..]) && DigitsValue(s[1..]) == -v)
  }

  /** Leading zeros and either sign are accepted. */
  lemma ParseIntExamples()
    ensures ParseInt("007") == Some(7) && ParseInt("+5") == Some(5) && ParseInt("-0") == Some(0)
  {
    assert "007"[..2] == "00" && "00"[..1] == "0" && "0"[..0] == "";
  }

  /** Empty digit strings, blanks, letters and a doubled sign are refused. */
  lemma ParseIntRefusals()
    ensures ParseInt("") == None && ParseInt("+") == None && ParseInt("-") == None
    ensures ParseInt(" 3") == None && ParseInt("3 ") == None && ParseInt("1a") == None && ParseInt("--1") == None
  {
    assert !IsDigit(' ') && !IsDigit('a') && !IsDigit('-');
    assert "3 "[1] == ' ' && "1a"[1] == 'a' && "--1"[1..][0] == '-';
  }

  /** Digits of other scripts count, as Character.digit reads them: fullwidth three. */
  lemma ParseIntFullwidth()
    ensures ParseInt("\U{FF13}") == Some(3)
  {
    var s := "\U{FF13}";
    FullwidthDigit(s[0]);
    assert IsDigit(s[0]);
    assert s[..0] == "";
    assert AllDigits(s);
    assert DigitsValue(s) == 3;
    assert SignedDigits(s, 3);
    ParseIntSpec(s, 3);
  }

  /** Arabic-Indic three and zero read as thirty. */
  lemma ParseIntArabicIndic()
    ensures ParseInt("\U{0663}\U{0660}") == Some(30)
  {
    var s := "\U{0663}\U{0660}";
    assert DigitValue(s[0]) == 3 && DigitValue(s[1]) == 0;
    assert s[..1] == [s[0]] && s[..1][..0] == "";
    assert AllDigits(s) && AllDigits(s[..1]);
    assert DigitsValue(s[..1]) == 3;
    assert DigitsValue(s) == 30;
    assert SignedDigits(s, 30);
    ParseIntSpec(s, 30);
  }

  /** The fullwidth digits, the last run of the table. */
  lemma FullwidthDigit(c: char)
    requires '\U{FF10}' <= c <= '\U{FF19}'
    ensures DigitValue(c) == c as int - 0xFF10
  {
    DigitFromHit(c as int, DigitZeros, 35);
  }

  /** The lookup finds the first run that holds n. */
  lemma {:induction false} DigitFromHit(n: int, zeros: seq<int>, k: int)
    requires 0 <= k < |zeros| && zeros[k] <= n <= zeros[k] + 9
    requires forall j :: 0 <= j < k ==> zeros[j] + 9 < n
    ensures DigitFrom(n, zeros) == n - zeros[k]
  {
    if k > 0 {
      assert zeros[0] + 9 < n;
      DigitFromHit(n, zeros[1..], k - 1);
    }
  }

  function DigitChar(d: int): char
    requires 0 <= d <= 9
  {
    ('0' as int + d) as char
  }

  /** Decimal digits of a natural number, without leading zeros. */
  function NatToString(n: nat): (s: string)
    ensures |s| >= 1 && AllDigits(s)
  {
    if n < 10 then [DigitChar(n)] else NatToString(n / 10) + [DigitChar(n % 10)]
  }

  /** Integer.toString (what string concatenation prints for an int). */
  function IntToString(n: int): (s: string)
    ensures |s| >= 1
  {
    if n < 0 then "-" + NatToString(-n) else NatToString(n)
  }

  lemma {:induction false} NatToStringValue(n: nat)
    ensures DigitsValue(NatToString(n)) == n
  {
    var s := NatToString(n);
    if n >= 10 {
      NatToStringValue(n / 10);
      assert s[..|s| - 1] == NatToString(n / 10);
    }
  }

  /** Printing an int and parsing it back gives the same int. */
  lemma IntToStringRoundTrip(n: int)
    requires InInt(n)
    ensures ParseInt(IntToString(n)) == Some(n)
  {
    if n < 0 {
      NatToStringValue(-n);
      assert IntToString(n)[1..] == NatToString(-n);
    } else {
      NatToStringValue(n);
    }
  }

  /** A printed int never contains the character c unless c is a digit or '-'. */
  lemma IntToStringChars(n: int, c: char)
    requires !IsDigit(c) && c != '-'
    ensures c !in IntToString(n)
  {
    var d := NatToString(if n < 0 then -n else n);
    assert c !in d by {
      forall i | 0 <= i < |d| ensures d[i] != c {
        assert IsDigit(d[i]);
      }
    }
  }

  // ---------------------------------------------------------------------
  // String.split with a single literal separator character
  // ---------------------------------------------------------------------

  /** All fields of s between occurrences of sep, empty ones included. */
  function Fields(s: string, sep: char): (r: seq<string>)
    ensures |r| >= 1
  {
    if |s| == 0 then [""]
    else
      var rest := Fields(s[1..], sep);
      if s[0] == sep then [""] + rest
      else [[s[0]] + rest[0]] + rest[1..]
  }

  function DropTrailingEmpty(fs: seq<string>): seq<string>
  {
    if |fs| == 0 || fs[|fs| - 1] != "" then fs else DropTrailingEmpty(fs[..|fs| - 1])
  }

  /**
   * s.split(sep): the input itself when sep does not occur, otherwise the
   * fields with trailing empty fields removed (a leading empty one stays).
   */
  function Split(s: string, sep: char): seq<string>
  {
    if sep !in s then [s] else DropTrailingEmpty(Fields(s, sep))
  }

  lemma {:induction false} FieldsNoSep(s: string, sep: char)
    requires sep !in s
    ensures Fields(s, sep) == [s]
  {
    if |s| > 0 {
      FieldsNoSep(s[1..], sep);
      assert [s[0]] + s[1..] == s;
    }
  }

  /** Splitting at a separator occurrence splits the fields there. */
  lemma {:induction false} FieldsAppend(x: string, sep: char, y: string)
    ensures Fields(x + [sep] + y, sep) == Fields(x, sep) + Fields(y, sep)
  {
    var s := x + [sep] + y;
    if |x| == 0 {
      assert s == [sep] + y && s[1..] == y;
    } else {
      var tail := x[1..] + [sep] + y;
      assert s[0] == x[0] && s[1..] == tail;
      FieldsAppend(x[1..], sep, y);
      var f := Fields(x[1..], sep);
      var r := f + Fields(y, sep);
      assert Fields(tail, sep) == r;
      if x[0] != sep {
        assert r[0] == f[0] && r[1..] == f[1..] + Fields(y, sep);
        assert Fields(s, sep) == [[x[0]] + f[0]] + r[1..];
        assert Fields(x, sep) == [[x[0]] + f[0]] + f[1..];
      }
    }
  }

  // ---------------------------------------------------------------------
  // String.trim and String.split("\\s+")
  // ---------------------------------------------------------------------

  /** The characters java.util.regex counts as \s. */
  predicate IsSpace(c: char)
  {
    c == ' ' || c == '\t' || c == '\n' || c == '\U{000B}' || c == '\U{000C}' || c == '\r'
  }

  /** String.trim strips every character up to U+0020 from both ends. */
  function Trim(s: string): string
  {
    TrimEnd(TrimStart(s))
  }

  function TrimStart(s: string): string
  {
    if |s| > 0 && s[0] <= ' ' then TrimStart(s[1..]) else s
  }

  function TrimEnd(s: string): string
  {
    if |s| > 0 && s[|s| - 1] <= ' ' then TrimEnd(s[..|s| - 1]) else s
  }

  /** TrimStart drops exactly the leading characters up to U+0020. */
  lemma {:induction false} TrimStartSpec(s: string)
    ensures var r := TrimStart(s);
      |r| <= |s| && r == s[|s| - |r|..] &&
      (|r| > 0 ==> r[0] > ' ') &&
      forall i :: 0 <= i < |s| - |r| ==> s[i] <= ' '
  {
    if |s| > 0 && s[0] <= ' ' {
      TrimStartSpec(s[1..]);
    }
  }

  /** TrimEnd drops exactly the trailing characters up to U+0020. */
  lemma {:induction false} TrimEndSpec(s: string)
    ensures var r := TrimEnd(s);
      |r| <= |s| && r == s[..|r|] &&
      (|r| > 0 ==> r[|r| - 1] > ' ') &&
      forall i :: |r| <= i < |s| ==> s[i] <= ' '
  {
    if |s| > 0 && s[|s| - 1] <= ' ' {
      TrimEndSpec(s[..|s| - 1]);
    }
  }

  /** The trimmed string is a slice of s, begins and ends above U+0020, and only such characters were cut. */
  lemma TrimSpec(s: string)
    ensures var r, a := Trim(s), |s| - |TrimStart(s)|;
      (|r| > 0 ==> r[0] > ' ' && r[|r| - 1] > ' ') &&
      0 <= a && a + |r| <= |s| && r == s[a..a + |r|] &&
      (forall i :: 0 <= i < a ==> s[i] <= ' ') &&
      (forall i :: a + |r| <= i < |s| ==> s[i] <= ' ')
  {
    var t := TrimStart(s);
    TrimStartSpec(s);
    TrimEndSpec(t);
    var r := TrimEnd(t);
    var a := |s| - |t|;
    assert r == s[a..a + |r|];
  }

  /** Length of the run of non-space characters that starts s. */
  function WordLength(s: string): (n: nat)
    ensures n <= |s|
  {
    if |s| == 0 || IsSpace(s[0]) then 0 else 1 + WordLength(s[1..])
  }

  lemma {:induction false} WordLengthSpec(s: string)
    ensures var n := WordLength(s);
      (forall i :: 0 <= i < n ==> !IsSpace(s[i])) && (n < |s| ==> IsSpace(s[n]))
  {
    if |s| > 0 && !IsSpace(s[0]) {
      WordLengthSpec(s[1..]);
    }
  }

  /**
   * The maximal runs of non-space characters: what split("\\s+") returns for
   * a string that, like a trimmed one, neither starts nor ends with a space.
   */
  function Words(s: string): seq<string>
    decreases |s|
  {
    if |s| == 0 then []
    else if IsSpace(s[0]) then Words(s[1..])
    else
      var n := WordLength(s);
      [s[..n]] + Words(s[n..])
  }

  /** Every word is non-empty and holds no space. */
  lemma {:induction false} WordsSpec(s: string)
    decreases |s|
    ensures forall k :: 0 <= k < |Words(s)| ==> |Words(s)[k]| > 0 && forall i :: 0 <= i < |Words(s)[k]| ==> !IsSpace(Words(s)[k][i])
  {
    if |s| > 0 {
      if IsSpace(s[0]) {
        WordsSpec(s[1..]);
      } else {
        var n := WordLength(s);
        WordLengthSpec(s);
        WordsSpec(s[n..]);
        assert Words(s) == [s[..n]] + Words(s[n..]);
      }
    }
  }

  /** The words of a string, joined back together without separators. */
  function Concat(ws: seq<string>): string
  {
    if |ws| == 0 then "" else ws[0] + Concat(ws[1..])
  }

  /** s without its whitespace characters. */
  function NonSpaces(s: string): string
  {
    if |s| == 0 then "" else (if IsSpace(s[0]) then "" else [s[0]]) + NonSpaces(s[1..])
  }

  predicate NoSpace(w: string)
  {
    forall i :: 0 <= i < |w| ==> !IsSpace(w[i])
  }

  predicate AllSpace(w: string)
  {
    forall i :: 0 <= i < |w| ==> IsSpace(w[i])
  }

  /** Splitting loses no character but the whitespace, and keeps their order. */
  lemma {:induction false} WordsKeepNonSpaces(s: string)
    decreases |s|
    ensures Concat(Words(s)) == NonSpaces(s)
  {
    if |s| > 0 {
      if IsSpace(s[0]) {
        WordsKeepNonSpaces(s[1..]);
      } else {
        var n := WordLength(s);
        WordLengthSpec(s);
        WordsKeepNonSpaces(s[n..]);
        assert s == s[..n] + s[n..];
        NonSpacesAppend(s[..n], s[n..]);
        NonSpacesOfWord(s[..n]);
        assert Words(s) == [s[..n]] + Words(s[n..]);
      }
    }
  }

  lemma {:induction false} NonSpacesAppend(a: string, b: string)
    ensures NonSpaces(a + b) == NonSpaces(a) + NonSpaces(b)
  {
    if |a| > 0 {
      assert (a + b)[0] == a[0] && (a + b)[1..] == a[1..] + b;
      NonSpacesAppend(a[1..], b);
    } else {
      assert a + b == b;
    }
  }

  lemma {:induction false} NonSpacesOfWord(w: string)
    requires NoSpace(w)
    ensures NonSpaces(w) == w
  {
    if |w| > 0 {
      NonSpacesOfWord(w[1..]);
      assert [w[0]] + w[1..] == w;
    }
  }

  /** A word followed by whitespace or the end of the text is read whole. */
  lemma {:induction false} WordLengthOfWord(w: string, rest: string)
    requires NoSpace(w) && (|rest| == 0 || IsSpace(rest[0]))
    ensures WordLength(w + rest) == |w|
  {
    if |w| > 0 {
      assert (w + rest)[1..] == w[1..] + rest;
      WordLengthOfWord(w[1..], rest);
    } else {
      assert w + rest == rest;
    }
  }

  /** Leading whitespace yields no word. */
  lemma {:induction false} WordsAfterSpaces(sp: string, rest: string)
    requires AllSpace(sp)
    ensures Words(sp + rest) == Words(rest)
  {
    if |sp| > 0 {
      assert (sp + rest)[1..] == sp[1..] + rest;
      WordsAfterSpaces(sp[1..], rest);
    } else {
      assert sp + rest == rest;
    }
  }

  /**
   * A non-empty word, a run of whitespace and the rest split into that word
   * followed by the words of the rest: the words are the maximal runs, in order.
   */
  lemma WordsOfJoin(w: string, sp: string, rest: string)
    requires |w| > 0 && NoSpace(w) && |sp| > 0 && AllSpace(sp)
    ensures Words(w + sp + rest) == [w] + Words(rest)
  {
    var s := w + sp + rest;
    WordLengthOfWord(w, sp + rest);
    assert s == w + (sp + rest);
    assert s[..|w|] == w && s[|w|..] == sp + rest;
    WordsAfterSpaces(sp, rest);
  }

  /** A single non-empty word splits into itself. */
  lemma WordsOfWord(w: string)
    requires |w| > 0 && NoSpace(w)
    ensures Words(w) == [w]
  {
    WordLengthOfWord(w, "");
    assert w + "" == w;
  }

  // ---------------------------------------------------------------------
  // String.equalsIgnoreCase
  // ---------------------------------------------------------------------

  /**
   * Upper case for ASCII letters only. Java's equalsIgnoreCase also folds
   * other scripts; no non-ASCII character folds onto a letter of "Computer",
   * the one name the game compares, so there the two agree. This is not a
   * general model of equalsIgnoreCase.
   */
  function ToUpper(c: char): char
  {
    if 'a' <= c <= 'z' then (c as int - 32) as char else c
  }

  /** Same length and, position by position, the same letter up to case. */
  predicate EqualsIgnoreCase(a: string, b: string)
  {
    |a| == |b| && forall i :: 0 <= i < |a| ==> a[i] == b[i] || ToUpper(a[i]) == ToUpper(b[i])
  }

  /** The name of the computer player is matched in any mix of cases, and only whole. */
  lemma EqualsIgnoreCaseExamples()
    ensures EqualsIgnoreCase("computer", "Computer")
    ensures EqualsIgnoreCase("COMPUTER", "Computer")
    ensures EqualsIgnoreCase("cOmPuTeR", "Computer")
    ensures !EqualsIgnoreCase("Computers", "Computer")
    ensures !EqualsIgnoreCase("C0mputer", "Computer")
  {
    assert ToUpper("C0mputer"[1]) != ToUpper("Computer"[1]);
  }
}
