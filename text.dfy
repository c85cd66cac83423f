/**
 * The JavaScript string built-ins the tool relies on, over `string`. A
 * Dafny `char` is a Unicode scalar value, where JavaScript counts UTF-16
 * code units, so a character outside the Basic Multilingual Plane is one
 * `char` here and two units there. No operation below depends on the
 * difference: the patterns are ASCII, and `substring(1)` only ever drops
 * the leading `^` of a dependency range. The built-ins are:
 * `String.prototype.split` and `Array.prototype.join` with a one-character
 * separator, `startsWith`, the ASCII class `\d`, the pattern
 * `\d+\.\d+\.\d+` shared by all of the tool's regular expressions, and
 * `parseInt` on a run of decimal digits.
 */
module Text {

  datatype Option<T> = None | Some(value: T)

  predicate IsDigit(c: char) {
    '0' <= c <= '9'
  }

  /** `\d+`: a non-empty run of ASCII digits. */
  predicate IsDigitRun(s: string) {
    |s| > 0 && forall i :: 0 <= i < |s| ==> IsDigit(s[i])
  }

  /** `s.startsWith(prefix)` */
  predicate StartsWith(s: string, prefix: string) {
    |prefix| <= |s| && s[..|prefix|] == prefix
  }

  /**
   * `s.split(sep)` for a one-character separator: the maximal pieces
   * between separators, in order; the empty string splits into `[""]`.
   */
  function Split(s: string, sep: char): (parts: seq<string>)
    ensures |parts| >= 1
  {
    if s == [] then [""]
    else
      var rest := Split(s[1..], sep);
      if s[0] == sep then [""] + rest
      else [[s[0]] + rest[0]] + rest[1..]
  }

  /** `parts.join(sep)` for a one-character separator. */
  function Join(parts: seq<string>, sep: char): string
  {
    if parts == [] then ""
    else if |parts| == 1 then parts[0]
    else parts[0] + [sep] + Join(parts[1..], sep)
  }

  /** No piece of a split holds the separator. */
  lemma {:induction false} SplitNoSeparator(s: string, sep: char)
    ensures forall k :: 0 <= k < |Split(s, sep)| ==> sep !in Split(s, sep)[k]
  {
    if s != [] {
      SplitNoSeparator(s[1..], sep);
      var rest := Split(s[1..], sep);
      if s[0] != sep {
        assert sep !in [s[0]] + rest[0];
      }
    }
  }

  /** Joining the pieces of a split gives the text back. */
  lemma {:induction false} JoinSplit(s: string, sep: char)
    ensures Join(Split(s, sep), sep) == s
  {
    if s != [] {
      JoinSplit(s[1..], sep);
      var rest := Split(s[1..], sep);
      if s[0] == sep {
        assert ([""] + rest)[1..] == rest;
      } else if |rest| > 1 {
        var parts := [[s[0]] + rest[0]] + rest[1..];
        assert parts[1..] == rest[1..];
        assert Join(rest, sep) == rest[0] + [sep] + Join(rest[1..], sep);
        assert s == [s[0]] + s[1..];
      } else {
        assert s == [s[0]] + s[1..];
      }
    }
  }

  /** Splitting `a + t` where `a` holds no separator extends the first piece of `t`. */
  lemma {:induction false} SplitAppend(a: string, t: string, sep: char)
    requires sep !in a
    ensures Split(a + t, sep) == [a + Split(t, sep)[0]] + Split(t, sep)[1..]
  {
    if a != [] {
      assert (a + t)[1..] == a[1..] + t;
      assert a[0] != sep;
      SplitAppend(a[1..], t, sep);
      assert [a[0]] + (a[1..] + Split(t, sep)[0]) == a + Split(t, sep)[0];
    } else {
      var pt := Split(t, sep);
      assert a + t == t;
      assert a + pt[0] == pt[0];
      assert pt == [pt[0]] + pt[1..];
    }
  }

  /** Splitting a join of separator-free pieces gives the pieces back. */
  lemma {:induction false} SplitJoin(parts: seq<string>, sep: char)
    requires |parts| >= 1
    requires forall k :: 0 <= k < |parts| ==> sep !in parts[k]
    ensures Split(Join(parts, sep), sep) == parts
  {
    if |parts| == 1 {
      SplitAppend(parts[0], "", sep);
      assert parts[0] + "" == parts[0];
    } else {
      var tail := [sep] + Join(parts[1..], sep);
      SplitJoin(parts[1..], sep);
      assert tail[1..] == Join(parts[1..], sep);
      assert Split(tail, sep) == [""] + parts[1..];
      assert Join(parts, sep) == parts[0] + tail;
      SplitAppend(parts[0], tail, sep);
      assert parts[0] + "" == parts[0];
    }
  }

  lemma JoinThree(a: string, b: string, c: string, sep: char)
    ensures Join([a, b, c], sep) == a + [sep] + b + [sep] + c
  {
    assert [a, b, c][1..] == [b, c];
    assert [b, c][1..] == [c];
    assert Join([b, c], sep) == b + [sep] + c;
    assert a + [sep] + (b + [sep] + c) == a + [sep] + b + [sep] + c;
  }

  lemma DigitRunExcludes(s: string, c: char)
    requires IsDigitRun(s) && !IsDigit(c)
    ensures c !in s
  {
    assert forall i :: 0 <= i < |s| ==> s[i] != c;
  }

  /**
   * The pattern `\d+\.\d+\.\d+` matched against a whole string: it splits
   * at '.' into exactly three digit runs.
   */
  predicate IsTriple(s: string) {
    var p := Split(s, '.');
    |p| == 3 && IsDigitRun(p[0]) && IsDigitRun(p[1]) && IsDigitRun(p[2])
  }

  /** Three digit runs joined by dots match the pattern, and split back into the same runs. */
  lemma TripleOf(a: string, b: string, c: string)
    requires IsDigitRun(a) && IsDigitRun(b) && IsDigitRun(c)
    ensures Split(a + "." + b + "." + c, '.') == [a, b, c]
    ensures IsTriple(a + "." + b + "." + c)
  {
    DigitRunExcludes(a, '.');
    DigitRunExcludes(b, '.');
    DigitRunExcludes(c, '.');
    JoinThree(a, b, c, '.');
    SplitJoin([a, b, c], '.');
  }

  /** Whatever matches the pattern is three digit runs joined by dots. */
  lemma TripleParts(s: string)
    requires IsTriple(s)
    ensures var p := Split(s, '.');
            s == p[0] + "." + p[1] + "." + p[2] &&
            IsDigitRun(p[0]) && IsDigitRun(p[1]) && IsDigitRun(p[2])
  {
    var p := Split(s, '.');
    JoinSplit(s, '.');
    assert p == [p[0], p[1], p[2]];
    JoinThree(p[0], p[1], p[2], '.');
  }

  /** A string matching the pattern consists of digits and dots only. */
  lemma TripleExcludes(s: string, c: char)
    requires IsTriple(s) && !IsDigit(c) && c != '.'
    ensures c !in s
  {
    TripleParts(s);
    var p := Split(s, '.');
    DigitRunExcludes(p[0], c);
    DigitRunExcludes(p[1], c);
    DigitRunExcludes(p[2], c);
  }

  function DigitValue(c: char): (d: nat)
    requires IsDigit(c)
    ensures d < 10
  {
    (c as int) - ('0' as int)
  }

  function DigitChar(d: nat): (c: char)
    requires d < 10
    ensures IsDigit(c) && DigitValue(c) == d
  {
    (('0' as int) + d) as char
  }

  /** `parseInt(s)` (radix 10) for a string of decimal digits, leading zeros included. */
  function ParseDecimal(s: string): nat
    requires forall i :: 0 <= i < |s| ==> IsDigit(s[i])
  {
    if s == [] then 0 else ParseDecimal(s[..|s| - 1]) * 10 + DigitValue(s[|s| - 1])
  }

  /** The shortest decimal spelling of `n`, as `String(n)` gives it. */
  function ShowDecimal(n: nat): (s: string)
    ensures IsDigitRun(s)
  {
    if n < 10 then [DigitChar(n)] else ShowDecimal(n / 10) + [DigitChar(n % 10)]
  }

  /** Parsing the decimal spelling of a number gives the number back. */
  lemma {:induction false} ParseShow(n: nat)
    ensures ParseDecimal(ShowDecimal(n)) == n
  {
    var s := ShowDecimal(n);
    if n >= 10 {
      ParseShow(n / 10);
      assert s[..|s| - 1] == ShowDecimal(n / 10);
    }
  }
}
