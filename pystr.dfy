/** The handful of Python string and integer primitives the ledger relies on:
    `str.isspace`, `str.strip()`, `str.split(sep)`, `str.startswith`,
    `str(int)` and `int(str)` for base-10 text. */
module PyStr {

  datatype Option<T> = None | Some(value: T)

  /** Python's `str.isspace()` for a single character. */
  predicate IsSpace(c: char) {
    || ('\t' <= c <= '\r')
    || ('\U{1c}' <= c <= '\U{1f}')
    || c == ' ' || c == '\U{85}' || c == '\U{a0}' || c == '\U{1680}'
    || ('\U{2000}' <= c <= '\U{200a}')
    || c == '\U{2028}' || c == '\U{2029}' || c == '\U{202f}' || c == '\U{205f}' || c == '\U{3000}'
  }

  predicate IsDigit(c: char) {
    '0' <= c <= '9'
  }

  predicate AllDigits(s: string) {
    forall i :: 0 <= i < |s| ==> IsDigit(s[i])
  }

  /** `s.lstrip()`: drops the longest all-whitespace prefix. */
  function StripLeft(s: string): (r: string)
    ensures |r| <= |s| && r == s[|s| - |r|..]
    ensures r == [] || !IsSpace(r[0])
  {
    if s != [] && IsSpace(s[0]) then StripLeft(s[1..]) else s
  }

  /** `s.rstrip()`: drops the longest all-whitespace suffix. */
  function StripRight(s: string): (r: string)
    ensures |r| <= |s| && r == s[..|r|]
    ensures r == [] || !IsSpace(r[|r| - 1])
  {
    if s != [] && IsSpace(s[|s| - 1]) then StripRight(s[..|s| - 1]) else s
  }

  /** `s.strip()` */
  function Strip(s: string): string {
    StripRight(StripLeft(s))
  }

  /** Stripping text that neither begins nor ends with whitespace changes nothing. */
  lemma StripUnchanged(s: string)
    requires s == [] || (!IsSpace(s[0]) && !IsSpace(s[|s| - 1]))
    ensures Strip(s) == s
  {
    assert StripLeft(s) == s;
  }

  /** A field counts as empty after `strip()` exactly when it is all whitespace. */
  lemma StripEmpty(s: string)
    ensures Strip(s) == [] <==> forall i :: 0 <= i < |s| ==> IsSpace(s[i])
  {
    StripLeftSkipsSpace(s);
    var l := StripLeft(s);
    StripRightSkipsSpace(l);
  }

  lemma {:induction false} StripLeftSkipsSpace(s: string)
    ensures forall i :: 0 <= i < |s| - |StripLeft(s)| ==> IsSpace(s[i])
  {
    if s != [] && IsSpace(s[0]) {
      StripLeftSkipsSpace(s[1..]);
      forall i | 1 <= i < |s| - |StripLeft(s)| ensures IsSpace(s[i]) {
        assert s[i] == s[1..][i - 1];
      }
    }
  }

  lemma {:induction false} StripRightSkipsSpace(s: string)
    ensures forall i :: |StripRight(s)| <= i < |s| ==> IsSpace(s[i])
  {
    if s != [] && IsSpace(s[|s| - 1]) {
      StripRightSkipsSpace(s[..|s| - 1]);
      forall i | |StripRight(s)| <= i < |s| - 1 ensures IsSpace(s[i]) {
        assert s[i] == s[..|s| - 1][i];
      }
    }
  }

  /** `strip()` twice is `strip()` once. */
  lemma StripIdempotent(s: string)
    ensures Strip(Strip(s)) == Strip(s)
  {
    var r := Strip(s);
    if r != [] {
      assert r[0] == StripLeft(s)[0];
    }
    StripUnchanged(r);
  }

  /** Stripping keeps a prefix that begins and ends with non-whitespace. */
  lemma StripKeepsPrefix(s: string, p: string)
    requires p != [] && p <= s
    requires !IsSpace(p[0]) && !IsSpace(p[|p| - 1])
    ensures p <= Strip(s)
  {
    assert StripLeft(s) == s;
    StripRightSkipsSpace(s);
    assert s[|p| - 1] == p[|p| - 1];
  }

  /** `strip()` drops one more trailing whitespace character. */
  lemma StripTrailingSpace(t: string, c: char)
    requires t != [] && !IsSpace(t[0]) && IsSpace(c)
    ensures Strip(t + [c]) == Strip(t)
  {
    var u := t + [c];
    assert StripLeft(u) == u && StripLeft(t) == t;
    assert u[..|u| - 1] == t;
  }

  /** What `strip()` keeps of text that begins with non-whitespace is a
      prefix of it. */
  lemma StripIsPrefix(s: string)
    requires s != [] && !IsSpace(s[0])
    ensures Strip(s) <= s
  {
    assert StripLeft(s) == s;
  }

  /** `"".join` of pieces with `sep` between them. */
  function Join(parts: seq<string>, sep: char): string
    requires |parts| >= 1
  {
    if |parts| == 1 then parts[0] else parts[0] + [sep] + Join(parts[1..], sep)
  }

  /** `s.split(sep)`: the pieces between the separators, so that joining them
      back gives `s` and no piece holds a separator. */
  function Split(s: string, sep: char): (r: seq<string>)
    ensures |r| >= 1
    ensures Join(r, sep) == s
    ensures forall i :: 0 <= i < |r| ==> sep !in r[i]
  {
    if s == [] then [""]
    else
      var rest := Split(s[1..], sep);
      if s[0] == sep then [""] + rest
      else [[s[0]] + rest[0]] + rest[1..]
  }

  /** Splitting undoes joining when no piece holds the separator. */
  lemma {:induction false} SplitJoin(parts: seq<string>, sep: char)
    requires |parts| >= 1
    requires forall i :: 0 <= i < |parts| ==> sep !in parts[i]
    ensures Split(Join(parts, sep), sep) == parts
  {
    if |parts| == 1 {
      SplitNoSeparator(parts[0], sep);
    } else {
      SplitJoin(parts[1..], sep);
      SplitCons(parts[0], Join(parts[1..], sep), sep);
      assert parts == [parts[0]] + parts[1..];
    }
  }

  lemma {:induction false} SplitNoSeparator(s: string, sep: char)
    requires sep !in s
    ensures Split(s, sep) == [s]
  {
    if s != [] {
      SplitNoSeparator(s[1..], sep);
    }
  }

  lemma {:induction false} SplitCons(a: string, b: string, sep: char)
    requires sep !in a
    ensures Split(a + [sep] + b, sep) == [a] + Split(b, sep)
  {
    if a == [] {
      assert (a + [sep] + b)[1..] == b;
    } else {
      assert (a + [sep] + b)[1..] == a[1..] + [sep] + b;
      SplitCons(a[1..], b, sep);
      assert [a[0]] + a[1..] == a;
    }
  }

  /** The text of a file whose lines are `lines`, each ended by a newline. */
  function Unlines(lines: seq<string>): string {
    if lines == [] then "" else Unlines(lines[..|lines| - 1]) + lines[|lines| - 1] + "\n"
  }

  lemma {:induction false} UnlinesAppend(a: seq<string>, b: seq<string>)
    ensures Unlines(a + b) == Unlines(a) + Unlines(b)
  {
    if b == [] {
      assert a + b == a;
    } else {
      assert (a + b)[..|a + b| - 1] == a + b[..|b| - 1];
      var front, last := b[..|b| - 1], b[|b| - 1];
      assert (a + b)[|a + b| - 1] == last;
      UnlinesAppend(a, front);
      calc {
        Unlines(a + b);
        Unlines(a + front) + last + "\n";
        Unlines(a) + Unlines(front) + last + "\n";
        Unlines(a) + (Unlines(front) + last + "\n");
      }
    }
  }

  /** Splitting the text of `lines` at newlines gives back the lines and one
      empty piece after the last newline. */
  lemma SplitUnlines(lines: seq<string>)
    requires forall i :: 0 <= i < |lines| ==> '\n' !in lines[i]
    ensures Split(Unlines(lines), '\n') == lines + [""]
  {
    var parts := lines + [""];
    forall i | 0 <= i < |parts| ensures '\n' !in parts[i] {
      if i < |lines| { assert parts[i] == lines[i]; }
    }
    JoinUnlines(lines);
    SplitJoin(parts, '\n');
  }

  lemma {:induction false} JoinUnlines(lines: seq<string>)
    ensures Join(lines + [""], '\n') == Unlines(lines)
  {
    if lines != [] {
      var n := |lines| - 1;
      JoinUnlines(lines[..n]);
      JoinSnoc(lines[..n], lines[n]);
      assert lines + [""] == lines[..n] + [lines[n], ""];
    }
  }

  lemma {:induction false} JoinSnoc(front: seq<string>, last: string)
    ensures Join(front + [last, ""], '\n') == Join(front + [""], '\n') + last + "\n"
  {
    if front == [] {
      assert [last, ""][1..] == [""];
    } else {
      assert (front + [last, ""])[1..] == front[1..] + [last, ""];
      assert (front + [""])[1..] == front[1..] + [""];
      JoinSnoc(front[1..], last);
    }
  }

  // ---- integers ----

  function DigitChar(d: nat): (c: char)
    requires d < 10
    ensures IsDigit(c) && (c as int) - ('0' as int) == d
  {
    (('0' as int) + d) as char
  }

  /** The base-10 digits of `n`, most significant first, with no leading zero. */
  function NatDigits(n: nat): (r: string)
    ensures r != [] && AllDigits(r)
    ensures n > 0 ==> r[0] != '0'
    ensures n == 0 ==> r == "0"
  {
    if n < 10 then [DigitChar(n)] else NatDigits(n / 10) + [DigitChar(n % 10)]
  }

  /** The value of a string of ASCII digits, most significant first. */
  function DigitsValue(s: string): nat
    requires AllDigits(s)
  {
    if s == [] then 0
    else DigitsValue(s[..|s| - 1]) * 10 + ((s[|s| - 1] as int) - ('0' as int))
  }

  /** `str(n)` */
  function Show(n: int): (r: string)
    ensures r != []
    ensures forall i :: 0 <= i < |r| ==> IsDigit(r[i]) || (i == 0 && r[i] == '-')
    ensures r[0] == '-' <==> n < 0
    ensures r[0] == '0' ==> r == "0"
    ensures r[0] == '-' ==> |r| >= 2 && r[1] != '0'
  {
    if n < 0 then "-" + NatDigits(-n) else NatDigits(n)
  }

  /** The whitespace `int()` skips around its digits: that of `str.isspace`
      except the ASCII separators U+001C..U+001F, which `int()` rejects. */
  predicate IntSpace(c: char) {
    IsSpace(c) && !('\U{1c}' <= c <= '\U{1f}')
  }

  /** The text without the longest leading run of `int()` whitespace. */
  function IntTrimLeft(s: string): (r: string)
    ensures |r| <= |s| && r == s[|s| - |r|..]
    ensures r == [] || !IntSpace(r[0])
  {
    if s != [] && IntSpace(s[0]) then IntTrimLeft(s[1..]) else s
  }

  /** The text without the longest trailing run of `int()` whitespace. */
  function IntTrimRight(s: string): (r: string)
    ensures |r| <= |s| && r == s[..|r|]
    ensures r == [] || !IntSpace(r[|r| - 1])
    ensures s != [] && !IntSpace(s[0]) ==> r != []
  {
    if s != [] && IntSpace(s[|s| - 1]) then IntTrimRight(s[..|s| - 1]) else s
  }

  /** `int(s)` on base-10 text: surrounding whitespace, then an optional sign,
      then one or more ASCII digits; anything else is a ValueError (None). */
  function ParseInt(s: string): Option<int> {
    ParseStripped(IntTrim(s))
  }

  /** What `int()` parses once it has skipped its whitespace at both ends. */
  function IntTrim(s: string): string {
    IntTrimRight(IntTrimLeft(s))
  }

  /** `int()` finds nothing to skip around text that neither begins nor
      ends with its whitespace, in particular around what `strip()` left. */
  lemma ParseUntrimmed(t: string)
    requires t == [] || (!IntSpace(t[0]) && !IntSpace(t[|t| - 1]))
    ensures ParseInt(t) == ParseStripped(t)
  {
    assert IntTrimLeft(t) == t;
    assert IntTrimRight(t) == t;
    assert IntTrim(t) == t;
  }

  /** `int()` once the surrounding whitespace is gone: an optional sign,
      then the digits. */
  function ParseStripped(t: string): Option<int> {
    if t != [] && (t[0] == '+' || t[0] == '-') then
      match ParseUnsigned(t[1..])
      case None => None
      case Some(v) => Some(if t[0] == '-' then -v else v)
    else ParseUnsigned(t)
  }

  /** One or more ASCII digits, read in base 10. */
  function ParseUnsigned(d: string): Option<int> {
    if d != [] && AllDigits(d) then Some(DigitsValue(d)) else None
  }

  lemma {:induction false} DigitsRoundTrip(n: nat)
    ensures DigitsValue(NatDigits(n)) == n
  {
    if n >= 10 {
      var r := NatDigits(n);
      assert r[..|r| - 1] == NatDigits(n / 10);
      DigitsRoundTrip(n / 10);
    }
  }

  /** `int(str(n)) == n` for every integer. */
  lemma ParseShow(n: int)
    ensures ParseInt(Show(n)) == Some(n)
  {
    if n < 0 {
      ParseShowNegative(n);
    } else {
      ParseShowNatural(n);
    }
  }

  lemma ParseShowNatural(n: nat)
    ensures ParseInt(Show(n)) == Some(n)
  {
    var d := NatDigits(n);
    assert Show(n) == d;
    assert IsDigit(d[0]) && IsDigit(d[|d| - 1]);
    ParseUntrimmed(d);
    assert ParseStripped(d) == ParseUnsigned(d);
    DigitsRoundTrip(n);
  }

  lemma ParseShowNegative(n: int)
    requires n < 0
    ensures ParseInt(Show(n)) == Some(n)
  {
    var d := NatDigits(-n);
    var m := "-" + d;
    assert Show(n) == m;
    assert m[0] == '-' && m[|m| - 1] == d[|d| - 1] && m[1..] == d;
    assert IsDigit(d[|d| - 1]);
    ParseUntrimmed(m);
    DigitsRoundTrip(-n);
    ParseMinus(m, -n);
  }

  /** A minus sign before digits negates their value. */
  lemma ParseMinus(t: string, v: int)
    requires t != [] && t[0] == '-' && ParseUnsigned(t[1..]) == Some(v)
    ensures ParseStripped(t) == Some(-v)
  {
  }

  /** A field that starts with a letter is never an integer. */
  lemma ParseRejectsLetter(s: string)
    requires s != [] && 'a' <= s[0] <= 'z'
    ensures ParseInt(s) == None
  {
    ParseRejectsFirst(s);
  }

  /** `int()` does not skip the ASCII separators U+001C..U+001F, although
      `strip()` does: a field that starts with one is never an integer. */
  lemma ParseRejectsSeparator(s: string)
    requires s != [] && '\U{1c}' <= s[0] <= '\U{1f}'
    ensures ParseInt(s) == None
    ensures IsSpace(s[0])
  {
    ParseRejectsFirst(s);
  }

  /** Text whose first character is neither `int()` whitespace, a sign nor
      a digit is never an integer. */
  lemma ParseRejectsFirst(s: string)
    requires s != [] && !IntSpace(s[0]) && !IsDigit(s[0]) && s[0] != '+' && s[0] != '-'
    ensures ParseInt(s) == None
  {
    assert IntTrimLeft(s) == s;
    var r := IntTrimRight(s);
    assert r[0] == s[0];
  }

  // ---- a form field's text as `save_input_data` reads it ----

  /** What one input box does: blank after `strip()` leaves the count alone,
      an integer overwrites it, anything else raises ValueError. */
  datatype FieldAction = Skip | Write(n: int) | Bad

  function ReadField(text: string): FieldAction {
    var value := Strip(text);
    if value == [] then Skip
    else match ParseInt(value)
      case Some(n) => Write(n)
      case None => Bad
  }

  /** A blank field is exactly an all-whitespace one; any other field is
      read as a sign and digits with no whitespace around them. */
  lemma ReadFieldMeaning(text: string)
    ensures ReadField(text) == Skip <==> forall i :: 0 <= i < |text| ==> IsSpace(text[i])
    ensures ReadField(text) != Skip ==>
      ReadField(text) == (match ParseStripped(Strip(text)) case Some(n) => Write(n) case None => Bad)
  {
    StripEmpty(text);
    var value := Strip(text);
    if value != [] {
      assert value[0] == StripLeft(text)[0];
      ParseUntrimmed(value);
    }
  }
}
