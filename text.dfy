/** Character-level helpers shared by the parsers and the report formatters:
    Python's str.strip(), splitting a text into lines, and decimal digits
    (fixed-width fields as strftime writes them, and `{n:02}` padding). */
module Text {

  datatype Option<+T> = None | Some(value: T)

  /** The characters for which Python's str.isspace() holds. */
  predicate IsSpace(c: char)
  {
    || c == ' '
    || ('\t' <= c <= '\r')
    || ('\U{1C}' <= c <= '\U{1F}')
    || c == '\U{85}' || c == '\U{A0}' || c == '\U{1680}'
    || ('\U{2000}' <= c <= '\U{200A}')
    || c == '\U{2028}' || c == '\U{2029}' || c == '\U{202F}' || c == '\U{205F}'
    || c == '\U{3000}'
  }

  /** s without its leading white space (str.lstrip()). */
  function StripStart(s: string): (r: string)
    ensures |r| <= |s| && r == s[|s| - |r|..]
    ensures r == [] || !IsSpace(r[0])
    ensures forall k :: 0 <= k < |s| - |r| ==> IsSpace(s[k])
  {
    if s != [] && IsSpace(s[0]) then StripStart(s[1..]) else s
  }

  /** s without its trailing white space (str.rstrip()). */
  function StripEnd(s: string): (r: string)
    ensures |r| <= |s| && r == s[..|r|]
    ensures r == [] || !IsSpace(r[|r| - 1])
    ensures forall k :: |r| <= k < |s| ==> IsSpace(s[k])
  {
    if s != [] && IsSpace(s[|s| - 1]) then StripEnd(s[..|s| - 1]) else s
  }

  /** Every character of s outside s[i..j] is white space. */
  predicate Padding(s: string, i: int, j: int)
  {
    forall k :: 0 <= k < |s| && (k < i || j <= k) ==> IsSpace(s[k])
  }

  /** str.strip(): the longest infix of s that neither starts nor ends with white space. */
  function Strip(s: string): (r: string)
    ensures |r| <= |s|
    ensures r != [] ==> !IsSpace(r[0]) && !IsSpace(r[|r| - 1])
    ensures forall c :: c in r ==> c in s
    ensures (forall k :: 0 <= k < |s| ==> IsSpace(s[k])) <==> r == []
    ensures exists i, j :: 0 <= i <= j <= |s| && r == s[i..j] && Padding(s, i, j)
  {
    var t := StripStart(s);
    var r := StripEnd(t);
    StripInfix(s, t, r);
    if r == [] then
      // t, whose first character is not white space, is all white space: it is empty
      assert t == [];
      r
    else
      assert !IsSpace(r[0]);
      r
  }

  /** What StripStart then StripEnd leave is s[i..i + |r|] for the i that
      StripStart drops, with only white space around it. */
  lemma {:induction false} StripInfix(s: string, t: string, r: string)
    requires t == StripStart(s) && r == StripEnd(t)
    ensures s[|s| - |t|..|s| - |t| + |r|] == r && Padding(s, |s| - |t|, |s| - |t| + |r|)
    ensures forall c :: c in r ==> c in s
  {
    var i := |s| - |t|;
    assert s[i..i + |r|] == t[..|r|];
    forall k | i + |r| <= k < |s| ensures IsSpace(s[k]) { assert s[k] == t[k - i]; }
    assert forall c :: c in r ==> c in t;
  }

  /** Stripping twice is the same as stripping once. */
  lemma {:induction false} StripIdempotent(s: string)
    ensures Strip(Strip(s)) == Strip(s)
  {
    var r := Strip(s);
    StripNoPadding(r);
  }

  /** A string that neither starts nor ends with white space is left unchanged by Strip. */
  lemma {:induction false} StripNoPadding(s: string)
    requires s != [] ==> !IsSpace(s[0]) && !IsSpace(s[|s| - 1])
    ensures Strip(s) == s
  {
    assert StripStart(s) == s;
    assert StripEnd(s) == s;
  }

  // ---------------------------------------------------------------- lines

  predicate NoNewline(s: string)
  {
    '\n' !in s
  }

  /** str.split("\n"): the pieces of s between newline characters. */
  function SplitLines(s: string): (lines: seq<string>)
    ensures |lines| >= 1
    ensures forall i :: 0 <= i < |lines| ==> NoNewline(lines[i])
  {
    if s == [] then [[]]
    else
      var rest := SplitLines(s[1..]);
      if s[0] == '\n' then [[]] + rest
      else [[s[0]] + rest[0]] + rest[1..]
  }

  /** "\n".join(lines). */
  function JoinLines(lines: seq<string>): string
    requires |lines| >= 1
  {
    if |lines| == 1 then lines[0] else lines[0] + "\n" + JoinLines(lines[1..])
  }

  /** Joining the pieces of a split gives the text back. */
  lemma {:induction false} JoinSplit(s: string)
    ensures JoinLines(SplitLines(s)) == s
  {
    if s != [] {
      var rest := SplitLines(s[1..]);
      JoinSplit(s[1..]);
      if s[0] == '\n' {
        assert SplitLines(s) == [[]] + rest;
        var e: string := []; assert e + "\n" + JoinLines(rest) == s;
      } else {
        var lines := SplitLines(s);
        assert lines == [[s[0]] + rest[0]] + rest[1..];
        if |rest| == 1 {
          assert JoinLines(lines) == [s[0]] + rest[0];
        } else {
          assert lines[1..] == rest[1..];
          assert JoinLines(rest) == rest[0] + "\n" + JoinLines(rest[1..]);
        }
      }
    }
  }

  /** Joining one more line appends a newline and that line. */
  lemma {:induction false} JoinAppend(lines: seq<string>, last: string)
    requires |lines| >= 1
    ensures JoinLines(lines + [last]) == JoinLines(lines) + "\n" + last
  {
    if |lines| > 1 {
      assert (lines + [last])[1..] == lines[1..] + [last];
      JoinAppend(lines[1..], last);
    }
  }

  /** Splitting a join of newline-free lines gives the lines back. */
  lemma {:induction false} SplitJoin(lines: seq<string>)
    requires |lines| >= 1
    requires forall i :: 0 <= i < |lines| ==> NoNewline(lines[i])
    ensures SplitLines(JoinLines(lines)) == lines
  {
    if |lines| == 1 {
      SplitNoNewline(lines[0]);
    } else {
      SplitJoin(lines[1..]);
      SplitPrefix(lines[0], JoinLines(lines[1..]));
      assert [lines[0]] + lines[1..] == lines;
    }
  }

  lemma {:induction false} SplitNoNewline(s: string)
    requires NoNewline(s)
    ensures SplitLines(s) == [s]
  {
    if s != [] {
      assert s[0] in s;
      assert NoNewline(s[1..]) by { assert forall c :: c in s[1..] ==> c in s; }
      SplitNoNewline(s[1..]);
      assert [s[0]] + s[1..] == s;
    }
  }

  /** A newline-free head followed by a newline splits off as the first line. */
  lemma {:induction false} SplitPrefix(head: string, tail: string)
    requires NoNewline(head)
    ensures SplitLines(head + "\n" + tail) == [head] + SplitLines(tail)
  {
    if head == [] {
      assert head + "\n" + tail == "\n" + tail;
      assert ("\n" + tail)[1..] == tail;
    } else {
      var s := head + "\n" + tail;
      assert s[1..] == head[1..] + "\n" + tail;
      assert NoNewline(head[1..]) by { assert forall c :: c in head[1..] ==> c in head; }
      SplitPrefix(head[1..], tail);
      assert [head[0]] + head[1..] == head;
    }
  }

  // --------------------------------------------------------------- digits

  predicate IsDigit(c: char)
  {
    '0' <= c <= '9'
  }

  predicate AllDigits(s: string)
  {
    forall i :: 0 <= i < |s| ==> IsDigit(s[i])
  }

  function DigitChar(d: nat): (c: char)
    requires d < 10
    ensures IsDigit(c)
  {
    ('0' as int + d) as char
  }

  function DigitValue(c: char): (d: nat)
    requires IsDigit(c)
    ensures d < 10 && DigitChar(d) == c
  {
    (c as int - '0' as int)
  }

  /** The number a string of decimal digits denotes (int(s) for ASCII digits). */
  function Value(s: string): (v: nat)
    requires AllDigits(s)
    ensures v < Pow10(|s|)
  {
    if s == [] then 0 else Value(s[..|s| - 1]) * 10 + DigitValue(s[|s| - 1])
  }

  function Pow10(n: nat): (p: nat)
    ensures p >= 1
  {
    if n == 0 then 1 else 10 * Pow10(n - 1)
  }

  /** n written with exactly `width` digits, zero padded (strftime's %d, %H, %M, %Y). */
  function Digits(n: nat, width: nat): (s: string)
    requires n < Pow10(width)
    ensures |s| == width && AllDigits(s)
    ensures Value(s) == n
  {
    if width == 0 then ""
    else
      var s := Digits(n / 10, width - 1) + [DigitChar(n % 10)];
      assert s[..|s| - 1] == Digits(n / 10, width - 1);
      s
  }

  /** A digit string is the zero-padded rendering of its own value. */
  lemma {:induction false} DigitsOfValue(s: string)
    requires AllDigits(s)
    ensures Digits(Value(s), |s|) == s
  {
    if s != [] {
      var init := s[..|s| - 1];
      var d := DigitValue(s[|s| - 1]);
      DigitsOfValue(init);
      assert Value(s) == Value(init) * 10 + d;
      LastDigit(Value(init), d);
      assert Digits(Value(s), |s|) == Digits(Value(init), |init|) + [DigitChar(d)];
      assert init + [s[|s| - 1]] == s;
    }
  }

  /** Appending digit d to the number a. */
  lemma LastDigit(a: nat, d: nat)
    requires d < 10
    ensures (a * 10 + d) / 10 == a && (a * 10 + d) % 10 == d
  {
  }

  /** The decimal rendering of a natural number (str(n)). */
  function NatToString(n: nat): (s: string)
    ensures 1 <= |s| && AllDigits(s) && Value(s) == n
    ensures |s| > 1 ==> s[0] != '0'
  {
    if n < 10 then [DigitChar(n)]
    else
      var s := NatToString(n / 10) + [DigitChar(n % 10)];
      assert s[..|s| - 1] == NatToString(n / 10);
      s
  }

  /** Python's `f"{n:02}"`: a zero pad to width 2 for one-digit naturals; a
      negative number keeps its sign and is at least two characters already. */
  function Pad2(n: int): string
  {
    if 0 <= n < 10 then ['0', DigitChar(n)]
    else if n >= 10 then NatToString(n)
    else "-" + NatToString(-n)
  }

  /** `{n:02}` of a natural number is a digit string of at least two digits
      that reads back as n, and is the two-digit field when n < 100. */
  lemma {:induction false} Pad2Nat(n: nat)
    ensures |Pad2(n)| >= 2 && AllDigits(Pad2(n)) && Value(Pad2(n)) == n
    ensures n < 100 ==> Pad2(n) == Digits(n, 2)
  {
    if n < 10 {
      TwoDigits(n);
      TwoDigitValue(Pad2(n));
    } else {
      var s := NatToString(n);
      assert s == NatToString(n / 10) + [DigitChar(n % 10)];
      if n < 100 {
        TwoDigits(n);
      }
    }
  }

  /** The two-digit field of n < 100: its tens digit, then its units digit. */
  lemma {:induction false} TwoDigits(n: nat)
    requires n < 100
    ensures Digits(n, 2) == [DigitChar(n / 10), DigitChar(n % 10)]
  {
    assert Digits(n / 10, 1) == Digits(n / 100, 0) + [DigitChar((n / 10) % 10)];
  }

  /** A two-digit string denotes ten times its first digit plus its second. */
  lemma {:induction false} TwoDigitValue(s: string)
    requires |s| == 2 && AllDigits(s)
    ensures Value(s) == DigitValue(s[0]) * 10 + DigitValue(s[1])
  {
    assert s[..1][..0] == [];
    assert Value(s[..1]) == DigitValue(s[0]);
  }

  /** A negative number is written as '-' and its digits. */
  lemma {:induction false} Pad2Negative(n: int)
    requires n < 0
    ensures |Pad2(n)| >= 2 && Pad2(n)[0] == '-'
    ensures AllDigits(Pad2(n)[1..]) && Value(Pad2(n)[1..]) == -n
  {
    assert Pad2(n)[1..] == NatToString(-n);
  }
}
