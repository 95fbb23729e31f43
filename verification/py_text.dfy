/** The pieces of Python's `str` and `int` the text protocols rely on:
    `str.strip()`, `int(s)` on a decimal string, and `str(n)` of an
    integer.  Digits other than ASCII '0'..'9' are not part of this model. */
module PyText {
  import opened Outcomes

  /** The characters `str.isspace()` accepts, the ones `strip()` removes. */
  predicate IsSpace(c: char)
  {
    var n := c as int;
    || n == 0x20 || 0x09 <= n <= 0x0D || 0x1C <= n <= 0x1F || n == 0x85 || n == 0xA0
    || n == 0x1680 || 0x2000 <= n <= 0x200A || n == 0x2028 || n == 0x2029
    || n == 0x202F || n == 0x205F || n == 0x3000
  }

  predicate AllSpace(s: string)
  {
    forall k :: 0 <= k < |s| ==> IsSpace(s[k])
  }

  /** `s.lstrip()`: the suffix left after the leading white space. */
  function TrimLeft(s: string): (r: string)
    ensures |r| <= |s| && r == s[|s| - |r|..]
    ensures AllSpace(s[..|s| - |r|])
    ensures |r| > 0 ==> !IsSpace(r[0])
  {
    if |s| > 0 && IsSpace(s[0]) then TrimLeft(s[1..]) else s
  }

  /** `s.rstrip()`: the prefix left before the trailing white space. */
  function TrimRight(s: string): (r: string)
    ensures |r| <= |s| && r == s[..|r|]
    ensures AllSpace(s[|r|..])
    ensures |r| > 0 ==> !IsSpace(r[|r| - 1])
  {
    if |s| > 0 && IsSpace(s[|s| - 1]) then TrimRight(s[..|s| - 1]) else s
  }

  /** `s.strip()`. */
  function Strip(s: string): string
  {
    TrimRight(TrimLeft(s))
  }

  /** Leading white space does not change what `lstrip` leaves. */
  lemma {:induction false} TrimLeftPadded(pre: string, s: string)
    requires AllSpace(pre)
    ensures TrimLeft(pre + s) == TrimLeft(s)
  {
    if |pre| > 0 {
      assert (pre + s)[0] == pre[0];
      assert (pre + s)[1..] == pre[1..] + s;
      TrimLeftPadded(pre[1..], s);
    } else {
      assert pre + s == s;
    }
  }

  /** Trailing white space does not change what `rstrip` leaves. */
  lemma {:induction false} TrimRightPadded(s: string, post: string)
    requires AllSpace(post)
    ensures TrimRight(s + post) == TrimRight(s)
  {
    if |post| > 0 {
      assert (s + post)[|s + post| - 1] == post[|post| - 1];
      assert (s + post)[..|s + post| - 1] == s + post[..|post| - 1];
      TrimRightPadded(s, post[..|post| - 1]);
    } else {
      assert s + post == s;
    }
  }

  /** A text is all white space exactly when its tail is, given a white
      first character. */
  lemma AllSpaceTail(s: string)
    requires |s| > 0
    ensures AllSpace(s) <==> IsSpace(s[0]) && AllSpace(s[1..])
  {
    if IsSpace(s[0]) && AllSpace(s[1..]) {
      forall k | 0 <= k < |s| ensures IsSpace(s[k]) {
        if k > 0 { assert s[k] == s[1..][k - 1]; }
      }
    }
  }

  /** `lstrip` of `s + post` strips within `s` alone, unless `s` is all
      white space. */
  lemma {:induction false} TrimLeftAppend(s: string, post: string)
    ensures !AllSpace(s) ==> TrimLeft(s + post) == TrimLeft(s) + post
    ensures AllSpace(s) ==> TrimLeft(s + post) == TrimLeft(post)
  {
    if |s| == 0 {
      assert s + post == post;
    } else {
      assert (s + post)[0] == s[0];
      assert (s + post)[1..] == s[1..] + post;
      TrimLeftAppend(s[1..], post);
      AllSpaceTail(s);
    }
  }

  /** A string of white space strips to nothing. */
  lemma AllSpaceStrips(s: string)
    requires AllSpace(s)
    ensures TrimLeft(s) == ""
  {
  }

  /** White space around a text never changes what `strip` leaves. */
  lemma StripPadded(pre: string, s: string, post: string)
    requires AllSpace(pre) && AllSpace(post)
    ensures Strip(pre + s + post) == Strip(s)
  {
    assert pre + s + post == pre + (s + post);
    TrimLeftPadded(pre, s + post);
    TrimLeftAppend(s, post);
    if AllSpace(s) {
      AllSpaceStrips(post);
      AllSpaceStrips(s);
    } else {
      TrimRightPadded(TrimLeft(s), post);
    }
  }

  /** A text that begins and ends with visible characters is its own
      `strip`. */
  lemma StripVisible(s: string)
    requires |s| > 0 && !IsSpace(s[0]) && !IsSpace(s[|s| - 1])
    ensures Strip(s) == s
  {
  }

  predicate IsDigit(c: char) { '0' <= c <= '9' }

  /** The digits `int()` accepts after the sign: ASCII digits with single
      underscores between them. */
  predicate DigitGroups(s: string)
  {
    && |s| > 0
    && IsDigit(s[0]) && IsDigit(s[|s| - 1])
    && (forall k :: 0 <= k < |s| ==> IsDigit(s[k]) || s[k] == '_')
    && (forall k :: 0 <= k < |s| - 1 && s[k] == '_' ==> s[k + 1] != '_')
  }

  /** The decimal value of the digits, underscores skipped. */
  function DigitsValue(s: string): nat
  {
    if |s| == 0 then 0
    else if IsDigit(s[|s| - 1]) then DigitsValue(s[..|s| - 1]) * 10 + (s[|s| - 1] as int - '0' as int)
    else DigitsValue(s[..|s| - 1])
  }

  /** `int(s)` in base 10: white space around, an optional sign, then digit
      groups; anything else raises `ValueError` (`None` here). */
  function ParseInt(s: string): Option<int>
  {
    var t := Strip(s);
    if |t| > 0 && (t[0] == '-' || t[0] == '+') then
      if DigitGroups(t[1..]) then
        Some(if t[0] == '-' then -(DigitsValue(t[1..]) as int) else DigitsValue(t[1..]))
      else None
    else if DigitGroups(t) then Some(DigitsValue(t))
    else None
  }

  function DigitChar(d: nat): (c: char)
    requires d < 10
    ensures IsDigit(c) && c as int - '0' as int == d
  {
    (d + '0' as int) as char
  }

  /** `str(n)` of a natural number: its decimal digits, no leading zero. */
  function NatString(n: nat): (s: string)
    ensures |s| > 0 && forall k :: 0 <= k < |s| ==> IsDigit(s[k])
  {
    if n < 10 then [DigitChar(n)] else NatString(n / 10) + [DigitChar(n % 10)]
  }

  /** `str(i)` of any integer. */
  function IntString(i: int): string
  {
    if i < 0 then "-" + NatString(-i) else NatString(i)
  }

  /** `str(i)` holds only digits and, in front, a minus sign. */
  lemma IntStringChars(i: int)
    ensures forall k :: 0 <= k < |IntString(i)| ==>
      IsDigit(IntString(i)[k]) || (k == 0 && IntString(i)[k] == '-')
  {
    if i < 0 {
      var d := NatString(-i);
      assert forall k :: 1 <= k < |IntString(i)| ==> IntString(i)[k] == d[k - 1];
    }
  }

  /** Reading the digits of `str(n)` gives `n` back. */
  lemma {:induction false} NatStringValue(n: nat)
    ensures DigitsValue(NatString(n)) == n
  {
    if n >= 10 {
      NatStringValue(n / 10);
      var s := NatString(n);
      assert s[..|s| - 1] == NatString(n / 10);
    }
  }

  /** Digit groups with no sign read as their value. */
  lemma ParseUnsigned(s: string)
    requires DigitGroups(s)
    ensures ParseInt(s) == Some(DigitsValue(s))
  {
    StripVisible(s);
  }

  /** A minus sign before digit groups negates their value. */
  lemma ParseNegative(s: string)
    requires DigitGroups(s)
    ensures ParseInt("-" + s) == Some(-(DigitsValue(s) as int))
  {
    var t := "-" + s;
    assert t[0] == '-' && t[|t| - 1] == s[|s| - 1];
    StripVisible(t);
    assert t[1..] == s;
  }

  /** `int(str(i)) == i` for every integer. */
  lemma IntStringParses(i: int)
    ensures ParseInt(IntString(i)) == Some(i)
  {
    var n: nat := if i < 0 then -i else i;
    NatStringValue(n);
    assert DigitGroups(NatString(n));
    if i < 0 {
      ParseNegative(NatString(n));
    } else {
      ParseUnsigned(NatString(n));
    }
  }

  /** `s[:k]` up to the first occurrence of `sep`: the first field of
      `s.split(sep)`. */
  function FirstField(s: string, sep: char): (r: string)
    ensures |r| <= |s| && r == s[..|r|]
    ensures sep !in r
    ensures |r| < |s| ==> s[|r|] == sep
  {
    if |s| == 0 || s[0] == sep then "" else [s[0]] + FirstField(s[1..], sep)
  }

  /** `s.split(sep)`: the fields between the separators, at least one. */
  function Split(s: string, sep: char): (r: seq<string>)
    ensures |r| > 0
    decreases |s|
  {
    var f := FirstField(s, sep);
    if |f| == |s| then [s] else [f] + Split(s[|f| + 1..], sep)
  }

  /** `sep.join(parts)`. */
  function Join(parts: seq<string>, sep: string): string
  {
    if |parts| == 0 then ""
    else if |parts| == 1 then parts[0]
    else parts[0] + sep + Join(parts[1..], sep)
  }

  /** A field free of the separator is the first field. */
  lemma {:induction false} FirstFieldOf(x: string, y: string, sep: char)
    requires sep !in x
    ensures FirstField(x + y, sep) == if |y| > 0 && y[0] == sep then x else x + FirstField(y, sep)
  {
    if |x| == 0 {
      assert x + y == y;
      if |y| > 0 && y[0] == sep {
        assert FirstField(y, sep) == "";
      }
    } else {
      assert (x + y)[1..] == x[1..] + y;
      FirstFieldOf(x[1..], y, sep);
      assert [x[0]] + x[1..] == x;
    }
  }

  /** Splitting undoes joining when no part holds the separator. */
  lemma {:induction false} SplitJoin(parts: seq<string>, sep: char)
    requires |parts| > 0
    requires forall i :: 0 <= i < |parts| ==> sep !in parts[i]
    ensures Split(Join(parts, [sep]), sep) == parts
    decreases |parts|
  {
    if |parts| == 1 {
      FirstFieldOf(parts[0], "", sep);
      assert parts[0] + "" == parts[0];
    } else {
      var x := parts[0];
      var rest := Join(parts[1..], [sep]);
      var s := Join(parts, [sep]);
      assert s == x + ([sep] + rest);
      FirstFieldOf(x, [sep] + rest, sep);
      assert FirstField(s, sep) == x;
      assert s[|x| + 1..] == rest;
      assert Split(s, sep) == [x] + Split(rest, sep);
      SplitJoin(parts[1..], sep);
      assert parts == [x] + parts[1..];
    }
  }
}
