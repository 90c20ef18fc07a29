/** The handful of Python string operations the scripts rely on: `str.strip()`,
    `str.split(sep)`, `int(text)`, `str(n)`, `f"{n:03d}"`, `str.lower()`,
    `str.isdigit()`, `startswith` and `endswith`, restricted to ASCII. */
module PyText {
  import opened Outcomes

  // ---------------------------------------------------------------- whitespace

  /** The ASCII characters `str.isspace()` accepts (what `strip()` and `int()` remove). */
  predicate IsSpace(c: char)
  {
    c == ' ' || c == '\t' || c == '\n' || c == '\r' || c == '\U{B}' || c == '\U{C}'
    || ('\U{1C}' <= c <= '\U{1F}')
  }

  predicate IsBlank(s: string)
  {
    forall i :: 0 <= i < |s| ==> IsSpace(s[i])
  }

  /** `s.lstrip()` */
  function TrimStart(s: string): (r: string)
    ensures |r| <= |s| && r == s[|s| - |r|..]
    ensures IsBlank(s[..|s| - |r|])
    ensures r == [] || !IsSpace(r[0])
  {
    if s != [] && IsSpace(s[0]) then TrimStart(s[1..]) else s
  }

  /** `s.rstrip()` */
  function TrimEnd(s: string): (r: string)
    ensures |r| <= |s| && r == s[..|r|]
    ensures IsBlank(s[|r|..])
    ensures r == [] || !IsSpace(r[|r| - 1])
  {
    if s != [] && IsSpace(s[|s| - 1]) then TrimEnd(s[..|s| - 1]) else s
  }

  /** `s.strip()`: what is left after removing leading and trailing whitespace. */
  function Strip(s: string): (r: string)
    ensures |r| <= |s|
    ensures r == [] || (!IsSpace(r[0]) && !IsSpace(r[|r| - 1]))
  {
    TrimEnd(TrimStart(s))
  }

  /** A text strips to nothing exactly when every character is whitespace; this is the
      blank-text test of the scripts. */
  lemma StripEmptyIffBlank(s: string)
    ensures Strip(s) == [] <==> IsBlank(s)
  {
    var t := TrimStart(s);
    if Strip(s) == [] {
      assert TrimEnd(t) == [];
      assert t[0..] == t;
      assert s == s[..|s| - |t|] + t;
    }
    if IsBlank(s) {
      BlankTrimStart(s);
    }
  }

  lemma {:induction false} BlankTrimStart(s: string)
    requires IsBlank(s)
    ensures TrimStart(s) == []
  {
    if s != [] {
      BlankTrimStart(s[1..]);
    }
  }

  /** Text that neither begins nor ends with whitespace strips to itself. */
  lemma StripUnchanged(s: string)
    requires s == [] || (!IsSpace(s[0]) && !IsSpace(s[|s| - 1]))
    ensures Strip(s) == s
  {
  }

  /** Leading whitespace does not change what `strip()` returns. */
  lemma StripLeadingSpace(c: char, s: string)
    requires IsSpace(c)
    ensures Strip([c] + s) == Strip(s)
  {
    assert ([c] + s)[1..] == s;
  }

  // ---------------------------------------------------------------- digits and int()

  predicate IsDigit(c: char) { '0' <= c <= '9' }

  predicate AllDigits(s: string)
  {
    forall i :: 0 <= i < |s| ==> IsDigit(s[i])
  }

  /** `s.isdigit()` for ASCII text: non-empty and made of decimal digits only. */
  predicate IsDigits(s: string)
  {
    |s| > 0 && AllDigits(s)
  }

  function DigitValue(c: char): nat
    requires IsDigit(c)
  {
    c as int - '0' as int
  }

  function DigitChar(d: nat): char
    requires d < 10
  {
    ('0' as int + d) as char
  }

  /** The number a string of decimal digits denotes (leading zeros allowed). */
  function DigitsValue(s: string): nat
    requires AllDigits(s)
  {
    if s == [] then 0 else DigitsValue(s[..|s| - 1]) * 10 + DigitValue(s[|s| - 1])
  }

  /** Optional digits: the value of a non-empty run of decimal digits. */
  function ParseUnsigned(t: string): Option<nat>
  {
    if IsDigits(t) then Some(DigitsValue(t)) else None
  }

  /** One optional sign, then digits. */
  function ParseSigned(t: string): Option<int>
  {
    if |t| > 0 && (t[0] == '+' || t[0] == '-') then
      match ParseUnsigned(t[1..])
      case None => None
      case Some(v) => var w: int := v; Some(if t[0] == '-' then -w else w)
    else ParseUnsigned(t)
  }

  /** `int(text)` for base-10 text: surrounding whitespace is ignored, one optional sign,
      then at least one digit; anything else raises ValueError, modelled as `None`. */
  function ParseInt(s: string): Option<int>
  {
    ParseSigned(Strip(s))
  }

  /** `str(n)` for a natural number: its decimal digits, without leading zeros. */
  function NatToString(n: nat): (s: string)
    ensures IsDigits(s)
    ensures DigitsValue(s) == n
  {
    if n < 10 then [DigitChar(n)]
    else
      var h := NatToString(n / 10);
      var s := h + [DigitChar(n % 10)];
      assert s[..|s| - 1] == h;
      s
  }

  /** `str(n)` for any integer. */
  function IntToString(n: int): string
  {
    if n < 0 then "-" + NatToString(-n) else NatToString(n)
  }

  /** A plain digit string parses to its value. */
  lemma ParseDigits(s: string)
    requires IsDigits(s)
    ensures ParseInt(s) == Some(DigitsValue(s))
  {
    assert IsDigit(s[0]) && IsDigit(s[|s| - 1]);
    StripUnchanged(s);
  }

  /** A minus sign followed by digits parses to the negated value. */
  lemma ParseNegative(s: string)
    requires IsDigits(s)
    ensures ParseInt("-" + s) == Some(-(DigitsValue(s) as int))
  {
    StripSignedDigits(s);
    NegatedDigits(s);
  }

  lemma NegatedDigits(s: string)
    requires IsDigits(s)
    ensures ParseSigned("-" + s) == Some(-(DigitsValue(s) as int))
  {
    assert ("-" + s)[1..] == s;
  }

  lemma StripSignedDigits(s: string)
    requires IsDigits(s)
    ensures Strip("-" + s) == "-" + s
  {
    var t := "-" + s;
    assert t[|t| - 1] == s[|s| - 1];
    assert !IsSpace(t[0]) && !IsSpace(t[|t| - 1]);
    StripUnchanged(t);
  }

  /** `int(str(n)) == n`: the decimal text of a number parses back to that number. */
  lemma ParseIntToString(n: int)
    ensures ParseInt(IntToString(n)) == Some(n)
  {
    if n < 0 {
      ParseNegative(NatToString(-n));
    } else {
      ParseDigits(NatToString(n));
    }
  }

  /** `str(n)` begins with a sign or a digit and ends with a digit, so stripping it
      changes nothing. */
  lemma IntToStringStrips(n: int)
    ensures |IntToString(n)| > 0 && !IsSpace(IntToString(n)[0])
    ensures Strip(IntToString(n)) == IntToString(n)
  {
    var s := IntToString(n);
    if n < 0 {
      var d := NatToString(-n);
      assert s[|s| - 1] == d[|d| - 1] && IsDigit(d[|d| - 1]);
    } else {
      assert IsDigit(s[0]) && IsDigit(s[|s| - 1]);
    }
    StripUnchanged(s);
  }

  /** Distinct numbers have distinct decimal texts. */
  lemma IntToStringInjective(m: int, n: int)
    requires IntToString(m) == IntToString(n)
    ensures m == n
  {
    ParseIntToString(m);
    ParseIntToString(n);
  }

  lemma NoSignInDigits(s: string, c: char)
    requires AllDigits(s) && !IsDigit(c)
    ensures c !in s
  {
  }

  /** `str(n)` of a number never contains the separators the scripts split on. */
  lemma IntToStringHasNo(n: int, c: char)
    requires c == '.' || c == '_' || (c == '-' && n >= 0)
    ensures c !in IntToString(n)
  {
    if n < 0 {
      NoSignInDigits(NatToString(-n), c);
      assert IntToString(n) == "-" + NatToString(-n);
    } else {
      NoSignInDigits(NatToString(n), c);
    }
  }

  // ---------------------------------------------------------------- zero padding

  function Zeros(k: nat): (z: string)
    ensures |z| == k && AllDigits(z)
  {
    seq(k, _ => '0')
  }

  function PadLeft(s: string, width: nat): string
  {
    if |s| >= width then s else Zeros(width - |s|) + s
  }

  /** `f"{n:03d}"`: the decimal text of `n` zero-filled to width 3, with the sign
      counted in the width (`-5` becomes `-05`). */
  function Pad3(n: int): string
  {
    if n < 0 then "-" + PadLeft(NatToString(-n), 2) else PadLeft(NatToString(n), 3)
  }

  lemma {:induction false} ZerosValue(k: nat)
    ensures DigitsValue(Zeros(k)) == 0
  {
    if k > 0 {
      assert Zeros(k)[..k - 1] == Zeros(k - 1);
      ZerosValue(k - 1);
    }
  }

  /** Leading zeros do not change the value of a digit string. */
  lemma {:induction false} LeadingZerosValue(k: nat, s: string)
    requires AllDigits(s)
    ensures AllDigits(Zeros(k) + s) && DigitsValue(Zeros(k) + s) == DigitsValue(s)
  {
    var z := Zeros(k) + s;
    if s == [] {
      assert z == Zeros(k);
      ZerosValue(k);
    } else {
      assert z[..|z| - 1] == Zeros(k) + s[..|s| - 1];
      LeadingZerosValue(k, s[..|s| - 1]);
    }
  }

  lemma PadLeftValue(s: string, width: nat)
    requires IsDigits(s)
    ensures IsDigits(PadLeft(s, width)) && DigitsValue(PadLeft(s, width)) == DigitsValue(s)
    ensures |PadLeft(s, width)| == if |s| >= width then |s| else width
  {
    if |s| < width {
      LeadingZerosValue(width - |s|, s);
    }
  }

  /** `int(f"{n:03d}") == n`: the padded text still denotes the number. */
  lemma Pad3Parses(n: int)
    ensures ParseInt(Pad3(n)) == Some(n)
  {
    if n < 0 {
      PadLeftValue(NatToString(-n), 2);
      ParseNegative(PadLeft(NatToString(-n), 2));
    } else {
      PadLeftValue(NatToString(n), 3);
      ParseDigits(PadLeft(NatToString(n), 3));
    }
  }

  lemma {:induction false} NatToStringShort(n: nat)
    ensures n < 10 ==> |NatToString(n)| == 1
    ensures 10 <= n < 100 ==> |NatToString(n)| == 2
    ensures 100 <= n < 1000 ==> |NatToString(n)| == 3
  {
    if n >= 10 {
      NatToStringShort(n / 10);
    }
  }

  /** A chapter or verse number below 1000 is padded to exactly three digits. */
  lemma Pad3Width(n: int)
    requires 0 <= n < 1000
    ensures |Pad3(n)| == 3 && IsDigits(Pad3(n))
  {
    NatToStringShort(n);
    PadLeftValue(NatToString(n), 3);
  }

  /** Distinct numbers are padded to distinct texts. */
  lemma Pad3Injective(m: int, n: int)
    requires Pad3(m) == Pad3(n)
    ensures m == n
  {
    Pad3Parses(m);
    Pad3Parses(n);
  }

  // ---------------------------------------------------------------- split

  /** `s.split(sep)`: the pieces between occurrences of `sep`; there is always one more
      piece than there are separators, so never fewer than one. */
  function Split(s: string, sep: char): (parts: seq<string>)
    ensures |parts| >= 1
  {
    if s == [] then [""]
    else
      var rest := Split(s[1..], sep);
      if s[0] == sep then [""] + rest else [[s[0]] + rest[0]] + rest[1..]
  }

  /** `sep.join(parts)` */
  function Join(parts: seq<string>, sep: char): string
    requires |parts| >= 1
  {
    if |parts| == 1 then parts[0] else parts[0] + [sep] + Join(parts[1..], sep)
  }

  /** Splitting loses nothing: joining the pieces back with the separator gives the text,
      and no piece contains the separator. */
  lemma {:induction false} SplitJoin(s: string, sep: char)
    ensures Join(Split(s, sep), sep) == s
    ensures forall i :: 0 <= i < |Split(s, sep)| ==> sep !in Split(s, sep)[i]
  {
    if s != [] {
      var rest := Split(s[1..], sep);
      SplitJoin(s[1..], sep);
      if s[0] == sep {
        assert Split(s, sep)[1..] == rest;
        assert s == [sep] + s[1..];
      } else {
        var parts := Split(s, sep);
        assert parts[1..] == rest[1..];
        if |rest| == 1 {
          assert s == [s[0]] + rest[0];
        } else {
          assert Join(rest, sep) == rest[0] + [sep] + Join(rest[1..], sep);
          assert s == [s[0]] + s[1..];
        }
      }
    }
  }

  /** A text without the separator is one piece. */
  lemma {:induction false} SplitNoSep(s: string, sep: char)
    requires sep !in s
    ensures Split(s, sep) == [s]
  {
    if s != [] {
      SplitNoSep(s[1..], sep);
      assert [s[0]] + s[1..] == s;
    }
  }

  /** The first piece ends at the first separator; the remaining pieces are those of
      the text after it. */
  lemma {:induction false} SplitAtFirst(a: string, sep: char, t: string)
    requires sep !in a
    ensures Split(a + [sep] + t, sep) == [a] + Split(t, sep)
  {
    var s := a + [sep] + t;
    if a == [] {
      assert s[1..] == t;
    } else {
      assert s[1..] == a[1..] + [sep] + t;
      SplitAtFirst(a[1..], sep, t);
      assert [a[0]] + a[1..] == a;
    }
  }

  /** Two separator-free texts joined by the separator split back into the two. */
  lemma SplitPair(x: string, sep: char, y: string)
    requires sep !in x && sep !in y
    ensures Split(x + [sep] + y, sep) == [x, y]
  {
    SplitAtFirst(x, sep, y);
    SplitNoSep(y, sep);
  }

  /** Two texts that agree up to a first separator, absent before it, agree on the head
      and on the rest. */
  lemma SeparatedEqual(a1: string, t1: string, a2: string, t2: string, sep: char)
    requires sep !in a1 && sep !in a2
    requires a1 + [sep] + t1 == a2 + [sep] + t2
    ensures a1 == a2 && t1 == t2
  {
    SplitAtFirst(a1, sep, t1);
    SplitAtFirst(a2, sep, t2);
    assert a1 == Split(a1 + [sep] + t1, sep)[0];
    var s := a1 + [sep] + t1;
    assert t1 == s[|a1| + 1..];
    assert t2 == (a2 + [sep] + t2)[|a2| + 1..];
  }

  /** `s.split(sep, 1)[1]` on a text that contains `sep`: what follows its first
      occurrence. */
  function AfterFirst(s: string, sep: char): (r: string)
    requires sep in s
    ensures exists a :: sep !in a && s == a + [sep] + r
  {
    if s[0] == sep then
      assert s == [] + [sep] + s[1..];
      s[1..]
    else
      var r := AfterFirst(s[1..], sep);
      var a :| sep !in a && s[1..] == a + [sep] + r;
      assert s == ([s[0]] + a) + [sep] + r;
      r
  }

  // ---------------------------------------------------------------- other str methods

  function LowerChar(c: char): char
  {
    if 'A' <= c <= 'Z' then (c as int - 'A' as int + 'a' as int) as char else c
  }

  /** `s.lower()` for ASCII letters. */
  function Lower(s: string): (r: string)
    ensures |r| == |s|
  {
    seq(|s|, i requires 0 <= i < |s| => LowerChar(s[i]))
  }

  /** `s.startswith(p)` */
  predicate StartsWith(s: string, p: string)
  {
    |p| <= |s| && s[..|p|] == p
  }

  /** `s.endswith(q)` */
  predicate EndsWith(s: string, q: string)
  {
    |q| <= |s| && s[|s| - |q|..] == q
  }
}
