/**
 * The string operations of Python's standard library that the pipeline relies on:
 * int() and float() on text, str.strip, str.split, str.join, str.replace, ASCII case
 * mapping, slicing, and decimal formatting (str(n), f"{n:02d}").
 */
module Text {
  import opened Wrappers

  /** Value of an ASCII hexadecimal digit, or -1 for any other character. */
  function DigitValue(c: char): (v: int)
    ensures -1 <= v < 16
    ensures '0' <= c <= '9' ==> v == c as int - '0' as int
    ensures v == -1 <==> !('0' <= c <= '9' || 'a' <= c <= 'f' || 'A' <= c <= 'F')
  {
    if '0' <= c <= '9' then c as int - '0' as int
    else if 'a' <= c <= 'f' then c as int - 'a' as int + 10
    else if 'A' <= c <= 'F' then c as int - 'A' as int + 10
    else -1
  }

  predicate IsDigit(c: char, base: int)
  {
    0 <= DigitValue(c) < base
  }

  predicate AllDigits(s: string, base: int)
  {
    forall i :: 0 <= i < |s| ==> IsDigit(s[i], base)
  }

  /** The value of a string of digits read most-significant first. */
  function DigitsValue(s: string, base: nat): nat
    requires AllDigits(s, base)
  {
    if |s| == 0 then 0
    else DigitsValue(s[..|s| - 1], base) * base + DigitValue(s[|s| - 1])
  }

  /** The characters Python's str.strip() and int() treat as whitespace. */
  predicate IsSpace(c: char)
  {
    9 <= c as int <= 13 || 28 <= c as int <= 32 || c as int == 0x85 || c as int == 0xA0
    || c as int == 0x1680 || 0x2000 <= c as int <= 0x200A || c as int == 0x2028
    || c as int == 0x2029 || c as int == 0x202F || c as int == 0x205F || c as int == 0x3000
  }

  function TrimStart(s: string): (r: string)
    ensures |r| <= |s|
    ensures |r| > 0 ==> !IsSpace(r[0])
  {
    if |s| > 0 && IsSpace(s[0]) then TrimStart(s[1..]) else s
  }

  function TrimEnd(s: string): (r: string)
    ensures |r| <= |s|
    ensures |r| > 0 ==> !IsSpace(r[|r| - 1])
  {
    if |s| > 0 && IsSpace(s[|s| - 1]) then TrimEnd(s[..|s| - 1]) else s
  }

  /** str.strip() with no argument. */
  function Strip(s: string): string
  {
    TrimEnd(TrimStart(s))
  }

  /** An optional leading sign and the text after it. */
  function SignOf(t: string): (bool, string)
  {
    if |t| > 0 && (t[0] == '-' || t[0] == '+') then (t[0] == '-', t[1..]) else (false, t)
  }

  /**
   * int(s, base) for base 2..16: surrounding whitespace, an optional sign and at least one
   * digit. None stands for the ValueError Python raises.
   */
  function ParseInt(s: string, base: nat): Option<int>
  {
    var (neg, body) := SignOf(Strip(s));
    if |body| > 0 && AllDigits(body, base) then
      Some(if neg then -(DigitsValue(body, base) as int) else DigitsValue(body, base))
    else None
  }

  function Pow10(n: nat): (r: nat)
    ensures r >= 1
  {
    if n == 0 then 1 else 10 * Pow10(n - 1)
  }

  /** An unsigned decimal with an optional point: "12", "12.", ".5", "12.50". */
  function ParseDecimal(body: string): Option<real>
  {
    var parts := Split(body, '.');
    if |parts| == 1 && |body| > 0 && AllDigits(body, 10) then
      Some(DigitsValue(body, 10) as real)
    else if |parts| == 2 && |parts[0]| + |parts[1]| > 0
            && AllDigits(parts[0], 10) && AllDigits(parts[1], 10) then
      Some(DigitsValue(parts[0], 10) as real
           + (DigitsValue(parts[1], 10) as real) / (Pow10(|parts[1]|) as real))
    else None
  }

  /**
   * float(s) for decimal spellings: whitespace, sign, digits with an optional point and an
   * optional exponent. None stands for the ValueError Python raises.
   */
  function ParseFloat(s: string): Option<real>
  {
    var (neg, body) := SignOf(Strip(s));
    var pieces := Split(Replace(body, 'E', 'e'), 'e');
    var mantissa := ParseDecimal(pieces[0]);
    if mantissa.None? || |pieces| > 2 then None
    else
      var m := if neg then -mantissa.value else mantissa.value;
      if |pieces| == 1 then Some(m)
      else
        var (eneg, edigits) := SignOf(pieces[1]);
        if |edigits| == 0 || !AllDigits(edigits, 10) then None
        else
          var e := DigitsValue(edigits, 10);
          Some(if eneg then m / (Pow10(e) as real) else m * (Pow10(e) as real))
  }

  function DigitChar(d: int): char
    requires 0 <= d < 10
  {
    ('0' as int + d) as char
  }

  /** str(n) for n >= 0. */
  function NatToString(n: nat): string
  {
    if n < 10 then [DigitChar(n)] else NatToString(n / 10) + [DigitChar(n % 10)]
  }

  /** str(n). */
  function IntToString(n: int): string
  {
    if n < 0 then "-" + NatToString(-n) else NatToString(n)
  }

  /** f"{n:02d}": at least two characters, zero-padded after the sign. */
  function Pad2(n: int): string
  {
    if 0 <= n < 10 then "0" + NatToString(n) else IntToString(n)
  }

  /** str.split(sep) with an explicit one-character separator. */
  function Split(s: string, sep: char): (parts: seq<string>)
    ensures |parts| >= 1
    ensures forall i :: 0 <= i < |parts| ==> sep !in parts[i]
    ensures Join(parts, sep) == s
  {
    if |s| == 0 then [""]
    else if s[0] == sep then [""] + Split(s[1..], sep)
    else
      var rest := Split(s[1..], sep);
      [[s[0]] + rest[0]] + rest[1..]
  }

  /** sep.join(parts). */
  function Join(parts: seq<string>, sep: char): string
  {
    if |parts| == 0 then ""
    else if |parts| == 1 then parts[0]
    else parts[0] + [sep] + Join(parts[1..], sep)
  }

  /** str.replace(old, new) for single characters. */
  function Replace(s: string, from: char, to: char): (r: string)
    ensures |r| == |s|
    ensures forall i :: 0 <= i < |s| ==> r[i] == (if s[i] == from then to else s[i])
  {
    if |s| == 0 then "" else [if s[0] == from then to else s[0]] + Replace(s[1..], from, to)
  }

  function LowerChar(c: char): char
  {
    if 'A' <= c <= 'Z' then (c as int + 32) as char else c
  }

  /** str.lower() on ASCII letters. */
  function Lower(s: string): (r: string)
    ensures |r| == |s|
    ensures forall i :: 0 <= i < |s| ==> r[i] == LowerChar(s[i])
  {
    if |s| == 0 then "" else [LowerChar(s[0])] + Lower(s[1..])
  }

  /** s[i:j] for non-negative bounds: both clamp to the length, an inverted range is empty. */
  function PySlice(s: string, i: nat, j: nat): (r: string)
    ensures |r| <= |s|
    ensures i <= j <= |s| ==> r == s[i..j]
  {
    var a := if i <= |s| then i else |s|;
    var b := if j <= |s| then j else |s|;
    if a <= b then s[a..b] else ""
  }

  // ----- lemmas -------------------------------------------------------------------------

  lemma {:induction false} NatToStringDigits(n: nat)
    ensures |NatToString(n)| >= 1
    ensures AllDigits(NatToString(n), 10)
    ensures DigitsValue(NatToString(n), 10) == n
    decreases n
  {
    var s := NatToString(n);
    if n >= 10 {
      NatToStringDigits(n / 10);
      var p := NatToString(n / 10);
      assert s == p + [DigitChar(n % 10)];
      assert s[..|s| - 1] == p;
    }
  }

  lemma NoSpaceEnds(s: string)
    requires |s| > 0 && !IsSpace(s[0]) && !IsSpace(s[|s| - 1])
    ensures Strip(s) == s
  {
  }

  /** Distinct integers have distinct decimal texts. */
  lemma IntToStringInjective(a: int, b: int)
    ensures IntToString(a) == IntToString(b) <==> a == b
  {
    IntToStringParses(a);
    IntToStringParses(b);
  }

  /** int(str(n)) == n: the decimal text of an integer parses back to it. */
  lemma IntToStringParses(n: int)
    ensures ParseInt(IntToString(n), 10) == Some(n)
  {
    var m := if n < 0 then -n else n;
    NatToStringDigits(m);
    var d := NatToString(m);
    assert !IsSpace(d[|d| - 1]) by { assert IsDigit(d[|d| - 1], 10); }
    assert !IsSpace(d[0]) by { assert IsDigit(d[0], 10); }
    var t := IntToString(n);
    NoSpaceEnds(t);
    if n >= 0 {
      assert t == d;
      assert SignOf(t) == (false, d) by { assert IsDigit(d[0], 10); }
    } else {
      assert t[1..] == d;
    }
  }

  lemma {:induction false} LeadingZero(s: string)
    requires AllDigits(s, 10)
    ensures AllDigits("0" + s, 10)
    ensures DigitsValue("0" + s, 10) == DigitsValue(s, 10)
    decreases |s|
  {
    var z := "0" + s;
    if |s| > 0 {
      LeadingZero(s[..|s| - 1]);
      assert z[..|z| - 1] == "0" + s[..|s| - 1];
    }
  }

  /** int(f"{n:02d}") == n. */
  lemma Pad2Parses(n: int)
    ensures ParseInt(Pad2(n), 10) == Some(n)
  {
    if 0 <= n < 10 {
      NatToStringDigits(n);
      var d := NatToString(n);
      LeadingZero(d);
      var t := "0" + d;
      assert DigitsValue(t, 10) == n;
      NoSpaceEnds(t);
      assert SignOf(t) == (false, t);
    } else {
      IntToStringParses(n);
    }
  }

  lemma Pad2Length(n: int)
    requires 0 <= n < 100
    ensures |Pad2(n)| == 2
  {
    if n >= 10 {
      assert NatToString(n) == NatToString(n / 10) + [DigitChar(n % 10)];
    }
  }

  /** Splitting the join of separator-free pieces gives back the pieces. */
  lemma {:induction false} SplitJoin(parts: seq<string>, sep: char)
    requires |parts| >= 1
    requires forall i :: 0 <= i < |parts| ==> sep !in parts[i]
    ensures Split(Join(parts, sep), sep) == parts
    decreases |parts|, |parts[0]|
  {
    var s := Join(parts, sep);
    if |parts[0]| > 0 {
      var tail := [parts[0][1..]] + parts[1..];
      assert forall i :: 0 <= i < |tail| ==> sep !in tail[i] by {
        forall i | 0 <= i < |tail| ensures sep !in tail[i] {
          if i == 0 {
            assert forall c :: c in parts[0][1..] ==> c in parts[0];
          } else {
            assert tail[i] == parts[i];
          }
        }
      }
      SplitJoin(tail, sep);
      JoinCons(parts, sep);
      assert s == [parts[0][0]] + Join(tail, sep);
      assert s[0] == parts[0][0] && s[0] != sep;
      assert s[1..] == Join(tail, sep);
      assert Split(s, sep) == [[s[0]] + tail[0]] + tail[1..];
      assert [s[0]] + tail[0] == parts[0];
      assert tail[1..] == parts[1..];
      assert [parts[0]] + parts[1..] == parts;
    } else if |parts| == 1 {
      assert s == "";
    } else {
      assert s == [sep] + Join(parts[1..], sep);
      assert s[1..] == Join(parts[1..], sep);
      SplitJoin(parts[1..], sep);
    }
  }

  lemma JoinCons(parts: seq<string>, sep: char)
    requires |parts| >= 1 && |parts[0]| > 0
    ensures Join(parts, sep) == [parts[0][0]] + Join([parts[0][1..]] + parts[1..], sep)
  {
    var tail := [parts[0][1..]] + parts[1..];
    assert tail[1..] == parts[1..];
    if |parts| == 1 {
    } else {
      assert parts[0] == [parts[0][0]] + parts[0][1..];
    }
  }

  /** f"{n:02d}" of a non-negative n is a non-empty string of decimal digits. */
  lemma Pad2Digits(n: nat)
    ensures |Pad2(n)| >= 1 && AllDigits(Pad2(n), 10)
  {
    NatToStringDigits(n);
    if n < 10 {
      LeadingZero(NatToString(n));
    }
  }

  lemma ReplaceConcat(a: string, b: string, from: char, to: char)
    ensures Replace(a + b, from, to) == Replace(a, from, to) + Replace(b, from, to)
  {
    var l := Replace(a + b, from, to);
    var r := Replace(a, from, to) + Replace(b, from, to);
    assert forall i :: 0 <= i < |l| ==> l[i] == r[i] by {
      forall i | 0 <= i < |l| ensures l[i] == r[i] {
        if i < |a| {
          assert (a + b)[i] == a[i];
        } else {
          assert (a + b)[i] == b[i - |a|];
        }
      }
    }
  }

  /** Replacing a character by another leaves none of it. */
  lemma ReplaceRemoves(s: string, from: char, to: char)
    requires from != to
    ensures from !in Replace(s, from, to)
  {
    var r := Replace(s, from, to);
    assert forall i :: 0 <= i < |r| ==> r[i] != from;
  }

  lemma ReplaceAbsent(s: string, from: char, to: char)
    requires from !in s
    ensures Replace(s, from, to) == s
  {
    var r := Replace(s, from, to);
    assert forall i :: 0 <= i < |s| ==> r[i] == s[i] by {
      forall i | 0 <= i < |s| ensures r[i] == s[i] {
        assert s[i] in s;
      }
    }
  }
}
