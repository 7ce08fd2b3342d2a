/**
 * format_duration, which the three Streamlit pages define identically: a number of seconds
 * shown as "M:SS" below one hour and "H:MM:SS" from one hour on.
 */
module Duration {
  import opened Wrappers
  import opened Arith
  import opened Text

  /** Python's float % for a positive integer modulus: the remainder has the modulus's sign. */
  function FloorMod(x: real, n: int): (r: real)
    requires n > 0
    ensures 0.0 <= r < n as real
  {
    var q := (x / n as real).Floor;
    DivFloorBounds(x, n);
    x - (q * n) as real
  }

  lemma DivFloorBounds(x: real, n: int)
    requires n > 0
    ensures var q := (x / n as real).Floor; (q * n) as real <= x < ((q + 1) * n) as real
  {
    var y := x / n as real;
    var q := y.Floor;
    assert y * n as real == x;
    assert (q as real) <= y < (q as real) + 1.0;
    MulMono(q as real, y, n as real);
    MulStrict(y, (q as real) + 1.0, n as real);
    assert (q * n) as real == (q as real) * (n as real);
    assert ((q + 1) * n) as real == ((q as real) + 1.0) * (n as real);
    assert (q as real) * (n as real) <= x;
    assert x < ((q as real) + 1.0) * (n as real);
  }

  /** The hour, minute and second fields format_duration computes. */
  function Hours(x: real): int { (x / 3600.0).Floor }

  function Minutes(x: real): int { (FloorMod(x, 3600) / 60.0).Floor }

  function Seconds(x: real): int { Trunc(FloorMod(x, 60)) }

  /** format_duration(seconds). */
  function FormatDuration(x: real): (r: string)
  {
    var h := Hours(x);
    var m := Minutes(x);
    var s := Seconds(x);
    if h > 0 then IntToString(h) + ":" + Pad2(m) + ":" + Pad2(s)
    else IntToString(m) + ":" + Pad2(s)
  }

  lemma FloorShift(x: real, k: int)
    ensures (x - k as real).Floor == x.Floor - k
  {
  }

  /**
   * The fields decompose the whole seconds: h*3600 + m*60 + s == floor(x), with minutes and
   * seconds in [0, 60).
   */
  lemma FieldsDecompose(x: real)
    ensures 0 <= Minutes(x) < 60 && 0 <= Seconds(x) < 60
    ensures Hours(x) * 3600 + Minutes(x) * 60 + Seconds(x) == x.Floor
  {
    var f := x.Floor;
    FloorDivByInt(x, 3600);
    FloorDivByInt(x, 60);
    var h := Hours(x);
    assert h == f / 3600;
    var r1 := FloorMod(x, 3600);
    assert r1 == x - (h * 3600) as real;
    FloorShift(x, h * 3600);
    assert r1.Floor == f % 3600;
    FloorDivByInt(r1, 60);
    assert Minutes(x) == (f % 3600) / 60;
    var q60 := (x / 60.0).Floor;
    assert q60 == f / 60;
    FloorShift(x, q60 * 60);
    assert Seconds(x) == f % 60;
    ModNest(f);
  }

  lemma ModNest(f: int)
    ensures (f / 3600) * 3600 + ((f % 3600) / 60) * 60 + f % 60 == f
  {
    var a := f / 3600;
    var b := f % 3600;
    var c := b / 60;
    var d := b % 60;
    assert f == a * 3600 + c * 60 + d;
    assert f == (a * 60 + c) * 60 + d;
    assert f % 60 == d;
  }

  lemma NoColon(n: int)
    ensures ':' !in IntToString(n) && ':' !in Pad2(n)
  {
    NatToStringDigits(if n < 0 then -n else n);
    if 0 <= n < 10 {
      NatToStringDigits(n);
    }
  }

  /** The three-field text splits back into its fields. */
  lemma LongTextSplits(h: int, m: int, s: int)
    ensures Split(IntToString(h) + ":" + Pad2(m) + ":" + Pad2(s), ':')
            == [IntToString(h), Pad2(m), Pad2(s)]
  {
    NoColon(h);
    NoColon(m);
    NoColon(s);
    var parts := [IntToString(h), Pad2(m), Pad2(s)];
    assert parts[1..] == [Pad2(m), Pad2(s)];
    assert parts[1..][1..] == [Pad2(s)];
    assert Join(parts[1..], ':') == Pad2(m) + ":" + Pad2(s);
    assert Join(parts, ':') == IntToString(h) + ":" + Pad2(m) + ":" + Pad2(s);
    SplitJoin(parts, ':');
  }

  /** The two-field text splits back into its fields. */
  lemma ShortTextSplits(m: int, s: int)
    ensures Split(IntToString(m) + ":" + Pad2(s), ':') == [IntToString(m), Pad2(s)]
  {
    NoColon(m);
    NoColon(s);
    var parts := [IntToString(m), Pad2(s)];
    assert parts[1..] == [Pad2(s)];
    assert Join(parts, ':') == IntToString(m) + ":" + Pad2(s);
    SplitJoin(parts, ':');
  }

  /**
   * The text reads back: split at ':', each field parses as an integer, minutes and seconds
   * take two characters, and the weighted sum is the whole number of seconds.
   */
  lemma FormatDurationReadsBack(x: real)
    requires x >= 0.0
    ensures var p := Split(FormatDuration(x), ':');
      (x >= 3600.0 ==>
        |p| == 3 && |p[1]| == 2 && |p[2]| == 2
        && ParseInt(p[0], 10) == Some(Hours(x)) && ParseInt(p[1], 10) == Some(Minutes(x))
        && ParseInt(p[2], 10) == Some(Seconds(x))
        && Hours(x) * 3600 + Minutes(x) * 60 + Seconds(x) == x.Floor)
      && (x < 3600.0 ==>
        |p| == 2 && |p[1]| == 2
        && ParseInt(p[0], 10) == Some(Minutes(x)) && ParseInt(p[1], 10) == Some(Seconds(x))
        && Minutes(x) * 60 + Seconds(x) == x.Floor)
  {
    FieldsDecompose(x);
    var h, m, s := Hours(x), Minutes(x), Seconds(x);
    HoursPositive(x);
    if x >= 3600.0 {
      assert FormatDuration(x) == IntToString(h) + ":" + Pad2(m) + ":" + Pad2(s);
      LongTextReads(h, m, s);
    } else {
      assert FormatDuration(x) == IntToString(m) + ":" + Pad2(s);
      ShortTextReads(m, s);
    }
  }

  lemma HoursPositive(x: real)
    requires x >= 0.0
    ensures Hours(x) >= 0
    ensures Hours(x) > 0 <==> x >= 3600.0
  {
    FloorDivByInt(x, 3600);
  }

  lemma LongTextReads(h: int, m: int, s: int)
    requires 0 <= m < 60 && 0 <= s < 60
    ensures var p := Split(IntToString(h) + ":" + Pad2(m) + ":" + Pad2(s), ':');
      |p| == 3 && |p[1]| == 2 && |p[2]| == 2 && ParseInt(p[0], 10) == Some(h)
      && ParseInt(p[1], 10) == Some(m) && ParseInt(p[2], 10) == Some(s)
  {
    LongTextSplits(h, m, s);
    Pad2Length(m);
    Pad2Length(s);
    Pad2Parses(m);
    Pad2Parses(s);
    IntToStringParses(h);
  }

  lemma ShortTextReads(m: int, s: int)
    requires 0 <= s < 60
    ensures var p := Split(IntToString(m) + ":" + Pad2(s), ':');
      |p| == 2 && |p[1]| == 2 && ParseInt(p[0], 10) == Some(m) && ParseInt(p[1], 10) == Some(s)
  {
    ShortTextSplits(m, s);
    Pad2Length(s);
    Pad2Parses(s);
    IntToStringParses(m);
  }

  /** The fields of a whole number of seconds are its quotient and remainders. */
  lemma WholeFields(n: nat)
    ensures Hours(n as real) == n / 3600 && Minutes(n as real) == (n % 3600) / 60
    ensures Seconds(n as real) == n % 60
  {
    FieldsDecompose(n as real);
    FloorDivByInt(n as real, 3600);
    assert Hours(n as real) == n / 3600;
    ModNest(n);
    var m := Minutes(n as real);
    var s := Seconds(n as real);
    assert (n / 3600) * 3600 + m * 60 + s == n;
    assert (n / 3600) * 3600 + ((n % 3600) / 60) * 60 + n % 60 == n;
    assert m * 60 + s == ((n % 3600) / 60) * 60 + n % 60;
  }

  /** The text of a whole number of seconds, in integer arithmetic. */
  lemma FormatWhole(n: nat)
    ensures FormatDuration(n as real)
         == if n >= 3600 then IntToString(n / 3600) + ":" + Pad2((n % 3600) / 60) + ":" + Pad2(n % 60)
            else IntToString((n % 3600) / 60) + ":" + Pad2(n % 60)
  {
    WholeFields(n);
  }

  /** 90 seconds show as "1:30", below an hour with unpadded minutes. */
  lemma ShortExample()
    ensures FormatDuration(90.0) == "1:30"
  {
    FormatWhole(90);
    assert IntToString(1) == "1";
    assert Pad2(30) == "30" by {
      assert NatToString(30) == NatToString(3) + [DigitChar(0)];
    }
  }

  /** 3661 seconds show as "1:01:01", from an hour with padded minutes and seconds. */
  lemma LongExample()
    ensures FormatDuration(3661.0) == "1:01:01"
  {
    FormatWhole(3661);
    assert 3661 / 3600 == 1 && (3661 % 3600) / 60 == 1 && 3661 % 60 == 1;
    assert IntToString(1) == "1";
    assert Pad2(1) == "01";
  }
}
