/** Base-10 text of integers: `strconv.FormatUint`, `fmt`'s `%d`, Python's
    `str(int)`, and the parsers that read amounts back from strings:
    `sdk.NewIntFromString`, which is `math/big`'s base-0 `SetString` (base
    prefixes, a leading-zero octal form and digit-separating underscores),
    and the decimal-only `strconv.ParseInt(s, 10, 64)`. */
module Decimal {
  import opened Wrappers
  import opened Arith

  predicate IsDigit(c: char) {
    '0' <= c <= '9'
  }

  predicate AllDigits(s: string) {
    forall i :: 0 <= i < |s| ==> IsDigit(s[i])
  }

  function DigitChar(d: nat): (c: char)
    requires d < 10
    ensures IsDigit(c)
  {
    ('0' as int + d) as char
  }

  function DigitValue(c: char): (d: nat)
    requires IsDigit(c)
    ensures d < 10 && DigitChar(d) == c
  {
    c as int - '0' as int
  }

  /** The shortest decimal text of `n`: no sign, no leading zero. */
  function NatToDecimal(n: nat): (s: string)
    ensures |s| > 0 && AllDigits(s)
    ensures |s| > 1 ==> s[0] != '0'
  {
    if n < 10 then [DigitChar(n)] else NatToDecimal(n / 10) + [DigitChar(n % 10)]
  }

  /** The value of a string of decimal digits, most significant first. */
  function DecimalValue(s: string): nat
    requires AllDigits(s)
  {
    if |s| == 0 then 0 else DecimalValue(s[..|s| - 1]) * 10 + DigitValue(s[|s| - 1])
  }

  lemma {:induction false} DecimalRoundTrip(n: nat)
    ensures DecimalValue(NatToDecimal(n)) == n
  {
    if n >= 10 {
      var s := NatToDecimal(n);
      assert s[..|s| - 1] == NatToDecimal(n / 10);
      DecimalRoundTrip(n / 10);
    }
  }

  /** Different numbers have different decimal texts. */
  lemma NatToDecimalInjective(a: nat, b: nat)
    requires NatToDecimal(a) == NatToDecimal(b)
    ensures a == b
  {
    DecimalRoundTrip(a);
    DecimalRoundTrip(b);
  }

  /** Signed decimal text: a leading '-' for negative values. */
  function IntToDecimal(i: int): (s: string)
    ensures i >= 0 ==> s == NatToDecimal(i)
    ensures i < 0 ==> s == "-" + NatToDecimal(-i)
  {
    if i >= 0 then NatToDecimal(i) else "-" + NatToDecimal(-i)
  }

  /** `sdk.Int` rejects values whose magnitude needs more than 256 bits: the
      bound is 2^256. */
  const IntBound: nat := 0x1_0000_0000_0000_0000_0000_0000_0000_0000_0000_0000_0000_0000_0000_0000_0000_0000

  /** The values an `sdk.Int` can hold. */
  predicate FitsInt(i: int) {
    -(IntBound as int) < i < IntBound
  }

  /** `sdk.Int.Add`: the sum, or `None` where Go panics ("Int overflow")
      because the sum's magnitude needs more than 256 bits. */
  function AddInt(a: int, b: int): Option<int> {
    if FitsInt(a + b) then Some(a + b) else None
  }

  /** Starting from `acc`, every running total `acc + xs[0] + ... + xs[k]`
      fits in an `sdk.Int`: a loop adding `xs` in order never panics. */
  predicate SumsFit(acc: int, xs: seq<int>)
    decreases |xs|
  {
    |xs| == 0 || (FitsInt(acc + xs[0]) && SumsFit(acc + xs[0], xs[1..]))
  }

  lemma SumsFitCons(acc: int, x: int, xs: seq<int>)
    ensures SumsFit(acc, [x] + xs) <==> FitsInt(acc + x) && SumsFit(acc + x, xs)
  {
    assert ([x] + xs)[1..] == xs;
  }

  /** The value `math/big` gives a digit character: '0'-'9', then 'a'-'z'
      and 'A'-'Z' from 10 on; any other character is no digit (36). */
  function BigDigit(c: char): (d: nat)
    ensures IsDigit(c) ==> d == DigitValue(c)
    ensures d <= 36 && (d < 10 <==> IsDigit(c))
  {
    if '0' <= c <= '9' then c as int - '0' as int
    else if 'a' <= c <= 'z' then c as int - 'a' as int + 10
    else if 'A' <= c <= 'Z' then c as int - 'A' as int + 10
    else 36
  }

  /** Every character of `d` is an underscore or a digit below base `b`. */
  predicate DigitsBelow(d: string, b: nat) {
    forall i :: 0 <= i < |d| ==> d[i] == '_' || BigDigit(d[i]) < b
  }

  /** Underscores stand only between two digits, or between a base prefix
      and a digit when `afterPrefix`: never first otherwise, never two in a
      row, never last. */
  predicate WellSeparated(d: string, afterPrefix: bool) {
    && (|d| > 0 && d[0] == '_' ==> afterPrefix)
    && (|d| > 0 ==> d[|d| - 1] != '_')
    && forall j, i :: 0 < j < |d| && 0 <= i < j && i == j - 1 ==> d[i] != '_' || d[j] != '_'
  }

  /** The value `v` becomes when digit `digit` is written after it in base `b`. */
  function AppendDigit(v: nat, b: nat, digit: nat): nat {
    v * b + digit
  }

  /** The value of the digits of `d` in base `b`, most significant first,
      skipping underscores. */
  function BaseValue(d: string, b: nat): nat
    requires DigitsBelow(d, b)
  {
    if |d| == 0 then 0
    else
      var init := d[..|d| - 1];
      assert forall k :: 0 <= k < |init| ==> init[k] == d[k];
      if d[|d| - 1] == '_' then BaseValue(init, b)
      else AppendDigit(BaseValue(init, b), b, BigDigit(d[|d| - 1]))
  }

  /** Scans a run of base-`b` digits from the right: digits with single
      underscores between them, starting and ending with a digit. The value
      is read as it is scanned. */
  function ScanRun(d: string, b: nat): Option<nat>
    decreases |d|
  {
    if |d| == 0 then None
    else
      var c := d[|d| - 1];
      if c == '_' || BigDigit(c) >= b then None
      else if |d| == 1 then Some(BigDigit(c))
      else
        var init := d[..|d| - 1];
        var head := if init[|init| - 1] == '_' then init[..|init| - 1] else init;
        match ScanRun(head, b)
        case None => None
        case Some(v) => Some(AppendDigit(v, b, BigDigit(c)))
  }

  /** The digit run after any prefix; right after a base prefix one
      underscore may come first. */
  function ScanDigits(d: string, b: nat, afterPrefix: bool): (r: Option<nat>)
  {
    if afterPrefix && |d| > 0 && d[0] == '_' then ScanRun(d[1..], b) else ScanRun(d, b)
  }

  /** Dropping a trailing underscore leaves the base value unchanged; the
      last digit adds itself to `b` times the rest. */
  lemma BaseValueLast(d: string, b: nat)
    requires |d| > 0 && DigitsBelow(d, b)
    ensures DigitsBelow(d[..|d| - 1], b)
    ensures d[|d| - 1] == '_' ==> BaseValue(d, b) == BaseValue(d[..|d| - 1], b)
    ensures d[|d| - 1] != '_' ==> BaseValue(d, b) == BaseValue(d[..|d| - 1], b) * b + BigDigit(d[|d| - 1])
  {
    assert forall k :: 0 <= k < |d| - 1 ==> d[..|d| - 1][k] == d[k];
  }

  /** A leading underscore does not change the base value. */
  lemma {:induction false} BaseValueLeadingUnderscore(e: string, b: nat)
    requires DigitsBelow(e, b)
    ensures DigitsBelow("_" + e, b) && BaseValue("_" + e, b) == BaseValue(e, b)
    decreases |e|
  {
    var d := "_" + e;
    assert forall k :: 0 < k < |d| ==> d[k] == e[k - 1];
    if |e| > 0 {
      BaseValueLast(e, b);
      BaseValueLeadingUnderscore(e[..|e| - 1], b);
      assert d[..|d| - 1] == "_" + e[..|e| - 1];
      BaseValueLast(d, b);
    } else {
      assert d[..|d| - 1] == "";
    }
  }

  /** A digit run ending in "_c": well formed exactly when the text before
      the underscore is, and worth that text's value times `b` plus `c`. */
  lemma RunAfterUnderscore(d: string, b: nat)
    requires |d| > 1 && d[|d| - 1] != '_' && BigDigit(d[|d| - 1]) < b && d[|d| - 2] == '_'
    ensures var head := d[..|d| - 2];
      (DigitsBelow(d, b) && WellSeparated(d, false) <==>
         |head| > 0 && DigitsBelow(head, b) && WellSeparated(head, false))
      && (DigitsBelow(head, b) ==>
            DigitsBelow(d, b) && BaseValue(d, b) == BaseValue(head, b) * b + BigDigit(d[|d| - 1]))
  {
    var init := d[..|d| - 1];
    var head := d[..|d| - 2];
    assert forall k :: 0 <= k < |head| ==> head[k] == d[k];
    assert init[..|init| - 1] == head;
    if DigitsBelow(head, b) {
      assert DigitsBelow(d, b) by {
        forall k | 0 <= k < |d| ensures d[k] == '_' || BigDigit(d[k]) < b {
          if k < |head| { assert d[k] == head[k]; }
        }
      }
      BaseValueLast(d, b);
      BaseValueLast(init, b);
    }
    if |head| > 0 && DigitsBelow(head, b) && WellSeparated(head, false) {
      assert WellSeparated(d, false) by {
        forall j, i | 0 < j < |d| && 0 <= i < j && i == j - 1 ensures d[i] != '_' || d[j] != '_' {
          if j < |head| { assert d[i] == head[i] && d[j] == head[j]; }
          else if j == |head| { assert d[i] == head[|head| - 1]; }
        }
      }
    }
    if DigitsBelow(d, b) && WellSeparated(d, false) {
      assert |head| > 0;
      assert DigitsBelow(head, b);
      assert WellSeparated(head, false) by {
        assert head[|head| - 1] == d[|head| - 1];
        forall j, i | 0 < j < |head| && 0 <= i < j && i == j - 1 ensures head[i] != '_' || head[j] != '_' {
          assert head[i] == d[i] && head[j] == d[j];
        }
      }
    }
  }

  /** A digit run ending in two digits: well formed exactly when the text
      before the last digit is, and worth its value times `b` plus the last. */
  lemma RunAfterDigit(d: string, b: nat)
    requires |d| > 1 && d[|d| - 1] != '_' && BigDigit(d[|d| - 1]) < b && d[|d| - 2] != '_'
    ensures var init := d[..|d| - 1];
      (DigitsBelow(d, b) && WellSeparated(d, false) <==> DigitsBelow(init, b) && WellSeparated(init, false))
      && (DigitsBelow(init, b) ==>
            DigitsBelow(d, b) && BaseValue(d, b) == BaseValue(init, b) * b + BigDigit(d[|d| - 1]))
  {
    var init := d[..|d| - 1];
    assert forall k :: 0 <= k < |init| ==> init[k] == d[k];
    if DigitsBelow(init, b) {
      assert DigitsBelow(d, b) by {
        forall k | 0 <= k < |d| ensures d[k] == '_' || BigDigit(d[k]) < b {
          if k < |init| { assert d[k] == init[k]; }
        }
      }
      BaseValueLast(d, b);
    }
    if DigitsBelow(init, b) && WellSeparated(init, false) {
      assert WellSeparated(d, false) by {
        forall j, i | 0 < j < |d| && 0 <= i < j && i == j - 1 ensures d[i] != '_' || d[j] != '_' {
          if j < |init| { assert d[i] == init[i] && d[j] == init[j]; }
        }
      }
    }
    if DigitsBelow(d, b) && WellSeparated(d, false) {
      assert WellSeparated(init, false) by {
        forall j, i | 0 < j < |init| && 0 <= i < j && i == j - 1 ensures init[i] != '_' || init[j] != '_' {
          assert init[i] == d[i] && init[j] == d[j];
        }
      }
    }
  }

  /** The scanner accepts exactly the strings of the grammar: at least one
      character, every one a digit of the base or a well-placed underscore,
      none in front; and it reads their base value. */
  lemma {:induction false} ScanRunSpec(d: string, b: nat)
    ensures ScanRun(d, b).Some? <==> |d| > 0 && DigitsBelow(d, b) && WellSeparated(d, false)
    ensures ScanRun(d, b).Some? ==> ScanRun(d, b).value == BaseValue(d, b)
    decreases |d|
  {
    if |d| > 1 {
      var c := d[|d| - 1];
      var init := d[..|d| - 1];
      if c != '_' && BigDigit(c) < b {
        if d[|d| - 2] == '_' {
          var head := d[..|d| - 2];
          assert init[|init| - 1] == '_' && init[..|init| - 1] == head;
          RunAfterUnderscore(d, b);
          ScanRunSpec(head, b);
        } else {
          assert init[|init| - 1] != '_';
          RunAfterDigit(d, b);
          ScanRunSpec(init, b);
        }
      }
    } else if |d| == 1 {
      assert d[..0] == "";
    }
  }

  /** A run behind one leading underscore: well formed after a prefix
      exactly when the rest is a well-formed run, and worth the same. */
  lemma RunAfterLeadingUnderscore(d: string, b: nat)
    requires |d| > 0 && d[0] == '_'
    ensures var e := d[1..];
      (DigitsBelow(d, b) && WellSeparated(d, true) <==>
         |e| > 0 && DigitsBelow(e, b) && WellSeparated(e, false))
      && (DigitsBelow(e, b) ==> DigitsBelow(d, b) && BaseValue(d, b) == BaseValue(e, b))
  {
    var e := d[1..];
    assert d == "_" + e;
    assert forall k :: 0 < k < |d| ==> d[k] == e[k - 1];
    if DigitsBelow(e, b) {
      BaseValueLeadingUnderscore(e, b);
    }
    if |e| > 0 && DigitsBelow(e, b) && WellSeparated(e, false) {
      assert WellSeparated(d, true) by {
        forall j, i | 0 < j < |d| && 0 <= i < j && i == j - 1 ensures d[i] != '_' || d[j] != '_' {
          if i > 0 { assert d[i] == e[i - 1] && d[j] == e[j - 1]; } else { assert d[j] == e[0]; }
        }
      }
    }
    if DigitsBelow(d, b) && WellSeparated(d, true) {
      assert |e| > 0;
      assert DigitsBelow(e, b);
      assert WellSeparated(e, false) by {
        assert e[0] == d[1];
        forall j, i | 0 < j < |e| && 0 <= i < j && i == j - 1 ensures e[i] != '_' || e[j] != '_' {
          assert e[i] == d[i + 1] && e[j] == d[j + 1];
        }
      }
    }
  }

  /** `ScanDigits` accepts exactly the well-formed digit runs, with a leading
      underscore allowed only after a prefix, and reads their base value. */
  lemma ScanDigitsSpec(d: string, b: nat, afterPrefix: bool)
    ensures ScanDigits(d, b, afterPrefix).Some? <==>
      |d| > 0 && DigitsBelow(d, b) && WellSeparated(d, afterPrefix)
    ensures ScanDigits(d, b, afterPrefix).Some? ==> ScanDigits(d, b, afterPrefix).value == BaseValue(d, b)
  {
    if afterPrefix && |d| > 0 && d[0] == '_' {
      ScanRunSpec(d[1..], b);
      RunAfterLeadingUnderscore(d, b);
    } else {
      ScanRunSpec(d, b);
    }
  }

  /** The base a '0' followed by `c` selects, and whether `c` is itself part
      of the prefix: "0b", "0o" and "0x" in either case, otherwise the lone
      '0' marks octal. */
  function PrefixBase(c: char): (r: (nat, bool))
    ensures r.1 <==> c == 'b' || c == 'B' || c == 'o' || c == 'O' || c == 'x' || c == 'X'
    ensures r.0 == (if c == 'b' || c == 'B' then 2 else if c == 'x' || c == 'X' then 16 else 8)
  {
    if c == 'b' || c == 'B' then (2, true)
    else if c == 'o' || c == 'O' then (8, true)
    else if c == 'x' || c == 'X' then (16, true)
    else (8, false)
  }

  /** The magnitude `big.Int.SetString(t, 0)` reads from unsigned text `t`;
      a base prefix selects the base, otherwise the text is decimal. */
  function ScanMagnitude(t: string): (r: Option<nat>)
  {
    if |t| > 1 && t[0] == '0' then
      var (b, letter) := PrefixBase(t[1]);
      ScanDigits(if letter then t[2..] else t[1..], b, true)
    else ScanDigits(t, 10, false)
  }

  /** `sdk.NewIntFromString`: `big.Int.SetString(s, 0)` (an optional sign,
      then a magnitude as `ScanMagnitude` reads it), refused when the
      magnitude needs more than 256 bits. */
  function ParseInt(s: string): (r: Option<int>)
    ensures r.Some? ==> -(IntBound as int) < r.value < IntBound
  {
    var neg := |s| > 0 && s[0] == '-';
    var body := if |s| > 0 && (s[0] == '-' || s[0] == '+') then s[1..] else s;
    match ScanMagnitude(body)
    case None => None
    case Some(m) => if m >= IntBound then None else Some(if neg then -(m as int) else m as int)
  }

  /** On plain decimal digits the base-`b` value is the decimal value. */
  lemma {:induction false} DecimalBaseValue(s: string)
    requires AllDigits(s)
    ensures DigitsBelow(s, 10) && BaseValue(s, 10) == DecimalValue(s)
  {
    if |s| > 0 {
      DecimalBaseValue(s[..|s| - 1]);
    }
  }

  /** The shortest decimal text of `n` is read as decimal, whatever the
      leading-zero and prefix rules. */
  lemma ScanDecimal(n: nat)
    ensures ScanMagnitude(NatToDecimal(n)) == Some(n)
  {
    var t := NatToDecimal(n);
    DecimalBaseValue(t);
    DecimalRoundTrip(n);
    assert WellSeparated(t, false);
    ScanDigitsSpec(t, 10, false);
  }

  /** A lone leading '0' marks octal: "010" is eight. */
  lemma LeadingZeroIsOctal()
    ensures ParseInt("010") == Some(8)
  {
    assert "010"[1..] == "10" && "10"[..1] == "1";
    assert ScanRun("1", 8) == Some(1);
    assert ScanRun("10", 8) == Some(8);
    assert ScanMagnitude("010") == Some(8);
  }

  /** ... so a leading '0' before a digit of eight or nine is refused. */
  lemma LeadingZeroRefusesEight()
    ensures ParseInt("08") == None
  {
    assert "08"[1..] == "8";
    assert ScanRun("8", 8) == None;
  }

  /** "0x" selects hexadecimal, after the sign: "-0x10" is minus sixteen,
      and the prefix alone is refused. */
  lemma HexPrefix()
    ensures ParseInt("-0x10") == Some(-16)
    ensures ParseInt("0x") == None
  {
    assert "-0x10"[1..] == "0x10" && "0x10"[2..] == "10" && "10"[..1] == "1";
    assert ScanRun("1", 16) == Some(1);
    assert ScanRun("10", 16) == Some(16);
    assert ScanMagnitude("0x10") == Some(16);
    assert "0x"[2..] == "";
  }

  /** Underscores between digits are ignored: "1_000" is a thousand. */
  lemma UnderscoreBetweenDigits()
    ensures ParseInt("1_000") == Some(1000)
  {
    assert "1_000"[..4] == "1_00" && "1_00"[..3] == "1_0" && "1_0"[..2] == "1_" && "1_"[..1] == "1";
    assert ScanRun("1", 10) == Some(1);
    assert ScanRun("1_0", 10) == Some(10);
    assert ScanRun("1_00", 10) == Some(100);
    assert ScanRun("1_000", 10) == Some(1000);
  }

  /** Two underscores in a row, or one in front, make the text invalid. */
  lemma MisplacedUnderscores()
    ensures ParseInt("1__0") == None
    ensures ParseInt("_1") == None
  {
    assert "1__0"[..3] == "1__" && "1__"[..2] == "1_";
    assert ScanRun("1_", 10) == None;
    assert ScanRun("1__0", 10) == None;
    assert "_1"[..1] == "_" && "_"[..0] == "";
    assert ScanRun("_1", 10) == None;
  }

  /** Reading back the text of any in-range integer yields that integer. */
  lemma ParseIntRoundTrip(i: int)
    requires -(IntBound as int) < i < IntBound
    ensures ParseInt(IntToDecimal(i)) == Some(i)
  {
    var s := IntToDecimal(i);
    if i >= 0 {
      ScanDecimal(i);
    } else {
      assert s[1..] == NatToDecimal(-i);
      ScanDecimal(-i);
    }
  }

  /** An `int64` or `uint64` written out reads back as itself. */
  lemma Int64RoundTrip(i: int)
    requires -(TwoTo63 as int) <= i < TwoTo64
    ensures ParseInt(IntToDecimal(i)) == Some(i)
  {
    ParseIntRoundTrip(i);
  }

  /** `strconv.ParseInt(s, 10, 64)`: an optional sign, then one or more
      decimal digits, within the `int64` range. */
  function ParseInt64(s: string): (r: Option<int>)
    ensures r.Some? ==> -(TwoTo63 as int) <= r.value < TwoTo63
  {
    var neg := |s| > 0 && s[0] == '-';
    var body := if |s| > 0 && (s[0] == '-' || s[0] == '+') then s[1..] else s;
    if |body| == 0 || !AllDigits(body) then None
    else
      var m := DecimalValue(body);
      if neg then (if m > TwoTo63 then None else Some(-(m as int)))
      else if m >= TwoTo63 then None
      else Some(m as int)
  }

  /** Every `int64` written out reads back as itself, and nothing outside the
      range does. */
  lemma ParseInt64RoundTrip(i: int)
    ensures -(TwoTo63 as int) <= i < TwoTo63 <==> ParseInt64(IntToDecimal(i)) == Some(i)
  {
    var s := IntToDecimal(i);
    if i >= 0 {
      DecimalRoundTrip(i);
    } else {
      assert s[1..] == NatToDecimal(-i);
      DecimalRoundTrip(-i);
    }
  }

  /** No decimal text contains a separator character such as ':' or '-'. */
  lemma DecimalHasNo(n: nat, c: char)
    requires !IsDigit(c)
    ensures c !in NatToDecimal(n)
  {
    var s := NatToDecimal(n);
    assert forall i :: 0 <= i < |s| ==> s[i] != c;
  }

  /** `a + [sep] + x == b + [sep] + y` with `sep` in neither tail splits uniquely:
      the separator that matters is the last one. */
  lemma SplitAtLast(a: string, x: string, b: string, y: string, sep: char)
    requires sep !in x && sep !in y
    requires a + [sep] + x == b + [sep] + y
    ensures a == b && x == y
  {
    var k := a + [sep] + x;
    if |x| < |y| {
      SeparatorInLongerTail(a, x, b, y, sep);
      assert false;
    } else if |y| < |x| {
      SeparatorInLongerTail(b, y, a, x, sep);
      assert false;
    } else {
      assert a == k[..|a|];
      assert b == k[..|b|];
      assert x == k[|a| + 1..];
      assert y == k[|b| + 1..];
    }
  }

  /** `x + [sep] + a == y + [sep] + b` with `sep` in neither head splits uniquely:
      the separator that matters is the first one. */
  lemma SplitAtFirst(x: string, a: string, y: string, b: string, sep: char)
    requires sep !in x && sep !in y
    requires x + [sep] + a == y + [sep] + b
    ensures x == y && a == b
  {
    var k := x + [sep] + a;
    if |x| < |y| {
      SeparatorInLongerHead(x, a, y, b, sep);
      assert false;
    } else if |y| < |x| {
      SeparatorInLongerHead(y, b, x, a, sep);
      assert false;
    } else {
      assert x == k[..|x|];
      assert y == k[..|y|];
      assert a == k[|x| + 1..];
      assert b == k[|y| + 1..];
    }
  }

  lemma SeparatorInLongerTail(a: string, x: string, b: string, y: string, sep: char)
    requires a + [sep] + x == b + [sep] + y
    requires |x| < |y|
    ensures sep in y
  {
    var k := a + [sep] + x;
    var p := |k| - |x| - 1;
    assert k[p] == sep;
    assert k[p] == y[|y| - |x| - 1];
  }

  lemma SeparatorInLongerHead(x: string, a: string, y: string, b: string, sep: char)
    requires x + [sep] + a == y + [sep] + b
    requires |x| < |y|
    ensures sep in y
  {
    var k := x + [sep] + a;
    assert k[|x|] == sep;
    assert k[|x|] == y[|x|];
  }
}
