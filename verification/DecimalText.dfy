/** Decimal text of integers: the printers and readers of `hiredis/read.c`,
    `hiredis/sds.c`, `hiredis/hiredis.c` and `hiredis-vip/hiutil.c`, all proved against
    one pair of functions, `IntText` and `Value`. */
module DecimalText {
  import opened Bytes
  import opened Powers

  // ---------- the reference ----------

  /** Canonical decimal text: no leading zero. */
  function Digits(n: nat): (s: Text)
    ensures |s| >= 1 && AllDigits(s)
    ensures s[0] == ZERO <==> n == 0
    ensures n < 10 <==> |s| == 1
  {
    if n < 10 then [ZERO + n] else Digits(n / 10) + [ZERO + n % 10]
  }

  /** The number a run of decimal digits stands for. */
  function Value(s: Text): nat
    requires AllDigits(s)
  {
    if s == [] then 0 else Value(s[..|s| - 1]) * 10 + (s[|s| - 1] - ZERO)
  }

  function IntText(v: int): Text {
    if v < 0 then [MINUS] + Digits(-v) else Digits(v)
  }

  predicate Int64(v: int) { -TWO63 <= v < TWO63 }

  lemma {:induction false} ValueOfDigits(n: nat)
    ensures Value(Digits(n)) == n
  {
    if n >= 10 {
      ValueOfDigits(n / 10);
      assert Digits(n)[..|Digits(n)| - 1] == Digits(n / 10);
    }
  }

  /** A digit run without a leading zero is the canonical text of its value. */
  lemma {:induction false} DigitsOfValue(s: Text)
    requires s != [] && AllDigits(s) && (s[0] != ZERO || |s| == 1)
    ensures Digits(Value(s)) == s
  {
    var init, last := s[..|s| - 1], s[|s| - 1] - ZERO;
    if init == [] {
      assert s == [s[0]];
      assert Value(init) == 0;
    } else {
      DigitsOfValue(init);
      assert Value(init) != 0;
      assert Value(s) / 10 == Value(init) && Value(s) % 10 == last;
      assert s == init + [s[|s| - 1]];
    }
  }

  lemma {:induction false} ValueMonotone(s: Text, k: nat)
    requires k <= |s| && AllDigits(s)
    ensures Value(s[..k]) <= Value(s)
  {
    if k < |s| {
      ValueMonotone(s[..|s| - 1], k);
      assert s[..|s| - 1][..k] == s[..k];
    } else {
      assert s[..k] == s;
    }
  }

  lemma ValueSnoc(s: Text, k: nat)
    requires k < |s| && AllDigits(s[..k + 1])
    ensures AllDigits(s[..k])
    ensures Value(s[..k + 1]) == Value(s[..k]) * 10 + (s[k] - ZERO)
  {
    assert s[..k + 1][..k] == s[..k];
    assert forall i :: 0 <= i < k ==> s[..k][i] == s[..k + 1][i];
  }

  /** Distinct integers have distinct texts. */
  lemma IntTextInjective(u: int, v: int)
    requires IntText(u) == IntText(v)
    ensures u == v
  {
    ValueOfDigits(if u < 0 then -u else u);
    ValueOfDigits(if v < 0 then -v else v);
    assert u < 0 <==> IntText(u)[0] == MINUS;
    assert v < 0 <==> IntText(v)[0] == MINUS;
    if u < 0 {
      assert IntText(u)[1..] == Digits(-u) && IntText(v)[1..] == Digits(-v);
    }
  }

  /** The text with a leading minus sign taken off. */
  function Magnitude(s: Text): Text {
    if s != [] && s[0] == MINUS then s[1..] else s
  }

  predicate Canonical(s: Text) {
    var digits := Magnitude(s);
    digits != [] && AllDigits(digits) && (digits[0] != ZERO || |s| == 1)
  }

  function SignedValue(s: Text): int
    requires Canonical(s)
  {
    if s[0] == MINUS then 0 - Value(Magnitude(s)) else Value(s)
  }

  /** The 64-bit integer a text denotes. */
  function Int64Of(s: Text): Option<int> {
    if Canonical(s) && Int64(SignedValue(s)) then Some(SignedValue(s)) else None
  }

  /** Exactly the canonical texts of 64-bit integers denote one, namely that integer. */
  lemma Int64OfExact(s: Text, v: int)
    ensures Int64Of(s) == Some(v) <==> Int64(v) && s == IntText(v)
  {
    if Canonical(s) {
      CanonicalIs(s);
      if s == IntText(v) { IntTextInjective(SignedValue(s), v); }
    } else {
      NotCanonical(s, v);
    }
  }

  lemma CanonicalIs(s: Text)
    requires Canonical(s)
    ensures s == IntText(SignedValue(s))
  {
    DigitsOfValue(Magnitude(s));
    assert s[0] == MINUS ==> s == [MINUS] + Magnitude(s);
  }

  lemma NotCanonical(s: Text, v: int)
    requires !Canonical(s)
    ensures IntText(v) != s
  {
    assert v < 0 ==> IntText(v)[1..] == Digits(-v);
  }

  // ---------- string2ll (read.c) ----------

  /** `unsigned long long` to `long long` conversion. */
  function ToSigned(v: int): int
    requires 0 <= v < TWO64
  {
    if v < TWO63 then v else v - TWO64
  }

  /** `string2ll`: strict text to `long long`, with 64-bit unsigned arithmetic and its own
      overflow tests. */
  method String2ll(s: Text) returns (r: Option<int>)
    ensures r == Int64Of(s)
  {
    var plen := 0;
    if plen == |s| { return None; }
    if |s| == 1 && s[0] == ZERO {
      ValueSnoc(s, 0);
      assert s[..1] == s && s[..0] == [];
      return Some(0);
    }
    var negative := s[0] == MINUS;
    if negative {
      plen := 1;
      if plen == |s| { return None; }
    }
    if !(49 <= s[plen] <= 57) {
      assert Magnitude(s)[0] == s[plen];
      return None;
    }
    var v;
    v, plen := AccumulateDigits(s, plen);
    if v.None? || plen < |s| { return None; }
    if negative {
      if v.value > TWO63 { return None; }
      r := Some(ToSigned((TWO64 - v.value) % TWO64));
    } else {
      if v.value > TWO63 - 1 { return None; }
      r := Some(ToSigned(v.value));
    }
  }

  /** The digit loop of `string2ll`: None when one of the two overflow tests fires. */
  method AccumulateDigits(s: Text, start: nat) returns (v: Option<nat>, plen: nat)
    requires s != [] && start == (if s[0] == MINUS then 1 else 0)
    requires start < |s| && IsDigit(s[start]) && s[start] != ZERO
    ensures v.None? || plen < |s| ==> Int64Of(s) == None
    ensures v.Some? && plen >= |s| ==> Canonical(s) && v.value == Value(Magnitude(s)) < TWO64
  {
    ghost var digits := Magnitude(s);
    assert digits == s[start..];
    LeadingDigit(digits);
    var acc := s[start] - ZERO;
    plen := start + 1;
    while plen < |s| && IsDigit(s[plen])
      invariant start < plen <= |s|
      invariant AllDigits(digits[..plen - start]) && acc == Value(digits[..plen - start]) < TWO64
    {
      NextDigit(digits, plen - start);
      if acc > (TWO64 - 1) / 10 {
        TooLarge(s, plen - start + 1);
        return None, plen;
      }
      NoWrap(acc * 10);
      acc := (acc * 10) % TWO64;
      if acc > TWO64 - 1 - (s[plen] - ZERO) {
        TooLarge(s, plen - start + 1);
        return None, plen;
      }
      NoWrap(acc + (s[plen] - ZERO));
      acc := (acc + (s[plen] - ZERO)) % TWO64;
      plen := plen + 1;
    }
    assert plen < |s| ==> digits[plen - start] == s[plen];
    assert plen == |s| ==> digits[..plen - start] == digits;
    v := Some(acc);
  }

  lemma LeadingDigit(s: Text)
    requires s != [] && IsDigit(s[0])
    ensures AllDigits(s[..1]) && Value(s[..1]) == s[0] - ZERO
  {
    ValueSnoc(s, 0);
    assert s[..0] == [];
  }

  lemma NextDigit(s: Text, k: nat)
    requires k < |s| && AllDigits(s[..k]) && IsDigit(s[k])
    ensures AllDigits(s[..k + 1]) && Value(s[..k + 1]) == Value(s[..k]) * 10 + (s[k] - ZERO)
  {
    assert forall i :: 0 <= i < k ==> s[..k + 1][i] == s[..k][i];
    ValueSnoc(s, k);
  }

  lemma NoWrap(n: nat)
    requires n < TWO64
    ensures n % TWO64 == n
  {
  }

  lemma TooLarge(s: Text, k: nat)
    requires k <= |Magnitude(s)| && AllDigits(Magnitude(s)[..k]) && Value(Magnitude(s)[..k]) >= TWO64
    ensures Int64Of(s) == None
  {
    if Canonical(s) { ValueMonotone(Magnitude(s), k); }
  }

  // ---------- printers ----------

  /** In-place reversal of the first `l` bytes, the last loop of both printers. */
  method ReverseInPlace(s: array<Byte>, l: nat)
    requires l <= s.Length
    modifies s
    ensures forall i :: 0 <= i < l ==> s[i] == old(s[l - 1 - i])
    ensures forall i :: l <= i < s.Length ==> s[i] == old(s[i])
  {
    var i := 0;
    while i < l / 2
      invariant 0 <= i <= l / 2
      invariant forall k :: 0 <= k < i || l - i <= k < l ==> s[k] == old(s[l - 1 - k])
      invariant forall k :: i <= k < l - i || l <= k < s.Length ==> s[k] == old(s[k])
    {
      s[i], s[l - 1 - i] := s[l - 1 - i], s[i];
      i := i + 1;
    }
  }

  /** `sdsll2str`: prints a `long long` into a buffer of at least 21 bytes. Negating
      LLONG_MIN is taken to wrap, as it does on two's complement hardware. */
  method SdsLl2Str(s: array<Byte>, value: int) returns (l: nat)
    requires Int64(value) && s.Length >= 21
    modifies s
    ensures l < s.Length && s[..l] == IntText(value) && s[l] == NUL
  {
    var v := U64(if value < 0 then -value else value);
    MagnitudeFits(value);
    l := WriteReversed(s, v, Digits(v));
    l := FinishText(s, l, value);
  }

  /** How both printers end: the sign, the terminator, and the digits turned round. */
  method FinishText(s: array<Byte>, len: nat, value: int) returns (l: nat)
    requires |IntText(value)| < s.Length && len == |Digits(if value < 0 then -value else value)|
    requires forall i :: 0 <= i < len ==> s[i] == Digits(if value < 0 then -value else value)[len - 1 - i]
    modifies s
    ensures l < s.Length && s[..l] == IntText(value) && s[l] == NUL
  {
    l := len;
    if value < 0 {
      s[l] := MINUS;
      l := l + 1;
    }
    s[l] := NUL;
    ghost var text := IntText(value);
    assert l == |text| && forall i :: 0 <= i < l ==> s[i] == text[l - 1 - i];
    ReverseInPlace(s, l);
  }

  function U64(v: int): int { v % TWO64 }

  lemma MagnitudeFits(value: int)
    requires Int64(value)
    ensures U64(if value < 0 then -value else value) == if value < 0 then -value else value
    ensures |Digits(if value < 0 then -value else value)| <= 19
  {
    assert Pow10(10) == 10_000_000_000;
    assert Pow10(19) == 10_000_000_000_000_000_000;
    DigitsBound(if value < 0 then -value else value, 19);
  }

  /** The digit loop of `sdsll2str`; `d` is the text it has to produce, backwards. */
  method WriteReversed(s: array<Byte>, n: nat, ghost d: Text) returns (p: nat)
    requires d == Digits(n) && s.Length >= |d|
    modifies s
    ensures p == |d| && forall i :: 0 <= i < p ==> s[i] == d[p - 1 - i]
  {
    var v := n;
    s[0] := ZERO + v % 10;
    p, v := 1, v / 10;
    while v != 0
      invariant v >= 0 && 1 <= p <= |d|
      invariant if v == 0 then p == |d| else Digits(v) == d[..|d| - p]
      invariant forall i :: 0 <= i < p ==> s[i] == d[|d| - 1 - i]
      decreases v
    {
      assert Digits(v)[|d| - p - 1] == d[|d| - p - 1];
      s[p] := ZERO + v % 10;
      p, v := p + 1, v / 10;
    }
  }

  function Pow10(k: nat): (p: nat)
    ensures p >= 1
  {
    if k == 0 then 1 else 10 * Pow10(k - 1)
  }

  lemma {:induction false} DigitsBound(n: nat, k: nat)
    requires k >= 1 && n < Pow10(k)
    ensures |Digits(n)| <= k
  {
    if n >= 10 {
      assert k > 1;
      DigitsBound(n / 10, k - 1);
    }
  }

  /** `countDigits`: four digits a turn. */
  method CountDigits(value: nat) returns (result: nat)
    requires value < TWO64
    ensures result == |Digits(value)|
  {
    var v := value;
    result := 1;
    while true
      invariant v >= 0 && result + |Digits(v)| == 1 + |Digits(value)|
      decreases v
    {
      if v < 10 { return result; }
      if v < 100 { return result + 1; }
      if v < 1000 { return result + 2; }
      assert v < 10000 ==> |Digits(v / 10 / 10)| == 2;
      if v < 10000 { return result + 3; }
      assert v / 10 / 10 / 10 / 10 == v / 10000;
      assert |Digits(v / 10 / 10)| == |Digits(v / 10 / 10 / 10 / 10)| + 2;
      v := v / 10000;
      result := result + 4;
    }
  }

  /** `_uint_len`: one digit a turn. */
  method UintLen(value: nat) returns (n: nat)
    requires value < TWO32
    ensures n == |Digits(value)|
  {
    var num := value;
    n := 0;
    if num == 0 { return 1; }
    while num != 0
      invariant num >= 0 && n + (if num == 0 then 0 else |Digits(num)|) == |Digits(value)|
      decreases num
    {
      n := n + 1;
      num := num / 10;
    }
  }

  /** What `strlen` and `%s` see in a buffer: the bytes before the first NUL. */
  function CString(s: Text): (c: Text)
    ensures |c| <= |s| && c == s[..|c|] && NUL !in c
    ensures |c| < |s| ==> s[|c|] == NUL
  {
    if s == [] || s[0] == NUL then [] else [s[0]] + CString(s[1..])
  }

  lemma {:induction false} CStringIs(s: Text, c: Text)
    requires |c| < |s| && s[..|c|] == c && s[|c|] == NUL && NUL !in c
    ensures CString(s) == c
  {
    if c != [] {
      assert s[0] == c[0];
      assert s[1..][..|c| - 1] == c[1..];
      CStringIs(s[1..], c[1..]);
      assert c == [c[0]] + c[1..];
    }
  }

  /** `_hi_itoa`. For 0 it stores the digit but no terminator, so the C string left behind
      keeps whatever followed its first byte before. */
  method HiItoa(s: array<Byte>, num: int)
    requires -0x8000_0000 < num < 0x8000_0000 && s.Length >= 12
    modifies s
    ensures num != 0 ==> CString(s[..]) == IntText(num)
    ensures num == 0 ==> s[..] == old(s[..])[0 := ZERO]
  {
    if num == 0 {
      s[0] := ZERO;
      return;
    }
    var n := if num < 0 then -num else num;
    assert Pow10(10) == 10_000_000_000;
    DigitsBound(n, 10);
    var len := HiItoaDigits(s, n, Digits(n));
    len := FinishText(s, len, num);
    CStringIs(s[..], IntText(num));
  }

  /** The digit loop of `_hi_itoa`, which pushes each byte one place on before storing. */
  method HiItoaDigits(s: array<Byte>, n: nat, ghost d: Text) returns (len: nat)
    requires n > 0 && d == Digits(n) && s.Length > |d|
    modifies s
    ensures len == |d| && forall i :: 0 <= i < len ==> s[i] == d[len - 1 - i]
  {
    var num := n;
    len := 0;
    while num % 10 != 0 || num / 10 != 0
      invariant num >= 0 && len <= |d|
      invariant if num == 0 then len == |d| else len < |d| && Digits(num) == d[..|d| - len]
      invariant forall i :: 0 <= i < len ==> s[i] == d[|d| - 1 - i]
      decreases num
    {
      assert Digits(num)[|d| - len - 1] == d[|d| - len - 1];
      var c := num % 10 + ZERO;
      num := num / 10;
      s[len + 1] := s[len];
      s[len] := c;
      len := len + 1;
    }
  }

  /** A number as an `int` holds it after wrapping around. */
  function ToInt32(v: int): int {
    var r := v % TWO32;
    if r <= INT_MAX then r else r - TWO32
  }

  /** `_hi_atoi`: the number written, as `int` holds it, -1 when that is negative or for anything
      else. (Compilers wrap; the language leaves it open.) */
  method HiAtoi(line: Text) returns (value: int)
    ensures value == if line != [] && AllDigits(line) && ToInt32(Value(line)) >= 0 then ToInt32(Value(line)) else -1
  {
    if |line| == 0 { return -1; }
    value := 0;
    for i := 0 to |line|
      invariant AllDigits(line[..i]) && value == ToInt32(Value(line[..i]))
    {
      if line[i] < 48 || line[i] > 57 { return -1; }
      NextDigit(line, i);
      WrapAny(value, Value(line[..i]), line[i] - 48);
      value := ToInt32(value * 10 + (line[i] - 48));
    }
    assert line[..|line|] == line;
    if value < 0 { return -1; }
  }

  /** What was wrapped before does not matter. */
  lemma WrapAny(x: int, n: nat, d: nat)
    requires x == ToInt32(n)
    ensures ToInt32(x * 10 + d) == ToInt32(n * 10 + d)
  {
    var q := n / TWO32 + if x < 0 then 1 else 0;
    assert n == q * TWO32 + x;
    var y := (x * 10 + d) % TWO32;
    var p := (x * 10 + d) / TWO32;
    assert x * 10 + d == p * TWO32 + y;
    assert n * 10 + d == (10 * q + p) * TWO32 + y;
    Unique(n * 10 + d, TWO32, 10 * q + p, y);
  }

  /** Reading a number digit by digit in 32-bit arithmetic. */
  lemma WrapStep(n: nat, d: nat)
    ensures (n % TWO32 * 10 + d) % TWO32 == (n * 10 + d) % TWO32
  {
    var q, r := n / TWO32, n % TWO32;
    var x := r * 10 + d;
    assert n * 10 + d == (10 * q + x / TWO32) * TWO32 + x % TWO32;
    Unique(n * 10 + d, TWO32, 10 * q + x / TWO32, x % TWO32);
  }

  // ---------- what the texts say ----------

  /** One digit more at the end is ten times the number plus that digit, written with the bytes of
      '0' to '9'. */
  lemma OneDigitMore(n: nat, d: nat, text: Text)
    requires d < 10 && AllDigits(text)
    ensures n > 0 ==> Digits(n * 10 + d) == Digits(n) + ['0' as int + d]
    ensures Digits(d) == ['0' as int + d]
    ensures AllDigits(text + ['0' as int + d]) && Value(text + ['0' as int + d]) == Value(text) * 10 + d
  {
    var more := text + ['0' as int + d];
    assert more[..|more| - 1] == text;
  }

  lemma Int64Ends(v: int)
    ensures Int64(v) <==> -9223372036854775808 <= v <= 9223372036854775807
  {
  }

  /** What an `int` holds differs from the number by a multiple of 2^32. */
  lemma ToInt32Is(v: int)
    ensures -2147483648 <= ToInt32(v) <= 2147483647 && (v - ToInt32(v)) % 4294967296 == 0
  {
    var q, r := v / TWO32, v % TWO32;
    assert v == q * TWO32 + r;
    if r > INT_MAX {
      Powers.Unique(v - ToInt32(v), TWO32, q + 1, 0);
    } else {
      Powers.Unique(v - ToInt32(v), TWO32, q, 0);
    }
  }
}
