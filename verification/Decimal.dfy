/** Decimal counters held in character arrays, and the text that `%d` prints and reads. */
module Decimal {
  import opened Text

  predicate Digits(s: string) {
    forall c | c in s :: Digit(c)
  }

  function DigitChar(d: nat): char
    requires d < 10
  {
    (d + '0' as int) as char
  }

  function Pow10(n: nat): (p: nat)
    ensures p > 0
  {
    if n == 0 then 1 else 10 * Pow10(n - 1)
  }

  /** The number that a string of digits writes, most significant digit first. */
  function Value(s: string): int {
    if s == [] then 0 else 10 * Value(s[..|s| - 1]) + (s[|s| - 1] as int - '0' as int)
  }

  lemma {:induction false} ValueBound(s: string)
    requires Digits(s)
    ensures 0 <= Value(s) < Pow10(|s|)
  {
    if s != [] {
      ValueBound(s[..|s| - 1]);
      assert s[|s| - 1] in s;
    }
  }

  /** The last `width` decimal digits of v, with leading zeros. */
  function Number(v: nat, width: nat): (s: string)
    ensures |s| == width
  {
    if width == 0 then [] else Number(v / 10, width - 1) + [DigitChar(v % 10)]
  }

  lemma {:induction false} NumberDigits(v: nat, width: nat)
    ensures Digits(Number(v, width))
  {
    if width > 0 {
      NumberDigits(v / 10, width - 1);
    }
  }

  lemma ModUnique(v: int, m: nat, q: int, r: int)
    requires m > 0 && 0 <= r < m && v == q * m + r
    ensures v % m == r && v / m == q
  {
    var d := v / m - q;
    assert v == (v / m) * m + v % m;
    assert d * m == r - v % m by {
      assert d * m == (v / m) * m - q * m;
    }
    assert (d - 1) * m == d * m - m && (d + 1) * m == d * m + m;
  }

  lemma ModSplit(v: nat, p: nat)
    requires p > 0
    ensures v % (10 * p) == 10 * (v / 10 % p) + v % 10
  {
    var q, r := v / 10 / p, v / 10 % p;
    assert v / 10 == q * p + r;
    assert v == q * (10 * p) + (10 * r + v % 10);
    ModUnique(v, 10 * p, q, 10 * r + v % 10);
  }

  /** A fixed-width number reads back modulo a power of ten ... */
  lemma {:induction false} ValueOfNumber(v: nat, width: nat)
    ensures Value(Number(v, width)) == v % Pow10(width)
  {
    if width > 0 {
      var s := Number(v, width);
      assert s[..width - 1] == Number(v / 10, width - 1);
      ValueOfNumber(v / 10, width - 1);
      ModSplit(v, Pow10(width - 1));
    }
  }

  /** ... and a digit string is the fixed-width number of its value. */
  lemma {:induction false} NumberOfValue(s: string)
    requires Digits(s)
    ensures 0 <= Value(s) && Number(Value(s), |s|) == s
  {
    ValueBound(s);
    if s != [] {
      var n := |s| - 1;
      assert s[n] in s;
      NumberOfValue(s[..n]);
      var d := s[n] as int - '0' as int;
      assert Value(s) == 10 * Value(s[..n]) + d;
      assert s == s[..n] + [s[n]];
    }
  }

  // ---------- initNumber and incrNumber ----------

  const TID_LENGTH := 4

  /** The counter after one increment: the trailing nines become zeros and the digit before them goes up. */
  function Incr(s: string): (r: string)
    ensures |r| == |s|
  {
    if s == [] then [] else
      var n := |s| - 1;
      if s[n] < '9' then s[..n] + [(s[n] as int + 1) as char] else Incr(s[..n]) + ['0']
  }

  lemma {:induction false} ZeroDigits(n: nat)
    ensures forall k | 0 <= k < n :: Number(0, n)[k] == '0'
  {
    if n > 0 {
      ZeroDigits(n - 1);
    }
  }

  method InitNumber(a: array<char>)
    modifies a
    ensures a[..] == Number(0, a.Length)
  {
    var i := 0;
    while i < a.Length
      invariant 0 <= i <= a.Length
      invariant forall k | 0 <= k < i :: a[k] == '0'
    {
      a[i] := '0';
      i := i + 1;
    }
    ZeroDigits(a.Length);
    assert a[..] == Number(0, a.Length);
  }

  /** The carry loop, on an array of any length. */
  method IncrNumber(a: array<char>)
    modifies a
    ensures a[..] == Incr(old(a[..]))
  {
    ghost var head, zeros := a[..], "";
    var i := a.Length - 1;
    while i >= 0
      invariant -1 <= i < a.Length && |head| == i + 1
      invariant a[..] == head + zeros
      invariant Incr(old(a[..])) == Incr(head) + zeros
      decreases i
    {
      if a[i] < '9' {
        a[i] := (a[i] as int + 1) as char;
        return;
      } else {
        a[i] := '0';
      }
      zeros := ['0'] + zeros;
      head := head[..i];
      i := i - 1;
    }
  }

  /** On digits the counter counts modulo ten to its length, and its cells stay digits. */
  lemma {:induction false} IncrCounts(s: string)
    requires Digits(s)
    ensures Digits(Incr(s))
    ensures Value(Incr(s)) == (Value(s) + 1) % Pow10(|s|)
  {
    if s != [] {
      var n := |s| - 1;
      assert s[n] in s;
      ValueBound(s[..n]);
      var r := Incr(s);
      assert r[..n] == if s[n] < '9' then s[..n] else Incr(s[..n]);
      ValueBound(s);
      if s[n] < '9' {
        assert r[n] as int == s[n] as int + 1;
        assert Value(r) == Value(s) + 1;
        ValueBound(r);
        ModUnique(Value(s) + 1, Pow10(|s|), 0, Value(s) + 1);
      } else {
        IncrCounts(s[..n]);
        var v := Value(s[..n]) + 1;
        assert Value(s) + 1 == 10 * v;
        ModSplit(10 * v, Pow10(n));
        assert Value(r) == 10 * Value(Incr(s[..n]));
      }
    }
  }

  lemma NextModulo(v: nat, p: nat)
    requires p > 0
    ensures (v % p + 1) % p == (v + 1) % p
  {
    var q, w := v / p, v % p + 1;
    assert v == q * p + v % p;
    if w == p {
      assert (q + 1) * p == q * p + p;
      ModUnique(v + 1, p, q + 1, 0);
      ModUnique(w, p, 1, 0);
    } else {
      ModUnique(w, p, 0, w);
      ModUnique(v + 1, p, q, w);
    }
  }

  lemma IncrNumberClosedForm(v: nat, width: nat)
    ensures Incr(Number(v, width)) == Number((v + 1) % Pow10(width), width)
  {
    var s := Number(v, width);
    NumberDigits(v, width);
    IncrCounts(s);
    ValueOfNumber(v, width);
    NumberOfValue(Incr(s));
    NextModulo(v, Pow10(width));
  }

  lemma NumberInjective(v: nat, w: nat, width: nat)
    requires v < Pow10(width) && w < Pow10(width)
    ensures Number(v, width) == Number(w, width) <==> v == w
  {
    ValueOfNumber(v, width);
    ValueOfNumber(w, width);
    ModUnique(v, Pow10(width), 0, v);
    ModUnique(w, Pow10(width), 0, w);
  }

  // ---------- integerToChar ----------

  /** The digits the loop produces: none for zero, and no leading zeros. */
  function Plain(n: nat): string {
    if n == 0 then [] else Plain(n / 10) + [DigitChar(n % 10)]
  }

  /** The old text with its low end overwritten by as much of the new text as fits. */
  function Overwrite(was: string, s: string): (r: string)
    ensures |r| == |was|
  {
    if |s| <= |was| then was[..|was| - |s|] + s else s[|s| - |was|..]
  }

  method IntegerToChar(n: nat, a: array<char>)
    modifies a
    ensures a[..] == Overwrite(old(a[..]), Plain(n))
  {
    var m: nat := n;
    var i := a.Length - 1;
    ghost var low: string := [];
    while i >= 0 && m != 0
      invariant -1 <= i < a.Length && |low| == a.Length - 1 - i
      invariant a[..] == old(a[..])[..i + 1] + low
      invariant Plain(n) == Plain(m) + low
      decreases i
    {
      a[i] := DigitChar(m % 10);
      low := [DigitChar(m % 10)] + low;
      i := i - 1;
      m := m / 10;
    }
  }

  lemma {:induction false} ValueOfConcat(p: string, s: string)
    ensures Value(p + s) == Value(p) * Pow10(|s|) + Value(s)
  {
    if s == [] {
      assert p + s == p;
    } else {
      var n := |s| - 1;
      ValueOfConcat(p, s[..n]);
      assert (p + s)[..|p| + n] == p + s[..n];
      assert Value(p + s) == 10 * Value(p + s[..n]) + (s[n] as int - '0' as int);
      assert 10 * (Value(p) * Pow10(n)) == Value(p) * (10 * Pow10(n));
    }
  }

  lemma {:induction false} ValueOfPlain(n: nat)
    ensures Digits(Plain(n)) && Value(Plain(n)) == n
  {
    if n > 0 {
      ValueOfPlain(n / 10);
      assert Plain(n)[..|Plain(n)| - 1] == Plain(n / 10);
    }
  }

  lemma ZeroProduct(a: int, p: nat)
    requires p > 0
    ensures a * p == 0 <==> a == 0
  {
  }

  /** Overwriting keeps the high digits, and trades the value of the low ones for that of the new ones. */
  lemma OverwriteValue(was: string, s: string)
    requires |s| <= |was|
    ensures Overwrite(was, s)[..|was| - |s|] == was[..|was| - |s|]
    ensures Value(Overwrite(was, s)) == Value(was) - Value(was[|was| - |s|..]) + Value(s)
    ensures Value(Overwrite(was, s)) == Value(s) <==> Value(was[..|was| - |s|]) == 0
  {
    var high, low := was[..|was| - |s|], was[|was| - |s|..];
    ValueOfConcat(high, s);
    ValueOfConcat(high, low);
    assert was == high + low;
    ZeroProduct(Value(high), Pow10(|s|));
  }

  /**
   * What the loop leaves in a buffer that was not cleared first: only as many low digits change as n has, so a
   * shorter number keeps the high digits of whatever was there. The buffer then reads as n exactly when those
   * high digits are zero.
   */
  lemma IntegerToCharValue(n: nat, was: string, s: string)
    requires s == Plain(n) && |s| <= |was|
    ensures Overwrite(was, s)[..|was| - |s|] == was[..|was| - |s|]
    ensures Value(Overwrite(was, s)) == Value(was) - Value(was[|was| - |s|..]) + n
    ensures Value(Overwrite(was, s)) == n <==> Value(was[..|was| - |s|]) == 0
  {
    ValueOfPlain(n);
    OverwriteValue(was, s);
  }

  /** So 5 written over 1234 reads as 1235. */
  lemma IntegerToCharKeepsDigits()
    ensures Overwrite("1234", Plain(5)) == "1235" && Value("1235") == 1235
  {
    assert Plain(5) == "5" by {
      assert Plain(0) == [];
    }
    var s := "1235";
    assert s[..3] == "123" && s[..3][..2] == "12" && s[..2][..1] == "1" && s[..1][..0] == "";
    assert Value("1") == 1;
    assert Value("12") == 12;
    assert Value("123") == 123;
  }

  /** Every number up to 9999 fits in the four digits of a request number. */
  lemma {:induction false} PlainFits(n: nat, width: nat)
    requires n < Pow10(width)
    ensures |Plain(n)| <= width
  {
    if n > 0 && width > 0 {
      PlainFits(n / 10, width - 1);
    }
  }

  // ---------- "%d" ----------

  /** The text that `%d` prints for a number that is not negative. */
  function Dec(n: nat): (s: string)
    ensures s != []
  {
    if n < 10 then [DigitChar(n)] else Dec(n / 10) + [DigitChar(n % 10)]
  }

  /** The longest prefix of digits. */
  function LeadDigits(s: string): string {
    if s == [] || !Digit(s[0]) then [] else [s[0]] + LeadDigits(s[1..])
  }

  predicate Sign(c: char) {
    c == '-' || c == '+'
  }

  /** What `%d` and `atoi` read: blanks are skipped, then a sign and the longest run of digits are converted. */
  function ScanInt(s: string): (bool, int) {
    var t := Skip(s);
    var d := LeadDigits(if t != [] && Sign(t[0]) then t[1..] else t);
    if d == [] then (false, 0) else (true, if t[0] == '-' then -Value(d) else Value(d))
  }

  lemma ScanIntSkips(s: string)
    ensures ScanInt([' '] + s) == ScanInt(s)
  {
    assert ([' '] + s)[1..] == s;
  }

  lemma {:induction false} DecLength(n: nat, width: nat)
    requires n < Pow10(width) && width > 0
    ensures |Dec(n)| <= width
  {
    if n >= 10 {
      assert width > 1 by { assert Pow10(1) == 10; }
      DecLength(n / 10, width - 1);
    }
  }

  lemma {:induction false} ValueOfDec(n: nat)
    ensures Digits(Dec(n)) && Value(Dec(n)) == n
  {
    if n >= 10 {
      ValueOfDec(n / 10);
      assert Dec(n)[..|Dec(n)| - 1] == Dec(n / 10);
    } else {
      assert Value([]) == 0;
      assert Dec(n)[..0] == [];
    }
  }

  lemma {:induction false} LeadDigitsOf(d: string, rest: string)
    requires Digits(d) && (rest == [] || !Digit(rest[0]))
    ensures LeadDigits(d + rest) == d
  {
    if d == [] {
      assert d + rest == rest;
    } else {
      assert d[0] in d && (d + rest)[1..] == d[1..] + rest;
      LeadDigitsOf(d[1..], rest);
    }
  }

  /** `%d` reads back what `%d` printed, whatever non-digit follows. */
  lemma ScanOfDec(n: nat, rest: string)
    requires rest == [] || !Digit(rest[0])
    ensures ScanInt(Dec(n) + rest) == (true, n)
  {
    ValueOfDec(n);
    var s := Dec(n) + rest;
    assert s[0] == Dec(n)[0] && Dec(n)[0] in Dec(n);
    assert Skip(s) == s;
    LeadDigitsOf(Dec(n), rest);
  }

  /** With a sign in front it reads a negative number. */
  lemma ScanOfNegative(n: nat, rest: string)
    requires rest == [] || !Digit(rest[0])
    ensures ScanInt(['-'] + (Dec(n) + rest)) == (true, 0 - n)
  {
    ValueOfDec(n);
    LeadDigitsOf(Dec(n), rest);
    var s := ['-'] + (Dec(n) + rest);
    assert Skip(s) == s && s[1..] == Dec(n) + rest;
  }

  lemma DecIsGraphWord(n: nat)
    ensures IsGraphWord(Dec(n)) && IsWord(Dec(n))
  {
    ValueOfDec(n);
    forall c | c in Dec(n) ensures Graph(c) && !Blank(c) {
      assert Digit(c);
    }
  }
}
