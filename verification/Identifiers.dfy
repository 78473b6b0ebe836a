/** The identifiers issued to successive successful requests, in closed form. */
module Identifiers {
  import opened Decimal
  import Protocol

  /** The TID and the VC of the request that comes after n successful ones. */
  function TidOf(n: nat): string {
    Number(n % 9999 + 1, 4)
  }

  function VcOf(n: nat): string {
    Number(n % 10000, 4)
  }

  lemma FourDigits()
    ensures Pow10(4) == 10000
  {
    assert Pow10(1) == 10 && Pow10(2) == 100 && Pow10(3) == 1000;
  }

  lemma ZeroText()
    ensures Number(0, 4) == "0000" && Value("0000") == 0
  {
    ZeroDigits(4);
    assert Number(0, 4) == "0000";
    ValueOfNumber(0, 4);
    FourDigits();
  }

  lemma StartCounters()
    ensures Protocol.Start().newTID == TidOf(0) && Protocol.Start().newVC == VcOf(0)
  {
    FourDigits();
    IncrNumberClosedForm(0, 4);
  }

  lemma Wrap(n: nat, p: nat)
    requires p > 1
    ensures (n + 1) % p == if n % p + 1 == p then 0 else n % p + 1
  {
    NextModulo(n, p);
    if n % p + 1 == p {
      ModUnique(p, p, 1, 0);
    } else {
      ModUnique(n % p + 1, p, 0, n % p + 1);
    }
  }

  lemma VcAdvances(n: nat)
    ensures Incr(VcOf(n)) == VcOf(n + 1)
  {
    FourDigits();
    IncrNumberClosedForm(n % 10000, 4);
    NextModulo(n, 10000);
  }

  /** The next counter text, and the one after it when the counter has come round to zero. */
  lemma IncrTwice(v: nat, t: string)
    requires 1 <= v <= 9999 && t == Incr(Number(v, 4))
    ensures t == Number((v + 1) % 10000, 4)
    ensures t == "0000" <==> v == 9999
    ensures v == 9999 ==> Incr(t) == Number(1, 4)
  {
    FourDigits();
    ZeroText();
    IncrNumberClosedForm(v, 4);
    var next := (v + 1) % 10000;
    NumberInjective(next, 0, 4);
    IncrNumberClosedForm(next, 4);
  }

  lemma NextOfNumber(v: nat, s: string)
    requires 1 <= v <= 9999 && s == Number(v, 4)
    ensures Protocol.NextTID(s) == if v == 9999 then Number(1, 4) else Number((v + 1) % 10000, 4)
  {
    IncrTwice(v, Incr(s));
  }

  lemma NextFrom(v: nat, next: nat)
    requires 1 <= v <= 9999 && next == if v == 9999 then 1 else v + 1
    ensures Protocol.NextTID(Number(v, 4)) == Number(next, 4)
  {
    NextOfNumber(v, Number(v, 4));
    if v < 9999 {
      ModUnique(next, 10000, 0, next);
      assert (v + 1) % 10000 == next;
    }
  }

  lemma TidAdvances(n: nat)
    ensures Protocol.NextTID(TidOf(n)) == TidOf(n + 1)
  {
    Wrap(n, 9999);
    NextFrom(n % 9999 + 1, (n + 1) % 9999 + 1);
  }

  lemma TidNeverZero(n: nat)
    ensures TidOf(n) != "0000" && |TidOf(n)| == 4 && Digits(TidOf(n))
  {
    FourDigits();
    ZeroText();
    NumberDigits(n % 9999 + 1, 4);
    NumberInjective(n % 9999 + 1, 0, 4);
  }

  lemma SameRemainder(n: nat, m: nat, p: nat)
    requires p > 0
    ensures n % p == m % p <==> (n - m) % p == 0
  {
    var a, b := n / p, m / p;
    assert n == a * p + n % p && m == b * p + m % p;
    assert (a - b) * p == a * p - b * p && (a - b - 1) * p == (a - b) * p - p;
    if n % p >= m % p {
      ModUnique(n - m, p, a - b, n % p - m % p);
    } else {
      ModUnique(n - m, p, a - b - 1, p + n % p - m % p);
    }
  }

  lemma Coprime(d: int)
    ensures d % 9999 == 0 && d % 10000 == 0 <==> d % 99990000 == 0
  {
    if d % 9999 == 0 && d % 10000 == 0 {
      var a, b := d / 9999, d / 10000;
      assert d == 9999 * a == 10000 * b;
      assert a == 10000 * (a - b);
      assert d == 99990000 * (a - b);
    }
  }

  /** TIDs repeat exactly at multiples of 9999, VCs at multiples of 10000, and the pair at multiples of both. */
  lemma Repeats(n: nat, m: nat)
    ensures TidOf(n) == TidOf(m) <==> (n - m) % 9999 == 0
    ensures VcOf(n) == VcOf(m) <==> (n - m) % 10000 == 0
    ensures TidOf(n) == TidOf(m) && VcOf(n) == VcOf(m) <==> (n - m) % 99990000 == 0
  {
    FourDigits();
    SameRemainder(n, m, 9999);
    SameRemainder(n, m, 10000);
    NumberInjective(n % 9999 + 1, m % 9999 + 1, 4);
    NumberInjective(n % 10000, m % 10000, 4);
    Coprime(n - m);
  }
}
