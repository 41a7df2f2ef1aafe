/** Small helpers shared by the models: optional values, results, sequences and decimal text. */
module Common {

  datatype Option<+T> = None | Some(value: T) {
    predicate IsFailure() {
      None?
    }

    function PropagateFailure<U>(): Option<U>
      requires None?
    {
      None
    }

    function Extract(): T
      requires Some?
    {
      value
    }
  }

  /** The outcome of an operation that the source lets throw. */
  datatype Result<+T, +E> = Ok(value: T) | Err(error: E)

  /** A JavaScript number, as far as clamping and truncating look at it. */
  datatype Number = NaN | NegativeInfinity | PositiveInfinity | Real(value: real)

  /** One UTF-16 code unit of a source string. */
  type CodeUnit = u: nat | u < 0x1_0000

  function Min(a: int, b: int): int {
    if a <= b then a else b
  }

  function Max(a: int, b: int): int {
    if a <= b then b else a
  }

  function Abs(a: int): int {
    if a < 0 then -a else a
  }

  lemma MulAssociative(a: int, b: int, c: int)
    ensures a * (b * c) == (a * b) * c
  {
  }

  function Pow2(k: nat): (p: nat)
    ensures p > 0
  {
    if k == 0 then 1 else 2 * Pow2(k - 1)
  }

  lemma {:induction false} Pow2Grows(a: nat, b: nat)
    requires a <= b
    ensures Pow2(a) <= Pow2(b)
    decreases b - a
  {
    if a < b {
      Pow2Grows(a, b - 1);
    }
  }

  /** The last n elements, or all of them: the source's `slice(-n)` for n > 0. */
  function TakeLast<T>(s: seq<T>, n: nat): seq<T> {
    if |s| <= n then s else s[|s| - n..]
  }
}

module Sequences {

  function Flatten<T>(parts: seq<seq<T>>): seq<T> {
    if parts == [] then [] else parts[0] + Flatten(parts[1..])
  }

  lemma {:induction false} FlattenAppend<T>(a: seq<seq<T>>, b: seq<seq<T>>)
    ensures Flatten(a + b) == Flatten(a) + Flatten(b)
  {
    if a == [] {
      assert a + b == b;
    } else {
      assert (a + b)[1..] == a[1..] + b;
      FlattenAppend(a[1..], b);
    }
  }

  lemma FlattenSnoc<T>(a: seq<seq<T>>, last: seq<T>)
    ensures Flatten(a + [last]) == Flatten(a) + last
  {
    FlattenAppend(a, [last]);
    assert Flatten([last]) == last + Flatten<T>([]);
  }

  function Map<A, B>(f: A -> B, s: seq<A>): (r: seq<B>)
    ensures |r| == |s| && forall i :: 0 <= i < |s| ==> r[i] == f(s[i])
  {
    seq(|s|, i requires 0 <= i < |s| => f(s[i]))
  }

  function Sum(s: seq<int>): int {
    if s == [] then 0 else s[0] + Sum(s[1..])
  }

  lemma {:induction false} SumAppend(a: seq<int>, b: seq<int>)
    ensures Sum(a + b) == Sum(a) + Sum(b)
  {
    if a == [] {
      assert a + b == b;
    } else {
      assert (a + b)[1..] == a[1..] + b;
      SumAppend(a[1..], b);
    }
  }

  lemma Regroup<T>(a: seq<T>, b: seq<T>, c: seq<T>, d: seq<T>)
    ensures a + b + c + d == a + (b + (c + d))
  {
  }

  function Front<T>(s: seq<T>): seq<T>
    requires s != []
  {
    s[..|s| - 1]
  }

  function Last<T>(s: seq<T>): T
    requires s != []
  {
    s[|s| - 1]
  }

  predicate Distinct<T(==)>(s: seq<T>) {
    forall i, j :: 0 <= i < j < |s| ==> s[i] != s[j]
  }

  /** The source's `parts.join(separator)`. */
  function Join(parts: seq<string>, separator: string): string {
    if parts == [] then ""
    else if |parts| == 1 then parts[0]
    else parts[0] + separator + Join(parts[1..], separator)
  }
}

/** Decimal digits as text, and the exact integers they denote. */
module Decimal {
  import opened Common

  predicate IsDigit(c: char) {
    '0' <= c <= '9'
  }

  predicate AllDigits(s: string) {
    forall i :: 0 <= i < |s| ==> IsDigit(s[i])
  }

  function DigitValue(c: char): (d: nat)
    requires IsDigit(c)
    ensures d < 10
  {
    c as int - '0' as int
  }

  function DigitChar(d: nat): (c: char)
    requires d < 10
    ensures IsDigit(c) && DigitValue(c) == d
  {
    ('0' as int + d) as char
  }

  /** The integer a digit string denotes; the empty string denotes 0. */
  function Value(s: string): nat
    requires AllDigits(s)
  {
    if s == "" then 0 else Value(s[..|s| - 1]) * 10 + DigitValue(s[|s| - 1])
  }

  /** The canonical decimal text of a natural number. */
  function Text(n: nat): string {
    if n < 10 then [DigitChar(n)] else Text(n / 10) + [DigitChar(n % 10)]
  }

  function IntText(n: int): string {
    if n < 0 then "-" + Text(-n) else Text(n)
  }

  function Pow10(n: nat): (p: nat)
    ensures p > 0
  {
    if n == 0 then 1 else 10 * Pow10(n - 1)
  }

  function Zeros(n: nat): (s: string)
    ensures |s| == n && AllDigits(s)
  {
    seq(n, i => '0')
  }

  lemma {:induction false} TextDenotes(n: nat)
    ensures |Text(n)| > 0 && AllDigits(Text(n)) && Value(Text(n)) == n
    ensures |Text(n)| > 1 ==> Text(n)[0] != '0'
  {
    if n < 10 {
      assert Text(n)[..0] == "";
    } else {
      TextDenotes(n / 10);
      var t := Text(n / 10);
      assert Text(n)[..|t|] == t;
      if |t| == 1 {
        assert Value(t) == Value(t[..0]) * 10 + DigitValue(t[0]);
      }
    }
  }

  lemma Scale(x: int, p: int)
    ensures x * (10 * p) == (x * p) * 10
  {
  }

  lemma {:induction false} ValueAppend(a: string, b: string)
    requires AllDigits(a) && AllDigits(b)
    ensures AllDigits(a + b) && Value(a + b) == Value(a) * Pow10(|b|) + Value(b)
  {
    if b == "" {
      assert a + b == a;
    } else {
      var front := b[..|b| - 1];
      ValueAppend(a, front);
      assert (a + b)[..|a + b| - 1] == a + front;
      assert Value(a + b) == Value(a + front) * 10 + DigitValue(b[|b| - 1]);
      Scale(Value(a), Pow10(|front|));
    }
  }

  lemma {:induction false} ZerosDenoteZero(n: nat)
    ensures Value(Zeros(n)) == 0
  {
    if n > 0 {
      assert Zeros(n)[..n - 1] == Zeros(n - 1);
      ZerosDenoteZero(n - 1);
    }
  }

  lemma {:induction false} ValueBound(s: string)
    requires AllDigits(s)
    ensures Value(s) < Pow10(|s|)
  {
    if s != "" {
      ValueBound(s[..|s| - 1]);
    }
  }

  lemma {:induction false} Pow10Sum(a: nat, b: nat)
    ensures Pow10(a + b) == Pow10(a) * Pow10(b)
  {
    if a > 0 {
      assert Pow10(a + b) == 10 * Pow10((a - 1) + b) && Pow10(a) == 10 * Pow10(a - 1);
      hide Pow10;
      Pow10Sum(a - 1, b);
      MulAssociative(10, Pow10(a - 1), Pow10(b));
    }
  }

  /** Number of decimal digits versus magnitude. */
  lemma {:induction false} TextLength(n: nat, k: nat)
    requires k > 0
    ensures |Text(n)| <= k <==> n < Pow10(k)
  {
    if n < 10 {
      assert Pow10(k) == 10 * Pow10(k - 1);
    } else if k == 1 {
      assert Pow10(1) == 10 * Pow10(0);
    } else {
      TextLength(n / 10, k - 1);
      assert n / 10 < Pow10(k - 1) <==> n < 10 * Pow10(k - 1);
    }
  }

  /** The source's `padStart(width, '0')` on a decimal. */
  function PadStart(s: string, width: nat): string {
    if |s| >= width then s else Zeros(width - |s|) + s
  }

  lemma PadStartDenotes(n: nat, width: nat)
    ensures AllDigits(PadStart(Text(n), width)) && Value(PadStart(Text(n), width)) == n
    ensures width > 0 ==> (|PadStart(Text(n), width)| == width <==> n < Pow10(width))
  {
    TextDenotes(n);
    var t := Text(n);
    if |t| < width {
      ValueAppend(Zeros(width - |t|), t);
      ZerosDenoteZero(width - |t|);
      assert 0 * Pow10(|t|) == 0;
    }
    if width > 0 {
      TextLength(n, width);
    }
  }
}
