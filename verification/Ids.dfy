/** Time-sortable identifiers: fixed-width Crockford base32, after the ULID specification. */
module Ids {
  import opened Ordering

  const CROCKFORD := "0123456789ABCDEFGHJKMNPQRSTVWXYZ"

  function Pow32(n: nat): (r: nat)
    ensures r >= 1
  {
    if n == 0 then 1 else 32 * Pow32(n - 1)
  }

  function Symbol(v: int): char
    requires 0 <= v < 32
  {
    CROCKFORD[v]
  }

  predicate IsSymbol(c: char) {
    '0' <= c <= '9' || ('A' <= c <= 'Z' && c !in {'I', 'L', 'O', 'U'})
  }

  /** The value of a symbol, counted from the alphabet's gaps at I, L, O and U. */
  function Digit(c: char): (d: int)
    requires IsSymbol(c)
    ensures 0 <= d < 32
  {
    if c <= '9' then c as int - '0' as int
    else if c <= 'H' then c as int - 'A' as int + 10
    else if c <= 'K' then c as int - 'J' as int + 18
    else if c <= 'N' then c as int - 'M' as int + 20
    else if c <= 'T' then c as int - 'P' as int + 22
    else c as int - 'V' as int + 27
  }

  lemma SymbolDigit(v: int)
    requires 0 <= v < 32
    ensures IsSymbol(Symbol(v)) && Digit(Symbol(v)) == v
  {
  }

  // ---------------------------------------------------------------- encoding

  function Encoded(value: int, length: nat): (s: string)
    ensures |s| == length
    decreases length
  {
    if length == 0 then "" else Encoded(value / 32, length - 1) + [Symbol(value % 32)]
  }

  /**
   Fills the buffer from the right while shifting the value. Masking and shifting agree with the
   remainder and the quotient rounded down, for negative values too.
   */
  method Encode(initial: int, length: nat) returns (s: string)
    ensures s == Encoded(initial, length)
  {
    var chars := new char[length](_ => '0');
    var value, i := initial, length;
    while i > 0
      invariant 0 <= i <= length
      invariant Encoded(initial, length) == Encoded(value, i) + chars[i..]
    {
      i := i - 1;
      ghost var done := chars[i + 1..];
      chars[i] := Symbol(value % 32);
      assert chars[i..] == [Symbol(value % 32)] + done;
      value := value / 32;
    }
    s := chars[..];
  }

  // ---------------------------------------------------------------- decoding

  ghost predicate AllSymbols(s: string) {
    forall c :: c in s ==> IsSymbol(c)
  }

  /** The number a string of symbols spells in base 32, most significant symbol first. */
  function Decoded(s: string): (r: int)
    requires AllSymbols(s)
    ensures 0 <= r < Pow32(|s|)
  {
    if s == [] then 0 else
    MulBound(Digit(s[0]), Pow32(|s| - 1));
    Digit(s[0]) * Pow32(|s| - 1) + Decoded(s[1..])
  }

  lemma MulBound(d: int, p: int)
    requires 0 <= d < 32 && p >= 1
    ensures 0 <= d * p <= 31 * p
  {
  }

  lemma {:induction false} DecodedAppend(s: string, c: char)
    requires AllSymbols(s) && IsSymbol(c)
    ensures Decoded(s + [c]) == 32 * Decoded(s) + Digit(c)
  {
    if s == [] {
      assert Decoded([c]) == Digit(c) * Pow32(0) + Decoded([]);
    } else {
      assert (s + [c])[1..] == s[1..] + [c];
      DecodedAppend(s[1..], c);
      MulShift(Digit(s[0]), Pow32(|s| - 1));
    }
  }

  lemma MulShift(d: int, p: int)
    ensures d * (32 * p) == 32 * (d * p)
  {
  }

  lemma {:induction false} EncodedSymbols(value: int, length: nat)
    ensures AllSymbols(Encoded(value, length))
    decreases length
  {
    if length > 0 {
      EncodedSymbols(value / 32, length - 1);
      SymbolDigit(value % 32);
    }
  }

  /** Decoding undoes encoding up to the digits that fit. */
  lemma {:induction false} DecodesTo(value: int, length: nat)
    ensures AllSymbols(Encoded(value, length))
    ensures Decoded(Encoded(value, length)) == value % Pow32(length)
    decreases length
  {
    EncodedSymbols(value, length);
    if length > 0 {
      DecodesTo(value / 32, length - 1);
      DecodedAppend(Encoded(value / 32, length - 1), Symbol(value % 32));
      SymbolDigit(value % 32);
      ModSplit(value, Pow32(length - 1));
    }
  }

  lemma ModSplit(value: int, p: int)
    requires p >= 1
    ensures value % (32 * p) == 32 * ((value / 32) % p) + value % 32
  {
    var q, r, k := value / 32, (value / 32) % p, (value / 32) / p;
    assert q == p * k + r;
    assert value == 32 * q + value % 32;
    var low := 32 * r + value % 32;
    MulShift(p, k);
    assert value == (32 * p) * k + low;
    RemainderUnique(value, 32 * p, k, low);
  }

  lemma RemainderUnique(n: int, m: int, k: int, r: int)
    requires m >= 1 && n == m * k + r && 0 <= r < m
    ensures n % m == r
  {
    var k0, r0 := n / m, n % m;
    assert n == m * k0 + r0;
    assert m * (k - k0) == r0 - r;
    if k > k0 {
      assert m * (k - k0) >= m by { MulAtLeast(m, k - k0); }
    } else if k < k0 {
      assert m * (k0 - k) >= m by { MulAtLeast(m, k0 - k); }
    }
  }

  lemma MulAtLeast(m: int, k: int)
    requires m >= 1 && k >= 1
    ensures m * k >= m
  {
  }

  /** The left inverse exists exactly where the value fits. */
  lemma RoundTrip(value: int, length: nat)
    ensures AllSymbols(Encoded(value, length))
    ensures Decoded(Encoded(value, length)) == value <==> 0 <= value < Pow32(length)
  {
    DecodesTo(value, length);
    if 0 <= value < Pow32(length) {
      RemainderUnique(value, Pow32(length), 0, value);
    }
  }

  // ---------------------------------------------------------------- order

  lemma SymbolOrder(a: char, b: char)
    requires IsSymbol(a) && IsSymbol(b)
    ensures a < b <==> Digit(a) < Digit(b)
  {
  }

  /** Strings of one length sort as the numbers they spell. */
  lemma {:induction false} SortsAsNumber(a: string, b: string)
    requires |a| == |b| && AllSymbols(a) && AllSymbols(b)
    ensures StrLt(a, b) <==> Decoded(a) < Decoded(b)
    ensures a == b <==> Decoded(a) == Decoded(b)
  {
    if a != [] {
      SymbolOrder(a[0], b[0]);
      SymbolOrder(b[0], a[0]);
      SortsAsNumber(a[1..], b[1..]);
      assert a == [a[0]] + a[1..] && b == [b[0]] + b[1..];
      var p := Pow32(|a| - 1);
      if Digit(a[0]) < Digit(b[0]) {
        MulStep(Digit(a[0]), Digit(b[0]), p);
      } else if Digit(b[0]) < Digit(a[0]) {
        MulStep(Digit(b[0]), Digit(a[0]), p);
      }
    }
  }

  lemma MulStep(d: int, e: int, p: int)
    requires d < e && p >= 1
    ensures d * p + p <= e * p
  {
    assert (e - d) * p >= p by { MulAtLeast(p, e - d); }
  }

  /** Encodings of equal width sort as the values do. */
  lemma EncodingsSort(a: int, b: int, length: nat)
    requires 0 <= a < Pow32(length) && 0 <= b < Pow32(length)
    ensures StrLt(Encoded(a, length), Encoded(b, length)) <==> a < b
    ensures Encoded(a, length) == Encoded(b, length) <==> a == b
  {
    RoundTrip(a, length);
    RoundTrip(b, length);
    SortsAsNumber(Encoded(a, length), Encoded(b, length));
  }

  // ---------------------------------------------------------------- new ids

  const TIMES := 0x1_0000_0000_0000
  const RANDOMS := 0x1_0000_0000_0000_0000_0000

  function Id(timeMs: int, random: int): (s: string)
    ensures |s| == 26
  {
    Encoded(timeMs % TIMES, 10) + Encoded(random, 16)
  }

  /** A 48-bit millisecond timestamp followed by 80 random bits; clock and randomness are inputs. */
  method NewId(timeMs: int, random: int) returns (s: string)
    ensures s == Id(timeMs, random)
  {
    var time := Encode(timeMs % TIMES, 10);
    var tail := Encode(random, 16);
    s := time + tail;
  }

  lemma Capacities()
    ensures Pow32(9) * 8 == TIMES && TIMES <= Pow32(10) && Pow32(16) == RANDOMS
  {
    assert Pow32(4) == 0x10_0000;
    assert Pow32(8) == 0x100_0000_0000;
    assert Pow32(12) == 0x1000_0000_0000_0000;
  }

  lemma {:induction false} StrLtPrefix(p: string, a: string, q: string, b: string)
    requires |p| == |q|
    ensures StrLt(p + a, q + b) <==> StrLt(p, q) || (p == q && StrLt(a, b))
  {
    if p == [] {
      assert p + a == a && q + b == b;
    } else {
      assert (p + a)[1..] == p[1..] + a && (q + b)[1..] == q[1..] + b;
      assert p == [p[0]] + p[1..] && q == [q[0]] + q[1..];
      StrLtPrefix(p[1..], a, q[1..], b);
    }
  }

  /** Ids sort by timestamp first and by randomness within one millisecond, and nothing else makes two ids equal. */
  lemma IdsSort(t1: int, r1: int, t2: int, r2: int)
    requires 0 <= r1 < RANDOMS && 0 <= r2 < RANDOMS
    ensures StrLt(Id(t1, r1), Id(t2, r2)) <==> t1 % TIMES < t2 % TIMES || (t1 % TIMES == t2 % TIMES && r1 < r2)
    ensures Id(t1, r1) == Id(t2, r2) <==> t1 % TIMES == t2 % TIMES && r1 == r2
  {
    Capacities();
    EncodingsSort(t1 % TIMES, t2 % TIMES, 10);
    EncodingsSort(r1, r2, 16);
    StrLtPrefix(Encoded(t1 % TIMES, 10), Encoded(r1, 16), Encoded(t2 % TIMES, 10), Encoded(r2, 16));
    var a, b := Id(t1, r1), Id(t2, r2);
    assert a[..10] == Encoded(t1 % TIMES, 10) && a[10..] == Encoded(r1, 16);
    assert b[..10] == Encoded(t2 % TIMES, 10) && b[10..] == Encoded(r2, 16);
  }

  ghost predicate Sorts(t1: int, r1: int, t2: int, r2: int) {
    StrLt(Id(t1, r1), Id(t2, r2))
  }

  ghost predicate AlwaysFirst(t1: int, t2: int) {
    forall r1, r2 :: 0 <= r1 < RANDOMS && 0 <= r2 < RANDOMS ==> Sorts(t1, r1, t2, r2)
  }

  /**
   An earlier id sorts first whatever the random parts, exactly while the 48-bit clock has not wrapped
   between the two.
   */
  lemma EarlierFirst(t1: int, t2: int)
    ensures AlwaysFirst(t1, t2) <==> t1 % TIMES < t2 % TIMES
  {
    forall r1, r2 | 0 <= r1 < RANDOMS && 0 <= r2 < RANDOMS
      ensures t1 % TIMES < t2 % TIMES ==> Sorts(t1, r1, t2, r2)
    {
      IdsSort(t1, r1, t2, r2);
    }
    IdsSort(t1, 0, t2, 0);
    assert AlwaysFirst(t1, t2) ==> Sorts(t1, 0, t2, 0);
  }

  lemma LeadingTerm(s: string, p: int)
    requires s != [] && AllSymbols(s) && p == Pow32(|s| - 1)
    ensures Digit(s[0]) * p <= Decoded(s)
  {
  }

  lemma LeadingSymbol(value: int, length: nat)
    requires length >= 1 && 0 <= value < 8 * Pow32(length - 1)
    ensures '0' <= Encoded(value, length)[0] <= '7'
  {
    var s, p := Encoded(value, length), Pow32(length - 1);
    RoundTrip(value, length);
    LeadingTerm(s, p);
    if Digit(s[0]) > 7 {
      MulStep(7, Digit(s[0]), p);
    }
  }

  /** The first symbol of an id is one of 0..7: the timestamp leaves two of the fifty bits unused. */
  lemma FirstSymbol(timeMs: int, random: int)
    ensures '0' <= Id(timeMs, random)[0] <= '7'
  {
    Capacities();
    LeadingSymbol(timeMs % TIMES, 10);
    assert Id(timeMs, random)[0] == Encoded(timeMs % TIMES, 10)[0];
  }
}
