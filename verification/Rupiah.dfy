/** Rupiah amounts: the printer's thousands grouping against the validator's reading of a number token. */
module Rupiah {
  import opened Text

  predicate IsSep(c: char) {
    c == '.' || c == ','
  }

  // The characters a number token is made of.
  predicate InNumber(c: char) {
    IsDigit(c) || IsSep(c)
  }

  ghost predicate IsToken(s: string) {
    forall c :: c in s ==> InNumber(c)
  }

  // ---------------------------------------------------------------- the printer

  function Pad3(n: nat): (s: string)
    requires n < 1000
    ensures |s| == 3 && AllDigits(s)
  {
    [CharOf(n / 100), CharOf(n / 10 % 10), CharOf(n % 10)]
  }

  /** Python's `f"{n:,}"`, with the separator as a parameter. */
  function Thousands(n: nat, sep: char): string {
    if n < 1000 then Digits(n) else Thousands(n / 1000, sep) + [sep] + Pad3(n % 1000)
  }

  function Replace(s: string, src: char, dst: char): (r: string)
    ensures |r| == |s| && forall i :: 0 <= i < |s| ==> r[i] == if s[i] == src then dst else s[i]
  {
    seq(|s|, i requires 0 <= i < |s| => if s[i] == src then dst else s[i])
  }

  function Idr(amount: nat): string {
    "Rp " + Replace(Thousands(amount, ','), ',', '.')
  }

  function Grouped(n: nat): string {
    Thousands(n, '.')
  }

  lemma {:induction false} ReplaceCommas(n: nat)
    ensures Replace(Thousands(n, ','), ',', '.') == Grouped(n)
  {
    if n < 1000 {
      assert forall i :: 0 <= i < |Digits(n)| ==> Digits(n)[i] in Digits(n);
      assert Replace(Digits(n), ',', '.') == Digits(n);
    } else {
      ReplaceCommas(n / 1000);
      var head, tail := Thousands(n / 1000, ','), [','] + Pad3(n % 1000);
      assert Thousands(n, ',') == head + tail;
      assert Replace(head + tail, ',', '.') == Replace(head, ',', '.') + Replace(tail, ',', '.');
      assert Replace(tail, ',', '.') == ['.'] + Pad3(n % 1000);
    }
  }

  /** The printed form: the currency, a blank, and groups of three digits divided by dots. */
  lemma IdrForm(n: nat)
    ensures Idr(n) == "Rp " + Grouped(n)
  {
    ReplaceCommas(n);
  }

  // ---------------------------------------------------------------- the reader

  function RStrip(s: string): string {
    if s != [] && IsSep(s[|s| - 1]) then RStrip(s[..|s| - 1]) else s
  }

  function LeadingDigits(s: string): (k: nat)
    ensures k <= |s| && AllDigits(s[..k]) && (k < |s| ==> !IsDigit(s[k]))
  {
    if s != [] && IsDigit(s[0]) then 1 + LeadingDigits(s[1..]) else 0
  }

  predicate IsTail(s: string) {
    s == [] || (|s| >= 4 && IsSep(s[0]) && IsDigit(s[1]) && IsDigit(s[2]) && IsDigit(s[3]) && IsTail(s[4..]))
  }

  /** One to three digits without a leading zero, then one or more groups of a separator and three digits. */
  predicate IsThousands(s: string) {
    var k := LeadingDigits(s);
    1 <= k <= 3 && s[0] != '0' && k < |s| && IsTail(s[k..])
  }

  function WithoutSeps(s: string): string {
    if s == [] then []
    else if IsSep(s[|s| - 1]) then WithoutSeps(s[..|s| - 1])
    else WithoutSeps(s[..|s| - 1]) + [s[|s| - 1]]
  }

  lemma {:induction false} WithoutSepsDigits(s: string)
    requires IsToken(s)
    ensures AllDigits(WithoutSeps(s))
  {
    if s != [] {
      assert s[|s| - 1] in s;
      WithoutSepsDigits(s[..|s| - 1]);
    }
  }

  function Count(s: string, c: char): nat {
    if s == [] then 0 else Count(s[..|s| - 1], c) + if s[|s| - 1] == c then 1 else 0
  }

  function IndexOf(s: string, c: char): (k: nat)
    ensures k <= |s| && c !in s[..k] && (k < |s| ==> s[k] == c)
  {
    if s == [] || s[0] == c then 0 else 1 + IndexOf(s[1..], c)
  }

  function Pow10(n: nat): (r: nat)
    ensures r >= 1
  {
    if n == 0 then 1 else 10 * Pow10(n - 1)
  }

  // Digits with at most one decimal point.
  ghost predicate IsDecimal(s: string, point: char) {
    && (forall c :: c in s ==> IsDigit(c) || c == point)
    && Count(s, point) <= 1
  }

  /** The value of digits with at most one decimal point; float rounding is not modelled. */
  function DecimalOf(s: string, point: char): real
    requires IsDecimal(s, point)
  {
    var k := IndexOf(s, point);
    OnePoint(s, point);
    if k == |s| then NumberOf(s) as real
    else NumberOf(s[..k]) as real + NumberOf(s[k + 1..]) as real / Pow10(|s| - k - 1) as real
  }

  lemma {:induction false} CountIn(s: string, c: char)
    ensures Count(s, c) == 0 <==> c !in s
  {
    if s != [] {
      CountIn(s[..|s| - 1], c);
      assert s == s[..|s| - 1] + [s[|s| - 1]];
    }
  }

  lemma {:induction false} CountSplit(a: string, b: string, c: char)
    ensures Count(a + b, c) == Count(a, c) + Count(b, c)
  {
    if b == [] {
      assert a + b == a;
    } else {
      assert (a + b)[..|a + b| - 1] == a + b[..|b| - 1];
      CountSplit(a, b[..|b| - 1], c);
    }
  }

  lemma OnePoint(s: string, point: char)
    requires IsDecimal(s, point)
    ensures AllDigits(s[..IndexOf(s, point)])
    ensures IndexOf(s, point) < |s| ==> AllDigits(s[IndexOf(s, point) + 1..])
  {
    var k := IndexOf(s, point);
    if k < |s| {
      NoMorePoints(s, k, point);
    }
  }

  lemma NoMorePoints(s: string, k: nat, point: char)
    requires k < |s| && s[k] == point && Count(s, point) <= 1
    ensures point !in s[k + 1..]
  {
    assert s == s[..k] + ([point] + s[k + 1..]);
    CountSplit(s[..k], [point] + s[k + 1..], point);
    CountSplit([point], s[k + 1..], point);
    assert Count([point], point) == 1 by { CountIn([], point); }
    CountIn(s[k + 1..], point);
  }

  ghost predicate ReadsDot(t: string) {
    Count(t, '.') <= 1 && ',' !in t
  }

  ghost predicate ReadsComma(t: string) {
    Count(t, ',') == 1 && '.' !in t
  }

  /** Every value a number token may stand for. After "Rp" a grouped form has one reading only. */
  ghost function Readings(token: string, rupiah: bool): set<real>
    requires IsToken(token)
  {
    var t := RStrip(token);
    StripsToToken(token);
    WithoutSepsDigits(t);
    var grouped := if IsThousands(t) then {NumberOf(WithoutSeps(t)) as real} else {};
    if IsThousands(t) && rupiah then grouped
    else if ReadsDot(t) then grouped + {DecimalOf(t, '.')}
    else if ReadsComma(t) then grouped + {DecimalOf(t, ',')}
    else grouped
  }

  lemma {:induction false} StripsToToken(s: string)
    requires IsToken(s)
    ensures IsToken(RStrip(s))
  {
    if s != [] && IsSep(s[|s| - 1]) {
      StripsToToken(s[..|s| - 1]);
    }
  }

  method Interpretations(original: string, rupiah: bool) returns (values: set<real>)
    requires IsToken(original)
    ensures values == Readings(original, rupiah)
  {
    var token := RStrip(original);
    StripsToToken(original);
    WithoutSepsDigits(token);
    values := {};
    if IsThousands(token) {
      values := values + {NumberOf(WithoutSeps(token)) as real};
      if rupiah {
        return;
      }
    }
    if Count(token, '.') <= 1 && ',' !in token {
      values := values + {DecimalOf(token, '.')};
    } else if Count(token, ',') == 1 && '.' !in token {
      values := values + {DecimalOf(token, ',')};
    }
  }

  // ---------------------------------------------------------------- the shape of a printed amount

  lemma {:induction false} WithoutSepsSplit(a: string, b: string)
    ensures WithoutSeps(a + b) == WithoutSeps(a) + WithoutSeps(b)
  {
    if b == [] {
      assert a + b == a;
    } else {
      assert (a + b)[..|a + b| - 1] == a + b[..|b| - 1];
      WithoutSepsSplit(a, b[..|b| - 1]);
    }
  }

  lemma {:induction false} DigitsKept(s: string)
    requires AllDigits(s)
    ensures WithoutSeps(s) == s
  {
    if s != [] {
      assert s[|s| - 1] in s;
      DigitsKept(s[..|s| - 1]);
      assert s == s[..|s| - 1] + [s[|s| - 1]];
    }
  }

  lemma ThreeDigits(n: nat)
    ensures 10 * (10 * (n / 100) + n / 10 % 10) + n % 10 == n
  {
  }

  lemma Pad3Spells(s: string, n: nat)
    requires AllDigits(s) && n < 1000
    ensures NumberOf(s + Pad3(n)) == 1000 * NumberOf(s) + n
  {
    var a, b, c := CharOf(n / 100), CharOf(n / 10 % 10), CharOf(n % 10);
    NumberAppend(s, a);
    NumberAppend(s + [a], b);
    NumberAppend(s + [a] + [b], c);
    assert s + Pad3(n) == s + [a] + [b] + [c];
    ThreeDigits(n);
  }

  lemma Pad3Number(n: nat)
    requires n < 1000
    ensures NumberOf(Pad3(n)) == n
  {
    Pad3Spells([], n);
    assert [] + Pad3(n) == Pad3(n);
  }

  // One more group at the end of an amount.
  function Group(n: nat): string
    requires n < 1000
  {
    ['.'] + Pad3(n)
  }

  lemma GroupedStep(n: nat)
    requires n >= 1000
    ensures Grouped(n) == Grouped(n / 1000) + Group(n % 1000)
  {
    assert Grouped(n) == Grouped(n / 1000) + ['.'] + Pad3(n % 1000);
  }

  lemma {:induction false} GroupedToken(n: nat)
    ensures Grouped(n) != [] && IsToken(Grouped(n)) && ',' !in Grouped(n)
    ensures IsDigit(Grouped(n)[0]) && IsDigit(Grouped(n)[|Grouped(n)| - 1])
  {
    if n < 1000 {
      assert Digits(n)[0] in Digits(n) && Digits(n)[|Digits(n)| - 1] in Digits(n);
    } else {
      GroupedToken(n / 1000);
      GroupedStep(n);
      var p := Pad3(n % 1000);
      assert p[0] in p && p[1] in p && p[2] in p;
    }
  }

  lemma GroupDigits(r: nat)
    requires r < 1000
    ensures WithoutSeps(Group(r)) == Pad3(r)
  {
    WithoutSepsSplit(['.'], Pad3(r));
    DigitsKept(Pad3(r));
    assert WithoutSeps(['.']) == [];
  }

  lemma {:induction false} GroupedSpells(n: nat)
    ensures AllDigits(WithoutSeps(Grouped(n))) && NumberOf(WithoutSeps(Grouped(n))) == n
  {
    if n < 1000 {
      DigitsSpell(n);
      DigitsKept(Digits(n));
    } else {
      GroupedSpells(n / 1000);
      GroupedStep(n);
      WithoutSepsSplit(Grouped(n / 1000), Group(n % 1000));
      GroupDigits(n % 1000);
      Pad3Spells(WithoutSeps(Grouped(n / 1000)), n % 1000);
    }
  }

  lemma {:induction false} TailGrows(s: string, r: nat)
    requires IsTail(s) && r < 1000
    ensures IsTail(s + Group(r))
  {
    if s == [] {
      assert s + Group(r) == Group(r) && Group(r)[4..] == [];
    } else {
      assert (s + Group(r))[4..] == s[4..] + Group(r);
      TailGrows(s[4..], r);
    }
  }

  lemma {:induction false} LeadingIs(s: string, k: nat)
    requires k <= |s| && AllDigits(s[..k]) && (k < |s| ==> !IsDigit(s[k]))
    ensures LeadingDigits(s) == k
  {
    if k > 0 {
      assert s[0] in s[..k];
      assert s[1..][..k - 1] == s[..k][1..];
      LeadingIs(s[1..], k - 1);
    }
  }

  lemma ThousandsGrows(s: string, r: nat)
    requires r < 1000
    requires IsThousands(s) || (1 <= |s| <= 3 && AllDigits(s) && s[0] != '0')
    ensures IsThousands(s + Group(r))
  {
    var k := LeadingDigits(s);
    if !IsThousands(s) {
      LeadingIs(s, |s|);
    }
    var longer := s + Group(r);
    assert longer[..k] == s[..k] && longer[k..] == s[k..] + Group(r);
    LeadingIs(longer, k);
    TailGrows(s[k..], r);
  }

  lemma ShortDigits(n: nat)
    requires n < 1000
    ensures |Digits(n)| <= 3
  {
    if n >= 10 {
      var m := n / 10;
      assert |Digits(m)| <= 2 by {
        if m >= 10 { assert m / 10 < 10; }
      }
    }
  }

  lemma {:induction false} GroupedIsThousands(n: nat)
    ensures IsThousands(Grouped(n)) <==> n >= 1000
  {
    if n < 1000 {
      LeadingIs(Digits(n), |Digits(n)|);
    } else {
      GroupedIsThousands(n / 1000);
      GroupedStep(n);
      if n / 1000 < 1000 {
        ShortDigits(n / 1000);
        DigitsSpell(n / 1000);
      }
      ThousandsGrows(Grouped(n / 1000), n % 1000);
    }
  }

  lemma {:induction false} StripsTrail(s: string, trail: string)
    requires s != [] && !IsSep(s[|s| - 1]) && forall c :: c in trail ==> IsSep(c)
    ensures RStrip(s + trail) == s
  {
    if trail == [] {
      assert s + trail == s;
    } else {
      assert (s + trail)[..|s + trail| - 1] == s + trail[..|trail| - 1];
      StripsTrail(s, trail[..|trail| - 1]);
    }
  }

  lemma {:induction false} Dots(n: nat)
    ensures Count(Grouped(n), '.') == 0 <==> n < 1000
    ensures Count(Grouped(n), '.') == 1 <==> 1000 <= n < 1000000
  {
    if n < 1000 {
      CountIn(Digits(n), '.');
    } else {
      GroupedStep(n);
      Dots(n / 1000);
      CountSplit(Grouped(n / 1000), Group(n % 1000), '.');
      CountSplit(['.'], Pad3(n % 1000), '.');
      CountIn(Pad3(n % 1000), '.');
      assert Count(['.'], '.') == 1 by { CountIn([], '.'); }
    }
  }

  lemma PlainDecimal(n: nat)
    requires n < 1000
    ensures IsDecimal(Grouped(n), '.') && DecimalOf(Grouped(n), '.') == n as real
  {
    Dots(n);
    DigitsSpell(n);
    CountIn(Grouped(n), '.');
    WholeNumber(Grouped(n), '.');
  }

  lemma WholeNumber(s: string, point: char)
    requires AllDigits(s) && point !in s && IsDecimal(s, point)
    ensures DecimalOf(s, point) == NumberOf(s) as real
  {
    NotFound(s, point);
  }

  lemma {:induction false} NotFound(s: string, c: char)
    requires c !in s
    ensures IndexOf(s, c) == |s|
  {
    if s != [] {
      assert s[0] in s;
      NotFound(s[1..], c);
    }
  }

  lemma {:induction false} IndexIs(s: string, c: char, k: nat)
    requires k < |s| && s[k] == c && c !in s[..k]
    ensures IndexOf(s, c) == k
  {
    if k > 0 {
      assert s[0] in s[..k];
      assert s[1..][..k - 1] == s[..k][1..];
      IndexIs(s[1..], c, k - 1);
    }
  }

  lemma DecimalAt(s: string, point: char, k: nat)
    requires IsDecimal(s, point) && k < |s| && IndexOf(s, point) == k
    requires AllDigits(s[..k]) && AllDigits(s[k + 1..])
    ensures DecimalOf(s, point) == NumberOf(s[..k]) as real + NumberOf(s[k + 1..]) as real / Pow10(|s| - k - 1) as real
  {
  }

  lemma SplitNumber(s: string, head: string, point: char, tail: string)
    requires s == head + [point] + tail && IsDecimal(s, point)
    requires AllDigits(head) && AllDigits(tail) && !IsDigit(point)
    ensures DecimalOf(s, point) == NumberOf(head) as real + NumberOf(tail) as real / Pow10(|tail|) as real
  {
    var k := |head|;
    assert s[..k] == head && s[k + 1..] == tail;
    assert point !in head;
    IndexIs(s, point, k);
    DecimalAt(s, point, k);
  }

  lemma OneGroup(n: nat)
    requires 1000 <= n < 1000000
    ensures Grouped(n) == Digits(n / 1000) + ['.'] + Pad3(n % 1000) && IsDecimal(Grouped(n), '.')
  {
    GroupedStep(n);
    Dots(n);
    GroupedToken(n);
  }

  lemma PointDecimal(n: nat)
    requires 1000 <= n < 1000000
    ensures IsDecimal(Grouped(n), '.') && DecimalOf(Grouped(n), '.') == n as real / 1000.0
  {
    var q, r := n / 1000, n % 1000;
    OneGroup(n);
    SplitNumber(Grouped(n), Digits(q), '.', Pad3(r));
    DigitsSpell(q);
    Pad3Number(r);
    Thousandths(q, r);
  }

  lemma Thousandths(q: nat, r: nat)
    ensures q as real + r as real / Pow10(3) as real == (1000 * q + r) as real / 1000.0
  {
    assert Pow10(3) == 1000;
  }

  // ---------------------------------------------------------------- the round trip

  lemma ReadsDecimal(token: string, t: string, rupiah: bool)
    requires IsToken(token) && RStrip(token) == t && !IsThousands(t) && ReadsDot(t) && IsDecimal(t, '.')
    ensures Readings(token, rupiah) == {DecimalOf(t, '.')}
  {
  }

  lemma ReadsBoth(token: string, t: string)
    requires IsToken(token) && RStrip(token) == t && IsThousands(t) && ReadsDot(t) && IsDecimal(t, '.')
    requires AllDigits(WithoutSeps(t))
    ensures Readings(token, false) == {NumberOf(WithoutSeps(t)) as real, DecimalOf(t, '.')}
  {
  }

  lemma ReadsGrouped(token: string, t: string, rupiah: bool)
    requires IsToken(token) && RStrip(token) == t && IsThousands(t) && (rupiah || (!ReadsDot(t) && !ReadsComma(t)))
    requires AllDigits(WithoutSeps(t))
    ensures Readings(token, rupiah) == {NumberOf(WithoutSeps(t)) as real}
  {
  }

  lemma Stripped(n: nat, trail: string)
    requires forall c :: c in trail ==> IsSep(c)
    ensures IsToken(Grouped(n) + trail) && RStrip(Grouped(n) + trail) == Grouped(n)
  {
    GroupedToken(n);
    StripsTrail(Grouped(n), trail);
  }

  /** Read as rupiah, a printed amount is the amount and nothing else, whatever dots or commas trail it. */
  lemma RupiahRoundTrip(n: nat, trail: string)
    requires forall c :: c in trail ==> IsSep(c)
    ensures IsToken(Grouped(n) + trail)
    ensures Readings(Grouped(n) + trail, true) == {n as real}
  {
    Stripped(n, trail);
    GroupedIsThousands(n);
    if n < 1000 {
      SmallAmount(n, trail, true);
    } else {
      GroupedSpells(n);
      ReadsGrouped(Grouped(n) + trail, Grouped(n), true);
    }
  }

  lemma SmallAmount(n: nat, trail: string, rupiah: bool)
    requires n < 1000 && forall c :: c in trail ==> IsSep(c)
    ensures IsToken(Grouped(n) + trail) && Readings(Grouped(n) + trail, rupiah) == {n as real}
  {
    Stripped(n, trail);
    GroupedIsThousands(n);
    GroupedToken(n);
    PlainDecimal(n);
    ReadsDecimal(Grouped(n) + trail, Grouped(n), rupiah);
  }

  lemma MiddleAmount(n: nat, trail: string)
    requires 1000 <= n < 1000000 && forall c :: c in trail ==> IsSep(c)
    ensures IsToken(Grouped(n) + trail) && Readings(Grouped(n) + trail, false) == {n as real, n as real / 1000.0}
  {
    Stripped(n, trail);
    GroupedIsThousands(n);
    GroupedSpells(n);
    GroupedToken(n);
    PointDecimal(n);
    ReadsBoth(Grouped(n) + trail, Grouped(n));
  }

  lemma LargeAmount(n: nat, trail: string)
    requires n >= 1000000 && forall c :: c in trail ==> IsSep(c)
    ensures IsToken(Grouped(n) + trail) && Readings(Grouped(n) + trail, false) == {n as real}
  {
    Stripped(n, trail);
    GroupedIsThousands(n);
    GroupedSpells(n);
    GroupedToken(n);
    Dots(n);
    CountIn(Grouped(n), ',');
    ReadsGrouped(Grouped(n) + trail, Grouped(n), false);
  }

  /** Without "Rp" the amounts of one group have a second, decimal reading. */
  lemma PlainReadings(n: nat, trail: string)
    requires forall c :: c in trail ==> IsSep(c)
    ensures IsToken(Grouped(n) + trail)
    ensures Readings(Grouped(n) + trail, false) ==
      if 1000 <= n < 1000000 then {n as real, n as real / 1000.0} else {n as real}
  {
    if n < 1000 {
      SmallAmount(n, trail, false);
    } else if n < 1000000 {
      MiddleAmount(n, trail);
    } else {
      LargeAmount(n, trail);
    }
  }

  /** Those are the only amounts for which the leading "Rp" makes a difference. */
  lemma RpMatters(n: nat, trail: string)
    requires forall c :: c in trail ==> IsSep(c)
    ensures IsToken(Grouped(n) + trail)
    ensures Readings(Grouped(n) + trail, false) != Readings(Grouped(n) + trail, true) <==> 1000 <= n < 1000000
  {
    PlainReadings(n, trail);
    RupiahRoundTrip(n, trail);
    var x, y := n as real, n as real / 1000.0;
    assert n > 0 ==> x != y;
    assert y in {x, y};
  }
}
