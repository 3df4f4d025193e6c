/** The opening sentence of the template narration against the narration validator's number reader. */
module Template {
  import opened Ordering
  import opened Text
  import opened Rupiah
  import opened Narration

  function Pad2(n: nat): (s: string)
    requires n < 100
    ensures |s| == 2 && AllDigits(s)
  {
    [CharOf(n / 10), CharOf(n % 10)]
  }

  /** A number with two decimals, given in hundredths and with its sign. */
  function TwoDecimals(negative: bool, cents: nat): string {
    (if negative then "-" else "") + Pointed(Digits(cents / 100), Pad2(cents % 100))
  }

  // Words, each followed by a blank.
  function Spaced(words: seq<string>): string {
    if words == [] then [] else words[0] + (" " + Spaced(words[1..]))
  }

  function Words(isGroup: bool): seq<string> {
    if isGroup then ["Recommended", "for", "this", "transaction", "circle:"]
    else ["Recommended", "for", "this", "user:"]
  }

  function Opening(isGroup: bool): string {
    Spaced(Words(isGroup))
  }

  // The sentence up to the cost, and from the priority on.
  function CostLead(isGroup: bool, name: string): string {
    Opening(isGroup) + (name + " (cost ")
  }

  function PriorityTail(negative: bool, cents: nat, strategy: string): string {
    " priority " + (TwoDecimals(negative, cents) + (" via " + (strategy + ").")))
  }

  function FirstSentence(isGroup: bool, name: string, cost: nat, negative: bool, cents: nat, strategy: string): string {
    CostLead(isGroup, name) + Idr(cost) + "," + PriorityTail(negative, cents, strategy)
  }

  // ---------------------------------------------------------------- texts without digits

  ghost predicate NoDigits(s: string) {
    forall c :: c in s ==> !IsDigit(c)
  }

  lemma {:induction false} RpKeepsPlain(s: string)
    requires NoDigits(s)
    ensures RpSub(s) == s
  {
    if s != [] {
      assert s[0] in s && (|s| > 2 ==> s[2] in s) && (|s| > 3 ==> s[3] in s);
      RpKeepsPlain(s[1..]);
    }
  }

  lemma {:induction false} ScanPlain(t: string, i: nat)
    requires NoDigits(t) && i <= |t|
    ensures ScanFrom(t, i) == []
    decreases |t| - i
  {
    if i < |t| {
      assert t[i] in t;
      ScanStep(ReadToken, RpMark, t, i);
      ScanPlain(t, i + 1);
    }
  }

  lemma {:induction false} ShortText(s: string)
    requires |s| < 12
    ensures HexSub(s) == s && HexIds(s) == []
    decreases |s|
  {
    if s != [] {
      HexStep(s);
      ShortStep(s);
      ShortText(s[StepLength(s)..]);
      HeadAndRest(s, StepLength(s));
    }
  }

  lemma ShortStep(s: string)
    requires s != [] && |s| < 12
    ensures StepText(s) == s[..StepLength(s)] && StepIds(s) == []
  {
  }

  lemma HeadAndRest(s: string, k: nat)
    requires k <= |s|
    ensures s[..k] + s[k..] == s
  {
  }

  // A text without digits in which nothing looks like a hex id.
  ghost predicate Fixed(s: string) {
    NoDigits(s) && HexSub(s) == s && HexIds(s) == []
  }

  lemma ShortFixed(s: string)
    requires |s| < 12 && NoDigits(s)
    ensures Fixed(s)
  {
    ShortText(s);
  }

  lemma FixedJoin(a: string, b: string)
    requires Fixed(a) && Fixed(b) && Boundary(a, b)
    ensures Fixed(a + b)
  {
    HexSplit(a, b);
  }

  lemma {:induction false} SpacedFixed(words: seq<string>)
    requires forall w :: w in words ==> |w| < 12 && NoDigits(w)
    ensures Fixed(Spaced(words))
  {
    if words != [] {
      assert words[0] in words;
      SpacedFixed(words[1..]);
      var blank := [' '];
      ShortFixed(words[0]);
      ShortFixed(blank);
      FixedJoin(blank, Spaced(words[1..]));
      FixedJoin(words[0], blank + Spaced(words[1..]));
    }
  }

  lemma {:induction false} SpacedQuiet(words: seq<string>)
    requires words != [] && words[|words| - 1] != []
    requires var w := words[|words| - 1]; var c := w[|w| - 1]; !IsSpace(c) && c != 'p' && c != '.'
    ensures QuietEnd(Spaced(words))
  {
    var rest := Spaced(words[1..]);
    assert Spaced(words) == words[0] + (" " + rest);
    if |words| > 1 {
      SpacedQuiet(words[1..]);
      var s, n := Spaced(words), |Spaced(words)|;
      assert s[n - 1] == rest[|rest| - 1] && s[n - 2] == rest[|rest| - 2];
    }
  }

  // ---------------------------------------------------------------- cutting the text between its parts

  lemma {:induction false} RpSplitBefore(a: string, b: string)
    requires b != [] ==> !IsWord(b[0]) && !IsSep(b[0])
    ensures RpSub(a + b) == RpSub(a) + RpSub(b)
    decreases |a|
  {
    if a == [] {
      assert a + b == b;
    } else {
      var s := a + b;
      assert GluedDot(s) <==> GluedDot(a);
      assert Glued(s) <==> Glued(a);
      var k := if GluedDot(a) then 3 else if Glued(a) then 2 else 1;
      assert s[k..] == a[k..] + b;
      RpSplitBefore(a[k..], b);
    }
  }

  /** Two normalised parts are read on their own if no number, start of a token or mark runs across the cut. */
  lemma ScanJoin(a: string, b: string)
    requires Parted(a, b) && FreshStart(a, b)
    requires forall j: nat :: j < |b| && StartsToken(b, j) ==> SameMark(RpMark, a, b, j)
    ensures ScanFrom(a + b, 0) == ScanFrom(a, 0) + ScanFrom(b, 0)
  {
    ScanFront(ReadToken, RpMark, a, b, 0);
    ScanBack(ReadToken, RpMark, a, b, a + b, 0);
  }

  // A front part that ends in a blank and, before it, in no part of an "Rp" mark.
  predicate QuietEnd(a: string) {
    && |a| >= 2 && a[|a| - 1] == ' '
    && !IsSpace(a[|a| - 2]) && a[|a| - 2] != 'p' && a[|a| - 2] != '.'
  }

  lemma QuietTrim(x: string, y: string)
    requires x != [] && x[|x| - 1] == ' '
    requires |x| >= 2 ==> !IsSpace(x[|x| - 2]) && x[|x| - 2] != 'p' && x[|x| - 2] != '.'
    ensures EndsRp(TrimRight(x + y)) == EndsRp(TrimRight(y))
    decreases |y|
  {
    if y == [] {
      assert x + y == x;
      assert x[..|x| - 1] == [] || TrimRight(x[..|x| - 1]) == x[..|x| - 1];
    } else if IsSpace(y[|y| - 1]) {
      assert (x + y)[..|x + y| - 1] == x + y[..|y| - 1];
      QuietTrim(x, y[..|y| - 1]);
    } else {
      QuietEnds(x, y);
    }
  }

  lemma QuietEnds(x: string, y: string)
    requires x != [] && x[|x| - 1] == ' ' && y != [] && !IsSpace(y[|y| - 1])
    ensures EndsRp(TrimRight(x + y)) == EndsRp(TrimRight(y))
  {
    var w, n := x + y, |x + y|;
    assert w[n - 1] == y[|y| - 1];
    assert |y| >= 2 ==> w[n - 2] == y[|y| - 2];
    assert |y| >= 3 ==> w[n - 3] == y[|y| - 3];
    assert |y| == 1 ==> w[n - 2] == ' ';
    assert |y| == 2 ==> w[n - 3] == ' ';
  }

  lemma QuietMark(a: string, b: string, j: nat)
    requires QuietEnd(a) && j <= |b|
    ensures SameMark(RpMark, a, b, j)
  {
    var t, at := a + b, |a| + j;
    if j >= 4 {
      assert Window(t, at) == Window(b, j);
    } else {
      var start := if at < 4 then 0 else at - 4;
      SliceAcross(a, b, start, j);
      assert Window(b, j) == b[..j];
      QuietTrim(a[start..], b[..j]);
    }
  }

  /** A fixed text without digits that ends quietly can be put in front of any text. */
  lemma BehindFixed(a: string, b: string)
    requires Fixed(a) && QuietEnd(a)
    ensures Extracted(a + b) == Extracted(b) && HexIds(a + b) == HexIds(b)
  {
    HexSplit(a, b);
    RpSplit(a, HexSub(b));
    RpKeepsPlain(a);
    QuietJoin(a, Normalised(b));
    ScanPlain(a, 0);
  }

  lemma QuietJoin(a: string, back: string)
    requires QuietEnd(a)
    ensures ScanFrom(a + back, 0) == ScanFrom(a, 0) + ScanFrom(back, 0)
  {
    forall j: nat | j < |back| && StartsToken(back, j) ensures SameMark(RpMark, a, back, j) {
      QuietMark(a, back, j);
    }
    ScanJoin(a, back);
  }

  // A fixed text without digits that can follow any text, with more text behind it only after four characters.
  predicate CalmStart(q: string, more: string) {
    && q != [] && !IsWord(q[0]) && !IsSep(q[0])
    && (more == [] || (|q| >= 4 && q[|q| - 1] == ' '))
  }

  lemma NormalisedBehind(q: string, more: string)
    requires Fixed(q) && CalmStart(q, more)
    ensures HexSub(q + more) == q + HexSub(more) && Normalised(q + more) == q + Normalised(more)
    ensures HexIds(q + more) == HexIds(more)
  {
    RpKeepsPlain(q);
    if more == [] {
      assert q + more == q && HexSub(more) == [] && Normalised(more) == [];
      assert q + Normalised(more) == q && q + HexSub(more) == q;
    } else {
      HexSplit(q, more);
      RpSplit(q, HexSub(more));
    }
  }

  /** Such a fixed text, and what is behind it, can be put after any text. */
  lemma BeforeFixed(x: string, q: string, more: string)
    requires Fixed(q) && CalmStart(q, more)
    ensures Extracted(x + (q + more)) == Extracted(x) + Extracted(q + more)
    ensures HexIds(x + (q + more)) == HexIds(x) + HexIds(more)
  {
    var tail := q + more;
    NormalisedBehind(q, more);
    HexSplit(x, tail);
    assert HexSub(tail)[0] == q[0];
    RpSplitBefore(HexSub(x), HexSub(tail));
    var front, back := Normalised(x), Normalised(tail);
    assert back == q + Normalised(more) && back[0] == q[0];
    forall j: nat | j < |back| && StartsToken(back, j) ensures SameMark(RpMark, front, back, j) {
      CalmToken(q, Normalised(more), j);
      FarMark(front, back, j);
    }
    ScanJoin(front, back);
  }

  lemma CalmToken(q: string, rest: string, j: nat)
    requires NoDigits(q) && j < |q + rest| && StartsToken(q + rest, j)
    ensures j >= |q| && rest != []
  {
    forall i | 0 <= i < |q| ensures !IsDigit((q + rest)[i]) {
      assert q[i] in q;
    }
  }

  lemma FarMark(front: string, back: string, j: nat)
    requires 4 <= j <= |back|
    ensures SameMark(RpMark, front, back, j)
  {
    BackSlice(front, back, j - 4, j);
  }

  // ---------------------------------------------------------------- the number with two decimals

  // Digits, a point and two more digits.
  function Pointed(d: string, p: string): string {
    d + (['.'] + p)
  }

  lemma PointedToken(d: string, p: string)
    requires AllDigits(d) && d != [] && AllDigits(p)
    ensures IsToken(Pointed(d, p)) && IsDigit(Pointed(d, p)[0]) && 'R' !in Pointed(d, p)
  {
    assert forall c :: c in Pointed(d, p) ==> c in d || c == '.' || c in p;
    assert Pointed(d, p)[0] == d[0] && d[0] in d;
  }

  // A text the cleaning leaves alone.
  ghost predicate Unchanged(t: string) {
    HexSub(t) == t && RpSub(t) == t && HexIds(t) == []
  }

  lemma PointedText(d: string, p: string)
    requires AllDigits(d) && 0 < |d| < 12 && AllDigits(p) && |p| == 2
    ensures Unchanged(Pointed(d, p))
  {
    PointedHex(d, p);
    PointedToken(d, p);
    RpAbsent(Pointed(d, p));
  }

  lemma PointedHex(d: string, p: string)
    requires AllDigits(d) && 0 < |d| < 12 && |p| == 2
    ensures HexSub(Pointed(d, p)) == Pointed(d, p) && HexIds(Pointed(d, p)) == []
  {
    var point := ['.'];
    ShortText(d);
    ShortText(point + p);
    HexSplit(d, point + p);
  }

  lemma RpAbsent(t: string)
    requires 'R' !in t
    ensures RpSub(t) == t
  {
    assert t + [] == t;
    NoRp(t, []);
  }

  lemma PointedCount(d: string, p: string)
    requires AllDigits(d) && AllDigits(p)
    ensures Count(Pointed(d, p), '.') == 1 && ',' !in Pointed(d, p)
  {
    CountSplit(d, ['.'] + p, '.');
    CountSplit(['.'], p, '.');
    CountIn(d, '.');
    CountIn(p, '.');
    assert Count(['.'], '.') == 1 by { CountIn([], '.'); }
    assert forall c :: c in Pointed(d, p) ==> c in d || c == '.' || c in p;
  }

  lemma PointedReading(d: string, p: string)
    requires AllDigits(d) && d != [] && AllDigits(p) && |p| == 2
    ensures IsToken(Pointed(d, p))
    ensures Readings(Pointed(d, p), false) == {NumberOf(d) as real + NumberOf(p) as real / 100.0}
  {
    var t := Pointed(d, p);
    PointedToken(d, p);
    PointedEnd(d, p);
    NotThousands(d, p);
    PointedCount(d, p);
    PointedIsDecimal(d, p);
    Regroup(d, ['.'], p);
    PointedDecimal(t, d, p);
    ReadsDecimal(t, t, false);
  }

  lemma PointedEnd(d: string, p: string)
    requires AllDigits(p) && |p| == 2
    ensures RStrip(Pointed(d, p)) == Pointed(d, p)
  {
    var t := Pointed(d, p);
    assert t[|t| - 1] == p[1] && p[1] in p;
  }

  lemma PointedDecimal(t: string, d: string, p: string)
    requires t == d + ['.'] + p && IsDecimal(t, '.') && AllDigits(d) && AllDigits(p) && |p| == 2
    ensures DecimalOf(t, '.') == NumberOf(d) as real + NumberOf(p) as real / 100.0
  {
    SplitNumber(t, d, '.', p);
    PowOfTwo(|p|);
    SameQuotient(NumberOf(p) as real, Pow10(|p|));
  }

  lemma SameQuotient(x: real, m: nat)
    requires m == 100
    ensures x / m as real == x / 100.0
  {
  }

  lemma PowOfTwo(k: nat)
    requires k == 2
    ensures Pow10(k) == 100
  {
    assert Pow10(0) == 1 && Pow10(1) == 10;
  }

  lemma PointedIsDecimal(d: string, p: string)
    requires AllDigits(d) && AllDigits(p)
    ensures IsDecimal(Pointed(d, p), '.')
  {
    PointedCount(d, p);
    assert forall c :: c in Pointed(d, p) ==> c in d || c == '.' || c in p;
  }

  lemma CentsValue(cents: nat)
    ensures var t := Pointed(Digits(cents / 100), Pad2(cents % 100));
      IsToken(t) && Readings(t, false) == {cents as real / 100.0}
  {
    PointedReading(Digits(cents / 100), Pad2(cents % 100));
    DigitsSpell(cents / 100);
    Pad2Number(cents % 100);
    Hundredths(cents / 100, cents % 100);
  }

  lemma NotThousands(d: string, p: string)
    requires AllDigits(d) && |p| == 2
    ensures !IsThousands(Pointed(d, p))
  {
    var t := Pointed(d, p);
    assert t[..|d|] == d && t[|d|] == '.';
    LeadingIs(t, |d|);
    assert |t[|d|..]| == 3;
  }

  lemma Pad2Number(n: nat)
    requires n < 100
    ensures NumberOf(Pad2(n)) == n
  {
    var a, b := CharOf(n / 10), CharOf(n % 10);
    NumberAppend([], a);
    NumberAppend([a], b);
    assert [] + [a] == [a] && [a] + [b] == Pad2(n);
  }

  lemma Hundredths(q: nat, r: nat)
    ensures q as real + r as real / 100.0 == (100 * q + r) as real / 100.0
  {
  }

  lemma CentsToken(t: string)
    requires t != [] && IsToken(t) && IsDigit(t[0])
    ensures ScanFrom(t, 0) == ReadToken(t, false)
    ensures ScanFrom("-" + t, 0) == ReadToken(t, false)
  {
    assert forall j :: 0 <= j < |t| ==> t[j] in t;
    TokenEndIs(t, 0, |t|);
    assert t[0..|t|] == t;
    assert !RpMark(Window(t, 0));
    ScanStep(ReadToken, RpMark, t, 0);
    forall j: nat | j < |t| && StartsToken(t, j) ensures SameMark(RpMark, "-", t, j) {
      assert j == 0;
      assert Window("-" + t, 1) == "-" && Window(t, 0) == [];
      assert TrimRight("-") == "-" && TrimRight([]) == [];
    }
    ScanJoin("-", t);
    ScanPlain("-", 0);
  }

  /** Two decimals are read as their number, whatever its sign, unless the whole part is as long as a hex id. */
  lemma CentsRead(negative: bool, cents: nat)
    requires |Digits(cents / 100)| < 12
    ensures Extracted(TwoDecimals(negative, cents)) == [{cents as real / 100.0}]
    ensures HexIds(TwoDecimals(negative, cents)) == []
  {
    CentsValue(cents);
    PointedRead(negative, Digits(cents / 100), Pad2(cents % 100), cents as real / 100.0);
  }

  lemma PointedRead(negative: bool, d: string, p: string, value: real)
    requires AllDigits(d) && 0 < |d| < 12 && AllDigits(p) && |p| == 2
    requires IsToken(Pointed(d, p)) && Readings(Pointed(d, p), false) == {value}
    ensures var text := (if negative then "-" else "") + Pointed(d, p);
      Extracted(text) == [{value}] && HexIds(text) == []
  {
    var t := Pointed(d, p);
    PointedToken(d, p);
    PointedText(d, p);
    CentsToken(t);
    if negative {
      SignKept(t);
    } else {
      assert "" + t == t;
    }
  }

  lemma SignKept(t: string)
    requires Unchanged(t) && 'R' !in t
    ensures Normalised("-" + t) == "-" + t && HexIds("-" + t) == []
  {
    ShortText("-");
    HexSplit("-", t);
    RpAbsent("-" + t);
  }

  // ---------------------------------------------------------------- the whole sentence

  // The lemmas about fixed texts hand them on as variables, so that nothing computes with the characters later.
  lemma OpeningWords(isGroup: bool) returns (words: seq<string>)
    ensures Opening(isGroup) == Spaced(words) && words != [] && words[|words| - 1] != []
    ensures forall w :: w in words ==> |w| < 12 && NoDigits(w)
    ensures var w := words[|words| - 1]; w[|w| - 1] == ':'
  {
    words := Words(isGroup);
  }

  lemma OpeningFixed(isGroup: bool) returns (opening: string)
    ensures opening == Opening(isGroup) && Fixed(opening) && QuietEnd(opening)
  {
    var words := OpeningWords(isGroup);
    SpacedFixed(words);
    SpacedQuiet(words);
    opening := Spaced(words);
  }

  lemma NothingRead(s: string)
    requires Fixed(s)
    ensures Extracted(s) == []
  {
    RpKeepsPlain(s);
    ScanPlain(s, 0);
  }

  // A text between two fixed ones, the second of them last.
  lemma BetweenFixed(a: string, x: string, q: string)
    requires Fixed(a) && QuietEnd(a) && Fixed(q) && CalmStart(q, [])
    ensures Extracted(a + (x + q)) == Extracted(x) && HexIds(a + (x + q)) == HexIds(x)
  {
    assert q + [] == q;
    BehindFixed(a, x + q);
    BeforeFixed(x, q, []);
    NothingRead(q);
  }

  lemma CostText(isGroup: bool, name: string) returns (q: string)
    ensures CostLead(isGroup, name) + "Rp " == Opening(isGroup) + (name + q)
    ensures Fixed(q) && CalmStart(q, [])
  {
    q := " (cost " + "Rp ";
    ShortFixed(q);
    Regroup(name, " (cost ", "Rp ");
    Regroup(Opening(isGroup), name + " (cost ", "Rp ");
  }

  /** What is read up to the cost are the numbers of the name. */
  lemma LeadReads(isGroup: bool, name: string)
    ensures Extracted(CostLead(isGroup, name) + "Rp ") == Extracted(name)
    ensures HexIds(CostLead(isGroup, name) + "Rp ") == HexIds(name)
  {
    var opening := OpeningFixed(isGroup);
    var q := CostText(isGroup, name);
    BetweenFixed(opening, name, q);
  }

  // Two texts between three fixed ones.
  lemma TwoBetweenFixed(a: string, x: string, q: string, y: string, z: string)
    requires Fixed(a) && QuietEnd(a) && Fixed(q) && QuietEnd(q) && Fixed(z) && CalmStart(z, [])
    requires CalmStart(q, y + z)
    ensures Extracted(a + (x + (q + (y + z)))) == Extracted(x) + Extracted(y)
    ensures HexIds(a + (x + (q + (y + z)))) == HexIds(x) + HexIds(y)
  {
    BehindFixed(a, x + (q + (y + z)));
    MiddleFixed(x, q, y, z);
  }

  lemma MiddleFixed(x: string, q: string, y: string, z: string)
    requires Fixed(q) && QuietEnd(q) && Fixed(z) && CalmStart(z, []) && CalmStart(q, y + z)
    ensures Extracted(x + (q + (y + z))) == Extracted(x) + Extracted(y)
    ensures HexIds(x + (q + (y + z))) == HexIds(x) + HexIds(y)
  {
    BeforeFixed(x, q, y + z);
    BetweenFixed(q, y, z);
    BehindFixed(q, y + z);
  }

  lemma TailTexts(negative: bool, cents: nat, strategy: string) returns (a: string, q: string, z: string)
    ensures PriorityTail(negative, cents, strategy) == a + (TwoDecimals(negative, cents) + (q + (strategy + z)))
    ensures Fixed(a) && QuietEnd(a) && Fixed(q) && QuietEnd(q) && CalmStart(q, strategy + z)
    ensures Fixed(z) && CalmStart(z, [])
  {
    a := PriorityText();
    q := ViaText(strategy + ").");
    z := EndText();
  }

  lemma PriorityText() returns (a: string)
    ensures a == " priority " && Fixed(a) && QuietEnd(a)
  {
    a := QuietText(" priority ");
  }

  lemma QuietText(s: string) returns (a: string)
    requires |s| < 12 && NoDigits(s) && QuietEnd(s)
    ensures a == s && Fixed(a) && QuietEnd(a)
  {
    a := s;
    ShortFixed(a);
  }

  lemma ViaText(more: string) returns (q: string)
    ensures q == " via " && Fixed(q) && QuietEnd(q) && CalmStart(q, more)
  {
    q := QuietText(" via ");
  }

  lemma EndText() returns (z: string)
    ensures z == ")." && Fixed(z) && CalmStart(z, [])
  {
    z := ").";
    ShortFixed(z);
  }

  /** What is read from the priority on are the priority and the numbers of the strategy. */
  lemma TailReads(negative: bool, cents: nat, strategy: string)
    requires |Digits(cents / 100)| < 12
    ensures Extracted(PriorityTail(negative, cents, strategy)) == [{cents as real / 100.0}] + Extracted(strategy)
    ensures HexIds(PriorityTail(negative, cents, strategy)) == HexIds(strategy)
  {
    var a, q, z := TailTexts(negative, cents, strategy);
    TwoBetweenFixed(a, TwoDecimals(negative, cents), q, strategy, z);
    CentsRead(negative, cents);
  }

  /** The reader finds the numbers of the name, the cost, the priority and the numbers of the strategy, in order. */
  lemma FirstSentenceReads(isGroup: bool, name: string, cost: nat, negative: bool, cents: nat, strategy: string)
    requires |Digits(cents / 100)| < 12
    ensures Extracted(FirstSentence(isGroup, name, cost, negative, cents, strategy)) ==
      Extracted(name) + [{cost as real}] + ([{cents as real / 100.0}] + Extracted(strategy))
    ensures HexIds(FirstSentence(isGroup, name, cost, negative, cents, strategy)) == HexIds(name) + HexIds(strategy)
  {
    var tail := PriorityTail(negative, cents, strategy);
    assert tail[0] == ' ';
    FindsAmount(CostLead(isGroup, name), cost, ",", tail);
    LeadReads(isGroup, name);
    TailReads(negative, cents, strategy);
  }

  /**
   The opening sentence of the template passes the number check if and only if the numbers in the display name and
   in the name of the strategy pass it and the cost and the rounded priority are allowed values.
   */
  lemma FirstSentenceDecides(isGroup: bool, name: string, cost: nat, negative: bool, cents: nat, strategy: string,
                             allowed: set<real>, tol: real)
    requires |Digits(cents / 100)| < 12
    ensures NumbersAllowed(Extracted(FirstSentence(isGroup, name, cost, negative, cents, strategy)), allowed, tol) <==>
      && NumbersAllowed(Extracted(name), allowed, tol) && Near({cost as real}, allowed, tol)
      && Near({cents as real / 100.0}, allowed, tol) && NumbersAllowed(Extracted(strategy), allowed, tol)
  {
    FirstSentenceReads(isGroup, name, cost, negative, cents, strategy);
    FourAllowed(Extracted(name), {cost as real}, {cents as real / 100.0}, Extracted(strategy), allowed, tol);
  }

  lemma FourAllowed(a: seq<set<real>>, x: set<real>, y: set<real>, b: seq<set<real>>, allowed: set<real>, tol: real)
    ensures NumbersAllowed(a + [x] + ([y] + b), allowed, tol) <==>
      && NumbersAllowed(a, allowed, tol) && Near(x, allowed, tol)
      && Near(y, allowed, tol) && NumbersAllowed(b, allowed, tol)
  {
    assert forall o :: o in a + [x] + ([y] + b) <==> o in a || o == x || o == y || o in b;
  }

  lemma {:induction false} ReadingsThere(t: string, i: nat)
    requires i <= |t|
    ensures {} !in ScanFrom(t, i)
    decreases |t| - i
  {
    if i < |t| {
      ScanOnce(t, i);
      if StartsToken(t, i) {
        ReadingsThere(t, TokenEnd(t, i));
        NotInEither(ReadToken(t[i..TokenEnd(t, i)], RpMark(Window(t, i))), ScanFrom(t, TokenEnd(t, i)));
      } else {
        ReadingsThere(t, i + 1);
      }
    }
  }

  lemma NotInEither(a: seq<set<real>>, b: seq<set<real>>)
    requires {} !in a && {} !in b
    ensures {} !in a + b
  {
  }

  lemma SomeOf<T>(s: set<T>) returns (x: T)
    requires s != {}
    ensures x in s
  {
    x :| x in s;
  }

  lemma KnownAllowed(text: string, allowed: set<real>, tol: real)
    requires tol >= 0.0 && forall options :: options in Extracted(text) ==> options <= allowed
    ensures NumbersAllowed(Extracted(text), allowed, tol)
  {
    ReadingsThere(Normalised(text), 0);
    forall options | options in Extracted(text) ensures Near(options, allowed, tol) {
      if options == {} {
        assert false;
      }
      var o := SomeOf(options);
      assert Abs(o - o) <= tol;
    }
  }

  /**
   The template keeps its promise: with every reading of the display name and the strategy, the cost and the rounded
   priority among the allowed values, as the fact sheet puts them there, the opening sentence passes the number check.
   */
  lemma FirstSentenceAccepted(isGroup: bool, name: string, cost: nat, negative: bool, cents: nat, strategy: string,
                              allowed: set<real>, tol: real)
    requires |Digits(cents / 100)| < 12 && tol >= 0.0
    requires forall options :: options in Extracted(name) || options in Extracted(strategy) ==> options <= allowed
    requires cost as real in allowed && cents as real / 100.0 in allowed
    ensures NumbersAllowed(Extracted(FirstSentence(isGroup, name, cost, negative, cents, strategy)), allowed, tol)
  {
    KnownAllowed(name, allowed, tol);
    KnownAllowed(strategy, allowed, tol);
    NearItself(cost as real, allowed, tol);
    NearItself(cents as real / 100.0, allowed, tol);
    FirstSentenceDecides(isGroup, name, cost, negative, cents, strategy, allowed, tol);
  }

  lemma NearItself(x: real, allowed: set<real>, tol: real)
    requires tol >= 0.0 && x in allowed
    ensures Near({x}, allowed, tol)
  {
    assert x in {x} && Abs(x - x) <= tol;
  }
}
