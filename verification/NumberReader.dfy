/** What the narration validator's number reader takes for numbers, identifiers and rupiah marks. */
module NumberReader {
  import opened Ordering
  import opened Text
  import opened Rupiah
  import opened Narration

  // ---------------------------------------------------------------- points and commas

  function SwapSep(c: char): char {
    if c == '.' then ',' else if c == ',' then '.' else c
  }

  /** The token with points and commas exchanged. */
  function Swap(s: string): (r: string)
    ensures |r| == |s| && forall i :: 0 <= i < |s| ==> r[i] == SwapSep(s[i])
  {
    seq(|s|, i requires 0 <= i < |s| => SwapSep(s[i]))
  }

  lemma SwapFront(s: string, k: nat)
    requires k <= |s|
    ensures Swap(s)[..k] == Swap(s[..k]) && Swap(s)[k..] == Swap(s[k..])
  {
  }

  lemma SwapToken(s: string)
    ensures IsToken(s) <==> IsToken(Swap(s))
    ensures Swap(Swap(s)) == s
  {
    if IsToken(s) {
      forall i | 0 <= i < |s| ensures InNumber(Swap(s)[i]) {
        assert s[i] in s;
      }
    }
    if IsToken(Swap(s)) {
      forall i | 0 <= i < |s| ensures InNumber(s[i]) {
        assert Swap(s)[i] in Swap(s);
      }
    }
  }

  lemma {:induction false} SwapStrip(s: string)
    ensures RStrip(Swap(s)) == Swap(RStrip(s))
  {
    if s != [] && IsSep(s[|s| - 1]) {
      SwapFront(s, |s| - 1);
      SwapStrip(s[..|s| - 1]);
    }
  }

  lemma {:induction false} SwapLeading(s: string)
    ensures LeadingDigits(Swap(s)) == LeadingDigits(s)
  {
    if s != [] && IsDigit(s[0]) {
      SwapFront(s, 1);
      SwapLeading(s[1..]);
    }
  }

  lemma {:induction false} SwapTail(s: string)
    ensures IsTail(Swap(s)) <==> IsTail(s)
  {
    if |s| >= 4 {
      SwapFront(s, 4);
      SwapTail(s[4..]);
    }
  }

  lemma {:induction false} SwapWithout(s: string)
    ensures WithoutSeps(Swap(s)) == WithoutSeps(s)
  {
    if s != [] {
      SwapFront(s, |s| - 1);
      SwapWithout(s[..|s| - 1]);
    }
  }

  lemma {:induction false} SwapCount(s: string)
    ensures Count(Swap(s), ',') == Count(s, '.') && Count(Swap(s), '.') == Count(s, ',')
  {
    if s != [] {
      SwapFront(s, |s| - 1);
      SwapCount(s[..|s| - 1]);
    }
  }

  lemma SwapThousands(s: string)
    ensures IsThousands(Swap(s)) <==> IsThousands(s)
  {
    SwapLeading(s);
    SwapFront(s, LeadingDigits(s));
    SwapTail(s[LeadingDigits(s)..]);
  }

  lemma {:induction false} SwapIndex(s: string)
    ensures IndexOf(Swap(s), ',') == IndexOf(s, '.') && IndexOf(Swap(s), '.') == IndexOf(s, ',')
  {
    if s != [] {
      SwapFront(s, 1);
      SwapIndex(s[1..]);
    }
  }

  lemma SwapNoSeps(s: string)
    requires AllDigits(s)
    ensures Swap(s) == s
  {
    forall i | 0 <= i < |s| ensures Swap(s)[i] == s[i] {
      assert s[i] in s;
    }
  }

  lemma SwapIsDecimal(s: string)
    requires IsDecimal(s, '.')
    ensures IsDecimal(Swap(s), ',')
  {
    SwapCount(s);
    forall c | c in Swap(s) ensures IsDigit(c) || c == ',' {
      var i :| 0 <= i < |s| && Swap(s)[i] == c;
      assert s[i] in s;
    }
  }

  // Around the point the digits are the same.
  lemma SwapParts(s: string, k: nat)
    requires k <= |s| && AllDigits(s[..k]) && (k < |s| ==> AllDigits(s[k + 1..]))
    ensures Swap(s)[..k] == s[..k] && (k < |s| ==> Swap(s)[k + 1..] == s[k + 1..])
  {
    SwapFront(s, k);
    SwapNoSeps(s[..k]);
    if k < |s| {
      SwapFront(s, k + 1);
      SwapNoSeps(s[k + 1..]);
    }
  }

  lemma SwapDecimal(s: string)
    requires IsDecimal(s, '.')
    ensures IsDecimal(Swap(s), ',') && DecimalOf(Swap(s), ',') == DecimalOf(s, '.')
  {
    var k := IndexOf(s, '.');
    SwapIsDecimal(s);
    SwapIndex(s);
    OnePoint(s, '.');
    SwapParts(s, k);
    SameDecimal(s, '.', Swap(s), ',', k);
  }

  lemma SameDecimal(s: string, point: char, t: string, other: char, k: nat)
    requires IsDecimal(s, point) && IsDecimal(t, other) && |s| == |t|
    requires IndexOf(s, point) == k && IndexOf(t, other) == k
    requires s[..k] == t[..k] && (k < |s| ==> s[k + 1..] == t[k + 1..])
    ensures DecimalOf(s, point) == DecimalOf(t, other)
  {
    OnePoint(s, point);
    OnePoint(t, other);
    if k == |s| {
      assert s[..k] == s && t[..k] == t;
    }
  }

  lemma SwapDot(t: string, rupiah: bool)
    requires IsToken(t) && IsToken(Swap(t)) && RStrip(t) == t && RStrip(Swap(t)) == Swap(t) && ReadsDot(t)
    ensures Readings(Swap(t), rupiah) == Readings(t, rupiah)
  {
    SwapThousands(t);
    SwapWithout(t);
    SwapCount(t);
    CountIn(t, '.');
    CountIn(t, ',');
    CountIn(Swap(t), '.');
    CountIn(Swap(t), ',');
    if Count(t, '.') == 0 {
      assert AllDigits(t);
      SwapNoSeps(t);
    } else {
      assert IsDecimal(t, '.') && ReadsComma(Swap(t));
      SwapDecimal(t);
    }
  }

  lemma SwapNeither(t: string, rupiah: bool)
    requires IsToken(t) && IsToken(Swap(t)) && RStrip(t) == t && RStrip(Swap(t)) == Swap(t)
    requires !ReadsDot(t) && !ReadsDot(Swap(t))
    ensures Readings(Swap(t), rupiah) == Readings(t, rupiah)
  {
    SwapThousands(t);
    SwapWithout(t);
    SwapCount(t);
    CountIn(t, '.');
    CountIn(t, ',');
    CountIn(Swap(t), '.');
    CountIn(Swap(t), ',');
    assert !ReadsComma(t) && !ReadsComma(Swap(t));
  }

  lemma {:induction false} StripIdle(s: string)
    ensures RStrip(RStrip(s)) == RStrip(s)
  {
    if s != [] && IsSep(s[|s| - 1]) {
      StripIdle(s[..|s| - 1]);
    }
  }

  lemma ReadsStripped(token: string, rupiah: bool)
    requires IsToken(token)
    ensures IsToken(RStrip(token)) && Readings(token, rupiah) == Readings(RStrip(token), rupiah)
  {
    StripsToToken(token);
    StripIdle(token);
  }

  /** Points and commas are interchangeable: exchanging them in a token changes none of its readings. */
  lemma SeparatorsInterchange(token: string, rupiah: bool)
    requires IsToken(token)
    ensures IsToken(Swap(token)) && Readings(Swap(token), rupiah) == Readings(token, rupiah)
  {
    var t := RStrip(token);
    SwapToken(token);
    SwapStrip(token);
    ReadsStripped(token, rupiah);
    ReadsStripped(Swap(token), rupiah);
    SwapToken(t);
    StripIdle(token);
    StripIdle(Swap(token));
    if ReadsDot(t) {
      SwapDot(t, rupiah);
    } else if ReadsDot(Swap(t)) {
      SwapDot(Swap(t), rupiah);
    } else {
      SwapNeither(t, rupiah);
    }
  }

  // ---------------------------------------------------------------- decimals

  lemma OneTail(p: string)
    requires AllDigits(p)
    ensures IsTail(['.'] + p) <==> |p| == 3
  {
    var s := ['.'] + p;
    assert forall i :: 0 <= i < |p| ==> s[i + 1] == p[i] && p[i] in p;
    if |p| >= 3 {
      assert s[4..] == p[3..];
      assert |p| > 3 ==> p[3..][0] == p[3] && p[3] in p;
    }
  }

  lemma PointThousands(d: string, p: string)
    requires AllDigits(d) && d != [] && AllDigits(p)
    ensures IsThousands(d + (['.'] + p)) <==> |d| <= 3 && d[0] != '0' && |p| == 3
  {
    var t := d + (['.'] + p);
    assert t[..|d|] == d && t[|d|..] == ['.'] + p && t[0] == d[0] && t[|d|] == '.';
    LeadingIs(t, |d|);
    OneTail(p);
  }

  lemma PointToken(d: string, p: string)
    requires AllDigits(d) && AllDigits(p) && p != []
    ensures var t := d + (['.'] + p);
      && IsToken(t) && RStrip(t) == t && WithoutSeps(t) == d + p && ReadsDot(t) && IsDecimal(t, '.')
  {
    var t := d + (['.'] + p);
    assert t[|t| - 1] == p[|p| - 1] && p[|p| - 1] in p;
    assert forall c :: c in t ==> c in d || c == '.' || c in p;
    WithoutSepsSplit(d, ['.'] + p);
    WithoutSepsSplit(['.'], p);
    DigitsKept(d);
    DigitsKept(p);
    CountSplit(d, ['.'] + p, '.');
    CountSplit(['.'], p, '.');
    CountIn(d, '.');
    CountIn(p, '.');
    PointAlone();
  }

  lemma PointAlone()
    ensures Count(['.'], '.') == 1 && WithoutSeps(['.']) == []
  {
    assert ['.'][..0] == [];
    assert Count([], '.') == 0 && WithoutSeps([]) == [];
  }

  /**
   Digits, a point and more digits read as that decimal number, and also as a whole number when the point can divide
   thousands: up to three digits without a leading zero before it, and three after it.
   */
  lemma DecimalReads(d: string, p: string)
    requires AllDigits(d) && d != [] && AllDigits(p) && p != []
    ensures var t := d + (['.'] + p);
      var decimal := NumberOf(d) as real + NumberOf(p) as real / Pow10(|p|) as real;
      && IsToken(t) && AllDigits(d + p)
      && Readings(t, false) ==
        if |d| <= 3 && d[0] != '0' && |p| == 3 then {NumberOf(d + p) as real, decimal} else {decimal}
  {
    PointToken(d, p);
    PointThousands(d, p);
    PointValue(d, p, d + (['.'] + p));
    PointReads(d + (['.'] + p), d + p);
  }

  lemma PointValue(d: string, p: string, t: string)
    requires AllDigits(d) && AllDigits(p) && t == d + (['.'] + p) && IsDecimal(t, '.')
    ensures AllDigits(d + p)
    ensures DecimalOf(t, '.') == NumberOf(d) as real + NumberOf(p) as real / Pow10(|p|) as real
  {
    Regroup(d, ['.'], p);
    SplitNumber(t, d, '.', p);
    assert forall c :: c in d + p ==> c in d || c in p;
  }

  lemma PointReads(t: string, digits: string)
    requires IsToken(t) && RStrip(t) == t && ReadsDot(t) && IsDecimal(t, '.')
    requires WithoutSeps(t) == digits && AllDigits(digits)
    ensures Readings(t, false) ==
      if IsThousands(t) then {NumberOf(digits) as real, DecimalOf(t, '.')} else {DecimalOf(t, '.')}
  {
    if IsThousands(t) {
      ReadsBoth(t, t);
    } else {
      ReadsDecimal(t, t, false);
    }
  }

  // ---------------------------------------------------------------- what cannot be read

  lemma SepsCounted(t: string)
    ensures ReadsDot(t) || ReadsComma(t) <==> Count(t, '.') + Count(t, ',') <= 1
  {
    CountIn(t, '.');
    CountIn(t, ',');
  }

  lemma ReadsNothing(token: string, t: string, rupiah: bool)
    requires IsToken(token) && t == RStrip(token)
    ensures Readings(token, rupiah) == {} <==> !IsThousands(t) && !ReadsDot(t) && !ReadsComma(t)
  {
    StripsToToken(token);
    WithoutSepsDigits(t);
    if IsThousands(t) {
      assert NumberOf(WithoutSeps(t)) as real in Readings(token, rupiah);
    } else if ReadsDot(t) {
      assert DecimalOf(t, '.') in Readings(token, rupiah);
    } else if ReadsComma(t) {
      assert DecimalOf(t, ',') in Readings(token, rupiah);
    }
  }

  /**
   A number has no reading, with or without "Rp", exactly when two or more points and commas stand inside it and do not
   divide thousands.
   */
  lemma UnreadableExactly(token: string, rupiah: bool)
    requires IsToken(token)
    ensures var t := RStrip(token);
      Readings(token, rupiah) == {} <==> Count(t, '.') + Count(t, ',') >= 2 && !IsThousands(t)
  {
    ReadsNothing(token, RStrip(token), rupiah);
    SepsCounted(RStrip(token));
  }

  lemma {:induction false} ScanTells(t: string, i: nat)
    requires i <= |t|
    ensures forall options :: options in ScanFrom(t, i) ==> options != {}
    decreases |t| - i
  {
    if i < |t| {
      ScanOnce(t, i);
      ScanTells(t, if StartsToken(t, i) then TokenEnd(t, i) else i + 1);
    }
  }

  /** Numbers without a reading are passed over: every number found has at least one. */
  lemma FoundHaveReadings(text: string)
    ensures forall options :: options in Extracted(text) ==> options != {}
  {
    ScanTells(Normalised(text), 0);
  }

  // ---------------------------------------------------------------- identifiers

  // A hexadecimal digit in either case.
  ghost predicate HexDigit(c: char) {
    '0' <= c <= '9' || 'a' <= c <= 'f' || 'A' <= c <= 'F'
  }

  // A letter, a digit or an underscore.
  ghost predicate WordChar(c: char) {
    'a' <= c <= 'z' || 'A' <= c <= 'Z' || '0' <= c <= '9' || c == '_'
  }

  /** A whole word is cut out and reported exactly when it has twelve or more characters, all hexadecimal digits. */
  lemma WordIsIdentifier(word: string)
    requires word != [] && forall c :: c in word ==> WordChar(c)
    ensures if |word| >= 12 && (forall c :: c in word ==> HexDigit(c))
      then HexSub(word) == " " && HexIds(word) == [word]
      else HexSub(word) == word && HexIds(word) == []
  {
    forall i | 0 <= i < |word| ensures IsWord(word[i]) {
      assert word[i] in word;
    }
    RunIs(word, |word|);
    assert word[..|word|] == word && word[|word|..] == [];
    assert HexSub([]) == [] && HexIds([]) == [];
    assert CutWord(word) + [] == CutWord(word);
  }

  /** Between other characters a word is judged alone, and what is before and after it keeps its own identifiers. */
  lemma WordInText(before: string, word: string, after: string)
    requires word != [] && forall c :: c in word ==> WordChar(c)
    requires before != [] ==> !WordChar(before[|before| - 1])
    requires after != [] ==> !WordChar(after[0])
    ensures HexSub(before + (word + after)) == HexSub(before) + (HexSub(word) + HexSub(after))
    ensures HexIds(before + (word + after)) == HexIds(before) + (HexIds(word) + HexIds(after))
  {
    HexSplit(word, after);
    HexSplit(before, word + after);
  }

  /** Text without word characters stays as it is. */
  lemma GapStays(gap: string)
    requires forall c :: c in gap ==> !WordChar(c)
    ensures HexSub(gap) == gap && HexIds(gap) == []
  {
    NoWord(gap);
  }

  // ---------------------------------------------------------------- rupiah marks

  // This character stands k places before position i.
  ghost predicate Before(t: string, i: nat, k: nat, c: char)
    requires i <= |t|
  {
    1 <= k <= i && t[i - k] == c
  }

  ghost predicate BlankBefore(t: string, i: nat, k: nat)
    requires i <= |t|
  {
    1 <= k <= i && IsSpace(t[i - k])
  }

  // The first n characters end in "Rp", with or without a point.
  lemma EndsAt(w: string, n: nat)
    requires n <= |w|
    ensures EndsRp(w[..n]) <==>
      || (n >= 2 && w[n - 2] == 'R' && w[n - 1] == 'p')
      || (n >= 3 && w[n - 3] == 'R' && w[n - 2] == 'p' && w[n - 1] == '.')
  {
  }

  lemma MarkEnds(w: string, n: nat)
    requires n <= |w|
    ensures RpMark(w[..n]) <==> if n > 0 && IsSpace(w[n - 1]) then RpMark(w[..n - 1]) else EndsRp(w[..n])
  {
    assert n > 0 ==> w[..n][..n - 1] == w[..n - 1];
  }

  /** A number is marked as rupiah exactly when "Rp" with at most two blanks, or "Rp." with at most one, precedes it. */
  lemma MarkExactly(t: string, i: nat)
    requires i <= |t|
    ensures RpMark(Window(t, i)) <==>
      || (Before(t, i, 2, 'R') && Before(t, i, 1, 'p'))
      || (Before(t, i, 3, 'R') && Before(t, i, 2, 'p') && (BlankBefore(t, i, 1) || Before(t, i, 1, '.')))
      || (Before(t, i, 4, 'R') && Before(t, i, 3, 'p') && (BlankBefore(t, i, 2) || Before(t, i, 2, '.'))
          && BlankBefore(t, i, 1))
  {
    var w := Window(t, i);
    var n := |w|;
    assert w[..n] == w;
    assert (n >= 1 ==> w[n - 1] == t[i - 1]) && (n >= 2 ==> w[n - 2] == t[i - 2]);
    assert (n >= 3 ==> w[n - 3] == t[i - 3]) && (n >= 4 ==> w[n - 4] == t[i - 4]);
    MarkEnds(w, n);
    EndsAt(w, n);
    if n >= 1 {
      MarkEnds(w, n - 1);
      EndsAt(w, n - 1);
    }
    if n >= 2 {
      MarkEnds(w, n - 2);
      EndsAt(w, n - 2);
    }
    NoMark(w);
  }

  // What is left of a window after three blanks is too short for a mark.
  lemma NoMark(w: string)
    ensures |w| >= 1 ==> !RpMark(w[..1])
    ensures !RpMark(w[..0])
  {
    MarkEnds(w, 0);
    EndsAt(w, 0);
    if |w| >= 1 {
      MarkEnds(w, 1);
      EndsAt(w, 1);
    }
  }

  // ---------------------------------------------------------------- "Rp" glued to its number

  ghost predicate Digit(c: char) {
    '0' <= c <= '9'
  }

  // "Rp", with or without a point, directly before a digit.
  ghost predicate GluedAt(s: string, i: nat) {
    i + 2 < |s| && s[i] == 'R' && s[i + 1] == 'p'
    && (Digit(s[i + 2]) || (s[i + 2] == '.' && i + 3 < |s| && Digit(s[i + 3])))
  }

  /** Text in which no "Rp" is glued to a digit stays as it is. */
  lemma {:induction false} UngluedStays(s: string)
    requires forall i: nat :: !GluedAt(s, i)
    ensures RpSub(s) == s
  {
    if s != [] {
      assert !GluedAt(s, 0);
      forall i: nat ensures !GluedAt(s[1..], i) {
        assert !GluedAt(s, i + 1);
      }
      UngluedStays(s[1..]);
    }
  }

  // What one step of the rewriting takes off the front, and what it writes.
  ghost function RpLength(s: string): (k: nat)
    requires s != []
    ensures 1 <= k <= |s|
  {
    if GluedDot(s) then 3 else if Glued(s) then 2 else 1
  }

  ghost function RpText(s: string): string
    requires s != []
  {
    if GluedDot(s) || Glued(s) then "Rp " else [s[0]]
  }

  lemma RpStep(s: string)
    requires s != []
    ensures RpSub(s) == RpText(s) + RpSub(s[RpLength(s)..])
  {
  }

  lemma GlueBehind(before: string, rest: string)
    requires before != [] && rest != [] && rest[0] == 'R'
    ensures RpLength(before + rest) == RpLength(before) && RpText(before + rest) == RpText(before)
  {
    var s := before + rest;
    assert forall i :: 0 <= i < |before| ==> s[i] == before[i];
    assert s[|before|] == 'R';
  }

  // What precedes "Rp" does not matter for it.
  lemma {:induction false} RpBehind(before: string, rest: string)
    requires rest != [] && rest[0] == 'R'
    ensures RpSub(before + rest) == RpSub(before) + RpSub(rest)
    decreases |before|
  {
    if before == [] {
      assert before + rest == rest;
    } else {
      var k := RpLength(before);
      GlueBehind(before, rest);
      RpStep(before);
      RpStep(before + rest);
      assert (before + rest)[k..] == before[k..] + rest;
      RpBehind(before[k..], rest);
      Regroup(RpText(before), RpSub(before[k..]), RpSub(rest));
    }
  }

  lemma RpFront(z: string)
    requires z != [] && Digit(z[0])
    ensures RpSub("Rp" + z) == "Rp " + RpSub(z) && RpSub("Rp." + z) == "Rp " + RpSub(z)
    ensures RpSub("Rp " + z) == "Rp " + RpSub(z)
  {
    assert ("Rp" + z)[2..] == z && ("Rp." + z)[3..] == z;
    var s := "Rp " + z;
    assert s[1..] == "p " + z && ("p " + z)[1..] == " " + z && (" " + z)[1..] == z;
    assert RpSub(" " + z) == " " + RpSub(z);
    assert RpSub("p " + z) == "p " + RpSub(z);
  }

  /** "Rp" and "Rp." glued to a digit are read as "Rp" and a blank, wherever they stand. */
  lemma GlueIrrelevant(before: string, z: string)
    requires z != [] && Digit(z[0])
    ensures RpSub(before + ("Rp" + z)) == RpSub(before + ("Rp " + z))
    ensures RpSub(before + ("Rp." + z)) == RpSub(before + ("Rp " + z))
  {
    RpFront(z);
    RpBehind(before, "Rp" + z);
    RpBehind(before, "Rp." + z);
    RpBehind(before, "Rp " + z);
  }

  // ---------------------------------------------------------------- which numbers are read

  ghost predicate NumberChar(c: char) {
    '0' <= c <= '9' || c == '.' || c == ','
  }

  // A digit that no letter, digit, underscore, point or comma precedes.
  ghost predicate NumberStarts(t: string, i: nat) {
    i < |t| && Digit(t[i]) && (i > 0 ==> !WordChar(t[i - 1]) && !NumberChar(t[i - 1]))
  }

  // The longest stretch of digits, points and commas from a position on.
  ghost predicate Stretch(t: string, i: nat, k: nat) {
    && i <= k <= |t| && (forall j :: i <= j < k ==> NumberChar(t[j]))
    && (k < |t| ==> !NumberChar(t[k]))
  }

  // The readings of the number that starts at i.
  ghost predicate ReadAt(t: string, i: nat, found: seq<set<real>>) {
    exists k: nat :: Stretch(t, i, k) && found == ReadToken(t[i..k], RpMark(Window(t, i)))
  }

  // The readings are those of the numbers that start at these positions, in order.
  ghost predicate ReadsAll(t: string, at: seq<nat>, each: seq<seq<set<real>>>) {
    |each| == |at| && forall n :: 0 <= n < |at| ==> at[n] < |t| && ReadAt(t, at[n], each[n])
  }

  ghost function Joined(each: seq<seq<set<real>>>): seq<set<real>> {
    if each == [] then [] else each[0] + Joined(each[1..])
  }

  ghost predicate StartsFrom(t: string, i: nat, at: seq<nat>) {
    && (forall n :: n in at <==> i <= n && NumberStarts(t, n))
    && forall a, b :: 0 <= a < b < |at| ==> at[a] < at[b]
  }

  // Within a number no other number starts.
  lemma NoneInside(t: string, i: nat, at: seq<nat>)
    requires i < |t| && NumberStarts(t, i) && StartsFrom(t, TokenEnd(t, i), at)
    ensures StartsFrom(t, i, [i] + at)
  {
    var k := TokenEnd(t, i);
    forall n | i < n < k ensures !NumberStarts(t, n) {
      assert InNumber(t[n - 1]);
    }
    forall n: nat ensures n in [i] + at <==> i <= n && NumberStarts(t, n) {
    }
    assert forall b :: 0 <= b < |at| ==> at[b] in at;
  }

  lemma {:induction false} ScanReads(t: string, i: nat) returns (at: seq<nat>, each: seq<seq<set<real>>>)
    requires i <= |t|
    ensures StartsFrom(t, i, at) && ReadsAll(t, at, each) && ScanFrom(t, i) == Joined(each)
    decreases |t| - i
  {
    if i == |t| {
      at, each := [], [];
    } else {
      ScanOnce(t, i);
      if NumberStarts(t, i) {
        var k := TokenEnd(t, i);
        var found := ReadToken(t[i..k], RpMark(Window(t, i)));
        at, each := ScanReads(t, k);
        NoneInside(t, i, at);
        assert Stretch(t, i, k);
        assert ([found] + each)[1..] == each;
        at, each := [i] + at, [found] + each;
      } else {
        at, each := ScanReads(t, i + 1);
      }
    }
  }

  /** The numbers found are those of the cleaned text, in order: none is passed over and none is read twice. */
  lemma NumbersFound(text: string) returns (at: seq<nat>, each: seq<seq<set<real>>>)
    ensures StartsFrom(Normalised(text), 0, at) && ReadsAll(Normalised(text), at, each)
    ensures Extracted(text) == Joined(each)
  {
    at, each := ScanReads(Normalised(text), 0);
  }
}
