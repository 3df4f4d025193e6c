/** The narration validator's number reader over whole texts. Characters are taken to be ASCII. */
module Narration {
  import opened Ordering
  import opened Text
  import opened Rupiah

  predicate IsWord(c: char) {
    IsDigit(c) || 'a' <= c <= 'z' || 'A' <= c <= 'Z' || c == '_'
  }

  predicate IsHex(c: char) {
    IsDigit(c) || 'a' <= c <= 'f' || 'A' <= c <= 'F'
  }

  // ---------------------------------------------------------------- hex identifiers are cut out first

  /** The length of the run of word characters a text starts with. */
  function WordRun(s: string): (k: nat)
    ensures k <= |s| && (forall i :: 0 <= i < k ==> IsWord(s[i])) && (k < |s| ==> !IsWord(s[k]))
  {
    if s != [] && IsWord(s[0]) then 1 + WordRun(s[1..]) else 0
  }

  // A whole word of twelve or more hex digits.
  predicate IsHexId(word: string) {
    |word| >= 12 && forall c :: c in word ==> IsHex(c)
  }

  function CutWord(word: string): string {
    if IsHexId(word) then " " else word
  }

  function HexSub(s: string): string {
    if s == [] then [] else
    var k := WordRun(s);
    if k == 0 then [s[0]] + HexSub(s[1..]) else CutWord(s[..k]) + HexSub(s[k..])
  }

  function HexIds(s: string): seq<string> {
    if s == [] then [] else
    var k := WordRun(s);
    if k == 0 then HexIds(s[1..])
    else (if IsHexId(s[..k]) then [s[..k]] else []) + HexIds(s[k..])
  }

  // ---------------------------------------------------------------- "Rp" is split from glued digits

  predicate GluedDot(s: string) {
    |s| > 3 && s[0] == 'R' && s[1] == 'p' && s[2] == '.' && IsDigit(s[3])
  }

  predicate Glued(s: string) {
    |s| > 2 && s[0] == 'R' && s[1] == 'p' && IsDigit(s[2])
  }

  function RpSub(s: string): string {
    if s == [] then []
    else if GluedDot(s) then "Rp " + RpSub(s[3..])
    else if Glued(s) then "Rp " + RpSub(s[2..])
    else [s[0]] + RpSub(s[1..])
  }

  function Normalised(text: string): string {
    RpSub(HexSub(text))
  }

  // ---------------------------------------------------------------- number tokens

  function NumberRun(s: string): (k: nat)
    ensures k <= |s| && (forall i :: 0 <= i < k ==> InNumber(s[i])) && (k < |s| ==> !InNumber(s[k]))
  {
    if s != [] && InNumber(s[0]) then 1 + NumberRun(s[1..]) else 0
  }

  // A digit that no word character, dot or comma precedes.
  predicate StartsToken(t: string, i: nat)
    requires i < |t|
  {
    IsDigit(t[i]) && (i == 0 || (!IsWord(t[i - 1]) && !IsSep(t[i - 1])))
  }

  function TrimRight(s: string): string {
    if s != [] && IsSpace(s[|s| - 1]) then TrimRight(s[..|s| - 1]) else s
  }

  predicate EndsRp(s: string) {
    || (|s| >= 2 && s[|s| - 2] == 'R' && s[|s| - 1] == 'p')
    || (|s| >= 3 && s[|s| - 3] == 'R' && s[|s| - 2] == 'p' && s[|s| - 1] == '.')
  }

  // The four characters before a token.
  function Window(t: string, i: nat): string
    requires i <= |t|
  {
    t[if i < 4 then 0 else i - 4..i]
  }

  predicate RpMark(window: string) {
    EndsRp(TrimRight(window))
  }

  ghost function ReadToken(token: string, rupiah: bool): seq<set<real>> {
    if !IsToken(token) || Readings(token, rupiah) == {} then [] else [Readings(token, rupiah)]
  }

  /** Where the token that starts at a digit ends. */
  function TokenEnd(t: string, i: nat): (k: nat)
    requires i < |t| && IsDigit(t[i])
    ensures i < k <= |t| && (forall j :: i <= j < k ==> InNumber(t[j])) && (k < |t| ==> !InNumber(t[k]))
  {
    var k := NumberRun(t[i..]);
    assert forall j :: i <= j < i + k ==> t[j] == t[i..][j - i];
    i + k
  }

  /** The readings of all number tokens from a position on, for any way of reading a token and its window. */
  ghost function Scan(read: (string, bool) -> seq<set<real>>, marked: string -> bool, t: string, i: nat): seq<set<real>>
    requires i <= |t|
    decreases |t| - i
  {
    if i == |t| then []
    else if StartsToken(t, i) then
      var k := TokenEnd(t, i);
      read(t[i..k], marked(Window(t, i))) + Scan(read, marked, t, k)
    else Scan(read, marked, t, i + 1)
  }

  ghost function ScanFrom(t: string, i: nat): seq<set<real>>
    requires i <= |t|
  {
    Scan(ReadToken, RpMark, t, i)
  }

  ghost function Extracted(text: string): seq<set<real>> {
    ScanFrom(Normalised(text), 0)
  }

  lemma ScanStep(read: (string, bool) -> seq<set<real>>, marked: string -> bool, t: string, i: nat)
    requires i < |t|
    ensures StartsToken(t, i) ==>
      Scan(read, marked, t, i) ==
        read(t[i..TokenEnd(t, i)], marked(Window(t, i))) + Scan(read, marked, t, TokenEnd(t, i))
    ensures !StartsToken(t, i) ==> Scan(read, marked, t, i) == Scan(read, marked, t, i + 1)
  {
  }

  lemma ScanOnce(t: string, i: nat)
    requires i < |t|
    ensures StartsToken(t, i) ==>
      ScanFrom(t, i) == ReadToken(t[i..TokenEnd(t, i)], RpMark(Window(t, i))) + ScanFrom(t, TokenEnd(t, i))
    ensures !StartsToken(t, i) ==> ScanFrom(t, i) == ScanFrom(t, i + 1)
  {
    ScanStep(ReadToken, RpMark, t, i);
  }

  method ReadOne(token: string, rupiah: bool) returns (found: seq<set<real>>)
    requires IsToken(token)
    ensures found == ReadToken(token, rupiah)
  {
    var options := Interpretations(token, rupiah);
    found := if options != {} then [options] else [];
  }

  method ExtractNumbers(original: string) returns (found: seq<set<real>>)
    ensures found == Extracted(original)
  {
    var text := RpSub(HexSub(original));
    found := [];
    var i := 0;
    while i < |text|
      invariant i <= |text|
      invariant ScanFrom(text, 0) == found + ScanFrom(text, i)
    {
      ScanOnce(text, i);
      if StartsToken(text, i) {
        var k := TokenEnd(text, i);
        var options := ReadOne(text[i..k], RpMark(Window(text, i)));
        Regroup(found, options, ScanFrom(text, k));
        found := found + options;
        i := k;
      } else {
        i := i + 1;
      }
    }
  }

  // ---------------------------------------------------------------- cutting a text at a word boundary

  ghost predicate Boundary(a: string, b: string) {
    a == [] || b == [] || !IsWord(a[|a| - 1]) || !IsWord(b[0])
  }

  lemma {:induction false} RunIs(s: string, k: nat)
    requires k <= |s| && (forall i :: 0 <= i < k ==> IsWord(s[i])) && (k < |s| ==> !IsWord(s[k]))
    ensures WordRun(s) == k
  {
    if k > 0 {
      RunIs(s[1..], k - 1);
    }
  }

  lemma FrontCut<T>(a: seq<T>, b: seq<T>, k: nat)
    requires k <= |a|
    ensures (a + b)[..k] == a[..k] && (a + b)[k..] == a[k..] + b
  {
  }

  lemma RunInFront(a: string, b: string)
    requires a != [] && Boundary(a, b)
    ensures WordRun(a + b) == WordRun(a)
  {
    var k := WordRun(a);
    assert k == |a| ==> IsWord(a[|a| - 1]);
    RunIs(a + b, k);
  }

  // What one step of the cut takes off the front, how it rewrites it and which identifier it reports.
  function StepLength(s: string): (k: nat)
    requires s != []
    ensures 1 <= k <= |s|
  {
    var k := WordRun(s);
    if k == 0 then 1 else k
  }

  function StepText(s: string): string
    requires s != []
  {
    var k := WordRun(s);
    if k == 0 then [s[0]] else CutWord(s[..k])
  }

  function StepIds(s: string): seq<string>
    requires s != []
  {
    var k := WordRun(s);
    if k > 0 && IsHexId(s[..k]) then [s[..k]] else []
  }

  lemma HexStep(s: string)
    requires s != []
    ensures HexSub(s) == StepText(s) + HexSub(s[StepLength(s)..])
    ensures HexIds(s) == StepIds(s) + HexIds(s[StepLength(s)..])
  {
  }

  lemma StepInFront(a: string, b: string)
    requires a != [] && Boundary(a, b)
    ensures StepLength(a + b) == StepLength(a) && StepText(a + b) == StepText(a) && StepIds(a + b) == StepIds(a)
    ensures (a + b)[StepLength(a)..] == a[StepLength(a)..] + b
  {
    RunInFront(a, b);
    FrontCut(a, b, WordRun(a));
    FrontCut(a, b, 1);
  }

  lemma {:induction false} HexSplit(a: string, b: string)
    requires Boundary(a, b)
    ensures HexSub(a + b) == HexSub(a) + HexSub(b)
    ensures HexIds(a + b) == HexIds(a) + HexIds(b)
    decreases |a|
  {
    if a == [] {
      assert a + b == b;
    } else {
      var rest := a[StepLength(a)..];
      StepInFront(a, b);
      HexStep(a);
      HexStep(a + b);
      HexSplit(rest, b);
      Regroup(StepText(a), HexSub(rest), HexSub(b));
      Regroup(StepIds(a), HexIds(rest), HexIds(b));
    }
  }

  lemma ShortWord(s: string)
    requires |s| < 12 && forall c :: c in s ==> IsWord(c)
    ensures HexSub(s) == s && HexIds(s) == []
  {
    if s != [] {
      RunIs(s, |s|);
      assert s[..|s|] == s && s[|s|..] == [];
    }
  }

  lemma {:induction false} NoWord(s: string)
    requires forall c :: c in s ==> !IsWord(c)
    ensures HexSub(s) == s && HexIds(s) == []
  {
    if s != [] {
      assert s[0] in s;
      NoWord(s[1..]);
    }
  }

  /** A printed amount is never taken for a hex identifier: its words have at most three digits. */
  lemma {:induction false} AmountIsNoHexId(n: nat)
    ensures HexSub(Grouped(n)) == Grouped(n) && HexIds(Grouped(n)) == []
  {
    if n < 1000 {
      ShortDigits(n);
      ShortWord(Digits(n));
    } else {
      AmountIsNoHexId(n / 1000);
      GroupedStep(n);
      var r := n % 1000;
      ShortWord(Pad3(r));
      NoWord(".");
      HexSplit(".", Pad3(r));
      HexSplit(Grouped(n / 1000), Group(r));
    }
  }

  // "Rp" keeps a word from being a hex identifier.
  lemma {:induction false} HexKeepsRp(x: string) returns (y: string)
    ensures HexSub(x + "Rp") == y + "Rp"
    decreases |x|
  {
    var s := x + "Rp";
    var k := WordRun(s);
    if k > |x| {
      assert s[|x|] == 'R' && s[|x| + 1] == 'p';
      assert k == |s| && s[..k] == s && s[k..] == [];
      assert 'R' in s && !IsHex('R');
      y := x;
    } else if k == 0 {
      assert s[1..] == x[1..] + "Rp";
      var z := HexKeepsRp(x[1..]);
      y := [s[0]] + z;
    } else {
      assert s[k..] == x[k..] + "Rp";
      var z := HexKeepsRp(x[k..]);
      y := CutWord(s[..k]) + z;
    }
  }

  // ---------------------------------------------------------------- splitting off "Rp" is local too

  lemma {:induction false} RpSplit(a: string, b: string)
    requires a != [] && a[|a| - 1] == ' '
    ensures RpSub(a + b) == RpSub(a) + RpSub(b)
    decreases |a|
  {
    if |a| == 1 {
      assert (a + b)[1..] == b && a[1..] == [];
    } else if GluedDot(a) {
      assert (a + b)[3..] == a[3..] + b;
      RpSplit(a[3..], b);
    } else if Glued(a) {
      assert (a + b)[2..] == a[2..] + b;
      RpSplit(a[2..], b);
    } else {
      assert (a + b)[1..] == a[1..] + b;
      RpSplit(a[1..], b);
    }
  }

  lemma {:induction false} NoRp(a: string, b: string)
    requires 'R' !in a
    ensures RpSub(a + b) == a + RpSub(b)
  {
    if a == [] {
      assert a + b == b;
    } else {
      assert a[0] in a;
      assert (a + b)[1..] == a[1..] + b;
      NoRp(a[1..], b);
    }
  }

  lemma RpAlone()
    ensures RpSub("Rp ") == "Rp "
  {
    assert "Rp "[1..] == "p " && "p "[1..] == " " && " "[1..] == "";
    assert RpSub(" ") == " ";
    assert RpSub("p ") == "p ";
  }

  lemma {:induction false} RpKept(y: string) returns (z: string)
    ensures RpSub(y + "Rp ") == z + "Rp "
    decreases |y|
  {
    var s := y + "Rp ";
    if y == [] {
      RpAlone();
      z := [];
      assert s == "Rp " && z + "Rp " == "Rp ";
    } else if GluedDot(s) {
      assert s[3..] == y[3..] + "Rp ";
      var rest := RpKept(y[3..]);
      z := "Rp " + rest;
    } else if Glued(s) {
      assert s[2..] == y[2..] + "Rp ";
      var rest := RpKept(y[2..]);
      z := "Rp " + rest;
    } else {
      assert s[1..] == y[1..] + "Rp ";
      var rest := RpKept(y[1..]);
      z := [s[0]] + rest;
    }
  }

  // ---------------------------------------------------------------- the normalised text around an amount

  // What may follow an amount so that the token ends where the amount and its trailing punctuation end.
  predicate Separated(trail: string, rest: string) {
    && (forall c :: c in trail ==> IsSep(c))
    && (rest != [] ==> !InNumber(rest[0]) && (trail == [] ==> !IsWord(rest[0])))
  }

  lemma AmountText(n: nat, trail: string, rest: string)
    requires Separated(trail, rest)
    ensures HexSub(Grouped(n) + trail + rest) == Grouped(n) + trail + HexSub(rest)
    ensures HexIds(Grouped(n) + trail + rest) == HexIds(rest)
  {
    AmountIsNoHexId(n);
    NoWord(trail);
    assert trail != [] ==> trail[|trail| - 1] in trail && trail[0] in trail;
    HexSplit(Grouped(n), trail);
    if trail != [] {
      HexSplit(Grouped(n) + trail, rest);
    } else {
      assert Grouped(n) + trail == Grouped(n);
      HexSplit(Grouped(n), rest);
    }
  }

  lemma HexLead(before: string) returns (y: string)
    ensures HexSub(before + "Rp ") == y + "Rp "
  {
    y := HexKeepsRp(before);
    var blank := " ";
    NoWord(blank);
    assert "Rp" + blank == "Rp ";
    HexSplit(before + "Rp", blank);
    Regroup(before, "Rp", blank);
    Regroup(y, "Rp", blank);
  }

  lemma NormalisedLead(before: string) returns (z: string)
    ensures Normalised(before + "Rp ") == z + "Rp "
  {
    var y := HexLead(before);
    z := RpKept(y);
  }

  lemma HexAround(before: string, n: nat, trail: string, rest: string)
    requires Separated(trail, rest)
    ensures HexSub(before + Idr(n) + trail + rest) == HexSub(before + "Rp ") + (Grouped(n) + trail + HexSub(rest))
    ensures HexIds(before + Idr(n) + trail + rest) == HexIds(before + "Rp ") + HexIds(rest)
  {
    var lead, token := before + "Rp ", Grouped(n) + trail;
    IdrForm(n);
    assert before + Idr(n) + trail + rest == lead + (token + rest);
    HexSplit(lead, token + rest);
    AmountText(n, trail, rest);
  }

  lemma NormalisedAround(before: string, n: nat, trail: string, rest: string)
    requires Separated(trail, rest)
    ensures Normalised(before + Idr(n) + trail + rest) ==
      Normalised(before + "Rp ") + (Grouped(n) + trail) + Normalised(rest)
  {
    HexAround(before, n, trail, rest);
    var y := HexLead(before);
    TokenHasNoR(n, trail);
    RpAround(HexSub(before + "Rp "), Grouped(n) + trail, HexSub(rest));
  }

  lemma RpAround(lead: string, token: string, back: string)
    requires lead != [] && lead[|lead| - 1] == ' ' && 'R' !in token
    ensures RpSub(lead + (token + back)) == RpSub(lead) + token + RpSub(back)
  {
    RpSplit(lead, token + back);
    NoRp(token, back);
  }

  lemma TokenHasNoR(n: nat, trail: string)
    requires forall c :: c in trail ==> IsSep(c)
    ensures 'R' !in Grouped(n) + trail && IsToken(Grouped(n) + trail)
  {
    GroupedToken(n);
  }

  lemma FirstChar(rest: string)
    ensures Normalised(rest) == [] <==> rest == []
    ensures rest != [] && !InNumber(rest[0]) ==> !InNumber(Normalised(rest)[0])
  {
    if rest != [] {
      assert HexSub(rest) != [] && (HexSub(rest)[0] == rest[0] || HexSub(rest)[0] == ' ');
    }
  }

  // ---------------------------------------------------------------- scanning is local

  lemma TokenEndIs(t: string, i: nat, k: nat)
    requires i < k <= |t| && IsDigit(t[i]) && (forall j :: i <= j < k ==> InNumber(t[j]))
    requires k < |t| ==> !InNumber(t[k])
    ensures TokenEnd(t, i) == k
  {
    NumberRunIs(t[i..], k - i);
  }

  lemma {:induction false} NumberRunIs(s: string, k: nat)
    requires k <= |s| && (forall i :: 0 <= i < k ==> InNumber(s[i])) && (k < |s| ==> !InNumber(s[k]))
    ensures NumberRun(s) == k
  {
    if k > 0 {
      NumberRunIs(s[1..], k - 1);
    }
  }

  // No number runs across the cut.
  predicate Parted(front: string, back: string) {
    front == [] || back == [] || !InNumber(front[|front| - 1]) || !InNumber(back[0])
  }

  // A digit behind the cut starts a token exactly when it does so in the back part alone.
  predicate FreshStart(front: string, back: string) {
    || front == [] || back == [] || !InNumber(back[0])
    || (!IsWord(front[|front| - 1]) && !IsSep(front[|front| - 1]))
  }

  /** What is read in front of a cut through no number does not depend on what follows. */
  lemma {:induction false} ScanFront(read: (string, bool) -> seq<set<real>>, marked: string -> bool, front: string,
                                     back: string, i: nat)
    requires i <= |front| && Parted(front, back)
    ensures Scan(read, marked, front + back, i) ==
      Scan(read, marked, front, i) + Scan(read, marked, front + back, |front|)
    decreases |front| - i
  {
    if i < |front| {
      ScanFront(read, marked, front, back, if StartsToken(front, i) then TokenEnd(front, i) else i + 1);
      FrontStep(read, marked, front, back, i, Scan(read, marked, front + back, |front|));
    }
  }

  lemma FrontStep(read: (string, bool) -> seq<set<real>>, marked: string -> bool, front: string, back: string, i: nat,
                  behind: seq<set<real>>)
    requires i < |front| && Parted(front, back)
    requires var k := if StartsToken(front, i) then TokenEnd(front, i) else i + 1;
      Scan(read, marked, front + back, k) == Scan(read, marked, front, k) + behind
    ensures Scan(read, marked, front + back, i) == Scan(read, marked, front, i) + behind
  {
    var t := front + back;
    ScanStep(read, marked, t, i);
    ScanStep(read, marked, front, i);
    assert StartsToken(t, i) == StartsToken(front, i);
    if StartsToken(front, i) {
      var k := TokenEnd(front, i);
      TokenInFront(front, back, i);
      assert t[i..k] == front[i..k] && Window(t, i) == Window(front, i);
      Regroup(read(front[i..k], marked(Window(front, i))), Scan(read, marked, front, k), behind);
    }
  }

  lemma TokenInFront(front: string, back: string, i: nat)
    requires i < |front| && IsDigit(front[i]) && Parted(front, back)
    ensures TokenEnd(front + back, i) == TokenEnd(front, i)
  {
    var t, k := front + back, TokenEnd(front, i);
    assert InNumber(front[k - 1]);
    assert k == |front| && back != [] ==> t[k] == back[0];
    TokenEndIs(t, i, k);
  }

  lemma {:induction false} TrimAcross(x: string, y: string)
    requires x != [] && !IsSpace(x[|x| - 1])
    ensures TrimRight(x + y) == x + TrimRight(y)
  {
    if y == [] {
      assert x + y == x;
    } else if IsSpace(y[|y| - 1]) {
      assert (x + y)[..|x + y| - 1] == x + y[..|y| - 1];
      TrimAcross(x, y[..|y| - 1]);
    }
  }

  lemma {:induction false} TrimIsPrefix(y: string)
    ensures TrimRight(y) <= y
  {
    if y != [] && IsSpace(y[|y| - 1]) {
      TrimIsPrefix(y[..|y| - 1]);
    }
  }

  // A front part whose end can be no part of an "Rp" mark.
  predicate EndsInToken(front: string) {
    |front| >= 2 && InNumber(front[|front| - 1]) && front[|front| - 2] != 'p'
  }

  lemma EndsAcross(x: string, z: string)
    requires x != [] && InNumber(x[|x| - 1]) && (|x| >= 2 ==> x[|x| - 2] != 'p')
    requires z != [] ==> !InNumber(z[0])
    ensures EndsRp(x + z) == EndsRp(z)
  {
    var w, n := x + z, |x + z|;
    assert |z| >= 1 ==> w[n - 1] == z[|z| - 1];
    assert |z| >= 2 ==> w[n - 2] == z[|z| - 2];
    assert |z| >= 3 ==> w[n - 3] == z[|z| - 3];
    assert w[|x| - 1] == x[|x| - 1];
  }

  lemma MarkIsLocal(x: string, y: string)
    requires x != [] && InNumber(x[|x| - 1]) && (|x| >= 2 ==> x[|x| - 2] != 'p')
    requires y != [] ==> !InNumber(y[0])
    ensures EndsRp(TrimRight(x + y)) == EndsRp(TrimRight(y))
  {
    TrimAcross(x, y);
    TrimIsPrefix(y);
    EndsAcross(x, TrimRight(y));
  }

  lemma SliceAcross<T>(front: seq<T>, back: seq<T>, start: nat, i: nat)
    requires start <= |front| && i <= |back|
    ensures (front + back)[start..|front| + i] == front[start..] + back[..i]
  {
  }

  lemma BackSlice<T>(front: seq<T>, back: seq<T>, i: nat, j: nat)
    requires i <= j <= |back|
    ensures (front + back)[|front| + i..|front| + j] == back[i..j]
  {
  }

  lemma WindowIsLocal(front: string, back: string, i: nat)
    requires i <= |back| && EndsInToken(front) && (back != [] ==> !InNumber(back[0]))
    ensures RpMark(Window(front + back, |front| + i)) == RpMark(Window(back, i))
  {
    var t, at := front + back, |front| + i;
    if i >= 4 {
      BackSlice(front, back, i - 4, i);
    } else {
      var start := if at < 4 then 0 else at - 4;
      SliceAcross(front, back, start, i);
      assert Window(back, i) == back[..i];
      MarkIsLocal(front[start..], back[..i]);
    }
  }

  ghost predicate SameMark(marked: string -> bool, front: string, back: string, i: nat) {
    i <= |back| ==> marked(Window(front + back, |front| + i)) == marked(Window(back, i))
  }

  // Two texts that agree on one step and from there on agree from before that step.
  lemma SameScan(read: (string, bool) -> seq<set<real>>, marked: string -> bool, t: string, i: nat, u: string, j: nat)
    requires i < |t| && j < |u| && StartsToken(t, i) == StartsToken(u, j)
    requires StartsToken(t, i) ==>
      && t[i..TokenEnd(t, i)] == u[j..TokenEnd(u, j)] && marked(Window(t, i)) == marked(Window(u, j))
      && Scan(read, marked, t, TokenEnd(t, i)) == Scan(read, marked, u, TokenEnd(u, j))
    requires !StartsToken(t, i) ==> Scan(read, marked, t, i + 1) == Scan(read, marked, u, j + 1)
    ensures Scan(read, marked, t, i) == Scan(read, marked, u, j)
  {
    ScanStep(read, marked, t, i);
    ScanStep(read, marked, u, j);
  }

  /** What is read behind a token does not depend on what comes before it. */
  lemma {:induction false} ScanBack(read: (string, bool) -> seq<set<real>>, marked: string -> bool, front: string,
                                    back: string, t: string, i: nat)
    requires t == front + back && i <= |back| && FreshStart(front, back)
    requires forall j: nat :: j < |back| && StartsToken(back, j) ==> SameMark(marked, front, back, j)
    ensures Scan(read, marked, t, |front| + i) == Scan(read, marked, back, i)
    decreases |back| - i
  {
    if i < |back| {
      if StartsToken(back, i) {
        assert SameMark(marked, front, back, i);
        ScanBack(read, marked, front, back, t, TokenEnd(back, i));
      } else {
        ScanBack(read, marked, front, back, t, i + 1);
      }
      BackStep(read, marked, front, back, t, i);
    }
  }

  lemma BackStep(read: (string, bool) -> seq<set<real>>, marked: string -> bool, front: string, back: string, t: string,
                 i: nat)
    requires t == front + back && i < |back| && FreshStart(front, back)
    requires StartsToken(back, i) ==> SameMark(marked, front, back, i)
    requires StartsToken(back, i) ==>
      Scan(read, marked, t, |front| + TokenEnd(back, i)) == Scan(read, marked, back, TokenEnd(back, i))
    requires !StartsToken(back, i) ==> Scan(read, marked, t, |front| + i + 1) == Scan(read, marked, back, i + 1)
    ensures Scan(read, marked, t, |front| + i) == Scan(read, marked, back, i)
  {
    StartInBack(front, back, i);
    if StartsToken(back, i) {
      TokenInBack(front, back, i);
    }
    SameScan(read, marked, t, |front| + i, back, i);
  }

  lemma StartInBack(front: string, back: string, i: nat)
    requires i < |back| && FreshStart(front, back)
    ensures StartsToken(front + back, |front| + i) == StartsToken(back, i)
  {
    var t, at := front + back, |front| + i;
    assert t[at] == back[i] && (i > 0 ==> t[at - 1] == back[i - 1]);
    assert i == 0 && front != [] ==> t[at - 1] == front[|front| - 1];
  }

  lemma TokenInBack(front: string, back: string, i: nat)
    requires i < |back| && IsDigit(back[i])
    ensures TokenEnd(front + back, |front| + i) == |front| + TokenEnd(back, i)
    ensures (front + back)[|front| + i..|front| + TokenEnd(back, i)] == back[i..TokenEnd(back, i)]
  {
    var t, k := front + back, TokenEnd(back, i);
    ShiftedRun(front, back, i, k);
    TokenEndIs(t, |front| + i, |front| + k);
  }

  lemma ShiftedRun(front: string, back: string, i: nat, k: nat)
    requires i <= k <= |back| && (forall j :: i <= j < k ==> InNumber(back[j])) && (k < |back| ==> !InNumber(back[k]))
    ensures var t, at := front + back, |front|;
      && t[at + i..at + k] == back[i..k] && (i < |back| ==> t[at + i] == back[i])
      && (forall j :: at + i <= j < at + k ==> InNumber(t[j])) && (at + k < |t| ==> !InNumber(t[at + k]))
  {
    var t := front + back;
    forall j | |front| + i <= j < |front| + k ensures InNumber(t[j]) {
      assert t[j] == back[j - |front|];
    }
  }

  lemma AmountToken(n: nat, trail: string)
    requires forall c :: c in trail ==> IsSep(c)
    ensures ReadToken(Grouped(n) + trail, true) == [{n as real}]
  {
    RupiahRoundTrip(n, trail);
  }

  /** A rupiah token between the two is read as its amount. */
  lemma ScanToken(lead: string, n: nat, trail: string, back: string, z: string)
    requires lead == z + "Rp " && (forall c :: c in trail ==> IsSep(c)) && (back != [] ==> !InNumber(back[0]))
    ensures var t := lead + (Grouped(n) + trail) + back;
      ScanFrom(t, |lead|) == [{n as real}] + ScanFrom(t, |lead + (Grouped(n) + trail)|)
  {
    TokenHasNoR(n, trail);
    GroupedToken(n);
    AmountToken(n, trail);
    ScanOne(lead, Grouped(n) + trail, back, z);
  }

  lemma ScanOne(lead: string, token: string, back: string, z: string)
    requires lead == z + "Rp " && token != [] && IsDigit(token[0]) && IsToken(token)
    requires back != [] ==> !InNumber(back[0])
    ensures var t := lead + token + back; ScanFrom(t, |lead|) == ReadToken(token, true) + ScanFrom(t, |lead + token|)
  {
    var t, i := lead + token + back, |lead|;
    TokenBetween(lead, token, back);
    assert t[i - 1] == lead[i - 1] == ' ';
    assert t[..i] == lead;
    MarkedRp(t, i, lead, z);
    ScanStep(ReadToken, RpMark, t, i);
  }

  lemma TokenBetween(lead: string, token: string, back: string)
    requires token != [] && IsDigit(token[0]) && IsToken(token) && (back != [] ==> !InNumber(back[0]))
    ensures var t, i, k := lead + token + back, |lead|, |lead + token|;
      t[i] == token[0] && TokenEnd(t, i) == k && t[i..k] == token
  {
    var rest := token + back;
    Regroup(lead, token, back);
    forall j | 0 <= j < |token| ensures InNumber(rest[j]) {
      assert rest[j] == token[j] && token[j] in token;
    }
    assert rest[0..|token|] == token;
    ShiftedRun(lead, rest, 0, |token|);
    TokenEndIs(lead + rest, |lead|, |lead| + |token|);
  }

  lemma MarkedRp(t: string, i: nat, lead: string, z: string)
    requires lead == z + "Rp " && i == |lead| <= |t| && t[..i] == lead
    ensures RpMark(Window(t, i))
  {
    var w := Window(t, i);
    assert w == lead[if i < 4 then 0 else i - 4..];
    assert w[|w| - 1] == ' ' && w[|w| - 2] == 'p' && w[|w| - 3] == 'R';
    assert TrimRight(w) == w[..|w| - 1];
  }

  // ---------------------------------------------------------------- reading a printed amount in a text

  /**
   Wherever the template prints an amount, the reader finds exactly that amount there, and reads the
   text before and after it as if they stood alone. No part of the amount shows up as a hex identifier.
   */
  lemma FindsAmount(before: string, n: nat, trail: string, rest: string)
    requires Separated(trail, rest)
    ensures Extracted(before + Idr(n) + trail + rest) == Extracted(before + "Rp ") + [{n as real}] + Extracted(rest)
    ensures HexIds(before + Idr(n) + trail + rest) == HexIds(before + "Rp ") + HexIds(rest)
  {
    HexAround(before, n, trail, rest);
    NormalisedAround(before, n, trail, rest);
    var z := NormalisedLead(before);
    FirstChar(rest);
    ScanAround(Normalised(before + "Rp "), n, trail, Normalised(rest), z);
  }

  lemma ScanAround(lead: string, n: nat, trail: string, back: string, z: string)
    requires lead == z + "Rp " && (forall c :: c in trail ==> IsSep(c)) && (back != [] ==> !InNumber(back[0]))
    ensures ScanFrom(lead + (Grouped(n) + trail) + back, 0) == ScanFrom(lead, 0) + [{n as real}] + ScanFrom(back, 0)
  {
    var token := Grouped(n) + trail;
    var amount: seq<set<real>> := [{n as real}];
    Regroup(lead, token, back);
    ScanFront(ReadToken, RpMark, lead, token + back, 0);
    ScanToken(lead, n, trail, back, z);
    EndOfToken(lead, n, trail);
    ScanBehind(lead + token, back);
    Regroup(ScanFrom(lead, 0), amount, ScanFrom(back, 0));
  }

  lemma ScanBehind(front: string, back: string)
    requires EndsInToken(front) && (back != [] ==> !InNumber(back[0]))
    ensures ScanFrom(front + back, |front|) == ScanFrom(back, 0)
  {
    forall i: nat ensures SameMark(RpMark, front, back, i) {
      if i <= |back| {
        WindowIsLocal(front, back, i);
      }
    }
    ScanBack(ReadToken, RpMark, front, back, front + back, 0);
  }

  lemma EndOfToken(lead: string, n: nat, trail: string)
    requires lead != [] && lead[|lead| - 1] == ' ' && forall c :: c in trail ==> IsSep(c)
    ensures EndsInToken(lead + (Grouped(n) + trail))
  {
    TokenHasNoR(n, trail);
    GroupedToken(n);
    var token := Grouped(n) + trail;
    assert token[|token| - 1] in token;
    assert |token| >= 2 ==> token[|token| - 2] in token;
  }

  function Abs(x: real): real {
    if x < 0.0 then -x else x
  }

  // Some reading of a number is within the tolerance of an allowed value.
  ghost predicate Near(options: set<real>, allowed: set<real>, tol: real) {
    exists o, a :: o in options && a in allowed && Abs(o - a) <= tol
  }

  ghost predicate NumbersAllowed(found: seq<set<real>>, allowed: set<real>, tol: real) {
    forall options :: options in found ==> Near(options, allowed, tol)
  }

  /**
   An amount in the text is accepted on its own merits: the text passes the number check if and only if
   the text before it passes, the amount itself is an allowed value, and the text after it passes.
   */
  lemma AmountDecides(before: string, n: nat, trail: string, rest: string, allowed: set<real>, tol: real)
    requires Separated(trail, rest)
    ensures NumbersAllowed(Extracted(before + Idr(n) + trail + rest), allowed, tol) <==>
      && NumbersAllowed(Extracted(before + "Rp "), allowed, tol)
      && (exists a :: a in allowed && Abs(n as real - a) <= tol)
      && NumbersAllowed(Extracted(rest), allowed, tol)
  {
    FindsAmount(before, n, trail, rest);
    var x := n as real;
    assert Near({x}, allowed, tol) <==> exists a :: a in allowed && Abs(x - a) <= tol by {
      if a :| a in allowed && Abs(x - a) <= tol {
        assert x in {x};
      }
    }
    SplitAllowed(Extracted(before + "Rp "), {x}, Extracted(rest), allowed, tol);
  }

  lemma SplitAllowed(a: seq<set<real>>, options: set<real>, b: seq<set<real>>, allowed: set<real>, tol: real)
    ensures NumbersAllowed(a + [options] + b, allowed, tol) <==>
      NumbersAllowed(a, allowed, tol) && Near(options, allowed, tol) && NumbersAllowed(b, allowed, tol)
  {
    assert forall o :: o in a + [options] + b <==> o in a || o == options || o in b;
  }
}
