/** What items, decisions and whole allocations are worth and cost, told candidate by candidate. */
module Worth {
  import opened Contracts
  import opened Ordering
  import opened Items
  import opened Bundles
  import Selection

  /** An amount of every listed candidate with a property, added up. */
  ghost function SumWhere(rs: seq<Ranked>, f: Ranked -> real, p: Ranked -> bool): real {
    if rs == [] then 0.0 else (if p(rs[0]) then f(rs[0]) else 0.0) + SumWhere(rs[1..], f, p)
  }

  ghost function Priority(): Ranked -> real {
    (r: Ranked) => r.priority
  }

  ghost function Price(): Ranked -> real {
    (r: Ranked) => r.candidate.cost as real
  }

  ghost function OfOffer(k: Offer): Ranked -> bool {
    (r: Ranked) => r.candidate.group == Some(k.group) && r.candidate.incentive == k.incentive
  }

  ghost function Anyone(): Ranked -> bool {
    (r: Ranked) => true
  }

  lemma {:induction false} SumSplit(a: seq<Ranked>, b: seq<Ranked>, f: Ranked -> real, p: Ranked -> bool)
    ensures SumWhere(a + b, f, p) == SumWhere(a, f, p) + SumWhere(b, f, p)
  {
    if a == [] {
      assert a + b == b;
    } else {
      assert (a + b)[1..] == a[1..] + b;
      SumSplit(a[1..], b, f, p);
    }
  }

  lemma SumOne(rs: seq<Ranked>, r: Ranked, f: Ranked -> real, p: Ranked -> bool)
    ensures SumWhere(rs + [r], f, p) == SumWhere(rs, f, p) + if p(r) then f(r) else 0.0
  {
    SumSplit(rs, [r], f, p);
    assert [r][1..] == [];
  }

  lemma {:induction false} SumSame(rs: seq<Ranked>, f: Ranked -> real, p: Ranked -> bool, q: Ranked -> bool)
    requires forall r :: r in rs ==> p(r) == q(r)
    ensures SumWhere(rs, f, p) == SumWhere(rs, f, q)
  {
    if rs != [] {
      assert rs[0] in rs;
      SumSame(rs[1..], f, p, q);
    }
  }

  lemma {:induction false} SumApart(rs: seq<Ranked>, f: Ranked -> real, p: Ranked -> bool, q: Ranked -> bool,
                                    both: Ranked -> bool)
    requires forall r :: r in rs ==> (both(r) <==> p(r) || q(r)) && !(p(r) && q(r))
    ensures SumWhere(rs, f, both) == SumWhere(rs, f, p) + SumWhere(rs, f, q)
  {
    if rs != [] {
      assert rs[0] in rs;
      SumApart(rs[1..], f, p, q, both);
    }
  }

  lemma {:induction false} SumPermuted(a: seq<Ranked>, b: seq<Ranked>, f: Ranked -> real, p: Ranked -> bool)
    requires multiset(a) == multiset(b)
    ensures SumWhere(a, f, p) == SumWhere(b, f, p)
  {
    if a == [] {
      assert |multiset(b)| == 0;
    } else {
      var j := RemoveFirst(a, b);
      SumPermuted(a[1..], b[..j] + b[j + 1..], f, p);
      SumAround(b, j, f, p);
    }
  }

  lemma SumAround(b: seq<Ranked>, j: nat, f: Ranked -> real, p: Ranked -> bool)
    requires j < |b|
    ensures SumWhere(b, f, p) == SumWhere(b[..j] + b[j + 1..], f, p) + if p(b[j]) then f(b[j]) else 0.0
  {
    AroundOne(b, j);
    SumSplit(b[..j] + [b[j]], b[j + 1..], f, p);
    SumOne(b[..j], b[j], f, p);
    SumSplit(b[..j], b[j + 1..], f, p);
  }

  // ---------------------------------------------------------------- one item

  lemma {:induction false} MembersSum(rs: seq<Ranked>, k: Offer, f: Ranked -> real)
    ensures SumWhere(Members(rs, k), f, Anyone()) == SumWhere(rs, f, OfOffer(k))
  {
    if rs != [] {
      var before, last := rs[..|rs| - 1], rs[|rs| - 1];
      assert rs == before + [last];
      MembersSum(before, k, f);
      SumOne(before, last, f, OfOffer(k));
      MembersOne(before, last, k);
      SumOne(Members(before, k), last, f, Anyone());
    }
  }

  lemma {:induction false} TotalsAreSums(rs: seq<Ranked>)
    ensures TotalPriority(rs) == SumWhere(rs, Priority(), Anyone())
    ensures TotalCost(rs) as real == SumWhere(rs, Price(), Anyone())
  {
    if rs != [] {
      TotalsAreSums(rs[1..]);
    }
  }

  /** A bundle is worth, and costs, all candidates of its offer together. */
  lemma BundleSums(rs: seq<Ranked>, k: Offer)
    ensures var x := BundleItem(k, Members(rs, k));
      x.value == SumWhere(rs, Priority(), OfOffer(k)) && x.cost as real == SumWhere(rs, Price(), OfOffer(k))
  {
    var members := Members(rs, k);
    var sorted := SortBy(members, ByCandidateId);
    TotalsAreSums(sorted);
    SumPermuted(sorted, members, Priority(), Anyone());
    SumPermuted(sorted, members, Price(), Anyone());
    MembersSum(rs, k, Priority());
    MembersSum(rs, k, Price());
  }

  // ---------------------------------------------------------------- all items

  ghost function ItemSum(items: seq<Item>, sel: set<string>, v: Item -> real): real {
    if items == [] then 0.0 else (if items[0].id in sel then v(items[0]) else 0.0) + ItemSum(items[1..], sel, v)
  }

  ghost function ItemValue(): Item -> real {
    (x: Item) => x.value
  }

  ghost function ItemCost(): Item -> real {
    (x: Item) => x.cost as real
  }

  lemma {:induction false} ItemTotals(items: seq<Item>, sel: set<string>)
    ensures ItemSum(items, sel, ItemValue()) == Value(items, sel)
    ensures ItemSum(items, sel, ItemCost()) == Cost(items, sel) as real
  {
    if items != [] {
      ItemTotals(items[1..], sel);
    }
  }

  lemma {:induction false} ItemSumSplit(a: seq<Item>, b: seq<Item>, sel: set<string>, v: Item -> real)
    ensures ItemSum(a + b, sel, v) == ItemSum(a, sel, v) + ItemSum(b, sel, v)
  {
    if a == [] {
      assert a + b == b;
    } else {
      assert (a + b)[1..] == a[1..] + b;
      ItemSumSplit(a[1..], b, sel, v);
    }
  }

  lemma ItemSumOne(a: seq<Item>, x: Item, sel: set<string>, v: Item -> real)
    ensures ItemSum(a + [x], sel, v) == ItemSum(a, sel, v) + if x.id in sel then v(x) else 0.0
  {
    ItemSumSplit(a, [x], sel, v);
    assert [x][1..] == [];
  }

  // The amount of an item is the amount of its candidates.
  ghost predicate Additive(rs: seq<Ranked>, f: Ranked -> real, v: Item -> real) {
    && (forall r :: v(SingleItem(r)) == f(r))
    && (forall k :: v(BundleItem(k, Members(rs, k))) == SumWhere(rs, f, OfOffer(k)))
  }

  lemma ValueAdds(rs: seq<Ranked>)
    ensures Additive(rs, Priority(), ItemValue()) && Additive(rs, Price(), ItemCost())
  {
    forall k ensures ItemValue()(BundleItem(k, Members(rs, k))) == SumWhere(rs, Priority(), OfOffer(k)) {
      BundleSums(rs, k);
    }
    forall k ensures ItemCost()(BundleItem(k, Members(rs, k))) == SumWhere(rs, Price(), OfOffer(k)) {
      BundleSums(rs, k);
    }
  }

  ghost function ChosenSingle(sel: set<string>): Ranked -> bool {
    (r: Ranked) => r.candidate.group.None? && r.candidate.id in sel
  }

  ghost function ChosenOffer(offers: seq<Offer>, sel: set<string>): Ranked -> bool {
    (r: Ranked) => Offered(r, offers) && BundleId(Offer(r.candidate.group.value, r.candidate.incentive)) in sel
  }

  ghost function ChosenEither(offers: seq<Offer>, sel: set<string>): Ranked -> bool {
    (r: Ranked) => ChosenSingle(sel)(r) || ChosenOffer(offers, sel)(r)
  }

  lemma {:induction false} SinglesSum(rs: seq<Ranked>, sel: set<string>, f: Ranked -> real, v: Item -> real)
    requires forall r :: v(SingleItem(r)) == f(r)
    ensures ItemSum(Singles(rs), sel, v) == SumWhere(rs, f, ChosenSingle(sel))
  {
    if rs != [] {
      var before, last := rs[..|rs| - 1], rs[|rs| - 1];
      assert rs == before + [last];
      SinglesSum(before, sel, f, v);
      SumOne(before, last, f, ChosenSingle(sel));
      if last.candidate.group.None? {
        ItemSumOne(Singles(before), SingleItem(last), sel, v);
      }
    }
  }

  lemma {:induction false} OffersSum(rs: seq<Ranked>, offers: seq<Offer>, sel: set<string>, f: Ranked -> real,
                                     v: Item -> real)
    requires Additive(rs, f, v) && Distinct(offers)
    ensures ItemSum(BundleItems(rs, offers), sel, v) == SumWhere(rs, f, ChosenOffer(offers, sel))
  {
    if offers == [] {
      NobodyChosen(rs, sel, f);
    } else {
      var before, last := offers[..|offers| - 1], offers[|offers| - 1];
      assert offers == before + [last] && last !in before;
      OffersSum(rs, before, sel, f, v);
      ItemSumOne(BundleItems(rs, before), BundleItem(last, Members(rs, last)), sel, v);
      OneOffer(rs, before, last, sel, f);
    }
  }

  lemma {:induction false} NobodyChosen(rs: seq<Ranked>, sel: set<string>, f: Ranked -> real)
    ensures SumWhere(rs, f, ChosenOffer([], sel)) == 0.0
  {
    if rs != [] {
      NobodyChosen(rs[1..], sel, f);
    }
  }

  lemma OneOffer(rs: seq<Ranked>, before: seq<Offer>, last: Offer, sel: set<string>, f: Ranked -> real)
    requires last !in before
    ensures SumWhere(rs, f, ChosenOffer(before + [last], sel)) == SumWhere(rs, f, ChosenOffer(before, sel)) +
      if BundleId(last) in sel then SumWhere(rs, f, OfOffer(last)) else 0.0
  {
    if BundleId(last) in sel {
      SumApart(rs, f, ChosenOffer(before, sel), OfOffer(last), ChosenOffer(before + [last], sel));
    } else {
      SumSame(rs, f, ChosenOffer(before, sel), ChosenOffer(before + [last], sel));
    }
  }

  /** The selected items amount to their candidates. */
  lemma ItemsSum(rs: seq<Ranked>, sel: set<string>, f: Ranked -> real, v: Item -> real)
    requires Additive(rs, f, v)
    ensures ItemSum(ItemsOf(rs), sel, v) == SumWhere(rs, f, ChosenEither(SortBy(Offers(rs), ByOffer), sel))
  {
    var offers := SortedOffers(rs);
    ItemSumSplit(Singles(rs), BundleItems(rs, offers), sel, v);
    SinglesSum(rs, sel, f, v);
    OffersSum(rs, offers, sel, f, v);
    SumApart(rs, f, ChosenSingle(sel), ChosenOffer(offers, sel), ChosenEither(offers, sel));
  }

  // ---------------------------------------------------------------- decisions

  /** Some decision selects the candidate. */
  ghost function SelectedIn(ds: seq<Decision>): Ranked -> bool {
    (r: Ranked) => exists d :: d in ds && d.candidateId == r.candidate.id && d.selected
  }

  // The item a candidate belongs to.
  ghost function HomeOf(rs: seq<Ranked>, r: Ranked): Item {
    if r.candidate.group.None? then SingleItem(r)
    else
      var k := Offer(r.candidate.group.value, r.candidate.incentive);
      BundleItem(k, Members(rs, k))
  }

  lemma HomeIsItem(rs: seq<Ranked>, r: Ranked)
    requires r in rs
    ensures HomeOf(rs, r) in ItemsOf(rs) && r.candidate.id in HomeOf(rs, r).candidateIds
  {
    if r.candidate.group.None? {
      assert IsSingle(rs, SingleItem(r), r);
      ItemForm(rs, SingleItem(r));
    } else {
      var k := Offer(r.candidate.group.value, r.candidate.incentive);
      Selection.BundleListed(rs, k, r);
      Selection.MemberIds(rs, k, r);
    }
  }

  lemma DecisionFor(rs: seq<Ranked>, ids: seq<string>, chosen: seq<Item>, ds: seq<Decision>, r: Ranked)
    returns (d: Decision)
    requires WellFormed(rs) && Selection.Decided(ItemsOf(rs), ids, chosen, ds) && r in rs
    ensures d in ds && d.candidateId == r.candidate.id
  {
    Selection.OneDecisionEach(rs, ids, chosen, ds);
    MembersFromMultiset(DecisionIds(ds), CandidateIds(rs));
    var i :| 0 <= i < |rs| && rs[i] == r;
    assert CandidateIds(rs)[i] == r.candidate.id && r.candidate.id in CandidateIds(rs);
    var j :| 0 <= j < |ds| && DecisionIds(ds)[j] == r.candidate.id;
    d := ds[j];
  }

  lemma SelectedHome(rs: seq<Ranked>, ids: seq<string>, chosen: seq<Item>, ds: seq<Decision>, r: Ranked)
    requires WellFormed(rs) && Selection.Decided(ItemsOf(rs), ids, chosen, ds) && r in rs
    ensures SelectedIn(ds)(r) <==> HomeOf(rs, r).id in ids
  {
    HomeIsItem(rs, r);
    var d := DecisionFor(rs, ids, chosen, ds, r);
    forall e | e in ds && e.candidateId == r.candidate.id
      ensures Selection.Decides(ItemsOf(rs), ids, chosen, HomeOf(rs, r), e)
    {
      Selection.HomeDecides(rs, ids, chosen, ds, HomeOf(rs, r), e);
    }
  }

  /** The objective is the sum of the priorities, and the spend the sum of the costs, of the selected candidates. */
  lemma ObjectiveIsSum(rs: seq<Ranked>, budget: nat, config: Selection.Config, eps: real, result: AllocationResult,
                       ids: seq<string>, chosen: seq<Item>)
    requires WellFormed(rs) && config.costScale >= 1
    requires Selection.Allocated(rs, budget, config, eps, result, ids, chosen)
    ensures result.objective == SumWhere(rs, Priority(), SelectedIn(result.decisions))
    ensures result.spent as real == SumWhere(rs, Price(), SelectedIn(result.decisions))
  {
    ValueAdds(rs);
    ItemTotals(ItemsOf(rs), AsSet(ids));
    SelectedSum(rs, ids, chosen, result.decisions, Priority(), ItemValue());
    SelectedSum(rs, ids, chosen, result.decisions, Price(), ItemCost());
  }

  lemma SelectedSum(rs: seq<Ranked>, ids: seq<string>, chosen: seq<Item>, ds: seq<Decision>, f: Ranked -> real,
                    v: Item -> real)
    requires WellFormed(rs) && Selection.Decided(ItemsOf(rs), ids, chosen, ds) && Additive(rs, f, v)
    ensures ItemSum(ItemsOf(rs), AsSet(ids), v) == SumWhere(rs, f, SelectedIn(ds))
  {
    var offers := SortedOffers(rs);
    ItemsSum(rs, AsSet(ids), f, v);
    forall r | r in rs ensures ChosenEither(offers, AsSet(ids))(r) == SelectedIn(ds)(r) {
      SelectedHome(rs, ids, chosen, ds, r);
      HomeChosen(rs, offers, AsSet(ids), r);
    }
    SumSame(rs, f, ChosenEither(offers, AsSet(ids)), SelectedIn(ds));
  }

  lemma HomeChosen(rs: seq<Ranked>, offers: seq<Offer>, sel: set<string>, r: Ranked)
    requires r in rs && forall k :: k in offers <==> k in Offers(rs)
    ensures ChosenEither(offers, sel)(r) <==> HomeOf(rs, r).id in sel
  {
    OffersListed(rs);
    if r.candidate.group.Some? {
      var k := Offer(r.candidate.group.value, r.candidate.incentive);
      assert Offered(r, Offers(rs)) && k in offers;
      assert HomeOf(rs, r).id == BundleId(k) && Offered(r, offers);
      assert ChosenOffer(offers, sel)(r) <==> BundleId(k) in sel;
      assert !ChosenSingle(sel)(r);
    } else {
      assert HomeOf(rs, r).id == r.candidate.id;
      assert ChosenSingle(sel)(r) <==> r.candidate.id in sel;
      assert !Offered(r, offers) && !ChosenOffer(offers, sel)(r);
    }
  }

  /**
   A decision about an individual candidate carries its user, its cost and its priority; one about a group candidate
   the circle's key, and the cost and priority of all candidates of the offer together.
   */
  lemma DecisionAmounts(rs: seq<Ranked>, ids: seq<string>, chosen: seq<Item>, ds: seq<Decision>, r: Ranked, d: Decision)
    requires WellFormed(rs) && Selection.Decided(ItemsOf(rs), ids, chosen, ds)
    requires r in rs && d in ds && d.candidateId == r.candidate.id
    ensures r.candidate.group.None? ==>
      d.key == r.candidate.user && d.cost == r.candidate.cost && d.priority == r.priority
    ensures r.candidate.group.Some? ==>
      var k := Offer(r.candidate.group.value, r.candidate.incentive);
      && d.key == "group:" + k.group && d.cost as real == SumWhere(rs, Price(), OfOffer(k))
      && d.priority == SumWhere(rs, Priority(), OfOffer(k))
  {
    HomeIsItem(rs, r);
    Selection.HomeDecides(rs, ids, chosen, ds, HomeOf(rs, r), d);
    if r.candidate.group.Some? {
      BundleSums(rs, Offer(r.candidate.group.value, r.candidate.incentive));
    }
  }
}
