/** Turns ranked candidates into allocatable items: singles, and one indivisible item per group offer. */
module Bundles {
  import opened Contracts
  import opened Ordering
  import opened Items

  // One incentive offered to one circle.
  datatype Offer = Offer(group: string, incentive: string)

  predicate ByOffer(a: Offer, b: Offer) {
    StrLt(a.group, b.group) || (a.group == b.group && StrLe(a.incentive, b.incentive))
  }

  predicate ByCandidateId(a: Ranked, b: Ranked) {
    StrLe(a.candidate.id, b.candidate.id)
  }

  function CandidateIds(rs: seq<Ranked>): (r: seq<string>)
    ensures |r| == |rs| && forall i :: 0 <= i < |rs| ==> r[i] == rs[i].candidate.id
  {
    seq(|rs|, i requires 0 <= i < |rs| => rs[i].candidate.id)
  }

  function TotalCost(rs: seq<Ranked>): nat {
    if rs == [] then 0 else rs[0].candidate.cost + TotalCost(rs[1..])
  }

  function TotalPriority(rs: seq<Ranked>): real {
    if rs == [] then 0.0 else rs[0].priority + TotalPriority(rs[1..])
  }

  function GroupKey(group: string): string {
    "group:" + group
  }

  function BundleId(offer: Offer): string {
    "bundle:" + offer.group + ":" + offer.incentive
  }

  // The group offer a candidate belongs to, if it is a group candidate.
  predicate InOffer(r: Ranked, offer: Offer) {
    r.candidate.group == Some(offer.group) && r.candidate.incentive == offer.incentive
  }

  function SingleItem(r: Ranked): Item {
    Item(r.candidate.id, r.candidate.user, r.candidate.cost, r.priority, [r.candidate.id])
  }

  /** All members of a group offer as one item: summed cost and value, all members or none. */
  function BundleItem(offer: Offer, members: seq<Ranked>): Item {
    var sorted := SortBy(members, ByCandidateId);
    Item(BundleId(offer), GroupKey(offer.group), TotalCost(sorted), TotalPriority(sorted), CandidateIds(sorted))
  }

  function Singles(rs: seq<Ranked>): seq<Item> {
    if rs == [] then [] else
    var last := rs[|rs| - 1];
    var before := Singles(rs[..|rs| - 1]);
    if last.candidate.group.None? then before + [SingleItem(last)] else before
  }

  function Members(rs: seq<Ranked>, offer: Offer): seq<Ranked> {
    if rs == [] then [] else
    var last := rs[|rs| - 1];
    var before := Members(rs[..|rs| - 1], offer);
    if InOffer(last, offer) then before + [last] else before
  }

  /** The group offers present, in order of first appearance. */
  function Offers(rs: seq<Ranked>): seq<Offer> {
    if rs == [] then [] else
    var before := Offers(rs[..|rs| - 1]);
    var c := rs[|rs| - 1].candidate;
    if c.group.Some? && Offer(c.group.value, c.incentive) !in before
    then before + [Offer(c.group.value, c.incentive)]
    else before
  }

  function BundleItems(rs: seq<Ranked>, offers: seq<Offer>): seq<Item> {
    if offers == [] then [] else
    var last := offers[|offers| - 1];
    BundleItems(rs, offers[..|offers| - 1]) + [BundleItem(last, Members(rs, last))]
  }

  function ItemsOf(rs: seq<Ranked>): seq<Item> {
    Singles(rs) + BundleItems(rs, SortBy(Offers(rs), ByOffer))
  }

  /** The bundles filled so far: the members of every offer seen. */
  ghost predicate Bundled(rs: seq<Ranked>, order: seq<Offer>, bundles: map<Offer, seq<Ranked>>) {
    && order == Offers(rs) && bundles.Keys == AsSet(order)
    && forall k :: (k in bundles ==> bundles[k] == Members(rs, k)) && (k !in bundles ==> Members(rs, k) == [])
  }

  lemma MembersOne(rs: seq<Ranked>, r: Ranked, k: Offer)
    ensures Members(rs + [r], k) == if InOffer(r, k) then Members(rs, k) + [r] else Members(rs, k)
    ensures Singles(rs + [r]) == if r.candidate.group.None? then Singles(rs) + [SingleItem(r)] else Singles(rs)
    ensures r.candidate.group.None? ==> Offers(rs + [r]) == Offers(rs)
    ensures InOffer(r, k) ==> Offers(rs + [r]) == if k in Offers(rs) then Offers(rs) else Offers(rs) + [k]
  {
    assert (rs + [r])[..|rs|] == rs;
  }

  lemma BundleOne(rs: seq<Ranked>, order: seq<Offer>, bundles: map<Offer, seq<Ranked>>, r: Ranked, key: Offer)
    requires Bundled(rs, order, bundles) && InOffer(r, key)
    ensures Bundled(rs + [r], if key in order then order else order + [key], FileUnder(bundles, key, r))
  {
    MembersOne(rs, r, key);
    var after := FileUnder(bundles, key, r);
    assert key in bundles <==> key in order;
    forall k
      ensures k in after ==> after[k] == Members(rs + [r], k)
      ensures k !in after ==> Members(rs + [r], k) == []
    {
      MembersOne(rs, r, k);
    }
  }

  lemma SingleOne(rs: seq<Ranked>, order: seq<Offer>, bundles: map<Offer, seq<Ranked>>, r: Ranked)
    requires Bundled(rs, order, bundles) && r.candidate.group.None?
    ensures Bundled(rs + [r], order, bundles)
  {
    forall k ensures Members(rs + [r], k) == Members(rs, k) {
      MembersOne(rs, r, k);
    }
    MembersOne(rs, r, Offer("", ""));
  }

  /** Splits the candidates into single items and the member lists of the group offers. */
  method Collect(rs: seq<Ranked>) returns (items: seq<Item>, order: seq<Offer>, bundles: map<Offer, seq<Ranked>>)
    ensures items == Singles(rs) && Bundled(rs, order, bundles)
  {
    items, order, bundles := [], [], map[];
    for n := 0 to |rs|
      invariant items == Singles(rs[..n]) && Bundled(rs[..n], order, bundles)
    {
      var r := rs[n];
      assert rs[..n + 1] == rs[..n] + [r];
      MembersOne(rs[..n], r, Offer("", ""));
      if r.candidate.group.None? {
        SingleOne(rs[..n], order, bundles, r);
        items := items + [SingleItem(r)];
      } else {
        var k := Offer(r.candidate.group.value, r.candidate.incentive);
        BundleOne(rs[..n], order, bundles, r, k);
        if k !in bundles {
          bundles := bundles[k := []];
          order := order + [k];
        }
        bundles := bundles[k := bundles[k] + [r]];
      }
    }
    assert rs[..|rs|] == rs;
  }

  method BuildItems(rs: seq<Ranked>) returns (items: seq<Item>)
    ensures items == ItemsOf(rs)
  {
    var singles, order, bundles := Collect(rs);
    var sorted := SortBy(order, ByOffer);
    SortByMembers(order, ByOffer);
    forall k | k in sorted ensures k in bundles && bundles[k] == Members(rs, k) {
      assert k in AsSet(order);
    }
    var rest := AppendBundles(rs, sorted, bundles);
    items := singles + rest;
  }

  method AppendBundles(ghost rs: seq<Ranked>, sorted: seq<Offer>, bundles: map<Offer, seq<Ranked>>)
    returns (items: seq<Item>)
    requires forall k :: k in sorted ==> k in bundles && bundles[k] == Members(rs, k)
    ensures items == BundleItems(rs, sorted)
  {
    items := [];
    for n := 0 to |sorted|
      invariant items == BundleItems(rs, sorted[..n])
    {
      assert sorted[..n + 1][..n] == sorted[..n];
      items := items + [BundleItem(sorted[n], bundles[sorted[n]])];
    }
    assert sorted[..|sorted|] == sorted;
  }

  // ---------------------------------------------------------------- every candidate is in exactly one item

  function AllIds(items: seq<Item>): seq<string> {
    if items == [] then [] else items[0].candidateIds + AllIds(items[1..])
  }

  lemma {:induction false} AllIdsSplit(a: seq<Item>, b: seq<Item>)
    ensures AllIds(a + b) == AllIds(a) + AllIds(b)
  {
    if a == [] {
      assert a + b == b;
    } else {
      assert (a + b)[1..] == a[1..] + b;
      AllIdsSplit(a[1..], b);
    }
  }

  lemma {:induction false} CandidateIdsPermuted(a: seq<Ranked>, b: seq<Ranked>)
    requires multiset(a) == multiset(b)
    ensures multiset(CandidateIds(a)) == multiset(CandidateIds(b))
  {
    if a == [] {
      assert |multiset(b)| == 0;
    } else {
      var j := RemoveFirst(a, b);
      CandidateIdsPermuted(a[1..], b[..j] + b[j + 1..]);
      assert CandidateIds(a) == [a[0].candidate.id] + CandidateIds(a[1..]);
      assert CandidateIds(b[..j] + b[j + 1..]) == CandidateIds(b[..j]) + CandidateIds(b[j + 1..]);
      assert CandidateIds(b) == CandidateIds(b[..j]) + ([b[j].candidate.id] + CandidateIds(b[j + 1..]));
    }
  }

  // The candidate ids of the given offers, with multiplicity.
  ghost function OfferIds(rs: seq<Ranked>, offers: seq<Offer>): multiset<string> {
    if offers == [] then multiset{} else
    var last := offers[|offers| - 1];
    OfferIds(rs, offers[..|offers| - 1]) + multiset(CandidateIds(Members(rs, last)))
  }

  lemma {:induction false} BundleIds(rs: seq<Ranked>, offers: seq<Offer>)
    ensures multiset(AllIds(BundleItems(rs, offers))) == OfferIds(rs, offers)
  {
    if offers != [] {
      var before, last := offers[..|offers| - 1], offers[|offers| - 1];
      BundleIds(rs, before);
      var item := BundleItem(last, Members(rs, last));
      CandidateIdsPermuted(SortBy(Members(rs, last), ByCandidateId), Members(rs, last));
      AllIdsSplit(BundleItems(rs, before), [item]);
      assert AllIds([item]) == item.candidateIds + AllIds([]);
    }
  }

  predicate Offered(r: Ranked, offers: seq<Offer>) {
    r.candidate.group.Some? && Offer(r.candidate.group.value, r.candidate.incentive) in offers
  }

  ghost function Once(r: Ranked, present: bool): multiset<string> {
    if present then multiset{r.candidate.id} else multiset{}
  }

  lemma CandidateIdsOne(rs: seq<Ranked>, r: Ranked)
    ensures CandidateIds(rs + [r]) == CandidateIds(rs) + [r.candidate.id]
    ensures multiset(CandidateIds(rs + [r])) == multiset(CandidateIds(rs)) + Once(r, true)
  {
    assert CandidateIds(rs + [r]) == CandidateIds(rs) + [r.candidate.id];
  }

  lemma MemberIdsOne(rs: seq<Ranked>, r: Ranked, k: Offer)
    ensures multiset(CandidateIds(Members(rs + [r], k))) ==
      multiset(CandidateIds(Members(rs, k))) + Once(r, InOffer(r, k))
  {
    MembersOne(rs, r, k);
    CandidateIdsOne(Members(rs, k), r);
  }

  lemma {:induction false} OfferIdsOne(rs: seq<Ranked>, r: Ranked, offers: seq<Offer>)
    requires Distinct(offers)
    ensures OfferIds(rs + [r], offers) == OfferIds(rs, offers) + Once(r, Offered(r, offers))
  {
    if offers != [] {
      var before, last := offers[..|offers| - 1], offers[|offers| - 1];
      assert offers == before + [last];
      OfferIdsOne(rs, r, before);
      MemberIdsOne(rs, r, last);
      assert last !in before;
      assert Offered(r, offers) <==> Offered(r, before) || InOffer(r, last);
    }
  }

  lemma SingleIdsOne(rs: seq<Ranked>, r: Ranked)
    ensures multiset(AllIds(Singles(rs + [r]))) == multiset(AllIds(Singles(rs))) + Once(r, r.candidate.group.None?)
  {
    MembersOne(rs, r, Offer("", ""));
    if r.candidate.group.None? {
      AllIdsSplit(Singles(rs), [SingleItem(r)]);
      assert AllIds([SingleItem(r)]) == [r.candidate.id] + AllIds([]);
    }
  }

  lemma {:induction false} SinglesAndOffers(rs: seq<Ranked>, offers: seq<Offer>)
    requires Distinct(offers)
    requires forall r :: r in rs && r.candidate.group.Some? ==> Offered(r, offers)
    ensures multiset(AllIds(Singles(rs))) + OfferIds(rs, offers) == multiset(CandidateIds(rs))
  {
    if rs == [] {
      NoOfferIds(offers);
    } else {
      var before, r := rs[..|rs| - 1], rs[|rs| - 1];
      assert rs == before + [r];
      SinglesAndOffers(before, offers);
      OfferIdsOne(before, r, offers);
      SingleIdsOne(before, r);
      CandidateIdsOne(before, r);
    }
  }

  lemma {:induction false} NoOfferIds(offers: seq<Offer>)
    ensures OfferIds([], offers) == multiset{}
  {
    if offers != [] {
      NoOfferIds(offers[..|offers| - 1]);
    }
  }

  lemma {:induction false} OffersListed(rs: seq<Ranked>)
    ensures Distinct(Offers(rs))
    ensures forall r :: r in rs && r.candidate.group.Some? ==> Offered(r, Offers(rs))
    ensures forall k :: k in Offers(rs) ==> exists r :: r in rs && InOffer(r, k)
  {
    if rs != [] {
      var before, r := rs[..|rs| - 1], rs[|rs| - 1];
      assert rs == before + [r];
      OffersListed(before);
      forall k | k in Offers(rs) ensures exists x :: x in rs && InOffer(x, k) {
        if k in Offers(before) {
          var x :| x in before && InOffer(x, k);
          assert x in rs;
        } else {
          assert InOffer(r, k);
        }
      }
    }
  }

  /** Conservation: bundling loses and duplicates no candidate. */
  lemma ItemsCoverCandidates(rs: seq<Ranked>)
    ensures multiset(AllIds(ItemsOf(rs))) == multiset(CandidateIds(rs))
  {
    var offers := SortBy(Offers(rs), ByOffer);
    OffersListed(rs);
    SortByDistinct(Offers(rs), ByOffer);
    SortByMembers(Offers(rs), ByOffer);
    SinglesAndOffers(rs, offers);
    BundleIds(rs, offers);
    AllIdsSplit(Singles(rs), BundleItems(rs, offers));
  }

  // ---------------------------------------------------------------- item ids and keys never clash

  /** What the indexes by id rely on: no candidate id and no item id occurs twice. */
  ghost predicate WellFormed(rs: seq<Ranked>) {
    Distinct(CandidateIds(rs)) && DistinctIds(ItemsOf(rs))
  }

  /** What the producers of ids guarantee: candidate ids differ and are not bundle ids, and circle ids hold no colon. */
  ghost predicate PlainIds(rs: seq<Ranked>) {
    && Distinct(CandidateIds(rs))
    && forall r :: r in rs ==>
      !("bundle:" <= r.candidate.id) && (r.candidate.group.Some? ==> ':' !in r.candidate.group.value)
  }

  lemma SplitAtColon(a: string, x: string, b: string, y: string)
    requires ':' !in a && ':' !in b && a + ":" + x == b + ":" + y
    ensures a == b && x == y
  {
    var s := a + ":" + x;
    assert s[|a|] == ':' && s[|b|] == ':';
    assert forall i :: 0 <= i < |a| ==> s[i] == a[i];
    assert forall i :: 0 <= i < |b| ==> s[i] == b[i];
    assert |a| == |b|;
    assert a == s[..|a|] && b == s[..|b|];
    assert x == s[|a| + 1..] && y == s[|b| + 1..];
  }

  lemma BundleIdInjective(a: Offer, b: Offer)
    requires ':' !in a.group && ':' !in b.group && BundleId(a) == BundleId(b)
    ensures a == b
  {
    assert BundleId(a) == "bundle:" + (a.group + ":" + a.incentive);
    assert BundleId(b) == "bundle:" + (b.group + ":" + b.incentive);
    assert BundleId(a)[7..] == a.group + ":" + a.incentive && BundleId(b)[7..] == b.group + ":" + b.incentive;
    SplitAtColon(a.group, a.incentive, b.group, b.incentive);
  }

  // The two shapes an item can have.
  ghost predicate IsSingle(rs: seq<Ranked>, x: Item, r: Ranked) {
    r in rs && r.candidate.group.None? && x == SingleItem(r)
  }

  ghost predicate IsBundle(rs: seq<Ranked>, offers: seq<Offer>, x: Item, k: Offer) {
    k in offers && x == BundleItem(k, Members(rs, k))
  }

  lemma {:induction false} SinglesDistinct(rs: seq<Ranked>)
    requires Distinct(CandidateIds(rs))
    ensures DistinctIds(Singles(rs))
    ensures forall x :: x in Singles(rs) ==> x.id in CandidateIds(rs)
  {
    if rs != [] {
      var before, r := rs[..|rs| - 1], rs[|rs| - 1];
      assert rs == before + [r];
      CandidateIdsOne(before, r);
      assert r.candidate.id !in CandidateIds(before);
      SinglesDistinct(before);
    }
  }

  lemma {:induction false} SinglesForm(rs: seq<Ranked>)
    ensures forall x :: x in Singles(rs) <==> exists r :: IsSingle(rs, x, r)
  {
    if rs != [] {
      var before, r := rs[..|rs| - 1], rs[|rs| - 1];
      assert rs == before + [r];
      SinglesForm(before);
      forall x ensures x in Singles(rs) <==> exists q :: IsSingle(rs, x, q) {
        if q :| IsSingle(before, x, q) { assert IsSingle(rs, x, q); }
        if q :| IsSingle(rs, x, q) { assert q == r || IsSingle(before, x, q); }
        assert r.candidate.group.None? ==> IsSingle(rs, SingleItem(r), r);
      }
    }
  }

  lemma {:induction false} BundlesForm(rs: seq<Ranked>, offers: seq<Offer>)
    ensures forall x :: x in BundleItems(rs, offers) <==> exists k :: IsBundle(rs, offers, x, k)
  {
    if offers != [] {
      var before, last := offers[..|offers| - 1], offers[|offers| - 1];
      assert offers == before + [last];
      BundlesForm(rs, before);
      forall x ensures x in BundleItems(rs, offers) <==> exists k :: IsBundle(rs, offers, x, k) {
        BundleStep(rs, before, last, x);
      }
    }
  }

  lemma BundleStep(rs: seq<Ranked>, before: seq<Offer>, last: Offer, x: Item)
    ensures (exists k :: IsBundle(rs, before + [last], x, k)) <==>
      (exists k :: IsBundle(rs, before, x, k)) || x == BundleItem(last, Members(rs, last))
  {
    if k :| IsBundle(rs, before, x, k) { assert IsBundle(rs, before + [last], x, k); }
    if k :| IsBundle(rs, before + [last], x, k) { assert k == last || IsBundle(rs, before, x, k); }
    if x == BundleItem(last, Members(rs, last)) { assert IsBundle(rs, before + [last], x, last); }
  }

  lemma {:induction false} BundlesDistinct(rs: seq<Ranked>, offers: seq<Offer>)
    requires Distinct(offers) && forall k :: k in offers ==> ':' !in k.group
    ensures DistinctIds(BundleItems(rs, offers))
  {
    if offers != [] {
      var before, last := offers[..|offers| - 1], offers[|offers| - 1];
      assert offers == before + [last];
      BundlesDistinct(rs, before);
      BundlesForm(rs, before);
      forall x | x in BundleItems(rs, before) ensures x.id != BundleId(last) {
        var k :| IsBundle(rs, before, x, k);
        if x.id == BundleId(last) { BundleIdInjective(k, last); }
      }
    }
  }

  lemma SortedOffers(rs: seq<Ranked>) returns (offers: seq<Offer>)
    ensures offers == SortBy(Offers(rs), ByOffer) && Distinct(offers)
    ensures forall k :: k in offers <==> k in Offers(rs)
  {
    offers := SortBy(Offers(rs), ByOffer);
    OffersListed(rs);
    SortByDistinct(Offers(rs), ByOffer);
    SortByMembers(Offers(rs), ByOffer);
  }

  /** Plain ids never clash, neither among the items nor with the derived bundle ids. */
  lemma ItemsDistinct(rs: seq<Ranked>)
    requires PlainIds(rs)
    ensures DistinctIds(ItemsOf(rs))
  {
    var offers := SortedOffers(rs);
    OffersNoColon(rs);
    SinglesBeforeBundles(rs, offers);
  }

  /** Every item is one single candidate or all members of one group offer, and all of those are items. */
  lemma ItemForm(rs: seq<Ranked>, x: Item)
    ensures x in ItemsOf(rs) <==> (exists r :: IsSingle(rs, x, r)) || (exists k :: IsBundle(rs, Offers(rs), x, k))
  {
    var offers := SortedOffers(rs);
    SinglesForm(rs);
    BundlesForm(rs, offers);
    assert x in ItemsOf(rs) <==> x in Singles(rs) || x in BundleItems(rs, offers);
    if k :| IsBundle(rs, offers, x, k) {
      assert IsBundle(rs, Offers(rs), x, k);
    }
    if k :| IsBundle(rs, Offers(rs), x, k) {
      assert IsBundle(rs, offers, x, k);
    }
  }

  lemma OffersNoColon(rs: seq<Ranked>)
    requires PlainIds(rs)
    ensures forall k :: k in Offers(rs) ==> ':' !in k.group
  {
    OffersListed(rs);
    forall k | k in Offers(rs) ensures ':' !in k.group {
      var r :| r in rs && InOffer(r, k);
    }
  }

  lemma SinglesBeforeBundles(rs: seq<Ranked>, offers: seq<Offer>)
    requires PlainIds(rs) && Distinct(offers) && forall k :: k in offers ==> ':' !in k.group
    ensures DistinctIds(Singles(rs) + BundleItems(rs, offers))
  {
    SinglesDistinct(rs);
    SinglesForm(rs);
    BundlesDistinct(rs, offers);
    BundlesForm(rs, offers);
    var a, b := Singles(rs), BundleItems(rs, offers);
    forall x, y | x in a && y in b ensures x.id != y.id {
      var r :| IsSingle(rs, x, r);
      var k :| IsBundle(rs, offers, y, k);
      assert "bundle:" <= BundleId(k);
    }
    forall i, j | 0 <= i < j < |a + b| ensures (a + b)[i].id != (a + b)[j].id {
      if i < |a| && j >= |a| {
        assert (a + b)[i] in a && (a + b)[j] in b;
      }
    }
  }
}
