/** Fitting lots to a holding and pricing them: `_reconcile_lots_to_target` and the profit loop
of `get_open_lots` (backend/routes/portfolio.py). */
module Reconcile {
  import opened Basics
  import opened LotEngine

  /** `_sort_dt`: a missing timestamp sorts as the epoch. */
  function SortKey(lot: Lot): int {
    if lot.createdAt.Some? then lot.createdAt.value else 0
  }

  /** Inserts an earlier element in front of the first one that is not newer. */
  function InsertNewestFirst(lot: Lot, sorted: seq<Lot>): seq<Lot> {
    if sorted == [] || SortKey(sorted[0]) <= SortKey(lot) then [lot] + sorted
    else [sorted[0]] + InsertNewestFirst(lot, sorted[1..])
  }

  /** The stable descending sort of `list.sort(key=..., reverse=True)`. */
  function NewestFirst(lots: seq<Lot>): seq<Lot> {
    if lots == [] then [] else InsertNewestFirst(lots[0], NewestFirst(lots[1..]))
  }

  /** Lots with the sign of the target, in list order. */
  function SameSign(lots: seq<Lot>, long: bool): seq<Lot> {
    if lots == [] then []
    else
      var keep := if long then lots[0].remaining > 0 else lots[0].remaining < 0;
      (if keep then [lots[0]] else []) + SameSign(lots[1..], long)
  }

  function Toward(target: int, n: int): int { if target > 0 then n else -n }

  /** Takes lots from the front until `need` shares are covered; also the shares still missing. */
  function Fit(lots: seq<Lot>, target: int, need: nat): (seq<Lot>, nat) {
    if lots == [] || need == 0 then ([], need)
    else
      var take := Min(Abs(lots[0].remaining), need);
      var rest := Fit(lots[1..], target, need - take);
      ([lots[0].(remaining := Toward(target, take))] + rest.0, rest.1)
  }

  datatype Holding = Holding(
    symbol: string, quantity: int, avgPrice: real, currentPrice: real, updatedAt: Option<int>)

  function Digits(n: nat): string {
    if n < 10 then [DIGITS[n]] else Digits(n / 10) + [DIGITS[n % 10]]
  }

  const DIGITS := "0123456789"

  function SyntheticLot(h: Holding, missing: nat): Lot {
    Lot("synthetic-" + h.symbol + "-" + (if h.quantity > 0 then "1" else "-1") + "-" + Digits(missing),
        h.avgPrice, Toward(h.quantity, missing), h.updatedAt, true)
  }

  function Candidates(lots: seq<Lot>, h: Holding): seq<Lot> {
    NewestFirst(SameSign(lots, h.quantity > 0))
  }

  function Reconciled(lots: seq<Lot>, h: Holding): seq<Lot> {
    if h.quantity == 0 then []
    else
      var (kept, missing) := Fit(Candidates(lots, h), h.quantity, Abs(h.quantity));
      if missing > 0 then kept + [SyntheticLot(h, missing)] else kept
  }

  /** One turn of the loop, seen from the list it works on. */
  lemma FitOneLot(kept: seq<Lot>, lots: seq<Lot>, target: int, need: nat)
    requires lots != [] && need > 0
    ensures var take := Min(Abs(lots[0].remaining), need);
            var rest := Fit(lots[1..], target, need - take);
            && kept + Fit(lots, target, need).0 == (kept + [lots[0].(remaining := Toward(target, take))]) + rest.0
            && Fit(lots, target, need).1 == rest.1
  {
  }

  /** The loop of `_reconcile_lots_to_target`. */
  method ReconcileLots(lots: seq<Lot>, h: Holding) returns (kept: seq<Lot>)
    ensures kept == Reconciled(lots, h)
  {
    if h.quantity == 0 {
      return [];
    }
    var sorted := Candidates(lots, h);
    var remaining := Abs(h.quantity);
    ghost var result := Fit(sorted, h.quantity, remaining);
    var i := 0;
    kept := [];
    assert sorted[0..] == sorted && [] + result.0 == result.0;
    while i < |sorted| && remaining > 0
      invariant 0 <= i <= |sorted|
      invariant result.0 == kept + Fit(sorted[i..], h.quantity, remaining).0
      invariant result.1 == Fit(sorted[i..], h.quantity, remaining).1
    {
      FitOneLot(kept, sorted[i..], h.quantity, remaining);
      assert sorted[i..][0] == sorted[i] && sorted[i..][1..] == sorted[i + 1..];
      var take := Min(Abs(sorted[i].remaining), remaining);
      kept := kept + [sorted[i].(remaining := Toward(h.quantity, take))];
      remaining := remaining - take;
      i := i + 1;
    }
    if remaining > 0 {
      kept := kept + [SyntheticLot(h, remaining)];
    }
  }

  // ---------------------------------------------------------------------------------------
  // The sort
  // ---------------------------------------------------------------------------------------

  ghost predicate AllSign(lots: seq<Lot>, target: int) {
    forall i :: 0 <= i < |lots| ==> if target > 0 then lots[i].remaining > 0 else lots[i].remaining < 0
  }

  ghost predicate Sorted(lots: seq<Lot>) {
    forall i, j :: 0 <= i < j < |lots| ==> NotOlder(lots[i], lots[j])
  }

  /** A lot without a time counts as one from the epoch. */
  predicate NotOlder(a: Lot, b: Lot) {
    match (a.createdAt, b.createdAt)
    case (Some(x), Some(y)) => x >= y
    case (Some(x), None) => x >= 0
    case (None, Some(y)) => 0 >= y
    case (None, None) => true
  }

  lemma {:induction false} InsertPermutes(lot: Lot, sorted: seq<Lot>)
    ensures multiset(InsertNewestFirst(lot, sorted)) == multiset([lot]) + multiset(sorted)
  {
    if sorted == [] || SortKey(sorted[0]) <= SortKey(lot) {
    } else {
      InsertPermutes(lot, sorted[1..]);
      assert sorted == [sorted[0]] + sorted[1..];
    }
  }

  ghost predicate AtMost(lots: seq<Lot>, key: int) {
    forall i :: 0 <= i < |lots| ==> SortKey(lots[i]) <= key
  }

  lemma {:induction false} InsertAtMost(lot: Lot, sorted: seq<Lot>, key: int)
    requires AtMost(sorted, key) && SortKey(lot) <= key
    ensures AtMost(InsertNewestFirst(lot, sorted), key)
  {
    if sorted != [] && SortKey(sorted[0]) > SortKey(lot) {
      InsertAtMost(lot, sorted[1..], key);
    }
  }

  lemma {:induction false} InsertSorts(lot: Lot, sorted: seq<Lot>)
    requires Sorted(sorted)
    ensures Sorted(InsertNewestFirst(lot, sorted))
  {
    if sorted != [] && SortKey(sorted[0]) > SortKey(lot) {
      InsertSorts(lot, sorted[1..]);
      InsertAtMost(lot, sorted[1..], SortKey(sorted[0]));
    }
  }

  lemma {:induction false} NewestFirstSorts(lots: seq<Lot>)
    ensures Sorted(NewestFirst(lots))
    ensures multiset(NewestFirst(lots)) == multiset(lots)
  {
    if lots != [] {
      NewestFirstSorts(lots[1..]);
      InsertSorts(lots[0], NewestFirst(lots[1..]));
      InsertPermutes(lots[0], NewestFirst(lots[1..]));
      assert lots == [lots[0]] + lots[1..];
    }
  }

  function WithSortKey(lots: seq<Lot>, key: int): seq<Lot> {
    if lots == [] then []
    else (if SortKey(lots[0]) == key then [lots[0]] else []) + WithSortKey(lots[1..], key)
  }

  lemma {:induction false} InsertIsStable(lot: Lot, sorted: seq<Lot>, key: int)
    requires Sorted(sorted)
    ensures WithSortKey(InsertNewestFirst(lot, sorted), key) ==
            (if SortKey(lot) == key then [lot] else []) + WithSortKey(sorted, key)
  {
    if sorted == [] || SortKey(sorted[0]) <= SortKey(lot) {
      assert ([lot] + sorted)[1..] == sorted;
    } else {
      var head, tail := sorted[0], sorted[1..];
      InsertIsStable(lot, tail, key);
      var rest := InsertNewestFirst(lot, tail);
      assert ([head] + rest)[1..] == rest;
      if SortKey(head) == key {
        assert SortKey(lot) != key;
        assert [] + WithSortKey(tail, key) == WithSortKey(tail, key);
        assert [] + WithSortKey(sorted, key) == WithSortKey(sorted, key);
      }
    }
  }

  /** Lots with equal timestamps keep their list order, as Python's reversed sort promises. */
  lemma {:induction false} NewestFirstIsStable(lots: seq<Lot>, key: int)
    ensures WithSortKey(NewestFirst(lots), key) == WithSortKey(lots, key)
  {
    if lots != [] {
      NewestFirstIsStable(lots[1..], key);
      NewestFirstSorts(lots[1..]);
      InsertIsStable(lots[0], NewestFirst(lots[1..]), key);
    }
  }

  lemma {:induction false} SameSignIsFilter(lots: seq<Lot>, long: bool)
    ensures forall lot :: lot in SameSign(lots, long) <==>
                          lot in lots && (if long then lot.remaining > 0 else lot.remaining < 0)
  {
    if lots != [] {
      SameSignIsFilter(lots[1..], long);
    }
  }

  /** The candidates are the lots of the holding's own sign, newest first. */
  lemma CandidatesAre(lots: seq<Lot>, h: Holding)
    requires h.quantity != 0
    ensures Sorted(Candidates(lots, h)) && AllSign(Candidates(lots, h), h.quantity)
    ensures forall lot :: lot in Candidates(lots, h) <==>
                          lot in lots && (if h.quantity > 0 then lot.remaining > 0 else lot.remaining < 0)
  {
    var long := h.quantity > 0;
    SameSignIsFilter(lots, long);
    NewestFirstSorts(SameSign(lots, long));
    forall lot ensures lot in Candidates(lots, h) <==> lot in SameSign(lots, long) {
      assert lot in Candidates(lots, h) <==> lot in multiset(Candidates(lots, h));
      assert lot in SameSign(lots, long) <==> lot in multiset(SameSign(lots, long));
    }
    var cs := Candidates(lots, h);
    assert forall i :: 0 <= i < |cs| ==> cs[i] in cs;
  }

  // ---------------------------------------------------------------------------------------
  // Fitting
  // ---------------------------------------------------------------------------------------

  /** Fitting covers exactly what it does not report missing. */
  lemma {:induction false} FitSums(lots: seq<Lot>, target: int, need: nat)
    requires target != 0 && AllSign(lots, target)
    ensures var (kept, missing) := Fit(lots, target, need);
            Net(kept) == Toward(target, need) - Toward(target, missing) && AllSign(kept, target)
  {
    if lots != [] && need != 0 {
      var take := Min(Abs(lots[0].remaining), need);
      FitSums(lots[1..], target, need - take);
      var rest := Fit(lots[1..], target, need - take);
      var kept := [lots[0].(remaining := Toward(target, take))] + rest.0;
      assert kept[1..] == rest.0;
    }
  }

  /** `kept` is whole lots from the front, at most the last one cut down. */
  ghost predicate KeepsFront(kept: seq<Lot>, lots: seq<Lot>) {
    && |kept| <= |lots|
    && (forall i :: 0 <= i < |kept| ==> kept[i] == lots[i].(remaining := kept[i].remaining))
    && (forall i :: 0 <= i < |kept| - 1 ==> kept[i] == lots[i])
  }

  lemma KeepsFrontCons(lot: Lot, kept: seq<Lot>, lots: seq<Lot>)
    requires KeepsFront(kept, lots)
    ensures KeepsFront([lot] + kept, [lot] + lots)
  {
  }

  /** Fitting keeps lots from the front and stops early only when nothing is missing. */
  lemma {:induction false} FitKeepsFront(lots: seq<Lot>, target: int, need: nat)
    requires target != 0 && AllSign(lots, target)
    ensures var (kept, missing) := Fit(lots, target, need);
            KeepsFront(kept, lots) && (missing > 0 ==> kept == lots)
  {
    if lots != [] && need != 0 {
      var head, tail := lots[0], lots[1..];
      var take := Min(Abs(head.remaining), need);
      FitKeepsFront(tail, target, need - take);
      var rest := Fit(tail, target, need - take);
      assert lots == [head] + tail;
      if take == Abs(head.remaining) {
        assert head.(remaining := Toward(target, take)) == head;
        KeepsFrontCons(head, rest.0, tail);
      } else {
        assert rest.0 == [];
      }
    }
  }

  lemma KeptAreReal(lots: seq<Lot>, h: Holding)
    requires h.quantity != 0 && forall i :: 0 <= i < |lots| ==> !lots[i].synthetic
    ensures var kept := Fit(Candidates(lots, h), h.quantity, Abs(h.quantity)).0;
            forall i :: 0 <= i < |kept| ==> !kept[i].synthetic
  {
    var cs := Candidates(lots, h);
    CandidatesAre(lots, h);
    FitKeepsFront(cs, h.quantity, Abs(h.quantity));
    var kept := Fit(cs, h.quantity, Abs(h.quantity)).0;
    forall i | 0 <= i < |kept| ensures !kept[i].synthetic {
      assert cs[i] in cs;
    }
  }

  /** MAIN: for any lots and any holding, the reconciled lots sum exactly to the holding, all
      carry its sign, and only the last can be synthetic. */
  lemma ReconciledSumsToHolding(lots: seq<Lot>, h: Holding)
    requires forall i :: 0 <= i < |lots| ==> !lots[i].synthetic
    ensures var r := Reconciled(lots, h);
            && Net(r) == h.quantity
            && AllSign(r, h.quantity)
            && (forall i :: 0 <= i < |r| - 1 ==> !r[i].synthetic)
  {
    if h.quantity != 0 {
      var cs := Candidates(lots, h);
      CandidatesAre(lots, h);
      FitSums(cs, h.quantity, Abs(h.quantity));
      FitKeepsFront(cs, h.quantity, Abs(h.quantity));
      var (kept, missing) := Fit(cs, h.quantity, Abs(h.quantity));
      KeptAreReal(lots, h);
      if missing > 0 {
        var extra := SyntheticLot(h, missing);
        NetAppend(kept, extra);
      }
    }
  }

  /** MAIN: a newer lot is never dropped or cut while an older one is kept, even in part; and a
      synthetic lot appears only when every lot of the holding's sign is kept whole. */
  lemma ReconciledPrefersNewer(lots: seq<Lot>, h: Holding, lot: Lot, i: nat)
    requires forall i :: 0 <= i < |lots| ==> !lots[i].synthetic
    requires lot in lots && (if h.quantity > 0 then lot.remaining > 0 else lot.remaining < 0)
    requires h.quantity != 0 && i < |Reconciled(lots, h)|
    requires Reconciled(lots, h)[i].synthetic || !NotOlder(Reconciled(lots, h)[i], lot)
    ensures lot in Reconciled(lots, h)
  {
    var cs := Candidates(lots, h);
    CandidatesAre(lots, h);
    FitKeepsFront(cs, h.quantity, Abs(h.quantity));
    var (kept, missing) := Fit(cs, h.quantity, Abs(h.quantity));
    assert lot in cs;
    var j :| 0 <= j < |cs| && cs[j] == lot;
    if missing > 0 {
      assert Reconciled(lots, h)[j] == lot;
    } else {
      KeptAreReal(lots, h);
      NewerIsKept(kept, cs, i, j);
    }
  }

  lemma NewerIsKept(kept: seq<Lot>, sorted: seq<Lot>, i: nat, j: nat)
    requires KeepsFront(kept, sorted) && Sorted(sorted) && i < |kept| && j < |sorted|
    requires !NotOlder(kept[i], sorted[j])
    ensures sorted[j] in kept
  {
    assert kept[i] == sorted[i].(remaining := kept[i].remaining);
    NewerComesFirst(sorted, j, i);
    assert kept[j] == sorted[j];
  }

  /** The synthetic lot stands for what the lots of the holding's sign do not cover, at the average price
      and update time of the holding. */
  lemma SyntheticCoversTheRest(lots: seq<Lot>, h: Holding)
    requires h.quantity != 0 && forall i :: 0 <= i < |lots| ==> !lots[i].synthetic
    ensures var r := Reconciled(lots, h);
            r != [] && r[|r| - 1].synthetic ==>
              && r[|r| - 1].remaining == h.quantity - Net(SameSign(lots, h.quantity > 0))
              && IsSyntheticFor(r[|r| - 1], h)
  {
    var cs, r := Candidates(lots, h), Reconciled(lots, h);
    CandidatesAre(lots, h);
    FitSums(cs, h.quantity, Abs(h.quantity));
    FitKeepsFront(cs, h.quantity, Abs(h.quantity));
    NetOfNewestFirst(SameSign(lots, h.quantity > 0));
    var (kept, missing) := Fit(cs, h.quantity, Abs(h.quantity));
    KeptAreReal(lots, h);
    if missing > 0 {
      SyntheticIs(h, missing);
    }
  }

  ghost predicate IsSyntheticFor(lot: Lot, h: Holding) {
    && lot.entry == h.avgPrice && lot.createdAt == h.updatedAt
    && (exists sign :: sign in {"1", "-1"} && (sign == "1" <==> h.quantity > 0)
                       && lot.id == "synthetic-" + h.symbol + "-" + sign + "-" + Digits(Abs(lot.remaining)))
  }

  lemma SyntheticIs(h: Holding, missing: nat)
    requires h.quantity != 0
    ensures IsSyntheticFor(SyntheticLot(h, missing), h)
  {
    var sign := if h.quantity > 0 then "1" else "-1";
    assert SyntheticLot(h, missing).id == "synthetic-" + h.symbol + "-" + sign + "-" + Digits(missing);
  }

  /** The value that a string of decimal digits stands for. */
  function DecimalValue(s: string): int {
    if s == [] then 0 else 10 * DecimalValue(s[..|s| - 1]) + (s[|s| - 1] as int - '0' as int)
  }

  lemma {:induction false} DigitsRoundTrip(n: nat)
    ensures DecimalValue(Digits(n)) == n
  {
    assert forall d: nat :: d < 10 ==> DIGITS[d] as int == '0' as int + d;
    if n >= 10 {
      DigitsRoundTrip(n / 10);
    } else {
      assert Digits(n)[..0] == [];
    }
  }

  lemma NewerComesFirst(sorted: seq<Lot>, j: nat, i: nat)
    requires Sorted(sorted) && j < |sorted| && i < |sorted| && !NotOlder(sorted[i], sorted[j])
    ensures j < i
  {
  }

  /** Fitting exactly what is there keeps everything. */
  lemma {:induction false} FitExact(lots: seq<Lot>, target: int)
    requires target != 0 && AllSign(lots, target)
    ensures Fit(lots, target, Abs(Net(lots))) == (lots, 0)
    ensures if target > 0 then Net(lots) >= 0 else Net(lots) <= 0
  {
    if lots != [] {
      FitExact(lots[1..], target);
      assert lots == [lots[0]] + lots[1..];
    }
  }

  lemma {:induction false} NetOfSameSign(lots: seq<Lot>, long: bool)
    requires OneSided(lots, long)
    ensures Net(SameSign(lots, long)) == Net(lots)
    ensures SameSign(lots, !long) == []
    ensures Net(lots) != 0 ==> (Net(lots) > 0) == long
  {
    if lots != [] {
      NetOfSameSign(lots[1..], long);
      assert SameSign(lots, long) == SameSign(lots[1..], long) ||
             SameSign(lots, long)[1..] == SameSign(lots[1..], long);
    }
  }

  lemma {:induction false} NetOfInsert(lot: Lot, lots: seq<Lot>)
    ensures Net(InsertNewestFirst(lot, lots)) == lot.remaining + Net(lots)
  {
    if lots == [] || SortKey(lots[0]) <= SortKey(lot) {
      assert ([lot] + lots)[1..] == lots;
    } else {
      NetOfInsert(lot, lots[1..]);
    }
  }

  lemma {:induction false} NetOfNewestFirst(lots: seq<Lot>)
    ensures Net(NewestFirst(lots)) == Net(lots)
  {
    if lots != [] {
      NetOfNewestFirst(lots[1..]);
      NetOfInsert(lots[0], NewestFirst(lots[1..]));
    }
  }

  /** The open lots, in list order. */
  function OpenLots(lots: seq<Lot>): seq<Lot> {
    if lots == [] then []
    else (if lots[0].remaining != 0 then [lots[0]] else []) + OpenLots(lots[1..])
  }

  lemma {:induction false} OpenLotsSameSign(lots: seq<Lot>, long: bool)
    requires OneSided(lots, long)
    ensures SameSign(lots, long) == OpenLots(lots)
  {
    if lots != [] {
      OpenLotsSameSign(lots[1..], long);
    }
  }

  /** MAIN: when the transactions net to the holding, the result is exactly the open FIFO lots,
      newest first, nothing cut and nothing synthetic. */
  lemma MatchingHoldingKeepsFifoLots(txs: seq<Transaction>, h: Holding)
    requires h.quantity == SignedSum(txs) != 0
    ensures var r := Reconciled(Lots(txs), h);
            && r == NewestFirst(OpenLots(Lots(txs)))
            && multiset(r) == multiset(OpenLots(Lots(txs)))
            && Sorted(r)
  {
    var lots, long := Lots(txs), h.quantity > 0;
    LotsRefineShareQueue(txs);
    LotsConserveQuantity(txs);
    var side := OneSided(lots, true);
    NetOfSameSign(lots, side);
    assert side == long;
    OpenLotsSameSign(lots, long);
    var cs := Candidates(lots, h);
    NetOfNewestFirst(SameSign(lots, long));
    NewestFirstSorts(SameSign(lots, long));
    CandidatesAre(lots, h);
    FitExact(cs, h.quantity);
  }

  // ---------------------------------------------------------------------------------------
  // Profit and loss
  // ---------------------------------------------------------------------------------------

  /** `x or default` on a price: zero falls back. */
  function PriceOr(x: real, default: real): real { if x == 0.0 then default else x }

  function EntryPrice(lot: Lot, h: Holding): real { PriceOr(lot.entry, h.avgPrice) }

  function CurrentPrice(h: Holding): real { PriceOr(h.currentPrice, h.avgPrice) }

  function Times(price: real, quantity: int): real { price * quantity as real }

  lemma TimesAdds(price: real, a: int, b: int)
    ensures Times(price, a + b) == Times(price, a) + Times(price, b)
    ensures Times(price, -a) == -Times(price, a)
    ensures Times(-price, a) == -Times(price, a)
  {
  }

  /** What the shares in the lots cost; a short lot brought money in. */
  function SignedCost(lots: seq<Lot>, h: Holding): real {
    if lots == [] then 0.0
    else Times(EntryPrice(lots[0], h), lots[0].remaining) + SignedCost(lots[1..], h)
  }

  function SumOf(xs: seq<real>): real {
    if xs == [] then 0.0 else SumOf(xs[..|xs| - 1]) + xs[|xs| - 1]
  }

  lemma {:induction false} SignedCostAppend(lots: seq<Lot>, lot: Lot, h: Holding)
    ensures SignedCost(lots + [lot], h) == SignedCost(lots, h) + Times(EntryPrice(lot, h), lot.remaining)
  {
    if lots == [] {
      assert [] + [lot] == [lot];
    } else {
      SignedCostAppend(lots[1..], lot, h);
      assert (lots + [lot])[1..] == lots[1..] + [lot];
    }
  }

  /** The profit of one lot, by its signed quantity: (current - entry) * remaining, where a price of zero
      stands for the average price of the holding. */
  ghost predicate IsProfit(profit: real, lot: Lot, h: Holding) {
    var current := if h.currentPrice != 0.0 then h.currentPrice else h.avgPrice;
    var entry := if lot.entry != 0.0 then lot.entry else h.avgPrice;
    profit == (current - entry) * lot.remaining as real
  }

  /** MAIN: the profit loop.  Whatever the lots, the i-th profit is that of the i-th open lot, and together
      they are the value of the signed quantity at the current price minus its signed cost. */
  method ProfitPerLot(lots: seq<Lot>, h: Holding) returns (profits: seq<real>)
    ensures Profits(profits, lots, h)
    ensures SumOf(profits) == Times(CurrentPrice(h), Net(lots)) - SignedCost(lots, h)
  {
    profits := [];
    for n := 0 to |lots|
      invariant Profits(profits, lots[..n], h)
    {
      var lot := lots[n];
      assert lots[..n + 1] == lots[..n] + [lot];
      OpenLotsAppend(lots[..n], lot);
      var quantity := Abs(lot.remaining);
      var entry, current := EntryPrice(lot, h), CurrentPrice(h);
      if quantity > 0 {
        var profit := if lot.remaining > 0 then Times(current - entry, quantity) else Times(entry - current, quantity);
        ProfitOf(current, entry, lot.remaining);
        profits := profits + [profit];
      }
    }
    assert lots[..|lots|] == lots;
    ProfitsSum(profits, lots, h);
  }

  ghost predicate Profits(profits: seq<real>, lots: seq<Lot>, h: Holding) {
    && |profits| == |OpenLots(lots)|
    && forall i :: 0 <= i < |profits| ==> IsProfit(profits[i], OpenLots(lots)[i], h)
  }

  lemma {:induction false} ProfitsSum(profits: seq<real>, lots: seq<Lot>, h: Holding)
    requires Profits(profits, lots, h)
    ensures SumOf(profits) == Times(CurrentPrice(h), Net(lots)) - SignedCost(lots, h)
  {
    if lots != [] {
      var before, lot := lots[..|lots| - 1], lots[|lots| - 1];
      assert before + [lot] == lots;
      OpenLotsAppend(before, lot);
      NetAppend(before, lot);
      SignedCostAppend(before, lot, h);
      TimesAdds(CurrentPrice(h), Net(before), lot.remaining);
      if lot.remaining != 0 {
        ProfitsFront(profits, before, lot, h);
        ProfitsSum(profits[..|profits| - 1], before, h);
        ProfitIs(profits[|profits| - 1], lot, h);
      } else {
        assert OpenLots(before) + [] == OpenLots(before);
        NothingTimes(CurrentPrice(h), EntryPrice(lot, h));
        ProfitsSum(profits, before, h);
      }
    }
  }

  lemma NothingTimes(a: real, b: real)
    ensures Times(a, 0) == 0.0 == Times(b, 0)
  {
  }

  lemma ProfitsFront(profits: seq<real>, before: seq<Lot>, lot: Lot, h: Holding)
    requires lot.remaining != 0 && Profits(profits, before + [lot], h)
    ensures profits != [] && Profits(profits[..|profits| - 1], before, h)
    ensures IsProfit(profits[|profits| - 1], lot, h)
  {
    OpenLotsAppend(before, lot);
    var open := OpenLots(before + [lot]);
    assert open[|open| - 1] == lot && open[..|open| - 1] == OpenLots(before);
    forall i | 0 <= i < |profits| - 1 ensures IsProfit(profits[i], OpenLots(before)[i], h) {
      assert IsProfit(profits[i], open[i], h);
    }
  }

  lemma ProfitIs(profit: real, lot: Lot, h: Holding)
    requires IsProfit(profit, lot, h)
    ensures profit == Times(CurrentPrice(h), lot.remaining) - Times(EntryPrice(lot, h), lot.remaining)
  {
  }

  /** Both branches of the profit expression are the price move times the signed quantity. */
  lemma ProfitOf(current: real, entry: real, remaining: int)
    ensures (if remaining > 0 then Times(current - entry, Abs(remaining)) else Times(entry - current, Abs(remaining)))
            == Times(current, remaining) - Times(entry, remaining) == (current - entry) * remaining as real
  {
  }

  /** The reconciled lots are all open, so each of them gets its own profit. */
  lemma ReconciledAreOpen(lots: seq<Lot>, h: Holding)
    requires forall i :: 0 <= i < |lots| ==> !lots[i].synthetic
    ensures OpenLots(Reconciled(lots, h)) == Reconciled(lots, h)
  {
    ReconciledSumsToHolding(lots, h);
    AllOpenLots(Reconciled(lots, h));
  }

  lemma {:induction false} AllOpenLots(lots: seq<Lot>)
    ensures (forall i :: 0 <= i < |lots| ==> lots[i].remaining != 0) ==> OpenLots(lots) == lots
    ensures forall lot :: lot in OpenLots(lots) <==> lot in lots && lot.remaining != 0
  {
    if lots != [] {
      AllOpenLots(lots[1..]);
      assert [lots[0]] + lots[1..] == lots;
    }
  }

  lemma {:induction false} OpenLotsAppend(lots: seq<Lot>, lot: Lot)
    ensures OpenLots(lots + [lot]) == OpenLots(lots) + (if lot.remaining != 0 then [lot] else [])
  {
    if lots == [] {
      assert [] + [lot] == [lot];
    } else {
      OpenLotsAppend(lots[1..], lot);
      assert (lots + [lot])[1..] == lots[1..] + [lot];
    }
  }

  /** Cost of a queue of single shares. */
  function QueueCost(queue: seq<Share>): real {
    if queue == [] then 0.0
    else (if queue[0].long then queue[0].entry else -queue[0].entry) + QueueCost(queue[1..])
  }

  lemma {:induction false} QueueCostAppend(a: seq<Share>, b: seq<Share>)
    ensures QueueCost(a + b) == QueueCost(a) + QueueCost(b)
  {
    if a == [] {
      assert a + b == b;
    } else {
      QueueCostAppend(a[1..], b);
      assert (a + b)[1..] == a[1..] + b;
    }
  }

  lemma {:induction false} QueueCostOfCopies(share: Share, n: nat)
    ensures QueueCost(Copies(share, n)) == Times(if share.long then share.entry else -share.entry, n)
  {
    if n > 0 {
      QueueCostOfCopies(share, n - 1);
      TimesAdds(if share.long then share.entry else -share.entry, n - 1, 1);
      assert Copies(share, n)[1..] == Copies(share, n - 1);
    }
  }

  ghost predicate Priced(lots: seq<Lot>) {
    forall i :: 0 <= i < |lots| ==> lots[i].entry > 0.0
  }

  lemma CostOfOneLot(lot: Lot)
    ensures QueueCost(Block(lot)) == Times(lot.entry, lot.remaining)
  {
    QueueCostOfCopies(Share(lot.id, lot.entry, lot.createdAt, lot.remaining > 0), Abs(lot.remaining));
    TimesAdds(lot.entry, lot.remaining, 0);
    TimesAdds(lot.entry, -lot.remaining, 0);
  }

  /** The cost of priced lots is the cost of the shares they stand for. */
  lemma {:induction false} CostOfShares(lots: seq<Lot>, h: Holding)
    requires Priced(lots)
    ensures SignedCost(lots, h) == QueueCost(Shares(lots))
  {
    if lots != [] {
      var lot := lots[0];
      assert EntryPrice(lot, h) == lot.entry;
      CostOfShares(lots[1..], h);
      CostOfOneLot(lot);
      QueueCostAppend(Block(lot), Shares(lots[1..]));
    }
  }

  lemma {:induction false} CostOfInsert(lot: Lot, lots: seq<Lot>, h: Holding)
    ensures SignedCost(InsertNewestFirst(lot, lots), h) ==
            Times(EntryPrice(lot, h), lot.remaining) + SignedCost(lots, h)
  {
    if lots == [] || SortKey(lots[0]) <= SortKey(lot) {
      assert ([lot] + lots)[1..] == lots;
    } else {
      CostOfInsert(lot, lots[1..], h);
    }
  }

  lemma {:induction false} CostOfNewestFirst(lots: seq<Lot>, h: Holding)
    ensures SignedCost(NewestFirst(lots), h) == SignedCost(lots, h)
  {
    if lots != [] {
      CostOfNewestFirst(lots[1..], h);
      CostOfInsert(lots[0], NewestFirst(lots[1..]), h);
    }
  }

  lemma {:induction false} CostOfOpenLots(lots: seq<Lot>, h: Holding)
    ensures SignedCost(OpenLots(lots), h) == SignedCost(lots, h)
  {
    if lots != [] {
      CostOfOpenLots(lots[1..], h);
      if lots[0].remaining != 0 {
        assert OpenLots(lots)[1..] == OpenLots(lots[1..]);
      } else {
        assert OpenLots(lots) == OpenLots(lots[1..]);
      }
    }
  }

  lemma {:induction false} OffsetKeepsPrices(lots: seq<Lot>, side: Side, n: nat)
    requires Priced(lots)
    ensures Priced(Offset(lots, side, n).0)
  {
    if lots != [] && n != 0 {
      var used := if Opposes(lots[0], side) then Min(n, Abs(lots[0].remaining)) else 0;
      OffsetKeepsPrices(lots[1..], side, n - used);
    }
  }

  lemma {:induction false} LotsArePriced(txs: seq<Transaction>)
    ensures Priced(Lots(txs))
  {
    if txs != [] {
      LotsArePriced(txs[..|txs| - 1]);
      var t := txs[|txs| - 1];
      if Valid(t) {
        OffsetKeepsPrices(Lots(txs[..|txs| - 1]), t.side, t.quantity);
      }
    }
  }

  /** MAIN: end to end.  When the transactions net to the holding, the cost behind the reported
      profit is the cost of the shares left in the FIFO queue, whatever the holding says. */
  lemma MatchingHoldingCostsFifoShares(txs: seq<Transaction>, h: Holding)
    requires h.quantity == SignedSum(txs) != 0
    ensures SignedCost(Reconciled(Lots(txs), h), h) == QueueCost(Queue(txs))
  {
    MatchingHoldingKeepsFifoLots(txs, h);
    CostOfNewestFirst(OpenLots(Lots(txs)), h);
    CostOfOpenLots(Lots(txs), h);
    LotsArePriced(txs);
    CostOfShares(Lots(txs), h);
    LotsRefineShareQueue(txs);
  }
}
