/** The FIFO lot loop of `get_open_lots` (backend/routes/portfolio.py).

Transactions are netted into lots in place: a BUY first covers the earlier short lots and
opens a long lot with what is left, a SELL does the mirror image.  The reference is a plain
queue of single signed shares; the loop is proved to refine it for every transaction list.
*/
module LotEngine {

  import opened Basics

  /** `transaction_type` after upper-casing and stripping; anything but BUY and SELL is ignored. */
  datatype Side = Buy | Sell | Unrecognised

  datatype Transaction = Transaction(
    id: string, side: Side, quantity: int, price: real, createdAt: Option<int>)

  /** A lot; `remaining` is signed, negative for a short lot. */
  datatype Lot = Lot(
    id: string, entry: real, remaining: int, createdAt: Option<int>, synthetic: bool)

  function Abs(x: int): nat { if x < 0 then -x else x }

  function Min(x: nat, y: nat): nat { if x < y then x else y }

  predicate Valid(t: Transaction) {
    !t.side.Unrecognised? && t.quantity > 0 && t.price > 0.0
  }

  /** `n` shares traded on `side`, as a signed quantity. */
  function Signed(side: Side, n: int): int {
    if side.Buy? then n else -n
  }

  /** Does a trade on `side` close this lot? */
  predicate Opposes(lot: Lot, side: Side) {
    if side.Buy? then lot.remaining < 0 else lot.remaining > 0
  }

  // ---------------------------------------------------------------------------------------
  // What one transaction does to the lots
  // ---------------------------------------------------------------------------------------

  /** Offsets `n` shares traded on `side` against the lots, oldest first; returns the lots and
      the shares left over. */
  function Offset(lots: seq<Lot>, side: Side, n: nat): (seq<Lot>, nat) {
    if lots == [] || n == 0 then (lots, n)
    else if !Opposes(lots[0], side) then
      var rest := Offset(lots[1..], side, n);
      ([lots[0]] + rest.0, rest.1)
    else
      var used := Min(n, Abs(lots[0].remaining));
      var rest := Offset(lots[1..], side, n - used);
      ([lots[0].(remaining := lots[0].remaining + Signed(side, used))] + rest.0, rest.1)
  }

  function OpenLot(t: Transaction, n: nat): Lot {
    Lot(t.id, t.price, Signed(t.side, n), t.createdAt, false)
  }

  function Apply(lots: seq<Lot>, t: Transaction): seq<Lot> {
    if !Valid(t) then lots
    else
      var (offset, left) := Offset(lots, t.side, t.quantity);
      if left > 0 then offset + [OpenLot(t, left)] else offset
  }

  /** The lots after all of `txs`, oldest transaction first. */
  function Lots(txs: seq<Transaction>): seq<Lot> {
    if txs == [] then [] else Apply(Lots(txs[..|txs| - 1]), txs[|txs| - 1])
  }

  /** One turn of the loop, seen from the list it works on. */
  lemma OffsetOneLot(done: seq<Lot>, lots: seq<Lot>, side: Side, n: nat, head: Lot, left: nat)
    requires lots != [] && n > 0
    requires var used := if Opposes(lots[0], side) then Min(n, Abs(lots[0].remaining)) else 0;
             left == n - used && head == lots[0].(remaining := lots[0].remaining + Signed(side, used))
    ensures done + Offset(lots, side, n).0 == (done + [head]) + Offset(lots[1..], side, left).0
    ensures Offset(lots, side, n).1 == Offset(lots[1..], side, left).1
  {
    assert Offset(lots, side, n).0 == [head] + Offset(lots[1..], side, left).0;
  }

  /** The loop over `lots` that updates each `remaining_qty` in place. */
  method OffsetInPlace(lots: seq<Lot>, side: Side, quantity: nat)
    returns (out: seq<Lot>, remaining: nat)
    ensures (out, remaining) == Offset(lots, side, quantity)
  {
    out, remaining := lots, quantity;
    var i := 0;
    ghost var result := Offset(lots, side, quantity);
    assert lots[0..] == lots && out[..0] + result.0 == result.0;
    while i < |out| && remaining > 0
      invariant 0 <= i <= |out| == |lots|
      invariant out[i..] == lots[i..]
      invariant result.0 == out[..i] + Offset(lots[i..], side, remaining).0
      invariant result.1 == Offset(lots[i..], side, remaining).1
    {
      ghost var done, tail, n := out[..i], lots[i..], remaining;
      assert tail[0] == out[i] && tail[1..] == lots[i + 1..];
      if Opposes(out[i], side) {
        var used := Min(remaining, Abs(out[i].remaining));
        out := out[i := out[i].(remaining := out[i].remaining + Signed(side, used))];
        remaining := remaining - used;
      }
      OffsetOneLot(done, tail, side, n, out[i], remaining);
      assert out[..i + 1] == done + [out[i]];
      i := i + 1;
    }
    assert out == out[..i] + lots[i..];
  }

  /** One row of the transaction loop, for the lots of its own (symbol, product type). */
  method ApplyInPlace(lots: seq<Lot>, t: Transaction) returns (out: seq<Lot>)
    ensures out == Apply(lots, t)
  {
    if t.side.Unrecognised? || t.quantity <= 0 || t.price <= 0.0 {
      return lots;
    }
    var left;
    out, left := OffsetInPlace(lots, t.side, t.quantity);
    if left > 0 {
      out := out + [OpenLot(t, left)];
    }
  }

  // ---------------------------------------------------------------------------------------
  // The loop over all rows, which groups the lots by (symbol, product type)
  // ---------------------------------------------------------------------------------------

  datatype Key = Key(symbol: string, productType: string)

  datatype Row = Row(key: Key, tx: Transaction)

  /** The transactions of one key, in row order. */
  function ForKey(rows: seq<Row>, key: Key): seq<Transaction> {
    if rows == [] then []
    else
      var last := rows[|rows| - 1];
      ForKey(rows[..|rows| - 1], key) + (if last.key == key then [last.tx] else [])
  }

  function LotsOf(book: map<Key, seq<Lot>>, key: Key): seq<Lot> {
    if key in book then book[key] else []
  }

  /** Interleaved keys never disturb each other: each key ends with the lots of its own rows. */
  method NetTransactions(rows: seq<Row>) returns (book: map<Key, seq<Lot>>)
    ensures forall key :: LotsOf(book, key) == Lots(ForKey(rows, key))
    ensures forall key :: key in book <==> exists i :: 0 <= i < |rows| && rows[i].key == key
  {
    book := map[];
    for n := 0 to |rows|
      invariant forall key :: LotsOf(book, key) == Lots(ForKey(rows[..n], key))
      invariant forall key :: key in book <==> exists i :: 0 <= i < n && rows[i].key == key
    {
      var row := rows[n];
      ghost var before := book;
      if row.key !in book {
        book := book[row.key := []];
      }
      var out := ApplyInPlace(book[row.key], row.tx);
      book := book[row.key := out];
      BookNext(before, book, rows, n);
      assert rows[n].key == row.key;
    }
    assert rows[..|rows|] == rows;
  }

  /** Booking one row brings every key up to date. */
  lemma BookNext(before: map<Key, seq<Lot>>, book: map<Key, seq<Lot>>, rows: seq<Row>, n: nat)
    requires n < |rows| && forall key :: LotsOf(before, key) == Lots(ForKey(rows[..n], key))
    requires book == before[rows[n].key := Apply(LotsOf(before, rows[n].key), rows[n].tx)]
    ensures forall key :: LotsOf(book, key) == Lots(ForKey(rows[..n + 1], key))
  {
    forall key ensures LotsOf(book, key) == Lots(ForKey(rows[..n + 1], key)) {
      LotsOfNextRow(rows, n, key);
      assert LotsOf(before, key) == Lots(ForKey(rows[..n], key));
    }
  }

  lemma LotsOfNextRow(rows: seq<Row>, n: nat, key: Key)
    requires n < |rows|
    ensures Lots(ForKey(rows[..n + 1], key)) ==
            if key == rows[n].key then Apply(Lots(ForKey(rows[..n], key)), rows[n].tx)
            else Lots(ForKey(rows[..n], key))
  {
    assert rows[..n + 1][..n] == rows[..n];
    var before := ForKey(rows[..n], key);
    assert (before + [rows[n].tx])[..|before|] == before;
    assert before + [] == before;
  }

  // ---------------------------------------------------------------------------------------
  // Reference: a queue of single signed shares
  // ---------------------------------------------------------------------------------------

  datatype Share = Share(id: string, entry: real, createdAt: Option<int>, long: bool)

  /** Trading one share closes the oldest share of the other direction, or joins the queue. */
  function TradeShare(queue: seq<Share>, share: Share): seq<Share> {
    if queue != [] && queue[0].long != share.long then queue[1..] else queue + [share]
  }

  function TradeShares(queue: seq<Share>, share: Share, n: nat): seq<Share>
    decreases n
  {
    if n == 0 then queue else TradeShares(TradeShare(queue, share), share, n - 1)
  }

  function TradedShare(t: Transaction): Share {
    Share(t.id, t.price, t.createdAt, t.side.Buy?)
  }

  /** A BUY or a SELL of at least one share at a positive price trades its shares one by one; any other row
      is skipped. */
  function Queue(txs: seq<Transaction>): seq<Share> {
    if txs == [] then []
    else
      var before, t := Queue(txs[..|txs| - 1]), txs[|txs| - 1];
      if (t.side == Buy || t.side == Sell) && t.quantity >= 1 && t.price > 0.0
      then TradeShares(before, Share(t.id, t.price, t.createdAt, t.side == Buy), t.quantity)
      else before
  }

  function Copies<T>(x: T, n: nat): (r: seq<T>)
    ensures |r| == n && forall i :: 0 <= i < n ==> r[i] == x
  {
    seq(n, _ => x)
  }

  /** A lot stands for `|remaining|` equal shares. */
  function Block(lot: Lot): seq<Share> {
    Copies(Share(lot.id, lot.entry, lot.createdAt, lot.remaining > 0), Abs(lot.remaining))
  }

  function Shares(lots: seq<Lot>): seq<Share> {
    if lots == [] then [] else Block(lots[0]) + Shares(lots[1..])
  }

  /** All open lots point the same way. */
  ghost predicate OneSided(lots: seq<Lot>, long: bool) {
    forall i :: 0 <= i < |lots| && lots[i].remaining != 0 ==> (lots[i].remaining > 0) == long
  }

  lemma {:induction false} SharesOneSided(lots: seq<Lot>, long: bool)
    requires OneSided(lots, long)
    ensures forall i :: 0 <= i < |Shares(lots)| ==> Shares(lots)[i].long == long
  {
    if lots != [] {
      SharesOneSided(lots[1..], long);
    }
  }

  lemma {:induction false} SharesAppend(lots: seq<Lot>, lot: Lot)
    ensures Shares(lots + [lot]) == Shares(lots) + Shares([lot])
  {
    if lots == [] {
      assert [] + [lot] == [lot];
    } else {
      SharesAppend(lots[1..], lot);
      assert (lots + [lot])[1..] == lots[1..] + [lot];
      var x, y, z := Block(lots[0]), Shares(lots[1..]), Shares([lot]);
      assert x + (y + z) == (x + y) + z;
    }
  }

  /** Dropping `n` shares from a block and what follows it, in the two steps of the loop. */
  lemma DropInSteps(block: seq<Share>, rest: seq<Share>, n: nat, used: nat)
    requires used == Min(n, |block|)
    ensures var later := Min(n - used, |rest|);
            && block[used..] + rest[later..] == (block + rest)[Min(n, |block + rest|)..]
            && used + later == Min(n, |block + rest|)
  {
  }

  lemma {:induction false} OffsetOneSided(lots: seq<Lot>, side: Side, n: nat, long: bool)
    requires OneSided(lots, long)
    ensures OneSided(Offset(lots, side, n).0, long)
  {
    if lots != [] && n != 0 {
      var used := if Opposes(lots[0], side) then Min(n, Abs(lots[0].remaining)) else 0;
      OffsetOneSided(lots[1..], side, n - used, long);
    }
  }

  lemma SharesCons(lot: Lot, lots: seq<Lot>)
    ensures Shares([lot] + lots) == Block(lot) + Shares(lots)
  {
  }

  /** Offsetting opposite lots drops shares from the front of the queue. */
  lemma {:induction false} OffsetDropsShares(lots: seq<Lot>, side: Side, n: nat)
    requires OneSided(lots, !side.Buy?)
    ensures Shares(Offset(lots, side, n).0) == Shares(lots)[Min(n, |Shares(lots)|)..]
    ensures Offset(lots, side, n).1 == n - Min(n, |Shares(lots)|)
  {
    if lots != [] && n != 0 {
      var used := if Opposes(lots[0], side) then Min(n, Abs(lots[0].remaining)) else 0;
      OffsetDropsShares(lots[1..], side, n - used);
      HeadShares(lots, side, n, used, Offset(lots[1..], side, n - used).0);
      OffsetHead(lots, side, n, used);
      DropInSteps(Block(lots[0]), Shares(lots[1..]), n, used);
    }
  }

  /** Using shares of the first lot drops them from its block, and all it has if more are wanted. */
  lemma HeadShares(lots: seq<Lot>, side: Side, n: nat, used: nat, rest: seq<Lot>)
    requires lots != [] && OneSided(lots, !side.Buy?)
    requires used == if Opposes(lots[0], side) then Min(n, Abs(lots[0].remaining)) else 0
    ensures used == Min(n, |Block(lots[0])|)
    ensures Shares([lots[0].(remaining := lots[0].remaining + Signed(side, used))] + rest) ==
            Block(lots[0])[used..] + Shares(rest)
  {
    BlockOffset(lots[0], side, used);
    SharesCons(lots[0].(remaining := lots[0].remaining + Signed(side, used)), rest);
  }

  lemma OffsetHead(lots: seq<Lot>, side: Side, n: nat, used: nat)
    requires lots != [] && n != 0
    requires used == if Opposes(lots[0], side) then Min(n, Abs(lots[0].remaining)) else 0
    ensures var rest := Offset(lots[1..], side, n - used);
            Offset(lots, side, n) ==
            ([lots[0].(remaining := lots[0].remaining + Signed(side, used))] + rest.0, rest.1)
  {
  }

  lemma BlockOffset(lot: Lot, side: Side, used: nat)
    requires if Opposes(lot, side) then used <= Abs(lot.remaining) else used == 0
    ensures Block(lot.(remaining := lot.remaining + Signed(side, used))) == Block(lot)[used..]
  {
  }

  lemma {:induction false} OffsetSkipsSameSide(lots: seq<Lot>, side: Side, n: nat)
    requires OneSided(lots, side.Buy?)
    ensures Offset(lots, side, n) == (lots, n)
  {
    if lots != [] && n != 0 {
      assert !Opposes(lots[0], side);
      OffsetSkipsSameSide(lots[1..], side, n);
      assert [lots[0]] + lots[1..] == lots;
    }
  }

  /** Trading `n` equal shares at once: what is opposed is closed, the rest joins the queue. */
  lemma {:induction false} TradeSharesAtOnce(queue: seq<Share>, share: Share, n: nat)
    requires forall i :: 0 <= i < |queue| ==> queue[i].long != share.long
    ensures TradeShares(queue, share, n) ==
            queue[Min(n, |queue|)..] + Copies(share, n - Min(n, |queue|))
    decreases n
  {
    if n == 0 {
    } else if queue == [] {
      assert [] + [share] == [share];
      JoinShares([share], share, n - 1);
    } else {
      var rest := queue[1..];
      TradeSharesAtOnce(rest, share, n - 1);
      assert rest[Min(n - 1, |rest|)..] == queue[Min(n, |queue|)..];
    }
  }

  lemma {:induction false} JoinShares(queue: seq<Share>, share: Share, n: nat)
    requires forall i :: 0 <= i < |queue| ==> queue[i].long == share.long
    ensures TradeShares(queue, share, n) == queue + Copies(share, n)
    decreases n
  {
    if n != 0 {
      JoinShares(queue + [share], share, n - 1);
    }
  }

  /** A transaction in the direction of the open lots only opens a new lot. */
  lemma ApplySameSide(lots: seq<Lot>, t: Transaction)
    requires Valid(t) && OneSided(lots, t.side.Buy?)
    ensures Shares(Apply(lots, t)) == TradeShares(Shares(lots), TradedShare(t), t.quantity)
    ensures OneSided(Apply(lots, t), t.side.Buy?)
  {
    SharesOneSided(lots, t.side.Buy?);
    OffsetSkipsSameSide(lots, t.side, t.quantity);
    JoinShares(Shares(lots), TradedShare(t), t.quantity);
    SharesOfOpenLot(lots, t, t.quantity);
  }

  /** What a transaction against the open lots leaves points one way. */
  lemma OtherSideOneSided(lots: seq<Lot>, t: Transaction)
    requires Valid(t) && OneSided(lots, !t.side.Buy?)
    ensures OneSided(Apply(lots, t), true) || OneSided(Apply(lots, t), false)
  {
    var (offset, left) := Offset(lots, t.side, t.quantity);
    OffsetOneSided(lots, t.side, t.quantity, !t.side.Buy?);
    if left > 0 {
      OffsetDropsShares(lots, t.side, t.quantity);
      assert Shares(offset) == [];
      OffsetUsedUp(offset);
      assert OneSided(offset + [OpenLot(t, left)], t.side.Buy?);
    }
  }

  /** A transaction against the open lots closes shares from the front, then turns the side. */
  lemma ApplyOtherSide(lots: seq<Lot>, t: Transaction)
    requires Valid(t) && OneSided(lots, !t.side.Buy?)
    ensures Shares(Apply(lots, t)) == TradeShares(Shares(lots), TradedShare(t), t.quantity)
  {
    var (offset, left) := Offset(lots, t.side, t.quantity);
    SharesOneSided(lots, !t.side.Buy?);
    OffsetDropsShares(lots, t.side, t.quantity);
    TradeSharesAtOnce(Shares(lots), TradedShare(t), t.quantity);
    SharesOfOpenLot(offset, t, left);
  }

  lemma SharesOfOpenLot(lots: seq<Lot>, t: Transaction, n: nat)
    requires Valid(t)
    ensures Shares(lots + [OpenLot(t, n)]) == Shares(lots) + (if n > 0 then Copies(TradedShare(t), n) else [])
  {
    SharesAppend(lots, OpenLot(t, n));
    assert [OpenLot(t, n)][1..] == [];
    assert Shares([OpenLot(t, n)]) == if n > 0 then Copies(TradedShare(t), n) else [];
  }

  /** No shares left means every lot is closed. */
  lemma {:induction false} OffsetUsedUp(lots: seq<Lot>)
    ensures Shares(lots) == [] <==> forall i :: 0 <= i < |lots| ==> lots[i].remaining == 0
  {
    if lots != [] {
      OffsetUsedUp(lots[1..]);
      assert forall i :: 1 <= i < |lots| ==> lots[i] == lots[1..][i - 1];
    }
  }

  /** MAIN: for every transaction list the lots stand for exactly the FIFO queue of shares, and
      the open lots never mix directions. */
  lemma {:induction false} LotsRefineShareQueue(txs: seq<Transaction>)
    ensures Shares(Lots(txs)) == Queue(txs)
    ensures OneSided(Lots(txs), true) || OneSided(Lots(txs), false)
  {
    if txs != [] {
      var before, t := txs[..|txs| - 1], txs[|txs| - 1];
      LotsRefineShareQueue(before);
      if Valid(t) {
        if OneSided(Lots(before), t.side.Buy?) {
          ApplySameSide(Lots(before), t);
        } else {
          ApplyOtherSide(Lots(before), t);
          OtherSideOneSided(Lots(before), t);
        }
      }
    }
  }

  // ---------------------------------------------------------------------------------------
  // Shape of the lot list and conservation
  // ---------------------------------------------------------------------------------------

  /** Every lot as it was when it was opened, in opening order; never changed afterwards. */
  function Opened(txs: seq<Transaction>): seq<Lot> {
    if txs == [] then []
    else
      var before, t := txs[..|txs| - 1], txs[|txs| - 1];
      var left := if Valid(t) then Offset(Lots(before), t.side, t.quantity).1 else 0;
      Opened(before) + (if left > 0 then [OpenLot(t, left)] else [])
  }

  /** `lot` is what is left of `openings`. */
  ghost predicate LeftOf(lot: Lot, openings: Lot) {
    && lot == openings.(remaining := lot.remaining)
    && (if openings.remaining > 0 then 0 <= lot.remaining <= openings.remaining
        else openings.remaining <= lot.remaining <= 0)
  }

  /** The lots before `k` are closed, those after `k` are untouched, lot `k` may be part used. */
  ghost predicate ConsumedUpTo(lots: seq<Lot>, openings: seq<Lot>, k: nat) {
    && |lots| == |openings| && k <= |lots|
    && (forall i :: 0 <= i < |lots| ==> LeftOf(lots[i], openings[i]) && openings[i].remaining != 0)
    && (forall i :: 0 <= i < k ==> lots[i].remaining == 0)
    && (forall i :: k < i < |lots| ==> lots[i] == openings[i])
    && (k < |lots| ==> lots[k].remaining != 0)
  }

  /** The same shape, read from the front of the list. */
  ghost predicate InOrder(lots: seq<Lot>, openings: seq<Lot>) {
    && |lots| == |openings|
    && (lots != [] ==>
          && LeftOf(lots[0], openings[0]) && openings[0].remaining != 0
          && (if lots[0].remaining == 0 then InOrder(lots[1..], openings[1..])
              else lots[1..] == openings[1..] && AllOpen(openings[1..])))
  }

  ghost predicate AllOpen(lots: seq<Lot>) {
    forall i :: 0 <= i < |lots| ==> lots[i].remaining != 0
  }

  lemma {:induction false} UntouchedInOrder(lots: seq<Lot>)
    requires AllOpen(lots)
    ensures InOrder(lots, lots)
  {
  }

  lemma {:induction false} InOrderAppend(lots: seq<Lot>, openings: seq<Lot>, lot: Lot)
    requires InOrder(lots, openings) && lot.remaining != 0
    ensures InOrder(lots + [lot], openings + [lot])
  {
    if lots != [] {
      assert (lots + [lot])[1..] == lots[1..] + [lot];
      assert (openings + [lot])[1..] == openings[1..] + [lot];
      if lots[0].remaining == 0 {
        InOrderAppend(lots[1..], openings[1..], lot);
      }
    }
  }

  /** Offsetting eats lots from the front and leaves the others as they were opened. */
  lemma {:induction false} OffsetKeepsOrder(lots: seq<Lot>, openings: seq<Lot>, side: Side, n: nat)
    requires InOrder(lots, openings) && OneSided(lots, !side.Buy?)
    ensures InOrder(Offset(lots, side, n).0, openings)
  {
    if lots != [] && n != 0 {
      var head, tail := lots[0], lots[1..];
      assert forall i :: 0 <= i < |tail| ==> tail[i] == lots[i + 1];
      var used := if Opposes(head, side) then Min(n, Abs(head.remaining)) else 0;
      var rest := Offset(tail, side, n - used).0;
      var head' := head.(remaining := head.remaining + Signed(side, used));
      assert Offset(lots, side, n).0 == [head'] + rest;
      assert ([head'] + rest)[1..] == rest;
      if head.remaining == 0 {
        OffsetKeepsOrder(tail, openings[1..], side, n);
      } else if used < Abs(head.remaining) {
        assert rest == tail;
      } else {
        UntouchedInOrder(tail);
        OffsetKeepsOrder(tail, openings[1..], side, n - used);
      }
    }
  }

  lemma {:induction false} InOrderSplits(lots: seq<Lot>, openings: seq<Lot>) returns (k: nat)
    requires InOrder(lots, openings)
    ensures ConsumedUpTo(lots, openings, k)
  {
    k := 0;
    if lots != [] {
      var tail, tail' := lots[1..], openings[1..];
      assert forall i :: 0 <= i < |tail| ==> tail[i] == lots[i + 1] && tail'[i] == openings[i + 1];
      if lots[0].remaining == 0 {
        var r := InOrderSplits(tail, tail');
        k := r + 1;
        assert forall i :: 1 <= i < |lots| ==> lots[i] == tail[i - 1] && openings[i] == tail'[i - 1];
      } else {
        assert forall i :: 1 <= i < |lots| ==> lots[i] == tail[i - 1] && openings[i] == tail'[i - 1];
      }
    }
  }

  lemma {:induction false} LotsInOrder(txs: seq<Transaction>)
    ensures InOrder(Lots(txs), Opened(txs))
  {
    if txs != [] {
      var before, t := txs[..|txs| - 1], txs[|txs| - 1];
      LotsInOrder(before);
      LotsRefineShareQueue(before);
      assert Opened(before) + [] == Opened(before);
      if Valid(t) {
        var lots := Lots(before);
        var (offset, left) := Offset(lots, t.side, t.quantity);
        if OneSided(lots, t.side.Buy?) {
          OffsetSkipsSameSide(lots, t.side, t.quantity);
        } else {
          OffsetKeepsOrder(lots, Opened(before), t.side, t.quantity);
        }
        if left > 0 {
          InOrderAppend(offset, Opened(before), OpenLot(t, left));
        }
      }
    }
  }

  /** MAIN: for every transaction list, closed lots form a prefix, every lot after the first
      open one still has its full opening quantity, and each lot keeps its identity. */
  lemma LotsConsumedInOrder(txs: seq<Transaction>)
    ensures exists k :: ConsumedUpTo(Lots(txs), Opened(txs), k)
  {
    LotsInOrder(txs);
    var k := InOrderSplits(Lots(txs), Opened(txs));
  }

  /** Signed quantity of a list of lots. */
  function Net(lots: seq<Lot>): int {
    if lots == [] then 0 else lots[0].remaining + Net(lots[1..])
  }

  /** Shares bought minus shares sold, by the rows that are not skipped. */
  function SignedSum(txs: seq<Transaction>): int {
    if txs == [] then 0
    else
      var t := txs[|txs| - 1];
      SignedSum(txs[..|txs| - 1]) +
      (if t.quantity <= 0 || t.price <= 0.0 then 0
       else match t.side
            case Buy => t.quantity
            case Sell => -t.quantity
            case Unrecognised => 0)
  }

  lemma {:induction false} NetAppend(lots: seq<Lot>, lot: Lot)
    ensures Net(lots + [lot]) == Net(lots) + lot.remaining
  {
    if lots == [] {
      assert [] + [lot] == [lot];
    } else {
      NetAppend(lots[1..], lot);
      assert (lots + [lot])[1..] == lots[1..] + [lot];
    }
  }

  lemma {:induction false} OffsetConserves(lots: seq<Lot>, side: Side, n: nat)
    ensures var r := Offset(lots, side, n); Net(r.0) + Signed(side, r.1) == Net(lots) + Signed(side, n)
  {
    if lots == [] || n == 0 {
    } else if !Opposes(lots[0], side) {
      OffsetConserves(lots[1..], side, n);
    } else {
      OffsetConserves(lots[1..], side, n - Min(n, Abs(lots[0].remaining)));
    }
  }

  /** MAIN: conservation of shares, for every transaction list. */
  lemma {:induction false} LotsConserveQuantity(txs: seq<Transaction>)
    ensures Net(Lots(txs)) == SignedSum(txs)
  {
    if txs != [] {
      var before, t := txs[..|txs| - 1], txs[|txs| - 1];
      LotsConserveQuantity(before);
      if Valid(t) {
        OffsetConserves(Lots(before), t.side, t.quantity);
        var (offset, left) := Offset(Lots(before), t.side, t.quantity);
        if left > 0 {
          NetAppend(offset, OpenLot(t, left));
        }
      }
    }
  }

  // ---------------------------------------------------------------------------------------
  // Where lots come from
  // ---------------------------------------------------------------------------------------

  /** `lot` was opened by the transaction `t` and carries its price and time. */
  ghost predicate OpenedBy(lot: Lot, t: Transaction) {
    && lot.id == t.id && lot.entry == t.price && lot.createdAt == t.createdAt && !lot.synthetic
    && t.quantity >= 1 && t.price > 0.0
    && (lot.remaining > 0 ==> t.side == Buy) && (lot.remaining < 0 ==> t.side == Sell)
    && Abs(lot.remaining) <= t.quantity
  }

  ghost predicate AllOpenedBy(lots: seq<Lot>, txs: seq<Transaction>) {
    forall i :: 0 <= i < |lots| ==> exists j :: 0 <= j < |txs| && OpenedBy(lots[i], txs[j])
  }

  lemma {:induction false} OffsetKeepsOrigin(lots: seq<Lot>, side: Side, n: nat, txs: seq<Transaction>)
    requires AllOpenedBy(lots, txs)
    ensures AllOpenedBy(Offset(lots, side, n).0, txs)
  {
    if lots != [] && n != 0 {
      var used := if Opposes(lots[0], side) then Min(n, Abs(lots[0].remaining)) else 0;
      assert AllOpenedBy(lots[1..], txs);
      OffsetKeepsOrigin(lots[1..], side, n - used, txs);
      var j :| 0 <= j < |txs| && OpenedBy(lots[0], txs[j]);
      assert OpenedBy(lots[0].(remaining := lots[0].remaining + Signed(side, used)), txs[j]);
    }
  }

  /** MAIN: every lot, whatever is left of it, is one of the transactions: no price, time or identity is
      made up. */
  lemma {:induction false} LotsComeFromTransactions(txs: seq<Transaction>)
    ensures AllOpenedBy(Lots(txs), txs)
  {
    if txs != [] {
      var before, t := txs[..|txs| - 1], txs[|txs| - 1];
      LotsComeFromTransactions(before);
      assert AllOpenedBy(Lots(before), txs) by {
        forall i | 0 <= i < |Lots(before)| ensures exists j :: 0 <= j < |txs| && OpenedBy(Lots(before)[i], txs[j]) {
          var j :| 0 <= j < |before| && OpenedBy(Lots(before)[i], before[j]);
          assert OpenedBy(Lots(before)[i], txs[j]);
        }
      }
      if Valid(t) {
        OffsetKeepsOrigin(Lots(before), t.side, t.quantity, txs);
        var (offset, left) := Offset(Lots(before), t.side, t.quantity);
        OffsetLeavesNoMore(Lots(before), t.side, t.quantity);
        assert OpenedBy(OpenLot(t, left), txs[|txs| - 1]) || left == 0;
      }
    }
  }

  lemma {:induction false} OffsetLeavesNoMore(lots: seq<Lot>, side: Side, n: nat)
    ensures Offset(lots, side, n).1 <= n
  {
    if lots != [] && n != 0 {
      OffsetLeavesNoMore(lots[1..], side, n - (if Opposes(lots[0], side) then Min(n, Abs(lots[0].remaining)) else 0));
    }
  }
}
