/**
 The limit-order book: placing an order matches it, best price first, against the resting orders
 of the opposite side, and what is left of it rests in the book.

 Balances and the amounts locked in orders live in one object, so that conservation can be stated
 over both. Every match also leaves a fill record, as the chain does with a virtual operation.
 */
module Market {
  import opened Sums
  import opened Prices

  type Name = string
  const MAX_SATOSHIS: int := 4611686018427387903
  const LIMIT_64: int := 0x8000_0000_0000_0000

  datatype Order = Order(id: nat, seller: Name, forSale: nat, price: Price)

  /** newOrder and oldOrder as they were before the match, and what each side paid. */
  datatype Fill = Fill(newOrder: Order, oldOrder: Order, newPays: nat, oldPays: nat)

  type Balances = map<(Name, Symbol), int>
  type Book = map<nat, Order>

  function BalanceOf(b: Balances, who: Name, s: Symbol): int {
    if (who, s) in b then b[(who, s)] else 0
  }

  function AmountToReceive(o: Order): nat
    requires ValidPrice(o.price)
  {
    Exchange(o.forSale, o.price.base.amount, o.price.quote.amount)
  }

  /** An order worth resting: it sells something, and what it sells is worth something at its price. */
  predicate Sound(o: Order) {
    && ValidPrice(o.price) && 0 < o.forSale <= MAX_SATOSHIS
    && 0 < AmountToReceive(o) < LIMIT_64
  }

  /** The two orders are on opposite sides and their limits overlap. */
  predicate Crosses(a: Order, b: Order) {
    && a.price.base.symbol == b.price.quote.symbol && a.price.quote.symbol == b.price.base.symbol
    && a.price.quote.amount * b.price.quote.amount <= a.price.base.amount * b.price.base.amount
  }

  /** The order of the price index: higher sell price first, then the older order. */
  predicate Before(x: Order, y: Order) {
    PriceLess(y.price, x.price) || (PriceEqual(x.price, y.price) && x.id < y.id)
  }

  /** x lies in the part of the price index that is scanned for the new order. */
  predicate InRange(x: Order, newOrder: Order) {
    var low := Inverse(newOrder.price);
    var high := Price(Asset(MAX_SATOSHIS, low.base.symbol), Asset(1, low.quote.symbol));
    !PriceLess(high, x.price) && !PriceLess(x.price, low)
  }

  /** A fill in which nobody pays for nothing or gets less than the own limit price promises. */
  predicate Fair(f: Fill) {
    && Sound(f.newOrder) && Sound(f.oldOrder) && Crosses(f.newOrder, f.oldOrder)
    && 0 < f.newPays <= f.newOrder.forSale && 0 < f.oldPays <= f.oldOrder.forSale
    && (f.newPays == f.newOrder.forSale || f.oldPays == f.oldOrder.forSale)
    && f.oldPays >= Exchange(f.newPays, f.newOrder.price.base.amount, f.newOrder.price.quote.amount)
    && f.newPays >= Exchange(f.oldPays, f.oldOrder.price.base.amount, f.oldOrder.price.quote.amount)
  }

  /** The amounts are those of the resting order's price. */
  predicate AtOldPrice(f: Fill) {
    && ValidPrice(f.oldOrder.price)
    && (f.newPays, f.oldPays) == MatchAmounts(f.newOrder.forSale, f.oldOrder.forSale, f.oldOrder.price.base.amount,
        f.oldOrder.price.quote.amount)
  }

  // ---- Book invariants -----------------------------------------------------------------------

  ghost predicate OrdersSound(book: Book, next: nat) {
    forall i | i in book :: book[i].id == i < next && Sound(book[i])
  }

  /** No two orders other than `except` cross. */
  ghost predicate Uncrossed(book: Book, except: nat) {
    forall i, j | i in book && j in book && i != except && j != except :: !Crosses(book[i], book[j])
  }

  ghost function Locked(book: Book, s: Symbol, i: nat): int {
    if i in book && book[i].price.base.symbol == s then book[i].forSale else 0
  }

  ghost function LockedTotal(book: Book, s: Symbol): int {
    Sum(book.Keys, i => Locked(book, s, i))
  }

  ghost function Held(b: Balances, s: Symbol, k: (Name, Symbol)): int {
    if k in b && k.1 == s then b[k] else 0
  }

  ghost function HeldTotal(b: Balances, s: Symbol): int {
    Sum(b.Keys, k => Held(b, s, k))
  }

  /** Everything there is of one asset: in balances and locked in orders. */
  ghost function Supply(b: Balances, book: Book, s: Symbol): int {
    HeldTotal(b, s) + LockedTotal(book, s)
  }

  function Credit(b: Balances, who: Name, a: Asset): Balances {
    b[(who, a.symbol) := BalanceOf(b, who, a.symbol) + a.amount]
  }

  lemma CreditHeld(b: Balances, who: Name, a: Asset, s: Symbol)
    ensures HeldTotal(Credit(b, who, a), s) == HeldTotal(b, s) + if a.symbol == s then a.amount else 0
  {
    var b', k := Credit(b, who, a), (who, a.symbol);
    var f, f' := x => Held(b, s, x), x => Held(b', s, x);
    if k in b {
      assert b'.Keys == b.Keys;
      SumChangeOne(b.Keys, f, f', k);
    } else {
      assert b'.Keys == b.Keys + {k};
      SumInsert(b.Keys, f', k);
      SumExt(b.Keys, f, f');
    }
  }

  lemma LockedRemoved(book: Book, i: nat, s: Symbol)
    requires i in book
    ensures LockedTotal(book - {i}, s) == LockedTotal(book, s) - Locked(book, s, i)
  {
    var book' := book - {i};
    assert book'.Keys == book.Keys - {i};
    SumRemove(book.Keys, x => Locked(book, s, x), i);
    SumExt(book'.Keys, x => Locked(book, s, x), x => Locked(book', s, x));
  }

  lemma LockedChanged(book: Book, i: nat, o: Order, s: Symbol)
    requires i in book && o.price == book[i].price
    ensures LockedTotal(book[i := o], s)
         == LockedTotal(book, s) + if o.price.base.symbol == s then o.forSale - book[i].forSale else 0
  {
    assert book[i := o].Keys == book.Keys;
    SumChangeOne(book.Keys, x => Locked(book, s, x), x => Locked(book[i := o], s, x), i);
  }

  lemma LockedAdded(book: Book, o: Order, s: Symbol)
    requires o.id !in book
    ensures LockedTotal(book[o.id := o], s) == LockedTotal(book, s) + if o.price.base.symbol == s then o.forSale else 0
  {
    var book' := book[o.id := o];
    assert book'.Keys == book.Keys + {o.id};
    SumInsert(book.Keys, x => Locked(book', s, x), o.id);
    SumExt(book.Keys, x => Locked(book, s, x), x => Locked(book', s, x));
  }

  // ---- Prices in the book --------------------------------------------------------------------

  lemma CrossesSymmetric(a: Order, b: Order)
    ensures Crosses(a, b) <==> Crosses(b, a)
  {
  }

  /** The scanned part of the index holds exactly the orders that cross the new one. */
  lemma RangeIsCrossing(x: Order, newOrder: Order)
    requires Sound(x) && Sound(newOrder)
    ensures InRange(x, newOrder) <==> Crosses(newOrder, x)
  {
    var low := Inverse(newOrder.price);
    var high := Price(Asset(MAX_SATOSHIS, low.base.symbol), Asset(1, low.quote.symbol));
    if (x.price.base.symbol, x.price.quote.symbol) == (low.base.symbol, low.quote.symbol) {
      var r := AmountToReceive(x);
      assert x.price.base.amount <= MAX_SATOSHIS * x.price.quote.amount by {
        MulMono(x.price.base.amount, 1, r);
        MulMono(x.price.quote.amount, x.forSale, MAX_SATOSHIS);
      }
      assert !PriceLess(high, x.price);
    }
  }

  lemma BeforeOrder(x: Order, y: Order, z: Order)
    requires ValidPrice(x.price) && ValidPrice(y.price) && ValidPrice(z.price)
    ensures !Before(x, x)
    ensures x.id != y.id ==> Before(x, y) || Before(y, x)
    ensures Before(x, y) && Before(y, z) ==> Before(x, z)
    ensures Before(x, y) ==> !Before(y, x)
  {
    PriceOrder(x.price, y.price, z.price);
    PriceOrder(z.price, y.price, x.price);
    PriceOrder(y.price, x.price, y.price);
    PriceOrder(x.price, y.price, x.price);
  }

  lemma ExchangeMono(a: nat, b: nat, have: int, want: int)
    requires have > 0 && want > 0 && a <= b
    ensures Exchange(a, have, want) <= Exchange(b, have, want)
  {
    var x, y := Exchange(a, have, want), Exchange(b, have, want);
    MulMono(want, a, b);
    if x > y { MulMono(have, y + 1, x); }
  }

  // ---- The effect of filling one order -------------------------------------------------------

  function Rest(o: Order, pays: nat): Order
    requires pays <= o.forSale
  {
    o.(forSale := o.forSale - pays)
  }

  /** The order leaves the book: it is filled, or what is left is worth nothing at its price. */
  predicate Leaves(o: Order, pays: nat)
    requires ValidPrice(o.price) && pays <= o.forSale
  {
    pays == o.forSale || AmountToReceive(Rest(o, pays)) == 0
  }

  function FilledBook(book: Book, id: nat, pays: nat): Book
    requires id in book && ValidPrice(book[id].price) && pays <= book[id].forSale
  {
    if Leaves(book[id], pays) then book - {id} else book[id := Rest(book[id], pays)]
  }

  function FilledBalances(b: Balances, o: Order, pays: nat, receives: Asset): Balances
    requires ValidPrice(o.price) && pays <= o.forSale
  {
    var b' := Credit(b, o.seller, receives);
    if Leaves(o, pays) && pays < o.forSale
    then Credit(b', o.seller, Asset(o.forSale - pays, o.price.base.symbol)) else b'
  }

  /** A fill takes what the order pays out of the book and brings what it receives into the balances. */
  lemma FillSupply(b: Balances, book: Book, id: nat, pays: nat, receives: Asset, s: Symbol)
    requires id in book && ValidPrice(book[id].price) && pays <= book[id].forSale
    ensures Supply(FilledBalances(b, book[id], pays, receives), FilledBook(book, id, pays), s)
         == Supply(b, book, s) + (if receives.symbol == s then receives.amount else 0)
            - if book[id].price.base.symbol == s then pays else 0
  {
    var o := book[id];
    var b' := Credit(b, o.seller, receives);
    CreditHeld(b, o.seller, receives, s);
    CreditHeld(b', o.seller, Asset(o.forSale - pays, o.price.base.symbol), s);
    LockedRemoved(book, id, s);
    LockedChanged(book, id, Rest(o, pays), s);
  }

  /** Every order stays, with its price, or leaves; only `changed` ones lose anything. */
  ghost predicate Shrunk(before: Book, after: Book, changed: set<nat>) {
    && after.Keys <= before.Keys
    && (forall i | i in after ::
          && after[i] == before[i].(forSale := after[i].forSale) && after[i].forSale <= before[i].forSale
          && Sound(after[i]))
    && forall i | i in before && i !in changed :: i in after && after[i] == before[i]
  }

  lemma FilledShrinks(book: Book, next: nat, id: nat, pays: nat)
    requires OrdersSound(book, next) && id in book && pays <= book[id].forSale
    ensures Shrunk(book, FilledBook(book, id, pays), {id}) && OrdersSound(FilledBook(book, id, pays), next)
  {
    var o := book[id];
    ExchangeMono(o.forSale - pays, o.forSale, o.price.base.amount, o.price.quote.amount);
  }

  lemma ShrunkTrans(a: Book, b: Book, c: Book, x: set<nat>, y: set<nat>)
    requires Shrunk(a, b, x) && Shrunk(b, c, y)
    ensures Shrunk(a, c, x + y)
  {
  }

  lemma ShrunkUncrossed(before: Book, after: Book, changed: set<nat>, except: nat)
    requires Uncrossed(before, except) && Shrunk(before, after, changed)
    ensures Uncrossed(after, except)
  {
    forall i, j | i in after && j in after && i != except && j != except ensures !Crosses(after[i], after[j]) {
      assert !Crosses(before[i], before[j]);
    }
  }

  ghost predicate Solvent(b: Balances) {
    forall k | k in b :: b[k] >= 0
  }

  // ---- Priority ------------------------------------------------------------------------------

  /** x gives more of what it sells for what it asks than y does; at equal prices it is the older order. */
  predicate Cheaper(x: Order, y: Order) {
    var (bx, qx, by', qy) := (x.price.base.amount, x.price.quote.amount, y.price.base.amount, y.price.quote.amount);
    bx * qy > by' * qx || (bx * qy == by' * qx && x.id < y.id)
  }

  /** In one market the order of the price index is that one. */
  lemma BeforeIsCheaper(x: Order, y: Order, newOrder: Order)
    requires Crosses(newOrder, x) && Crosses(newOrder, y)
    ensures Before(x, y) <==> Cheaper(x, y)
  {
  }

  /** A floor of no smaller a fraction is no smaller. */
  lemma FloorMono(p: nat, b: nat, q: nat, b': nat, q': nat, e: nat, e': nat)
    requires b * q' >= b' * q && p * b < (e + 1) * q && e' * q' <= p * b' && q' > 0
    ensures e' <= e
  {
    if e < e' {
      calc {
        q' * ((e + 1) * q);
      > { MulStrict(q', p * b, (e + 1) * q); }
        q' * (p * b);
      == { Commuted(q', p, b); }
        p * (b * q');
      >= { MulMono(p, b' * q, b * q'); }
        p * (b' * q);
      == { Commuted(q, p, b'); }
        q * (p * b');
      >= { MulMono(q, e' * q', p * b'); }
        q * (e' * q');
      == { Commuted(q, e', q'); }
        e' * (q' * q);
      >= { MulMono(q' * q, e + 1, e'); }
        (e + 1) * (q' * q);
      == { Commuted(q', e + 1, q); }
        q' * ((e + 1) * q);
      }
    }
  }

  lemma Commuted(a: int, b: int, c: int)
    ensures a * (b * c) == b * (c * a)
  {
  }

  /** Whatever is paid, x gives no less for it than y. */
  lemma CheaperGivesMore(x: Order, y: Order, pays: nat)
    requires ValidPrice(x.price) && ValidPrice(y.price) && Cheaper(x, y)
    ensures Exchange(pays, x.price.quote.amount, x.price.base.amount)
         >= Exchange(pays, y.price.quote.amount, y.price.base.amount)
  {
    hide Exchange;
    var (bx, qx, by', qy) := (x.price.base.amount, x.price.quote.amount, y.price.base.amount, y.price.quote.amount);
    FloorMono(pays, bx, qx, by', qy, Exchange(pays, qx, bx), Exchange(pays, qy, by'));
  }

  /**
   From fill `from` on, the cheapest resting orders were taken first, cheaper than every order that was
   taken later or still crosses.
   */
  ghost predicate InPriority(fills: seq<Fill>, from: nat, book: Book, newOrder: Order) {
    && from <= |fills|
    && (forall i, j | from <= i < j < |fills| :: Cheaper(fills[i].oldOrder, fills[j].oldOrder))
    && forall i, r | from <= i < |fills| && r in book && r != newOrder.id && Crosses(newOrder, book[r]) ::
         r == fills[i].oldOrder.id || Cheaper(fills[i].oldOrder, book[r])
  }

  /** x and y have valid prices, and for any amount paid x gives no less than y. */
  ghost predicate NoWorse(x: Order, y: Order) {
    && ValidPrice(x.price) && ValidPrice(y.price)
    && forall pays: nat :: Exchange(pays, x.price.quote.amount, x.price.base.amount)
                        >= Exchange(pays, y.price.quote.amount, y.price.base.amount)
  }

  /** No order that was taken later or still crosses would have given more for any amount. */
  ghost predicate BestDeals(fills: seq<Fill>, from: nat, book: Book, newOrder: Order) {
    && (forall i, j | 0 <= from <= i < j < |fills| :: NoWorse(fills[i].oldOrder, fills[j].oldOrder))
    && forall i, r | 0 <= from <= i < |fills| && r in book && r != newOrder.id && Crosses(newOrder, book[r]) ::
         NoWorse(fills[i].oldOrder, book[r])
  }

  lemma PriorityIsBest(fills: seq<Fill>, from: nat, book: Book, newOrder: Order, next: nat)
    requires InPriority(fills, from, book, newOrder) && OrdersSound(book, next)
    requires forall i | from <= i < |fills| :: Fair(fills[i])
    requires forall i | from <= i < |fills| && fills[i].oldOrder.id in book ::
      book[fills[i].oldOrder.id].price == fills[i].oldOrder.price
    ensures BestDeals(fills, from, book, newOrder)
  {
    hide Cheaper, Crosses, Exchange, Sound;
    forall i, j | from <= i < j < |fills| ensures NoWorse(fills[i].oldOrder, fills[j].oldOrder) {
      GivesMore(fills[i].oldOrder, fills[j].oldOrder);
    }
    forall i, r | from <= i < |fills| && r in book && r != newOrder.id && Crosses(newOrder, book[r])
      ensures NoWorse(fills[i].oldOrder, book[r]) {
      if r == fills[i].oldOrder.id {
        SoundPrice(book[r]);
      } else {
        GivesMore(fills[i].oldOrder, book[r]);
      }
    }
  }

  lemma GivesMore(x: Order, y: Order)
    requires Sound(x) && Sound(y) && Cheaper(x, y)
    ensures NoWorse(x, y)
  {
    hide Exchange, Cheaper;
    forall pays: nat ensures Exchange(pays, x.price.quote.amount, x.price.base.amount)
                          >= Exchange(pays, y.price.quote.amount, y.price.base.amount) {
      CheaperGivesMore(x, y, pays);
    }
  }

  // ---- Matching as a function of the book ----------------------------------------------------

  /** The book after two orders traded at the resting one's price. */
  ghost function Traded(book: Book, newId: nat, oldId: nat): Book
    requires newId in book && oldId in book && newId != oldId && Sound(book[newId]) && Sound(book[oldId])
  {
    var price := book[oldId].price;
    var (n, o) := MatchAmounts(book[newId].forSale, book[oldId].forSale, price.base.amount, price.quote.amount);
    if n > book[newId].forSale || o > book[oldId].forSale then book
    else FilledBook(FilledBook(book, newId, n), oldId, o)
  }

  lemma TradedIs(book: Book, newId: nat, oldId: nat, f: Fill)
    requires newId in book && oldId in book && newId != oldId && f.newOrder == book[newId] && f.oldOrder == book[oldId]
    requires Sound(book[newId]) && Sound(book[oldId]) && AtOldPrice(f)
    requires f.newPays <= book[newId].forSale && f.oldPays <= book[oldId].forSale
    ensures Traded(book, newId, oldId) == FilledBook(FilledBook(book, newId, f.newPays), oldId, f.oldPays)
  {
    hide MatchAmounts;
  }

  /** There is a resting order the scan comes to. */
  ghost predicate Met(book: Book, id: nat) {
    id in book && Sound(book[id]) && exists r :: IsFirst(book, book[id], r) && r != id && Sound(book[r])
  }

  /** The book after an order was matched, best price first, until it is gone or nothing crosses it. */
  ghost function AfterMatching(book: Book, id: nat): Book
    decreases |book|
  {
    if !Met(book, id) then book else
      var r :| IsFirst(book, book[id], r) && r != id && Sound(book[r]);
      var after := Traded(book, id, r);
      if |after| < |book| then AfterMatching(after, id) else book
  }

  lemma FirstUnique(book: Book, next: nat, o: Order, r: nat, r': nat)
    requires OrdersSound(book, next) && IsFirst(book, o, r) && IsFirst(book, o, r')
    ensures r == r'
  {
    hide Crosses, Sound;
  }

  lemma MatchingStep(book: Book, next: nat, id: nat, r: nat)
    requires OrdersSound(book, next) && id in book && IsFirst(book, book[id], r)
    requires |Traded(book, id, r)| < |book|
    ensures AfterMatching(book, id) == AfterMatching(Traded(book, id, r), id)
  {
    hide Sound, Traded, IsFirst;
    IsResting(book, next, id, r);
    assert Met(book, id);
    forall r' | IsFirst(book, book[id], r') ensures r' == r { FirstUnique(book, next, book[id], r, r'); }
  }

  lemma IsResting(book: Book, next: nat, id: nat, r: nat)
    requires OrdersSound(book, next) && id in book && IsFirst(book, book[id], r)
    ensures r in book && r != id && Sound(book[r]) && Sound(book[id])
  {
    hide Sound;
  }

  lemma SameFirst(book: Book, o: Order, o': Order, r: nat)
    requires o' == o.(forSale := o'.forSale) && IsFirst(book, o, r)
    ensures IsFirst(book, o', r)
  {
    hide Cheaper;
  }

  lemma NothingMet(book: Book, next: nat, id: nat)
    requires OrdersSound(book, next)
    requires id in book ==> forall r | r in book && r != id :: !Crosses(book[id], book[r])
    ensures AfterMatching(book, id) == book
  {
    hide Sound, Crosses;
  }

  lemma FewerLeft(book: Book, after: Book, id: nat)
    requires after.Keys <= book.Keys && id in book && id !in after
    ensures |after| < |book|
  {
    assert after.Keys <= book.Keys - {id};
    Fewer(after.Keys, book.Keys - {id});
    assert |after.Keys| == |after| && |book.Keys| == |book|;
  }

  lemma Fewer(a: set<nat>, b: set<nat>)
    requires a <= b
    ensures |a| <= |b|
  {
    assert a + (b - a) == b;
  }

  datatype Op =
    | Place(seller: Name, amount: nat, price: Price, fillOrKill: bool)
    | Cancel(seller: Name, id: nat)
    | Expire(id: nat)

  class OrderBook {
    var balances: Balances
    var book: Book
    var fills: seq<Fill>
    var next: nat

    ghost predicate Valid()
      reads this
    {
      OrdersSound(book, next) && Uncrossed(book, next) && Solvent(balances) && forall f | f in fills :: Fair(f)
    }

    constructor (b: Balances)
      requires Solvent(b)
      ensures Valid() && balances == b && book == map[] && fills == [] && next == 0
    {
      balances, book, fills, next := b, map[], [], 0;
    }

    /** Refunds what an order still has for sale, and drops it. */
    method CancelOrder(id: nat)
      requires id in book && ValidPrice(book[id].price)
      modifies `balances, `book
      ensures book == old(book) - {id}
      ensures var o := old(book)[id]; balances == Credit(old(balances), o.seller, Asset(o.forSale, o.price.base.symbol))
      ensures forall s :: Supply(balances, book, s) == old(Supply(balances, book, s))
    {
      var o := book[id];
      forall s ensures Supply(Credit(balances, o.seller, Asset(o.forSale, o.price.base.symbol)), book - {id},
          s) == Supply(balances, book, s) {
        CreditHeld(balances, o.seller, Asset(o.forSale, o.price.base.symbol), s);
        LockedRemoved(book, id, s);
      }
      balances := Credit(balances, o.seller, Asset(o.forSale, o.price.base.symbol));
      book := book - {id};
    }

    /** Settles one side of a match; an order whose rest is worth nothing is cancelled. */
    method FillOrder(id: nat, pays: Asset, receives: Asset) returns (gone: bool)
      requires id in book && ValidPrice(book[id].price) && 0 <= pays.amount <= book[id].forSale
      requires pays.symbol == book[id].price.base.symbol && receives.symbol != pays.symbol
      modifies `balances, `book
      ensures gone <==> Leaves(old(book)[id], pays.amount)
      ensures book == FilledBook(old(book), id, pays.amount)
      ensures balances == FilledBalances(old(balances), old(book)[id], pays.amount, receives)
    {
      var o := book[id];
      balances := Credit(balances, o.seller, receives);
      if pays.amount == o.forSale {
        book := book - {id};
        return true;
      }
      book := book[id := o.(forSale := o.forSale - pays.amount)];
      if AmountToReceive(book[id]) == 0 {
        CancelOrder(id);
        assert book == old(book) - {id};
        return true;
      }
      return false;
    }

    /** What the two orders pay each other at the resting order's price. */
    method MatchedAmounts(newOrder: Order, oldOrder: Order) returns (newPays: Asset, oldPays: Asset)
      requires Sound(newOrder) && Sound(oldOrder) && Crosses(newOrder, oldOrder)
      ensures newPays.amount >= 0 && oldPays.amount >= 0
      ensures newPays.symbol == newOrder.price.base.symbol && oldPays.symbol == oldOrder.price.base.symbol
      ensures var f := Fill(newOrder, oldOrder, newPays.amount, oldPays.amount); Fair(f) && AtOldPrice(f)
    {
      var price := oldOrder.price;
      var newSale, oldSale := Asset(newOrder.forSale, price.quote.symbol), Asset(oldOrder.forSale, price.base.symbol);
      var oldReceives, newReceives;
      if newSale.amount <= Times(oldSale, price).amount {
        oldReceives, newReceives := newSale, Times(newSale, price);
      } else {
        newReceives, oldReceives := oldSale, Times(oldSale, price);
      }
      oldPays, newPays := newReceives, oldReceives;
      MatchIsFair(newOrder.forSale, oldOrder.forSale, price.base.amount, price.quote.amount,
                  newOrder.price.base.amount, newOrder.price.quote.amount);
      assert newPays == newSale || oldPays == oldSale;
    }

    /** Trades a new order against a resting one; says which of them are gone afterwards. */
    method Match(newId: nat, oldId: nat) returns (newGone: bool, oldGone: bool, ghost fill: Fill)
      requires OrdersSound(book, next) && newId in book && oldId in book && newId != oldId
      requires Crosses(book[newId], book[oldId])
      modifies `balances, `book, `fills
      ensures newGone || oldGone
      ensures newGone <==> newId !in book
      ensures oldGone <==> oldId !in book
      ensures OrdersSound(book, next) && Shrunk(old(book), book, {newId, oldId})
      ensures fills == old(fills) + [fill] && Fair(fill) && AtOldPrice(fill)
      ensures fill.newOrder == old(book)[newId] && fill.oldOrder == old(book)[oldId]
      ensures Sound(old(book)[newId]) && Sound(old(book)[oldId]) && book == Traded(old(book), newId, oldId)
      ensures forall s :: Supply(balances, book, s) == old(Supply(balances, book, s))
      ensures old(Solvent(balances)) ==> Solvent(balances)
    {
      hide Sound, Supply, Shrunk, Exchange, AtOldPrice, Traded;
      var newOrder, oldOrder := book[newId], book[oldId];
      ghost var balances0, book0 := balances, book;
      SoundPrice(newOrder);
      SoundPrice(oldOrder);
      var newPays, oldPays := MatchedAmounts(newOrder, oldOrder);
      fill := Fill(newOrder, oldOrder, newPays.amount, oldPays.amount);
      fills := fills + [Fill(newOrder, oldOrder, newPays.amount, oldPays.amount)];
      TradedIs(book, newId, oldId, fill);
      FilledShrinks(book, next, newId, newPays.amount);
      newGone := FillOrder(newId, newPays, oldPays);
      ghost var balances1, book1 := balances, book;
      FilledShrinks(book, next, oldId, oldPays.amount);
      oldGone := FillOrder(oldId, oldPays, newPays);
      ShrunkTrans(book0, book1, book, {newId}, {oldId});
      assert {newId} + {oldId} == {newId, oldId};
      forall s ensures Supply(balances, book, s) == Supply(balances0, book0, s) {
        FillSupply(balances0, book0, newId, newPays.amount, oldPays, s);
        FillSupply(balances1, book1, oldId, oldPays.amount, newPays, s);
      }
    }

    /** The resting order the scan comes to first: best price, then oldest. */
    method FirstInRange(newOrder: Order) returns (found: bool, id: nat)
      requires OrdersSound(book, next) && Sound(newOrder)
      ensures found ==> IsFirst(book, newOrder, id)
      ensures !found ==> forall r | r in book && r != newOrder.id :: !Crosses(newOrder, book[r])
    {
      hide Sound, PriceLess, PriceEqual, Crosses, Before, Cheaper;
      found, id := false, 0;
      var todo := book.Keys - {newOrder.id};
      while todo != {}
        invariant todo <= book.Keys - {newOrder.id}
        invariant found ==> id in book && id != newOrder.id && id !in todo && Crosses(newOrder, book[id])
        invariant found ==> forall r | r in book && r != newOrder.id && r != id && r !in todo && Crosses(newOrder,
            book[r]) :: Before(book[id], book[r])
        invariant !found ==> forall r | r in book && r != newOrder.id && r !in todo :: !Crosses(newOrder, book[r])
        decreases todo
      {
        var r :| r in todo;
        todo := todo - {r};
        RangeIsCrossing(book[r], newOrder);
        if InRange(book[r], newOrder) {
          if !found {
            found, id := true, r;
          } else {
            SoundPrice(book[r]);
            SoundPrice(book[id]);
            BeforeOrder(book[r], book[id], book[id]);
            if Before(book[r], book[id]) {
              forall x | x in book && x != newOrder.id && x != r && x !in todo && Crosses(newOrder,
                  book[x]) ensures Before(book[r], book[x]) {
                SoundPrice(book[x]);
                BeforeOrder(book[r], book[id], book[x]);
              }
              id := r;
            }
          }
        }
      }
      if found {
        forall r | r in book && r != newOrder.id && r != id && Crosses(newOrder, book[r])
          ensures Cheaper(book[id], book[r]) {
          BeforeIsCheaper(book[id], book[r], newOrder);
        }
      }
    }

    /** Matches a new order until it is gone or nothing crosses it any more. */
    method ApplyOrder(newId: nat) returns (gone: bool)
      requires OrdersSound(book, next) && newId in book && Uncrossed(book, newId) && Solvent(balances)
      modifies `balances, `book, `fills
      ensures gone <==> newId !in book
      ensures OrdersSound(book, next) && Uncrossed(book, next) && Solvent(balances)
      ensures old(fills) <= fills && forall i | |old(fills)| <= i < |fills| :: Fair(fills[i]) && AtOldPrice(fills[i])
      ensures InPriority(fills, |old(fills)|, book, old(book)[newId])
      ensures BestDeals(fills, |old(fills)|, book, old(book)[newId])
      ensures book == AfterMatching(old(book), newId)
      ensures newId in book ==> book[newId] == old(book)[newId].(forSale := book[newId].forSale)
      ensures forall i | i in old(book) && i != newId && !Crosses(old(book)[newId], old(book)[i]) ::
                i in book && book[i] == old(book)[i]
      ensures forall s :: Supply(balances, book, s) == old(Supply(balances, book, s))
    {
      hide Sound, Supply, Crosses, Fair, AtOldPrice, InPriority, Uncrossed, OrdersSound, Solvent, AfterMatching, Traded,
           MatchAmounts, BestDeals;
      var newOrder := book[newId];
      SoundAt(book, next, newId);
      PriorityNone(fills, book, newOrder);
      ghost var from := |fills|;
      gone := false;
      while !gone
        invariant OrdersSound(book, next) && Uncrossed(book, newId) && Solvent(balances)
        invariant gone <==> newId !in book
        invariant AfterMatching(book, newId) == AfterMatching(old(book), newId)
        invariant !gone ==> book[newId] == newOrder.(forSale := book[newId].forSale)
        invariant old(fills) <= fills && forall i | from <= i < |fills| :: Fair(fills[i]) && AtOldPrice(fills[i])
        invariant InPriority(fills, from, book, newOrder)
        invariant !gone ==> forall i | from <= i < |fills| :: fills[i].oldOrder.id !in book
        invariant forall i | from <= i < |fills| && fills[i].oldOrder.id in book ::
                    book[fills[i].oldOrder.id].price == fills[i].oldOrder.price
        invariant forall i | i in old(book) && i != newId && !Crosses(newOrder, old(book)[i]) ::
                    i in book && book[i] == old(book)[i]
        invariant forall s :: Supply(balances, book, s) == old(Supply(balances, book, s))
        decreases !gone, |book|
      {
        var found, oldId := FirstInRange(newOrder);
        CrossesShrunk(newOrder, book[newId]);
        if !found {
          NothingMet(book, next, newId);
          UncrossedAll(book, newId, next);
          PriorityIsBest(fills, from, book, newOrder, next);
          return;
        }
        ghost var book0, fills0 := book, fills;
        SoundAt(book, next, newId);
        SoundAt(book, next, oldId);
        SameFirst(book, newOrder, book[newId], oldId);
        var newGone, oldGone, fill := Match(newId, oldId);
        FewerLeft(book0, book, if newGone then newId else oldId);
        MatchingStep(book0, next, newId, oldId);
        if oldGone { FewerOrders(book0, book, oldId); }
        ShrunkUncrossed(book0, book, {newId, oldId}, newId);
        PriorityKept(book0, book, fills0, from, newOrder, fill, oldId, next);
        gone := newGone;
      }
      NothingMet(book, next, newId);
      GoneUncrossed(book, newId, next);
      PriorityIsBest(fills, from, book, newOrder, next);
    }

    // ---- Operations --------------------------------------------------------------------------

    /** Places an order: locks the amount, matches, and with fillOrKill insists that nothing rests. */
    method PlaceOrder(seller: Name, amount: nat, price: Price, fillOrKill: bool) returns (ok: bool)
      requires Valid()
      modifies this
      ensures Valid()
      ensures !ok ==> balances == old(balances) && book == old(book) && fills == old(fills) && next == old(next)
      ensures var o := Order(old(next), seller, amount, price);
              var left := AfterMatching(old(book)[o.id := o], o.id);
              && (ok <==> ValidPrice(price) && 0 < amount <= MAX_SATOSHIS
                          && 0 < Exchange(amount, price.base.amount, price.quote.amount) < LIMIT_64
                          && BalanceOf(old(balances), seller, price.base.symbol) >= amount
                          && (fillOrKill ==> o.id !in left))
              && (ok ==> book == left)
              && (ok ==> old(fills) <= fills && InPriority(fills, |old(fills)|, book, o))
              && (ok ==> BestDeals(fills, |old(fills)|, book, o))
              && (ok && o.id in book ==> forall r | r in book && r != o.id :: !Crosses(o, book[r]))
              && (ok ==> forall i | i in old(book) && !Crosses(o, old(book)[i]) :: i in book && book[i] == old(book)[i])
      ensures forall s :: Supply(balances, book, s) == old(Supply(balances, book, s))
    {
      hide Crosses, Fair, AtOldPrice, InPriority, AfterMatching, BestDeals;
      var o := Order(next, seller, amount, price);
      if !Sound(o) || BalanceOf(balances, seller, price.base.symbol) < amount {
        return false;
      }
      var balances0, book0, fills0 := balances, book, fills;
      PlacedUncrossed(book, next, o);
      forall s ensures Supply(Credit(balances, seller, Asset(0 - amount, price.base.symbol)), book[next := o],
          s) == Supply(balances, book, s) {
        CreditHeld(balances, seller, Asset(0 - amount, price.base.symbol), s);
        LockedAdded(book, o, s);
      }
      balances := Credit(balances, seller, Asset(0 - amount, price.base.symbol));
      book := book[next := o];
      next := next + 1;
      var filled := ApplyOrder(o.id);
      if fillOrKill && !filled {
        balances, book, fills, next := balances0, book0, fills0, next - 1;
        return false;
      }
      forall f | f in fills ensures Fair(f) {
        var i :| 0 <= i < |fills| && f == fills[i];
        if i < |fills0| { assert fills[i] == fills0[i]; }
      }
      if o.id in book {
        RestingUncrossed(book, next, o);
      }
      return true;
    }

    /** Cancels an order of the seller, or one that has expired; refunds the rest. */
    method RemoveOrder(seller: Name, id: nat, expired: bool) returns (ok: bool)
      requires Valid()
      modifies this
      ensures Valid()
      ensures ok <==> id in old(book) && (expired || old(book)[id].seller == seller)
      ensures book == if ok then old(book) - {id} else old(book)
      ensures fills == old(fills)
      ensures balances == if ok then var o := old(book)[id];
                Credit(old(balances), o.seller, Asset(o.forSale, o.price.base.symbol)) else old(balances)
      ensures forall s :: Supply(balances, book, s) == old(Supply(balances, book, s))
    {
      hide Crosses, Exchange;
      if id !in book || !(expired || book[id].seller == seller) {
        return false;
      }
      CancelOrder(id);
      return true;
    }

    /**
     After any sequence of operations no two orders in the book cross, every order in it is still
     worth something at its price, every fill ever made was fair, and each asset adds up to what
     it added up to at the start.
     */
    method Run(ops: seq<Op>)
      requires Valid()
      modifies this
      ensures Valid()
      ensures forall s :: Supply(balances, book, s) == old(Supply(balances, book, s))
    {
      hide Supply, OrdersSound, Uncrossed, Solvent, Fair;
      var i := 0;
      while i < |ops|
        invariant 0 <= i <= |ops| && Valid()
        invariant forall s :: Supply(balances, book, s) == old(Supply(balances, book, s))
      {
        match ops[i] {
          case Place(seller, amount, price, fillOrKill) => var _ := PlaceOrder(seller, amount, price, fillOrKill);
          case Cancel(seller, id) => var _ := RemoveOrder(seller, id, false);
          case Expire(id) => var _ := RemoveOrder("", id, true);
        }
        i := i + 1;
      }
    }
  }

  lemma RestingUncrossed(book: Book, next: nat, o: Order)
    requires OrdersSound(book, next) && Uncrossed(book, next) && o.id in book && book[o.id].price == o.price
    ensures forall r | r in book && r != o.id :: !Crosses(o, book[r])
  {
    forall r | r in book && r != o.id ensures !Crosses(o, book[r]) {
      assert !Crosses(book[o.id], book[r]);
    }
  }

  /** The cheapest of the orders that cross the new one. */
  ghost predicate IsFirst(book: Book, newOrder: Order, id: nat) {
    && id in book && id != newOrder.id && Crosses(newOrder, book[id])
    && forall r | r in book && r != newOrder.id && r != id && Crosses(newOrder, book[r]) :: Cheaper(book[id], book[r])
  }

  /** The book after a match in which only the old order went: one crossing order less. */
  lemma PriorityKept(before: Book, after: Book, fills: seq<Fill>, from: nat, newOrder: Order, fill: Fill, old': nat,
      next: nat)
    requires InPriority(fills, from, before, newOrder) && IsFirst(before, newOrder, old')
    requires fill.oldOrder == before[old']
    requires Shrunk(before, after, {newOrder.id, old'}) && newOrder.id in before
    requires OrdersSound(before, next)
    requires forall i | from <= i < |fills| :: fills[i].oldOrder.id !in before
    ensures InPriority(fills + [fill], from, after, newOrder)
  {
    hide Cheaper, Crosses, Sound;
    var all := fills + [fill];
    forall i, j | from <= i < j < |all| ensures Cheaper(all[i].oldOrder, all[j].oldOrder) {
    }
    forall i, r | from <= i < |all| && r in after && r != newOrder.id && Crosses(newOrder, after[r])
      ensures r == all[i].oldOrder.id || Cheaper(all[i].oldOrder, after[r])
    {
      CrossesPrice(newOrder, before[r], after[r]);
      CheaperShrunk(all[i].oldOrder, before[r], after[r]);
    }
  }

  lemma CrossesShrunk(o: Order, o': Order)
    requires o' == o.(forSale := o'.forSale)
    ensures forall x :: Crosses(o', x) <==> Crosses(o, x)
  {
  }

  /** If nothing crosses the one order that was left out, nothing crosses. */
  lemma UncrossedAll(book: Book, id: nat, next: nat)
    requires OrdersSound(book, next) && Uncrossed(book, id) && id in book
    requires forall r | r in book && r != book[id].id :: !Crosses(book[id], book[r])
    ensures Uncrossed(book, next)
  {
    forall i, j | i in book && j in book ensures !Crosses(book[i], book[j]) {
      CrossesSymmetric(book[i], book[j]);
      if i == id && j == id {
        assert ValidPrice(book[id].price);
      }
    }
  }

  lemma GoneUncrossed(book: Book, id: nat, next: nat)
    requires OrdersSound(book, next) && Uncrossed(book, id) && id !in book
    ensures Uncrossed(book, next)
  {
  }

  lemma FewerOrders(before: Book, after: Book, id: nat)
    requires after.Keys <= before.Keys && id in before && id !in after
    ensures |after| < |before|
  {
    assert after.Keys <= before.Keys - {id};
    SubsetSize(after.Keys, before.Keys - {id});
    assert |before.Keys - {id}| == |before.Keys| - 1;
  }

  lemma SubsetSize(a: set<nat>, b: set<nat>)
    requires a <= b
    ensures |a| <= |b|
  {
    assert a + (b - a) == b;
  }

  lemma CheaperShrunk(x: Order, y: Order, y': Order)
    requires y' == y.(forSale := y'.forSale)
    ensures Cheaper(x, y) <==> Cheaper(x, y')
  {
  }

  lemma CrossesPrice(o: Order, x: Order, x': Order)
    requires x' == x.(forSale := x'.forSale)
    ensures Crosses(o, x) <==> Crosses(o, x')
  {
  }

  lemma PlacedUncrossed(book: Book, next: nat, o: Order)
    requires OrdersSound(book, next) && Uncrossed(book, next) && o.id == next && Sound(o)
    ensures OrdersSound(book[next := o], next + 1) && Uncrossed(book[next := o], next)
  {
  }

  lemma SoundAt(book: Book, next: nat, id: nat)
    requires OrdersSound(book, next) && id in book
    ensures Sound(book[id]) && book[id].id == id
  {
  }

  lemma PriorityNone(fills: seq<Fill>, book: Book, newOrder: Order)
    ensures InPriority(fills, |fills|, book, newOrder)
  {
  }

  lemma SoundPrice(o: Order)
    requires Sound(o)
    ensures ValidPrice(o.price) && o.forSale > 0
  {
  }
}
