/**
 The example application's orders and stock. Nothing in ConfirmOrder looks at the order's status: that an order is
 confirmed only once hangs on the outbox's unique key, whose violation rolls the whole transaction back.
 */
module Inventory {
  import opened Prelude

  datatype Stock = Stock(quantity: int, reserved: int)

  datatype OrderStatus = Pending | Confirmed

  datatype Order = Order(id: string, productId: string, quantity: int, status: OrderStatus)

  /**
   Committed state: stock rows, orders in creation order, and the (event_type, idempotency_key) pairs in the outbox.
   */
  datatype Shop = Shop(inventory: map<string, Stock>, orders: seq<Order>, outbox: set<(string, string)>)

  predicate Int32(x: int) { -0x8000_0000 <= x <= 0x7FFF_FFFF }

  /** The table's CHECK constraints and column types. */
  predicate RowAllowed(st: Stock)
  {
    0 <= st.reserved <= st.quantity && Int32(st.quantity) && Int32(st.reserved)
  }

  // ---------- the two transactions, as functions of the committed state ----------

  function Reserved(st: Stock, q: int): Option<Stock>
  {
    var st' := st.(reserved := st.reserved + q);
    if st.quantity - st.reserved >= q && RowAllowed(st') then Some(st') else None
  }

  function Decreased(st: Stock, q: int): Option<Stock>
  {
    var st' := Stock(st.quantity - q, st.reserved - q);
    if st.reserved >= q && RowAllowed(st') then Some(st') else None
  }

  function IndexOf(orders: seq<Order>, id: string): (i: Option<nat>)
    ensures i.Some? ==> i.value < |orders| && orders[i.value].id == id
    ensures i.None? ==> forall k :: 0 <= k < |orders| ==> orders[k].id != id
  {
    if orders == [] then None
    else if orders[|orders| - 1].id == id then Some(|orders| - 1)
    else IndexOf(orders[..|orders| - 1], id)
  }

  function ConfirmedKey(id: string): (string, string) { ("order.confirmed", "order-confirmed-" + id) }

  function CreatedKey(id: string): (string, string) { ("order.created", id) }

  /** None is a rollback: no such product, not enough stock, or a duplicate id or outbox key. */
  function Created(s: Shop, id: string, product: string, q: int): Option<Shop>
  {
    if product !in s.inventory then None
    else match Reserved(s.inventory[product], q)
      case None => None
      case Some(st) =>
        if IndexOf(s.orders, id).Some? || !Int32(q) || CreatedKey(id) in s.outbox then None
        else
          var orders := s.orders + [Order(id, product, q, Pending)];
          Some(Shop(s.inventory[product := st], orders, s.outbox + {CreatedKey(id)}))
  }

  function Confirm(s: Shop, id: string): Option<Shop>
  {
    match IndexOf(s.orders, id)
    case None => None
    case Some(i) =>
      var o := s.orders[i];
      if o.productId !in s.inventory then None
      else match Decreased(s.inventory[o.productId], o.quantity)
        case None => None
        case Some(st) =>
          if ConfirmedKey(id) in s.outbox then None
          else
            var orders := s.orders[i := o.(status := Confirmed)];
            Some(Shop(s.inventory[o.productId := st], orders, s.outbox + {ConfirmedKey(id)}))
  }

  class OrderService {
    var inventory: map<string, Stock>
    var orders: seq<Order>
    var outbox: set<(string, string)>

    function State(): Shop
      reads this
    {
      Shop(inventory, orders, outbox)
    }

    /** Writes go to the transaction and reach the tables only at commit. `commits` is whether the commit succeeds. */
    method CreateOrder(id: string, product: string, q: int, commits: bool) returns (ok: bool)
      modifies this
      ensures ok <==> commits && Created(old(State()), id, product, q).Some?
      ensures State() == if ok then Created(old(State()), id, product, q).value else old(State())
    {
      var tx := State();
      if product !in tx.inventory { return false; }
      var st := Reserved(tx.inventory[product], q);
      if st.None? { return false; }
      tx := tx.(inventory := tx.inventory[product := st.value]);
      if IndexOf(tx.orders, id).Some? || !Int32(q) { return false; }
      tx := tx.(orders := tx.orders + [Order(id, product, q, Pending)]);
      if CreatedKey(id) in tx.outbox { return false; }
      tx := tx.(outbox := tx.outbox + {CreatedKey(id)});
      if !commits { return false; }
      inventory, orders, outbox := tx.inventory, tx.orders, tx.outbox;
      ok := true;
    }

    method ConfirmOrder(id: string, commits: bool) returns (ok: bool)
      modifies this
      ensures ok <==> commits && Confirm(old(State()), id).Some?
      ensures State() == if ok then Confirm(old(State()), id).value else old(State())
    {
      var tx := State();
      var found := IndexOf(tx.orders, id);
      if found.None? { return false; }
      var o := tx.orders[found.value];
      tx := tx.(orders := tx.orders[found.value := o.(status := Confirmed)]);
      if o.productId !in tx.inventory { return false; }
      var st := Decreased(tx.inventory[o.productId], o.quantity);
      if st.None? { return false; }
      tx := tx.(inventory := tx.inventory[o.productId := st.value]);
      if ConfirmedKey(id) in tx.outbox { return false; }
      tx := tx.(outbox := tx.outbox + {ConfirmedKey(id)});
      if !commits { return false; }
      inventory, orders, outbox := tx.inventory, tx.orders, tx.outbox;
      ok := true;
    }
  }

  // ---------- conservation ----------

  /** Total quantity over the product's orders with this status. */
  function Total(orders: seq<Order>, product: string, status: OrderStatus): int
  {
    if orders == [] then 0
    else
      var o := orders[|orders| - 1];
      Total(orders[..|orders| - 1], product, status) +
      if o.productId == product && o.status == status then o.quantity else 0
  }

  lemma {:induction false} TotalAfterUpdate(orders: seq<Order>, i: nat, o': Order, product: string, status: OrderStatus)
    requires i < |orders|
    ensures Total(orders[i := o'], product, status) ==
              Total(orders, product, status)
              - (if orders[i].productId == product && orders[i].status == status then orders[i].quantity else 0)
              + (if o'.productId == product && o'.status == status then o'.quantity else 0)
    decreases |orders|
  {
    var n := |orders| - 1;
    if i < n {
      TotalAfterUpdate(orders[..n], i, o', product, status);
      assert orders[i := o'][..n] == orders[..n][i := o'];
    } else {
      assert orders[i := o'][..n] == orders[..n];
    }
  }

  lemma {:induction false} TotalAfterAppend(orders: seq<Order>, o: Order, product: string, status: OrderStatus)
    ensures Total(orders + [o], product, status) ==
              Total(orders, product, status) + if o.productId == product && o.status == status then o.quantity else 0
  {
    assert (orders + [o])[..|orders|] == orders;
  }

  /** Stock is conserved: reserved is what pending orders hold, and what left is what confirmed orders took. */
  predicate ProductBalanced(s: Shop, initial: map<string, int>, p: string)
  {
    p in s.inventory ==>
      && p in initial
      && s.inventory[p].reserved == Total(s.orders, p, Pending)
      && s.inventory[p].quantity + Total(s.orders, p, Confirmed) == initial[p]
      && 0 <= s.inventory[p].reserved <= s.inventory[p].quantity
  }

  ghost predicate Balanced(s: Shop, initial: map<string, int>)
  {
    forall p :: ProductBalanced(s, initial, p)
  }

  /** Every confirmed order's outbox key is still there. */
  predicate Retained(s: Shop)
  {
    forall i :: 0 <= i < |s.orders| && s.orders[i].status.Confirmed? ==> ConfirmedKey(s.orders[i].id) in s.outbox
  }

  lemma {:induction false} CreateKeepsBalance(s: Shop, initial: map<string, int>, id: string, product: string, q: int)
    requires Balanced(s, initial) && Retained(s) && Created(s, id, product, q).Some?
    ensures Balanced(Created(s, id, product, q).value, initial) && Retained(Created(s, id, product, q).value)
  {
    var s' := Created(s, id, product, q).value;
    forall p ensures ProductBalanced(s', initial, p) {
      assert ProductBalanced(s, initial, p);
      TotalAfterAppend(s.orders, Order(id, product, q, Pending), p, Pending);
      TotalAfterAppend(s.orders, Order(id, product, q, Pending), p, Confirmed);
    }
  }

  /** A confirmation that commits moves its order's quantity from reserved to gone, for any order. */
  lemma {:induction false} ConfirmTotals(s: Shop, id: string, p: string)
    requires Confirm(s, id).Some?
    ensures var s', o := Confirm(s, id).value, s.orders[IndexOf(s.orders, id).value];
            var moved := if o.productId == p && o.status.Pending? then o.quantity else 0;
            && Total(s'.orders, p, Pending) == Total(s.orders, p, Pending) - moved
            && Total(s'.orders, p, Confirmed) == Total(s.orders, p, Confirmed) + moved
  {
    var i := IndexOf(s.orders, id).value;
    var o' := s.orders[i].(status := Confirmed);
    TotalAfterUpdate(s.orders, i, o', p, Pending);
    TotalAfterUpdate(s.orders, i, o', p, Confirmed);
  }

  /**
   Exactly when a committed confirmation keeps the books: the order was still pending, or is for nothing. The code
   never looks at the status, so it is the caller or the outbox key that has to see to it.
   */
  lemma {:induction false} ConfirmBalancedIffPending(s: Shop, initial: map<string, int>, id: string)
    requires Balanced(s, initial) && Confirm(s, id).Some?
    ensures var o := s.orders[IndexOf(s.orders, id).value];
            Balanced(Confirm(s, id).value, initial) <==> o.status.Pending? || o.quantity == 0
  {
    var s', o := Confirm(s, id).value, s.orders[IndexOf(s.orders, id).value];
    forall p ensures p != o.productId || o.status.Pending? || o.quantity == 0 ==> ProductBalanced(s', initial, p) {
      assert ProductBalanced(s, initial, p);
      ConfirmTotals(s, id, p);
    }
    if o.status.Confirmed? && o.quantity != 0 {
      assert ProductBalanced(s, initial, o.productId);
      ConfirmTotals(s, id, o.productId);
      assert !ProductBalanced(s', initial, o.productId);
    }
  }

  /** While keys are retained, only pending orders can be confirmed. */
  lemma {:induction false} ConfirmOnlyPending(s: Shop, id: string)
    requires Retained(s) && Confirm(s, id).Some?
    ensures s.orders[IndexOf(s.orders, id).value].status.Pending?
    ensures Retained(Confirm(s, id).value)
  {
  }

  // ---------- when the transactions go through ----------

  /** Orders are for something, and the stock's numbers fit their columns. */
  predicate Sane(s: Shop)
  {
    && (forall i :: 0 <= i < |s.orders| ==> s.orders[i].quantity > 0)
    && (forall p :: p in s.inventory ==> Int32(s.inventory[p].quantity))
  }

  /** An order is accepted if and only if its product has that much unreserved stock and its id is new. */
  lemma {:induction false} CreateSucceedsIff(s: Shop, initial: map<string, int>, id: string, product: string, q: int)
    requires Balanced(s, initial) && Sane(s) && 0 < q
    ensures Created(s, id, product, q).Some? <==>
              && product in s.inventory && q <= s.inventory[product].quantity - s.inventory[product].reserved
              && (forall i :: 0 <= i < |s.orders| ==> s.orders[i].id != id) && ("order.created", id) !in s.outbox
  {
    assert ProductBalanced(s, initial, product);
  }

  lemma {:induction false} TotalIsNonNegative(orders: seq<Order>, p: string, status: OrderStatus)
    requires forall i :: 0 <= i < |orders| ==> orders[i].quantity > 0
    ensures Total(orders, p, status) >= 0
  {
    if orders == [] {
    } else {
      TotalIsNonNegative(orders[..|orders| - 1], p, status);
    }
  }

  /** What an order holds is part of the total. */
  lemma {:induction false} TotalCovers(orders: seq<Order>, i: nat)
    requires i < |orders| && forall k :: 0 <= k < |orders| ==> orders[k].quantity > 0
    ensures orders[i].quantity <= Total(orders, orders[i].productId, orders[i].status)
  {
    var n := |orders| - 1;
    TotalIsNonNegative(orders[..n], orders[i].productId, orders[i].status);
    if i == n {
    } else {
      TotalCovers(orders[..n], i);
    }
  }

  /**
   While keys are retained, an order can be confirmed if and only if it exists, is pending, its product is still listed
   and no order.confirmed row carries its key.
   */
  lemma {:induction false} ConfirmSucceedsIff(s: Shop, initial: map<string, int>, id: string)
    requires Balanced(s, initial) && Sane(s) && Retained(s)
    ensures Confirm(s, id).Some? <==>
              && IndexOf(s.orders, id).Some?
              && var o := s.orders[IndexOf(s.orders, id).value];
                 && o.status.Pending? && o.productId in s.inventory
                 && ("order.confirmed", "order-confirmed-" + id) !in s.outbox
  {
    var i := IndexOf(s.orders, id);
    if i.Some? {
      TotalCovers(s.orders, i.value);
      assert ProductBalanced(s, initial, s.orders[i.value].productId);
    }
  }

  /** Different orders have different keys. */
  lemma {:induction false} KeysDiffer(a: string, b: string)
    requires a != b
    ensures ConfirmedKey(a) != ConfirmedKey(b) && CreatedKey(a) != CreatedKey(b)
    ensures forall x, y :: ConfirmedKey(x) != CreatedKey(y)
  {
    var prefix := "order-confirmed-";
    assert (prefix + a)[|prefix|..] == a && (prefix + b)[|prefix|..] == b;
    forall x, y ensures ConfirmedKey(x) != CreatedKey(y) { assert ConfirmedKey(x).0 != CreatedKey(y).0; }
  }

  /** Confirming one order never stops another from being confirmed. */
  lemma {:induction false} ConfirmationsAreIndependent(s: Shop, initial: map<string, int>, a: string, b: string)
    requires Balanced(s, initial) && Sane(s) && Retained(s) && a != b
    requires Confirm(s, a).Some? && Confirm(s, b).Some?
    ensures Confirm(Confirm(s, a).value, b).Some?
  {
    var s' := Confirm(s, a).value;
    var i, j := IndexOf(s.orders, a).value, IndexOf(s.orders, b).value;
    ConfirmOnlyPending(s, a);
    ConfirmBalancedIffPending(s, initial, a);
    ConfirmSucceedsIff(s, initial, b);
    KeysDiffer(a, b);
    SameIndex(s.orders, i, s.orders[i].(status := Confirmed), b);
    assert s'.orders[j] == s.orders[j];
    assert Sane(s');
    ConfirmSucceedsIff(s', initial, b);
  }

  lemma {:induction false} SameIndex(orders: seq<Order>, i: nat, o: Order, id: string)
    requires i < |orders| && o.id == orders[i].id
    ensures IndexOf(orders[i := o], id) == IndexOf(orders, id)
  {
    if orders[|orders| - 1].id == id {
    } else if i == |orders| - 1 {
      assert orders[i := o][..|orders| - 1] == orders[..|orders| - 1];
    } else {
      assert orders[i := o][..|orders| - 1] == orders[..|orders| - 1][i := o];
      SameIndex(orders[..|orders| - 1], i, o, id);
    }
  }

  // ---------- runs ----------

  datatype Step =
    | Create(id: string, product: string, quantity: int)
    | ConfirmOrder(id: string)
    | Clean(keys: set<(string, string)>)

  function Apply(s: Shop, step: Step): Shop
  {
    match step
    case Create(id, product, q) => var r := Created(s, id, product, q); if r.Some? then r.value else s
    case ConfirmOrder(id) => var r := Confirm(s, id); if r.Some? then r.value else s
    case Clean(keys) => s.(outbox := s.outbox - keys)
  }

  function Final(s: Shop, run: seq<Step>): Shop
    decreases |run|
  {
    if run == [] then s else Final(Apply(s, run[0]), run[1..])
  }

  /** Cleaning the outbox spares order.confirmed rows. */
  predicate KeepsConfirmed(run: seq<Step>)
  {
    forall i, k :: 0 <= i < |run| && run[i].Clean? && k in run[i].keys ==> k.0 != "order.confirmed"
  }

  /** How often the run confirms this order. */
  function Confirmations(s: Shop, run: seq<Step>, id: string): nat
    decreases |run|
  {
    if run == [] then 0
    else
      (if run[0] == ConfirmOrder(id) && Confirm(s, id).Some? then 1 else 0) +
      Confirmations(Apply(s, run[0]), run[1..], id)
  }

  lemma {:induction false} StepKeepsBooks(s: Shop, initial: map<string, int>, step: Step)
    requires Balanced(s, initial) && Retained(s) && KeepsConfirmed([step])
    ensures Balanced(Apply(s, step), initial) && Retained(Apply(s, step))
    ensures forall k: (string, string) :: k.0 == "order.confirmed" && k in s.outbox ==> k in Apply(s, step).outbox
  {
    match step
    case Create(id, product, q) =>
      if Created(s, id, product, q).Some? { CreateKeepsBalance(s, initial, id, product, q); }
    case ConfirmOrder(id) =>
      if Confirm(s, id).Some? {
        ConfirmOnlyPending(s, id);
        ConfirmBalancedIffPending(s, initial, id);
      }
    case Clean(keys) =>
      assert [step][0] == step;
      forall p ensures ProductBalanced(Apply(s, step), initial, p) { assert ProductBalanced(s, initial, p); }
  }

  lemma {:induction false} ConfirmationsStop(s: Shop, initial: map<string, int>, run: seq<Step>, id: string)
    requires Balanced(s, initial) && Retained(s) && KeepsConfirmed(run)
    requires ConfirmedKey(id) in s.outbox
    ensures Confirmations(s, run, id) == 0
    decreases |run|
  {
    if run == [] {
    } else {
      assert KeepsConfirmed([run[0]]);
      StepKeepsBooks(s, initial, run[0]);
      ConfirmationsStop(Apply(s, run[0]), initial, run[1..], id);
    }
  }

  /**
   In every run that spares order.confirmed outbox rows, stock is conserved for every product, whatever quantities are
   asked for, and each order is confirmed at most once.
   */
  lemma {:induction false} RunConservesStock(s: Shop, initial: map<string, int>, run: seq<Step>, id: string)
    requires Balanced(s, initial) && Retained(s) && KeepsConfirmed(run)
    ensures Balanced(Final(s, run), initial)
    ensures Confirmations(s, run, id) <= 1
    decreases |run|
  {
    if run == [] {
    } else {
      var s' := Apply(s, run[0]);
      assert KeepsConfirmed([run[0]]);
      StepKeepsBooks(s, initial, run[0]);
      RunConservesStock(s', initial, run[1..], id);
      if run[0] == ConfirmOrder(id) && Confirm(s, id).Some? {
        ConfirmationsStop(s', initial, run[1..], id);
      }
    }
  }

  /**
   Every order has its order.created event and is confirmed exactly if it has its order.confirmed event; there are no
   other order.confirmed events, and no id is used twice.
   */
  ghost predicate Announced(s: Shop)
  {
    && (forall o :: o in s.orders ==> ("order.created", o.id) in s.outbox)
    && (forall o :: o in s.orders ==>
          (o.status.Confirmed? <==> ("order.confirmed", "order-confirmed-" + o.id) in s.outbox))
    && (forall k :: k in s.outbox && k.0 == "order.confirmed" ==>
          exists o :: o in s.orders && k == ("order.confirmed", "order-confirmed-" + o.id))
    && (forall i, j :: 0 <= i < j < |s.orders| ==> s.orders[i].id != s.orders[j].id)
  }

  lemma {:induction false} CreateAnnounces(s: Shop, id: string, product: string, q: int)
    requires Announced(s) && Created(s, id, product, q).Some?
    ensures Announced(Created(s, id, product, q).value)
  {
    var s' := Created(s, id, product, q).value;
    var added := Order(id, product, q, Pending);
    assert s'.orders == s.orders + [added];
    forall o | o in s.orders ensures o.id != id { }
    if ConfirmedKey(id) in s.outbox {
      var o :| o in s.orders && ConfirmedKey(id) == ("order.confirmed", "order-confirmed-" + o.id);
      KeysDiffer(id, o.id);
      assert false;
    }
    assert ConfirmedKey(id).0 != CreatedKey(id).0;
    forall k | k in s'.outbox && k.0 == "order.confirmed"
      ensures exists o :: o in s'.orders && k == ("order.confirmed", "order-confirmed-" + o.id)
    {
      var o :| o in s.orders && k == ("order.confirmed", "order-confirmed-" + o.id);
      assert o in s'.orders;
    }
  }

  lemma {:induction false} ConfirmAnnounces(s: Shop, id: string)
    requires Announced(s) && Confirm(s, id).Some?
    ensures Announced(Confirm(s, id).value)
  {
    var s', i := Confirm(s, id).value, IndexOf(s.orders, id).value;
    forall o | o in s'.orders
      ensures ("order.created", o.id) in s'.outbox
      ensures o.status.Confirmed? <==> ("order.confirmed", "order-confirmed-" + o.id) in s'.outbox
    {
      var j :| 0 <= j < |s'.orders| && s'.orders[j] == o;
      assert s.orders[j] in s.orders && s.orders[j].id == o.id;
      if j != i {
        assert o.id != id;
        KeysDiffer(o.id, id);
      }
    }
    forall k | k in s'.outbox && k.0 == "order.confirmed"
      ensures exists o :: o in s'.orders && k == ("order.confirmed", "order-confirmed-" + o.id)
    {
      ConfirmedEventHasOrder(s, id, i, k);
    }
  }

  lemma {:induction false} ConfirmedEventHasOrder(s: Shop, id: string, i: nat, k: (string, string))
    requires Announced(s) && Confirm(s, id).Some? && IndexOf(s.orders, id) == Some(i)
    requires k in Confirm(s, id).value.outbox && k.0 == "order.confirmed"
    ensures exists o :: o in Confirm(s, id).value.orders && k == ("order.confirmed", "order-confirmed-" + o.id)
  {
    var s' := Confirm(s, id).value;
    if k == ConfirmedKey(id) {
      assert s'.orders[i] in s'.orders && s'.orders[i].id == id;
    } else {
      var o :| o in s.orders && k == ("order.confirmed", "order-confirmed-" + o.id);
      var j :| 0 <= j < |s.orders| && s.orders[j] == o;
      assert s'.orders[j] in s'.orders && s'.orders[j].id == o.id;
    }
  }

  lemma {:induction false} StepAnnounces(s: Shop, step: Step)
    requires Announced(s) && !step.Clean?
    ensures Announced(Apply(s, step))
  {
    match step
    case Create(id, product, q) =>
      if Created(s, id, product, q).Some? { CreateAnnounces(s, id, product, q); }
    case ConfirmOrder(id) =>
      if Confirm(s, id).Some? { ConfirmAnnounces(s, id); }
  }

  /** In every run that deletes no outbox rows, orders and events tell the same story. */
  lemma {:induction false} RunAnnounces(s: Shop, run: seq<Step>)
    requires Announced(s) && forall i :: 0 <= i < |run| ==> !run[i].Clean?
    ensures Announced(Final(s, run))
    decreases |run|
  {
    if run == [] {
    } else {
      StepAnnounces(s, run[0]);
      RunAnnounces(Apply(s, run[0]), run[1..]);
    }
  }

  /**
   Deleting an order.confirmed outbox row breaks this: of two orders for the same product, one confirmed and one
   pending for at least as much, the confirmed one can be confirmed again and takes the other's stock.
   */
  lemma {:induction false} CleaningAllowsSecondConfirmation(s: Shop, initial: map<string, int>, id: string)
    requires Balanced(s, initial) && IndexOf(s.orders, id).Some?
    requires var o := s.orders[IndexOf(s.orders, id).value];
             && o.status.Confirmed? && o.quantity > 0
             && o.productId in s.inventory && s.inventory[o.productId].reserved >= o.quantity
             && RowAllowed(s.inventory[o.productId])
    ensures var cleaned := Apply(s, Clean({ConfirmedKey(id)}));
            Confirm(cleaned, id).Some? && !Balanced(Apply(cleaned, ConfirmOrder(id)), initial)
  {
    var cleaned := Apply(s, Clean({ConfirmedKey(id)}));
    forall p ensures ProductBalanced(cleaned, initial, p) { assert ProductBalanced(s, initial, p); }
    ConfirmBalancedIffPending(cleaned, initial, id);
  }

  /** Ten pieces on the shelf, two orders for five, the first of them confirmed. */
  function HalfConfirmed(p: string): Shop
  {
    var shelf := Shop(map[p := Stock(10, 0)], [], {});
    var ordered := Apply(Apply(shelf, Create("a", p, 5)), Create("b", p, 5));
    Apply(ordered, ConfirmOrder("a"))
  }

  lemma {:induction false} OneOfTwoConfirmed(p: string)
    ensures var s := HalfConfirmed(p);
            s.inventory == map[p := Stock(5, 5)] && s.orders == [Order("a", p, 5, Confirmed), Order("b", p, 5, Pending)]
  {
    var a, b := Order("a", p, 5, Pending), Order("b", p, 5, Pending);
    var s1 := Apply(Shop(map[p := Stock(10, 0)], [], {}), Create("a", p, 5));
    assert s1 == Shop(map[p := Stock(10, 5)], [a], {CreatedKey("a")});
    var s2 := Apply(s1, Create("b", p, 5));
    assert s2 == Shop(map[p := Stock(10, 10)], [a, b], {CreatedKey("a"), CreatedKey("b")});
    assert s2.orders[..1] == [a] && IndexOf([a], "a") == Some(0) && IndexOf(s2.orders, "a") == Some(0);
    assert ConfirmedKey("a").0 != CreatedKey("a").0;
  }

  /** So a second confirmation does happen once the first one's outbox row is cleaned up. */
  lemma {:induction false} SecondConfirmationHappens(p: string)
    ensures var s := HalfConfirmed(p);
            && Balanced(s, map[p := 10])
            && !Balanced(Apply(Apply(s, Clean({ConfirmedKey("a")})), ConfirmOrder("a")), map[p := 10])
  {
    OneOfTwoConfirmed(p);
    var s := HalfConfirmed(p);
    Reconfirm(s, p);
  }

  lemma {:induction false} Reconfirm(s: Shop, p: string)
    requires s.inventory == map[p := Stock(5, 5)]
    requires s.orders == [Order("a", p, 5, Confirmed), Order("b", p, 5, Pending)]
    ensures Balanced(s, map[p := 10])
    ensures !Balanced(Apply(Apply(s, Clean({ConfirmedKey("a")})), ConfirmOrder("a")), map[p := 10])
  {
    var initial := map[p := 10];
    forall q ensures ProductBalanced(s, initial, q) { TwoOrders(s.orders, q); }
    assert s.orders[..1] == [s.orders[0]] && IndexOf(s.orders[..1], "a") == Some(0) &&
      IndexOf(s.orders, "a") == Some(0);
    CleaningAllowsSecondConfirmation(s, initial, "a");
  }

  lemma {:induction false} TwoOrders(orders: seq<Order>, p: string)
    requires |orders| == 2
    ensures forall status :: Total(orders, p, status) ==
              (if orders[0].productId == p && orders[0].status == status then orders[0].quantity else 0) +
              (if orders[1].productId == p && orders[1].status == status then orders[1].quantity else 0)
  {
    forall status ensures Total(orders[..1], p, status) ==
                            if orders[0].productId == p && orders[0].status == status then orders[0].quantity else 0
    {
      assert orders[..1][..0] == [];
    }
  }
}
