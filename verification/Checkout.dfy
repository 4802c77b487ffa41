/** Orders, provider transactions and promocode reservations. Each operation is
    one database transaction; a refused operation is rolled back. */
module Checkout {
  import opened Prelude
  import opened Enrolling

  type Time = int
  type OrderId = nat
  type PromoId = nat

  datatype OrderStatus = Pending | Processing | Paid | Cancelled | Refunded | Failed

  datatype TxnState = Created | Performed | Reversed | Voided

  datatype Provider = Card | Payme

  datatype Item = CourseItem(course: CourseId) | ProgramItem(program: ProgramId)

  datatype Order = Order(user: UserId, item: Item, amount: int, original: Option<int>, discount: int,
                         promo: Option<PromoId>, status: OrderStatus, provider: Option<Provider>,
                         paidAt: Option<Time>, cancelledAt: Option<Time>)

  /** Voided is the stored state CANCELLED. */
  datatype Txn = Txn(order: OrderId, provider: Provider, key: string, createTime: Option<nat>, state: TxnState,
                     amount: int, performTime: Option<Time>, cancelTime: Option<Time>, reason: Option<int>)

  datatype DiscountKind = Percent | Fixed

  datatype Promo = Promo(course: CourseId, code: string, kind: DiscountKind, value: int, maxUses: int, uses: int,
                         expiresAt: Option<Time>, active: bool)

  /** The tables. A row's id is its position; a deleted promocode leaves None. */
  datatype Store = Store(orders: seq<Order>, txns: seq<Txn>, promos: seq<Option<Promo>>, roster: Roster)

  datatype Error =
    | NotFound | FreeItem | PromoNotApplicable | PromoNotFound | PromoWrongCourse | PromoInactive | PromoExpired
    | PromoExhausted | PromoMakesFree | WrongState | CardRejected | ProviderFailed | Forbidden | PromoInvalid
    | PromoCodeTaken | Internal | Rpc(code: int)

  const ERR_INVALID_AMOUNT := -31001
  const ERR_TXN_NOT_FOUND := -31003
  const ERR_CANT_PERFORM := -31008
  const ERR_INVALID_ACCOUNT := -31050
  const ERR_INTERNAL := -32400

  datatype Reply =
    | Refused(error: Error)
    | Done
    | OrderReply(order: OrderId)
    | TxnReply(txn: nat, at: int, state: int)

  // ---------- Promocodes ----------

  /** What is shaved off the price, clipped to [0, price]. */
  function Discount(kind: DiscountKind, value: int, price: int): (d: int)
    ensures 0 <= d <= Max(0, price)
    ensures price > 0 && kind.Percent? && 0 <= value <= 100 ==> d * 100 <= price * value < (d + 1) * 100
    ensures price > 0 && kind.Percent? && value > 100 ==> d == price
    ensures price > 0 && kind.Fixed? && 0 <= value <= price ==> d == value
    ensures price > 0 && kind.Fixed? && value > price ==> d == price
    ensures value < 0 ==> d == 0
  {
    if price <= 0 then 0
    else
      var raw := if kind.Percent? then (price * value) / 100 else value;
      Max(0, Min(raw, price))
  }

  predicate Expired(p: Promo, now: Time) { p.expiresAt.Some? && p.expiresAt.value <= now }

  /** The code a buyer typed, if it is valid for this course right now. */
  function FindActive(promos: seq<Option<Promo>>, code: string, course: CourseId, now: Time)
    : (r: Result<PromoId, Error>)
    ensures r.Ok? ==>
              && Reservable(promos, r.value, now)
              && promos[r.value].value.code == code && promos[r.value].value.course == course
  {
    match First(promos, (p: Option<Promo>) => p.Some? && p.value.code == code)
    case None => Err(PromoNotFound)
    case Some(i) =>
      var p := promos[i].value;
      if p.course != course then Err(PromoWrongCourse)
      else if !p.active then Err(PromoInactive)
      else if Expired(p, now) then Err(PromoExpired)
      else if p.uses >= p.maxUses then Err(PromoExhausted)
      else Ok(i)
  }

  predicate Reservable(promos: seq<Option<Promo>>, id: PromoId, now: Time) {
    && id < |promos| && promos[id].Some?
    && promos[id].value.active
    && promos[id].value.uses < promos[id].value.maxUses
    && !Expired(promos[id].value, now)
  }

  function WithUses(promos: seq<Option<Promo>>, id: PromoId, change: int): (ps: seq<Option<Promo>>)
    requires id < |promos| && promos[id].Some?
    ensures |ps| == |promos|
  {
    promos[id := Some(promos[id].value.(uses := promos[id].value.uses + change))]
  }

  function Release(promos: seq<Option<Promo>>, id: PromoId): (ps: seq<Option<Promo>>)
    ensures |ps| == |promos|
  {
    if id < |promos| && promos[id].Some? && promos[id].value.uses > 0 then WithUses(promos, id, -1) else promos
  }

  function ReleaseIf(promos: seq<Option<Promo>>, id: Option<PromoId>): (ps: seq<Option<Promo>>)
    ensures |ps| == |promos|
  {
    if id.Some? then Release(promos, id.value) else promos
  }

  function ReserveIf(promos: seq<Option<Promo>>, id: Option<PromoId>, now: Time): Option<seq<Option<Promo>>> {
    if id.None? then Some(promos)
    else if Reservable(promos, id.value, now) then Some(WithUses(promos, id.value, 1))
    else None
  }

  /** Deleting a promocode row nulls every order's reference to it. */
  function Detach(orders: seq<Order>, id: PromoId): (os: seq<Order>)
    ensures |os| == |orders|
  {
    seq(|orders|, i requires 0 <= i < |orders| =>
      if orders[i].promo == Some(id) then orders[i].(promo := None) else orders[i])
  }

  function CreatePromo(s: Store, cat: Catalog, owns: bool, course: CourseId, code: string, kind: DiscountKind,
                       value: int, expiresAt: Option<Time>, now: Time): (Store, Reply)
  {
    if course !in cat.courses then (s, Refused(NotFound))
    else if !owns then (s, Refused(Forbidden))
    else if cat.courses[course].price == 0 || (kind.Fixed? && value >= cat.courses[course].price)
         || (kind.Percent? && value >= 100) || (expiresAt.Some? && expiresAt.value <= now) || value < 1 then
      (s, Refused(PromoInvalid))
    else if First(s.promos, (p: Option<Promo>) => p.Some? && p.value.code == code).Some? then
      (s, Refused(PromoCodeTaken))
    else (s.(promos := s.promos + [Some(Promo(course, code, kind, value, 1, 0, expiresAt, true))]), Done)
  }

  /** Delete an unused code, deactivate a used one. */
  function RevokePromo(s: Store, owns: bool, id: PromoId): (Store, Reply) {
    if id >= |s.promos| || s.promos[id].None? then (s, Refused(NotFound))
    else if !owns then (s, Refused(Forbidden))
    else if s.promos[id].value.uses > 0 then
      (s.(promos := s.promos[id := Some(s.promos[id].value.(active := false))]), Done)
    else (s.(promos := s.promos[id := None], orders := Detach(s.orders, id)), Done)
  }

  // ---------- Orders ----------

  datatype Quote = Quote(price: int, promo: Option<PromoId>, discount: int)

  /** The item's current price and the promocode's effect on it; "" is no code. */
  function PriceOf(cat: Catalog, item: Item, code: string): (r: Result<int, Error>)
    ensures r.Ok? ==> r.value > 0 && (code == "" || item.CourseItem?)
  {
    match item
    case CourseItem(c) =>
      if !cat.OpenCourse(c) then Err(NotFound)
      else if cat.courses[c].price == 0 then Err(FreeItem)
      else Ok(cat.courses[c].price)
    case ProgramItem(p) =>
      if code != "" then Err(PromoNotApplicable)
      else if !cat.OpenProgram(p) then Err(NotFound)
      else if cat.programs[p].price == 0 then Err(FreeItem)
      else Ok(cat.programs[p].price)
  }

  function QuoteFor(s: Store, cat: Catalog, item: Item, code: string, now: Time): (r: Result<Quote, Error>)
    ensures r.Ok? ==> r.value.price - r.value.discount > 0 && r.value.discount >= 0
    ensures r.Ok? && r.value.promo.Some? ==> r.value.promo.value < |s.promos| && s.promos[r.value.promo.value].Some?
    ensures r.Ok? && r.value.promo.None? ==> r.value.discount == 0
  {
    match PriceOf(cat, item, code)
    case Err(e) => Err(e)
    case Ok(price) =>
      if code == "" then Ok(Quote(price, None, 0))
      else
        match FindActive(s.promos, code, item.course, now)
        case Err(e) => Err(e)
        case Ok(p) =>
          var d := Discount(s.promos[p].value.kind, s.promos[p].value.value, price);
          if price - d <= 0 then Err(PromoMakesFree) else Ok(Quote(price, Some(p), d))
  }

  function Priced(o: Order, q: Quote): Order {
    o.(amount := q.price - q.discount, discount := q.discount, promo := q.promo,
       original := if q.promo.Some? then Some(q.price) else None)
  }

  function Blank(user: UserId, item: Item): Order {
    Order(user, item, 0, None, 0, None, Pending, None, None, None)
  }

  function FindPending(orders: seq<Order>, user: UserId, item: Item): (r: Option<nat>)
    ensures r.Some? ==> r.value < |orders| && orders[r.value].user == user
                        && orders[r.value].status == Pending && orders[r.value].item == item
    ensures r.None? ==> forall i :: 0 <= i < |orders| ==>
              !(orders[i].user == user && orders[i].status == Pending && orders[i].item == item)
  {
    First(orders, (o: Order) => o.user == user && o.status == Pending && o.item == item)
  }

  /** Create an order, or reprice the buyer's pending one. The clock is read once
      for the lookup and again, no earlier, for the reservation. */
  function CreateOrder(s: Store, cat: Catalog, user: UserId, item: Item, code: string, now: Time, later: Time)
    : (Store, Reply)
  {
    match QuoteFor(s, cat, item, code, now)
    case Err(e) => (s, Refused(e))
    case Ok(q) =>
      match FindPending(s.orders, user, item)
      case Some(i) =>
        if s.orders[i].promo == q.promo then (s, OrderReply(i))
        else
          (match ReserveIf(ReleaseIf(s.promos, s.orders[i].promo), q.promo, later)
           case None => (s, Refused(PromoExhausted))
           case Some(ps) => (s.(promos := ps, orders := s.orders[i := Priced(s.orders[i], q)]), OrderReply(i)))
      case None =>
        match ReserveIf(s.promos, q.promo, later)
        case None => (s, Refused(PromoExhausted))
        case Some(ps) =>
          (s.(promos := ps, orders := s.orders + [Priced(Blank(user, item), q)]), OrderReply(|s.orders|))
  }

  function CancelOrder(s: Store, user: UserId, id: OrderId, now: Time): (Store, Reply) {
    if id >= |s.orders| || s.orders[id].user != user then (s, Refused(NotFound))
    else if !s.orders[id].status.Pending? && !s.orders[id].status.Processing? then (s, Refused(WrongState))
    else
      (s.(promos := ReleaseIf(s.promos, s.orders[id].promo),
          orders := s.orders[id := s.orders[id].(status := Cancelled, cancelledAt := Some(now))]), OrderReply(id))
  }

  /** Enroll the buyer in what was bought. */
  function Grant(r: Roster, cat: Catalog, o: Order): Result<Roster, EnrollError> {
    match o.item
    case CourseItem(c) => Enroll(r, cat, o.user, c)
    case ProgramItem(p) => EnrollInProgram(r, cat, o.user, p)
  }

  function FindTxn(txns: seq<Txn>, key: string): (r: Option<nat>)
    ensures r.Some? ==> r.value < |txns| && txns[r.value].key == key
    ensures r.None? ==> forall k :: 0 <= k < |txns| ==> txns[k].key != key
  {
    First(txns, (t: Txn) => t.key == key)
  }

  /** Charge a verified card; `receipt` is what the provider returned, None on any failure. */
  function PayWithCard(s: Store, cat: Catalog, user: UserId, id: OrderId, cardOk: bool, receipt: Option<string>,
                       now: Time)
    : (Store, Reply)
  {
    if id >= |s.orders| || s.orders[id].user != user then (s, Refused(NotFound))
    else if !s.orders[id].status.Pending? then (s, Refused(WrongState))
    else if !cardOk then (s, Refused(CardRejected))
    else if receipt.None? then (s, Refused(ProviderFailed))
    else if FindTxn(s.txns, receipt.value).Some? then (s, Refused(Internal))
    else
      var o := s.orders[id];
      match Grant(s.roster, cat, o)
      case Err(_) => (s, Refused(NotFound))
      case Ok(roster) =>
        (Store(s.orders[id := o.(status := Paid, provider := Some(Card), paidAt := Some(now))],
               s.txns + [Txn(id, Card, receipt.value, None, Performed, o.amount, Some(now), None, None)],
               s.promos, roster),
         TxnReply(|s.txns|, Millis(now), 2))
  }

  function PayWithPayme(s: Store, user: UserId, id: OrderId, configured: bool): (Store, Reply) {
    if id >= |s.orders| || s.orders[id].user != user then (s, Refused(NotFound))
    else if !s.orders[id].status.Pending? then (s, Refused(WrongState))
    else if !configured then (s, Refused(ProviderFailed))
    else (s.(orders := s.orders[id := s.orders[id].(provider := Some(Payme))]), OrderReply(id))
  }

  // ---------- Payme merchant callbacks ----------

  /** int(timestamp() * 1000), truncated toward zero, of a time in microseconds after the epoch. */
  function Millis(t: Time): (m: int)
    ensures t >= 0 ==> m * 1000 <= t < (m + 1) * 1000
    ensures t < 0 ==> (m - 1) * 1000 < t <= m * 1000
  {
    if t >= 0 then t / 1000 else -((-t) / 1000)
  }

  function MillisOr0(t: Option<Time>): int { if t.Some? then Millis(t.value) else 0 }

  /** CheckPerformTransaction; `account` is None when order_id is missing or not a UUID. */
  function RpcCheckPerform(s: Store, account: Option<OrderId>, amount: int): Reply {
    if account.None? || account.value >= |s.orders| then Refused(Rpc(ERR_INVALID_ACCOUNT))
    else if amount != s.orders[account.value].amount then Refused(Rpc(ERR_INVALID_AMOUNT))
    else if !s.orders[account.value].status.Pending? then Refused(Rpc(ERR_INVALID_ACCOUNT))
    else Done
  }

  function RpcCreate(s: Store, account: Option<OrderId>, amount: int, key: string, time: nat): (Store, Reply) {
    if account.None? || account.value >= |s.orders| || key == "" then (s, Refused(Rpc(ERR_INVALID_ACCOUNT)))
    else
      var id := account.value;
      if amount != s.orders[id].amount then (s, Refused(Rpc(ERR_INVALID_AMOUNT)))
      else
        match FindTxn(s.txns, key)
        case Some(k) =>
          var t := s.txns[k];
          if !t.state.Created? then (s, Refused(Rpc(ERR_CANT_PERFORM)))
          else (s, TxnReply(k, if t.createTime.Some? && t.createTime.value != 0 then t.createTime.value else time, 1))
        case None =>
          if !s.orders[id].status.Pending? then (s, Refused(Rpc(ERR_INVALID_ACCOUNT)))
          else
            (s.(txns := s.txns + [Txn(id, Payme, key, Some(time), Created, amount, None, None, None)],
                orders := s.orders[id := s.orders[id].(status := Processing, provider := Some(Payme))]),
             TxnReply(|s.txns|, time, 1))
  }

  function RpcPerform(s: Store, cat: Catalog, key: string, now: Time): (Store, Reply) {
    match if key == "" then None else FindTxn(s.txns, key)
    case None => (s, Refused(Rpc(ERR_TXN_NOT_FOUND)))
    case Some(k) =>
      var t := s.txns[k];
      if t.state.Performed? then (s, TxnReply(k, MillisOr0(t.performTime), 2))
      else if !t.state.Created? then (s, Refused(Rpc(ERR_CANT_PERFORM)))
      else if t.order >= |s.orders| then (s, Refused(Rpc(ERR_INTERNAL)))
      else
        var o := s.orders[t.order];
        match Grant(s.roster, cat, o)
        case Err(_) => (s, Refused(Rpc(ERR_INTERNAL)))
        case Ok(roster) =>
          (Store(s.orders[t.order := o.(status := Paid, paidAt := Some(now))],
                 s.txns[k := t.(state := Performed, performTime := Some(now))],
                 s.promos, roster),
           TxnReply(k, Millis(now), 2))
  }

  /** Before performance the reservation is released; after it the code stays consumed. */
  function RpcCancel(s: Store, key: string, reason: int, now: Time): (Store, Reply) {
    match if key == "" then None else FindTxn(s.txns, key)
    case None => (s, Refused(Rpc(ERR_TXN_NOT_FOUND)))
    case Some(k) =>
      var t := s.txns[k];
      if t.state.Voided? then (s, TxnReply(k, MillisOr0(t.cancelTime), -1))
      else if t.state.Reversed? then (s, TxnReply(k, MillisOr0(t.cancelTime), -2))
      else if t.order >= |s.orders| then (s, Refused(Rpc(ERR_INTERNAL)))
      else
        var o := s.orders[t.order];
        if t.state.Performed? then
          (s.(txns := s.txns[k := t.(state := Reversed, cancelTime := Some(now), reason := Some(reason))],
              orders := s.orders[t.order := o.(status := Refunded)]),
           TxnReply(k, Millis(now), -2))
        else
          (s.(txns := s.txns[k := t.(state := Voided, cancelTime := Some(now), reason := Some(reason))],
              orders := s.orders[t.order := o.(status := Cancelled, cancelledAt := Some(now))],
              promos := ReleaseIf(s.promos, o.promo)),
           TxnReply(k, Millis(now), -1))
  }

  function StateCode(state: TxnState): int {
    match state case Created => 1 case Performed => 2 case Voided => -1 case Reversed => -2
  }

  /** CheckTransaction, reduced to the transaction's id, creation time and state. */
  function RpcCheck(s: Store, key: string): Reply {
    match if key == "" then None else FindTxn(s.txns, key)
    case None => Refused(Rpc(ERR_TXN_NOT_FOUND))
    case Some(k) =>
      TxnReply(k, if s.txns[k].createTime.Some? then s.txns[k].createTime.value else 0, StateCode(s.txns[k].state))
  }

  // ---------- The stored tables ----------

  class Database {
    var orders: seq<Order>
    var txns: seq<Txn>
    var promos: seq<Option<Promo>>
    const roster: Enrollments

    constructor (roster: Enrollments)
      ensures this.roster == roster && Tables() == Store([], [], [], roster.State())
    {
      orders, txns, promos := [], [], [];
      this.roster := roster;
    }

    ghost function Tables(): Store
      reads this, roster
    {
      Store(orders, txns, promos, roster.State())
    }

    method TryReserve(id: PromoId, now: Time) returns (ok: bool)
      modifies this`promos
      ensures ok <==> Reservable(old(promos), id, now)
      ensures promos == if ok then WithUses(old(promos), id, 1) else old(promos)
    {
      ok := Reservable(promos, id, now);
      if ok {
        promos := promos[id := Some(promos[id].value.(uses := promos[id].value.uses + 1))];
      }
    }

    method ReleaseUse(id: PromoId)
      modifies this`promos
      ensures promos == Release(old(promos), id)
    {
      if id < |promos| && promos[id].Some? && promos[id].value.uses > 0 {
        promos := promos[id := Some(promos[id].value.(uses := promos[id].value.uses - 1))];
      }
    }

    method PlaceOrder(cat: Catalog, user: UserId, item: Item, code: string, now: Time, later: Time)
      returns (reply: Reply)
      modifies this
      ensures (Tables(), reply) == CreateOrder(old(Tables()), cat, user, item, code, now, later)
    {
      hide PriceOf, FindPending, FindActive, Discount, WithUses;
      var price: int;
      match PriceOf(cat, item, code) {
        case Err(e) => return Refused(e);
        case Ok(p) => price := p;
      }
      var existing := FindPending(orders, user, item);
      var promo: Option<PromoId> := None;
      var discount := 0;
      if code != "" {
        match FindActive(promos, code, item.course, now) {
          case Err(e) => return Refused(e);
          case Ok(p) => promo := Some(p);
        }
        var row := promos[promo.value].value;
        discount := Discount(row.kind, row.value, price);
        if price - discount <= 0 {
          return Refused(PromoMakesFree);
        }
      }
      ghost var q := Quote(price, promo, discount);
      assert QuoteFor(Tables(), cat, item, code, now) == Ok(q);
      var savedPromos := promos;
      if existing.Some? {
        var i := existing.value;
        var order := orders[i];
        if order.promo == promo {
          return OrderReply(i);
        }
        if order.promo.Some? {
          ReleaseUse(order.promo.value);
          order := order.(promo := None, discount := 0, original := None, amount := price);
        }
        if promo.Some? {
          var reserved := TryReserve(promo.value, later);
          if !reserved {
            promos := savedPromos;
            return Refused(PromoExhausted);
          }
          order := order.(promo := promo, discount := discount, original := Some(price), amount := price - discount);
        }
        assert order == Priced(orders[i], q);
        orders := orders[i := order];
        return OrderReply(i);
      }
      if promo.Some? {
        var reserved := TryReserve(promo.value, later);
        if !reserved {
          return Refused(PromoExhausted);
        }
      }
      orders := orders + [Order(user, item, price - discount, if promo.Some? then Some(price) else None, discount,
                                promo, Pending, None, None, None)];
      return OrderReply(|orders| - 1);
    }

    method Cancel(user: UserId, id: OrderId, now: Time) returns (reply: Reply)
      modifies this
      ensures (Tables(), reply) == CancelOrder(old(Tables()), user, id, now)
    {
      if id >= |orders| || orders[id].user != user {
        return Refused(NotFound);
      }
      if !orders[id].status.Pending? && !orders[id].status.Processing? {
        return Refused(WrongState);
      }
      if orders[id].promo.Some? {
        ReleaseUse(orders[id].promo.value);
      }
      orders := orders[id := orders[id].(status := Cancelled)];
      orders := orders[id := orders[id].(cancelledAt := Some(now))];
      assert orders == old(orders)[id := old(orders)[id].(status := Cancelled, cancelledAt := Some(now))];
      return OrderReply(id);
    }

    method GrantEntitlement(cat: Catalog, order: Order) returns (r: Result<(), EnrollError>)
      modifies roster
      ensures r.Ok? <==> Grant(old(roster.State()), cat, order).Ok?
      ensures roster.State() ==
          match Grant(old(roster.State()), cat, order) case Ok(s) => s case Err(_) => old(roster.State())
    {
      match order.item {
        case CourseItem(c) => r := roster.EnrollUser(cat, order.user, c);
        case ProgramItem(p) => r := roster.EnrollUserInProgram(cat, order.user, p);
      }
    }

    method ChargeCard(cat: Catalog, user: UserId, id: OrderId, cardOk: bool, receipt: Option<string>, now: Time)
      returns (reply: Reply)
      modifies this, roster
      ensures (Tables(), reply) == PayWithCard(old(Tables()), cat, user, id, cardOk, receipt, now)
    {
      if id >= |orders| || orders[id].user != user {
        return Refused(NotFound);
      }
      if !orders[id].status.Pending? {
        return Refused(WrongState);
      }
      if !cardOk {
        return Refused(CardRejected);
      }
      if receipt.None? {
        return Refused(ProviderFailed);
      }
      if FindTxn(txns, receipt.value).Some? {
        return Refused(Internal);
      }
      var savedOrders, savedTxns := orders, txns;
      txns := txns + [Txn(id, Card, receipt.value, None, Performed, orders[id].amount, Some(now), None, None)];
      orders := orders[id := orders[id].(status := Paid, provider := Some(Card), paidAt := Some(now))];
      var granted := GrantEntitlement(cat, orders[id]);
      if granted.Err? {
        orders, txns := savedOrders, savedTxns;
        return Refused(NotFound);
      }
      return TxnReply(|txns| - 1, Millis(now), 2);
    }

    method StartPayme(user: UserId, id: OrderId, configured: bool) returns (reply: Reply)
      modifies this
      ensures (Tables(), reply) == PayWithPayme(old(Tables()), user, id, configured)
    {
      if id >= |orders| || orders[id].user != user {
        return Refused(NotFound);
      }
      if !orders[id].status.Pending? {
        return Refused(WrongState);
      }
      if !configured {
        return Refused(ProviderFailed);
      }
      orders := orders[id := orders[id].(provider := Some(Payme))];
      return OrderReply(id);
    }

    method CreateTransaction(account: Option<OrderId>, amount: int, key: string, time: nat) returns (reply: Reply)
      modifies this
      ensures (Tables(), reply) == RpcCreate(old(Tables()), account, amount, key, time)
    {
      if account.None? || account.value >= |orders| || key == "" {
        return Refused(Rpc(ERR_INVALID_ACCOUNT));
      }
      var id := account.value;
      if amount != orders[id].amount {
        return Refused(Rpc(ERR_INVALID_AMOUNT));
      }
      var existing := FindTxn(txns, key);
      if existing.Some? {
        var t := txns[existing.value];
        if !t.state.Created? {
          return Refused(Rpc(ERR_CANT_PERFORM));
        }
        var at := time;
        if t.createTime.Some? && t.createTime.value != 0 {
          at := t.createTime.value;
        }
        return TxnReply(existing.value, at, 1);
      }
      if !orders[id].status.Pending? {
        return Refused(Rpc(ERR_INVALID_ACCOUNT));
      }
      txns := txns + [Txn(id, Payme, key, Some(time), Created, amount, None, None, None)];
      orders := orders[id := orders[id].(status := Processing)];
      orders := orders[id := orders[id].(provider := Some(Payme))];
      assert orders == old(orders)[id := old(orders)[id].(status := Processing, provider := Some(Payme))];
      return TxnReply(|txns| - 1, time, 1);
    }

    method PerformTransaction(cat: Catalog, key: string, now: Time) returns (reply: Reply)
      modifies this, roster
      ensures (Tables(), reply) == RpcPerform(old(Tables()), cat, key, now)
    {
      var found := if key == "" then None else FindTxn(txns, key);
      if found.None? {
        return Refused(Rpc(ERR_TXN_NOT_FOUND));
      }
      var k := found.value;
      if txns[k].state.Performed? {
        return TxnReply(k, MillisOr0(txns[k].performTime), 2);
      }
      if !txns[k].state.Created? {
        return Refused(Rpc(ERR_CANT_PERFORM));
      }
      var id := txns[k].order;
      if id >= |orders| {
        return Refused(Rpc(ERR_INTERNAL));
      }
      var savedOrders, savedTxns := orders, txns;
      txns := txns[k := txns[k].(state := Performed)];
      txns := txns[k := txns[k].(performTime := Some(now))];
      orders := orders[id := orders[id].(status := Paid)];
      orders := orders[id := orders[id].(paidAt := txns[k].performTime)];
      assert txns == old(txns)[k := old(txns)[k].(state := Performed, performTime := Some(now))];
      assert orders == old(orders)[id := old(orders)[id].(status := Paid, paidAt := Some(now))];
      var granted := GrantEntitlement(cat, orders[id]);
      if granted.Err? {
        orders, txns := savedOrders, savedTxns;
        return Refused(Rpc(ERR_INTERNAL));
      }
      return TxnReply(k, Millis(now), 2);
    }

    method CancelTransaction(key: string, reason: int, now: Time) returns (reply: Reply)
      modifies this
      ensures (Tables(), reply) == RpcCancel(old(Tables()), key, reason, now)
    {
      var found := if key == "" then None else FindTxn(txns, key);
      if found.None? {
        return Refused(Rpc(ERR_TXN_NOT_FOUND));
      }
      var k := found.value;
      if txns[k].state.Voided? || txns[k].state.Reversed? {
        return TxnReply(k, MillisOr0(txns[k].cancelTime), if txns[k].state.Voided? then -1 else -2);
      }
      var id := txns[k].order;
      if id >= |orders| {
        return Refused(Rpc(ERR_INTERNAL));
      }
      var newState := if txns[k].state.Performed? then Reversed else Voided;
      txns := txns[k := txns[k].(state := newState, cancelTime := Some(now), reason := Some(reason))];
      if newState == Reversed {
        orders := orders[id := orders[id].(status := Refunded)];
      } else {
        if orders[id].promo.Some? {
          ReleaseUse(orders[id].promo.value);
        }
        orders := orders[id := orders[id].(status := Cancelled, cancelledAt := Some(now))];
      }
      return TxnReply(k, Millis(now), if newState == Voided then -1 else -2);
    }

    method AddPromo(cat: Catalog, owns: bool, course: CourseId, code: string, kind: DiscountKind, value: int,
                    expiresAt: Option<Time>, now: Time) returns (reply: Reply)
      modifies this
      ensures (Tables(), reply) == CreatePromo(old(Tables()), cat, owns, course, code, kind, value, expiresAt, now)
    {
      if course !in cat.courses {
        return Refused(NotFound);
      }
      if !owns {
        return Refused(Forbidden);
      }
      var price := cat.courses[course].price;
      if price == 0 || (kind.Fixed? && value >= price) || (kind.Percent? && value >= 100)
         || (expiresAt.Some? && expiresAt.value <= now) || value < 1 {
        return Refused(PromoInvalid);
      }
      if First(promos, (p: Option<Promo>) => p.Some? && p.value.code == code).Some? {
        return Refused(PromoCodeTaken);
      }
      promos := promos + [Some(Promo(course, code, kind, value, 1, 0, expiresAt, true))];
      return Done;
    }

    method Revoke(owns: bool, id: PromoId) returns (reply: Reply)
      modifies this
      ensures (Tables(), reply) == RevokePromo(old(Tables()), owns, id)
    {
      if id >= |promos| || promos[id].None? {
        return Refused(NotFound);
      }
      if !owns {
        return Refused(Forbidden);
      }
      if promos[id].value.uses > 0 {
        promos := promos[id := Some(promos[id].value.(active := false))];
        return Done;
      }
      promos := promos[id := None];
      orders := Detach(orders, id);
      return Done;
    }
  }
}
