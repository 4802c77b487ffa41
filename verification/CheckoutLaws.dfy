/** What every run of checkout steps keeps: coherent orders and transactions,
    counted reservations, entitlements, and harmless redeliveries. */
module CheckoutLaws {
  import opened Prelude
  import opened Enrolling
  import opened Checkout

  // ---------- Runs ----------

  datatype Event =
    | NewPromo(cat: Catalog, owns: bool, course: CourseId, code: string, kind: DiscountKind, value: int,
               expiresAt: Option<Time>, now: Time)
    | Revoke(owns: bool, promo: PromoId)
    | NewOrder(cat: Catalog, user: UserId, item: Item, code: string, now: Time, later: Time)
    | UserCancel(user: UserId, order: OrderId, now: Time)
    | CardPay(cat: Catalog, user: UserId, order: OrderId, cardOk: bool, receipt: Option<string>, now: Time)
    | PaymePay(user: UserId, order: OrderId, configured: bool)
    | CheckPerform(account: Option<OrderId>, amount: int)
    | Create(account: Option<OrderId>, amount: int, key: string, time: nat)
    | Perform(cat: Catalog, key: string, now: Time)
    | Cancel(key: string, reason: int, now: Time)
    | Check(key: string)
    | FreeEnroll(cat: Catalog, user: UserId, course: CourseId)
    | FreeProgram(cat: Catalog, user: UserId, program: ProgramId)

  function Enrolled(s: Store, r: Result<Roster, EnrollError>): (Store, Reply) {
    match r
    case Err(_) => (s, Refused(NotFound))
    case Ok(roster) => (s.(roster := roster), Done)
  }

  /** One atomic service call. */
  function Apply(s: Store, e: Event): (Store, Reply) {
    match e
    case NewPromo(cat, owns, course, code, kind, value, expiresAt, now) =>
      CreatePromo(s, cat, owns, course, code, kind, value, expiresAt, now)
    case Revoke(owns, promo) => RevokePromo(s, owns, promo)
    case NewOrder(cat, user, item, code, now, later) => CreateOrder(s, cat, user, item, code, now, later)
    case UserCancel(user, order, now) => CancelOrder(s, user, order, now)
    case CardPay(cat, user, order, cardOk, receipt, now) => PayWithCard(s, cat, user, order, cardOk, receipt, now)
    case PaymePay(user, order, configured) => PayWithPayme(s, user, order, configured)
    case CheckPerform(account, amount) => (s, RpcCheckPerform(s, account, amount))
    case Create(account, amount, key, time) => RpcCreate(s, account, amount, key, time)
    case Perform(cat, key, now) => RpcPerform(s, cat, key, now)
    case Cancel(key, reason, now) => RpcCancel(s, key, reason, now)
    case Check(key) => (s, RpcCheck(s, key))
    case FreeEnroll(cat, user, course) => Enrolled(s, Enroll(s.roster, cat, user, course))
    case FreeProgram(cat, user, program) => Enrolled(s, EnrollInProgram(s.roster, cat, user, program))
  }

  function Run(s: Store, events: seq<Event>): Store
    decreases |events|
  {
    if events == [] then s else Run(Apply(s, events[0]).0, events[1..])
  }

  /** A refused call leaves every table as it was. */
  lemma RefusedChangesNothing(s: Store, e: Event)
    requires Apply(s, e).1.Refused?
    ensures Apply(s, e).0 == s
  {
  }

  // ---------- Coherence ----------

  /** Which transaction states may stand beside which order states. */
  predicate Matches(order: OrderStatus, txn: TxnState) {
    match txn
    case Created => order.Processing? || order.Cancelled?
    case Performed => order.Paid?
    case Reversed => order.Refunded?
    case Voided => order.Cancelled?
  }

  predicate Charged(status: OrderStatus) { status.Processing? || status.Paid? || status.Refunded? }

  ghost predicate HasTxn(txns: seq<Txn>, i: nat) { exists k :: 0 <= k < |txns| && txns[k].order == i }

  /** One transaction per order and per provider id, for the order's amount, in a
      state that matches the order's. */
  ghost predicate TxnsCoherent(orders: seq<Order>, txns: seq<Txn>) {
    && (forall k :: 0 <= k < |txns| ==>
          && txns[k].order < |orders|
          && txns[k].amount == orders[txns[k].order].amount
          && Matches(orders[txns[k].order].status, txns[k].state))
    && (forall j, k :: 0 <= j < k < |txns| ==> txns[j].order != txns[k].order && txns[j].key != txns[k].key)
    && (forall i :: 0 <= i < |orders| && Charged(orders[i].status) ==> HasTxn(txns, i))
  }

  /** A buyer has at most one pending order per item, and every order costs something. */
  ghost predicate OrdersCoherent(orders: seq<Order>) {
    && (forall i :: 0 <= i < |orders| ==> orders[i].amount > 0 && !orders[i].status.Failed?)
    && (forall i, j :: 0 <= i < j < |orders| && orders[i].status.Pending? && orders[j].status.Pending? ==>
          orders[i].user != orders[j].user || orders[i].item != orders[j].item)
  }

  ghost predicate InRange(p: Promo) { 0 <= p.uses <= p.maxUses }

  ghost predicate PromosCoherent(promos: seq<Option<Promo>>) {
    && (forall p :: 0 <= p < |promos| && promos[p].Some? ==> InRange(promos[p].value))
    && (forall p, q :: 0 <= p < q < |promos| && promos[p].Some? && promos[q].Some? ==>
          promos[p].value.code != promos[q].value.code)
  }

  /** The foreign key from orders to promocodes. */
  ghost predicate Refers(orders: seq<Order>, promos: seq<Option<Promo>>) {
    forall i :: 0 <= i < |orders| && orders[i].promo.Some? ==>
      orders[i].promo.value < |promos| && promos[orders[i].promo.value].Some?
  }

  ghost predicate Entitled(r: Roster, o: Order) {
    match o.item
    case CourseItem(c) => (o.user, c) in r.courses
    case ProgramItem(p) =>
      (o.user, p) in r.programs && forall c :: c in r.programs[(o.user, p)] ==> (o.user, c) in r.courses
  }

  ghost predicate PaidEntitled(orders: seq<Order>, r: Roster) {
    forall i :: 0 <= i < |orders| && orders[i].status.Paid? ==> Entitled(r, orders[i])
  }

  ghost predicate Coherent(s: Store) {
    && OrdersCoherent(s.orders) && TxnsCoherent(s.orders, s.txns)
    && PromosCoherent(s.promos) && Refers(s.orders, s.promos)
    && Balanced(s.roster) && PaidEntitled(s.orders, s.roster)
  }

  /** CREATED to PERFORMED to REVERSED, or CREATED to CANCELLED. */
  predicate Advances(a: TxnState, b: TxnState) {
    a == b || (a.Created? && !b.Created?) || (a.Performed? && b.Reversed?)
  }

  ghost predicate TxnsOnward(txns: seq<Txn>, txns': seq<Txn>) {
    && |txns| <= |txns'|
    && forall k :: 0 <= k < |txns| ==>
         && txns'[k].key == txns[k].key && txns'[k].order == txns[k].order
         && txns'[k].amount == txns[k].amount && Advances(txns[k].state, txns'[k].state)
  }

  predicate OrderOnward(o: Order, o': Order) {
    && o'.user == o.user && o'.item == o.item
    && (!o.status.Pending? ==> o'.amount == o.amount && !o'.status.Pending? && (o'.promo == o.promo || o'.promo.None?))
    && (o.status.Paid? ==> o'.status.Paid? || o'.status.Refunded?)
    && (o.status.Refunded? ==> o'.status.Refunded?)
  }

  ghost predicate OrdersOnward(orders: seq<Order>, orders': seq<Order>) {
    |orders| <= |orders'| && forall i :: 0 <= i < |orders| ==> OrderOnward(orders[i], orders'[i])
  }

  /** No order past pending changes the code it holds. */
  ghost predicate CodesKept(orders: seq<Order>, orders': seq<Order>) {
    && |orders| <= |orders'|
    && forall i :: 0 <= i < |orders| && !orders[i].status.Pending? ==> orders'[i].promo == orders[i].promo
  }

  /** Codes keep their limit, and a deleted id is never used again. */
  ghost predicate PromosOnward(ps: seq<Option<Promo>>, qs: seq<Option<Promo>>) {
    && |ps| <= |qs|
    && forall p :: 0 <= p < |ps| && qs[p].Some? ==> ps[p].Some? && qs[p].value.maxUses == ps[p].value.maxUses
  }

  /** Transactions keep their identity and only advance; orders keep buyer and item,
      and once charged their amount; enrollments are never taken back. */
  ghost predicate Onward(s: Store, s': Store) {
    && TxnsOnward(s.txns, s'.txns) && OrdersOnward(s.orders, s'.orders)
    && PromosOnward(s.promos, s'.promos) && Extends(s.roster, s'.roster)
  }

  // ---------- Single changes to the tables ----------

  lemma StillEntitled(orders: seq<Order>, r: Roster, q: Roster)
    requires PaidEntitled(orders, r) && Extends(r, q)
    ensures PaidEntitled(orders, q)
  {
  }

  lemma GrantEntitles(r: Roster, cat: Catalog, o: Order)
    requires Balanced(r) && Grant(r, cat, o).Ok?
    ensures var q := Grant(r, cat, o).value; Balanced(q) && Extends(r, q) && Entitled(q, o)
  {
    match o.item {
      case CourseItem(c) =>
        EnrollStaysBalanced(r, cat, o.user, c);
        EnrollIdempotent(r, cat, cat, o.user, c);
      case ProgramItem(p) =>
        EnrollInProgramStaysBalanced(r, cat, o.user, p);
        EnrollInProgramIdempotent(r, cat, cat, o.user, p);
    }
  }

  /** Rewriting one order that keeps or loses its pending status. */
  lemma OneOrder(orders: seq<Order>, i: nat, o: Order)
    requires OrdersCoherent(orders) && i < |orders|
    requires o.user == orders[i].user && o.item == orders[i].item && o.amount > 0 && !o.status.Failed?
    requires o.status.Pending? ==> orders[i].status.Pending?
    ensures OrdersCoherent(orders[i := o])
    ensures OrderOnward(orders[i], o) ==> OrdersOnward(orders, orders[i := o])
    ensures orders[i].status.Pending? || o.promo == orders[i].promo ==> CodesKept(orders, orders[i := o])
  {
    hide OrderOnward;
    OrdersReflexive(orders);
  }

  lemma OrdersReflexive(orders: seq<Order>)
    ensures OrdersOnward(orders, orders)
  {
  }

  /** ... while the transactions stay. */
  lemma OneOrderSameTxns(orders: seq<Order>, txns: seq<Txn>, i: nat, o: Order)
    requires TxnsCoherent(orders, txns) && i < |orders|
    requires forall k :: 0 <= k < |txns| && txns[k].order == i ==>
               txns[k].amount == o.amount && Matches(o.status, txns[k].state)
    requires Charged(o.status) ==> HasTxn(txns, i)
    ensures TxnsCoherent(orders[i := o], txns)
  {
  }

  lemma NewTxn(orders: seq<Order>, txns: seq<Txn>, i: nat, o: Order, t: Txn)
    requires TxnsCoherent(orders, txns) && i < |orders| && orders[i].status.Pending?
    requires t.order == i && t.amount == o.amount && Matches(o.status, t.state)
    requires forall k :: 0 <= k < |txns| ==> txns[k].key != t.key
    ensures TxnsCoherent(orders[i := o], txns + [t])
    ensures TxnsOnward(txns, txns + [t])
  {
    var orders', txns' := orders[i := o], txns + [t];
    assert forall k :: 0 <= k < |txns| ==> txns[k].order != i;
    forall j | 0 <= j < |orders'| && Charged(orders'[j].status) ensures HasTxn(txns', j) {
      if j == i {
        assert txns'[|txns|].order == i;
      } else {
        var k :| 0 <= k < |txns| && txns[k].order == j;
        assert txns'[k].order == j;
      }
    }
  }

  lemma OneTxn(orders: seq<Order>, txns: seq<Txn>, k: nat, o: Order, t: Txn)
    requires TxnsCoherent(orders, txns) && k < |txns|
    requires t.order == txns[k].order && t.amount == txns[k].amount == o.amount && t.key == txns[k].key
    requires Matches(o.status, t.state) && Advances(txns[k].state, t.state)
    ensures TxnsCoherent(orders[t.order := o], txns[k := t])
    ensures TxnsOnward(txns, txns[k := t])
  {
    var orders', txns' := orders[t.order := o], txns[k := t];
    forall j | 0 <= j < |orders'| && Charged(orders'[j].status) ensures HasTxn(txns', j) {
      if j == t.order {
        assert txns'[k].order == j;
      } else {
        var m :| 0 <= m < |txns| && txns[m].order == j;
        assert txns'[m].order == j;
      }
    }
  }

  lemma NewOrderRow(orders: seq<Order>, txns: seq<Txn>, o: Order)
    requires OrdersCoherent(orders) && TxnsCoherent(orders, txns)
    requires o.status.Pending? && o.amount > 0 && FindPending(orders, o.user, o.item).None?
    ensures OrdersCoherent(orders + [o]) && TxnsCoherent(orders + [o], txns) && OrdersOnward(orders, orders + [o])
    ensures CodesKept(orders, orders + [o])
  {
    hide FindPending;
  }

  /** ps and qs are the same codes up to their use counters, which stay in range. */
  ghost predicate Adjusted(ps: seq<Option<Promo>>, qs: seq<Option<Promo>>) {
    && |ps| == |qs|
    && forall p :: 0 <= p < |ps| ==>
         && (qs[p].Some? <==> ps[p].Some?)
         && (qs[p].Some? ==> qs[p].value == ps[p].value.(uses := qs[p].value.uses)
                             && (InRange(ps[p].value) ==> InRange(qs[p].value)))
  }

  lemma ReleaseAdjusts(ps: seq<Option<Promo>>, id: Option<PromoId>)
    ensures Adjusted(ps, ReleaseIf(ps, id))
  {
  }

  lemma ReserveAdjusts(ps: seq<Option<Promo>>, id: Option<PromoId>, now: Time)
    ensures ReserveIf(ps, id, now).Some? ==> Adjusted(ps, ReserveIf(ps, id, now).value)
  {
  }

  lemma AdjustedKeeps(ps: seq<Option<Promo>>, qs: seq<Option<Promo>>, orders: seq<Order>)
    requires Adjusted(ps, qs) && PromosCoherent(ps) && Refers(orders, ps)
    ensures PromosCoherent(qs) && Refers(orders, qs) && PromosOnward(ps, qs)
  {
  }

  lemma ExtendsReflexive(r: Roster)
    ensures Extends(r, r)
  {
  }

  lemma TxnsReflexive(txns: seq<Txn>)
    ensures TxnsOnward(txns, txns)
  {
  }

  // ---------- Every step keeps the tables coherent and moves onward ----------

  ghost predicate Keeps(s: Store, s': Store) { Coherent(s') && Onward(s, s') && CodesKept(s.orders, s'.orders) }

  lemma NothingHappens(s: Store)
    requires Coherent(s)
    ensures Keeps(s, s)
  {
    OrdersReflexive(s.orders);
    TxnsReflexive(s.txns);
    ExtendsReflexive(s.roster);
    hide Coherent, OrdersOnward, TxnsOnward, Extends;
  }

  lemma TxnFacts(orders: seq<Order>, txns: seq<Txn>, k: nat)
    requires TxnsCoherent(orders, txns) && k < |txns|
    ensures txns[k].order < |orders| && txns[k].amount == orders[txns[k].order].amount
    ensures Matches(orders[txns[k].order].status, txns[k].state)
  {
  }

  lemma OrderFacts(orders: seq<Order>, promos: seq<Option<Promo>>, i: nat)
    requires OrdersCoherent(orders) && Refers(orders, promos) && i < |orders|
    ensures orders[i].amount > 0 && !orders[i].status.Failed?
    ensures orders[i].promo.Some? ==> orders[i].promo.value < |promos| && promos[orders[i].promo.value].Some?
  {
  }

  lemma CreateOrderKeeps(s: Store, cat: Catalog, user: UserId, item: Item, code: string, now: Time, later: Time)
    requires Coherent(s)
    ensures Keeps(s, CreateOrder(s, cat, user, item, code, now, later).0)
  {
    hide TxnsCoherent, OrdersCoherent, PromosCoherent, Refers, PaidEntitled, Balanced, Extends, OrdersOnward,
        TxnsOnward,
      PromosOnward, CodesKept, Adjusted, FindPending, QuoteFor, ReserveIf, ReleaseIf;
    var s' := CreateOrder(s, cat, user, item, code, now, later).0;
    NothingHappens(s);
    if s' != s {
      var q := QuoteFor(s, cat, item, code, now).value;
      var found := FindPending(s.orders, user, item);
      if found.Some? {
        RepriceKeeps(s, found.value, q, later);
      } else {
        var o := Priced(Blank(user, item), q);
        ReserveAdjusts(s.promos, q.promo, later);
        AdjustedKeeps(s.promos, s'.promos, s.orders);
        NewOrderRow(s.orders, s.txns, o);
        NewRowRefers(s.orders, o, s.roster, s.promos, s'.promos);
      }
    }
  }

  lemma NewRowRefers(orders: seq<Order>, o: Order, r: Roster, ps: seq<Option<Promo>>, qs: seq<Option<Promo>>)
    requires PaidEntitled(orders, r) && o.status.Pending? && Refers(orders, qs) && Adjusted(ps, qs)
    requires o.promo.Some? ==> o.promo.value < |ps| && ps[o.promo.value].Some?
    ensures PaidEntitled(orders + [o], r) && Refers(orders + [o], qs)
  {
  }

  lemma RepriceKeeps(s: Store, i: nat, q: Quote, later: Time)
    requires Coherent(s) && i < |s.orders| && s.orders[i].status.Pending? && q.price - q.discount > 0
    requires q.promo.Some? ==> q.promo.value < |s.promos| && s.promos[q.promo.value].Some?
    requires ReserveIf(ReleaseIf(s.promos, s.orders[i].promo), q.promo, later).Some?
    ensures Keeps(s, s.(promos := ReserveIf(ReleaseIf(s.promos, s.orders[i].promo), q.promo, later).value,
                        orders := s.orders[i := Priced(s.orders[i], q)]))
  {
    hide TxnsCoherent, OrdersCoherent, PromosCoherent, Refers, PaidEntitled, Balanced, Extends, OrdersOnward,
        TxnsOnward,
      PromosOnward, CodesKept, Adjusted, ReserveIf, ReleaseIf;
    NothingHappens(s);
    var released := ReleaseIf(s.promos, s.orders[i].promo);
    var final := ReserveIf(released, q.promo, later).value;
    ReleaseAdjusts(s.promos, s.orders[i].promo);
    ReserveAdjusts(released, q.promo, later);
    AdjustedKeeps(s.promos, released, s.orders);
    AdjustedKeeps(released, final, s.orders);
    AdjustedTrans(s.promos, released, final);
    var o := Priced(s.orders[i], q);
    OneOrder(s.orders, i, o);
    PendingHasNoTxn(s.orders, s.txns, i);
    OneOrderSameTxns(s.orders, s.txns, i, o);
    NewCodeRefers(s.orders, i, o, s.roster, s.promos, final);
  }

  lemma PendingHasNoTxn(orders: seq<Order>, txns: seq<Txn>, i: nat)
    requires TxnsCoherent(orders, txns) && i < |orders| && orders[i].status.Pending?
    ensures forall k :: 0 <= k < |txns| ==> txns[k].order != i
  {
  }

  lemma AdjustedTrans(a: seq<Option<Promo>>, b: seq<Option<Promo>>, c: seq<Option<Promo>>)
    requires Adjusted(a, b) && Adjusted(b, c)
    ensures Adjusted(a, c) && PromosOnward(a, c)
  {
  }

  lemma NewCodeRefers(orders: seq<Order>, i: nat, o: Order, r: Roster, ps: seq<Option<Promo>>, qs: seq<Option<Promo>>)
    requires i < |orders| && PaidEntitled(orders, r) && !o.status.Paid? && Refers(orders, qs) && Adjusted(ps, qs)
    requires o.promo.Some? ==> o.promo.value < |ps| && ps[o.promo.value].Some?
    ensures PaidEntitled(orders[i := o], r) && Refers(orders[i := o], qs)
  {
  }

  lemma CancelOrderKeeps(s: Store, user: UserId, id: OrderId, now: Time)
    requires Coherent(s)
    ensures Keeps(s, CancelOrder(s, user, id, now).0)
  {
    hide TxnsCoherent, OrdersCoherent, PromosCoherent, Refers, PaidEntitled, Balanced, Extends, OrdersOnward,
        TxnsOnward,
      PromosOnward, CodesKept, Adjusted, ReleaseIf;
    NothingHappens(s);
    if !CancelOrder(s, user, id, now).1.Refused? {
      var o := s.orders[id].(status := OrderStatus.Cancelled, cancelledAt := Some(now));
      OrderFacts(s.orders, s.promos, id);
      ReleaseAdjusts(s.promos, s.orders[id].promo);
      AdjustedKeeps(s.promos, ReleaseIf(s.promos, s.orders[id].promo), s.orders);
      OneOrder(s.orders, id, o);
      CancelMatches(s.orders, s.txns, id);
      OneOrderSameTxns(s.orders, s.txns, id, o);
      OnePaid(s.orders, id, o, s.roster, s.roster, ReleaseIf(s.promos, s.orders[id].promo));
    }
  }

  lemma CancelMatches(orders: seq<Order>, txns: seq<Txn>, i: nat)
    requires TxnsCoherent(orders, txns) && i < |orders| && (orders[i].status.Pending? || orders[i].status.Processing?)
    ensures forall k :: 0 <= k < |txns| && txns[k].order == i ==>
              txns[k].amount == orders[i].amount && txns[k].state.Created?
  {
  }

  lemma PayWithCardKeeps(s: Store, cat: Catalog, user: UserId, id: OrderId, cardOk: bool, receipt: Option<string>,
                         now: Time)
    requires Coherent(s)
    ensures Keeps(s, PayWithCard(s, cat, user, id, cardOk, receipt, now).0)
  {
    hide TxnsCoherent, OrdersCoherent, PromosCoherent, Refers, PaidEntitled, Balanced, Extends, OrdersOnward,
        TxnsOnward,
      PromosOnward, CodesKept, Adjusted, FindTxn, Grant, Entitled;
    var (s', reply) := PayWithCard(s, cat, user, id, cardOk, receipt, now);
    if reply.Refused? {
      NothingHappens(s);
    } else {
      NothingHappens(s);
      OrderFacts(s.orders, s.promos, id);
      GrantEntitles(s.roster, cat, s.orders[id]);
      OneOrder(s.orders, id, s'.orders[id]);
      NewTxn(s.orders, s.txns, id, s'.orders[id], s'.txns[|s.txns|]);
      OnePaid(s.orders, id, s'.orders[id], s.roster, s'.roster, s.promos);
    }
  }

  lemma PayWithPaymeKeeps(s: Store, user: UserId, id: OrderId, configured: bool)
    requires Coherent(s)
    ensures Keeps(s, PayWithPayme(s, user, id, configured).0)
  {
    hide TxnsCoherent, OrdersCoherent, PromosCoherent, Refers, PaidEntitled, Balanced, Extends, OrdersOnward,
        TxnsOnward,
      PromosOnward, CodesKept, Adjusted, ReleaseIf;
    NothingHappens(s);
    if !PayWithPayme(s, user, id, configured).1.Refused? {
      var o := s.orders[id].(provider := Some(Payme));
      OrderFacts(s.orders, s.promos, id);
      OneOrder(s.orders, id, o);
      PendingHasNoTxn(s.orders, s.txns, id);
      OneOrderSameTxns(s.orders, s.txns, id, o);
      OnePaid(s.orders, id, o, s.roster, s.roster, s.promos);
    }
  }

  lemma RpcCreateKeeps(s: Store, account: Option<OrderId>, amount: int, key: string, time: nat)
    requires Coherent(s)
    ensures Keeps(s, RpcCreate(s, account, amount, key, time).0)
  {
    hide TxnsCoherent, OrdersCoherent, PromosCoherent, Refers, PaidEntitled, Balanced, Extends, OrdersOnward,
        TxnsOnward,
      PromosOnward, CodesKept, Adjusted, FindTxn;
    var s' := RpcCreate(s, account, amount, key, time).0;
    NothingHappens(s);
    if s' != s {
      var id := account.value;
      OrderFacts(s.orders, s.promos, id);
      OneOrder(s.orders, id, s'.orders[id]);
      NewTxn(s.orders, s.txns, id, s'.orders[id], s'.txns[|s.txns|]);
      OnePaid(s.orders, id, s'.orders[id], s.roster, s'.roster, s.promos);
    }
  }

  lemma RpcPerformKeeps(s: Store, cat: Catalog, key: string, now: Time)
    requires Coherent(s)
    ensures Keeps(s, RpcPerform(s, cat, key, now).0)
  {
    hide TxnsCoherent, OrdersCoherent, PromosCoherent, Refers, PaidEntitled, Balanced, Extends, OrdersOnward,
        TxnsOnward,
      PromosOnward, CodesKept, Adjusted, FindTxn, Grant, Entitled;
    var s' := RpcPerform(s, cat, key, now).0;
    NothingHappens(s);
    if s' != s {
      var k := FindTxn(s.txns, key).value;
      var id := s.txns[k].order;
      TxnFacts(s.orders, s.txns, k);
      OrderFacts(s.orders, s.promos, id);
      GrantEntitles(s.roster, cat, s.orders[id]);
      OneOrder(s.orders, id, s'.orders[id]);
      OneTxn(s.orders, s.txns, k, s'.orders[id], s'.txns[k]);
      OnePaid(s.orders, id, s'.orders[id], s.roster, s'.roster, s.promos);
    }
  }

  /** Rewriting one order that is entitled if it is paid, and keeps its code. */
  lemma OnePaid(orders: seq<Order>, i: nat, o: Order, r: Roster, q: Roster, promos: seq<Option<Promo>>)
    requires i < |orders| && PaidEntitled(orders, r) && Extends(r, q) && Refers(orders, promos)
    requires o.user == orders[i].user && o.item == orders[i].item && o.promo == orders[i].promo
    requires o.status.Paid? ==> Entitled(q, orders[i])
    ensures PaidEntitled(orders[i := o], q) && Refers(orders[i := o], promos)
  {
    StillEntitled(orders, r, q);
  }

  lemma RpcCancelKeeps(s: Store, key: string, reason: int, now: Time)
    requires Coherent(s)
    ensures Keeps(s, RpcCancel(s, key, reason, now).0)
  {
    hide TxnsCoherent, OrdersCoherent, PromosCoherent, Refers, PaidEntitled, Balanced, Extends, OrdersOnward,
        TxnsOnward,
      PromosOnward, CodesKept, Adjusted, FindTxn, ReleaseIf;
    var s' := RpcCancel(s, key, reason, now).0;
    NothingHappens(s);
    if s' != s {
      var k := FindTxn(s.txns, key).value;
      var id := s.txns[k].order;
      TxnFacts(s.orders, s.txns, k);
      OrderFacts(s.orders, s.promos, id);
      ReleaseAdjusts(s.promos, s.orders[id].promo);
      AdjustedKeeps(s.promos, ReleaseIf(s.promos, s.orders[id].promo), s.orders);
      OneOrder(s.orders, id, s'.orders[id]);
      OneTxn(s.orders, s.txns, k, s'.orders[id], s'.txns[k]);
      OnePaid(s.orders, id, s'.orders[id], s.roster, s'.roster, s.promos);
      OnePaid(s.orders, id, s'.orders[id], s.roster, s'.roster, s'.promos);
    }
  }

  lemma CreatePromoKeeps(s: Store, cat: Catalog, owns: bool, course: CourseId, code: string, kind: DiscountKind,
                         value: int, expiresAt: Option<Time>, now: Time)
    requires Coherent(s)
    ensures Keeps(s, CreatePromo(s, cat, owns, course, code, kind, value, expiresAt, now).0)
  {
    NothingHappens(s);
    hide TxnsCoherent, OrdersCoherent, OrdersOnward, TxnsOnward, CodesKept;
  }

  lemma DetachKeeps(orders: seq<Order>, txns: seq<Txn>, id: PromoId)
    requires OrdersCoherent(orders) && TxnsCoherent(orders, txns)
    ensures OrdersCoherent(Detach(orders, id)) && TxnsCoherent(Detach(orders, id), txns)
    ensures OrdersOnward(orders, Detach(orders, id))
  {
  }

  lemma RevokePromoKeeps(s: Store, owns: bool, id: PromoId)
    requires Coherent(s)
    ensures Coherent(RevokePromo(s, owns, id).0) && Onward(s, RevokePromo(s, owns, id).0)
  {
    NothingHappens(s);
    DetachKeeps(s.orders, s.txns, id);
    hide TxnsCoherent, OrdersCoherent, OrdersOnward, TxnsOnward, CodesKept;
  }

  lemma EnrolledKeeps(s: Store, q: Roster)
    requires Coherent(s) && Balanced(q) && Extends(s.roster, q)
    ensures Keeps(s, s.(roster := q))
  {
    NothingHappens(s);
    StillEntitled(s.orders, s.roster, q);
  }

  lemma EnrollKeeps(s: Store, cat: Catalog, u: UserId, c: CourseId)
    requires Coherent(s)
    ensures Keeps(s, Enrolled(s, Enroll(s.roster, cat, u, c)).0)
  {
    NothingHappens(s);
    if Enroll(s.roster, cat, u, c).Ok? {
      EnrollStaysBalanced(s.roster, cat, u, c);
      EnrollIdempotent(s.roster, cat, cat, u, c);
      EnrolledKeeps(s, Enroll(s.roster, cat, u, c).value);
    }
  }

  lemma EnrollInProgramKeeps(s: Store, cat: Catalog, u: UserId, p: ProgramId)
    requires Coherent(s)
    ensures Keeps(s, Enrolled(s, EnrollInProgram(s.roster, cat, u, p)).0)
  {
    NothingHappens(s);
    if EnrollInProgram(s.roster, cat, u, p).Ok? {
      EnrollInProgramStaysBalanced(s.roster, cat, u, p);
      EnrollInProgramIdempotent(s.roster, cat, cat, u, p);
      EnrolledKeeps(s, EnrollInProgram(s.roster, cat, u, p).value);
    }
  }

  /** Every step, accepted or refused, including a buyer cancelling an order whose
      payment is in flight, keeps the tables coherent. */
  lemma StepKeeps(s: Store, e: Event)
    requires Coherent(s)
    ensures Coherent(Apply(s, e).0) && Onward(s, Apply(s, e).0)
    ensures !e.Revoke? ==> CodesKept(s.orders, Apply(s, e).0.orders)
  {
    hide Coherent, Onward, CodesKept, CreatePromo, RevokePromo, CreateOrder, CancelOrder, PayWithCard, PayWithPayme,
      RpcCreate, RpcPerform, RpcCancel, Enroll, EnrollInProgram;
    match e {
      case NewPromo(cat, owns, course, code, kind, value, expiresAt, now) =>
        CreatePromoKeeps(s, cat, owns, course, code, kind, value, expiresAt, now);
      case Revoke(owns, promo) => RevokePromoKeeps(s, owns, promo);
      case NewOrder(cat, user, item, code, now, later) => CreateOrderKeeps(s, cat, user, item, code, now, later);
      case UserCancel(user, order, now) => CancelOrderKeeps(s, user, order, now);
      case CardPay(cat, user, order, cardOk, receipt, now) => PayWithCardKeeps(s, cat, user, order, cardOk, receipt,
          now);
      case PaymePay(user, order, configured) => PayWithPaymeKeeps(s, user, order, configured);
      case Create(account, amount, key, time) => RpcCreateKeeps(s, account, amount, key, time);
      case Perform(cat, key, now) => RpcPerformKeeps(s, cat, key, now);
      case Cancel(key, reason, now) => RpcCancelKeeps(s, key, reason, now);
      case FreeEnroll(cat, user, course) => EnrollKeeps(s, cat, user, course);
      case FreeProgram(cat, user, program) => EnrollInProgramKeeps(s, cat, user, program);
      case CheckPerform(_, _) => NothingHappens(s);
      case Check(_) => NothingHappens(s);
    }
  }

  // ---------- Whole runs ----------

  lemma OnwardTrans(a: Store, b: Store, c: Store)
    requires Onward(a, b) && Onward(b, c)
    ensures Onward(a, c)
  {
    assert TxnsOnward(a.txns, c.txns);
    assert OrdersOnward(a.orders, c.orders);
  }

  lemma {:induction false} RunKeeps(s: Store, events: seq<Event>)
    requires Coherent(s)
    ensures Coherent(Run(s, events)) && Onward(s, Run(s, events))
    decreases |events|
  {
    hide Coherent, Onward, Apply;
    if events == [] {
      NothingHappens(s);
    } else {
      var s' := Apply(s, events[0]).0;
      StepKeeps(s, events[0]);
      RunKeeps(s', events[1..]);
      OnwardTrans(s, s', Run(s', events[1..]));
    }
  }

  ghost predicate HasTxnIn(s: Store, i: nat, state: TxnState) {
    exists k :: 0 <= k < |s.txns| && s.txns[k].order == i && s.txns[k].state == state
  }

  /** Order and transaction agree in every reachable state: a pending order has no
      transaction, a processing one an open transaction, PAID means performed and
      REFUNDED means reversed, and no order ever has two transactions. */
  lemma {:induction false} StatusReflectsTransaction(s: Store, events: seq<Event>, i: nat)
    requires Coherent(s) && i < |Run(s, events).orders|
    ensures var r := Run(s, events);
            && (r.orders[i].status.Pending? ==> !HasTxn(r.txns, i))
            && (r.orders[i].status.Processing? ==> HasTxnIn(r, i, Created))
            && (r.orders[i].status.Paid? <==> HasTxnIn(r, i, Performed))
            && (r.orders[i].status.Refunded? <==> HasTxnIn(r, i, Reversed))
            && forall j, k :: 0 <= j < k < |r.txns| && r.txns[j].order == i ==> r.txns[k].order != i
  {
    hide Run, OrdersCoherent, PromosCoherent, Refers, Balanced, PaidEntitled, Onward;
    RunKeeps(s, events);
    var r := Run(s, events);
    if Charged(r.orders[i].status) {
      assert HasTxn(r.txns, i);
      var k :| 0 <= k < |r.txns| && r.txns[k].order == i;
      assert HasTxnIn(r, i, r.txns[k].state);
    }
  }

  /** Along a whole run a transaction keeps its order, provider id and amount and
      moves only CREATED, PERFORMED, REVERSED or CREATED, CANCELLED. */
  lemma {:induction false} TransactionsOnlyAdvance(s: Store, events: seq<Event>, k: nat)
    requires Coherent(s) && k < |s.txns|
    ensures var r := Run(s, events);
            && k < |r.txns|
            && r.txns[k].order == s.txns[k].order && r.txns[k].key == s.txns[k].key
            && r.txns[k].order < |r.orders| && r.txns[k].amount == s.txns[k].amount == r.orders[r.txns[k].order].amount
            && Advances(s.txns[k].state, r.txns[k].state)
  {
    RunKeeps(s, events);
  }

  /** In every reachable state each stored counter is its number of enrollment rows
      and the buyer of every paid order has what was bought. */
  lemma {:induction false} PaidBuyersAreEnrolled(s: Store, events: seq<Event>)
    requires Coherent(s)
    ensures var r := Run(s, events);
            && (forall c :: r.roster.counts[c] == |Learners(r.roster, c)|)
            && forall i :: 0 <= i < |r.orders| && r.orders[i].status.Paid? ==> Entitled(r.roster, r.orders[i])
  {
    RunKeeps(s, events);
  }

  // ---------- What an order costs ----------

  /** With a code, price charged plus discount is the original price; an order that
      never had one has no discount. */
  predicate AddsUp(o: Order) {
    && o.discount >= 0
    && (if o.original.Some? then o.amount + o.discount == o.original.value else o.discount == 0)
    && (o.promo.Some? ==> o.original.Some?)
  }

  ghost predicate AllAddUp(orders: seq<Order>) { forall i :: 0 <= i < |orders| ==> AddsUp(orders[i]) }

  lemma CreateOrderAddsUp(s: Store, cat: Catalog, user: UserId, item: Item, code: string, now: Time, later: Time)
    requires AllAddUp(s.orders)
    ensures AllAddUp(CreateOrder(s, cat, user, item, code, now, later).0.orders)
  {
    hide PriceOf, FindActive, Discount, FindPending, ReserveIf, ReleaseIf;
  }

  lemma StepAddsUp(s: Store, e: Event)
    requires AllAddUp(s.orders)
    ensures AllAddUp(Apply(s, e).0.orders)
  {
    hide CreateOrder, CreatePromo, FindTxn, Grant, Release, Enroll, EnrollInProgram;
    match e {
      case NewPromo(cat, owns, course, code, kind, value, expiresAt, now) =>
        CreatePromoLeavesOrders(s, cat, owns, course, code, kind, value, expiresAt, now);
      case NewOrder(cat, user, item, code, now, later) => CreateOrderAddsUp(s, cat, user, item, code, now, later);
      case _ =>
    }
  }

  lemma CreatePromoLeavesOrders(s: Store, cat: Catalog, owns: bool, course: CourseId, code: string, kind: DiscountKind,
                                value: int, expiresAt: Option<Time>, now: Time)
    ensures CreatePromo(s, cat, owns, course, code, kind, value, expiresAt, now).0.orders == s.orders
  {
  }

  /** Over every run, through repricing, cancelling, paying and deleting codes. */
  lemma {:induction false} PricesAlwaysAddUp(s: Store, events: seq<Event>)
    requires AllAddUp(s.orders)
    ensures AllAddUp(Run(s, events).orders)
    decreases |events|
  {
    hide Apply, AllAddUp;
    if events != [] {
      StepAddsUp(s, events[0]);
      PricesAlwaysAddUp(Apply(s, events[0]).0, events[1..]);
    }
  }

  /** The order handed back is the buyer's, for the item, pending, and either the
      untouched pending one, exactly when that already holds the quoted code or, like the
      quote, none, or priced today with exactly the typed code's discount. */
  lemma PlacedOrderIsPricedToday(s: Store, cat: Catalog, user: UserId, item: Item, code: string,
      now: Time, later: Time)
    requires CreateOrder(s, cat, user, item, code, now, later).1.OrderReply?
    ensures var (s', reply) := CreateOrder(s, cat, user, item, code, now, later);
            && reply.order < |s'.orders|
            && var o, price := s'.orders[reply.order], PriceOf(cat, item, code);
               && o.user == user && o.item == item && o.status.Pending? && price.Ok?
               && (o.promo.Some? <==> code != "")
               && (o.promo.Some? ==> o.promo.value < |s'.promos| && s'.promos[o.promo.value].Some?
                                     && s'.promos[o.promo.value].value.code == code)
               && (s' == s <==>
                     var found := FindPending(s.orders, user, item);
                     found.Some? && s.orders[found.value].promo == QuoteFor(s, cat, item, code, now).value.promo)
               && (s' == s
                   || (o.amount + o.discount == price.value
                       && o.discount == if o.promo.None? then 0 else
                            Discount(s'.promos[o.promo.value].value.kind, s'.promos[o.promo.value].value.value,
                                price.value)))
  {
    hide PriceOf, FindPending, Discount, Reservable, FindActive;
  }

  /** A typed code is accepted exactly when it names this course's code and that code can
      be reserved right now. */
  lemma FoundIff(promos: seq<Option<Promo>>, code: string, course: CourseId, now: Time, p: PromoId)
    requires PromosCoherent(promos)
    ensures FindActive(promos, code, course, now) == Ok(p)
       <==> Reservable(promos, p, now) && promos[p].value.code == code && promos[p].value.course == course
  {
  }

  // ---------- Promocode conservation ----------

  predicate Holds(o: Order, p: PromoId) { o.promo == Some(p) && !o.status.Cancelled? }

  /** How many live orders hold code p. */
  function Holders(orders: seq<Order>, p: PromoId): nat {
    if orders == [] then 0
    else Holders(orders[..|orders| - 1], p) + if Holds(orders[|orders| - 1], p) then 1 else 0
  }

  function One(b: bool): int { if b then 1 else 0 }

  lemma {:induction false} HoldersUpdate(orders: seq<Order>, i: nat, o: Order, p: PromoId)
    requires i < |orders|
    ensures Holders(orders[i := o], p) == Holders(orders, p) - One(Holds(orders[i], p)) + One(Holds(o, p))
    decreases |orders|
  {
    var n := |orders| - 1;
    if i == n {
      assert orders[i := o][..n] == orders[..n];
    } else {
      assert orders[i := o][..n] == orders[..n][i := o];
      HoldersUpdate(orders[..n], i, o, p);
    }
  }

  lemma HoldersAppend(orders: seq<Order>, o: Order, p: PromoId)
    ensures Holders(orders + [o], p) == Holders(orders, p) + One(Holds(o, p))
  {
    assert (orders + [o])[..|orders|] == orders;
  }

  lemma {:induction false} HoldersDetach(orders: seq<Order>, id: PromoId, p: PromoId)
    requires p != id
    ensures Holders(Detach(orders, id), p) == Holders(orders, p)
  {
    if orders != [] {
      var n := |orders| - 1;
      assert Detach(orders, id)[..n] == Detach(orders[..n], id);
      HoldersDetach(orders[..n], id, p);
    }
  }

  lemma {:induction false} HolderCounts(orders: seq<Order>, i: nat, p: PromoId)
    requires i < |orders| && Holds(orders[i], p)
    ensures Holders(orders, p) >= 1
  {
    if i < |orders| - 1 {
      HolderCounts(orders[..|orders| - 1], i, p);
    }
  }

  lemma {:induction false} TwoHoldersCount(orders: seq<Order>, i: nat, j: nat, p: PromoId)
    requires i < j < |orders| && Holds(orders[i], p) && Holds(orders[j], p)
    ensures Holders(orders, p) >= 2
  {
    if j < |orders| - 1 {
      TwoHoldersCount(orders[..|orders| - 1], i, j, p);
    } else {
      HolderCounts(orders[..|orders| - 1], i, p);
    }
  }

  lemma {:induction false} UnreferredHasNoHolders(orders: seq<Order>, p: PromoId)
    requires forall i :: 0 <= i < |orders| ==> orders[i].promo != Some(p)
    ensures Holders(orders, p) == 0
  {
    if orders != [] {
      UnreferredHasNoHolders(orders[..|orders| - 1], p);
    }
  }

  ghost predicate Balances(orders: seq<Order>, promos: seq<Option<Promo>>, p: nat) {
    p < |promos| && promos[p].Some? ==> promos[p].value.uses == Holders(orders, p)
  }

  /** Each code's use counter is the number of live orders holding it. */
  ghost predicate Conserved(s: Store) { forall p: nat :: Balances(s.orders, s.promos, p) }

  /** The one way a step can lose count: the provider settles a transaction whose
      order the buyer has already cancelled, so the reservation is gone (perform) or
      is released a second time (cancel). */
  predicate SettlesOrphan(s: Store, e: Event) {
    && (e.Perform? || e.Cancel?)
    && e.key != "" && FindTxn(s.txns, e.key).Some?
    && var t := s.txns[FindTxn(s.txns, e.key).value];
       && t.state.Created? && t.order < |s.orders|
       && s.orders[t.order].status.Cancelled? && s.orders[t.order].promo.Some?
       && (e.Perform? ==> Grant(s.roster, e.cat, s.orders[t.order]).Ok?)
       && var p := s.orders[t.order].promo.value;
          p < |s.promos| && s.promos[p].Some? && (e.Cancel? ==> s.promos[p].value.uses > 0)
  }

  lemma RepriceConserves(s: Store, i: nat, q: Quote, later: Time)
    requires Conserved(s) && i < |s.orders| && s.orders[i].status.Pending?
    requires s.orders[i].promo != q.promo
    requires ReserveIf(ReleaseIf(s.promos, s.orders[i].promo), q.promo, later).Some?
    ensures Conserved(s.(promos := ReserveIf(ReleaseIf(s.promos, s.orders[i].promo), q.promo, later).value,
                             orders := s.orders[i := Priced(s.orders[i], q)]))
  {
    var o := Priced(s.orders[i], q);
    var s' := s.(promos := ReserveIf(ReleaseIf(s.promos, s.orders[i].promo), q.promo, later).value,
                 orders := s.orders[i := o]);
    forall p: nat ensures Balances(s'.orders, s'.promos, p) {
      assert Balances(s.orders, s.promos, p);
      HoldersUpdate(s.orders, i, o, p);
      if s.orders[i].promo == Some(p) {
        HolderCounts(s.orders, i, p);
      }
    }
  }

  lemma CreateOrderConserves(s: Store, cat: Catalog, user: UserId, item: Item, code: string, now: Time, later: Time)
    requires Coherent(s) && Conserved(s)
    ensures Conserved(CreateOrder(s, cat, user, item, code, now, later).0)
  {
    var s' := CreateOrder(s, cat, user, item, code, now, later).0;
    if s' != s {
      var q := QuoteFor(s, cat, item, code, now).value;
      var found := FindPending(s.orders, user, item);
      hide QuoteFor, FindPending;
      if found.Some? {
        RepriceConserves(s, found.value, q, later);
      } else {
        forall p: nat ensures Balances(s'.orders, s'.promos, p) {
          assert Balances(s.orders, s.promos, p);
          HoldersAppend(s.orders, Priced(Blank(user, item), q), p);
        }
      }
    }
  }

  /** Releasing on cancellation of a live order balances it. */
  lemma CancelConserves(s: Store, id: nat, o: Order)
    requires Conserved(s) && id < |s.orders| && !s.orders[id].status.Cancelled?
    requires o.status.Cancelled? && o.promo == s.orders[id].promo
    ensures Conserved(s.(promos := ReleaseIf(s.promos, s.orders[id].promo), orders := s.orders[id := o]))
  {
    var s' := s.(promos := ReleaseIf(s.promos, s.orders[id].promo), orders := s.orders[id := o]);
    forall p: nat ensures Balances(s'.orders, s'.promos, p) {
      assert Balances(s.orders, s.promos, p);
      HoldersUpdate(s.orders, id, o, p);
      if s.orders[id].promo == Some(p) {
        HolderCounts(s.orders, id, p);
      }
    }
  }

  /** Moving an order between two live statuses changes no count. */
  lemma LiveMoveConserves(s: Store, s': Store, id: nat)
    requires Conserved(s) && id < |s.orders| == |s'.orders| && s'.promos == s.promos
    requires s'.orders == s.orders[id := s'.orders[id]] && s'.orders[id].promo == s.orders[id].promo
    requires s.orders[id].status.Cancelled? <==> s'.orders[id].status.Cancelled?
    ensures Conserved(s')
  {
    forall p: nat ensures Balances(s'.orders, s'.promos, p) {
      assert Balances(s.orders, s.promos, p);
      HoldersUpdate(s.orders, id, s'.orders[id], p);
    }
  }

  lemma UnheldConserves(s: Store, s': Store, id: nat)
    requires Conserved(s) && id < |s.orders| == |s'.orders| && s'.promos == s.promos
    requires s'.orders == s.orders[id := s'.orders[id]] && s'.orders[id].promo == s.orders[id].promo == None
    ensures Conserved(s')
  {
    forall p: nat ensures Balances(s'.orders, s'.promos, p) {
      assert Balances(s.orders, s.promos, p);
      HoldersUpdate(s.orders, id, s'.orders[id], p);
    }
  }

  /** Settling an orphan leaves the code's counter one short. */
  lemma OrphanUnbalances(s: Store, s': Store, id: nat, p: PromoId)
    requires Conserved(s) && id < |s.orders| == |s'.orders| && s.orders[id].status.Cancelled?
    requires s.orders[id].promo == Some(p) && p < |s.promos| && s.promos[p].Some?
    requires s'.orders == s.orders[id := s'.orders[id]] && s'.orders[id].promo == Some(p)
    requires |s'.promos| == |s.promos| && s'.promos[p].Some?
    requires s'.promos[p].value.uses - One(Holds(s'.orders[id], p)) == s.promos[p].value.uses - 1
    ensures s'.promos[p].value.uses == Holders(s'.orders, p) - 1 && !Conserved(s')
  {
    assert Balances(s.orders, s.promos, p);
    HoldersUpdate(s.orders, id, s'.orders[id], p);
    assert !Balances(s'.orders, s'.promos, p);
  }

  lemma RpcPerformConserves(s: Store, cat: Catalog, key: string, now: Time)
    requires Coherent(s) && Conserved(s)
    ensures Conserved(RpcPerform(s, cat, key, now).0) <==> !SettlesOrphan(s, Perform(cat, key, now))
  {
    hide FindTxn, Grant, TxnsCoherent, OrdersCoherent, PromosCoherent, Refers, Balanced, PaidEntitled, Conserved;
    var (s', reply) := RpcPerform(s, cat, key, now);
    assert SettlesOrphan(s, Perform(cat, key, now)) ==> s' != s by {
      if SettlesOrphan(s, Perform(cat, key, now)) {
        var k := FindTxn(s.txns, key).value;
        assert s'.txns[k] != s.txns[k];
      }
    }
    if s' != s {
      var k := FindTxn(s.txns, key).value;
      var id := s.txns[k].order;
      TxnFacts(s.orders, s.txns, k);
      OrderFacts(s.orders, s.promos, id);
      if s.orders[id].status.Cancelled? && s.orders[id].promo.Some? {
        OrphanUnbalances(s, s', id, s.orders[id].promo.value);
      } else if s.orders[id].status.Cancelled? {
        UnheldConserves(s, s', id);
      } else {
        LiveMoveConserves(s, s', id);
      }
    }
  }

  lemma RpcCancelConserves(s: Store, key: string, reason: int, now: Time)
    requires Coherent(s) && Conserved(s)
    ensures Conserved(RpcCancel(s, key, reason, now).0) <==> !SettlesOrphan(s, Cancel(key, reason, now))
  {
    hide FindTxn, Grant, TxnsCoherent, OrdersCoherent, PromosCoherent, Refers, Balanced, PaidEntitled, Conserved;
    var (s', reply) := RpcCancel(s, key, reason, now);
    assert SettlesOrphan(s, Cancel(key, reason, now)) ==> s' != s by {
      if SettlesOrphan(s, Cancel(key, reason, now)) {
        var k := FindTxn(s.txns, key).value;
        assert s'.txns[k] != s.txns[k];
      }
    }
    if s' != s {
      var k := FindTxn(s.txns, key).value;
      var id := s.txns[k].order;
      TxnFacts(s.orders, s.txns, k);
      OrderFacts(s.orders, s.promos, id);
      if s.txns[k].state.Performed? {
        LiveMoveConserves(s, s', id);
      } else if !s.orders[id].status.Cancelled? {
        CancelConserves(s, id, s'.orders[id]);
        SameCodesConserve(s'.(txns := s.txns), s');
      } else if s.orders[id].promo.Some? && s.promos[s.orders[id].promo.value].value.uses > 0 {
        OrphanUnbalances(s, s', id, s.orders[id].promo.value);
      } else {
        LiveMoveConserves(s, s', id);
      }
    }
  }

  lemma RevokeConserves(s: Store, owns: bool, id: PromoId)
    requires Coherent(s) && Conserved(s)
    ensures Conserved(RevokePromo(s, owns, id).0)
  {
    var s' := RevokePromo(s, owns, id).0;
    forall p: nat ensures Balances(s'.orders, s'.promos, p) {
      assert Balances(s.orders, s.promos, p);
      if p != id {
        HoldersDetach(s.orders, id, p);
      }
    }
  }

  lemma CreatePromoConserves(s: Store, cat: Catalog, owns: bool, course: CourseId, code: string, kind: DiscountKind,
                             value: int, expiresAt: Option<Time>, now: Time)
    requires Coherent(s) && Conserved(s)
    ensures Conserved(CreatePromo(s, cat, owns, course, code, kind, value, expiresAt, now).0)
  {
    var s' := CreatePromo(s, cat, owns, course, code, kind, value, expiresAt, now).0;
    UnreferredHasNoHolders(s.orders, |s.promos|);
    forall p: nat ensures Balances(s'.orders, s'.promos, p) {
      assert Balances(s.orders, s.promos, p);
    }
  }

  lemma CancelOrderConserves(s: Store, user: UserId, id: OrderId, now: Time)
    requires Conserved(s)
    ensures Conserved(CancelOrder(s, user, id, now).0)
  {
    if !CancelOrder(s, user, id, now).1.Refused? {
      CancelConserves(s, id, CancelOrder(s, user, id, now).0.orders[id]);
    }
  }

  lemma PaysConserve(s: Store, cat: Catalog, user: UserId, id: OrderId, cardOk: bool, receipt: Option<string>,
                     now: Time)
    requires Conserved(s)
    ensures Conserved(PayWithCard(s, cat, user, id, cardOk, receipt, now).0)
  {
    hide Grant, FindTxn;
    if !PayWithCard(s, cat, user, id, cardOk, receipt, now).1.Refused? {
      LiveMoveConserves(s, PayWithCard(s, cat, user, id, cardOk, receipt, now).0, id);
    }
  }

  lemma PaymeConserves(s: Store, user: UserId, id: OrderId, configured: bool)
    requires Conserved(s)
    ensures Conserved(PayWithPayme(s, user, id, configured).0)
  {
    if !PayWithPayme(s, user, id, configured).1.Refused? {
      LiveMoveConserves(s, PayWithPayme(s, user, id, configured).0, id);
    }
  }

  lemma RpcCreateConserves(s: Store, account: Option<OrderId>, amount: int, key: string, time: nat)
    requires Conserved(s)
    ensures Conserved(RpcCreate(s, account, amount, key, time).0)
  {
    hide FindTxn;
    if RpcCreate(s, account, amount, key, time).0 != s {
      LiveMoveConserves(s, RpcCreate(s, account, amount, key, time).0, account.value);
    }
  }

  /** The exact condition: a step keeps conservation if and only if it does not
      settle the transaction of an order its buyer cancelled while it was open. */
  lemma StepConservesIff(s: Store, e: Event)
    requires Coherent(s) && Conserved(s)
    ensures Conserved(Apply(s, e).0) <==> !SettlesOrphan(s, e)
  {
    hide Coherent, Conserved, CreatePromo, RevokePromo, CreateOrder, CancelOrder, PayWithCard, PayWithPayme,
      RpcCreate, RpcPerform, RpcCancel, FindTxn;
    match e {
      case NewPromo(cat, owns, course, code, kind, value, expiresAt, now) =>
        CreatePromoConserves(s, cat, owns, course, code, kind, value, expiresAt, now);
      case Revoke(owns, promo) => RevokeConserves(s, owns, promo);
      case NewOrder(cat, user, item, code, now, later) => CreateOrderConserves(s, cat, user, item, code, now, later);
      case UserCancel(user, order, now) => CancelOrderConserves(s, user, order, now);
      case CardPay(cat, user, order, cardOk, receipt, now) => PaysConserve(s, cat, user, order, cardOk, receipt, now);
      case PaymePay(user, order, configured) => PaymeConserves(s, user, order, configured);
      case Create(account, amount, key, time) => RpcCreateConserves(s, account, amount, key, time);
      case Perform(cat, key, now) => RpcPerformConserves(s, cat, key, now);
      case Cancel(key, reason, now) => RpcCancelConserves(s, key, reason, now);
      case FreeEnroll(_, _, _) => SameCodesConserve(s, Apply(s, e).0);
      case FreeProgram(_, _, _) => SameCodesConserve(s, Apply(s, e).0);
      case CheckPerform(_, _) =>
      case Check(_) =>
    }
  }

  lemma SameCodesConserve(s: Store, s': Store)
    requires Conserved(s) && s'.orders == s.orders && s'.promos == s.promos
    ensures Conserved(s')
  {
    forall p: nat ensures Balances(s'.orders, s'.promos, p) {
      assert Balances(s.orders, s.promos, p);
    }
  }

  // ---------- Conservation over runs ----------

  ghost predicate Open(s: Store, i: nat) { HasTxnIn(s, i, Created) }

  /** A buyer cancelling an order whose provider transaction is still open. */
  ghost predicate CancelsInFlight(s: Store, e: Event) { e.UserCancel? && Open(s, e.order) }

  /** Runs in which no buyer does that. */
  ghost predicate Orderly(s: Store, events: seq<Event>)
    decreases |events|
  {
    events == [] || (!CancelsInFlight(s, events[0]) && Orderly(Apply(s, events[0]).0, events[1..]))
  }

  /** Every open transaction's order is still processing. */
  ghost predicate NoOrphans(s: Store) {
    forall k :: 0 <= k < |s.txns| && s.txns[k].state.Created? && s.txns[k].order < |s.orders| ==>
      s.orders[s.txns[k].order].status.Processing?
  }

  lemma NoOrphansNoLoss(s: Store, e: Event)
    requires NoOrphans(s)
    ensures !SettlesOrphan(s, e)
  {
  }

  lemma NewTxnIsProcessing(s: Store, e: Event, k: nat)
    requires |s.txns| <= k < |Apply(s, e).0.txns| && Apply(s, e).0.txns[k].state.Created?
    ensures var s' := Apply(s, e).0;
            s'.txns[k].order < |s'.orders| && s'.orders[s'.txns[k].order].status.Processing?
  {
    hide FindPending, QuoteFor, Grant, FindTxn;
  }

  /** An order becomes cancelled only by its buyer or together with its transaction. */
  lemma BecomesCancelled(s: Store, e: Event, i: nat)
    requires Coherent(s) && i < |s.orders| && !s.orders[i].status.Cancelled?
    requires i < |Apply(s, e).0.orders| && Apply(s, e).0.orders[i].status.Cancelled?
    ensures (e.UserCancel? && e.order == i)
         || (e.Cancel? && exists k :: 0 <= k < |s.txns| == |Apply(s, e).0.txns| && s.txns[k].order == i
                                      && Apply(s, e).0.txns[k].state.Voided?)
  {
    hide FindPending, QuoteFor, Grant, TxnsCoherent, OrdersCoherent, PromosCoherent;
    if e.Cancel? {
      var k := FindTxn(s.txns, e.key).value;
      assert s.txns[k].order == i && Apply(s, e).0.txns[k].state.Voided?;
    }
  }

  lemma StepMakesNoOrphans(s: Store, e: Event)
    requires Coherent(s) && NoOrphans(s) && !CancelsInFlight(s, e)
    ensures NoOrphans(Apply(s, e).0)
  {
    var s' := Apply(s, e).0;
    StepKeeps(s, e);
    forall k | 0 <= k < |s'.txns| && s'.txns[k].state.Created? ensures s'.orders[s'.txns[k].order].status.Processing? {
      if k < |s.txns| {
        OpenStaysProcessing(s, e, k);
      } else {
        NewTxnIsProcessing(s, e, k);
      }
    }
  }

  lemma OpenStaysProcessing(s: Store, e: Event, k: nat)
    requires Coherent(s) && NoOrphans(s) && !CancelsInFlight(s, e)
    requires k < |s.txns| && k < |Apply(s, e).0.txns| && Apply(s, e).0.txns[k].state.Created?
    ensures var s' := Apply(s, e).0;
            s'.txns[k].order < |s'.orders| && s'.orders[s'.txns[k].order].status.Processing?
  {
    var s' := Apply(s, e).0;
    StepKeeps(s, e);
    hide Apply, PromosCoherent, OrdersCoherent, Extends;
    var i := s.txns[k].order;
    assert s.txns[k].state.Created? && s'.txns[k].order == i;
    assert Open(s, i);
    if s'.orders[i].status.Cancelled? {
      BecomesCancelled(s, e, i);
    }
  }

  ghost predicate Sound(s: Store) { Coherent(s) && Conserved(s) && NoOrphans(s) }

  /** The tables start out sound. */
  lemma NothingSoldYet()
    ensures Sound(Store([], [], [], NOBODY))
  {
    var s := Store([], [], [], NOBODY);
    assert forall c :: Learners(NOBODY, c) == {};
    assert forall p: nat :: Balances(s.orders, s.promos, p);
  }

  lemma {:induction false} RunSnoc(s: Store, events: seq<Event>, n: nat)
    requires n < |events|
    ensures Run(s, events[..n + 1]) == Apply(Run(s, events[..n]), events[n]).0
    decreases n
  {
    hide Apply;
    if n == 0 {
      assert events[..1] == [events[0]] && [events[0]][1..] == [] && events[..0] == [];
    } else {
      assert events[..n + 1][0] == events[..n][0] == events[0];
      assert events[..n + 1][1..] == events[1..][..n] && events[..n][1..] == events[1..][..n - 1];
      RunSnoc(Apply(s, events[0]).0, events[1..], n - 1);
    }
  }

  /** No step of the run settles an orphan. */
  ghost predicate SettlesNone(s: Store, events: seq<Event>) {
    forall n :: 0 <= n < |events| ==> !SettlesOrphan(Run(s, events[..n]), events[n])
  }

  /** Each code's use counter is the number of live orders holding it, all along the run. */
  ghost predicate ConservedThroughout(s: Store, events: seq<Event>) {
    forall n :: 0 <= n <= |events| ==> Conserved(Run(s, events[..n]))
  }

  /** The exact condition over runs: conservation holds throughout if and only if no step
      settles the transaction of an already cancelled order. */
  lemma RunConservesIff(s: Store, events: seq<Event>)
    requires Coherent(s) && Conserved(s)
    ensures ConservedThroughout(s, events) <==> SettlesNone(s, events)
  {
    hide Coherent, Conserved, Run, SettlesOrphan;
    if ConservedThroughout(s, events) {
      forall n | 0 <= n < |events| ensures !SettlesOrphan(Run(s, events[..n]), events[n]) {
        assert Conserved(Run(s, events[..n])) && Conserved(Run(s, events[..n + 1]));
        StepConservesAt(s, events, n);
      }
    }
    if SettlesNone(s, events) {
      forall n | 0 <= n <= |events| ensures Conserved(Run(s, events[..n])) {
        ConservedUpTo(s, events, n);
      }
    }
  }

  lemma StepConservesAt(s: Store, events: seq<Event>, n: nat)
    requires Coherent(s) && n < |events| && Conserved(Run(s, events[..n]))
    ensures Conserved(Run(s, events[..n + 1])) <==> !SettlesOrphan(Run(s, events[..n]), events[n])
  {
    hide Coherent, Conserved, Run, SettlesOrphan, Apply;
    RunSnoc(s, events, n);
    RunKeeps(s, events[..n]);
    StepConservesIff(Run(s, events[..n]), events[n]);
  }

  lemma {:induction false} ConservedUpTo(s: Store, events: seq<Event>, n: nat)
    requires Coherent(s) && Conserved(s) && SettlesNone(s, events) && n <= |events|
    ensures Conserved(Run(s, events[..n]))
    decreases n
  {
    hide Coherent, Conserved, SettlesOrphan, Apply;
    if n > 0 {
      ConservedUpTo(s, events, n - 1);
      StepConservesAt(s, events, n - 1);
    }
  }

  lemma RunConserves(s: Store, events: seq<Event>)
    requires Coherent(s) && Conserved(s) && SettlesNone(s, events)
    ensures Coherent(Run(s, events)) && Conserved(Run(s, events))
  {
    hide Coherent, Conserved, SettlesOrphan, Apply, SettlesNone, Run;
    RunKeeps(s, events);
    ConservedUpTo(s, events, |events|);
    assert events[..|events|] == events;
  }

  /** Runs in which no buyer cancels a payment in flight never settle an orphan, and so
      conserve. */
  lemma {:induction false} OrderlyRunsConserve(s: Store, events: seq<Event>)
    requires Sound(s) && Orderly(s, events)
    ensures Sound(Run(s, events)) && SettlesNone(s, events)
    decreases |events|
  {
    hide Apply, SettlesOrphan, Coherent, Conserved;
    if events != [] {
      var next := Apply(s, events[0]).0;
      NoOrphansNoLoss(s, events[0]);
      StepSound(s, events[0]);
      OrderlyRunsConserve(next, events[1..]);
      forall n | 0 <= n < |events| ensures !SettlesOrphan(Run(s, events[..n]), events[n]) {
        if n == 0 {
          assert events[..0] == [];
        } else {
          assert events[..n][1..] == events[1..][..n - 1] && events[..n][0] == events[0];
          assert events[n] == events[1..][n - 1];
        }
      }
    }
  }

  lemma StepSound(s: Store, e: Event)
    requires Sound(s) && !CancelsInFlight(s, e)
    ensures Sound(Apply(s, e).0)
  {
    StepKeeps(s, e);
    NoOrphansNoLoss(s, e);
    StepConservesIff(s, e);
    StepMakesNoOrphans(s, e);
  }

  /** Order i is paid and holds code p, but the code's counter is one short. */
  ghost predicate Oversold(s: Store, i: nat, p: PromoId) {
    && i < |s.orders| && s.orders[i].status.Paid? && s.orders[i].promo == Some(p)
    && p < |s.promos| && s.promos[p].Some? && s.promos[p].value.uses == Holders(s.orders, p) - 1
  }

  /** The hypothesis is needed: whenever a buyer cancels a processing order that holds
      a code and the provider then performs the payment, the order is paid and holds
      the code, but the code no longer counts it. */
  lemma {:induction false} InFlightCancelOversells(s: Store, i: nat, k: nat, now: Time, cat: Catalog, later: Time)
    requires Sound(s) && i < |s.orders| && s.orders[i].status.Processing? && s.orders[i].promo.Some?
    requires k < |s.txns| && s.txns[k].order == i && s.txns[k].key != ""
    requires Grant(s.roster, cat, s.orders[i].(status := OrderStatus.Cancelled, cancelledAt := Some(now))).Ok?
    ensures Oversold(Run(s, [UserCancel(s.orders[i].user, i, now), Perform(cat, s.txns[k].key, later)]),
                     i, s.orders[i].promo.value)
  {
    hide Coherent, Conserved, NoOrphans, CancelOrder, RpcPerform, FindTxn, Grant, Oversold;
    var key := s.txns[k].key;
    var s1 := CancelOrder(s, s.orders[i].user, i, now).0;
    CancelledInFlight(s, i, k, now);
    RunTwo(s, UserCancel(s.orders[i].user, i, now), Perform(cat, key, later));
    PerformsOrphan(s1, k, cat, later);
  }

  /** What follows for a code nobody else holds: another buyer can order with it, so two
      live orders hold one single-use code ... */
  lemma OversoldCodeIsResold(s: Store, i: nat, p: PromoId, cat: Catalog, user: UserId, now: Time)
    requires Coherent(s) && Oversold(s, i, p) && Holders(s.orders, p) == 1
    requires var promo := s.promos[p].value;
             && promo.active && !Expired(promo, now) && promo.maxUses == 1 && promo.code != ""
             && cat.OpenCourse(promo.course)
             && cat.courses[promo.course].price > Discount(promo.kind, promo.value, cat.courses[promo.course].price)
             && FindPending(s.orders, user, CourseItem(promo.course)).None?
    ensures var promo := s.promos[p].value;
            var (s', reply) := CreateOrder(s, cat, user, CourseItem(promo.course), promo.code, now, now);
            && reply == OrderReply(|s.orders|) && |s'.orders| == |s.orders| + 1
            && Holds(s'.orders[i], p) && Holds(s'.orders[|s.orders|], p)
  {
    hide FindPending, Discount, TxnsCoherent, OrdersCoherent, Refers, Balanced, PaidEntitled;
    var promo := s.promos[p].value;
    FoundIff(s.promos, promo.code, promo.course, now, p);
    assert QuoteFor(s, cat, CourseItem(promo.course), promo.code, now)
        == Ok(Quote(cat.courses[promo.course].price, Some(p), Discount(promo.kind, promo.value,
            cat.courses[promo.course].price)));
  }

  /** ... and its owner can delete it, detaching it from the order paid with it. */
  lemma OversoldCodeIsDetached(s: Store, i: nat, p: PromoId)
    requires Oversold(s, i, p) && Holders(s.orders, p) == 1
    ensures var s' := RevokePromo(s, true, p).0;
            |s'.orders| == |s.orders| && s'.orders[i].status.Paid? && s'.orders[i].promo.None?
  {
  }

  lemma CancelledInFlight(s: Store, i: nat, k: nat, now: Time)
    requires Sound(s) && i < |s.orders| && s.orders[i].status.Processing?
    requires k < |s.txns| && s.txns[k].order == i
    ensures var s1 := CancelOrder(s, s.orders[i].user, i, now).0;
            && Coherent(s1) && Conserved(s1) && s1.txns == s.txns && s1.roster == s.roster
            && |s1.orders| == |s.orders|
            && s1.orders[i] == s.orders[i].(status := OrderStatus.Cancelled, cancelledAt := Some(now))
            && s1.txns[k].state.Created? && FindTxn(s1.txns, s.txns[k].key) == Some(k)
  {
    hide FindTxn, OrdersCoherent, PromosCoherent, Refers, Balanced, PaidEntitled, Conserved, Onward;
    assert Matches(s.orders[i].status, s.txns[k].state);
    CancelOrderKeeps(s, s.orders[i].user, i, now);
    CancelOrderConserves(s, s.orders[i].user, i, now);
    FoundAt(s.txns, k);
  }

  lemma RunTwo(s: Store, e1: Event, e2: Event)
    ensures Run(s, [e1, e2]) == Apply(Apply(s, e1).0, e2).0
  {
    hide Apply;
    assert [e1, e2][1..] == [e2] && [e2][1..] == [];
    assert Run(s, [e1, e2]) == Run(Apply(s, e1).0, [e2]);
  }

  lemma PerformsOrphan(s: Store, k: nat, cat: Catalog, now: Time)
    requires Coherent(s) && Conserved(s) && k < |s.txns| && s.txns[k].key != "" && s.txns[k].state.Created?
    requires FindTxn(s.txns, s.txns[k].key) == Some(k)
    requires var o := s.orders[s.txns[k].order]; o.status.Cancelled? && o.promo.Some? && Grant(s.roster, cat, o).Ok?
    ensures Oversold(RpcPerform(s, cat, s.txns[k].key, now).0, s.txns[k].order, s.orders[s.txns[k].order].promo.value)
  {
    hide FindTxn, Grant;
    var i := s.txns[k].order;
    OrphanUnbalances(s, RpcPerform(s, cat, s.txns[k].key, now).0, i, s.orders[i].promo.value);
  }

  // ---------- A run that oversells ----------

  const SHOP := Catalog(map[0 := Course(true, 100)], map[])

  const TEN_OFF := Promo(0, "TENOFF", Percent, 10, 1, 0, None, true)

  /** A code is created, ordered with, and its payment opened. */
  const OPENING := [NewPromo(SHOP, true, 0, "TENOFF", Percent, 10, None, 0),
                    NewOrder(SHOP, 0, CourseItem(0), "TENOFF", 0, 0),
                    Create(Some(0), 90, "payme-1", 1)]

  /** The buyer cancels and the provider performs all the same. */
  const CROSSING := [UserCancel(0, 0, 2), Perform(SHOP, "payme-1", 3)]

  lemma ThreeSteps(s: Store, a: Event, b: Event, c: Event)
    ensures Run(s, [a, b, c]) == Apply(Apply(Apply(s, a).0, b).0, c).0
  {
    hide Apply;
    assert [a, b, c][1..] == [b, c];
    RunTwo(Apply(s, a).0, b, c);
  }

  lemma {:induction false} RunSplits(s: Store, a: seq<Event>, b: seq<Event>)
    ensures Run(s, a + b) == Run(Run(s, a), b)
    decreases |a|
  {
    hide Apply;
    if a == [] {
      assert a + b == b;
    } else {
      assert (a + b)[1..] == a[1..] + b;
      RunSplits(Apply(s, a[0]).0, a[1..], b);
    }
  }

  function Offered(uses: int): seq<Option<Promo>> { [Some(TEN_OFF.(uses := uses))] }

  function Bought(status: OrderStatus, provider: Option<Provider>): Order {
    Order(0, CourseItem(0), 90, Some(100), 10, Some(0), status, provider, None, None)
  }

  const OPENED := Store([Bought(Processing, Some(Payme))],
                        [Txn(0, Payme, "payme-1", Some(1), Created, 90, None, None, None)], Offered(1), NOBODY)

  lemma OpeningOffers()
    ensures Apply(Store([], [], [], NOBODY), OPENING[0]).0 == Store([], [], Offered(0), NOBODY)
  {
  }

  lemma OpeningOrders()
    ensures Apply(Store([], [], Offered(0), NOBODY), OPENING[1]).0 ==
        Store([Bought(Pending, None)], [], Offered(1), NOBODY)
  {
    assert FindActive(Offered(0), "TENOFF", 0, 0) == Ok(0);
    assert Discount(Percent, 10, 100) == 10;
    assert QuoteFor(Store([], [], Offered(0), NOBODY), SHOP, CourseItem(0), "TENOFF", 0) == Ok(Quote(100, Some(0), 10));
  }

  lemma OpeningCharges()
    ensures Apply(Store([Bought(Pending, None)], [], Offered(1), NOBODY), OPENING[2]).0 == OPENED
  {
  }

  lemma OpeningReaches()
    ensures Run(Store([], [], [], NOBODY), OPENING) == OPENED && Sound(OPENED)
  {
    hide Apply, Sound;
    var s0 := Store([], [], [], NOBODY);
    var s1 := Store([], [], Offered(0), NOBODY);
    var s2 := Store([Bought(Pending, None)], [], Offered(1), NOBODY);
    OpeningOffers();
    OpeningOrders();
    OpeningCharges();
    ThreeSteps(s0, OPENING[0], OPENING[1], OPENING[2]);
    NothingSoldYet();
    StepSound(s0, OPENING[0]);
    StepSound(s1, OPENING[1]);
    StepSound(s2, OPENING[2]);
  }

  /** From the empty tables: after these five calls order 0 is paid with code 0, which
      counts no use although its limit is one. */
  lemma OversellingIsReached()
    ensures var s := Run(Store([], [], [], NOBODY), OPENING + CROSSING);
            && Coherent(s) && Oversold(s, 0, 0) && Holders(s.orders, 0) == 1 && |s.orders| == 1
            && s.promos == Offered(0)
  {
    hide Apply, Sound, Oversold, Coherent, Run;
    OpeningReaches();
    var s0 := Store([], [], [], NOBODY);
    RunSplits(s0, OPENING, CROSSING);
    assert [UserCancel(OPENED.orders[0].user, 0, 2), Perform(SHOP, OPENED.txns[0].key, 3)] == CROSSING;
    SoundFacts(OPENED);
    InFlightCancelOversells(OPENED, 0, 0, 2, SHOP, 3);
    RunKeeps(OPENED, CROSSING);
    CrossingEnds();
  }

  lemma SoundFacts(s: Store)
    requires Sound(s)
    ensures Coherent(s) && Conserved(s)
  {
  }

  lemma CrossingEnds()
    ensures var s := Run(OPENED, CROSSING);
            && |s.orders| == 1 && s.orders[0].promo == Some(0) && s.orders[0].status.Paid? && s.promos == Offered(0)
            && Holders(s.orders, 0) == 1
  {
    RunTwo(OPENED, CROSSING[0], CROSSING[1]);
    hide Run;
    var s1 := Apply(OPENED, CROSSING[0]).0;
    assert s1.promos == Offered(0);
    assert FindTxn(s1.txns, "payme-1") == Some(0);
    var s := Apply(s1, CROSSING[1]).0;
    assert s.orders[..0] == [];
  }

  /** There the same single-use code sells a second time, and its owner can delete it
      from under the paid order: exactly what the laws below exclude for other runs. */
  lemma OversoldRunContinues()
    ensures var s := Run(Store([], [], [], NOBODY), OPENING + CROSSING);
            && (var (s', reply) := CreateOrder(s, SHOP, 1, CourseItem(0), "TENOFF", 4, 4);
                reply == OrderReply(1) && |s'.orders| == 2 && Holds(s'.orders[0], 0) && Holds(s'.orders[1], 0))
            && (var s' := RevokePromo(s, true, 0).0;
                |s'.orders| == 1 && s'.orders[0].status.Paid? && s'.orders[0].promo.None?)
  {
    hide Run, Coherent, Oversold, CreateOrder, RevokePromo;
    OversellingIsReached();
    var s := Run(Store([], [], [], NOBODY), OPENING + CROSSING);
    OversoldIsPaid(s);
    assert Discount(Percent, 10, 100) == 10;
    OversoldCodeIsResold(s, 0, 0, SHOP, 1, 4);
    OversoldCodeIsDetached(s, 0, 0);
  }

  lemma OversoldIsPaid(s: Store)
    requires Oversold(s, 0, 0) && |s.orders| == 1
    ensures s.orders[0].status.Paid? && FindPending(s.orders, 1, CourseItem(0)).None?
  {
  }

  // ---------- Single use ----------

  /** Single use: with a limit of one, no two live orders ever hold the same code. */
  lemma SingleUse(s: Store, events: seq<Event>, p: PromoId, i: nat, j: nat)
    requires Coherent(s) && Conserved(s) && SettlesNone(s, events)
    requires var r := Run(s, events);
             && p < |r.promos| && r.promos[p].Some? && r.promos[p].value.maxUses == 1
             && i < |r.orders| && j < |r.orders| && Holds(r.orders[i], p) && Holds(r.orders[j], p)
    ensures i == j
  {
    RunConserves(s, events);
    var r := Run(s, events);
    assert Balances(r.orders, r.promos, p);
    if i < j {
      TwoHoldersCount(r.orders, i, j, p);
    } else if j < i {
      TwoHoldersCount(r.orders, j, i, p);
    }
  }

  /** Revoking detaches a code from an order exactly when its owner deletes it while its
      counter stands at zero. */
  lemma RevokeDetachesIff(s: Store, owns: bool, id: PromoId, i: nat)
    requires i < |s.orders| && s.orders[i].promo == Some(id) && id < |s.promos| && s.promos[id].Some?
    ensures RevokePromo(s, owns, id).0.orders[i] != s.orders[i] <==> owns && s.promos[id].value.uses <= 0
  {
  }

  /** Revoking a code, used or not, never detaches it from a live order. */
  lemma RevokeKeepsLiveOrders(s: Store, owns: bool, id: PromoId, i: nat)
    requires Coherent(s) && Conserved(s) && i < |s.orders| && !s.orders[i].status.Cancelled?
    ensures RevokePromo(s, owns, id).0.orders[i] == s.orders[i]
  {
    if s.orders[i].promo == Some(id) {
      HolderCounts(s.orders, i, id);
      assert Balances(s.orders, s.promos, id);
    }
  }

  lemma PendingIsFound(orders: seq<Order>, i: nat)
    requires OrdersCoherent(orders) && i < |orders| && orders[i].status.Pending?
    ensures FindPending(orders, orders[i].user, orders[i].item) == Some(i)
  {
  }

  /** Typing the code of one's own pending order again: exactly when that order is handed
      back untouched. In every other case the call is refused. */
  lemma ReapplyingIff(s: Store, cat: Catalog, i: nat, p: PromoId, now: Time, later: Time)
    requires Coherent(s) && i < |s.orders| && s.orders[i].status.Pending? && s.orders[i].promo == Some(p)
    requires s.promos[p].value.code != ""
    ensures var o, promo := s.orders[i], s.promos[p].value;
            var r := CreateOrder(s, cat, o.user, o.item, promo.code, now, later);
            && (r == (s, OrderReply(i)) <==>
                  && o.item.CourseItem? && cat.OpenCourse(o.item.course) && cat.courses[o.item.course].price > 0
                  && promo.course == o.item.course && Reservable(s.promos, p, now)
                  && cat.courses[o.item.course].price > Discount(promo.kind, promo.value,
                      cat.courses[o.item.course].price))
            && (r != (s, OrderReply(i)) ==> r.1.Refused?)
  {
    hide Coherent, FindPending, FindActive, Discount, Reservable;
    CoherentParts(s);
    var o, promo := s.orders[i], s.promos[p].value;
    PendingIsFound(s.orders, i);
    if o.item.CourseItem? {
      FoundIff(s.promos, promo.code, o.item.course, now, p);
      OnlyFound(s.promos, p, o.item.course, now);
    }
  }

  lemma CoherentParts(s: Store)
    requires Coherent(s)
    ensures OrdersCoherent(s.orders) && PromosCoherent(s.promos) && Refers(s.orders, s.promos)
  {
  }

  /** The lookup of a code's own text finds that code or nothing. */
  lemma OnlyFound(promos: seq<Option<Promo>>, p: PromoId, course: CourseId, now: Time)
    requires PromosCoherent(promos) && p < |promos| && promos[p].Some?
    ensures var r := FindActive(promos, promos[p].value.code, course, now); r.Ok? ==> r == Ok(p)
  {
  }

  /** So under conservation a single-use code is refused: the order's own reservation has
      exhausted it, and the lookup fails before the pending order is considered. */
  lemma ReapplyingIsRefused(s: Store, cat: Catalog, i: nat, p: PromoId, now: Time, later: Time)
    requires Coherent(s) && Conserved(s)
    requires i < |s.orders| && s.orders[i].status.Pending? && s.orders[i].promo == Some(p)
    requires p < |s.promos| && s.promos[p].Some? && s.promos[p].value.maxUses == 1 && s.promos[p].value.code != ""
    ensures CreateOrder(s, cat, s.orders[i].user, s.orders[i].item, s.promos[p].value.code, now, later).1.Refused?
  {
    hide Coherent, FindActive, FindPending, Discount;
    HolderCounts(s.orders, i, p);
    assert Balances(s.orders, s.promos, p);
    ReapplyingIff(s, cat, i, p, now, later);
  }

  /** After OPENING: the first buyer cancels, a second one orders with the code, and the
      provider cancels the first one's transaction, releasing the code once more. */
  const RELEASING := [UserCancel(0, 0, 2), NewOrder(SHOP, 1, CourseItem(0), "TENOFF", 3, 3), Cancel("payme-1", 5, 4)]

  const RELEASED := Store([Bought(OrderStatus.Cancelled, Some(Payme)).(cancelledAt := Some(4)),
                           Bought(Pending, None).(user := 1)],
                          [Txn(0, Payme, "payme-1", Some(1), Voided, 90, None, Some(4), Some(5))], Offered(0), NOBODY)

  lemma ReleasingReaches()
    ensures Run(OPENED, RELEASING) == RELEASED
  {
    hide Apply;
    var s1 := OPENED.(orders := [Bought(OrderStatus.Cancelled, Some(Payme)).(cancelledAt := Some(2))],
        promos := Offered(0));
    var s2 := s1.(orders := s1.orders + [Bought(Pending, None).(user := 1)], promos := Offered(1));
    ReleasingCancels(s1);
    ReleasingOrders(s1, s2);
    ReleasingVoids(s2);
    ThreeSteps(OPENED, RELEASING[0], RELEASING[1], RELEASING[2]);
  }

  lemma ReleasingCancels(s1: Store)
    requires s1 == OPENED.(orders := [Bought(OrderStatus.Cancelled, Some(Payme)).(cancelledAt := Some(2))],
        promos := Offered(0))
    ensures Apply(OPENED, RELEASING[0]).0 == s1
  {
  }

  lemma ReleasingOrders(s1: Store, s2: Store)
    requires s1 == OPENED.(orders := [Bought(OrderStatus.Cancelled, Some(Payme)).(cancelledAt := Some(2))],
        promos := Offered(0))
    requires s2 == s1.(orders := s1.orders + [Bought(Pending, None).(user := 1)], promos := Offered(1))
    ensures Apply(s1, RELEASING[1]).0 == s2
  {
    assert FindActive(Offered(0), "TENOFF", 0, 3) == Ok(0);
    assert Discount(Percent, 10, 100) == 10;
    assert QuoteFor(s1, SHOP, CourseItem(0), "TENOFF", 3) == Ok(Quote(100, Some(0), 10));
    assert FindPending(s1.orders, 1, CourseItem(0)).None?;
  }

  lemma ReleasingVoids(s2: Store)
    requires s2 == OPENED.(orders := [Bought(OrderStatus.Cancelled, Some(Payme)).(cancelledAt := Some(2)),
                                      Bought(Pending, None).(user := 1)], promos := Offered(1))
    ensures Apply(s2, RELEASING[2]).0 == RELEASED
  {
    assert FindTxn(s2.txns, "payme-1") == Some(0);
  }

  /** Without conservation it does happen: on this run from the empty tables the second
      buyer's retyped single-use code returns the pending order untouched. */
  lemma ReapplyingIsReturned()
    ensures var s := Run(Store([], [], [], NOBODY), OPENING + RELEASING);
            CreateOrder(s, SHOP, 1, CourseItem(0), "TENOFF", 5, 5) == (s, OrderReply(1))
  {
    hide Apply, Run, Coherent, CreateOrder;
    OpeningReaches();
    RunSplits(Store([], [], [], NOBODY), OPENING, RELEASING);
    ReleasingReaches();
    SoundFacts(OPENED);
    RunKeeps(OPENED, RELEASING);
    assert Discount(Percent, 10, 100) == 10;
    ReapplyingIff(RELEASED, SHOP, 1, 0, 5, 5);
  }

  predicate Sold(o: Order, p: PromoId) { o.promo == Some(p) && (o.status.Paid? || o.status.Refunded?) }

  lemma StepKeepsSold(s: Store, e: Event, i: nat, p: PromoId)
    requires Coherent(s) && Conserved(s) && i < |s.orders| && Sold(s.orders[i], p)
    ensures i < |Apply(s, e).0.orders| && Sold(Apply(s, e).0.orders[i], p)
  {
    StepKeeps(s, e);
    if e.Revoke? {
      RevokeKeepsLiveOrders(s, e.owns, e.promo, i);
    } else {
      hide Apply, Coherent, Extends, TxnsOnward, PromosOnward;
    }
  }

  lemma {:induction false} RunKeepsSold(s: Store, events: seq<Event>, i: nat, p: PromoId, n: nat)
    requires Coherent(s) && Conserved(s) && SettlesNone(s, events) && i < |s.orders| && Sold(s.orders[i], p)
    requires n <= |events|
    ensures i < |Run(s, events[..n]).orders| && Sold(Run(s, events[..n]).orders[i], p)
    decreases n
  {
    hide Apply, Coherent, Conserved, SettlesNone, Sold;
    if n > 0 {
      RunKeepsSold(s, events, i, p, n - 1);
      RunSnoc(s, events, n - 1);
      RunKeeps(s, events[..n - 1]);
      ConservedUpTo(s, events, n - 1);
      StepKeepsSold(Run(s, events[..n - 1]), events[n - 1], i, p);
    } else {
      assert events[..0] == [];
    }
  }

  /** A single-use code an order was paid with is spent for good: after any run that
      settles no orphan, even past a refund, it is attached to that order and can be
      neither reserved nor offered at checkout. */
  lemma {:induction false} PaidCodeIsSpent(s: Store, events: seq<Event>, i: nat, p: PromoId, now: Time)
    requires Coherent(s) && Conserved(s) && SettlesNone(s, events) && i < |s.orders| && Sold(s.orders[i], p)
    requires p < |s.promos| && s.promos[p].Some? && s.promos[p].value.maxUses == 1
    ensures var r := Run(s, events);
            && i < |r.orders| && Sold(r.orders[i], p)
            && p < |r.promos| && r.promos[p].Some? && r.promos[p].value.uses == 1
            && !Reservable(r.promos, p, now)
            && forall code, course :: FindActive(r.promos, code, course, now) != Ok(p)
  {
    hide Run, SettlesNone, TxnsOnward, OrdersOnward, Extends;
    RunKeepsSold(s, events, i, p, |events|);
    assert events[..|events|] == events;
    RunConserves(s, events);
    RunKeeps(s, events);
    var r := Run(s, events);
    SpentCode(r, i, p);
  }

  lemma SpentCode(r: Store, i: nat, p: PromoId)
    requires Coherent(r) && Conserved(r) && i < |r.orders| && Sold(r.orders[i], p)
    requires p < |r.promos| && (r.promos[p].Some? ==> r.promos[p].value.maxUses == 1)
    ensures r.promos[p].Some? && r.promos[p].value.uses == 1
  {
    HolderCounts(r.orders, i, p);
    assert Balances(r.orders, r.promos, p);
  }

  /** The counter stays within its limit in every run whatsoever. */
  lemma {:induction false} UsesStayInRange(s: Store, events: seq<Event>, p: PromoId)
    requires Coherent(s)
    ensures var r := Run(s, events);
            p < |r.promos| && r.promos[p].Some? ==> 0 <= r.promos[p].value.uses <= r.promos[p].value.maxUses
  {
    RunKeeps(s, events);
  }

  // ---------- At-least-once delivery ----------

  datatype Call = CreateCall(key: string) | PerformCall(key: string) | CancelCall(key: string)

  function CallOf(e: Event): Option<Call> {
    match e
    case Create(_, _, key, _) => Some(CreateCall(key))
    case Perform(_, key, _) => Some(PerformCall(key))
    case Cancel(key, _, _) => Some(CancelCall(key))
    case _ => None
  }

  /** The tables already reflect a successful delivery of this call. */
  predicate Handled(s: Store, c: Call) {
    && c.key != "" && FindTxn(s.txns, c.key).Some?
    && var state := s.txns[FindTxn(s.txns, c.key).value].state;
       match c
       case CreateCall(_) => true
       case PerformCall(_) => state.Performed? || state.Reversed?
       case CancelCall(_) => state.Voided? || state.Reversed?
  }

  lemma FoundAt(txns: seq<Txn>, k: nat)
    requires k < |txns| && forall i, j :: 0 <= i < j < |txns| ==> txns[i].key != txns[j].key
    ensures FindTxn(txns, txns[k].key) == Some(k)
  {
  }

  lemma CreateOutcome(s: Store, account: Option<OrderId>, amount: int, key: string, time: nat)
    requires !RpcCreate(s, account, amount, key, time).1.Refused?
    ensures var (s', reply) := RpcCreate(s, account, amount, key, time);
            && key != "" && reply.TxnReply? && reply.txn < |s'.txns| && s'.txns[reply.txn].key == key
  {
  }

  lemma PerformOutcome(s: Store, cat: Catalog, key: string, now: Time)
    requires !RpcPerform(s, cat, key, now).1.Refused?
    ensures var (s', reply) := RpcPerform(s, cat, key, now);
            && key != "" && reply.TxnReply? && reply.txn < |s'.txns|
            && var t := s'.txns[reply.txn];
               t.key == key && t.state.Performed? && reply == TxnReply(reply.txn, MillisOr0(t.performTime), 2)
  {
    hide Grant;
  }

  lemma CancelOutcome(s: Store, key: string, reason: int, now: Time)
    requires !RpcCancel(s, key, reason, now).1.Refused?
    ensures var (s', reply) := RpcCancel(s, key, reason, now);
            && key != "" && reply.TxnReply? && reply.txn < |s'.txns|
            && var t := s'.txns[reply.txn];
               && t.key == key && (t.state.Voided? || t.state.Reversed?)
               && reply == TxnReply(reply.txn, MillisOr0(t.cancelTime), StateCode(t.state))
  {
  }

  lemma AcceptedIsHandled(s: Store, e: Event)
    requires Coherent(s) && CallOf(e).Some? && !Apply(s, e).1.Refused?
    ensures var (s', reply) := Apply(s, e);
            && reply.TxnReply? && FindTxn(s'.txns, e.key) == Some(reply.txn)
            && Handled(s', CallOf(e).value)
  {
    StepKeeps(s, e);
    hide FindTxn, RpcCreate, RpcPerform, RpcCancel, OrdersCoherent, PromosCoherent;
    match e {
      case Create(account, amount, key, time) => CreateOutcome(s, account, amount, key, time);
      case Perform(cat, key, now) => PerformOutcome(s, cat, key, now);
      case Cancel(key, reason, now) => CancelOutcome(s, key, reason, now);
      case _ =>
    }
    FoundAt(Apply(s, e).0.txns, Apply(s, e).1.txn);
  }

  lemma HandledStays(s: Store, e: Event, c: Call)
    requires Coherent(s) && Handled(s, c)
    ensures Handled(Apply(s, e).0, c)
  {
    StepKeeps(s, e);
    hide Apply, Extends;
    var k := FindTxn(s.txns, c.key).value;
    FoundAt(Apply(s, e).0.txns, k);
  }

  /** Once a call has succeeded, redelivering it, with whatever parameters and at
      whatever time, leaves every table unchanged. */
  lemma RedeliveryIsHarmless(s: Store, e: Event)
    requires CallOf(e).Some? && Handled(s, CallOf(e).value)
    ensures Apply(s, e).0 == s
  {
  }

  /** The run with every redelivery of an already successful call erased. */
  function Erased(s: Store, events: seq<Event>, seen: set<Call>): seq<Event>
    decreases |events|
  {
    if events == [] then []
    else
      var e, c, next := events[0], CallOf(events[0]), Apply(s, events[0]);
      if c.Some? && c.value in seen then Erased(s, events[1..], seen)
      else [e] + Erased(next.0, events[1..], if c.Some? && !next.1.Refused? then seen + {c.value} else seen)
  }

  /** At-least-once delivery: duplicates interleaved with arbitrary other steps make
      no difference to where a run ends. */
  lemma {:induction false} DuplicatesMakeNoDifference(s: Store, events: seq<Event>, seen: set<Call>)
    requires Coherent(s) && forall c :: c in seen ==> Handled(s, c)
    ensures Run(s, Erased(s, events, seen)) == Run(s, events)
    decreases |events|
  {
    if events != [] {
      var e, c, next := events[0], CallOf(events[0]), Apply(s, events[0]);
      if c.Some? && c.value in seen {
        RedeliveryIsHarmless(s, e);
        DuplicatesMakeNoDifference(s, events[1..], seen);
      } else {
        StepKeeps(s, e);
        var seen' := if c.Some? && !next.1.Refused? then seen + {c.value} else seen;
        forall d | d in seen' ensures Handled(next.0, d) {
          if d in seen {
            HandledStays(s, e, d);
          } else {
            AcceptedIsHandled(s, e);
          }
        }
        DuplicatesMakeNoDifference(next.0, events[1..], seen');
        var rest := Erased(next.0, events[1..], seen');
        assert Erased(s, events, seen) == [e] + rest && ([e] + rest)[1..] == rest;
      }
    }
  }

  /** A provider that retries at once is told the same thing again. */
  lemma RetryGetsSameReply(s: Store, e: Event, again: Event)
    requires Coherent(s) && CallOf(e).Some? && CallOf(again) == CallOf(e) && !Apply(s, e).1.Refused?
    requires e.Create? ==> again == e
    ensures Apply(Apply(s, e).0, again).1 == Apply(s, e).1
  {
    AcceptedIsHandled(s, e);
    match e {
      case Create(account, amount, key, time) => CreateRetried(s, account, amount, key, time);
      case Perform(cat, key, now) =>
        PerformOutcome(s, cat, key, now);
        hide FindTxn, Grant;
        assert RpcPerform(Apply(s, e).0, again.cat, key, again.now).1 == Apply(s, e).1;
      case Cancel(key, reason, now) =>
        CancelOutcome(s, key, reason, now);
        hide FindTxn;
        assert RpcCancel(Apply(s, e).0, key, again.reason, again.now).1 == Apply(s, e).1;
      case _ =>
    }
  }

  lemma CreateRetried(s: Store, account: Option<OrderId>, amount: int, key: string, time: nat)
    requires !RpcCreate(s, account, amount, key, time).1.Refused?
    requires FindTxn(RpcCreate(s, account, amount, key, time).0.txns, key) ==
        Some(RpcCreate(s, account, amount, key, time).1.txn)
    ensures RpcCreate(RpcCreate(s, account, amount, key, time).0, account, amount, key, time).1
         == RpcCreate(s, account, amount, key, time).1
  {
  }
}
