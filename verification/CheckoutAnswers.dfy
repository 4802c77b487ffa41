/** Exactly when each checkout call succeeds, and what it then leaves in the tables: stated
    over coherent tables in terms of rows and catalog alone. */
module CheckoutAnswers {
  import opened Prelude
  import opened Enrolling
  import opened Checkout
  import opened CheckoutLaws

  // ---------- Rows and catalog ----------

  predicate OnSale(cat: Catalog, item: Item) {
    match item
    case CourseItem(c) => c in cat.courses && cat.courses[c].published
    case ProgramItem(p) => p in cat.programs && cat.programs[p].published
  }

  /** q is r with the item handed to u: its course, or its program row with every course
      the catalog requires now; a program row u already has is left as it is. */
  ghost predicate HandsOver(cat: Catalog, r: Roster, q: Roster, u: UserId, item: Item) {
    match item
    case CourseItem(c) => Adds(r, q, u, {c}) && q.programs == r.programs
    case ProgramItem(p) =>
      && p in cat.programs
      && (if (u, p) in r.programs then q == r
          else q.programs == r.programs[(u, p) := RequiredOf(cat, p)] && Adds(r, q, u, RequiredOf(cat, p)))
  }

  /** The k-th transaction is the one the provider calls `key`. */
  predicate Carries(s: Store, k: nat, key: string) { key != "" && k < |s.txns| && s.txns[k].key == key }

  /** One use of the code is given back. */
  ghost predicate GivesBack(ps: seq<Option<Promo>>, qs: seq<Option<Promo>>, id: Option<PromoId>) {
    && |qs| == |ps|
    && forall p :: 0 <= p < |ps| ==>
         qs[p] == if id == Some(p) && ps[p].Some? && ps[p].value.uses > 0
                  then Some(ps[p].value.(uses := ps[p].value.uses - 1)) else ps[p]
  }

  lemma GrantIff(r: Roster, cat: Catalog, o: Order)
    ensures Grant(r, cat, o).Ok? <==> OnSale(cat, o.item)
    ensures Grant(r, cat, o).Ok? ==> HandsOver(cat, r, Grant(r, cat, o).value, o.user, o.item)
  {
    hide Enroll, EnrollInProgram, Adds;
    match o.item {
      case CourseItem(c) => EnrollIff(r, cat, o.user, c);
      case ProgramItem(p) => EnrollInProgramIff(r, cat, o.user, p);
    }
  }

  lemma CarriedIsFound(s: Store, key: string)
    requires Coherent(s)
    ensures forall k: nat :: Carries(s, k, key) ==> FindTxn(s.txns, key) == Some(k)
    ensures key != "" && FindTxn(s.txns, key).Some? ==> Carries(s, FindTxn(s.txns, key).value, key)
  {
    forall k: nat | Carries(s, k, key) ensures FindTxn(s.txns, key) == Some(k) {
      FoundAt(s.txns, k);
    }
  }

  lemma ReleaseGivesBack(ps: seq<Option<Promo>>, id: Option<PromoId>)
    ensures GivesBack(ps, ReleaseIf(ps, id), id)
  {
  }

  // ---------- The provider's callbacks ----------

  /** The order of transaction k is paid at `now` and its item handed over. */
  ghost predicate Pays(s: Store, s': Store, cat: Catalog, k: nat, now: Time)
    requires k < |s.txns| && s.txns[k].order < |s.orders|
  {
    var i, o := s.txns[k].order, s.orders[s.txns[k].order];
    && s'.txns == s.txns[k := s.txns[k].(state := Performed, performTime := Some(now))]
    && s'.orders == s.orders[i := o.(status := Paid, paidAt := Some(now))]
    && s'.promos == s.promos
    && HandsOver(cat, s.roster, s'.roster, o.user, o.item)
  }

  /** Perform answers "performed" exactly for a transaction that is performed already, or
      open while the item is still on sale; the latter pays the order at the very time the
      transaction records and hands the item to the buyer. */
  lemma PerformIff(s: Store, cat: Catalog, key: string, now: Time)
    requires Coherent(s)
    ensures var (s', reply) := Apply(s, Perform(cat, key, now));
            && (reply.TxnReply? <==>
                  exists k: nat :: Carries(s, k, key)
                    && (s.txns[k].state.Performed?
                        || (s.txns[k].state.Created? && OnSale(cat, s.orders[s.txns[k].order].item))))
            && (reply.TxnReply? ==> reply.state == 2)
            && (!reply.TxnReply? ==> s' == s)
            && ((forall k: nat :: !Carries(s, k, key)) ==> reply == Refused(Rpc(-31003)))
            && forall k: nat :: Carries(s, k, key) ==>
                 match s.txns[k].state
                 case Performed => s' == s && reply == TxnReply(k, MillisOr0(s.txns[k].performTime), 2)
                 case Created =>
                   if OnSale(cat, s.orders[s.txns[k].order].item)
                   then reply == TxnReply(k, Millis(now), 2) && Pays(s, s', cat, k, now)
                   else reply == Refused(Rpc(-32400))
                 case _ => reply == Refused(Rpc(-31008))
  {
    hide FindTxn, Grant, HandsOver;
    CarriedIsFound(s, key);
    var found := FindTxn(s.txns, key);
    if key != "" && found.Some? {
      var k := found.value;
      TxnFacts(s.orders, s.txns, k);
      GrantIff(s.roster, cat, s.orders[s.txns[k].order]);
      assert Carries(s, k, key);
    }
  }

  /** The provider's time on record; zero and none give way to the one in the call. */
  function OpenedAt(t: Txn, time: nat): nat {
    match t.createTime case Some(at) => if at == 0 then time else at case None => time
  }

  predicate Opens(s: Store, s': Store, i: OrderId, key: string, time: nat)
    requires i < |s.orders|
  {
    && s'.txns == s.txns + [Txn(i, Payme, key, Some(time), Created, s.orders[i].amount, None, None, None)]
    && s'.orders == s.orders[i := s.orders[i].(status := Processing, provider := Some(Payme))]
    && s'.promos == s.promos && s'.roster == s.roster
  }

  /** Create answers "created" exactly when the order exists, the id is not empty, the amount
      is the order's, and either that id is open already or it is new and the order pending;
      only the latter writes: one open transaction, and the order processing. */
  lemma CreateIff(s: Store, account: Option<OrderId>, amount: int, key: string, time: nat)
    requires Coherent(s)
    ensures var (s', reply) := Apply(s, Create(account, amount, key, time));
            var known := account.Some? && account.value < |s.orders| && key != "";
            && (!known ==> reply == Refused(Rpc(-31050)) && s' == s)
            && (known && amount != s.orders[account.value].amount ==> reply == Refused(Rpc(-31001)) && s' == s)
            && (known && amount == s.orders[account.value].amount ==>
                  && (forall k: nat :: Carries(s, k, key) ==>
                        && s' == s
                        && reply == if !s.txns[k].state.Created? then Refused(Rpc(-31008))
                                    else TxnReply(k, OpenedAt(s.txns[k], time), 1))
                  && ((forall k: nat :: !Carries(s, k, key)) ==>
                        if s.orders[account.value].status.Pending?
                        then Opens(s, s', account.value, key, time) && reply == TxnReply(|s.txns|, time, 1)
                        else s' == s && reply == Refused(Rpc(-31050))))
  {
    hide FindTxn;
    CarriedIsFound(s, key);
  }

  /** Cancel succeeds exactly for a known transaction. An open one is voided, its order
      cancelled and the code's use given back; a performed one is reversed, its order
      refunded and the code kept; a settled one is only reported. */
  lemma CancelIff(s: Store, key: string, reason: int, now: Time)
    requires Coherent(s)
    ensures var (s', reply) := Apply(s, Cancel(key, reason, now));
            && ((forall k: nat :: !Carries(s, k, key)) ==> s' == s && reply == Refused(Rpc(-31003)))
            && forall k: nat :: Carries(s, k, key) ==>
                 var t, i := s.txns[k], s.txns[k].order;
                 match t.state
                 case Voided => s' == s && reply == TxnReply(k, MillisOr0(t.cancelTime), -1)
                 case Reversed => s' == s && reply == TxnReply(k, MillisOr0(t.cancelTime), -2)
                 case Performed =>
                   && reply == TxnReply(k, Millis(now), -2)
                   && s'.txns == s.txns[k := t.(state := Reversed, cancelTime := Some(now), reason := Some(reason))]
                   && s'.orders == s.orders[i := s.orders[i].(status := Refunded)]
                   && s'.promos == s.promos && s'.roster == s.roster
                 case Created =>
                   && reply == TxnReply(k, Millis(now), -1)
                   && s'.txns == s.txns[k := t.(state := Voided, cancelTime := Some(now), reason := Some(reason))]
                   && s'.orders == s.orders[i := s.orders[i].(status := OrderStatus.Cancelled,
                                                              cancelledAt := Some(now))]
                   && GivesBack(s.promos, s'.promos, s.orders[i].promo) && s'.roster == s.roster
  {
    hide FindTxn, ReleaseIf, GivesBack;
    CarriedIsFound(s, key);
    var found := FindTxn(s.txns, key);
    if key != "" && found.Some? {
      TxnFacts(s.orders, s.txns, found.value);
      ReleaseGivesBack(s.promos, s.orders[s.txns[found.value].order].promo);
    }
  }

  /** CheckPerform allows exactly a pending order at its own amount. */
  lemma CheckPerformIff(s: Store, account: Option<OrderId>, amount: int)
    ensures var (s', reply) := Apply(s, CheckPerform(account, amount));
            && s' == s
            && (reply == Done <==> exists i :: 0 <= i < |s.orders| && account == Some(i)
                                     && amount == s.orders[i].amount && s.orders[i].status.Pending?)
            && (reply == Refused(Rpc(-31001)) <==>
                  account.Some? && account.value < |s.orders| && amount != s.orders[account.value].amount)
            && (reply in {Done, Refused(Rpc(-31001)), Refused(Rpc(-31050))})
  {
  }

  /** Check reports the state of exactly the known transactions. */
  lemma CheckIff(s: Store, key: string)
    requires Coherent(s)
    ensures var (s', reply) := Apply(s, Check(key));
            && s' == s
            && ((forall k: nat :: !Carries(s, k, key)) ==> reply == Refused(Rpc(-31003)))
            && forall k: nat :: Carries(s, k, key) ==>
                 reply == TxnReply(k, OpenedAt(s.txns[k], 0),
                                   match s.txns[k].state
                                   case Created => 1 case Performed => 2 case Voided => -1 case Reversed => -2)
  {
    CarriedIsFound(s, key);
  }

  // ---------- The buyer's own calls ----------

  predicate Owns(s: Store, user: UserId, id: OrderId) { id < |s.orders| && s.orders[id].user == user }

  /** A buyer may cancel exactly an order of their own that is pending or processing; the code's
      use is given back and any open transaction stays as it is. */
  lemma BuyerCancelIff(s: Store, user: UserId, id: OrderId, now: Time)
    ensures var (s', reply) := Apply(s, UserCancel(user, id, now));
            if !Owns(s, user, id) then s' == s && reply == Refused(NotFound)
            else if s.orders[id].status !in {Pending, Processing} then s' == s && reply == Refused(WrongState)
            else
              && reply == OrderReply(id)
              && s'.orders == s.orders[id := s.orders[id].(status := OrderStatus.Cancelled, cancelledAt := Some(now))]
              && GivesBack(s.promos, s'.promos, s.orders[id].promo)
              && s'.txns == s.txns && s'.roster == s.roster
  {
    hide ReleaseIf, GivesBack;
    if id < |s.orders| {
      ReleaseGivesBack(s.promos, s.orders[id].promo);
    }
  }

  /** A card payment succeeds exactly for the buyer's own pending order, with a verified card,
      a receipt under an id no transaction has, and the item on sale; it records a performed
      transaction, pays the order at the same time and hands the item over. */
  lemma CardPayIff(s: Store, cat: Catalog, user: UserId, id: OrderId, cardOk: bool, receipt: Option<string>, now: Time)
    ensures var (s', reply) := Apply(s, CardPay(cat, user, id, cardOk, receipt, now));
            if !Owns(s, user, id) then s' == s && reply == Refused(NotFound)
            else if s.orders[id].status != Pending then s' == s && reply == Refused(WrongState)
            else if !cardOk then s' == s && reply == Refused(CardRejected)
            else if receipt.None? then s' == s && reply == Refused(ProviderFailed)
            else if exists t :: t in s.txns && t.key == receipt.value then s' == s && reply == Refused(Internal)
            else if !OnSale(cat, s.orders[id].item) then s' == s && reply == Refused(NotFound)
            else
              var o := s.orders[id];
              && reply == TxnReply(|s.txns|, Millis(now), 2)
              && s'.orders == s.orders[id := o.(status := Paid, provider := Some(Card), paidAt := Some(now))]
              && s'.txns == s.txns + [Txn(id, Card, receipt.value, None, Performed, o.amount, Some(now), None, None)]
              && s'.promos == s.promos
              && HandsOver(cat, s.roster, s'.roster, user, o.item)
  {
    hide FindTxn, Grant, HandsOver;
    if id < |s.orders| {
      GrantIff(s.roster, cat, s.orders[id]);
      if receipt.Some? {
        KeyTaken(s.txns, receipt.value);
      }
    }
  }

  lemma KeyTaken(txns: seq<Txn>, key: string)
    ensures FindTxn(txns, key).Some? <==> exists t :: t in txns && t.key == key
  {
    if FindTxn(txns, key).Some? {
      assert txns[FindTxn(txns, key).value] in txns;
    }
  }

  /** Starting a provider payment succeeds exactly for the buyer's own pending order. */
  lemma StartPaymeIff(s: Store, user: UserId, id: OrderId, configured: bool)
    ensures var (s', reply) := Apply(s, PaymePay(user, id, configured));
            && (reply == OrderReply(id) <==> Owns(s, user, id) && s.orders[id].status == Pending && configured)
            && (reply != OrderReply(id) ==> reply.Refused? && s' == s)
            && (reply == OrderReply(id) ==>
                  s' == s.(orders := s.orders[id := s.orders[id].(provider := Some(Payme))]))
  {
  }

  // ---------- Placing an order ----------

  function ListPrice(cat: Catalog, item: Item): nat
    requires OnSale(cat, item)
  {
    match item case CourseItem(c) => cat.courses[c].price case ProgramItem(p) => cat.programs[p].price
  }

  /** The promocode a typed text stands for: none for the empty text, otherwise the code with
      that text if it is this course's, active, unexpired, not used up, and leaves a price. */
  predicate Quotes(s: Store, cat: Catalog, item: Item, code: string, now: Time, promo: Option<PromoId>)
    requires OnSale(cat, item)
  {
    match promo
    case None => code == ""
    case Some(p) =>
      && code != "" && item.CourseItem? && p < |s.promos| && s.promos[p].Some?
      && var row := s.promos[p].value;
         && row.code == code && row.course == item.course && row.active && row.uses < row.maxUses
         && (row.expiresAt.Some? ==> now < row.expiresAt.value)
         && Discount(row.kind, row.value, ListPrice(cat, item)) < ListPrice(cat, item)
  }

  predicate Awaits(o: Order, user: UserId, item: Item) { o.user == user && o.item == item && o.status == Pending }

  /** The buyer's pending order for the item already holds the quoted code, or none like the quote. */
  ghost predicate Standing(s: Store, user: UserId, item: Item, promo: Option<PromoId>, i: nat) {
    i < |s.orders| && Awaits(s.orders[i], user, item) && s.orders[i].promo == promo
  }

  /** The code can still be reserved at the second reading of the clock. */
  predicate Unexpired(s: Store, promo: Option<PromoId>, later: Time) {
    match if promo.Some? && promo.value < |s.promos| then s.promos[promo.value] else None
    case None => true
    case Some(row) => row.expiresAt.Some? ==> later < row.expiresAt.value
  }

  ghost predicate Orderable(s: Store, cat: Catalog, user: UserId, item: Item, code: string, now: Time, later: Time) {
    && OnSale(cat, item) && ListPrice(cat, item) > 0
    && exists promo :: Quotes(s, cat, item, code, now, promo)
         && (Unexpired(s, promo, later) || exists i :: Standing(s, user, item, promo, i))
  }

  /** One use moves from the code the order held to the code it holds now. */
  ghost predicate MovesUse(ps: seq<Option<Promo>>, qs: seq<Option<Promo>>, from: Option<PromoId>,
      to: Option<PromoId>) {
    && |qs| == |ps|
    && forall p :: 0 <= p < |ps| ==>
         qs[p] == if from == Some(p) && ps[p].Some? && ps[p].value.uses > 0
                  then Some(ps[p].value.(uses := ps[p].value.uses - 1))
                  else if to == Some(p) && ps[p].Some?
                  then Some(ps[p].value.(uses := ps[p].value.uses + 1)) else ps[p]
  }

  /** What of the price the quoted code takes off. */
  function Off(s: Store, cat: Catalog, item: Item, promo: Option<PromoId>): int
    requires OnSale(cat, item)
  {
    if promo.Some? && promo.value < |s.promos| && s.promos[promo.value].Some?
    then Discount(s.promos[promo.value].value.kind, s.promos[promo.value].value.value, ListPrice(cat, item)) else 0
  }

  /** Order i is pending at today's price under the quoted code, with the one it replaces, if
      any, keeping its other fields. */
  ghost predicate Places(s: Store, s': Store, cat: Catalog, user: UserId, item: Item, promo: Option<PromoId>, i: nat)
    requires OnSale(cat, item)
  {
    var price, off := ListPrice(cat, item), Off(s, cat, item, promo);
    var original := if promo.Some? then Some(price) else None;
    && s'.txns == s.txns && s'.roster == s.roster
    && if i < |s.orders|
       then && Awaits(s.orders[i], user, item)
            && s'.orders == s.orders[i := s.orders[i].(amount := price - off, original := original,
                                                       discount := off, promo := promo)]
            && MovesUse(s.promos, s'.promos, s.orders[i].promo, promo)
       else && i == |s.orders|
            && s'.orders == s.orders + [Order(user, item, price - off, original, off, promo, Pending, None, None, None)]
            && MovesUse(s.promos, s'.promos, None, promo)
            && forall j :: 0 <= j < |s.orders| ==> !Awaits(s.orders[j], user, item)
  }

  lemma PriceOfIs(cat: Catalog, item: Item, code: string)
    ensures PriceOf(cat, item, code).Ok? <==>
              OnSale(cat, item) && ListPrice(cat, item) > 0 && (code == "" || item.CourseItem?)
    ensures PriceOf(cat, item, code).Ok? ==> PriceOf(cat, item, code).value == ListPrice(cat, item)
  {
  }

  lemma QuoteIs(s: Store, cat: Catalog, item: Item, code: string, now: Time)
    requires PromosCoherent(s.promos)
    ensures var r := QuoteFor(s, cat, item, code, now);
            && (r.Ok? ==>
                  && OnSale(cat, item) && ListPrice(cat, item) > 0 && Quotes(s, cat, item, code, now, r.value.promo)
                  && r.value == Quote(ListPrice(cat, item), r.value.promo, Off(s, cat, item, r.value.promo)))
            && (OnSale(cat, item) && ListPrice(cat, item) > 0 ==>
                  forall promo :: Quotes(s, cat, item, code, now, promo) ==> r.Ok? && r.value.promo == promo)
  {
    hide PriceOf, FindActive, Discount;
    PriceOfIs(cat, item, code);
    if code != "" && item.CourseItem? {
      forall p: nat ensures FindActive(s.promos, code, item.course, now) == Ok(p) <==>
          Reservable(s.promos, p, now) && s.promos[p].value.code == code && s.promos[p].value.course == item.course
      {
        FoundIff(s.promos, code, item.course, now, p);
      }
    }
  }

  lemma PendingIs(s: Store, user: UserId, item: Item)
    requires OrdersCoherent(s.orders)
    ensures var found := FindPending(s.orders, user, item);
            && (found.Some? ==> found.value < |s.orders| && Awaits(s.orders[found.value], user, item))
            && forall i :: 0 <= i < |s.orders| && Awaits(s.orders[i], user, item) ==> found == Some(i)
  {
  }

  lemma SwapMovesUse(s: Store, from: Option<PromoId>, to: Option<PromoId>, later: Time)
    requires from != to && HasUse(s.promos, to)
    ensures var q := ReserveIf(ReleaseIf(s.promos, from), to, later);
            (q.Some? <==> Unexpired(s, to, later)) && (q.Some? ==> MovesUse(s.promos, q.value, from, to))
  {
  }

  /** The quoted code, if any, is active and has a use left. */
  ghost predicate HasUse(ps: seq<Option<Promo>>, promo: Option<PromoId>) {
    promo.Some? ==> promo.value < |ps| && ps[promo.value].Some? && ps[promo.value].value.active
                    && ps[promo.value].value.uses < ps[promo.value].value.maxUses
  }

  lemma QuotedHasUse(s: Store, cat: Catalog, item: Item, code: string, now: Time, promo: Option<PromoId>)
    requires OnSale(cat, item) && Quotes(s, cat, item, code, now, promo)
    ensures HasUse(s.promos, promo)
  {
    hide Discount;
  }

  lemma OrderableIs(s: Store, cat: Catalog, user: UserId, item: Item, code: string, now: Time, later: Time)
    requires PromosCoherent(s.promos)
    ensures var r := QuoteFor(s, cat, item, code, now);
            (Orderable(s, cat, user, item, code, now, later) <==>
               r.Ok? && (Unexpired(s, r.value.promo, later)
                         || exists i: nat :: Standing(s, user, item, r.value.promo, i)))
  {
    hide QuoteFor, Quotes, Unexpired, Standing, PromosCoherent;
    QuoteIs(s, cat, item, code, now);
  }

  /** The outcome under the one code q that the typed text quotes. */
  ghost predicate Outcome(s: Store, s': Store, reply: Reply, cat: Catalog, user: UserId, item: Item,
      promo: Option<PromoId>, later: Time)
    requires OnSale(cat, item)
  {
    && (reply.OrderReply? <==> Unexpired(s, promo, later) || exists i: nat :: Standing(s, user, item, promo, i))
    && (!reply.OrderReply? ==> reply.Refused? && s' == s)
    && (reply.OrderReply? ==>
          if Standing(s, user, item, promo, reply.order) then s' == s
          else Places(s, s', cat, user, item, promo, reply.order))
  }

  lemma NotReleased(ps: seq<Option<Promo>>)
    ensures ReleaseIf(ps, None) == ps
  {
  }

  lemma StandsIff(s: Store, user: UserId, item: Item, promo: Option<PromoId>, found: Option<nat>)
    requires found.Some? ==> found.value < |s.orders| && Awaits(s.orders[found.value], user, item)
    requires forall i :: 0 <= i < |s.orders| && Awaits(s.orders[i], user, item) ==> found == Some(i)
    ensures forall i: nat :: Standing(s, user, item, promo, i) <==>
              found == Some(i) && s.orders[i].promo == promo
  {
  }

  /** A quoted code that the order does not hold yet is reserved iff it has not expired since. */
  lemma ReservedMovesUse(s: Store, from: Option<PromoId>, to: Option<PromoId>, later: Time)
    requires HasUse(s.promos, to)
    ensures to.None? ==> Unexpired(s, to, later)
    ensures var q := ReserveIf(ReleaseIf(s.promos, from), to, later);
            from != to || to.None? ==>
              (q.Some? <==> Unexpired(s, to, later)) && (q.Some? ==> MovesUse(s.promos, q.value, from, to))
  {
    if from != to {
      SwapMovesUse(s, from, to, later);
    }
  }

  lemma PlacesNow(s: Store, s': Store, cat: Catalog, user: UserId, item: Item, q: Quote, later: Time,
                  found: Option<nat>)
    requires OnSale(cat, item) && q == Quote(ListPrice(cat, item), q.promo, Off(s, cat, item, q.promo))
    requires found.Some? ==> found.value < |s.orders| && Awaits(s.orders[found.value], user, item)
    requires forall i :: 0 <= i < |s.orders| && Awaits(s.orders[i], user, item) ==> found == Some(i)
    requires MovesUse(s.promos, s'.promos, if found.Some? then s.orders[found.value].promo else None, q.promo)
    requires s' == s.(promos := s'.promos,
                      orders := if found.Some? then s.orders[found.value := Priced(s.orders[found.value], q)]
                                else s.orders + [Priced(Blank(user, item), q)])
    ensures Places(s, s', cat, user, item, q.promo, if found.Some? then found.value else |s.orders|)
  {
    hide OnSale, ListPrice, Off, MovesUse;
  }

  lemma CreateOrderOutcome(s: Store, cat: Catalog, user: UserId, item: Item, code: string, now: Time, later: Time,
                           q: Quote)
    requires OrdersCoherent(s.orders) && QuoteFor(s, cat, item, code, now) == Ok(q) && OnSale(cat, item)
    requires q == Quote(ListPrice(cat, item), q.promo, Off(s, cat, item, q.promo)) && HasUse(s.promos, q.promo)
    ensures var (s', reply) := CreateOrder(s, cat, user, item, code, now, later);
            Outcome(s, s', reply, cat, user, item, q.promo, later)
  {
    hide QuoteFor, FindPending, ReserveIf, ReleaseIf, OrdersCoherent, Standing, Places, OnSale, ListPrice, Off;
    PendingIs(s, user, item);
    NotReleased(s.promos);
    var found := FindPending(s.orders, user, item);
    StandsIff(s, user, item, q.promo, found);
    var (s', reply) := CreateOrder(s, cat, user, item, code, now, later);
    var held := if found.Some? then s.orders[found.value].promo else None;
    ReservedMovesUse(s, held, q.promo, later);
    if reply.OrderReply? && !Standing(s, user, item, q.promo, reply.order) {
      PlacesNow(s, s', cat, user, item, q, later, found);
    }
  }

  /** The outcome for whatever code the typed text quotes. */
  ghost predicate Placed(s: Store, s': Store, cat: Catalog, user: UserId, item: Item, code: string, now: Time, i: nat) {
    && OnSale(cat, item)
    && forall promo :: Quotes(s, cat, item, code, now, promo) ==>
         if Standing(s, user, item, promo, i) then s' == s else Places(s, s', cat, user, item, promo, i)
  }

  lemma NoQuote(s: Store, cat: Catalog, user: UserId, item: Item, code: string, now: Time, later: Time)
    requires QuoteFor(s, cat, item, code, now).Err?
    ensures CreateOrder(s, cat, user, item, code, now, later)
         == (s, Refused(QuoteFor(s, cat, item, code, now).error))
  {
    hide QuoteFor;
  }

  /** An order is accepted exactly when the item is on sale for a price and the typed code can
      be quoted and, unless the buyer's pending order holds it already, still reserved. That
      pending order is returned untouched; otherwise it, or a new one, is priced today, and
      one use moves from the old code to the quoted one. */
  lemma PlaceOrderIff(s: Store, cat: Catalog, user: UserId, item: Item, code: string, now: Time, later: Time)
    requires Coherent(s)
    ensures var (s', reply) := Apply(s, NewOrder(cat, user, item, code, now, later));
            && (reply.OrderReply? <==> Orderable(s, cat, user, item, code, now, later))
            && (!reply.OrderReply? ==> reply.Refused? && s' == s)
            && (reply.OrderReply? ==> Placed(s, s', cat, user, item, code, now, reply.order))
  {
    hide Coherent, QuoteFor, Quotes, Places, Standing, OnSale, ListPrice, CreateOrder, Unexpired, Orderable, HasUse;
    CoherentParts(s);
    QuoteIs(s, cat, item, code, now);
    OrderableIs(s, cat, user, item, code, now, later);
    var r := QuoteFor(s, cat, item, code, now);
    if r.Ok? {
      QuotedHasUse(s, cat, item, code, now, r.value.promo);
      CreateOrderOutcome(s, cat, user, item, code, now, later, r.value);
    } else {
      NoQuote(s, cat, user, item, code, now, later);
    }
  }

  predicate Spells(s: Store, p: nat, code: string) {
    p < |s.promos| && s.promos[p].Some? && s.promos[p].value.code == code
  }

  lemma SpelledIsFound(s: Store, code: string)
    requires PromosCoherent(s.promos)
    ensures var found := First(s.promos, (p: Option<Promo>) => p.Some? && p.value.code == code);
            && (found.Some? ==> Spells(s, found.value, code))
            && forall p: nat :: Spells(s, p, code) ==> found == Some(p)
  {
  }

  lemma NothingToReserve(later: Time)
    ensures forall qs :: ReserveIf(qs, None, later) == Some(qs)
  {
  }

  /** Why an order is refused: the first reason in this order; a code found good and not reserved
      any more counts as used up. */
  lemma OrderRefusalIs(s: Store, cat: Catalog, user: UserId, item: Item, code: string, now: Time, later: Time)
    requires Coherent(s)
    ensures var reply := Apply(s, NewOrder(cat, user, item, code, now, later)).1;
            if item.ProgramItem? && code != "" then reply == Refused(PromoNotApplicable)
            else if !OnSale(cat, item) then reply == Refused(NotFound)
            else if ListPrice(cat, item) == 0 then reply == Refused(FreeItem)
            else if code == "" then reply.OrderReply?
            else
              && ((forall p: nat :: !Spells(s, p, code)) ==> reply == Refused(PromoNotFound))
              && forall p: nat :: Spells(s, p, code) ==>
                   var row := s.promos[p].value;
                   if row.course != item.course then reply == Refused(PromoWrongCourse)
                   else if !row.active then reply == Refused(PromoInactive)
                   else if row.expiresAt.Some? && row.expiresAt.value <= now then reply == Refused(PromoExpired)
                   else if row.uses >= row.maxUses then reply == Refused(PromoExhausted)
                   else if Discount(row.kind, row.value, ListPrice(cat, item)) >= ListPrice(cat, item) then
                     reply == Refused(PromoMakesFree)
                   else reply.OrderReply? || reply == Refused(PromoExhausted)
  {
    hide Coherent, Discount, FindPending, First, ReserveIf, ReleaseIf;
    CoherentParts(s);
    SpelledIsFound(s, code);
    if code == "" {
      NothingToReserve(later);
      assert forall held :: ReserveIf(ReleaseIf(s.promos, held), None, later).Some?;
    }
  }

  /** Enrolling directly succeeds exactly for an item on sale, and hands it over. */
  lemma FreeIff(s: Store, cat: Catalog, user: UserId, item: Item)
    ensures var (s', reply) := Apply(s, match item case CourseItem(c) => FreeEnroll(cat, user, c)
                                                   case ProgramItem(p) => FreeProgram(cat, user, p));
            if OnSale(cat, item)
            then && reply == Done && HandsOver(cat, s.roster, s'.roster, user, item)
                 && s'.orders == s.orders && s'.txns == s.txns && s'.promos == s.promos
            else s' == s && reply == Refused(NotFound)
  {
    hide Enroll, EnrollInProgram, Adds;
    match item {
      case CourseItem(c) => EnrollIff(s.roster, cat, user, c);
      case ProgramItem(p) => EnrollInProgramIff(s.roster, cat, user, p);
    }
  }

  /** A whole purchase: whoever may place an order, pays it through the provider under a fresh
      id, and whose item is on sale when that payment is performed, ends with the order paid
      and the item in hand. */
  lemma PurchaseGoesThrough(s: Store, cat: Catalog, user: UserId, item: Item, code: string, now: Time, later: Time,
                            key: string, time: nat, shop: Catalog, at: Time)
    requires Coherent(s) && Orderable(s, cat, user, item, code, now, later)
    requires key != "" && forall t :: t in s.txns ==> t.key != key
    requires OnSale(shop, item)
    ensures var (s1, placed) := Apply(s, NewOrder(cat, user, item, code, now, later));
            && placed.OrderReply? && placed.order < |s1.orders|
            && var i := placed.order;
               var end := Run(s, [NewOrder(cat, user, item, code, now, later),
                                  Create(Some(i), s1.orders[i].amount, key, time), Perform(shop, key, at)]);
               && i < |end.orders| && end.orders[i].user == user && end.orders[i].item == item
               && end.orders[i].status.Paid? && end.orders[i].paidAt == Some(at)
               && HandsOver(shop, s.roster, end.roster, user, item)
  {
    hide Coherent, RpcCreate, RpcPerform, CreateOrder, HandsOver, Orderable, Run;
    var e1 := NewOrder(cat, user, item, code, now, later);
    var (s1, placed) := Apply(s, e1);
    PlaceOrderIff(s, cat, user, item, code, now, later);
    StepKeeps(s, e1);
    PlacedAwaits(s, cat, user, item, code, now, later);
    var i := placed.order;
    var e2 := Create(Some(i), s1.orders[i].amount, key, time);
    var s2 := Apply(s1, e2).0;
    NewKey(s1, key);
    CreateIff(s1, Some(i), s1.orders[i].amount, key, time);
    StepKeeps(s1, e2);
    assert Carries(s2, |s1.txns|, key);
    PerformIff(s2, shop, key, at);
    ThreeSteps(s, e1, e2, Perform(shop, key, at));
  }

  /** The order handed back awaits payment, and placing it touches neither transactions nor roster. */
  lemma PlacedAwaits(s: Store, cat: Catalog, user: UserId, item: Item, code: string, now: Time, later: Time)
    requires Coherent(s) && Orderable(s, cat, user, item, code, now, later)
    ensures var (s1, placed) := CreateOrder(s, cat, user, item, code, now, later);
            && placed.OrderReply? && placed.order < |s1.orders| && Awaits(s1.orders[placed.order], user, item)
            && s1.txns == s.txns && s1.roster == s.roster
  {
    hide Coherent, CreateOrder, Quotes, Unexpired, Places, Awaits;
    PlaceOrderIff(s, cat, user, item, code, now, later);
    var promo :| Quotes(s, cat, item, code, now, promo);
    var (s1, placed) := CreateOrder(s, cat, user, item, code, now, later);
    if !Standing(s, user, item, promo, placed.order) {
      PlacesAwaits(s, s1, cat, user, item, promo, placed.order);
    }
  }

  lemma PlacesAwaits(s: Store, s': Store, cat: Catalog, user: UserId, item: Item, promo: Option<PromoId>, i: nat)
    requires OnSale(cat, item) && Places(s, s', cat, user, item, promo, i)
    ensures i < |s'.orders| && Awaits(s'.orders[i], user, item) && s'.txns == s.txns && s'.roster == s.roster
  {
    hide Off, ListPrice, MovesUse;
    if i < |s.orders| {
      assert s'.orders[i].status == s.orders[i].status;
    } else {
      assert s'.orders[i].status == Pending;
    }
  }

  lemma NewKey(s: Store, key: string)
    requires forall t :: t in s.txns ==> t.key != key
    ensures forall k: nat :: !Carries(s, k, key)
  {
    assert forall k: nat :: k < |s.txns| ==> s.txns[k] in s.txns;
  }

  // ---------- The instructor's calls ----------

  /** A code is created exactly by its course's owner, for a priced course, with a discount of
      at least one that leaves a price, not expired yet, under a text no code has; on a
      published course it can be quoted at once. */
  lemma NewPromoIff(s: Store, cat: Catalog, owns: bool, course: CourseId, code: string, kind: DiscountKind,
                    value: int, expiresAt: Option<Time>, now: Time)
    ensures var (s', reply) := Apply(s, NewPromo(cat, owns, course, code, kind, value, expiresAt, now));
            if course !in cat.courses then s' == s && reply == Refused(NotFound)
            else if !owns then s' == s && reply == Refused(Forbidden)
            else
              var price := cat.courses[course].price;
              var most := match kind case Percent => 100 case Fixed => price;
              if !(price > 0 && 1 <= value < most && (expiresAt.None? || now < expiresAt.value)) then
                s' == s && reply == Refused(PromoInvalid)
              else if exists p :: p in s.promos && p.Some? && p.value.code == code then
                s' == s && reply == Refused(PromoCodeTaken)
              else
                && reply == Done
                && s' == s.(promos := s.promos + [Some(Promo(course, code, kind, value, 1, 0, expiresAt, true))])
                && (code != "" && cat.courses[course].published ==>
                      Quotes(s', cat, CourseItem(course), code, now, Some(|s.promos|)))
  {
    hide Discount;
    var f := First(s.promos, (p: Option<Promo>) => p.Some? && p.value.code == code);
    assert f.Some? ==> s.promos[f.value] in s.promos;
    if course in cat.courses {
      DiscountLeavesPrice(kind, value, cat.courses[course].price);
    }
  }

  lemma DiscountLeavesPrice(kind: DiscountKind, value: int, price: int)
    ensures price > 0 && 1 <= value < (match kind case Percent => 100 case Fixed => price) ==>
              Discount(kind, value, price) < price
  {
    if price > 0 && kind.Percent? && 1 <= value < 100 {
      PartOfPrice(Discount(kind, value, price), price, value);
    }
  }

  lemma PartOfPrice(d: int, price: int, value: int)
    requires price > 0 && 1 <= value < 100 && d * 100 <= price * value
    ensures d < price
  {
    assert price * value <= price * 99;
  }

  /** A code is revoked exactly by its owner. A used one stays attached, inactive; an unused one
      is gone and with it every order's reference to it. Neither can be quoted again. */
  lemma RevokeIff(s: Store, owns: bool, id: PromoId)
    ensures var (s', reply) := Apply(s, Event.Revoke(owns, id));
            if !(id < |s.promos| && s.promos[id].Some?) then s' == s && reply == Refused(NotFound)
            else if !owns then s' == s && reply == Refused(Forbidden)
            else
              && reply == Done && s'.txns == s.txns && s'.roster == s.roster
              && (if s.promos[id].value.uses > 0
                  then && s'.orders == s.orders
                       && s'.promos == s.promos[id := Some(s.promos[id].value.(active := false))]
                  else && s'.promos == s.promos[id := None] && |s'.orders| == |s.orders|
                       && forall i :: 0 <= i < |s.orders| ==>
                            s'.orders[i] == if s.orders[i].promo == Some(id) then s.orders[i].(promo := None)
                                            else s.orders[i])
              && forall cat: Catalog, item, code, now :: OnSale(cat, item) ==>
                   !Quotes(s', cat, item, code, now, Some(id))
  {
    hide OnSale, ListPrice, Discount;
  }

  // ---------- Where program rows come from ----------

  /** Step e creates u's row of program p: u enrolls in the open program, or pays for it, or a
      payment of u's order for it is performed. */
  ghost predicate Enters(s: Store, e: Event, u: UserId, p: ProgramId) {
    && (e.FreeProgram? || e.CardPay? || e.Perform?)
    && p in e.cat.programs && e.cat.programs[p].published
    && (u, p) !in s.roster.programs && !Apply(s, e).1.Refused?
    && match e
       case FreeProgram(_, user, program) => user == u && program == p
       case CardPay(_, user, order, _, _, _) =>
         user == u && order < |s.orders| && s.orders[order].item == ProgramItem(p)
       case Perform(_, key, _) => exists k: nat :: Carries(s, k, key) && PerformsFor(s, k, u, p)
       case _ => false
  }

  ghost predicate PerformsFor(s: Store, k: nat, u: UserId, p: ProgramId) {
    && k < |s.txns| && s.txns[k].state.Created? && s.txns[k].order < |s.orders|
    && s.orders[s.txns[k].order].user == u && s.orders[s.txns[k].order].item == ProgramItem(p)
  }

  /** u's row of program p stores what this catalog requires, and u is in all of it. */
  ghost predicate Enrolls(r: Roster, cat: Catalog, u: UserId, p: ProgramId) {
    && p in cat.programs
    && (u, p) in r.programs && r.programs[(u, p)] == RequiredOf(cat, p)
    && forall c :: c in RequiredOf(cat, p) ==> (u, c) in r.courses
  }

  lemma HandedOverEnters(cat: Catalog, r: Roster, q: Roster, v: UserId, item: Item, u: UserId, p: ProgramId)
    requires HandsOver(cat, r, q, v, item) && (u, p) !in r.programs && (u, p) in q.programs
    ensures v == u && item == ProgramItem(p) && Enrolls(q, cat, u, p)
  {
  }

  lemma RosterStays(s: Store, e: Event)
    requires !e.FreeEnroll? && !e.FreeProgram? && !e.CardPay? && !e.Perform?
    ensures Apply(s, e).0.roster == s.roster
  {
    hide QuoteFor, FindPending, FindTxn, ReserveIf, ReleaseIf, Detach;
  }

  lemma FreeEnters(s: Store, e: Event, u: UserId, p: ProgramId)
    requires (e.FreeEnroll? || e.FreeProgram?) && (u, p) !in s.roster.programs
    requires (u, p) in Apply(s, e).0.roster.programs
    ensures Enters(s, e, u, p) && Enrolls(Apply(s, e).0.roster, e.cat, u, p)
  {
    hide Enroll, EnrollInProgram;
    match e {
      case FreeEnroll(cat, v, c) => EnrollIff(s.roster, cat, v, c);
      case FreeProgram(cat, v, program) => EnrollInProgramIff(s.roster, cat, v, program);
      case _ =>
    }
  }

  lemma CardEnters(s: Store, e: Event, u: UserId, p: ProgramId)
    requires e.CardPay? && (u, p) !in s.roster.programs && (u, p) in Apply(s, e).0.roster.programs
    ensures Enters(s, e, u, p) && Enrolls(Apply(s, e).0.roster, e.cat, u, p)
  {
    hide PayWithCard, HandsOver, Enrolls;
    CardPayIff(s, e.cat, e.user, e.order, e.cardOk, e.receipt, e.now);
    assert Owns(s, e.user, e.order);
    HandedOverEnters(e.cat, s.roster, Apply(s, e).0.roster, e.user, s.orders[e.order].item, u, p);
  }

  lemma PerformEnters(s: Store, e: Event, u: UserId, p: ProgramId)
    requires Coherent(s) && e.Perform? && (u, p) !in s.roster.programs && (u, p) in Apply(s, e).0.roster.programs
    ensures Enters(s, e, u, p) && Enrolls(Apply(s, e).0.roster, e.cat, u, p)
  {
    hide Coherent, RpcPerform, HandsOver, Enrolls;
    PerformIff(s, e.cat, e.key, e.now);
    var k: nat :| Carries(s, k, e.key) && (s.txns[k].state.Performed? || s.txns[k].state.Created?);
    CoherentTxn(s, k);
    var o := s.orders[s.txns[k].order];
    HandedOverEnters(e.cat, s.roster, Apply(s, e).0.roster, o.user, o.item, u, p);
    assert PerformsFor(s, k, u, p);
  }

  lemma CoherentTxn(s: Store, k: nat)
    requires Coherent(s) && k < |s.txns|
    ensures s.txns[k].order < |s.orders|
  {
    TxnFacts(s.orders, s.txns, k);
  }

  lemma StepEnters(s: Store, e: Event, u: UserId, p: ProgramId)
    requires Coherent(s) && (u, p) !in s.roster.programs && (u, p) in Apply(s, e).0.roster.programs
    ensures Enters(s, e, u, p) && Enrolls(Apply(s, e).0.roster, e.cat, u, p)
  {
    hide Coherent, Apply, Enters, Enrolls;
    if e.FreeEnroll? || e.FreeProgram? {
      FreeEnters(s, e, u, p);
    } else if e.CardPay? {
      CardEnters(s, e, u, p);
    } else if e.Perform? {
      PerformEnters(s, e, u, p);
    } else {
      RosterStays(s, e);
    }
  }

  lemma EnrollsStays(r: Roster, q: Roster, cat: Catalog, u: UserId, p: ProgramId)
    requires Enrolls(r, cat, u, p) && Extends(r, q)
    ensures Enrolls(q, cat, u, p)
  {
  }

  /** Every program row of every run was created by one of its steps, for that very user and
      program, and holds what the catalog of that step required: the user is in all of it. */
  lemma {:induction false} ProgramRowsFollowTheCatalog(s: Store, events: seq<Event>, u: UserId, p: ProgramId)
    returns (n: nat)
    requires Coherent(s) && (u, p) !in s.roster.programs && (u, p) in Run(s, events).roster.programs
    ensures n < |events| && Enters(Run(s, events[..n]), events[n], u, p)
    ensures Enrolls(Run(s, events).roster, events[n].cat, u, p)
    decreases |events|
  {
    hide Coherent, Apply, Enrolls, Run;
    RunOfNone(s);
    var m := |events| - 1;
    RunKeeps(s, events[..m]);
    RunSnoc(s, events, m);
    assert events[..m + 1] == events;
    var before := Run(s, events[..m]);
    if (u, p) in before.roster.programs {
      n := ProgramRowsFollowTheCatalog(s, events[..m], u, p);
      assert events[..m][..n] == events[..n];
      StepKeeps(before, events[m]);
      EnrollsStays(before.roster, Run(s, events).roster, events[n].cat, u, p);
    } else {
      n := m;
      StepEnters(before, events[m], u, p);
    }
  }

  lemma RunOfNone(s: Store)
    ensures Run(s, []) == s
  {
  }

  /** So the buyer of a paid program order is enrolled in every course that the catalog required
      of the program at the step that created the program row. */
  lemma {:induction false} PaidProgramsFollowTheCatalog(s: Store, events: seq<Event>, i: nat)
    requires Coherent(s) && i < |Run(s, events).orders|
    requires var o := Run(s, events).orders[i];
             o.status.Paid? && o.item.ProgramItem? && (o.user, o.item.program) !in s.roster.programs
    ensures var r := Run(s, events);
            exists n: nat :: n < |events| && Enters(Run(s, events[..n]), events[n], r.orders[i].user,
                                                    r.orders[i].item.program)
                             && Enrolls(r.roster, events[n].cat, r.orders[i].user, r.orders[i].item.program)
  {
    hide Coherent, Enters, Enrolls, Run;
    PaidBuyersAreEnrolled(s, events);
    var r := Run(s, events);
    var n := ProgramRowsFollowTheCatalog(s, events, r.orders[i].user, r.orders[i].item.program);
  }
}
