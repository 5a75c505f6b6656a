/** Carbon credits and their marketplace: generate, list, purchase, retire. */
module CarbonMarket {
  import opened Prelude

  datatype CreditStatus = Pending | Verified | Listed | Sold | Retired

  datatype TradeStatus = Open | Settled

  datatype Credit = Credit(owner: nat, quantity: real, status: CreditStatus, retirementReason: Option<string>)

  datatype Trade = Trade(
    creditId: nat,
    seller: nat,
    buyer: Option<nat>,
    quantity: real,
    pricePerTonne: real,
    totalAmount: real,
    platformFee: real,
    status: TradeStatus)

  datatype Market = Market(credits: map<nat, Credit>, trades: map<nat, Trade>)

  datatype Outcome = Success | NotFound | Forbidden | Invalid

  /** Ids of new rows are chosen by the database and are fresh. `footprint` is its eligible credits, if it exists. */
  datatype Op =
    | Generate(creditId: nat, owner: nat, footprint: Option<real>)
    | List(tradeId: nat, seller: nat, creditId: nat, quantity: real, price: real)
    | Purchase(buyer: nat, tradeId: nat, quantity: real)
    | Retire(owner: nat, creditId: nat, reason: string)

  function TotalAmount(quantity: real, price: real): real {
    quantity * price
  }

  function Generated(m: Market, op: Op): (Market, Outcome)
    requires op.Generate?
  {
    match op.footprint
    case None => (m, NotFound)
    case Some(eligible) =>
      if eligible <= 0.0 then (m, Invalid)
      else (m.(credits := m.credits[op.creditId := Credit(op.owner, eligible, Pending, None)]), Success)
  }

  function Retirement(m: Market, op: Op): (Market, Outcome)
    requires op.Retire?
  {
    if op.creditId !in m.credits then (m, NotFound)
    else
      var c := m.credits[op.creditId];
      if c.owner != op.owner then (m, Forbidden)
      else if c.status == Retired then (m, Invalid)
      else
        (m.(credits := m.credits[op.creditId := c.(status := Retired, retirementReason := Some(op.reason))]), Success)
  }

  function Listing(m: Market, op: Op): (Market, Outcome)
    requires op.List?
  {
    if op.creditId !in m.credits then (m, NotFound)
    else
      var c := m.credits[op.creditId];
      if c.owner != op.seller then (m, Forbidden)
      else if c.status != Verified && c.status != Pending then (m, Invalid)
      else if op.quantity <= 0.0 || op.quantity > c.quantity then (m, Invalid)
      else
        var trade := Trade(op.creditId, op.seller, None, op.quantity, op.price, TotalAmount(op.quantity, op.price), 0.0, Open);
        (Market(m.credits[op.creditId := c.(status := Listed)], m.trades[op.tradeId := trade]), Success)
  }

  /** Settles the trade and hands over the whole credit, whatever its status has become meanwhile. */
  function Purchased(m: Market, op: Op): (Market, Outcome)
    requires op.Purchase?
  {
    if op.tradeId !in m.trades then (m, NotFound)
    else
      var t := m.trades[op.tradeId];
      if t.status != Open then (m, Invalid)
      else if t.seller == op.buyer then (m, Invalid)
      else if op.quantity <= 0.0 || op.quantity > t.quantity then (m, Invalid)
      else
        var total := TotalAmount(op.quantity, t.pricePerTonne);
        var settled := t.(buyer := Some(op.buyer), status := Settled, quantity := op.quantity, totalAmount := total,
                          platformFee := total * 0.025);
        var credits :=
          if t.creditId in m.credits
          then m.credits[t.creditId := m.credits[t.creditId].(owner := op.buyer, status := Sold)]
          else m.credits;
        (Market(credits, m.trades[op.tradeId := settled]), Success)
  }

  function Apply(m: Market, op: Op): (Market, Outcome) {
    match op
    case Generate(_, _, _) => Generated(m, op)
    case List(_, _, _, _, _) => Listing(m, op)
    case Purchase(_, _, _) => Purchased(m, op)
    case Retire(_, _, _) => Retirement(m, op)
  }

  /** New rows get ids not in use. */
  predicate IdsFresh(m: Market, op: Op) {
    (op.Generate? ==> op.creditId !in m.credits) && (op.List? ==> op.tradeId !in m.trades)
  }

  ghost predicate CanRun(m: Market, ops: seq<Op>)
    decreases |ops|
  {
    ops == [] || (IdsFresh(m, ops[0]) && CanRun(Apply(m, ops[0]).0, ops[1..]))
  }

  function Run(m: Market, ops: seq<Op>): Market
    decreases |ops|
  {
    if ops == [] then m else Run(Apply(m, ops[0]).0, ops[1..])
  }

  /** A market before any trading. */
  ghost predicate Start(m: Market) {
    && m.trades == map[]
    && forall c :: c in m.credits ==>
         m.credits[c].quantity > 0.0 && (m.credits[c].status == Pending || m.credits[c].status == Verified)
  }

  // ---- Invariant ----

  ghost predicate TradeFits(m: Market, t: Trade) {
    && t.creditId in m.credits
    && var c := m.credits[t.creditId];
       && 0.0 < t.quantity <= c.quantity
       && (t.buyer == None <==> t.status == Open)
       && (t.status == Open ==> c.owner == t.seller && (c.status == Listed || c.status == Retired))
       && (t.status == Settled ==> c.status == Sold || c.status == Retired)
  }

  ghost predicate HasOpenTrade(m: Market, creditId: nat) {
    exists t :: t in m.trades && m.trades[t].creditId == creditId && m.trades[t].status == Open
  }

  ghost predicate Invariant(m: Market) {
    && (forall t :: t in m.trades ==> TradeFits(m, m.trades[t]))
    && (forall t, u :: t in m.trades && u in m.trades && m.trades[t].creditId == m.trades[u].creditId ==> t == u)
    && (forall c :: c in m.credits ==>
          && m.credits[c].quantity > 0.0
          && (m.credits[c].status == Listed ==> HasOpenTrade(m, c)))
  }

  lemma GenerateKeeps(m: Market, op: Op)
    requires Invariant(m) && op.Generate? && IdsFresh(m, op)
    ensures Invariant(Apply(m, op).0)
  {
    var n := Apply(m, op).0;
    forall c | c in n.credits && n.credits[c].status == Listed
      ensures HasOpenTrade(n, c)
    {
      assert HasOpenTrade(m, c);
    }
  }

  lemma RetireKeeps(m: Market, op: Op)
    requires Invariant(m) && op.Retire?
    ensures Invariant(Apply(m, op).0)
  {
    var n := Apply(m, op).0;
    forall c | c in n.credits && n.credits[c].status == Listed
      ensures HasOpenTrade(n, c)
    {
      assert HasOpenTrade(m, c);
    }
  }

  lemma ListKeeps(m: Market, op: Op)
    requires Invariant(m) && op.List? && IdsFresh(m, op)
    ensures Invariant(Apply(m, op).0)
  {
    var (n, outcome) := Apply(m, op);
    if outcome == Success {
      assert n.trades[op.tradeId].creditId == op.creditId;
      forall t | t in m.trades
        ensures m.trades[t].creditId != op.creditId
      {
        assert TradeFits(m, m.trades[t]);
      }
      forall c | c in n.credits && n.credits[c].status == Listed
        ensures HasOpenTrade(n, c)
      {
        if c != op.creditId {
          var t :| t in m.trades && m.trades[t].creditId == c && m.trades[t].status == Open;
          assert n.trades[t] == m.trades[t];
        }
      }
    }
  }

  lemma PurchaseKeeps(m: Market, op: Op)
    requires Invariant(m) && op.Purchase?
    ensures Invariant(Apply(m, op).0)
  {
    var (n, outcome) := Apply(m, op);
    if outcome == Success {
      var sold := m.trades[op.tradeId].creditId;
      forall t | t in n.trades
        ensures TradeFits(n, n.trades[t])
      {
        assert TradeFits(m, m.trades[t]);
        if t != op.tradeId {
          assert m.trades[t].creditId != sold;
        }
      }
      forall c | c in n.credits && n.credits[c].status == Listed
        ensures HasOpenTrade(n, c)
      {
        var t :| t in m.trades && m.trades[t].creditId == c && m.trades[t].status == Open;
        assert n.trades[t] == m.trades[t];
      }
    }
  }

  lemma ApplyKeeps(m: Market, op: Op)
    requires Invariant(m) && IdsFresh(m, op)
    ensures Invariant(Apply(m, op).0)
  {
    match op
    case Generate(_, _, _) => GenerateKeeps(m, op);
    case List(_, _, _, _, _) => ListKeeps(m, op);
    case Purchase(_, _, _) => PurchaseKeeps(m, op);
    case Retire(_, _, _) => RetireKeeps(m, op);
  }

  lemma {:induction false} RunKeeps(m: Market, ops: seq<Op>)
    requires Invariant(m) && CanRun(m, ops)
    ensures Invariant(Run(m, ops))
    decreases |ops|
  {
    if ops == [] {
    } else {
      ApplyKeeps(m, ops[0]);
      RunKeeps(Apply(m, ops[0]).0, ops[1..]);
    }
  }

  // ---- Main results ----

  /** Over every run: one trade per credit, open sellers own what they sell, and no trade exceeds its credit. */
  lemma MarketIsConsistent(m: Market, ops: seq<Op>)
    requires Start(m) && CanRun(m, ops)
    ensures var n := Run(m, ops);
            && (forall t, u :: t in n.trades && u in n.trades && n.trades[t].creditId == n.trades[u].creditId ==> t == u)
            && (forall t :: t in n.trades && n.trades[t].status == Open ==>
                  n.trades[t].creditId in n.credits && n.credits[n.trades[t].creditId].owner == n.trades[t].seller)
            && (forall t :: t in n.trades ==>
                  n.trades[t].creditId in n.credits
                  && 0.0 < n.trades[t].quantity <= n.credits[n.trades[t].creditId].quantity)
  {
    RunKeeps(m, ops);
    var n := Run(m, ops);
    assert forall t :: t in n.trades ==> TradeFits(n, n.trades[t]);
  }

  // ---- Supply ----

  ghost function Quantities(credits: map<nat, Credit>): real {
    if credits == map[] then 0.0
    else
      var c :| c in credits;
      credits[c].quantity + Quantities(credits - {c})
  }

  lemma {:induction false} QuantitiesTake(credits: map<nat, Credit>, c: nat)
    requires c in credits
    ensures Quantities(credits) == credits[c].quantity + Quantities(credits - {c})
    decreases |credits|
  {
    var d :| d in credits && Quantities(credits) == credits[d].quantity + Quantities(credits - {d});
    if d != c {
      QuantitiesTake(credits - {d}, c);
      QuantitiesTake(credits - {c}, d);
      assert credits - {d} - {c} == credits - {c} - {d};
    }
  }

  /** Writing a row changes the supply by the difference of its quantities. */
  lemma QuantitiesWrite(credits: map<nat, Credit>, c: nat, row: Credit)
    ensures Quantities(credits[c := row])
         == Quantities(credits) + row.quantity - if c in credits then credits[c].quantity else 0.0
  {
    QuantitiesTake(credits[c := row], c);
    assert credits[c := row] - {c} == credits - {c};
    if c in credits {
      QuantitiesTake(credits, c);
    } else {
      assert credits - {c} == credits;
    }
  }

  function MintedBy(op: Op): real {
    if op.Generate? && op.footprint.Some? && op.footprint.value > 0.0 then op.footprint.value else 0.0
  }

  /** The eligible amounts of a run's generations. */
  function Minted(ops: seq<Op>): real {
    if ops == [] then 0.0
    else MintedBy(ops[0]) + Minted(ops[1..])
  }

  lemma SupplyStep(m: Market, op: Op)
    requires Invariant(m) && IdsFresh(m, op)
    ensures Quantities(Apply(m, op).0.credits) == Quantities(m.credits) + MintedBy(op)
  {
    match op {
      case Generate(c, owner, footprint) =>
        if footprint.Some? {
          QuantitiesWrite(m.credits, c, Credit(owner, footprint.value, Pending, None));
        }
      case List(_, _, c, _, _) =>
        if c in m.credits {
          QuantitiesWrite(m.credits, c, m.credits[c].(status := Listed));
        }
      case Retire(_, c, reason) =>
        if c in m.credits {
          QuantitiesWrite(m.credits, c, m.credits[c].(status := Retired, retirementReason := Some(reason)));
        }
      case Purchase(buyer, t, _) =>
        if t in m.trades && m.trades[t].creditId in m.credits {
          var c := m.trades[t].creditId;
          QuantitiesWrite(m.credits, c, m.credits[c].(owner := buyer, status := Sold));
        }
    }
  }

  /** Conservation: the credits' total is what was generated, whatever is listed, sold or retired. */
  lemma {:induction false} SupplyConserved(m: Market, ops: seq<Op>)
    requires Invariant(m) && CanRun(m, ops)
    ensures Quantities(Run(m, ops).credits) == Quantities(m.credits) + Minted(ops)
    decreases |ops|
  {
    if ops == [] {
    } else {
      SupplyStep(m, ops[0]);
      ApplyKeeps(m, ops[0]);
      SupplyConserved(Apply(m, ops[0]).0, ops[1..]);
    }
  }

  /** What may happen to an existing trade: nothing, or settling once for at most the listed quantity. */
  ghost predicate TradeEvolves(t: Trade, u: Trade) {
    && u.creditId == t.creditId && u.seller == t.seller && u.pricePerTonne == t.pricePerTonne
    && u.quantity <= t.quantity
    && (t.status == Settled ==> u == t)
    && (u.status == Open ==> u == t)
    && (u != t ==>
          && u.buyer != Some(u.seller)
          && u.totalAmount == u.quantity * t.pricePerTonne
          && u.platformFee == u.quantity * t.pricePerTonne * 0.025)
  }

  lemma TradeStep(m: Market, op: Op, id: nat)
    requires Invariant(m) && IdsFresh(m, op) && id in m.trades
    ensures id in Apply(m, op).0.trades && TradeEvolves(m.trades[id], Apply(m, op).0.trades[id])
  {
  }

  lemma EvolvesOn(t: Trade, u: Trade, v: Trade)
    requires TradeEvolves(t, u) && TradeEvolves(u, v)
    ensures TradeEvolves(t, v)
  {
  }

  /** A trade settles at most once, for at most what was listed, at the listed price, never to its seller. */
  lemma {:induction false} TradesSettleOnce(m: Market, ops: seq<Op>, id: nat)
    requires Invariant(m) && CanRun(m, ops) && id in m.trades
    ensures id in Run(m, ops).trades && TradeEvolves(m.trades[id], Run(m, ops).trades[id])
    decreases |ops|
  {
    if ops == [] {
    } else {
      var n := Apply(m, ops[0]).0;
      ApplyKeeps(m, ops[0]);
      TradeStep(m, ops[0], id);
      TradesSettleOnce(n, ops[1..], id);
      EvolvesOn(m.trades[id], n.trades[id], Run(n, ops[1..]).trades[id]);
    }
  }

  /** The amount is quantity times price; the fee is a fortieth of it once settled, and nothing before. */
  ghost predicate IsPriced(t: Trade) {
    && t.totalAmount == t.quantity * t.pricePerTonne
    && t.platformFee == if t.status == Settled then t.quantity * t.pricePerTonne * 0.025 else 0.0
  }

  ghost predicate AllPriced(m: Market) {
    forall t :: t in m.trades ==> IsPriced(m.trades[t])
  }

  lemma ApplyKeepsPriced(m: Market, op: Op)
    requires AllPriced(m)
    ensures AllPriced(Apply(m, op).0)
  {
    var n := Apply(m, op).0;
    forall t | t in n.trades
      ensures IsPriced(n.trades[t])
    {
      if t in m.trades && n.trades[t] == m.trades[t] {
        assert IsPriced(m.trades[t]);
      }
    }
  }

  /** In every run every trade's amount and fee follow from its quantity and price. */
  lemma {:induction false} TradesArePriced(m: Market, ops: seq<Op>)
    requires AllPriced(m)
    ensures AllPriced(Run(m, ops))
    decreases |ops|
  {
    if ops == [] {
    } else {
      ApplyKeepsPriced(m, ops[0]);
      TradesArePriced(Apply(m, ops[0]).0, ops[1..]);
    }
  }

  /** A successful generation makes one pending credit of the eligible quantity for its owner. */
  lemma GenerationMakes(m: Market, creditId: nat, owner: nat, footprint: Option<real>)
    ensures var (n, outcome) := Apply(m, Generate(creditId, owner, footprint));
            && (outcome == Success <==> footprint.Some? && footprint.value > 0.0)
            && (outcome == NotFound <==> footprint == None)
            && (outcome == Success ==> n == m.(credits := m.credits[creditId := Credit(owner, footprint.value, Pending, None)]))
            && (outcome != Success ==> n == m && outcome != Forbidden)
  {
  }

  /** A listing needs the owner, a verified or pending credit and a quantity within it, in that order; it opens one trade as asked. */
  lemma ListingOpens(m: Market, tradeId: nat, seller: nat, creditId: nat, quantity: real, price: real)
    ensures var (n, outcome) := Apply(m, List(tradeId, seller, creditId, quantity, price));
            && (outcome == NotFound <==> creditId !in m.credits)
            && (outcome == Forbidden <==> creditId in m.credits && m.credits[creditId].owner != seller)
            && (outcome == Success <==>
                  && creditId in m.credits && m.credits[creditId].owner == seller
                  && (m.credits[creditId].status == Verified || m.credits[creditId].status == Pending)
                  && 0.0 < quantity <= m.credits[creditId].quantity)
            && (outcome != Success ==> n == m)
            && (outcome == Success ==>
                  && tradeId in n.trades && n.trades == m.trades[tradeId := n.trades[tradeId]]
                  && n.credits == m.credits[creditId := m.credits[creditId].(status := Listed)]
                  && var t := n.trades[tradeId];
                     && t.creditId == creditId && t.seller == seller && t.buyer == None && t.status == Open
                     && t.quantity == quantity && t.pricePerTonne == price && IsPriced(t))
  {
  }

  /** A purchase needs an open trade of someone else and a quantity within it; it settles that trade and hands the credit over. */
  lemma PurchaseSettles(m: Market, buyer: nat, tradeId: nat, quantity: real)
    ensures var (n, outcome) := Apply(m, Purchase(buyer, tradeId, quantity));
            && (outcome == NotFound <==> tradeId !in m.trades)
            && outcome != Forbidden
            && (outcome == Success <==>
                  && tradeId in m.trades && m.trades[tradeId].status == Open && m.trades[tradeId].seller != buyer
                  && 0.0 < quantity <= m.trades[tradeId].quantity)
            && (outcome != Success ==> n == m)
            && (outcome == Success ==>
                  && tradeId in n.trades && n.trades == m.trades[tradeId := n.trades[tradeId]]
                  && var t, u := m.trades[tradeId], n.trades[tradeId];
                     && u == t.(buyer := Some(buyer), status := Settled, quantity := quantity,
                                totalAmount := u.totalAmount, platformFee := u.platformFee)
                     && IsPriced(u)
                     && (t.creditId in m.credits ==>
                           n.credits == m.credits[t.creditId := m.credits[t.creditId].(owner := buyer, status := Sold)]))
  {
  }

  /** A retirement needs the owner and a credit not yet retired; it keeps the reason. */
  lemma RetirementKeepsReason(m: Market, owner: nat, creditId: nat, reason: string)
    ensures var (n, outcome) := Apply(m, Retire(owner, creditId, reason));
            && (outcome == NotFound <==> creditId !in m.credits)
            && (outcome == Forbidden <==> creditId in m.credits && m.credits[creditId].owner != owner)
            && (outcome == Success <==>
                  creditId in m.credits && m.credits[creditId].owner == owner && m.credits[creditId].status != Retired)
            && (outcome != Success ==> n == m)
            && (outcome == Success ==>
                  n == m.(credits := m.credits[creditId := m.credits[creditId].(status := Retired, retirementReason := Some(reason))]))
  {
  }

  /** A credit's quantity is fixed when it is generated; credits never disappear. */
  lemma {:induction false} CreditQuantityFixed(m: Market, ops: seq<Op>, id: nat)
    requires CanRun(m, ops) && id in m.credits
    ensures id in Run(m, ops).credits && Run(m, ops).credits[id].quantity == m.credits[id].quantity
    decreases |ops|
  {
    if ops == [] {
    } else {
      CreditQuantityFixed(Apply(m, ops[0]).0, ops[1..], id);
    }
  }

  /** A credit changes only when its owner lists or retires it, or when someone else buys its open trade and owns it. */
  lemma ChangesAreAuthorised(m: Market, op: Op, creditId: nat)
    requires Invariant(m) && IdsFresh(m, op) && creditId in m.credits
    requires Apply(m, op).0.credits[creditId] != m.credits[creditId]
    ensures var c, d := m.credits[creditId], Apply(m, op).0.credits[creditId];
            match op
            case Generate(_, _, _) => false
            case Retire(owner, id, _) => id == creditId && owner == c.owner == d.owner && d.status == Retired
            case List(_, seller, id, _, _) => id == creditId && seller == c.owner == d.owner && d.status == Listed
            case Purchase(buyer, trade, _) =>
              && trade in m.trades && m.trades[trade].creditId == creditId && m.trades[trade].status == Open
              && buyer != c.owner && d.owner == buyer && d.status == Sold
  {
    if op.Purchase? {
      assert TradeFits(m, m.trades[op.tradeId]);
    }
  }

  // ---- A credit's life ends ----

  /** How many more list, purchase or retire operations a credit can accept. */
  ghost function OperationsLeft(m: Market, creditId: nat): nat {
    if creditId !in m.credits then 4
    else match m.credits[creditId].status
      case Pending => 4
      case Verified => 4
      case Listed => 3
      case Sold => 1
      case Retired => if HasOpenTrade(m, creditId) then 2 else 0
  }

  /** The operation succeeded on this credit. */
  predicate Touches(m: Market, op: Op, creditId: nat) {
    && Apply(m, op).1 == Success
    && match op
       case Generate(_, _, _) => false
       case List(_, _, c, _, _) => c == creditId
       case Purchase(_, t, _) => t in m.trades && m.trades[t].creditId == creditId
       case Retire(_, c, _) => c == creditId
  }

  lemma UntouchedKeepsOpenTrade(m: Market, op: Op, creditId: nat)
    requires Invariant(m) && IdsFresh(m, op) && !Touches(m, op, creditId)
    ensures HasOpenTrade(Apply(m, op).0, creditId) <==> HasOpenTrade(m, creditId)
  {
    var n := Apply(m, op).0;
    if HasOpenTrade(m, creditId) {
      var t :| t in m.trades && m.trades[t].creditId == creditId && m.trades[t].status == Open;
      assert n.trades[t] == m.trades[t];
    }
    if HasOpenTrade(n, creditId) {
      var t :| t in n.trades && n.trades[t].creditId == creditId && n.trades[t].status == Open;
      assert t in m.trades;
    }
  }

  lemma OperationsRunOut(m: Market, op: Op, creditId: nat)
    requires Invariant(m) && IdsFresh(m, op)
    ensures Touches(m, op, creditId) ==> OperationsLeft(Apply(m, op).0, creditId) < OperationsLeft(m, creditId)
    ensures !Touches(m, op, creditId) ==> OperationsLeft(Apply(m, op).0, creditId) == OperationsLeft(m, creditId)
    ensures !Touches(m, op, creditId) && creditId in m.credits ==>
              creditId in Apply(m, op).0.credits && Apply(m, op).0.credits[creditId] == m.credits[creditId]
  {
    var n := Apply(m, op).0;
    if !Touches(m, op, creditId) {
      UntouchedKeepsOpenTrade(m, op, creditId);
    } else if op.Purchase? {
      assert TradeFits(m, m.trades[op.tradeId]);
      assert HasOpenTrade(m, creditId);
    } else if op.Retire? {
      RetireOperationsLeft(m, op);
    }
  }

  lemma RetireOperationsLeft(m: Market, op: Op)
    requires Invariant(m) && op.Retire? && Apply(m, op).1 == Success
    ensures OperationsLeft(Apply(m, op).0, op.creditId) < OperationsLeft(m, op.creditId)
  {
    var n := Apply(m, op).0;
    if HasOpenTrade(n, op.creditId) {
      var t :| t in n.trades && n.trades[t].creditId == op.creditId && n.trades[t].status == Open;
      assert TradeFits(m, m.trades[t]);
    }
  }

  function TouchCount(m: Market, ops: seq<Op>, creditId: nat): nat
    decreases |ops|
  {
    if ops == [] then 0
    else (if Touches(m, ops[0], creditId) then 1 else 0) + TouchCount(Apply(m, ops[0]).0, ops[1..], creditId)
  }

  lemma {:induction false} TouchesBounded(m: Market, ops: seq<Op>, creditId: nat)
    requires Invariant(m) && CanRun(m, ops)
    ensures TouchCount(m, ops, creditId) + OperationsLeft(Run(m, ops), creditId) <= OperationsLeft(m, creditId)
    decreases |ops|
  {
    if ops == [] {
    } else {
      OperationsRunOut(m, ops[0], creditId);
      ApplyKeeps(m, ops[0]);
      TouchesBounded(Apply(m, ops[0]).0, ops[1..], creditId);
    }
  }

  /** In every run a credit accepts at most four successful list, purchase and retire operations. */
  lemma AtMostFourOperations(m: Market, ops: seq<Op>, creditId: nat)
    requires Start(m) && CanRun(m, ops)
    ensures TouchCount(m, ops, creditId) <= 4
  {
    TouchesBounded(m, ops, creditId);
  }

  /** Four are possible: listed, retired by the seller, bought after all, and retired by the buyer. */
  lemma FourOperationsArePossible()
    ensures var start := Market(map[], map[]);
            var ops := [Generate(0, 1, Some(5.0)), List(0, 1, 0, 5.0, 1.0), Retire(1, 0, "a"), Purchase(2, 0, 5.0), Retire(2, 0, "b")];
            Start(start) && CanRun(start, ops) && TouchCount(start, ops, 0) == 4
  {
    var a, b, c := Generate(0, 1, Some(5.0)), List(0, 1, 0, 5.0, 1.0), Retire(1, 0, "a");
    var d, e := Purchase(2, 0, 5.0), Retire(2, 0, "b");
    var m0 := Market(map[], map[]);
    var m1 := Apply(m0, a).0;
    var m2 := Apply(m1, b).0;
    var m3 := Apply(m2, c).0;
    var m4 := Apply(m3, d).0;
    var m5 := Apply(m4, e).0;
    OneTouch(m4, [e], 0);
    OneTouch(m3, [d, e], 0);
    OneTouch(m2, [c, d, e], 0);
    OneTouch(m1, [b, c, d, e], 0);
    OneTouch(m0, [a, b, c, d, e], 0);
    assert [e][1..] == [] && [d, e][1..] == [e] && [c, d, e][1..] == [d, e] && [b, c, d, e][1..] == [c, d, e];
    assert [a, b, c, d, e][1..] == [b, c, d, e];
    assert CanRun(m5, []) && TouchCount(m5, [], 0) == 0;
    assert Touches(m1, b, 0) && Touches(m2, c, 0) && Touches(m3, d, 0) && Touches(m4, e, 0) && !Touches(m0, a, 0);
  }

  lemma OneTouch(m: Market, ops: seq<Op>, creditId: nat)
    requires ops != []
    ensures TouchCount(m, ops, creditId)
         == TouchCount(Apply(m, ops[0]).0, ops[1..], creditId) + if Touches(m, ops[0], creditId) then 1 else 0
    ensures CanRun(m, ops) <==> IdsFresh(m, ops[0]) && CanRun(Apply(m, ops[0]).0, ops[1..])
  {
  }

  lemma {:induction false} SpentCreditNeverChanges(m: Market, ops: seq<Op>, creditId: nat)
    requires Invariant(m) && CanRun(m, ops) && creditId in m.credits && OperationsLeft(m, creditId) == 0
    ensures creditId in Run(m, ops).credits && Run(m, ops).credits[creditId] == m.credits[creditId]
    decreases |ops|
  {
    if ops == [] {
    } else {
      OperationsRunOut(m, ops[0], creditId);
      ApplyKeeps(m, ops[0]);
      SpentCreditNeverChanges(Apply(m, ops[0]).0, ops[1..], creditId);
    }
  }

  ghost predicate NeverChanges(m: Market, creditId: nat)
    requires creditId in m.credits
  {
    forall ops :: CanRun(m, ops) ==>
      creditId in Run(m, ops).credits && Run(m, ops).credits[creditId] == m.credits[creditId]
  }

  /** Retirement is permanent exactly when the credit has no open trade. */
  lemma RetiredForGoodIffNoOpenTrade(m: Market, creditId: nat)
    requires Invariant(m) && creditId in m.credits && m.credits[creditId].status == Retired
    ensures NeverChanges(m, creditId) <==> !HasOpenTrade(m, creditId)
  {
    if HasOpenTrade(m, creditId) {
      var t :| t in m.trades && m.trades[t].creditId == creditId && m.trades[t].status == Open;
      assert TradeFits(m, m.trades[t]);
      var op := Purchase(m.trades[t].seller + 1, t, m.trades[t].quantity);
      assert Run(m, [op]) == Apply(m, op).0;
      assert CanRun(Apply(m, op).0, [op][1..]) && CanRun(m, [op]);
      assert Run(m, [op]).credits[creditId].status == Sold;
    } else {
      forall ops | CanRun(m, ops)
        ensures creditId in Run(m, ops).credits && Run(m, ops).credits[creditId] == m.credits[creditId]
      {
        SpentCreditNeverChanges(m, ops, creditId);
      }
    }
  }

  /** Such a credit exists: generated, listed and then retired by its owner while the trade stays open. */
  lemma RetiredWithOpenTradeIsReachable()
    ensures var ops := [Generate(0, 1, Some(5.0)), List(0, 1, 0, 5.0, 1.0), Retire(1, 0, "offset")];
            var start := Market(map[], map[]);
            var m := Run(start, ops);
            && Start(start) && CanRun(start, ops)
            && 0 in m.credits && m.credits[0].status == Retired && HasOpenTrade(m, 0)
            && !NeverChanges(m, 0)
  {
    var a, b, c := Generate(0, 1, Some(5.0)), List(0, 1, 0, 5.0, 1.0), Retire(1, 0, "offset");
    var start := Market(map[], map[]);
    var m1 := Apply(start, a).0;
    var m2 := Apply(m1, b).0;
    var m3 := Apply(m2, c).0;
    var ops := [a, b, c];
    assert ops[1..] == [b, c] && [b, c][1..] == [c] && [c][1..] == [];
    assert Run(m3, []) == m3 && CanRun(m3, []);
    assert Run(m2, [c]) == m3 && CanRun(m2, [c]);
    assert Run(m1, [b, c]) == m3 && CanRun(m1, [b, c]);
    assert Run(start, ops) == m3 && CanRun(start, ops);
    assert m3.trades[0].creditId == 0 && m3.trades[0].status == Open;
    RunKeeps(start, ops);
    RetiredForGoodIffNoOpenTrade(m3, 0);
  }

  // ---- The service ----

  class CarbonService {
    var credits: map<nat, Credit>
    var trades: map<nat, Trade>

    ghost function State(): Market
      reads this
    {
      Market(credits, trades)
    }

    /** One trade a credit, sellers that own what they sell, no trade above its credit. */
    ghost predicate Valid()
      reads this
    {
      Invariant(State())
    }

    constructor (credits: map<nat, Credit>)
      requires Start(Market(credits, map[]))
      ensures Valid() && State() == Market(credits, map[])
    {
      this.credits, trades := credits, map[];
    }

    /** `creditId` is the id the database gives the new row. */
    method GenerateCredit(creditId: nat, owner: nat, footprint: Option<real>) returns (outcome: Outcome)
      requires Valid() && creditId !in credits
      modifies this
      ensures Valid() && (State(), outcome) == Apply(old(State()), Generate(creditId, owner, footprint))
    {
      ApplyKeeps(State(), Generate(creditId, owner, footprint));
      if footprint == None {
        return NotFound;
      }
      if footprint.value <= 0.0 {
        return Invalid;
      }
      credits := credits[creditId := Credit(owner, footprint.value, Pending, None)];
      outcome := Success;
    }

    method RetireCredit(owner: nat, creditId: nat, reason: string) returns (outcome: Outcome)
      requires Valid()
      modifies this
      ensures Valid() && (State(), outcome) == Apply(old(State()), Retire(owner, creditId, reason))
    {
      ApplyKeeps(State(), Retire(owner, creditId, reason));
      if creditId !in credits {
        return NotFound;
      }
      var credit := credits[creditId];
      if credit.owner != owner {
        return Forbidden;
      }
      if credit.status == Retired {
        return Invalid;
      }
      credits := credits[creditId := credit.(status := Retired, retirementReason := Some(reason))];
      outcome := Success;
    }

    /** `tradeId` is the id the database gives the new row. */
    method CreateTrade(tradeId: nat, seller: nat, creditId: nat, quantity: real, price: real) returns (outcome: Outcome)
      requires Valid() && tradeId !in trades
      modifies this
      ensures Valid() && (State(), outcome) == Apply(old(State()), List(tradeId, seller, creditId, quantity, price))
    {
      ApplyKeeps(State(), List(tradeId, seller, creditId, quantity, price));
      if creditId !in credits {
        return NotFound;
      }
      var credit := credits[creditId];
      if credit.owner != seller {
        return Forbidden;
      }
      if credit.status != Verified && credit.status != Pending {
        return Invalid;
      }
      if quantity <= 0.0 || quantity > credit.quantity {
        return Invalid;
      }
      trades := trades[tradeId := Trade(creditId, seller, None, quantity, price, TotalAmount(quantity, price), 0.0, Open)];
      credits := credits[creditId := credit.(status := Listed)];
      outcome := Success;
    }

    method PurchaseCredit(buyer: nat, tradeId: nat, quantity: real) returns (outcome: Outcome)
      requires Valid()
      modifies this
      ensures Valid() && (State(), outcome) == Apply(old(State()), Purchase(buyer, tradeId, quantity))
    {
      ApplyKeeps(State(), Purchase(buyer, tradeId, quantity));
      if tradeId !in trades {
        return NotFound;
      }
      var trade := trades[tradeId];
      if trade.status != Open {
        return Invalid;
      }
      if trade.seller == buyer {
        return Invalid;
      }
      if quantity <= 0.0 || quantity > trade.quantity {
        return Invalid;
      }
      var total := TotalAmount(quantity, trade.pricePerTonne);
      var fee := total * 0.025;
      trades := trades[tradeId := trade.(buyer := Some(buyer), status := Settled, quantity := quantity,
                                         totalAmount := total, platformFee := fee)];
      if trade.creditId in credits {
        credits := credits[trade.creditId := credits[trade.creditId].(owner := buyer, status := Sold)];
      }
      outcome := Success;
    }
  }
}
