/**
 Products, tracking events and the two caches in front of them: one entry per product and one for the
 global statistics. Any cache entry may expire at any time.
 */
module ProductCache {
  import opened Prelude

  datatype Product = Product(
    id: string,
    name: string,
    description: string,
    originLocation: string,
    category: string,
    tags: seq<string>,
    certifications: seq<string>,
    mediaHashes: seq<string>,
    customFields: string,
    ownerAddress: string,
    isActive: bool,
    createdAt: int,
    updatedAt: int,
    createdBy: string,
    updatedBy: string)

  datatype NewProduct = NewProduct(
    id: string,
    name: string,
    description: string,
    originLocation: string,
    category: string,
    tags: seq<string>,
    certifications: seq<string>,
    mediaHashes: seq<string>,
    customFields: string,
    ownerAddress: string,
    createdBy: string)

  /** `metadata` is carried as its JSON text. */
  datatype TrackingEvent = TrackingEvent(
    productId: string,
    actorAddress: string,
    timestamp: int,
    eventType: string,
    location: string,
    dataHash: string,
    note: Option<string>,
    metadata: string)

  datatype GlobalStats = GlobalStats(
    totalProducts: nat,
    activeProducts: nat,
    totalEvents: nat,
    totalUsers: nat,
    activeApiKeys: nat)

  type Table = map<string, Product>

  datatype World = World(
    products: Table,
    events: seq<TrackingEvent>,
    users: nat,
    apiKeys: nat,
    productCache: map<string, Product>,
    statsCache: Option<GlobalStats>)

  datatype Result<T> = Ok(value: T) | DatabaseError

  // ---- Rows ----

  function CreatedRow(p: NewProduct, now: int): Product {
    Product(p.id, p.name, p.description, p.originLocation, p.category, p.tags, p.certifications, p.mediaHashes,
            p.customFields, p.ownerAddress, true, now, now, p.createdBy, p.createdBy)
  }

  /** The columns an UPDATE writes; id and creation columns stay, and a trigger stamps `updated_at`. */
  function UpdatedRow(row: Product, p: Product, now: int): Product {
    row.(name := p.name, description := p.description, originLocation := p.originLocation, category := p.category,
         tags := p.tags, certifications := p.certifications, mediaHashes := p.mediaHashes,
         customFields := p.customFields, ownerAddress := p.ownerAddress, isActive := p.isActive,
         updatedBy := p.updatedBy, updatedAt := now)
  }

  /** What a sync copies onto the product it has read. */
  function Overlaid(existing: Product, p: NewProduct): Product {
    existing.(name := p.name, description := p.description, originLocation := p.originLocation,
              category := p.category, tags := p.tags, certifications := p.certifications,
              mediaHashes := p.mediaHashes, customFields := p.customFields, ownerAddress := p.ownerAddress,
              updatedBy := p.createdBy)
  }

  function ActiveIds(t: Table): set<string> {
    set id | id in t && t[id].isActive
  }

  function EventsWithout(events: seq<TrackingEvent>, id: string): seq<TrackingEvent> {
    if events == [] then []
    else
      var before, last := EventsWithout(events[..|events| - 1], id), events[|events| - 1];
      if last.productId == id then before else before + [last]
  }

  function FreshStats(w: World): GlobalStats {
    GlobalStats(|w.products|, |ActiveIds(w.products)|, |w.events|, w.users, w.apiKeys)
  }

  function Lookup(t: Table, id: string): Option<Product> {
    if id in t then Some(t[id]) else None
  }

  // ---- Service calls ----

  function ProductCreated(w: World, p: NewProduct, now: int): (World, Result<Product>) {
    if p.id in w.products then (w, DatabaseError)
    else
      var row := CreatedRow(p, now);
      (w.(products := w.products[p.id := row], statsCache := None), Ok(row))
  }

  function ProductRead(w: World, id: string): (World, Option<Product>) {
    if id in w.productCache then (w, Some(w.productCache[id]))
    else if id in w.products then
      (w.(productCache := w.productCache[id := w.products[id]]), Some(w.products[id]))
    else (w, None)
  }

  function ProductUpdated(w: World, id: string, p: Product, now: int): (World, Result<Product>) {
    if id !in w.products then (w, DatabaseError)
    else
      var row := UpdatedRow(w.products[id], p, now);
      (w.(products := w.products[id := row], productCache := w.productCache - {id}, statsCache := None), Ok(row))
  }

  /** Deleting a product deletes its tracking events with it. */
  function ProductDeleted(w: World, id: string): World {
    w.(products := w.products - {id}, events := EventsWithout(w.events, id),
       productCache := w.productCache - {id}, statsCache := None)
  }

  /** An event must refer to an existing product. */
  function EventCreated(w: World, e: TrackingEvent): (World, Result<TrackingEvent>) {
    if e.productId !in w.products then (w, DatabaseError)
    else (w.(events := w.events + [e], statsCache := None), Ok(e))
  }

  function StatsRead(w: World): (World, GlobalStats) {
    match w.statsCache
    case Some(s) => (w, s)
    case None => (w.(statsCache := Some(FreshStats(w))), FreshStats(w))
  }

  function Synced(w: World, p: NewProduct, now: int): (World, Result<Product>) {
    var (u, existing) := ProductRead(w, p.id);
    match existing
    case Some(row) => ProductUpdated(u, p.id, Overlaid(row, p), now)
    case None => ProductCreated(u, p, now)
  }

  datatype Op =
    | Create(product: NewProduct, now: int)
    | Read(id: string)
    | Update(id: string, row: Product, now: int)
    | Delete(id: string)
    | AddEvent(event: TrackingEvent)
    | ReadStats
    | Sync(product: NewProduct, now: int)
    | ExpireProduct(id: string)
    | ExpireStats
    | OtherWrites(users: nat, apiKeys: nat)   // accounts and keys change without touching the cache

  function Apply(w: World, op: Op): World {
    match op
    case Create(p, now) => ProductCreated(w, p, now).0
    case Read(id) => ProductRead(w, id).0
    case Update(id, row, now) => ProductUpdated(w, id, row, now).0
    case Delete(id) => ProductDeleted(w, id)
    case AddEvent(e) => EventCreated(w, e).0
    case ReadStats => StatsRead(w).0
    case Sync(p, now) => Synced(w, p, now).0
    case ExpireProduct(id) => w.(productCache := w.productCache - {id})
    case ExpireStats => w.(statsCache := None)
    case OtherWrites(users, apiKeys) => w.(users := users, apiKeys := apiKeys)
  }

  function Run(w: World, ops: seq<Op>): World {
    if ops == [] then w else Apply(Run(w, ops[..|ops| - 1]), ops[|ops| - 1])
  }

  // ---- Coherence ----

  ghost predicate ProductsCoherent(products: Table, cache: map<string, Product>) {
    forall id :: id in cache ==> id in products && cache[id] == products[id]
  }

  ghost predicate CountsAgree(w: World, s: GlobalStats) {
    s.totalProducts == |w.products| && s.activeProducts == |ActiveIds(w.products)| && s.totalEvents == |w.events|
  }

  ghost predicate Coherent(w: World) {
    ProductsCoherent(w.products, w.productCache) && (w.statsCache.Some? ==> CountsAgree(w, w.statsCache.value))
  }

  lemma SyncKeepsCoherent(w: World, p: NewProduct, now: int)
    requires Coherent(w)
    ensures Coherent(Synced(w, p, now).0)
  {
    var (u, existing) := ProductRead(w, p.id);
    assert Coherent(u);
  }

  lemma ApplyKeepsCoherent(w: World, op: Op)
    requires Coherent(w)
    ensures Coherent(Apply(w, op))
  {
    match op
    case Sync(p, now) => SyncKeepsCoherent(w, p, now);
    case _ =>
  }

  lemma {:induction false} RunKeepsCoherent(w: World, ops: seq<Op>)
    requires Coherent(w)
    ensures Coherent(Run(w, ops))
  {
    if ops == [] {
    } else {
      RunKeepsCoherent(w, ops[..|ops| - 1]);
      ApplyKeepsCoherent(Run(w, ops[..|ops| - 1]), ops[|ops| - 1]);
    }
  }

  /** In every run, entries expiring at any time, a read returns exactly what the table holds. */
  lemma ReadsReturnTheTable(w: World, ops: seq<Op>, id: string)
    requires Coherent(w)
    ensures ProductRead(Run(w, ops), id).1 == Lookup(Run(w, ops).products, id)
  {
    RunKeepsCoherent(w, ops);
  }

  /** In every run the statistics' product, active-product and event counts are the tables'. */
  lemma StatsCountTheTables(w: World, ops: seq<Op>)
    requires Coherent(w)
    ensures CountsAgree(Run(w, ops), StatsRead(Run(w, ops)).1)
  {
    RunKeepsCoherent(w, ops);
  }

  /** After a delete the events of other products are left, as often and in the order they were, and no others. */
  lemma {:induction false} DeleteKeepsOtherEvents(events: seq<TrackingEvent>, id: string) returns (at: seq<nat>)
    ensures Selected(at, events, EventsWithout(events, id), (e: TrackingEvent) => e.productId != id, (e: TrackingEvent) => e)
  {
    if events == [] {
      at := [];
    } else {
      var init, last := events[..|events| - 1], events[|events| - 1];
      var other, same := (e: TrackingEvent) => e.productId != id, (e: TrackingEvent) => e;
      at := DeleteKeepsOtherEvents(init, id);
      assert init + [last] == events;
      if other(last) {
        SelectedMore(at, init, EventsWithout(init, id), other, same, last);
        at := at + [|init|];
      } else {
        SelectedNoMore(at, init, EventsWithout(init, id), other, same, last);
      }
    }
  }

  /** Whatever wrote the table, a read is right exactly when nothing is cached or the cached row is the table's. */
  lemma ReadIsRightIff(w: World, id: string)
    ensures ProductRead(w, id).1 == Lookup(w.products, id)
            <==> id !in w.productCache || Lookup(w.products, id) == Some(w.productCache[id])
  {
  }

  // ---- What an update, a creation and a deletion leave to be read ----

  function Flag(t: Table, id: string): nat {
    if id in t && t[id].isActive then 1 else 0
  }

  lemma CountWithout(t: Table, id: string)
    ensures |ActiveIds(t)| == |ActiveIds(t - {id})| + Flag(t, id)
  {
    var others := ActiveIds(t - {id});
    if Flag(t, id) == 1 {
      assert ActiveIds(t) == others + {id};
    } else {
      assert ActiveIds(t) == others;
    }
  }

  /** The active count changes by one row's flag when only that row changes. */
  lemma ActiveCount(t: Table, u: Table, id: string)
    requires t - {id} == u - {id}
    ensures |ActiveIds(u)| + Flag(t, id) == |ActiveIds(t)| + Flag(u, id)
  {
    CountWithout(t, id);
    CountWithout(u, id);
  }

  /** The row holds the eleven given columns, activity and editor among them. */
  predicate HoldsColumns(row: Product, p: Product) {
    && row.name == p.name && row.description == p.description && row.originLocation == p.originLocation
    && row.category == p.category && row.tags == p.tags && row.certifications == p.certifications
    && row.mediaHashes == p.mediaHashes && row.customFields == p.customFields && row.ownerAddress == p.ownerAddress
    && row.isActive == p.isActive && row.updatedBy == p.updatedBy
  }

  /**
   After an update an existing product reads with the given columns and its own id, creation time and creator;
   the active count moves by its flag alone. An unknown product changes nothing.
   */
  lemma UpdateIsRead(w: World, id: string, p: Product, now: int)
    requires Coherent(w)
    ensures var (u, result) := ProductUpdated(w, id, p, now);
            && (id !in w.products ==> u == w && result == DatabaseError)
            && (id in w.products ==>
                  && ProductRead(u, id).1.Some?
                  && var row, was := ProductRead(u, id).1.value, w.products[id];
                     && result == Ok(row)
                     && HoldsColumns(row, p)
                     && row.id == was.id && row.createdAt == was.createdAt && row.createdBy == was.createdBy
                     && row.updatedAt == now
                     && u.products == w.products[id := row] && u.events == w.events
                     && |ActiveIds(u.products)| + (if was.isActive then 1 else 0)
                        == |ActiveIds(w.products)| + if p.isActive then 1 else 0)
  {
    if id in w.products {
      var u := ProductUpdated(w, id, p, now).0;
      assert w.products - {id} == u.products - {id};
      ActiveCount(w.products, u.products, id);
    }
  }

  /** After a creation the product reads as given, active, and counts; a taken id changes nothing. */
  lemma CreationIsRead(w: World, p: NewProduct, now: int)
    requires Coherent(w)
    ensures var (u, result) := ProductCreated(w, p, now);
            && (p.id in w.products ==> u == w && result == DatabaseError)
            && (p.id !in w.products ==>
                  && ProductRead(u, p.id).1.Some?
                  && var row := ProductRead(u, p.id).1.value;
                     && result == Ok(row)
                     && row.id == p.id && Published(row) == p && row.createdBy == p.createdBy
                     && row.isActive && row.createdAt == now && row.updatedAt == now
                     && u.products == w.products[p.id := row] && u.events == w.events
                     && |u.products| == |w.products| + 1
                     && |ActiveIds(u.products)| == |ActiveIds(w.products)| + 1)
  {
    if p.id !in w.products {
      var u := ProductCreated(w, p, now).0;
      assert w.products - {p.id} == u.products - {p.id};
      ActiveCount(w.products, u.products, p.id);
    }
  }

  /** After a deletion the product reads as absent, and only it and its events are gone. */
  lemma DeletionIsRead(w: World, id: string)
    requires Coherent(w)
    ensures var u := ProductDeleted(w, id);
            && ProductRead(u, id).1 == None
            && u.products == w.products - {id} && u.events == EventsWithout(w.events, id)
            && |ActiveIds(u.products)| + Flag(w.products, id) == |ActiveIds(w.products)|
  {
    ActiveCount(w.products, ProductDeleted(w, id).products, id);
  }

  /** An event is added iff its product exists, last, and counts. */
  lemma EventIsCounted(w: World, e: TrackingEvent)
    requires Coherent(w)
    ensures var (u, result) := EventCreated(w, e);
            && (result == Ok(e) <==> e.productId in w.products)
            && (result == DatabaseError <==> e.productId !in w.products)
            && u.products == w.products
            && u.events == (if e.productId in w.products then w.events + [e] else w.events)
            && StatsRead(u).1.totalEvents == |u.events|
  {
  }

  // ---- Account figures in the cached statistics ----

  datatype Totals = Totals(users: nat, apiKeys: nat)

  function TotalsOf(w: World): Totals {
    Totals(w.users, w.apiKeys)
  }

  function FiguresIn(s: GlobalStats): Totals {
    Totals(s.totalUsers, s.activeApiKeys)
  }

  /** The operation is an expiry of the statistics, or a write that invalidates them. */
  predicate Clears(w: World, op: Op) {
    match op
    case Create(p, _) => p.id !in w.products
    case Update(id, _, _) => id in w.products
    case Delete(_) => true
    case AddEvent(e) => e.productId in w.products
    case Sync(_, _) => true
    case ExpireStats => true
    case _ => false
  }

  /** What last filled the cached statistics: nothing since they were cleared, someone before the run, or a read of the run. */
  datatype Fill = Nothing | BeforeRun | ReadAt(index: nat)

  /** A read fills the statistics when it misses; only clearing them empties them again. */
  function LastFill(w: World, ops: seq<Op>): (fill: Fill)
    ensures fill.ReadAt? ==> fill.index < |ops|
    ensures fill == BeforeRun ==> w.statsCache.Some?
  {
    if ops == [] then
      if w.statsCache == None then Nothing else BeforeRun
    else
      var before, op := ops[..|ops| - 1], ops[|ops| - 1];
      var fill := LastFill(w, before);
      if Clears(Run(w, before), op) then Nothing
      else if op.ReadStats? && fill == Nothing then ReadAt(|before|)
      else fill
  }

  lemma ClearsExactly(w: World, op: Op)
    requires Coherent(w)
    ensures Clears(w, op) ==> Apply(w, op).statsCache == None
    ensures !Clears(w, op) && !(op.ReadStats? && w.statsCache == None) ==> Apply(w, op).statsCache == w.statsCache
    ensures op.ReadStats? && w.statsCache == None ==>
              Apply(w, op).statsCache.Some? && FiguresIn(Apply(w, op).statsCache.value) == TotalsOf(w)
  {
  }

  /** The account totals at the moment the cached statistics were last filled. */
  function TotalsWhenFilled(w: World, ops: seq<Op>): Totals {
    match LastFill(w, ops)
    case Nothing => TotalsOf(Run(w, ops))
    case BeforeRun => FiguresIn(w.statsCache.value)
    case ReadAt(k) => TotalsOf(Run(w, ops[..k]))
  }

  ghost predicate NotClearedSince(w: World, ops: seq<Op>, k: nat) {
    |ops| <= k || (NotClearedSince(w, ops[..|ops| - 1], k) && !Clears(Run(w, ops[..|ops| - 1]), ops[|ops| - 1]))
  }

  /** The filling read is the last one that missed: it found nothing cached, and nothing was cleared after it. */
  lemma {:induction false} LastFillIsLastMiss(w: World, ops: seq<Op>)
    requires Coherent(w)
    ensures match LastFill(w, ops)
            case Nothing => true
            case BeforeRun => NotClearedSince(w, ops, 0)
            case ReadAt(k) => ops[k].ReadStats? && Run(w, ops[..k]).statsCache == None && NotClearedSince(w, ops, k + 1)
  {
    if ops == [] {
    } else {
      var n := |ops| - 1;
      LastFillIsLastMiss(w, ops[..n]);
      CacheHoldsLastFill(w, ops[..n]);
      if LastFill(w, ops).ReadAt? && LastFill(w, ops).index < n {
        assert ops[..n][..LastFill(w, ops).index] == ops[..LastFill(w, ops).index];
      }
    }
  }

  /** The cached statistics are there exactly if something filled them, with the totals of that moment. */
  lemma {:induction false} CacheHoldsLastFill(w: World, ops: seq<Op>)
    requires Coherent(w)
    ensures Holds(Run(w, ops).statsCache, w, ops, LastFill(w, ops))
  {
    if ops == [] {
    } else {
      var n := |ops| - 1;
      CacheHoldsLastFill(w, ops[..n]);
      RunKeepsCoherent(w, ops[..n]);
      ClearsExactly(Run(w, ops[..n]), ops[n]);
      var fill := LastFill(w, ops);
      if fill.ReadAt? && fill.index < n {
        assert ops[..n][..fill.index] == ops[..fill.index];
      }
    }
  }

  ghost predicate Holds(cache: Option<GlobalStats>, w: World, ops: seq<Op>, fill: Fill)
    requires fill.ReadAt? ==> fill.index <= |ops|
  {
    match fill
    case Nothing => cache == None
    case BeforeRun => cache == w.statsCache
    case ReadAt(k) => cache.Some? && FiguresIn(cache.value) == TotalsOf(Run(w, ops[..k]))
  }

  /**
   After any run the account figures read are the tables' exactly when nothing has filled the cached statistics
   since they were cleared, or the totals at the moment they were last filled equal the current ones.
   */
  lemma AccountFiguresAreOfLastFill(w: World, ops: seq<Op>)
    requires Coherent(w)
    ensures FiguresIn(StatsRead(Run(w, ops)).1) == TotalsWhenFilled(w, ops)
    ensures FiguresIn(StatsRead(Run(w, ops)).1) == TotalsOf(Run(w, ops))
            <==> LastFill(w, ops) == Nothing || TotalsWhenFilled(w, ops) == TotalsOf(Run(w, ops))
  {
    CacheHoldsLastFill(w, ops);
  }

  /** Lagging figures are within reach: statistics read, then an account added. */
  lemma FiguresDoLag()
    ensures var w := World(map[], [], 0, 0, map[], None);
            var ops := [ReadStats, OtherWrites(1, 0)];
            Coherent(w) && FiguresIn(StatsRead(Run(w, ops)).1) != TotalsOf(Run(w, ops))
  {
    var w := World(map[], [], 0, 0, map[], None);
    var ops := [ReadStats, OtherWrites(1, 0)];
    assert ops[..1] == [ReadStats] && ops[..1][..0] == [];
    assert Run(w, ops[..1]) == Apply(w, ReadStats);
  }

  // ---- Syncing ----

  /** The table after one sync. */
  function SyncedTable(t: Table, p: NewProduct, now: int): Table {
    if p.id in t then t[p.id := UpdatedRow(t[p.id], Overlaid(t[p.id], p), now)] else t[p.id := CreatedRow(p, now)]
  }

  /** With coherent caches a sync succeeds, and its effect on the table does not depend on the cache. */
  lemma SyncWritesTheTable(w: World, p: NewProduct, now: int)
    requires Coherent(w)
    ensures var (v, r) := Synced(w, p, now);
            && v.products == SyncedTable(w.products, p, now)
            && r == Ok(v.products[p.id])
            && v.events == w.events
  {
  }

  /** The row seen as the contract's version of the product, its last editor as the author. */
  function Published(row: Product): NewProduct {
    NewProduct(row.id, row.name, row.description, row.originLocation, row.category, row.tags, row.certifications,
               row.mediaHashes, row.customFields, row.ownerAddress, row.updatedBy)
  }

  /** What was synced is what the table then publishes; activity, creation time and creator survive. */
  lemma SyncRoundTrip(t: Table, p: NewProduct, now: int)
    requires forall id :: id in t ==> t[id].id == id
    ensures var row := SyncedTable(t, p, now)[p.id];
            && Published(row) == p
            && row.updatedAt == now
            && (if p.id in t
                then row.isActive == t[p.id].isActive && row.createdAt == t[p.id].createdAt
                     && row.createdBy == t[p.id].createdBy
                else row.isActive && row.createdAt == now && row.createdBy == p.createdBy)
  {
  }

  /** A product to sync and the time its turn comes. */
  datatype Item = Item(product: NewProduct, now: int)

  function BatchTable(t: Table, items: seq<Item>): Table {
    if items == [] then t
    else SyncedTable(BatchTable(t, items[..|items| - 1]), items[|items| - 1].product, items[|items| - 1].now)
  }

  /** The row without its last-update stamp. */
  function Unstamped(p: Product): Product {
    p.(updatedAt := 0)
  }

  function LastOf(items: seq<Item>, id: string): (r: Option<NewProduct>)
    ensures r.Some? ==> r.value.id == id
  {
    if items == [] then None
    else if items[|items| - 1].product.id == id then Some(items[|items| - 1].product)
    else LastOf(items[..|items| - 1], id)
  }

  /** After a batch, syncing the last version of any of its products again would change nothing. */
  lemma {:induction false} BatchSettles(t: Table, items: seq<Item>, id: string)
    requires LastOf(items, id).Some?
    ensures var b := BatchTable(t, items);
            && id in b
            && Unstamped(Overlaid(b[id], LastOf(items, id).value)) == Unstamped(b[id])
  {
    var before, last := items[..|items| - 1], items[|items| - 1];
    if last.product.id != id {
      BatchSettles(t, before, id);
    }
  }

  /** On an existing product a batch leaves its last version, and nothing else. */
  lemma {:induction false} BatchOverwrites(t: Table, items: seq<Item>, id: string)
    requires id in t
    ensures var b := BatchTable(t, items);
            && id in b
            && Unstamped(b[id])
               == match LastOf(items, id)
                  case None => Unstamped(t[id])
                  case Some(p) => Unstamped(Overlaid(t[id], p))
  {
    if items == [] {
    } else {
      BatchOverwrites(t, items[..|items| - 1], id);
    }
  }

  lemma {:induction false} BatchKeys(t: Table, items: seq<Item>, id: string)
    ensures id in BatchTable(t, items) <==> id in t || LastOf(items, id).Some?
  {
    if items == [] {
    } else {
      BatchKeys(t, items[..|items| - 1], id);
    }
  }

  /** The same products in the same order, whenever they come. */
  ghost predicate SameProducts(a: seq<Item>, b: seq<Item>) {
    |a| == |b| && forall i :: 0 <= i < |a| ==> a[i].product == b[i].product
  }

  lemma {:induction false} SameLast(a: seq<Item>, b: seq<Item>, id: string)
    requires SameProducts(a, b)
    ensures LastOf(a, id) == LastOf(b, id)
  {
    if a == [] {
    } else {
      SameLast(a[..|a| - 1], b[..|b| - 1], id);
    }
  }

  /** Syncing a batch a second time changes nothing but update stamps, repeated ids included. */
  lemma SyncTwiceIsSyncOnce(t: Table, first: seq<Item>, second: seq<Item>)
    requires SameProducts(first, second)
    ensures var once := BatchTable(t, first);
            var twice := BatchTable(once, second);
            && once.Keys == twice.Keys
            && forall id :: id in once ==> Unstamped(twice[id]) == Unstamped(once[id])
  {
    var once := BatchTable(t, first);
    var twice := BatchTable(once, second);
    forall id
      ensures id in once <==> id in twice
      ensures id in once ==> Unstamped(twice[id]) == Unstamped(once[id])
    {
      SameLast(first, second, id);
      BatchKeys(t, first, id);
      BatchKeys(once, second, id);
      if id in once {
        BatchOverwrites(once, second, id);
        if LastOf(first, id).Some? {
          BatchSettles(t, first, id);
        }
      }
    }
  }

  /** The row that the i-th item of a batch left behind in its turn. */
  ghost predicate RowInTurn(t: Table, items: seq<Item>, i: nat, row: Product)
    requires i < |items|
  {
    var b := BatchTable(t, items[..i + 1]);
    items[i].product.id in b && row == b[items[i].product.id]
  }

  // ---- The services ----

  class Backend {
    var products: Table
    var events: seq<TrackingEvent>
    var users: nat
    var apiKeys: nat
    var productCache: map<string, Product>
    var statsCache: Option<GlobalStats>

    ghost function State(): World
      reads this
    {
      World(products, events, users, apiKeys, productCache, statsCache)
    }

    /** Both caches agree with the tables. */
    ghost predicate Valid()
      reads this
    {
      Coherent(State())
    }

    constructor ()
      ensures Valid() && State() == World(map[], [], 0, 0, map[], None)
    {
      products, events, users, apiKeys, productCache, statsCache := map[], [], 0, 0, map[], None;
    }

    method InvalidateProductCache(id: string)
      modifies this`productCache
      ensures productCache == old(productCache) - {id}
    {
      productCache := productCache - {id};
    }

    method InvalidateGlobalStats()
      modifies this`statsCache
      ensures statsCache == None
    {
      statsCache := None;
    }

    method CreateProduct(product: NewProduct, now: int) returns (result: Result<Product>)
      requires Valid()
      modifies this
      ensures Valid()
      ensures (State(), result) == ProductCreated(old(State()), product, now)
    {
      if product.id in products {
        return DatabaseError;
      }
      var created := CreatedRow(product, now);
      products := products[product.id := created];
      InvalidateGlobalStats();
      result := Ok(created);
    }

    method GetProduct(id: string) returns (product: Option<Product>)
      requires Valid()
      modifies this`productCache
      ensures Valid()
      ensures (State(), product) == ProductRead(old(State()), id)
      ensures product == Lookup(products, id)
    {
      if id in productCache {
        return Some(productCache[id]);
      }
      if id in products {
        productCache := productCache[id := products[id]];
        return Some(products[id]);
      }
      product := None;
    }

    method UpdateProduct(id: string, product: Product, now: int) returns (result: Result<Product>)
      requires Valid()
      modifies this
      ensures Valid()
      ensures (State(), result) == ProductUpdated(old(State()), id, product, now)
    {
      if id !in products {
        return DatabaseError;
      }
      var updated := UpdatedRow(products[id], product, now);
      products := products[id := updated];
      InvalidateProductCache(id);
      InvalidateGlobalStats();
      result := Ok(updated);
    }

    method DeleteProduct(id: string)
      requires Valid()
      modifies this
      ensures Valid()
      ensures State() == ProductDeleted(old(State()), id)
    {
      products := products - {id};
      events := EventsWithout(events, id);
      InvalidateProductCache(id);
      InvalidateGlobalStats();
    }

    method CreateEvent(event: TrackingEvent) returns (result: Result<TrackingEvent>)
      requires Valid()
      modifies this
      ensures Valid()
      ensures (State(), result) == EventCreated(old(State()), event)
    {
      if event.productId !in products {
        return DatabaseError;
      }
      events := events + [event];
      InvalidateGlobalStats();
      result := Ok(event);
    }

    method GetGlobalStats() returns (stats: GlobalStats)
      requires Valid()
      modifies this`statsCache
      ensures Valid()
      ensures (State(), stats) == StatsRead(old(State()))
      ensures CountsAgree(State(), stats)
    {
      if statsCache.Some? {
        return statsCache.value;
      }
      stats := GlobalStats(|products|, |ActiveIds(products)|, |events|, users, apiKeys);
      statsCache := Some(stats);
    }

    method SyncProductFromContract(product: NewProduct, now: int) returns (result: Result<Product>)
      requires Valid()
      modifies this
      ensures Valid()
      ensures (State(), result) == Synced(old(State()), product, now)
    {
      var existing := GetProduct(product.id);
      match existing
      case Some(row) => result := UpdateProduct(product.id, Overlaid(row, product), now);
      case None => result := CreateProduct(product, now);
    }

    /** Syncs a batch in order; over coherent caches nothing fails and the table is the batch's. */
    method SyncBatchProducts(items: seq<Item>) returns (results: seq<Product>)
      requires Valid()
      modifies this
      ensures Valid()
      ensures products == BatchTable(old(products), items) && events == old(events)
      ensures |results| == |items|
      ensures forall i :: 0 <= i < |items| ==> RowInTurn(old(products), items, i, results[i])
    {
      results := [];
      var i := 0;
      while i < |items|
        invariant 0 <= i <= |items| && |results| == i
        invariant Valid()
        invariant products == BatchTable(old(products), items[..i]) && events == old(events)
        invariant forall k :: 0 <= k < i ==> RowInTurn(old(products), items, k, results[k])
      {
        assert items[..i + 1][..i] == items[..i];
        SyncWritesTheTable(State(), items[i].product, items[i].now);
        SyncKeepsCoherent(State(), items[i].product, items[i].now);
        var synced := SyncProductFromContract(items[i].product, items[i].now);
        results := results + [synced.value];
        i := i + 1;
      }
      assert items[..i] == items;
    }
  }
}
