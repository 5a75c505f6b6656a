/**
 The audit log's hash chain. The HMAC of RFC 2104, section 2, is modelled symbolically: a MAC is a free
 constructor over the key, the hashed fields and the previous hash, so equal MACs have equal inputs.
 */
module AuditChain {
  import opened Prelude

  /** A stored hash: a MAC made by the service, or any other bytes. */
  datatype Hash = Mac(key: string, fields: HashedFields, prev: Option<Hash>) | OtherBytes(bytes: seq<nat>)

  datatype Category = UserAction | AuthEvent | SecurityEvent | DataAccess | BusinessEvent | SystemEvent

  datatype Severity = Info | Warn | Error

  newtype U16 = x: int | 0 <= x < 0x1_0000
  newtype I16 = x: int | -0x8000 <= x < 0x8000

  /** `changes` is carried as its canonical JSON text. */
  datatype AuditEvent = AuditEvent(
    correlationId: Option<string>,
    userId: Option<nat>,
    actorApiKeyId: Option<nat>,
    eventCategory: Category,
    eventType: string,
    severity: Severity,
    action: string,
    resourceType: Option<string>,
    targetResourceId: Option<string>,
    httpMethod: Option<string>,
    httpPath: Option<string>,
    httpStatus: Option<U16>,
    success: bool,
    errorCode: Option<string>,
    businessContext: Option<string>,
    changes: string,
    ipAddress: Option<string>,
    userAgent: Option<string>)

  /** The payload of the MAC, apart from the previous hash: everything but address and user agent. */
  datatype HashedFields = HashedFields(
    correlationId: Option<string>,
    userId: Option<nat>,
    actorApiKeyId: Option<nat>,
    eventCategory: string,
    eventType: string,
    severity: string,
    action: string,
    resourceType: Option<string>,
    targetResourceId: Option<string>,
    httpMethod: Option<string>,
    httpPath: Option<string>,
    httpStatus: Option<U16>,
    success: bool,
    errorCode: Option<string>,
    businessContext: Option<string>,
    changes: string)

  datatype AuditLogRecord = AuditLogRecord(
    id: nat,
    userId: Option<nat>,
    actorApiKeyId: Option<nat>,
    correlationId: Option<string>,
    eventCategory: Option<string>,
    eventType: Option<string>,
    severity: Option<string>,
    action: string,
    resourceType: Option<string>,
    targetResourceId: Option<string>,
    httpMethod: Option<string>,
    httpPath: Option<string>,
    httpStatus: Option<I16>,
    success: Option<bool>,
    errorCode: Option<string>,
    businessContext: Option<string>,
    changes: Option<string>,
    ipAddress: Option<string>,
    userAgent: Option<string>,
    prevHash: Option<Hash>,
    rowHash: Option<Hash>,
    createdAt: int)

  datatype ChainVerification = ChainVerification(checked: nat, valid: bool, brokenAt: Option<nat>)

  /** The empty JSON object. */
  const NO_CHANGES: string := "{}"

  function CategoryText(c: Category): string {
    match c
    case UserAction => "user_action"
    case AuthEvent => "auth_event"
    case SecurityEvent => "security_event"
    case DataAccess => "data_access"
    case BusinessEvent => "business_event"
    case SystemEvent => "system_event"
  }

  function ParseCategory(text: Option<string>): Category {
    if text == Some("auth_event") then AuthEvent
    else if text == Some("security_event") then SecurityEvent
    else if text == Some("data_access") then DataAccess
    else if text == Some("business_event") then BusinessEvent
    else if text == Some("system_event") then SystemEvent
    else UserAction
  }

  function SeverityText(s: Severity): string {
    match s
    case Info => "info"
    case Warn => "warn"
    case Error => "error"
  }

  function ParseSeverity(text: Option<string>): Severity {
    if text == Some("warn") then Warn
    else if text == Some("error") then Error
    else Info
  }

  /** `status as i16`: the same sixteen bits read as signed. */
  function ToSigned(x: U16): I16 {
    if x < 0x8000 then x as I16 else (x as int - 0x1_0000) as I16
  }

  /** `status as u16`: the same sixteen bits read as unsigned. */
  function ToUnsigned(x: I16): U16 {
    if x >= 0 then x as U16 else (x as int + 0x1_0000) as U16
  }

  function Hashed(e: AuditEvent): HashedFields {
    HashedFields(e.correlationId, e.userId, e.actorApiKeyId, CategoryText(e.eventCategory), e.eventType,
                 SeverityText(e.severity), e.action, e.resourceType, e.targetResourceId, e.httpMethod, e.httpPath,
                 e.httpStatus, e.success, e.errorCode, e.businessContext, e.changes)
  }

  /** `compute_event_hmac` */
  function ComputeHash(key: string, e: AuditEvent, prev: Option<Hash>): Hash {
    Mac(key, Hashed(e), prev)
  }

  /** The row written for an event. */
  function Record(id: nat, e: AuditEvent, prev: Option<Hash>, hash: Hash, createdAt: int): AuditLogRecord {
    AuditLogRecord(
      id, e.userId, e.actorApiKeyId, e.correlationId, Some(CategoryText(e.eventCategory)), Some(e.eventType),
      Some(SeverityText(e.severity)), e.action, e.resourceType, e.targetResourceId, e.httpMethod, e.httpPath,
      match e.httpStatus { case None => None case Some(s) => Some(ToSigned(s)) },
      Some(e.success), e.errorCode, e.businessContext, Some(e.changes), e.ipAddress, e.userAgent,
      prev, Some(hash), createdAt)
  }

  /** `NewAuditEvent::from(record)`, with its fallbacks for absent columns. */
  function Reloaded(r: AuditLogRecord): AuditEvent {
    AuditEvent(
      r.correlationId, r.userId, r.actorApiKeyId, ParseCategory(r.eventCategory),
      match r.eventType { case None => "unknown" case Some(t) => t },
      ParseSeverity(r.severity), r.action, r.resourceType, r.targetResourceId, r.httpMethod, r.httpPath,
      match r.httpStatus { case None => None case Some(s) => Some(ToUnsigned(s)) },
      match r.success { case None => false case Some(b) => b },
      r.errorCode, r.businessContext,
      match r.changes { case None => NO_CHANGES case Some(c) => c },
      r.ipAddress, r.userAgent)
  }

  lemma CategoryRoundTrip(c: Category)
    ensures ParseCategory(Some(CategoryText(c))) == c
  {
    match c
    case UserAction => assert CategoryText(c)[0] == 'u';
    case AuthEvent =>
    case SecurityEvent => assert CategoryText(c)[1] == 'e';
    case DataAccess => assert CategoryText(c)[0] == 'd';
    case BusinessEvent => assert CategoryText(c)[0] == 'b';
    case SystemEvent => assert CategoryText(c)[1] == 'y';
  }

  lemma SeverityRoundTrip(s: Severity)
    ensures ParseSeverity(Some(SeverityText(s))) == s
  {
    match s
    case Info => assert SeverityText(s)[0] == 'i';
    case Warn =>
    case Error => assert SeverityText(s)[0] == 'e';
  }

  lemma StatusRoundTrip(x: U16)
    ensures ToUnsigned(ToSigned(x)) == x
  {
  }

  /** Storing an event and reading it back loses nothing, status codes above 32767 included. */
  lemma StoreReloadRoundTrip(id: nat, e: AuditEvent, prev: Option<Hash>, hash: Hash, createdAt: int)
    ensures Reloaded(Record(id, e, prev, hash, createdAt)) == e
  {
    CategoryRoundTrip(e.eventCategory);
    SeverityRoundTrip(e.severity);
    if e.httpStatus.Some? {
      StatusRoundTrip(e.httpStatus.value);
    }
  }

  /** What a record without these columns, older than they are, reloads as. */
  lemma AbsentColumnsReload(r: AuditLogRecord)
    ensures var e := Reloaded(r);
            && (r.eventCategory == None ==> e.eventCategory == UserAction)
            && (r.eventType == None ==> e.eventType == "unknown")
            && (r.severity == None ==> e.severity == Info)
            && (r.success == None ==> !e.success)
            && (r.changes == None ==> e.changes == NO_CHANGES)
            && (r.httpStatus == None ==> e.httpStatus == None)
  {
  }

  // ---- Verification ----

  /** The hash a verifier expects of a record. */
  function Expected(key: string, r: AuditLogRecord): Hash {
    ComputeHash(key, Reloaded(r), r.prevHash)
  }

  /** Record i carries the hash of the record before it and its own correct hash. */
  ghost predicate LinkedAt(key: string, rs: seq<AuditLogRecord>, i: nat)
    requires i < |rs|
  {
    && rs[i].prevHash == (if i == 0 then None else rs[i - 1].rowHash)
    && rs[i].rowHash == Some(Expected(key, rs[i]))
  }

  ghost predicate ValidChain(key: string, rs: seq<AuditLogRecord>) {
    forall i :: 0 <= i < |rs| ==> LinkedAt(key, rs, i)
  }

  /** The verification loop from a given point on. */
  function VerifyFrom(key: string, rs: seq<AuditLogRecord>, prev: Option<Hash>, index: nat): ChainVerification {
    if rs == [] then ChainVerification(index, true, None)
    else if rs[0].prevHash != prev || rs[0].rowHash != Some(Expected(key, rs[0])) then
      ChainVerification(index, false, Some(rs[0].id))
    else VerifyFrom(key, rs[1..], rs[0].rowHash, index + 1)
  }

  function Verify(key: string, rs: seq<AuditLogRecord>): ChainVerification {
    VerifyFrom(key, rs, None, 0)
  }

  lemma {:induction false} VerifyFromFindsFirstBreak(key: string, rs: seq<AuditLogRecord>, k: nat)
    requires k <= |rs| && forall i :: 0 <= i < k ==> LinkedAt(key, rs, i)
    ensures var v := VerifyFrom(key, rs[k..], if k == 0 then None else rs[k - 1].rowHash, k);
            && k <= v.checked <= |rs|
            && (v.valid <==> v.checked == |rs|)
            && (forall i :: 0 <= i < v.checked ==> LinkedAt(key, rs, i))
            && (v.checked < |rs| ==> !LinkedAt(key, rs, v.checked) && v.brokenAt == Some(rs[v.checked].id))
            && (v.valid ==> v.brokenAt == None)
    decreases |rs| - k
  {
    if k < |rs| {
      assert rs[k..][0] == rs[k] && rs[k..][1..] == rs[k + 1..];
      if LinkedAt(key, rs, k) {
        VerifyFromFindsFirstBreak(key, rs, k + 1);
      }
    }
  }

  /** Verification accepts exactly the valid chains, and otherwise counts the records before the first broken link. */
  lemma VerifyFindsFirstBreak(key: string, rs: seq<AuditLogRecord>)
    ensures var v := Verify(key, rs);
            && (v.valid <==> ValidChain(key, rs))
            && (v.valid ==> v == ChainVerification(|rs|, true, None))
            && (!v.valid ==> v.checked < |rs| && !LinkedAt(key, rs, v.checked) && v.brokenAt == Some(rs[v.checked].id)
                             && forall i :: 0 <= i < v.checked ==> LinkedAt(key, rs, i))
  {
    assert rs[0..] == rs;
    VerifyFromFindsFirstBreak(key, rs, 0);
  }

  // ---- Position in a chain is readable from the hash ----

  function Depth(h: Option<Hash>): nat {
    match h
    case None => 0
    case Some(OtherBytes(_)) => 0
    case Some(Mac(_, _, prev)) => 1 + Depth(prev)
  }

  lemma {:induction false} DepthIsPosition(key: string, rs: seq<AuditLogRecord>, i: nat)
    requires ValidChain(key, rs) && i < |rs|
    ensures Depth(rs[i].rowHash) == i + 1 && Depth(rs[i].prevHash) == i
  {
    assert LinkedAt(key, rs, i);
    if i > 0 {
      DepthIsPosition(key, rs, i - 1);
    }
  }

  // ---- Subsequences of a valid chain ----

  ghost predicate Picks(positions: seq<nat>, n: nat) {
    && (forall j :: 0 <= j < |positions| ==> positions[j] < n)
    && (forall j, k :: 0 <= j < k < |positions| ==> positions[j] < positions[k])
  }

  function Picked(rs: seq<AuditLogRecord>, positions: seq<nat>): (r: seq<AuditLogRecord>)
    requires forall j :: 0 <= j < |positions| ==> positions[j] < |rs|
    ensures |r| == |positions| && forall j :: 0 <= j < |r| ==> r[j] == rs[positions[j]]
  {
    seq(|positions|, j requires 0 <= j < |positions| => rs[positions[j]])
  }

  lemma {:induction false} PicksClimb(positions: seq<nat>, n: nat, j: nat)
    requires Picks(positions, n) && j < |positions|
    ensures positions[j] >= j
  {
    if j == 0 {
    } else {
      PicksClimb(positions, n, j - 1);
    }
  }

  /** A picked record links to its predecessor exactly where the picking has skipped nothing so far. */
  lemma PickedLink(key: string, rs: seq<AuditLogRecord>, positions: seq<nat>, j: nat)
    requires ValidChain(key, rs) && Picks(positions, |rs|) && j < |positions|
    requires forall k :: 0 <= k < j ==> positions[k] == k
    ensures LinkedAt(key, Picked(rs, positions), j) <==> positions[j] == j
  {
    var sub := Picked(rs, positions);
    assert LinkedAt(key, rs, positions[j]);
    DepthIsPosition(key, rs, positions[j]);
    if j > 0 {
      assert positions[j - 1] == j - 1;
      assert sub[j - 1] == rs[j - 1];
      DepthIsPosition(key, rs, j - 1);
    }
  }

  /** The first place where the picked positions leave the chain. */
  ghost predicate DepartsAt(positions: seq<nat>, j: nat) {
    j < |positions| && positions[j] != j && forall k :: 0 <= k < j ==> positions[k] == k
  }

  /**
   A subsequence of a valid chain verifies exactly when it is a prefix of the chain; otherwise `checked` is
   the first index at which it departs from the chain.
   */
  lemma SubsequenceVerifiesIffPrefix(key: string, rs: seq<AuditLogRecord>, positions: seq<nat>)
    requires ValidChain(key, rs) && Picks(positions, |rs|)
    ensures var v := Verify(key, Picked(rs, positions));
            && (v.valid <==> Picked(rs, positions) <= rs)
            && (!v.valid ==> DepartsAt(positions, v.checked))
  {
    var sub := Picked(rs, positions);
    var v := Verify(key, sub);
    VerifyFindsFirstBreak(key, sub);
    PicksFit(positions, |rs|);
    if v.valid {
      forall j | 0 <= j < |sub|
        ensures sub[j] == rs[j]
      {
        ValidPicksAll(key, rs, positions, j);
      }
    } else {
      forall k | 0 <= k < v.checked
        ensures positions[k] == k
      {
        LinkedPicks(key, rs, positions, k, v.checked);
      }
      PickedLink(key, rs, positions, v.checked);
      if sub <= rs {
        assert sub[v.checked] == rs[v.checked];
        DepthIsPosition(key, rs, v.checked);
        DepthIsPosition(key, rs, positions[v.checked]);
      }
    }
  }

  lemma PicksFit(positions: seq<nat>, n: nat)
    requires Picks(positions, n)
    ensures |positions| <= n
  {
    if positions != [] {
      PicksClimb(positions, n, |positions| - 1);
    }
  }

  lemma {:induction false} LinkedPicks(key: string, rs: seq<AuditLogRecord>, positions: seq<nat>, j: nat, n: nat)
    requires ValidChain(key, rs) && Picks(positions, |rs|) && j < n <= |positions|
    requires forall i :: 0 <= i < n ==> LinkedAt(key, Picked(rs, positions), i)
    ensures forall k :: 0 <= k <= j ==> positions[k] == k
  {
    if j > 0 {
      LinkedPicks(key, rs, positions, j - 1, n);
    }
    PickedLink(key, rs, positions, j);
  }

  lemma ValidPicksAll(key: string, rs: seq<AuditLogRecord>, positions: seq<nat>, j: nat)
    requires ValidChain(key, rs) && Picks(positions, |rs|) && j < |positions|
    requires ValidChain(key, Picked(rs, positions))
    ensures positions[j] == j
  {
    LinkedPicks(key, rs, positions, j, |positions|);
  }

  // ---- Tamper evidence ----

  /** The event without its address and user agent. */
  function Covered(e: AuditEvent): AuditEvent {
    e.(ipAddress := None, userAgent := None)
  }

  /** Every field of the payload is the event's field of that name. */
  lemma PayloadIsEvent(e: AuditEvent)
    ensures var h := Hashed(e);
            && h.correlationId == e.correlationId && h.userId == e.userId && h.actorApiKeyId == e.actorApiKeyId
            && ParseCategory(Some(h.eventCategory)) == e.eventCategory && h.eventType == e.eventType
            && ParseSeverity(Some(h.severity)) == e.severity && h.action == e.action
            && h.resourceType == e.resourceType && h.targetResourceId == e.targetResourceId
            && h.httpMethod == e.httpMethod && h.httpPath == e.httpPath && h.httpStatus == e.httpStatus
            && h.success == e.success && h.errorCode == e.errorCode && h.businessContext == e.businessContext
            && h.changes == e.changes
  {
    CategoryRoundTrip(e.eventCategory);
    SeverityRoundTrip(e.severity);
  }

  /** The payload covers every field but address and user agent: no other change leaves a hash as it was. */
  lemma HashCoversEvent(key: string, e: AuditEvent, f: AuditEvent, p: Option<Hash>, q: Option<Hash>)
    ensures ComputeHash(key, e, p) == ComputeHash(key, f, q) <==> Covered(e) == Covered(f) && p == q
  {
    CategoryRoundTrip(e.eventCategory);
    CategoryRoundTrip(f.eventCategory);
    SeverityRoundTrip(e.severity);
    SeverityRoundTrip(f.severity);
  }

  ghost predicate SameHashed(r: AuditLogRecord, s: AuditLogRecord) {
    Hashed(Reloaded(r)) == Hashed(Reloaded(s)) && r.rowHash == s.rowHash && r.prevHash == s.prevHash
  }

  /**
   Two verifying chains that end in the same hash have the same length and the same hashed fields
   throughout: no record can be added, dropped, reordered or altered without changing the last hash.
   */
  lemma {:induction false} SameLastHashSameChain(key: string, a: seq<AuditLogRecord>, b: seq<AuditLogRecord>)
    requires ValidChain(key, a) && ValidChain(key, b)
    requires a != [] && b != [] && a[|a| - 1].rowHash == b[|b| - 1].rowHash
    ensures |a| == |b|
    ensures forall i :: 0 <= i < |a| ==> SameHashed(a[i], b[i])
  {
    LastRecordsAgree(key, a, b);
    var m := |a| - 1;
    if m > 0 {
      InitValid(key, a);
      InitValid(key, b);
      SameLastHashSameChain(key, a[..m], b[..m]);
      forall i | 0 <= i < m
        ensures SameHashed(a[i], b[i])
      {
        assert SameHashed(a[..m][i], b[..m][i]);
      }
    }
  }

  /** ... and so every event is the same, apart from addresses and user agents. */
  lemma SameLastHashSameEvents(key: string, a: seq<AuditLogRecord>, b: seq<AuditLogRecord>, i: nat)
    requires ValidChain(key, a) && ValidChain(key, b)
    requires a != [] && b != [] && a[|a| - 1].rowHash == b[|b| - 1].rowHash
    requires i < |a|
    ensures |a| == |b| && Covered(Reloaded(a[i])) == Covered(Reloaded(b[i]))
  {
    SameLastHashSameChain(key, a, b);
    assert SameHashed(a[i], b[i]);
    HashCoversEvent(key, Reloaded(a[i]), Reloaded(b[i]), None, None);
  }

  lemma LastRecordsAgree(key: string, a: seq<AuditLogRecord>, b: seq<AuditLogRecord>)
    requires ValidChain(key, a) && ValidChain(key, b)
    requires a != [] && b != [] && a[|a| - 1].rowHash == b[|b| - 1].rowHash
    ensures |a| == |b| && SameHashed(a[|a| - 1], b[|a| - 1])
    ensures |a| > 1 ==> a[|a| - 2].rowHash == b[|a| - 2].rowHash
  {
    DepthIsPosition(key, a, |a| - 1);
    DepthIsPosition(key, b, |b| - 1);
    assert LinkedAt(key, a, |a| - 1) && LinkedAt(key, b, |b| - 1);
  }

  lemma InitValid(key: string, rs: seq<AuditLogRecord>)
    requires ValidChain(key, rs) && rs != []
    ensures ValidChain(key, rs[..|rs| - 1])
  {
    var init := rs[..|rs| - 1];
    forall i | 0 <= i < |init|
      ensures LinkedAt(key, init, i)
    {
      assert LinkedAt(key, rs, i);
    }
  }

  // ---- The table under logging, purging and user deletion ----

  /** Rows written before hashing was introduced carry no hash and are not part of the chain. */
  function ChainOf(rows: seq<AuditLogRecord>): (r: seq<AuditLogRecord>)
    ensures |r| <= |rows|
  {
    if rows == [] then []
    else ChainOf(rows[..|rows| - 1]) + if rows[|rows| - 1].rowHash.Some? then [rows[|rows| - 1]] else []
  }

  function LatestHash(rows: seq<AuditLogRecord>): Option<Hash> {
    var chain := ChainOf(rows);
    if chain == [] then None else chain[|chain| - 1].rowHash
  }

  function Logged(key: string, rows: seq<AuditLogRecord>, id: nat, e: AuditEvent, now: int): seq<AuditLogRecord> {
    var prev := LatestHash(rows);
    rows + [Record(id, e, prev, ComputeHash(key, e, prev), now)]
  }

  /** `DELETE .. WHERE created_at < cutoff` */
  function Purged(rows: seq<AuditLogRecord>, cutoff: int): seq<AuditLogRecord> {
    if rows == [] then []
    else Purged(rows[..|rows| - 1], cutoff) + if rows[|rows| - 1].createdAt < cutoff then [] else [rows[|rows| - 1]]
  }

  /** `api_keys`: the user each key belongs to. */
  type ApiKeys = map<nat, nat>

  /** The record refers to one of these users or keys. */
  predicate Names(r: AuditLogRecord, users: set<nat>, keys: set<nat>) {
    (r.userId.Some? && r.userId.value in users) || (r.actorApiKeyId.Some? && r.actorApiKeyId.value in keys)
  }

  function Forgotten(r: AuditLogRecord, users: set<nat>, keys: set<nat>): AuditLogRecord {
    r.(userId := if r.userId.Some? && r.userId.value in users then None else r.userId,
       actorApiKeyId := if r.actorApiKeyId.Some? && r.actorApiKeyId.value in keys then None else r.actorApiKeyId)
  }

  /** `ON DELETE SET NULL`: audit rows lose their references to deleted users and keys. */
  function Cleared(rows: seq<AuditLogRecord>, users: set<nat>, keys: set<nat>): (r: seq<AuditLogRecord>)
    ensures |r| == |rows| && forall i :: 0 <= i < |r| ==> r[i] == Forgotten(rows[i], users, keys)
  {
    seq(|rows|, i requires 0 <= i < |rows| => Forgotten(rows[i], users, keys))
  }

  function KeysOf(owners: ApiKeys, user: nat): set<nat> {
    set k | k in owners && owners[k] == user
  }

  /** Deleting a user deletes its API keys with it. */
  function UserDeleted(rows: seq<AuditLogRecord>, owners: ApiKeys, user: nat): seq<AuditLogRecord> {
    Cleared(rows, {user}, KeysOf(owners, user))
  }

  function ApiKeyDeleted(rows: seq<AuditLogRecord>, key: nat): seq<AuditLogRecord> {
    Cleared(rows, {}, {key})
  }

  /** The rows are in `created_at` order, oldest first. */
  ghost predicate Ordered(rows: seq<AuditLogRecord>) {
    forall i, j :: 0 <= i < j < |rows| ==> rows[i].createdAt < rows[j].createdAt
  }

  datatype Op =
    | Log(id: nat, event: AuditEvent, now: int)
    | Purge(cutoff: int)

  function Apply(key: string, rows: seq<AuditLogRecord>, op: Op): seq<AuditLogRecord> {
    match op
    case Log(id, event, now) => Logged(key, rows, id, event, now)
    case Purge(cutoff) => Purged(rows, cutoff)
  }

  /** Each log is stamped later than every row it joins. */
  ghost predicate ClockAdvances(rows: seq<AuditLogRecord>, op: Op) {
    op.Log? ==> forall r :: r in rows ==> r.createdAt < op.now
  }

  ghost predicate CanRun(key: string, legacy: seq<AuditLogRecord>, ops: seq<Op>)
    decreases |ops|, 0
  {
    ops == [] ||
    (CanRun(key, legacy, ops[..|ops| - 1]) &&
     ClockAdvances(Run(key, legacy, ops[..|ops| - 1]), ops[|ops| - 1]))
  }

  function Run(key: string, legacy: seq<AuditLogRecord>, ops: seq<Op>): seq<AuditLogRecord>
    decreases |ops|, 1
  {
    if ops == [] then legacy else Apply(key, Run(key, legacy, ops[..|ops| - 1]), ops[|ops| - 1])
  }

  /** A stretch of some valid chain: every record is correctly hashed and linked to the one before it in the stretch. */
  ghost predicate Stretch(key: string, rs: seq<AuditLogRecord>) {
    forall i :: 0 <= i < |rs| ==>
      rs[i].rowHash == Some(Expected(key, rs[i])) && (i > 0 ==> rs[i].prevHash == rs[i - 1].rowHash)
  }

  lemma LoggedExtendsChain(key: string, rows: seq<AuditLogRecord>, id: nat, e: AuditEvent, now: int)
    ensures var prev := LatestHash(rows);
            var r := Record(id, e, prev, ComputeHash(key, e, prev), now);
            ChainOf(Logged(key, rows, id, e, now)) == ChainOf(rows) + [r] && r.rowHash == Some(Expected(key, r))
  {
    var prev := LatestHash(rows);
    var r := Record(id, e, prev, ComputeHash(key, e, prev), now);
    assert (rows + [r])[..|rows|] == rows;
    StoreReloadRoundTrip(id, e, prev, ComputeHash(key, e, prev), now);
  }

  /** Purging an ordered table keeps a suffix of it. */
  lemma {:induction false} PurgeKeepsSuffix(rows: seq<AuditLogRecord>, cutoff: int) returns (k: nat)
    requires Ordered(rows)
    ensures k <= |rows| && Purged(rows, cutoff) == rows[k..]
  {
    if rows == [] {
      k := 0;
    } else {
      var n := |rows| - 1;
      if rows[n].createdAt < cutoff {
        AllPurged(rows, cutoff);
        k := |rows|;
      } else {
        k := PurgeKeepsSuffix(rows[..n], cutoff);
        assert rows[..n][k..] + [rows[n]] == rows[k..];
      }
    }
  }

  lemma {:induction false} ChainOfJoin(a: seq<AuditLogRecord>, b: seq<AuditLogRecord>)
    ensures ChainOf(a + b) == ChainOf(a) + ChainOf(b)
  {
    if b == [] {
      assert a + b == a;
    } else {
      assert (a + b)[..|a + b| - 1] == a + b[..|b| - 1];
      ChainOfJoin(a, b[..|b| - 1]);
    }
  }

  /** ... and a suffix of its chain. */
  lemma PurgeKeepsChainSuffix(rows: seq<AuditLogRecord>, cutoff: int) returns (c: nat)
    requires Ordered(rows)
    ensures c <= |ChainOf(rows)| && ChainOf(Purged(rows, cutoff)) == ChainOf(rows)[c..]
    ensures Ordered(Purged(rows, cutoff))
  {
    var k := PurgeKeepsSuffix(rows, cutoff);
    assert rows == rows[..k] + rows[k..];
    ChainOfJoin(rows[..k], rows[k..]);
    c := |ChainOf(rows[..k])|;
  }

  lemma {:induction false} AllPurged(rows: seq<AuditLogRecord>, cutoff: int)
    requires forall r :: r in rows ==> r.createdAt < cutoff
    ensures Purged(rows, cutoff) == []
  {
    if rows == [] {
    } else {
      AllPurged(rows[..|rows| - 1], cutoff);
    }
  }

  ghost predicate TableInvariant(key: string, rows: seq<AuditLogRecord>) {
    Ordered(rows) && Stretch(key, ChainOf(rows))
  }

  lemma OrderedAppend(rows: seq<AuditLogRecord>, r: AuditLogRecord)
    requires Ordered(rows) && forall x :: x in rows ==> x.createdAt < r.createdAt
    ensures Ordered(rows + [r])
  {
  }

  lemma StretchAppend(key: string, chain: seq<AuditLogRecord>, r: AuditLogRecord)
    requires Stretch(key, chain) && r.rowHash == Some(Expected(key, r))
    requires chain != [] ==> r.prevHash == chain[|chain| - 1].rowHash
    ensures Stretch(key, chain + [r])
  {
    var longer := chain + [r];
    forall i | 0 <= i < |longer|
      ensures longer[i].rowHash == Some(Expected(key, longer[i])) && (i > 0 ==> longer[i].prevHash == longer[i - 1].rowHash)
    {
      if i < |chain| {
        assert longer[i] == chain[i];
      }
    }
  }

  lemma LogKeeps(key: string, rows: seq<AuditLogRecord>, op: Op)
    requires TableInvariant(key, rows) && op.Log? && ClockAdvances(rows, op)
    ensures TableInvariant(key, Apply(key, rows, op))
  {
    LoggedExtendsChain(key, rows, op.id, op.event, op.now);
    var prev := LatestHash(rows);
    var r := Record(op.id, op.event, prev, ComputeHash(key, op.event, prev), op.now);
    OrderedAppend(rows, r);
    StretchAppend(key, ChainOf(rows), r);
  }

  lemma PurgeKeeps(key: string, rows: seq<AuditLogRecord>, cutoff: int)
    requires TableInvariant(key, rows)
    ensures TableInvariant(key, Purged(rows, cutoff))
  {
    var c := PurgeKeepsChainSuffix(rows, cutoff);
  }

  /** Before hashing, a table holds ordered rows without hashes. */
  ghost predicate Legacy(rows: seq<AuditLogRecord>) {
    Ordered(rows) && forall r :: r in rows ==> r.rowHash == None
  }

  lemma {:induction false} LegacyHasNoChain(rows: seq<AuditLogRecord>)
    requires forall r :: r in rows ==> r.rowHash == None
    ensures ChainOf(rows) == []
  {
    if rows == [] {
    } else {
      LegacyHasNoChain(rows[..|rows| - 1]);
    }
  }

  lemma {:induction false} RunKeeps(key: string, legacy: seq<AuditLogRecord>, ops: seq<Op>)
    requires Legacy(legacy) && CanRun(key, legacy, ops)
    ensures TableInvariant(key, Run(key, legacy, ops))
    decreases |ops|
  {
    if ops == [] {
      LegacyHasNoChain(legacy);
    } else {
      RunKeeps(key, legacy, ops[..|ops| - 1]);
      var rows, op := Run(key, legacy, ops[..|ops| - 1]), ops[|ops| - 1];
      match op {
        case Log(_, _, _) => LogKeeps(key, rows, op);
        case Purge(cutoff) => PurgeKeeps(key, rows, cutoff);
      }
    }
  }

  /**
   After any run of logs and purges the chain verifies exactly when its oldest surviving record is a chain's
   first record; otherwise verification stops at index 0, however much was logged since.
   */
  lemma VerifiesIffUncut(key: string, legacy: seq<AuditLogRecord>, ops: seq<Op>)
    requires Legacy(legacy) && CanRun(key, legacy, ops)
    ensures var chain := ChainOf(Run(key, legacy, ops));
            var v := Verify(key, chain);
            && (v.valid <==> chain == [] || chain[0].prevHash == None)
            && (!v.valid ==> v.checked == 0)
  {
    RunKeeps(key, legacy, ops);
    var chain := ChainOf(Run(key, legacy, ops));
    VerifyFindsFirstBreak(key, chain);
    if chain == [] || chain[0].prevHash == None {
      assert forall i :: 0 <= i < |chain| ==> LinkedAt(key, chain, i);
    } else {
      assert !LinkedAt(key, chain, 0);
    }
  }

  /** Logging alone never breaks the chain. */
  lemma LogsAlwaysVerify(key: string, legacy: seq<AuditLogRecord>, ops: seq<Op>)
    requires Legacy(legacy) && CanRun(key, legacy, ops) && forall op :: op in ops ==> op.Log?
    ensures ValidChain(key, ChainOf(Run(key, legacy, ops)))
    ensures Verify(key, ChainOf(Run(key, legacy, ops))) == ChainVerification(|ops|, true, None)
    decreases |ops|
  {
    RunKeeps(key, legacy, ops);
    LogsCount(key, legacy, ops);
    var chain := ChainOf(Run(key, legacy, ops));
    assert forall i :: 0 <= i < |chain| ==> LinkedAt(key, chain, i);
    VerifyFindsFirstBreak(key, chain);
  }

  lemma {:induction false} LogsCount(key: string, legacy: seq<AuditLogRecord>, ops: seq<Op>)
    requires Legacy(legacy) && forall op :: op in ops ==> op.Log?
    ensures var chain := ChainOf(Run(key, legacy, ops));
            |chain| == |ops| && (chain != [] ==> chain[0].prevHash == None)
    decreases |ops|
  {
    if ops == [] {
      LegacyHasNoChain(legacy);
    } else {
      var prefix, op := ops[..|ops| - 1], ops[|ops| - 1];
      assert op in ops;
      LogsCount(key, legacy, prefix);
      LoggedExtendsChain(key, Run(key, legacy, prefix), op.id, op.event, op.now);
    }
  }

  /** Purging away a non-empty proper prefix of a valid chain makes verification fail at index 0. */
  lemma PartialPurgeFailsAtZero(key: string, rows: seq<AuditLogRecord>, cutoff: int)
    requires Ordered(rows) && ValidChain(key, ChainOf(rows))
    ensures var left := ChainOf(Purged(rows, cutoff));
            && (0 < |left| < |ChainOf(rows)| ==> Verify(key, left) == ChainVerification(0, false, Some(left[0].id)))
            && (left == [] || |left| == |ChainOf(rows)| ==> Verify(key, left).valid)
  {
    var c := PurgeKeepsChainSuffix(rows, cutoff);
    var chain, left := ChainOf(rows), ChainOf(Purged(rows, cutoff));
    VerifyFindsFirstBreak(key, left);
    if 0 < |left| < |chain| {
      assert left[0] == chain[c];
      DepthIsPosition(key, chain, c);
      assert !LinkedAt(key, left, 0);
    } else if |left| == |chain| {
      assert left == chain;
    }
  }

  lemma {:induction false} ChainAfterClearing(rows: seq<AuditLogRecord>, users: set<nat>, keys: set<nat>)
    ensures ChainOf(Cleared(rows, users, keys)) == Cleared(ChainOf(rows), users, keys)
  {
    if rows == [] {
    } else {
      var n := |rows| - 1;
      ChainAfterClearing(rows[..n], users, keys);
      var last := Cleared(rows, users, keys)[n];
      assert Cleared(rows, users, keys)[..n] == Cleared(rows[..n], users, keys);
      if rows[n].rowHash.Some? {
        assert Cleared(ChainOf(rows[..n]) + [rows[n]], users, keys) == Cleared(ChainOf(rows[..n]), users, keys) + [last];
      }
    }
  }

  lemma LinkAfterClearing(key: string, chain: seq<AuditLogRecord>, users: set<nat>, keys: set<nat>, i: nat)
    requires ValidChain(key, chain) && i < |chain|
    ensures LinkedAt(key, Cleared(chain, users, keys), i) <==> !Names(chain[i], users, keys)
  {
    assert LinkedAt(key, chain, i);
  }

  /** Verification answers `v` on a chain of which exactly the records naming these users or keys are broken. */
  ghost predicate FailsAtFirstNamed(v: ChainVerification, chain: seq<AuditLogRecord>, users: set<nat>, keys: set<nat>) {
    && (v.valid <==> forall r :: r in chain ==> !Names(r, users, keys))
    && (!v.valid ==> v.checked < |chain| && Names(chain[v.checked], users, keys)
                     && forall i :: 0 <= i < v.checked ==> !Names(chain[i], users, keys))
  }

  lemma ClearingBreaksIffNamed(key: string, rows: seq<AuditLogRecord>, users: set<nat>, keys: set<nat>)
    requires ValidChain(key, ChainOf(rows))
    ensures FailsAtFirstNamed(Verify(key, ChainOf(Cleared(rows, users, keys))), ChainOf(rows), users, keys)
  {
    var chain := ChainOf(rows);
    ChainAfterClearing(rows, users, keys);
    ClearedChainFails(key, chain, users, keys);
  }

  lemma ClearedChainFails(key: string, chain: seq<AuditLogRecord>, users: set<nat>, keys: set<nat>)
    requires ValidChain(key, chain)
    ensures FailsAtFirstNamed(Verify(key, Cleared(chain, users, keys)), chain, users, keys)
  {
    var v := Verify(key, Cleared(chain, users, keys));
    VerifyFindsFirstBreak(key, Cleared(chain, users, keys));
    forall i | 0 <= i < v.checked
      ensures !Names(chain[i], users, keys)
    {
      LinkAfterClearing(key, chain, users, keys, i);
    }
    if !v.valid {
      LinkAfterClearing(key, chain, users, keys, v.checked);
      assert chain[v.checked] in chain;
    }
  }

  /** The record was made by the user, or through a key that belongs to the user. */
  predicate Concerns(r: AuditLogRecord, owners: ApiKeys, user: nat) {
    || r.userId == Some(user)
    || (r.actorApiKeyId.Some? && r.actorApiKeyId.value in owners && owners[r.actorApiKeyId.value] == user)
  }

  lemma ConcernsIffNamed(r: AuditLogRecord, owners: ApiKeys, user: nat)
    ensures Concerns(r, owners, user) <==> Names(r, {user}, KeysOf(owners, user))
  {
  }

  /**
   Deleting a user account leaves a valid chain valid exactly when no hashed record names the user or one of
   the user's API keys; otherwise verification stops at the first such record.
   */
  lemma UserDeletionBreaksIffNamed(key: string, rows: seq<AuditLogRecord>, owners: ApiKeys, user: nat)
    requires ValidChain(key, ChainOf(rows))
    ensures var v, chain := Verify(key, ChainOf(UserDeleted(rows, owners, user))), ChainOf(rows);
            && (v.valid <==> forall r :: r in chain ==> !Concerns(r, owners, user))
            && (!v.valid ==> v.checked < |chain| && Concerns(chain[v.checked], owners, user)
                             && forall i :: 0 <= i < v.checked ==> !Concerns(chain[i], owners, user))
  {
    ClearingBreaksIffNamed(key, rows, {user}, KeysOf(owners, user));
    forall r
      ensures Concerns(r, owners, user) <==> Names(r, {user}, KeysOf(owners, user))
    {
      ConcernsIffNamed(r, owners, user);
    }
  }

  /** Failing input: an event of user 7 is logged, and user 7 deleted. */
  lemma DeletedUserBreaksChain(key: string, e: AuditEvent)
    requires e.userId == Some(7)
    ensures !Verify(key, ChainOf(UserDeleted(Run(key, [], [Log(0, e, 1)]), map[], 7))).valid
  {
    var ops := [Log(0, e, 1)];
    assert ops[..0] == [];
    var rows := Run(key, [], ops);
    LogsAlwaysVerify(key, [], ops);
    UserDeletionBreaksIffNamed(key, rows, map[], 7);
    LoggedExtendsChain(key, [], 0, e, 1);
    assert ChainOf(rows)[0] in ChainOf(rows);
  }

  /** The same for one API key. */
  lemma ApiKeyDeletionBreaksIffNamed(key: string, rows: seq<AuditLogRecord>, apiKey: nat)
    requires ValidChain(key, ChainOf(rows))
    ensures FailsAtFirstNamed(Verify(key, ChainOf(ApiKeyDeleted(rows, apiKey))), ChainOf(rows), {}, {apiKey})
  {
    ClearingBreaksIffNamed(key, rows, {}, {apiKey});
  }
}
