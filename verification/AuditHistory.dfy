/** Whole histories of the audit table: logs, purges, and the deletion of accounts along the way. */
module AuditHistory {
  import opened Prelude
  import opened AuditChain

  /** What happens to the table: a call of the service, or the deletion of users and keys elsewhere. */
  datatype Change = Service(op: Op) | Deletion(users: set<nat>, keys: set<nat>)

  function ServiceCalls(changes: seq<Change>): seq<Op> {
    if changes == [] then []
    else
      var calls, last := ServiceCalls(changes[..|changes| - 1]), changes[|changes| - 1];
      match last
      case Service(op) => calls + [op]
      case Deletion(_, _) => calls
  }

  function Changed(key: string, rows: seq<AuditLogRecord>, change: Change): seq<AuditLogRecord> {
    match change
    case Service(op) => Apply(key, rows, op)
    case Deletion(users, keys) => Cleared(rows, users, keys)
  }

  function Table(key: string, legacy: seq<AuditLogRecord>, changes: seq<Change>): seq<AuditLogRecord> {
    if changes == [] then legacy
    else Changed(key, Table(key, legacy, changes[..|changes| - 1]), changes[|changes| - 1])
  }

  /** The same rows but for references to accounts, some of which are gone. */
  ghost predicate Faded(rows: seq<AuditLogRecord>, full: seq<AuditLogRecord>) {
    && |rows| == |full|
    && forall i :: 0 <= i < |rows| ==>
         && rows[i] == full[i].(userId := rows[i].userId, actorApiKeyId := rows[i].actorApiKeyId)
         && (rows[i].userId == None || rows[i].userId == full[i].userId)
         && (rows[i].actorApiKeyId == None || rows[i].actorApiKeyId == full[i].actorApiKeyId)
  }

  lemma {:induction false} ChainFades(rows: seq<AuditLogRecord>, full: seq<AuditLogRecord>)
    requires Faded(rows, full)
    ensures Faded(ChainOf(rows), ChainOf(full))
  {
    if rows == [] {
    } else {
      ChainFades(rows[..|rows| - 1], full[..|full| - 1]);
    }
  }

  lemma {:induction false} PurgeFades(rows: seq<AuditLogRecord>, full: seq<AuditLogRecord>, cutoff: int)
    requires Faded(rows, full)
    ensures Faded(Purged(rows, cutoff), Purged(full, cutoff))
  {
    if rows == [] {
    } else {
      PurgeFades(rows[..|rows| - 1], full[..|full| - 1], cutoff);
    }
  }

  /** How one change moves the table and the chain. */
  lemma OneChange(key: string, legacy: seq<AuditLogRecord>, changes: seq<Change>)
    requires changes != []
    ensures var before, last := changes[..|changes| - 1], changes[|changes| - 1];
            && Table(key, legacy, changes) == Changed(key, Table(key, legacy, before), last)
            && (last.Service? ==>
                  Run(key, legacy, ServiceCalls(changes)) == Apply(key, Run(key, legacy, ServiceCalls(before)), last.op))
            && (last.Deletion? ==> ServiceCalls(changes) == ServiceCalls(before))
  {
    var before, last := changes[..|changes| - 1], changes[|changes| - 1];
    if last.Service? {
      var calls := ServiceCalls(before);
      assert (calls + [last.op])[..|calls|] == calls;
    }
  }

  lemma FadesStep(key: string, rows: seq<AuditLogRecord>, full: seq<AuditLogRecord>, change: Change)
    requires Faded(rows, full)
    ensures Faded(Changed(key, rows, change), if change.Service? then Apply(key, full, change.op) else full)
  {
    match change {
      case Deletion(_, _) =>
      case Service(op) =>
        if op.Purge? {
          PurgeFades(rows, full, op.cutoff);
        } else {
          ChainFades(rows, full);
        }
    }
  }

  /** The table is what the service calls alone would have made it, with some references cleared. */
  lemma {:induction false} TableFades(key: string, legacy: seq<AuditLogRecord>, changes: seq<Change>)
    ensures Faded(Table(key, legacy, changes), Run(key, legacy, ServiceCalls(changes)))
  {
    if changes == [] {
    } else {
      var before := changes[..|changes| - 1];
      TableFades(key, legacy, before);
      OneChange(key, legacy, changes);
      FadesStep(key, Table(key, legacy, before), Run(key, legacy, ServiceCalls(before)), changes[|changes| - 1]);
    }
  }

  /** Nothing was cut off before record i or cleared in it. */
  ghost predicate IntactAt(chain: seq<AuditLogRecord>, full: seq<AuditLogRecord>, i: nat)
    requires i < |chain| == |full|
  {
    chain[i] == full[i] && (i == 0 ==> chain[0].prevHash == None)
  }

  lemma FadedLink(key: string, chain: seq<AuditLogRecord>, full: seq<AuditLogRecord>, i: nat)
    requires Faded(chain, full) && Stretch(key, full) && i < |chain|
    ensures LinkedAt(key, chain, i) <==> IntactAt(chain, full, i)
  {
    if i > 0 {
      assert full[i].prevHash == full[i - 1].rowHash;
    }
    HashCoversEvent(key, Reloaded(chain[i]), Reloaded(full[i]), chain[i].prevHash, full[i].prevHash);
  }

  lemma FadedVerifies(key: string, chain: seq<AuditLogRecord>, full: seq<AuditLogRecord>)
    requires Faded(chain, full) && Stretch(key, full)
    ensures FailsAtFirstLoss(Verify(key, chain), chain, full)
  {
    var v := Verify(key, chain);
    VerifyFindsFirstBreak(key, chain);
    if v.valid {
      forall i | 0 <= i < |chain|
        ensures IntactAt(chain, full, i)
      {
        assert LinkedAt(key, chain, i);
        FadedLink(key, chain, full, i);
      }
    } else {
      FadedLink(key, chain, full, v.checked);
      forall i | 0 <= i < v.checked
        ensures IntactAt(chain, full, i)
      {
        assert LinkedAt(key, chain, i);
        FadedLink(key, chain, full, i);
      }
    }
  }

  /** The answer `v`: valid when every record is intact, else the index of the first that is not. */
  ghost predicate FailsAtFirstLoss(v: ChainVerification, chain: seq<AuditLogRecord>, full: seq<AuditLogRecord>) {
    && |chain| == |full|
    && (v.valid ==> forall i :: 0 <= i < |chain| ==> IntactAt(chain, full, i))
    && (!v.valid ==> v.checked < |chain| && !IntactAt(chain, full, v.checked)
                     && forall i :: 0 <= i < v.checked ==> IntactAt(chain, full, i))
  }

  lemma LossDecides(v: ChainVerification, chain: seq<AuditLogRecord>, full: seq<AuditLogRecord>)
    requires FailsAtFirstLoss(v, chain, full)
    ensures v.valid <==> chain == full && (chain == [] || chain[0].prevHash == None)
  {
    if v.valid && chain != [] {
      assert IntactAt(chain, full, 0);
      forall i | 0 <= i < |chain|
        ensures chain[i] == full[i]
      {
        assert IntactAt(chain, full, i);
      }
    }
  }

  // ---- The history decides ----

  /** Some change left fewer hashed records, but not none, and some have been left ever since. */
  ghost predicate WasCut(key: string, legacy: seq<AuditLogRecord>, changes: seq<Change>) {
    changes != [] &&
    var before := changes[..|changes| - 1];
    var chain := ChainOf(Table(key, legacy, changes));
    chain != [] && (WasCut(key, legacy, before) || |chain| < |ChainOf(Table(key, legacy, before))|)
  }

  ghost predicate NamesOneOf(chain: seq<AuditLogRecord>, users: set<nat>, keys: set<nat>, time: int) {
    exists i :: 0 <= i < |chain| && chain[i].createdAt == time && Names(chain[i], users, keys)
  }

  /** A deletion named a hashed record logged at this time while it was in the table, and no purge has reached it since. */
  ghost predicate WasNamed(key: string, legacy: seq<AuditLogRecord>, changes: seq<Change>, time: int) {
    changes != [] &&
    var before := changes[..|changes| - 1];
    match changes[|changes| - 1]
    case Deletion(users, keys) =>
      WasNamed(key, legacy, before, time) || NamesOneOf(ChainOf(Table(key, legacy, before)), users, keys, time)
    case Service(op) => WasNamed(key, legacy, before, time) && (op.Purge? ==> op.cutoff <= time)
  }

  /** A record logged at this time has lost a reference. */
  ghost predicate LostAt(chain: seq<AuditLogRecord>, full: seq<AuditLogRecord>, time: int)
    requires |chain| == |full|
  {
    exists i :: 0 <= i < |chain| && chain[i].createdAt == time && chain[i] != full[i]
  }

  lemma LostAtJoin(a: seq<AuditLogRecord>, b: seq<AuditLogRecord>, c: seq<AuditLogRecord>, d: seq<AuditLogRecord>, time: int)
    requires |a| == |b| && |c| == |d|
    ensures LostAt(a + c, b + d, time) <==> LostAt(a, b, time) || LostAt(c, d, time)
  {
    if i :| 0 <= i < |a| && a[i].createdAt == time && a[i] != b[i] {
      assert (a + c)[i] == a[i] && (b + d)[i] == b[i];
    }
    if i :| 0 <= i < |c| && c[i].createdAt == time && c[i] != d[i] {
      assert (a + c)[|a| + i] == c[i] && (b + d)[|b| + i] == d[i];
    }
  }

  lemma LostAtOne(r: AuditLogRecord, f: AuditLogRecord, time: int)
    ensures LostAt([r], [f], time) <==> r.createdAt == time && r != f
  {
    assert [r][0] == r && [f][0] == f;
  }

  lemma PurgedAppend(rows: seq<AuditLogRecord>, r: AuditLogRecord, cutoff: int)
    ensures Purged(rows + [r], cutoff) == if r.createdAt < cutoff then Purged(rows, cutoff) else Purged(rows, cutoff) + [r]
  {
    assert (rows + [r])[..|rows|] == rows;
  }

  lemma ChainAppend(rows: seq<AuditLogRecord>, r: AuditLogRecord)
    ensures ChainOf(rows + [r]) == if r.rowHash.Some? then ChainOf(rows) + [r] else ChainOf(rows)
  {
    assert (rows + [r])[..|rows|] == rows;
  }

  /** Purging loses sight of exactly the records before its cutoff. */
  lemma {:induction false} LostAfterPurge(chain: seq<AuditLogRecord>, full: seq<AuditLogRecord>, cutoff: int, time: int)
    requires Faded(chain, full)
    ensures |Purged(chain, cutoff)| == |Purged(full, cutoff)|
    ensures LostAt(Purged(chain, cutoff), Purged(full, cutoff), time) <==> LostAt(chain, full, time) && cutoff <= time
  {
    if chain == [] {
    } else {
      var n := |chain| - 1;
      var c, f, r, g := chain[..n], full[..n], chain[n], full[n];
      LostAfterPurge(c, f, cutoff, time);
      assert chain == c + [r] && full == f + [g];
      LostAtJoin(c, f, [r], [g], time);
      LostAtOne(r, g, time);
      PurgedAppend(c, r, cutoff);
      PurgedAppend(f, g, cutoff);
      if r.createdAt >= cutoff {
        LostAtJoin(Purged(c, cutoff), Purged(f, cutoff), [r], [g], time);
      }
    }
  }

  /** A deletion loses what was lost before and what it names. */
  lemma LostAfterDeletion(chain: seq<AuditLogRecord>, full: seq<AuditLogRecord>, users: set<nat>, keys: set<nat>, time: int)
    requires Faded(chain, full)
    ensures LostAt(Cleared(chain, users, keys), full, time) <==> LostAt(chain, full, time) || NamesOneOf(chain, users, keys, time)
  {
    var after := Cleared(chain, users, keys);
    forall i | 0 <= i < |chain|
      ensures after[i].createdAt == chain[i].createdAt
      ensures after[i] != full[i] <==> chain[i] != full[i] || Names(chain[i], users, keys)
    {
    }
    if i :| 0 <= i < |chain| && chain[i].createdAt == time && chain[i] != full[i] {
      assert after[i] != full[i];
    }
    if i :| 0 <= i < |chain| && chain[i].createdAt == time && Names(chain[i], users, keys) {
      assert after[i] != full[i];
    }
  }

  lemma {:induction false} ChainOfPurged(rows: seq<AuditLogRecord>, cutoff: int)
    ensures ChainOf(Purged(rows, cutoff)) == Purged(ChainOf(rows), cutoff)
  {
    if rows == [] {
    } else {
      var init, last := rows[..|rows| - 1], rows[|rows| - 1];
      ChainOfPurged(init, cutoff);
      assert rows == init + [last];
      PurgedAppend(init, last, cutoff);
      PurgedAppend(ChainOf(init), last, cutoff);
      ChainAppend(init, last);
      ChainAppend(Purged(init, cutoff), last);
    }
  }

  lemma LoggedAlike(key: string, rows: seq<AuditLogRecord>, full: seq<AuditLogRecord>, op: Op) returns (r: AuditLogRecord)
    requires Faded(rows, full) && op.Log?
    ensures ChainOf(Apply(key, rows, op)) == ChainOf(rows) + [r] && ChainOf(Apply(key, full, op)) == ChainOf(full) + [r]
    ensures ChainOf(rows) == [] ==> r.prevHash == None
  {
    ChainFades(rows, full);
    LoggedExtendsChain(key, rows, op.id, op.event, op.now);
    LoggedExtendsChain(key, full, op.id, op.event, op.now);
    r := Record(op.id, op.event, LatestHash(rows), ComputeHash(key, op.event, LatestHash(rows)), op.now);
  }

  /** What has been lost is what the history says was named. */
  lemma {:induction false} LostIffNamed(key: string, legacy: seq<AuditLogRecord>, changes: seq<Change>, time: int)
    ensures var rows, full := Table(key, legacy, changes), Run(key, legacy, ServiceCalls(changes));
            && |ChainOf(rows)| == |ChainOf(full)|
            && (LostAt(ChainOf(rows), ChainOf(full), time) <==> WasNamed(key, legacy, changes, time))
  {
    if changes == [] {
    } else {
      var before, last := changes[..|changes| - 1], changes[|changes| - 1];
      LostIffNamed(key, legacy, before, time);
      TableFades(key, legacy, before);
      OneChange(key, legacy, changes);
      LostStep(key, Table(key, legacy, before), Run(key, legacy, ServiceCalls(before)), last, time);
    }
  }

  lemma LostStep(key: string, rows: seq<AuditLogRecord>, full: seq<AuditLogRecord>, change: Change, time: int)
    requires Faded(rows, full)
    ensures |ChainOf(rows)| == |ChainOf(full)|
    ensures var rows', full' := Changed(key, rows, change), if change.Service? then Apply(key, full, change.op) else full;
            && |ChainOf(rows')| == |ChainOf(full')|
            && (LostAt(ChainOf(rows'), ChainOf(full'), time)
                <==> match change
                     case Deletion(users, keys) =>
                       LostAt(ChainOf(rows), ChainOf(full), time) || NamesOneOf(ChainOf(rows), users, keys, time)
                     case Service(op) => LostAt(ChainOf(rows), ChainOf(full), time) && (op.Purge? ==> op.cutoff <= time))
  {
    ChainFades(rows, full);
    match change {
      case Deletion(users, keys) =>
        ChainAfterClearing(rows, users, keys);
        LostAfterDeletion(ChainOf(rows), ChainOf(full), users, keys, time);
      case Service(op) =>
        if op.Purge? {
          ChainOfPurged(rows, op.cutoff);
          ChainOfPurged(full, op.cutoff);
          LostAfterPurge(ChainOf(rows), ChainOf(full), op.cutoff, time);
        } else {
          var r := LoggedAlike(key, rows, full, op);
          LostAtJoin(ChainOf(rows), ChainOf(full), [r], [r], time);
        }
    }
  }

  lemma SameChainIffNothingLost(chain: seq<AuditLogRecord>, full: seq<AuditLogRecord>)
    requires |chain| == |full|
    ensures chain == full <==> forall time :: !LostAt(chain, full, time)
  {
    if forall time :: !LostAt(chain, full, time) {
      forall i | 0 <= i < |chain|
        ensures chain[i] == full[i]
      {
        assert !LostAt(chain, full, chain[i].createdAt);
      }
    }
  }

  // ---- Cuts ----

  ghost predicate StartsMidway(chain: seq<AuditLogRecord>) {
    chain != [] && chain[0].prevHash != None
  }

  /** Each hashed record but the first carries the hash of the one before, in an ordered table. */
  ghost predicate Linked(rows: seq<AuditLogRecord>) {
    && Ordered(rows)
    && var chain := ChainOf(rows);
       forall i :: 0 < i < |chain| ==> chain[i].prevHash == chain[i - 1].rowHash
  }

  lemma FadedIsLinked(key: string, rows: seq<AuditLogRecord>, full: seq<AuditLogRecord>)
    requires Faded(rows, full) && TableInvariant(key, full)
    ensures Linked(rows)
  {
    ChainFades(rows, full);
    var chain, whole := ChainOf(rows), ChainOf(full);
    forall i | 0 < i < |chain|
      ensures chain[i].prevHash == chain[i - 1].rowHash
    {
      assert whole[i].prevHash == whole[i - 1].rowHash;
    }
  }

  lemma {:induction false} ChainIsHashed(rows: seq<AuditLogRecord>)
    ensures forall r :: r in ChainOf(rows) ==> r.rowHash.Some?
  {
    if rows == [] {
    } else {
      ChainIsHashed(rows[..|rows| - 1]);
    }
  }

  /** One change to a linked table: its chain starts midway afterwards if it did before or has been cut, unless it is empty. */
  lemma CutStep(key: string, rows: seq<AuditLogRecord>, change: Change)
    requires Linked(rows)
    ensures var chain, chain' := ChainOf(rows), ChainOf(Changed(key, rows, change));
            StartsMidway(chain') <==> chain' != [] && (StartsMidway(chain) || |chain'| < |chain|)
  {
    match change {
      case Deletion(users, keys) => ChainAfterClearing(rows, users, keys);
      case Service(op) =>
        if op.Log? {
          LoggedExtendsChain(key, rows, op.id, op.event, op.now);
        } else {
          var c := PurgeKeepsChainSuffix(rows, op.cutoff);
          CutSuffix(rows, c);
        }
    }
  }

  lemma CutSuffix(rows: seq<AuditLogRecord>, c: nat)
    requires Linked(rows) && c <= |ChainOf(rows)|
    ensures StartsMidway(ChainOf(rows)[c..]) <==> c < |ChainOf(rows)| && (StartsMidway(ChainOf(rows)) || c > 0)
  {
    var chain := ChainOf(rows);
    ChainIsHashed(rows);
    if 0 < c < |chain| {
      assert chain[c].prevHash == chain[c - 1].rowHash;
      assert chain[c - 1] in chain;
    }
  }

  /** A chain starts midway exactly when the history says it was cut. */
  lemma {:induction false} MidwayIffCut(key: string, legacy: seq<AuditLogRecord>, changes: seq<Change>)
    requires Legacy(legacy) && CanRun(key, legacy, ServiceCalls(changes))
    ensures StartsMidway(ChainOf(Table(key, legacy, changes))) <==> WasCut(key, legacy, changes)
  {
    if changes == [] {
      LegacyHasNoChain(legacy);
    } else {
      var before := changes[..|changes| - 1];
      CanRunBefore(key, legacy, changes);
      MidwayIffCut(key, legacy, before);
      RunKeeps(key, legacy, ServiceCalls(before));
      TableFades(key, legacy, before);
      FadedIsLinked(key, Table(key, legacy, before), Run(key, legacy, ServiceCalls(before)));
      OneChange(key, legacy, changes);
      CutStep(key, Table(key, legacy, before), changes[|changes| - 1]);
    }
  }

  lemma CanRunBefore(key: string, legacy: seq<AuditLogRecord>, changes: seq<Change>)
    requires changes != [] && CanRun(key, legacy, ServiceCalls(changes))
    ensures CanRun(key, legacy, ServiceCalls(changes[..|changes| - 1]))
  {
    var calls := ServiceCalls(changes[..|changes| - 1]);
    if changes[|changes| - 1].Service? {
      assert (calls + [changes[|changes| - 1].op])[..|calls|] == calls;
    }
  }

  lemma SameChainIffUnnamed(key: string, legacy: seq<AuditLogRecord>, changes: seq<Change>)
    ensures var chain, full := ChainOf(Table(key, legacy, changes)), ChainOf(Run(key, legacy, ServiceCalls(changes)));
            chain == full <==> forall time :: !WasNamed(key, legacy, changes, time)
  {
    var chain, full := ChainOf(Table(key, legacy, changes)), ChainOf(Run(key, legacy, ServiceCalls(changes)));
    LostIffNamed(key, legacy, changes, 0);
    SameChainIffNothingLost(chain, full);
    if chain == full {
      forall time
        ensures !WasNamed(key, legacy, changes, time)
      {
        LostIffNamed(key, legacy, changes, time);
      }
    } else {
      var time :| LostAt(chain, full, time);
      LostIffNamed(key, legacy, changes, time);
      assert WasNamed(key, legacy, changes, time);
    }
  }

  lemma TableVerifies(key: string, legacy: seq<AuditLogRecord>, changes: seq<Change>)
    requires Legacy(legacy) && CanRun(key, legacy, ServiceCalls(changes))
    ensures var chain, full := ChainOf(Table(key, legacy, changes)), ChainOf(Run(key, legacy, ServiceCalls(changes)));
            && (Verify(key, chain).valid <==> chain == full && !StartsMidway(chain))
            && FailsAtFirstLoss(Verify(key, chain), chain, full)
  {
    var chain, full := ChainOf(Table(key, legacy, changes)), ChainOf(Run(key, legacy, ServiceCalls(changes)));
    RunKeeps(key, legacy, ServiceCalls(changes));
    TableFades(key, legacy, changes);
    ChainFades(Table(key, legacy, changes), Run(key, legacy, ServiceCalls(changes)));
    FadedVerifies(key, chain, full);
    LossDecides(Verify(key, chain), chain, full);
  }

  /**
   After any run of logs, purges and account deletions the chain verifies exactly when no purge has cut it since
   it was last empty and no deletion has named a record that is still in it. Otherwise it fails at the first
   record that is cut off or has lost a reference.
   */
  lemma VerifiesIffUncutAndUnnamed(key: string, legacy: seq<AuditLogRecord>, changes: seq<Change>)
    requires Legacy(legacy) && CanRun(key, legacy, ServiceCalls(changes))
    ensures Verify(key, ChainOf(Table(key, legacy, changes))).valid
            <==> !WasCut(key, legacy, changes) && forall time :: !WasNamed(key, legacy, changes, time)
    ensures FailsAtFirstLoss(Verify(key, ChainOf(Table(key, legacy, changes))),
                             ChainOf(Table(key, legacy, changes)), ChainOf(Run(key, legacy, ServiceCalls(changes))))
  {
    TableVerifies(key, legacy, changes);
    MidwayIffCut(key, legacy, changes);
    SameChainIffUnnamed(key, legacy, changes);
  }
}
