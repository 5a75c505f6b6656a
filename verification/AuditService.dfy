/** The audit service as it runs, over its own table. */
module AuditServices {
  import opened Prelude
  import opened AuditChain
  import opened AuditHistory

  const DAY_MS: int := 86_400_000

  class AuditService {
    const enabled: bool
    const hmacKey: string
    const retentionDays: int
    const sanitize: AuditEvent -> AuditEvent
    var rows: seq<AuditLogRecord>
    ghost const legacy: seq<AuditLogRecord>
    ghost var history: seq<Change>

    /** The table is what its history of calls and deletions made of the rows older than hashing. */
    ghost predicate Valid()
      reads this
    {
      && Legacy(legacy) && CanRun(hmacKey, legacy, ServiceCalls(history))
      && rows == Table(hmacKey, legacy, history)
    }

    constructor (enabled: bool, hmacKey: string, retentionDays: int, sanitize: AuditEvent -> AuditEvent,
                 rows: seq<AuditLogRecord>)
      ensures this.enabled == enabled && this.hmacKey == hmacKey && this.retentionDays == retentionDays
      ensures this.sanitize == sanitize && this.rows == rows
      ensures history == [] && (Legacy(rows) ==> Valid())
    {
      this.enabled, this.hmacKey, this.retentionDays := enabled, hmacKey, retentionDays;
      this.sanitize, this.rows := sanitize, rows;
      legacy, history := rows, [];
    }

    /** `id` and `now` are what the database assigns to the new row. */
    method Log(event: AuditEvent, id: nat, now: int) returns (record: Option<AuditLogRecord>)
      modifies this
      ensures rows == if enabled then Apply(hmacKey, old(rows), Op.Log(id, sanitize(event), now)) else old(rows)
      ensures enabled ==> record == Some(rows[|rows| - 1])
      ensures !enabled ==> record == None
      ensures old(Valid()) && (forall r :: r in old(rows) ==> r.createdAt < now) ==> Valid()
    {
      if !enabled {
        return None;
      }
      var clean := sanitize(event);
      var prevHash := LatestHash(rows);
      var rowHash := ComputeHash(hmacKey, clean, prevHash);
      var row := AuditChain.Record(id, clean, prevHash, rowHash, now);
      OneMoreChange(hmacKey, legacy, history, Service(Op.Log(id, clean, now)));
      history := history + [Service(Op.Log(id, clean, now))];
      rows := rows + [row];
      record := Some(row);
    }

    method PurgeExpired(now: int) returns (affected: nat)
      modifies this
      ensures rows == Apply(hmacKey, old(rows), Purge(now - retentionDays * DAY_MS))
      ensures affected == |old(rows)| - |rows|
      ensures old(Valid()) ==> Valid()
    {
      var kept := Purged(rows, now - retentionDays * DAY_MS);
      PurgedShorter(rows, now - retentionDays * DAY_MS);
      affected := |rows| - |kept|;
      OneMoreChange(hmacKey, legacy, history, Service(Purge(now - retentionDays * DAY_MS)));
      history := history + [Service(Purge(now - retentionDays * DAY_MS))];
      rows := kept;
    }

    /** What the schema does to the table when users and keys are deleted elsewhere. */
    method ClearReferences(users: set<nat>, keys: set<nat>)
      modifies this
      ensures rows == Cleared(old(rows), users, keys)
      ensures old(Valid()) ==> Valid()
    {
      OneMoreChange(hmacKey, legacy, history, Deletion(users, keys));
      history := history + [Deletion(users, keys)];
      rows := Cleared(rows, users, keys);
    }

    /** Accepts exactly the valid chains; otherwise reports the first record whose link or hash is wrong. */
    method VerifyChain() returns (v: ChainVerification)
      ensures v == Verify(hmacKey, ChainOf(rows))
      ensures v.valid <==> ValidChain(hmacKey, ChainOf(rows))
      ensures Valid() ==>
                (v.valid <==> !WasCut(hmacKey, legacy, history) && forall time :: !WasNamed(hmacKey, legacy, history, time))
      ensures Valid() ==> FailsAtFirstLoss(v, ChainOf(rows), ChainOf(AuditChain.Run(hmacKey, legacy, ServiceCalls(history))))
    {
      if Valid() {
        VerifiesIffUncutAndUnnamed(hmacKey, legacy, history);
      }
      VerifyFindsFirstBreak(hmacKey, ChainOf(rows));
      v := VerifyRecords(ChainOf(rows));
    }

    /** The loop over the hashed records, oldest first. */
    method VerifyRecords(records: seq<AuditLogRecord>) returns (v: ChainVerification)
      ensures v == Verify(hmacKey, records)
    {
      assert records[0..] == records;
      var prevHash: Option<Hash> := None;
      var index := 0;
      while index < |records|
        invariant 0 <= index <= |records|
        invariant VerifyFrom(hmacKey, records[index..], prevHash, index) == Verify(hmacKey, records)
      {
        var record := records[index];
        VerifyStep(hmacKey, records, prevHash, index);
        if record.prevHash != prevHash {
          return ChainVerification(index, false, Some(record.id));
        }
        var event := Reloaded(record);
        var expected := ComputeHash(hmacKey, event, record.prevHash);
        if record.rowHash != Some(expected) {
          return ChainVerification(index, false, Some(record.id));
        }
        prevHash := record.rowHash;
        index := index + 1;
      }
      v := ChainVerification(|records|, true, None);
    }
  }

  lemma OneMoreChange(key: string, legacy: seq<AuditLogRecord>, history: seq<Change>, change: Change)
    ensures Table(key, legacy, history + [change]) == Changed(key, Table(key, legacy, history), change)
    ensures CanRun(key, legacy, ServiceCalls(history))
            && (change.Service? ==> ClockAdvances(Table(key, legacy, history), change.op))
            ==> CanRun(key, legacy, ServiceCalls(history + [change]))
  {
    assert (history + [change])[..|history|] == history;
    if change.Service? {
      var calls := ServiceCalls(history);
      assert (calls + [change.op])[..|calls|] == calls;
      TableFades(key, legacy, history);
      if ClockAdvances(Table(key, legacy, history), change.op) {
        SameClock(Table(key, legacy, history), AuditChain.Run(key, legacy, calls), change.op);
      }
    }
  }

  lemma SameClock(rows: seq<AuditLogRecord>, full: seq<AuditLogRecord>, op: Op)
    requires Faded(rows, full) && ClockAdvances(rows, op)
    ensures ClockAdvances(full, op)
  {
    if op.Log? {
      forall r | r in full
        ensures r.createdAt < op.now
      {
        var i :| 0 <= i < |full| && full[i] == r;
        assert rows[i] in rows;
      }
    }
  }

  /** One turn of the verification loop. */
  lemma VerifyStep(key: string, records: seq<AuditLogRecord>, prev: Option<Hash>, index: nat)
    requires index < |records|
    ensures VerifyFrom(key, records[index..], prev, index)
         == if records[index].prevHash != prev || records[index].rowHash != Some(Expected(key, records[index]))
            then ChainVerification(index, false, Some(records[index].id))
            else VerifyFrom(key, records[index + 1..], records[index].rowHash, index + 1)
  {
    assert records[index..][0] == records[index] && records[index..][1..] == records[index + 1..];
  }

  lemma {:induction false} PurgedShorter(rows: seq<AuditLogRecord>, cutoff: int)
    ensures |Purged(rows, cutoff)| <= |rows|
  {
    if rows == [] {
    } else {
      PurgedShorter(rows[..|rows| - 1], cutoff);
    }
  }
}
