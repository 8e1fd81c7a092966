/**
 * The idempotency table every participant keeps beside its entity table: one record per
 * accepted command, keyed by the caller's idempotency key and pointing at the entity row
 * the command created. Records expire 24 hours after they are written.
 */
module Idempotency {
  import opened Wrappers
  import opened Env
  import opened Tables

  /** How long a record answers replays: `time.Now().Add(24*time.Hour)`. */
  const TTL: nat := 24 * Hour

  /**
   * A stored record. The snapshot is the entity as marshalled when the record was written;
   * it is kept but never read back.
   */
  datatype Record<S> = Record(
    key: string, subjectId: string, operation: string, snapshot: S, createdAt: Time, expiresAt: Time)

  /** The record `Create` writes at time `now`. */
  function Issue<S>(key: string, subjectId: string, operation: string, snapshot: S, now: Time): (r: Record<S>)
    ensures r.key == key && r.subjectId == subjectId && r.operation == operation && r.snapshot == snapshot
    ensures r.createdAt == now && r.expiresAt - r.createdAt == TTL
  {
    Record(key, subjectId, operation, snapshot, now, now + TTL)
  }

  /** `key = $1 AND expires_at > NOW()`: the expiry test is strict. */
  predicate Live<S>(r: Record<S>, key: string, now: Time)
  {
    r.key == key && r.expiresAt > now
  }

  /** A record answers a lookup when it is live and its subject still has a row to join. */
  predicate Answers<F(==), St(==), S>(r: Record<S>, rows: seq<Row<F, St>>, key: string, now: Time)
  {
    Live(r, key, now) && r.subjectId in Ids(rows)
  }

  /** Every record points at an existing row. */
  predicate RecordsJoin<F(==), St(==), S(==)>(rows: seq<Row<F, St>>, idem: seq<Record<S>>)
  {
    forall r :: r in idem ==> r.subjectId in Ids(rows)
  }

  /** The index of the first record that answers, in table order. */
  function FirstHit<F(==), St(==), S>(idem: seq<Record<S>>, rows: seq<Row<F, St>>, key: string, now: Time)
    : (r: Option<nat>)
    ensures r.None? <==> forall i :: 0 <= i < |idem| ==> !Answers(idem[i], rows, key, now)
    ensures r.Some? ==> r.value < |idem| && Answers(idem[r.value], rows, key, now)
    ensures r.Some? ==> forall i :: 0 <= i < r.value ==> !Answers(idem[i], rows, key, now)
  {
    if idem == [] then None
    else if Answers(idem[0], rows, key, now) then Some(0)
    else
      match FirstHit(idem[1..], rows, key, now)
      case None => None
      case Some(k) => Some(k + 1)
  }

  /**
   * The row `QueryRow` over the idempotency table joined to the entity table returns:
   * the live entity row of the first record that answers, never the stored snapshot.
   */
  function Lookup<F(==), St(==), S>(rows: seq<Row<F, St>>, idem: seq<Record<S>>, key: string, now: Time)
    : (r: Option<Row<F, St>>)
    ensures r.None? <==> forall i :: 0 <= i < |idem| ==> !Answers(idem[i], rows, key, now)
    ensures r.Some? ==>
      r.value in rows &&
      exists i :: 0 <= i < |idem| && Answers(idem[i], rows, key, now) && idem[i].subjectId == r.value.id
  {
    match FirstHit(idem, rows, key, now)
    case None => None
    case Some(i) => Some(rows[IndexOfId(rows, idem[i].subjectId).value])
  }

  /** A record written at `now` answers exactly until `now + 24h`, that instant excluded. */
  lemma IssueLiveWindow<S>(key: string, subjectId: string, operation: string, snapshot: S, now: Time, t: Time)
    ensures Live(Issue(key, subjectId, operation, snapshot, now), key, t) <==> t < now + TTL
  {
  }

  /** Once every record with the key has expired, lookups miss. */
  lemma LookupExpired<F, St, S>(rows: seq<Row<F, St>>, idem: seq<Record<S>>, key: string, now: Time)
    requires forall r :: r in idem && r.key == key ==> r.expiresAt <= now
    ensures Lookup(rows, idem, key, now) == None
  {
    forall i | 0 <= i < |idem| ensures !Answers(idem[i], rows, key, now) {
      assert idem[i] in idem;
    }
  }

  /** A miss stays a miss as time goes on while the tables are unchanged: records only expire. */
  lemma MissPersists<F, St, S>(rows: seq<Row<F, St>>, idem: seq<Record<S>>, key: string, now: Time, later: Time)
    requires now <= later
    requires Lookup(rows, idem, key, now).None?
    ensures Lookup(rows, idem, key, later).None?
  {
    forall i | 0 <= i < |idem| ensures !Answers(idem[i], rows, key, later) {
      assert !Answers(idem[i], rows, key, now);
    }
  }

  /**
   * After appending a new row and its record, a lookup with the record's key answers what
   * it answered before if it hit; otherwise it answers the new row while the record is live.
   */
  lemma LookupAfterCreate<F, St, S>(
    rows: seq<Row<F, St>>, idem: seq<Record<S>>, row: Row<F, St>, rec: Record<S>, t: Time)
    requires RecordsJoin(rows, idem)
    requires row.id !in Ids(rows) && rec.subjectId == row.id
    ensures Lookup(rows + [row], idem + [rec], rec.key, t)
         == if Lookup(rows, idem, rec.key, t).Some? then Lookup(rows, idem, rec.key, t)
            else if Live(rec, rec.key, t) then Some(row)
            else None
  {
    var rows' := rows + [row];
    var idem' := idem + [rec];
    var key := rec.key;
    assert Ids(rows') == Ids(rows) + {row.id} by {
      forall x | x in Ids(rows') ensures x in Ids(rows) + {row.id} {
        var r :| r in rows' && r.id == x;
      }
      forall x | x in Ids(rows) + {row.id} ensures x in Ids(rows') {
        if x == row.id {
          assert rows'[|rows|] == row;
        } else {
          var r :| r in rows && r.id == x;
          assert r in rows';
        }
      }
    }
    forall i | 0 <= i < |idem| ensures Answers(idem'[i], rows', key, t) == Answers(idem[i], rows, key, t) {
      assert idem'[i] == idem[i] && idem[i] in idem;
    }
    assert idem'[|idem|] == rec;
    var before := FirstHit(idem, rows, key, t);
    var after := FirstHit(idem', rows', key, t);
    if before.Some? {
      var k := before.value;
      assert Answers(idem'[k], rows', key, t);
      assert after == before;
      IndexOfIdAppend(rows, [row], idem[k].subjectId);
      assert rows'[IndexOfId(rows, idem[k].subjectId).value] == rows[IndexOfId(rows, idem[k].subjectId).value];
    } else if Live(rec, key, t) {
      assert Answers(idem'[|idem|], rows', key, t);
      assert after == Some(|idem|);
      var j := IndexOfId(rows', row.id).value;
      assert rows'[j].id == row.id;
    } else {
      assert after.None?;
    }
  }

  /**
   * The idempotency window: once a command that missed at `now` has stored its row and
   * record, the same key answers that row at every later time before `now + 24h` and
   * nothing from then on.
   */
  lemma ReplayWindow<F, St, S>(
    rows: seq<Row<F, St>>, idem: seq<Record<S>>, row: Row<F, St>, op: string, snapshot: S, key: string,
    now: Time, t: Time)
    requires RecordsJoin(rows, idem)
    requires row.id !in Ids(rows)
    requires Lookup(rows, idem, key, now).None?
    requires now <= t
    ensures Lookup(rows + [row], idem + [Issue(key, row.id, op, snapshot, now)], key, t)
         == if t < now + TTL then Some(row) else None
  {
    MissPersists(rows, idem, key, now, t);
    LookupAfterCreate(rows, idem, row, Issue(key, row.id, op, snapshot, now), t);
  }

  /**
   * After `UPDATE ... SET status, updated_at WHERE id`, a replay shows the updated row:
   * lookups see the live status, not the one current when the record was written.
   */
  lemma LookupAfterSetStatus<F, St, S>(
    rows: seq<Row<F, St>>, idem: seq<Record<S>>, key: string, t: Time, id: string, status: St, at: nat)
    ensures Lookup(SetStatus(rows, id, status, at), idem, key, t)
         == match Lookup(rows, idem, key, t)
            case None => None
            case Some(r) => Some(if r.id == id then r.(status := status, updatedAt := at) else r)
  {
    var rows' := SetStatus(rows, id, status, at);
    SetStatusFrame(rows, id, status, at);
    forall i | 0 <= i < |idem| ensures Answers(idem[i], rows', key, t) == Answers(idem[i], rows, key, t) {
    }
    var h := FirstHit(idem, rows, key, t);
    var h' := FirstHit(idem, rows', key, t);
    if h.Some? {
      assert h' == h;
      IndexOfIdAfterSetStatus(rows, id, status, at, idem[h.value].subjectId);
    } else {
      assert h'.None?;
    }
  }

  /** Updating a row's status keeps every record joined. */
  lemma SetStatusKeepsJoin<F, St, S>(rows: seq<Row<F, St>>, idem: seq<Record<S>>, id: string, status: St, at: nat)
    requires RecordsJoin(rows, idem)
    ensures RecordsJoin(SetStatus(rows, id, status, at), idem)
  {
    SetStatusFrame(rows, id, status, at);
  }
}
