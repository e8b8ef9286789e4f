/** The `sales` table the sync writes to, reduced to what the sync relies
    on: rows keyed by their `signature`, and an upsert with
    `onConflict: 'signature'` and `ignoreDuplicates: true`, which inserts a
    row only when no row with its signature exists yet. */
module SalesStore {
  import opened Wrappers
  import opened MagicEden

  type Table = map<string, SaleRecord>

  /** The signatures a batch carries. */
  function Signatures(batch: seq<SaleRecord>): set<string>
  {
    set i | 0 <= i < |batch| :: batch[i].signature
  }

  /** One row under "ignore duplicates": kept out when its signature is
      already present. */
  function InsertIfAbsent(table: Table, row: SaleRecord): Table
  {
    if row.signature in table then table else table[row.signature := row]
  }

  /** The table after one upsert of `batch`: rows are taken in order, and
      the first row to bring a signature is the one that stays. */
  function Upserted(table: Table, batch: seq<SaleRecord>): (r: Table)
    ensures forall k :: k in table ==> k in r && r[k] == table[k]
    ensures forall k :: k in r && k !in table ==> r[k].signature == k
    decreases |batch|
  {
    if batch == [] then table else Upserted(InsertIfAbsent(table, batch[0]), batch[1..])
  }

  /** An upsert adds exactly the batch's signatures and changes no row that
      was already there. */
  lemma {:induction false} UpsertedKeys(table: Table, batch: seq<SaleRecord>)
    ensures Upserted(table, batch).Keys == table.Keys + Signatures(batch)
    ensures forall k :: k in table ==> Upserted(table, batch)[k] == table[k]
    decreases |batch|
  {
    if batch != [] {
      var next := InsertIfAbsent(table, batch[0]);
      UpsertedKeys(next, batch[1..]);
      assert Signatures(batch) == {batch[0].signature} + Signatures(batch[1..]) by {
        forall k | k in Signatures(batch) ensures k in {batch[0].signature} + Signatures(batch[1..]) {
          var i :| 0 <= i < |batch| && batch[i].signature == k;
          if i > 0 {
            assert batch[1..][i - 1] == batch[i];
          }
        }
        forall k | k in Signatures(batch[1..]) ensures k in Signatures(batch) {
          var i :| 0 <= i < |batch[1..]| && batch[1..][i].signature == k;
          assert batch[i + 1] == batch[1..][i];
        }
      }
    }
  }

  /** Two upserts in a row are one upsert of both batches. */
  lemma {:induction false} UpsertedAppend(table: Table, a: seq<SaleRecord>, b: seq<SaleRecord>)
    ensures Upserted(table, a + b) == Upserted(Upserted(table, a), b)
    decreases |a|
  {
    if a == [] {
      assert a + b == b;
    } else {
      assert (a + b)[1..] == a[1..] + b;
      UpsertedAppend(InsertIfAbsent(table, a[0]), a[1..], b);
    }
  }

  /** A batch whose signatures are all present already changes nothing. */
  lemma {:induction false} UpsertedKnownRows(table: Table, batch: seq<SaleRecord>)
    requires Signatures(batch) <= table.Keys
    ensures Upserted(table, batch) == table
    decreases |batch|
  {
    if batch != [] {
      assert batch[0].signature in Signatures(batch);
      assert Signatures(batch[1..]) <= Signatures(batch) by {
        forall k | k in Signatures(batch[1..]) ensures k in Signatures(batch) {
          var i :| 0 <= i < |batch[1..]| && batch[1..][i].signature == k;
          assert batch[i + 1] == batch[1..][i];
        }
      }
      UpsertedKnownRows(table, batch[1..]);
    }
  }

  /** Upserting the same batch again leaves the table as it is. */
  lemma UpsertedIdempotent(table: Table, batch: seq<SaleRecord>)
    ensures Upserted(Upserted(table, batch), batch) == Upserted(table, batch)
  {
    UpsertedKeys(table, batch);
    UpsertedKnownRows(Upserted(table, batch), batch);
  }

  /** After a run that committed only a prefix of the rows, upserting all
      of them gives the same table as one run that committed everything. */
  lemma RetryAfterPartialCommit(table: Table, rows: seq<SaleRecord>, committed: nat)
    requires committed <= |rows|
    ensures Upserted(Upserted(table, rows[..committed]), rows) == Upserted(table, rows)
  {
    var done, rest := rows[..committed], rows[committed..];
    assert rows == done + rest;
    UpsertedAppend(Upserted(table, done), done, rest);
    UpsertedIdempotent(table, done);
    UpsertedAppend(table, done, rest);
  }

  /** A new signature is stored with the first row of the batch that
      carries it. */
  lemma {:induction false} UpsertedFirstWins(table: Table, batch: seq<SaleRecord>, i: nat)
    requires i < |batch| && batch[i].signature !in table
    requires forall j :: 0 <= j < i ==> batch[j].signature != batch[i].signature
    ensures batch[i].signature in Upserted(table, batch) && Upserted(table, batch)[batch[i].signature] == batch[i]
    decreases i
  {
    var next := InsertIfAbsent(table, batch[0]);
    if i == 0 {
      UpsertedKeys(next, batch[1..]);
    } else {
      assert batch[1..][i - 1] == batch[i];
      UpsertedFirstWins(next, batch[1..], i - 1);
    }
  }

  /** The table as the sync sees it: its rows, and every batch sent to it,
      in order, whether or not the request succeeded. */
  class SalesTable {
    var rows: Table
    var requests: seq<seq<SaleRecord>>

    constructor(initial: Table)
      ensures rows == initial && requests == []
    {
      rows := initial;
      requests := [];
    }

    /** `.from('sales').upsert(batch, { onConflict: 'signature',
        ignoreDuplicates: true })`. The store's answer is not modelled:
        `fault` is the error it reports for this request, if any, and a
        failed request commits nothing. */
    method Upsert(batch: seq<SaleRecord>, fault: Option<string>) returns (error: Option<string>)
      modifies this
      ensures requests == old(requests) + [batch]
      ensures error == fault
      ensures fault.None? ==> rows == Upserted(old(rows), batch)
      ensures fault.Some? ==> rows == old(rows)
    {
      requests := requests + [batch];
      error := fault;
      if fault.None? {
        rows := Upserted(rows, batch);
      }
    }
  }
}
