/**
 * `insert_data`: the batched load of the cleaned rows into
 * `luxury_housing_bangalore`, one multi-row insert and one commit per
 * batch of 1000 rows, stopping at the first batch the table refuses.
 */
module Loader {

  import opened Wrappers
  import opened Records
  import opened Serialisation
  import opened Batching

  const BatchSize: nat := 1000

  /**
   * What the load reports: the empty-input error, success with the number
   * of rows, or the error raised by the numbered batch (counting from 0).
   */
  datatype LoadStatus = EmptyInput | Loaded(rows: nat) | Failed(batch: nat)

  /** The primary key (`Property_ID`) a row carries, if any. */
  function KeyOf(r: InsertRow): set<string> {
    if r.propertyId.Some? then {r.propertyId.value} else {}
  }

  /** The primary keys the rows carry. */
  function KeysOf(rows: seq<InsertRow>): set<string>
    decreases |rows|
  {
    if rows == [] then {} else KeysOf(rows[..|rows| - 1]) + KeyOf(rows[|rows| - 1])
  }

  lemma {:induction false} KeysOfAppend(a: seq<InsertRow>, b: seq<InsertRow>)
    ensures KeysOf(a + b) == KeysOf(a) + KeysOf(b)
    decreases |b|
  {
    if b == [] {
      assert a + b == a;
    } else {
      assert (a + b)[..|a + b| - 1] == a + b[..|b| - 1];
      assert (a + b)[|a + b| - 1] == b[|b| - 1];
      KeysOfAppend(a, b[..|b| - 1]);
    }
  }

  /** A key is among the rows' keys exactly when some row carries it. */
  lemma {:induction false} KeysOfMembers(rows: seq<InsertRow>, x: string)
    ensures x in KeysOf(rows) <==> exists i :: 0 <= i < |rows| && rows[i].propertyId == Some(x)
    decreases |rows|
  {
    if rows != [] {
      var init := rows[..|rows| - 1];
      KeysOfMembers(init, x);
      if x in KeysOf(init) {
        var i :| 0 <= i < |init| && init[i].propertyId == Some(x);
        assert rows[i] == init[i];
      }
      if exists i :: 0 <= i < |rows| && rows[i].propertyId == Some(x) {
        var i :| 0 <= i < |rows| && rows[i].propertyId == Some(x);
        if i < |init| {
          assert init[i] == rows[i];
        }
      }
    }
  }

  /**
   * Whether a table currently holding `keys` takes a multi-row insert. The
   * rows go in one after the other: each needs a primary key, and one that
   * is neither stored already nor carried by an earlier row of the insert.
   * A refused insert stores nothing.
   */
  predicate Admits(keys: set<string>, batch: seq<InsertRow>)
    decreases |batch|
  {
    || batch == []
    || (var init, r := batch[..|batch| - 1], batch[|batch| - 1];
        && Admits(keys, init)
        && r.propertyId.Some?
        && r.propertyId.value !in keys + KeysOf(init))
  }

  /** An insert is taken exactly when all its keys are present, new and distinct. */
  lemma {:induction false} AdmitsMeans(keys: set<string>, batch: seq<InsertRow>)
    ensures Admits(keys, batch) <==>
      && (forall i :: 0 <= i < |batch| ==> batch[i].propertyId.Some? && batch[i].propertyId.value !in keys)
      && (forall i, j :: 0 <= i < j < |batch| ==> batch[i].propertyId != batch[j].propertyId)
    decreases |batch|
  {
    if batch != [] {
      var init, r := batch[..|batch| - 1], batch[|batch| - 1];
      var last := |batch| - 1;
      AdmitsMeans(keys, init);
      assert forall i :: 0 <= i < |init| ==> init[i] == batch[i];
      if r.propertyId.Some? {
        KeysOfMembers(init, r.propertyId.value);
        if forall i :: 0 <= i < |init| ==> init[i].propertyId != r.propertyId {
          assert r.propertyId.value !in KeysOf(init);
        }
      }
      if Admits(keys, batch) {
        forall i | 0 <= i < last
          ensures batch[i].propertyId != r.propertyId
        {
          assert init[i] == batch[i];
        }
      }
    }
  }

  /** A taken insert adds one new key per row: its keys are all new, and there are as many as rows. */
  lemma {:induction false} AdmitsKeys(keys: set<string>, batch: seq<InsertRow>)
    requires Admits(keys, batch)
    ensures keys !! KeysOf(batch) && |KeysOf(batch)| == |batch|
    decreases |batch|
  {
    if batch != [] {
      AdmitsKeys(keys, batch[..|batch| - 1]);
    }
  }

  /** An insert can be split in two: the second part meets the keys of the first. */
  lemma {:induction false} AdmitsAppend(keys: set<string>, a: seq<InsertRow>, b: seq<InsertRow>)
    ensures Admits(keys, a + b) <==> Admits(keys, a) && Admits(keys + KeysOf(a), b)
    decreases |b|
  {
    if b == [] {
      assert a + b == a;
    } else {
      var b', x := b[..|b| - 1], b[|b| - 1];
      assert (a + b)[..|a + b| - 1] == a + b';
      assert (a + b)[|a + b| - 1] == x;
      AdmitsAppend(keys, a, b');
      KeysOfAppend(a, b');
      assert keys + KeysOf(a + b') == (keys + KeysOf(a)) + KeysOf(b');
    }
  }

  /**
   * How many batches, from batch `i` on, a table holding `keys` takes one
   * after the other before refusing one.
   */
  function AcceptedFrom(keys: set<string>, bs: seq<seq<InsertRow>>, i: nat): (k: nat)
    requires i <= |bs|
    ensures k <= |bs| - i
    decreases |bs| - i
  {
    if i == |bs| then 0
    else if Admits(keys, bs[i]) then 1 + AcceptedFrom(keys + KeysOf(bs[i]), bs, i + 1)
    else 0
  }

  /** How many leading batches a table holding `keys` takes before refusing one. */
  function Accepted(keys: set<string>, bs: seq<seq<InsertRow>>): (k: nat)
    ensures k <= |bs|
  {
    AcceptedFrom(keys, bs, 0)
  }

  lemma {:induction false} AcceptedFromStep(keys: set<string>, bs: seq<seq<InsertRow>>, i: nat, k: nat)
    requires i <= k < |bs| && AcceptedFrom(keys, bs, i) >= k - i
    ensures AcceptedFrom(keys, bs, i) > k - i <==> Admits(keys + KeysOf(Flatten(bs[i..k])), bs[k])
    decreases k - i
  {
    if i == k {
      assert bs[i..k] == [];
      assert keys + KeysOf([]) == keys;
    } else {
      var keys' := keys + KeysOf(bs[i]);
      AcceptedFromStep(keys', bs, i + 1, k);
      assert bs[i..k] == [bs[i]] + bs[i + 1..k];
      FlattenCons(bs[i], bs[i + 1..k]);
      KeysOfAppend(bs[i], Flatten(bs[i + 1..k]));
      assert keys' + KeysOf(Flatten(bs[i + 1..k])) == keys + KeysOf(Flatten(bs[i..k]));
    }
  }

  /**
   * Once the first `k` batches are in, batch `k` goes in exactly when the
   * table, holding its original keys and those of the first `k` batches,
   * admits it.
   */
  lemma AcceptedStep(keys: set<string>, bs: seq<seq<InsertRow>>, k: nat)
    requires k < |bs| && Accepted(keys, bs) >= k
    ensures Accepted(keys, bs) > k <==> Admits(keys + KeysOf(Flatten(bs[..k])), bs[k])
  {
    AcceptedFromStep(keys, bs, 0, k);
    assert bs[0..k] == bs[..k];
  }

  lemma {:induction false} AcceptedAllFrom(keys: set<string>, bs: seq<seq<InsertRow>>, i: nat)
    requires i <= |bs| && Admits(keys, Flatten(bs[i..]))
    ensures AcceptedFrom(keys, bs, i) == |bs| - i
    decreases |bs| - i
  {
    if i < |bs| {
      assert bs[i..] == [bs[i]] + bs[i + 1..];
      FlattenCons(bs[i], bs[i + 1..]);
      AdmitsAppend(keys, bs[i], Flatten(bs[i + 1..]));
      AcceptedAllFrom(keys + KeysOf(bs[i]), bs, i + 1);
    }
  }

  /** If the rows of all batches together would go in as one insert, every batch goes in. */
  lemma AcceptedAll(keys: set<string>, bs: seq<seq<InsertRow>>)
    requires Admits(keys, Flatten(bs))
    ensures Accepted(keys, bs) == |bs|
  {
    assert bs[0..] == bs;
    AcceptedAllFrom(keys, bs, 0);
  }

  /** A first batch whose keys are all stored already is refused. */
  lemma RefusedWhenStored(keys: set<string>, bs: seq<seq<InsertRow>>)
    requires bs != [] && bs[0] != [] && KeysOf(bs[0]) <= keys
    ensures Accepted(keys, bs) == 0
  {
    var r := bs[0][0];
    AdmitsMeans(keys, bs[0]);
    if r.propertyId.Some? {
      KeysOfMembers(bs[0], r.propertyId.value);
    }
  }

  /** The row tuples of the cleaned rows, in order. */
  function SerialiseAll(data: seq<CleanRecord>): (vals: seq<InsertRow>)
    ensures |vals| == |data|
    decreases |data|
  {
    if data == [] then [] else SerialiseAll(data[..|data| - 1]) + [Serialise(data[|data| - 1])]
  }

  lemma {:induction false} SerialiseAllAt(data: seq<CleanRecord>, i: nat)
    requires i < |data|
    ensures SerialiseAll(data)[i] == Serialise(data[i])
    decreases |data|
  {
    if i < |data| - 1 {
      SerialiseAllAt(data[..|data| - 1], i);
    }
  }

  /**
   * The cached MySQL connection as the loader sees the target table: the
   * batches committed so far, in order, and the rows inserted since the
   * last commit.
   */
  class Connection {
    var committed: seq<seq<InsertRow>>
    var pending: seq<InsertRow>

    /** The primary keys the table holds, committed or not. */
    function StoredKeys(): set<string>
      reads this
    {
      KeysOf(Flatten(committed) + pending)
    }

    /** A connection to a table that already holds the batches `existing`. */
    constructor (existing: seq<seq<InsertRow>>)
      ensures committed == existing && pending == []
    {
      committed := existing;
      pending := [];
    }

    /** `cursor.executemany`: one multi-row insert, taken whole or refused whole. */
    method ExecuteMany(batch: seq<InsertRow>) returns (ok: bool)
      modifies this
      ensures ok == Admits(old(StoredKeys()), batch)
      ensures committed == old(committed)
      ensures pending == if ok then old(pending) + batch else old(pending)
      ensures StoredKeys() == if ok then old(StoredKeys()) + KeysOf(batch) else old(StoredKeys())
    {
      ok := Admits(StoredKeys(), batch);
      if ok {
        ghost var before := Flatten(committed) + pending;
        pending := pending + batch;
        assert Flatten(committed) + pending == before + batch;
        KeysOfAppend(before, batch);
      }
    }

    /** `connection.commit()`: the pending rows become one more committed batch. */
    method Commit()
      modifies this
      ensures committed == old(committed) + (if old(pending) == [] then [] else [old(pending)])
      ensures pending == []
      ensures StoredKeys() == old(StoredKeys())
    {
      if pending != [] {
        FlattenAppend(committed, [pending]);
        assert Flatten([pending]) == pending by {
          assert [pending][..0] == [];
        }
        committed := committed + [pending];
        pending := [];
        assert Flatten(committed) + pending == old(Flatten(committed) + pending);
      }
    }
  }

  /**
   * One batch of `insert_data`: `cursor.executemany` followed, when the
   * insert went in, by `connection.commit()`. The table started out holding
   * the batches `c0` (with keys `keys0`); the load is the batches `bs`, of
   * which the table has since taken the leading ones, and `batch` comes
   * next.
   */
  method InsertBatch(conn: Connection, batch: seq<InsertRow>, ghost keys0: set<string>, ghost c0: seq<seq<InsertRow>>,
                     ghost bs: seq<seq<InsertRow>>, ghost rest: seq<seq<InsertRow>>)
      returns (ok: bool)
    requires c0 + bs == conn.committed + ([batch] + rest) && batch != []
    requires keys0 == KeysOf(Flatten(c0)) && |c0| <= |conn.committed|
    requires Accepted(keys0, bs) >= |conn.committed| - |c0|
    requires conn.pending == []
    modifies conn
    ensures ok <==> Accepted(keys0, bs) > old(|conn.committed|) - |c0|
    ensures conn.committed == old(conn.committed) + (if ok then [batch] else [])
    ensures !ok ==> conn.committed == c0 + bs[..Accepted(keys0, bs)]
    ensures conn.pending == []
  {
    SplitCommon(c0, bs, conn.committed, [batch] + rest);
    ghost var emitted := conn.committed[|c0|..];
    ghost var k := |emitted|;
    TakeAppend(emitted, [batch] + rest);
    assert bs[k] == batch;
    assert conn.StoredKeys() == keys0 + KeysOf(Flatten(emitted)) by {
      assert Flatten(conn.committed) + conn.pending == Flatten(c0) + Flatten(emitted) by {
        FlattenAppend(c0, emitted);
      }
      KeysOfAppend(Flatten(c0), Flatten(emitted));
    }
    AcceptedStep(keys0, bs, k);
    ok := conn.ExecuteMany(batch);
    if ok {
      assert conn.pending == batch by {
        assert [] + batch == batch;
      }
      conn.Commit();
    }
  }

  /**
   * `insert_data`. Empty input is reported and touches nothing. Otherwise
   * the rows are serialised in order and cut into batches of 1000
   * (`Scan`, which `ScanChunks` shows to be `Chunks`); the batches go in one
   * after the other, each committed as soon as it is in, and the first
   * refused batch ends the load with every earlier batch committed and
   * nothing of it stored.
   */
  method InsertData(data: seq<CleanRecord>, conn: Connection) returns (status: LoadStatus)
    requires conn.pending == []
    modifies conn
    ensures conn.pending == []
    ensures data == [] ==> status == EmptyInput && conn.committed == old(conn.committed)
    ensures data != [] ==>
      var bs := Scan(SerialiseAll(data), 0, [], BatchSize);
      var k := Accepted(old(conn.StoredKeys()), bs);
      && conn.committed == old(conn.committed) + bs[..k]
      && status == if k == |bs| then Loaded(|data|) else Failed(k)
  {
    if |data| == 0 {
      return EmptyInput;
    }
    ghost var vals := SerialiseAll(data);
    ghost var bs := Scan(vals, 0, [], BatchSize);
    ghost var c0 := conn.committed;
    ghost var keys0 := conn.StoredKeys();
    assert keys0 == KeysOf(Flatten(c0)) by {
      assert Flatten(c0) + [] == Flatten(c0);
    }
    ghost var accepted := Accepted(keys0, bs);
    var valuesList: seq<InsertRow> := [];
    var batchNo: nat := 0;
    var i := 0;
    while i < |data|
      invariant i <= |data| && |valuesList| < BatchSize
      invariant c0 + bs == conn.committed + Scan(vals, i, valuesList, BatchSize)
      invariant |conn.committed| == |c0| + batchNo && accepted >= batchNo
      invariant conn.pending == []
    {
      SerialiseAllAt(data, i);
      ghost var rest := Scan(vals, i + 1, [], BatchSize);
      valuesList := valuesList + [Serialise(data[i])];
      if |valuesList| == BatchSize {
        AppendAssoc(conn.committed, [valuesList], rest);
        var ok := InsertBatch(conn, valuesList, keys0, c0, bs, rest);
        if !ok {
          return Failed(batchNo);
        }
        valuesList := [];
        batchNo := batchNo + 1;
      }
      i := i + 1;
    }
    if valuesList != [] {
      assert [valuesList] + [] == [valuesList];
      var ok := InsertBatch(conn, valuesList, keys0, c0, bs, []);
      if !ok {
        return Failed(batchNo);
      }
      batchNo := batchNo + 1;
    }
    assert bs[..batchNo] == bs;
    status := Loaded(|data|);
  }

  /** Rows whose keys are present, unique and not yet stored go in as one insert. */
  lemma FreshRowsAdmitted(keys: set<string>, data: seq<CleanRecord>)
    requires forall i :: 0 <= i < |data| ==> data[i].propertyId.Some? && data[i].propertyId.value !in keys
    requires forall i, j :: 0 <= i < j < |data| ==> data[i].propertyId != data[j].propertyId
    ensures Admits(keys, SerialiseAll(data))
  {
    var vals := SerialiseAll(data);
    forall i | 0 <= i < |data|
      ensures vals[i].propertyId == data[i].propertyId
    {
      SerialiseAllAt(data, i);
    }
    AdmitsMeans(keys, vals);
  }

  /**
   * With keys that are present, unique and not yet stored, the load
   * succeeds and the table gains every row exactly once, in order, in
   * ⌈n/1000⌉ commits.
   */
  lemma LoadFreshRows(keys: set<string>, data: seq<CleanRecord>)
    requires data != []
    requires forall i :: 0 <= i < |data| ==> data[i].propertyId.Some? && data[i].propertyId.value !in keys
    requires forall i, j :: 0 <= i < j < |data| ==> data[i].propertyId != data[j].propertyId
    ensures var bs := Scan(SerialiseAll(data), 0, [], BatchSize);
      && Accepted(keys, bs) == |bs|
      && Flatten(bs) == SerialiseAll(data)
      && (|bs| - 1) * BatchSize < |data| <= |bs| * BatchSize
  {
    var vals := SerialiseAll(data);
    FreshRowsAdmitted(keys, data);
    ScanIsChunks(vals, BatchSize);
    ChunksFlatten(vals, BatchSize);
    AcceptedAll(keys, Chunks(vals, BatchSize));
    ChunksCount(vals, BatchSize);
  }

  /** Loading the same rows again, after a load that committed them, commits nothing. */
  lemma ReloadRefused(keys: set<string>, data: seq<CleanRecord>)
    requires data != []
    ensures Accepted(keys + KeysOf(SerialiseAll(data)), Scan(SerialiseAll(data), 0, [], BatchSize)) == 0
  {
    var vals := SerialiseAll(data);
    var bs := Chunks(vals, BatchSize);
    ScanIsChunks(vals, BatchSize);
    ChunksFlatten(vals, BatchSize);
    assert bs != [] && bs == [bs[0]] + bs[1..];
    FlattenCons(bs[0], bs[1..]);
    KeysOfAppend(bs[0], Flatten(bs[1..]));
    RefusedWhenStored(keys + KeysOf(vals), bs);
  }
}
