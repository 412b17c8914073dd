/** What a batch means to a reader: its operations are updates of a map from keys to values, made in order,
    each one visible from its own sequence number on. */
module BatchReads {
  import opened Wrappers
  import opened Coding
  import opened DbFormat
  import opened MultiVersion
  import opened WriteBatches

  /** What a map that has 'before' at the key has there after the updates. */
  function Updated(ops: seq<Op>, key: bytes, before: Option<bytes>): Option<bytes> {
    if ops == [] then before
    else
      var (others, last) := (ops[..|ops| - 1], ops[|ops| - 1]);
      if last.key != key then Updated(others, key, before)
      else if last.PutOp? then Some(last.value)
      else None
  }

  ghost predicate Until(db: set<Entry>, sequence: nat) {
    forall e :: e in db ==> e.sequence <= sequence
  }

  /** A batch inserted behind a store that ends at 'sequence' updates what every reader of its end sees. */
  lemma {:induction false} BatchUpdates(db: set<Entry>, sequence: nat, ops: seq<Op>, key: bytes)
    requires Until(db, sequence) && DistinctTags(db)
    ensures var db' := db + Elements(Adds(sequence + 1, ops));
            && Until(db', sequence + |ops|) && DistinctTags(db')
            && Read(db', Rank(key), sequence + |ops|) == Updated(ops, key, Read(db, Rank(key), sequence))
  {
    hide Read, Rank, Until, DistinctTags, Elements, AddOf;
    var n := |ops|;
    if n == 0 {
      NoMore(db);
    } else {
      var (others, last) := (ops[..n - 1], ops[n - 1]);
      BatchUpdates(db, sequence, others, key);
      OneMore(db, Adds(sequence + 1, others), AddOf(sequence + n, last));
      EntryUpdates(db + Elements(Adds(sequence + 1, others)), sequence + |others|, last, key);
    }
  }

  lemma NoMore(db: set<Entry>)
    ensures db + Elements([]) == db
  {
  }

  lemma OneMore(db: set<Entry>, entries: seq<Entry>, e: Entry)
    ensures db + Elements(entries + [e]) == db + Elements(entries) + {e}
  {
    assert (entries + [e])[|entries|] == e;
  }

  lemma EntryUpdates(db: set<Entry>, sequence: nat, op: Op, key: bytes)
    requires Until(db, sequence) && DistinctTags(db)
    ensures var db' := db + {AddOf(sequence + 1, op)};
            && Until(db', sequence + 1) && DistinctTags(db')
            && Read(db', Rank(key), sequence + 1) == Updated([op], key, Read(db, Rank(key), sequence))
  {
    hide Rank, Read;
    var e := AddOf(sequence + 1, op);
    RankEmbedsByteOrder(op.key, key);
    assert [op][..0] == [];
    if op.key == key {
      assert IsLatest(db + {e}, Rank(key), sequence + 1, e);
      ReadOfLatest(db + {e}, Rank(key), sequence + 1, e);
    } else {
      OtherKey(db, sequence, e, Rank(key));
    }
  }

  lemma OtherKey(db: set<Entry>, sequence: nat, e: Entry, k: UserKey)
    requires Until(db, sequence) && DistinctTags(db) && e.sequence == sequence + 1 && e.user != k
    ensures Read(db + {e}, k, sequence + 1) == Read(db, k, sequence)
  {
    hide Read;
    assert DistinctTags(db + {e});
    if f :| f in db && Visible(f, k, sequence) {
      var best := LatestExists(db, k, sequence, f);
      ReadOfLatest(db, k, sequence, best);
      assert IsLatest(db + {e}, k, sequence + 1, best);
      ReadOfLatest(db + {e}, k, sequence + 1, best);
    } else {
      ReadOfNothing(db, k, sequence);
      ReadOfNothing(db + {e}, k, sequence + 1);
    }
  }
}
