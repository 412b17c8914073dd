/** MemTable::Add and MemTable::Get of db/memtable.cc over the skip list. */
module MemTables {
  import opened Coding
  import opened DbFormat
  import opened MultiVersion
  import opened SkipLists

  /** Get's outcome: it returns false, or true with a value or with a NotFound status. */
  datatype GetResult = NoEntry | Deleted | Found(value: bytes)

  ghost function Keys(ns: seq<Node>): seq<Entry> {
    seq(|ns|, i requires 0 <= i < |ns| => ns[i].key)
  }

  class MemTable {
    const table: SkipList

    ghost predicate Valid()
      reads table, table.nodes
    {
      table.Valid()
    }

    ghost function Entries(): seq<Entry>
      requires Valid()
      reads table, table.nodes
    {
      Keys(table.Contents())
    }

    constructor ()
      ensures Valid() && Entries() == [] && fresh(table) && fresh(table.nodes)
    {
      table := new SkipList(Entry(0.0, 0, TypeDeletion, []));
    }

    /** The height is the skip list's random draw. */
    method Add(sequence: nat, kind: ValueType, key: UserKey, value: bytes, height: nat)
      requires Valid() && 1 <= height <= MAX_HEIGHT
      requires forall e :: e in Entries() && e.user == key ==> e.sequence != sequence
      modifies table, table.nodes
      ensures Valid() && Sorted(Entries()) && fresh(table.nodes - old(table.nodes))
      ensures Elements(Entries()) == old(Elements(Entries())) + {Entry(key, sequence, kind, value)}
    {
      var e := Entry(key, sequence, kind, value);
      ghost var ns := table.Contents();
      forall n | n in ns ensures !SameKey(n.key, e) {
        var i :| 0 <= i < |ns| && ns[i] == n;
        assert Entries()[i] == n.key;
      }
      var x := Insert(table, e, height);
      InsertedKeys(ns, x);
      EntriesSorted();
    }

    lemma EntriesSorted()
      requires Valid()
      ensures Sorted(Entries())
    {
      ContentsSorted(table);
    }

    /** Reports the entry for the key with the greatest sequence number at or below the snapshot, and
        returns false exactly when there is none. */
    method Get(key: UserKey, snapshot: nat) returns (r: GetResult)
      requires Valid()
      ensures r == NoEntry <==> forall e :: e in Entries() ==> !Visible(e, key, snapshot)
      ensures r != NoEntry ==> exists e :: IsLatest(Elements(Entries()), key, snapshot, e)
                                        && r == if e.kind == TypeValue then Found(e.value) else Deleted
    {
      var lookup := Entry(key, snapshot, VALUE_TYPE_FOR_SEEK, []);
      var iter := new Iterator(table);
      iter.Seek(lookup);
      r := NoEntry;
      if iter.node != null && iter.node.key.user == key {
        match iter.node.key.kind {
          case TypeValue => r := Found(iter.node.key.value);
          case TypeDeletion => r := Deleted;
        }
      }
      ContentsSorted(table);
      SeekFindsLatest(table.Contents(), key, snapshot);
    }
  }

  lemma InsertedKeys(ns: seq<Node>, x: Node)
    ensures Elements(Keys(Inserted(ns, x))) == Elements(Keys(ns)) + {x.key}
  {
    var ms := Inserted(ns, x);
    InsertedAt(ns, x);
    forall e ensures e in Keys(ms) <==> e in Keys(ns) || e == x.key {
      if e in Keys(ms) {
        var i :| 0 <= i < |ms| && Keys(ms)[i] == e;
        assert ms[i] in ms;
        if ms[i] != x {
          var j :| 0 <= j < |ns| && ns[j] == ms[i];
          assert Keys(ns)[j] == e;
        }
      }
      if e in Keys(ns) {
        var i :| 0 <= i < |ns| && Keys(ns)[i] == e;
        assert ns[i] in ms;
        var j :| 0 <= j < |ms| && ms[j] == ns[i];
        assert Keys(ms)[j] == e;
      }
      assert x in ms;
      var j :| 0 <= j < |ms| && ms[j] == x;
      assert Keys(ms)[j] == x.key;
    }
  }

  /** Tags descend within a user key and the seek tag is the largest one for its sequence number, so the
      first entry at or after the seek key is the latest visible one if it has the right user key. */
  lemma SeekFindsLatest(ns: seq<Node>, key: UserKey, snapshot: nat)
    requires SortedNodes(ns)
    ensures var at := At(ns, Split(ns, Entry(key, snapshot, VALUE_TYPE_FOR_SEEK, [])));
            if at != null && at.key.user == key then IsLatest(Elements(Keys(ns)), key, snapshot, at.key)
            else forall e :: e in Keys(ns) ==> !Visible(e, key, snapshot)
  {
    var p := Split(ns, Entry(key, snapshot, VALUE_TYPE_FOR_SEEK, []));
    if p < |ns| {
      assert Keys(ns)[p] == ns[p].key;
    }
    forall e | e in Keys(ns) && Visible(e, key, snapshot)
      ensures p < |ns| && ns[p].key.user == key && e.Tag() <= ns[p].key.Tag()
    {
      var i :| 0 <= i < |ns| && Keys(ns)[i] == e;
      assert p < i ==> Before(ns[p].key, ns[i].key);
    }
  }
}
