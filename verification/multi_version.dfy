/** The specification of the store: the value of a user key at a snapshot is decided by the entry with
    the largest sequence number at or below the snapshot; a deletion there means the key is absent. */
module MultiVersion {
  import opened Wrappers
  import opened Coding
  import opened DbFormat

  predicate Visible(e: Entry, k: UserKey, snapshot: nat) {
    e.user == k && e.sequence <= snapshot
  }

  ghost predicate IsLatest(db: set<Entry>, k: UserKey, snapshot: nat, e: Entry) {
    e in db && Visible(e, k, snapshot) && forall f :: f in db && Visible(f, k, snapshot) ==> f.Tag() <= e.Tag()
  }

  /** No two entries share a user key and a tag: the write path gives every entry its own sequence. */
  ghost predicate DistinctTags(db: set<Entry>) {
    forall e, f :: e in db && f in db && e.user == f.user && e.Tag() == f.Tag() ==> e == f
  }

  function Payload(e: Entry): Option<bytes> {
    if e.kind == TypeValue then Some(e.value) else None
  }

  ghost function Read(db: set<Entry>, k: UserKey, snapshot: nat): Option<bytes> {
    if e :| IsLatest(db, k, snapshot, e) then Payload(e) else None
  }

  lemma ReadOfLatest(db: set<Entry>, k: UserKey, snapshot: nat, e: Entry)
    requires DistinctTags(db) && IsLatest(db, k, snapshot, e)
    ensures Read(db, k, snapshot) == Payload(e)
  {
    assert forall f :: IsLatest(db, k, snapshot, f) ==> f == e;
  }

  /** A finite store with a visible entry has a latest one. */
  lemma {:induction false} LatestExists(db: set<Entry>, k: UserKey, snapshot: nat, e: Entry) returns (best: Entry)
    requires e in db && Visible(e, k, snapshot)
    ensures IsLatest(db, k, snapshot, best)
    decreases |db|
  {
    best := e;
    if f :| f in db && Visible(f, k, snapshot) && f.Tag() > e.Tag() {
      best := LatestExists(db - {e}, k, snapshot, f);
    }
  }

  lemma ReadOfNothing(db: set<Entry>, k: UserKey, snapshot: nat)
    requires forall e :: e in db ==> !Visible(e, k, snapshot)
    ensures Read(db, k, snapshot) == None
  {
  }

  /** Two stores agree at (k, snapshot) when the latest visible entry of each is the same. */
  lemma SameLatestSameRead(a: set<Entry>, b: set<Entry>, k: UserKey, snapshot: nat, e: Entry)
    requires DistinctTags(a) && DistinctTags(b)
    requires IsLatest(a, k, snapshot, e) && IsLatest(b, k, snapshot, e)
    ensures Read(a, k, snapshot) == Read(b, k, snapshot)
  {
    ReadOfLatest(a, k, snapshot, e);
    ReadOfLatest(b, k, snapshot, e);
  }

  ghost function Elements(entries: seq<Entry>): set<Entry> {
    set e | e in entries
  }

  lemma SortedHasDistinctTags(entries: seq<Entry>)
    requires Sorted(entries)
    ensures DistinctTags(Elements(entries))
  {
    forall e, f | e in entries && f in entries && e.user == f.user && e.Tag() == f.Tag()
      ensures e == f
    {
      var i :| 0 <= i < |entries| && entries[i] == e;
      var j :| 0 <= j < |entries| && entries[j] == f;
    }
  }
}
