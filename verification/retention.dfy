/** Which entries tables may be without: hidden at every snapshot that is still read, or deletion markers
    with nothing left below them. What compactions drop is of this kind, and no read can tell. */
module Retention {
  import opened DbFormat
  import opened MultiVersion
  import CompactionWork

  /** A newer entry of the same user key is at or below every snapshot from 'floor' on. */
  ghost predicate Shadowed(all: set<Entry>, floor: nat, e: Entry) {
    exists f :: f in all && f.user == e.user && e.sequence < f.sequence <= floor
  }

  ghost predicate NothingBelow(found: set<Entry>, e: Entry) {
    forall g :: g in found && g.user == e.user ==> e.sequence <= g.sequence
  }

  ghost predicate Gone(all: set<Entry>, found: set<Entry>, floor: nat, e: Entry) {
    || Shadowed(all, floor, e)
    || (e.kind == TypeDeletion && e.sequence <= floor && NothingBelow(found, e))
  }

  ghost predicate DistinctSequences(db: set<Entry>) {
    forall e, f :: e in db && f in db && e.sequence == f.sequence ==> e == f
  }

  /** What is gone stays gone while only newer entries of its key come up. */
  lemma GoneStays(all: set<Entry>, found: set<Entry>, floor: nat, all': set<Entry>, found': set<Entry>, floor': nat,
                  e: Entry)
    requires Gone(all, found, floor, e) && all <= all' && floor <= floor'
    requires forall g :: g in found' && g.user == e.user && g !in found ==> e.sequence <= g.sequence
    ensures Gone(all', found', floor', e)
  {
  }

  lemma DistinctSequencesAreTags(db: set<Entry>)
    requires DistinctSequences(db)
    ensures DistinctTags(db)
  {
    forall e, f | e in db && f in db && e.user == f.user && e.Tag() == f.Tag() ensures e == f {
      TagDecides(e, f);
    }
  }

  lemma TagDecides(e: Entry, f: Entry)
    ensures e.Tag() <= f.Tag() ==> e.sequence <= f.sequence
  {
  }

  /** If all that is missing is gone, every read from the floor on is as if nothing were missing. */
  lemma ReadAgrees(all: set<Entry>, found: set<Entry>, floor: nat, k: UserKey, snapshot: nat)
    requires DistinctSequences(all) && found <= all && floor <= snapshot
    requires forall e :: e in all ==> e in found || Gone(all, found, floor, e)
    ensures Read(found, k, snapshot) == Read(all, k, snapshot)
  {
    DistinctSequencesAreTags(all);
    if e0 :| e0 in all && Visible(e0, k, snapshot) {
      var e := LatestExists(all, k, snapshot, e0);
      forall f | f in all && Visible(f, k, snapshot) ensures f.sequence <= e.sequence {
        TagDecides(f, e);
      }
      if e in found {
        SameLatestSameRead(found, all, k, snapshot, e);
      } else {
        assert !Shadowed(all, floor, e);
        ReadOfLatest(all, k, snapshot, e);
        assert forall g :: g in found && Visible(g, k, snapshot) ==> g == e;
        ReadOfNothing(found, k, snapshot);
      }
    } else {
      ReadOfNothing(all, k, snapshot);
      ReadOfNothing(found, k, snapshot);
    }
  }

  /** What the compaction loop drops is gone, from its smallest snapshot on, once its outputs have taken
      the place of its inputs: outside the inputs there must be nothing older for the base keys. */
  lemma DroppedIsGone(input: seq<Entry>, smallest: nat, base: iset<UserKey>, all: set<Entry>, found: set<Entry>,
                      floor: nat, e: Entry)
    requires Sorted(input) && Elements(input) <= all && DistinctSequences(all) && smallest <= floor
    requires e in input && e !in CompactionWork.Kept(input, |input|, smallest, base)
    requires forall g :: g in found && g.user == e.user ==>
               || g in CompactionWork.Kept(input, |input|, smallest, base)
               || (e.user in base ==> e.sequence <= g.sequence)
    ensures Gone(all, found, floor, e)
  {
    CompactionWork.KeptElements(input, |input|, smallest, base, e);
    var i :| 0 <= i < |input| && input[i] == e;
    if i > 0 && input[i - 1].user == e.user && input[i - 1].sequence <= smallest {
      var f := input[i - 1];
      assert Before(f, e) && f in Elements(input) && e in Elements(input);
      TagDecides(e, f);
      assert f in all && f.user == e.user && e.sequence < f.sequence <= floor;
    } else {
      forall g | g in found && g.user == e.user ensures e.sequence <= g.sequence {
        if g in CompactionWork.Kept(input, |input|, smallest, base) {
          KeptIsNewer(input, smallest, base, i, g);
        }
      }
    }
  }

  /** Below a dropped deletion marker nothing of its key is kept. */
  lemma KeptIsNewer(input: seq<Entry>, smallest: nat, base: iset<UserKey>, i: nat, g: Entry)
    requires Sorted(input) && i < |input| && CompactionWork.Dropped(input, i, smallest, base)
    requires input[i].sequence <= smallest
    requires g in CompactionWork.Kept(input, |input|, smallest, base) && g.user == input[i].user
    ensures input[i].sequence <= g.sequence
  {
    CompactionWork.KeptElements(input, |input|, smallest, base, g);
    var j :| 0 <= j < |input| && input[j] == g && !CompactionWork.Dropped(input, j, smallest, base);
    if g.Tag() <= input[i].Tag() {
      CompactionWork.OlderEntriesAreHidden(input, smallest, base, i, j);
    } else {
      TagDecides(input[i], g);
    }
  }
}
