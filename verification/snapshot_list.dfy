/** db/snapshot.h: live snapshots on a circular doubly-linked list, oldest first. */
module Snapshots {

  class SnapshotImpl {
    const sequenceNumber: nat
    var prev: SnapshotImpl
    var next: SnapshotImpl

    constructor (sequenceNumber: nat)
      ensures this.sequenceNumber == sequenceNumber && prev == this && next == this
    {
      this.sequenceNumber := sequenceNumber;
      prev := this;
      next := this;
    }
  }

  lemma RemoveInner<T>(s: seq<T>, i: nat)
    requires 1 <= i < |s| - 1
    ensures (s[..i] + s[i + 1..])[1..|s| - 2] == s[1..|s| - 1][..i - 1] + s[1..|s| - 1][i - 1 + 1..]
  {
    var cut, inner := s[..i] + s[i + 1..], s[1..|s| - 1];
    var (a, b) := (cut[1..|s| - 2], inner[..i - 1] + inner[i..]);
    forall k | 0 <= k < |a| ensures a[k] == b[k] {
      assert a[k] == cut[k + 1];
      assert b[k] == if k < i - 1 then inner[k] else inner[k + 1];
    }
  }

  /** Nothing but the head repeats, and sequence numbers never decrease between its two occurrences. */
  ghost predicate InOrder(head: SnapshotImpl, lap: seq<SnapshotImpl>) {
    && |lap| >= 2 && lap[0] == head && lap[|lap| - 1] == head
    && (forall i, j :: 0 <= i < j < |lap| - 1 ==> lap[i] != lap[j])
    && (forall i, j :: 1 <= i < j < |lap| - 1 ==> lap[i].sequenceNumber <= lap[j].sequenceNumber)
  }

  lemma RemoveKeepsOrder(head: SnapshotImpl, lap: seq<SnapshotImpl>, i: nat)
    requires InOrder(head, lap) && 1 <= i < |lap| - 1
    ensures InOrder(head, lap[..i] + lap[i + 1..])
  {
  }

  lemma AppendKeepsOrder(head: SnapshotImpl, lap: seq<SnapshotImpl>, s: SnapshotImpl)
    requires InOrder(head, lap) && s !in lap
    requires forall t :: t in lap[1..|lap| - 1] ==> t.sequenceNumber <= s.sequenceNumber
    ensures InOrder(head, lap[..|lap| - 1] + [s, head])
  {
    assert forall i :: 1 <= i < |lap| - 1 ==> lap[i] in lap[1..|lap| - 1];
  }

  class SnapshotList {
    const head: SnapshotImpl
    ghost var lap: seq<SnapshotImpl>  // one lap of 'next': the dummy head, the live snapshots, the head

    ghost function Live(): seq<SnapshotImpl>
      requires |lap| >= 2
      reads this
    {
      lap[1..|lap| - 1]
    }

    /** Following 'next' goes round the lap, and 'prev' undoes it. */
    ghost predicate Valid()
      reads this, lap
    {
      && InOrder(head, lap)
      && (forall i {:trigger lap[i].next} :: 0 <= i < |lap| - 1 ==> lap[i].next == lap[i + 1])
      && (forall i {:trigger lap[i].prev} :: 1 <= i < |lap| ==> lap[i].prev == lap[i - 1])
    }

    constructor ()
      ensures Valid() && Live() == [] && fresh(head)
    {
      head := new SnapshotImpl(0);
      new;
      lap := [head, head];
    }

    method Empty() returns (empty: bool)
      requires Valid()
      ensures empty <==> Live() == []
    {
      assert head.next == lap[1];
      empty := head.next == head;
    }

    method Oldest() returns (s: SnapshotImpl)
      requires Valid() && Live() != []
      ensures s == Live()[0] && forall t :: t in Live() ==> s.sequenceNumber <= t.sequenceNumber
    {
      assert lap[0].next == lap[1];
      s := head.next;
    }

    method Newest() returns (s: SnapshotImpl)
      requires Valid() && Live() != []
      ensures s == Live()[|Live()| - 1] && forall t :: t in Live() ==> t.sequenceNumber <= s.sequenceNumber
    {
      assert lap[|lap| - 2].next == lap[|lap| - 1];
      s := head.prev;
    }

    method New(sequenceNumber: nat) returns (s: SnapshotImpl)
      requires Valid()
      requires forall t :: t in Live() ==> t.sequenceNumber <= sequenceNumber
      modifies this, lap
      ensures Valid() && fresh(s) && s.sequenceNumber == sequenceNumber
      ensures Live() == old(Live()) + [s]
    {
      s := new SnapshotImpl(sequenceNumber);
      Link(s);
    }

    /** The stores that link a new snapshot in before the head. */
    method Link(s: SnapshotImpl)
      requires Valid() && s !in lap
      requires forall t :: t in Live() ==> t.sequenceNumber <= s.sequenceNumber
      modifies this, lap, s
      ensures Valid() && lap == old(lap)[..old(|lap|) - 1] + [s, head]
    {
      ghost var o := lap;
      ghost var n := |o| - 1;
      assert o[n - 1].next == o[n] && o[n].prev == o[n - 1];
      s.next := head;
      s.prev := head.prev;
      s.prev.next := s;
      s.next.prev := s;
      AppendKeepsOrder(head, o, s);
      lap := o[..n] + [s, head];
      hide InOrder;
      forall k | 0 <= k < |lap| - 1 ensures lap[k].next == lap[k + 1] {
        assert k < n - 1 ==> old(o[k].next) == o[k + 1];
      }
      forall k | 1 <= k < |lap| ensures lap[k].prev == lap[k - 1] {
        assert k < n ==> old(o[k].prev) == o[k - 1];
      }
    }

    /** The two pointer stores of Delete, at position i of the lap. */
    method Unlink(s: SnapshotImpl, ghost i: nat)
      requires Valid() && 1 <= i < |lap| - 1 && lap[i] == s
      modifies this, lap
      ensures Valid() && lap == old(lap)[..i] + old(lap)[i + 1..]
    {
      ghost var o := lap;
      assert o[i].prev == o[i - 1] && o[i].next == o[i + 1];
      s.prev.next := s.next;
      s.next.prev := s.prev;
      RemoveKeepsOrder(head, o, i);
      lap := o[..i] + o[i + 1..];
      forall k | 0 <= k < |lap| - 1 ensures lap[k].next == lap[k + 1] {
        assert k < i - 1 ==> old(o[k].next) == o[k + 1];
        assert k >= i ==> old(o[k + 1].next) == o[k + 2];
      }
      forall k | 1 <= k < |lap| ensures lap[k].prev == lap[k - 1] {
        assert k < i ==> old(o[k].prev) == o[k - 1];
        assert k > i ==> old(o[k + 1].prev) == o[k];
      }
    }

    method Delete(s: SnapshotImpl) returns (ghost at: nat)
      requires Valid() && s in Live()
      modifies this, lap
      ensures Valid()
      ensures at < |old(Live())| && old(Live())[at] == s
      ensures Live() == old(Live())[..at] + old(Live())[at + 1..]
    {
      at :| 0 <= at < |Live()| && Live()[at] == s;
      RemoveInner(lap, at + 1);
      Unlink(s, at + 1);
    }

    /** The choice DoCompactionWork makes. The result is at or below every live snapshot and at or
        below the last sequence, hence below every snapshot taken later. */
    method SmallestSnapshot(lastSequence: nat) returns (smallest: nat)
      requires Valid()
      requires forall t :: t in Live() ==> t.sequenceNumber <= lastSequence
      ensures smallest <= lastSequence
      ensures forall t :: t in Live() ==> smallest <= t.sequenceNumber
      ensures smallest == lastSequence || exists t :: t in Live() && smallest == t.sequenceNumber
    {
      var empty := Empty();
      if empty {
        smallest := lastSequence;
      } else {
        var s := Oldest();
        smallest := s.sequenceNumber;
      }
    }
  }
}
