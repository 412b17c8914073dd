/** DBIter of db/db_iter.cc: walks the raw entries in both directions and shows a clean cursor over the
    keys visible at its snapshot. The internal iterator is a cursor over a fixed sorted list; position
    -1 is its invalid state, whichever end it ran off. All internal keys parse. */
module DbIterator {
  import opened Wrappers
  import opened Coding
  import opened DbFormat
  import opened MultiVersion

  // ----- the clean view -----

  /** Entry i is what the snapshot shows for its user key. */
  ghost predicate Yield(entries: seq<Entry>, snapshot: nat, i: int) {
    && 0 <= i < |entries|
    && entries[i].sequence <= snapshot && entries[i].kind == TypeValue
    && forall j :: 0 <= j < i && entries[j].user == entries[i].user ==> entries[j].sequence > snapshot
  }

  /** The indices below n that the snapshot shows, ascending. */
  ghost function View(entries: seq<Entry>, snapshot: nat, n: nat): seq<nat>
    requires n <= |entries|
  {
    if n == 0 then []
    else View(entries, snapshot, n - 1) + (if Yield(entries, snapshot, n - 1) then [n - 1] else [])
  }

  ghost predicate Ascending(s: seq<nat>) {
    forall a, b :: 0 <= a < b < |s| ==> s[a] < s[b]
  }

  lemma {:induction false} ViewIsExact(entries: seq<Entry>, snapshot: nat, n: nat)
    requires n <= |entries|
    ensures var view := View(entries, snapshot, n);
            && Ascending(view)
            && (forall a :: 0 <= a < |view| ==> view[a] < n && Yield(entries, snapshot, view[a]))
            && (forall i :: 0 <= i < n && Yield(entries, snapshot, i) ==> i in view)
  {
    if n > 0 {
      ViewIsExact(entries, snapshot, n - 1);
    }
  }

  lemma YieldIsRead(entries: seq<Entry>, snapshot: nat, i: nat)
    requires Sorted(entries) && Yield(entries, snapshot, i)
    ensures Read(Elements(entries), entries[i].user, snapshot) == Some(entries[i].value)
  {
    SortedHasDistinctTags(entries);
    ReadOfLatest(Elements(entries), entries[i].user, snapshot, entries[i]);
  }

  lemma ReadIsYield(entries: seq<Entry>, k: UserKey, snapshot: nat, v: bytes) returns (i: nat)
    requires Sorted(entries) && Read(Elements(entries), k, snapshot) == Some(v)
    ensures Yield(entries, snapshot, i) && entries[i].user == k && entries[i].value == v
  {
    var e :| IsLatest(Elements(entries), k, snapshot, e) && Read(Elements(entries), k, snapshot) == Payload(e);
    i :| 0 <= i < |entries| && entries[i] == e;
    assert forall j :: 0 <= j < i && entries[j].user == k ==> Before(entries[j], e) && entries[j] in Elements(entries);
  }

  /** Index a holds c; the next shown index after c is at a + 1. */
  lemma NextInView(entries: seq<Entry>, snapshot: nat, a: nat, c: int)
    requires var view := View(entries, snapshot, |entries|); a < |view| && view[a] <= c
    requires forall i :: View(entries, snapshot, |entries|)[a] < i < c ==> !Yield(entries, snapshot, i)
    requires c < |entries| ==> Yield(entries, snapshot, c)
    requires c > View(entries, snapshot, |entries|)[a]
    ensures var view := View(entries, snapshot, |entries|);
            if c < |entries| then a + 1 < |view| && view[a + 1] == c else a + 1 == |view|
  {
    var view := View(entries, snapshot, |entries|);
    ViewIsExact(entries, snapshot, |entries|);
    assert a + 1 < |view| ==> view[a] < view[a + 1] && Yield(entries, snapshot, view[a + 1]);
    if c < |entries| {
      var b :| 0 <= b < |view| && view[b] == c;
    }
  }

  lemma PrevInView(entries: seq<Entry>, snapshot: nat, a: nat, c: int)
    requires a <= |View(entries, snapshot, |entries|)|
    requires var view := View(entries, snapshot, |entries|);
             c < (if a < |view| then view[a] else |entries|)
    requires var view := View(entries, snapshot, |entries|);
             forall i :: c < i < (if a < |view| then view[a] else |entries|) ==> !Yield(entries, snapshot, i)
    requires c >= 0 ==> Yield(entries, snapshot, c)
    ensures var view := View(entries, snapshot, |entries|);
            if c >= 0 then a > 0 && view[a - 1] == c else a == 0
  {
    var view := View(entries, snapshot, |entries|);
    ViewIsExact(entries, snapshot, |entries|);
    assert a > 0 ==> Yield(entries, snapshot, view[a - 1]) && (a < |view| ==> view[a - 1] < view[a]);
    if c >= 0 {
      var b :| 0 <= b < |view| && view[b] == c;
    }
  }

  /** The first index at or after i whose entry is not before the target. */
  function LowerBound(entries: seq<Entry>, target: Entry, i: nat): (r: nat)
    requires i <= |entries|
    ensures i <= r <= |entries|
    ensures forall j :: i <= j < r ==> Before(entries[j], target)
    ensures r < |entries| ==> !Before(entries[r], target)
    decreases |entries| - i
  {
    if i < |entries| && Before(entries[i], target) then LowerBound(entries, target, i + 1) else i
  }

  // ----- the iterator -----

  datatype Direction = Forward | Reverse

  /** What key() and value() return. */
  datatype KeyValue = KeyValue(key: UserKey, value: bytes)

  class DBIter {
    const entries: seq<Entry>
    const sequence: nat
    var iter: int  // position of the internal iterator, -1 when it is not valid
    var savedKey: Option<UserKey>  // None once cleared
    var savedValue: bytes
    var direction: Direction
    var valid: bool
    ghost var at: int  // the cursor this object stands for: an index of the view, or -1

    ghost function Shown(): seq<nat> {
      View(entries, sequence, |entries|)
    }

    /** The internal iterator sits before all entries of the shown key, with only invisible entries in
        between. */
    ghost predicate BeforeGroup(c: nat)
      requires -1 <= iter < |entries| && c < |entries|
      reads this
    {
      && iter < c
      && (iter >= 0 ==> entries[iter].user < entries[c].user)
      && (forall j :: iter < j < c ==> entries[j].sequence > sequence)
    }

    ghost predicate Inv()
      reads this
    {
      && Sorted(entries)
      && -1 <= iter < |entries|
      && -1 <= at < |Shown()|
      && (valid <==> at >= 0)
      && (forall a :: 0 <= a < |Shown()| ==> Yield(entries, sequence, Shown()[a]))
      && (valid ==>
            var c := Shown()[at];
            if direction == Forward then iter == c
            else savedKey == Some(entries[c].user) && savedValue == entries[c].value && BeforeGroup(c))
    }

    constructor (entries: seq<Entry>, sequence: nat)
      requires Sorted(entries)
      ensures Inv() && !valid && this.entries == entries && this.sequence == sequence
    {
      this.entries := entries;
      this.sequence := sequence;
      iter, at, valid, direction := -1, -1, false, Forward;
      savedKey, savedValue := None, [];
      ViewIsExact(entries, sequence, |entries|);
    }

    method Key() returns (k: UserKey)
      requires Inv() && valid
      ensures k == entries[Shown()[at]].user
    {
      if direction == Forward {
        k := entries[iter].user;
      } else {
        k := savedKey.value;
      }
    }

    method Value() returns (v: bytes)
      requires Inv() && valid
      ensures v == entries[Shown()[at]].value
    {
      if direction == Forward {
        v := entries[iter].value;
      } else {
        v := savedValue;
      }
    }

    method IterNext()
      requires 0 <= iter < |entries|
      modifies this`iter
      ensures iter == if old(iter) + 1 < |entries| then old(iter) + 1 else -1
    {
      iter := if iter + 1 < |entries| then iter + 1 else -1;
    }

    method IterPrev()
      requires 0 <= iter < |entries|
      modifies this`iter
      ensures iter == old(iter) - 1
    {
      iter := iter - 1;
    }

    /** Stops at the first shown entry from here on, past 'skip' when skipping. */
    method FindNextUserEntry(skipping0: bool)
      requires Sorted(entries) && 0 <= iter < |entries| && direction == Forward
      requires skipping0 ==> savedKey.Some?
      // Visible entries already passed belong to keys that end before this point or are to be skipped.
      requires forall j, i :: 0 <= j < iter <= i < |entries| && entries[j].user == entries[i].user ==>
                 entries[j].sequence > sequence || (skipping0 && entries[i].user <= savedKey.value)
      requires skipping0 ==> forall i :: iter <= i < |entries| && entries[i].sequence <= sequence ==>
                                           entries[i].user >= savedKey.value
      modifies this`iter, this`savedKey, this`valid
      ensures -1 <= iter < |entries|
      ensures valid ==> iter >= old(iter) && Yield(entries, sequence, iter)
      ensures valid && skipping0 ==> entries[iter].user > old(savedKey).value
      ensures forall i :: old(iter) <= i < (if valid then iter else |entries|) ==>
                !(Yield(entries, sequence, i) && (skipping0 ==> entries[i].user > old(savedKey).value))
    {
      var skipping := skipping0;
      ghost var start, skip0 := iter, savedKey;
      while true
        invariant start <= iter < |entries|
        invariant skipping ==> savedKey.Some?
        invariant skipping0 ==> skipping && savedKey.value >= skip0.value
        // The skip key is the initial one or that of a visible deletion already passed.
        invariant skipping && !(skipping0 && savedKey == skip0) ==>
                    exists j :: start <= j < iter && entries[j].user == savedKey.value
                                && entries[j].sequence <= sequence
        invariant forall j :: start <= j < iter && entries[j].sequence <= sequence ==>
                                skipping && entries[j].user <= savedKey.value
        invariant forall i :: start <= i < iter ==>
                                !(Yield(entries, sequence, i) && (skipping0 ==> entries[i].user > skip0.value))
        decreases |entries| - iter
      {
        var e := entries[iter];
        assert forall j :: 0 <= j < iter ==> Before(entries[j], e);
        if e.sequence <= sequence {
          match e.kind
          case TypeDeletion =>
            savedKey, skipping := Some(e.user), true;
          case TypeValue =>
            if skipping && e.user <= savedKey.value {
              // Entry hidden
            } else {
              valid, savedKey := true, None;
              return;
            }
        }
        IterNext();
        if iter < 0 {
          break;
        }
      }
      savedKey, valid := None, false;
    }

    /** From in front of the current key's entries to the first of those after it that are visible. */
    method TurnForward()
      requires Inv() && valid && direction == Reverse
      modifies this`direction, this`iter
      ensures direction == Forward && 0 <= iter <= Shown()[at]
      ensures forall j :: iter <= j < Shown()[at] ==> entries[j].sequence > sequence
      ensures forall j :: 0 <= j < iter ==> entries[j].user < entries[Shown()[at]].user
    {
      ghost var c := Shown()[at];
      direction := Forward;
      if iter < 0 {
        iter := 0;
      } else {
        assert forall j :: 0 <= j < iter ==> Before(entries[j], entries[iter]);
        IterNext();
      }
      if iter < 0 {
        assert false;  // the entries of the current key are still ahead
      }
    }

    method Next()
      requires Inv() && valid
      modifies this
      ensures Inv()
      ensures at == if old(at) + 1 < |Shown()| then old(at) + 1 else -1
    {
      ghost var a, c := at, Shown()[at];
      if direction == Reverse {
        TurnForward();
      } else {
        savedKey := Some(entries[iter].user);
      }
      assert forall i :: c < i < |entries| ==> Before(entries[c], entries[i]);
      hide View, Yield;
      FindNextUserEntry(true);
      NextInView(entries, sequence, a, if valid then iter else |entries|);
      at := if valid then a + 1 else -1;
    }

    method Seek(target: UserKey)
      requires Inv() && sequence <= MAX_SEQUENCE
      modifies this
      ensures Inv()
      ensures at >= 0 ==> entries[Shown()[at]].user >= target
      ensures forall a :: 0 <= a < (if at >= 0 then at else |Shown()|) ==> entries[Shown()[a]].user < target
    {
      direction, savedValue := Forward, [];
      var seekKey := Entry(target, sequence, VALUE_TYPE_FOR_SEEK, []);
      var lower := LowerBound(entries, seekKey, 0);
      iter := if lower < |entries| then lower else -1;
      savedKey := None;  // the source keeps the encoded seek key here, and never reads it as a user key
      if iter >= 0 {
        FindNextUserEntry(false);
      } else {
        valid := false;
      }
      at := Locate(if valid then iter else |entries|);
    }

    method SeekToFirst()
      requires Inv()
      modifies this
      ensures Inv()
      ensures at == if |Shown()| > 0 then 0 else -1
    {
      direction, savedValue := Forward, [];
      iter := if |entries| > 0 then 0 else -1;
      if iter >= 0 {
        FindNextUserEntry(false);
      } else {
        valid := false;
      }
      assert |Shown()| > 0 ==> Yield(entries, sequence, Shown()[0]);
      at := Locate(if valid then iter else |entries|);
    }

    /** The index of the view at which the entry index c stands; -1 past the end. */
    lemma Locate(c: nat) returns (a: int)
      requires c <= |entries| && (c < |entries| ==> Yield(entries, sequence, c))
      ensures -1 <= a < |Shown()| && (a >= 0 <==> c < |entries|)
      ensures a >= 0 ==> Shown()[a] == c
      ensures forall b :: 0 <= b < (if a >= 0 then a else |Shown()|) ==> Shown()[b] < c
    {
      ViewIsExact(entries, sequence, |entries|);
      a := -1;
      if c < |entries| {
        a :| 0 <= a < |Shown()| && Shown()[a] == c;
      }
    }

    /** Scans backwards to the last shown entry before c, and stops in front of its user key. */
    method FindPrevUserEntry(ghost c: nat) returns (ghost found: int)
      requires Sorted(entries) && -1 <= iter < c <= |entries| && direction == Reverse
      requires forall j :: iter < j < c ==> !Yield(entries, sequence, j)
      modifies this`iter, this`savedKey, this`savedValue, this`valid, this`direction
      ensures -1 <= iter < |entries| && (valid <==> found >= 0) && -1 <= found < c
      ensures forall j :: found < j < c ==> !Yield(entries, sequence, j)
      ensures valid ==> direction == Reverse && Yield(entries, sequence, found) && BeforeGroup(found)
      ensures valid ==> savedKey == Some(entries[found].user) && savedValue == entries[found].value
    {
      var valueType := TypeDeletion;
      ghost var start := iter;
      found := start + 1;  // the entry read last among the visible ones; start + 1 before the first
      while iter >= 0
        invariant direction == Reverse
        invariant -1 <= iter <= start && iter < found <= start + 1
        invariant forall j :: iter < j < found && j <= start ==> entries[j].sequence > sequence
        invariant forall j :: found < j < c ==> !Yield(entries, sequence, j)
        invariant found == start + 1 ==> valueType == TypeDeletion
        invariant found <= start ==> entries[found].sequence <= sequence && valueType == entries[found].kind
        invariant valueType == TypeValue ==>
                    savedKey == Some(entries[found].user) && savedValue == entries[found].value
        decreases iter
      {
        var e := entries[iter];
        assert forall j :: iter < j <= start ==> Before(e, entries[j]);
        if e.sequence <= sequence {
          if valueType != TypeDeletion && e.user < savedKey.value {
            break;
          }
          valueType := e.kind;
          found := iter;
          if valueType == TypeDeletion {
            savedKey, savedValue := None, [];
          } else {
            savedKey, savedValue := Some(e.user), e.value;
          }
        }
        IterPrev();
      }
      if valueType == TypeDeletion {
        valid, savedKey, savedValue, direction := false, None, [], Forward;
        found := -1;
      } else {
        valid := true;
      }
    }

    /** Back over all entries of the current key, to the one before them if there is any. */
    method TurnBack()
      requires Inv() && valid && direction == Forward
      modifies this`iter, this`savedKey
      ensures savedKey == Some(entries[Shown()[at]].user) && -1 <= iter < Shown()[at]
      ensures iter >= 0 ==> entries[iter].user < savedKey.value
      ensures forall j :: iter < j <= Shown()[at] ==> entries[j].user == savedKey.value
    {
      ghost var c := Shown()[at];
      savedKey := Some(entries[iter].user);
      assert forall j :: 0 <= j < c ==> Before(entries[j], entries[c]);
      while true
        invariant 0 <= iter <= c && savedKey == Some(entries[c].user)
        invariant forall j :: iter <= j <= c ==> entries[j].user == entries[c].user
        decreases iter
      {
        IterPrev();
        if iter < 0 || entries[iter].user < savedKey.value {
          break;
        }
      }
    }

    method Prev()
      requires Inv() && valid
      modifies this
      ensures Inv()
      ensures at == old(at) - 1
    {
      ghost var a, c := at, Shown()[at];
      hide View;
      if direction == Forward {
        TurnBack();
        if iter < 0 {
          PrevInView(entries, sequence, a, -1);
          valid, savedKey, savedValue, at := false, None, [], -1;
          return;
        }
        direction := Reverse;
      }
      ghost var found := FindPrevUserEntry(c);
      PrevInView(entries, sequence, a, found);
      at := if valid then a - 1 else -1;
    }

    method SeekToLast()
      requires Inv()
      modifies this
      ensures Inv()
      ensures at == |Shown()| - 1
    {
      direction, savedValue := Reverse, [];
      iter := |entries| - 1;
      ghost var found := FindPrevUserEntry(|entries|);
      PrevInView(entries, sequence, |Shown()|, found);
      at := if valid then |Shown()| - 1 else -1;
    }
  }

  // ----- every run looks like a cursor over a sorted map -----

  ghost function Clean(entries: seq<Entry>, snapshot: nat): seq<KeyValue> {
    var view := View(entries, snapshot, |entries|);
    seq(|view|, a requires 0 <= a < |view| =>
      if view[a] < |entries| then KeyValue(entries[view[a]].user, entries[view[a]].value) else KeyValue(0.0, []))
  }

  /** The cells are the sorted map of keys visible at the snapshot: their keys strictly ascend, and key k
      has value v in them exactly when the specification reads v. */
  lemma CleanIsSnapshotMap(entries: seq<Entry>, snapshot: nat)
    requires Sorted(entries)
    ensures var cells := Clean(entries, snapshot);
            && (forall a, b :: 0 <= a < b < |cells| ==> cells[a].key < cells[b].key)
            && (forall k, v :: Read(Elements(entries), k, snapshot) == Some(v) <==> KeyValue(k, v) in cells)
  {
    var view, cells := View(entries, snapshot, |entries|), Clean(entries, snapshot);
    ViewIsExact(entries, snapshot, |entries|);
    forall k, v ensures Read(Elements(entries), k, snapshot) == Some(v) <==> KeyValue(k, v) in cells {
      if KeyValue(k, v) in cells {
        var a :| 0 <= a < |cells| && cells[a] == KeyValue(k, v);
        YieldIsRead(entries, snapshot, view[a]);
      }
      if Read(Elements(entries), k, snapshot) == Some(v) {
        var i := ReadIsYield(entries, k, snapshot, v);
        var a :| 0 <= a < |view| && view[a] == i;
        assert cells[a] == KeyValue(k, v);
      }
    }
    forall a, b | 0 <= a < b < |cells| ensures cells[a].key < cells[b].key {
      assert Yield(entries, snapshot, view[a]) && Yield(entries, snapshot, view[b]);
      assert Before(entries[view[a]], entries[view[b]]);
    }
  }

  datatype Op = SeekOp(target: UserKey) | SeekToFirstOp | SeekToLastOp | NextOp | PrevOp

  ghost function FirstAtLeast(cells: seq<KeyValue>, target: UserKey, from: nat): (r: int)
    requires from <= |cells|
    ensures -1 <= r < |cells|
    decreases |cells| - from
  {
    if from == |cells| then -1
    else if cells[from].key >= target then from
    else FirstAtLeast(cells, target, from + 1)
  }

  /** A plain cursor over a list of cells; -1 is the invalid position, where Next and Prev may not be
      called. */
  ghost function CursorStep(cells: seq<KeyValue>, at: int, op: Op): (r: int)
    requires -1 <= at < |cells|
    requires op.NextOp? || op.PrevOp? ==> at >= 0
    ensures -1 <= r < |cells|
  {
    match op
    case SeekOp(target) => FirstAtLeast(cells, target, 0)
    case SeekToFirstOp => if |cells| > 0 then 0 else -1
    case SeekToLastOp => |cells| - 1
    case NextOp => if at + 1 < |cells| then at + 1 else -1
    case PrevOp => at - 1
  }

  lemma {:induction false} FirstAtLeastIs(cells: seq<KeyValue>, target: UserKey, from: nat, at: int)
    requires from <= |cells| && (at == -1 || from <= at < |cells|)
    requires at >= 0 ==> cells[at].key >= target
    requires forall a :: from <= a < (if at >= 0 then at else |cells|) ==> cells[a].key < target
    ensures FirstAtLeast(cells, target, from) == at
    decreases |cells| - from
  {
    if from < |cells| && cells[from].key < target {
      FirstAtLeastIs(cells, target, from + 1, at);
    }
  }

  method Apply(it: DBIter, op: Op)
    requires it.Inv() && it.sequence <= MAX_SEQUENCE
    requires op.NextOp? || op.PrevOp? ==> it.valid
    modifies it
    ensures it.Inv()
    ensures it.at == CursorStep(Clean(it.entries, it.sequence), old(it.at), op)
  {
    match op
    case SeekOp(target) =>
      it.Seek(target);
      FirstAtLeastIs(Clean(it.entries, it.sequence), target, 0, it.at);
    case SeekToFirstOp => it.SeekToFirst();
    case SeekToLastOp => it.SeekToLast();
    case NextOp => it.Next();
    case PrevOp => it.Prev();
  }

  /** One call and what the client observes after it: invalid, or the current key and value. A call
      that is not permitted at an invalid iterator is left out of the run. */
  ghost function CursorCall(cells: seq<KeyValue>, at: int, op: Op): (r: (int, seq<Option<KeyValue>>))
    requires -1 <= at < |cells|
    ensures -1 <= r.0 < |cells|
  {
    if (op.NextOp? || op.PrevOp?) && at < 0 then (at, [])
    else
      var next := CursorStep(cells, at, op);
      (next, [if next >= 0 then Some(cells[next]) else None])
  }

  ghost function CursorRun(cells: seq<KeyValue>, at: int, ops: seq<Op>): seq<Option<KeyValue>>
    requires -1 <= at < |cells|
    decreases |ops|
  {
    if ops == [] then []
    else
      var (next, seen) := CursorCall(cells, at, ops[0]);
      seen + CursorRun(cells, next, ops[1..])
  }

  lemma RunOneCall(cells: seq<KeyValue>, at: int, ops: seq<Op>, i: nat, seen: seq<Option<KeyValue>>)
    requires -1 <= at < |cells| && i < |ops|
    ensures var (next, one) := CursorCall(cells, at, ops[i]);
            seen + CursorRun(cells, at, ops[i..]) == seen + one + CursorRun(cells, next, ops[i + 1..])
  {
    assert ops[i..][0] == ops[i] && ops[i..][1..] == ops[i + 1..];
  }

  method Call(it: DBIter, op: Op) returns (seen: seq<Option<KeyValue>>)
    requires it.Inv() && it.sequence <= MAX_SEQUENCE
    modifies it
    ensures it.Inv()
    ensures (it.at, seen) == CursorCall(Clean(it.entries, it.sequence), old(it.at), op)
  {
    if (op.NextOp? || op.PrevOp?) && !it.valid {
      return [];
    }
    Apply(it, op);
    if it.valid {
      var k := it.Key();
      var v := it.Value();
      seen := [Some(KeyValue(k, v))];
    } else {
      seen := [None];
    }
  }

  method Run(entries: seq<Entry>, snapshot: nat, ops: seq<Op>) returns (observed: seq<Option<KeyValue>>)
    requires Sorted(entries) && snapshot <= MAX_SEQUENCE
    ensures observed == CursorRun(Clean(entries, snapshot), -1, ops)
  {
    var it := new DBIter(entries, snapshot);
    ghost var cells := Clean(entries, snapshot);
    observed := [];
    var i := 0;
    while i < |ops|
      invariant 0 <= i <= |ops| && it.Inv() && it.entries == entries && it.sequence == snapshot && fresh(it)
      invariant -1 <= it.at < |cells|
      invariant observed + CursorRun(cells, it.at, ops[i..]) == CursorRun(cells, -1, ops)
    {
      RunOneCall(cells, it.at, ops, i, observed);
      var seen := Call(it, ops[i]);
      observed := observed + seen;
      i := i + 1;
    }
  }
}
