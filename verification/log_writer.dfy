/** log::Writer of db/log_writer.cc, on a file whose appends may fail. */
module LogWriter {
  import opened Wrappers
  import opened Coding
  import opened LogFormat

  // ----- an append-only file -----

  /** How many more bytes the file takes before an append fails; None if none will. An append that fails
      leaves as much as there was room for. */
  type Room = Option<nat>

  predicate Takes(room: Room, n: nat) {
    room.None? || n <= room.value
  }

  function Left(room: Room, n: nat): Room {
    if room.None? then None else Some(if n <= room.value then room.value - n else 0)
  }

  function Taken(room: Room, data: bytes): (r: bytes)
    ensures r <= data && (Takes(room, |data|) ==> r == data)
  {
    if Takes(room, |data|) then data else data[..room.value]
  }

  lemma TakenTwice(room: Room, a: bytes, b: bytes)
    ensures Taken(room, a + b) == Taken(room, a) + Taken(Left(room, |a|), b)
    ensures Left(room, |a + b|) == Left(Left(room, |a|), |b|)
    ensures Takes(room, |a + b|) <==> Takes(room, |a|) && Takes(Left(room, |a|), |b|)
  {
    if room.Some? && |a| <= room.value < |a + b| {
      assert (a + b)[..room.value] == a + b[..room.value - |a|];
    } else if room.Some? && room.value < |a| {
      assert (a + b)[..room.value] == a[..room.value];
    }
  }

  /** Where the writer takes the end of the file to be after a record: behind it, or behind the fragment
      that failed. */
  function Believed(room: Room, p: nat, data: bytes): nat
    decreases |data|, Avail(p) == 0
  {
    var (n, after) := (FragmentLength(p, data), AfterFragment(p, data));
    if n == |data| || !Takes(room, after - p) then after
    else
      Progress(p, data);
      Believed(Left(room, after - p), after, data[n..])
  }

  /** Without a failure that is where it is. */
  lemma {:induction false} BelievedRight(crc: Crc, room: Room, p: nat, begin: bool, data: bytes)
    requires Takes(room, |Fragments(crc, p, begin, data)|)
    ensures Believed(room, p, data) == p + |Fragments(crc, p, begin, data)|
    decreases |data|, Avail(p) == 0
  {
    var (n, after) := (FragmentLength(p, data), AfterFragment(p, data));
    if n < |data| {
      Progress(p, data);
      BelievedRight(crc, Left(room, after - p), after, false, data[n..]);
    }
  }

  class Writer {
    const crc: Crc
    var dest: bytes
    var room: Room
    var blockOffset: nat
    ghost var end: nat  // where the writer takes the end of the file to be

    /** block_offset_ is that position modulo the block size, except that a full block may also be noted
        as such. */
    ghost predicate Valid()
      reads this
    {
      || blockOffset == end % BLOCK_SIZE
      || (blockOffset == BLOCK_SIZE && end % BLOCK_SIZE == 0)
    }

    constructor (crc: Crc)
      ensures Valid() && dest == [] && end == 0 && room == None && this.crc == crc
    {
      this.crc := crc;
      dest, room, blockOffset, end := [], None, 0, 0;
    }

    /** The constructor that reopens a log of known length. */
    constructor Reopen(crc: Crc, dest: bytes, room: Room)
      ensures Valid() && this.dest == dest && end == |dest| && this.room == room && this.crc == crc
    {
      this.crc := crc;
      this.dest := dest;
      this.room := room;
      blockOffset, end := |dest| % BLOCK_SIZE, |dest|;
    }

    /** WritableFile::Append. */
    method Append(data: bytes) returns (ok: bool)
      modifies this`dest, this`room
      ensures ok <==> Takes(old(room), |data|)
      ensures dest == old(dest) + Taken(old(room), data) && room == Left(old(room), |data|)
    {
      ok := room.None? || |data| <= room.value;
      var n := if ok then |data| else room.value;
      dest := dest + data[..n];
      if room.Some? {
        room := Some(room.value - n);
      }
    }

    /** Fills a block that has no room for another header. Whether that append fails is not looked at. */
    method SwitchBlock()
      requires Valid()
      modifies this
      ensures Valid() && end == old(end) + Padding(old(end))
      ensures blockOffset == end % BLOCK_SIZE && blockOffset + HEADER_SIZE <= BLOCK_SIZE
      ensures dest == old(dest) + Taken(old(room), Zeros(Padding(old(end))))
      ensures room == Left(old(room), Padding(old(end)))
    {
      var leftover := BLOCK_SIZE - blockOffset;
      if leftover < HEADER_SIZE {
        if leftover > 0 {
          assert [0, 0, 0, 0, 0, 0][..leftover] == Zeros(Padding(end));
          var ignored := Append([0, 0, 0, 0, 0, 0][..leftover]);
        }
        blockOffset := 0;
      }
      end := end + Padding(end);
    }

    /** The header and then, if that was taken, the payload; block_offset_ moves on in any case. */
    method EmitPhysicalRecord(t: byte, payload: bytes) returns (ok: bool)
      requires blockOffset == end % BLOCK_SIZE && blockOffset + HEADER_SIZE + |payload| <= BLOCK_SIZE
      modifies this
      ensures Valid() && end == old(end) + HEADER_SIZE + |payload|
      ensures ok <==> Takes(old(room), HEADER_SIZE + |payload|)
      ensures dest == old(dest) + Taken(old(room), Physical(crc, t, payload))
      ensures room == Left(old(room), HEADER_SIZE + |payload|)
    {
      var header := Header(crc, t, payload);
      TakenTwice(room, header, payload);
      AppendTwice(dest, Taken(room, header), Taken(Left(room, |header|), payload));
      ok := Append(header);
      if ok {
        ok := Append(payload);
      }
      WithinBlock(end, HEADER_SIZE + |payload|, end + HEADER_SIZE + |payload|);
      blockOffset := blockOffset + HEADER_SIZE + |payload|;
      end := end + HEADER_SIZE + |payload|;
      assert Valid();
    }

    /** One turn of AddRecord's loop. */
    method AddFragment(begin: bool, left: bytes) returns (fragmentLength: nat, ok: bool)
      requires Valid()
      modifies this
      ensures Valid() && fragmentLength == FragmentLength(old(end), left) && end == AfterFragment(old(end), left)
      ensures ok <==> Takes(old(room), |Fragment(crc, old(end), begin, left)|)
      ensures dest == old(dest) + Taken(old(room), Fragment(crc, old(end), begin, left))
      ensures room == Left(old(room), |Fragment(crc, old(end), begin, left)|)
    {
      SwitchBlock();
      ghost var p := old(end);
      assert Avail(p) == BLOCK_SIZE - blockOffset - HEADER_SIZE;
      var avail := BLOCK_SIZE - blockOffset - HEADER_SIZE;
      fragmentLength := if |left| < avail then |left| else avail;
      var lastOne := |left| == fragmentLength;
      var t := if begin && lastOne then FULL_TYPE
               else if begin then FIRST_TYPE
               else if lastOne then LAST_TYPE
               else MIDDLE_TYPE;
      ghost var (zeros, record) := (Zeros(Padding(p)), Physical(crc, t, left[..fragmentLength]));
      TakenTwice(old(room), zeros, record);
      AppendTwice(old(dest), Taken(old(room), zeros), Taken(Left(old(room), |zeros|), record));
      hide Takes, Taken, Left;
      ok := EmitPhysicalRecord(t, left[..fragmentLength]);
      assert ok ==> Takes(old(room), |zeros|);
    }

    /** Appends the fragments of the record, wherever the writer takes the file to end: all of them, or as
        much as there is room for, and then it says so. In particular a reopened writer continues byte for
        byte as one that was never closed. */
    method AddRecord(record: bytes) returns (ok: bool)
      requires Valid()
      modifies this
      ensures Valid() && end == Believed(old(room), old(end), record)
      ensures ok <==> Takes(old(room), |Fragments(crc, old(end), true, record)|)
      ensures dest == old(dest) + Taken(old(room), Fragments(crc, old(end), true, record))
      ensures room == Left(old(room), |Fragments(crc, old(end), true, record)|)
    {
      var left := record;
      var begin := true;
      while true
        invariant Valid()
        invariant ComesTo(old(room), old(dest), old(end), record, begin, left)
        decreases |left|, Avail(end) == 0
      {
        Unfold(crc, room, dest, end, begin, left);
        var fragmentLength;
        fragmentLength, ok := AddFragment(begin, left);
        if !ok || fragmentLength == |left| {
          break;
        }
        left := left[fragmentLength..];
        begin := false;
      }
    }
    /** With what is left to write, it all comes to the same. */
    ghost predicate ComesTo(room0: Room, dest0: bytes, end0: nat, record: bytes, begin: bool, left: bytes)
      reads this
    {
      var (all, rest) := (Fragments(crc, end0, true, record), Fragments(crc, end, begin, left));
      && dest + Taken(room, rest) == dest0 + Taken(room0, all)
      && Left(room, |rest|) == Left(room0, |all|)
      && (Takes(room, |rest|) <==> Takes(room0, |all|))
      && Believed(room, end, left) == Believed(room0, end0, record)
    }
  }

  /** One fragment, and what follows it. */
  lemma Unfold(crc: Crc, room: Room, dest: bytes, p: nat, begin: bool, data: bytes)
    ensures var (n, after) := (FragmentLength(p, data), AfterFragment(p, data));
            var (frag, all) := (Fragment(crc, p, begin, data), Fragments(crc, p, begin, data));
            && (n == |data| || !Takes(room, |frag|) ==>
                  && Taken(room, all) == Taken(room, frag) && Left(room, |all|) == Left(room, |frag|)
                  && (Takes(room, |all|) <==> Takes(room, |frag|)) && Believed(room, p, data) == after)
            && (n < |data| && Takes(room, |frag|) ==>
                  var (room', rest) := (Left(room, |frag|), Fragments(crc, after, false, data[n..]));
                  && dest + Taken(room, all) == dest + Taken(room, frag) + Taken(room', rest)
                  && Left(room, |all|) == Left(room', |rest|)
                  && (Takes(room, |all|) <==> Takes(room', |rest|))
                  && Believed(room, p, data) == Believed(room', after, data[n..])
                  && (n == 0 ==> Avail(p) == 0 && Avail(after) > 0))
  {
    var (n, after) := (FragmentLength(p, data), AfterFragment(p, data));
    var frag := Fragment(crc, p, begin, data);
    if n < |data| {
      Progress(p, data);
      var rest := Fragments(crc, after, false, data[n..]);
      TakenTwice(room, frag, rest);
      AppendTwice(dest, Taken(room, frag), Taken(Left(room, |frag|), rest));
    }
  }

  lemma AppendTwice(a: bytes, b: bytes, c: bytes)
    ensures a + b + c == a + (b + c)
  {
  }

  /** Writes records, closing and reopening the file before each one for which 'reopen' says so, up to the
      first append that fails. The bytes do not depend on when that happens: the log, or as much of it as
      there is room for. */
  method WriteLog(crc: Crc, records: seq<bytes>, reopen: seq<bool>, room: Room) returns (file: bytes, ok: bool)
    requires |reopen| == |records|
    ensures file == Taken(room, LogOf(crc, records)) && (ok <==> Takes(room, |LogOf(crc, records)|))
  {
    hide Takes, Taken, Left, Believed, Fragments;
    var writer := new Writer(crc);
    writer.room := room;
    NothingTaken(room);
    for i := 0 to |records|
      invariant writer.Valid() && fresh(writer) && writer.crc == crc
      invariant writer.dest == LogOf(crc, records[..i]) && writer.end == |writer.dest|
      invariant writer.room == Left(room, |LogOf(crc, records[..i])|) && Takes(room, |LogOf(crc, records[..i])|)
    {
      if reopen[i] {
        writer := new Writer.Reopen(crc, writer.dest, writer.room);
      }
      RecordTaken(crc, room, records, i);
      ok := writer.AddRecord(records[i]);
      if !ok {
        return writer.dest, false;
      }
    }
    assert records[..|records|] == records;
    AllTaken(room, writer.dest);
    return writer.dest, true;
  }

  lemma NothingTaken(room: Room)
    ensures Left(room, 0) == room && Takes(room, 0)
  {
  }

  lemma AllTaken(room: Room, data: bytes)
    requires Takes(room, |data|)
    ensures Taken(room, data) == data
  {
  }

  /** The next record of a log, when there is room for those before it. */
  lemma RecordTaken(crc: Crc, room: Room, records: seq<bytes>, i: nat)
    requires i < |records| && Takes(room, |LogOf(crc, records[..i])|)
    ensures var (before, after) := (LogOf(crc, records[..i]), LogOf(crc, records[..i + 1]));
            var f := Fragments(crc, |before|, true, records[i]);
            var left := Left(room, |before|);
            && (Takes(left, |f|) ==>
                  && before + Taken(left, f) == after && Takes(room, |after|) && Left(left, |f|) == Left(room, |after|)
                  && Believed(left, |before|, records[i]) == |after|)
            && (!Takes(left, |f|) ==>
                  && before + Taken(left, f) == Taken(room, LogOf(crc, records))
                  && !Takes(room, |LogOf(crc, records)|))
  {
    hide Takes, Taken, Left, Believed, Fragments;
    var (before, f) := (LogOf(crc, records[..i]), PutRecord(crc)(|LogOf(crc, records[..i])|, records[i]));
    LayoutExtend(PutRecord(crc), records, i);
    TakenTwice(room, before, f);
    AllTaken(room, before);
    var left := Left(room, |before|);
    if Takes(left, |f|) {
      BelievedRight(crc, left, |before|, true, records[i]);
      AllTaken(left, f);
    } else {
      assert records == records[..i + 1] + records[i + 1..];
      LayoutAppend(PutRecord(crc), 0, records[..i + 1], records[i + 1..]);
      FullStaysFull(room, before + f, Layout(PutRecord(crc), |before + f|, records[i + 1..]));
    }
  }

  lemma FullStaysFull(room: Room, a: bytes, b: bytes)
    requires !Takes(room, |a|)
    ensures Taken(room, a + b) == Taken(room, a) && !Takes(room, |a + b|)
  {
    assert (a + b)[..room.value] == a[..room.value];
  }
}
