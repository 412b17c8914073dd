/** log::Reader of db/log_reader.cc, reading from offset 0 with checksums on. 'drops' counts the calls to
    the corruption reporter. */
module LogReader {
  import opened Wrappers
  import opened Coding
  import opened LogFormat

  // What ReadPhysicalRecord returns besides a record's own type byte.
  const EOF_CODE: nat := 5
  const BAD_RECORD: nat := 6

  /** The reader's members: the unread part of the last block read, the offset of its end in the file,
      whether the last read was short, and the corruption reports so far. */
  datatype State = State(buffer: bytes, end: nat, eof: bool, drops: nat)

  const START := State([], 0, false, 0)

  // ----- what each call computes, on any file -----

  /** Reading the next block of the file into the buffer. */
  function Refill(file: bytes, st: State): State
    requires st.end <= |file|
  {
    var n := if |file| - st.end < BLOCK_SIZE then |file| - st.end else BLOCK_SIZE;
    st.(buffer := file[st.end..st.end + n], end := st.end + n, eof := n < BLOCK_SIZE)
  }

  function Filled(file: bytes, st: State): State
    requires st.end <= |file|
  {
    if |st.buffer| < HEADER_SIZE && !st.eof then Refill(file, st) else st
  }

  datatype PhysicalResult = PhysicalRead(code: nat, fragment: bytes, st: State)

  /** Taking one physical record off a buffer that holds at least a header. */
  function TakeRecord(crc: Crc, st: State): (r: PhysicalResult)
    requires |st.buffer| >= HEADER_SIZE
    ensures r.st.end == st.end && |r.st.buffer| + HEADER_SIZE <= |st.buffer|
  {
    var b := st.buffer;
    var length := b[4] + 256 * (b[5] as int);
    if HEADER_SIZE + length > |b| then
      if st.eof then PhysicalRead(EOF_CODE, [], st.(buffer := []))
      else PhysicalRead(BAD_RECORD, [], st.(buffer := [], drops := st.drops + 1))
    else if b[6] == 0 && length == 0 then
      PhysicalRead(BAD_RECORD, [], st.(buffer := []))
    else if crc.Value(b[6..HEADER_SIZE + length]) != Unmask(DecodeFixed32(b[..4])) then
      PhysicalRead(BAD_RECORD, [], st.(buffer := [], drops := st.drops + 1))
    else
      PhysicalRead(b[6], b[HEADER_SIZE..HEADER_SIZE + length], st.(buffer := b[HEADER_SIZE + length..]))
  }

  function ReadPhysical(crc: Crc, file: bytes, st: State): (r: PhysicalResult)
    requires st.end <= |file|
    ensures r.st.end <= |file|
    ensures r.code != EOF_CODE ==> Unread(file, r.st) < Unread(file, st)
  {
    var st' := Filled(file, st);
    if |st'.buffer| < HEADER_SIZE then PhysicalRead(EOF_CODE, [], st'.(buffer := []))
    else TakeRecord(crc, st')
  }

  function Unread(file: bytes, st: State): nat
    requires st.end <= |file|
  {
    |file| - st.end + |st.buffer|
  }

  /** One turn of ReadRecord's loop ends the call, or goes on with new values of its locals scratch and
      in_fragmented_record. */
  datatype Turn = Return(record: Option<bytes>, st: State) | Again(st: State, scratch: bytes, inFragment: bool)

  function Report(st: State, when: bool): State {
    if when then st.(drops := st.drops + 1) else st
  }

  function HandleRecord(code: nat, fragment: bytes, st: State, scratch: bytes, inFragment: bool): (r: Turn)
    ensures r.st.end == st.end && r.st.buffer == st.buffer
    ensures r.Return? && r.record.Some? ==> code != EOF_CODE
    ensures r.Again? ==> code != EOF_CODE
  {
    if code == FULL_TYPE as nat then Return(Some(fragment), Report(st, inFragment && scratch != []))
    else if code == FIRST_TYPE as nat then Again(Report(st, inFragment && scratch != []), fragment, true)
    else if code == MIDDLE_TYPE as nat then
      Again(Report(st, !inFragment), if inFragment then scratch + fragment else scratch, inFragment)
    else if code == LAST_TYPE as nat then
      if inFragment then Return(Some(scratch + fragment), st) else Again(Report(st, true), scratch, false)
    else if code == EOF_CODE then Return(None, st)
    else if code == BAD_RECORD then Again(Report(st, inFragment), if inFragment then [] else scratch, false)
    else Again(Report(st, true), [], false)
  }

  function ReadLogical(crc: Crc, file: bytes, st: State, scratch: bytes, inFragment: bool): (r: (Option<bytes>, State))
    requires st.end <= |file|
    ensures r.1.end <= |file|
    ensures r.0.Some? ==> Unread(file, r.1) < Unread(file, st)
    decreases Unread(file, st)
  {
    var read := ReadPhysical(crc, file, st);
    match HandleRecord(read.code, read.fragment, read.st, scratch, inFragment)
    case Return(record, st') => (record, st')
    case Again(st', scratch', inFragment') => ReadLogical(crc, file, st', scratch', inFragment')
  }

  /** Reading records until ReadRecord returns false. */
  function ReadAll(crc: Crc, file: bytes, st: State): (r: (seq<bytes>, State))
    requires st.end <= |file|
    ensures r.1.end <= |file|
    decreases Unread(file, st)
  {
    var (record, st') := ReadLogical(crc, file, st, [], false);
    if record.None? then ([], st')
    else
      var (more, last) := ReadAll(crc, file, st');
      ([record.value] + more, last)
  }

  // ----- the reader -----

  class Reader {
    const crc: Crc
    const file: bytes
    var position: nat  // of the sequential file
    var buffer: bytes
    var eof: bool
    var endOfBufferOffset: nat
    var drops: nat

    ghost predicate Valid()
      reads this
    {
      position == endOfBufferOffset <= |file|
    }

    ghost function View(): State
      reads this
    {
      State(buffer, endOfBufferOffset, eof, drops)
    }

    constructor (crc: Crc, file: bytes)
      ensures Valid() && this.file == file && this.crc == crc && View() == START
    {
      this.crc := crc;
      this.file := file;
      position, buffer, eof, endOfBufferOffset, drops := 0, [], false, 0, 0;
    }

    method ReadFile(n: nat) returns (data: bytes)
      requires position <= |file|
      modifies this`position
      ensures position <= |file| && old(position) <= position && data == file[old(position)..position]
      ensures position == if |file| - old(position) < n then |file| else old(position) + n
    {
      var end := if |file| - position < n then |file| else position + n;
      data := file[position..end];
      position := end;
    }

    /** Reads the next block when less than a header is left, unless the last read was short. */
    method FillBuffer()
      requires Valid()
      modifies this
      ensures Valid() && View() == Filled(file, old(View()))
    {
      while |buffer| < HEADER_SIZE && !eof
        invariant Valid()
        invariant View() == old(View()) || (View() == Filled(file, old(View())) && (|buffer| == BLOCK_SIZE || eof))
        decreases |buffer| < HEADER_SIZE, !eof
      {
        buffer := ReadFile(BLOCK_SIZE);
        endOfBufferOffset := endOfBufferOffset + |buffer|;
        if |buffer| < BLOCK_SIZE {
          eof := true;
        }
      }
    }

    method TakeFromBuffer() returns (code: nat, fragment: bytes)
      requires Valid() && |buffer| >= HEADER_SIZE
      modifies this
      ensures Valid() && PhysicalRead(code, fragment, View()) == TakeRecord(crc, old(View()))
    {
      hide Unmask, DecodeFixed32;
      var header := buffer[..HEADER_SIZE];
      var length := header[4] + 256 * (header[5] as int);
      if HEADER_SIZE + length > |buffer| {
        buffer := [];
        if !eof {
          drops := drops + 1;
          return BAD_RECORD, [];
        }
        return EOF_CODE, [];
      }
      if header[6] == 0 && length == 0 {
        buffer := [];
        return BAD_RECORD, [];
      }
      assert header[..4] == buffer[..4];
      var expectedCrc := Unmask(DecodeFixed32(header[..4]));
      var actualCrc := crc.Value(buffer[6..HEADER_SIZE + length]);
      if actualCrc != expectedCrc {
        buffer := [];
        drops := drops + 1;
        return BAD_RECORD, [];
      }
      fragment := buffer[HEADER_SIZE..HEADER_SIZE + length];
      code := header[6];
      buffer := buffer[HEADER_SIZE + length..];
    }

    method ReadPhysicalRecord() returns (code: nat, fragment: bytes)
      requires Valid()
      modifies this
      ensures Valid() && PhysicalRead(code, fragment, View()) == ReadPhysical(crc, file, old(View()))
    {
      FillBuffer();
      if |buffer| < HEADER_SIZE {
        buffer := [];
        return EOF_CODE, [];
      }
      code, fragment := TakeFromBuffer();
    }

    /** The switch on the record type; 'record' is what the call returns if 'ended'. */
    method Handle(code: nat, fragment: bytes, scratch0: bytes, inFragment0: bool)
      returns (ended: bool, record: Option<bytes>, scratch: bytes, inFragment: bool)
      requires Valid()
      modifies this`drops
      ensures Valid()
      ensures HandleRecord(code, fragment, old(View()), scratch0, inFragment0)
           == if ended then Return(record, View()) else Again(View(), scratch, inFragment)
    {
      ended, record, scratch, inFragment := false, None, scratch0, inFragment0;
      if code == FULL_TYPE as nat {
        if inFragment && scratch != [] {
          drops := drops + 1;
        }
        ended, record := true, Some(fragment);
      } else if code == FIRST_TYPE as nat {
        if inFragment && scratch != [] {
          drops := drops + 1;
        }
        scratch, inFragment := fragment, true;
      } else if code == MIDDLE_TYPE as nat {
        if !inFragment {
          drops := drops + 1;
        } else {
          scratch := scratch + fragment;
        }
      } else if code == LAST_TYPE as nat {
        if !inFragment {
          drops := drops + 1;
        } else {
          ended, record := true, Some(scratch + fragment);
        }
      } else if code == EOF_CODE {
        ended := true;
      } else if code == BAD_RECORD {
        if inFragment {
          drops, inFragment, scratch := drops + 1, false, [];
        }
      } else {
        drops, inFragment, scratch := drops + 1, false, [];
      }
    }

    method ReadRecord() returns (record: Option<bytes>)
      requires Valid()
      modifies this
      ensures Valid() && (record, View()) == ReadLogical(crc, file, old(View()), [], false)
    {
      var scratch: bytes := [];
      var inFragmentedRecord := false;
      while true
        invariant Valid()
        invariant ReadLogical(crc, file, View(), scratch, inFragmentedRecord)
               == ReadLogical(crc, file, old(View()), [], false)
        decreases Unread(file, View())
      {
        var code, fragment := ReadPhysicalRecord();
        var ended;
        ended, record, scratch, inFragmentedRecord := Handle(code, fragment, scratch, inFragmentedRecord);
        if ended {
          return;
        }
      }
    }
  }

  lemma ReadAllStep(crc: Crc, file: bytes, st: State, records: seq<bytes>)
    requires st.end <= |file|
    ensures var (record, st') := ReadLogical(crc, file, st, [], false);
            && (record.None? ==> ReadAll(crc, file, st) == ([], st'))
            && (record.Some? ==>
                  && records + ReadAll(crc, file, st).0 == records + [record.value] + ReadAll(crc, file, st').0
                  && ReadAll(crc, file, st).1 == ReadAll(crc, file, st').1)
  {
    var (record, st') := ReadLogical(crc, file, st, [], false);
    if record.Some? {
      assert records + ([record.value] + ReadAll(crc, file, st').0)
          == records + [record.value] + ReadAll(crc, file, st').0;
    }
  }

  method ReadLog(crc: Crc, file: bytes) returns (records: seq<bytes>, drops: nat)
    ensures records == ReadAll(crc, file, START).0 && drops == ReadAll(crc, file, START).1.drops
  {
    var reader := new Reader(crc, file);
    records := [];
    while true
      invariant reader.Valid() && fresh(reader) && reader.file == file && reader.crc == crc
      invariant records + ReadAll(crc, file, reader.View()).0 == ReadAll(crc, file, START).0
      invariant ReadAll(crc, file, reader.View()).1 == ReadAll(crc, file, START).1
      decreases Unread(file, reader.View())
    {
      ReadAllStep(crc, file, reader.View(), records);
      var record := reader.ReadRecord();
      if record.None? {
        break;
      }
      records := records + [record.value];
    }
    drops := reader.drops;
  }
}
