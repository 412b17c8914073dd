/** The field iterator of nanopb's pb_common.c, over a descriptor array as the macros of pb.h lay it out.
    Addresses are integers. */
module PbFieldIter {

  const SIZE_MAX: nat := 0xffff_ffff  // of a 32-bit pb_size_t
  const ADDRESS_SIZE: nat := 8

  datatype HType = Required | Optional | Repeated | Oneof
  datatype AType = Static | Pointer | Callback

  /** pb_field_t. The tag 0 marks the end of the array. */
  datatype Descriptor = Descriptor(
    tag: nat, extension: bool, htype: HType, atype: AType,
    dataOffset: nat, sizeOffset: int, dataSize: nat, arraySize: nat)

  /** sizeof the struct member. */
  function MemberSize(f: Descriptor): nat {
    if f.atype.Static? && f.htype.Repeated? then f.dataSize * f.arraySize
    else if f.atype.Pointer? then ADDRESS_SIZE
    else f.dataSize
  }

  ghost predicate Terminated(fields: seq<Descriptor>) {
    && |fields| >= 1 && fields[|fields| - 1].tag == 0
    && (forall i :: 0 <= i < |fields| - 1 ==> fields[i].tag != 0)
  }

  /** A later member of the same union: the macro for unions was used for it. */
  predicate SharesUnion(previous: Descriptor, f: Descriptor) {
    previous.htype.Oneof? && f.htype.Oneof? && f.dataOffset == SIZE_MAX
  }

  /** What the macros make of a struct whose members are at these offsets: the first offset as it is, the
      others relative to the end of the member before; members of one union are at the same place. */
  ghost predicate Describes(fields: seq<Descriptor>, offsets: seq<nat>) {
    && Terminated(fields) && |offsets| == |fields| - 1
    && (|offsets| > 0 ==> fields[0].dataOffset == offsets[0])
    && (forall i :: 0 < i < |offsets| ==> FollowsOn(fields[i - 1], fields[i], offsets[i - 1], offsets[i]))
  }

  predicate FollowsOn(previous: Descriptor, f: Descriptor, before: nat, offset: nat) {
    if SharesUnion(previous, f) then offset == before && f.sizeOffset == previous.sizeOffset
    else f.dataOffset == offset - before - MemberSize(previous)
  }

  function RequiredIn(fields: seq<Descriptor>): nat {
    if fields == [] then 0
    else RequiredIn(fields[..|fields| - 1]) + if fields[|fields| - 1].htype.Required? then 1 else 0
  }

  predicate Matches(f: Descriptor, tag: nat) {
    f.tag == tag && !f.extension
  }

  class FieldIter {
    const fields: seq<Descriptor>
    const destStruct: int
    ghost const offsets: seq<nat>
    var pos: nat
    var requiredFieldIndex: nat
    var pData: int
    var pSize: int

    /** At every position: the address is the struct's plus the member's true offset, and the required
        fields before it have been counted. */
    ghost predicate Valid()
      reads this
    {
      && Describes(fields, offsets)
      && (if |fields| == 1 then pos == 0 && requiredFieldIndex == 0 else pos < |fields| - 1 && Faithful())
    }

    ghost predicate Faithful()
      requires Describes(fields, offsets) && pos < |fields| - 1
      reads this
    {
      && pData == destStruct + offsets[pos]
      && pSize == pData + fields[pos].sizeOffset
      && requiredFieldIndex == RequiredIn(fields[..pos])
    }

    constructor (fields: seq<Descriptor>, destStruct: int, ghost offsets: seq<nat>)
      requires Describes(fields, offsets)
      ensures Valid() && pos == 0 && this.fields == fields && this.destStruct == destStruct && this.offsets == offsets
    {
      this.fields, this.destStruct, this.offsets := fields, destStruct, offsets;
      pos, requiredFieldIndex := 0, 0;
      pData := destStruct + fields[0].dataOffset;
      pSize := destStruct + fields[0].dataOffset + fields[0].sizeOffset;
    }

    /** pb_field_iter_begin, on the iterator's own array. */
    method Begin() returns (ok: bool)
      requires Describes(fields, offsets)
      modifies this
      ensures Valid() && pos == 0 && ok == (|fields| > 1)
    {
      pos, requiredFieldIndex := 0, 0;
      pData := destStruct + fields[pos].dataOffset;
      pSize := pData + fields[pos].sizeOffset;
      return fields[pos].tag != 0;
    }

    /** To the next field, or back to the first one with the answer false. */
    method Next() returns (ok: bool)
      requires Valid()
      modifies this
      ensures Valid()
      ensures ok <==> old(pos) + 2 < |fields|
      ensures pos == if ok then old(pos) + 1 else 0
    {
      var previous := fields[pos];
      if previous.tag == 0 {
        return false;
      }
      pos := pos + 1;
      if fields[pos].tag == 0 {
        var ignored := Begin();
        return false;
      }
      ghost var here := pos;
      assert fields[..here][..here - 1] == fields[..here - 1];
      assert FollowsOn(fields[here - 1], fields[here], offsets[here - 1], offsets[here]);
      var prevSize := previous.dataSize;
      if previous.htype.Oneof? && fields[pos].htype.Oneof? && fields[pos].dataOffset == SIZE_MAX {
        return true;
      } else if previous.atype.Static? && previous.htype.Repeated? {
        prevSize := prevSize * previous.arraySize;
      } else if previous.atype.Pointer? {
        prevSize := ADDRESS_SIZE;
      }
      if previous.htype.Required? {
        requiredFieldIndex := requiredFieldIndex + 1;
      }
      pData := pData + prevSize + fields[pos].dataOffset;
      pSize := pData + fields[pos].sizeOffset;
      return true;
    }

    /** Has the search from 'start' been at this index before it got to where it is? */
    ghost predicate Searched(start: nat, here: nat, i: nat) {
      if start <= here then start <= i < here else i < here || start <= i
    }

    /** Where the iterator can be: at the fields, or at the terminator of an empty message type. */
    ghost predicate Reachable(i: nat) {
      i < |fields| - 1 || (i == 0 && |fields| == 1)
    }

    /** Goes once round: succeeds exactly when some field that is no extension has the tag, and is then at
        the first one from where it was; otherwise it is back there. The tag 0 is only ever found in an
        empty message type, whose terminator is taken for a field. */
    method Find(tag: nat) returns (found: bool)
      requires Valid()
      modifies this
      ensures Valid()
      ensures found <==> exists i :: 0 <= i < |fields| && Reachable(i) && Matches(fields[i], tag)
      ensures found ==> Matches(fields[pos], tag)
      ensures found ==> forall i :: 0 <= i < |fields| - 1 && Searched(old(pos), pos, i) ==> !Matches(fields[i], tag)
      ensures !found ==> pos == old(pos)
    {
      var start := pos;
      ghost var wrapped := false;
      while true
        invariant Valid() && start < |fields| && (|fields| > 1 ==> start < |fields| - 1)
        invariant wrapped ==> pos < start
        invariant !wrapped ==> pos >= start
        invariant forall i :: 0 <= i < |fields| - 1 && Searched(start, pos, i) ==> !Matches(fields[i], tag)
        decreases !wrapped, |fields| - pos
      {
        assert Reachable(pos);
        if fields[pos].tag == tag && !fields[pos].extension {
          return true;
        }
        var more := Next();
        wrapped := wrapped || !more;
        if pos == start {
          break;
        }
      }
      return false;
    }
  }
}
