/** pb_istream_t over a memory buffer, and the readers of pb_decode.c that only consume bytes. */
module PbIStream {
  import opened Wrappers
  import opened Coding
  import opened PbVarints
  import opened PbMessages
  import opened PbDecoding

  class IStream {
    const buf: bytes
    var state: nat      // where in the buffer the next byte is
    var bytesLeft: nat

    predicate Valid()
      reads this
    {
      state + bytesLeft <= |buf|
    }

    function Input(): bytes
      requires Valid()
      reads this
    {
      buf[state..state + bytesLeft]
    }

    /** Where the stream ends; only entering a substream changes it. */
    function End(): nat
      reads this
    {
      state + bytesLeft
    }

    constructor (buf: bytes)
      ensures Valid() && Input() == buf
    {
      this.buf := buf;
      state, bytesLeft := 0, |buf|;
    }

    constructor Copy(other: IStream)
      requires other.Valid()
      ensures Valid() && buf == other.buf && state == other.state && bytesLeft == other.bytesLeft
    {
      buf := other.buf;
      state, bytesLeft := other.state, other.bytesLeft;
    }

    /** pb_readbyte. */
    method ReadByte() returns (b: Option<byte>)
      requires Valid()
      modifies this
      ensures Valid() && End() == old(End())
      ensures if old(Input()) == [] then b == None && Input() == []
              else b == Some(old(Input())[0]) && Input() == old(Input())[1..]
    {
      if bytesLeft == 0 {
        return None;
      }
      b := Some(buf[state]);
      state, bytesLeft := state + 1, bytesLeft - 1;
    }

    /** pb_read; the data is dropped where the caller passes no buffer. */
    method Read(count: nat) returns (data: Option<bytes>)
      requires Valid()
      modifies this
      ensures Valid() && End() == old(End())
      ensures data == ReadBytes(old(Input()), count)
      ensures Input() == if data.Some? then old(Input())[count..] else old(Input())
      ensures data.Some? ==> state == old(state) + count
    {
      if count == 0 {
        assert Input()[0..] == Input();
        return Some([]);
      }
      if bytesLeft < count {
        return None;
      }
      data := Some(buf[state..state + count]);
      assert data.value == Input()[..count];
      state, bytesLeft := state + count, bytesLeft - count;
    }

    /** pb_decode_varint32_eof. */
    method DecodeVarint32() returns (v: Option<uint32>, eof: bool)
      requires Valid()
      modifies this
      ensures Valid() && End() == old(End())
      ensures Consumed(old(Input()), PbVarints.DecodeVarint32(old(Input())), v, Input())
      ensures eof <==> old(Input()) == []
    {
      hide Rest32, Or32, Shift32;
      ghost var s := Input();
      var b := ReadByte();
      if b.None? {
        return None, true;
      }
      eof := false;
      if b.value < 128 {
        return Some(b.value), eof;
      }
      var result: nat := b.value - 128;
      var bitpos := 7;
      ghost var k := 1;
      ghost var rest := Input();
      while true
        invariant Valid() && End() == old(End()) && result < TWO_TO_32 && 1 <= k <= |s| && Input() == s[k..]
        invariant bitpos == Bitpos(k)
        invariant Rest32(Input(), k, result) == Rest32(rest, 1, s[0] - 128)
        decreases |Input()|
      {
        RestUnfolds(Input(), k, result);
        b := ReadByte();
        if b.None? {
          return None, eof;
        }
        if bitpos >= 32 {
          var signExtension := if bitpos < 63 then 0xff else 0x01;
          if b.value % 128 != 0 && (result < TWO_TO_31 || b.value != signExtension) {
            return None, eof;
          }
        } else {
          result := Or32(result, Shift32(b.value % 128, bitpos));
        }
        bitpos := (bitpos + 7) % 256;
        k := k + 1;
        if b.value < 128 {
          break;
        }
      }
      if bitpos == 35 && b.value >= 16 {
        return None, eof;
      }
      return Some(result), eof;
    }

    /** pb_decode_varint. */
    method DecodeVarint() returns (v: Option<uint64>)
      requires Valid()
      modifies this
      ensures Valid() && End() == old(End())
      ensures Consumed(old(Input()), DecodeVarint64(old(Input())), v, Input())
    {
      ghost var s := Input();
      var k, result := 0, 0;
      while true
        invariant Valid() && End() == old(End()) && 0 <= result < TWO_TO_64 && 0 <= k <= |s| && Input() == s[k..]
        invariant GetVarint(Input(), 10, TWO_TO_64, k, result) == DecodeVarint64(s)
        decreases |Input()|
      {
        if 7 * k >= 64 {
          return None;
        }
        var b := ReadByte();
        if b.None? {
          return None;
        }
        result := (result + b.value % 128 * Pow128(k)) % TWO_TO_64;
        k := k + 1;
        if b.value < 128 {
          return Some(result);
        }
      }
    }

    /** pb_skip_varint. */
    method SkipVarint() returns (ok: bool)
      requires Valid()
      modifies this
      ensures Valid() && End() == old(End())
      ensures Skipped(old(Input()), PbDecoding.SkipVarint(old(Input())), ok, Input())
    {
      ghost var s := Input();
      ghost var k := 0;
      while true
        invariant Valid() && End() == old(End()) && k <= |s| && Input() == s[k..]
        invariant var (all, rest) := (PbDecoding.SkipVarint(s), PbDecoding.SkipVarint(Input()));
                  all == if rest.None? then None else Some(k + rest.value)
        decreases |Input()|
      {
        var b := Read(1);
        if b.None? {
          return false;
        }
        k := k + 1;
        if b.value[0] < 128 {
          return true;
        }
      }
    }

    /** The length in front of a string; the string is there if that many bytes are left. */
    method ReadLength() returns (size: Option<uint32>)
      requires Valid()
      modifies this
      ensures Valid() && End() == old(End())
      ensures size.None? ==> ReadString(old(Input())).None?
      ensures size.Some? ==> IsString(ReadString(old(Input())), old(Input()), size.value, Input())
    {
      hide PbVarints.DecodeVarint32, ReadString;
      StringParts(Input());
      var eof;
      size, eof := DecodeVarint32();
    }

    /** pb_make_string_substream: the substream gets the string; this stream is left without those bytes,
        but still points in front of them. */
    method MakeSubstream() returns (sub: Option<IStream>)
      requires Valid()
      modifies this
      ensures Valid() && End() <= old(End())
      ensures sub.None? ==> ReadString(old(Input())).None? && End() == old(End())
      ensures sub.Some? ==>
                fresh(sub.value) && IsSubstream(sub.value, old(Input())) && sub.value.End() + bytesLeft == old(End())
    {
      hide ReadString;
      var size := ReadLength();
      if size.None? {
        return None;
      }
      ghost var (after, start, left) := (Input(), state, bytesLeft);
      var substream := new IStream.Copy(this);
      if substream.bytesLeft < size.value {
        return None;
      }
      substream.bytesLeft := size.value;
      bytesLeft := bytesLeft - size.value;
      SplitSlice(buf, start, left, size.value);
      assert substream.Input() == after[..size.value];
      assert Behind(substream.End(), after[size.value..]);
      hide Input, Behind;
      return Some(substream);
    }

    ghost predicate IsSubstream(sub: IStream, s: bytes)
      reads this, sub
    {
      var str := ReadString(s);
      && str.Some? && sub.Valid() && sub.Input() == str.value.value && sub != this && sub.buf == buf
      && Behind(sub.End(), s[str.value.size..])
    }

    /** What this stream will read once it points to 'end'. */
    ghost predicate Behind(end: nat, rest: bytes)
      reads this
    {
      end + bytesLeft <= |buf| && buf[end..end + bytesLeft] == rest
    }

    /** pb_close_string_substream: unread bytes are skipped, and this stream goes on behind them. Only a
        substream that gave up inside a substream of its own has not kept its end. */
    method CloseSubstream(sub: IStream, ghost end: nat, ghost rest: bytes)
      requires sub != this && sub.Valid() && sub.buf == buf && sub.End() <= end && Behind(end, rest)
      modifies this, sub
      ensures Valid() && End() <= end + bytesLeft && bytesLeft == old(bytesLeft)
      ensures old(sub.End()) == end ==> Input() == rest && End() == end + bytesLeft
    {
      if sub.bytesLeft > 0 {
        var skipped := sub.Read(sub.bytesLeft);
        assert skipped.Some?;
      }
      state := sub.state;
    }

    /** pb_skip_string. */
    method SkipString() returns (ok: bool)
      requires Valid()
      modifies this
      ensures Valid() && End() == old(End())
      ensures ok <==> ReadString(old(Input())).Some?
      ensures ok ==> Input() == old(Input())[ReadString(old(Input())).value.size..]
    {
      hide ReadString;
      var length := ReadLength();
      if length.None? {
        return false;
      }
      var skipped := Read(length.value);
      return skipped.Some?;
    }

    /** pb_skip_field. */
    method SkipField(wireType: nat) returns (ok: bool)
      requires Valid()
      modifies this
      ensures Valid() && End() == old(End())
      ensures Skipped(old(Input()), PbDecoding.SkipField(old(Input()), wireType), ok, Input())
    {
      hide PbDecoding.SkipVarint, ReadString;
      if wireType == WT_VARINT {
        ok := SkipVarint();
      } else if wireType == WT_64BIT {
        var skipped := Read(8);
        ok := skipped.Some?;
      } else if wireType == WT_STRING {
        ok := SkipString();
      } else if wireType == WT_32BIT {
        var skipped := Read(4);
        ok := skipped.Some?;
      } else {
        ok := false;
      }
    }

    /** A length, and that many bytes: the common part of the decoders of bytes and strings. */
    method ReadPrefixed(limit: nat, ghost all: bytes) returns (data: Option<bytes>)
      requires Valid() && all == Input()
      modifies this
      ensures Valid() && End() == old(End())
      ensures data.Some? <==> ReadString(all).Some? && |ReadString(all).value.value| <= limit
      ensures data.Some? ==> data.value == ReadString(all).value.value && Input() == all[ReadString(all).value.size..]
    {
      hide ReadString;
      var size := ReadLength();
      if size.None? || size.value > limit {
        return None;
      }
      data := Read(size.value);
    }

    /** The field decoders pb_dec_bool to pb_dec_string, and pb_dec_fixed_length_bytes. */
    method DecodeScalar(f: Field) returns (v: Option<Value>)
      requires Valid() && !f.ltype.TSubmessage?
      modifies this
      ensures Valid() && End() == old(End())
      ensures Consumed(old(Input()), PbDecoding.DecodeScalar(f, old(Input())), v, Input())
    {
      hide PbVarints.DecodeVarint32, DecodeVarint64, ReadString, DecodeFixed32, DecodeFixed64, UnZigZag, AsSigned;
      hide Signed32, HalfRange, UpToZero;
      ghost var s := Input();
      v := None;
      match f.ltype {
        case TBool =>
          var n, eof := DecodeVarint32();
          if n.Some? {
            v := Some(Num(if n.value != 0 then 1 else 0));
          }
        case TVarint =>
          var n := DecodeVarint();
          if n.Some? && IsIntSize(f.dataSize) {
            var value: int := if f.dataSize == 8 then AsSigned(n.value) else Signed32(n.value);
            if -HalfRange(f.dataSize) <= value < HalfRange(f.dataSize) {
              v := Some(Num(value));
            }
          }
        case TUVarint =>
          var n := DecodeVarint();
          if n.Some? && IsIntSize(f.dataSize) && n.value < 2 * HalfRange(f.dataSize) {
            v := Some(Num(n.value));
          }
        case TSVarint =>
          var n := DecodeVarint();
          if n.Some? && IsIntSize(f.dataSize) {
            var value: int := UnZigZag(n.value);
            if -HalfRange(f.dataSize) <= value < HalfRange(f.dataSize) {
              v := Some(Num(value));
            }
          }
        case TFixed32 =>
          var data := Read(4);
          if data.Some? {
            v := Some(Num(DecodeFixed32(data.value)));
          }
        case TFixed64 =>
          var data := Read(8);
          if data.Some? {
            v := Some(Num(DecodeFixed64(data.value)));
          }
        case TBytes =>
          var data := ReadPrefixed(if f.dataSize < BYTES_HEADER then 0 else f.dataSize - BYTES_HEADER, s);
          if data.Some? && f.dataSize >= BYTES_HEADER {
            v := Some(Blob(data.value));
          }
        case TString =>
          var data := ReadPrefixed(if f.dataSize == 0 then 0 else f.dataSize - 1, s);
          if data.Some? && f.dataSize > 0 {
            v := Some(Blob(UpToZero(data.value)));
          }
        case TFixedBytes =>
          var data := ReadPrefixed(f.dataSize, s);
          if data.Some? && data.value == [] {
            v := Some(Blob(Zeros(f.dataSize)));
          } else if data.Some? && |data.value| == f.dataSize {
            v := Some(Blob(data.value));
          }
      }
    }
  }

  lemma SplitSlice(buf: bytes, start: nat, left: nat, n: nat)
    requires start + left <= |buf| && n <= left
    ensures buf[start..start + left][..n] == buf[start..start + n]
    ensures buf[start..start + left][n..] == buf[start + n..start + left]
  {
  }

  /** What a string is once its length n has been read and 'after' is left. */
  ghost predicate IsString(r: Option<Parsed<bytes>>, before: bytes, n: nat, after: bytes) {
    if |after| < n then r.None?
    else r.Some? && r.value.size <= |before| && r.value.value == after[..n] && before[r.value.size..] == after[n..]
  }

  lemma StringParts(s: bytes)
    ensures var (len, r) := (PbVarints.DecodeVarint32(s), ReadString(s));
            if len.None? || |s| - len.value.size < len.value.value then r.None?
            else
              && r.Some? && |r.value.value| == len.value.value
              && r.value.value == s[len.value.size..][..len.value.value]
              && s[r.value.size..] == s[len.value.size..][len.value.value..]
  {
    hide PbVarints.DecodeVarint32;
  }

  /** A reader returned what the specification says, and moved just behind it. */
  ghost predicate Consumed<T>(before: bytes, spec: Option<Parsed<T>>, got: Option<T>, after: bytes) {
    if spec.None? then got.None?
    else spec.value.size <= |before| && got == Some(spec.value.value) && after == before[spec.value.size..]
  }

  ghost predicate Skipped(before: bytes, spec: Option<nat>, ok: bool, after: bytes) {
    && (ok <==> spec.Some?)
    && (ok ==> spec.value <= |before| && after == before[spec.value..])
  }
}
