/**
  A file of the in-memory provider: a slice with spare capacity refines a plain byte sequence,
  and a run of writes and truncations refines "the last value written at each position".
 */
module MemoryFile {
  import opened Bytes

  function Zeros(n: nat): bytes { seq(n, _ => 0) }

  datatype Op = Write(off: nat, data: bytes) | Truncate(size: nat)

  /** The effect of one operation on the contents. */
  function Effect(contents: bytes, op: Op): bytes {
    match op
    case Write(off, data) =>
      var end := off + |data|;
      var grown := if end > |contents| then contents + Zeros(end - |contents|) else contents;
      grown[..off] + data + grown[end..]
    case Truncate(size) =>
      if size < |contents| then contents[..size] else contents + Zeros(size - |contents|)
  }

  datatype ReadResult = ReadResult(n: nat, eof: bool)

  class MemFile {
    var buffer: array<byte> // the backing array; `data` is its first `length` elements
    var length: nat

    ghost predicate Valid()
      reads this
    {
      length <= buffer.Length
    }

    ghost function Contents(): bytes
      reads this, buffer
      requires Valid()
    {
      buffer[..length]
    }

    constructor ()
      ensures Valid() && fresh(buffer) && Contents() == []
    {
      buffer := new byte[0];
      length := 0;
    }

    /** Replaces the backing array by a longer, zeroed one that starts with the old contents. */
    method Grow(size: nat)
      requires Valid() && length < size
      modifies this
      ensures Valid() && fresh(buffer)
      ensures Contents() == old(Contents()) + Zeros(size - old(length))
    {
      var newData := new byte[size](_ => 0);
      forall i | 0 <= i < length {
        newData[i] := buffer[i];
      }
      buffer, length := newData, size;
    }

    method ReadAt(p: array<byte>, off: nat) returns (r: ReadResult)
      requires Valid() && p != buffer
      modifies p
      ensures Valid() && Contents() == old(Contents())
      ensures r.n == if off >= length then 0 else if p.Length < length - off then p.Length else length - off
      ensures forall i :: 0 <= i < p.Length ==> p[i] == if i < r.n then Contents()[off + i] else old(p[i])
      ensures r.eof <==> off >= length || r.n < p.Length
    {
      if off >= length {
        return ReadResult(0, true);
      }
      var n := if p.Length < length - off then p.Length else length - off;
      forall i | 0 <= i < n {
        p[i] := buffer[off + i];
      }
      return ReadResult(n, n < p.Length);
    }

    method WriteAt(p: array<byte>, off: nat) returns (n: nat)
      requires Valid() && p != buffer
      modifies this, buffer
      ensures Valid() && (buffer == old(buffer) || fresh(buffer))
      ensures p[..] == old(p[..]) && n == p.Length
      ensures Contents() == Effect(old(Contents()), Write(off, p[..]))
    {
      var end := off + p.Length;
      if end > length {
        Grow(end);
      }
      ghost var grown := Contents();
      n := p.Length;
      forall i | 0 <= i < n {
        buffer[off + i] := p[i];
      }
      assert Contents() == grown[..off] + p[..] + grown[end..];
    }

    /** Cutting only shortens the slice: the bytes behind it stay in the backing array. */
    method Truncate(size: nat)
      requires Valid()
      modifies this
      ensures Valid() && (buffer == old(buffer) || fresh(buffer))
      ensures size < old(length) ==> buffer == old(buffer)
      ensures Contents() == Effect(old(Contents()), Op.Truncate(size))
    {
      if size < length {
        length := size;
      } else if size > length {
        Grow(size);
      }
    }

    /** Any run of operations, on the slice, has the effect of the run on a plain byte sequence. */
    method Perform(ops: seq<Op>)
      requires Valid()
      modifies this, buffer
      ensures Valid()
      ensures Contents() == Replay(old(Contents()), ops)
    {
      for i := 0 to |ops|
        invariant Valid() && (buffer == old(buffer) || fresh(buffer))
        invariant Contents() == Replay(old(Contents()), ops[..i])
      {
        assert ops[..i + 1] == ops[..i] + [ops[i]];
        match ops[i] {
          case Write(off, data) =>
            var p := new byte[|data|](j requires 0 <= j < |data| => data[j]);
            assert p[..] == data;
            var n := WriteAt(p, off);
          case Truncate(size) =>
            Truncate(size);
        }
      }
      assert ops[..|ops|] == ops;
    }
  }

  /** The contents after a list of operations, the last of which is at the end. */
  function Replay(contents: bytes, ops: seq<Op>): bytes {
    if ops == [] then contents else Effect(Replay(contents, ops[..|ops| - 1]), ops[|ops| - 1])
  }

  /** The length of the file after `ops`. */
  function LengthAfter(ops: seq<Op>): nat {
    if ops == [] then 0
    else
      var before := LengthAfter(ops[..|ops| - 1]);
      match ops[|ops| - 1]
      case Write(off, data) => if off + |data| > before then off + |data| else before
      case Truncate(size) => size
  }

  /**
    Looking back from the end of `ops`: the last value written at `pos`, but zero as soon as the
    file was cut at or below it, or when nothing was ever written there.
   */
  function LastValue(ops: seq<Op>, pos: nat): byte {
    if ops == [] then 0 as byte
    else
      var earlier := ops[..|ops| - 1];
      match ops[|ops| - 1]
      case Write(off, data) => if off <= pos < off + |data| then data[pos - off] else LastValue(earlier, pos)
      case Truncate(size) => if size <= pos then 0 as byte else LastValue(earlier, pos)
  }

  /** Beyond its end a file has nothing but zeros to show if it grows. */
  lemma {:induction false} NothingBeyondEnd(ops: seq<Op>, pos: nat)
    requires pos >= LengthAfter(ops)
    ensures LastValue(ops, pos) == 0
  {
    if ops != [] {
      var earlier := ops[..|ops| - 1];
      match ops[|ops| - 1] {
        case Write(off, data) => NothingBeyondEnd(earlier, pos);
        case Truncate(size) =>
      }
    }
  }

  /** A new file holds, at every position, the last value written there since it was last cut below it. */
  lemma {:induction false} FileHoldsLastValues(ops: seq<Op>)
    ensures |Replay([], ops)| == LengthAfter(ops)
    ensures forall pos :: 0 <= pos < LengthAfter(ops) ==> Replay([], ops)[pos] == LastValue(ops, pos)
  {
    if ops != [] {
      var earlier, op := ops[..|ops| - 1], ops[|ops| - 1];
      FileHoldsLastValues(earlier);
      var before := Replay([], earlier);
      forall pos | 0 <= pos < LengthAfter(ops) ensures Effect(before, op)[pos] == LastValue(ops, pos) {
        if pos >= |before| { NothingBeyondEnd(earlier, pos); }
      }
    }
  }

  /** Bytes hidden by a shrinking truncation never reappear, whatever is done to grow the file again. */
  lemma {:induction false} HiddenBytesStayHidden(before: seq<Op>, size: nat, after: seq<Op>, pos: nat)
    requires size <= pos
    requires forall op :: op in after && op.Write? ==> !(op.off <= pos < op.off + |op.data|)
    requires pos < |Replay([], before + [Op.Truncate(size)] + after)|
    ensures Replay([], before + [Op.Truncate(size)] + after)[pos] == 0
  {
    var ops := before + [Op.Truncate(size)] + after;
    FileHoldsLastValues(ops);
    UnwrittenSinceCut(before, size, after, pos);
  }

  lemma {:induction false} UnwrittenSinceCut(before: seq<Op>, size: nat, after: seq<Op>, pos: nat)
    requires size <= pos
    requires forall op :: op in after && op.Write? ==> !(op.off <= pos < op.off + |op.data|)
    ensures LastValue(before + [Op.Truncate(size)] + after, pos) == 0
  {
    var ops := before + [Op.Truncate(size)] + after;
    if after != [] {
      assert ops[..|ops| - 1] == before + [Op.Truncate(size)] + after[..|after| - 1];
      assert ops[|ops| - 1] == after[|after| - 1];
      UnwrittenSinceCut(before, size, after[..|after| - 1], pos);
    }
  }

  /** A write of nothing is without effect exactly if it is not beyond the end; there it extends the file. */
  lemma EmptyWrite(contents: bytes, off: nat)
    ensures Effect(contents, Write(off, [])) == contents <==> off <= |contents|
    ensures off > |contents| ==> |Effect(contents, Write(off, []))| == off
  {
    if off <= |contents| {
      assert contents[..off] + contents[off..] == contents;
    }
  }
}
