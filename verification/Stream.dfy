/**
 * The growable random-access stream of dexlayout/dex_writer.h over the zero-filling
 * vector section of dexlayout/dex_container.h.
 */
module Streams {
  import opened Bytes
  import opened Leb128

  /** Position `i` of a section; everything beyond its end counts as zero, because growing fills with zeros. */
  function Get(d: seq<byte>, i: nat): byte {
    if i < |d| then d[i] else 0
  }

  ghost predicate Zero(d: seq<byte>, from: nat, to: nat) {
    forall i {:trigger Get(d, i)} :: from <= i < to ==> Get(d, i) == 0
  }

  ghost predicate ZeroFrom(d: seq<byte>, from: nat) {
    forall i {:trigger Get(d, i)} :: from <= i ==> Get(d, i) == 0
  }

  /** `bs` stands at `p`. */
  ghost predicate Holds(d: seq<byte>, p: nat, bs: seq<byte>) {
    forall i {:trigger Get(d, i)} :: p <= i < p + |bs| ==> Get(d, i) == bs[i - p]
  }

  ghost predicate SameOutside(d: seq<byte>, e: seq<byte>, from: nat, to: nat) {
    forall i: nat {:trigger Get(d, i)} {:trigger Get(e, i)} :: i < from || to <= i ==> Get(e, i) == Get(d, i)
  }

  ghost predicate Same(d: seq<byte>, e: seq<byte>) {
    forall i: nat {:trigger Get(d, i)} {:trigger Get(e, i)} :: Get(e, i) == Get(d, i)
  }

  /** From `before` to `after`, exactly `bs` has been written at `p`. */
  ghost predicate Put(before: seq<byte>, after: seq<byte>, p: nat, bs: seq<byte>) {
    Holds(after, p, bs) && SameOutside(before, after, p, p + |bs|)
  }

  lemma PutMore(a: seq<byte>, b: seq<byte>, c: seq<byte>, p: nat, bs: seq<byte>, more: seq<byte>)
    requires Put(a, b, p, bs) && Put(b, c, p + |bs|, more)
    ensures Put(a, c, p, bs + more)
  {
    forall i: nat | p <= i < p + |bs + more| ensures Get(c, i) == (bs + more)[i - p] {
      assert Get(b, i) == Get(b, i);
    }
    forall i: nat | i < p || p + |bs + more| <= i ensures Get(c, i) == Get(a, i) {
      assert Get(c, i) == Get(b, i);
    }
  }

  lemma PutNothing(a: seq<byte>, p: nat)
    ensures Put(a, a, p, [])
  {
  }

  lemma PutIntro(a: seq<byte>, b: seq<byte>, p: nat, bs: seq<byte>)
    requires Holds(b, p, bs) && SameOutside(a, b, p, p + |bs|)
    ensures Put(a, b, p, bs)
  {
  }

  /** The alignments the writers use. */
  type Alignment = a: int | a == 1 || a == 2 || a == 4 || a == 8 witness 1

  function RoundUp(x: nat, a: Alignment): (r: nat)
    ensures x <= r < x + a && r % a == 0
    ensures x % a == 0 ==> r == x
  {
    if a == 1 then x
    else if a == 2 then (x + 1) / 2 * 2
    else if a == 4 then (x + 3) / 4 * 4
    else (x + 7) / 8 * 8
  }

  class Section {
    var data: seq<byte>

    constructor ()
      ensures data == []
    {
      data := [];
    }

    /** Grows with zeros or cuts off the end. */
    method Resize(size: nat)
      modifies this
      ensures |data| == size
      ensures forall i :: 0 <= i < size ==> data[i] == Get(old(data), i)
    {
      if size <= |data| {
        data := data[..size];
      } else {
        data := data + seq(size - |data|, i => 0);
      }
    }
  }

  class Stream {
    const section: Section
    var position: nat
    /** A checked write has met a byte that was not zero, so its debug check fires. */
    var clobbered: bool

    constructor (s: Section)
      ensures section == s && position == 0 && !clobbered
    {
      section, position, clobbered := s, 0, false;
    }

    method EnsureStorage(length: nat)
      modifies section
      ensures position + length <= |section.data|
      ensures |old(section.data)| <= |section.data|
      ensures Same(old(section.data), section.data)
    {
      var end := position + length;
      while end > |section.data|
        invariant |old(section.data)| <= |section.data|
        invariant Same(old(section.data), section.data)
        decreases end - |section.data|
      {
        section.Resize(|section.data| * 3 / 2 + 1);
      }
    }

    method Seek(p: nat)
      modifies this`position, section
      ensures position == p <= |section.data| && Same(old(section.data), section.data)
    {
      position := p;
      EnsureStorage(0);
    }

    method AlignTo(alignment: Alignment)
      modifies this`position, section
      ensures position == RoundUp(old(position), alignment) <= |section.data| && Same(old(section.data), section.data)
    {
      position := RoundUp(position, alignment);
      EnsureStorage(0);
    }

    method Skip(count: nat)
      modifies this`position, section
      ensures position == old(position) + count <= |section.data| && Same(old(section.data), section.data)
    {
      position := position + count;
      EnsureStorage(0);
    }

    method Overwrite(buffer: seq<byte>)
      modifies this`position, section
      ensures position == old(position) + |buffer| <= |section.data|
      ensures Holds(section.data, old(position), buffer)
      ensures SameOutside(old(section.data), section.data, old(position), position)
    {
      EnsureStorage(|buffer|);
      section.data := section.data[..position] + buffer + section.data[position + |buffer|..];
      position := position + |buffer|;
    }

    /** The write that must not overwrite anything. */
    method Write(buffer: seq<byte>)
      modifies this, section
      ensures position == old(position) + |buffer| <= |section.data|
      ensures Holds(section.data, old(position), buffer)
      ensures SameOutside(old(section.data), section.data, old(position), position)
      ensures clobbered <==> old(clobbered) || !Zero(old(section.data), old(position), position)
    {
      EnsureStorage(|buffer|);
      label Stored:
      var i := 0;
      while i < |buffer|
        invariant 0 <= i <= |buffer|
        invariant section.data == old@Stored(section.data) && position == old(position)
        invariant clobbered <==> old(clobbered) || !Zero(section.data, position, position + i)
      {
        assert Get(section.data, position + i) == section.data[position + i];
        if section.data[position + i] != 0 {
          clobbered := true;
        }
        i := i + 1;
      }
      Overwrite(buffer);
    }

    /** Zeroes `length` bytes from `p`; the storage check looks at the current position, not at `p`. */
    method Clear(p: nat, length: nat)
      requires p + length <= |section.data|
      modifies section
      ensures Zero(section.data, p, p + length) && |old(section.data)| <= |section.data|
      ensures SameOutside(old(section.data), section.data, p, p + length)
    {
      EnsureStorage(length);
      section.data := section.data[..p] + seq(length, i => 0) + section.data[p + length..];
    }

    method WriteUleb128(value: u32)
      modifies this`position, section
      ensures position == old(position) + |Uleb(value)| <= |section.data|
      ensures Holds(section.data, old(position), Uleb(value))
      ensures SameOutside(old(section.data), section.data, old(position), position)
    {
      EnsureStorage(8);
      var bs := EncodeUnsigned(value);
      Overwrite(bs);
    }

    method WriteSleb128(value: i32)
      modifies this`position, section
      ensures position == old(position) + |Sleb(value)| <= |section.data|
      ensures Holds(section.data, old(position), Sleb(value))
      ensures SameOutside(old(section.data), section.data, old(position), position)
    {
      EnsureStorage(8);
      var bs := EncodeSigned(value);
      Overwrite(bs);
    }
  }
}
