/** An in-memory byte stream with a read/write position, as Python's
    `io.BytesIO` behaves for the calls the server makes on it: `write`,
    `seek` and reading what follows the position. */
module ByteStream {
  import opened Common

  function Zeros(n: nat): (r: seq<byte>)
    ensures |r| == n && forall i :: 0 <= i < n ==> r[i] == 0
  {
    if n == 0 then [] else [0 as byte] + Zeros(n - 1)
  }

  /** The contents after writing `b` at position `p` into `d`: the bytes at
      `p` are replaced, the stream grows when the write runs past its end,
      and a gap between the end and `p` is filled with zero bytes. */
  function Overwrite(d: seq<byte>, p: nat, b: seq<byte>): (r: seq<byte>)
    ensures |r| == Max(|d|, p + |b|)
    ensures forall i :: 0 <= i < |b| ==> r[p + i] == b[i]
    ensures forall i :: 0 <= i < Min(p, |d|) ==> r[i] == d[i]
    ensures forall i :: p + |b| <= i < |d| ==> r[i] == d[i]
    ensures forall i :: |d| <= i < p ==> r[i] == 0
  {
    var head := if p <= |d| then d[..p] else d + Zeros(p - |d|);
    var tail := if p + |b| < |d| then d[p + |b|..] else [];
    head + b + tail
  }

  /** Writing at the end appends. */
  lemma OverwriteAtEnd(d: seq<byte>, b: seq<byte>)
    ensures Overwrite(d, |d|, b) == d + b
  {
    var r := Overwrite(d, |d|, b);
    assert forall i :: 0 <= i < |r| ==> r[i] == (d + b)[i] by {
      forall i | 0 <= i < |r| ensures r[i] == (d + b)[i] {
        if i >= |d| {
          assert r[|d| + (i - |d|)] == b[i - |d|];
        }
      }
    }
  }

  /** Writing into an empty stream gives exactly the bytes written. */
  lemma WriteToEmpty(b: seq<byte>)
    ensures Overwrite([], 0, b) == b
  {
    OverwriteAtEnd([], b);
    assert [] + b == b;
  }

  class BytesIO {
    var data: seq<byte>
    var pos: nat

    /** `io.BytesIO()`. */
    constructor ()
      ensures data == [] && pos == 0
    {
      data := [];
      pos := 0;
    }

    /** `io.BytesIO(initial)`. */
    constructor FromBytes(initial: seq<byte>)
      ensures data == initial && pos == 0
    {
      data := initial;
      pos := 0;
    }

    /** The bytes a reader of the stream obtains from its position on. */
    function Unread(): (r: seq<byte>)
      reads this
      ensures pos <= |data| ==> |r| == |data| - pos
      ensures pos >= |data| ==> r == []
      ensures pos == 0 ==> r == data
    {
      data[Min(pos, |data|)..]
    }

    /** `write(b)`: overwrite from the position on and move past the bytes written. */
    method Write(b: seq<byte>)
      modifies this
      ensures data == Overwrite(old(data), old(pos), b)
      ensures pos == old(pos) + |b|
    {
      data := Overwrite(data, pos, b);
      pos := pos + |b|;
    }

    /** `seek(p)` from the start of the stream. */
    method Seek(p: nat)
      modifies this
      ensures pos == p && data == old(data)
    {
      pos := p;
    }
  }
}
