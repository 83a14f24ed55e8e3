/** The buffered byte streams: one writer, two readers. Each behaves like the plain byte
    sequence behind it, whatever the buffer's size. */
module ByteStreams {
  import opened Common

  const NUL: Byte := 0

  function Repeat(c: Byte, n: nat): (r: seq<Byte>)
    ensures |r| == n && forall i | 0 <= i < n :: r[i] == c
  {
    seq(n, i => c)
  }

  /** FileWriteStream over a FILE whose content is `file`. */
  class FileWriteStream {
    const buffer: array<Byte>
    var current: nat
    var file: seq<Byte>

    /** Everything put so far. */
    ghost var written: seq<Byte>

    ghost predicate Valid()
      reads this, buffer
    {
      current <= buffer.Length && file + buffer[..current] == written
    }

    constructor (file: seq<Byte>, buffer: array<Byte>)
      ensures Valid() && written == file && this.buffer == buffer
    {
      this.file, this.buffer, current, written := file, buffer, 0, file;
    }

    method Flush()
      requires Valid()
      modifies `current, `file
      ensures Valid() && current == 0 && file == written
    {
      if current != 0 {
        file := file + buffer[..current];
        current := 0;
      }
    }

    method Put(c: Byte)
      requires Valid() && buffer.Length > 0
      modifies this, buffer
      ensures Valid() && written == old(written) + [c]
      ensures old(current) < buffer.Length ==> file == old(file)
    {
      if current >= buffer.Length {
        Flush();
      }
      ghost var before := buffer[..current];
      buffer[current] := c;
      current := current + 1;
      written := written + [c];
      assert buffer[..current] == before + [c];
    }

    /** memset of the next `n` free bytes of the buffer. */
    method Fill(c: Byte, n: nat)
      requires Valid() && current + n <= buffer.Length
      modifies `current, `written, buffer
      ensures Valid() && written == old(written) + Repeat(c, n) && current == old(current) + n
    {
      ghost var before := buffer[..current];
      forall i | current <= i < current + n {
        buffer[i] := c;
      }
      current := current + n;
      written := written + Repeat(c, n);
      assert buffer[..current] == before + Repeat(c, n);
    }

    /** Terminates from a full buffer too: the first pass fills nothing and flushes. */
    method PutN(c: Byte, n: nat)
      requires Valid() && buffer.Length > 0
      modifies this, buffer
      ensures Valid() && written == old(written) + Repeat(c, n)
    {
      var left: nat := n;
      var avail := buffer.Length - current;
      while left > avail
        invariant Valid() && left <= n && avail == buffer.Length - current
        invariant written == old(written) + Repeat(c, n - left)
        decreases left, avail == 0
      {
        Fill(c, avail);
        assert Repeat(c, n - left) + Repeat(c, avail) == Repeat(c, n - left + avail);
        Flush();
        left := left - avail;
        avail := buffer.Length - current;
      }
      assert Repeat(c, n - left) + Repeat(c, left) == Repeat(c, n);
      assert old(written) + Repeat(c, n - left) + Repeat(c, left)
          == old(written) + (Repeat(c, n - left) + Repeat(c, left));
      if left > 0 {
        Fill(c, left);
      }
    }
  }

  /** Byte `k` of the input, and NUL past its end. */
  function ByteAt(input: seq<Byte>, k: nat): Byte {
    if k < |input| then input[k] else NUL
  }

  function Min(a: nat, b: nat): nat {
    if a < b then a else b
  }

  /** What both readers keep: the buffer holds `readCount` bytes of the input from `count` on,
      the rest is still to be read, and `current` is the place of the next byte. `last` is the
      index of the last byte to hand out: the last one read, or, once a short read has shown the
      end, the NUL behind it. */
  ghost predicate Window(input: seq<Byte>, rest: seq<Byte>, buffer: seq<Byte>,
                         count: nat, readCount: nat, last: int, current: nat, eof: bool)
  {
    && |buffer| >= 4 && readCount <= |buffer| && count + readCount <= |input|
    && rest == input[count + readCount..]
    && buffer[..readCount] == input[count..count + readCount]
    && current <= last
    && if eof
       then rest == [] && last == readCount < |buffer| && buffer[readCount] == NUL
       else readCount == |buffer| && last == readCount - 1
  }

  /** A buffer just filled with `n` bytes of the input from `count` on, short or not. */
  lemma WindowFilled(input: seq<Byte>, rest: seq<Byte>, buffer: seq<Byte>, count: nat, n: nat)
    requires |buffer| >= 4 && count <= |input| && n == Min(|buffer|, |input| - count)
    requires buffer[..n] == input[count..][..n] && rest == input[count..][n..]
    requires n < |buffer| ==> buffer[n] == NUL
    ensures Window(input, rest, buffer, count, n, if n < |buffer| then n else n - 1, 0, n < |buffer|)
  {
  }

  lemma WindowPeek(input: seq<Byte>, rest: seq<Byte>, buffer: seq<Byte>,
                   count: nat, readCount: nat, last: int, current: nat, eof: bool)
    requires Window(input, rest, buffer, count, readCount, last, current, eof)
    ensures current < |buffer| && buffer[current] == ByteAt(input, count + current)
    ensures count + current <= |input|
  {
    if current < readCount {
      assert buffer[..readCount][current] == input[count..count + readCount][current];
    }
  }

  lemma SliceOfSlice(s: seq<Byte>, from: nat, n: nat, lo: nat, k: nat)
    requires from + n <= |s| && lo + k <= n
    ensures s[from..from + n][lo..lo + k] == s[from + lo..from + lo + k]
  {
    var inner, outer := s[from..from + n][lo..lo + k], s[from + lo..from + lo + k];
    assert |inner| == |outer| && forall j | 0 <= j < k :: inner[j] == outer[j];
  }

  /** Four bytes from `current` on are in the buffer exactly when Peek4's test passes. */
  lemma WindowPeek4(input: seq<Byte>, rest: seq<Byte>, buffer: seq<Byte>,
                    count: nat, readCount: nat, last: int, current: nat, eof: bool)
    requires Window(input, rest, buffer, count, readCount, last, current, eof)
    ensures current + 4 - (if eof then 0 else 1) <= last <==> current + 4 <= readCount
    ensures current + 4 <= readCount ==>
              count + current + 4 <= |input|
              && buffer[current..current + 4] == input[count + current..count + current + 4]
  {
    if current + 4 <= readCount {
      assert buffer[current..current + 4] == buffer[..readCount][current..current + 4];
      SliceOfSlice(input, count, readCount, current, 4);
    }
  }

  /** FileReadStream; fread takes as many of the FILE's unread bytes as there are. */
  class FileReadStream {
    const buffer: array<Byte>
    var file: seq<Byte>
    var bufferLast: int
    var current: nat
    var readCount: nat
    var count: nat
    var eof: bool

    ghost const input: seq<Byte>
    /** How often Take has been called. */
    ghost var takes: nat

    ghost predicate Valid()
      reads this, buffer
    {
      && Window(input, file, buffer[..], count, readCount, bufferLast, current, eof)
      && count + current == Min(takes, |input|)
    }

    constructor (file: seq<Byte>, buffer: array<Byte>)
      requires buffer.Length >= 4
      modifies buffer
      ensures Valid() && input == file && this.buffer == buffer && takes == 0 && Tell() == 0
      ensures Peek4().Some? <==> |file| >= 4
    {
      this.buffer, this.file, input := buffer, file, file;
      // the null bufferLast is below every address
      bufferLast, current, readCount, count, eof := -1, 0, 0, 0, false;
      takes := 0;
      new;
      Read();
    }

    function Peek(): (c: Byte)
      requires Valid()
      reads this, buffer
      ensures c == ByteAt(input, takes)
    {
      WindowPeek(input, file, buffer[..], count, readCount, bufferLast, current, eof);
      buffer[current]
    }

    function Tell(): (n: nat)
      requires Valid()
      reads this, buffer
      ensures n == Min(takes, |input|)
    {
      count + current
    }

    /** The next four bytes when the buffer still holds four, the pointer being shown as
        what it points at. */
    function Peek4(): (r: Option<seq<Byte>>)
      requires Valid()
      reads this, buffer
      ensures r.Some? ==> takes + 4 <= |input| && r.value == input[takes..takes + 4]
      ensures r.Some? <==> current + 4 <= readCount
    {
      WindowPeek4(input, file, buffer[..], count, readCount, bufferLast, current, eof);
      if current + 4 - (if eof then 0 else 1) <= bufferLast then Some(buffer[current..current + 4]) else None
    }

    method Take() returns (c: Byte)
      requires Valid()
      modifies this, buffer
      ensures Valid() && takes == old(takes) + 1
      ensures c == ByteAt(input, old(takes))
    {
      c := Peek();
      Read();
      takes := takes + 1;
    }

    /** Move to the next byte: within the buffer, or by refilling it, or, at the end, not at all.
        Before the first call nothing has been read. */
    method Read()
      requires Valid() || (buffer.Length >= 4 && file == input && bufferLast == -1
                           && current == readCount == count == takes == 0 && !eof)
      modifies `file, `bufferLast, `current, `readCount, `count, `eof, buffer
      ensures Window(input, file, buffer[..], count, readCount, bufferLast, current, eof)
      ensures count + current == if old(bufferLast) == -1 then 0 else Min(takes + 1, |input|)
      ensures old(bufferLast) == -1 ==> current == 0 && readCount == Min(buffer.Length, |input|)
    {
      if current < bufferLast {
        current := current + 1;
      } else if !eof {
        Refill();
      }
    }

    /** The call of fread and what follows it, with the next bytes of the input still in the file. */
    method Refill()
      requires buffer.Length >= 4 && !eof && count + readCount <= |input| && file == input[count + readCount..]
      modifies `file, `bufferLast, `current, `readCount, `count, `eof, buffer
      ensures Window(input, file, buffer[..], count, readCount, bufferLast, current, eof)
      ensures current == 0 && count == old(count + readCount) && readCount == Min(buffer.Length, |input| - count)
    {
      count := count + readCount;
      readCount := Min(buffer.Length, |file|);
      Fetch(buffer, file[..readCount]);
      file := file[readCount..];
      bufferLast := readCount - 1;
      current := 0;
      if readCount < buffer.Length {
        buffer[readCount] := NUL;
        bufferLast := bufferLast + 1;
        eof := true;
      }
      WindowFilled(input, file, buffer[..], count, readCount);
    }
  }

  /** The library's copy of what it read into the buffer. */
  method Fetch(buffer: array<Byte>, bytes: seq<Byte>)
    requires |bytes| <= buffer.Length
    modifies buffer
    ensures buffer[..|bytes|] == bytes
  {
    forall i | 0 <= i < |bytes| {
      buffer[i] := bytes[i];
    }
  }

  /** BasicIStreamWrapper: the same reader over an istream, whose read fails when it
      delivers fewer bytes than asked for. */
  class IStreamWrapper {
    const buffer: array<Byte>
    var stream: seq<Byte>
    var bufferLast: int
    var current: nat
    var readCount: nat
    var count: nat
    var eof: bool

    ghost const input: seq<Byte>
    ghost var takes: nat

    ghost predicate Valid()
      reads this, buffer
    {
      && Window(input, stream, buffer[..], count, readCount, bufferLast, current, eof)
      && count + current == Min(takes, |input|)
    }

    constructor (stream: seq<Byte>, buffer: array<Byte>)
      requires buffer.Length >= 4
      modifies buffer
      ensures Valid() && input == stream && this.buffer == buffer && takes == 0 && Tell() == 0
      ensures Peek4().Some? <==> |stream| >= 4
    {
      this.buffer, this.stream, input := buffer, stream, stream;
      bufferLast, current, readCount, count, eof := -1, 0, 0, 0, false;
      takes := 0;
      new;
      Read();
    }

    function Peek(): (c: Byte)
      requires Valid()
      reads this, buffer
      ensures c == ByteAt(input, takes)
    {
      WindowPeek(input, stream, buffer[..], count, readCount, bufferLast, current, eof);
      buffer[current]
    }

    function Tell(): (n: nat)
      requires Valid()
      reads this, buffer
      ensures n == Min(takes, |input|)
    {
      count + current
    }

    function Peek4(): (r: Option<seq<Byte>>)
      requires Valid()
      reads this, buffer
      ensures r.Some? ==> takes + 4 <= |input| && r.value == input[takes..takes + 4]
      ensures r.Some? <==> current + 4 <= readCount
    {
      WindowPeek4(input, stream, buffer[..], count, readCount, bufferLast, current, eof);
      if current + 4 - (if eof then 0 else 1) <= bufferLast then Some(buffer[current..current + 4]) else None
    }

    method Take() returns (c: Byte)
      requires Valid()
      modifies this, buffer
      ensures Valid() && takes == old(takes) + 1
      ensures c == ByteAt(input, old(takes))
    {
      c := Peek();
      Read();
      takes := takes + 1;
    }

    /** istream::read into the buffer, with its gcount; it fails when the stream runs out. */
    method StreamRead() returns (ok: bool, gcount: nat)
      modifies `stream, buffer
      ensures gcount == Min(buffer.Length, |old(stream)|) && (ok <==> gcount == buffer.Length)
      ensures buffer[..gcount] == old(stream)[..gcount] && stream == old(stream)[gcount..]
    {
      gcount := Min(buffer.Length, |stream|);
      ok := gcount == buffer.Length;
      Fetch(buffer, stream[..gcount]);
      stream := stream[gcount..];
    }

    method Read()
      requires Valid() || (buffer.Length >= 4 && stream == input && bufferLast == -1
                           && current == readCount == count == takes == 0 && !eof)
      modifies `stream, `bufferLast, `current, `readCount, `count, `eof, buffer
      ensures Window(input, stream, buffer[..], count, readCount, bufferLast, current, eof)
      ensures count + current == if old(bufferLast) == -1 then 0 else Min(takes + 1, |input|)
      ensures old(bufferLast) == -1 ==> current == 0 && readCount == Min(buffer.Length, |input|)
    {
      if current < bufferLast {
        current := current + 1;
      } else if !eof {
        Refill();
      }
    }

    /** The optimistic refill, put right when the stream's read fails. */
    method Refill()
      requires buffer.Length >= 4 && !eof && count + readCount <= |input| && stream == input[count + readCount..]
      modifies `stream, `bufferLast, `current, `readCount, `count, `eof, buffer
      ensures Window(input, stream, buffer[..], count, readCount, bufferLast, current, eof)
      ensures current == 0 && count == old(count + readCount) && readCount == Min(buffer.Length, |input| - count)
    {
      count := count + readCount;
      readCount := buffer.Length;
      bufferLast := readCount - 1;
      current := 0;
      var ok, gcount := StreamRead();
      if !ok {
        readCount := gcount;
        bufferLast := readCount;
        buffer[readCount] := NUL;
        eof := true;
      }
      WindowFilled(input, stream, buffer[..], count, readCount);
    }
  }
}
