/** Read-ahead on a file descriptor, and the calls that have to undo it. */
module Buffering {
  import opened Bytes
  import Division

  const READ_BUFFER_MAX := 128

  datatype Whence = SeekSet | SeekCur | SeekEnd

  function Min(a: int, b: int): int {
    if a < b then a else b
  }

  /** What a reader at position `at` has before it. */
  function Ahead(content: seq<Byte>, at: nat): nat {
    if at < |content| then |content| - at else 0
  }

  /** The file after `data` is written at a position; a gap reads as zeros. */
  function Written(content: seq<Byte>, at: nat, data: seq<Byte>): seq<Byte> {
    if data == [] then content
    else if at >= |content| then content + seq(at - |content|, _ => 0) + data
    else content[..at] + data + content[Min(at + |data|, |content|)..]
  }

  /** The byte at each position after a write. */
  lemma WrittenAt(content: seq<Byte>, at: nat, data: seq<Byte>, k: nat)
    requires data != [] && k < |Written(content, at, data)|
    ensures |Written(content, at, data)| == if at + |data| > |content| then at + |data| else |content|
    ensures Written(content, at, data)[k] ==
      if at <= k < at + |data| then data[k - at] else if k < |content| then content[k] else 0
  {
  }

  /** Where the byte comes from that a forward copy leaves `j` bytes into the
      destination: when that starts inside the source, the bytes in between
      come again and again. */
  function Origin(dest: nat, src: nat, j: nat): (k: nat)
    ensures dest <= src || j < dest - src ==> k == src + j
    ensures src <= k <= src + j
    decreases j
  {
    if dest <= src || j < dest - src then src + j else Origin(dest, src, j - (dest - src))
  }

  /** That is, its place in the source repeats with the distance. */
  lemma {:induction false} OriginRepeats(dest: nat, src: nat, j: nat)
    requires src < dest
    ensures Origin(dest, src, j) == src + j % (dest - src)
    decreases j
  {
    var d := dest - src;
    if j >= d {
      OriginRepeats(dest, src, j - d);
      Repeats(j, d);
    }
  }

  lemma Repeats(j: nat, d: nat)
    requires 0 < d <= j
    ensures j % d == (j - d) % d
  {
    var q, r := (j - d) / d, (j - d) % d;
    assert j - d == q * d + r;
    assert (q + 1) * d == q * d + d;
    Division.QuotientUnique(j, d, q + 1, r);
  }

  method Memcpy(a: array<Byte>, dest: nat, src: nat, n: nat)
    requires dest + n <= a.Length && src + n <= a.Length
    modifies a
    ensures forall k :: dest <= k < dest + n ==> a[k] == old(a[Origin(dest, src, k - dest)])
    ensures dest <= src || src + n <= dest ==> a[dest..dest + n] == old(a[src..src + n])
    ensures forall k :: 0 <= k < a.Length && !(dest <= k < dest + n) ==> a[k] == old(a[k])
  {
    var p, q, left := dest, src, n;
    while left > 0
      invariant 0 <= left <= n && p == dest + n - left && q == src + n - left
      invariant forall k :: dest <= k < p ==> a[k] == old(a[Origin(dest, src, k - dest)])
      invariant forall k :: 0 <= k < a.Length && !(dest <= k < p) ==> a[k] == old(a[k])
    {
      left := left - 1;
      assert Origin(dest, src, q - src) == if src < dest <= q then Origin(dest, src, q - dest) else q;
      a[p] := a[q];
      p := p + 1;
      q := q + 1;
    }
  }

  /** A copy within one array, whichever way the ranges overlap. */
  method Memmove(a: array<Byte>, dest: nat, src: nat, n: nat)
    requires dest + n <= a.Length && src + n <= a.Length
    modifies a
    ensures a[dest..dest + n] == old(a[src..src + n])
    ensures forall k :: dest <= k < dest + n ==> a[k] == old(a[k - dest + src])
    ensures forall k :: 0 <= k < a.Length && !(dest <= k < dest + n) ==> a[k] == old(a[k])
  {
    if dest < src {
      Memcpy(a, dest, src, n);
      return;
    }
    var p, q, left := dest + n, src + n, n;
    while left > 0
      invariant 0 <= left <= n && p == dest + left && q == src + left
      invariant forall k :: p <= k < dest + n ==> a[k] == old(a[k - dest + src])
      invariant forall k :: 0 <= k < a.Length && !(p <= k < dest + n) ==> a[k] == old(a[k])
    {
      left := left - 1;
      p := p - 1;
      q := q - 1;
      a[p] := a[q];
    }
  }

  /** A regular file that is open on a descriptor. */
  class Descriptor {
    // The kernel's side.
    var content: seq<Byte>
    var offset: nat
    // The library's side: a cache that is filled from its end.
    const max: nat
    const cache: array<Byte>
    var size: nat

    ghost predicate Valid()
      reads this, cache
    {
      && max <= READ_BUFFER_MAX == cache.Length
      && size <= max && size <= offset && size <= Ahead(content, offset - size)
      && (forall k :: max - size <= k < max ==> cache[k] == content[offset - max + k])
    }

    /** Where the program is in the file. */
    ghost function Position(): int
      reads this
    {
      offset - size
    }

    constructor (content: seq<Byte>, readBuffer: int)
      ensures Valid() && this.content == content && Position() == 0 && fresh(cache)
      ensures max == if readBuffer < 0 then 0 else Min(readBuffer, READ_BUFFER_MAX)
    {
      this.content := content;
      offset := 0;
      max := if readBuffer < 0 then 0 else Min(readBuffer, READ_BUFFER_MAX);
      cache := new Byte[READ_BUFFER_MAX](_ => 0);
      size := 0;
    }

    /** The system call: it may read less than there is, but not nothing. */
    method KernelRead(buffer: array<Byte>, at: nat, n: nat) returns (bytes: nat)
      requires at + n <= buffer.Length
      modifies this`offset, buffer
      ensures bytes <= n && bytes <= Ahead(content, old(offset)) && offset == old(offset) + bytes
      ensures bytes == 0 ==> n == 0 || Ahead(content, offset) == 0
      ensures forall k :: at <= k < at + bytes ==> buffer[k] == content[old(offset) + k - at]
      ensures forall k :: 0 <= k < buffer.Length && !(at <= k < at + bytes) ==> buffer[k] == old(buffer[k])
    {
      var most := Min(n, Ahead(content, offset));
      bytes :| 0 <= bytes <= most && (most > 0 ==> bytes > 0);
      var i := 0;
      while i < bytes
        invariant 0 <= i <= bytes <= Ahead(content, offset) && offset == old(offset)
        invariant forall k :: at <= k < at + i ==> buffer[k] == content[offset + k - at]
        invariant forall k :: 0 <= k < buffer.Length && !(at <= k < at + i) ==> buffer[k] == old(buffer[k])
      {
        buffer[at + i] := content[offset + i];
        i := i + 1;
      }
      offset := offset + bytes;
    }

    method KernelSeek(where: int, whence: Whence) returns (r: int)
      modifies this`offset
      ensures
        var target := where + if whence.SeekSet? then 0 else if whence.SeekCur? then old(offset) else |content|;
        if target < 0 then r == -1 && offset == old(offset) else r == offset == target
    {
      var target := where + if whence.SeekSet? then 0 else if whence.SeekCur? then offset else |content|;
      if target < 0 {
        r := -1;
      } else {
        offset := target;
        r := target;
      }
    }

    /** It may write less than it is given. */
    method KernelWrite(data: seq<Byte>) returns (r: nat)
      modifies this`offset, this`content
      ensures r <= |data| && offset == old(offset) + r && (data != [] ==> r > 0)
      ensures content == Written(old(content), old(offset), data[..r])
    {
      r :| 0 <= r <= |data| && (data != [] ==> r > 0);
      content := Written(content, offset, data[..r]);
      offset := offset + r;
    }

    method Clear() returns (skip: nat)
      requires Valid()
      modifies this`size
      ensures Valid() && size == 0 && skip == old(size)
    {
      skip := size;
      size := 0;
    }

    /** The position moves by what is delivered, which is what comes next in the
        file. */
    twostate predicate Delivers(buffer: array<Byte>, at: nat, n: nat)
      requires at + n <= buffer.Length
      reads this, cache, buffer
    {
      && Valid() && content == old(content) && old(Position()) >= 0
      && Position() == old(Position()) + n
      && n <= Ahead(content, old(Position()))
      && forall k :: at <= k < at + n ==> buffer[k] == content[old(Position()) + k - at]
    }

    /** The bytes of the cache first. */
    method Drain(buffer: array<Byte>, at: nat, n: nat) returns (todo: nat)
      requires Valid() && at + n <= buffer.Length && buffer != cache
      modifies this`size, buffer
      ensures Valid() && todo <= n && (todo == 0 || size == 0)
      ensures old(size) > 0 && n > 0 ==> todo < n
      ensures old(size) == 0 ==> todo == n
      ensures Delivers(buffer, at, n - todo)
      ensures forall k :: 0 <= k < buffer.Length && !(at <= k < at + n - todo) ==> buffer[k] == old(buffer[k])
    {
      todo := n;
      var p := at;
      while size > 0 && todo > 0
        invariant 0 <= todo <= n && p == at + n - todo && size + n - todo == old(size)
        invariant forall k :: at <= k < p ==> buffer[k] == content[offset - old(size) + k - at]
        invariant forall k :: 0 <= k < buffer.Length && !(at <= k < p) ==> buffer[k] == old(buffer[k])
      {
        todo := todo - 1;
        buffer[p] := cache[max - size];
        size := size - 1;
        p := p + 1;
      }
    }

    /** Fills the cache, from its end. */
    method Refill() returns (bytes: nat)
      requires Valid() && size == 0 && max > 0
      modifies this`size, this`offset, cache
      ensures Valid() && Position() == old(Position())
      ensures size == bytes && (bytes == 0 ==> Ahead(content, offset) == 0)
    {
      bytes := KernelRead(cache, 0, max);
      if bytes > 0 {
        size := bytes;
        AlignRight();
      }
    }

    /** Moves the bytes of a short read to the end of the cache. */
    method AlignRight()
      requires 0 < size <= max <= READ_BUFFER_MAX == cache.Length
      requires size <= offset && size <= Ahead(content, offset - size)
      requires forall k :: 0 <= k < size ==> cache[k] == content[offset - size + k]
      modifies cache
      ensures Valid()
    {
      if size < max {
        Memmove(cache, max - size, 0, size);
        forall k | max - size <= k < max ensures cache[k] == content[offset - max + k] {
          var j := k - (max - size);
          assert cache[k] == old(cache[j]) == content[offset - size + j];
        }
      }
    }

    /** Each read delivers the bytes at the program's position.  Requests up to
        the size of the cache are served in full, but at the end of the file;
        and nothing is served only there, or when nothing is asked for. */
    method Read(buffer: array<Byte>, at: nat, n: nat) returns (r: nat)
      requires Valid() && at + n <= buffer.Length && buffer != cache
      modifies this`size, this`offset, cache, buffer
      ensures r <= n && Delivers(buffer, at, r)
      ensures forall k :: 0 <= k < buffer.Length && !(at <= k < at + r) ==> buffer[k] == old(buffer[k])
      ensures r == 0 <==> n == 0 || old(Position()) >= |content|
      ensures n <= max ==> r == n || old(Position()) + r >= |content|
      decreases n, if size == 0 then 2 else 0
    {
      if size == 0 && n > max {
        r := KernelRead(buffer, at, n);
        return;
      }
      var todo := Drain(buffer, at, n);
      r := n - todo;
      if todo > 0 {
        var p := at + n - todo;
        var more := ReadRest(buffer, p, todo);
        r := n - todo + more;
      }
    }

    /** Nothing is cached: a large request goes to the kernel, a small one is
        served from a new cache. */
    method ReadRest(buffer: array<Byte>, at: nat, n: nat) returns (r: nat)
      requires Valid() && at + n <= buffer.Length && buffer != cache && size == 0 && n > 0
      modifies this`size, this`offset, cache, buffer
      ensures r <= n && Delivers(buffer, at, r)
      ensures forall k :: 0 <= k < buffer.Length && !(at <= k < at + r) ==> buffer[k] == old(buffer[k])
      ensures r == 0 <==> Ahead(content, old(Position())) == 0
      ensures n <= max ==> r == Min(n, Ahead(content, old(Position())))
      decreases n, 1
    {
      if n > max {
        r := KernelRead(buffer, at, n);
        return;
      }
      var bytes := Refill();
      r := 0;
      if bytes > 0 {
        r := Read(buffer, at, n);
      }
    }

    /** Seeks as if nothing had been read ahead.  A seek that the kernel refuses
        has dropped the bytes read ahead all the same: the position moves behind
        them, so that it is kept exactly if there were none. */
    method Lseek(where: int, whence: Whence) returns (r: int)
      requires Valid()
      modifies this`size, this`offset
      ensures Valid() && size == 0
      ensures
        var target := where + if whence.SeekSet? then 0 else if whence.SeekCur? then old(Position()) else |content|;
        if target >= 0 then r == Position() == target
        else r == -1 && (Position() == old(Position()) <==> old(size) == 0)
    {
      var _ := KernelSeek(0, SeekCur);
      var skip := Clear();
      var offset := where;
      if whence.SeekCur? {
        offset := offset - skip;
      }
      r := KernelSeek(offset, whence);
    }

    /** Writes at the program's position, and moves behind what was written. */
    method Write(data: seq<Byte>) returns (r: nat)
      requires Valid()
      modifies this`size, this`offset, this`content
      ensures Valid() && r <= |data| && (data != [] ==> r > 0)
      ensures old(Position()) >= 0 && Position() == old(Position()) + r
      ensures content == Written(old(content), old(Position()), data[..r])
    {
      var skip := Clear();
      if skip > 0 {
        var _ := Lseek(0 - skip as int, SeekCur);
      }
      r := KernelWrite(data);
    }
  }
}
