/** Output files and the fixed-width integers in their headers. */
module Files {
  import opened Bytes
  import opened Interleave

  const U16 := 0x1_0000
  const U32 := 0x1_0000_0000

  /** A number as an unsigned 16-bit or 32-bit field holds it; a length can be negative. */
  function Low16(x: nat): (r: nat)
    ensures r < U16
  {
    x % U16
  }

  function Low32(x: int): (r: nat)
    ensures r < U32
  {
    x % U32
  }

  /** The field and the number differ by a multiple of what the field can hold. */
  lemma LowLaw(x: int)
    ensures 0 <= Low32(x) < 0x1_0000_0000 && x - Low32(x) == x / 0x1_0000_0000 * 0x1_0000_0000
    ensures x >= 0 ==> 0 <= Low16(x) < 0x1_0000 && x - Low16(x) == x / 0x1_0000 * 0x1_0000
  {
  }

  /** The low `n` bytes of a number, least significant first. */
  function LittleBytes(x: nat, n: nat): (s: seq<byte>)
    ensures |s| == n
  {
    if n == 0 then [] else [x % 256] + LittleBytes(x / 256, n - 1)
  }

  /** The low `n` bytes of a number, most significant first. */
  function BigBytes(x: nat, n: nat): (s: seq<byte>)
    ensures |s| == n
  {
    if n == 0 then [] else BigBytes(x / 256, n - 1) + [x % 256]
  }

  /** Reading back what was written gives the number, up to the width of the field. */
  lemma {:induction false} LittleBytesValue(x: nat, n: nat)
    ensures LittleValue(LittleBytes(x, n)) == x % Pow256(n)
  {
    if n > 0 {
      LittleBytesValue(x / 256, n - 1);
      LittleCons(x % 256, LittleBytes(x / 256, n - 1));
      ModSplit(x, Pow256(n - 1));
    }
  }

  lemma {:induction false} BigBytesValue(x: nat, n: nat)
    ensures BigValue(BigBytes(x, n)) == x % Pow256(n)
  {
    if n > 0 {
      BigBytesValue(x / 256, n - 1);
      BigSnoc(BigBytes(x / 256, n - 1), x % 256);
      ModSplit(x, Pow256(n - 1));
    }
  }

  /** Only the low bytes matter. */
  lemma {:induction false} LowBytes(x: nat, n: nat)
    ensures LittleBytes(x % Pow256(n), n) == LittleBytes(x, n)
    ensures BigBytes(x % Pow256(n), n) == BigBytes(x, n)
  {
    if n > 0 {
      ModSplit(x, Pow256(n - 1));
      DivModUnique(x % Pow256(n), x / 256 % Pow256(n - 1), x % 256, 256);
      LowBytes(x / 256, n - 1);
    }
  }

  lemma LowWord(x: nat)
    ensures LittleBytes(Low32(x), 4) == LittleBytes(x, 4)
    ensures BigBytes(Low32(x), 4) == BigBytes(x, 4)
  {
    Widths();
    LowBytes(x, 4);
  }

  lemma ModSplit(x: nat, p: nat)
    requires p > 0
    ensures x % (256 * p) == x % 256 + 256 * (x / 256 % p)
  {
    var q, r := x / 256 / p, x / 256 % p;
    assert x / 256 == q * p + r;
    assert x == q * (256 * p) + (x % 256 + 256 * r);
    DivModUnique(x, q, x % 256 + 256 * r, 256 * p);
  }

  /** The `n` bytes from `from` on. */
  function Field(f: seq<byte>, from: nat, n: nat): (s: seq<byte>)
    requires from + n <= |f|
    ensures |s| == n
  {
    f[from..from + n]
  }

  lemma Widths()
    ensures Pow256(2) == U16 && Pow256(4) == U32
  {
    assert Pow256(2) == 256 * Pow256(1) == 256 * 256;
    assert Pow256(4) == 256 * Pow256(3) == 256 * (256 * Pow256(2));
  }

  /** Add a field to a header that is written from front to back. */
  method Put(buf: array<byte>, at: nat, data: seq<byte>)
    requires at + |data| <= buf.Length
    modifies buf
    ensures buf[..at + |data|] == old(buf[..at]) + data
  {
    CopyInto(buf, at, data);
  }

  /** `data` written at `position`, over what is there and on beyond the end; a gap before it is filled
      with zeros. */
  function Overwritten(contents: seq<byte>, position: nat, data: seq<byte>): (r: seq<byte>)
    ensures |r| == if data == [] || position + |data| < |contents| then |contents| else position + |data|
  {
    if data == [] then contents
    else if position > |contents| then contents + Fill(position - |contents|, 0) + data
    else
      contents[..position] + data +
      if position + |data| < |contents| then contents[position + |data|..] else []
  }

  /** How many of `n` bytes fit from `position` on. */
  function Room(position: nat, n: nat, capacity: nat): (r: nat)
    ensures r <= n
  {
    if position + n <= capacity then n else if position < capacity then capacity - position else 0
  }

  /** The file after `data` has been written, as far as there is room. */
  function Stored(contents: seq<byte>, position: nat, data: seq<byte>, capacity: nat): (r: seq<byte>)
    ensures |contents| <= capacity ==> |r| <= capacity
  {
    Overwritten(contents, position, data[..Room(position, |data|, capacity)])
  }

  /** The first `n` bytes, if there are so many. */
  function Clip(s: seq<byte>, n: nat): (r: seq<byte>)
    ensures r <= s && |r| == if |s| <= n then |s| else n
  {
    if |s| <= n then s else s[..n]
  }

  lemma StoredAtEnd(contents: seq<byte>, data: seq<byte>, capacity: nat)
    requires |contents| <= capacity
    ensures Stored(contents, |contents|, data, capacity) == Clip(contents + data, capacity)
  {
  }

  lemma StoredInside(contents: seq<byte>, position: nat, data: seq<byte>, capacity: nat)
    requires position + |data| <= |contents| <= capacity
    ensures Stored(contents, position, data, capacity) == Patch(contents, position, data)
  {
    assert data[..|data|] == data;
  }

  /** What comes after the end of a full file makes no difference. */
  lemma ClipFull(s: seq<byte>, more: seq<byte>, n: nat)
    requires s <= more && (|s| >= n || s == more)
    ensures Clip(s, n) == Clip(more, n)
  {
  }

  /** A file that takes `capacity` bytes at most, and cannot be positioned when it is a pipe. */
  class File {
    var contents: seq<byte>
    var position: nat
    const seekable: bool
    const capacity: nat

    ghost predicate Valid()
      reads this
    {
      |contents| <= capacity
    }

    constructor (seekable: bool, capacity: nat)
      ensures Valid() && contents == [] && position == 0
      ensures this.seekable == seekable && this.capacity == capacity
    {
      contents, position := [], 0;
      this.seekable, this.capacity := seekable, capacity;
    }

    /** `fwrite`: as many bytes as there is room for. */
    method Write(data: seq<byte>) returns (n: nat)
      requires Valid()
      modifies this
      ensures Valid()
      ensures n == Room(old(position), |data|, capacity)
      ensures position == old(position) + n
      ensures contents == Stored(old(contents), old(position), data, capacity)
    {
      n := Room(position, |data|, capacity);
      contents := Overwritten(contents, position, data[..n]);
      position := position + n;
    }

    /** `ftell` */
    method Tell() returns (p: int)
      ensures p == if seekable then position else -1
    {
      p := if seekable then position else -1;
    }

    /** `fseek` from the beginning of the file, also to beyond its end. */
    method Seek(p: nat) returns (ok: bool)
      modifies this`position
      ensures ok <==> seekable
      ensures position == if ok then p else old(position)
    {
      if seekable {
        position := p;
      }
      ok := seekable;
    }
  }
}
