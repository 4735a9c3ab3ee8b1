/**
  Base::Streambuf (over a std::string) and Base::ByteArrayIStreambuf (over a
  QByteArray): a read-only `std::streambuf` whose get position `_cur` moves
  over an immutable byte sequence between `_beg` (here 0) and `_end` (the
  size). The two classes implement the same members the same way and
  `ByteCursor` models either one.

  Bytes are kept as their unsigned values. Where the source compares a
  `char` of the buffer with an `int`, the `char` takes part with its own
  value, which is negative above 127 where `char` is signed (as on x86);
  `signedChar` says which.
*/
module StreamBuffers {
  import opened Wrappers

  type Byte = b: int | 0 <= b < 256

  /** `traits_type::eof()` */
  const Eof: int := -1

  /** `std::ios_base::seekdir` */
  datatype SeekDir = Beg | Cur | End

  /** The `int` a `char` holding byte `b` converts to. */
  function CharValue(b: Byte, signedChar: bool): (v: int)
    ensures v % 256 == b
    ensures v == b <==> !signedChar || b < 128
  {
    if signedChar && b >= 128 then b - 256 else b
  }

  /**
    `pbackfail(ch)` as written: the new cursor and the result. It fails at
    the beginning, and when `ch` is neither eof nor equal to the previous
    `char`; otherwise the cursor steps back over that byte and returns it.
  */
  function PutBack(buffer: seq<Byte>, cur: nat, ch: int, signedChar: bool): (r: (nat, int))
    requires cur <= |buffer|
    ensures r.1 == Eof <==> cur == 0 || (ch != Eof && ch != CharValue(buffer[cur - 1], signedChar))
    ensures r.1 == Eof ==> r.0 == cur
    ensures r.1 != Eof ==> r.0 == cur - 1 && r.1 == buffer[cur - 1]
  {
    if cur == 0 || (ch != Eof && ch != CharValue(buffer[cur - 1], signedChar)) then
      (cur, Eof)
    else
      (cur - 1, CharValue(buffer[cur - 1], signedChar) % 256)
  }

  /**
    `pbackfail(ch)` comparing `ch` with the previous byte as
    `traits_type::to_int_type` gives it, which is how `sputbackc` passes it.
  */
  function PutBackIntended(buffer: seq<Byte>, cur: nat, ch: int): (r: (nat, int))
    requires cur <= |buffer|
    ensures r.1 == Eof <==> cur == 0 || (ch != Eof && ch != buffer[cur - 1])
    ensures r.1 == Eof ==> r.0 == cur
    ensures r.1 != Eof ==> r.0 == cur - 1 && r.1 == buffer[cur - 1]
  {
    if cur == 0 || (ch != Eof && ch != buffer[cur - 1]) then (cur, Eof) else (cur - 1, buffer[cur - 1])
  }

  /** With the intended comparison, putting back the byte just read always undoes the read. */
  lemma PutBackUndoesRead(buffer: seq<Byte>, cur: nat)
    requires cur < |buffer|
    ensures PutBackIntended(buffer, cur + 1, buffer[cur]) == (cur, buffer[cur])
    ensures PutBackIntended(buffer, cur + 1, Eof) == (cur, buffer[cur])
  {
  }

  /** Where `char` is unsigned, or below 128, the code as written does what was intended. */
  lemma PutBackAgrees(buffer: seq<Byte>, cur: nat, ch: int, signedChar: bool)
    requires cur <= |buffer|
    requires cur > 0 ==> !signedChar || buffer[cur - 1] < 128
    ensures PutBack(buffer, cur, ch, signedChar) == PutBackIntended(buffer, cur, ch)
  {
  }

  /**
    Where `char` is signed, a byte above 127 that was just read cannot be
    put back: `sputbackc` passes 200 for the byte 0xC8, the buffer's `char`
    compares as -56, and `pbackfail` returns eof without moving.
  */
  lemma PutBackHighByteFails()
    ensures PutBack([200], 1, 200, true) == (1, Eof)
    ensures PutBackIntended([200], 1, 200) == (0, 200)
  {
  }

  /** The position `seekoff` starts from. */
  function SeekBase(size: nat, cur: nat, way: SeekDir): nat {
    match way
    case Beg => 0
    case Cur => cur
    case End => size
  }

  /** The target of `seekoff(off, way)`, or None when it lies outside [beg, end]. */
  function SeekTarget(size: nat, cur: nat, off: int, way: SeekDir): (r: Option<nat>)
    requires cur <= size
    ensures r.Some? <==> 0 <= SeekBase(size, cur, way) + off <= size
    ensures r.Some? ==> r.value == SeekBase(size, cur, way) + off
  {
    var p := SeekBase(size, cur, way);
    if p > size || p + off > size || p + off < 0 then None else Some(p + off)
  }

  /** Seeking from the end by `-n` and from the beginning by `size - n` reach the same place. */
  lemma SeekEndFromBeg(size: nat, cur: nat, n: int)
    requires cur <= size
    ensures SeekTarget(size, cur, -n, End) == SeekTarget(size, cur, size - n, Beg)
  {
  }

  class ByteCursor {
    const buffer: seq<Byte>
    const signedChar: bool
    var cur: nat

    constructor (data: seq<Byte>, signedChar: bool)
      ensures buffer == data && this.signedChar == signedChar && cur == 0
    {
      buffer := data;
      this.signedChar := signedChar;
      cur := 0;
    }

    /** `_beg <= _cur <= _end` */
    predicate Valid()
      reads this
    {
      cur <= |buffer|
    }

    /** `underflow()`: the current byte, without moving; eof at the end. */
    method Underflow() returns (r: int)
      requires Valid()
      ensures r == Eof <==> cur == |buffer|
      ensures cur < |buffer| ==> r == buffer[cur]
    {
      if cur == |buffer| {
        return Eof;
      }
      r := CharValue(buffer[cur], signedChar) % 256;
    }

    /** `uflow()`: the current byte, moving past it; eof at the end, without moving. */
    method Uflow() returns (r: int)
      requires Valid()
      modifies this`cur
      ensures Valid()
      ensures r == Eof <==> old(cur) == |buffer|
      ensures r == Eof ==> cur == old(cur)
      ensures r != Eof ==> r == buffer[old(cur)] && cur == old(cur) + 1
    {
      if cur == |buffer| {
        return Eof;
      }
      r := CharValue(buffer[cur], signedChar) % 256;
      cur := cur + 1;
    }

    /** `pbackfail(ch)` */
    method PBackFail(ch: int) returns (r: int)
      requires Valid()
      modifies this`cur
      ensures Valid()
      ensures (cur, r) == PutBack(buffer, old(cur), ch, signedChar)
    {
      if cur == 0 || (ch != Eof && ch != CharValue(buffer[cur - 1], signedChar)) {
        return Eof;
      }
      cur := cur - 1;
      r := CharValue(buffer[cur], signedChar) % 256;
    }

    /** `showmanyc()`: the bytes left, never negative. */
    method ShowManyC() returns (n: int)
      requires Valid()
      ensures n >= 0 && cur + n == |buffer|
    {
      n := |buffer| - cur;
    }

    /**
      `seekoff(off, way)`: a target outside [beg, end] returns eof and leaves
      the cursor alone; otherwise the cursor moves there and the result is
      its offset from the beginning.
    */
    method SeekOff(off: int, way: SeekDir) returns (r: int)
      requires Valid()
      modifies this`cur
      ensures Valid()
      ensures SeekTarget(|buffer|, old(cur), off, way).None? ==> r == Eof && cur == old(cur)
      ensures SeekTarget(|buffer|, old(cur), off, way).Some? ==>
                r == cur && cur == SeekTarget(|buffer|, old(cur), off, way).value
    {
      var p: int := -1;
      if way == Beg {
        p := 0;
      } else if way == End {
        p := |buffer|;
      } else if way == Cur {
        p := cur;
      }
      if p > |buffer| {
        return Eof;
      }
      if p + off > |buffer| || p + off < 0 {
        return Eof;
      }
      cur := p + off;
      r := p + off;
    }

    /** `seekpos(pos)` is `seekoff(pos, beg)`. */
    method SeekPos(pos: int) returns (r: int)
      requires Valid()
      modifies this`cur
      ensures Valid()
      ensures SeekTarget(|buffer|, old(cur), pos, Beg).None? ==> r == Eof && cur == old(cur)
      ensures SeekTarget(|buffer|, old(cur), pos, Beg).Some? ==>
                r == cur && cur == SeekTarget(|buffer|, old(cur), pos, Beg).value
    {
      r := SeekOff(pos, Beg);
    }
  }
}
