/**
  Base::OutputStream / Base::InputStream string codec.

  A text-mode string record is the decimal count of '\n' in the string, a
  ':' delimiter, the string with its line ends normalised, and one '\n'. A
  binary-mode record is a 32-bit length followed by that many raw bytes.

  Streams are character sequences: an `OutputStream` appends to `out`, an
  `InputStream` reads `data` from `pos` and keeps the `failbit` as `failed`.
  The 32-bit integer encoding of the binary length lives in Stream.h, which
  is not part of this model: it is taken here as four bytes, least
  significant first.
*/
module Streams {

  const Uint32Limit: nat := 0x1_0000_0000

  /** What a read step has extracted, the input left after it, and whether the stream is still good. */
  datatype Piece = Piece(text: string, rest: string, ok: bool)

  /** `p` with `prefix` extracted before it. */
  function Then(prefix: string, p: Piece): Piece {
    Piece(prefix + p.text, p.rest, p.ok)
  }

  lemma ThenThen(a: string, b: string, p: Piece)
    ensures Then(a, Then(b, p)) == Then(a + b, p)
  {
    assert (a + b) + p.text == a + (b + p.text);
  }

  /** The number of '\n' characters in `s`. */
  function NewlineCount(s: string): nat {
    if |s| == 0 then 0 else (if s[0] == '\n' then 1 else 0) + NewlineCount(s[1..])
  }

  lemma {:induction false} NewlineCountAppend(a: string, b: string)
    ensures NewlineCount(a + b) == NewlineCount(a) + NewlineCount(b)
    decreases |a|
  {
    if |a| == 0 {
      assert a + b == b;
    } else {
      assert (a + b)[1..] == a[1..] + b;
      NewlineCountAppend(a[1..], b);
    }
  }

  lemma {:induction false} NewlineCountNone(s: string)
    ensures NewlineCount(s) == 0 <==> '\n' !in s
    decreases |s|
  {
    if |s| > 0 {
      NewlineCountNone(s[1..]);
      assert s == [s[0]] + s[1..];
    }
  }

  // ---------------------------------------------------------------------------
  // Writing

  /**
    The text the write loop puts: "\r\n" becomes "\n", a '\r' followed by any
    other character is kept together with that character, and a '\r' at the
    very end is dropped.
  */
  function Normalize(s: string): string
    decreases |s|
  {
    if |s| == 0 then ""
    else if s[0] == '\r' then
      if |s| == 1 then ""
      else if s[1] == '\n' then "\n" + Normalize(s[2..])
      else ['\r', s[1]] + Normalize(s[2..])
    else [s[0]] + Normalize(s[1..])
  }

  /**
    Normalisation never lengthens the text, keeps the number of '\n' (so the
    count written before it is the count of the text that follows), and
    leaves a text without '\r' as it is.
  */
  lemma {:induction false} NormalizeCounts(s: string)
    ensures |Normalize(s)| <= |s|
    ensures NewlineCount(Normalize(s)) == NewlineCount(s)
    ensures '\r' !in s ==> Normalize(s) == s
    decreases |s|
  {
    if |s| == 0 {
    } else if s[0] == '\r' {
      if |s| >= 2 {
        NormalizeCounts(s[2..]);
        assert s == [s[0], s[1]] + s[2..];
        NewlineCountAppend([s[0], s[1]], s[2..]);
        if s[1] == '\n' {
          NewlineCountAppend("\n", Normalize(s[2..]));
        } else {
          NewlineCountAppend(['\r', s[1]], Normalize(s[2..]));
        }
      }
    } else {
      NormalizeCounts(s[1..]);
      assert s == [s[0]] + s[1..];
      NewlineCountAppend([s[0]], Normalize(s[1..]));
    }
  }

  /** A prefix without '\r' passes through normalisation unchanged and does not disturb what follows. */
  lemma {:induction false} NormalizeAppend(a: string, b: string)
    requires '\r' !in a
    ensures Normalize(a + b) == a + Normalize(b)
    decreases |a|
  {
    if |a| == 0 {
      assert a + b == b;
    } else {
      assert (a + b)[0] == a[0];
      assert (a + b)[1..] == a[1..] + b;
      NormalizeAppend(a[1..], b);
      assert a == [a[0]] + a[1..];
    }
  }

  /** The three '\r' rules, each after a '\r'-free prefix `a`. */
  lemma CarriageReturnRules(a: string, c: char, b: string)
    requires '\r' !in a
    ensures Normalize(a + "\r") == a
    ensures Normalize(a + "\r\n" + b) == a + "\n" + Normalize(b)
    ensures c != '\n' ==> Normalize(a + ['\r', c] + b) == a + ['\r', c] + Normalize(b)
  {
    NormalizeAppend(a, "\r");
    NormalizeAppend(a, "\r\n" + b);
    assert a + "\r\n" + b == a + ("\r\n" + b);
    assert ("\r\n" + b)[2..] == b;
    NormalizeAppend(a, ['\r', c] + b);
    assert a + ['\r', c] + b == a + (['\r', c] + b);
    assert (['\r', c] + b)[2..] == b;
  }

  predicate IsDigit(c: char) {
    '0' <= c <= '9'
  }

  function DigitChar(d: nat): (c: char)
    requires d < 10
    ensures IsDigit(c)
  {
    (('0' as int) + d) as char
  }

  /** `std::ostream << unsigned`: the decimal digits of `n`, without leading zeros. */
  function Decimal(n: nat): (r: string)
    ensures |r| > 0
    ensures forall i :: 0 <= i < |r| ==> IsDigit(r[i])
    decreases n
  {
    if n < 10 then [DigitChar(n)] else Decimal(n / 10) + [DigitChar(n % 10)]
  }

  /** The text record of a C string `s`. */
  function TextRecord(s: string): string {
    Decimal(NewlineCount(s) % Uint32Limit) + ":" + Normalize(s) + "\n"
  }

  /** The four bytes of a 32-bit unsigned integer, least significant first. */
  function Le32(n: nat): (r: string)
    requires n < Uint32Limit
    ensures |r| == 4
  {
    [(n % 256) as char, (n / 256 % 256) as char, (n / 256 / 256 % 256) as char, (n / 256 / 256 / 256) as char]
  }

  /** The binary record of a C string `s`: a `uint32_t` length, then that many bytes. */
  function BinaryRecord(s: string): string {
    Le32(|s| % Uint32Limit) + s[..|s| % Uint32Limit]
  }

  /** `Base::OutputStream` over a character sink. */
  class OutputStream {
    const binary: bool
    var out: string

    constructor (binary: bool)
      ensures this.binary == binary && out == []
    {
      this.binary := binary;
      out := [];
    }

    /**
      `operator<<(const char*)`. `s` is the text of the C string, before its
      terminating NUL.
    */
    method WriteString(s: string)
      requires '\0' !in s
      modifies this`out
      ensures out == old(out) + (if binary then BinaryRecord(s) else TextRecord(s))
    {
      if binary {
        var len := |s| % Uint32Limit;
        out := out + Le32(len);
        out := out + s[..len];
        Associate(old(out), Le32(len), s[..len]);
        return;
      }

      var count := CountNewlines(s);
      ghost var head := Decimal(count) + ":";
      out := out + Decimal(count) + ":";
      Associate(old(out), Decimal(count), ":");
      PutNormalized(s);
      out := out + "\n";
      Associate(old(out), head, Normalize(s));
      Associate(old(out), head + Normalize(s), "\n");
    }

    /** The second loop of the text write: puts `s` with its line ends normalised. */
    method PutNormalized(s: string)
      modifies this`out
      ensures out == old(out) + Normalize(s)
    {
      ghost var total := out + Normalize(s);
      var i := 0;
      while i < |s|
        invariant 0 <= i <= |s|
        invariant total == out + Normalize(s[i..])
        decreases |s| - i
      {
        NormalizeStep(s, i);
        var c := s[i];
        i := i + 1;
        if c == '\r' {
          if i == |s| {
            break;
          }
          c := s[i];
          i := i + 1;
          if c != '\n' {
            out := out + ['\r'];
          }
        }
        out := out + [c];
      }
    }
  }

  /** One step of the normalising loop, at index `i`. */
  lemma NormalizeStep(s: string, i: nat)
    requires i < |s|
    ensures s[i] != '\r' ==> Normalize(s[i..]) == [s[i]] + Normalize(s[i + 1..])
    ensures s[i] == '\r' && i + 1 == |s| ==> Normalize(s[i..]) == ""
    ensures s[i] == '\r' && i + 1 < |s| && s[i + 1] == '\n' ==> Normalize(s[i..]) == "\n" + Normalize(s[i + 2..])
    ensures s[i] == '\r' && i + 1 < |s| && s[i + 1] != '\n' ==>
              Normalize(s[i..]) == ['\r', s[i + 1]] + Normalize(s[i + 2..])
  {
    assert s[i..][1..] == s[i + 1..];
    if i + 1 < |s| {
      assert s[i..][2..] == s[i + 2..];
    }
  }

  /** The first loop of the text write: the `uint32_t` count of '\n' in `s`. */
  method CountNewlines(s: string) returns (count: nat)
    ensures count == NewlineCount(s) % Uint32Limit
  {
    count := 0;
    var i := 0;
    while i < |s|
      invariant 0 <= i <= |s|
      invariant count == NewlineCount(s[..i]) % Uint32Limit
    {
      assert s[..i + 1] == s[..i] + [s[i]];
      NewlineCountAppend(s[..i], [s[i]]);
      if s[i] == '\n' {
        count := (count + 1) % Uint32Limit;
      }
      i := i + 1;
    }
    assert s[..i] == s;
  }

  // ---------------------------------------------------------------------------
  // Reading

  /** The characters `>>` skips before a value (the C locale's white space). */
  predicate IsSpace(c: char) {
    c == ' ' || c == '\t' || c == '\n' || c == 11 as char || c == 12 as char || c == '\r'
  }

  /** The length of the run of white space at the start of `t`. */
  function SpaceEnd(t: string): (n: nat)
    ensures n <= |t|
    ensures n == |t| || !IsSpace(t[n])
    decreases |t|
  {
    if |t| > 0 && IsSpace(t[0]) then 1 + SpaceEnd(t[1..]) else 0
  }

  /** `t` after the white space `>>` skips. */
  function SkipSpace(t: string): string {
    t[SpaceEnd(t)..]
  }

  /** The length of the run of digits at the start of `t`. */
  function DigitEnd(t: string): (n: nat)
    ensures n <= |t|
    ensures forall i :: 0 <= i < n ==> IsDigit(t[i])
    ensures n == |t| || !IsDigit(t[n])
    decreases |t|
  {
    if |t| > 0 && IsDigit(t[0]) then 1 + DigitEnd(t[1..]) else 0
  }

  function DigitsValue(d: string): nat
    requires forall i :: 0 <= i < |d| ==> IsDigit(d[i])
  {
    if |d| == 0 then 0
    else
      assert IsDigit(d[|d| - 1]);
      DigitsValue(d[..|d| - 1]) * 10 + ((d[|d| - 1] as int) - ('0' as int))
  }

  lemma {:induction false} DecimalValue(n: nat)
    ensures DigitsValue(Decimal(n)) == n
    decreases n
  {
    if n >= 10 {
      var d := Decimal(n);
      assert d[..|d| - 1] == Decimal(n / 10);
      DecimalValue(n / 10);
    }
  }

  /**
    A counted line, as the inner `for(;;)` of the text read extracts it:
    the characters up to and including '\n'; a "\r\n" ends the line, and the
    corrected reader (`fixed`) then extracts '\n' in its place while the
    reader as written extracts nothing for it.
  */
  function Line(t: string, fixed: bool): Piece
    decreases |t|
  {
    if |t| == 0 then Piece("", "", false)
    else if t[0] == '\r' then
      if |t| == 1 then Piece("", "", false)
      else if t[1] == '\n' then Piece(if fixed then "\n" else "", t[2..], true)
      else Then(['\r', t[1]], Line(t[2..], fixed))
    else if t[0] == '\n' then Piece("\n", t[1..], true)
    else Then([t[0]], Line(t[1..], fixed))
  }

  /** The last line: up to '\n' or "\r\n", neither of which is extracted. */
  function LastLine(t: string): Piece
    decreases |t|
  {
    if |t| == 0 then Piece("", "", false)
    else if t[0] == '\r' then
      if |t| == 1 then Piece("", "", false)
      else if t[1] == '\n' then Piece("", t[2..], true)
      else Then(['\r', t[1]], LastLine(t[2..]))
    else if t[0] == '\n' then Piece("", t[1..], true)
    else Then([t[0]], LastLine(t[1..]))
  }

  /** One turn of the counted-line loop: what `Line` does with the first one or two characters. */
  lemma LineStep(t: string, fixed: bool)
    ensures |t| == 0 ==> Line(t, fixed) == Piece("", "", false)
    ensures |t| == 1 && t[0] == '\r' ==> Line(t, fixed) == Piece("", "", false)
    ensures |t| >= 2 && t[0] == '\r' && t[1] == '\n' ==> Line(t, fixed) == Piece(if fixed then "\n" else "", t[2..], true)
    ensures |t| >= 2 && t[0] == '\r' && t[1] != '\n' ==> Line(t, fixed) == Then(['\r', t[1]], Line(t[2..], fixed))
    ensures |t| >= 1 && t[0] == '\n' ==> Line(t, fixed) == Piece("\n", t[1..], true)
    ensures |t| >= 1 && t[0] != '\r' && t[0] != '\n' ==> Line(t, fixed) == Then([t[0]], Line(t[1..], fixed))
  {
  }

  /** One turn of the last-line loop. */
  lemma LastLineStep(t: string)
    ensures |t| == 0 ==> LastLine(t) == Piece("", "", false)
    ensures |t| == 1 && t[0] == '\r' ==> LastLine(t) == Piece("", "", false)
    ensures |t| >= 2 && t[0] == '\r' && t[1] == '\n' ==> LastLine(t) == Piece("", t[2..], true)
    ensures |t| >= 2 && t[0] == '\r' && t[1] != '\n' ==> LastLine(t) == Then(['\r', t[1]], LastLine(t[2..]))
    ensures |t| >= 1 && t[0] == '\n' ==> LastLine(t) == Piece("", t[1..], true)
    ensures |t| >= 1 && t[0] != '\r' && t[0] != '\n' ==> LastLine(t) == Then([t[0]], LastLine(t[1..]))
  {
  }

  /** `count` counted lines, then (while the stream is good) the last line. */
  function Body(t: string, count: nat, fixed: bool): Piece
    decreases count
  {
    if count == 0 then LastLine(t)
    else
      var l := Line(t, fixed);
      if !l.ok then l else Then(l.text, Body(l.rest, count - 1, fixed))
  }

  /** What `>> count >> c` leaves: the count, the input after the delimiter, and whether both were read. */
  datatype Header = Header(count: nat, rest: string, ok: bool)

  /**
    `>> count >> c` on a good stream: white space, then digits that must fit
    a `uint32_t`, then white space and the delimiter, whatever it is.
  */
  function ReadHeader(t: string): (h: Header)
    ensures h.ok ==> h.count < Uint32Limit
    ensures |h.rest| <= |t| && h.rest == t[|t| - |h.rest|..]
  {
    var u := SkipSpace(t);
    var n := DigitEnd(u);
    if n == 0 then Header(0, u, false)
    else if DigitsValue(u[..n]) >= Uint32Limit then Header(0, u[n..], false)
    else
      var w := SkipSpace(u[n..]);
      if |w| == 0 then Header(0, w, false)
      else Header(DigitsValue(u[..n]), w[1..], true)
  }

  /** `operator>>(std::string&)` in text mode on a good stream. */
  function TextRead(t: string, fixed: bool): Piece {
    var h := ReadHeader(t);
    if !h.ok then Piece("", h.rest, false) else Body(h.rest, h.count, fixed)
  }

  /** The value of four bytes, least significant first. */
  function Le32Value(b: string): (n: nat)
    requires |b| == 4
    ensures n < Uint32Limit
  {
    (b[0] as int % 256) + 256 * (b[1] as int % 256) + 65536 * (b[2] as int % 256) + 16777216 * (b[3] as int % 256)
  }

  lemma Le32RoundTrip(n: nat)
    requires n < Uint32Limit
    ensures Le32Value(Le32(n)) == n
  {
    var b := Le32(n);
    var q1 := n / 256;
    var q2 := q1 / 256;
    var q3 := q2 / 256;
    assert n == n % 256 + 256 * q1;
    assert q1 == q1 % 256 + 256 * q2;
    assert q2 == q2 % 256 + 256 * q3;
    assert q3 < 256;
    assert b[0] as int % 256 == n % 256;
    assert b[1] as int % 256 == q1 % 256;
    assert b[2] as int % 256 == q2 % 256;
    assert b[3] as int % 256 == q3;
  }

  /** `std::string::resize(len)`: truncated, or padded with NULs. */
  function Resize(s: string, len: nat): (r: string)
    ensures |r| == len
    ensures forall i :: 0 <= i < len && i < |s| ==> r[i] == s[i]
  {
    if len <= |s| then s[..len] else s + seq(len - |s|, _ => '\0')
  }

  /**
    `operator>>(std::string&)` in binary mode on a good stream; `prior` is
    the string's value before the call. A short length field fails and
    leaves the string alone; a short payload fails after reading what there
    is into the resized string.
  */
  function BinaryRead(t: string, prior: string): (r: Piece)
    ensures |r.rest| <= |t| && r.rest == t[|t| - |r.rest|..]
    ensures |t| >= 4 ==> |r.text| == Le32Value(t[..4])
    ensures r.ok <==> |t| >= 4 && Le32Value(t[..4]) <= |t| - 4
  {
    if |t| < 4 then Piece(prior, "", false)
    else
      var len := Le32Value(t[..4]);
      var avail := t[4..];
      if len <= |avail| then Piece(avail[..len], avail[len..], true)
      else Piece(avail + Resize(prior, len)[|avail|..], "", false)
  }

  /** Moving `k` further into `d` from `p` is dropping `k` from what is left at `p`. */
  lemma SliceShift(d: string, p: nat, k: nat)
    requires p + k <= |d|
    ensures d[p + k..] == d[p..][k..]
  {
  }

  /** `Base::InputStream` over an in-memory character source. */
  class InputStream {
    const binary: bool
    const data: string
    var pos: nat
    var failed: bool

    constructor (data: string, binary: bool)
      ensures this.data == data && this.binary == binary
      ensures pos == 0 && !failed
    {
      this.data := data;
      this.binary := binary;
      pos := 0;
      failed := false;
    }

    predicate Valid()
      reads this
    {
      pos <= |data|
    }

    /** `_in.get(c)` */
    method Get() returns (got: bool, c: char)
      requires Valid()
      modifies this`pos, this`failed
      ensures Valid()
      ensures got <==> !old(failed) && old(pos) < |data|
      ensures got ==> c == data[old(pos)] && pos == old(pos) + 1 && failed == old(failed)
      ensures !got ==> pos == old(pos) && failed
    {
      if failed || pos == |data| {
        failed := true;
        got, c := false, '\0';
      } else {
        got, c := true, data[pos];
        pos := pos + 1;
      }
    }

    /** The inner `for(;;)` of the text read: one counted line, as written. */
    method ReadCountedLine() returns (piece: string)
      requires Valid() && !failed
      modifies this`pos, this`failed
      ensures Valid()
      ensures Line(data[old(pos)..], false) == Piece(piece, data[pos..], !failed)
    {
      piece := "";
      ghost var total := Line(data[pos..], false);
      assert total == Then(piece, total);
      while true
        invariant Valid() && !failed
        invariant total == Then(piece, Line(data[pos..], false))
        decreases |data| - pos
      {
        ghost var t := data[pos..];
        LineStep(t, false);
        var got, c := Get();
        if !got {
          assert t == [] && data[pos..] == [];
          assert piece + [] == piece;
          return;
        }
        assert c == t[0] && data[pos..] == t[1..];
        if c == '\r' {
          got, c := Get();
          if !got {
            assert |t| == 1 && data[pos..] == [];
            assert piece + [] == piece;
            return;
          }
          assert c == t[1] && data[pos..] == t[2..];
          if c == '\n' {
            assert piece + [] == piece;
            return;
          }
          ThenThen(piece, ['\r', c], Line(data[pos..], false));
          piece := piece + ['\r', c];
        } else {
          ThenThen(piece, [c], Line(data[pos..], false));
          piece := piece + [c];
          if c == '\n' {
            return;
          }
        }
      }
    }

    /** The `while(_in.get(c))` of the text read: the last line. */
    method ReadLastLine() returns (piece: string)
      requires Valid() && !failed
      modifies this`pos, this`failed
      ensures Valid()
      ensures LastLine(data[old(pos)..]) == Piece(piece, data[pos..], !failed)
    {
      piece := "";
      ghost var total := LastLine(data[pos..]);
      assert total == Then(piece, total);
      while true
        invariant Valid() && !failed
        invariant total == Then(piece, LastLine(data[pos..]))
        decreases |data| - pos
      {
        ghost var t := data[pos..];
        LastLineStep(t);
        var got, c := Get();
        if !got {
          assert t == [] && data[pos..] == [];
          assert piece + [] == piece;
          return;
        }
        assert c == t[0] && data[pos..] == t[1..];
        if c == '\r' {
          got, c := Get();
          if !got {
            assert |t| == 1 && data[pos..] == [];
            assert piece + [] == piece;
            return;
          }
          assert c == t[1] && data[pos..] == t[2..];
          if c == '\n' {
            assert piece + [] == piece;
            return;
          }
          ThenThen(piece, ['\r', c], LastLine(data[pos..]));
          piece := piece + ['\r', c];
        } else {
          if c == '\n' {
            assert piece + [] == piece;
            return;
          }
          ThenThen(piece, [c], LastLine(data[pos..]));
          piece := piece + [c];
        }
      }
    }

    /** `_in >> count >> c` */
    method ReadCountField() returns (count: nat, ok: bool)
      requires Valid() && !failed
      modifies this`pos, this`failed
      ensures Valid()
      ensures ReadHeader(data[old(pos)..]) == Header(count, data[pos..], ok) && failed == !ok
    {
      var h := ReadHeader(data[pos..]);
      SliceShift(data, pos, |data| - pos - |h.rest|);
      pos := |data| - |h.rest|;
      count, ok := h.count, h.ok;
      failed := !ok;
    }

    /** `operator>>(std::string&)`; `prior` is the string's value before the call. */
    method ReadString(prior: string) returns (s: string)
      requires Valid()
      modifies this`pos, this`failed
      ensures Valid()
      ensures old(failed) ==> failed && pos == old(pos) && s == (if binary then prior else "")
      ensures !old(failed) ==>
                Piece(s, data[pos..], !failed) ==
                (if binary then BinaryRead(data[old(pos)..], prior) else TextRead(data[old(pos)..], false))
    {
      if binary {
        s := ReadBinary(prior);
      } else {
        s := ReadText();
      }
    }

    /** `operator>>(std::string&)` in text mode. */
    method ReadText() returns (s: string)
      requires Valid()
      modifies this`pos, this`failed
      ensures Valid()
      ensures old(failed) ==> s == "" && failed && pos == old(pos)
      ensures !old(failed) ==> TextRead(data[old(pos)..], false) == Piece(s, data[pos..], !failed)
    {
      s := "";
      if failed {
        return;
      }
      var count, ok := ReadCountField();
      if !ok {
        return;
      }

      s := ReadLines(count);
    }

    /** The counted lines and the last line of the text read. */
    method ReadLines(count: nat) returns (s: string)
      requires Valid() && !failed
      modifies this`pos, this`failed
      ensures Valid()
      ensures Body(data[old(pos)..], count, false) == Piece(s, data[pos..], !failed)
    {
      s := "";
      var i: nat := 0;
      ghost var total := Body(data[pos..], count, false);
      while i < count && !failed
        invariant Valid() && i <= count
        invariant total == if failed then Piece(s, data[pos..], false)
                           else Then(s, Body(data[pos..], count - i, false))
      {
        ghost var before := data[pos..];
        var piece := ReadCountedLine();
        ghost var l := Line(before, false);
        assert Body(before, count - i, false) ==
               if !l.ok then l else Then(l.text, Body(l.rest, count - i - 1, false));
        ThenThen(s, piece, Body(data[pos..], count - i - 1, false));
        s := s + piece;
        i := i + 1;
      }
      if !failed {
        var last := ReadLastLine();
        ThenThen(s, last, Piece("", data[pos..], !failed));
        s := s + last;
      }
    }

    /** `operator>>(std::string&)` in binary mode; `prior` is the string's value before the call. */
    method ReadBinary(prior: string) returns (s: string)
      requires Valid()
      modifies this`pos, this`failed
      ensures Valid()
      ensures old(failed) ==> s == prior && failed && pos == old(pos)
      ensures !old(failed) ==> BinaryRead(data[old(pos)..], prior) == Piece(s, data[pos..], !failed)
    {
      if failed {
        s := prior;
        return;
      }
      var r := BinaryRead(data[pos..], prior);
      s := r.text;
      pos := |data| - |r.rest|;
      failed := !r.ok;
    }
  }

  // ---------------------------------------------------------------------------
  // Round trips

  /** `s` with every '\n' written as "\r\n" (`crlf`) or left alone. */
  function WithEol(s: string, crlf: bool): string
    decreases |s|
  {
    if |s| == 0 then ""
    else (if s[0] == '\n' && crlf then "\r\n" else [s[0]]) + WithEol(s[1..], crlf)
  }

  function Eol(crlf: bool): string {
    if crlf then "\r\n" else "\n"
  }

  lemma {:induction false} WithEolAppend(a: string, b: string, crlf: bool)
    ensures WithEol(a + b, crlf) == WithEol(a, crlf) + WithEol(b, crlf)
    decreases |a|
  {
    if |a| == 0 {
      assert a + b == b;
    } else {
      assert (a + b)[0] == a[0];
      assert (a + b)[1..] == a[1..] + b;
      WithEolAppend(a[1..], b, crlf);
    }
  }

  lemma {:induction false} WithEolIdentity(s: string, crlf: bool)
    requires !crlf || '\n' !in s
    ensures WithEol(s, crlf) == s
    decreases |s|
  {
    if |s| > 0 {
      WithEolIdentity(s[1..], crlf);
      assert s == [s[0]] + s[1..];
    }
  }

  /** A line without '\r' or '\n', ended by a line end, is read back with '\n' at its end. */
  lemma {:induction false} LineRoundTrip(a: string, r: string, crlf: bool, fixed: bool)
    requires '\r' !in a && '\n' !in a
    requires crlf ==> fixed
    ensures Line(a + Eol(crlf) + r, fixed) == Piece(a + "\n", r, true)
    decreases |a|
  {
    var t := a + Eol(crlf) + r;
    if |a| == 0 {
      assert t == Eol(crlf) + r;
      if crlf {
        assert t[0] == '\r' && t[1] == '\n' && t[2..] == r;
      } else {
        assert t[0] == '\n' && t[1..] == r;
      }
    } else {
      assert t[0] == a[0];
      assert t[1..] == a[1..] + Eol(crlf) + r;
      LineRoundTrip(a[1..], r, crlf, fixed);
      assert a == [a[0]] + a[1..];
    }
  }

  /** The last line, ended by a line end, is read back without it. */
  lemma {:induction false} LastLineRoundTrip(a: string, r: string, crlf: bool)
    requires '\r' !in a && '\n' !in a
    ensures LastLine(a + Eol(crlf) + r) == Piece(a, r, true)
    decreases |a|
  {
    var t := a + Eol(crlf) + r;
    if |a| == 0 {
      assert t == Eol(crlf) + r;
      if crlf {
        assert t[0] == '\r' && t[1] == '\n' && t[2..] == r;
      } else {
        assert t[0] == '\n' && t[1..] == r;
      }
    } else {
      assert t[0] == a[0];
      assert t[1..] == a[1..] + Eol(crlf) + r;
      LastLineRoundTrip(a[1..], r, crlf);
      assert a == [a[0]] + a[1..];
    }
  }

  /** The index of the first '\n' in `s`. */
  function FirstNewline(s: string): (j: nat)
    requires '\n' in s
    ensures j < |s| && s[j] == '\n' && '\n' !in s[..j]
    decreases |s|
  {
    if s[0] == '\n' then 0
    else
      var j := 1 + FirstNewline(s[1..]);
      assert s[..j] == [s[0]] + s[1..][..j - 1];
      j
  }

  /** A text with a '\n' is its first line, that '\n', and the rest. */
  lemma SplitFirstLine(s: string, crlf: bool) returns (a: string, b: string)
    requires '\n' in s
    ensures s == a + "\n" + b && '\n' !in a
    ensures '\r' !in s ==> '\r' !in a && '\r' !in b
    ensures NewlineCount(s) == 1 + NewlineCount(b)
    ensures WithEol(s, crlf) == a + Eol(crlf) + WithEol(b, crlf)
  {
    var j := FirstNewline(s);
    a, b := s[..j], s[j + 1..];
    assert s == a + "\n" + b;
    NewlineCountAppend(a + "\n", b);
    NewlineCountAppend(a, "\n");
    NewlineCountNone(a);
    WithEolAppend(a + "\n", b, crlf);
    WithEolAppend(a, "\n", crlf);
    WithEolIdentity(a, crlf);
    assert WithEol("\n", crlf) == Eol(crlf);
  }

  /** The counted lines and the last line of a '\r'-free text give the text back. */
  lemma {:induction false} BodyRoundTrip(s: string, r: string, crlf: bool, fixed: bool)
    requires '\r' !in s
    requires crlf ==> fixed
    ensures Body(WithEol(s, crlf) + Eol(crlf) + r, NewlineCount(s), fixed) == Piece(s, r, true)
    decreases |s|
  {
    NewlineCountNone(s);
    if '\n' !in s {
      WithEolIdentity(s, crlf);
      LastLineRoundTrip(s, r, crlf);
    } else {
      var a, b := SplitFirstLine(s, crlf);
      var t := WithEol(s, crlf) + Eol(crlf) + r;
      var tail := WithEol(b, crlf) + Eol(crlf) + r;
      Regroup(a, Eol(crlf), WithEol(b, crlf), Eol(crlf), r);
      BodyRoundTrip(b, r, crlf, fixed);
      BodyStep(a, b, tail, r, crlf, fixed);
    }
  }

  /** One counted line in front of a body that reads back. */
  lemma BodyStep(a: string, b: string, tail: string, r: string, crlf: bool, fixed: bool)
    requires '\r' !in a && '\n' !in a
    requires crlf ==> fixed
    requires Body(tail, NewlineCount(b), fixed) == Piece(b, r, true)
    ensures Body(a + Eol(crlf) + tail, 1 + NewlineCount(b), fixed) == Piece(a + "\n" + b, r, true)
  {
    LineRoundTrip(a, tail, crlf, fixed);
  }

  /** Moving the parentheses of a concatenation. */
  lemma Regroup(a: string, b: string, c: string, d: string, e: string)
    ensures (a + b + c) + d + e == a + b + (c + d + e)
  {
  }

  lemma {:induction false} DigitEndOf(d: string, rest: string)
    requires forall i :: 0 <= i < |d| ==> IsDigit(d[i])
    requires |rest| > 0 && !IsDigit(rest[0])
    ensures DigitEnd(d + rest) == |d|
    decreases |d|
  {
    if |d| == 0 {
      assert d + rest == rest;
    } else {
      assert (d + rest)[0] == d[0];
      assert (d + rest)[1..] == d[1..] + rest;
      DigitEndOf(d[1..], rest);
    }
  }

  /** `>> count >> c` reads the record's count and its ':' and stops before the text. */
  lemma ReadsCount(n: nat, rest: string)
    requires n < Uint32Limit
    ensures ReadHeader(Decimal(n) + ":" + rest) == Header(n, rest, true)
  {
    var d := Decimal(n);
    var t := d + (":" + rest);
    assert t == d + ":" + rest;
    assert t[0] == d[0];
    assert SkipSpace(t) == t;
    DigitEndOf(d, ":" + rest);
    assert t[..|d|] == d;
    DecimalValue(n);
    assert t[|d|..] == ":" + rest;
    assert SkipSpace(":" + rest) == ":" + rest;
    assert (":" + rest)[1..] == rest;
  }

  /** Converting the line ends of a record converts those of its text and of its final '\n'. */
  lemma RecordWithEol(s: string, crlf: bool)
    ensures WithEol(TextRecord(s), crlf) ==
            Decimal(NewlineCount(s) % Uint32Limit) + ":" + WithEol(Normalize(s), crlf) + Eol(crlf)
  {
    var d := Decimal(NewlineCount(s) % Uint32Limit);
    CountHasNoNewline(d);
    LineWithEol(d + ":", Normalize(s), crlf);
  }

  /** A head without '\n', then a text and its '\n': only the text and the final '\n' are converted. */
  lemma LineWithEol(head: string, n: string, crlf: bool)
    requires '\n' !in head
    ensures WithEol(head + n + "\n", crlf) == head + WithEol(n, crlf) + Eol(crlf)
  {
    Associate(head, n, "\n");
    WithEolAppend(head, n + "\n", crlf);
    WithEolAppend(n, "\n", crlf);
    WithEolIdentity(head, crlf);
    NewlineWithEol(crlf);
    Associate(head, WithEol(n, crlf), Eol(crlf));
  }

  lemma NewlineWithEol(crlf: bool)
    ensures WithEol("\n", crlf) == Eol(crlf)
  {
    assert "\n"[1..] == "";
  }

  lemma Associate(a: string, b: string, c: string)
    ensures a + b + c == a + (b + c)
  {
  }

  /** The count and its ':' hold no '\n'. */
  lemma CountHasNoNewline(d: string)
    requires forall i :: 0 <= i < |d| ==> IsDigit(d[i])
    ensures '\n' !in d + ":"
  {
    forall i | 0 <= i < |d + ":"| ensures (d + ":")[i] != '\n' {
      if i < |d| {
        assert (d + ":")[i] == d[i];
      }
    }
  }

  lemma TextRoundTripEol(s: string, rest: string, crlf: bool, fixed: bool)
    requires '\r' !in s && NewlineCount(s) < Uint32Limit
    requires crlf ==> fixed
    ensures TextRead(WithEol(TextRecord(s), crlf) + rest, fixed) == Piece(s, rest, true)
  {
    var count := NewlineCount(s);
    NormalizeCounts(s);
    assert count % Uint32Limit == count;
    RecordWithEol(s, crlf);
    var w := WithEol(s, crlf);
    var body := w + Eol(crlf) + rest;
    var t := WithEol(TextRecord(s), crlf) + rest;
    Regroup(Decimal(count), ":", w, Eol(crlf), rest);
    ReadOfRecord(t, count, body, fixed);
    BodyRoundTrip(s, rest, crlf, fixed);
  }

  /** A record header that reads back gives way to its body. */
  lemma ReadOfRecord(t: string, count: nat, body: string, fixed: bool)
    requires count < Uint32Limit && t == Decimal(count) + ":" + body
    ensures TextRead(t, fixed) == Body(body, count, fixed)
  {
    ReadsCount(count, body);
  }

  /**
    Reading a text record back, as written, gives the string for every C
    string without '\r', and leaves the stream at what follows the record.
  */
  lemma TextRoundTrip(s: string, rest: string)
    requires '\0' !in s && '\r' !in s && NewlineCount(s) < Uint32Limit
    ensures TextRead(TextRecord(s) + rest, false) == Piece(s, rest, true)
  {
    WithEolIdentity(TextRecord(s), false);
    TextRoundTripEol(s, rest, false, false);
  }

  lemma TwoLinesCount()
    ensures NewlineCount("a\nb") == 1
  {
    NewlineCountAppend("a\n", "b");
    NewlineCountAppend("a", "\n");
    assert "a\nb" == "a\n" + "b";
    assert "a\n" == "a" + "\n";
  }

  lemma TwoLinesWithEol()
    ensures WithEol("a\nb", true) == "a\r\nb"
  {
    WithEolAppend("a\n", "b", true);
    WithEolAppend("a", "\n", true);
    assert "a\nb" == "a\n" + "b";
    assert "a\n" == "a" + "\n";
    assert WithEol("a", true) == "a";
    assert WithEol("b", true) == "b";
    assert WithEol("\n", true) == "\r\n";
  }

  /** The record of "a\nb" is "1:a\r\nb\r\n" once its line ends are converted. */
  lemma RecordOfTwoLines()
    ensures WithEol(TextRecord("a\nb"), true) == "1:a\r\nb\r\n"
    ensures WithEol(TextRecord("a\nb"), true) == Decimal(1) + ":" + "a\r\nb\r\n"
  {
    NormalizeCounts("a\nb");
    TwoLinesCount();
    TwoLinesWithEol();
    RecordWithEol("a\nb", true);
    assert NewlineCount("a\nb") % Uint32Limit == 1;
    assert Normalize("a\nb") == "a\nb";
    assert Decimal(1) == "1";
    assert Eol(true) == "\r\n";
    assert "1" + ":" + "a\r\nb" + "\r\n" == "1:a\r\nb\r\n";
  }

  /**
    Once every '\n' of a record has become "\r\n" (the end-of-line
    conversion the count is there to survive), the reader as written loses
    the '\n' of each counted line: the record of "a\nb" reads back as "ab".
  */
  lemma CrlfLineLosesNewline()
    ensures TextRead(WithEol(TextRecord("a\nb"), true), false) == Piece("ab", "", true)
  {
    RecordOfTwoLines();
    ReadOfRecord(WithEol(TextRecord("a\nb"), true), 1, "a\r\nb\r\n", false);
    CrlfLines();
  }

  lemma CrlfLines()
    ensures Body("a\r\nb\r\n", 1, false) == Piece("ab", "", true)
  {
    var body := "a\r\nb\r\n";
    assert body[1..] == "\r\nb\r\n" && body[1..][2..] == "b\r\n";
    assert Line(body, false) == Piece("a", "b\r\n", true);
    assert "b\r\n"[1..] == "\r\n" && "\r\n"[2..] == "";
    assert LastLine("b\r\n") == Piece("b", "", true);
  }

  /**
    The corrected reader extracts '\n' for a "\r\n" that ends a counted
    line, and then reads every converted record back.
  */
  lemma CrlfRoundTripFixed(s: string, rest: string)
    requires '\0' !in s && '\r' !in s && NewlineCount(s) < Uint32Limit
    ensures TextRead(WithEol(TextRecord(s), true) + rest, true) == Piece(s, rest, true)
  {
    TextRoundTripEol(s, rest, true, true);
  }

  /** Reading a binary record back gives the string, for every string shorter than 2^32. */
  lemma BinaryRoundTrip(s: string, rest: string, prior: string)
    requires |s| < Uint32Limit
    ensures BinaryRead(BinaryRecord(s) + rest, prior) == Piece(s, rest, true)
  {
    BinaryRecordOf(s);
    var u := s + rest;
    var t := BinaryRecord(s) + rest;
    assert t == Le32(|s|) + u;
    assert t[..4] == Le32(|s|) && t[4..] == u;
    Le32RoundTrip(|s|);
    BinaryReadOf(t, prior, |s|);
    assert u[..|s|] == s && u[|s|..] == rest;
  }

  /** A string that fits the length field is written whole after it. */
  lemma BinaryRecordOf(s: string)
    requires |s| < Uint32Limit
    ensures BinaryRecord(s) == Le32(|s|) + s
  {
    assert |s| % Uint32Limit == |s|;
    assert s[..|s|] == s;
  }

  /** A length field that is covered by the input reads exactly that many bytes. */
  lemma BinaryReadOf(t: string, prior: string, len: nat)
    requires |t| >= 4 && Le32Value(t[..4]) == len && len <= |t| - 4
    ensures BinaryRead(t, prior) == Piece(t[4..][..len], t[4..][len..], true)
  {
  }
}
