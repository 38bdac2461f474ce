/** The prelude in front of a replication stream: base64 text up to an end marker, read a
    byte at a time so that what follows is left for another reader (utils.go).
  */
module Preludes {
  import opened Snapshots

  type Byte = x: int | 0 <= x < 256
  type Sextet = x: int | 0 <= x < 64

  // ---------------------------------------------------------------------------
  // Base64, section 4 of RFC 4648
  // ---------------------------------------------------------------------------

  const Pad: Byte := '=' as int

  /** A-Z, a-z, 0-9, + and /. */
  function Symbol(n: Sextet): Byte {
    if n < 26 then 'A' as int + n
    else if n < 52 then 'a' as int + n - 26
    else if n < 62 then '0' as int + n - 52
    else if n == 62 then '+' as int
    else '/' as int
  }

  function SextetOf(b: Byte): Option<Sextet> {
    if 'A' as int <= b <= 'Z' as int then Some(b - 'A' as int)
    else if 'a' as int <= b <= 'z' as int then Some(b - 'a' as int + 26)
    else if '0' as int <= b <= '9' as int then Some(b - '0' as int + 52)
    else if b == '+' as int then Some(62)
    else if b == '/' as int then Some(63)
    else None
  }

  function EncodeString(data: seq<Byte>): seq<Byte> {
    if data == [] then []
    else if |data| == 1 then
      [Symbol(data[0] / 4), Symbol(data[0] % 4 * 16), Pad, Pad]
    else if |data| == 2 then
      [Symbol(data[0] / 4), Symbol(data[0] % 4 * 16 + data[1] / 16), Symbol(data[1] % 16 * 4), Pad]
    else
      [Symbol(data[0] / 4), Symbol(data[0] % 4 * 16 + data[1] / 16),
       Symbol(data[1] % 16 * 4 + data[2] / 64), Symbol(data[2] % 64)] + EncodeString(data[3..])
  }

  /** Line breaks in the text are passed over. */
  function DecodeString(text: seq<Byte>): Option<seq<Byte>> {
    DecodeSymbols(WithoutBreaks(text))
  }

  function WithoutBreaks(text: seq<Byte>): seq<Byte> {
    if text == [] then []
    else if text[0] == '\r' as int || text[0] == '\n' as int then WithoutBreaks(text[1..])
    else [text[0]] + WithoutBreaks(text[1..])
  }

  /** Padding may only end the text; unused bits in front of it are passed over. */
  function DecodeSymbols(text: seq<Byte>): Option<seq<Byte>> {
    if text == [] then Some([])
    else if |text| < 4 then None
    else
      var (a, b) := (SextetOf(text[0]), SextetOf(text[1]));
      if a.None? || b.None? then None
      else
        var first := a.value * 4 + b.value / 16;
        if text[2] == Pad then
          if |text| == 4 && text[3] == Pad then Some([first]) else None
        else
          var c := SextetOf(text[2]);
          if c.None? then None
          else
            var second := b.value % 16 * 16 + c.value / 4;
            if text[3] == Pad then
              if |text| == 4 then Some([first, second]) else None
            else
              var d := SextetOf(text[3]);
              if d.None? then None
              else
                match DecodeSymbols(text[4..])
                case None => None
                case Some(rest) => Some([first, second, c.value % 4 * 64 + d.value] + rest)
  }

  lemma SymbolsReadBack(n: Sextet)
    ensures SextetOf(Symbol(n)) == Some(n)
    ensures Symbol(n) != Pad && Symbol(n) != '!' as int
  {
  }

  /** The alphabet: A to Z, a to z, 0 to 9, + and /, in this order. */
  lemma AlphabetInOrder(n: Sextet)
    ensures Symbol(0) == 'A' as int && Symbol(25) == 'Z' as int && Symbol(26) == 'a' as int && Symbol(51) == 'z' as int
    ensures Symbol(52) == '0' as int && Symbol(61) == '9' as int && Symbol(62) == '+' as int && Symbol(63) == '/' as int
    ensures n !in {25, 51, 61, 62, 63} ==> Symbol(n + 1) == Symbol(n) + 1
    ensures forall b: Byte :: SextetOf(b) == Some(n) <==> b == Symbol(n)
  {
  }

  /** From section 10 of RFC 4648: "foobar" is "Zm9vYmFy", "fo" is "Zm8=", "f" is "Zg==". */
  lemma TestVectors()
    ensures EncodeString([102, 111, 111, 98, 97, 114]) == [90, 109, 57, 118, 89, 109, 70, 121]
    ensures EncodeString([102, 111]) == [90, 109, 56, 61] && EncodeString([102]) == [90, 103, 61, 61]
  {
    var foobar: seq<Byte> := [102, 111, 111, 98, 97, 114];
    assert foobar[3..] == [98, 97, 114] && foobar[3..][3..] == [];
    assert EncodeString(foobar[3..]) == [89, 109, 70, 121] + EncodeString([]);
  }

  /** "Zh==" has unused bits that are not zero, "Zg=" is cut and "Zg!=" has foreign text. */
  lemma UnusualTexts()
    ensures DecodeString([90, 104, 61, 61]) == Some([102])
    ensures DecodeString([90, 103, 61]) == None && DecodeString([90, 103, 33, 61]) == None
  {
    NothingToPassOver([90, 104, 61, 61]);
    NothingToPassOver([90, 103, 61]);
    NothingToPassOver([90, 103, 33, 61]);
  }

  lemma LastByte(a: Byte)
    ensures DecodeSymbols(EncodeString([a])) == Some([a])
  {
    SymbolsReadBack(a / 4);
    SymbolsReadBack(a % 4 * 16);
  }

  lemma LastTwoBytes(a: Byte, b: Byte)
    ensures DecodeSymbols(EncodeString([a, b])) == Some([a, b])
  {
    SymbolsReadBack(a / 4);
    SymbolsReadBack(a % 4 * 16 + b / 16);
    SymbolsReadBack(b % 16 * 4);
  }

  lemma SameBits(a: Byte, b: Byte, c: Byte)
    ensures a / 4 * 4 + (a % 4 * 16 + b / 16) / 16 == a
    ensures (a % 4 * 16 + b / 16) % 16 * 16 + (b % 16 * 4 + c / 64) / 4 == b
    ensures (b % 16 * 4 + c / 64) % 4 * 64 + c % 64 == c
  {
  }

  lemma ThreeBytes(a: Byte, b: Byte, c: Byte, text: seq<Byte>, rest: seq<Byte>)
    requires DecodeSymbols(text) == Some(rest)
    ensures DecodeSymbols([Symbol(a / 4), Symbol(a % 4 * 16 + b / 16), Symbol(b % 16 * 4 + c / 64), Symbol(c % 64)] + text)
            == Some([a, b, c] + rest)
  {
    SameBits(a, b, c);
    Quad(a / 4, a % 4 * 16 + b / 16, b % 16 * 4 + c / 64, c % 64, a, b, c, text, rest);
  }

  /** Four symbols at the front of a text stand for three bytes. */
  lemma Quad(k: Sextet, l: Sextet, m: Sextet, n: Sextet, a: Byte, b: Byte, c: Byte, text: seq<Byte>, rest: seq<Byte>)
    requires DecodeSymbols(text) == Some(rest)
    requires k * 4 + l / 16 == a && l % 16 * 16 + m / 4 == b && m % 4 * 64 + n == c
    ensures DecodeSymbols([Symbol(k), Symbol(l), Symbol(m), Symbol(n)] + text) == Some([a, b, c] + rest)
  {
    SymbolsReadBack(k);
    SymbolsReadBack(l);
    SymbolsReadBack(m);
    SymbolsReadBack(n);
    assert ([Symbol(k), Symbol(l), Symbol(m), Symbol(n)] + text)[4..] == text;
  }

  lemma {:induction false} SymbolsDecode(data: seq<Byte>)
    ensures DecodeSymbols(EncodeString(data)) == Some(data)
  {
    if |data| == 1 {
      LastByte(data[0]);
      assert data == [data[0]];
    } else if |data| == 2 {
      LastTwoBytes(data[0], data[1]);
      assert data == [data[0], data[1]];
    } else if |data| > 2 {
      SymbolsDecode(data[3..]);
      ThreeBytes(data[0], data[1], data[2], EncodeString(data[3..]), data[3..]);
      assert data == [data[0], data[1], data[2]] + data[3..];
    }
  }

  lemma {:induction false} NothingToPassOver(text: seq<Byte>)
    requires forall b <- text :: b != '\r' as int && b != '\n' as int
    ensures WithoutBreaks(text) == text
  {
    if text == [] {
    } else {
      assert text == [text[0]] + text[1..];
      assert forall b <- text[1..] :: b in text;
      assert text[0] in text;
      NothingToPassOver(text[1..]);
    }
  }

  lemma {:induction false} WithoutBreaksJoined(a: seq<Byte>, b: seq<Byte>)
    ensures WithoutBreaks(a + b) == WithoutBreaks(a) + WithoutBreaks(b)
  {
    if a == [] {
      assert a + b == b;
    } else {
      WithoutBreaksJoined(a[1..], b);
      assert (a + b)[1..] == a[1..] + b;
    }
  }

  /** A line break anywhere makes no difference to the decoder. */
  lemma BreaksMakeNoDifference(a: seq<Byte>, b: seq<Byte>, c: Byte)
    requires c == '\r' as int || c == '\n' as int
    ensures DecodeString(a + [c] + b) == DecodeString(a + b)
  {
    WithoutBreaksJoined(a + [c], b);
    WithoutBreaksJoined(a, [c]);
    WithoutBreaksJoined(a, b);
    assert [c][1..] == [] && WithoutBreaks([c]) == [];
    assert WithoutBreaks(a) + [] == WithoutBreaks(a);
  }

  /** What is decoded is made of symbols, and padding; anything else is refused. */
  lemma {:induction false} OnlySymbolsDecode(text: seq<Byte>)
    requires DecodeSymbols(text).Some?
    ensures |text| % 4 == 0 && forall b <- text :: SextetOf(b).Some? || b == Pad
  {
    if text == [] || |text| == 4 {
    } else {
      OnlySymbolsDecode(text[4..]);
      assert text == text[..4] + text[4..];
    }
  }

  lemma DecodeEncode(data: seq<Byte>)
    ensures DecodeString(EncodeString(data)) == Some(data)
  {
    NeverEmitsMark(data);
    NothingToPassOver(EncodeString(data));
    SymbolsDecode(data);
  }

  /** No symbol of the text can be mistaken for the beginning of the end marker, or for a line break. */
  lemma {:induction false} NeverEmitsMark(data: seq<Byte>)
    ensures forall b <- EncodeString(data) :: b != '!' as int && b != '\r' as int && b != '\n' as int
  {
    if |data| <= 2 {
    } else {
      NeverEmitsMark(data[3..]);
    }
  }

  // ---------------------------------------------------------------------------
  // Framing
  // ---------------------------------------------------------------------------

  /** The bytes of "!!END_PRELUDE!!". */
  const EndPrelude: seq<Byte> := [33, 33, 69, 78, 68, 95, 80, 82, 69, 76, 85, 68, 69, 33, 33]

  function EncodePrelude(payload: seq<Byte>): seq<Byte> {
    EncodeString(payload) + EndPrelude
  }

  /** The prelude of "f" in full: "Zg==!!END_PRELUDE!!". */
  lemma ShortestPrelude()
    ensures EncodePrelude([102]) == [90, 103, 61, 61,
                                     '!' as int, '!' as int, 'E' as int, 'N' as int, 'D' as int, '_' as int, 'P' as int, 'R' as int,
                                     'E' as int, 'L' as int, 'U' as int, 'D' as int, 'E' as int, '!' as int, '!' as int]
  {
    TestVectors();
  }

  predicate OccursAt(s: seq<Byte>, pattern: seq<Byte>, i: nat) {
    i + |pattern| <= |s| && s[i..i + |pattern|] == pattern
  }

  /** Where the pattern occurs first, if it does. */
  ghost predicate IsIndex(s: seq<Byte>, pattern: seq<Byte>, at: Option<nat>) {
    match at
    case None => forall i: nat :: !OccursAt(s, pattern, i)
    case Some(k) => OccursAt(s, pattern, k) && forall i: nat :: i < k ==> !OccursAt(s, pattern, i)
  }

  method Index(s: seq<Byte>, pattern: seq<Byte>) returns (at: Option<nat>)
    ensures IsIndex(s, pattern, at)
  {
    var i := 0;
    while i + |pattern| <= |s|
      invariant forall j: nat :: j < i ==> !OccursAt(s, pattern, j)
      decreases |s| - i
    {
      if s[i..i + |pattern|] == pattern {
        return Some(i);
      }
      i := i + 1;
    }
    return None;
  }

  /** A stream that is read from the front. */
  class Reader {
    var unread: seq<Byte>
    const breaks: bool   // what comes after the last byte is an error, not the end

    constructor (data: seq<Byte>, breaks: bool)
      ensures unread == data && this.breaks == breaks
    {
      unread := data;
      this.breaks := breaks;
    }

    method Read() returns (r: ReadResult)
      modifies this
      ensures old(unread) == [] ==> r == (if breaks then Failed else AtEnd) && unread == []
      ensures old(unread) != [] ==> r == Next(old(unread)[0]) && unread == old(unread)[1..]
    {
      if unread == [] {
        return if breaks then Failed else AtEnd;
      }
      r := Next(unread[0]);
      unread := unread[1..];
    }
  }

  datatype ReadResult = Next(b: Byte) | AtEnd | Failed

  /** What is read, and what is left. */
  ghost predicate Consumes(stream: seq<Byte>, breaks: bool, result: Result<seq<Byte>>, left: seq<Byte>) {
    exists at :: IsIndex(stream, EndPrelude, at) && ConsumesTo(stream, breaks, at, result, left)
  }

  predicate ConsumesTo(stream: seq<Byte>, breaks: bool, at: Option<nat>, result: Result<seq<Byte>>, left: seq<Byte>) {
    match at
    case None => result == Err(if breaks then "read error" else "Stream ended before prelude completed") && left == []
    case Some(k) =>
      k + |EndPrelude| <= |stream| && left == stream[k + |EndPrelude|..] && result == Decoded(stream[..k])
  }

  function Decoded(text: seq<Byte>): Result<seq<Byte>> {
    match DecodeString(text)
    case None => Err("illegal base64 data")
    case Some(data) => Ok(data)
  }

  method ConsumePrelude(r: Reader) returns (result: Result<seq<Byte>>)
    modifies r
    ensures Consumes(old(r.unread), r.breaks, result, r.unread)
  {
    var buf: seq<Byte> := [];
    while true
      invariant old(r.unread) == buf + r.unread
      invariant forall i: nat :: !OccursAt(buf, EndPrelude, i)
      decreases |r.unread|
    {
      var b := r.Read();
      if !b.Next? {
        assert buf == old(r.unread) && IsIndex(buf, EndPrelude, None);
        result := Err(if b.AtEnd? then "Stream ended before prelude completed" else "read error");
        ConsumedBy(old(r.unread), r.breaks, None, result, r.unread);
        return;
      }
      ghost var before := buf;
      buf := buf + [b.b];
      var idx := Index(buf, EndPrelude);
      if idx.Some? {
        FoundAsSoonAsRead(before, b.b, r.unread, idx.value);
        result := Decoded(buf[..idx.value]);
        assert old(r.unread) == before + [b.b] + r.unread;
        ConsumedBy(old(r.unread), r.breaks, Some(idx.value), result, r.unread);
        return;
      }
    }
  }

  lemma ConsumedBy(stream: seq<Byte>, breaks: bool, at: Option<nat>, result: Result<seq<Byte>>, left: seq<Byte>)
    requires IsIndex(stream, EndPrelude, at) && ConsumesTo(stream, breaks, at, result, left)
    ensures Consumes(stream, breaks, result, left)
  {
  }

  /** The marker is found when its last byte arrives, at the place where it is in the stream. */
  lemma FoundAsSoonAsRead(before: seq<Byte>, b: Byte, rest: seq<Byte>, k: nat)
    requires forall i: nat :: !OccursAt(before, EndPrelude, i)
    requires IsIndex(before + [b], EndPrelude, Some(k))
    ensures k + |EndPrelude| == |before| + 1
    ensures IsIndex(before + [b] + rest, EndPrelude, Some(k))
    ensures (before + [b] + rest)[k + |EndPrelude|..] == rest && (before + [b] + rest)[..k] == (before + [b])[..k]
  {
    var buf := before + [b];
    var all := buf + rest;
    if k + |EndPrelude| <= |before| {
      assert before[k..k + |EndPrelude|] == buf[k..k + |EndPrelude|];
      assert OccursAt(before, EndPrelude, k);
    }
    assert all[k..k + |EndPrelude|] == buf[k..k + |EndPrelude|];
    forall i: nat | i < k ensures !OccursAt(all, EndPrelude, i) {
      assert all[i..i + |EndPrelude|] == buf[i..i + |EndPrelude|];
      assert !OccursAt(buf, EndPrelude, i);
    }
  }

  /** A prelude in front of any bytes at all is read back as it was written, and exactly
      those bytes are left. */
  lemma PreludeReadsBack(payload: seq<Byte>, rest: seq<Byte>, breaks: bool, result: Result<seq<Byte>>, left: seq<Byte>)
    ensures Consumes(EncodePrelude(payload) + rest, breaks, result, left) <==> result == Ok(payload) && left == rest
  {
    var text := EncodeString(payload);
    var stream := EncodePrelude(payload) + rest;
    var k := |text|;
    assert stream[k..k + |EndPrelude|] == EndPrelude;
    assert OccursAt(stream, EndPrelude, k);
    NeverEmitsMark(payload);
    forall i: nat | i < k ensures !OccursAt(stream, EndPrelude, i) {
      assert stream[i] == text[i] && text[i] in text;
      if OccursAt(stream, EndPrelude, i) { MarkStartsThere(stream, i); }
    }
    assert IsIndex(stream, EndPrelude, Some(k));
    assert stream[..k] == text && stream[k + |EndPrelude|..] == rest;
    DecodeEncode(payload);
    forall at | IsIndex(stream, EndPrelude, at) ensures at == Some(k) {
      OneIndex(stream, at, k);
    }
  }

  lemma MarkStartsThere(s: seq<Byte>, i: nat)
    requires OccursAt(s, EndPrelude, i)
    ensures s[i] == '!' as int
  {
    assert s[i] == s[i..i + |EndPrelude|][0];
  }

  lemma OneIndex(s: seq<Byte>, at: Option<nat>, k: nat)
    requires IsIndex(s, EndPrelude, at) && IsIndex(s, EndPrelude, Some(k))
    ensures at == Some(k)
  {
    assert OccursAt(s, EndPrelude, k);
  }
}
