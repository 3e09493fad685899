// Base 64 in both alphabets, with the line-broken PEM and MIME forms.
module Base64 {
  import opened Arith

  type Byte = x: int | 0 <= x < 256

  // A value of six bits.
  type Sextet = x: int | 0 <= x < 64

  datatype Error = NotBase64 | OutOfRange

  datatype Result<T> = Ok(value: T) | Err(error: Error)

  // ---------- characters ----------

  function Digit(v: Sextet, url: bool): char {
    if v < 26 then 'A' + v as char
    else if v < 52 then 'a' + (v - 26) as char
    else if v < 62 then '0' + (v - 52) as char
    else if v == 62 then (if url then '-' else '+')
    else if url then '_' else '/'
  }

  function Padding(url: bool): char {
    if url then '.' else '='
  }

  predicate IsPadding(c: char) {
    c == '=' || c == '.'
  }

  // Both alphabets are accepted.
  function PosOfChar(c: char): Result<Sextet> {
    if 'A' <= c <= 'Z' then Ok(c as int - 'A' as int)
    else if 'a' <= c <= 'z' then Ok(c as int - 'a' as int + 26)
    else if '0' <= c <= '9' then Ok(c as int - '0' as int + 52)
    else if c == '+' || c == '-' then Ok(62)
    else if c == '/' || c == '_' then Ok(63)
    else Err(NotBase64)
  }

  const UPPER := "ABCDEFGHIJKLMNOPQRSTUVWXYZ"
  const LOWER := "abcdefghijklmnopqrstuvwxyz"
  const DIGITS := "0123456789"

  // The 64 characters of either alphabet.
  function Alphabet(url: bool): (r: string)
    ensures |r| == 64
  {
    UPPER + LOWER + DIGITS + if url then "-_" else "+/"
  }

  lemma UpperAt(k: nat)
    requires k < 26
    ensures UPPER[k] == 'A' + k as char && LOWER[k] == 'a' + k as char
  {
    assert k == 0 || k == 1 || k == 2 || k == 3 || k == 4 || k == 5 || k == 6 || k == 7 || k == 8 || k == 9 ||
           k == 10 || k == 11 || k == 12 || k == 13 || k == 14 || k == 15 || k == 16 || k == 17 || k == 18 ||
           k == 19 || k == 20 || k == 21 || k == 22 || k == 23 || k == 24 || k == 25;
  }

  lemma DigitAt(k: nat)
    requires k < 10
    ensures DIGITS[k] == '0' + k as char
  {
    assert k == 0 || k == 1 || k == 2 || k == 3 || k == 4 || k == 5 || k == 6 || k == 7 || k == 8 || k == 9;
  }

  // The digits are those of the two alphabets.
  lemma DigitOfAlphabet(v: Sextet, url: bool)
    ensures Digit(v, url) == Alphabet(url)[v]
  {
    if v < 26 {
      UpperAt(v);
    } else if v < 52 {
      UpperAt(v - 26);
    } else if v < 62 {
      DigitAt(v - 52);
    }
  }

  // A character is read as its position in either alphabet, and refused when it is in
  // neither.
  lemma AlphabetsAreRead(c: char, v: Sextet)
    ensures PosOfChar(c) == Ok(v) <==> c == Alphabet(false)[v] || c == Alphabet(true)[v]
    ensures PosOfChar(c) == Err(NotBase64) <==> c !in Alphabet(false) && c !in Alphabet(true)
  {
    forall w: Sextet
      ensures ReadsAs(c, w, Alphabet(false), Alphabet(true))
    {
      ReadAt(c, w);
    }
    RefusedIff(c, Alphabet(false), Alphabet(true));
    assert ReadsAs(c, v, Alphabet(false), Alphabet(true));
  }

  // c is read as v exactly when it stands there in one of the texts.
  predicate ReadsAs(c: char, v: Sextet, a: string, b: string)
    requires |a| == |b| == 64
  {
    PosOfChar(c) == Ok(v) <==> c == a[v] || c == b[v]
  }

  lemma RefusedIff(c: char, a: string, b: string)
    requires |a| == |b| == 64 && forall v: Sextet :: ReadsAs(c, v, a, b)
    ensures PosOfChar(c) == Err(NotBase64) <==> c !in a && c !in b
  {
    if PosOfChar(c).Ok? {
      assert ReadsAs(c, PosOfChar(c).value, a, b);
    } else {
      forall v: Sextet
        ensures c != a[v] && c != b[v]
      {
        assert ReadsAs(c, v, a, b);
      }
    }
  }

  lemma ReadAt(c: char, v: Sextet)
    ensures PosOfChar(c) == Ok(v) <==> c == Alphabet(false)[v] || c == Alphabet(true)[v]
  {
    DigitOfAlphabet(v, false);
    DigitOfAlphabet(v, true);
  }

  lemma DigitRoundTrip(v: Sextet, url: bool)
    ensures PosOfChar(Digit(v, url)) == Ok(v) && !IsPadding(Digit(v, url)) && Digit(v, url) != '\n'
  {
  }

  // ---------- groups of three bytes and four digits ----------

  function First(a: Byte): Sextet { a / 4 }
  function Second(a: Byte, b: Byte): Sextet { a % 4 * 16 + b / 16 }
  function Third(b: Byte, c: Byte): Sextet { b % 16 * 4 + c / 64 }
  function Fourth(c: Byte): Sextet { c % 64 }

  function FirstByte(p: Sextet, q: Sextet): Byte { p * 4 + q / 16 }
  function SecondByte(q: Sextet, r: Sextet): Byte { q % 16 * 16 + r / 4 }
  function ThirdByte(r: Sextet, t: Sextet): Byte { r % 4 * 64 + t }

  // A full group is the same 24-bit number in both notations.
  lemma GroupValue(a: Byte, b: Byte, c: Byte)
    ensures a * 65536 + b * 256 + c == First(a) * 262144 + Second(a, b) * 4096 + Third(b, c) * 64 + Fourth(c)
  {
  }

  lemma BytesReturn(a: Byte, b: Byte, c: Byte)
    ensures FirstByte(First(a), Second(a, b)) == a
    ensures SecondByte(Second(a, b), Third(b, c)) == b
    ensures ThirdByte(Third(b, c), Fourth(c)) == c
  {
    DivModUnique(Second(a, b), 16, a % 4, b / 16);
    DivModUnique(Third(b, c), 4, b % 16, c / 64);
  }

  lemma FirstReturns(a: Byte, b: Byte)
    ensures FirstByte(First(a), Second(a, b)) == a
  {
    BytesReturn(a, b, 0);
  }

  // ---------- encoding ----------

  // The digits of the next one to three bytes.
  function Chunk(s: seq<Byte>, url: bool): (r: string)
    requires s != []
    ensures |r| == 4
  {
    var a := s[0];
    if |s| == 1 then [Digit(First(a), url), Digit(Second(a, 0), url), Padding(url), Padding(url)]
    else if |s| == 2 then
      [Digit(First(a), url), Digit(Second(a, s[1]), url), Digit(Third(s[1], 0), url), Padding(url)]
    else
      [Digit(First(a), url), Digit(Second(a, s[1]), url), Digit(Third(s[1], s[2]), url), Digit(Fourth(s[2]), url)]
  }

  function Rest(s: seq<Byte>): seq<Byte> {
    if |s| <= 3 then [] else s[3..]
  }

  function Encoded(s: seq<Byte>, url: bool): string
    decreases |s|
  {
    if s == [] then "" else Chunk(s, url) + Encoded(Rest(s), url)
  }

  method Base64Encode(bytes: seq<Byte>, url: bool) returns (ret: string)
    ensures ret == Encoded(bytes, url)
    ensures |ret| == (|bytes| + 2) / 3 * 4
  {
    ret := "";
    var pos := 0;
    while pos < |bytes|
      invariant 0 <= pos
      invariant ret + Encoded(From(bytes, pos), url) == Encoded(bytes, url)
      decreases |bytes| - pos
    {
      var chunk := EncodeAt(bytes, pos, url);
      assert Rest(From(bytes, pos)) == From(bytes, pos + 3);
      Regroup(ret, chunk, Encoded(From(bytes, pos + 3), url));
      ret := ret + chunk;
      pos := pos + 3;
    }
    EncodedLength(bytes, url);
  }

  // One turn of the encoding loop.
  method EncodeAt(bytes: seq<Byte>, pos: nat, url: bool) returns (ret: string)
    requires pos < |bytes|
    ensures ret == Chunk(From(bytes, pos), url)
  {
    var trailing := Padding(url);
    var a := bytes[pos];
    ret := [Digit(First(a), url)];
    if pos + 1 < |bytes| {
      var b := bytes[pos + 1];
      ret := ret + [Digit(Second(a, b), url)];
      if pos + 2 < |bytes| {
        ret := ret + [Digit(Third(b, bytes[pos + 2]), url)] + [Digit(Fourth(bytes[pos + 2]), url)];
      } else {
        ret := ret + [Digit(b % 16 * 4, url)] + [trailing];
      }
    } else {
      ret := ret + [Digit(a % 4 * 16, url)] + [trailing] + [trailing];
    }
  }

  lemma Regroup(a: string, b: string, c: string)
    ensures a + (b + c) == a + b + c
  {
  }

  function From(s: seq<Byte>, pos: nat): seq<Byte> {
    if pos <= |s| then s[pos..] else []
  }

  lemma {:induction false} EncodedLength(s: seq<Byte>, url: bool)
    ensures |Encoded(s, url)| == (|s| + 2) / 3 * 4
    decreases |s|
  {
    if s != [] {
      var n := |Rest(s)|;
      EncodedLength(Rest(s), url);
      assert (|s| + 2) / 3 == (n + 2) / 3 + 1;
    }
  }

  // ---------- decoding ----------

  // The bytes of the next chunk; the third and fourth digit may be absent or padding.
  function DecodedChunk(e: string): (r: Result<seq<Byte>>)
    requires e != ""
  {
    if |e| < 2 then Err(OutOfRange)
    else
      var p, q := PosOfChar(e[0]), PosOfChar(e[1]);
      if p.Err? || q.Err? then Err(NotBase64)
      else if |e| == 2 || IsPadding(e[2]) then Ok([FirstByte(p.value, q.value)])
      else
        var r := PosOfChar(e[2]);
        if r.Err? then Err(NotBase64)
        else if |e| == 3 || IsPadding(e[3]) then Ok([FirstByte(p.value, q.value), SecondByte(q.value, r.value)])
        else
          var t := PosOfChar(e[3]);
          if t.Err? then Err(NotBase64)
          else Ok([FirstByte(p.value, q.value), SecondByte(q.value, r.value), ThirdByte(r.value, t.value)])
  }

  function Prepend(a: seq<Byte>, r: Result<seq<Byte>>): Result<seq<Byte>> {
    match r
    case Ok(b) => Ok(a + b)
    case Err(x) => Err(x)
  }

  function Decoded(e: string): Result<seq<Byte>>
    decreases |e|
  {
    if e == "" then Ok([])
    else
      match DecodedChunk(e)
      case Err(x) => Err(x)
      case Ok(a) => Prepend(a, Decoded(if |e| <= 4 then "" else e[4..]))
  }

  function Without(e: string, c: char): string {
    if e == "" then "" else (if e[0] == c then "" else [e[0]]) + Without(e[1..], c)
  }

  // What decode computes.
  function Decode(e: string, removeLinebreaks: bool): Result<seq<Byte>> {
    Decoded(if removeLinebreaks then Without(e, '\n') else e)
  }

  method Base64Decode(e: string, removeLinebreaks: bool) returns (r: Result<seq<Byte>>)
    ensures r == Decode(e, removeLinebreaks)
    decreases removeLinebreaks
  {
    if e == "" {
      return Ok([]);
    }
    if removeLinebreaks {
      var copy := Without(e, '\n');
      r := Base64Decode(copy, false);
      return;
    }
    r := DecodeChunks(e);
  }

  method DecodeChunks(e: string) returns (r: Result<seq<Byte>>)
    ensures r == Decoded(e)
  {
    var pos := 0;
    var ret: seq<Byte> := [];
    PrependNothing(Decoded(e));
    assert Tail(e, 0) == e;
    while pos < |e|
      invariant 0 <= pos
      invariant Decoded(e) == Prepend(ret, Decoded(Tail(e, pos)))
      decreases |e| - pos
    {
      var chunk := DecodeAt(e, pos);
      DecodedTail(e, pos);
      if chunk.Err? {
        return chunk;
      }
      PrependTwice(ret, chunk.value, Decoded(Tail(e, pos + 4)));
      ret := ret + chunk.value;
      pos := pos + 4;
    }
    assert Tail(e, pos) == "";
    assert ret + [] == ret;
    r := Ok(ret);
  }

  lemma PrependNothing(r: Result<seq<Byte>>)
    ensures Prepend([], r) == r
  {
    if r.Ok? { assert [] + r.value == r.value; }
  }

  // One turn of the decoding loop, in the order the characters are read.
  method DecodeAt(e: string, pos: nat) returns (r: Result<seq<Byte>>)
    requires pos < |e|
    ensures r == DecodedChunk(e[pos..])
  {
    ghost var c := e[pos..];
    assert c[0] == e[pos] && |c| == |e| - pos;
    assert pos + 1 < |e| ==> c[1] == e[pos + 1];
    assert pos + 2 < |e| ==> c[2] == e[pos + 2];
    assert pos + 3 < |e| ==> c[3] == e[pos + 3];
    if pos + 1 >= |e| {
      return Err(OutOfRange);
    }
    var second := PosOfChar(e[pos + 1]);
    if second.Err? {
      return Err(second.error);
    }
    var first := PosOfChar(e[pos]);
    if first.Err? {
      return Err(first.error);
    }
    var ret := [FirstByte(first.value, second.value)];
    if pos + 2 < |e| && e[pos + 2] != '=' && e[pos + 2] != '.' {
      var third := PosOfChar(e[pos + 2]);
      if third.Err? {
        return Err(third.error);
      }
      ret := ret + [SecondByte(second.value, third.value)];
      assert ret == [FirstByte(first.value, second.value), SecondByte(second.value, third.value)];
      if pos + 3 < |e| && e[pos + 3] != '=' && e[pos + 3] != '.' {
        var fourth := PosOfChar(e[pos + 3]);
        if fourth.Err? {
          return Err(fourth.error);
        }
        ret := ret + [ThirdByte(third.value, fourth.value)];
        assert ret == [FirstByte(first.value, second.value), SecondByte(second.value, third.value),
                       ThirdByte(third.value, fourth.value)];
      }
    }
    r := Ok(ret);
  }

  function Tail(e: string, pos: nat): string {
    if pos <= |e| then e[pos..] else ""
  }

  lemma DecodedTail(e: string, pos: nat)
    requires pos < |e|
    ensures Decoded(Tail(e, pos)) == match DecodedChunk(e[pos..])
                                     case Err(x) => Err(x)
                                     case Ok(a) => Prepend(a, Decoded(Tail(e, pos + 4)))
  {
    assert (if |e[pos..]| <= 4 then "" else e[pos..][4..]) == Tail(e, pos + 4);
  }

  lemma PrependTwice(a: seq<Byte>, b: seq<Byte>, r: Result<seq<Byte>>)
    ensures Prepend(a, Prepend(b, r)) == Prepend(a + b, r)
  {
    if r.Ok? { assert a + (b + r.value) == a + b + r.value; }
  }

  // ---------- the round trip ----------

  function Group(s: seq<Byte>): seq<Byte> {
    if |s| <= 3 then s else s[..3]
  }

  // The digits of one, two and three bytes, with padding or nothing after the last.
  lemma OneByte(e: string, a: Byte, url: bool)
    requires |e| >= 2 && e[0] == Digit(First(a), url) && e[1] == Digit(Second(a, 0), url)
    requires |e| > 2 ==> IsPadding(e[2])
    ensures DecodedChunk(e) == Ok([a])
  {
    DigitRoundTrip(First(a), url);
    DigitRoundTrip(Second(a, 0), url);
    FirstReturns(a, 0);
  }

  lemma TwoBytes(e: string, a: Byte, b: Byte, url: bool)
    requires |e| >= 3 && e[0] == Digit(First(a), url) && e[1] == Digit(Second(a, b), url)
    requires e[2] == Digit(Third(b, 0), url) && (|e| > 3 ==> IsPadding(e[3]))
    ensures DecodedChunk(e) == Ok([a, b])
  {
    DigitRoundTrip(First(a), url);
    DigitRoundTrip(Second(a, b), url);
    DigitRoundTrip(Third(b, 0), url);
    BytesReturn(a, b, 0);
  }

  lemma ThreeBytes(e: string, a: Byte, b: Byte, c: Byte, url: bool)
    requires |e| >= 4 && e[0] == Digit(First(a), url) && e[1] == Digit(Second(a, b), url)
    requires e[2] == Digit(Third(b, c), url) && e[3] == Digit(Fourth(c), url)
    ensures DecodedChunk(e) == Ok([a, b, c])
  {
    DigitRoundTrip(First(a), url);
    DigitRoundTrip(Second(a, b), url);
    DigitRoundTrip(Third(b, c), url);
    DigitRoundTrip(Fourth(c), url);
    BytesReturn(a, b, c);
  }

  // A chunk with whatever follows it decodes to its bytes, and the last one does so
  // without its padding too.
  lemma ChunkRoundTrip(s: seq<Byte>, url: bool, e: string)
    requires s != [] && |e| >= 4 && e[..4] == Chunk(s, url)
    ensures DecodedChunk(e) == Ok(Group(s))
  {
    assert forall k :: 0 <= k < 4 ==> e[k] == e[..4][k];
    if |s| == 1 {
      OneByte(e, s[0], url);
      assert s == [s[0]];
    } else if |s| == 2 {
      TwoBytes(e, s[0], s[1], url);
      assert s == [s[0], s[1]];
    } else {
      ThreeBytes(e, s[0], s[1], s[2], url);
      assert Group(s) == [s[0], s[1], s[2]];
    }
  }

  lemma ShortChunkDecodes(s: seq<Byte>, url: bool)
    requires 0 < |s| <= 3
    ensures DecodedChunk(Chunk(s, url)[..|s| + 1]) == Ok(s)
  {
    var e := Chunk(s, url)[..|s| + 1];
    if |s| == 1 {
      OneByte(e, s[0], url);
      assert s == [s[0]];
    } else if |s| == 2 {
      TwoBytes(e, s[0], s[1], url);
      assert s == [s[0], s[1]];
    } else {
      ThreeBytes(e, s[0], s[1], s[2], url);
      assert s == [s[0], s[1], s[2]];
    }
  }

  // Decoding undoes encoding, in both alphabets.
  lemma {:induction false} DecodeUndoesEncode(s: seq<Byte>, url: bool)
    ensures Decode(Encoded(s, url), false) == Ok(s)
    decreases |s|
  {
    if s != [] {
      var e, rest := Encoded(s, url), Encoded(Rest(s), url);
      ChunkRoundTrip(s, url, e);
      DecodeUndoesEncode(Rest(s), url);
      DecodedAfterChunk(e, rest, Group(s), Rest(s));
      assert Group(s) + Rest(s) == s;
    }
  }

  // The digits without the padding.
  function Unpadded(s: seq<Byte>, url: bool): string {
    if s == [] then ""
    else if |s| <= 3 then Chunk(s, url)[..|s| + 1]
    else Chunk(s, url) + Unpadded(s[3..], url)
  }

  lemma {:induction false} UnpaddedIsPrefix(s: seq<Byte>, url: bool)
    ensures |Unpadded(s, url)| == (|s| * 4 + 2) / 3 <= |Encoded(s, url)|
    ensures Unpadded(s, url) == Encoded(s, url)[..(|s| * 4 + 2) / 3]
    ensures forall k :: (|s| * 4 + 2) / 3 <= k < |Encoded(s, url)| ==> Encoded(s, url)[k] == Padding(url)
  {
    if |s| > 3 { UnpaddedIsPrefix(s[3..], url); }
  }

  // Padding is optional.
  lemma {:induction false} UnpaddedDecodes(s: seq<Byte>, url: bool)
    ensures Decode(Unpadded(s, url), false) == Ok(s)
  {
    if |s| > 3 {
      var e, rest := Unpadded(s, url), Unpadded(s[3..], url);
      ChunkRoundTrip(s, url, e);
      UnpaddedDecodes(s[3..], url);
      UnpaddedIsPrefix(s[3..], url);
      DecodedAfterChunk(e, rest, Group(s), s[3..]);
      assert Group(s) + s[3..] == s;
    } else if |s| > 0 {
      ShortChunkDecodes(s, url);
      ShortDecoded(Unpadded(s, url), s);
    }
  }

  lemma ShortDecoded(e: string, s: seq<Byte>)
    requires 0 < |e| <= 4 && DecodedChunk(e) == Ok(s)
    ensures Decoded(e) == Ok(s)
  {
    assert s + [] == s;
  }

  lemma DecodedAfterChunk(e: string, rest: string, a: seq<Byte>, b: seq<Byte>)
    requires |e| >= 4 && e[4..] == rest && DecodedChunk(e) == Ok(a) && Decoded(rest) == Ok(b)
    ensures Decoded(e) == Ok(a + b)
  {
    assert (if |e| <= 4 then "" else e[4..]) == rest;
  }

  // ---------- line breaks ----------

  function Broken(s: string, distance: nat): string
    requires distance > 0
  {
    if |s| <= distance then s else s[..distance] + "\n" + Broken(s[distance..], distance)
  }

  method InsertLinebreaks(s: string, distance: nat) returns (str: string)
    requires distance > 0
    ensures str == Broken(s, distance)
  {
    str := s;
    if |str| == 0 {
      return "";
    }
    var pos := distance;
    assert str[..0] + str[0..] == str;
    while pos < |str|
      invariant distance <= pos && pos - distance <= |str|
      invariant str[..pos - distance] + Broken(str[pos - distance..], distance) == Broken(s, distance)
      decreases |str| - pos
    {
      ghost var done, rest := str[..pos - distance], str[pos - distance..];
      ghost var line, later := rest[..distance], rest[distance..];
      assert str[..pos] == done + line && str[pos..] == later;
      assert done + (line + "\n" + Broken(later, distance)) == done + line + "\n" + Broken(later, distance);
      str := str[..pos] + "\n" + str[pos..];
      pos := pos + distance + 1;
      assert str[..pos - distance] == done + line + "\n" && str[pos - distance..] == later;
    }
    assert Broken(str[pos - distance..], distance) == str[pos - distance..];
    assert str[..pos - distance] + str[pos - distance..] == str;
  }

  // The lines of a text.
  function Lines(s: string): (r: seq<string>)
    ensures r != []
  {
    if s == "" then [""]
    else if s[0] == '\n' then [""] + Lines(s[1..])
    else
      var r := Lines(s[1..]);
      [[s[0]] + r[0]] + r[1..]
  }

  lemma {:induction false} LinesSplit(a: string, b: string)
    requires '\n' !in a
    ensures Lines(a + "\n" + b) == [a] + Lines(b)
  {
    var s := a + "\n" + b;
    if a == "" {
      assert s[1..] == b;
    } else {
      LinesSplit(a[1..], b);
      assert s[1..] == a[1..] + "\n" + b;
      assert [a[0]] + a[1..] == a;
    }
  }

  lemma {:induction false} OneLine(a: string)
    requires '\n' !in a
    ensures Lines(a) == [a]
  {
    if a != "" {
      OneLine(a[1..]);
      assert [a[0]] + a[1..] == a;
    }
  }

  // All lines but the last have `distance` characters, the last at most that many.
  ghost predicate LinesFill(lines: seq<string>, distance: nat)
    requires lines != []
  {
    |lines[|lines| - 1]| <= distance && forall k :: 0 <= k < |lines| - 1 ==> |lines[k]| == distance
  }

  lemma {:induction false} LinesAreShort(s: string, distance: nat)
    requires distance > 0 && '\n' !in s
    ensures LinesFill(Lines(Broken(s, distance)), distance)
    decreases |s|
  {
    if |s| <= distance {
      OneLine(s);
    } else {
      LinesAreShort(s[distance..], distance);
      LinesSplit(s[..distance], Broken(s[distance..], distance));
    }
  }

  lemma {:induction false} WithoutConcat(a: string, b: string, c: char)
    ensures Without(a + b, c) == Without(a, c) + Without(b, c)
  {
    if a == "" {
      assert a + b == b;
    } else {
      WithoutConcat(a[1..], b, c);
      assert (a + b)[0] == a[0] && (a + b)[1..] == a[1..] + b;
      Regroup(if a[0] == c then "" else [a[0]], Without(a[1..], c), Without(b, c));
    }
  }

  lemma {:induction false} WithoutNothing(a: string, c: char)
    requires c !in a
    ensures Without(a, c) == a
  {
    if a != "" {
      WithoutNothing(a[1..], c);
      assert [a[0]] + a[1..] == a;
    }
  }

  lemma WithoutLine(line: string, later: string)
    requires '\n' !in line
    ensures Without(line + ("\n" + later), '\n') == line + Without(later, '\n')
  {
    WithoutConcat(line, "\n" + later, '\n');
    WithoutNothing(line, '\n');
    WithoutFirst(later);
  }

  lemma WithoutFirst(later: string)
    ensures Without("\n" + later, '\n') == Without(later, '\n')
  {
    assert ("\n" + later)[1..] == later;
    assert "" + Without(later, '\n') == Without(later, '\n');
  }

  // Removing the line breaks gives the text back.
  lemma {:induction false} BreaksRemoved(s: string, distance: nat)
    requires distance > 0 && '\n' !in s
    ensures Without(Broken(s, distance), '\n') == s
    decreases |s|
  {
    if |s| <= distance {
      WithoutNothing(s, '\n');
    } else {
      var line, later := s[..distance], s[distance..];
      BreaksRemoved(later, distance);
      WithoutLine(line, Broken(later, distance));
      Regroup(line, "\n", Broken(later, distance));
      assert line + later == s;
    }
  }

  lemma {:induction false} EncodedHasNoBreak(s: seq<Byte>, url: bool)
    ensures '\n' !in Encoded(s, url)
    decreases |s|
  {
    if s != [] {
      EncodedHasNoBreak(Rest(s), url);
      ChunkHasNoBreak(s, url);
    }
  }

  lemma ChunkHasNoBreak(s: seq<Byte>, url: bool)
    requires s != []
    ensures '\n' !in Chunk(s, url)
  {
  }

  // The PEM (64) and MIME (76) forms: decoding with line-break removal undoes
  // them, and their lines are short.
  lemma BrokenFormsDecode(s: seq<Byte>, lineLength: nat)
    requires lineLength > 0
    ensures Decode(Broken(Encoded(s, false), lineLength), true) == Ok(s)
    ensures Without(Broken(Encoded(s, false), lineLength), '\n') == Encoded(s, false)
    ensures LinesFill(Lines(Broken(Encoded(s, false), lineLength)), lineLength)
  {
    EncodedHasNoBreak(s, false);
    BreaksRemoved(Encoded(s, false), lineLength);
    DecodeUndoesEncode(s, false);
    LinesAreShort(Encoded(s, false), lineLength);
  }

  method EncodeWithLineBreaks(s: seq<Byte>, lineLength: nat) returns (r: string)
    requires lineLength > 0
    ensures r == Broken(Encoded(s, false), lineLength)
  {
    var e := Base64Encode(s, false);
    r := InsertLinebreaks(e, lineLength);
  }

  method EncodePem(s: seq<Byte>) returns (r: string)
    ensures Decode(r, true) == Ok(s) && Without(r, '\n') == Encoded(s, false)
    ensures |Lines(r)[|Lines(r)| - 1]| <= 64 && forall k :: 0 <= k < |Lines(r)| - 1 ==> |Lines(r)[k]| == 64
  {
    r := EncodeWithLineBreaks(s, 64);
    BrokenFormsDecode(s, 64);
  }

  method EncodeMime(s: seq<Byte>) returns (r: string)
    ensures Decode(r, true) == Ok(s) && Without(r, '\n') == Encoded(s, false)
    ensures |Lines(r)[|Lines(r)| - 1]| <= 76 && forall k :: 0 <= k < |Lines(r)| - 1 ==> |Lines(r)[k]| == 76
  {
    r := EncodeWithLineBreaks(s, 76);
    BrokenFormsDecode(s, 76);
  }
}
