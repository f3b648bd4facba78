/** Base64 as Node's `Buffer` writes and reads it: `buf.toString('base64')`
    produces the padded alphabet of section 4 of RFC 4648, and
    `Buffer.from(text, 'base64')` decodes leniently — it skips characters
    outside the alphabet, stops at the first '=', also accepts the URL-safe
    letters '-' and '_', and drops a lone trailing sextet. */
module Base64 {
  import opened Base

  /** The character for a 6-bit value (section 4 of RFC 4648, Table 1). */
  function SextetChar(v: int): (c: char)
    requires 0 <= v < 64
    ensures IsSextetChar(c) && c != '=' && SextetValue(c) == v
  {
    if v < 26 then (v + 'A' as int) as char
    else if v < 52 then (v - 26 + 'a' as int) as char
    else if v < 62 then (v - 52 + '0' as int) as char
    else if v == 62 then '+'
    else '/'
  }

  /** Characters the decoder turns into a sextet. */
  predicate IsSextetChar(c: char) {
    ('A' <= c <= 'Z') || ('a' <= c <= 'z') || ('0' <= c <= '9')
    || c == '+' || c == '/' || c == '-' || c == '_'
  }

  function SextetValue(c: char): (v: int)
    requires IsSextetChar(c)
    ensures 0 <= v < 64
  {
    if 'A' <= c <= 'Z' then c as int - 'A' as int
    else if 'a' <= c <= 'z' then c as int - 'a' as int + 26
    else if '0' <= c <= '9' then c as int - '0' as int + 52
    else if c == '+' || c == '-' then 62
    else 63
  }

  predicate Sextet(v: int) {
    0 <= v < 64
  }

  /** The four characters for three bytes. */
  function Quad(b0: byte, b1: byte, b2: byte): (q: string)
    ensures |q| == 4 && forall i :: 0 <= i < 4 ==> IsSextetChar(q[i]) && q[i] != '='
  {
    [SextetChar(b0 / 4), SextetChar((b0 % 4) * 16 + b1 / 16),
     SextetChar((b1 % 16) * 4 + b2 / 64), SextetChar(b2 % 64)]
  }

  /** `buf.toString('base64')`. */
  function Encode(b: Bytes): (s: string)
    ensures |s| == (|b| + 2) / 3 * 4
    ensures |s| == 0 <==> |b| == 0
    ensures forall i :: 0 <= i < |s| ==> IsSextetChar(s[i]) || s[i] == '='
  {
    if |b| == 0 then ""
    else if |b| == 1 then [SextetChar(b[0] / 4), SextetChar((b[0] % 4) * 16), '=', '=']
    else if |b| == 2 then
      [SextetChar(b[0] / 4), SextetChar((b[0] % 4) * 16 + b[1] / 16), SextetChar((b[1] % 16) * 4), '=']
    else
      GroupsLength(|b|);
      Quad(b[0], b[1], b[2]) + Encode(b[3..])
  }

  /** One more group of three bytes adds four characters. */
  lemma GroupsLength(n: nat)
    requires n >= 3
    ensures (n + 2) / 3 * 4 == (n - 3 + 2) / 3 * 4 + 4
  {
  }

  /** The sextets the decoder reads: characters before the first '=', with
      characters outside the alphabet skipped. */
  function Sextets(s: string): (v: seq<int>)
    ensures forall i :: 0 <= i < |v| ==> Sextet(v[i])
  {
    if |s| == 0 || s[0] == '=' then []
    else if IsSextetChar(s[0]) then [SextetValue(s[0])] + Sextets(s[1..])
    else Sextets(s[1..])
  }

  /** Bytes from sextets, four sextets to three bytes; a tail of two or three
      sextets gives one or two bytes and a single sextet gives none. */
  function DecodeSextets(v: seq<int>): Bytes
    requires forall i :: 0 <= i < |v| ==> Sextet(v[i])
  {
    if |v| < 2 then []
    else if |v| == 2 then [First(v[0], v[1])]
    else if |v| == 3 then [First(v[0], v[1]), Second(v[1], v[2])]
    else [First(v[0], v[1]), Second(v[1], v[2]), Third(v[2], v[3])] + DecodeSextets(v[4..])
  }

  /** The three bytes a group of sextets s0 s1 s2 s3 carries. */
  function First(s0: int, s1: int): byte
    requires Sextet(s0) && Sextet(s1)
  {
    s0 * 4 + s1 / 16
  }

  function Second(s1: int, s2: int): byte
    requires Sextet(s1) && Sextet(s2)
  {
    (s1 % 16) * 16 + s2 / 4
  }

  function Third(s2: int, s3: int): byte
    requires Sextet(s2) && Sextet(s3)
  {
    (s2 % 4) * 64 + s3
  }

  /** `Buffer.from(s, 'base64')`; it never throws. */
  function Decode(s: string): Bytes {
    DecodeSextets(Sextets(s))
  }

  lemma SextetsOfQuad(q: string, rest: string)
    requires |q| == 4 && forall i :: 0 <= i < 4 ==> IsSextetChar(q[i]) && q[i] != '='
    ensures Sextets(q + rest)
         == [SextetValue(q[0]), SextetValue(q[1]), SextetValue(q[2]), SextetValue(q[3])] + Sextets(rest)
  {
    assert q + rest == [q[0]] + ([q[1]] + ([q[2]] + ([q[3]] + rest)));
    FourChars(q[0], q[1], q[2], q[3], rest);
  }

  lemma FourChars(c0: char, c1: char, c2: char, c3: char, rest: string)
    requires IsSextetChar(c0) && IsSextetChar(c1) && IsSextetChar(c2) && IsSextetChar(c3)
    requires c0 != '=' && c1 != '=' && c2 != '=' && c3 != '='
    ensures Sextets([c0] + ([c1] + ([c2] + ([c3] + rest))))
         == [SextetValue(c0), SextetValue(c1), SextetValue(c2), SextetValue(c3)] + Sextets(rest)
  {
    var r3 := [c3] + rest;
    var r2 := [c2] + r3;
    var r1 := [c1] + r2;
    var x := Sextets(rest);
    var v0, v1, v2, v3 := SextetValue(c0), SextetValue(c1), SextetValue(c2), SextetValue(c3);
    assert Sextets(r3) == [v3] + x by { SextetsCons(c3, rest); }
    assert Sextets(r2) == [v2, v3] + x by { SextetsCons(c2, r3); }
    assert Sextets(r1) == [v1, v2, v3] + x by { SextetsCons(c1, r2); }
    assert Sextets([c0] + r1) == [v0, v1, v2, v3] + x by { SextetsCons(c0, r1); }
  }

  /** A leading alphabet character is read as its sextet. */
  lemma SextetsCons(c: char, rest: string)
    requires IsSextetChar(c) && c != '='
    ensures Sextets([c] + rest) == [SextetValue(c)] + Sextets(rest)
  {
    assert ([c] + rest)[1..] == rest;
  }

  lemma QuadBytes(b0: byte, b1: byte, b2: byte)
    ensures First(b0 / 4, (b0 % 4) * 16 + b1 / 16) == b0
    ensures Second((b0 % 4) * 16 + b1 / 16, (b1 % 16) * 4 + b2 / 64) == b1
    ensures Third((b1 % 16) * 4 + b2 / 64, b2 % 64) == b2
  {
  }

  lemma OneByteTail(b: Bytes)
    requires |b| == 1
    ensures Decode(Encode(b)) == [b[0]]
  {
    var x0, x1 := b[0] / 4, (b[0] % 4) * 16;
    var c0, c1 := SextetChar(x0), SextetChar(x1);
    assert Encode(b) == [c0, c1, '=', '='];
    PaddedTwo(c0, c1);
    SingleByte(b[0]);
  }

  /** The two sextets written for one byte decode to it. */
  lemma SingleByte(b0: byte)
    ensures DecodeSextets([b0 / 4, (b0 % 4) * 16]) == [b0]
  {
    var x0, x1 := b0 / 4, (b0 % 4) * 16;
    assert DecodeSextets([x0, x1]) == [First(x0, x1)];
  }

  /** Two alphabet characters and two '=' read as two sextets. */
  lemma PaddedTwo(c0: char, c1: char)
    requires IsSextetChar(c0) && IsSextetChar(c1) && c0 != '=' && c1 != '='
    ensures Sextets([c0, c1, '=', '=']) == [SextetValue(c0), SextetValue(c1)]
  {
    var r1 := [c1] + "==";
    assert [c0, c1, '=', '='] == [c0] + r1;
    assert Sextets("==") == [];
    SextetsCons(c1, "==");
    SextetsCons(c0, r1);
  }

  lemma TwoByteTail(b: Bytes)
    requires |b| == 2
    ensures Decode(Encode(b)) == [b[0], b[1]]
  {
    TwoByteSextets(b);
    PairBytes(b[0], b[1]);
  }

  /** The three sextets written for the bytes b0 b1 before the padding. */
  function PairSextets(b0: byte, b1: byte): (v: seq<int>)
    ensures |v| == 3 && Sextet(v[0]) && Sextet(v[1]) && Sextet(v[2])
  {
    [b0 / 4, (b0 % 4) * 16 + b1 / 16, (b1 % 16) * 4]
  }

  /** They decode to the two bytes. */
  lemma PairBytes(b0: byte, b1: byte)
    ensures DecodeSextets(PairSextets(b0, b1)) == [b0, b1]
  {
    var v := PairSextets(b0, b1);
    DecodeThree(v[0], v[1], v[2]);
    assert v == [v[0], v[1], v[2]];
    QuadBytes(b0, b1, 0);
  }

  /** Three sextets decode to two bytes. */
  lemma DecodeThree(x0: int, x1: int, x2: int)
    requires Sextet(x0) && Sextet(x1) && Sextet(x2)
    ensures DecodeSextets([x0, x1, x2]) == [First(x0, x1), Second(x1, x2)]
  {
  }

  /** What the decoder reads from two encoded bytes. */
  lemma TwoByteSextets(b: Bytes)
    requires |b| == 2
    ensures Sextets(Encode(b)) == PairSextets(b[0], b[1])
  {
    var v := PairSextets(b[0], b[1]);
    var c0, c1, c2 := SextetChar(v[0]), SextetChar(v[1]), SextetChar(v[2]);
    assert Encode(b) == [c0, c1, c2, '='];
    PaddedThree(c0, c1, c2);
  }

  /** Three alphabet characters and one '=' read as three sextets. */
  lemma PaddedThree(c0: char, c1: char, c2: char)
    requires IsSextetChar(c0) && IsSextetChar(c1) && IsSextetChar(c2)
    requires c0 != '=' && c1 != '=' && c2 != '='
    ensures Sextets([c0, c1, c2, '=']) == [SextetValue(c0), SextetValue(c1), SextetValue(c2)]
  {
    var r2 := [c2] + "=";
    var r1 := [c1] + r2;
    assert [c0, c1, c2, '='] == [c0] + r1;
    assert Sextets("=") == [];
    SextetsCons(c2, "=");
    SextetsCons(c1, r2);
    SextetsCons(c0, r1);
  }

  /** Four leading sextets decode to three bytes, whatever follows. */
  lemma DecodeGroup(x0: int, x1: int, x2: int, x3: int, tail: seq<int>)
    requires Sextet(x0) && Sextet(x1) && Sextet(x2) && Sextet(x3)
    requires forall i :: 0 <= i < |tail| ==> Sextet(tail[i])
    ensures DecodeSextets([x0, x1, x2, x3] + tail)
         == [First(x0, x1), Second(x1, x2), Third(x2, x3)] + DecodeSextets(tail)
  {
    var v := [x0, x1, x2, x3] + tail;
    assert v[4..] == tail;
    assert v[0] == x0 && v[1] == x1 && v[2] == x2 && v[3] == x3;
  }

  /** The four sextets of a leading group of three bytes. */
  function GroupSextets(b0: byte, b1: byte, b2: byte): (g: seq<int>)
    ensures |g| == 4 && Sextet(g[0]) && Sextet(g[1]) && Sextet(g[2]) && Sextet(g[3])
  {
    [b0 / 4, (b0 % 4) * 16 + b1 / 16, (b1 % 16) * 4 + b2 / 64, b2 % 64]
  }

  /** The group's sextets carry the three bytes back. */
  lemma GroupBytes(b0: byte, b1: byte, b2: byte)
    ensures var g := GroupSextets(b0, b1, b2);
      First(g[0], g[1]) == b0 && Second(g[1], g[2]) == b1 && Third(g[2], g[3]) == b2
  {
    QuadBytes(b0, b1, b2);
  }

  /** Reading the four characters of a group gives back its sextets. */
  lemma QuadValues(b0: byte, b1: byte, b2: byte)
    ensures var q := Quad(b0, b1, b2);
      [SextetValue(q[0]), SextetValue(q[1]), SextetValue(q[2]), SextetValue(q[3])] == GroupSextets(b0, b1, b2)
  {
    var g := GroupSextets(b0, b1, b2);
    var q := Quad(b0, b1, b2);
    assert q == [SextetChar(g[0]), SextetChar(g[1]), SextetChar(g[2]), SextetChar(g[3])];
  }

  lemma EncodeStep(b: Bytes)
    requires |b| >= 3
    ensures Encode(b) == Quad(b[0], b[1], b[2]) + Encode(b[3..])
  {
  }

  lemma SextetsStep(b: Bytes)
    requires |b| >= 3
    ensures Sextets(Encode(b)) == GroupSextets(b[0], b[1], b[2]) + Sextets(Encode(b[3..]))
  {
    EncodeStep(b);
    SextetsOfQuad(Quad(b[0], b[1], b[2]), Encode(b[3..]));
    QuadValues(b[0], b[1], b[2]);
  }

  lemma DecodeStep(b0: byte, b1: byte, b2: byte, tail: seq<int>)
    requires forall i :: 0 <= i < |tail| ==> Sextet(tail[i])
    ensures DecodeSextets(GroupSextets(b0, b1, b2) + tail) == [b0, b1, b2] + DecodeSextets(tail)
  {
    var g := GroupSextets(b0, b1, b2);
    var x0, x1, x2, x3 := g[0], g[1], g[2], g[3];
    assert g == [x0, x1, x2, x3];
    DecodeGroup(x0, x1, x2, x3, tail);
    GroupBytes(b0, b1, b2);
    assert [First(x0, x1), Second(x1, x2), Third(x2, x3)] == [b0, b1, b2];
  }

  lemma QuadStep(b: Bytes)
    requires |b| >= 3
    ensures Decode(Encode(b)) == [b[0], b[1], b[2]] + Decode(Encode(b[3..]))
  {
    SextetsStep(b);
    DecodeStep(b[0], b[1], b[2], Sextets(Encode(b[3..])));
  }

  /** Decoding what `toString('base64')` wrote gives back the same bytes,
      for every buffer including the empty one. */
  lemma {:induction false} RoundTrip(b: Bytes)
    ensures Decode(Encode(b)) == b
  {
    if |b| == 0 {
      EmptyRoundTrip();
      assert b == [];
    } else if |b| == 1 {
      assert b == [b[0]];
      OneByteTail(b);
    } else if |b| == 2 {
      assert b == [b[0], b[1]];
      TwoByteTail(b);
    } else {
      assert b == [b[0], b[1], b[2]] + b[3..];
      assert Decode(Encode(b)) == [b[0], b[1], b[2]] + Decode(Encode(b[3..])) by {
        QuadStep(b);
      }
      assert Decode(Encode(b[3..])) == b[3..] by {
        RoundTrip(b[3..]);
      }
    }
  }

  lemma EmptyRoundTrip()
    ensures Decode(Encode([])) == []
  {
    assert Encode([]) == "";
    assert Sextets("") == [];
  }

  /** A text without any sextet character decodes to the empty buffer. */
  lemma {:induction false} DecodeNoSextets(s: string)
    requires forall i :: 0 <= i < |s| ==> !IsSextetChar(s[i])
    ensures Decode(s) == []
  {
    if |s| > 0 && s[0] != '=' {
      DecodeNoSextets(s[1..]);
    }
  }
}

/** Lower-case hexadecimal, as `buf.toString('hex')` writes it. */
module Hex {
  import opened Base

  predicate IsLowerHex(c: char) {
    ('0' <= c <= '9') || ('a' <= c <= 'f')
  }

  function HexChar(v: int): (c: char)
    requires 0 <= v < 16
    ensures IsLowerHex(c) && HexValue(c) == v
  {
    if v < 10 then (v + '0' as int) as char else (v - 10 + 'a' as int) as char
  }

  function HexValue(c: char): (v: int)
    requires IsLowerHex(c)
    ensures 0 <= v < 16
  {
    if c <= '9' then c as int - '0' as int else c as int - 'a' as int + 10
  }

  /** `buf.toString('hex')`. */
  function Encode(b: Bytes): (s: string)
    ensures |s| == 2 * |b|
    ensures forall i :: 0 <= i < |s| ==> IsLowerHex(s[i])
  {
    if |b| == 0 then "" else [HexChar(b[0] / 16), HexChar(b[0] % 16)] + Encode(b[1..])
  }

  /** Reading hex text back into bytes; None for text `Encode` never writes. */
  function Decode(s: string): Option<Bytes> {
    if |s| == 0 then Some([])
    else if |s| == 1 || !IsLowerHex(s[0]) || !IsLowerHex(s[1]) then None
    else
      var rest :- Decode(s[2..]);
      Some([HexValue(s[0]) * 16 + HexValue(s[1])] + rest)
  }

  /** Hex text determines the bytes it was written from. */
  lemma {:induction false} RoundTrip(b: Bytes)
    ensures Decode(Encode(b)) == Some(b)
  {
    if |b| > 0 {
      var s := Encode(b);
      assert s[2..] == Encode(b[1..]);
      RoundTrip(b[1..]);
      assert b == [b[0]] + b[1..];
    }
  }

  /** Two buffers with the same hex text are the same buffer. */
  lemma Injective(a: Bytes, b: Bytes)
    requires Encode(a) == Encode(b)
    ensures a == b
  {
    RoundTrip(a);
    RoundTrip(b);
  }
}
