/** UTF-8 as `bytes.decode` reads it, strictly and with errors ignored. */
module Utf8 {
  import opened Prelude

  type Byte = b: int | 0 <= b < 256

  predicate Continues(b: Byte) { 0x80 <= b < 0xC0 }

  /** Six more bits. */
  function SixMore(high: int, b: Byte): int { high * 0x40 + b - 0x80 }

  function Lead(b: Byte, mark: int): int { b - mark }

  /** The first scalar value with the number of its bytes, unless the text starts badly. */
  function DecodeOne(s: seq<Byte>): (r: Option<(char, nat)>)
    requires s != []
    ensures r.Some? ==> 1 <= r.value.1 <= |s|
  {
    var b := s[0];
    if b < 0x80 then Some((b as char, 1))
    else if 0xC2 <= b < 0xE0 && |s| >= 2 && Continues(s[1]) then
      Some((SixMore(Lead(b, 0xC0), s[1]) as char, 2))
    else if 0xE0 <= b < 0xF0 && |s| >= 3 && Continues(s[1]) && Continues(s[2])
            && (b == 0xE0 ==> s[1] >= 0xA0) && (b == 0xED ==> s[1] < 0xA0) then
      Some((SixMore(SixMore(Lead(b, 0xE0), s[1]), s[2]) as char, 3))
    else if 0xF0 <= b < 0xF5 && |s| >= 4 && Continues(s[1]) && Continues(s[2]) && Continues(s[3])
            && (b == 0xF0 ==> s[1] >= 0x90) && (b == 0xF4 ==> s[1] < 0x90) then
      Some((SixMore(SixMore(SixMore(Lead(b, 0xF0), s[1]), s[2]), s[3]) as char, 4))
    else None
  }

  /** `raw.decode("utf-8")`, where that does not raise. */
  function Decode(s: seq<Byte>): Option<string> {
    if s == [] then Some("")
    else
      match DecodeOne(s)
      case None => None
      case Some((c, n)) =>
        match Decode(s[n..])
        case None => None
        case Some(t) => Some([c] + t)
  }

  /** `raw.decode("utf-8", "ignore")`. Dropping one byte at a time drops what Python drops at once,
    since the rest of a broken sequence starts no other. */
  function DecodeIgnoring(s: seq<Byte>): string {
    if s == [] then ""
    else
      match DecodeOne(s)
      case None => DecodeIgnoring(s[1..])
      case Some((c, n)) => [c] + DecodeIgnoring(s[n..])
  }

  /** Where nothing is ignored the two agree. */
  lemma {:induction false} DecodeAgrees(s: seq<Byte>)
    ensures Decode(s).Some? ==> DecodeIgnoring(s) == Decode(s).value
    decreases |s|
  {
    if s != [] && DecodeOne(s).Some? {
      DecodeAgrees(s[DecodeOne(s).value.1..]);
    }
  }

  // -------------------------------------------------------------------- the encoder

  /** The low six bits as a continuation byte. */
  function Low(n: nat): (b: Byte)
    ensures Continues(b) && SixMore(n / 0x40, b) == n
  {
    0x80 + n % 0x40
  }

  function EncodeOne(c: char): (r: seq<Byte>)
    ensures 1 <= |r| <= 4
  {
    var n := c as nat;
    if n < 0x80 then [n]
    else if n < 0x800 then [0xC0 + n / 0x40, Low(n)]
    else if n < 0x10000 then [0xE0 + n / 0x40 / 0x40, Low(n / 0x40), Low(n)]
    else [0xF0 + n / 0x40 / 0x40 / 0x40, Low(n / 0x40 / 0x40), Low(n / 0x40), Low(n)]
  }

  function Encode(t: string): seq<Byte> { if t == "" then [] else EncodeOne(t[0]) + Encode(t[1..]) }

  lemma DecodeEncodeOne(c: char, rest: seq<Byte>)
    ensures DecodeOne(EncodeOne(c) + rest) == Some((c, |EncodeOne(c)|))
  {
    var n, e := c as nat, EncodeOne(c);
    var s := e + rest;
    assert forall i | 0 <= i < |e| :: s[i] == e[i];
    if n < 0x800 {
    } else if n < 0x10000 {
      assert s[0] == 0xE0 + n / 0x40 / 0x40 && s[1] == Low(n / 0x40) && s[2] == Low(n);
    } else {
      assert s[0] == 0xF0 + n / 0x40 / 0x40 / 0x40 && s[1] == Low(n / 0x40 / 0x40);
      assert s[2] == Low(n / 0x40) && s[3] == Low(n);
    }
  }

  /** Every text is read back from its bytes. */
  lemma {:induction false} DecodeEncode(t: string)
    ensures Decode(Encode(t)) == Some(t)
  {
    if t != "" {
      var rest := Encode(t[1..]);
      DecodeEncode(t[1..]);
      DecodeEncodeOne(t[0], rest);
      assert (EncodeOne(t[0]) + rest)[|EncodeOne(t[0])|..] == rest;
      assert t == [t[0]] + t[1..];
    }
  }

  lemma SixMoreBack(high: nat, b: Byte)
    requires Continues(b)
    ensures SixMore(high, b) == high * 0x40 + b - 0x80 && SixMore(high, b) / 0x40 == high && Low(SixMore(high, b)) == b
  {
  }

  /** What starts a text well is the one encoding of its first character. */
  lemma EncodeDecodeOne(s: seq<Byte>)
    requires s != [] && DecodeOne(s).Some?
    ensures s[..DecodeOne(s).value.1] == EncodeOne(DecodeOne(s).value.0)
  {
    hide SixMore, Low;
    var n := DecodeOne(s).value.1;
    if n == 2 {
      SixMoreBack(s[0] - 0xC0, s[1]);
    } else if n == 3 {
      SixMoreBack(s[0] - 0xE0, s[1]);
      SixMoreBack(SixMore(s[0] - 0xE0, s[1]), s[2]);
    } else if n == 4 {
      SixMoreBack(s[0] - 0xF0, s[1]);
      SixMoreBack(SixMore(s[0] - 0xF0, s[1]), s[2]);
      SixMoreBack(SixMore(SixMore(s[0] - 0xF0, s[1]), s[2]), s[3]);
    }
  }

  /** Strict decoding takes the encodings of texts and no other bytes. */
  lemma {:induction false} DecodeExact(s: seq<Byte>, t: string)
    ensures Decode(s) == Some(t) <==> s == Encode(t)
    decreases |s|
  {
    DecodeEncode(t);
    if Decode(s) == Some(t) && s != [] {
      var (c, n) := DecodeOne(s).value;
      EncodeDecodeOne(s);
      DecodeExact(s[n..], t[1..]);
      assert s == s[..n] + s[n..];
    }
  }

  // ------------------------------------------------------------- what is ignored

  lemma IgnoringOne(c: char, rest: seq<Byte>)
    ensures DecodeIgnoring(EncodeOne(c) + rest) == [c] + DecodeIgnoring(rest)
  {
    hide DecodeOne, EncodeOne;
    DecodeEncodeOne(c, rest);
    assert (EncodeOne(c) + rest)[|EncodeOne(c)|..] == rest;
  }

  lemma {:induction false} IgnoringAfter(t: string, rest: seq<Byte>)
    ensures DecodeIgnoring(Encode(t) + rest) == t + DecodeIgnoring(rest)
  {
    hide DecodeIgnoring, DecodeOne, EncodeOne;
    if t == "" {
      assert Encode(t) + rest == rest;
    } else {
      IgnoringOne(t[0], Encode(t[1..]) + rest);
      IgnoringAfter(t[1..], rest);
      assert Encode(t) + rest == EncodeOne(t[0]) + (Encode(t[1..]) + rest);
      assert t == [t[0]] + t[1..];
    }
  }

  /** Bytes that start no character. */
  ghost predicate Stray(junk: seq<Byte>) { forall i | 0 <= i < |junk| :: 0x80 <= junk[i] < 0xC2 || junk[i] >= 0xF5 }

  /** The encoding of a character cut short. */
  ghost predicate CutShort(junk: seq<Byte>, c: char) {
    0 < |junk| < |EncodeOne(c)| && junk == EncodeOne(c)[..|junk|]
  }

  lemma StrayHead(junk: seq<Byte>, rest: seq<Byte>)
    requires Stray(junk) && junk != []
    ensures DecodeOne(junk + rest).None? && Stray(junk[1..])
  {
    assert (junk + rest)[0] == junk[0];
  }

  lemma CutShortHead(junk: seq<Byte>, c: char, rest: seq<Byte>)
    requires CutShort(junk, c) && (rest != [] ==> !Continues(rest[0]))
    ensures DecodeOne(junk + rest).None? && Stray(junk[1..])
  {
    var s, e := junk + rest, EncodeOne(c);
    assert forall i | 0 <= i < |junk| :: junk[i] == e[i] && s[i] == e[i];
    assert |s| > |junk| ==> s[|junk|] == rest[0];
  }

  lemma EncodeHead(u: string)
    ensures u != "" ==> Encode(u) != [] && !Continues(Encode(u)[0])
  {
  }

  lemma {:induction false} StrayVanish(junk: seq<Byte>, rest: seq<Byte>)
    requires Stray(junk)
    ensures DecodeIgnoring(junk + rest) == DecodeIgnoring(rest)
    decreases |junk|
  {
    hide DecodeOne, Stray;
    if junk == [] {
      assert junk + rest == rest;
    } else {
      StrayHead(junk, rest);
      StrayVanish(junk[1..], rest);
      assert (junk + rest)[1..] == junk[1..] + rest;
    }
  }

  /** In tolerant mode a broken piece between two texts vanishes and nothing else does. */
  lemma BrokenVanishes(t: string, junk: seq<Byte>, u: string)
    requires Stray(junk) || exists c :: CutShort(junk, c)
    ensures DecodeIgnoring(Encode(t) + junk + Encode(u)) == t + u
  {
    hide DecodeOne, Stray, CutShort, Encode, Continues;
    var rest := Encode(u);
    assert Encode(t) + junk + rest == Encode(t) + (junk + rest);
    IgnoringAfter(t, junk + rest);
    EncodeHead(u);
    IgnoringAfter(u, []);
    assert rest + [] == rest;
    if Stray(junk) {
      StrayVanish(junk, rest);
    } else {
      var c :| CutShort(junk, c);
      CutVanishes(junk, c, u);
    }
  }

  lemma CutVanishes(junk: seq<Byte>, c: char, u: string)
    requires CutShort(junk, c)
    ensures DecodeIgnoring(junk + Encode(u)) == DecodeIgnoring(Encode(u))
  {
    hide DecodeOne, Stray, EncodeOne, Continues;
    var rest := Encode(u);
    EncodeHead(u);
    assert u == "" ==> rest == [];
    CutShortHead(junk, c, rest);
    StrayVanish(junk[1..], rest);
    assert (junk + rest)[1..] == junk[1..] + rest;
  }
}
