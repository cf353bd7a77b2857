/** Base64 as section 4 of RFC 4648 defines it: the encoder Go's
    `base64.StdEncoding` is, and the decoder `base64 -d` is. */
module Base64 {
  import opened Wrappers

  /** The longest encoding written in one command. */
  const MAX_INLINE_BASE64: nat := 96 * 1024

  newtype byte = x: int | 0 <= x < 256

  function Symbol(v: int): (c: char)
    requires 0 <= v < 64
  {
    if v < 26 then (v + 65) as char
    else if v < 52 then (v - 26 + 97) as char
    else if v < 62 then (v - 52 + 48) as char
    else if v == 62 then '+' else '/'
  }

  /** The value of a symbol; 64 for anything else. */
  function Value(c: char): (v: int)
    ensures 0 <= v <= 64
  {
    var n := c as int;
    if 65 <= n <= 90 then n - 65
    else if 97 <= n <= 122 then n - 97 + 26
    else if 48 <= n <= 57 then n - 48 + 52
    else if c == '+' then 62 else if c == '/' then 63 else 64
  }

  lemma SymbolValue(v: int)
    requires 0 <= v < 64
    ensures Value(Symbol(v)) == v && Symbol(v) != '='
  {
  }

  // ---------------------------------------------------------------- encoding

  function Group3(a: int, b: int, c: int): (s: string)
    requires 0 <= a < 256 && 0 <= b < 256 && 0 <= c < 256
    ensures |s| == 4
  {
    [Symbol(a / 4), Symbol(a % 4 * 16 + b / 16), Symbol(b % 16 * 4 + c / 64), Symbol(c % 64)]
  }

  function Encode(bs: seq<byte>): (s: string)
    ensures |s| == 4 * ((|bs| + 2) / 3)
  {
    if |bs| == 0 then ""
    else if |bs| == 1 then [Symbol(bs[0] as int / 4), Symbol(bs[0] as int % 4 * 16), '=', '=']
    else if |bs| == 2 then
      var a, b := bs[0] as int, bs[1] as int;
      [Symbol(a / 4), Symbol(a % 4 * 16 + b / 16), Symbol(b % 16 * 4), '=']
    else Group3(bs[0] as int, bs[1] as int, bs[2] as int) + Encode(bs[3..])
  }

  // ---------------------------------------------------------------- decoding

  /** Four symbols of a block that is not padded. */
  function Ungroup(q: string): (r: Option<seq<byte>>)
    requires |q| == 4
    ensures r.Some? ==> |r.value| == 3
  {
    var a, b, c, d := Value(q[0]), Value(q[1]), Value(q[2]), Value(q[3]);
    if a < 64 && b < 64 && c < 64 && d < 64 then
      Some([(a * 4 + b / 16) as byte, (b % 16 * 16 + c / 4) as byte, (c % 4 * 64 + d) as byte])
    else None
  }

  /** The last block may be padded with one or two equals signs. */
  function UngroupLast(q: string): (r: Option<seq<byte>>)
    requires |q| == 4
  {
    var a, b, c := Value(q[0]), Value(q[1]), Value(q[2]);
    if q[2] == '=' && q[3] == '=' then
      if a < 64 && b < 64 then Some([(a * 4 + b / 16) as byte]) else None
    else if q[3] == '=' then
      if a < 64 && b < 64 && c < 64 then Some([(a * 4 + b / 16) as byte, (b % 16 * 16 + c / 4) as byte]) else None
    else Ungroup(q)
  }

  function Decode(s: string): Option<seq<byte>> {
    if s == "" then Some([])
    else if |s| < 4 then None
    else if |s| == 4 then UngroupLast(s)
    else
      match Ungroup(s[..4])
      case None => None
      case Some(head) =>
        match Decode(s[4..])
        case None => None
        case Some(tail) => Some(head + tail)
  }

  // ---------------------------------------------------------------- round trip, whole and in pieces

  lemma GroupRoundTrip(a: int, b: int, c: int)
    requires 0 <= a < 256 && 0 <= b < 256 && 0 <= c < 256
    ensures Ungroup(Group3(a, b, c)) == Some([a as byte, b as byte, c as byte])
    ensures Group3(a, b, c)[3] != '='
  {
    var w, x, y, z := a / 4, a % 4 * 16 + b / 16, b % 16 * 4 + c / 64, c % 64;
    SymbolValue(w);
    SymbolValue(x);
    SymbolValue(y);
    SymbolValue(z);
    assert x / 16 == a % 4 && x % 16 == b / 16;
    assert y / 4 == b % 16 && y % 4 == c / 64;
  }

  lemma OneByte(a: int)
    requires 0 <= a < 256
    ensures UngroupLast([Symbol(a / 4), Symbol(a % 4 * 16), '=', '=']) == Some([a as byte])
  {
    SymbolValue(a / 4);
    SymbolValue(a % 4 * 16);
    assert (a % 4 * 16) / 16 == a % 4;
  }

  lemma TwoBytes(a: int, b: int)
    requires 0 <= a < 256 && 0 <= b < 256
    ensures UngroupLast([Symbol(a / 4), Symbol(a % 4 * 16 + b / 16), Symbol(b % 16 * 4), '=']) == Some([a as byte, b as byte])
  {
    var x, y := a % 4 * 16 + b / 16, b % 16 * 4;
    SymbolValue(a / 4);
    SymbolValue(x);
    SymbolValue(y);
    assert x / 16 == a % 4 && x % 16 == b / 16 && y / 4 == b % 16;
  }

  lemma {:induction false} LastRoundTrip(bs: seq<byte>)
    requires 1 <= |bs| <= 3
    ensures UngroupLast(Encode(bs)) == Some(bs)
  {
    if |bs| == 1 {
      OneByte(bs[0] as int);
      assert bs == [bs[0]];
    } else if |bs| == 2 {
      TwoBytes(bs[0] as int, bs[1] as int);
      assert bs == [bs[0], bs[1]];
    } else {
      var head := Group3(bs[0] as int, bs[1] as int, bs[2] as int);
      GroupRoundTrip(bs[0] as int, bs[1] as int, bs[2] as int);
      assert bs[3..] == [] && Encode(bs) == head + "" == head;
      assert bs == [bs[0], bs[1], bs[2]];
    }
  }

  lemma {:induction false} RoundTrip(bs: seq<byte>)
    ensures Decode(Encode(bs)) == Some(bs)
  {
    if 1 <= |bs| <= 3 {
      LastRoundTrip(bs);
    } else if |bs| > 3 {
      var head := Group3(bs[0] as int, bs[1] as int, bs[2] as int);
      GroupRoundTrip(bs[0] as int, bs[1] as int, bs[2] as int);
      RoundTrip(bs[3..]);
      var s := Encode(bs);
      assert s[..4] == head && s[4..] == Encode(bs[3..]);
      assert bs == [bs[0], bs[1], bs[2]] + bs[3..];
    }
  }

  lemma EncodeStep(h: seq<byte>, rest: seq<byte>)
    requires |h| == 3
    ensures Encode(h + rest) == Group3(h[0] as int, h[1] as int, h[2] as int) + Encode(rest)
  {
    assert (h + rest)[3..] == rest;
  }

  lemma CutStep(h: seq<byte>, rest: seq<byte>, k: nat, m: nat)
    requires |h| == 3 && m <= |rest| && 4 * k <= |Encode(rest)|
    requires Encode(rest)[..4 * k] == Encode(rest[..m]) && Encode(rest)[4 * k..] == Encode(rest[m..])
    ensures 4 * k + 4 <= |Encode(h + rest)|
    ensures Encode(h + rest)[..4 * k + 4] == Encode((h + rest)[..m + 3])
    ensures Encode(h + rest)[4 * k + 4..] == Encode((h + rest)[m + 3..])
  {
    EncodeStep(h, rest);
    EncodeStep(h, rest[..m]);
    assert (h + rest)[..m + 3] == h + rest[..m] && (h + rest)[m + 3..] == rest[m..];
  }

  lemma CutWhole(bs: seq<byte>)
    requires 1 <= |bs| <= 3
    ensures |Encode(bs)| == 4 && Encode(bs)[..4] == Encode(bs[..|bs|]) && Encode(bs)[4..] == Encode(bs[|bs|..])
  {
    assert bs[..|bs|] == bs && bs[|bs|..] == [];
  }

  /** An encoding cut at a multiple of four symbols is two encodings: of the bytes
      before and of the bytes after. */
  lemma {:induction false} CutEncoding(bs: seq<byte>, k: nat)
    requires 4 * k <= |Encode(bs)|
    ensures var n := if 3 * k <= |bs| then 3 * k else |bs|;
            Encode(bs)[..4 * k] == Encode(bs[..n]) && Encode(bs)[4 * k..] == Encode(bs[n..])
  {
    if k == 0 {
      assert bs[..0] == [] && bs[0..] == bs;
    } else if |bs| <= 3 {
      CutWhole(bs);
    } else {
      var h, rest := bs[..3], bs[3..];
      assert bs == h + rest;
      CutEncoding(rest, k - 1);
      CutStep(h, rest, k - 1, if 3 * (k - 1) <= |rest| then 3 * (k - 1) else |rest|);
    }
  }
}
