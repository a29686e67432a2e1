/** `encodeURIComponent` as section 19.2.6.4 of ECMA-262 defines it: every character
    outside the unreserved set `A-Z a-z 0-9 - _ . ! ~ * ' ( )` becomes the `%XX` escapes
    (upper-case hexadecimal) of its UTF-8 bytes. With it: a percent-decoder, and the
    splitting of a query string into `key=value` pairs. */
module Uri {
  import opened JsValues

  predicate Unreserved(c: char) {
    || 'A' <= c <= 'Z' || 'a' <= c <= 'z' || '0' <= c <= '9'
    || c == '-' || c == '_' || c == '.' || c == '!' || c == '~' || c == '*' || c == '\'' || c == '(' || c == ')'
  }

  predicate IsHexDigit(c: char) {
    '0' <= c <= '9' || 'A' <= c <= 'F'
  }

  function HexDigit(n: nat): (c: char)
    requires n < 16
    ensures IsHexDigit(c)
  {
    if n < 10 then ('0' as int + n) as char else ('A' as int + n - 10) as char
  }

  function HexValue(c: char): Option<nat> {
    if '0' <= c <= '9' then Some(c as int - '0' as int)
    else if 'A' <= c <= 'F' then Some(c as int - 'A' as int + 10)
    else if 'a' <= c <= 'f' then Some(c as int - 'a' as int + 10)
    else None
  }

  lemma HexRoundTrip(n: nat)
    requires n < 16
    ensures HexValue(HexDigit(n)) == Some(n)
  {
  }

  predicate IsByte(b: nat) {
    b < 256
  }

  // ------------------------------------------------------------------- UTF-8

  /** The UTF-8 encoding of one Unicode scalar value. */
  function Utf8(c: char): (r: seq<nat>)
    ensures 1 <= |r| <= 4
    ensures forall i :: 0 <= i < |r| ==> IsByte(r[i])
    ensures c as int < 0x80 <==> |r| == 1
  {
    var cp := c as int;
    var q1 := cp / 64;
    var q2 := q1 / 64;
    var q3 := q2 / 64;
    if cp < 0x80 then [cp]
    else if cp < 0x800 then [0xC0 + q1, 0x80 + cp % 64]
    else if cp < 0x10000 then [0xE0 + q2, 0x80 + q1 % 64, 0x80 + cp % 64]
    else [0xF0 + q3, 0x80 + q2 % 64, 0x80 + q1 % 64, 0x80 + cp % 64]
  }

  function Utf8All(s: string): seq<nat> {
    if s == [] then [] else Utf8(s[0]) + Utf8All(s[1..])
  }

  predicate IsContinuation(b: nat) {
    0x80 <= b < 0xC0
  }

  /** A code point that is a Unicode scalar value, so a `char`. */
  predicate IsScalar(cp: int) {
    0 <= cp < 0xD800 || 0xE000 <= cp < 0x11_0000
  }

  /** The scalar value the well-formed UTF-8 sequence at the head of `bs` encodes, and
      the number of bytes it takes; `None` for a malformed, overlong or truncated head. */
  function Utf8Head(bs: seq<nat>): Option<(char, nat)>
    requires bs != []
  {
    var b0 := bs[0];
    if b0 < 0x80 then Some((b0 as char, 1))
    else if 0xC0 <= b0 < 0xE0 then
      if |bs| < 2 || !IsContinuation(bs[1]) then None
      else
        var cp := (b0 - 0xC0) * 64 + (bs[1] - 0x80);
        if 0x80 <= cp then Some((cp as char, 2)) else None
    else if 0xE0 <= b0 < 0xF0 then
      if |bs| < 3 || !IsContinuation(bs[1]) || !IsContinuation(bs[2]) then None
      else
        var cp := ((b0 - 0xE0) * 64 + (bs[1] - 0x80)) * 64 + (bs[2] - 0x80);
        if 0x800 <= cp && IsScalar(cp) then Some((cp as char, 3)) else None
    else if 0xF0 <= b0 < 0xF8 then
      if |bs| < 4 || !IsContinuation(bs[1]) || !IsContinuation(bs[2]) || !IsContinuation(bs[3]) then None
      else
        var cp := (((b0 - 0xF0) * 64 + (bs[1] - 0x80)) * 64 + (bs[2] - 0x80)) * 64 + (bs[3] - 0x80);
        if 0x1_0000 <= cp < 0x11_0000 then Some((cp as char, 4)) else None
    else None
  }

  function Utf8Decode(bs: seq<nat>): Option<string>
    decreases |bs|
  {
    if bs == [] then Some([])
    else
      var head := Utf8Head(bs);
      if head.None? || head.value.1 == 0 || head.value.1 > |bs| then None
      else
        var rest := Utf8Decode(bs[head.value.1..]);
        if rest.None? then None else Some([head.value.0] + rest.value)
  }

  lemma Utf8HeadOf(c: char, rest: seq<nat>)
    ensures Utf8Head(Utf8(c) + rest) == Some((c, |Utf8(c)|))
  {
    var cp := c as int;
    var q1 := cp / 64;
    var q2 := q1 / 64;
    var q3 := q2 / 64;
    var bs := Utf8(c) + rest;
    if cp < 0x80 {
    } else if cp < 0x800 {
      assert cp == q1 * 64 + cp % 64;
      assert bs[0] == 0xC0 + q1 && bs[1] == 0x80 + cp % 64;
    } else if cp < 0x10000 {
      assert cp == q1 * 64 + cp % 64;
      assert q1 == q2 * 64 + q1 % 64;
      assert bs[0] == 0xE0 + q2 && bs[1] == 0x80 + q1 % 64 && bs[2] == 0x80 + cp % 64;
    } else {
      assert cp == q1 * 64 + cp % 64;
      assert q1 == q2 * 64 + q1 % 64;
      assert q2 == q3 * 64 + q2 % 64;
      assert bs[0] == 0xF0 + q3 && bs[1] == 0x80 + q2 % 64 && bs[2] == 0x80 + q1 % 64 && bs[3] == 0x80 + cp % 64;
    }
  }

  /** Decoding the UTF-8 bytes of a string gives the string back. */
  lemma {:induction false} Utf8RoundTrip(s: string)
    ensures Utf8Decode(Utf8All(s)) == Some(s)
  {
    if s != [] {
      var bs := Utf8All(s);
      Utf8HeadOf(s[0], Utf8All(s[1..]));
      assert bs[|Utf8(s[0])|..] == Utf8All(s[1..]);
      Utf8RoundTrip(s[1..]);
      assert [s[0]] + s[1..] == s;
    }
  }

  // ------------------------------------------------------------ percent escapes

  function PercentByte(b: nat): string
    requires IsByte(b)
  {
    ['%', HexDigit(b / 16), HexDigit(b % 16)]
  }

  function PercentBytes(bs: seq<nat>): string
    requires forall i :: 0 <= i < |bs| ==> IsByte(bs[i])
  {
    if bs == [] then [] else PercentByte(bs[0]) + PercentBytes(bs[1..])
  }

  function EncodeChar(c: char): string {
    if Unreserved(c) then [c] else PercentBytes(Utf8(c))
  }

  /** `encodeURIComponent` */
  function EncodeURIComponent(s: string): string {
    if s == [] then [] else EncodeChar(s[0]) + EncodeURIComponent(s[1..])
  }

  /** The byte a `%XX` escape at the head of `t` stands for. */
  function EscapedByte(t: string): Option<nat> {
    if |t| >= 3 && t[0] == '%' && HexValue(t[1]).Some? && HexValue(t[2]).Some?
    then Some(16 * HexValue(t[1]).value + HexValue(t[2]).value)
    else None
  }

  /** The bytes of a percent-encoded string: `%XX` escapes and ASCII characters; `None`
      for a broken escape or a character outside ASCII. */
  function PercentDecodeBytes(t: string): Option<seq<nat>>
    decreases |t|
  {
    if t == [] then Some([])
    else if t[0] == '%' then
      var b := EscapedByte(t);
      if b.None? then None
      else
        var rest := PercentDecodeBytes(t[3..]);
        if rest.None? then None else Some([b.value] + rest.value)
    else if t[0] as int < 0x80 then
      var rest := PercentDecodeBytes(t[1..]);
      if rest.None? then None else Some([t[0] as int] + rest.value)
    else None
  }

  /** The percent-decoding of a query component: its bytes, read as UTF-8. */
  function PercentDecode(t: string): Option<string> {
    var bs := PercentDecodeBytes(t);
    if bs.None? then None else Utf8Decode(bs.value)
  }

  /** `Some(xs + r)`, or `None` */
  function Prefix<T>(xs: seq<T>, r: Option<seq<T>>): Option<seq<T>> {
    if r.Some? then Some(xs + r.value) else None
  }

  lemma PercentByteDecode(b: nat, rest: string)
    requires IsByte(b)
    ensures PercentDecodeBytes(PercentByte(b) + rest) == Prefix([b], PercentDecodeBytes(rest))
  {
    var t := PercentByte(b) + rest;
    HexRoundTrip(b / 16);
    HexRoundTrip(b % 16);
    assert EscapedByte(t) == Some(b);
    assert t[3..] == rest;
  }

  lemma {:induction false} PercentBytesDecode(bs: seq<nat>, rest: string)
    requires forall i :: 0 <= i < |bs| ==> IsByte(bs[i])
    ensures PercentDecodeBytes(PercentBytes(bs) + rest) == Prefix(bs, PercentDecodeBytes(rest))
  {
    var r := PercentDecodeBytes(rest);
    if bs == [] {
      assert PercentBytes(bs) + rest == rest;
      if r.Some? {
        assert bs + r.value == r.value;
      }
    } else {
      var tail := PercentBytes(bs[1..]) + rest;
      assert PercentBytes(bs) + rest == PercentByte(bs[0]) + tail;
      PercentByteDecode(bs[0], tail);
      PercentBytesDecode(bs[1..], rest);
      if r.Some? {
        ConsAppend(bs, r.value);
      }
    }
  }

  lemma ConsAppend<T>(xs: seq<T>, ys: seq<T>)
    requires xs != []
    ensures [xs[0]] + (xs[1..] + ys) == xs + ys
  {
    assert [xs[0]] + xs[1..] == xs;
  }

  lemma EncodeCharBytes(c: char, rest: string)
    ensures PercentDecodeBytes(EncodeChar(c) + rest) == Prefix(Utf8(c), PercentDecodeBytes(rest))
  {
    if Unreserved(c) {
      assert (EncodeChar(c) + rest)[1..] == rest;
    } else {
      PercentBytesDecode(Utf8(c), rest);
    }
  }

  /** The bytes of an encoded string are the UTF-8 bytes of the original. */
  lemma {:induction false} EncodeBytes(s: string)
    ensures PercentDecodeBytes(EncodeURIComponent(s)) == Some(Utf8All(s))
  {
    if s != [] {
      EncodeCharBytes(s[0], EncodeURIComponent(s[1..]));
      EncodeBytes(s[1..]);
    }
  }

  /** Decoding undoes `encodeURIComponent`. */
  lemma EncodeRoundTrip(s: string)
    ensures PercentDecode(EncodeURIComponent(s)) == Some(s)
  {
    EncodeBytes(s);
    Utf8RoundTrip(s);
  }

  /** `encodeURIComponent` is one-to-one: different texts give different encodings. */
  lemma EncodeInjective(s: string, t: string)
    requires EncodeURIComponent(s) == EncodeURIComponent(t)
    ensures s == t
  {
    EncodeRoundTrip(s);
    EncodeRoundTrip(t);
  }

  /** The characters an encoding can contain: unreserved ones, `%` and hex digits. */
  predicate EncodedChar(c: char) {
    Unreserved(c) || c == '%' || IsHexDigit(c)
  }

  lemma {:induction false} PercentBytesChars(bs: seq<nat>)
    requires forall i :: 0 <= i < |bs| ==> IsByte(bs[i])
    ensures forall i :: 0 <= i < |PercentBytes(bs)| ==> EncodedChar(PercentBytes(bs)[i])
  {
    if bs != [] {
      PercentBytesChars(bs[1..]);
    }
  }

  /** The encoding of one character holds only encoded characters. */
  lemma EncodeCharChars(c: char)
    ensures forall i :: 0 <= i < |EncodeChar(c)| ==> EncodedChar(EncodeChar(c)[i])
  {
    if !Unreserved(c) {
      PercentBytesChars(Utf8(c));
    }
  }

  lemma {:induction false} EncodeChars(s: string)
    ensures forall i :: 0 <= i < |EncodeURIComponent(s)| ==> EncodedChar(EncodeURIComponent(s)[i])
  {
    if s != [] {
      var head, tail := EncodeChar(s[0]), EncodeURIComponent(s[1..]);
      assert EncodeURIComponent(s) == head + tail;
      EncodeCharChars(s[0]);
      EncodeChars(s[1..]);
      forall i | 0 <= i < |head + tail|
        ensures EncodedChar((head + tail)[i])
      {
        if i < |head| {
          assert (head + tail)[i] == head[i];
        } else {
          assert (head + tail)[i] == tail[i - |head|];
        }
      }
    }
  }

  /** An encoding never contains `&`, `=`, `?`, `#`, `+` or `$`, so it can sit between the
      separators of a query string. */
  lemma EncodeAvoidsSeparators(s: string)
    ensures forall i :: 0 <= i < |EncodeURIComponent(s)| ==> EncodedChar(EncodeURIComponent(s)[i])
    ensures '&' !in EncodeURIComponent(s) && '=' !in EncodeURIComponent(s) && '?' !in EncodeURIComponent(s)
    ensures '#' !in EncodeURIComponent(s) && '+' !in EncodeURIComponent(s) && '$' !in EncodeURIComponent(s)
  {
    EncodeChars(s);
  }

  // ------------------------------------------------------------------ queries

  /** `s.split(sep)` for a one-character separator. */
  function Split(s: string, sep: char): (r: seq<string>)
    ensures |r| >= 1
    decreases |s|
  {
    if s == [] then [[]]
    else
      var tail := Split(s[1..], sep);
      if s[0] == sep then [[]] + tail else [[s[0]] + tail[0]] + tail[1..]
  }

  lemma {:induction false} SplitOfPiece(piece: string, rest: string, sep: char)
    requires sep !in piece
    ensures Split(piece + [sep] + rest, sep) == [piece] + Split(rest, sep)
    ensures Split(piece, sep) == [piece]
    decreases |piece|
  {
    if piece == [] {
      assert piece + [sep] + rest == [sep] + rest;
      assert ([sep] + rest)[1..] == rest;
    } else {
      SplitOfPiece(piece[1..], rest, sep);
      assert (piece + [sep] + rest)[1..] == piece[1..] + [sep] + rest;
      assert [piece[0]] + piece[1..] == piece;
    }
  }

  /** Splitting a join undoes it when no piece holds the separator. */
  lemma {:induction false} SplitJoin(pieces: seq<string>, sep: char)
    requires |pieces| >= 1
    requires forall i :: 0 <= i < |pieces| ==> sep !in pieces[i]
    ensures Split(Join(pieces, [sep]), sep) == pieces
  {
    if |pieces| == 1 {
      SplitOfPiece(pieces[0], [], sep);
    } else {
      SplitJoin(pieces[1..], sep);
      SplitOfPiece(pieces[0], Join(pieces[1..], [sep]), sep);
      assert [pieces[0]] + pieces[1..] == pieces;
    }
  }

  /** `encodeURIComponent(key) + "=" + encodeURIComponent(value)` */
  function EncodePair(pair: (string, string)): string {
    EncodeURIComponent(pair.0) + "=" + EncodeURIComponent(pair.1)
  }

  /** The query string of `pairs`, joined by `&`. */
  function Query(pairs: seq<(string, string)>): string {
    Join(seq(|pairs|, i requires 0 <= i < |pairs| => EncodePair(pairs[i])), "&")
  }

  lemma QueryOfOne(p: (string, string))
    ensures Query([p]) == EncodePair(p)
  {
  }

  lemma QueryOfTwo(p: (string, string), q: (string, string))
    ensures Query([p, q]) == EncodePair(p) + "&" + EncodePair(q)
  {
    var fields := seq(2, i requires 0 <= i < 2 => EncodePair([p, q][i]));
    assert fields == [EncodePair(p), EncodePair(q)];
    assert fields[1..] == [EncodePair(q)];
    assert Join(fields[1..], "&") == EncodePair(q);
  }

  function ParsePair(field: string): Option<(string, string)> {
    var parts := Split(field, '=');
    if |parts| != 2 then None
    else
      var k := PercentDecode(parts[0]);
      var v := PercentDecode(parts[1]);
      if k.Some? && v.Some? then Some((k.value, v.value)) else None
  }

  function ParsePairs(fields: seq<string>): Option<seq<(string, string)>> {
    if fields == [] then Some([])
    else
      var p := ParsePair(fields[0]);
      var rest := ParsePairs(fields[1..]);
      if p.Some? && rest.Some? then Some([p.value] + rest.value) else None
  }

  /** The `key=value` pairs of a query string, decoded. */
  function ParseQuery(q: string): Option<seq<(string, string)>> {
    ParsePairs(Split(q, '&'))
  }

  lemma PairRoundTrip(pair: (string, string))
    ensures ParsePair(EncodePair(pair)) == Some(pair)
    ensures '&' !in EncodePair(pair) && '?' !in EncodePair(pair) && '$' !in EncodePair(pair)
  {
    var k, v := EncodeURIComponent(pair.0), EncodeURIComponent(pair.1);
    EncodeAvoidsSeparators(pair.0);
    EncodeAvoidsSeparators(pair.1);
    assert EncodePair(pair) == Join([k, v], "=");
    SplitJoin([k, v], '=');
    EncodeRoundTrip(pair.0);
    EncodeRoundTrip(pair.1);
  }

  lemma {:induction false} ParsePairsRoundTrip(pairs: seq<(string, string)>)
    ensures ParsePairs(seq(|pairs|, i requires 0 <= i < |pairs| => EncodePair(pairs[i]))) == Some(pairs)
  {
    var fields := seq(|pairs|, i requires 0 <= i < |pairs| => EncodePair(pairs[i]));
    if pairs != [] {
      PairRoundTrip(pairs[0]);
      ParsePairsRoundTrip(pairs[1..]);
      assert fields[1..] == seq(|pairs[1..]|, i requires 0 <= i < |pairs[1..]| => EncodePair(pairs[1..][i]));
      assert [pairs[0]] + pairs[1..] == pairs;
    }
  }

  /** A query string splits back into exactly the pairs it was built from, and holds
      no `?` and no `$`. */
  lemma QueryRoundTrip(pairs: seq<(string, string)>)
    requires pairs != []
    ensures ParseQuery(Query(pairs)) == Some(pairs)
    ensures '?' !in Query(pairs) && '$' !in Query(pairs)
  {
    var fields := seq(|pairs|, i requires 0 <= i < |pairs| => EncodePair(pairs[i]));
    forall i | 0 <= i < |pairs|
      ensures '&' !in fields[i] && '?' !in fields[i] && '$' !in fields[i]
    {
      PairRoundTrip(pairs[i]);
    }
    SplitJoin(fields, '&');
    ParsePairsRoundTrip(pairs);
    JoinAvoids(fields, '&', '?');
    JoinAvoids(fields, '&', '$');
  }

  lemma {:induction false} JoinAvoids(pieces: seq<string>, sep: char, c: char)
    requires c != sep
    requires forall i :: 0 <= i < |pieces| ==> c !in pieces[i]
    ensures c !in Join(pieces, [sep])
  {
    if |pieces| > 1 {
      JoinAvoids(pieces[1..], sep, c);
    }
  }
}
