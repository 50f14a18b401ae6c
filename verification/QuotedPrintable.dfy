/** Quoted-printable decoding: soft line breaks go, `=XX` is a byte, any other character is itself in UTF-8. */
module QuotedPrintable {
  newtype byte = n: int | 0 <= n < 256

  /* ---------------------------------------------------------------- characters */

  predicate HexDigit(c: char) {
    '0' <= c <= '9' || 'A' <= c <= 'F' || 'a' <= c <= 'f'
  }

  function HexValue(c: char): (r: byte)
    requires HexDigit(c)
    ensures r < 16
  {
    if c <= '9' then (c as int - '0' as int) as byte
    else if c <= 'F' then (c as int - 'A' as int + 10) as byte
    else (c as int - 'a' as int + 10) as byte
  }

  /** Section 3 of RFC 3629. */
  function Utf8(c: char): (r: seq<byte>)
    ensures 1 <= |r| <= 4
  {
    var n := c as int;
    if n < 0x80 then [n as byte]
    else if n < 0x800 then [(0xC0 + n / 0x40) as byte, Tail(n)]
    else if n < 0x1_0000 then [(0xE0 + n / 0x1000) as byte, Tail(n / 0x40), Tail(n)]
    else [(0xF0 + n / 0x4_0000) as byte, Tail(n / 0x1000), Tail(n / 0x40), Tail(n)]
  }

  function Tail(n: nat): byte {
    (0x80 + n % 0x40) as byte
  }

  /** U+FFFD, which stands for half of a surrogate pair. */
  const REPLACEMENT: seq<byte> := [0xEF, 0xBF, 0xBD]

  /** The decoder takes one UTF-16 unit at a time, so a character outside the basic plane comes as two lone halves. */
  function LiteralBytes(c: char): seq<byte> {
    if c as int < 0x1_0000 then Utf8(c) else REPLACEMENT + REPLACEMENT
  }

  /* ---------------------------------------------------------------- decoding */

  /** The length of a soft line break at the front, or 0. */
  function SoftBreak(s: string): (r: nat)
    ensures r <= |s|
  {
    if |s| >= 2 && s[0] == '=' && s[1] == '\n' then 2
    else if |s| >= 3 && s[0] == '=' && s[1] == '\r' && s[2] == '\n' then 3
    else 0
  }

  function WithoutSoftBreaks(s: string): string {
    if s == "" then ""
    else if SoftBreak(s) > 0 then WithoutSoftBreaks(s[SoftBreak(s)..])
    else [s[0]] + WithoutSoftBreaks(s[1..])
  }

  predicate Escape(s: string) {
    |s| >= 3 && s[0] == '=' && HexDigit(s[1]) && HexDigit(s[2])
  }

  function EscapedByte(hi: char, lo: char): byte
    requires HexDigit(hi) && HexDigit(lo)
  {
    HexValue(hi) * 16 + HexValue(lo)
  }

  function Bytes(s: string): seq<byte> {
    if s == "" then []
    else if Escape(s) then [EscapedByte(s[1], s[2])] + Bytes(s[3..])
    else LiteralBytes(s[0]) + Bytes(s[1..])
  }

  function Decoded(s: string): seq<byte> {
    Bytes(WithoutSoftBreaks(s))
  }

  method Decode(s: string) returns (bytes: seq<byte>)
    ensures bytes == Decoded(s)
  {
    var src := WithoutSoftBreaks(s);
    bytes := [];
    var i := 0;
    while i < |src|
      invariant 0 <= i <= |src|
      invariant bytes + Bytes(src[i..]) == Bytes(src)
    {
      var rest := src[i..];
      assert |rest| >= 3 ==> rest[3..] == src[i + 3..];
      assert rest[1..] == src[i + 1..];
      if Escape(rest) {
        assert bytes + Bytes(rest) == (bytes + [EscapedByte(rest[1], rest[2])]) + Bytes(src[i + 3..]);
        bytes := bytes + [EscapedByte(rest[1], rest[2])];
        i := i + 2;
      } else {
        assert bytes + Bytes(rest) == (bytes + LiteralBytes(rest[0])) + Bytes(src[i + 1..]);
        bytes := bytes + LiteralBytes(rest[0]);
      }
      i := i + 1;
    }
    assert src[i..] == "";
  }

  /* ---------------------------------------------------------------- any encoder */

  /** Section 6.7 of RFC 2045: what an encoder may emit, one unit after the other. */
  datatype Piece = Plain(c: char) | Escaped(hi: char, lo: char) | Break(cr: bool)
  {
    predicate Valid() {
      match this
      case Plain(c) => c != '='
      case Escaped(hi, lo) => HexDigit(hi) && HexDigit(lo)
      case Break(_) => true
    }

    function Text(): string {
      match this
      case Plain(c) => [c]
      case Escaped(hi, lo) => ['=', hi, lo]
      case Break(cr) => if cr then ['=', '\r', '\n'] else ['=', '\n']
    }

    function Means(): seq<byte>
      requires Valid()
    {
      match this
      case Plain(c) => LiteralBytes(c)
      case Escaped(hi, lo) => [EscapedByte(hi, lo)]
      case Break(_) => []
    }
  }

  predicate Encoding(pieces: seq<Piece>) {
    forall i :: 0 <= i < |pieces| ==> pieces[i].Valid()
  }

  function TextOf(pieces: seq<Piece>): string {
    if pieces == [] then "" else pieces[0].Text() + TextOf(pieces[1..])
  }

  function MeaningOf(pieces: seq<Piece>): seq<byte>
    requires Encoding(pieces)
  {
    if pieces == [] then [] else pieces[0].Means() + MeaningOf(pieces[1..])
  }

  function Hard(pieces: seq<Piece>): seq<Piece> {
    if pieces == [] then []
    else if pieces[0].Break? then Hard(pieces[1..])
    else [pieces[0]] + Hard(pieces[1..])
  }

  lemma {:induction false} BreaksVanish(pieces: seq<Piece>)
    requires Encoding(pieces)
    ensures WithoutSoftBreaks(TextOf(pieces)) == TextOf(Hard(pieces))
    decreases |pieces|
  {
    if pieces != [] {
      BreaksVanish(pieces[1..]);
      var head, tail := pieces[0], TextOf(pieces[1..]);
      var s := head.Text() + tail;
      match head
      case Break(cr) =>
        assert s[SoftBreak(s)..] == tail;
      case Plain(c) =>
        assert s[1..] == tail;
      case Escaped(hi, lo) =>
        EscapeIsKept(hi, lo, tail);
        assert TextOf([head] + Hard(pieces[1..])) == head.Text() + TextOf(Hard(pieces[1..]));
    }
  }

  lemma EscapeIsKept(hi: char, lo: char, tail: string)
    requires HexDigit(hi) && HexDigit(lo)
    ensures WithoutSoftBreaks(['=', hi, lo] + tail) == ['=', hi, lo] + WithoutSoftBreaks(tail)
  {
    var s := ['=', hi, lo] + tail;
    assert s[1..] == [hi, lo] + tail && s[1..][1..] == [lo] + tail && s[1..][1..][1..] == tail;
    assert WithoutSoftBreaks(s[1..][1..]) == [lo] + WithoutSoftBreaks(tail);
    assert WithoutSoftBreaks(s[1..]) == [hi] + WithoutSoftBreaks(s[1..][1..]);
    assert WithoutSoftBreaks(s) == ['='] + WithoutSoftBreaks(s[1..]);
  }

  lemma {:induction false} UnitsAreDecoded(pieces: seq<Piece>)
    requires Encoding(pieces)
    ensures Encoding(Hard(pieces)) && Bytes(TextOf(Hard(pieces))) == MeaningOf(pieces)
    decreases |pieces|
  {
    if pieces != [] {
      UnitsAreDecoded(pieces[1..]);
      var head, rest := pieces[0], Hard(pieces[1..]);
      if !head.Break? {
        assert Hard(pieces)[1..] == rest;
        var s := head.Text() + TextOf(rest);
        assert TextOf(Hard(pieces)) == s && s[|head.Text()|..] == TextOf(rest);
      }
    }
  }

  /** Whatever an encoder escapes and wherever it breaks lines between units, the bytes come back. */
  lemma AnyEncodingComesBack(pieces: seq<Piece>)
    requires Encoding(pieces)
    ensures Decoded(TextOf(pieces)) == MeaningOf(pieces)
  {
    BreaksVanish(pieces);
    UnitsAreDecoded(pieces);
  }

  /* ---------------------------------------------------------------- an encoder for every byte string */

  function Digit(n: byte): (c: char)
    requires n < 16
    ensures HexDigit(c) && HexValue(c) == n
  {
    if n < 10 then ('0' as int + n as int) as char else ('A' as int + n as int - 10) as char
  }

  /** A printable ASCII byte other than `=` may stay as it is. */
  function EncodeByte(b: byte, escape: bool): (p: Piece)
    ensures p.Valid() && p.Means() == [b]
  {
    if !escape && 32 <= b < 127 && b != 61 then Plain(b as char)
    else Escaped(Digit(b / 16), Digit(b % 16))
  }

  /** Encodes byte `i` in hex where `escape[i]` says so and breaks the line after it where `breaks[i]` says so. */
  function Encode(bytes: seq<byte>, escape: seq<bool>, breaks: seq<bool>): (p: seq<Piece>)
    requires |escape| == |breaks| == |bytes|
    ensures Encoding(p)
  {
    if bytes == [] then []
    else
      [EncodeByte(bytes[0], escape[0])] + (if breaks[0] then [Break(true)] else [])
      + Encode(bytes[1..], escape[1..], breaks[1..])
  }

  lemma {:induction false} EncodeMeans(bytes: seq<byte>, escape: seq<bool>, breaks: seq<bool>)
    requires |escape| == |breaks| == |bytes|
    ensures MeaningOf(Encode(bytes, escape, breaks)) == bytes
  {
    if bytes != [] {
      EncodeMeans(bytes[1..], escape[1..], breaks[1..]);
      var head, rest := EncodeByte(bytes[0], escape[0]), Encode(bytes[1..], escape[1..], breaks[1..]);
      var all := Encode(bytes, escape, breaks);
      if breaks[0] {
        assert all[1..] == [Break(true)] + rest && ([Break(true)] + rest)[1..] == rest;
      } else {
        assert all[1..] == rest;
      }
    }
  }

  lemma RoundTrip(bytes: seq<byte>, escape: seq<bool>, breaks: seq<bool>)
    requires |escape| == |breaks| == |bytes|
    ensures Decoded(TextOf(Encode(bytes, escape, breaks))) == bytes
  {
    EncodeMeans(bytes, escape, breaks);
    AnyEncodingComesBack(Encode(bytes, escape, breaks));
  }

  /* ---------------------------------------------------------------- characters left as they are */

  /** What a decoder that takes whole characters makes of the text. */
  function WholeBytes(s: string): seq<byte> {
    if s == "" then []
    else if Escape(s) then [EscapedByte(s[1], s[2])] + WholeBytes(s[3..])
    else Utf8(s[0]) + WholeBytes(s[1..])
  }

  predicate Basic(s: string) {
    forall i :: 0 <= i < |s| ==> s[i] as int < 0x1_0000
  }

  lemma BasicParts(s: string, n: nat)
    requires n <= |s|
    ensures Basic(s) <==> Basic(s[..n]) && Basic(s[n..])
  {
    assert forall i :: n <= i < |s| ==> s[i] == s[n..][i - n];
    assert forall i :: 0 <= i < n ==> s[i] == s[..n][i];
  }

  lemma {:induction false} BasicWithoutBreaks(s: string)
    ensures Basic(WithoutSoftBreaks(s)) <==> Basic(s)
    decreases |s|
  {
    if s != "" {
      var n := SoftBreak(s);
      if n > 0 {
        assert s[0] == '=' && s[n - 1] == '\n' && (n == 3 ==> s[1] == '\r');
        BasicWithoutBreaks(s[n..]);
        BasicParts(s, n);
        assert forall i :: 0 <= i < n ==> s[..n][i] == s[i];
        assert Basic(s[..n]);
      } else {
        BasicWithoutBreaks(s[1..]);
        BasicParts(s, 1);
        var r := WithoutSoftBreaks(s);
        BasicParts(r, 1);
        assert r[1..] == WithoutSoftBreaks(s[1..]) && r[..1] == s[..1];
      }
    }
  }

  lemma {:induction false} WholeBytesIff(s: string)
    ensures (Bytes(s) == WholeBytes(s)) <==> Basic(s)
    ensures |Bytes(s)| >= |WholeBytes(s)| && (!Basic(s) ==> |Bytes(s)| > |WholeBytes(s)|)
    decreases |s|
  {
    if s != "" {
      var n := if Escape(s) then 3 else 1;
      WholeBytesIff(s[n..]);
      BasicParts(s, n);
    }
  }

  /**
   * The decoder does as one that takes whole characters exactly for texts in the basic plane; else it yields more
   * bytes.
   */
  lemma WholeCharactersIff(s: string)
    ensures (Decoded(s) == WholeBytes(WithoutSoftBreaks(s))) <==> Basic(s)
    ensures !Basic(s) ==> |Decoded(s)| > |WholeBytes(WithoutSoftBreaks(s))|
  {
    WholeBytesIff(WithoutSoftBreaks(s));
    BasicWithoutBreaks(s);
  }

  /* ---------------------------------------------------------------- what digits and characters are read as */

  lemma DigitsInOrder(c: char, v: nat)
    requires v < 16
    ensures HexDigit(c) && HexValue(c) as int == v <==> c == "0123456789ABCDEF"[v] || c == "0123456789abcdef"[v]
  {
    UpperDigit(v);
    LowerDigit(v);
  }

  lemma UpperDigit(v: nat)
    requires v < 16
    ensures "0123456789ABCDEF"[v] as int == if v < 10 then '0' as int + v else 'A' as int + (v - 10)
  {
  }

  lemma LowerDigit(v: nat)
    requires v < 16
    ensures "0123456789abcdef"[v] as int == if v < 10 then '0' as int + v else 'a' as int + (v - 10)
  {
  }

  /** The first digit counts sixteen times as much as the second. */
  lemma TwoDigits(hi: nat, lo: nat)
    requires hi < 16 && lo < 16
    ensures var upper, lower := "0123456789ABCDEF", "0123456789abcdef";
      && HexDigit(upper[hi]) && HexDigit(lower[lo]) && EscapedByte(upper[hi], lower[lo]) as int == 16 * hi + lo
  {
    DigitsInOrder("0123456789ABCDEF"[hi], hi);
    DigitsInOrder("0123456789abcdef"[lo], lo);
  }

  predicate Continues(b: byte) {
    0x80 <= b < 0xC0
  }

  /** How many bytes a character takes, by its first byte; 0 if no character starts with it. */
  function Needs(b: byte): nat {
    if b < 0x80 then 1 else if b < 0xC0 then 0 else if b < 0xE0 then 2 else if b < 0xF0 then 3 else if b < 0xF8 then 4
    else 0
  }

  /** The six bits of each byte but the first, after those of `lead`. */
  function Gathered(lead: nat, tail: seq<byte>): int
    requires forall i :: 0 <= i < |tail| ==> Continues(tail[i])
    decreases |tail|
  {
    if tail == [] then lead else Gathered(lead, tail[..|tail| - 1]) * 64 + (tail[|tail| - 1] as int - 0x80)
  }

  /** The code point that the first `n` bytes stand for by the table of section 3 of RFC 3629. */
  predicate ReadsAs(bytes: seq<byte>, n: nat, point: nat) {
    && 1 <= n <= 4 && n <= |bytes| && Needs(bytes[0]) == n
    && (forall i :: 1 <= i < n ==> Continues(bytes[i]))
    && point == Gathered(bytes[0] as int - [0, 0, 0xC0, 0xE0, 0xF0][n], bytes[1..n])
    && point >= [0, 0, 0x80, 0x800, 0x1_0000][n]
  }

  lemma Utf8IsRead(c: char)
    ensures ReadsAs(Utf8(c), |Utf8(c)|, c as int)
  {
    var n := c as int;
    if n < 0x80 {
    } else if n < 0x800 {
      TwoAreRead(n, Utf8(c));
    } else if n < 0x1_0000 {
      ThreeAreRead(n, Utf8(c));
    } else {
      FourAreRead(n, Utf8(c));
    }
  }

  lemma TwoAreRead(n: nat, b: seq<byte>)
    requires 0x80 <= n < 0x800 && b == [(0xC0 + n / 0x40) as byte, Tail(n)]
    ensures ReadsAs(b, 2, n)
  {
    GatherOne(n / 0x40, b[1]);
    assert b[1..2] == [b[1]];
  }

  lemma ThreeAreRead(n: nat, b: seq<byte>)
    requires 0x800 <= n < 0x1_0000 && b == [(0xE0 + n / 0x1000) as byte, Tail(n / 0x40), Tail(n)]
    ensures ReadsAs(b, 3, n)
  {
    GatherTwo(n / 0x1000, b[1], b[2]);
    assert b[1..3] == [b[1], b[2]];
    assert n / 0x40 == n / 0x1000 * 64 + n / 0x40 % 64;
  }

  lemma FourAreRead(n: nat, b: seq<byte>)
    requires 0x1_0000 <= n < 0x11_0000
    requires b == [(0xF0 + n / 0x4_0000) as byte, Tail(n / 0x1000), Tail(n / 0x40), Tail(n)]
    ensures ReadsAs(b, 4, n)
  {
    GatherThree(n / 0x4_0000, b[1], b[2], b[3]);
    assert b[1..4] == [b[1], b[2], b[3]];
    assert n / 0x1000 == n / 0x4_0000 * 64 + n / 0x1000 % 64;
    assert n / 0x40 == n / 0x1000 * 64 + n / 0x40 % 64;
  }

  lemma GatherOne(lead: nat, x: byte)
    requires Continues(x)
    ensures Gathered(lead, [x]) == lead * 64 + (x as int - 0x80)
  {
    assert [x][..0] == [];
  }

  lemma GatherTwo(lead: nat, x: byte, y: byte)
    requires Continues(x) && Continues(y)
    ensures Gathered(lead, [x, y]) == (lead * 64 + (x as int - 0x80)) * 64 + (y as int - 0x80)
  {
    GatherOne(lead, x);
    assert [x, y][..1] == [x];
  }

  lemma GatherThree(lead: nat, x: byte, y: byte, z: byte)
    requires Continues(x) && Continues(y) && Continues(z)
    ensures Gathered(lead, [x, y, z])
      == ((lead * 64 + (x as int - 0x80)) * 64 + (y as int - 0x80)) * 64 + (z as int - 0x80)
  {
    GatherTwo(lead, x, y);
    assert [x, y, z][..2] == [x, y];
  }

  /** The code points that a text's characters come out as: a character outside the basic plane as two U+FFFD. */
  function Seen(s: string): seq<nat> {
    if s == "" then []
    else (if s[0] as int < 0x1_0000 then [s[0] as int] else [0xFFFD, 0xFFFD]) + Seen(s[1..])
  }

  /** The bytes are those of the code points, one after another. */
  predicate Spells(bytes: seq<byte>, points: seq<nat>)
    decreases |points|
  {
    if points == [] then bytes == []
    else bytes != [] && var n := Needs(bytes[0]); ReadsAs(bytes, n, points[0]) && Spells(bytes[n..], points[1..])
  }

  /** No equals sign in the text starts an escape or a soft line break. */
  predicate NothingEncoded(s: string) {
    forall i :: 0 <= i < |s| && s[i] == '=' ==> !Escape(s[i..]) && SoftBreak(s[i..]) == 0
  }

  /** Text in which nothing is encoded comes out as its own characters, lone equals signs included. */
  lemma {:induction false} PlainTextIsRead(s: string)
    requires NothingEncoded(s)
    ensures WithoutSoftBreaks(s) == s && Spells(Decoded(s), Seen(s))
    decreases |s|
  {
    if s != "" {
      LaterIsPlain(s);
      PlainTextIsRead(s[1..]);
      assert s == [s[0]] + s[1..] && s[0..] == s;
      if s[0] as int < 0x1_0000 {
        Utf8IsRead(s[0]);
        OneSpelled(Utf8(s[0]), s[0] as int, Bytes(s[1..]), Seen(s[1..]));
      } else {
        ReplacementIsRead();
        OneSpelled(REPLACEMENT, 0xFFFD, Bytes(s[1..]), Seen(s[1..]));
        OneSpelled(REPLACEMENT, 0xFFFD, REPLACEMENT + Bytes(s[1..]), [0xFFFD] + Seen(s[1..]));
        assert REPLACEMENT + REPLACEMENT + Bytes(s[1..]) == REPLACEMENT + (REPLACEMENT + Bytes(s[1..]));
        assert [0xFFFD, 0xFFFD] + Seen(s[1..]) == [0xFFFD] + ([0xFFFD] + Seen(s[1..]));
      }
    }
  }

  function Points(s: string): seq<nat> {
    if s == "" then [] else [s[0] as int] + Points(s[1..])
  }

  /** Taking whole characters, the same text comes out as its own UTF-8 on every plane. */
  lemma {:induction false} PlainTextIsLiteral(s: string)
    requires NothingEncoded(s)
    ensures WithoutSoftBreaks(s) == s && Spells(WholeBytes(s), Points(s))
    decreases |s|
  {
    if s != "" {
      LaterIsPlain(s);
      PlainTextIsLiteral(s[1..]);
      assert s == [s[0]] + s[1..];
      Utf8IsRead(s[0]);
      OneSpelled(Utf8(s[0]), s[0] as int, WholeBytes(s[1..]), Points(s[1..]));
    }
  }

  lemma LaterIsPlain(s: string)
    requires s != "" && NothingEncoded(s)
    ensures NothingEncoded(s[1..]) && !Escape(s) && SoftBreak(s) == 0
  {
    assert s[0..] == s;
    forall i | 0 <= i < |s[1..]| && s[1..][i] == '=' ensures !Escape(s[1..][i..]) && SoftBreak(s[1..][i..]) == 0 {
      assert s[1..][i..] == s[i + 1..];
    }
  }

  lemma ReplacementIsRead()
    ensures ReadsAs(REPLACEMENT, 3, 0xFFFD)
  {
    assert REPLACEMENT[1..3] == [0xBF, 0xBD];
    GatherTwo(0xF, 0xBF, 0xBD);
  }

  lemma OneSpelled(first: seq<byte>, point: nat, rest: seq<byte>, points: seq<nat>)
    requires ReadsAs(first, |first|, point) && Spells(rest, points)
    ensures Spells(first + rest, [point] + points)
  {
    var n := |first|;
    assert (first + rest)[1..n] == first[1..n] && (first + rest)[n..] == rest;
    assert ([point] + points)[1..] == points;
  }
}
