/**
 * The walk over a possibly multipart message: cut at boundaries, headers cut from bodies, types and texts collected.
 */
module Multipart {
  import opened JsonValues
  import opened Strings

  datatype Kind = MultipartKind | Html | PlainText | OtherKind

  /** What the walk takes from a block of header fields; `boundary` is empty where the content type names none. */
  datatype Headers = Headers(kind: Kind, partType: string, boundary: string)
  {
    predicate Nests() {
      kind.MultipartKind? && boundary != ""
    }

    function Delimiter(): string {
      "--" + boundary
    }
  }

  /** What a walk collects. */
  datatype Found = Found(partTypes: seq<string>, text: string, html: string)
  {
    function Then(more: Found): Found {
      Found(partTypes + more.partTypes, text + more.text, html + more.html)
    }
  }

  const NOTHING := Found([], "", "")

  /* ---------------------------------------------------------------- cutting text */

  predicate At(s: string, d: string, i: nat) {
    i + |d| <= |s| && s[i..i + |d|] == d
  }

  predicate Occurs(s: string, d: string) {
    exists i :: 0 <= i < |s| && At(s, d, i)
  }

  /** The first place of `d` in `s` from `from` on. */
  function Find(s: string, d: string, from: nat): (r: Option<nat>)
    requires from <= |s|
    ensures r.Some? ==> from <= r.value && At(s, d, r.value) && forall i :: from <= i < r.value ==> !At(s, d, i)
    ensures r.None? ==> forall i :: from <= i <= |s| ==> !At(s, d, i)
    decreases |s| - from
  {
    if At(s, d, from) then Some(from) else if from == |s| then None else Find(s, d, from + 1)
  }

  /** `s.split(d)`. */
  function Split(s: string, d: string): (r: seq<string>)
    requires d != ""
    ensures |r| > 0 && forall i :: 0 < i < |r| ==> |r[i]| + |d| <= |s|
    ensures |r[0]| <= |s|
  {
    match Find(s, d, 0)
    case None => [s]
    case Some(i) => [s[..i]] + Split(s[i + |d|..], d)
  }

  /** The length of a line end at the front, or 0. */
  function LineEnd(s: string): (r: nat)
    ensures r <= |s|
  {
    if |s| >= 1 && s[0] == '\n' then 1
    else if |s| >= 2 && s[0] == '\r' && s[1] == '\n' then 2
    else 0
  }

  /** The length of two line ends at the front, or 0. */
  function BlankLine(s: string): (r: nat)
    ensures r <= |s|
  {
    var first := LineEnd(s);
    if first == 0 then 0
    else
      var second := LineEnd(s[first..]);
      if second == 0 then 0 else first + second
  }

  datatype Message = Message(head: string, body: string)

  /** `splitMessage`: the header block up to the first blank line, and what follows. */
  function SplitMessage(raw: string): (r: Message)
    ensures |r.body| <= |raw|
  {
    if raw == "" then Message("", "")
    else if BlankLine(raw) > 0 then Message("", raw[BlankLine(raw)..])
    else
      var rest := SplitMessage(raw[1..]);
      Message([raw[0]] + rest.head, rest.body)
  }

  predicate ClosesList(part: string) {
    |part| >= 2 && part[0] == '-' && part[1] == '-'
  }

  /* ---------------------------------------------------------------- the walk */

  predicate Shorter(parts: seq<string>, size: nat) {
    forall i :: 0 <= i < |parts| ==> |parts[i]| < size
  }

  /** `read` reads a header block, `decoded` undoes the transfer encoding of a body. */
  function Walked(read: string -> Headers, decoded: (string, string) -> string, head: string, body: string): Found
    decreases |body|
  {
    var h := read(head);
    var own := Found([h.partType], "", "");
    if h.Nests() then
      own.Then(WalkedParts(read, decoded, Split(body, h.Delimiter())[1..], |body|))
    else if h.kind.Html? then own.(html := decoded(head, body))
    else if h.kind.PlainText? then own.(text := decoded(head, body))
    else own
  }

  /** Every part is shorter than the body it was cut from, so the walk ends. */
  function WalkedParts(read: string -> Headers, decoded: (string, string) -> string, parts: seq<string>,
    size: nat): Found
    requires Shorter(parts, size)
    decreases size, |parts|
  {
    if parts == [] || ClosesList(parts[0]) then NOTHING
    else
      var sub := SplitMessage(parts[0][LineEnd(parts[0])..]);
      Walked(read, decoded, sub.head, sub.body).Then(WalkedParts(read, decoded, parts[1..], size))
  }

  function Parsed(read: string -> Headers, decoded: (string, string) -> string, raw: string): Found {
    var top := SplitMessage(raw);
    Walked(read, decoded, top.head, top.body)
  }

  method Walk(read: string -> Headers, decoded: (string, string) -> string, head: string, body: string, before: Found)
    returns (out: Found)
    ensures out == before.Then(Walked(read, decoded, head, body))
    decreases |body|
  {
    var h := read(head);
    out := before.(partTypes := before.partTypes + [h.partType]);
    OwnType(before, h.partType);
    if h.Nests() {
      ThenAssociates(before, Found([h.partType], "", ""),
        WalkedParts(read, decoded, Split(body, h.Delimiter())[1..], |body|));
      out := WalkParts(read, decoded, Split(body, h.Delimiter())[1..], |body|, out);
    } else if h.kind.Html? {
      out := out.(html := out.html + decoded(head, body));
    } else if h.kind.PlainText? {
      out := out.(text := out.text + decoded(head, body));
    }
  }

  method WalkParts(read: string -> Headers, decoded: (string, string) -> string, parts: seq<string>, size: nat,
                   before: Found)
    returns (out: Found)
    requires Shorter(parts, size)
    ensures out == before.Then(WalkedParts(read, decoded, parts, size))
    decreases size, 0
  {
    out := before;
    var i := 0;
    assert parts[0..] == parts;
    while i < |parts| && !ClosesList(parts[i])
      invariant 0 <= i <= |parts| && Shorter(parts[i..], size)
      invariant out.Then(WalkedParts(read, decoded, parts[i..], size))
        == before.Then(WalkedParts(read, decoded, parts, size))
    {
      var p := parts[i];
      var sub := SplitMessage(p[LineEnd(p)..]);
      assert parts[i..][1..] == parts[i + 1..];
      PartStep(read, decoded, parts[i..], size, out);
      out := Walk(read, decoded, sub.head, sub.body, out);
      i := i + 1;
    }
    ThenNothing(out);
  }

  lemma PartStep(read: string -> Headers, decoded: (string, string) -> string, parts: seq<string>, size: nat,
    out: Found)
    requires Shorter(parts, size) && parts != [] && !ClosesList(parts[0])
    ensures Shorter(parts[1..], size)
    ensures var sub := SplitMessage(parts[0][LineEnd(parts[0])..]);
      out.Then(WalkedParts(read, decoded, parts, size))
        == out.Then(Walked(read, decoded, sub.head, sub.body)).Then(WalkedParts(read, decoded, parts[1..], size))
  {
    ShorterTail(parts, size);
    var sub := SplitMessage(parts[0][LineEnd(parts[0])..]);
    ThenAssociates(out, Walked(read, decoded, sub.head, sub.body), WalkedParts(read, decoded, parts[1..], size));
  }

  lemma ShorterTail(parts: seq<string>, size: nat)
    requires Shorter(parts, size) && parts != []
    ensures Shorter(parts[1..], size)
  {
  }

  lemma ThenAssociates(a: Found, b: Found, c: Found)
    ensures a.Then(b).Then(c) == a.Then(b.Then(c))
  {
  }

  lemma OwnType(before: Found, partType: string)
    ensures before.Then(Found([partType], "", "")) == before.(partTypes := before.partTypes + [partType])
  {
  }

  lemma ThenNothing(a: Found)
    ensures a.Then(NOTHING) == a
  {
  }

  /* ---------------------------------------------------------------- composing a message */

  /** A message before it is written out; every `head` is a header block. */
  datatype Mime =
    | Leaf(head: string, content: string)
    | Nest(head: string, preamble: string, parts: seq<Mime>, epilogue: string)

  function Written(read: string -> Headers, m: Mime): string
    decreases m, 0
  {
    match m
    case Leaf(_, content) => content
    case Nest(head, preamble, parts, epilogue) =>
      preamble + WrittenParts(read, read(head).Delimiter(), parts, epilogue)
  }

  /** Section 5.1.1 of RFC 2046: each part after a delimiter line, then the closing delimiter. */
  function WrittenParts(read: string -> Headers, d: string, parts: seq<Mime>, epilogue: string): string
    decreases parts
  {
    if parts == [] then d + "--" + epilogue
    else d + PartText(read, parts[0]) + WrittenParts(read, d, parts[1..], epilogue)
  }

  /** A part from the end of its delimiter to the line end before the next one. */
  function PartText(read: string -> Headers, m: Mime): string
    decreases m, 1
  {
    CRLF + Headed(m.head, Written(read, m) + CRLF)
  }

  function Headed(head: string, body: string): string {
    head + CRLF + CRLF + body
  }

  predicate LineBreak(c: char) {
    c == '\r' || c == '\n'
  }

  predicate NoLineFeed(s: string) {
    forall i :: 0 <= i < |s| ==> s[i] != '\n'
  }

  /** A header block: no blank line in it and no line end after it. */
  predicate HeaderBlock(s: string) {
    && (s != "" ==> !LineBreak(s[|s| - 1]))
    && forall i :: 0 <= i < |s| ==> BlankLine(s[i..]) == 0
  }

  predicate StartsLine(s: string) {
    s == "" || LineBreak(s[0])
  }

  /** Text that a delimiter line can follow. */
  predicate EndsLine(s: string) {
    s == "" || s[|s| - 1] == '\n'
  }

  /** What an encoder sees to: the boundary of a list of parts occurs neither in the preamble nor in any part. */
  predicate WellFormed(read: string -> Headers, m: Mime)
    decreases m, 0
  {
    && HeaderBlock(m.head)
    && match m
       case Leaf(head, _) => !read(head).kind.MultipartKind? || read(head).boundary == ""
       case Nest(head, preamble, parts, epilogue) =>
         var h := read(head);
         && h.Nests() && NoLineFeed(h.boundary) && EndsLine(preamble) && StartsLine(epilogue)
         && h.boundary[0] != '\r' && !Occurs(preamble, h.Delimiter())
         && AllSeparate(read, parts, h.Delimiter())
  }

  predicate AllSeparate(read: string -> Headers, parts: seq<Mime>, d: string)
    decreases parts
  {
    parts != [] ==> Separate(read, parts[0], d) && AllSeparate(read, parts[1..], d)
  }

  predicate Separate(read: string -> Headers, m: Mime, d: string)
    decreases m, 1
  {
    WellFormed(read, m) && !Occurs(PartText(read, m), d)
  }

  /** What the walk should collect; `tail` is the line end that a nested body keeps. */
  function Collected(read: string -> Headers, decoded: (string, string) -> string, m: Mime, tail: string): Found
    decreases m
  {
    var h := read(m.head);
    var own := Found([h.partType], "", "");
    match m
    case Leaf(head, content) =>
      if h.kind.Html? then own.(html := decoded(head, content + tail))
      else if h.kind.PlainText? then own.(text := decoded(head, content + tail))
      else own
    case Nest(_, _, parts, _) => own.Then(CollectedParts(read, decoded, parts))
  }

  function CollectedParts(read: string -> Headers, decoded: (string, string) -> string, parts: seq<Mime>): Found
    decreases parts
  {
    if parts == [] then NOTHING
    else Collected(read, decoded, parts[0], CRLF).Then(CollectedParts(read, decoded, parts[1..]))
  }

  /* ---------------------------------------------------------------- the walk undoes the composition */

  /** A delimiter after a whole line is found at its place. */
  lemma FoundAfter(piece: string, d: string, rest: string)
    requires d != "" && NoLineFeed(d) && EndsLine(piece) && !Occurs(piece, d)
    ensures Find(piece + d + rest, d, 0) == Some(|piece|)
  {
    var s := piece + d + rest;
    assert At(s, d, |piece|);
    forall i: nat | i < |piece| ensures !At(s, d, i) {
      if i + |d| <= |piece| {
        assert s[i..i + |d|] == piece[i..i + |d|];
        assert !At(piece, d, i);
      } else {
        var k: nat := |piece| - 1 - i;
        assert k < |d| && s[i + k] == '\n';
        if At(s, d, i) { AtMeans(s, d, i, k); }
      }
    }
  }

  lemma AtMeans(s: string, d: string, i: nat, k: nat)
    requires At(s, d, i) && k < |d|
    ensures s[i + k] == d[k]
  {
    assert s[i..i + |d|][k] == s[i + k];
  }

  lemma SplitAfter(piece: string, d: string, rest: string)
    requires d != "" && NoLineFeed(d) && EndsLine(piece) && !Occurs(piece, d)
    ensures Split(piece + d + rest, d) == [piece] + Split(rest, d)
  {
    var s := piece + d + rest;
    FoundAfter(piece, d, rest);
    assert s[..|piece|] == piece && s[|piece| + |d|..] == rest;
  }

  /** What follows the closing delimiter starts with two dashes up to wherever it is cut next. */
  lemma ClosingPiece(h: Headers, after: string)
    requires h.Nests() && NoLineFeed(h.boundary) && h.boundary[0] != '\r' && StartsLine(after)
    ensures ClosesList(Split("--" + after, h.Delimiter())[0])
  {
    var s, d := "--" + after, h.Delimiter();
    assert |d| >= 3 && d[2] == h.boundary[0] && d[0] == '-' && d[1] == '-';
    assert after != "" ==> s[2] == after[0];
    if At(s, d, 0) { AtMeans(s, d, 0, 2); }
    if At(s, d, 1) { AtMeans(s, d, 1, 1); }
    var i := Find(s, d, 0);
    if i.Some? { assert s[..i.value][0] == '-' && s[..i.value][1] == '-'; }
  }

  lemma NoHead(body: string)
    ensures SplitMessage(Headed("", body)) == Message("", body)
  {
    var raw := Headed("", body);
    assert raw == CRLF + CRLF + body;
    assert LineEnd(raw) == 2 && raw[2..] == CRLF + body && LineEnd(raw[2..]) == 2;
    assert raw[4..] == body;
  }

  lemma {:induction false} HeadIsCut(head: string, body: string)
    requires HeaderBlock(head)
    ensures SplitMessage(Headed(head, body)) == Message(head, body)
  {
    var raw := Headed(head, body);
    if head == "" {
      NoHead(body);
    } else {
      NoBlankLineInHead(head, body);
      RestIsHeaderBlock(head);
      HeadIsCut(head[1..], body);
      HeadedParts(head, body);
      CutOne(raw);
    }
  }

  lemma HeadedParts(head: string, body: string)
    requires head != ""
    ensures Headed(head, body)[0] == head[0] && Headed(head, body)[1..] == Headed(head[1..], body)
    ensures [head[0]] + head[1..] == head
  {
  }

  lemma CutOne(raw: string)
    requires raw != "" && BlankLine(raw) == 0
    ensures SplitMessage(raw) == Message([raw[0]] + SplitMessage(raw[1..]).head, SplitMessage(raw[1..]).body)
  {
  }

  lemma RestIsHeaderBlock(head: string)
    requires HeaderBlock(head) && head != ""
    ensures HeaderBlock(head[1..])
  {
    var rest := head[1..];
    forall i | 0 <= i < |rest| ensures BlankLine(rest[i..]) == 0 {
      assert rest[i..] == head[i + 1..];
    }
  }

  lemma NoBlankLineInHead(head: string, body: string)
    requires head != "" && HeaderBlock(head)
    ensures BlankLine(Headed(head, body)) == 0
  {
    var raw := Headed(head, body);
    assert head[0..] == head;
    assert BlankLine(head) == 0;
    var n := LineEnd(raw);
    if n > 0 {
      assert raw[|head| - 1] == head[|head| - 1];
      assert forall k :: 0 <= k < n ==> LineBreak(raw[k]);
      assert |head| > n;
      assert LineEnd(head) == n;
      var more, cut := head[n..], raw[n..];
      assert more[0] == cut[0];
      assert |more| > 1 ==> more[1] == cut[1];
    }
  }

  lemma PartIsCut(read: string -> Headers, m: Mime, d: string)
    requires Separate(read, m, d)
    ensures var p := PartText(read, m);
      EndsLine(p) && !ClosesList(p) && SplitMessage(p[LineEnd(p)..]) == Message(m.head, Written(read, m) + CRLF)
  {
    HeadIsCut(m.head, Written(read, m) + CRLF);
    LineEndIsCut(Headed(m.head, Written(read, m) + CRLF));
    assert Headed(m.head, Written(read, m) + CRLF) == m.head + CRLF + CRLF + Written(read, m) + CRLF;
  }

  lemma LineEndIsCut(rest: string)
    ensures var p := CRLF + rest; !ClosesList(p) && p[LineEnd(p)..] == rest
  {
    var p := CRLF + rest;
    assert p[0] == '\r' && p[1] == '\n';
  }

  /** Writing a tree of parts and walking it gives back every part's type in order and every text, at any depth. */
  lemma {:induction false} WalkUndoesWriting(read: string -> Headers, decoded: (string, string) -> string, m: Mime,
    tail: string)
    requires WellFormed(read, m) && StartsLine(tail)
    ensures Walked(read, decoded, m.head, Written(read, m) + tail) == Collected(read, decoded, m, tail)
    decreases m, 0
  {
    match m
    case Leaf(_, _) =>
    case Nest(head, preamble, parts, epilogue) =>
      var h := read(head);
      var d := h.Delimiter();
      var list := WrittenParts(read, d, parts, epilogue) + tail;
      var body := Written(read, m) + tail;
      assert body == preamble + list;
      FirstDelimiter(read, h, parts, epilogue, tail, preamble);
      PartsAreWalked(read, decoded, h, parts, epilogue, tail, Split(body, d)[1..], |body|);
  }

  /** The written list behind its first delimiter. */
  function AfterDelimiter(read: string -> Headers, d: string, parts: seq<Mime>, epilogue: string,
    tail: string): string {
    if parts == [] then "--" + (epilogue + tail)
    else PartText(read, parts[0]) + d + AfterDelimiter(read, d, parts[1..], epilogue, tail)
  }

  lemma {:induction false} ListStarts(read: string -> Headers, d: string, parts: seq<Mime>, epilogue: string,
    tail: string)
    ensures WrittenParts(read, d, parts, epilogue) + tail == d + AfterDelimiter(read, d, parts, epilogue, tail)
    decreases |parts|
  {
    if parts != [] {
      ListStarts(read, d, parts[1..], epilogue, tail);
      var p, more := PartText(read, parts[0]), WrittenParts(read, d, parts[1..], epilogue);
      assert d + p + more + tail == d + p + (more + tail);
      assert d + p + (d + AfterDelimiter(read, d, parts[1..], epilogue, tail))
        == d + (p + d + AfterDelimiter(read, d, parts[1..], epilogue, tail));
    }
  }

  lemma FirstDelimiter(read: string -> Headers, h: Headers, parts: seq<Mime>, epilogue: string, tail: string,
    preamble: string)
    requires h.Nests() && NoLineFeed(h.boundary) && EndsLine(preamble) && !Occurs(preamble, h.Delimiter())
    ensures var d := h.Delimiter(); var body := preamble + (WrittenParts(read, d, parts, epilogue) + tail);
      Split(body, d)[1..] == Split(AfterDelimiter(read, d, parts, epilogue, tail), d)
  {
    var d := h.Delimiter();
    var after := AfterDelimiter(read, d, parts, epilogue, tail);
    ListStarts(read, d, parts, epilogue, tail);
    Associate(preamble, d, after);
    SplitAfter(preamble, d, after);
    SecondOn(preamble, Split(after, d));
  }

  lemma Associate(a: string, b: string, c: string)
    ensures a + (b + c) == a + b + c
  {
  }

  lemma SecondOn(first: string, rest: seq<string>)
    ensures ([first] + rest)[1..] == rest
  {
  }

  lemma {:induction false} PartsAreWalked(
      read: string -> Headers, decoded: (string, string) -> string, h: Headers, parts: seq<Mime>, epilogue: string,
      tail: string, pieces: seq<string>, size: nat)
    requires h.Nests() && NoLineFeed(h.boundary) && h.boundary[0] != '\r' && StartsLine(epilogue) && StartsLine(tail)
    requires AllSeparate(read, parts, h.Delimiter())
    requires pieces == Split(AfterDelimiter(read, h.Delimiter(), parts, epilogue, tail), h.Delimiter())
    requires Shorter(pieces, size)
    ensures WalkedParts(read, decoded, pieces, size) == CollectedParts(read, decoded, parts)
    decreases parts
  {
    var d := h.Delimiter();
    if parts == [] {
      ClosingPiece(h, epilogue + tail);
    } else {
      var more := PiecesAfter(read, h, parts, epilogue, tail);
      ShorterRest(PartText(read, parts[0]), more, size);
      PartsAreWalked(read, decoded, h, parts[1..], epilogue, tail, more, size);
      OneMimeWalked(read, decoded, parts[0], d, more, size);
    }
  }

  lemma DelimiterFits(h: Headers)
    requires h.Nests() && NoLineFeed(h.boundary)
    ensures h.Delimiter() != "" && NoLineFeed(h.Delimiter())
  {
    var d := h.Delimiter();
    forall i | 0 <= i < |d| ensures d[i] != '\n' {
      if i >= 2 { assert d[i] == h.boundary[i - 2]; }
    }
  }

  lemma PieceAfter(read: string -> Headers, m: Mime, d: string, after: string)
    requires d != "" && NoLineFeed(d) && Separate(read, m, d)
    ensures Split(PartText(read, m) + d + after, d) == [PartText(read, m)] + Split(after, d)
  {
    PartIsCut(read, m, d);
    SplitAfter(PartText(read, m), d, after);
  }

  lemma PiecesAfter(read: string -> Headers, h: Headers, parts: seq<Mime>, epilogue: string, tail: string)
    returns (more: seq<string>)
    requires h.Nests() && NoLineFeed(h.boundary) && parts != [] && Separate(read, parts[0], h.Delimiter())
    ensures more == Split(AfterDelimiter(read, h.Delimiter(), parts[1..], epilogue, tail), h.Delimiter())
    ensures Split(AfterDelimiter(read, h.Delimiter(), parts, epilogue, tail), h.Delimiter())
      == [PartText(read, parts[0])] + more
  {
    var d := h.Delimiter();
    var after := AfterDelimiter(read, d, parts[1..], epilogue, tail);
    DelimiterFits(h);
    PieceAfter(read, parts[0], d, after);
    more := Split(after, d);
  }

  lemma {:induction false} OneMimeWalked(
      read: string -> Headers, decoded: (string, string) -> string, m: Mime, d: string, more: seq<string>, size: nat)
    requires Separate(read, m, d) && Shorter([PartText(read, m)] + more, size) && Shorter(more, size)
    ensures WalkedParts(read, decoded, [PartText(read, m)] + more, size)
      == Collected(read, decoded, m, CRLF).Then(WalkedParts(read, decoded, more, size))
    decreases m, 1
  {
    PartIsCut(read, m, d);
    WalkUndoesWriting(read, decoded, m, CRLF);
    OnePartWalked(read, decoded, PartText(read, m), more, size);
  }

  lemma ShorterRest(part: string, more: seq<string>, size: nat)
    requires Shorter([part] + more, size)
    ensures Shorter(more, size)
  {
    assert forall i :: 0 <= i < |more| ==> more[i] == ([part] + more)[i + 1];
  }

  lemma OnePartWalked(read: string -> Headers, decoded: (string, string) -> string, part: string, more: seq<string>,
    size: nat)
    requires Shorter([part] + more, size) && Shorter(more, size) && !ClosesList(part)
    ensures var sub := SplitMessage(part[LineEnd(part)..]);
      WalkedParts(read, decoded, [part] + more, size)
        == Walked(read, decoded, sub.head, sub.body).Then(WalkedParts(read, decoded, more, size))
  {
    assert ([part] + more)[1..] == more;
  }

  /** The same for a whole message, its top header block included. */
  lemma ParsingUndoesWriting(read: string -> Headers, decoded: (string, string) -> string, m: Mime)
    requires WellFormed(read, m)
    ensures Parsed(read, decoded, Headed(m.head, Written(read, m))) == Collected(read, decoded, m, "")
  {
    HeadIsCut(m.head, Written(read, m));
    WalkUndoesWriting(read, decoded, m, "");
    assert Written(read, m) + "" == Written(read, m);
  }
}
