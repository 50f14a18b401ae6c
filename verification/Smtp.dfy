/** The SMTP sink: lines cut out of a stream of chunks drive a small protocol machine. */
module Smtp {
  import opened JsonValues
  import opened Strings

  /** A stored message; `to` says which recipient list it holds, as the sink stores the list and not a copy of it. */
  datatype Mail = Mail(from: string, to: nat, raw: string)

  /**
   * One connection. `lists` are the recipient lists made so far and `to` the current one: a list that a message holds
   * is the same list that a later RCPT extends.
   */
  datatype State = State(
    buf: string, inData: bool, data: seq<string>, from: string, lists: seq<seq<string>>, to: nat,
    messages: seq<Mail>, replies: seq<Reply>, ended: bool)
  {
    predicate Valid() {
      to < |lists| && forall i :: 0 <= i < |messages| ==> messages[i].to < |lists|
    }
  }

  datatype Reply = Ready | Extensions | Hello | SenderOk | RecipientOk | SendData | Queued | Done | Bye | NotImplemented

  const START := State("", false, [], "", [[]], 0, [], [Ready], false)

  /* ---------------------------------------------------------------- text */

  /** `indexOf('\r\n')`. */
  function FirstLineEnd(s: string): (r: Option<nat>)
    ensures r.Some? ==> r.value + 2 <= |s| && s[r.value] == '\r' && s[r.value + 1] == '\n'
    ensures r.Some? ==> forall i :: 0 <= i < r.value ==> !(s[i] == '\r' && s[i + 1] == '\n')
    ensures r.None? ==> forall i :: 0 <= i < |s| - 1 ==> !(s[i] == '\r' && s[i + 1] == '\n')
  {
    if |s| < 2 then None
    else if s[0] == '\r' && s[1] == '\n' then Some(0)
    else
      match FirstLineEnd(s[1..])
      case Some(n) => Some(n + 1)
      case None =>
        assert forall i :: 1 <= i < |s| - 1 ==> s[i] == s[1..][i - 1] && s[i + 1] == s[1..][i];
        None
  }

  function Upper(c: char): char {
    if 'a' <= c <= 'z' then (c as int - 'a' as int + 'A' as int) as char else c
  }

  /** The first four characters, in either case. */
  predicate Starts(line: string, a: char, b: char, c: char, d: char) {
    |line| >= 4 && Upper(line[0]) == a && Upper(line[1]) == b && Upper(line[2]) == c && Upper(line[3]) == d
  }

  datatype Verb = Ehlo | Helo | MailFrom | RcptTo | Data | Rset | Noop | Quit | Unknown

  function VerbOf(line: string): Verb {
    if Starts(line, 'E', 'H', 'L', 'O') then Ehlo
    else if Starts(line, 'H', 'E', 'L', 'O') then Helo
    else if Starts(line, 'M', 'A', 'I', 'L') then MailFrom
    else if Starts(line, 'R', 'C', 'P', 'T') then RcptTo
    else if Starts(line, 'D', 'A', 'T', 'A') then Data
    else if Starts(line, 'R', 'S', 'E', 'T') then Rset
    else if Starts(line, 'N', 'O', 'O', 'P') then Noop
    else if Starts(line, 'Q', 'U', 'I', 'T') then Quit
    else Unknown
  }

  predicate LoneDot(line: string) {
    |line| == 1 && line[0] == '.'
  }

  function IndexOf(s: string, c: char): (r: nat)
    ensures r <= |s| && (forall i :: 0 <= i < r ==> s[i] != c) && (r < |s| ==> s[r] == c)
  {
    if s == "" || s[0] == c then 0 else 1 + IndexOf(s[1..], c)
  }

  /** The text between the first `<` and the next `>`, or nothing. */
  function Angled(line: string): string {
    var i := IndexOf(line, '<');
    if i == |line| then ""
    else
      var rest := line[i + 1..];
      var j := IndexOf(rest, '>');
      if j == |rest| then "" else rest[..j]
  }

  function JoinLines(lines: seq<string>): string {
    if lines == [] then "" else if |lines| == 1 then lines[0] else lines[0] + CRLF + JoinLines(lines[1..])
  }

  /** A line of message data without the dot that protects it. */
  function Unstuffed(line: string): string {
    if |line| >= 2 && line[0] == '.' && line[1] == '.' then line[1..] else line
  }

  /* ---------------------------------------------------------------- one line */

  /** After QUIT the socket is closed for writing: what is sent then reaches nobody. */
  function Replying(st: State, reply: Reply): State {
    if st.ended then st else st.(replies := st.replies + [reply])
  }

  function HandleData(st: State, line: string): State {
    if LoneDot(line) then
      Replying(st.(inData := false, messages := st.messages + [Mail(st.from, st.to, JoinLines(st.data))], data := []),
        Queued)
    else st.(data := st.data + [Unstuffed(line)])
  }

  function HandleCommand(st: State, verb: Verb, address: string): State
    requires st.to < |st.lists|
  {
    match verb
    case Ehlo => Replying(st, Extensions)
    case Helo => Replying(st, Hello)
    case MailFrom => Replying(st.(from := address, lists := st.lists + [[]], to := |st.lists|), SenderOk)
    case RcptTo => Replying(st.(lists := st.lists[st.to := st.lists[st.to] + [address]]), RecipientOk)
    case Data => Replying(st.(inData := true, data := []), SendData)
    case Rset => Replying(st.(from := "", lists := st.lists + [[]], to := |st.lists|), Done)
    case Noop => Replying(st, Done)
    case Quit => Replying(st, Bye).(ended := true)
    case Unknown => Replying(st, NotImplemented)
  }

  function Handle(st: State, line: string): (r: State)
    requires st.Valid()
    ensures r.Valid() && r.buf == st.buf
  {
    if st.inData then HandleData(st, line) else HandleCommand(st, VerbOf(line), Angled(line))
  }

  /* ---------------------------------------------------------------- the stream */

  /** Handles every complete line in the buffer. */
  function Drain(st: State): (r: State)
    requires st.Valid()
    ensures r.Valid() && FirstLineEnd(r.buf).None?
    decreases |st.buf|
  {
    match FirstLineEnd(st.buf)
    case None => st
    case Some(nl) => Drain(Handle(st.(buf := st.buf[nl + 2..]), st.buf[..nl]))
  }

  /** The connection after the line that ends at `n`. */
  function AfterLine(st: State, n: nat): (r: State)
    requires st.Valid() && FirstLineEnd(st.buf) == Some(n)
    ensures r.Valid() && r.buf == st.buf[n + 2..] && |r.buf| < |st.buf|
  {
    Handle(st.(buf := st.buf[n + 2..]), st.buf[..n])
  }

  lemma DrainOne(st: State, n: nat)
    requires st.Valid() && FirstLineEnd(st.buf) == Some(n)
    ensures Drain(st) == Drain(AfterLine(st, n))
  {
  }

  function Feed(st: State, chunk: string): (r: State)
    requires st.Valid()
    ensures r.Valid()
  {
    Drain(st.(buf := st.buf + chunk))
  }

  function FeedAll(st: State, chunks: seq<string>): (r: State)
    requires st.Valid()
    ensures r.Valid()
    decreases |chunks|
  {
    if chunks == [] then st else Feed(FeedAll(st, chunks[..|chunks| - 1]), chunks[|chunks| - 1])
  }

  /** The connection as the socket handler keeps it. */
  class Session {
    var buf: string
    var inData: bool
    var data: seq<string>
    var from: string
    var lists: seq<seq<string>>
    var to: nat
    var messages: seq<Mail>
    var replies: seq<Reply>
    var ended: bool

    function Value(): State
      reads this
    {
      State(buf, inData, data, from, lists, to, messages, replies, ended)
    }

    constructor ()
      ensures Value() == START
    {
      buf, inData, data, from := "", false, [], "";
      lists, to := [[]], 0;
      messages, replies, ended := [], [Ready], false;
    }

    method Send(reply: Reply)
      modifies this`replies
      ensures replies == if ended then old(replies) else old(replies) + [reply]
    {
      if !ended { replies := replies + [reply]; }
    }

    method OnLine(line: string)
      requires Value().Valid()
      modifies this
      ensures Value() == Handle(old(Value()), line)
    {
      if inData {
        if LoneDot(line) {
          inData := false;
          messages := messages + [Mail(from, to, JoinLines(data))];
          data := [];
          Send(Queued);
        } else {
          data := data + [Unstuffed(line)];
        }
        return;
      }
      match VerbOf(line) {
        case Ehlo => Send(Extensions);
        case Helo => Send(Hello);
        case MailFrom =>
          from := Angled(line);
          lists, to := lists + [[]], |lists|;
          Send(SenderOk);
        case RcptTo =>
          lists := lists[to := lists[to] + [Angled(line)]];
          Send(RecipientOk);
        case Data =>
          inData := true;
          data := [];
          Send(SendData);
        case Rset =>
          from := "";
          lists, to := lists + [[]], |lists|;
          Send(Done);
        case Noop => Send(Done);
        case Quit =>
          Send(Bye);
          ended := true;
        case Unknown => Send(NotImplemented);
      }
    }

    method OnData(chunk: string)
      requires Value().Valid()
      modifies this
      ensures Value() == Feed(old(Value()), chunk)
      ensures FirstLineEnd(buf).None?
    {
      buf := buf + chunk;
      ghost var start := Value();
      var nl := FirstLineEnd(buf);
      while nl.Some?
        invariant Value().Valid() && nl == FirstLineEnd(buf)
        invariant Drain(Value()) == Drain(start)
        decreases |buf|
      {
        DrainOne(Value(), nl.value);
        TakeLine(nl.value);
        nl := FirstLineEnd(buf);
      }
    }

    /** The line that ends at `n` is cut off and handled. */
    method TakeLine(n: nat)
      requires Value().Valid() && FirstLineEnd(buf) == Some(n)
      modifies this
      ensures Value() == AfterLine(old(Value()), n)
    {
      var line := buf[..n];
      buf := buf[n + 2..];
      OnLine(line);
    }
  }

  /* ---------------------------------------------------------------- independence from the cut into chunks */

  lemma HandleIgnoresBuffer(st: State, line: string, buf: string)
    requires st.Valid()
    ensures Handle(st.(buf := buf), line) == Handle(st, line).(buf := buf)
  {
  }

  lemma {:induction false} FirstLineEndExtends(a: string, b: string)
    requires FirstLineEnd(a).Some?
    ensures FirstLineEnd(a + b) == FirstLineEnd(a)
  {
    var n, m := FirstLineEnd(a).value, FirstLineEnd(a + b);
    assert (a + b)[n] == '\r' && (a + b)[n + 1] == '\n';
    assert forall i :: 0 <= i < n + 2 ==> (a + b)[i] == a[i];
  }

  /** Draining early changes nothing: what is left waits for the rest. */
  lemma {:induction false} DrainEarly(st: State, more: string)
    requires st.Valid()
    ensures Drain(st.(buf := st.buf + more)) == Feed(Drain(st), more)
    decreases |st.buf|
  {
    var nl := FirstLineEnd(st.buf);
    if nl.Some? {
      var n, all := nl.value, st.buf + more;
      FirstLineEndExtends(st.buf, more);
      assert all[..n] == st.buf[..n] && all[n + 2..] == st.buf[n + 2..] + more;
      var next := Handle(st.(buf := st.buf[n + 2..]), st.buf[..n]);
      HandleIgnoresBuffer(st.(buf := st.buf[n + 2..]), st.buf[..n], all[n + 2..]);
      DrainEarly(next, more);
    }
  }

  function Concat(chunks: seq<string>): string
    decreases |chunks|
  {
    if chunks == [] then "" else Concat(chunks[..|chunks| - 1]) + chunks[|chunks| - 1]
  }

  lemma FeedTwice(st: State, a: string, b: string)
    requires st.Valid()
    ensures Feed(Feed(st, a), b) == Feed(st, a + b)
  {
    var mid := st.(buf := st.buf + a);
    DrainEarly(mid, b);
    assert st.buf + (a + b) == mid.buf + b;
  }

  /** However a stream is cut into chunks, also between CR and LF, everything comes out as from one chunk. */
  lemma {:induction false} ChunksDoNotMatter(st: State, chunks: seq<string>)
    requires st.Valid() && FirstLineEnd(st.buf).None?
    ensures FeedAll(st, chunks) == Feed(st, Concat(chunks))
    ensures FirstLineEnd(FeedAll(st, chunks).buf).None?
    decreases |chunks|
  {
    if chunks == [] {
      assert st.buf + "" == st.buf;
    } else {
      ChunksDoNotMatter(st, chunks[..|chunks| - 1]);
      FeedTwice(st, Concat(chunks[..|chunks| - 1]), chunks[|chunks| - 1]);
    }
  }

  /* ---------------------------------------------------------------- whole lines */

  predicate NoLineEnd(s: string) {
    forall i :: 0 <= i < |s| - 1 ==> !(s[i] == '\r' && s[i + 1] == '\n')
  }

  function Text(lines: seq<string>): string {
    if lines == [] then "" else lines[0] + CRLF + Text(lines[1..])
  }

  function HandleAll(st: State, lines: seq<string>): (r: State)
    requires st.Valid()
    ensures r.Valid() && r.buf == st.buf
    decreases |lines|
  {
    if lines == [] then st else HandleAll(Handle(st, lines[0]), lines[1..])
  }

  lemma LineCut(line: string, rest: string)
    requires NoLineEnd(line)
    ensures var s := line + CRLF + rest;
      FirstLineEnd(s) == Some(|line|) && s[..|line|] == line && s[|line| + 2..] == rest
  {
    var s := line + CRLF + rest;
    assert s[|line|] == '\r' && s[|line| + 1] == '\n';
    assert forall i :: 0 <= i < |line| ==> s[i] == line[i];
  }

  lemma FeedEmpty(st: State, s: string)
    requires st.Valid() && st.buf == ""
    ensures Feed(st, s) == Drain(st.(buf := s))
  {
    assert "" + s == s;
  }

  /** A complete line at the front of the stream is handled, then the rest. */
  lemma FirstLineHandled(st: State, line: string, rest: string)
    requires st.Valid() && st.buf == "" && NoLineEnd(line)
    ensures Feed(st, line + CRLF + rest) == Feed(Handle(st, line), rest)
  {
    LineCut(line, rest);
    HandleIgnoresBuffer(st, line, rest);
    FeedEmpty(st, line + CRLF + rest);
    FeedEmpty(Handle(st, line), rest);
    DrainOne(st.(buf := line + CRLF + rest), |line|);
  }

  /** Lines come out of the stream as they went in. */
  lemma {:induction false} LinesAreHandled(st: State, lines: seq<string>)
    requires st.Valid() && st.buf == ""
    requires forall i :: 0 <= i < |lines| ==> NoLineEnd(lines[i])
    ensures Feed(st, Text(lines)) == HandleAll(st, lines)
    decreases |lines|
  {
    if lines == [] {
      assert st.buf + "" == st.buf;
    } else {
      FirstLineHandled(st, lines[0], Text(lines[1..]));
      LinesAreHandled(Handle(st, lines[0]), lines[1..]);
    }
  }

  lemma {:induction false} HandleAllConcat(st: State, a: seq<string>, b: seq<string>)
    requires st.Valid()
    ensures HandleAll(st, a + b) == HandleAll(HandleAll(st, a), b)
    decreases |a|
  {
    if a == [] {
      assert a + b == b;
    } else {
      assert (a + b)[0] == a[0] && (a + b)[1..] == a[1..] + b;
      HandleAllConcat(Handle(st, a[0]), a[1..], b);
    }
  }

  /** What is stored of the lines of a message: the stream that carried them, without the last CRLF. */
  function StoredText(lines: seq<string>): string {
    var text := Text(lines);
    if |text| < 2 then text else text[..|text| - 2]
  }

  lemma {:induction false} JoinedIsStored(lines: seq<string>)
    ensures JoinLines(lines) == StoredText(lines)
    ensures lines != [] ==> StoredText(lines) + CRLF == Text(lines)
    decreases |lines|
  {
    if |lines| == 1 {
      assert Text(lines) == lines[0] + CRLF + Text(lines[1..]) && Text(lines[1..]) == "";
      assert lines[0] + CRLF + "" == lines[0] + CRLF;
    } else if lines != [] {
      JoinedIsStored(lines[1..]);
      assert Text(lines) == (lines[0] + CRLF + JoinLines(lines[1..])) + CRLF;
    }
  }

  /** Text cut at its line ends. */
  function LinesOf(text: string): seq<string>
    decreases |text|
  {
    match FirstLineEnd(text)
    case None => [text]
    case Some(n) => [text[..n]] + LinesOf(text[n + 2..])
  }

  lemma NoLineEndFound(s: string)
    requires NoLineEnd(s)
    ensures FirstLineEnd(s).None?
  {
  }

  /** Cutting the stored text at its line ends gives the lines of the message back. */
  lemma {:induction false} StoredLinesComeBack(lines: seq<string>)
    requires lines != [] && forall i :: 0 <= i < |lines| ==> NoLineEnd(lines[i])
    ensures LinesOf(StoredText(lines)) == lines
    decreases |lines|
  {
    JoinedIsStored(lines);
    if |lines| == 1 {
      NoLineEndFound(lines[0]);
    } else {
      var rest := lines[1..];
      JoinedIsStored(rest);
      StoredLinesComeBack(rest);
      LineCut(lines[0], JoinLines(rest));
      assert JoinLines(lines) == lines[0] + CRLF + JoinLines(rest);
      assert [lines[0]] + rest == lines;
    }
  }

  /* ---------------------------------------------------------------- dot transparency */

  /** Section 4.5.2 of RFC 5321: a line that begins with a period gets another one in front. */
  function Stuffed(line: string): string {
    if line != "" && line[0] == '.' then "." + line else line
  }

  function StuffedLines(lines: seq<string>): seq<string> {
    seq(|lines|, i requires 0 <= i < |lines| => Stuffed(lines[i]))
  }

  lemma StuffedComesBack(line: string)
    requires NoLineEnd(line)
    ensures !LoneDot(Stuffed(line)) && Unstuffed(Stuffed(line)) == line && NoLineEnd(Stuffed(line))
  {
    if line != "" && line[0] == '.' {
      assert Stuffed(line)[1..] == line;
    }
  }

  lemma {:induction false} DataIsCollected(st: State, lines: seq<string>)
    requires st.Valid() && st.inData
    requires forall i :: 0 <= i < |lines| ==> NoLineEnd(lines[i])
    ensures HandleAll(st, StuffedLines(lines)) == st.(data := st.data + lines)
    decreases |lines|
  {
    if lines == [] {
      assert st.data + lines == st.data;
    } else {
      StuffedComesBack(lines[0]);
      var next := st.(data := st.data + [lines[0]]);
      assert StuffedLines(lines)[0] == Stuffed(lines[0]) && StuffedLines(lines)[1..] == StuffedLines(lines[1..]);
      assert forall i :: 0 <= i < |lines[1..]| ==> lines[1..][i] == lines[i + 1];
      DataIsCollected(next, lines[1..]);
      assert st.data + [lines[0]] + lines[1..] == st.data + lines;
    }
  }

  /** Dot-stuffed lines and a lone dot, cut into chunks in any way, are stored as the original lines. */
  lemma DataRoundTrip(st: State, lines: seq<string>, chunks: seq<string>)
    requires st.Valid() && st.buf == "" && st.inData && st.data == []
    requires forall i :: 0 <= i < |lines| ==> NoLineEnd(lines[i])
    requires Concat(chunks) == Text(StuffedLines(lines) + ["."])
    ensures FeedAll(st, chunks) ==
      Replying(st.(inData := false, messages := st.messages + [Mail(st.from, st.to, StoredText(lines))]), Queued)
  {
    var wire := StuffedLines(lines) + ["."];
    ChunksDoNotMatter(st, chunks);
    forall i | 0 <= i < |wire| ensures NoLineEnd(wire[i]) {
      if i < |lines| { StuffedComesBack(lines[i]); }
    }
    LinesAreHandled(st, wire);
    HandleAllConcat(st, StuffedLines(lines), ["."]);
    DataIsCollected(st, lines);
    HandleOne(st.(data := lines), ".");
    assert [] + lines == lines;
    JoinedIsStored(lines);
  }

  /** What a receiver does with a data line by section 4.5.2 of RFC 5321. */
  function RfcUnstuffed(line: string): string {
    if |line| >= 2 && line[0] == '.' then line[1..] else line
  }

  /** The sink follows the standard except for a line that begins with one period only, which it keeps whole. */
  lemma UnstuffsAsRfcIff(line: string)
    ensures (Unstuffed(line) == RfcUnstuffed(line)) <==> !(|line| >= 2 && line[0] == '.' && line[1] != '.')
  {
    if |line| >= 2 { assert line[1..] != line; }
  }

  /* ---------------------------------------------------------------- who can change a stored message's recipients */

  lemma {:induction false} OtherListsStay(st: State, lines: seq<string>, k: nat)
    requires st.Valid() && k < |st.lists| && k != st.to
    ensures var r := HandleAll(st, lines); k < |r.lists| && r.lists[k] == st.lists[k] && k != r.to
    decreases |lines|
  {
    if lines != [] {
      OtherListStays(st, lines[0], k);
      OtherListsStay(Handle(st, lines[0]), lines[1..], k);
    }
  }

  lemma OtherListStays(st: State, line: string, k: nat)
    requires st.Valid() && k < |st.lists| && k != st.to
    ensures var r := Handle(st, line); k < |r.lists| && r.lists[k] == st.lists[k] && k != r.to
  {
  }

  /** A recipient named after the final dot joins the message just stored. */
  lemma RecipientIntrudes(st: State, line: string)
    requires st.Valid() && VerbOf(line) == RcptTo
    ensures var r := HandleAll(st, [".", line]);
      && r.to == st.to && r.lists == st.lists[st.to := st.lists[st.to] + [Angled(line)]]
      && (st.inData ==> r.messages == st.messages + [Mail(st.from, st.to, StoredText(st.data))])
  {
    var lines: seq<string> := [".", line];
    JoinedIsStored(st.data);
    assert lines[1..] == [line] && lines[1..][1..] == [];
    var mid := Handle(st, ".");
    assert !mid.inData && mid.to == st.to && mid.lists == st.lists;
    var r := Handle(mid, line);
    assert HandleAll(st, lines) == HandleAll(mid, [line]) == HandleAll(r, []) == r;
  }

  /**
   * A recipient list can still change exactly while it is the current one: a message keeps its recipients only from the
   * next MAIL or RSET on, since an RCPT before that extends the list the message holds.
   */
  lemma ListIsSettledIff(st: State, k: nat)
    requires st.Valid() && k < |st.lists|
    ensures (forall lines :: k < |HandleAll(st, lines).lists| && HandleAll(st, lines).lists[k] == st.lists[k])
      <==> k != st.to
  {
    if k != st.to {
      forall lines ensures k < |HandleAll(st, lines).lists| && HandleAll(st, lines).lists[k] == st.lists[k] {
        OtherListsStay(st, lines, k);
      }
    } else {
      var line := "RCPT";
      assert VerbOf(line) == RcptTo;
      RecipientIntrudes(st, line);
      assert |HandleAll(st, [".", line]).lists[k]| == |st.lists[k]| + 1;
    }
  }

  /* ---------------------------------------------------------------- replies */

  predicate GetsReply(st: State, line: string) {
    !st.ended && (st.inData ==> LoneDot(line))
  }

  /** The lines that get an answer: up to QUIT, every one but the lines of a message. */
  function Answered(st: State, lines: seq<string>): nat
    requires st.Valid()
    decreases |lines|
  {
    if lines == [] then 0
    else
      (if GetsReply(st, lines[0]) then 1 else 0) + Answered(Handle(st, lines[0]), lines[1..])
  }

  /** Up to QUIT each command and each final dot gets one reply, at once and in order; replies are never taken back. */
  lemma {:induction false} OneReplyEach(st: State, lines: seq<string>)
    requires st.Valid()
    ensures st.replies <= HandleAll(st, lines).replies
    ensures |HandleAll(st, lines).replies| == |st.replies| + Answered(st, lines)
    decreases |lines|
  {
    if lines != [] {
      OneReply(st, lines[0]);
      OneReplyEach(Handle(st, lines[0]), lines[1..]);
    }
  }

  lemma OneReply(st: State, line: string)
    requires st.Valid()
    ensures st.replies <= Handle(st, line).replies
    ensures |Handle(st, line).replies| == |st.replies| + if GetsReply(st, line) then 1 else 0
  {
  }

  /** Reply codes of section 4.2.3 of RFC 5321. */
  function Code(r: Reply): nat {
    match r
    case Ready => 220
    case Bye => 221
    case SendData => 354
    case NotImplemented => 502
    case _ => 250
  }

  function Codes(replies: seq<Reply>): seq<nat> {
    seq(|replies|, i requires 0 <= i < |replies| => Code(replies[i]))
  }

  /** The code a command is answered with. */
  lemma CommandCode(st: State, line: string)
    requires st.Valid() && !st.inData && !st.ended
    ensures Codes(Handle(st, line).replies) == Codes(st.replies) +
      [match VerbOf(line) case Data => 354 case Quit => 221 case Unknown => 502 case _ => 250]
  {
  }

  /** The final dot is answered with 250, the other lines of a message with nothing. */
  lemma DataCode(st: State, line: string)
    requires st.Valid() && st.inData && !st.ended
    ensures Codes(Handle(st, line).replies) == Codes(st.replies) + if LoneDot(line) then [250] else []
  {
  }

  /** EHLO is answered with the list of extensions, HELO without it; they, NOOP and an unknown word do nothing else. */
  lemma OnlyAnswered(st: State, line: string)
    requires st.Valid() && !st.inData && !st.ended
    requires VerbOf(line) in {Ehlo, Helo, Noop, Unknown}
    ensures var r := Handle(st, line);
      && r == st.(replies := r.replies) && |r.replies| == |st.replies| + 1
      && (VerbOf(line) == Ehlo <==> r.replies[|st.replies|] == Extensions)
  {
  }

  /** After QUIT the commands of the client still count, only unanswered; nothing stored goes. */
  lemma QuitKeepsMail(st: State, line: string, lines: seq<string>)
    requires st.Valid() && !st.inData && !st.ended && VerbOf(line) == Quit
    ensures var r := Handle(st, line);
      && r == st.(replies := r.replies, ended := true) && Codes(r.replies) == Codes(st.replies) + [221]
      && HandleAll(r, lines).replies == r.replies && r.messages <= HandleAll(r, lines).messages
  {
    EndedStays(Handle(st, line), lines);
  }

  lemma {:induction false} EndedStays(st: State, lines: seq<string>)
    requires st.Valid() && st.ended
    ensures var r := HandleAll(st, lines); r.ended && r.replies == st.replies && st.messages <= r.messages
    decreases |lines|
  {
    if lines != [] {
      var next := Handle(st, lines[0]);
      EndedOne(st, lines[0]);
      EndedStays(next, lines[1..]);
      PrefixOfPrefix(st.messages, next.messages, HandleAll(next, lines[1..]).messages);
    }
  }

  lemma EndedOne(st: State, line: string)
    requires st.Valid() && st.ended
    ensures var r := Handle(st, line); r.ended && r.replies == st.replies && st.messages <= r.messages
  {
  }

  lemma PrefixOfPrefix<T>(a: seq<T>, b: seq<T>, c: seq<T>)
    requires a <= b && b <= c
    ensures a <= c
  {
  }

  /** The sink speaks first. */
  lemma GreetingComesFirst(chunks: seq<string>)
    ensures var replies := FeedAll(START, chunks).replies; replies != [] && Codes(replies)[0] == 220
  {
    FeedAddsReplies(START, chunks);
  }

  lemma {:induction false} FeedAddsReplies(st: State, chunks: seq<string>)
    requires st.Valid()
    ensures st.replies <= FeedAll(st, chunks).replies
    decreases |chunks|
  {
    if chunks != [] {
      var before, chunk := FeedAll(st, chunks[..|chunks| - 1]), chunks[|chunks| - 1];
      FeedAddsReplies(st, chunks[..|chunks| - 1]);
      DrainAddsReplies(before.(buf := before.buf + chunk));
    }
  }

  lemma LineAddsReplies(st: State, n: nat)
    requires st.Valid() && FirstLineEnd(st.buf) == Some(n)
    ensures st.replies <= AfterLine(st, n).replies && Drain(st) == Drain(AfterLine(st, n))
  {
    OneReply(st.(buf := st.buf[n + 2..]), st.buf[..n]);
    DrainOne(st, n);
  }

  lemma {:induction false} DrainAddsReplies(st: State)
    requires st.Valid()
    ensures st.replies <= Drain(st).replies
    decreases |st.buf|
  {
    var nl := FirstLineEnd(st.buf);
    if nl.Some? {
      var next := AfterLine(st, nl.value);
      LineAddsReplies(st, nl.value);
      DrainAddsReplies(next);
      PrefixOfPrefix(st.replies, next.replies, Drain(next).replies);
    }
  }

  /** An address is what stands between the first `<` and the next `>`; without both there is none. */
  lemma AngledMeaning(line: string, i: nat, j: nat)
    requires i < j <= |line| && line[i] == '<' && (j < |line| ==> line[j] == '>')
    requires '<' !in line[..i] && '>' !in line[i + 1..j]
    ensures Angled(line) == if j < |line| then line[i + 1..j] else ""
  {
    var rest := line[i + 1..];
    assert forall k :: 0 <= k < i ==> line[k] == line[..i][k];
    assert IndexOf(line, '<') == i;
    assert forall k :: 0 <= k < j - i - 1 ==> rest[k] == line[i + 1..j][k];
    if j < |line| {
      assert rest[j - i - 1] == line[j];
      assert rest[..j - i - 1] == line[i + 1..j];
    }
  }

  lemma NoAngle(line: string)
    requires '<' !in line
    ensures Angled(line) == ""
  {
  }

  /* ---------------------------------------------------------------- a whole transaction */

  lemma AngledAddress(head: string, a: string, tail: string)
    requires '<' !in head && '>' !in a
    ensures Angled(head + "<" + a + ">" + tail) == a
  {
    var line := head + "<" + a + ">" + tail;
    var i := IndexOf(line, '<');
    assert line[|head|] == '<' && forall k :: 0 <= k < |head| ==> line[k] == head[k];
    assert i == |head|;
    var rest := line[i + 1..];
    assert rest == a + ">" + tail;
    assert rest[|a|] == '>' && forall k :: 0 <= k < |a| ==> rest[k] == a[k];
    assert IndexOf(rest, '>') == |a|;
  }

  lemma OneRecipient(st: State, line: string, a: string)
    requires st.Valid() && !st.inData && VerbOf(line) == RcptTo && Angled(line) == a
    ensures var r := Handle(st, line);
      && r.lists == st.lists[st.to := st.lists[st.to] + [a]] && r.to == st.to && r.from == st.from
      && r.messages == st.messages && !r.inData
  {
  }

  predicate RcptLines(to: seq<string>, lines: seq<string>) {
    |lines| == |to| && forall i :: 0 <= i < |to| ==> VerbOf(lines[i]) == RcptTo && Angled(lines[i]) == to[i]
  }

  lemma ListGrows(lists: seq<seq<string>>, k: nat, to: seq<string>)
    requires k < |lists| && to != []
    ensures var mid := lists[k := lists[k] + [to[0]]]; mid[k := mid[k] + to[1..]] == lists[k := lists[k] + to]
  {
    assert lists[k] + [to[0]] + to[1..] == lists[k] + to;
  }

  lemma {:induction false} RecipientsAreCollected(st: State, to: seq<string>, lines: seq<string>)
    requires st.Valid() && !st.inData && RcptLines(to, lines)
    ensures var r := HandleAll(st, lines);
      && r.lists == st.lists[st.to := st.lists[st.to] + to] && r.to == st.to && r.from == st.from
      && r.messages == st.messages && !r.inData
    decreases |lines|
  {
    if lines == [] {
      assert st.lists[st.to] + to == st.lists[st.to];
    } else {
      var next := Handle(st, lines[0]);
      OneRecipient(st, lines[0], to[0]);
      assert RcptLines(to[1..], lines[1..]);
      RecipientsAreCollected(next, to[1..], lines[1..]);
      ListGrows(st.lists, st.to, to);
    }
  }

  /**
   * A transaction sent between messages, cut into chunks in any way, adds one message: its sender, its recipients and
   * its lines. No earlier message or recipient list changes.
   */
  lemma TransactionIsStored(st: State, mail: string, to: seq<string>, rcpts: seq<string>, data: string,
                            lines: seq<string>, chunks: seq<string>)
    requires st.Valid() && st.buf == "" && !st.inData
    requires VerbOf(mail) == MailFrom && RcptLines(to, rcpts) && VerbOf(data) == Data
    requires NoLineEnd(mail) && NoLineEnd(data) && (forall i :: 0 <= i < |rcpts| ==> NoLineEnd(rcpts[i]))
    requires forall i :: 0 <= i < |lines| ==> NoLineEnd(lines[i])
    requires Concat(chunks) == Text([mail] + rcpts + [data] + StuffedLines(lines) + ["."])
    ensures var r := FeedAll(st, chunks);
      && r.messages == st.messages + [Mail(Angled(mail), |st.lists|, StoredText(lines))]
      && r.lists == st.lists + [to] && r.buf == "" && !r.inData
  {
    TransactionLines(mail, rcpts, data, lines);
    ChunksDoNotMatter(st, chunks);
    LinesAreHandled(st, [mail] + rcpts + [data] + StuffedLines(lines) + ["."]);
    TransactionHandled(st, mail, to, rcpts, data, lines);
    JoinedIsStored(lines);
  }

  lemma TransactionLines(mail: string, rcpts: seq<string>, data: string, lines: seq<string>)
    requires NoLineEnd(mail) && NoLineEnd(data) && (forall i :: 0 <= i < |rcpts| ==> NoLineEnd(rcpts[i]))
    requires forall i :: 0 <= i < |lines| ==> NoLineEnd(lines[i])
    ensures var wire := [mail] + rcpts + [data] + StuffedLines(lines) + ["."];
      forall i :: 0 <= i < |wire| ==> NoLineEnd(wire[i])
  {
    var stuffed := StuffedLines(lines);
    forall i | 0 <= i < |stuffed| ensures NoLineEnd(stuffed[i]) {
      StuffedComesBack(lines[i]);
    }
  }

  lemma TransactionHandled(st: State, mail: string, to: seq<string>, rcpts: seq<string>, data: string,
    lines: seq<string>)
    requires st.Valid() && !st.inData
    requires VerbOf(mail) == MailFrom && RcptLines(to, rcpts) && VerbOf(data) == Data
    requires forall i :: 0 <= i < |lines| ==> NoLineEnd(lines[i])
    ensures var r := HandleAll(st, [mail] + rcpts + [data] + StuffedLines(lines) + ["."]);
      && r.messages == st.messages + [Mail(Angled(mail), |st.lists|, JoinLines(lines))]
      && r.lists == st.lists + [to] && r.buf == st.buf && !r.inData
  {
    var open := [mail] + rcpts;
    HandleAllConcat(st, open + [data] + StuffedLines(lines), ["."]);
    HandleAllConcat(st, open + [data], StuffedLines(lines));
    HandleAllConcat(st, open, [data]);
    EnvelopeHandled(st, mail, to, rcpts);
    var s2 := HandleAll(st, open);
    BodyHandled(s2, data, lines);
  }

  lemma EnvelopeHandled(st: State, mail: string, to: seq<string>, rcpts: seq<string>)
    requires st.Valid() && !st.inData && VerbOf(mail) == MailFrom && RcptLines(to, rcpts)
    ensures var r := HandleAll(st, [mail] + rcpts);
      && r.lists == st.lists + [to] && r.to == |st.lists| && r.from == Angled(mail)
      && r.messages == st.messages && !r.inData
  {
    HandleAllConcat(st, [mail], rcpts);
    HandleOne(st, mail);
    MailHandled(st, mail);
    RecipientsAreCollected(Handle(st, mail), to, rcpts);
    NewList(st.lists, to);
  }

  lemma MailHandled(st: State, mail: string)
    requires st.Valid() && !st.inData && VerbOf(mail) == MailFrom
    ensures var r := Handle(st, mail);
      && r.lists == st.lists + [[]] && r.to == |st.lists| && r.from == Angled(mail)
      && r.messages == st.messages && !r.inData
  {
  }

  lemma NewList(lists: seq<seq<string>>, to: seq<string>)
    ensures (lists + [[]])[|lists| := [] + to] == lists + [to]
  {
    assert [] + to == to;
  }

  lemma BodyHandled(st: State, data: string, lines: seq<string>)
    requires st.Valid() && !st.inData && VerbOf(data) == Data
    requires forall i :: 0 <= i < |lines| ==> NoLineEnd(lines[i])
    ensures var r := HandleAll(HandleAll(HandleAll(st, [data]), StuffedLines(lines)), ["."]);
      && r.messages == st.messages + [Mail(st.from, st.to, JoinLines(lines))]
      && r.lists == st.lists && r.buf == st.buf && !r.inData
  {
    HandleOne(st, data);
    var s3 := Handle(st, data);
    DataIsCollected(s3, lines);
    assert [] + lines == lines;
    HandleOne(s3.(data := lines), ".");
  }

  lemma HandleOne(st: State, line: string)
    requires st.Valid()
    ensures HandleAll(st, [line]) == Handle(st, line)
  {
    var lines: seq<string> := [line];
    assert lines[1..] == [];
  }

  /* ---------------------------------------------------------------- the replies to a transaction */

  function Accepted(n: nat): seq<nat> {
    seq(n, i => 250)
  }

  lemma {:induction false} RecipientCodes(st: State, to: seq<string>, lines: seq<string>)
    requires st.Valid() && !st.inData && !st.ended && RcptLines(to, lines)
    ensures var r := HandleAll(st, lines);
      Codes(r.replies) == Codes(st.replies) + Accepted(|to|) && !r.inData && !r.ended
    decreases |lines|
  {
    if lines == [] {
      assert Codes(st.replies) + Accepted(0) == Codes(st.replies);
    } else {
      CommandCode(st, lines[0]);
      assert RcptLines(to[1..], lines[1..]);
      RecipientCodes(Handle(st, lines[0]), to[1..], lines[1..]);
      assert [250] + Accepted(|to| - 1) == Accepted(|to|);
      assert Codes(st.replies) + [250] + Accepted(|to| - 1) == Codes(st.replies) + ([250] + Accepted(|to| - 1));
    }
  }

  lemma EnvelopeCodes(st: State, mail: string, to: seq<string>, rcpts: seq<string>)
    requires st.Valid() && !st.inData && !st.ended && VerbOf(mail) == MailFrom && RcptLines(to, rcpts)
    ensures var r := HandleAll(st, [mail] + rcpts);
      Codes(r.replies) == Codes(st.replies) + [250] + Accepted(|to|) && !r.inData && !r.ended
  {
    CommandCode(st, mail);
    HandleOne(st, mail);
    HandleAllConcat(st, [mail], rcpts);
    RecipientCodes(Handle(st, mail), to, rcpts);
  }

  lemma BodyCodes(st: State, data: string, lines: seq<string>)
    requires st.Valid() && !st.inData && !st.ended && VerbOf(data) == Data
    requires forall i :: 0 <= i < |lines| ==> NoLineEnd(lines[i])
    ensures Codes(HandleAll(st, [data] + StuffedLines(lines) + ["."]).replies) == Codes(st.replies) + [354, 250]
  {
    HandleAllConcat(st, [data] + StuffedLines(lines), ["."]);
    HandleAllConcat(st, [data], StuffedLines(lines));
    HandleOne(st, data);
    CommandCode(st, data);
    var begun := Handle(st, data);
    DataIsCollected(begun, lines);
    var collected := begun.(data := begun.data + lines);
    HandleOne(collected, ".");
    DataCode(collected, ".");
    assert Codes(st.replies) + [354] + [250] == Codes(st.replies) + [354, 250];
  }

  /** A whole transaction is answered with 250, 250 for each recipient, 354 and 250, however its stream is cut. */
  lemma TransactionIsAnswered(st: State, mail: string, to: seq<string>, rcpts: seq<string>, data: string,
                              lines: seq<string>, chunks: seq<string>)
    requires st.Valid() && st.buf == "" && !st.inData && !st.ended
    requires VerbOf(mail) == MailFrom && RcptLines(to, rcpts) && VerbOf(data) == Data
    requires NoLineEnd(mail) && NoLineEnd(data) && (forall i :: 0 <= i < |rcpts| ==> NoLineEnd(rcpts[i]))
    requires forall i :: 0 <= i < |lines| ==> NoLineEnd(lines[i])
    requires Concat(chunks) == Text([mail] + rcpts + [data] + StuffedLines(lines) + ["."])
    ensures Codes(FeedAll(st, chunks).replies) == Codes(st.replies) + [250] + Accepted(|to|) + [354, 250]
  {
    var open, rest := [mail] + rcpts, [data] + StuffedLines(lines) + ["."];
    assert [mail] + rcpts + [data] + StuffedLines(lines) + ["."] == open + rest;
    TransactionLines(mail, rcpts, data, lines);
    ChunksDoNotMatter(st, chunks);
    LinesAreHandled(st, open + rest);
    HandleAllConcat(st, open, rest);
    EnvelopeCodes(st, mail, to, rcpts);
    BodyCodes(HandleAll(st, open), data, lines);
  }

  /** RSET forgets the sender and starts a new list of recipients; what was stored stays. */
  lemma ResetForgets(st: State, line: string)
    requires st.Valid() && !st.inData && VerbOf(line) == Rset
    ensures var r := Handle(st, line);
      && r.from == "" && r.lists == st.lists + [[]] && r.to == |st.lists| && r.messages == st.messages && !r.inData
  {
  }

  predicate SameLetters(a: string, b: string) {
    |a| == |b| && forall i :: 0 <= i < |a| ==> a[i] == b[i] || ('a' <= a[i] <= 'z' && a[i] as int == b[i] as int + 32)
  }

  /** Lower-case letters in a command do not matter. */
  lemma VerbIgnoresCase(a: string, b: string)
    requires SameLetters(a, b)
    ensures VerbOf(a) == VerbOf(b)
  {
    if |a| >= 4 {
      assert Upper(a[0]) == Upper(b[0]) && Upper(a[1]) == Upper(b[1]);
      assert Upper(a[2]) == Upper(b[2]) && Upper(a[3]) == Upper(b[3]);
    }
  }

  lemma VerbWords()
    ensures VerbOf("EHLO") == Ehlo && VerbOf("HELO") == Helo && VerbOf("MAIL") == MailFrom && VerbOf("RCPT") == RcptTo
    ensures VerbOf("DATA") == Data && VerbOf("RSET") == Rset && VerbOf("NOOP") == Noop && VerbOf("QUIT") == Quit
  {
  }

  /* ---------------------------------------------------------------- the lines a client sends */

  /** What can stand between the angle brackets. */
  predicate Address(a: string) {
    '>' !in a && NoLineEnd(a)
  }

  const MAIL_FROM := "MAIL FROM:"
  const RCPT_TO := "RCPT TO:"
  const DATA := "DATA"

  function AddressLine(head: string, a: string): string {
    head + "<" + a + ">"
  }

  function RcptLinesFor(to: seq<string>): seq<string> {
    seq(|to|, i requires 0 <= i < |to| => AddressLine(RCPT_TO, to[i]))
  }

  lemma NoLineEndBetween(a: string, b: string)
    requires NoLineEnd(a) && NoLineEnd(b) && (a != "" && b != "" ==> !(a[|a| - 1] == '\r' && b[0] == '\n'))
    ensures NoLineEnd(a + b)
  {
    forall i | 0 <= i < |a + b| - 1 ensures !((a + b)[i] == '\r' && (a + b)[i + 1] == '\n') {
      if i < |a| - 1 {
        assert (a + b)[i] == a[i] && (a + b)[i + 1] == a[i + 1];
      } else if i >= |a| {
        assert (a + b)[i] == b[i - |a|] && (a + b)[i + 1] == b[i + 1 - |a|];
      }
    }
  }

  lemma SameVerb(head: string, rest: string)
    requires |head| >= 4
    ensures VerbOf(head + rest) == VerbOf(head)
  {
    var line := head + rest;
    assert line[0] == head[0] && line[1] == head[1] && line[2] == head[2] && line[3] == head[3];
  }

  lemma AddressLineIsOne(head: string, a: string)
    requires NoLineEnd(head) && NoLineEnd(a)
    ensures NoLineEnd(AddressLine(head, a))
  {
    NoLineEndBetween(head, "<");
    NoLineEndBetween(head + "<", a);
    NoLineEndBetween(head + "<" + a, ">");
  }

  lemma AddressLineNames(head: string, a: string)
    requires '<' !in head && '>' !in a
    ensures Angled(AddressLine(head, a)) == a
  {
    var line := head + "<" + a + ">";
    assert line + "" == line;
    AngledAddress(head, a, "");
  }

  lemma AddressLineVerb(head: string, a: string)
    requires |head| >= 4
    ensures VerbOf(AddressLine(head, a)) == VerbOf(head)
  {
    var rest := "<" + a + ">";
    assert AddressLine(head, a) == head + rest;
    SameVerb(head, rest);
  }

  lemma AddressLineHolds(head: string, a: string)
    requires '<' !in head && NoLineEnd(head) && |head| >= 4 && Address(a)
    ensures var line := AddressLine(head, a); NoLineEnd(line) && Angled(line) == a && VerbOf(line) == VerbOf(head)
  {
    AddressLineIsOne(head, a);
    AddressLineNames(head, a);
    AddressLineVerb(head, a);
  }

  lemma ClientHeads()
    ensures VerbOf(MAIL_FROM) == MailFrom && '<' !in MAIL_FROM && NoLineEnd(MAIL_FROM)
    ensures |MAIL_FROM| >= 4 && |RCPT_TO| >= 4
    ensures VerbOf(RCPT_TO) == RcptTo && '<' !in RCPT_TO && NoLineEnd(RCPT_TO)
    ensures VerbOf(DATA) == Data && NoLineEnd(DATA)
  {
  }

  /**
   * So a client that names a sender and recipients in angle brackets and stuffs its lines has exactly these stored,
   * however its stream is cut.
   */
  lemma MailIsStored(st: State, from: string, to: seq<string>, lines: seq<string>, chunks: seq<string>)
    requires st.Valid() && st.buf == "" && !st.inData
    requires Address(from) && (forall i :: 0 <= i < |to| ==> Address(to[i]))
    requires forall i :: 0 <= i < |lines| ==> NoLineEnd(lines[i])
    requires Concat(chunks) ==
             Text([AddressLine(MAIL_FROM, from)] + RcptLinesFor(to) + [DATA] + StuffedLines(lines) + ["."])
    ensures var r := FeedAll(st, chunks);
      && r.messages == st.messages + [Mail(from, |st.lists|, StoredText(lines))]
      && r.lists == st.lists + [to] && r.buf == "" && !r.inData
  {
    ClientHeads();
    AddressLineHolds(MAIL_FROM, from);
    var rcpts := RcptLinesFor(to);
    forall i | 0 <= i < |to|
      ensures VerbOf(rcpts[i]) == RcptTo && Angled(rcpts[i]) == to[i] && NoLineEnd(rcpts[i])
    {
      AddressLineHolds(RCPT_TO, to[i]);
    }
    TransactionIsStored(st, AddressLine(MAIL_FROM, from), to, rcpts, DATA, lines, chunks);
  }
}
