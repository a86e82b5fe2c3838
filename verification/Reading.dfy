/**
 A response as whoever asked for it sees it: status, headers by name, body. Headers that frame the message
 are not among them; those an author can set are.
 */
module Reading {
  import opened Bytes
  import opened Pipeline
  import opened Decimal
  import opened Wire
  import opened Replies
  import opened Handlers

  /** Header names and values in the order written. */
  type Fields = seq<(Bytes, Bytes)>

  /** `headers` is by lower-case name. */
  datatype Reply = Reply(status: nat, headers: map<Bytes, Bytes>, body: Bytes)

  const BLANK: Byte := 32
  const NAME_END: Byte := 58
  const LENGTH_NAME: Bytes := Ascii("content-length")
  const CONNECTION_NAME: Bytes := Ascii("connection")

  // ---------------------------------------------------------------- headers by name

  /** The value of a header: all its lines, joined (section 5.3 of RFC 9110). */
  function Joined(h: Fields, name: Bytes): Option<Bytes> {
    if h == [] then None
    else
      var rest := Joined(h[1..], name);
      if Lower(h[0].0) != name then rest
      else match rest case None => Some(h[0].1) case Some(more) => Some(h[0].1 + [44, BLANK] + more)
  }

  function Names(h: Fields): set<Bytes> {
    set i | 0 <= i < |h| :: Lower(h[i].0)
  }

  function Combined(h: Fields): map<Bytes, Bytes> {
    map n | n in Names(h) :: match Joined(h, n) case Some(v) => v case None => []
  }

  // ---------------------------------------------------------------- reading

  /** The lines of a head, and what is behind it; none without a blank line. */
  function HeadLines(text: Bytes): (r: Option<(seq<Bytes>, Bytes)>)
    decreases |text|
  {
    match FirstCrlf(text, 0)
    case None => None
    case Some(p) =>
      if p == 0 then Some(([], text[2..]))
      else match HeadLines(text[p + 2..])
        case None => None
        case Some((lines, body)) => Some(([text[..p]] + lines, body))
  }

  /** Name and value of a header line; the value starts behind the colon and a blank. */
  function ReadField(line: Bytes): (Bytes, Bytes) {
    match FirstByte(NAME_END, line, 0)
    case None => (line, [])
    case Some(p) => (line[..p], if p + 2 <= |line| then line[p + 2..] else [])
  }

  /** The status in a status line: the digits between its first two blanks. */
  function ReadStatus(line: Bytes): Option<nat> {
    match FirstByte(BLANK, line, 0)
    case None => None
    case Some(p) =>
      var rest := line[p + 1..];
      match FirstByte(BLANK, rest, 0)
      case None => None
      case Some(q) => if IsDigits(rest[..q]) then Some(Value(rest[..q])) else None
  }

  /** The header a line holds, unless it frames the message. */
  function FieldIn(line: Bytes): Fields {
    var f := ReadField(line);
    if Lower(f.0) == LENGTH_NAME || Lower(f.0) == CONNECTION_NAME then [] else [f]
  }

  function ReadFields(lines: seq<Bytes>): Fields {
    if lines == [] then [] else FieldIn(lines[0]) + ReadFields(lines[1..])
  }

  /** What a client makes of a response. */
  function ReadReply(response: Bytes): Option<Reply> {
    match HeadLines(response)
    case None => None
    case Some((lines, body)) =>
      if lines == [] then None
      else match ReadStatus(lines[0])
        case None => None
        case Some(status) => Some(Reply(status, Combined(ReadFields(lines[1..])), body))
  }

  // ---------------------------------------------------------------- reading undoes writing

  lemma {:induction false} HeadReads(lines: seq<Bytes>, body: Bytes)
    requires AllLines(lines)
    ensures HeadLines(Head(lines) + body) == Some((lines, body))
  {
    var text := Head(lines) + body;
    if lines == [] {
      assert text[0] == CR && text[1] == LF && text[2..] == body;
    } else {
      var line, tail := lines[0], Head(lines[1..]) + body;
      assert LineText(line);
      FirstCrlfOfLine(line, tail, 0);
      assert text == line + CRLF + tail;
      assert text[..|line|] == line && text[|line| + 2..] == tail;
      HeadReads(lines[1..], body);
      assert [line] + lines[1..] == lines;
    }
  }

  lemma FirstByteAfter(needle: Byte, front: Bytes, rest: Bytes)
    requires needle !in front
    ensures FirstByte(needle, front + [needle] + rest, 0) == Some(|front|)
  {
    var text := front + [needle] + rest;
    assert text[|front|] == needle;
    forall p | 0 <= p < |front| ensures text[p] != needle { assert text[p] == front[p]; }
  }

  lemma FieldReads(name: Bytes, value: Bytes)
    requires NAME_END !in name
    ensures ReadField(name + [NAME_END, BLANK] + value) == (name, value)
  {
    var line := name + [NAME_END, BLANK] + value;
    FirstByteAfter(NAME_END, name, [BLANK] + value);
    assert line == name + [NAME_END] + ([BLANK] + value);
    assert line[..|name|] == name && line[|name| + 2..] == value;
  }

  lemma StatusReads(version: Bytes, status: nat, reason: Bytes)
    requires BLANK !in version
    ensures ReadStatus(version + [BLANK] + Digits(status) + [BLANK] + reason) == Some(status)
  {
    hide Digits;
    var digits := Digits(status);
    var line := version + [BLANK] + digits + [BLANK] + reason;
    DigitsRoundTrip(status);
    assert BLANK !in digits;
    FirstByteAfter(BLANK, version, digits + [BLANK] + reason);
    FirstByteAfter(BLANK, digits, reason);
    assert line == version + [BLANK] + (digits + [BLANK] + reason);
    var rest := digits + [BLANK] + reason;
    assert line[|version| + 1..] == rest && rest[..|digits|] == digits;
  }

  // ---------------------------------------------------------------- lines that frame the message

  lemma FramingNames()
    ensures ReadField(KEEP_ALIVE).0 == Ascii("Connection") && Lower(Ascii("Connection")) == CONNECTION_NAME
    ensures forall n :: ReadField(CONTENT_LENGTH + Digits(n)).0 == Ascii("Content-Length")
    ensures Lower(Ascii("Content-Length")) == LENGTH_NAME
    ensures ReadField(CONNECTION_CLOSE).0 == Ascii("Connection")
  {
    KeepAliveName();
    LengthName();
    LowerFramingNames();
  }

  lemma LowerFramingNames()
    ensures Lower(Ascii("Connection")) == CONNECTION_NAME && Lower(Ascii("Content-Length")) == LENGTH_NAME
  {
  }

  lemma KeepAliveName()
    ensures ReadField(KEEP_ALIVE).0 == Ascii("Connection") && ReadField(CONNECTION_CLOSE).0 == Ascii("Connection")
  {
    var name := Ascii("Connection");
    assert KEEP_ALIVE == name + [NAME_END, BLANK] + Ascii("keep-alive")
      && CONNECTION_CLOSE == name + [NAME_END, BLANK] + Ascii("close");
    assert NAME_END !in name;
    FieldReads(name, Ascii("keep-alive"));
    FieldReads(name, Ascii("close"));
  }

  lemma LengthName()
    ensures forall n :: ReadField(CONTENT_LENGTH + Digits(n)).0 == Ascii("Content-Length")
  {
    var name := Ascii("Content-Length");
    assert CONTENT_LENGTH == name + [NAME_END, BLANK] && NAME_END !in name;
    hide Digits, ReadField;
    forall n ensures ReadField(CONTENT_LENGTH + Digits(n)).0 == name { FieldReads(name, Digits(n)); }
  }

  lemma {:induction false} FieldsAppend(a: seq<Bytes>, b: seq<Bytes>)
    ensures ReadFields(a + b) == ReadFields(a) + ReadFields(b)
  {
    hide FieldIn;
    if a == [] {
      assert a + b == b;
    } else {
      FieldsAppend(a[1..], b);
      assert (a + b)[1..] == a[1..] + b;
    }
  }

  /** Lines that frame the message are passed over. */
  lemma FramingPassed(length: nat)
    ensures ReadFields([CONTENT_LENGTH + Digits(length)]) == [] && ReadFields([KEEP_ALIVE]) == []
    ensures ReadFields([CONNECTION_CLOSE]) == [] && ReadFields([]) == []
  {
    FramingNames();
    hide Ascii, Digits, ReadField, Lower, KEEP_ALIVE, CONTENT_LENGTH, CONNECTION_CLOSE, LENGTH_NAME, CONNECTION_NAME;
    var none: seq<Bytes> := [];
    assert [CONTENT_LENGTH + Digits(length)][1..] == none && [KEEP_ALIVE][1..] == none
      && [CONNECTION_CLOSE][1..] == none;
  }

  /** Any other line is read as name and value. */
  lemma FieldKept(line: Bytes, name: Bytes, value: Bytes)
    requires line == name + [NAME_END, BLANK] + value && NAME_END !in name
    requires Lower(name) != LENGTH_NAME && Lower(name) != CONNECTION_NAME
    ensures ReadFields([line]) == [(name, value)]
  {
    FieldReads(name, value);
    hide Lower, ReadField, LENGTH_NAME, CONNECTION_NAME;
    var none: seq<Bytes> := [];
    assert [line][1..] == none && ReadFields(none) == [];
  }

  lemma CombinedTwo(a: (Bytes, Bytes), b: (Bytes, Bytes))
    requires Lower(a.0) != Lower(b.0)
    ensures Combined([a, b]) == map[Lower(a.0) := a.1, Lower(b.0) := b.1]
  {
    hide Lower;
    var h, none: Fields := [a, b], [];
    assert h[1..] == [b] && [b][1..] == none;
    assert Joined(none, Lower(a.0)) == None && Joined(none, Lower(b.0)) == None;
    assert h[0] == a && h[1] == b;
    assert Lower(h[0].0) in Names(h) && Lower(h[1].0) in Names(h);
    assert Names(h) == {Lower(a.0), Lower(b.0)};
    assert Joined([b], Lower(a.0)) == None && Joined([b], Lower(b.0)) == Some(b.1);
  }
}
