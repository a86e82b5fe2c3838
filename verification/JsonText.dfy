/**
 JSON as text: how a value is written with no whitespace (what JSON.stringify prints), and a reader for
 that text (RFC 8259). An object is its members in the order written.
 */
module JsonText {
  import opened Bytes
  import opened Escaping

  datatype JValue =
    | JStr(text: Bytes)
    | JNum(text: Bytes)
    | JTrue | JFalse | JNull
    | JArr(items: seq<JValue>)
    | JObj(members: seq<Member>)

  datatype Member = Member(key: Bytes, value: JValue)

  const TRUE: Bytes := [116, 114, 117, 101]
  const FALSE: Bytes := [102, 97, 108, 115, 101]
  const NULL: Bytes := [110, 117, 108, 108]
  const COMMA: Byte := 44
  const COLON: Byte := 58
  const MINUS: Byte := 45

  // ---------------------------------------------------------------- writing

  function Quoted(s: Bytes): Bytes {
    [QUOTE] + JsonEscape(s) + [QUOTE]
  }

  function Separator(first: bool): Bytes {
    if first then [] else [COMMA]
  }

  function ToJson(v: JValue): (r: Bytes)
    decreases v
  {
    match v
    case JStr(s) => Quoted(s)
    case JNum(s) => s
    case JTrue => TRUE
    case JFalse => FALSE
    case JNull => NULL
    case JArr(items) => [91] + ItemsText(items, true) + [93]
    case JObj(members) => [123] + MembersText(members, true) + [125]
  }

  function ItemsText(items: seq<JValue>, first: bool): Bytes
    decreases items
  {
    if items == [] then [] else Separator(first) + ToJson(items[0]) + ItemsText(items[1..], false)
  }

  function MembersText(members: seq<Member>, first: bool): Bytes
    decreases members
  {
    if members == [] then []
    else
      Separator(first) + Quoted(members[0].key) + [COLON] + ToJson(members[0].value) + MembersText(members[1..], false)
  }

  // ---------------------------------------------------------------- reading

  predicate NumByte(b: Byte) {
    48 <= b <= 57 || b == '-' as int || b == 43 || b == 46 || b == 101 || b == 69
  }

  /** Length of the number at the front. */
  function NumLength(text: Bytes): (n: nat)
    ensures n <= |text|
  {
    if text == [] || !NumByte(text[0]) then 0 else 1 + NumLength(text[1..])
  }

  predicate Starts(text: Bytes, word: Bytes) {
    |word| <= |text| && text[..|word|] == word
  }

  function ReadValue(text: Bytes): (r: Option<(JValue, Bytes)>)
    ensures r.Some? ==> |r.value.1| < |text|
    decreases |text|, 1
  {
    if text == [] then None
    else if text[0] == '"' as int then
      match ReadJsonString(text[1..]) case None => None case Some((s, rest)) => Some((JStr(s), rest))
    else if text[0] == 91 then
      if |text| > 1 && text[1] == 93 then Some((JArr([]), text[2..]))
      else match ReadValue(text[1..])
        case None => None
        case Some((v, rest)) =>
          match ReadItems(rest) case None => None case Some((items, end)) => Some((JArr([v] + items), end))
    else if text[0] == 123 then
      if |text| > 1 && text[1] == 125 then Some((JObj([]), text[2..]))
      else match ReadMember(text[1..])
        case None => None
        case Some((m, rest)) =>
          match ReadMembers(rest) case None => None case Some((members, end)) => Some((JObj([m] + members), end))
    else if Starts(text, Ascii("true")) then Some((JTrue, text[4..]))
    else if Starts(text, Ascii("false")) then Some((JFalse, text[5..]))
    else if Starts(text, Ascii("null")) then Some((JNull, text[4..]))
    else if 48 <= text[0] <= 57 || text[0] == '-' as int then
      var n := NumLength(text);
      Some((JNum(text[..n]), text[n..]))
    else None
  }

  function ReadItems(text: Bytes): (r: Option<(seq<JValue>, Bytes)>)
    ensures r.Some? ==> |r.value.1| < |text|
    decreases |text|, 0
  {
    if text == [] then None
    else if text[0] == 93 then Some(([], text[1..]))
    else if text[0] != ',' as int then None
    else match ReadValue(text[1..])
      case None => None
      case Some((v, rest)) =>
        match ReadItems(rest) case None => None case Some((items, end)) => Some(([v] + items, end))
  }

  function ReadMember(text: Bytes): (r: Option<(Member, Bytes)>)
    ensures r.Some? ==> |r.value.1| < |text|
    decreases |text|, 2
  {
    if text == [] || text[0] != '"' as int then None
    else match ReadJsonString(text[1..])
      case None => None
      case Some((key, rest)) =>
        if rest == [] || rest[0] != ':' as int then None
        else match ReadValue(rest[1..]) case None => None case Some((v, end)) => Some((Member(key, v), end))
  }

  function ReadMembers(text: Bytes): (r: Option<(seq<Member>, Bytes)>)
    ensures r.Some? ==> |r.value.1| < |text|
    decreases |text|, 0
  {
    if text == [] then None
    else if text[0] == 125 then Some(([], text[1..]))
    else if text[0] != ',' as int then None
    else match ReadMember(text[1..])
      case None => None
      case Some((m, rest)) =>
        match ReadMembers(rest) case None => None case Some((members, end)) => Some(([m] + members, end))
  }

  // ---------------------------------------------------------------- reading undoes writing

  predicate NumberText(s: Bytes) {
    && |s| > 0 && (48 <= s[0] <= 57 || s[0] == MINUS)
    && forall i :: 0 <= i < |s| ==> NumByte(s[i])
  }

  /** Every number of the value is written as a number. */
  predicate Numbers(v: JValue)
    decreases v
  {
    match v
    case JNum(s) => NumberText(s)
    case JArr(items) => forall i :: 0 <= i < |items| ==> Numbers(items[i])
    case JObj(members) => forall i :: 0 <= i < |members| ==> Numbers(members[i].value)
    case _ => true
  }

  predicate NoMoreDigits(rest: Bytes) {
    rest == [] || !NumByte(rest[0])
  }

  lemma {:induction false} NumberEnds(s: Bytes, rest: Bytes)
    requires forall i :: 0 <= i < |s| ==> NumByte(s[i])
    requires NoMoreDigits(rest)
    ensures NumLength(s + rest) == |s|
  {
    if s == [] {
      assert s + rest == rest;
    } else {
      assert (s + rest)[1..] == s[1..] + rest;
      NumberEnds(s[1..], rest);
    }
  }

  lemma StringReads(s: Bytes, rest: Bytes)
    ensures Quoted(s) + rest != [] && (Quoted(s) + rest)[0] == QUOTE
    ensures ReadJsonString((Quoted(s) + rest)[1..]) == Some((s, rest))
  {
    JsonStringRoundTrip(s, rest);
    assert (Quoted(s) + rest)[1..] == JsonEscape(s) + [QUOTE] + rest;
  }

  // One step of the reader at a time.

  lemma ReadEnd(rest: Bytes)
    ensures ReadItems([93] + rest) == Some(([], rest))
    ensures ReadMembers([125] + rest) == Some(([], rest))
    ensures ReadValue([91, 93] + rest) == Some((JArr([]), rest))
    ensures ReadValue([123, 125] + rest) == Some((JObj([]), rest))
  {
    assert ([93] + rest)[1..] == rest && ([125] + rest)[1..] == rest;
    assert ([91, 93] + rest)[2..] == rest && ([123, 125] + rest)[2..] == rest;
  }

  lemma ReadNextItem(body: Bytes, v: JValue, more: Bytes, items: seq<JValue>, rest: Bytes)
    requires ReadValue(body) == Some((v, more)) && ReadItems(more) == Some((items, rest))
    ensures ReadItems([COMMA] + body) == Some(([v] + items, rest))
    ensures body[0] != 93 ==> ReadValue([91] + body) == Some((JArr([v] + items), rest))
  {
    assert ([COMMA] + body)[1..] == body && ([91] + body)[1..] == body;
    var text := [91] + body;
    assert text[0] == 91 && text[1] == body[0];
    hide ReadItems, ReadMembers, ReadMember;
  }

  lemma ReadNextMember(body: Bytes, m: Member, more: Bytes, members: seq<Member>, rest: Bytes)
    requires ReadMember(body) == Some((m, more)) && ReadMembers(more) == Some((members, rest))
    ensures ReadMembers([COMMA] + body) == Some(([m] + members, rest))
    ensures ReadValue([123] + body) == Some((JObj([m] + members), rest))
  {
    assert ([COMMA] + body)[1..] == body && ([123] + body)[1..] == body;
    var text := [123] + body;
    assert text[0] == 123 && text[1] == body[0] == QUOTE;
  }

  lemma Words()
    ensures Ascii("true") == TRUE && Ascii("false") == FALSE && Ascii("null") == NULL
  {
  }

  lemma ReadWord(rest: Bytes)
    ensures ReadValue(TRUE + rest) == Some((JTrue, rest))
    ensures ReadValue(FALSE + rest) == Some((JFalse, rest))
    ensures ReadValue(NULL + rest) == Some((JNull, rest))
  {
    Words();
    var t, f, n := TRUE + rest, FALSE + rest, NULL + rest;
    assert t[0] == 116 && f[0] == 102 && n[0] == 110;
    assert t[..4] == TRUE && f[..5] == FALSE && n[..4] == NULL;
    assert t[4..] == rest && f[5..] == rest && n[4..] == rest;
    assert TRUE[0] == 116 && FALSE[0] == 102 && NULL[0] == 110;
    assert f[..4][0] == 102 && n[..4][0] == 110 && (|n| >= 5 ==> n[..5][0] == 110);
  }

  lemma ReadString(s: Bytes, rest: Bytes)
    ensures ReadValue(Quoted(s) + rest) == Some((JStr(s), rest))
  {
    hide ReadJsonString, Quoted, ReadItems, ReadMembers, ReadMember;
    StringReads(s, rest);
  }

  lemma NoWord(text: Bytes)
    requires text != [] && text[0] != 116 && text[0] != 102 && text[0] != 110
    ensures !Starts(text, Ascii("true")) && !Starts(text, Ascii("false")) && !Starts(text, Ascii("null"))
  {
    Words();
    assert TRUE[0] == 116 && FALSE[0] == 102 && NULL[0] == 110;
    assert |text| >= 4 ==> text[..4][0] == text[0];
    assert |text| >= 5 ==> text[..5][0] == text[0];
  }

  lemma ReadNumber(s: Bytes, rest: Bytes)
    requires NumberText(s) && NoMoreDigits(rest)
    ensures ReadValue(s + rest) == Some((JNum(s), rest))
  {
    hide Starts, NumLength, NoMoreDigits, ReadItems, ReadMembers, ReadMember, ReadJsonString;
    var text := s + rest;
    NumberEnds(s, rest);
    assert text[0] == s[0] && text[..|s|] == s && text[|s|..] == rest;
    NoWord(text);
  }

  /** How a text begins, and that closing brackets never begin one. */
  lemma ValueStart(v: JValue, rest: Bytes)
    requires Numbers(v)
    ensures ToJson(v) != [] && (ToJson(v) + rest)[0] != 93 && (ToJson(v) + rest)[0] != 125
  {
    assert ToJson(v) != [] && ToJson(v)[0] != 93 && ToJson(v)[0] != 125;
  }

  lemma ItemsStart(items: seq<JValue>, rest: Bytes)
    ensures NoMoreDigits(ItemsText(items, false) + [93] + rest)
  {
    var text := ItemsText(items, false) + [93] + rest;
    assert text[0] == if items == [] then 93 else COMMA;
  }

  lemma MembersStart(members: seq<Member>, rest: Bytes)
    ensures NoMoreDigits(MembersText(members, false) + [125] + rest)
  {
    var text := MembersText(members, false) + [125] + rest;
    assert text[0] == if members == [] then 125 else COMMA;
  }

  lemma MemberReads(m: Member, more: Bytes)
    requires ReadValue(ToJson(m.value) + more) == Some((m.value, more))
    ensures ReadMember(Quoted(m.key) + [COLON] + ToJson(m.value) + more) == Some((m, more))
  {
    hide JsonEscape, ReadJsonString, ReadValue, ToJson, Quoted;
    var tail := [COLON] + ToJson(m.value) + more;
    StringReads(m.key, tail);
    assert Quoted(m.key) + [COLON] + ToJson(m.value) + more == Quoted(m.key) + tail;
    assert tail[1..] == ToJson(m.value) + more;
  }

  lemma {:induction false} ValueReads(v: JValue, rest: Bytes)
    requires Numbers(v) && NoMoreDigits(rest)
    ensures ReadValue(ToJson(v) + rest) == Some((v, rest))
    decreases v
  {
    hide ReadValue, ReadItems, ReadMembers, ReadMember, Quoted, NoMoreDigits, NumberText, ItemsText, MembersText, TRUE,
      FALSE, NULL;
    match v
    case JStr(s) => ReadString(s, rest);
    case JNum(s) => ReadNumber(s, rest);
    case JArr(items) => ArrayReads(items, rest);
    case JObj(members) => ObjectReads(members, rest);
    case _ => ReadWord(rest);
  }

  lemma {:induction false} ArrayReads(items: seq<JValue>, rest: Bytes)
    requires forall i :: 0 <= i < |items| ==> Numbers(items[i])
    ensures ReadValue([91] + ItemsText(items, true) + [93] + rest) == Some((JArr(items), rest))
    decreases items, 1
  {
    hide ReadValue, ReadItems, ReadMembers, ReadMember, ToJson, NoMoreDigits, Numbers;
    if items == [] {
      ReadEnd(rest);
      assert [91] + ItemsText(items, true) + [93] + rest == [91, 93] + rest;
    } else {
      var more := ItemsText(items[1..], false) + [93] + rest;
      var body := ToJson(items[0]) + more;
      ItemsStart(items[1..], rest);
      ValueStart(items[0], more);
      ValueReads(items[0], more);
      ItemsRead(items[1..], rest);
      ReadNextItem(body, items[0], more, items[1..], rest);
      assert [91] + ItemsText(items, true) + [93] + rest == [91] + body;
      assert [items[0]] + items[1..] == items;
    }
  }

  lemma {:induction false} ItemsRead(items: seq<JValue>, rest: Bytes)
    requires forall i :: 0 <= i < |items| ==> Numbers(items[i])
    ensures ReadItems(ItemsText(items, false) + [93] + rest) == Some((items, rest))
    decreases items, 0
  {
    hide ReadValue, ReadItems, ReadMembers, ReadMember, ToJson, NoMoreDigits, Numbers;
    if items == [] {
      ReadEnd(rest);
      assert ItemsText(items, false) + [93] + rest == [93] + rest;
    } else {
      var more := ItemsText(items[1..], false) + [93] + rest;
      var body := ToJson(items[0]) + more;
      ItemsStart(items[1..], rest);
      ValueReads(items[0], more);
      ItemsRead(items[1..], rest);
      ReadNextItem(body, items[0], more, items[1..], rest);
      assert ItemsText(items, false) + [93] + rest == [COMMA] + body;
      assert [items[0]] + items[1..] == items;
    }
  }

  lemma {:induction false} ObjectReads(members: seq<Member>, rest: Bytes)
    requires forall i :: 0 <= i < |members| ==> Numbers(members[i].value)
    ensures ReadValue([123] + MembersText(members, true) + [125] + rest) == Some((JObj(members), rest))
    decreases members, 1
  {
    hide ReadValue, ReadItems, ReadMembers, ReadMember, ToJson, NoMoreDigits, Numbers, Quoted;
    if members == [] {
      ReadEnd(rest);
      assert [123] + MembersText(members, true) + [125] + rest == [123, 125] + rest;
    } else {
      var m, more := members[0], MembersText(members[1..], false) + [125] + rest;
      var body := Quoted(m.key) + [COLON] + ToJson(m.value) + more;
      MembersStart(members[1..], rest);
      ValueReads(m.value, more);
      MemberReads(m, more);
      MembersRead(members[1..], rest);
      ReadNextMember(body, m, more, members[1..], rest);
      assert [123] + MembersText(members, true) + [125] + rest == [123] + body;
      assert [members[0]] + members[1..] == members;
    }
  }

  lemma {:induction false} MembersRead(members: seq<Member>, rest: Bytes)
    requires forall i :: 0 <= i < |members| ==> Numbers(members[i].value)
    ensures ReadMembers(MembersText(members, false) + [125] + rest) == Some((members, rest))
    decreases members, 0
  {
    hide ReadValue, ReadItems, ReadMembers, ReadMember, ToJson, NoMoreDigits, Numbers, Quoted;
    if members == [] {
      ReadEnd(rest);
      assert MembersText(members, false) + [125] + rest == [125] + rest;
    } else {
      var m, more := members[0], MembersText(members[1..], false) + [125] + rest;
      var body := Quoted(m.key) + [COLON] + ToJson(m.value) + more;
      MembersStart(members[1..], rest);
      ValueReads(m.value, more);
      MemberReads(m, more);
      MembersRead(members[1..], rest);
      ReadNextMember(body, m, more, members[1..], rest);
      assert MembersText(members, false) + [125] + rest == [COMMA] + body;
      assert [members[0]] + members[1..] == members;
    }
  }

  /** A reader recovers every value from its text. */
  lemma JsonRoundTrip(v: JValue)
    requires Numbers(v)
    ensures ReadValue(ToJson(v)) == Some((v, []))
  {
    ValueReads(v, []);
    assert ToJson(v) + [] == ToJson(v);
  }
}
