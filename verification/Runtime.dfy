/**
 What a return expression answers when TypeScript runs it (src/ctx.ts), against what its compiled form
 answers: status, headers and body, and exactly when they are the same.
 */
module Runtime {
  import opened Bytes
  import opened Decimal
  import opened Wire
  import opened Replies
  import opened Escaping
  import opened JsonText
  import opened JsValues
  import opened Handlers
  import opened JsonLowering
  import opened Stringify
  import opened Emission
  import opened Chains
  import opened Reading

  const TYPE_NAME: Bytes := Ascii("Content-Type")
  const LOCATION_NAME: Bytes := Ascii("Location")
  const LOCATION: Bytes := Ascii("location")
  const PLAIN: Bytes := Ascii("text/plain")

  // ---------------------------------------------------------------- pending headers

  /** Assigning a property of a record: an existing one keeps its place. */
  function Put(h: Fields, key: Bytes, value: Bytes): Fields {
    if h == [] then [(key, value)]
    else if h[0].0 == key then [(key, value)] + h[1..]
    else [h[0]] + Put(h[1..], key, value)
  }

  function PutAll(h: Fields, pairs: Fields): Fields
    decreases |pairs|
  {
    if pairs == [] then h else PutAll(Put(h, pairs[0].0, pairs[0].1), pairs[1..])
  }

  /** The headers a list of properties sets; the compiler sees the constant ones only. */
  function FieldsOf(env: Env, req: Request, props: seq<Prop>): Fields {
    if props == [] then []
    else
      (match props[0]
       case Assign(Some(key), Text(value)) => [(key, value)]
       case _ => env.fields(req, props[0])) + FieldsOf(env, req, props[1..])
  }

  /** The pending headers once the links have run, innermost first. */
  function Pending(env: Env, req: Request, links: seq<Link>): Fields {
    if links == [] then []
    else match links[0]
      case SetStatus(_) => Pending(env, req, links[1..])
      case SetHeaders(props) => PutAll(Pending(env, req, links[1..]), FieldsOf(env, req, props))
  }

  /** The content type a builder sets by itself. */
  function UsualType(b: Builder): Bytes {
    match b
    case Json => APPLICATION_JSON
    case Html => TEXT_HTML
    case NoContent => PLAIN
    case _ => TEXT_PLAIN
  }

  function RedirectTarget(args: seq<Expr>): Bytes {
    if args != [] && (args[0].Text? || args[0].Backtick?) then args[0].text else []
  }

  /** The headers TypeScript answers with: the pending ones, and the builder's own in their place or behind. */
  function RuntimeFields(env: Env, req: Request, b: Builder, links: seq<Link>, args: seq<Expr>): Fields {
    var h := Pending(env, req, links);
    match b
    case NoContent => h
    case Redirect => Put(h, LOCATION_NAME, RedirectTarget(args))
    case _ => Put(h, TYPE_NAME, UsualType(b))
  }

  /** The builder hands the response a body, be it an empty text. */
  predicate HandsBody(b: Builder, args: seq<Expr>) {
    b != NoContent && b != Redirect && (args != [] || b == NotFoundBuilder)
  }

  const RESET_CONTENT: nat := 205

  /** The reply of a return expression; none where the response constructor throws. */
  function RuntimeReply(env: Env, req: Request, b: Builder, links: seq<Link>, args: seq<Expr>): Option<Reply> {
    match (IntendedBody(req, b, args), RuntimeStatus(env, req, b, links, args))
    case (Some(body), Some(status)) =>
      if status == RESET_CONTENT && HandsBody(b, args) then None
      else Some(Reply(status, Combined(RuntimeFields(env, req, b, links, args)), if Bodyless(status) then [] else body))
    case _ => None
  }

  // ---------------------------------------------------------------- facts about records

  function Keys(h: Fields): set<Bytes> {
    if h == [] then {} else {h[0].0} + Keys(h[1..])
  }

  predicate Distinct(h: Fields) {
    h == [] || (h[0].0 !in Keys(h[1..]) && Distinct(h[1..]))
  }

  /** Every header is spelled this way. */
  predicate AllSpelled(h: Fields, key: Bytes) {
    forall i :: 0 <= i < |h| ==> h[i].0 == key
  }

  /** Every header has this name, however it is spelled. */
  predicate AllNamed(h: Fields, name: Bytes) {
    forall i :: 0 <= i < |h| ==> Lower(h[i].0) == name
  }

  lemma {:induction false} PutDistinct(h: Fields, key: Bytes, value: Bytes)
    requires Distinct(h)
    ensures Distinct(Put(h, key, value)) && Keys(Put(h, key, value)) == Keys(h) + {key}
  {
    if h != [] && h[0].0 != key { PutDistinct(h[1..], key, value); }
  }

  lemma {:induction false} PutAllDistinct(h: Fields, pairs: Fields)
    requires Distinct(h)
    ensures Distinct(PutAll(h, pairs))
    decreases |pairs|
  {
    if pairs != [] {
      PutDistinct(h, pairs[0].0, pairs[0].1);
      PutAllDistinct(Put(h, pairs[0].0, pairs[0].1), pairs[1..]);
    }
  }

  lemma {:induction false} PendingDistinct(env: Env, req: Request, links: seq<Link>)
    ensures Distinct(Pending(env, req, links))
  {
    if links != [] {
      PendingDistinct(env, req, links[1..]);
      if links[0].SetHeaders? { PutAllDistinct(Pending(env, req, links[1..]), FieldsOf(env, req, links[0].props)); }
    }
  }

  function Values(h: Fields): seq<Bytes> {
    if h == [] then [] else [h[0].1] + Values(h[1..])
  }

  /** Values on one line. */
  function Listed(values: seq<Bytes>): Bytes {
    if values == [] then []
    else if |values| == 1 then values[0]
    else values[0] + [44, BLANK] + Listed(values[1..])
  }

  /** Headers that are all of one name read as the list of their values. */
  lemma {:induction false} JoinedIsListed(h: Fields, name: Bytes)
    requires AllNamed(h, name) && h != []
    ensures Joined(h, name) == Some(Listed(Values(h))) && |Values(h)| == |h|
  {
    if |h| > 1 {
      assert AllNamed(h[1..], name);
      JoinedIsListed(h[1..], name);
      assert Values(h)[1..] == Values(h[1..]);
    } else {
      assert h[1..] == [];
    }
  }

  /** A list of two values or more is longer than each of them. */
  lemma {:induction false} ListedGrows(values: seq<Bytes>, i: nat)
    requires i < |values|
    ensures |Listed(values)| >= |values[i]| && (|values| > 1 ==> |Listed(values)| > |values[i]|)
  {
    if |values| > 1 {
      ListedGrows(values[1..], if i > 0 then i - 1 else 0);
    }
  }

  lemma {:induction false} JoinedSome(h: Fields, name: Bytes)
    requires AllNamed(h, name) && h != []
    ensures Joined(h, name).Some? && |Joined(h, name).value| >= |h[0].1|
    ensures |h| > 1 ==> |Joined(h, name).value| > |h[0].1|
  {
    if |h| > 1 {
      assert AllNamed(h[1..], name);
      JoinedSome(h[1..], name);
    } else {
      assert h[1..] == [];
    }
  }

  /** With a header of its own, a builder's value is joined with every other spelling of its name. */
  lemma {:induction false} PutJoined(h: Fields, key: Bytes, value: Bytes)
    requires AllNamed(h, Lower(key))
    ensures Joined(Put(h, key, value), Lower(key)).Some?
    ensures |Joined(Put(h, key, value), Lower(key)).value| >= |value|
    ensures !AllSpelled(h, key) ==> |Joined(Put(h, key, value), Lower(key)).value| > |value|
  {
    hide Lower;
    var name := Lower(key);
    if h == [] {
      assert [(key, value)][1..] == [];
    } else if h[0].0 == key {
      var all := [(key, value)] + h[1..];
      assert forall i :: 0 <= i < |all| ==> Lower(all[i].0) == name;
      JoinedSome(all, name);
      if !AllSpelled(h, key) { assert |h| > 1; }
    } else {
      assert AllNamed(h[1..], name);
      PutJoined(h[1..], key, value);
      var all := [h[0]] + Put(h[1..], key, value);
      assert all[1..] == Put(h[1..], key, value) && Lower(all[0].0) == name;
    }
  }

  lemma SpelledIsReplaced(h: Fields, key: Bytes, value: Bytes)
    requires Distinct(h) && AllSpelled(h, key)
    ensures Put(h, key, value) == [(key, value)] && |h| <= 1
    ensures Joined(Put(h, key, value), Lower(key)) == Some(value)
  {
    assert [(key, value)][1..] == [];
  }

  lemma {:induction false} PutNamed(h: Fields, key: Bytes, value: Bytes)
    ensures Put(h, key, value) != []
    ensures AllNamed(Put(h, key, value), Lower(key)) <==> AllNamed(h, Lower(key))
  {
    hide Lower;
    if h == [] {
    } else if h[0].0 == key {
      assert forall i :: 0 < i < |h| ==> ([(key, value)] + h[1..])[i] == h[i];
    } else {
      PutNamed(h[1..], key, value);
      var all := [h[0]] + Put(h[1..], key, value);
      assert AllNamed(all, Lower(key)) <==> Lower(h[0].0) == Lower(key) && AllNamed(all[1..], Lower(key)) by {
        NamedCons(all, Lower(key));
      }
      assert AllNamed(h, Lower(key)) <==> Lower(h[0].0) == Lower(key) && AllNamed(h[1..], Lower(key)) by {
        NamedCons(h, Lower(key));
      }
    }
  }

  lemma NamedCons(h: Fields, name: Bytes)
    requires h != []
    ensures AllNamed(h, name) <==> Lower(h[0].0) == name && AllNamed(h[1..], name)
  {
    hide Lower;
    if Lower(h[0].0) == name && AllNamed(h[1..], name) {
      forall i | 0 <= i < |h| ensures Lower(h[i].0) == name { if i > 0 { assert h[i] == h[1..][i - 1]; } }
    }
    if AllNamed(h, name) {
      forall i | 0 <= i < |h[1..]| ensures Lower(h[1..][i].0) == name { assert h[1..][i] == h[i + 1]; }
    }
  }

  /** One header and no other. */
  lemma CombinedSingle(h: Fields, name: Bytes, value: Bytes)
    ensures Combined(h) == map[name := value] <==> h != [] && AllNamed(h, name) && Joined(h, name) == Some(value)
  {
    hide Lower, Joined;
    if Combined(h) == map[name := value] {
      assert Combined(h).Keys == {name} == Names(h);
      forall i | 0 <= i < |h| ensures Lower(h[i].0) == name { assert Lower(h[i].0) in Names(h); }
      assert name in Names(h);
      JoinedSome(h, name);
      assert Combined(h)[name] == value;
    }
    if h != [] && AllNamed(h, name) && Joined(h, name) == Some(value) {
      assert Lower(h[0].0) in Names(h);
      assert Names(h) == {name};
      assert Combined(h).Keys == {name};
    }
  }

  // ---------------------------------------------------------------- headers kept

  /**
   Where both answer with the same headers. The compiled reply has just its builder's own one, so no other may
   be pending. A content type set under the builder's own spelling is replaced by its own in TypeScript; under
   other spellings it is listed beside it, which the compiler meets only when the value it kept was that list
   already. noContent has no header of its own in TypeScript.
   */
  predicate HeadersKept(env: Env, req: Request, b: Builder, links: seq<Link>, args: seq<Expr>) {
    var h, kept := Pending(env, req, links), InnermostContentType(links);
    match b
    case NoContent => |h| == 1 && Lower(h[0].0) == CONTENT_TYPE && h[0].1 == PLAIN
    case Redirect => AllSpelled(h, LOCATION_NAME)
    case NotFoundBuilder => AllSpelled(h, TYPE_NAME)
    case _ =>
      && !FakeRedirect(b, kept, args)
      && if AllSpelled(h, TYPE_NAME) then kept.None? || kept == Some(UsualType(b))
         else AllNamed(h, CONTENT_TYPE) && kept == Some(Listed(Values(Put(h, TYPE_NAME, UsualType(b)))))
  }

  /** The headers of the compiled reply. */
  function CompiledHeaders(b: Builder, links: seq<Link>, args: seq<Expr>): map<Bytes, Bytes> {
    match b
    case Redirect => map[LOCATION := RedirectTarget(args)]
    case NoContent => map[CONTENT_TYPE := PLAIN]
    case NotFoundBuilder => map[CONTENT_TYPE := TEXT_PLAIN]
    case _ =>
      if FakeRedirect(b, InnermostContentType(links), args)
        then map[LOCATION := InnermostContentType(links).value[|REDIRECT|..]]
      else map[CONTENT_TYPE := Chosen(InnermostContentType(links), UsualType(b))]
  }

  lemma LowerNames()
    ensures Lower(TYPE_NAME) == CONTENT_TYPE && Lower(LOCATION_NAME) == LOCATION
  {
  }

  lemma HeadersExact(env: Env, req: Request, b: Builder, links: seq<Link>, args: seq<Expr>)
    ensures Combined(RuntimeFields(env, req, b, links, args)) == CompiledHeaders(b, links, args) <==>
              HeadersKept(env, req, b, links, args)
  {
    LowerNames();
    HeaderNames();
    hide Lower, Ascii, Joined, Combined, TYPE_NAME, LOCATION_NAME, CONTENT_TYPE, LOCATION, PLAIN, TEXT_PLAIN, TEXT_HTML,
      APPLICATION_JSON, RedirectTarget, StaticBody, Listed, Values, LENGTH_NAME, CONNECTION_NAME, REDIRECT;
    var h, kept := Pending(env, req, links), InnermostContentType(links);
    PendingDistinct(env, req, links);
    match b
    case NoContent => OnePlain(h);
    case Redirect => OwnHeader(h, LOCATION_NAME, RedirectTarget(args), RedirectTarget(args));
    case NotFoundBuilder => OwnHeader(h, TYPE_NAME, TEXT_PLAIN, TEXT_PLAIN);
    case _ =>
      var own := Put(h, TYPE_NAME, UsualType(b));
      OwnHeader(h, TYPE_NAME, UsualType(b), Chosen(kept, UsualType(b)));
      PutNamed(h, TYPE_NAME, UsualType(b));
      if AllNamed(h, CONTENT_TYPE) { JoinedIsListed(own, CONTENT_TYPE); PutJoined(h, TYPE_NAME, UsualType(b)); }
      if FakeRedirect(b, kept, args) { NotLocation(h, UsualType(b), kept.value[|REDIRECT|..]); }
  }

  /** TypeScript's headers hold a content type. */
  lemma NotLocation(h: Fields, own: Bytes, url: Bytes)
    ensures Combined(Put(h, TYPE_NAME, own)) != map[LOCATION := url]
  {
    LowerNames();
    HeaderNames();
    hide Lower, TYPE_NAME, CONTENT_TYPE, LOCATION, Joined;
    PutHolds(h, TYPE_NAME, own);
    var i :| 0 <= i < |Put(h, TYPE_NAME, own)| && Put(h, TYPE_NAME, own)[i].0 == TYPE_NAME;
    assert CONTENT_TYPE in Names(Put(h, TYPE_NAME, own));
    assert CONTENT_TYPE in Combined(Put(h, TYPE_NAME, own));
  }

  lemma {:induction false} PutHolds(h: Fields, key: Bytes, value: Bytes)
    ensures exists i :: 0 <= i < |Put(h, key, value)| && Put(h, key, value)[i].0 == key
  {
    if h == [] || h[0].0 == key {
      assert Put(h, key, value)[0].0 == key;
    } else {
      PutHolds(h[1..], key, value);
      var i :| 0 <= i < |Put(h[1..], key, value)| && Put(h[1..], key, value)[i].0 == key;
      assert Put(h, key, value)[i + 1].0 == key;
    }
  }

  /** Only one header reads as `text/plain`, which is no list. */
  lemma OnePlain(h: Fields)
    ensures Combined(h) == map[CONTENT_TYPE := PLAIN] <==> |h| == 1 && Lower(h[0].0) == CONTENT_TYPE && h[0].1 == PLAIN
  {
    NoComma();
    hide Lower, CONTENT_TYPE, PLAIN, Combined;
    CombinedSingle(h, CONTENT_TYPE, PLAIN);
    if h != [] && AllNamed(h, CONTENT_TYPE) {
      JoinedIsListed(h, CONTENT_TYPE);
      if |h| > 1 {
        assert Listed(Values(h)) == Values(h)[0] + [44, BLANK] + Listed(Values(h)[1..]);
        assert Listed(Values(h))[|Values(h)[0]|] == 44;
      } else {
        assert h[1..] == [];
      }
    }
  }

  lemma NoComma()
    ensures 44 !in PLAIN
  {
  }

  /** The list can only be kept if a later call of the same spelling has replaced the value it was kept from. */
  lemma KeptWasReplaced(env: Env, req: Request, b: Builder, links: seq<Link>, args: seq<Expr>)
    requires b == Json || b == Html || b == TextBuilder
    requires HeadersKept(env, req, b, links, args) && !AllSpelled(Pending(env, req, links), TYPE_NAME)
    ensures InnermostContentType(links).Some? && InnermostContentType(links).value != UsualType(b)
    ensures forall i :: 0 <= i < |Pending(env, req, links)| && Pending(env, req, links)[i].0 != TYPE_NAME ==>
              Pending(env, req, links)[i].1 != InnermostContentType(links).value
  {
    LowerNames();
    hide Lower, TYPE_NAME, CONTENT_TYPE, Listed, FakeRedirect;
    var h, own := Pending(env, req, links), UsualType(b);
    PutNamed(h, TYPE_NAME, own);
    PutJoined(h, TYPE_NAME, own);
    JoinedIsListed(Put(h, TYPE_NAME, own), CONTENT_TYPE);
    forall i | 0 <= i < |h| && h[i].0 != TYPE_NAME ensures h[i].1 != InnermostContentType(links).value {
      var j := PutKeeps(h, TYPE_NAME, own, i);
      ListedGrows(Values(Put(h, TYPE_NAME, own)), j);
    }
  }

  /** Another header keeps its value, and is not alone. */
  lemma {:induction false} PutKeeps(h: Fields, key: Bytes, value: Bytes, i: nat) returns (j: nat)
    requires i < |h| && h[i].0 != key
    ensures |Values(Put(h, key, value))| > 1 && j < |Values(Put(h, key, value))|
            && Values(Put(h, key, value))[j] == h[i].1
  {
    ValuesLength(Put(h, key, value));
    PutLength(h, key, value);
    j := i;
    PutSame(h, key, value, i);
    ValuesAt(Put(h, key, value), i);
    if |h| == 1 { assert h[0].0 != key; }
  }

  lemma {:induction false} ValuesLength(h: Fields)
    ensures |Values(h)| == |h|
  {
    if h != [] { ValuesLength(h[1..]); }
  }

  lemma {:induction false} ValuesAt(h: Fields, i: nat)
    requires i < |h|
    ensures i < |Values(h)| && Values(h)[i] == h[i].1
  {
    if i > 0 { ValuesAt(h[1..], i - 1); }
  }

  lemma {:induction false} PutLength(h: Fields, key: Bytes, value: Bytes)
    ensures |Put(h, key, value)| >= |h| && (AllOther(h, key) ==> |Put(h, key, value)| > |h|)
  {
    if h != [] && h[0].0 != key { PutLength(h[1..], key, value); }
  }

  predicate AllOther(h: Fields, key: Bytes) {
    forall i :: 0 <= i < |h| ==> h[i].0 != key
  }

  lemma {:induction false} PutSame(h: Fields, key: Bytes, value: Bytes, i: nat)
    requires i < |h| && h[i].0 != key
    ensures i < |Put(h, key, value)| && Put(h, key, value)[i] == h[i]
  {
    if h[0].0 != key && i > 0 { PutSame(h[1..], key, value, i - 1); }
  }

  /** A builder's own header among the pending ones, against one value for it. */
  lemma OwnHeader(h: Fields, key: Bytes, own: Bytes, value: Bytes)
    requires Distinct(h)
    ensures Combined(Put(h, key, own)) == map[Lower(key) := value] <==>
              if AllSpelled(h, key) then value == own
              else AllNamed(h, Lower(key)) && Some(value) == Joined(Put(h, key, own), Lower(key))
    ensures value == own && !AllSpelled(h, key) ==> Combined(Put(h, key, own)) != map[Lower(key) := value]
  {
    hide Lower, Joined, Combined, Put, Distinct;
    CombinedSingle(Put(h, key, own), Lower(key), value);
    PutNamed(h, key, own);
    if AllSpelled(h, key) { SpelledIsReplaced(h, key, own); }
    if AllNamed(h, Lower(key)) { PutJoined(h, key, own); }
  }

  /** One constant header. */
  function OneHeader(key: Bytes, value: Bytes): seq<Link> {
    [SetHeaders([Assign(Some(key), Text(value))])]
  }

  /** A content type set for json, any header besides, and noContent by itself each change the headers. */
  lemma HeadersLost(env: Env, req: Request, args: seq<Expr>, value: Bytes)
    requires value != APPLICATION_JSON
    ensures var links := OneHeader(TYPE_NAME, value);
            Combined(RuntimeFields(env, req, Json, links, args)) != CompiledHeaders(Json, links, args)
    ensures var links := OneHeader(LOCATION_NAME, value);
            Combined(RuntimeFields(env, req, Json, links, args)) != CompiledHeaders(Json, links, args)
    ensures Combined(RuntimeFields(env, req, NoContent, [], args)) != CompiledHeaders(NoContent, [], args)
  {
    LowerNames();
    HeaderNames();
    hide Ascii, Lower, Combined, Joined, TYPE_NAME, LOCATION_NAME, CONTENT_TYPE, LOCATION, APPLICATION_JSON, OneHeader,
      FakeRedirect;
    PendingOne(env, req, TYPE_NAME, value);
    PendingOne(env, req, LOCATION_NAME, value);
    HeadersExact(env, req, Json, OneHeader(TYPE_NAME, value), args);
    HeadersExact(env, req, Json, OneHeader(LOCATION_NAME, value), args);
    HeadersExact(env, req, NoContent, [], args);
  }

  lemma PendingOne(env: Env, req: Request, key: Bytes, value: Bytes)
    ensures Pending(env, req, OneHeader(key, value)) == [(key, value)]
    ensures InnermostContentType(OneHeader(key, value)) == if Lower(key) == CONTENT_TYPE then Some(value) else None
  {
    hide Lower, CONTENT_TYPE;
    var props: seq<Prop> := [Assign(Some(key), Text(value))];
    var pairs: Fields := [(key, value)];
    var links: seq<Link> := OneHeader(key, value);
    assert links[1..] == [] && pairs[1..] == [] && props[1..] == [];
    assert FieldsOf(env, req, props[1..]) == [] && FieldsOf(env, req, props) == pairs + [];
    assert ConstantPairs(props[1..]) == [] && ConstantPairs(props) == pairs + [];
    assert InnermostContentType(links[1..]) == None && InnermostContentType(links) == LastContentType(pairs);
    assert LastContentType(pairs[1..]) == None;
    assert PutAll(Put([], key, value), pairs[1..]) == Put([], key, value);
  }

  // ---------------------------------------------------------------- what a client sees of a compiled response

  function ShapeHeaders(s: Shape): map<Bytes, Bytes> {
    if s.Static? && IsRedirect(s.contentType) then map[LOCATION := s.contentType[|REDIRECT|..]]
      else map[CONTENT_TYPE := s.contentType]
  }

  lemma StatusSeen(status: nat)
    ensures ReadStatus(StatusLine(status)) == Some(status)
  {
    assert Ascii("HTTP/1.1 ") == Ascii("HTTP/1.1") + [BLANK] && Ascii(" ") == [BLANK];
    var version := Ascii("HTTP/1.1");
    assert BLANK !in version;
    hide Ascii, Digits, StatusText;
    assert StatusLine(status) == version + [BLANK] + Digits(status) + [BLANK] + StatusText(status);
    StatusReads(version, status, StatusText(status));
  }

  lemma HeaderNames()
    ensures Ascii("Content-Type: ") == TYPE_NAME + [NAME_END, BLANK] && NAME_END !in TYPE_NAME
    ensures Ascii("Location: ") == LOCATION_NAME + [NAME_END, BLANK] && NAME_END !in LOCATION_NAME
    ensures CONTENT_TYPE != LOCATION && TYPE_NAME != LOCATION_NAME
    ensures CONTENT_TYPE != LENGTH_NAME && CONTENT_TYPE != CONNECTION_NAME && LOCATION != LENGTH_NAME
            && LOCATION != CONNECTION_NAME
  {
    assert CONTENT_TYPE[8] == 't' as int && LENGTH_NAME[8] == 'l' as int;
    assert |CONTENT_TYPE| == 12 && |CONNECTION_NAME| == 10 && |LOCATION| == 8 && |LENGTH_NAME| == 14;
  }

  /** The three header lines of an emitted response leave one header to see. */
  lemma OneFieldLeft(own: Bytes, name: Bytes, value: Bytes, length: nat)
    requires ReadField(own) == (name, value) && Lower(name) != LENGTH_NAME && Lower(name) != CONNECTION_NAME
    ensures ReadFields([own, CONTENT_LENGTH + Digits(length), KEEP_ALIVE]) == [(name, value)]
    ensures ReadFields([own, KEEP_ALIVE, CONTENT_LENGTH + Digits(length)]) == [(name, value)]
  {
    FramingNames();
    hide Ascii, Digits, ReadField, Lower, KEEP_ALIVE, CONTENT_LENGTH, CONNECTION_CLOSE, LENGTH_NAME, CONNECTION_NAME;
    var a, b := CONTENT_LENGTH + Digits(length), KEEP_ALIVE;
    assert ReadFields([]) == [];
    var none: seq<Bytes> := [];
    assert [a][1..] == none && [b][1..] == none && [a, b][1..] == [b] && [b, a][1..] == [a];
    assert ReadFields([a]) == [] && ReadFields([b]) == [] && ReadFields([a, b]) == [] && ReadFields([b, a]) == [];
    assert [own, a, b][1..] == [a, b] && [own, b, a][1..] == [b, a];
  }

  lemma OneSeen(name: Bytes, value: Bytes)
    ensures Combined([(name, value)]) == map[Lower(name) := value]
  {
    var h := [(name, value)];
    assert h[1..] == [];
    CombinedSingle(h, Lower(name), value);
  }

  lemma FieldsSeen(s: Shape, length: nat)
    ensures Combined(ReadFields(Lines(s, length)[1..])) == ShapeHeaders(s)
  {
    HeaderNames();
    LowerNames();
    hide Ascii, Digits, ReadField, Lower, ReadFields, Combined, StatusLine, KEEP_ALIVE, CONTENT_LENGTH, LENGTH_NAME,
      CONNECTION_NAME, TYPE_NAME, LOCATION_NAME, CONTENT_TYPE, LOCATION, REDIRECT;
    var l := Lines(s, length);
    if s.Static? && IsRedirect(s.contentType) {
      var url := s.contentType[|REDIRECT|..];
      FieldReads(LOCATION_NAME, url);
      OneFieldLeft(l[1], LOCATION_NAME, url, 0);
      OneSeen(LOCATION_NAME, url);
      assert l[1..] == [l[1], CONTENT_LENGTH + Digits(0), KEEP_ALIVE];
    } else {
      FieldReads(TYPE_NAME, s.contentType);
      OneFieldLeft(l[1], TYPE_NAME, s.contentType, length);
      OneSeen(TYPE_NAME, s.contentType);
      assert l[1..] == if s.Static? then [l[1], CONTENT_LENGTH + Digits(length), KEEP_ALIVE]
        else [l[1], KEEP_ALIVE, CONTENT_LENGTH + Digits(length)];
    }
  }

  /** Status, header and body of a shape are what a client reads in its response. */
  lemma ResponseSeen(req: Request, s: Shape)
    requires HeaderText(s)
    ensures ReadReply(Response(req, s)) == Some(Reply(s.status, ShapeHeaders(s), BodyOf(req, s)))
  {
    hide Head, HeadLines, ReadStatus, ReadFields, Combined, StatusLine, Ascii, ShapeHeaders, AllLines;
    var body := BodyOf(req, s);
    var l := Lines(s, |body|);
    LinesAreText(s, |body|);
    HeadReads(l, body);
    StatusSeen(s.status);
    FieldsSeen(s, |body|);
    assert l[0] == StatusLine(s.status);
  }

  /** The default response, as a client sees it. */
  const DEFAULT_REPLY: Reply := Reply(500, map[], [])

  lemma DefaultSeen()
    ensures ReadReply(Head(DEFAULT_LINES)) == Some(DEFAULT_REPLY)
  {
    StatusSeen(500);
    FramingNames();
    DefaultIsText();
    assert Ascii("0") == Digits(0);
    assert Head(DEFAULT_LINES) + [] == Head(DEFAULT_LINES);
    hide Ascii, Digits, StatusLine, ReadField, Lower, Head, HeadLines, ReadStatus, KEEP_ALIVE, CONTENT_LENGTH,
      CONNECTION_CLOSE, LENGTH_NAME, CONNECTION_NAME;
    HeadReads(DEFAULT_LINES, []);
    var a, b := DEFAULT_LINES[1], DEFAULT_LINES[2];
    var none: seq<Bytes> := [];
    assert DEFAULT_LINES[1..] == [a, b] && [a, b][1..] == [b] && [b][1..] == none;
    assert ReadFields([]) == [] && ReadFields([b]) == [] && ReadFields([a, b]) == [];
    assert Combined([]) == map[];
  }

  // ---------------------------------------------------------------- one return expression

  lemma RedirectParts(url: Bytes)
    ensures IsRedirect(REDIRECT + url) && (REDIRECT + url)[|REDIRECT|..] == url
  {
    hide REDIRECT;
    assert (REDIRECT + url)[..|REDIRECT|] == REDIRECT;
  }

  lemma ShapeHasHeaders(b: Builder, links: seq<Link>, args: seq<Expr>, status: nat)
    requires ShapeOf(b, args, status, InnermostContentType(links)).Some?
    ensures ShapeHeaders(ShapeOf(b, args, status, InnermostContentType(links)).value) == CompiledHeaders(b, links, args)
  {
    UsualTypes();
    RedirectParts(RedirectTarget(args));
    hide IsRedirect, Ascii, RenderJsonLiteral, JsonChunks, TemplateChunks, REDIRECT, LOCATION, CONTENT_TYPE, TEXT_PLAIN,
      TEXT_HTML, APPLICATION_JSON;
    assert PLAIN == Ascii("text/plain");
  }

  lemma {:induction false} ChunksWrite(req: Request, first: Chunk, rest: seq<Chunk>)
    ensures |Exec(req, [first] + rest)| >= |Written(req, first)|
  {
    assert Exec(req, [first] + rest) == Written(req, first) + Exec(req, ([first] + rest)[1..]);
  }

  /** Number texts aside, no JSON text is empty. */
  lemma SettledEmpty(v: JValue)
    ensures Stringified(v) == [] <==> ToJson(v) == []
  {
    assert |INFINITY| == 8;
  }

  /** Where there are data, a body is empty exactly when the intended one is. */
  lemma EmptyAlike(req: Request, b: Builder, args: seq<Expr>, status: nat, override: Option<Bytes>)
    requires ShapeOf(b, args, status, override).Some? && !FakeRedirect(b, override, args)
    ensures IntendedBody(req, b, args).Some?
    ensures BodyOf(req, ShapeOf(b, args, status, override).value) == [] <==>
              (b == Json ==> args != []) && IntendedBody(req, b, args) == Some([])
  {
    if b != Json {
      hide Faultless, Judgeable;
      BodyExact(req, b, args, status, override);
    } else {
      UsualTypes();
      hide Ascii, Exec, ToJson, Eval, IsRedirect, NoEscapesNeeded, REDIRECT, TEXT_PLAIN, TEXT_HTML, APPLICATION_JSON,
        RenderJsonLiteral, JsonChunks, Stringified;
      if args != [] { JsonEmpty(req, args[0]); }
    }
  }

  lemma JsonEmpty(req: Request, e: Expr)
    requires RenderJsonLiteral(e).Some? || JsonChunks(e, true).Some?
    ensures Eval(req, e).Some? && JsonChunks(e, true).Some?
    ensures RenderJsonLiteral(e).Some? ==> RenderJsonLiteral(e).value == Exec(req, JsonChunks(e, true).value)
    ensures Exec(req, JsonChunks(e, true).value) == [] <==> Stringified(Eval(req, e).value) == []
  {
    hide Exec, ToJson, Eval, NoEscapesNeeded, RenderJsonLiteral, Stringified, JsonChunks;
    if RenderJsonLiteral(e).Some? {
      LiteralMeans(req, e);
      LiteralIsStructural(req, e);
      ExecLiteral(req, RenderJsonLiteral(e).value);
    }
    ValueWritten(req, e, true);
    SettledEmpty(Eval(req, e).value);
    if !NoEscapesNeeded(e) { NotEmpty(req, e); }
  }

  lemma NotEmpty(req: Request, e: Expr)
    requires !NoEscapesNeeded(e) && RenderJsonLiteral(e).None? && JsonChunks(e, true).Some? && Eval(req, e).Some?
    ensures Exec(req, JsonChunks(e, true).value) != [] && ToJson(Eval(req, e).value) != []
  {
    hide JsonChunks, Exec, Eval, ToJson, RenderJsonLiteral, ElemsPlain, PropsPlain, PlainSpans, Plain, Written;
    BracketFirst(e);
    BracketText(req, e);
    var chunks := JsonChunks(e, true).value;
    assert chunks == [chunks[0]] + chunks[1..];
    ChunksWrite(req, chunks[0], chunks[1..]);
    LiteralWrites(req, chunks[0]);
  }

  lemma LiteralWrites(req: Request, c: Chunk)
    requires c.Literal?
    ensures |Written(req, c)| == |c.bytes|
  {
  }

  lemma BracketFirst(e: Expr)
    requires (e.Template? || e.Array? || e.Object?) && RenderJsonLiteral(e).None? && JsonChunks(e, true).Some?
    ensures var chunks := JsonChunks(e, true).value; chunks != [] && chunks[0].Literal? && |chunks[0].bytes| == 1
  {
    hide RenderJsonLiteral, PropChunks, ElemChunks, TemplateChunks;
    assert MatchCtxRead(e).None?;
  }

  lemma BracketText(req: Request, e: Expr)
    requires (e.Template? || e.Array? || e.Object?) && Eval(req, e).Some?
    ensures ToJson(Eval(req, e).value) != []
  {
    hide EvalAll, EvalProps, SpansValue, ItemsText, MembersText, JsonEscape;
  }

  /**
   Where both answer with the same body: json has data without a fault, or the status admits no body and none
   is emitted. A 205 must not even be handed one.
   */
  predicate BodyKept(req: Request, b: Builder, args: seq<Expr>, status: nat) {
    if Bodyless(status) then (b == Json ==> args != []) && IntendedBody(req, b, args) == Some([])
    else (status == RESET_CONTENT ==> !HandsBody(b, args)) && JsonKept(b, args)
  }

  predicate Kept(env: Env, req: Request, b: Builder, links: seq<Link>, args: seq<Expr>) {
    && StatusKept(env, req, b, links, args) && HeadersKept(env, req, b, links, args)
    && BodyKept(req, b, args, CompiledStatus(b, links, args))
  }

  lemma HeadersFake(env: Env, req: Request, b: Builder, links: seq<Link>, args: seq<Expr>)
    requires FakeRedirect(b, InnermostContentType(links), args)
    ensures !HeadersKept(env, req, b, links, args)
  {
  }

  /**
   For every return expression the compiler takes, every request and whatever the expressions it does not look
   at are: a client of the compiled response sees the reply TypeScript gives exactly when status, headers and
   body are each kept.
   */
  lemma ReplyExact(env: Env, req: Request, target: Expr, terminal: Bytes, args: seq<Expr>)
    requires ExtractShape(Call(Property(target, terminal), args)).Some?
    requires HeaderText(ExtractShape(Call(Property(target, terminal), args)).value)
    requires LinksOf(target).Some? && BuilderNamed(terminal).Some? ==>
             JsonJudged(req, BuilderNamed(terminal).value, args)
    ensures LinksOf(target).Some? && BuilderNamed(terminal).Some?
    ensures var b, links, s := BuilderNamed(terminal).value, LinksOf(target).value,
            ExtractShape(Call(Property(target, terminal), args)).value;
            ReadReply(Response(req, s)) == RuntimeReply(env, req, b, links, args) <==> Kept(env, req, b, links, args)
  {
    hide BuilderNamed, LinksOf, IntendedBody, BodyOf, Combined, RuntimeFields, HeadersKept, StatusKept, CompiledHeaders,
      ShapeHeaders, Response, ReadReply, JsonKept, RuntimeStatus, CompiledStatus, ShapeOf, IsRedirect, JsonJudged,
      HandsBody;
    var b, links := BuilderNamed(terminal).value, LinksOf(target).value;
    var s := ExtractShape(Call(Property(target, terminal), args)).value;
    var status, override := CompiledStatus(b, links, args), InnermostContentType(links);
    StatusStands(b, args, status, override);
    ResponseSeen(req, s);
    StatusExact(env, req, b, links, args);
    HeadersExact(env, req, b, links, args);
    ShapeHasHeaders(b, links, args, status);
    if FakeRedirect(b, override, args) {
      HeadersFake(env, req, b, links, args);
    } else {
      BodyExact(req, b, args, status, override);
      EmptyAlike(req, b, args, status, override);
    }
  }
}
