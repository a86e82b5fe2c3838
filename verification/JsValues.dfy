/** What JavaScript makes of a literal, and JSON.stringify of that: numbers, and objects property by property. */
module JsValues {
  import opened Bytes
  import opened Decimal
  import opened JsonText

  const INFINITY: Bytes := Ascii("Infinity")
  const PROTO: Bytes := Ascii("__proto__")
  const ZERO: Bytes := [48]
  const INDEX_LIMIT: nat := 0xFFFF_FFFF

  // ---------------------------------------------------------------- numbers

  /** Texts that JSON.stringify writes as they stand: all but those of minus zero and of the infinities. */
  predicate NumberKept(text: Bytes) {
    text != [MINUS] + ZERO && text != INFINITY && text != [MINUS] + INFINITY
  }

  function NumberValue(text: Bytes): JValue {
    if NumberKept(text) then JNum(text) else if text == [MINUS] + ZERO then JNum(ZERO) else JNull
  }

  // ---------------------------------------------------------------- objects

  /** Array indices are enumerated before all other keys, in ascending order. */
  predicate IsIndex(key: Bytes) {
    IsDigits(key) && (key[0] == 48 ==> |key| == 1) && Value(key) < INDEX_LIMIT
  }

  /** May `a` stand in front of `b` among the keys of an object? */
  predicate Before(a: Bytes, b: Bytes) {
    a != b && (IsIndex(b) ==> IsIndex(a) && Value(a) <= Value(b))
  }

  /** The members of an object after one more assignment of a literal; `__proto__` sets no property. */
  function Assigned(members: seq<Member>, m: Member): seq<Member> {
    if m.key == PROTO then members
    else if members == [] then [m]
    else if members[0].key == m.key then [m] + members[1..]
    else if Before(members[0].key, m.key) then [members[0]] + Assigned(members[1..], m)
    else [m] + members
  }

  /** The members of an object literal, from those written. */
  function Built(members: seq<Member>): seq<Member> {
    if members == [] then [] else Assigned(Built(members[..|members| - 1]), members[|members| - 1])
  }

  function KeysOf(members: seq<Member>): seq<Bytes> {
    seq(|members|, i requires 0 <= i < |members| => members[i].key)
  }

  /** Keys as an object enumerates them. */
  predicate InOrder(keys: seq<Bytes>) {
    && (forall i :: 0 <= i < |keys| ==> keys[i] != PROTO)
    && (forall i, j :: 0 <= i < j < |keys| ==> Before(keys[i], keys[j]))
  }

  predicate Distinct(keys: seq<Bytes>) {
    forall i, j :: 0 <= i < j < |keys| ==> keys[i] != keys[j]
  }

  lemma {:induction false} AssignedMembers(members: seq<Member>, m: Member)
    ensures forall x :: x in Assigned(members, m) ==> x in members || x == m
  {
    if members != [] && m.key != PROTO && members[0].key != m.key && Before(members[0].key, m.key) {
      AssignedMembers(members[1..], m);
    }
  }

  lemma InOrderCons(a: Bytes, keys: seq<Bytes>)
    ensures InOrder([a] + keys) <==> a != PROTO && InOrder(keys) && forall j :: 0 <= j < |keys| ==> Before(a, keys[j])
  {
    hide PROTO, Before;
    var all := [a] + keys;
    if InOrder(all) {
      assert all[0] == a;
      forall j | 0 <= j < |keys| ensures keys[j] != PROTO && Before(a, keys[j]) { assert all[j + 1] == keys[j]; }
      forall i, j | 0 <= i < j < |keys| ensures Before(keys[i], keys[j]) {
        assert all[i + 1] == keys[i] && all[j + 1] == keys[j];
      }
    }
  }

  lemma {:induction false} AssignedInOrder(members: seq<Member>, m: Member)
    requires InOrder(KeysOf(members))
    ensures InOrder(KeysOf(Assigned(members, m)))
  {
    hide IsIndex, PROTO, InOrder;
    InOrderCons(m.key, []);
    NoKeys();
    if members != [] && m.key != PROTO {
      var first, rest, keys := members[0], members[1..], KeysOf(members);
      assert keys == [first.key] + KeysOf(rest);
      InOrderCons(first.key, KeysOf(rest));
      if first.key == m.key {
        assert KeysOf(Assigned(members, m)) == keys;
      } else if Before(first.key, m.key) {
        AssignedInOrder(rest, m);
        AssignedMembers(rest, m);
        var out := Assigned(rest, m);
        assert KeysOf(Assigned(members, m)) == [first.key] + KeysOf(out);
        forall j | 0 <= j < |out| ensures Before(first.key, KeysOf(out)[j]) {
          if out[j] in rest {
            var i :| 0 <= i < |rest| && rest[i] == out[j];
            assert KeysOf(rest)[i] == out[j].key;
          }
        }
        InOrderCons(first.key, KeysOf(out));
      } else {
        assert KeysOf(Assigned(members, m)) == [m.key] + keys;
        forall j | 0 <= j < |keys| ensures Before(m.key, keys[j]) {
          if j > 0 { assert keys[j] == KeysOf(rest)[j - 1]; }
        }
        InOrderCons(m.key, keys);
      }
    } else if members == [] && m.key != PROTO {
      assert KeysOf(Assigned(members, m)) == [m.key] + [];
    }
  }

  lemma NoKeys()
    ensures InOrder([])
  {
  }

  /** An object never enumerates its keys out of order, and has no members but those written. */
  lemma {:induction false} BuiltInOrder(members: seq<Member>)
    ensures InOrder(KeysOf(Built(members)))
    ensures forall x :: x in Built(members) ==> x in members
  {
    if members != [] {
      var before, last := members[..|members| - 1], members[|members| - 1];
      BuiltInOrder(before);
      AssignedInOrder(Built(before), last);
      AssignedMembers(Built(before), last);
    }
  }

  lemma {:induction false} AppendsLast(members: seq<Member>, m: Member)
    requires m.key != PROTO && forall i :: 0 <= i < |members| ==> Before(members[i].key, m.key)
    ensures Assigned(members, m) == members + [m]
  {
    if members != [] {
      AppendsLast(members[1..], m);
      assert members == [members[0]] + members[1..];
    }
  }

  /** Members stay as written exactly when their keys are in order. */
  lemma {:induction false} BuiltExactly(members: seq<Member>)
    ensures Built(members) == members <==> InOrder(KeysOf(members))
    ensures KeysOf(Built(members)) == KeysOf(members) <==> InOrder(KeysOf(members))
  {
    BuiltInOrder(members);
    if members != [] && InOrder(KeysOf(members)) {
      var before, last := members[..|members| - 1], members[|members| - 1];
      var keys := KeysOf(members);
      assert KeysOf(before) == keys[..|before|] && keys[|before|] == last.key;
      BuiltExactly(before);
      forall i | 0 <= i < |before| ensures Before(before[i].key, last.key) { assert Before(keys[i], keys[|before|]); }
      AppendsLast(before, last);
      assert before + [last] == members;
    }
  }

  // ---------------------------------------------------------------- values

  /** The value JSON.stringify sees, from the literal as written. */
  function Settled(v: JValue): JValue
    decreases v
  {
    match v
    case JNum(text) => NumberValue(text)
    case JArr(items) => JArr(SettledItems(items))
    case JObj(members) => JObj(Built(SettledMembers(members)))
    case _ => v
  }

  function SettledItems(items: seq<JValue>): seq<JValue>
    decreases items
  {
    if items == [] then [] else [Settled(items[0])] + SettledItems(items[1..])
  }

  function SettledMembers(members: seq<Member>): seq<Member>
    decreases members
  {
    if members == [] then []
    else
      assert members[0] in members;
      [Member(members[0].key, Settled(members[0].value))] + SettledMembers(members[1..])
  }

  /** JSON.stringify of a literal. */
  function Stringified(v: JValue): Bytes {
    ToJson(Settled(v))
  }

  lemma {:induction false} SettledKeys(members: seq<Member>)
    ensures KeysOf(SettledMembers(members)) == KeysOf(members)
    decreases members
  {
    hide Settled;
    if members != [] {
      SettledKeys(members[1..]);
      assert KeysOf(members) == [members[0].key] + KeysOf(members[1..]);
      assert KeysOf(SettledMembers(members)) == [members[0].key] + KeysOf(SettledMembers(members[1..]));
    }
  }

  /** Nothing changes in an object exactly when its keys are in order and nothing changes in its values. */
  lemma ObjectSettles(members: seq<Member>)
    ensures Built(SettledMembers(members)) == members <==>
            SettledMembers(members) == members && InOrder(KeysOf(members))
  {
    hide InOrder, Built, SettledMembers;
    SettledKeys(members);
    BuiltExactly(SettledMembers(members));
  }

  /** A number stays a number. */
  lemma {:induction false} SettledNumbers(v: JValue)
    requires Numbers(v)
    ensures Numbers(Settled(v))
    decreases v
  {
    hide NumberText;
    match v
    case JNum(text) => ZeroIsNumber();
    case JArr(items) =>
      ItemNumbers(items);
    case JObj(members) =>
      MemberNumbers(members);
      BuiltInOrder(SettledMembers(members));
      var built := Built(SettledMembers(members));
      forall i | 0 <= i < |built| ensures Numbers(built[i].value) { assert built[i] in SettledMembers(members); }
    case _ =>
  }

  lemma ZeroIsNumber()
    ensures NumberText(ZERO)
  {
  }

  lemma {:induction false} ItemNumbers(items: seq<JValue>)
    requires forall i :: 0 <= i < |items| ==> Numbers(items[i])
    ensures forall i :: 0 <= i < |SettledItems(items)| ==> Numbers(SettledItems(items)[i])
    decreases items
  {
    if items != [] {
      SettledNumbers(items[0]);
      ItemNumbers(items[1..]);
    }
  }

  lemma {:induction false} MemberNumbers(members: seq<Member>)
    requires forall i :: 0 <= i < |members| ==> Numbers(members[i].value)
    ensures forall m :: m in SettledMembers(members) ==> Numbers(m.value)
    decreases members
  {
    if members != [] {
      assert members[0] in members;
      SettledNumbers(members[0].value);
      MemberNumbers(members[1..]);
    }
  }
}
