/** The untyped property bags (`any`) of the intermediate JSON and the JavaScript
    coercions the handlers apply to them: property access, truthiness, `String(v)`
    (template-literal interpolation) and `JSON.stringify`. Numbers are integers. */
module JsValue {
  import opened Basics

  datatype Json =
    | JNull
    | JBool(b: bool)
    | JNum(n: int)
    | JStr(s: string)
    | JArr(items: seq<Json>)
    | JObj(fields: seq<Member>)

  /** One `name: value` member of an object, as the JSON text lists it. A name
      may be listed twice: the object `JSON.parse` builds then holds a single
      property of that name, created where the name is first listed and holding
      the value listed last. */
  datatype Member = Member(name: string, value: Json)

  /** Some member carries that name. */
  predicate HasName(fields: seq<Member>, name: string)
  {
    exists k :: 0 <= k < |fields| && fields[k].name == name
  }

  /** The index of the last member of that name. */
  function LastIndex(fields: seq<Member>, name: string): (r: Option<nat>)
    ensures r.Some? ==> r.value < |fields| && fields[r.value].name == name
                        && forall j :: r.value < j < |fields| ==> fields[j].name != name
    ensures r.None? <==> !HasName(fields, name)
    decreases |fields|
  {
    if fields == [] then None
    else if fields[|fields| - 1].name == name then Some(|fields| - 1)
    else
      var init := fields[..|fields| - 1];
      assert forall k :: 0 <= k < |init| ==> init[k] == fields[k];
      LastIndex(init, name)
  }

  /** `o[name]`: the last member of that name (a key written twice keeps its last
      value, as `JSON.parse` does), or `undefined` (None) for a missing member and
      for every value that is not an object. */
  function Prop(j: Json, name: string): (r: Option<Json>)
    ensures r.Some? ==> j.JObj? && exists k :: 0 <= k < |j.fields| && j.fields[k] == Member(name, r.value)
  {
    if j.JObj? then Lookup(j.fields, name) else None
  }

  function Lookup(fields: seq<Member>, name: string): (r: Option<Json>)
    ensures r.Some? ==> exists k :: 0 <= k < |fields| && fields[k] == Member(name, r.value)
                                    && forall j :: k < j < |fields| ==> fields[j].name != name
    ensures r.None? ==> forall k :: 0 <= k < |fields| ==> fields[k].name != name
  {
    match LastIndex(fields, name)
    case None => None
    case Some(k) => Some(fields[k].value)
  }

  /** JavaScript truthiness; `undefined` is None. */
  predicate Truthy(v: Option<Json>)
  {
    match v
    case None => false
    case Some(j) =>
      match j
      case JNull => false
      case JBool(b) => b
      case JNum(n) => n != 0
      case JStr(s) => s != ""
      case JArr(_) => true
      case JObj(_) => true
  }

  /** `typeof v === 'string'`. */
  predicate IsString(v: Option<Json>) { v.Some? && v.value.JStr? }

  /** `Array.isArray(v)`. */
  predicate IsArray(v: Option<Json>) { v.Some? && v.value.JArr? }

  /** The text of a value known to be a string, and "" otherwise. */
  function StringOf(v: Option<Json>): string
  {
    if IsString(v) then v.value.s else ""
  }

  // ------------------------------------------------------------- String(v)

  /** `String(v)`, which is also what `${v}` interpolates. */
  function ToText(j: Json): string
    decreases j, 1
  {
    match j
    case JNull => "null"
    case JBool(b) => if b then "true" else "false"
    case JNum(n) => IntText(n)
    case JStr(s) => s
    case JArr(xs) => Join(ElementTexts(xs), ",")
    case JObj(_) => "[object Object]"
  }

  /** What `Array.prototype.join` writes for each element: null becomes "". */
  function ElementTexts(xs: seq<Json>): (r: seq<string>)
    ensures |r| == |xs|
    decreases xs, 0
  {
    if xs == [] then []
    else [if xs[0].JNull? then "" else ToText(xs[0])] + ElementTexts(xs[1..])
  }

  /** `${v}` for a possibly missing value: `undefined` prints as "undefined". */
  function OptText(v: Option<Json>): string
  {
    if v.Some? then ToText(v.value) else "undefined"
  }

  // --------------------------------------------------------- JSON.stringify

  function HexDigit(d: nat): char
    requires d < 16
  {
    "0123456789abcdef"[d]
  }

  /** One character inside a JSON string literal. */
  function EscapeChar(c: char): string
  {
    if c == '"' then "\\\""
    else if c == '\\' then "\\\\"
    else if c as int == 0x08 then "\\b"
    else if c as int == 0x0C then "\\f"
    else if c == '\n' then "\\n"
    else if c == '\r' then "\\r"
    else if c == '\t' then "\\t"
    else if c as int < 0x20 then "\\u00" + [HexDigit(c as int / 16), HexDigit(c as int % 16)]
    else [c]
  }

  function EscapeText(s: string): string
    decreases |s|
  {
    if s == [] then [] else EscapeChar(s[0]) + EscapeText(s[1..])
  }

  function Quote(s: string): string
  {
    "\"" + EscapeText(s) + "\""
  }

  // ------------------------------------------------- own property order

  /** No key is listed twice. */
  predicate Distinct(keys: seq<string>)
  {
    forall i, j :: 0 <= i < j < |keys| ==> keys[i] != keys[j]
  }

  /** The names of an object's properties in the order they were created: each
      name once, where it is first listed. */
  function CreationOrder(fields: seq<Member>): (r: seq<string>)
    ensures Distinct(r)
    ensures forall n :: n in r <==> HasName(fields, n)
    decreases |fields|
  {
    if fields == [] then []
    else
      var init := fields[..|fields| - 1];
      var last := fields[|fields| - 1].name;
      var names := CreationOrder(init);
      assert forall n :: HasName(fields, n) <==> HasName(init, n) || n == last by {
        forall n | HasName(fields, n) ensures HasName(init, n) || n == last {
          var k :| 0 <= k < |fields| && fields[k].name == n;
          if k < |init| {
            assert init[k].name == n;
          }
        }
        forall n | HasName(init, n) ensures HasName(fields, n) {
          var k :| 0 <= k < |init| && init[k].name == n;
          assert fields[k].name == n;
        }
        assert fields[|fields| - 1].name == last;
      }
      if last in names then names else names + [last]
  }

  /** Every member named `y` has a member named `x` before it: the property `x`
      was created before the property `y`. */
  predicate CreatedBefore(fields: seq<Member>, x: string, y: string)
  {
    forall k :: 0 <= k < |fields| && fields[k].name == y ==> HasName(fields[..k], x)
  }

  /** Each key was created before every key listed after it. */
  predicate InCreationOrder(fields: seq<Member>, keys: seq<string>)
  {
    forall i, j :: 0 <= i < j < |keys| ==> CreatedBefore(fields, keys[i], keys[j])
  }

  /** The names come in the order their properties were created. */
  lemma {:induction false} CreationOrderFirst(fields: seq<Member>)
    ensures InCreationOrder(fields, CreationOrder(fields))
    decreases |fields|
  {
    if fields != [] {
      var init := fields[..|fields| - 1];
      var last := fields[|fields| - 1].name;
      var names := CreationOrder(init);
      var r := CreationOrder(fields);
      CreationOrderFirst(init);
      assert forall k :: 0 <= k < |init| ==> fields[..k] == init[..k];
      forall i, j | 0 <= i < j < |r| ensures CreatedBefore(fields, r[i], r[j]) {
        forall k | 0 <= k < |fields| && fields[k].name == r[j] ensures HasName(fields[..k], r[i]) {
          assert r[i] in names && HasName(init, r[i]);
          if k < |init| {
            assert init[k].name == r[j] && HasName(init, r[j]);
            assert j < |names|;
            assert CreatedBefore(init, names[i], names[j]);
          } else {
            assert fields[..k] == init;
          }
        }
      }
    }
  }

  /** The decimal value of a text of digits; a character that is not a digit
      counts as 0. */
  function DigitsValue(s: string): nat
    decreases |s|
  {
    if s == [] then 0
    else
      var c := s[|s| - 1];
      10 * DigitsValue(s[..|s| - 1]) + (if IsDigit(c) then c as int - '0' as int else 0)
  }

  /** An array index (section 6.1.7 of ECMA-262): the canonical decimal text of
      an integer below 2^32 - 1. */
  predicate IsIndexKey(name: string)
  {
    DigitsValue(name) < 0xFFFF_FFFF && NatText(DigitsValue(name)) == name
  }

  /** Two array indices with the same value are the same key. */
  lemma IndexKeyInjective(a: string, b: string)
    requires IsIndexKey(a) && IsIndexKey(b) && DigitsValue(a) == DigitsValue(b)
    ensures a == b
  {
  }

  /** The keys of `keys` that are array indices (`index`), or those that are not,
      in their order. */
  function Select(keys: seq<string>, index: bool): (r: seq<string>)
    ensures forall n :: n in r <==> n in keys && IsIndexKey(n) == index
    ensures Distinct(keys) ==> Distinct(r)
    decreases |keys|
  {
    if keys == [] then []
    else
      var init := keys[..|keys| - 1];
      var last := keys[|keys| - 1];
      assert forall n :: n in keys <==> n in init || n == last by {
        assert keys == init + [last];
      }
      assert Distinct(keys) ==> Distinct(init) && last !in init by {
        if Distinct(keys) {
          forall i, j | 0 <= i < j < |init| ensures init[i] != init[j] {
            assert init[i] == keys[i] && init[j] == keys[j];
          }
          forall i | 0 <= i < |init| ensures init[i] != last {
            assert init[i] == keys[i];
          }
        }
      }
      Select(init, index) + (if IsIndexKey(last) == index then [last] else [])
  }
  /** Selecting keys keeps their creation order. */
  lemma {:induction false} SelectKeepsOrder(fields: seq<Member>, keys: seq<string>, index: bool)
    requires InCreationOrder(fields, keys)
    ensures InCreationOrder(fields, Select(keys, index))
    decreases |keys|
  {
    if keys != [] {
      var init := keys[..|keys| - 1];
      var last := keys[|keys| - 1];
      var sel := Select(init, index);
      var r := Select(keys, index);
      assert InCreationOrder(fields, init) by {
        forall i, j | 0 <= i < j < |init| ensures CreatedBefore(fields, init[i], init[j]) {
          assert init[i] == keys[i] && init[j] == keys[j];
        }
      }
      SelectKeepsOrder(fields, init, index);
      forall i, j | 0 <= i < j < |r| ensures CreatedBefore(fields, r[i], r[j]) {
        if j >= |sel| {
          assert r[i] == sel[i] && r[i] in init && r[j] == last;
          var a :| 0 <= a < |init| && init[a] == r[i];
          assert keys[a] == r[i] && keys[|keys| - 1] == r[j];
        } else {
          assert r[i] == sel[i] && r[j] == sel[j];
        }
      }
    }
  }


  /** Keys in strictly ascending numeric order. */
  predicate Ascending(keys: seq<string>)
  {
    forall i, j :: 0 <= i < j < |keys| ==> DigitsValue(keys[i]) < DigitsValue(keys[j])
  }

  /** Inserts a key into keys ascending by numeric value. */
  function InsertIndexKey(sorted: seq<string>, key: string): (r: seq<string>)
    ensures |r| == |sorted| + 1
    decreases |sorted|
  {
    if sorted == [] || DigitsValue(key) < DigitsValue(sorted[0]) then [key] + sorted
    else [sorted[0]] + InsertIndexKey(sorted[1..], key)
  }

  /** Insertion adds just the key. */
  lemma {:induction false} InsertIndexKeyElements(sorted: seq<string>, key: string)
    ensures forall n :: n in InsertIndexKey(sorted, key) <==> n in sorted || n == key
    decreases |sorted|
  {
    if sorted != [] && DigitsValue(key) >= DigitsValue(sorted[0]) {
      InsertIndexKeyElements(sorted[1..], key);
      assert sorted == [sorted[0]] + sorted[1..];
    }
  }

  /** A key below the first of ascending keys may go in front of them. */
  lemma ConsAscending(key: string, sorted: seq<string>)
    requires Ascending(sorted)
    requires sorted == [] || DigitsValue(key) < DigitsValue(sorted[0])
    ensures Ascending([key] + sorted)
  {
    var r := [key] + sorted;
    forall i, j | 0 <= i < j < |r| ensures DigitsValue(r[i]) < DigitsValue(r[j]) {
      assert r[j] == sorted[j - 1];
      if i == 0 {
        assert j == 1 || DigitsValue(sorted[0]) < DigitsValue(sorted[j - 1]);
      } else {
        assert r[i] == sorted[i - 1];
      }
    }
  }

  /** Insertion keeps the order when the key's value is new; the first key is
      the inserted one or the old first one. */
  lemma {:induction false} InsertIndexKeyAscending(sorted: seq<string>, key: string)
    requires Ascending(sorted)
    requires forall k :: 0 <= k < |sorted| ==> DigitsValue(sorted[k]) != DigitsValue(key)
    ensures Ascending(InsertIndexKey(sorted, key))
    ensures InsertIndexKey(sorted, key)[0] == key || (sorted != [] && InsertIndexKey(sorted, key)[0] == sorted[0])
    decreases |sorted|
  {
    if sorted == [] || DigitsValue(key) < DigitsValue(sorted[0]) {
      ConsAscending(key, sorted);
    } else {
      var tail := sorted[1..];
      assert Ascending(tail) by {
        forall i, j | 0 <= i < j < |tail| ensures DigitsValue(tail[i]) < DigitsValue(tail[j]) {
          assert tail[i] == sorted[i + 1] && tail[j] == sorted[j + 1];
        }
      }
      assert forall k :: 0 <= k < |tail| ==> tail[k] == sorted[k + 1];
      InsertIndexKeyAscending(tail, key);
      var rest := InsertIndexKey(tail, key);
      assert DigitsValue(sorted[0]) < DigitsValue(rest[0]);
      ConsAscending(sorted[0], rest);
    }
  }

  /** Insertion sort of keys by numeric value. */
  function SortIndexKeys(keys: seq<string>): (r: seq<string>)
    decreases |keys|
  {
    if keys == [] then [] else InsertIndexKey(SortIndexKeys(keys[..|keys| - 1]), keys[|keys| - 1])
  }

  /** Distinct array indices sort into strictly ascending order, and the sort
      keeps exactly its input keys. */
  lemma {:induction false} SortIndexKeysSorted(keys: seq<string>)
    requires Distinct(keys) && forall n :: n in keys ==> IsIndexKey(n)
    ensures Ascending(SortIndexKeys(keys))
    ensures forall n :: n in SortIndexKeys(keys) <==> n in keys
    decreases |keys|
  {
    if keys != [] {
      var init := keys[..|keys| - 1];
      var last := keys[|keys| - 1];
      assert keys == init + [last];
      assert Distinct(init) by {
        forall i, j | 0 <= i < j < |init| ensures init[i] != init[j] {
          assert init[i] == keys[i] && init[j] == keys[j];
        }
      }
      SortIndexKeysSorted(init);
      var sorted := SortIndexKeys(init);
      forall k | 0 <= k < |sorted| ensures DigitsValue(sorted[k]) != DigitsValue(last) {
        var x := sorted[k];
        assert x in sorted;
        var i :| 0 <= i < |init| && init[i] == x;
        assert keys[i] == x && keys[i] != keys[|keys| - 1];
        if DigitsValue(x) == DigitsValue(last) {
          IndexKeyInjective(x, last);
        }
      }
      InsertIndexKeyAscending(sorted, last);
      InsertIndexKeyElements(sorted, last);
    }
  }

  /** The keys of an object in the order `JSON.stringify` visits them
      (`OrdinaryOwnPropertyKeys`, section 10.1.11.1 of ECMA-262): the array
      indices in ascending numeric order, then the other names in creation order. */
  function OwnKeys(fields: seq<Member>): seq<string>
  {
    var names := CreationOrder(fields);
    SortIndexKeys(Select(names, true)) + Select(names, false)
  }

  /** Every property of the object is listed once; array indices come first, in
      ascending numeric order, and the other names follow. */
  lemma OwnKeysOrder(fields: seq<Member>)
    ensures Distinct(OwnKeys(fields))
    ensures forall n :: n in OwnKeys(fields) <==> HasName(fields, n)
    ensures forall i, j :: 0 <= i < j < |OwnKeys(fields)| && IsIndexKey(OwnKeys(fields)[j]) ==>
              IsIndexKey(OwnKeys(fields)[i]) && DigitsValue(OwnKeys(fields)[i]) < DigitsValue(OwnKeys(fields)[j])
  {
    var names := CreationOrder(fields);
    var indices := Select(names, true);
    var others := Select(names, false);
    SortIndexKeysSorted(indices);
    var sorted := SortIndexKeys(indices);
    var r := sorted + others;
    assert r == OwnKeys(fields);
    forall i, j | 0 <= i < j < |r| ensures r[i] != r[j] {
      if j < |sorted| {
      } else if i >= |sorted| {
        assert r[i] == others[i - |sorted|] && r[j] == others[j - |sorted|];
      } else {
        assert r[i] in sorted && r[j] in others;
      }
    }
    forall i, j | 0 <= i < j < |r| && IsIndexKey(r[j])
      ensures IsIndexKey(r[i]) && DigitsValue(r[i]) < DigitsValue(r[j])
    {
      assert r[j] !in others;
      assert j < |sorted| && r[i] == sorted[i] && r[j] == sorted[j];
      assert r[i] in sorted;
    }
  }

  /** After the array indices, the other names follow in creation order. */
  lemma OwnKeysCreationOrder(fields: seq<Member>)
    ensures forall i, j :: 0 <= i < j < |OwnKeys(fields)| && !IsIndexKey(OwnKeys(fields)[i]) ==>
              !IsIndexKey(OwnKeys(fields)[j]) && CreatedBefore(fields, OwnKeys(fields)[i], OwnKeys(fields)[j])
  {
    var names := CreationOrder(fields);
    var indices := Select(names, true);
    var others := Select(names, false);
    SortIndexKeysSorted(indices);
    CreationOrderFirst(fields);
    SelectKeepsOrder(fields, names, false);
    IndicesThenOthers(fields, SortIndexKeys(indices), others);
  }

  lemma IndicesThenOthers(fields: seq<Member>, sorted: seq<string>, others: seq<string>)
    requires forall n :: n in sorted ==> IsIndexKey(n)
    requires forall n :: n in others ==> !IsIndexKey(n)
    requires InCreationOrder(fields, others)
    ensures var r := sorted + others;
            forall i, j :: 0 <= i < j < |r| && !IsIndexKey(r[i]) ==> !IsIndexKey(r[j]) && CreatedBefore(fields, r[i], r[j])
  {
    var r := sorted + others;
    forall i, j | 0 <= i < j < |r| && !IsIndexKey(r[i])
      ensures !IsIndexKey(r[j]) && CreatedBefore(fields, r[i], r[j])
    {
      assert r[i] !in sorted;
      assert i >= |sorted| && r[i] == others[i - |sorted|] && r[j] == others[j - |sorted|];
    }
  }


  /** `JSON.stringify(v)` without indentation; an object prints its own
      properties in key order. */
  function Stringify(j: Json): string
    decreases j, 1, 0
  {
    match j
    case JNull => "null"
    case JBool(b) => if b then "true" else "false"
    case JNum(n) => IntText(n)
    case JStr(s) => Quote(s)
    case JArr(xs) => "[" + Join(StringifyItems(xs), ",") + "]"
    case JObj(ms) => "{" + Join(StringifyMembers(ms, OwnKeys(ms)), ",") + "}"
  }

  function StringifyItems(xs: seq<Json>): (r: seq<string>)
    ensures |r| == |xs|
    decreases xs, 0, 0
  {
    if xs == [] then [] else [Stringify(xs[0])] + StringifyItems(xs[1..])
  }

  /** `"key":value` for each key, with the value of the last member of that name;
      a key no member carries reads `undefined`, which `JSON.stringify` leaves out. */
  function StringifyMembers(ms: seq<Member>, keys: seq<string>): (r: seq<string>)
    decreases ms, 0, |keys|
  {
    if keys == [] then []
    else
      match LastIndex(ms, keys[0])
      case None => StringifyMembers(ms, keys[1..])
      case Some(i) =>
        assert ms[i] in ms;
        [Quote(keys[0]) + ":" + Stringify(ms[i].value)] + StringifyMembers(ms, keys[1..])
  }

  /** Keys that all name a property each print once, in order, with the value
      `o[key]` reads. */
  lemma {:induction false} StringifyMembersRead(ms: seq<Member>, keys: seq<string>)
    requires forall n :: n in keys ==> HasName(ms, n)
    ensures |StringifyMembers(ms, keys)| == |keys|
    ensures forall i :: 0 <= i < |keys| ==>
              Prop(JObj(ms), keys[i]).Some? && StringifyMembers(ms, keys)[i] == Quote(keys[i]) + ":" + Stringify(Prop(JObj(ms), keys[i]).value)
    decreases |keys|
  {
    if keys != [] {
      var rest := keys[1..];
      assert forall n :: n in rest ==> n in keys;
      StringifyMembersRead(ms, rest);
      assert keys[0] in keys;
      var k := LastIndex(ms, keys[0]).value;
      var texts := StringifyMembers(ms, keys);
      assert texts == [Quote(keys[0]) + ":" + Stringify(ms[k].value)] + StringifyMembers(ms, rest);
      forall i | 0 <= i < |keys|
        ensures Prop(JObj(ms), keys[i]).Some?
        ensures texts[i] == Quote(keys[i]) + ":" + Stringify(Prop(JObj(ms), keys[i]).value)
      {
        if i > 0 {
          assert keys[i] == rest[i - 1] && texts[i] == StringifyMembers(ms, rest)[i - 1];
        }
      }
    }
  }

  /** `JSON.stringify` of an object prints each of its properties exactly once,
      array indices first in ascending order, each with the value `o[key]` reads:
      a name listed twice prints once, with its last value. */
  lemma StringifyObject(ms: seq<Member>)
    ensures var keys := OwnKeys(ms);
            && Stringify(JObj(ms)) == "{" + Join(StringifyMembers(ms, keys), ",") + "}"
            && |StringifyMembers(ms, keys)| == |keys|
            && forall i :: 0 <= i < |keys| ==>
                 Prop(JObj(ms), keys[i]).Some?
                 && StringifyMembers(ms, keys)[i] == Quote(keys[i]) + ":" + Stringify(Prop(JObj(ms), keys[i]).value)
  {
    OwnKeysOrder(ms);
    StringifyMembersRead(ms, OwnKeys(ms));
  }

  /** The object `{"a": 1, "a": 2}` has the one key "a". */
  lemma DuplicateOwnKeys()
    ensures OwnKeys([Member("a", JNum(1)), Member("a", JNum(2))]) == ["a"]
  {
    var ms := [Member("a", JNum(1)), Member("a", JNum(2))];
    assert CreationOrder(ms[..1]) == ["a"];
    assert NatText(0) == "0";
    assert !IsIndexKey("a");
  }

  /** Its key prints with the last value. */
  lemma DuplicateMembers()
    ensures StringifyMembers([Member("a", JNum(1)), Member("a", JNum(2))], ["a"]) == ["\"a\":2"]
  {
    var ms := [Member("a", JNum(1)), Member("a", JNum(2))];
    assert LastIndex(ms, "a") == Some(1);
    assert NatText(2) == "2";
    assert ["a"][1..] == [];
    assert Quote("a") + ":" + "2" == "\"a\":2";
  }

  /** A name listed twice prints once, with its last value. */
  lemma DuplicateNamePrintsOnce()
    ensures Stringify(JObj([Member("a", JNum(1)), Member("a", JNum(2))])) == "{\"a\":2}"
  {
    DuplicateUnfold();
    DuplicateOwnKeys();
    DuplicateMembers();
    DuplicateJoin();
  }

  /** How the object prints, before its keys and members are known. */
  lemma DuplicateUnfold()
    ensures var ms := [Member("a", JNum(1)), Member("a", JNum(2))];
            Stringify(JObj(ms)) == "{" + Join(StringifyMembers(ms, OwnKeys(ms)), ",") + "}"
  {
  }

  /** Its one member joined. */
  lemma DuplicateJoin()
    ensures "{" + Join(["\"a\":2"], ",") + "}" == "{\"a\":2}"
  {
  }

  /** "b" is a name and "2" an array index. */
  lemma MixedKeyKinds()
    ensures !IsIndexKey("b") && IsIndexKey("2")
  {
    assert NatText(0) == "0" && NatText(2) == "2";
  }

  /** The object `{"b": 1, "2": 2}` creates "b", then "2". */
  lemma MixedCreationOrder()
    ensures CreationOrder([Member("b", JNum(1)), Member("2", JNum(2))]) == ["b", "2"]
  {
    var ms := [Member("b", JNum(1)), Member("2", JNum(2))];
    assert CreationOrder(ms[..1]) == ["b"];
  }

  /** Its array index "2" comes first. */
  lemma MixedOwnKeys()
    ensures OwnKeys([Member("b", JNum(1)), Member("2", JNum(2))]) == ["2", "b"]
  {
    MixedCreationOrder();
    MixedKeyKinds();
    assert ["b", "2"][..1] == ["b"];
    assert Select(["b"], true) == [] && Select(["b"], false) == ["b"];
    assert Select(["b", "2"], true) == ["2"] && Select(["b", "2"], false) == ["b"];
  }

  /** Its keys print with their values. */
  lemma MixedMembers()
    ensures StringifyMembers([Member("b", JNum(1)), Member("2", JNum(2))], ["2", "b"]) == ["\"2\":2", "\"b\":1"]
  {
    var ms := [Member("b", JNum(1)), Member("2", JNum(2))];
    assert LastIndex(ms, "2") == Some(1) && LastIndex(ms, "b") == Some(0);
    assert NatText(1) == "1" && NatText(2) == "2";
    assert ["2", "b"][1..] == ["b"] && ["b"][1..] == [];
    assert Quote("2") + ":" + "2" == "\"2\":2" && Quote("b") + ":" + "1" == "\"b\":1";
  }

  /** How the object prints, before its keys and members are known. */
  lemma MixedUnfold()
    ensures var ms := [Member("b", JNum(1)), Member("2", JNum(2))];
            Stringify(JObj(ms)) == "{" + Join(StringifyMembers(ms, OwnKeys(ms)), ",") + "}"
  {
  }

  /** Its two members joined. */
  lemma MixedJoin()
    ensures "{" + Join(["\"2\":2", "\"b\":1"], ",") + "}" == "{\"2\":2,\"b\":1}"
  {
    var a, b := "\"2\":2", "\"b\":1";
    assert [a, b][1..] == [b];
  }

  /** An array index prints before a name listed earlier. */
  lemma IndexKeyPrintsFirst()
    ensures Stringify(JObj([Member("b", JNum(1)), Member("2", JNum(2))])) == "{\"2\":2,\"b\":1}"
  {
    MixedUnfold();
    MixedOwnKeys();
    MixedMembers();
    MixedJoin();
  }
}
