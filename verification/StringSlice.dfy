/** Flattening a JSON document into a list of strings with a two-stack token loop. */
module StringSlice {
  import opened Options

  datatype Json =
    | Null
    | Bool(value: bool)
    | Number(text: string)
    | Text(text: string)
    | Array(items: seq<Json>)
    | Object(fields: seq<Field>)

  datatype Field = Field(key: string, value: Json)

  datatype Token = Open(isArray: bool) | Close | Scalar(value: Json)

  datatype Kind = ArrayKind | ObjectKind

  /** What the automaton expects next at one nesting level. */
  datatype Mode = ArrayValue | ObjectKey | ObjectValue

  datatype Config = Config(types: seq<Kind>, modes: seq<Mode>, vals: seq<string>)

  predicate IsScalar(j: Json) {
    !j.Array? && !j.Object?
  }

  /** The strings a scalar contributes: none for null. */
  function ScalarText(j: Json): seq<string>
    requires IsScalar(j)
  {
    match j
    case Null => []
    case Bool(b) => [if b then "true" else "false"]
    case Number(t) => [t]
    case Text(t) => [t]
  }

  // --- The document as tokens ---

  function Tokens(j: Json): seq<Token>
    decreases j, 1
  {
    match j
    case Array(items) => [Open(true)] + ItemTokens(items) + [Close]
    case Object(fields) => [Open(false)] + FieldTokens(fields) + [Close]
    case _ => [Scalar(j)]
  }

  function ItemTokens(items: seq<Json>): seq<Token>
    decreases items, 0
  {
    if items == [] then [] else Tokens(items[0]) + ItemTokens(items[1..])
  }

  function FieldTokens(fields: seq<Field>): seq<Token>
    decreases fields, 0
  {
    if fields == [] then []
    else [Scalar(Text(fields[0].key))] + Tokens(fields[0].value) + FieldTokens(fields[1..])
  }

  // --- The automaton ---

  /** One token; `None` is a run-time failure on an empty stack. */
  function Step(c: Config, t: Token): Option<Config> {
    match t
    case Open(isArray) =>
      Some(Config(c.types + [if isArray then ArrayKind else ObjectKind],
                  c.modes + [if isArray then ArrayValue else ObjectKey], c.vals))
    case Close =>
      if c.types == [] || c.modes == [] then None
      else Some(Config(c.types[..|c.types| - 1], c.modes[..|c.modes| - 1], c.vals))
    case Scalar(j) =>
      if c.modes == [] || !IsScalar(j) then None
      else
        var top := |c.modes| - 1;
        match c.modes[top]
        case ObjectKey => Some(c.(modes := c.modes[top := ObjectValue]))
        case ObjectValue => Some(c.(modes := c.modes[top := ObjectKey], vals := c.vals + ScalarText(j)))
        case ArrayValue => Some(c.(vals := c.vals + ScalarText(j)))
  }

  function Run(c: Option<Config>, tokens: seq<Token>): Option<Config>
    decreases tokens
  {
    if c.None? || tokens == [] then c else Run(Step(c.value, tokens[0]), tokens[1..])
  }

  const START: Config := Config([ArrayKind], [ArrayValue], [])

  method UnmarshalJSON(tokens: seq<Token>) returns (vals: Option<seq<string>>)
    ensures vals == var end := Run(Some(START), tokens); if end.Some? then Some(end.value.vals) else None
  {
    var typeStack, stateStack := [ArrayKind], [ArrayValue];
    var out: seq<string> := [];
    for i := 0 to |tokens|
      invariant Run(Some(START), tokens) == Run(Some(Config(typeStack, stateStack, out)), tokens[i..])
    {
      var token := tokens[i];
      assert tokens[i..][0] == token && tokens[i..][1..] == tokens[i + 1..];
      if token.Open? {
        typeStack := typeStack + [if token.isArray then ArrayKind else ObjectKind];
        stateStack := stateStack + [if token.isArray then ArrayValue else ObjectKey];
        continue;
      }
      if token.Close? {
        if typeStack == [] || stateStack == [] {
          return None;
        }
        typeStack := typeStack[..|typeStack| - 1];
        stateStack := stateStack[..|stateStack| - 1];
        continue;
      }
      if stateStack == [] || !IsScalar(token.value) {
        return None;
      }
      var top := |stateStack| - 1;
      match stateStack[top] {
        case ObjectKey =>
          stateStack := stateStack[top := ObjectValue];
        case ObjectValue =>
          stateStack := stateStack[top := ObjectKey];
          out := out + ScalarText(token.value);
        case ArrayValue =>
          out := out + ScalarText(token.value);
      }
    }
    vals := Some(out);
  }

  // --- What the automaton computes on every document ---

  /** The strings emitted for a value met in a mode, and the mode it leaves. */
  function Visit(j: Json, m: Mode): (seq<string>, Mode)
    decreases j, 1
  {
    match j
    case Array(items) => (VisitItems(items, ArrayValue).0, m)
    case Object(fields) => (VisitFields(fields, ObjectKey).0, m)
    case _ =>
      match m
      case ObjectKey => ([], ObjectValue)
      case ObjectValue => (ScalarText(j), ObjectKey)
      case ArrayValue => (ScalarText(j), ArrayValue)
  }

  function VisitItems(items: seq<Json>, m: Mode): (seq<string>, Mode)
    decreases items, 0
  {
    if items == [] then ([], m)
    else
      var (first, m1) := Visit(items[0], m);
      var (rest, m2) := VisitItems(items[1..], m1);
      (first + rest, m2)
  }

  function VisitFields(fields: seq<Field>, m: Mode): (seq<string>, Mode)
    decreases fields, 0
  {
    if fields == [] then ([], m)
    else
      var (key, m1) := VisitKey(fields[0].key, m);
      var (value, m2) := Visit(fields[0].value, m1);
      var (rest, m3) := VisitFields(fields[1..], m2);
      (key + value + rest, m3)
  }

  /** A key is a string scalar like any other. */
  function VisitKey(key: string, m: Mode): (seq<string>, Mode) {
    match m
    case ObjectKey => ([], ObjectValue)
    case ObjectValue => ([key], ObjectKey)
    case ArrayValue => ([key], ArrayValue)
  }

  /** The configuration after a visit: only the top mode and the output change. */
  function Visited(c: Config, visit: (seq<string>, Mode)): Config
    requires c.modes != []
  {
    Config(c.types, c.modes[|c.modes| - 1 := visit.1], c.vals + visit.0)
  }

  lemma {:induction false} RunConcat(c: Option<Config>, a: seq<Token>, b: seq<Token>)
    ensures Run(c, a + b) == Run(Run(c, a), b)
    decreases a
  {
    if a == [] {
      assert a + b == b;
    } else if c.Some? {
      RunConcat(Step(c.value, a[0]), a[1..], b);
      assert (a + b)[0] == a[0] && (a + b)[1..] == a[1..] + b;
    }
  }

  /** Main lemma: running a document's tokens is visiting the document; no pop ever fails. */
  lemma {:induction false} RunVisits(c: Config, j: Json)
    requires c.modes != []
    ensures Run(Some(c), Tokens(j)) == Some(Visited(c, Visit(j, c.modes[|c.modes| - 1])))
    decreases j, 1
  {
    match j {
      case Array(items) =>
        var inner := Config(c.types + [ArrayKind], c.modes + [ArrayValue], c.vals);
        RunItemsVisit(inner, items);
        RunNested(c, inner, ItemTokens(items), VisitItems(items, ArrayValue), Open(true));
      case Object(fields) =>
        var inner := Config(c.types + [ObjectKind], c.modes + [ObjectKey], c.vals);
        RunFieldsVisit(inner, fields);
        RunNested(c, inner, FieldTokens(fields), VisitFields(fields, ObjectKey), Open(false));
      case _ =>
        RunScalar(c, j);
    }
  }

  lemma RunScalar(c: Config, j: Json)
    requires c.modes != [] && IsScalar(j)
    ensures Run(Some(c), [Scalar(j)]) == Some(Visited(c, Visit(j, c.modes[|c.modes| - 1])))
  {
    RunOne(c, Scalar(j));
    assert c.vals + [] == c.vals;
    assert c.modes[|c.modes| - 1 := c.modes[|c.modes| - 1]] == c.modes;
  }

  lemma RunOne(c: Config, t: Token)
    ensures Run(Some(c), [t]) == Step(c, t)
  {
    assert Run(Step(c, t), []) == Step(c, t);
  }

  /** Opening, visiting the inside and closing leaves the outer stacks as they were. */
  lemma RunNested(c: Config, inner: Config, tokens: seq<Token>, visit: (seq<string>, Mode), t: Token)
    requires c.modes != [] && t.Open? && Step(c, t) == Some(inner) && inner.modes != []
    requires Run(Some(inner), tokens) == Some(Visited(inner, visit))
    ensures Run(Some(c), [t] + tokens + [Close]) == Some(Visited(c, (visit.0, c.modes[|c.modes| - 1])))
  {
    RunOne(c, t);
    RunConcat(Some(c), [t], tokens);
    RunConcat(Some(c), [t] + tokens, [Close]);
    var end := Visited(inner, visit);
    RunOne(end, Close);
    assert end.types[..|end.types| - 1] == c.types;
    assert end.modes[..|end.modes| - 1] == c.modes == c.modes[|c.modes| - 1 := c.modes[|c.modes| - 1]];
  }

  lemma {:induction false} RunItemsVisit(c: Config, items: seq<Json>)
    requires c.modes != []
    ensures Run(Some(c), ItemTokens(items)) == Some(Visited(c, VisitItems(items, c.modes[|c.modes| - 1])))
    decreases items, 0
  {
    var m := c.modes[|c.modes| - 1];
    if items == [] {
      assert Visited(c, ([], m)) == c;
    } else {
      RunVisits(c, items[0]);
      var c1 := Visited(c, Visit(items[0], m));
      RunItemsVisit(c1, items[1..]);
      RunConcat(Some(c), Tokens(items[0]), ItemTokens(items[1..]));
      VisitedTwice(c, Visit(items[0], m), VisitItems(items[1..], Visit(items[0], m).1));
    }
  }

  lemma VisitedTwice(c: Config, first: (seq<string>, Mode), second: (seq<string>, Mode))
    requires c.modes != []
    ensures Visited(Visited(c, first), second) == Visited(c, (first.0 + second.0, second.1))
  {
    assert c.vals + first.0 + second.0 == c.vals + (first.0 + second.0);
  }

  lemma {:induction false} RunFieldsVisit(c: Config, fields: seq<Field>)
    requires c.modes != []
    ensures Run(Some(c), FieldTokens(fields)) == Some(Visited(c, VisitFields(fields, c.modes[|c.modes| - 1])))
    decreases fields, 0
  {
    var m := c.modes[|c.modes| - 1];
    if fields == [] {
      assert Visited(c, ([], m)) == c;
    } else {
      var key, value, rest := [Scalar(Text(fields[0].key))], Tokens(fields[0].value), FieldTokens(fields[1..]);
      var v1 := VisitKey(fields[0].key, m);
      RunScalar(c, Text(fields[0].key));
      var c1 := Visited(c, v1);
      assert Run(Some(c), key) == Some(c1);
      RunVisits(c1, fields[0].value);
      var v2 := Visit(fields[0].value, v1.1);
      RunFieldsVisit(Visited(c1, v2), fields[1..]);
      var v3 := VisitFields(fields[1..], v2.1);
      RunConcat(Some(c), key, value);
      RunConcat(Some(c), key + value, rest);
      VisitedTwice(c, v1, v2);
      VisitedTwice(c, (v1.0 + v2.0, v2.1), v3);
    }
  }

  // --- The intended flattening ---

  /** All non-null array elements and object values, left to right. */
  function Flatten(j: Json): seq<string>
    decreases j, 1
  {
    match j
    case Array(items) => FlattenItems(items)
    case Object(fields) => FlattenFields(fields)
    case _ => ScalarText(j)
  }

  function FlattenItems(items: seq<Json>): seq<string>
    decreases items, 0
  {
    if items == [] then [] else Flatten(items[0]) + FlattenItems(items[1..])
  }

  function FlattenFields(fields: seq<Field>): seq<string>
    decreases fields, 0
  {
    if fields == [] then [] else Flatten(fields[0].value) + FlattenFields(fields[1..])
  }

  /** Arrays and objects occur inside an object only as its last value, at every depth. */
  predicate NestsLast(j: Json)
    decreases j, 1
  {
    match j
    case Array(items) => forall i :: 0 <= i < |items| ==> NestsLast(items[i])
    case Object(fields) =>
      forall i :: 0 <= i < |fields| ==>
        (i < |fields| - 1 ==> IsScalar(fields[i].value)) && NestsLast(fields[i].value)
    case _ => true
  }

  lemma {:induction false} VisitFlattens(j: Json)
    requires NestsLast(j)
    ensures Visit(j, ArrayValue) == (Flatten(j), ArrayValue)
    ensures Visit(j, ObjectValue) == (Flatten(j), if IsScalar(j) then ObjectKey else ObjectValue)
    decreases j, 1
  {
    match j {
      case Array(items) => VisitItemsFlattens(items);
      case Object(fields) => VisitFieldsFlattens(fields);
      case _ =>
    }
  }

  lemma {:induction false} VisitItemsFlattens(items: seq<Json>)
    requires forall i :: 0 <= i < |items| ==> NestsLast(items[i])
    ensures VisitItems(items, ArrayValue) == (FlattenItems(items), ArrayValue)
    decreases items, 0
  {
    if items != [] {
      VisitFlattens(items[0]);
      VisitItemsFlattens(items[1..]);
    }
  }

  lemma {:induction false} VisitFieldsFlattens(fields: seq<Field>)
    requires forall i :: 0 <= i < |fields| ==>
               (i < |fields| - 1 ==> IsScalar(fields[i].value)) && NestsLast(fields[i].value)
    ensures VisitFields(fields, ObjectKey).0 == FlattenFields(fields)
    decreases fields, 0
  {
    if fields != [] {
      VisitFlattens(fields[0].value);
      var rest := fields[1..];
      assert forall i :: 0 <= i < |rest| ==> rest[i] == fields[i + 1];
      VisitFieldsFlattens(rest);
      assert [] + Flatten(fields[0].value) == Flatten(fields[0].value);
    }
  }

  /** Main result: such documents flatten as intended and the stacks end as they started. */
  lemma DocumentFlattens(j: Json)
    requires NestsLast(j)
    ensures Run(Some(START), Tokens(j)) == Some(START.(vals := Flatten(j)))
  {
    RunVisits(START, j);
    VisitFlattens(j);
    assert [] + Flatten(j) == Flatten(j);
    assert START.modes[0 := ArrayValue] == START.modes;
  }

  /** What one scalar contributes, as an array element and as an object value: nothing for null, else its text. */
  lemma ScalarOutput(j: Json, key: string)
    requires IsScalar(j)
    ensures var text := match j
                        case Null => []
                        case Bool(b) => if b then ["true"] else ["false"]
                        case Number(digits) => [digits]
                        case Text(chars) => [chars];
            && Run(Some(START), Tokens(Array([j]))) == Some(START.(vals := text))
            && Run(Some(START), Tokens(Object([Field(key, j)]))) == Some(START.(vals := text))
  {
    var items, fields := [j], [Field(key, j)];
    assert items[1..] == [] && fields[1..] == [];
    assert FlattenItems(items) == Flatten(items[0]) + FlattenItems(items[1..]);
    assert FlattenFields(fields) == Flatten(fields[0].value) + FlattenFields(fields[1..]);
    assert Flatten(Array(items)) == ScalarText(j) == Flatten(Object(fields));
    DocumentFlattens(Array([j]));
    DocumentFlattens(Object([Field(key, j)]));
  }

  /** Every key of every object is read as a key. */
  predicate KeysInPlace(j: Json)
    decreases j, 1
  {
    match j
    case Array(items) => forall i :: 0 <= i < |items| ==> KeysInPlace(items[i])
    case Object(fields) => KeysInPlaceFrom(fields, ObjectKey)
    case _ => true
  }

  predicate KeysInPlaceFrom(fields: seq<Field>, m: Mode)
    decreases fields, 0
  {
    fields == [] ||
    (&& m == ObjectKey
     && KeysInPlace(fields[0].value)
     && KeysInPlaceFrom(fields[1..], Visit(fields[0].value, VisitKey(fields[0].key, m).1).1))
  }

  /** The condition is exact: otherwise some key is read as a value. */
  lemma {:induction false} KeysInPlaceExactly(j: Json)
    ensures KeysInPlace(j) <==> NestsLast(j)
    decreases j, 1
  {
    match j {
      case Array(items) =>
        forall i | 0 <= i < |items|
          ensures KeysInPlace(items[i]) <==> NestsLast(items[i])
        {
          KeysInPlaceExactly(items[i]);
        }
      case Object(fields) => FieldKeysInPlaceExactly(fields);
      case _ =>
    }
  }

  lemma {:induction false} FieldKeysInPlaceExactly(fields: seq<Field>)
    ensures KeysInPlaceFrom(fields, ObjectKey) <==>
              forall i :: 0 <= i < |fields| ==>
                (i < |fields| - 1 ==> IsScalar(fields[i].value)) && NestsLast(fields[i].value)
    decreases fields, 0
  {
    if fields != [] {
      var rest := fields[1..];
      KeysInPlaceExactly(fields[0].value);
      FieldKeysInPlaceExactly(rest);
      assert forall i :: 0 <= i < |rest| ==> rest[i] == fields[i + 1];
      assert forall i :: 1 <= i < |fields| ==> fields[i] == rest[i - 1];
      assert |fields| > 1 && !IsScalar(fields[0].value) ==> !KeysInPlaceFrom(fields, ObjectKey);
    }
  }

  // --- Exactly when the output is the flattening ---

  /** The keys of all objects in a document. */
  function Keys(j: Json): set<string>
    decreases j, 1
  {
    match j
    case Array(items) => ItemKeys(items)
    case Object(fields) => FieldKeys(fields)
    case _ => {}
  }

  function ItemKeys(items: seq<Json>): set<string>
    decreases items, 0
  {
    if items == [] then {} else Keys(items[0]) + ItemKeys(items[1..])
  }

  function FieldKeys(fields: seq<Field>): set<string>
    decreases fields, 0
  {
    if fields == [] then {} else {fields[0].key} + Keys(fields[0].value) + FieldKeys(fields[1..])
  }

  /** The texts of all scalar elements and values in a document. */
  function Texts(j: Json): set<string>
    decreases j, 1
  {
    match j
    case Array(items) => ItemTexts(items)
    case Object(fields) => FieldTexts(fields)
    case _ => set s | s in ScalarText(j)
  }

  function ItemTexts(items: seq<Json>): set<string>
    decreases items, 0
  {
    if items == [] then {} else Texts(items[0]) + ItemTexts(items[1..])
  }

  function FieldTexts(fields: seq<Field>): set<string>
    decreases fields, 0
  {
    if fields == [] then {} else Texts(fields[0].value) + FieldTexts(fields[1..])
  }

  lemma {:induction false} FlattenTexts(j: Json)
    ensures forall s :: s in Flatten(j) ==> s in Texts(j)
    decreases j, 1
  {
    match j {
      case Array(items) => FlattenItemTexts(items);
      case Object(fields) => FlattenFieldTexts(fields);
      case _ =>
    }
  }

  lemma {:induction false} FlattenItemTexts(items: seq<Json>)
    ensures forall s :: s in FlattenItems(items) ==> s in ItemTexts(items)
    decreases items, 0
  {
    if items != [] {
      FlattenTexts(items[0]);
      FlattenItemTexts(items[1..]);
    }
  }

  lemma {:induction false} FlattenFieldTexts(fields: seq<Field>)
    ensures forall s :: s in FlattenFields(fields) ==> s in FieldTexts(fields)
    decreases fields, 0
  {
    if fields != [] {
      FlattenTexts(fields[0].value);
      FlattenFieldTexts(fields[1..]);
    }
  }

  /** Where a key is read as a value, it is emitted, whatever mode the document is met in. */
  lemma {:induction false} MisreadKeyIsEmitted(j: Json, m: Mode) returns (k: string)
    requires !KeysInPlace(j)
    ensures k in Keys(j) && k in Visit(j, m).0
    decreases j, 1
  {
    if j.Array? {
      k := MisreadItemKey(j.items);
    } else {
      k := MisreadFieldKey(j.fields, ObjectKey);
    }
  }

  lemma {:induction false} MisreadItemKey(items: seq<Json>) returns (k: string)
    requires exists i :: 0 <= i < |items| && !KeysInPlace(items[i])
    ensures k in ItemKeys(items) && k in VisitItems(items, ArrayValue).0
    decreases items, 0
  {
    var rest := items[1..];
    if !KeysInPlace(items[0]) {
      k := MisreadKeyIsEmitted(items[0], ArrayValue);
    } else {
      var i :| 0 <= i < |items| && !KeysInPlace(items[i]);
      assert rest[i - 1] == items[i];
      k := MisreadItemKey(rest);
      VisitKeepsArrayMode(items[0]);
    }
  }

  lemma VisitKeepsArrayMode(j: Json)
    ensures Visit(j, ArrayValue).1 == ArrayValue
  {
  }

  lemma {:induction false} MisreadFieldKey(fields: seq<Field>, m: Mode) returns (k: string)
    requires m != ArrayValue && !KeysInPlaceFrom(fields, m)
    ensures k in FieldKeys(fields) && k in VisitFields(fields, m).0
    decreases fields, 0
  {
    var key, value := VisitKey(fields[0].key, m), fields[0].value;
    if m == ObjectValue {
      k := fields[0].key;
      assert key.0 == [k];
    } else if !KeysInPlace(value) {
      k := MisreadKeyIsEmitted(value, key.1);
    } else {
      k := MisreadFieldKey(fields[1..], Visit(value, key.1).1);
    }
  }

  /**
   Main result, exact on the output: for a document in which no key is also the text
   of a scalar, the loop yields the flattening if and only if arrays and objects occur
   only as last values of objects. A key that is read as a value gives it away.
   */
  lemma FlattensExactly(j: Json)
    requires Keys(j) !! Texts(j)
    ensures Run(Some(START), Tokens(j)) == Some(START.(vals := Flatten(j))) <==> NestsLast(j)
  {
    KeysInPlaceExactly(j);
    if NestsLast(j) {
      DocumentFlattens(j);
    } else {
      var k := MisreadKeyIsEmitted(j, ArrayValue);
      RunVisits(START, j);
      FlattenTexts(j);
      assert k in START.vals + Visit(j, ArrayValue).0 && k !in Flatten(j);
    }
  }

  /** Otherwise a misread key can happen to be the value it displaces. */
  lemma DisplacedByItself()
    ensures var j := Object([Field("a", Array([])), Field("b", Text("b"))]);
            !NestsLast(j) && Visit(j, ArrayValue).0 == Flatten(j)
  {
    var a, b := Array([]), [Field("b", Text("b"))];
    var fields := [Field("a", a)] + b;
    assert fields == [Field("a", a), Field("b", Text("b"))] && fields[1..] == b && b[1..] == [];
    assert VisitFields(b, ObjectValue).0 == ["b"] && FlattenFields(b) == ["b"];
    assert VisitFields(fields, ObjectKey).0 == [] + [] + VisitFields(b, ObjectValue).0;
    assert fields[0].value == a && !IsScalar(a);
  }

  const SHIFTED: Json := Object([Field("a", Array([Number("1")])), Field("b", Number("2"))])

  lemma ShiftedVisit()
    ensures Visit(SHIFTED, ArrayValue) == (["1", "b"], ArrayValue)
    ensures Flatten(SHIFTED) == ["1", "2"]
  {
    var a, b := Array([Number("1")]), [Field("b", Number("2"))];
    assert a.items[1..] == [] && b[1..] == [] && SHIFTED.fields[1..] == b;
    assert VisitItems(a.items, ArrayValue).0 == ["1"] && FlattenItems(a.items) == ["1"];
    assert VisitFields(b, ObjectValue).0 == ["b"] && FlattenFields(b) == ["2"];
    assert VisitFields(SHIFTED.fields, ObjectKey).0 == [] + Visit(a, ObjectValue).0 + VisitFields(b, ObjectValue).0;
    assert [] + ["1"] + ["b"] == ["1", "b"];
  }

  /** A nested value that is not last makes the loop take the next key for a value. */
  lemma NestedValueShiftsKeys()
    ensures Run(Some(START), Tokens(SHIFTED)) == Some(START.(vals := ["1", "b"]))
    ensures Flatten(SHIFTED) == ["1", "2"]
  {
    ShiftedVisit();
    RunVisits(START, SHIFTED);
    assert Visited(START, (["1", "b"], ArrayValue)) == START.(vals := ["1", "b"]) by {
      assert START.modes[0 := ArrayValue] == START.modes && START.vals + ["1", "b"] == ["1", "b"];
    }
  }
}
